/**
 * The captcha registry (`all_captchas`) and the filter that turns the
 * module's option tokens into the list of challenges to choose from
 * (`init_captcha_list`).
 */
module Registry {
  import opened Wrappers

  /** The challenge functions the module knows. */
  datatype Variant = Math | RandomString

  /** One row of the registry: an option name and the challenge it enables. */
  datatype Entry = Entry(name: string, func: Variant)

  /** The registry, in table order (the NULL sentinel row is the end of the sequence). */
  const AllCaptchas: seq<Entry> := [Entry("math", Math), Entry("randomstring", RandomString)]

  /** The capacity the challenge list starts with. */
  const InitialCapacity: nat := 10

  /** The option name that enables a challenge. */
  function Name(v: Variant): string {
    match v
    case Math => "math"
    case RandomString => "randomstring"
  }

  /** The challenge that an option names, if any. */
  function Lookup(opt: string): (r: Option<Variant>)
    ensures r.Some? ==> Name(r.value) == opt
    ensures r.None? ==> forall v: Variant :: Name(v) != opt
  {
    if opt == "math" then Some(Math)
    else if opt == "randomstring" then Some(RandomString)
    else None
  }

  /** The challenges of the table rows whose name is exactly `opt`, in table order. */
  function Matches(opt: string, table: seq<Entry>): seq<Variant> {
    if table == [] then []
    else
      var last := table[|table| - 1];
      Matches(opt, table[..|table| - 1]) + (if last.name == opt then [last.func] else [])
  }

  /** The challenge list the options produce: for each option in turn, the
      challenges whose registered name it equals. */
  function Filter(argv: seq<string>): seq<Variant> {
    if argv == [] then []
    else Filter(argv[..|argv| - 1]) + Matches(argv[|argv| - 1], AllCaptchas)
  }

  /** The registry rows have distinct names, so an option matches at most one
      row, and the row it matches is the one `Lookup` gives. */
  lemma MatchesAllCaptchas(opt: string)
    ensures Matches(opt, AllCaptchas) == if Lookup(opt).Some? then [Lookup(opt).value] else []
  {
    var first := AllCaptchas[..1];
    assert first == [Entry("math", Math)] && first[..0] == [];
    assert AllCaptchas[..|AllCaptchas| - 1] == first;
    assert Matches(opt, first) == if opt == "math" then [Math] else [];
    assert Matches(opt, AllCaptchas) == Matches(opt, first) + if opt == "randomstring" then [RandomString] else [];
  }

  /** While the table is being scanned, no row before a matching one matches too. */
  lemma UniqueMatchPrefix(opt: string, x: nat)
    requires x <= |AllCaptchas|
    ensures |Matches(opt, AllCaptchas[..x])| <= 1
    ensures x < |AllCaptchas| && AllCaptchas[x].name == opt ==> Matches(opt, AllCaptchas[..x]) == []
  {
    assert AllCaptchas[..2] == AllCaptchas;
    assert AllCaptchas[..1] == [Entry("math", Math)];
    assert AllCaptchas[..1][..0] == [];
    assert AllCaptchas[..0] == [];
    MatchesAllCaptchas(opt);
  }

  /** Filtering never yields more challenges than there are options. */
  lemma {:induction false} FilterLength(argv: seq<string>)
    ensures |Filter(argv)| <= |argv|
  {
    if argv != [] {
      FilterLength(argv[..|argv| - 1]);
      MatchesAllCaptchas(argv[|argv| - 1]);
    }
  }

  /** The filter works option by option: the list for two option runs is the
      two lists in the same order. */
  lemma {:induction false} FilterAppend(a: seq<string>, b: seq<string>)
    ensures Filter(a + b) == Filter(a) + Filter(b)
  {
    if b != [] {
      var b' := b[..|b| - 1];
      assert (a + b)[..|a + b| - 1] == a + b';
      FilterAppend(a, b');
    } else {
      assert a + b == a;
    }
  }

  /** One option gives its challenge if it is registered and nothing otherwise. */
  lemma FilterSingle(opt: string)
    ensures Filter([opt]) == if Lookup(opt).Some? then [Lookup(opt).value] else []
  {
    assert [opt][..0] == [];
    MatchesAllCaptchas(opt);
  }

  /** An unknown option is skipped: removing it changes nothing. */
  lemma FilterSkipsUnknown(a: seq<string>, opt: string, b: seq<string>)
    requires Lookup(opt).None?
    ensures Filter(a + [opt] + b) == Filter(a + b)
  {
    FilterAppend(a + [opt], b);
    FilterAppend(a, [opt]);
    FilterSingle(opt);
    FilterAppend(a, b);
  }

  /** When every option is registered, the list holds one challenge per
      option, in option order. */
  lemma {:induction false} FilterOfRegistered(argv: seq<string>)
    requires forall i :: 0 <= i < |argv| ==> Lookup(argv[i]).Some?
    ensures |Filter(argv)| == |argv|
    ensures forall i :: 0 <= i < |argv| ==> Filter(argv)[i] == Lookup(argv[i]).value
  {
    if argv != [] {
      var p, opt := argv[..|argv| - 1], argv[|argv| - 1];
      assert forall i :: 0 <= i < |p| ==> p[i] == argv[i];
      FilterOfRegistered(p);
      MatchesAllCaptchas(opt);
      var l := Filter(p) + [Lookup(opt).value];
      assert Filter(argv) == l;
      forall i | 0 <= i < |argv|
        ensures l[i] == Lookup(argv[i]).value
      {
        if i < |p| {
          assert l[i] == Filter(p)[i];
        }
      }
    }
  }

  /** Weighting by repetition: a challenge occurs in the list exactly as often
      as its name occurs among the options. */
  lemma {:induction false} FilterWeight(argv: seq<string>, v: Variant)
    ensures multiset(Filter(argv))[v] == multiset(argv)[Name(v)]
  {
    if argv != [] {
      var p, opt := argv[..|argv| - 1], argv[|argv| - 1];
      assert argv == p + [opt];
      FilterWeight(p, v);
      MatchesAllCaptchas(opt);
    }
  }

  /** The list is empty exactly when no option names a registered challenge. */
  lemma {:induction false} FilterEmpty(argv: seq<string>)
    ensures Filter(argv) == [] <==> forall i :: 0 <= i < |argv| ==> Lookup(argv[i]).None?
  {
    if argv != [] {
      var p, opt := argv[..|argv| - 1], argv[|argv| - 1];
      FilterEmpty(p);
      MatchesAllCaptchas(opt);
      assert forall i :: 0 <= i < |p| ==> p[i] == argv[i];
    }
  }

  /** Every challenge in the list was named by some option. */
  lemma FilterOnlyConfigured(argv: seq<string>, v: Variant)
    requires v in Filter(argv)
    ensures Name(v) in argv
  {
    FilterWeight(argv, v);
  }

  /** `realloc` to twice the capacity followed by the `memset` that clears the
      new half: the old slots are kept and the new ones hold no function. */
  method Grow(list: array<Option<Variant>>) returns (bigger: array<Option<Variant>>)
    ensures fresh(bigger)
    ensures bigger.Length == 2 * list.Length
    ensures bigger[..list.Length] == list[..]
    ensures forall i :: list.Length <= i < bigger.Length ==> bigger[i] == None
  {
    bigger := new Option<Variant>[2 * list.Length](_ => None);
    forall i | 0 <= i < list.Length {
      bigger[i] := list[i];
    }
  }

  /** `init_captcha_list`: scan the options in order, append the challenge of
      every registry row whose name equals the option, and double the capacity
      whenever the list becomes full. */
  method InitCaptchaList(argv: seq<string>) returns (list: array<Option<Variant>>, num: nat)
    ensures num == |Filter(argv)| && num <= |argv|
    ensures InitialCapacity <= list.Length && num < list.Length
    ensures forall i :: 0 <= i < num ==> list[i] == Some(Filter(argv)[i])
    ensures forall i :: num <= i < list.Length ==> list[i] == None
  {
    list := new Option<Variant>[InitialCapacity](_ => None);
    num := 0;
    for y := 0 to |argv|
      invariant fresh(list)
      invariant InitialCapacity <= list.Length && num < list.Length
      invariant num == |Filter(argv[..y])|
      invariant forall i :: 0 <= i < num ==> list[i] == Some(Filter(argv[..y])[i])
      invariant forall i :: num <= i < list.Length ==> list[i] == None
    {
      var opt := argv[y];
      ghost var before := Filter(argv[..y]);
      for x := 0 to |AllCaptchas|
        invariant num == |before| + |Matches(opt, AllCaptchas[..x])|
        invariant num < list.Length + (if Matches(opt, AllCaptchas[..x]) == [] then 0 else 1)
        invariant forall i :: 0 <= i < num ==> list[i] == Some((before + Matches(opt, AllCaptchas[..x]))[i])
        invariant forall i :: num <= i < list.Length ==> list[i] == None
      {
        UniqueMatchPrefix(opt, x);
        assert AllCaptchas[..x + 1][..x] == AllCaptchas[..x];
        if opt == AllCaptchas[x].name {
          list[num] := Some(AllCaptchas[x].func);
          num := num + 1;
        }
      }
      assert AllCaptchas[..|AllCaptchas|] == AllCaptchas;
      assert argv[..y + 1][..y] == argv[..y];
      if num == list.Length {
        list := Grow(list);
      }
    }
    assert argv[..|argv|] == argv;
    FilterLength(argv);
  }
}
