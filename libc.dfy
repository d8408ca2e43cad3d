/**
 * The few C library facilities the captcha engine relies on, as functions:
 * the `rand()` stream, C strings (text up to the first NUL), `strchr`-style
 * searching, `atoi` and the `%d` conversion of `printf`.
 */
module Libc {

  /** The results of successive `rand()` calls: `rand(i)` is the i-th draw.
      Every draw is non-negative, as `rand()`'s are. */
  type Rand = nat -> nat

  /** The `rand()` stream that yields `draws` and then zeros. */
  function Stream(draws: seq<nat>): Rand {
    (i: nat) => if i < |draws| then draws[i] else 0
  }

  lemma StreamAt(draws: seq<nat>, i: nat)
    requires i < |draws|
    ensures Stream(draws)(i) == draws[i]
  {
  }

  lemma ModSmall(d: nat, n: nat)
    requires d < n
    ensures d % n == d
  {
  }

  /** The index of the first `c` in `s`, or `|s|` when there is none. */
  function IndexOf(s: seq<char>, c: char): (k: nat)
    ensures k <= |s|
    ensures k < |s| ==> s[k] == c
    ensures forall i :: 0 <= i < k ==> s[i] != c
  {
    if s == [] then 0
    else if s[0] == c then 0
    else 1 + IndexOf(s[1..], c)
  }

  /** The first `c` in `s` is at `k` when `k` holds `c` (or is the end) and nothing before it does. */
  lemma IndexOfIs(s: seq<char>, c: char, k: nat)
    requires k <= |s| && (k < |s| ==> s[k] == c)
    requires forall i :: 0 <= i < k ==> s[i] != c
    ensures IndexOf(s, c) == k
  {
  }

  /** The C string held in `s`: everything before the first NUL. */
  function CString(s: seq<char>): (t: string)
    ensures |t| <= |s| && t == s[..|t|]
    ensures '\0' !in t
    ensures |t| < |s| ==> s[|t|] == '\0'
  {
    s[..IndexOf(s, '\0')]
  }

  /** A NUL at or before the end of the C string is its terminator. */
  lemma CStringEnd(s: seq<char>, k: nat)
    requires k <= |CString(s)| && k < |s| && s[k] == '\0'
    ensures k == |CString(s)|
  {
  }

  lemma CStringOfNulFree(s: seq<char>)
    requires '\0' !in s
    ensures CString(s) == s
  {
  }

  /** A buffer that holds `out` followed by a terminating NUL holds the C string
      of `out`, whatever comes after the terminator. */
  lemma {:induction false} CStringOfTerminated(buf: seq<char>, out: seq<char>)
    requires |out| < |buf| && buf[..|out|] == out && buf[|out|] == '\0'
    ensures CString(buf) == CString(out)
  {
    var k := IndexOf(out, '\0');
    if k < |out| {
      assert buf[k] == '\0';
      assert forall i :: 0 <= i < k ==> buf[i] == out[i];
      assert IndexOf(buf, '\0') == k;
    } else {
      assert forall i :: 0 <= i < |out| ==> buf[i] == out[i];
      assert IndexOf(buf, '\0') == |out|;
    }
  }

  // ---------------------------------------------------------------------
  // atoi

  /** The characters `isspace` accepts in the C locale. */
  predicate IsSpace(c: char) {
    c == ' ' || c == '\t' || c == '\n' || c == '\U{B}' || c == '\U{C}' || c == '\r'
  }

  predicate IsDigit(c: char) {
    '0' <= c <= '9'
  }

  predicate AllDigits(s: string) {
    forall i :: 0 <= i < |s| ==> IsDigit(s[i])
  }

  function DigitValue(c: char): (d: nat)
    requires IsDigit(c)
    ensures d < 10
  {
    (c as int) - ('0' as int)
  }

  function DigitChar(d: nat): (c: char)
    requires d < 10
    ensures IsDigit(c) && DigitValue(c) == d
  {
    (('0' as int) + d) as char
  }

  /** `s` without its leading white space. */
  function SkipSpace(s: string): (t: string)
    ensures |t| <= |s| && t == s[|s| - |t|..]
    ensures t == [] || !IsSpace(t[0])
    ensures (forall i :: 0 <= i < |s| ==> !IsSpace(s[i])) ==> t == s
  {
    if s != [] && IsSpace(s[0]) then SkipSpace(s[1..]) else s
  }

  /** The length of the run of digits that `s` starts with. */
  function DigitRun(s: string): (k: nat)
    ensures k <= |s|
    ensures AllDigits(s[..k])
    ensures k < |s| ==> !IsDigit(s[k])
  {
    if s != [] && IsDigit(s[0]) then 1 + DigitRun(s[1..]) else 0
  }

  /** The number a string of decimal digits denotes (0 for the empty string). */
  function ValueOf(ds: string): nat
    requires AllDigits(ds)
  {
    if ds == [] then 0 else ValueOf(ds[..|ds| - 1]) * 10 + DigitValue(ds[|ds| - 1])
  }

  /** `atoi`: leading white space, an optional sign, then as many digits as
      follow; 0 when there are none. Overflow is not modelled. */
  function Atoi(s: string): int {
    var t := SkipSpace(s);
    if t != [] && (t[0] == '-' || t[0] == '+') then
      var m: int := ValueOf(t[1..][..DigitRun(t[1..])]);
      if t[0] == '-' then -m else m
    else
      ValueOf(t[..DigitRun(t)])
  }

  // ---------------------------------------------------------------------
  // %d

  /** The decimal digits of `n`, most significant first, with no leading zero. */
  function NatDecimal(n: nat): (s: string)
    ensures |s| >= 1 && AllDigits(s)
  {
    if n < 10 then [DigitChar(n)] else NatDecimal(n / 10) + [DigitChar(n % 10)]
  }

  /** What `printf("%d", n)` writes. */
  function Decimal(n: int): (s: string)
    ensures |s| >= 1
  {
    if n < 0 then "-" + NatDecimal(-n) else NatDecimal(n)
  }

  function Pow10(k: nat): (p: nat)
    ensures p >= 1
  {
    if k == 0 then 1 else 10 * Pow10(k - 1)
  }

  /** A number below 10^k is printed with at most k digits. */
  lemma {:induction false} NatDecimalLength(n: nat, k: nat)
    requires 1 <= k && n < Pow10(k)
    ensures |NatDecimal(n)| <= k
  {
    if n >= 10 {
      assert k >= 2;
      NatDecimalLength(n / 10, k - 1);
    }
  }

  lemma {:induction false} ValueOfNatDecimal(n: nat)
    ensures ValueOf(NatDecimal(n)) == n
  {
    if n >= 10 {
      var s := NatDecimal(n);
      assert s[..|s| - 1] == NatDecimal(n / 10);
      ValueOfNatDecimal(n / 10);
    }
  }

  /** `atoi` reads back every number `%d` prints: the reply that types the
      answer out in decimal is parsed to the answer. */
  lemma AtoiDecimal(n: int)
    ensures Atoi(Decimal(n)) == n
  {
    var s := Decimal(n);
    assert !IsSpace(s[0]);
    assert SkipSpace(s) == s;
    if n < 0 {
      assert s[1..] == NatDecimal(-n);
      assert DigitRun(s[1..]) == |s| - 1;
      assert s[1..][..|s| - 1] == s[1..];
      ValueOfNatDecimal(-n);
    } else {
      assert DigitRun(s) == |s|;
      assert s[..|s|] == s;
      ValueOfNatDecimal(n);
    }
  }

  /** A reply with no digit after its white space and optional sign is read as 0. */
  lemma AtoiNonNumeric(s: string)
    requires var t := SkipSpace(s);
      if t != [] && (t[0] == '-' || t[0] == '+') then t[1..] == [] || !IsDigit(t[1]) else t == [] || !IsDigit(t[0])
    ensures Atoi(s) == 0
  {
    var t := SkipSpace(s);
    if t != [] && (t[0] == '-' || t[0] == '+') {
      assert DigitRun(t[1..]) == 0;
      assert t[1..][..0] == [];
    } else {
      assert DigitRun(t) == 0;
      assert t[..0] == [];
    }
  }
}
