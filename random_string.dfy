/**
 * The random-string challenge (`randomstring_captcha`): an eight-character
 * key is drawn from a fixed alphabet, rendered, and the reply must be exactly
 * the key.
 */
module RandomString {
  import opened Libc
  import opened Pam
  import Figlet

  /** `alphabet`: upper and lower case letters without I, L, i, l and o. */
  const Alphabet: string := "ABCDEFGHJKMNOPQRSTUVWXYZabcdefghjkmnpqrstuvwxyz"

  /** The number of characters in a key. */
  const KeyLength: nat := 8

  /** A letter of either case other than I, L, i, l and o. */
  predicate IsKeyChar(c: char) {
    ('A' <= c <= 'Z' && c != 'I' && c != 'L') || ('a' <= c <= 'z' && c != 'i' && c != 'l' && c != 'o')
  }

  /** Every character of the alphabet is a key letter. */
  lemma AlphabetLetters()
    ensures forall c :: c in Alphabet ==> IsKeyChar(c)
  {
    var upper, lower := "ABCDEFGHJKMNOPQRSTUVWXYZ", "abcdefghjkmnpqrstuvwxyz";
    assert Alphabet == upper + lower;
    UpperLetters(upper);
    LowerLetters(lower);
  }

  lemma UpperLetters(s: string)
    requires s == "ABCDEFGHJKMNOPQRSTUVWXYZ"
    ensures forall c :: c in s ==> IsKeyChar(c)
  {
    assert s == "ABCDEFGH" + "JKMNOPQR" + "STUVWXYZ";
  }

  lemma LowerLetters(s: string)
    requires s == "abcdefghjkmnpqrstuvwxyz"
    ensures forall c :: c in s ==> IsKeyChar(c)
  {
    assert s == "abcdefgh" + "jkmnpqrs" + "tuvwxyz";
  }

  /** The key letters are exactly the characters of the alphabet. */
  lemma AlphabetIsKeyChars(c: char)
    ensures c in Alphabet <==> IsKeyChar(c)
  {
    AlphabetLetters();
    if IsKeyChar(c) {
      var upper, lower := "ABCDEFGHJKMNOPQRSTUVWXYZ", "abcdefghjkmnpqrstuvwxyz";
      assert Alphabet == upper + lower;
      if c <= 'Z' {
        UpperKeyChar(c, upper);
      } else {
        LowerKeyChar(c, lower);
      }
    }
  }

  lemma UpperKeyChar(c: char, s: string)
    requires s == "ABCDEFGHJKMNOPQRSTUVWXYZ"
    requires 'A' <= c <= 'Z' && c != 'I' && c != 'L'
    ensures c in s
  {
    var a, b, d := "ABCDEFGH", "JKMNOPQR", "STUVWXYZ";
    assert s == a + b + d;
    if c <= 'H' {
      assert c in a;
    } else if c <= 'R' {
      assert c in b;
    } else {
      assert c in d;
    }
  }

  lemma LowerKeyChar(c: char, s: string)
    requires s == "abcdefghjkmnpqrstuvwxyz"
    requires 'a' <= c <= 'z' && c != 'i' && c != 'l' && c != 'o'
    ensures c in s
  {
    var a, b, d := "abcdefgh", "jkmnpqrs", "tuvwxyz";
    assert s == a + b + d;
    if c <= 'h' {
      assert c in a;
    } else if c <= 's' {
      assert c in b;
    } else {
      assert c in d;
    }
  }

  /** What the alphabet holds: none of I, L, i, l, o, but O is one of them; no
      digit, no NUL, no `%` (the key is passed to the renderer as a format
      string) and no `'` (it is quoted with those on the command line). */
  lemma AlphabetContents()
    ensures 'I' !in Alphabet && 'L' !in Alphabet && 'i' !in Alphabet && 'l' !in Alphabet && 'o' !in Alphabet
    ensures 'O' in Alphabet
    ensures forall c :: c in Alphabet ==> !IsDigit(c) && c != '\0' && c != '%' && c != '\''
  {
    AlphabetLetters();
    assert Alphabet[12] == 'O';
  }

  /** The key drawn from the `rand()` calls at `at` .. `at + 7`: each one picks
      a character of the alphabet. */
  function KeyOf(rand: Rand, at: nat): (key: string)
    ensures |key| == KeyLength
    ensures forall i :: 0 <= i < |key| ==> IsKeyChar(key[i])
  {
    AlphabetLetters();
    seq(KeyLength, i requires 0 <= i < KeyLength => Alphabet[rand(at + i) % |Alphabet|])
  }

  /** The draws that pick the characters of `key`, one per position. */
  function DrawsFor(key: string): (draws: seq<nat>)
    ensures |draws| == |key|
  {
    seq(|key|, i requires 0 <= i < |key| => IndexOf(Alphabet, key[i]))
  }

  /** Draws below the alphabet size pick the characters they index. */
  lemma KeyOfDraws(draws: seq<nat>)
    requires |draws| == KeyLength && forall i :: 0 <= i < |draws| ==> draws[i] < |Alphabet|
    ensures forall i :: 0 <= i < KeyLength ==> KeyOf(Stream(draws), 0)[i] == Alphabet[draws[i]]
  {
    forall i | 0 <= i < KeyLength ensures KeyOf(Stream(draws), 0)[i] == Alphabet[draws[i]] {
      StreamAt(draws, i);
      ModSmall(draws[i], |Alphabet|);
    }
  }

  /** Every string of eight alphabet characters is a key some draws produce. */
  lemma KeyReachesAll(key: string)
    requires |key| == KeyLength && forall i :: 0 <= i < |key| ==> key[i] in Alphabet
    ensures KeyOf(Stream(DrawsFor(key)), 0) == key
  {
    var draws := DrawsFor(key);
    forall i | 0 <= i < KeyLength ensures draws[i] < |Alphabet| && Alphabet[draws[i]] == key[i] {
      var j :| 0 <= j < |Alphabet| && Alphabet[j] == key[i];
      assert draws[i] <= j;
    }
    KeyOfDraws(draws);
  }

  /** The loop that fills `key[0..7]` and terminates it at `key[8]`. */
  method GenerateKey(rand: Rand, at: nat) returns (key: array<char>)
    ensures key.Length == KeyLength + 1
    ensures key[..KeyLength] == KeyOf(rand, at)
    ensures key[KeyLength] == '\0'
  {
    key := new char[KeyLength + 1];
    for i := 0 to KeyLength
      invariant forall j :: 0 <= j < i ==> key[j] == KeyOf(rand, at)[j]
    {
      key[i] := Alphabet[rand(at + i) % |Alphabet|];
    }
    key[KeyLength] := '\0';
  }

  /** `strcmp(resp, key) != 0` denies: `strcmp` reads the reply only up to its
      first NUL, and that C string must be the key itself, byte for byte. */
  function Verdict(key: string, reply: string): PamResult {
    if CString(reply) != key then PamPermDenied else PamSuccess
  }

  /** A reply passes exactly when, up to its first NUL, it has the key's
      length and agrees with it at every position, case included; a NUL-free
      reply is compared whole. */
  lemma VerdictExact(key: string, reply: string)
    ensures Verdict(key, reply) == PamSuccess <==>
      var r := CString(reply);
      |r| == |key| && forall i :: 0 <= i < |key| ==> r[i] == key[i]
    ensures '\0' !in reply ==> (Verdict(key, reply) == PamSuccess <==> reply == key)
  {
    var r := CString(reply);
    if |r| == |key| && forall i :: 0 <= i < |key| ==> r[i] == key[i] {
      assert r == key;
    }
    if '\0' !in reply {
      CStringOfNulFree(reply);
    }
  }

  /** What a run of the challenge yields: the verdict on the reply and the
      rendered key. */
  function Expected(rand: Rand, at: nat, reply: string, shell: string -> string): ChallengeRun {
    var key := KeyOf(rand, at);
    ChallengeRun(Verdict(key, reply), Figlet.Display(Figlet.FontAt(rand, at + KeyLength), key, shell))
  }

  /** `randomstring_captcha`: draw the key, render it, prompt, compare. */
  method Run(rand: Rand, at: nat, reply: string, shell: string -> string)
    returns (result: PamResult, shown: seq<string>)
    ensures ChallengeRun(result, shown) == Expected(rand, at, reply, shell)
  {
    var key := GenerateKey(rand, at);
    var text := CString(key[..]);
    CStringOfTerminated(key[..], key[..KeyLength]);
    AlphabetContents();
    assert '\0' !in key[..KeyLength];
    CStringOfNulFree(key[..KeyLength]);
    shown := Figlet.Figlet(rand, at + KeyLength, text, shell);
    result := if CString(reply) != text then PamPermDenied else PamSuccess;
  }

  /** The draws 25, 20, 36, 22, 39, 11, 26, 7 give the key "bWpYsNcH". */
  lemma ExampleKey()
    ensures KeyOf(Stream([25, 20, 36, 22, 39, 11, 26, 7]), 0) == "bWpYsNcH"
  {
    var draws: seq<nat> := [25, 20, 36, 22, 39, 11, 26, 7];
    assert Alphabet[25] == 'b' && Alphabet[20] == 'W' && Alphabet[36] == 'p' && Alphabet[22] == 'Y';
    assert Alphabet[39] == 's' && Alphabet[11] == 'N' && Alphabet[26] == 'c' && Alphabet[7] == 'H';
    KeyOfDraws(draws);
  }

  /** The key "bWpYsNcH" can be drawn, and the reply "bwpysnch" that differs
      from it only in case is denied. */
  lemma ExampleWrongCase()
    ensures KeyOf(Stream([25, 20, 36, 22, 39, 11, 26, 7]), 0) == "bWpYsNcH"
    ensures Verdict("bWpYsNcH", "bwpysnch") == PamPermDenied
  {
    ExampleKey();
    CStringOfNulFree("bwpysnch");
    assert "bWpYsNcH"[1] != "bwpysnch"[1];
  }

  /** A reply that carries the key followed by a NUL and more passes: the
      comparison stops at the NUL. */
  lemma ExampleNulInReply()
    ensures Verdict("bWpYsNcH", "bWpYsNcH\0x") == PamSuccess
  {
    var padded := "bWpYsNcH\0x";
    assert padded[..8] == "bWpYsNcH" && padded[8] == '\0';
    CStringOfTerminated(padded, "bWpYsNcH");
    CStringOfNulFree("bWpYsNcH");
  }
}
