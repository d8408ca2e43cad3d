/**
 * The renderer adapter (`figlet`): the challenge text is handed to the
 * external figlet command, its standard output is captured into a buffer of
 * `BufferSize` bytes, and the buffer is cut at each newline into the lines
 * shown to the user, in order.
 *
 * The subprocess itself is the parameter `shell`: it maps the command line
 * given to `popen` to the bytes that command prints.
 */
module Figlet {
  import opened Wrappers
  import opened Libc

  /** `BUFFERSIZE`: the size of the capture buffer. */
  const BufferSize: nat := 10240

  /** The number of bytes each `fread` asks for. */
  const ChunkSize: nat := 1024

  /** The figlet fonts, one of which is drawn per rendering. */
  const Fonts: seq<string> := ["standard", "big"]

  /** The command line `figlet` formats into the buffer and runs. */
  function CommandLine(font: string, key: string): string {
    "env PATH=$PATH:/usr/local/bin figlet -f " + font + " -- '" + key + "'"
  }

  /** The font drawn by the `rand()` call at position `at`. */
  function FontAt(rand: Rand, at: nat): (font: string)
    ensures font in Fonts
  {
    Fonts[rand(at) % |Fonts|]
  }

  function Min(a: nat, b: nat): nat {
    if a < b then a else b
  }

  // ---------------------------------------------------------------------
  // Lines of the captured output

  /** The newline-separated lines of `s`, in order; a last line with no
      newline after it is a line too. */
  function Lines(s: string): seq<string>
    decreases |s|
  {
    if s == [] then []
    else
      var k := IndexOf(s, '\n');
      if k == |s| then [s] else [s[..k]] + Lines(s[k + 1..])
  }

  /** Each line followed by a newline, concatenated. */
  function Unlines(ls: seq<string>): string {
    if ls == [] then [] else ls[0] + "\n" + Unlines(ls[1..])
  }

  /** A text with no newline is one line, or none when it is empty. */
  lemma LinesOfOneLine(t: string)
    requires '\n' !in t
    ensures Lines(t) == if t == [] then [] else [t]
  {
    if t != [] {
      IndexOfIs(t, '\n', |t|);
    }
  }

  /** The first line of a text is the text up to its first newline. */
  lemma LinesStep(t: string, k: nat)
    requires k < |t| && t[k] == '\n'
    requires forall i :: 0 <= i < k ==> t[i] != '\n'
    ensures Lines(t) == [t[..k]] + Lines(t[k + 1..])
  {
    IndexOfIs(t, '\n', k);
  }

  /** No shown line holds the separator or anything the text did not hold. */
  lemma {:induction false} LinesHaveNoNewline(s: string)
    ensures forall l :: l in Lines(s) ==> '\n' !in l && multiset(l) <= multiset(s)
  {
    if s != [] {
      var k := IndexOf(s, '\n');
      if k < |s| {
        var t := s[k + 1..];
        LinesHaveNoNewline(t);
        assert s == s[..k] + [s[k]] + t;
        assert multiset(t) <= multiset(s);
        assert multiset(s[..k]) <= multiset(s);
      }
    }
  }

  /** Joining the lines back with newlines rebuilds the text, with a final
      newline added when the text did not end with one. */
  lemma {:induction false} UnlinesLines(s: string)
    ensures Unlines(Lines(s)) == if s == [] || s[|s| - 1] == '\n' then s else s + "\n"
  {
    if s != [] {
      var k := IndexOf(s, '\n');
      if k < |s| {
        var t := s[k + 1..];
        var u := Unlines(Lines(t));
        LinesStep(s, k);
        UnlinesLines(t);
        UnlinesCons(s[..k], Lines(t));
        SplitAtNewline(s, k);
        if t == [] {
          assert u == [];
        } else if t[|t| - 1] == '\n' {
          assert s[|s| - 1] == t[|t| - 1];
        } else {
          assert s[|s| - 1] == t[|t| - 1];
          assert s[..k] + "\n" + u == s + "\n";
        }
      } else {
        LinesOfOneLine(s);
        UnlinesCons(s, []);
      }
    }
  }

  lemma SplitAtNewline(s: string, k: nat)
    requires k < |s| && s[k] == '\n'
    ensures s == s[..k] + "\n" + s[k + 1..]
  {
    assert s == s[..k] + [s[k]] + s[k + 1..];
  }

  lemma UnlinesCons(l: string, ls: seq<string>)
    ensures Unlines([l] + ls) == l + "\n" + Unlines(ls)
  {
    assert ([l] + ls)[1..] == ls;
  }

  /** Lines that hold no newline are recovered from their join. */
  lemma {:induction false} LinesUnlines(ls: seq<string>)
    requires forall l :: l in ls ==> '\n' !in l
    ensures Lines(Unlines(ls)) == ls
  {
    if ls != [] {
      var s := Unlines(ls);
      var l := ls[0];
      assert s == l + ("\n" + Unlines(ls[1..]));
      assert s[|l|] == '\n';
      assert '\n' !in l;
      assert forall i :: 0 <= i < |l| ==> s[i] == l[i];
      LinesStep(s, |l|);
      assert s[..|l|] == l;
      assert s[|l| + 1..] == Unlines(ls[1..]);
      LinesUnlines(ls[1..]);
      assert Lines(s) == [l] + ls[1..];
      assert ls == [l] + ls[1..];
    }
  }

  // ---------------------------------------------------------------------
  // The line splitter as the source writes it

  /** The splitting loop as written: `strchr(bp, '\n')` is dereferenced
      without a NULL check, and the walk stops only when a newline is
      followed by the terminator. `None` is the NULL dereference. */
  function SplitAsWritten(s: string): Option<seq<string>>
    decreases |s|
  {
    var k := IndexOf(s, '\n');
    if k == |s| then None
    else
      var rest := s[k + 1..];
      if rest == [] then Some([s[..k]])
      else
        match SplitAsWritten(rest)
        case None => None
        case Some(ls) => Some([s[..k]] + ls)
  }

  /** The loop as written dereferences NULL exactly when the text is empty or
      does not end with a newline; otherwise it shows the lines `Lines` gives. */
  lemma {:induction false} SplitAsWrittenFaults(s: string)
    ensures SplitAsWritten(s).None? <==> s == [] || s[|s| - 1] != '\n'
    ensures SplitAsWritten(s).Some? ==> SplitAsWritten(s).value == Lines(s)
  {
    var k := IndexOf(s, '\n');
    if k < |s| {
      var rest := s[k + 1..];
      if rest != [] {
        SplitAsWrittenFaults(rest);
        assert s[|s| - 1] == rest[|rest| - 1];
      }
    }
  }

  /** A rendering whose last line lacks its newline, and an empty rendering,
      both make the loop as written dereference NULL. */
  lemma SplitAsWrittenCounterexample()
    ensures SplitAsWritten(" _\n|_") == None
    ensures SplitAsWritten("") == None
    ensures Lines(" _\n|_") == [" _", "|_"]
  {
    SplitAsWrittenFaults(" _\n|_");
    SplitAsWrittenFaults("");
    var s := " _\n|_";
    IndexOfIs(s, '\n', 2);
    assert s[..2] == " _" && s[3..] == "|_";
    IndexOfIs("|_", '\n', 2);
    LinesOfOneLine("|_");
  }

  // ---------------------------------------------------------------------
  // The read loop as the source writes it

  /** What the read loop leaves behind: either a buffer (read to EOF), or a
      write of `excess` bytes past the end of the buffer (after which the
      function gives up). */
  datatype ReadStep = Read(buffer: seq<char>) | WritesPastEnd(excess: nat)

  /** The buffer as `calloc` and `sprintf` leave it: the command line, then NULs. */
  function CommandBuffer(cmd: string): (buf: seq<char>)
    requires |cmd| < BufferSize
    ensures |buf| == BufferSize
  {
    cmd + seq(BufferSize - |cmd|, _ => '\0')
  }

  /** The read loop as written: each `fread` asks for `ChunkSize` bytes at
      offset `i` whatever room is left, and the size check comes after the
      write; end of file is seen once a read comes back short. */
  function ReadAsWritten(buf: seq<char>, output: string, i: nat): ReadStep
    requires |buf| == BufferSize && i <= |output| && i <= BufferSize
    decreases |output| - i
  {
    var bytes := Min(ChunkSize, |output| - i);
    if i + bytes > BufferSize then WritesPastEnd(i + bytes - BufferSize)
    else
      var buf' := buf[..i] + output[i..i + bytes] + buf[i + bytes..];
      if bytes < ChunkSize then Read(buf')
      else ReadAsWritten(buf', output, i + bytes)
  }

  /** The read loop as written writes past the buffer exactly when the output
      is longer than the buffer, and otherwise leaves the output laid over
      whatever the buffer held (no terminator is written). */
  lemma ReadAsWrittenOutcome(buf: seq<char>, output: string, i: nat)
    requires |buf| == BufferSize && i <= |output| && i <= BufferSize && i % ChunkSize == 0
    ensures |output| > BufferSize ==>
      ReadAsWritten(buf, output, i) == WritesPastEnd(Min(|output|, BufferSize + ChunkSize) - BufferSize)
    ensures |output| <= BufferSize ==>
      ReadAsWritten(buf, output, i) == Read(buf[..i] + output[i..] + buf[|output|..])
  {
    if |output| > BufferSize {
      ReadAsWrittenOverflow(buf, output, i);
    } else {
      ReadAsWrittenFits(buf, output, i);
    }
  }

  lemma {:induction false} ReadAsWrittenOverflow(buf: seq<char>, output: string, i: nat)
    requires |buf| == BufferSize && i <= BufferSize && i % ChunkSize == 0 && |output| > BufferSize
    ensures ReadAsWritten(buf, output, i) == WritesPastEnd(Min(|output|, BufferSize + ChunkSize) - BufferSize)
    decreases BufferSize - i
  {
    if i < BufferSize {
      ChunkAligned(i);
      var buf' := buf[..i] + output[i..i + ChunkSize] + buf[i + ChunkSize..];
      assert ReadAsWritten(buf, output, i) == ReadAsWritten(buf', output, i + ChunkSize);
      ReadAsWrittenOverflow(buf', output, i + ChunkSize);
    }
  }

  lemma {:induction false} ReadAsWrittenFits(buf: seq<char>, output: string, i: nat)
    requires |buf| == BufferSize && i <= |output| <= BufferSize && i % ChunkSize == 0
    ensures ReadAsWritten(buf, output, i) == Read(buf[..i] + output[i..] + buf[|output|..])
    decreases |output| - i
  {
    var bytes := Min(ChunkSize, |output| - i);
    var buf' := buf[..i] + output[i..i + bytes] + buf[i + bytes..];
    if bytes == ChunkSize {
      assert ReadAsWritten(buf, output, i) == ReadAsWritten(buf', output, i + bytes);
      ReadAsWrittenFits(buf', output, i + bytes);
      Splice(buf, output, i, i + bytes);
    } else {
      assert ReadAsWritten(buf, output, i) == Read(buf');
      assert output[i..i + bytes] == output[i..];
    }
  }

  /** A read offset at a chunk boundary inside the buffer leaves room for a whole chunk. */
  lemma ChunkAligned(i: nat)
    requires i % ChunkSize == 0 && i < BufferSize
    ensures i + ChunkSize <= BufferSize
  {
    var q := i / ChunkSize;
    assert i == q * ChunkSize;
    assert q < 10;
  }

  /** Laying `output[i..j]` over the buffer and then the rest of the output
      is laying the output from `i` at once. */
  lemma Splice(buf: seq<char>, output: string, i: nat, j: nat)
    requires i <= j <= |output| <= |buf|
    ensures var buf' := buf[..i] + output[i..j] + buf[j..];
      buf'[..j] + output[j..] + buf'[|output|..] == buf[..i] + output[i..] + buf[|output|..]
  {
    var buf' := buf[..i] + output[i..j] + buf[j..];
    assert buf'[..j] == buf[..i] + output[i..j];
    assert buf'[|output|..] == buf[|output|..];
    assert output[i..j] + output[j..] == output[i..];
  }

  /** Output one byte longer than the buffer: the eleventh `fread` writes a
      byte past its end. */
  lemma ReadAsWrittenPastEnd(cmd: string)
    requires |cmd| < BufferSize
    ensures ReadAsWritten(CommandBuffer(cmd), seq(BufferSize + 1, _ => '#'), 0) == WritesPastEnd(1)
  {
    ReadAsWrittenOutcome(CommandBuffer(cmd), seq(BufferSize + 1, _ => '#'), 0);
  }

  /** When the renderer prints nothing (figlet missing from the PATH), the
      buffer still holds the command line, and that is what the splitter walks. */
  lemma ReadAsWrittenResidue(cmd: string)
    requires 0 < |cmd| < BufferSize && '\0' !in cmd
    ensures ReadAsWritten(CommandBuffer(cmd), "", 0) == Read(CommandBuffer(cmd))
    ensures CString(CommandBuffer(cmd)) == cmd
  {
    var buf := CommandBuffer(cmd);
    ReadAsWrittenOutcome(buf, "", 0);
    assert buf[..0] + ""[0..] + buf[0..] == buf;
    assert buf[..|cmd|] == cmd && buf[|cmd|] == '\0';
    CStringOfTerminated(buf, cmd);
    CStringOfNulFree(cmd);
  }

  /** Output of exactly `BufferSize` bytes fills the buffer and leaves no
      terminator in it for the splitter to stop at. */
  lemma ReadAsWrittenUnterminated(cmd: string, full: string)
    requires |cmd| < BufferSize
    requires |full| == BufferSize && '\0' !in full
    ensures ReadAsWritten(CommandBuffer(cmd), full, 0) == Read(full)
    ensures IndexOf(full, '\0') == BufferSize
  {
    var buf := CommandBuffer(cmd);
    ReadAsWrittenOutcome(buf, full, 0);
    assert buf[..0] + full[0..] + buf[|full|..] == full;
  }

  // ---------------------------------------------------------------------
  // The adapter, with the read bounded and the splitter fixed

  /** What the user is shown for `key` in `font`: the lines of the captured
      output, or nothing when the output does not fit in the buffer. */
  function Display(font: string, key: string, shell: string -> string): seq<string> {
    var out := shell(CommandLine(font, key));
    if |out| < BufferSize then Lines(CString(out)) else []
  }

  /** What is shown is the renderer's output cut at its newlines: no line holds
      a newline or a NUL, and joining the lines rebuilds the output; output
      that does not fit shows nothing. */
  lemma DisplayIsOutput(font: string, key: string, shell: string -> string)
    ensures forall l :: l in Display(font, key, shell) ==> '\n' !in l && '\0' !in l
    ensures var out := shell(CommandLine(font, key));
      |out| < BufferSize && '\0' !in out && (out == [] || out[|out| - 1] == '\n') ==>
        Unlines(Display(font, key, shell)) == out
    ensures |shell(CommandLine(font, key))| >= BufferSize ==> Display(font, key, shell) == []
  {
    var out := shell(CommandLine(font, key));
    if |out| < BufferSize {
      var text := CString(out);
      LinesHaveNoNewline(text);
      forall l | l in Lines(text) ensures '\0' !in l {
        assert multiset(l) <= multiset(text);
        assert multiset(text)['\0'] == 0;
      }
      if '\0' !in out {
        CStringOfNulFree(out);
        UnlinesLines(out);
      }
    }
  }

  /** `sprintf(buffer, ...)`: the command line and its terminator at the
      start of the buffer. */
  method Sprintf(buffer: array<char>, s: string)
    requires |s| < buffer.Length
    modifies buffer
    ensures buffer[..|s|] == s && buffer[|s|] == '\0'
    ensures forall i :: |s| < i < buffer.Length ==> buffer[i] == old(buffer[i])
  {
    forall i | 0 <= i < |s| {
      buffer[i] := s[i];
    }
    buffer[|s|] := '\0';
  }

  /** The read loop with each `fread` limited to the room left in the buffer:
      the output is accepted only if it fits with its terminator, and then the
      buffer holds it followed by a NUL, the bytes after them untouched; output
      that does not fit fills the buffer and is refused. Nothing is written
      past the end. */
  method ReadOutput(buffer: array<char>, output: string) returns (n: nat, ok: bool)
    requires buffer.Length == BufferSize
    modifies buffer
    ensures ok <==> |output| < BufferSize
    ensures ok ==> n == |output| && buffer[..n] == output && buffer[n] == '\0'
    ensures ok ==> buffer[n + 1..] == old(buffer[n + 1..])
    ensures !ok ==> buffer[..] == output[..BufferSize]
  {
    var i: nat := 0;
    var eof := false;
    while !eof
      invariant buffer.Length == BufferSize
      invariant i <= |output| && i < BufferSize
      invariant buffer[..i] == output[..i]
      invariant forall k :: i <= k < buffer.Length ==> buffer[k] == old(buffer[k])
      invariant eof ==> i == |output|
      invariant |output| >= BufferSize ==> !eof
      decreases |output| - i + (if eof then 0 else 1)
    {
      var want := Min(ChunkSize, BufferSize - i);
      var bytes := Min(want, |output| - i);
      forall k | i <= k < i + bytes {
        buffer[k] := output[k];
      }
      assert buffer[..i + bytes] == output[..i + bytes];
      eof := bytes < want;
      i := i + bytes;
      if i >= BufferSize {
        assert buffer[..] == buffer[..i];
        return 0, false;
      }
    }
    buffer[i] := '\0';
    assert output[..i] == output;
    assert buffer[i + 1..] == old(buffer[i + 1..]);
    return i, true;
  }

  /** `c` with a newline replaced by the terminator the splitter writes over it. */
  function Cut(c: char): char {
    if c == '\n' then '\0' else c
  }

  /** `s` with every newline before index `n` overwritten by a NUL. */
  function CutUpTo(s: seq<char>, n: nat): (r: seq<char>)
    ensures |r| == |s|
  {
    seq(|s|, i requires 0 <= i < |s| => if i < n then Cut(s[i]) else s[i])
  }

  /** Overwriting the newline at `ptr` extends the cut prefix past it. */
  lemma CutStep(s: seq<char>, bp: nat, ptr: nat)
    requires bp <= ptr < |s| && s[ptr] == '\n'
    requires forall i :: bp <= i < ptr ==> s[i] != '\n'
    ensures CutUpTo(s, bp)[ptr := '\0'] == CutUpTo(s, ptr + 1)
  {
  }

  /** Up to the end of a run with no newline, the cut prefix may stop anywhere in it. */
  lemma CutNoNewline(s: seq<char>, bp: nat, end: nat)
    requires bp <= end <= |s|
    requires forall i :: bp <= i < end ==> s[i] != '\n'
    ensures CutUpTo(s, bp) == CutUpTo(s, end)
  {
  }

  /** `strchr(buffer + from, '\n')`: the first newline or terminator from `from` on. */
  method FindNewline(buffer: array<char>, from: nat) returns (ptr: nat)
    requires from < buffer.Length && '\0' in buffer[from..]
    ensures from <= ptr < buffer.Length
    ensures buffer[ptr] == '\n' || buffer[ptr] == '\0'
    ensures forall i :: from <= i < ptr ==> buffer[i] != '\n' && buffer[i] != '\0'
  {
    ghost var end := from + IndexOf(buffer[from..], '\0');
    ptr := from;
    while buffer[ptr] != '\n' && buffer[ptr] != '\0'
      invariant from <= ptr <= end < buffer.Length
      invariant buffer[end] == '\0'
      invariant forall i :: from <= i < ptr ==> buffer[i] != '\n' && buffer[i] != '\0'
      decreases end - ptr
    {
      ptr := ptr + 1;
    }
  }

  /** The lines of `text` from `bp`, where `ptr` is the first newline from
      `bp` on, or the end of the text when there is none. */
  lemma {:induction false} LinesFrom(text: string, bp: nat, ptr: nat)
    requires bp <= ptr <= |text|
    requires forall i :: bp <= i < ptr ==> text[i] != '\n'
    requires ptr < |text| ==> text[ptr] == '\n'
    ensures ptr == |text| ==> Lines(text[bp..]) == (if bp < ptr then [text[bp..ptr]] else [])
    ensures ptr < |text| ==> Lines(text[bp..]) == [text[bp..ptr]] + Lines(text[ptr + 1..])
  {
    var rest := text[bp..];
    assert rest[..ptr - bp] == text[bp..ptr];
    if ptr == |text| {
      assert rest == text[bp..ptr];
      LinesOfOneLine(rest);
    } else {
      LinesStep(rest, ptr - bp);
      assert rest[ptr - bp + 1..] == text[ptr + 1..];
    }
  }

  /** One turn of the splitting loop on the text: the lines from `bp` are the
      ones a turn shows followed by the lines from where it stops. */
  lemma LinesAdvance(text: string, bp: nat, ptr: nat, next: nat, lines: seq<string>)
    requires bp <= ptr <= |text| && forall i :: bp <= i < ptr ==> text[i] != '\n'
    requires ptr < |text| ==> text[ptr] == '\n'
    requires lines == if ptr < |text| || bp < ptr then [text[bp..ptr]] else []
    requires next == if ptr < |text| then ptr + 1 else ptr
    ensures Lines(text[bp..]) == lines + Lines(text[next..])
  {
    LinesFrom(text, bp, ptr);
    if ptr == |text| {
      assert text[next..] == [];
    }
  }

  /** One step of the walk, on the original buffer: the newline or terminator
      found from `bp` is the end of the next line of the C string, and
      overwriting a newline extends the cut prefix past it. */
  lemma SplitStep(orig: seq<char>, bp: nat, ptr: nat)
    requires bp <= |CString(orig)| < |orig|
    requires bp <= ptr < |orig| && (orig[ptr] == '\n' || orig[ptr] == '\0')
    requires forall i :: bp <= i < ptr ==> orig[i] != '\n' && orig[i] != '\0'
    ensures ptr <= |CString(orig)| && CString(orig)[bp..ptr] == orig[bp..ptr]
    ensures forall i :: bp <= i < ptr ==> CString(orig)[i] != '\n'
    ensures orig[ptr] == '\0' ==> ptr == |CString(orig)| && CutUpTo(orig, bp) == CutUpTo(orig, ptr)
    ensures orig[ptr] == '\n' ==>
      ptr < |CString(orig)| && CString(orig)[ptr] == '\n' &&
      CutUpTo(orig, bp)[ptr := '\0'] == CutUpTo(orig, ptr + 1)
  {
    var end := |CString(orig)|;
    if orig[ptr] == '\0' {
      assert ptr == end;
      CutNoNewline(orig, bp, end);
    } else {
      CutStep(orig, bp, ptr);
    }
  }

  /** One pass of the splitting loop from `bp`: find the next newline or the
      terminator, overwrite a newline with a NUL, and read the line before it. */
  method CutLine(buffer: array<char>, ghost orig: seq<char>, ghost text: string, bp: nat)
    returns (ptr: nat, found: bool, line: string)
    requires text == CString(orig) && |orig| == buffer.Length && bp <= |text| < |orig|
    requires buffer[..] == CutUpTo(orig, bp)
    modifies buffer
    ensures bp <= ptr <= |text| && line == text[bp..ptr]
    ensures forall i :: bp <= i < ptr ==> text[i] != '\n'
    ensures found <==> ptr < |text|
    ensures !found ==> buffer[..] == CutUpTo(orig, ptr)
    ensures found ==>
      text[ptr] == '\n' && buffer[..] == CutUpTo(orig, ptr + 1) && buffer[ptr + 1] == orig[ptr + 1]
  {
    ghost var cur := buffer[..];
    ghost var end := |CString(orig)|;
    assert cur[bp..] == orig[bp..];
    assert orig[end] == '\0';
    assert cur[bp..][end - bp] == '\0';
    ptr := FindNewline(buffer, bp);
    assert buffer[bp..ptr] == orig[bp..ptr];
    SplitStep(orig, bp, ptr);
    found := buffer[ptr] == '\n';
    if found {
      buffer[ptr] := '\0';
      assert buffer[..] == cur[ptr := '\0'];
      assert buffer[bp..ptr] == cur[bp..ptr];
      assert buffer[ptr + 1] == cur[ptr + 1] == orig[ptr + 1];
    }
    line := buffer[bp..ptr];
  }

  /** One turn of the splitting loop: the line from `bp` up to the newline or
      terminator at `ptr` is cut off and shown, and the walk moves past it. It
      is done when no newline was found, or when the newline found is
      followed by the terminator. */
  method NextLine(buffer: array<char>, ghost orig: seq<char>, ghost text: string, bp: nat)
    returns (ptr: nat, next: nat, lines: seq<string>, done: bool)
    requires text == CString(orig) && |orig| == buffer.Length && bp <= |text| < |orig|
    requires buffer[..] == CutUpTo(orig, bp)
    modifies buffer
    ensures bp <= ptr <= |text| && forall i :: bp <= i < ptr ==> text[i] != '\n'
    ensures ptr < |text| ==> text[ptr] == '\n'
    ensures lines == if ptr < |text| || bp < ptr then [text[bp..ptr]] else []
    ensures next == if ptr < |text| then ptr + 1 else ptr
    ensures Lines(text[bp..]) == lines + Lines(text[next..])
    ensures buffer[..] == CutUpTo(orig, next)
    ensures done ==> next == |text|
    ensures !done ==> bp < next
  {
    var found, line;
    ptr, found, line := CutLine(buffer, orig, text, bp);
    if !found {
      lines := if bp < ptr then [line] else [];
      next, done := ptr, true;
    } else {
      lines := [line];
      next := ptr + 1;
      done := buffer[next] == '\0';
      if done {
        CStringEnd(orig, next);
      }
    }
    LinesAdvance(text, bp, ptr, next, lines);
  }

  lemma AppendAssoc<T>(a: seq<T>, b: seq<T>, c: seq<T>)
    ensures a + b + c == a + (b + c)
  {
  }

  /** The splitter, walking `bp` through the buffer in place: each newline is
      overwritten with a NUL and the line before it is shown; a last line with
      no newline after it is shown too, instead of dereferencing NULL. */
  method ShowLines(buffer: array<char>) returns (shown: seq<string>)
    requires '\0' in buffer[..]
    modifies buffer
    ensures shown == Lines(CString(old(buffer[..])))
    ensures buffer[..] == CutUpTo(old(buffer[..]), |CString(old(buffer[..]))|)
  {
    ghost var orig := buffer[..];
    ghost var text := CString(orig);
    assert |text| < |orig|;
    var bp := 0;
    shown := [];
    var done := false;
    assert text[bp..] == text;
    assert CutUpTo(orig, 0) == orig;
    while !done
      invariant bp <= |text| && shown + Lines(text[bp..]) == Lines(text) && buffer[..] == CutUpTo(orig, bp)
      invariant done ==> bp == |text|
      decreases |text| - bp, if done then 0 else 1
    {
      var ptr, lines;
      ptr, bp, lines, done := NextLine(buffer, orig, text, bp);
      AppendAssoc(shown, lines, Lines(text[bp..]));
      shown := shown + lines;
    }
    assert text[bp..] == [];
  }

  /** `figlet`: draw a font, run the renderer, capture its output and show
      its lines. */
  method Figlet(rand: Rand, at: nat, key: string, shell: string -> string) returns (shown: seq<string>)
    requires forall f :: f in Fonts ==> |CommandLine(f, key)| < BufferSize
    ensures shown == Display(FontAt(rand, at), key, shell)
  {
    var font := Fonts[rand(at) % |Fonts|];
    var buffer := new char[BufferSize](_ => '\0');
    var cmd := CommandLine(font, key);
    Sprintf(buffer, cmd);
    var output := shell(cmd);
    var n, ok := ReadOutput(buffer, output);
    if !ok {
      return [];
    }
    CStringOfTerminated(buffer[..], output);
    shown := ShowLines(buffer);
  }
}
