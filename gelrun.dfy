/**
 * The literate-source filter of src/tools/gelrun.go: a reader that passes
 * on only the lines of its source that begin with `>`, without the `>`.
 *
 * The filter's state is three booleans (`nl`: the next byte starts a line;
 * `code`: the current line is code) which the model reads as a `Mode`.
 * `Filtered` says what the filter makes of a stream of bytes; `Unlit`
 * says, line by line, what the filter is meant to make of it.  As written
 * a blank line leaves `nl` false, so the line after it is never code:
 * `Filtered(AsWritten, ...)` agrees with `Unlit` only on text without
 * blank lines, and `Filtered(Intended, ...)` on all text.
 *
 * The underlying `io.Reader` is the field `src`, the bytes it has still to
 * deliver; each of its `Read`s fills as much of the buffer as it can and
 * reports the end of input by returning no bytes.
 */
module Gelrun {
  import opened Base

  // -------------------------------------------------------------------
  // The filter, byte by byte

  /** Where the filter stands: at the start of a line, inside a code line, or inside a text line. */
  datatype Mode = LineStart | Code | Text

  /** The code as written, or with a blank line leaving the filter at the start of a line. */
  datatype Variant = AsWritten | Intended

  /** How `nl` and `code` read as a mode. */
  function ModeOf(nl: bool, code: bool): Mode
  {
    if nl then LineStart else if code then Code else Text
  }

  /** The mode after one byte: the first byte of a line decides whether it is code; a newline starts the next line. */
  function Next(v: Variant, m: Mode, c: byte): (r: Mode)
    ensures m == LineStart && c == '>' ==> r == Code
    ensures m == LineStart && c != '>' && c != '\n' ==> r == Text
    ensures m != LineStart ==> (r == LineStart <==> c == '\n')
    ensures m != LineStart && c != '\n' ==> r == m
  {
    match m
    case LineStart => if v == Intended && c == '\n' then LineStart else if c == '>' then Code else Text
    case _ => if c == '\n' then LineStart else m
  }

  /** The bytes one byte contributes: itself inside a code line, nothing otherwise. */
  function Emit(m: Mode, c: byte): Bytes
  {
    if m == Code then [c] else []
  }

  /** The mode after a run of bytes, starting from `m`. */
  function ModeAfter(v: Variant, m: Mode, s: Bytes): Mode
  {
    if s == [] then m else Next(v, ModeAfter(v, m, s[..|s| - 1]), s[|s| - 1])
  }

  /** The bytes the filter passes on for a run of bytes, starting from `m`. */
  function Filtered(v: Variant, m: Mode, s: Bytes): (r: Bytes)
    ensures |r| <= |s|
  {
    if s == [] then [] else Filtered(v, m, s[..|s| - 1]) + Emit(ModeAfter(v, m, s[..|s| - 1]), s[|s| - 1])
  }

  /** Filtering splits at any point of the stream. */
  lemma {:induction false} FilteredAppend(v: Variant, m: Mode, a: Bytes, b: Bytes)
    ensures ModeAfter(v, m, a + b) == ModeAfter(v, ModeAfter(v, m, a), b)
    ensures Filtered(v, m, a + b) == Filtered(v, m, a) + Filtered(v, ModeAfter(v, m, a), b)
    decreases |b|
  {
    if b == [] {
      assert a + b == a;
    } else {
      var b' := b[..|b| - 1];
      assert (a + b)[..|a + b| - 1] == a + b';
      FilteredAppend(v, m, a, b');
    }
  }

  /** One more byte at the end. */
  lemma FilteredSnoc(v: Variant, m: Mode, s: Bytes, c: byte)
    ensures ModeAfter(v, m, s + [c]) == Next(v, ModeAfter(v, m, s), c)
    ensures Filtered(v, m, s + [c]) == Filtered(v, m, s) + Emit(ModeAfter(v, m, s), c)
  {
    assert (s + [c])[..|s|] == s;
  }

  // -------------------------------------------------------------------
  // The filter, line by line

  /** The length of the first line of `s`, its newline included. */
  function LineLength(s: Bytes): (k: nat)
    ensures k <= |s|
    ensures s != [] ==> 0 < k
    ensures forall i | 0 <= i < k - 1 :: s[i] != '\n'
    ensures k < |s| ==> s[k - 1] == '\n'
    ensures 0 < k && s[k - 1] != '\n' ==> k == |s|
  {
    if s == [] then 0 else if s[0] == '\n' then 1 else 1 + LineLength(s[1..])
  }

  /** What the filter is meant to pass on: each line that begins with `>`, without the `>`, newline included. */
  function Unlit(s: Bytes): Bytes
    decreases |s|
  {
    if s == [] then []
    else
      var k := LineLength(s);
      (if s[0] == '>' then s[1..k] else []) + Unlit(s[k..])
  }

  /** No line is empty: the text neither begins with a newline nor holds two in a row. */
  predicate NoBlankLines(s: Bytes)
  {
    forall i | 0 <= i < |s| && s[i] == '\n' :: 0 < i && s[i - 1] != '\n'
  }

  /** Inside a line, the mode holds and a code line passes its bytes on. */
  lemma {:induction false} InsideLine(v: Variant, m: Mode, body: Bytes)
    requires m != LineStart
    requires forall i | 0 <= i < |body| :: body[i] != '\n'
    ensures ModeAfter(v, m, body) == m
    ensures Filtered(v, m, body) == if m == Code then body else []
    decreases |body|
  {
    if body != [] {
      var b' := body[..|body| - 1];
      InsideLine(v, m, b');
      assert b' + [body[|body| - 1]] == body;
    }
  }

  /** The first byte of a line passes nothing on and sets the mode. */
  lemma FirstByte(v: Variant, c: byte)
    ensures Filtered(v, LineStart, [c]) == []
    ensures ModeAfter(v, LineStart, [c]) == Next(v, LineStart, c)
  {
    FilteredSnoc(v, LineStart, [], c);
    assert [] + [c] == [c];
  }

  /** The rest of a line after its first byte: passed on whole in a code line, and a final newline starts the next line. */
  lemma RestOfLine(v: Variant, m: Mode, rest: Bytes)
    requires m != LineStart && rest != [] && forall i | 0 <= i < |rest| - 1 :: rest[i] != '\n'
    ensures Filtered(v, m, rest) == if m == Code then rest else []
    ensures rest[|rest| - 1] == '\n' ==> ModeAfter(v, m, rest) == LineStart
  {
    var body, last := rest[..|rest| - 1], rest[|rest| - 1];
    assert rest == body + [last];
    InsideLine(v, m, body);
    FilteredSnoc(v, m, body, last);
  }

  /** One whole line from the start of a line: its bytes after the first if it begins with `>`. */
  lemma OneLine(v: Variant, line: Bytes)
    requires line != [] && forall i | 0 <= i < |line| - 1 :: line[i] != '\n'
    requires v == Intended || line[0] != '\n'
    ensures Filtered(v, LineStart, line) == if line[0] == '>' then line[1..] else []
    ensures line[|line| - 1] == '\n' ==> ModeAfter(v, LineStart, line) == LineStart
  {
    var c := line[0];
    FirstByte(v, c);
    if c == '\n' {
      assert line == [c];
    } else {
      var rest := line[1..];
      assert line == [c] + rest;
      FilteredAppend(v, LineStart, [c], rest);
      if rest != [] {
        RestOfLine(v, Next(v, LineStart, c), rest);
      }
    }
  }

  /** `Unlit` takes the first line and goes on with the rest. */
  lemma UnlitFirstLine(s: Bytes)
    requires s != []
    ensures var k := LineLength(s); Unlit(s) == (if s[0] == '>' then s[..k][1..] else []) + Unlit(s[k..])
  {
    var k := LineLength(s);
    assert s[..k][1..] == s[1..k];
  }

  /** Text without blank lines has none after its first line either, and does not begin with a newline. */
  lemma NoBlankLinesRest(s: Bytes, k: nat)
    requires NoBlankLines(s) && s != [] && k == LineLength(s)
    ensures s[0] != '\n' && NoBlankLines(s[k..])
  {
    assert s[0] == '\n' ==> !(0 < 0);
    forall i | 0 <= i < |s[k..]| && s[k..][i] == '\n'
      ensures 0 < i && s[k..][i - 1] != '\n'
    {
      assert s[k + i] == '\n';
    }
  }

  /**
   * The filter as intended passes on exactly the code lines of `Unlit`;
   * as written it does so on text without blank lines.
   */
  lemma {:induction false} FilterIsUnlit(v: Variant, s: Bytes)
    requires v == Intended || NoBlankLines(s)
    ensures Filtered(v, LineStart, s) == Unlit(s)
    decreases |s|
  {
    if s != [] {
      var k := LineLength(s);
      var line, rest := s[..k], s[k..];
      assert s == line + rest;
      if v == AsWritten {
        NoBlankLinesRest(s, k);
      }
      OneLine(v, line);
      FilteredAppend(v, LineStart, line, rest);
      UnlitFirstLine(s);
      if rest != [] {
        FilterIsUnlit(v, rest);
      }
    }
  }

  /** A code line: it begins with `>`, ends with its newline and holds no other. */
  predicate CodeLine(line: Bytes)
  {
    2 <= |line| && line[0] == '>' && line[|line| - 1] == '\n' &&
    forall i | 0 <= i < |line| - 1 :: line[i] != '\n'
  }

  /**
   * As written, a blank line swallows the code line after it: for a blank
   * line followed by a code line such as `>x`, the filter passes nothing
   * on, where the code line's text and newline are meant to come through.
   */
  lemma BlankLineSwallowsNextAsWritten(line: Bytes)
    requires CodeLine(line)
    ensures Filtered(AsWritten, LineStart, ['\n'] + line) == []
    ensures Unlit(['\n'] + line) == line[1..] != []
  {
    FirstByte(AsWritten, '\n');
    FilteredAppend(AsWritten, LineStart, ['\n'], line);
    RestOfLine(AsWritten, Text, line);
    UnlitAfterBlank(line);
  }

  /** As intended, the code line after a blank line comes through. */
  lemma BlankLineKeepsNext(line: Bytes)
    requires CodeLine(line)
    ensures Filtered(Intended, LineStart, ['\n'] + line) == line[1..]
  {
    UnlitAfterBlank(line);
    FilterIsUnlit(Intended, ['\n'] + line);
  }

  lemma UnlitAfterBlank(line: Bytes)
    requires CodeLine(line)
    ensures Unlit(['\n'] + line) == line[1..]
  {
    var s := ['\n'] + line;
    assert LineLength(s) == 1 && s[1..] == line;
    assert Unlit(s) == Unlit(line);
    assert LineLength(line) == |line|;
    assert line[|line|..] == [];
    assert Unlit(line) == line[1..] + Unlit([]);
  }

  // -------------------------------------------------------------------
  // The reader

  /** The flags and the output are what the filter makes of the bytes looked at. */
  ghost predicate Tracks(consumed: Bytes, emitted: Bytes, nl: bool, code: bool)
  {
    emitted == Filtered(AsWritten, LineStart, consumed) &&
    ModeOf(nl, code) == ModeAfter(AsWritten, LineStart, consumed)
  }

  /** The bytes looked at, those left in the buffer from `start` and those the source holds make up the source. */
  ghost predicate Conserves(consumed: Bytes, scratch: Bytes, start: nat, src: Bytes, whole: Bytes)
  {
    start <= |scratch| && consumed + scratch[start..] + src == whole
  }

  /** Looking at the next byte of the buffer loses nothing. */
  lemma ConservesStep(consumed: Bytes, scratch: Bytes, start: nat, src: Bytes, whole: Bytes)
    requires Conserves(consumed, scratch, start, src, whole) && start < |scratch|
    ensures Conserves(consumed + [scratch[start]], scratch, start + 1, src, whole)
  {
    assert scratch[start..] == [scratch[start]] + scratch[start + 1..];
  }

  /** The loop body of `Read` on one byte keeps the flags and the output in step with the filter. */
  lemma TracksStep(consumed: Bytes, emitted: Bytes, nl: bool, code: bool, c: byte)
    requires Tracks(consumed, emitted, nl, code)
    ensures nl ==> Tracks(consumed + [c], emitted, false, c == '>')
    ensures !nl && code ==> Tracks(consumed + [c], emitted + [c], c == '\n', code)
    ensures !nl && !code ==> Tracks(consumed + [c], emitted, c == '\n', code)
  {
    FilteredSnoc(AsWritten, LineStart, consumed, c);
  }

  /** `LiterateReader.Valid` over the values of the reader's fields. */
  ghost predicate Sound(live: bool, eof: bool, first: bool, start: nat, scratch: Bytes, src: Bytes, whole: Bytes,
                        consumed: Bytes, emitted: Bytes, nl: bool, code: bool)
  {
    (live ==> start <= |scratch| && 0 < |scratch|) &&
    eof == !live &&
    (first ==> consumed == [] && src == whole) &&
    (!first && live ==> Conserves(consumed, scratch, start, src, whole)) &&
    (!live ==> consumed == whole && src == [] && scratch == []) &&
    Tracks(consumed, emitted, nl, code)
  }

  /** Looking at the next byte of `scratch`, as `Read`'s inner loop does, keeps the reader sound. */
  lemma SoundStep(start: nat, scratch: Bytes, src: Bytes, whole: Bytes, consumed: Bytes, emitted: Bytes, nl: bool, code: bool)
    requires Sound(true, false, false, start, scratch, src, whole, consumed, emitted, nl, code) && start < |scratch|
    ensures var c := scratch[start];
      Sound(true, false, false, start + 1, scratch, src, whole, consumed + [c],
            if !nl && code then emitted + [c] else emitted,
            if nl then false else c == '\n', if nl then c == '>' else code)
  {
    ConservesStep(consumed, scratch, start, src, whole);
    TracksStep(consumed, emitted, nl, code, scratch[start]);
  }

  /** Writes `c` into `p` at `n`: the first `n + 1` bytes of `p` are the first `n` with `c` after them. */
  method Put(p: array<byte>, n: nat, c: byte)
    requires n < p.Length
    modifies p
    ensures p[..n + 1] == old(p[..n]) + [c]
  {
    p[n] := c;
    assert p[..n + 1] == p[..n] + [c];
  }

  /** What a `Read` returns: the count written into `p` and whether the source reported its end, or an index panic. */
  datatype Outcome = Got(n: nat, eof: bool) | OutOfRange

  /** The size of the buffer `NewLiterateReader` makes. */
  const ScratchSize: nat := 128

  class LiterateReader {
    var code: bool
    var nl: bool
    var first: bool
    var start: nat
    var scratch: Bytes
    /** `scratch != nil`. */
    var live: bool
    /** `err != nil`. */
    var eof: bool
    /** What the underlying reader has still to deliver. */
    var src: Bytes

    /** Everything the underlying reader delivers over the reader's life. */
    ghost var whole: Bytes
    /** The bytes the filter has looked at so far. */
    ghost var consumed: Bytes
    /** The bytes all `Read`s have passed on so far. */
    ghost var emitted: Bytes

    /**
     * Nothing is lost: the bytes looked at, those left in `scratch` and
     * those the source still holds make up the source; what has been
     * passed on is what the filter makes of the bytes looked at; and the
     * flags are the mode the filter has reached.
     */
    ghost predicate Valid()
      reads this
    {
      Sound(live, eof, first, start, scratch, src, whole, consumed, emitted, nl, code)
    }

    /** `NewLiterateReader`: the first byte starts a line, and the buffer is yet to be filled. */
    constructor (text: Bytes)
      ensures Valid()
      ensures ModeOf(nl, code) == LineStart && first && live
      ensures whole == text && src == text && emitted == []
    {
      code, nl, first := false, true, true;
      start := 0;
      scratch := seq(ScratchSize, _ => 0 as char);
      live, eof := true, false;
      src := text;
      whole, consumed, emitted := text, [], [];
    }

    /**
     * `Read`: passes on filtered bytes into `p`, stopping one short of
     * its end or when the source runs dry; from then on every `Read`
     * returns nothing and the end of input.  With an empty `p` the first
     * code byte indexes out of range.
     */
    method Read(p: array<byte>) returns (r: Outcome)
      requires Valid()
      modifies this, p
      ensures whole == old(whole)
      ensures r.Got? ==> Valid()
      ensures r.Got? ==> r.n <= p.Length && (0 < r.n ==> r.n < p.Length)
      ensures r.Got? ==> emitted == old(emitted) + p[..r.n] && r.eof == eof
      ensures r.Got? && !r.eof ==> r.n + 1 == p.Length
      ensures r.Got? && r.eof ==> consumed == whole
      ensures old(!live) ==> r == Got(0, true) && unchanged(this)
      ensures r.OutOfRange? ==> p.Length == 0
    {
      if !live {
        return Got(0, eof);
      }
      ghost var e0 := emitted;
      var n: nat := 0;
      while true
        invariant Valid() && whole == old(whole) && live
        invariant n == 0 || n < p.Length
        invariant emitted == e0 + p[..n]
        decreases if first then |src| + 1 else |src| + |scratch| - start
      {
        if first || start == |scratch| {
          var dry := Refill();
          if dry {
            break;
          }
        }
        var full, crashed;
        n, full, crashed := Pump(p, n, e0);
        if crashed {
          return OutOfRange;
        } else if full {
          break;
        }
      }
      return Got(n, eof);
    }

    /** The refill at the head of the loop: `scratch` takes the next bytes of the source, or is dropped when there are none. */
    method Refill() returns (dry: bool)
      requires Valid() && live && (first || start == |scratch|)
      modifies this
      ensures Valid() && whole == old(whole) && emitted == old(emitted)
      ensures dry <==> !live
      ensures !dry ==> !first && start == 0 && 0 < |scratch| && |src| + |scratch| == old(|src|)
    {
      var m := if |scratch| < |src| then |scratch| else |src|;
      if m == 0 {
        scratch, live, eof := [], false, true;
        return true;
      }
      assert src[..m] + src[m..] == src;
      assert Conserves(consumed, src[..m], 0, src[m..], whole);
      scratch, src := src[..m], src[m..];
      eof := false;
      start, first := 0, false;
      return false;
    }

    /** The inner loop: the bytes left in `scratch` through the filter, until `p` has one byte of room left. */
    method Pump(p: array<byte>, n: nat, ghost e0: Bytes) returns (n': nat, full: bool, crashed: bool)
      requires Valid() && live && !first && start < |scratch|
      requires n == 0 || n < p.Length
      requires emitted == e0 + p[..n]
      modifies this, p
      ensures whole == old(whole)
      ensures !crashed ==> Valid() && live && !first
      ensures !crashed ==> src == old(src) && scratch == old(scratch) && old(start) <= start
      ensures !crashed ==> (n' == 0 || n' < p.Length) && emitted == e0 + p[..n']
      ensures !crashed && !full ==> start == |scratch|
      ensures !crashed && full ==> n' + 1 == p.Length
      ensures crashed ==> p.Length == 0
    {
      n' := n;
      while start < |scratch|
        invariant Valid() && live && !first && whole == old(whole)
        invariant src == old(src) && scratch == old(scratch) && old(start) <= start <= |scratch|
        invariant n' == 0 || n' < p.Length
        invariant emitted == e0 + p[..n']
      {
        if n' == p.Length - 1 {
          return n', true, false;
        }
        var c, emit := Take();
        if emit {
          if n' >= p.Length {
            return n', false, true;
          }
          Put(p, n', c);
          n' := n' + 1;
        }
      }
      return n', false, false;
    }

    /** One byte of `scratch` through the filter: the byte, and whether it belongs to a code line and is passed on. */
    method Take() returns (c: byte, emit: bool)
      requires Valid() && live && !first && start < |scratch|
      modifies this
      ensures Valid() && live && !first
      ensures whole == old(whole) && src == old(src) && scratch == old(scratch) && start == old(start) + 1
      ensures c == old(scratch[start]) && emit == (old(!nl) && old(code))
      ensures emitted == old(emitted) + (if emit then [c] else [])
    {
      c := scratch[start];
      SoundStep(start, scratch, src, whole, consumed, emitted, nl, code);
      emit := !nl && code;
      start := start + 1;
      nl, code := if nl then false else c == '\n', if nl then c == '>' else code;
      consumed, emitted := consumed + [c], if emit then emitted + [c] else emitted;
    }
  }
}
