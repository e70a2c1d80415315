/**
 * The interactive interpreter's own logic in src/tools/geli.go: the
 * `Readline` splitter, which cuts the bytes typed at the prompt into
 * complete logical lines, and the history helpers `_foreshorten`,
 * `_valid_idx`, `_make_slice` and the `$` dispatcher.
 *
 * `Step` says what `Readline` does with one byte, `Feed` with a run of
 * them; the class does it field by field.  As written, a newline inside a
 * comment sets `comment` to `quote == 0`, so a comment whose braces are
 * balanced never ends; `Step(Intended, ...)` ends it there instead.  The
 * class follows the code as written.
 *
 * The history vector is a sequence passed in and returned; the parser
 * `_slice` is the parameter `slice`, compiled from the spec
 * `i ['to j]?` by module ArgSpec and applied by module ArgMatch.
 */
module Geli {
  import opened Base
  import opened Words
  import opened Errors
  import opened Machine
  import ArgSpec
  import ArgMatch

  // -------------------------------------------------------------------
  // Readline, byte by byte

  datatype State = State(
    buffer: Bytes, lines: seq<Bytes>,
    literal: bool, escaped: bool, star: bool, comment: bool,
    clause: int, quote: int, first: int)

  /** The code as written, or with a comment ending at a newline outside braces. */
  datatype Variant = AsWritten | Intended

  /** `IsComplete`: outside a string and a `\*` run, with brackets and braces balanced. */
  predicate Complete(s: State)
  {
    !s.literal && !s.star && s.clause == 0 && s.quote == 0
  }

  /** The bytes skipped while looking for the first byte of a line. */
  predicate Blank(c: byte)
  {
    c == ' ' || c == '\t' || c == FormFeed || c == '\r'
  }

  /** The bytes a `\*` run passes through. */
  predicate StarBlank(c: byte)
  {
    Blank(c) || c == '\n'
  }

  /** The state `NewReadline` starts from. */
  const Fresh: State := State([], [], false, false, false, false, 0, 0, -1)

  /** Inside a comment: braces are counted, a backslash escapes, and a newline may end it. */
  function InComment(v: Variant, s: State, c: byte): State
  {
    if c == '{' then s.(quote := s.quote + 1)
    else if c == '}' then s.(quote := s.quote - 1)
    else if c == '\\' then s.(escaped := true)
    else if c == '\n' then s.(comment := if v == AsWritten then s.quote == 0 else s.quote != 0)
    else s
  }

  /** Outside strings, comments and escapes: brackets and braces are counted, and `"`, `#` and `\` change mode. */
  function Outside(s: State, i: int, c: byte): State
  {
    if c == '{' then s.(quote := s.quote + 1)
    else if c == '}' then s.(quote := s.quote - 1)
    else if c == '[' then s.(clause := s.clause + 1)
    else if c == ']' then s.(clause := s.clause - 1)
    else if c == '"' then s.(literal := true)
    else if c == '#' then s.(comment := s.first == i)
    else if c == '\\' then s.(escaped := true)
    else s
  }

  /** The byte joins the buffer; an unescaped newline or `;` at a complete point ends a line, a blank one being dropped. */
  function Ended(s: State, i: int, c: byte): State
  {
    var t := s.(buffer := s.buffer + [c]);
    if !t.escaped && (c == '\n' || c == ';') && Complete(t) then
      t.(lines := if c == '\n' && t.first == i then t.lines else t.lines + [t.buffer], buffer := [], first := -1)
    else t
  }

  /** A first byte that is not blank marks where the line starts. */
  function Marked(s: State, i: int, c: byte): (r: State)
    ensures r.buffer == s.buffer && r.lines == s.lines
  {
    if s.first == -1 && !Blank(c) then s.(first := i) else s
  }

  /** The counting a byte does, before it joins the buffer. */
  function Counted(v: Variant, s: State, i: int, c: byte): (r: State)
    ensures r.buffer == s.buffer && r.lines == s.lines
  {
    if s.comment then
      if s.escaped then s.(escaped := false) else InComment(v, s, c)
    else if s.star then s.(star := false)
    else if !s.escaped then
      if !s.literal then Outside(s, i, c) else if c == '"' then s.(literal := false) else s
    else s.(escaped := false, star := c == '*' && s.quote == 0)
  }

  /** A blank or newline in a `\*` run, outside a comment: it joins the buffer and nothing else changes. */
  predicate Passes(s: State, c: byte)
  {
    !s.comment && s.star && StarBlank(c)
  }

  /** One byte, at index `i` of the bytes being read. */
  function Step(v: Variant, s: State, i: int, c: byte): State
  {
    var s1 := Marked(s, i, c);
    if Passes(s1, c) then s1.(buffer := s1.buffer + [c]) else Ended(Counted(v, s1, i, c), i, c)
  }

  /** The state after the first `k` bytes of `p`. */
  function Feed(v: Variant, s: State, p: Bytes, k: nat): State
    requires k <= |p|
  {
    if k == 0 then s else Step(v, Feed(v, s, p, k - 1), k - 1, p[k - 1])
  }

  /** `Read`: every byte of `p`, then `first` forgotten. */
  function ReadOf(v: Variant, s: State, p: Bytes): State
  {
    Feed(v, s, p, |p|).(first := -1)
  }

  // -------------------------------------------------------------------
  // What a byte does

  /**
   * A byte either joins the buffer, or ends a line: then the state is
   * complete, the byte is an unescaped newline or `;`, the buffer is
   * cleared, and the line is pushed unless it was blank.
   */
  lemma StepEmitsOnlyComplete(v: Variant, s: State, i: int, c: byte)
    ensures var t := Step(v, s, i, c);
      (t.buffer == s.buffer + [c] && t.lines == s.lines) ||
      (t.buffer == [] && t.first == -1 && (c == '\n' || c == ';') && Complete(t) && !t.escaped &&
       (t.lines == s.lines || t.lines == s.lines + [s.buffer + [c]]))
  {
    var s1 := Marked(s, i, c);
    if !Passes(s1, c) {
      EndedShape(Counted(v, s1, i, c), i, c);
    }
  }

  lemma EndedShape(s: State, i: int, c: byte)
    ensures var t := Ended(s, i, c);
      (t.buffer == s.buffer + [c] && t.lines == s.lines) ||
      (t.buffer == [] && t.first == -1 && (c == '\n' || c == ';') && Complete(t) && !t.escaped &&
       (t.lines == s.lines || t.lines == s.lines + [s.buffer + [c]]))
  {
  }

  /**
   * Outside strings, comments, escapes and `\*` runs, at a complete point,
   * `;` always ends a line, and a newline does when something came before
   * it on the line.
   */
  lemma CompleteEndEmits(v: Variant, s: State, i: int, c: byte)
    requires !s.comment && !s.star && !s.escaped && Complete(s)
    requires c == ';' || (c == '\n' && s.first != -1 && s.first != i)
    ensures Step(v, s, i, c).lines == s.lines + [s.buffer + [c]]
    ensures Step(v, s, i, c).buffer == []
  {
  }

  /** A newline that is the first byte of a line after blanks ends no line. */
  lemma BlankLineEmitsNothing(v: Variant, s: State, i: int)
    requires s.first == -1
    ensures Step(v, s, i, '\n').lines == s.lines
  {
  }

  /** Inside a string, brackets and braces are not counted, and only `"` ends the string. */
  lemma LiteralIgnoresBrackets(v: Variant, s: State, i: int, c: byte)
    requires !s.comment && !s.star && !s.escaped && s.literal
    ensures Step(v, s, i, c).clause == s.clause && Step(v, s, i, c).quote == s.quote
    ensures Step(v, s, i, c).literal <==> c != '"'
  {
  }

  /** `#` starts a comment only as the first byte of a line after blanks. */
  lemma CommentOnlyFirst(v: Variant, s: State, i: int)
    requires !s.comment && !s.star && !s.escaped && !s.literal
    ensures Step(v, s, i, '#').comment <==> s.first == -1 || s.first == i
  {
  }

  /**
   * An escaped byte is never counted; a `\*` outside braces starts a run
   * that passes blanks and newlines through without ending a line.
   */
  lemma EscapedNotCounted(v: Variant, s: State, i: int, c: byte)
    requires s.escaped && !s.star
    ensures var t := Step(v, s, i, c);
      t.clause == s.clause && t.quote == s.quote && t.literal == s.literal && t.comment == s.comment && !t.escaped
    ensures !s.comment ==> (Step(v, s, i, c).star <==> c == '*' && s.quote == 0)
  {
  }

  lemma StarPassesBlanks(v: Variant, s: State, i: int, c: byte)
    requires !s.comment && s.star && StarBlank(c)
    ensures var t := Step(v, s, i, c);
      t.buffer == s.buffer + [c] && t.lines == s.lines && t.star &&
      t.clause == s.clause && t.quote == s.quote && t.literal == s.literal
  {
  }

  /** Outside strings, comments and escapes, brackets and braces are counted. */
  lemma BracketsCounted(v: Variant, s: State, i: int)
    requires !s.comment && !s.star && !s.escaped && !s.literal
    ensures Step(v, s, i, '[').clause == s.clause + 1 && Step(v, s, i, ']').clause == s.clause - 1
    ensures Step(v, s, i, '{').quote == s.quote + 1 && Step(v, s, i, '}').quote == s.quote - 1
  {
  }

  // -------------------------------------------------------------------
  // What a run of bytes does

  /** A line as `Read` pushes it: ended by a newline or `;`. */
  predicate EndsLine(line: Bytes)
  {
    line != [] && (line[|line| - 1] == '\n' || line[|line| - 1] == ';')
  }

  /** A byte adds at most one line, one that ends with that byte. */
  lemma StepAddsEndedLine(v: Variant, u: State, i: int, c: byte)
    ensures Step(v, u, i, c).lines == u.lines ||
      (Step(v, u, i, c).lines == u.lines + [u.buffer + [c]] && EndsLine(u.buffer + [c]))
  {
    StepEmitsOnlyComplete(v, u, i, c);
  }

  /** `b` is `a` with lines added at the end. */
  predicate Extends(a: seq<Bytes>, b: seq<Bytes>)
  {
    |a| <= |b| && b[..|a|] == a
  }

  lemma ExtendsTrans(a: seq<Bytes>, b: seq<Bytes>, c: seq<Bytes>)
    requires Extends(a, b) && Extends(b, c)
    ensures Extends(a, c)
  {
    assert c[..|a|] == c[..|b|][..|a|];
  }

  lemma StepExtends(v: Variant, u: State, i: int, c: byte)
    ensures Extends(u.lines, Step(v, u, i, c).lines)
  {
    StepAddsEndedLine(v, u, i, c);
  }

  /** Lines are only ever added, in order. */
  lemma {:induction false} FeedKeepsLines(v: Variant, s: State, p: Bytes, k: nat)
    requires k <= |p|
    ensures Extends(s.lines, Feed(v, s, p, k).lines)
  {
    if k > 0 {
      FeedKeepsLines(v, s, p, k - 1);
      var u := Feed(v, s, p, k - 1);
      StepExtends(v, u, k - 1, p[k - 1]);
      ExtendsTrans(s.lines, u.lines, Feed(v, s, p, k).lines);
    }
  }

  /** Each line added ends with the newline or `;` that ended it. */
  lemma {:induction false} FeedAddsEndedLines(v: Variant, s: State, p: Bytes, k: nat)
    requires k <= |p|
    ensures forall j | |s.lines| <= j < |Feed(v, s, p, k).lines| :: EndsLine(Feed(v, s, p, k).lines[j])
  {
    if k > 0 {
      FeedAddsEndedLines(v, s, p, k - 1);
      StepAddsEndedLine(v, Feed(v, s, p, k - 1), k - 1, p[k - 1]);
    }
  }

  /** As written, a newline inside a comment with balanced braces leaves the comment open; as intended it ends it. */
  lemma CommentNeverEndsAsWritten(s: State, i: int)
    requires s.comment && !s.escaped && s.quote == 0
    ensures Step(AsWritten, s, i, '\n').comment
    ensures !Step(Intended, s, i, '\n').comment
  {
  }

  /**
   * Reading `#`, newline, `[`, newline: as written the comment swallows
   * the next line, whose open bracket goes uncounted, so both lines come
   * out and the reader is complete; as intended only the comment line
   * comes out and the bracket keeps the reader waiting.
   */
  lemma CommentSwallowsNextLineAsWritten()
    ensures ReadOf(AsWritten, Fresh, ['#', '\n', '[', '\n']).lines == [['#', '\n'], ['[', '\n']]
    ensures Complete(ReadOf(AsWritten, Fresh, ['#', '\n', '[', '\n']))
  {
    var p: Bytes := ['#', '\n', '[', '\n'];
    var a2 := CommentLine(AsWritten);
    var a3 := Step(AsWritten, a2, 2, '[');
    assert a3 == a2.(first := 2, buffer := ['[']);
    var a4 := Step(AsWritten, a3, 3, '\n');
    assert a3.buffer + ['\n'] == ['[', '\n'];
    assert a4 == a3.(first := -1, buffer := [], lines := [['#', '\n'], ['[', '\n']]);
    assert Feed(AsWritten, Fresh, p, 4) == a4;
  }

  /** As intended, the same bytes give only the comment line, and the open bracket keeps the reader waiting. */
  lemma CommentEndsAtNewline()
    ensures ReadOf(Intended, Fresh, ['#', '\n', '[', '\n']).lines == [['#', '\n']]
    ensures !Complete(ReadOf(Intended, Fresh, ['#', '\n', '[', '\n']))
  {
    var p: Bytes := ['#', '\n', '[', '\n'];
    var b2 := CommentLine(Intended);
    var b3 := Step(Intended, b2, 2, '[');
    assert b3 == b2.(first := 2, buffer := ['['], clause := 1);
    var b4 := Step(Intended, b3, 3, '\n');
    assert b4 == b3.(buffer := ['[', '\n']);
    assert Feed(Intended, Fresh, p, 4) == b4;
  }

  /** The state after `#` and a newline: one line out, and the comment still open exactly as written. */
  function CommentLine(v: Variant): (s: State)
    ensures s == Feed(v, Fresh, ['#', '\n', '[', '\n'], 2)
    ensures s == Fresh.(lines := [['#', '\n']], comment := v == AsWritten)
  {
    var a1 := Step(v, Fresh, 0, '#');
    assert a1 == Fresh.(first := 0, comment := true, buffer := ['#']);
    assert a1.buffer + ['\n'] == ['#', '\n'];
    Step(v, a1, 1, '\n')
  }

  // -------------------------------------------------------------------
  // The Readline object

  class Readline {
    var buffer: Bytes
    var lines: seq<Bytes>
    var literal: bool
    var escaped: bool
    var star: bool
    var comment: bool
    var clause: int
    var quote: int
    var first: int

    /** The fields as one value. */
    function Snapshot(): State
      reads this
    {
      State(buffer, lines, literal, escaped, star, comment, clause, quote, first)
    }

    /** `NewReadline`: every field zero, then `Reset`. */
    constructor ()
      ensures Snapshot() == Fresh
    {
      buffer, lines := [], [];
      literal, escaped, star, comment := false, false, false, false;
      clause, quote, first := 0, 0, -1;
    }

    /** `Reset`: a new buffer and line list and no first byte; the modes carry over. */
    method Reset()
      modifies this
      ensures Snapshot() == old(Snapshot()).(buffer := [], lines := [], first := -1)
    {
      buffer, lines, first := [], [], -1;
    }

    /** `IsComplete`: whether a line could end here. */
    function IsComplete(): (r: bool)
      reads this
      ensures r <==> Complete(Snapshot())
    {
      !literal && !star && clause == 0 && quote == 0
    }

    /** One byte of the loop of `Read`: the first byte marked, then the `\*` run, the counting and the end of line. */
    method Consume(i: int, c: byte)
      modifies this
      ensures Snapshot() == Step(AsWritten, old(Snapshot()), i, c)
    {
      if first == -1 && !Blank(c) {
        first := i;
      }
      if !comment && star && StarBlank(c) {
        buffer := buffer + [c];
        return;
      }
      Count(i, c);
      Finish(i, c);
    }

    /** The switch of the loop of `Read`, for a byte that is not passed through a `\*` run. */
    method Count(i: int, c: byte)
      modifies this
      ensures Snapshot() == Counted(AsWritten, old(Snapshot()), i, c)
    {
      if comment {
        if !escaped {
          CountInComment(c);
        } else {
          escaped := false;
        }
      } else if star {
        star := false;
      } else if !escaped {
        if !literal {
          CountOutside(i, c);
        } else if c == '"' {
          literal := false;
        }
      } else {
        escaped := false;
        star := c == '*' && quote == 0;
      }
    }

    method CountInComment(c: byte)
      modifies this
      ensures Snapshot() == InComment(AsWritten, old(Snapshot()), c)
    {
      if c == '{' {
        quote := quote + 1;
      } else if c == '}' {
        quote := quote - 1;
      } else if c == '\\' {
        escaped := true;
      } else if c == '\n' {
        comment := quote == 0;
      }
    }

    method CountOutside(i: int, c: byte)
      modifies this
      ensures Snapshot() == Outside(old(Snapshot()), i, c)
    {
      if c == '{' {
        quote := quote + 1;
      } else if c == '}' {
        quote := quote - 1;
      } else if c == '[' {
        clause := clause + 1;
      } else if c == ']' {
        clause := clause - 1;
      } else if c == '"' {
        literal := true;
      } else if c == '#' {
        comment := first == i;
      } else if c == '\\' {
        escaped := true;
      }
    }

    /** The byte joins the buffer, and a line ends if this is a complete point. */
    method Finish(i: int, c: byte)
      modifies this
      ensures Snapshot() == Ended(old(Snapshot()), i, c)
    {
      buffer := buffer + [c];
      if !escaped && (c == '\n' || c == ';') && IsComplete() {
        if !(c == '\n' && first == i) {
          lines := lines + [buffer];
        }
        buffer := [];
        first := -1;
      }
    }

    /** `Read`: all of `p` taken in, and its length returned. */
    method Read(p: Bytes) returns (n: nat)
      modifies this
      ensures n == |p|
      ensures Snapshot() == ReadOf(AsWritten, old(Snapshot()), p)
    {
      for i := 0 to |p|
        invariant Snapshot() == Feed(AsWritten, old(Snapshot()), p, i)
      {
        Consume(i, p[i]);
      }
      n, first := |p|, -1;
    }
  }

  // -------------------------------------------------------------------
  // _foreshorten

  /** `unicode.IsSpace` on a single byte. */
  predicate IsSpace(c: byte)
  {
    c == ' ' || c == '\t' || c == '\n' || c == VerticalTab || c == FormFeed || c == '\r'
  }

  /** `strings.TrimRightFunc(s, unicode.IsSpace)`. */
  function TrimRight(s: Bytes): (r: Bytes)
    ensures IsPrefix(r, s)
    ensures r == [] || !IsSpace(r[|r| - 1])
    ensures forall j | |r| <= j < |s| :: IsSpace(s[j])
  {
    if s == [] || !IsSpace(s[|s| - 1]) then s else TrimRight(s[..|s| - 1])
  }

  /** Where a history line is cut: at its first newline that is not its last byte, or past byte 70. */
  predicate CutsAt(line: Bytes, i: nat)
    requires i < |line|
  {
    (line[i] == '\n' && i + 1 != |line|) || i > 70
  }

  function CutAt(line: Bytes): (k: nat)
    ensures k <= |line|
    ensures k < |line| ==> CutsAt(line, k)
    ensures forall j | 0 <= j < k :: !CutsAt(line, j)
    ensures k <= 71 || k == |line|
  {
    CutFrom(line, 0)
  }

  function CutFrom(line: Bytes, i: nat): (k: nat)
    requires i <= |line|
    ensures i <= k <= |line|
    ensures k < |line| ==> CutsAt(line, k)
    ensures forall j | i <= j < k :: !CutsAt(line, j)
    ensures i <= 71 ==> k <= 71 || k == |line|
    decreases |line| - i
  {
    if i == |line| then i else if CutsAt(line, i) then i else CutFrom(line, i + 1)
  }

  /** The cut is the first place where a line may be cut. */
  lemma CutAtIs(line: Bytes, k: nat)
    requires k <= |line| && (k < |line| ==> CutsAt(line, k))
    requires forall j | 0 <= j < k :: !CutsAt(line, j)
    ensures CutAt(line) == k
  {
  }

  /** What `_foreshorten` makes of a history line. */
  function ForeshortenOf(line: Bytes): Bytes
  {
    var k := CutAt(line);
    if k < |line| then TrimRight(line[..k]) + "..."
    else if line != [] && line[|line| - 1] == '\n' then line[..|line| - 1]
    else line
  }

  /** `_foreshorten`, with its loop. */
  method Foreshorten(line: Bytes) returns (out: Bytes)
    ensures out == ForeshortenOf(line)
  {
    out := line;
    var i := 0;
    while i < |line|
      invariant 0 <= i <= |line|
      invariant forall j | 0 <= j < i :: !CutsAt(line, j)
      invariant out == if i == |line| && 0 < i && line[i - 1] == '\n' then line[..i - 1] else line
    {
      var c := line[i];
      if (c == '\n' && i + 1 != |line|) || i > 70 {
        CutAtIs(line, i);
        out := TrimRight(line[..i]) + "...";
        return;
      } else if c == '\n' {
        out := line[..i];
      }
      i := i + 1;
    }
    CutAtIs(line, |line|);
  }

  /**
   * A foreshortened line holds no newline and at most 74 bytes: the line
   * up to its cut with trailing blanks trimmed and "..." added, or the
   * whole line without a final newline.
   */
  lemma ForeshortenShape(line: Bytes)
    ensures var r := ForeshortenOf(line);
      |r| <= 74 || r == line || r == line[..|line| - 1]
    ensures '\n' !in ForeshortenOf(line)
    ensures var r := ForeshortenOf(line);
      (CutAt(line) < |line| && r == TrimRight(line[..CutAt(line)]) + "...") ||
      (CutAt(line) == |line| && IsPrefix(r, line) && |line| - 1 <= |r|)
  {
    var k := CutAt(line);
    if k < |line| {
      var t := TrimRight(line[..k]);
      assert '\n' !in t by {
        forall j | 0 <= j < |t| ensures t[j] != '\n' {
          assert line[j] == t[j] && !CutsAt(line, j);
        }
      }
      assert "..." == ['.', '.', '.'];
    } else if line != [] && line[|line| - 1] == '\n' {
      forall j | 0 <= j < |line| - 1 ensures line[j] != '\n' {
        assert !CutsAt(line, j);
      }
    } else {
      forall j | 0 <= j < |line| ensures line[j] != '\n' {
        assert !CutsAt(line, j);
      }
    }
  }

  /** A line of at most 71 bytes with no newline but a final one is shown whole, without that newline. */
  lemma ForeshortenKeepsShortLines(line: Bytes)
    requires |line| <= 71 && forall j | 0 <= j < |line| - 1 :: line[j] != '\n'
    ensures ForeshortenOf(line) == if line != [] && line[|line| - 1] == '\n' then line[..|line| - 1] else line
  {
    CutAtIs(line, |line|);
  }

  /** A longer line without newlines is cut after byte 71, trimmed and marked with "...". */
  lemma ForeshortenCutsLongLines(line: Bytes)
    requires |line| > 71 && forall j | 0 <= j < |line| :: line[j] != '\n'
    ensures ForeshortenOf(line) == TrimRight(line[..71]) + "..."
  {
    CutAtIs(line, 71);
  }

  // -------------------------------------------------------------------
  // History indices and slices
  //
  // `help` is the help text `dollar_map` holds for the command at hand.

  /** `_invalid_idx`: a runtime error naming the word and showing the command's help. */
  function InvalidIdx(vm: nat, help: Bytes, w: Word): Panic
  {
    RuntimeError(Some(vm), [FStr("invalid index " + Ser(w) + "\n" + help)])
  }

  /**
   * `_valid_idx`: the index a word names in a history of `size` entries:
   * it must be a number with an integral value in [0, size).  A missing
   * word (`nil`) fails when its serialisation is asked for.
   */
  function ValidIdx(vm: nat, help: Bytes, w: Option<Word>, size: nat): (r: Out<nat>)
    ensures r.Done? <==>
      w.Some? && w.value.Number? && FloatInt(w.value.num).Some? && 0 <= FloatInt(w.value.num).value < size
    ensures r.Done? ==> r.value == FloatInt(w.value.num).value
    ensures w.None? ==> r == Unwound(Panicked(GoPanic))
    ensures w.Some? && r.Unwound? ==> r == Unwound(Panicked(InvalidIdx(vm, help, w.value)))
  {
    match w
    case None => Unwound(Panicked(GoPanic))
    case Some(word) =>
      if !word.Number? then Unwound(Panicked(InvalidIdx(vm, help, word)))
      else match FloatInt(word.num)
        case None => Unwound(Panicked(InvalidIdx(vm, help, word)))
        case Some(i) => if i < 0 || i >= size then Unwound(Panicked(InvalidIdx(vm, help, word))) else Done(i)
  }

  /** Every entry of the history can be named by its index. */
  lemma ValidIdxOfIndex(vm: nat, help: Bytes, k: nat, ser: Bytes, size: nat)
    requires k < size && k <= MaxInt64
    ensures ValidIdx(vm, help, Some(Number(Whole(k), ser)), size) == Done(k)
  {
  }

  /** A value of the bindings `_slice` returns, `nil` when the key is not bound. */
  function Lookup(m: map<Bytes, Word>, k: Bytes): Option<Word>
  {
    if k in m then Some(m[k]) else None
  }

  /** The interval `[i, j+1)` from two validated indices, refused when it is empty. */
  function Interval(vm: nat, help: Bytes, i: nat, j: nat): (r: Out<(nat, nat)>)
    ensures r.Done? <==> i <= j
    ensures r.Done? ==> r.value == (i, j + 1)
  {
    if i >= j + 1 then Unwound(Panicked(RuntimeError(Some(vm), [FStr(IntervalMessage + help)])))
    else Done((i, j + 1))
  }

  const IntervalMessage: Bytes := "invalid interval, i >= j\n"
  const ArgumentsMessage: Bytes := "invalid arguments\n"

  /** Whether the arguments are the single word `all`. */
  predicate IsAll(args: seq<Word>)
  {
    |args| == 1 && Ser(args[0]) == "all"
  }

  /**
   * `_make_slice`: the whole history for the single word `all`; otherwise
   * the arguments must match `i ['to j]?`, `i` and `j` (which defaults to
   * `i`) must be valid indices, and the result is `[i, j+1)`.
   */
  function MakeSlice(vm: nat, help: Bytes, slice: ArgSpec.ArgParser, args: seq<Word>, size: nat): (r: Out<(nat, nat)>)
    ensures IsAll(args) ==> r == Done((0, size))
  {
    if IsAll(args) then Done((0, size))
    else
      match ArgMatch.Apply(slice, args)
      case Rejected => Unwound(Panicked(RuntimeError(Some(vm), [FStr(ArgumentsMessage + help)])))
      case Diverges => Unwound(Exhausted)
      case Crashed => Unwound(Panicked(GoPanic))
      case Accepted(m) => SliceOf(vm, help, m, size)
  }

  /** The validated interval the bindings of `_slice` name. */
  function SliceOf(vm: nat, help: Bytes, m: map<Bytes, Word>, size: nat): (r: Out<(nat, nat)>)
  {
    match ValidIdx(vm, help, Lookup(m, "i"), size)
    case Unwound(u) => Unwound(u)
    case Done(i) =>
      if "j" in m then
        match ValidIdx(vm, help, Some(m["j"]), size)
        case Unwound(u) => Unwound(u)
        case Done(j) => Interval(vm, help, i, j)
      else Interval(vm, help, i, i)
  }

  /** A slice is always a non-empty interval of valid indices, or the whole history. */
  lemma MakeSliceBounds(vm: nat, help: Bytes, slice: ArgSpec.ArgParser, args: seq<Word>, size: nat)
    ensures var r := MakeSlice(vm, help, slice, args, size);
      r.Done? ==> r.value.0 <= r.value.1 <= size && (r.value.0 < r.value.1 || r.value == (0, size))
  {
  }

  /** Given only `i`, the slice is the one entry `i`; given `i` and `j`, it is `[i, j+1)` when `i <= j`. */
  lemma SliceOfIndices(vm: nat, help: Bytes, m: map<Bytes, Word>, size: nat, i: nat, j: nat)
    requires "i" in m && m["i"].Number? && m["i"].num == Whole(i) && i < size && i <= MaxInt64
    requires "j" in m ==> m["j"].Number? && m["j"].num == Whole(j) && j < size && j <= MaxInt64
    ensures "j" !in m ==> SliceOf(vm, help, m, size) == Done((i, i + 1))
    ensures "j" in m ==> (SliceOf(vm, help, m, size).Done? <==> i <= j)
    ensures "j" in m && i <= j ==> SliceOf(vm, help, m, size) == Done((i, j + 1))
  {
  }

  /** `cut`: the entries of the slice removed from the history. */
  function Cut(vm: nat, help: Bytes, slice: ArgSpec.ArgParser, args: seq<Word>, history: seq<Bytes>): (r: Out<seq<Bytes>>)
    ensures r.Done? <==> MakeSlice(vm, help, slice, args, |history|).Done?
  {
    MakeSliceBounds(vm, help, slice, args, |history|);
    match MakeSlice(vm, help, slice, args, |history|)
    case Unwound(u) => Unwound(u)
    case Done((i, j)) => Done(history[..i] + history[j..])
  }

  /** `cut` keeps the entries before and after the slice, in order, and `cut all` clears the history. */
  lemma CutKeepsTheRest(vm: nat, help: Bytes, slice: ArgSpec.ArgParser, args: seq<Word>, history: seq<Bytes>)
    ensures var r := Cut(vm, help, slice, args, history);
      r.Done? ==>
        var (i, j) := MakeSlice(vm, help, slice, args, |history|).value;
        |r.value| == |history| - (j - i) &&
        (forall k | 0 <= k < i :: r.value[k] == history[k]) &&
        (forall k | j <= k < |history| :: r.value[k - (j - i)] == history[k])
    ensures IsAll(args) ==> Cut(vm, help, slice, args, history) == Done([])
  {
    MakeSliceBounds(vm, help, slice, args, |history|);
  }

  // -------------------------------------------------------------------
  // $

  /** The names `dollar_map` holds. */
  const Commands: set<Bytes> := {
    "exit", "help", "run", "history", "search", "clear", "rewind",
    "save", "load", "replay", "cut", "see", "trace", "list"}

  /** Which command `$` runs, with which arguments, and what it prints first. */
  datatype Dispatch = Dispatch(name: Bytes, args: seq<Word>, complaint: Option<Bytes>)

  /**
   * `$`: the command its first argument names, given the rest; `help`,
   * after a complaint, when there is no argument or the name is unknown.
   */
  function Dollar(args: seq<Word>): (d: Dispatch)
    ensures d.name in Commands
    ensures d.args == if args == [] then [] else args[1..]
    ensures d.complaint.None? <==> args != [] && Ser(args[0]) in Commands
    ensures d.complaint.None? ==> d.name == Ser(args[0])
    ensures d.complaint.Some? ==> d.name == "help"
  {
    if args == [] then Dispatch("help", [], Some("No command specified"))
    else if Ser(args[0]) in Commands then Dispatch(Ser(args[0]), args[1..], None)
    else Dispatch("help", args[1..], Some("Unknown command: " + Ser(args[0])))
  }

  /** Every command can be reached by its name, and receives the words after it. */
  lemma DollarReachesEveryCommand(name: Bytes, rest: seq<Word>)
    requires name in Commands
    ensures Dollar([Sym(name)] + rest) == Dispatch(name, rest, None)
  {
    assert ([Sym(name)] + rest)[1..] == rest;
  }
}
