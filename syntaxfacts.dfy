/**
 * Properties of the parser (src/gelo/parser.go) stated over module
 * Syntax: how escapes read, that a quote keeps its text byte for byte,
 * and that the number reader is consulted only for words that may be numbers.
 */
module SyntaxFacts {
  import opened Base
  import opened Words
  import opened Syntax

  /** The index in the input of the byte under the cursor; the input's length once it has ended. */
  function Mark(st: PState): int
  {
    if st.ch == Eof then st.pos else st.pos - 1
  }

  /** The cursor holds the input byte it was read from. */
  predicate OnInput(st: PState)
  {
    1 <= st.pos <= |st.src|
    && (st.ch == Eof ==> st.pos == |st.src|)
    && (st.ch != Eof ==> st.cur == st.src[st.pos - 1])
  }

  /** The next byte is not a backslash. */
  predicate NoEscapeNext(st: PState)
  {
    st.pos < |st.src| ==> st.src[st.pos] != '\\'
  }

  /** A step fails exactly when all that is left of the input is one backslash. */
  lemma TrailingBackslash(st: PState)
    ensures Next(st).SyntaxError? <==> st.ch != Eof && st.pos + 1 == |st.src| && st.src[st.pos] == '\\'
    ensures Next(st).SyntaxError? ==> Next(st).msg == EscapeAtEnd
  {
  }

  /** In code, `\n`, `\t` and the other control letters put the control byte under the cursor, as a plain byte. */
  lemma ControlEscape(st: PState, e: byte)
    requires st.ch != Eof && st.escm == Reg && st.pos + 2 <= |st.src| && st.src[st.pos] == '\\'
    requires CtrlChar(st.src[st.pos + 1]) == Some(e)
    ensures Next(st).Parsed?
    ensures Next(st).st == Recorded(st).(pos := st.pos + 2, cur := e, ch := Plain)
  {
  }

  /** In code, any other escaped byte is taken as it is, as a plain byte (a `\$` is no sigil). */
  lemma LiteralEscape(st: PState)
    requires st.ch != Eof && st.escm == Reg && st.pos + 2 <= |st.src| && st.src[st.pos] == '\\'
    requires CtrlChar(st.src[st.pos + 1]).None? && st.src[st.pos + 1] != '*'
    ensures Next(st).Parsed?
    ensures Next(st).st == Recorded(st).(pos := st.pos + 2, cur := st.src[st.pos + 1], ch := Plain)
  {
  }

  /** In a string, `\"` is a quote that does not end it, and any other escape keeps its backslash. */
  lemma StringEscape(st: PState)
    requires st.ch != Eof && st.escm == InStr && st.pos + 2 <= |st.src| && st.src[st.pos] == '\\'
    requires st.src[st.pos + 1] != '*'
    ensures Next(st).Parsed? && Next(st).st.ch == Plain && Next(st).st.cur == st.src[st.pos + 1]
    ensures st.src[st.pos + 1] == '"' ==> Next(st).st.buf == Recorded(st).buf
    ensures st.src[st.pos + 1] != '"' ==> Next(st).st.buf == Recorded(st).buf + "\\"
  {
  }

  /** In a quote nothing is resolved: `\*` included, every escape keeps its backslash when recording. */
  lemma QuoteEscape(st: PState)
    requires st.ch != Eof && st.escm == InQuote && st.record && st.pos + 2 <= |st.src| && st.src[st.pos] == '\\'
    ensures Next(st).Parsed?
    ensures Next(st).st == st.(pos := st.pos + 2, cur := st.src[st.pos + 1], ch := Plain, buf := st.buf + [st.cur] + "\\")
  {
  }

  /**
   * `\*` outside quotes: the blanks after it are skipped and the first
   * other byte is classified as it stands.
   */
  lemma {:induction false} StarSkipsBlanks(st: PState, k: nat)
    requires st.ch != Eof && st.pos + k < |st.src|
    requires forall i :: st.pos <= i < st.pos + k ==> IsBlank(st.src[i])
    requires !IsBlank(st.src[st.pos + k])
    ensures StarSkip(st) == st.(pos := st.pos + k + 1, cur := st.src[st.pos + k], ch := Classify(st.src[st.pos + k]))
    decreases k
  {
    var st1 := Adv(st);
    if k > 0 {
      assert IsBlank(st1.cur);
      StarSkipsBlanks(st1, k - 1);
    }
  }

  /** `\*` followed by blanks only reaches the end of input. */
  lemma {:induction false} StarSkipsToEnd(st: PState)
    requires st.ch != Eof && st.pos <= |st.src|
    requires forall i :: st.pos <= i < |st.src| ==> IsBlank(st.src[i])
    ensures StarSkip(st).ch == Eof && StarSkip(st).pos == |st.src|
    decreases |st.src| - st.pos
  {
    var st1 := Adv(st);
    if st1.ch != Eof {
      StarSkipsToEnd(st1);
    }
  }

  /**
   * One step while recording, with no escape to resolve (or in a quote,
   * where escapes are kept): the byte left behind, and a backslash with
   * the byte it escapes, are exactly the input bytes passed over.
   */
  lemma NextVerbatim(st: PState)
    requires OnInput(st) && st.ch != Eof && st.record
    requires st.escm == InQuote || NoEscapeNext(st)
    requires Next(st).Parsed?
    ensures OnInput(Next(st).st) && Next(st).st.record && Next(st).st.escm == st.escm
    ensures Next(st).st.src == st.src
    ensures Mark(st) < Mark(Next(st).st) <= |st.src|
    ensures Next(st).st.buf == st.buf + st.src[Mark(st)..Mark(Next(st).st)]
  {
    var st1 := Adv(Recorded(st));
    if st1.ch != Eof && st1.cur == '\\' {
      assert st.src[st.pos] == '\\';
      assert st.src[Mark(st)..st.pos + 1] == [st.src[st.pos - 1], st.src[st.pos]];
    } else {
      assert st.src[Mark(st)..Mark(Next(st).st)] == [st.cur];
    }
  }

  /** A recorded quote's body is copied from the input byte for byte, up to the `}` that closes it. */
  lemma {:induction false} QuoteLoopVerbatim(st: PState, depth: nat)
    requires depth >= 1 && OnInput(st) && Classified(st) && st.record && st.escm == InQuote
    requires QuoteLoop(st, depth).Parsed?
    ensures OnInput(QuoteLoop(st, depth).st) && QuoteLoop(st, depth).st.src == st.src
    ensures QuoteLoop(st, depth).st.cur == '}'
    ensures Mark(st) <= Mark(QuoteLoop(st, depth).st) < |st.src|
    ensures QuoteLoop(st, depth).st.buf == st.buf + st.src[Mark(st)..Mark(QuoteLoop(st, depth).st)]
    decreases Fuel(st)
  {
    var r := QuoteLoop(st, depth);
    if st.ch == CloseQuote && depth == 1 {
      assert r.st == st.(escm := Reg);
      assert st.src[Mark(st)..Mark(st)] == [];
    } else {
      var n := Next(st);
      var st1 := n.st;
      var d := if st.ch == OpenQuote then depth + 1 else if st.ch == CloseQuote then depth - 1 else depth;
      assert r == QuoteLoop(st1, d);
      NextVerbatim(st);
      QuoteLoopVerbatim(st1, d);
      AppendSlices(st.buf, st1.buf, r.st.buf, st.src, Mark(st), Mark(st1), Mark(r.st));
    }
  }

  /** Appending two adjacent slices appends the slice they make up. */
  lemma AppendSlices(b0: Bytes, b1: Bytes, b2: Bytes, s: Bytes, i: int, j: int, k: int)
    requires 0 <= i <= j <= k <= |s|
    requires b1 == b0 + s[i..j] && b2 == b1 + s[j..k]
    ensures b2 == b0 + s[i..k]
  {
    assert s[i..k] == s[i..j] + s[j..k];
  }

  /**
   * `_rquote(true)` from the opening `{`: what it adds to the buffer is the
   * input from just after the `{` up to the matching `}`, which it stops on.
   */
  lemma RQuoteVerbatim(st: PState)
    requires OnInput(st) && st.ch == OpenQuote
    requires RQuote(st, true).Parsed?
    ensures OnInput(RQuote(st, true).st) && RQuote(st, true).st.src == st.src
    ensures st.pos <= Mark(RQuote(st, true).st) < |st.src| && st.src[Mark(RQuote(st, true).st)] == '}'
    ensures RQuote(st, true).st.buf == st.buf + st.src[st.pos..Mark(RQuote(st, true).st)]
  {
    var r := RQuote(st, true);
    var st1 := Adv(st.(escm := InQuote, record := true));
    assert Mark(st1) == st.pos;
    if st1.cur == '\\' {
      assert r == LeadingEscape(st1);
      LeadingEscapeVerbatim(st1);
    } else if st1.cur == '}' {
      assert r.st == st1;
      assert st.src[st.pos..st.pos] == [];
    } else {
      assert r == QuoteLoop(st1.(ch := Plain), 1);
      QuoteLoopVerbatim(st1.(ch := Plain), 1);
    }
  }

  /** The backslash a quote starts with is kept, with the byte it escapes. */
  lemma LeadingEscapeVerbatim(st: PState)
    requires OnInput(st) && st.ch != Eof && st.record && st.escm == InQuote && st.cur == '\\'
    requires LeadingEscape(st).Parsed?
    ensures OnInput(LeadingEscape(st).st) && LeadingEscape(st).st.src == st.src
    ensures LeadingEscape(st).st.cur == '}'
    ensures Mark(st) <= Mark(LeadingEscape(st).st) < |st.src|
    ensures LeadingEscape(st).st.buf == st.buf + st.src[Mark(st)..Mark(LeadingEscape(st).st)]
  {
    var st1 := Adv(st);
    var st2 := st1.(buf := st1.buf + "\\", ch := Plain);
    assert st1.ch != Eof && st1.buf == st.buf;
    assert st.src[Mark(st)..Mark(st2)] == [st.cur] == "\\";
    assert st2.buf == st.buf + st.src[Mark(st)..Mark(st2)];
    QuoteLoopVerbatim(st2, 1);
    var r := LeadingEscape(st);
    AppendSlices(st.buf, st2.buf, r.st.buf, st.src, Mark(st), Mark(st2), Mark(r.st));
  }

  /** A quote token's text is the input between its braces, verbatim, when nothing was left in the buffer. */
  lemma QuoteTextVerbatim(st: PState, e: int)
    requires OnInput(st) && st.ch == OpenQuote && st.buf == []
    requires ParseQuote(st).Parsed? && e == Mark(RQuote(st, true).st)
    ensures st.pos <= e < |st.src| && st.src[e] == '}'
    ensures ParseQuote(st).val == QuoteNode(Quote(st.src[st.pos..e], true))
  {
    RQuoteVerbatim(st);
  }

  /** `{}` is the empty protected quote, `Noop`. */
  lemma EmptyQuoteIsNoop(st: PState)
    requires st.ch == OpenQuote && st.buf == [] && st.pos < |st.src| && st.src[st.pos] == '}'
    requires ParseQuote(st).Parsed?
    ensures ParseQuote(st).val == QuoteNode(Noop)
  {
  }

  /**
   * `{}` returns before the escape mode is reset, so the byte after it is
   * read in quote mode: an escape there is kept, backslash and all, and
   * the mode stays so for the rest of the parse until another quote or
   * string resets it.
   */
  lemma EmptyQuoteKeepsQuoteMode(st: PState)
    requires st.ch == OpenQuote && st.pos < |st.src| && st.src[st.pos] == '}'
    ensures RQuote(st, true).Parsed? && RQuote(st, true).st.escm == InQuote
  {
  }

  /** A word whose first byte cannot start a number is an interned symbol, whatever the number reader says. */
  lemma SymbolUnlessNumeric(st: PState, num: NumReader, other: NumReader)
    requires !MayBeNumber(st.cur)
    ensures PlainWord(st, num) == PlainWord(st, other)
    ensures PlainWord(st, num).Parsed? ==> PlainWord(st, num).val.w.Symbol? && PlainWord(st, num).val.w.interned
  {
  }

  /** A word that reads as a number keeps its own text as its serialisation. */
  lemma NumberKeepsText(st: PState, num: NumReader)
    requires PlainWord(st, num).Parsed? && PlainWord(st, num).val.w.Number?
    ensures MayBeNumber(st.cur)
    ensures Ser(PlainWord(st, num).val.w) == WordLoop(st.(record := true)).st.buf
    ensures num(WordLoop(st.(record := true)).st.buf) == Some(PlainWord(st, num).val.w.num)
  {
  }

  /** No backslash is left in the input. */
  predicate NoBackslashAhead(st: PState)
  {
    forall i :: st.pos <= i < |st.src| ==> st.src[i] != '\\'
  }

  /**
   * Recording a word with no backslash ahead: the buffer gains the input
   * from the word's first byte up to the first byte that ends a word (or
   * the end of input), and none of the bytes gained ends a word.
   */
  lemma {:induction false} WordLoopVerbatim(st: PState)
    requires OnInput(st) && st.record && NoBackslashAhead(st)
    requires st.ch == Eof || st.ch == Classify(st.cur)
    ensures WordLoop(st).Parsed? && OnInput(WordLoop(st).st) && WordLoop(st).st.src == st.src
    ensures Mark(st) <= Mark(WordLoop(st).st) <= |st.src|
    ensures WordLoop(st).st.buf == st.buf + st.src[Mark(st)..Mark(WordLoop(st).st)]
    decreases Fuel(st)
  {
    var r := WordLoop(st);
    if EndsWord(st.ch) {
      assert r.st == st;
      assert st.src[Mark(st)..Mark(st)] == [];
    } else {
      var st1 := Next(st).st;
      PlainStep(st);
      assert r == WordLoop(st1);
      WordLoopVerbatim(st1);
      AppendSlices(st.buf, st1.buf, r.st.buf, st.src, Mark(st), Mark(st1), Mark(r.st));
    }
  }

  /** With no backslash ahead, a word runs over bytes that do not end it and stops on one that does. */
  lemma {:induction false} WordLoopStops(st: PState)
    requires OnInput(st) && st.record && NoBackslashAhead(st)
    requires st.ch == Eof || st.ch == Classify(st.cur)
    requires WordLoop(st).Parsed? && WordLoop(st).st.src == st.src && OnInput(WordLoop(st).st)
    requires Mark(st) <= Mark(WordLoop(st).st)
    ensures forall i :: Mark(st) <= i < Mark(WordLoop(st).st) ==> !EndsWord(Classify(st.src[i]))
    ensures WordLoop(st).st.ch == Eof || EndsWord(Classify(st.src[Mark(WordLoop(st).st)]))
    decreases Fuel(st)
  {
    var r := WordLoop(st);
    if !EndsWord(st.ch) {
      var st1 := Next(st).st;
      PlainStep(st);
      assert r == WordLoop(st1);
      WordLoopVerbatim(st1);
      WordLoopStops(st1);
      forall i | Mark(st) <= i < Mark(r.st)
        ensures !EndsWord(Classify(st.src[i]))
      {
        if i == Mark(st) {
          assert st.src[i] == st.cur;
        }
      }
    }
  }

  /** One recorded step with no backslash ahead moves by exactly one byte and classifies it. */
  lemma PlainStep(st: PState)
    requires OnInput(st) && st.record && NoBackslashAhead(st) && st.ch != Eof
    ensures Next(st).Parsed? && OnInput(Next(st).st) && Next(st).st.src == st.src
    ensures Next(st).st.record && NoBackslashAhead(Next(st).st)
    ensures Next(st).st.ch == Eof || Next(st).st.ch == Classify(Next(st).st.cur)
    ensures Mark(Next(st).st) == Mark(st) + 1
    ensures Next(st).st.buf == st.buf + st.src[Mark(st)..Mark(Next(st).st)]
  {
    NextVerbatim(st);
  }

  /**
   * A bare word with no backslash ahead is the longest run of input bytes
   * from its first byte that do not end a word, and it serialises as that text.
   */
  lemma WordVerbatim(st: PState, num: NumReader, e: int)
    requires OnInput(st) && st.buf == [] && NoBackslashAhead(st)
    requires st.ch == Classify(st.cur) && !EndsWord(st.ch)
    requires WordLoop(st.(record := true)).Parsed? && e == Mark(WordLoop(st.(record := true)).st)
    ensures PlainWord(st, num).Parsed?
    ensures Mark(st) < e <= |st.src|
    ensures Ser(PlainWord(st, num).val.w) == st.src[Mark(st)..e]
    ensures forall i :: Mark(st) <= i < e ==> !EndsWord(Classify(st.src[i]))
    ensures e == |st.src| || EndsWord(Classify(st.src[e]))
  {
    var st0 := st.(record := true);
    WordLoopVerbatim(st0);
    WordLoopStops(st0);
    var st1 := WordLoop(st0).st;
    assert st1.buf == st.src[Mark(st)..e];
    assert PlainWord(st, num).val.w == WordLiteral(st1.buf, MayBeNumber(st.cur), num);
  }

  /**
   * The first byte of a quote is never counted as opening a nested quote:
   * after a leading `{` the depth is still one, so `{{a}}` closes at the
   * first `}` ...
   */
  lemma LeadingBraceNotCounted(st: PState, rec: bool)
    requires st.ch != Eof && st.pos < |st.src| && st.src[st.pos] == '{'
    ensures RQuote(st, rec) == QuoteLoop(st.(escm := InQuote, record := rec, pos := st.pos + 1, cur := '{', ch := Plain), 1)
  {
    var st1 := Adv(st.(escm := InQuote, record := rec));
    assert st1 == st.(escm := InQuote, record := rec, pos := st.pos + 1, cur := '{');
  }

  /** ... while a `{` later in a quote does open one. */
  lemma InnerBraceCounted(st: PState, depth: nat)
    requires depth >= 1 && st.ch == OpenQuote && Next(st).Parsed?
    ensures QuoteLoop(st, depth) == QuoteLoop(Next(st).st, depth + 1)
  {
  }

  /** Stepping over a quote without recording leaves the buffer alone. */
  lemma {:induction false} QuoteLoopUnrecorded(st: PState, depth: nat)
    requires depth >= 1 && !st.record && st.escm == InQuote
    requires QuoteLoop(st, depth).Parsed?
    ensures QuoteLoop(st, depth).st.buf == st.buf && !QuoteLoop(st, depth).st.record
    decreases Fuel(st)
  {
    if !(st.ch == CloseQuote && depth == 1) {
      var st1 := Next(st).st;
      var d := if st.ch == OpenQuote then depth + 1 else if st.ch == CloseQuote then depth - 1 else depth;
      assert QuoteLoop(st, depth) == QuoteLoop(st1, d);
      QuoteLoopUnrecorded(st1, d);
    }
  }

  /**
   * A quote in a comment is stepped over without recording, yet a
   * backslash as its first byte is written to the buffer, where it stays
   * and becomes the first byte of the next word read out.
   */
  lemma CommentQuoteLeavesBackslash(st: PState)
    requires st.ch != Eof && st.pos + 1 < |st.src| && st.src[st.pos] == '\\'
    requires RQuote(st, false).Parsed?
    ensures RQuote(st, false).st.buf == st.buf + "\\"
  {
    var st1 := Adv(st.(escm := InQuote, record := false));
    var st2 := Adv(st1);
    QuoteLoopUnrecorded(st2.(buf := st2.buf + "\\", ch := Plain), 1);
  }

  /**
   * After `""` the byte that follows is still read in string mode: an
   * escape there writes its backslash to the buffer although nothing is
   * being recorded.
   */
  lemma EmptyStringLeavesBackslash(st: PState)
    requires st.ch == StrQuote && !st.record && st.pos + 3 < |st.src|
    requires st.src[st.pos] == '"' && st.src[st.pos + 1] == '\\' && st.src[st.pos + 2] == 'x'
    ensures ParseString(st).Parsed?
    ensures ParseString(st).val == Literal(Null)
    ensures ParseString(st).st.buf == st.buf + "\\" && ParseString(st).st.escm == Reg
  {
    var st1 := st.(escm := InStr, pos := st.pos + 1, cur := '"', ch := StrQuote);
    assert Next(st.(escm := InStr)) == Parsed(st1, ());
    var st2 := st1.(pos := st.pos + 3, cur := 'x', ch := Plain, buf := st.buf + "\\");
    assert EscapeStep(st1.(pos := st.pos + 2, cur := '\\')) == Parsed(st2, ());
    assert Next(st1) == Parsed(st2, ());
  }

  // -------------------------------------------------------------------
  // Syntax errors, and the order of the commands

  /** The state after the first `k` bytes of `src` were read, with nothing recorded and no escape met. */
  function Cursor(src: Bytes, k: nat): (st: PState)
    requires 0 < k <= |src|
    ensures st.src == src && st.pos == k && st.cur == src[k - 1] && st.ch == Classify(src[k - 1])
  {
    PState(src, k, src[k - 1], Classify(src[k - 1]), false, Reg, [])
  }

  /** Reading the first byte of the input, when it is not a backslash. */
  lemma FirstStep(src: Bytes)
    requires src != [] && src[0] != '\\'
    ensures Next(Start(src)) == Parsed(Cursor(src, 1), ())
  {
  }

  /** Reading one more byte, when it is not a backslash. */
  lemma CursorStep(src: Bytes, k: nat)
    requires 0 < k < |src| && src[k] != '\\'
    ensures Next(Cursor(src, k)) == Parsed(Cursor(src, k + 1), ())
  {
  }

  /** Reading past the last byte ends the input. */
  lemma CursorEnd(src: Bytes)
    requires src != []
    ensures Next(Cursor(src, |src|)) == Parsed(Cursor(src, |src|).(ch := Eof), ())
  {
  }

  /** The state once `k` bytes were read: the cursor on byte `k`, or the end of input once every byte was. */
  function After(src: Bytes, k: nat): (st: PState)
    requires src != [] && 0 < k <= |src| + 1
    ensures st.ch == if k <= |src| then Classify(src[k - 1]) else Eof
  {
    if k <= |src| then Cursor(src, k) else Cursor(src, |src|).(ch := Eof)
  }

  /** Reading one more byte, or past the last one, when the byte is not a backslash. */
  lemma AfterStep(src: Bytes, k: nat)
    requires 0 < k <= |src| && (k < |src| ==> src[k] != '\\')
    ensures Next(After(src, k)) == Parsed(After(src, k + 1), ())
  {
    if k < |src| {
      CursorStep(src, k);
    } else {
      CursorEnd(src);
    }
  }

  /** Blanks from byte `m` up to the line end at `k` (or the end of input) are skipped to it. */
  lemma {:induction false} BlanksSkipped(src: Bytes, m: nat, k: nat)
    requires 2 <= m <= k + 1 && k <= |src|
    requires forall j :: m - 1 <= j < k ==> Classify(src[j]) == Space
    requires k < |src| ==> Classify(src[k]) == Eol
    ensures SkipSpaces(After(src, m)) == Parsed(After(src, k + 1), ())
    decreases k + 1 - m
  {
    if m <= k {
      assert Classify(src[m - 1]) == Space;
      AfterStep(src, m);
      BlanksSkipped(src, m + 1, k);
    }
  }

  /** A string with no `"` and no backslash to the end of input runs out: it is not terminated. */
  lemma {:induction false} StringRunsOut(st: PState)
    requires st.ch != StrQuote && st.escm == InStr
    requires forall j :: st.pos <= j < |st.src| ==> st.src[j] != '"' && st.src[j] != '\\'
    ensures StringLoop(st) == SyntaxError(StringUnclosed)
    decreases Fuel(st)
  {
    if st.ch != Eof {
      assert Next(st).Parsed?;
      StringRunsOut(Next(st).st);
    }
  }

  /** A quote with no brace and no backslash to the end of input runs out: it is not terminated. */
  lemma {:induction false} QuoteRunsOut(st: PState, depth: nat)
    requires depth >= 1 && st.ch != OpenQuote && st.ch != CloseQuote
    requires forall j :: st.pos <= j < |st.src| ==> st.src[j] != '{' && st.src[j] != '}' && st.src[j] != '\\'
    ensures QuoteLoop(st, depth) == SyntaxError(QuoteUnclosed)
    decreases Fuel(st)
  {
    if st.ch != Eof {
      assert Next(st).Parsed?;
      QuoteRunsOut(Next(st).st, depth);
    }
  }

  /** A script whose first token fails to parse fails as a whole, with that token's error. */
  lemma FirstTokenFails(src: Bytes, num: NumReader, msg: Bytes)
    requires src != [] && src[0] != '\\'
    requires var c := Cursor(src, 1); c.ch != Space && c.ch != Eol && c.ch != CommentMark && c.ch != CloseQuote && c.ch != CloseClause
    requires Token(Cursor(src, 1), num) == SyntaxError(msg)
    ensures Parse(src, num) == SyntaxError(msg)
  {
    FirstStep(src);
    var c := Cursor(src, 1);
    assert SkipSpaces(c) == Parsed(c, ());
    assert LineLoop(c, false, [], num) == SyntaxError(msg);
    assert ParseLine(c, false, num) == SyntaxError(msg);
  }

  /** `[]` is refused: a clause must hold a command. */
  lemma EmptyClauseRejected(src: Bytes, num: NumReader)
    requires |src| >= 2 && src[0] == '[' && src[1] == ']'
    ensures Parse(src, num) == SyntaxError(EmptyClause)
  {
    CursorStep(src, 1);
    var c2 := Cursor(src, 2);
    assert SkipSpaces(c2) == Parsed(c2, ());
    assert ParseLine(c2, true, num) == SyntaxError(EmptyClause);
    FirstTokenFails(src, num, EmptyClause);
  }

  /**
   * A `[` followed only by blanks up to the line end at `k`, or up to the
   * end of input, is refused: a clause cannot span a line end.
   */
  lemma UnclosedClauseRejected(src: Bytes, k: nat, num: NumReader)
    requires 1 <= k <= |src| && src[0] == '['
    requires forall j :: 1 <= j < k ==> Classify(src[j]) == Space
    requires k < |src| ==> Classify(src[k]) == Eol
    ensures Parse(src, num) == SyntaxError(ClauseUnclosed)
  {
    AfterStep(src, 1);
    BlanksSkipped(src, 2, k);
    assert ParseLine(After(src, 2), true, num) == SyntaxError(ClauseUnclosed);
    FirstTokenFails(src, num, ClauseUnclosed);
  }

  /** A `]` outside a clause is refused. */
  lemma StrayCloseClauseRejected(src: Bytes, num: NumReader)
    requires src != [] && src[0] == ']'
    ensures Parse(src, num) == SyntaxError(ClauseUnopened)
  {
    FirstStep(src);
    var c := Cursor(src, 1);
    assert SkipSpaces(c) == Parsed(c, ());
    assert LineEnd(c, false, []) == SyntaxError(ClauseUnopened);
    assert LineLoop(c, false, [], num) == SyntaxError(ClauseUnopened);
    assert ParseLine(c, false, num) == SyntaxError(ClauseUnopened);
  }

  /** A `}` with no `{` before it is refused. */
  lemma StrayCloseQuoteRejected(src: Bytes, num: NumReader)
    requires src != [] && src[0] == '}'
    ensures Parse(src, num) == SyntaxError(QuoteUnopened)
  {
    FirstStep(src);
    var c := Cursor(src, 1);
    assert SkipSpaces(c) == Parsed(c, ());
    assert LineLoop(c, false, [], num) == SyntaxError(QuoteUnopened);
    assert ParseLine(c, false, num) == SyntaxError(QuoteUnopened);
  }

  /** A `"` followed by no other `"` and no backslash is refused: the string is not terminated. */
  lemma UnterminatedStringRejected(src: Bytes, num: NumReader)
    requires src != [] && src[0] == '"'
    requires forall j :: 1 <= j < |src| ==> src[j] != '"' && src[j] != '\\'
    ensures Parse(src, num) == SyntaxError(StringUnclosed)
  {
    var c := Cursor(src, 1);
    var st1 := Next(c.(escm := InStr)).st;
    assert Next(c.(escm := InStr)) == Parsed(st1, ()) && st1.ch != StrQuote && st1.escm == InStr && st1.pos >= 1;
    StringRunsOut(st1.(record := true));
    assert ParseString(c) == SyntaxError(StringUnclosed);
    FirstTokenFails(src, num, StringUnclosed);
  }

  /** A `{` followed by no other brace and no backslash is refused: the quote is not terminated. */
  lemma UnterminatedQuoteRejected(src: Bytes, num: NumReader)
    requires src != [] && src[0] == '{'
    requires forall j :: 1 <= j < |src| ==> src[j] != '{' && src[j] != '}' && src[j] != '\\'
    ensures Parse(src, num) == SyntaxError(QuoteUnclosed)
  {
    var c := Cursor(src, 1);
    var st1 := Adv(c.(escm := InQuote, record := true));
    if st1.ch != Eof {
      QuoteRunsOut(st1.(ch := Plain), 1);
    }
    assert RQuote(c, true) == SyntaxError(QuoteUnclosed);
    assert ParseQuote(c) == SyntaxError(QuoteUnclosed);
    FirstTokenFails(src, num, QuoteUnclosed);
  }

  /** A `$` or `@` followed by a space is refused: the sigil applies to nothing. */
  lemma LoneSigilRejected(src: Bytes, num: NumReader)
    requires |src| >= 2 && (src[0] == '$' || src[0] == '@') && src[1] == ' '
    ensures Parse(src, num) == SyntaxError(SigilAlone)
  {
    CursorStep(src, 1);
    assert ParseOperand(Cursor(src, 2), num) == SyntaxError(SigilAlone);
    assert ParseWord(Cursor(src, 1), num) == SyntaxError(SigilAlone);
    FirstTokenFails(src, num, SigilAlone);
  }

  /** The loop of `parse` only appends: the commands read so far stay first, in the order they were read. */
  lemma {:induction false} TopLoopKeepsOrder(st: PState, acc: seq<Line>, num: NumReader)
    requires forall i :: 0 <= i < |acc| ==> acc[i] != [] && AllWellFormed(acc[i])
    ensures TopLoop(st, acc, num).Parsed? ==> acc <= TopLoop(st, acc, num).val
    decreases Fuel(st)
  {
    if st.ch != Eof {
      match ParseLine(st, false, num)
      case SyntaxError(_) =>
      case Parsed(st1, line) =>
        var acc' := if line == [] then acc else acc + [line];
        TopLoopKeepsOrder(st1, acc', num);
    }
  }
}
