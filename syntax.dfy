/**
 * The reading of source text into commands (src/gelo/parser.go), as
 * functions over the parser's state.  Module Parser runs the same
 * algorithm imperatively and is proved to compute what these functions do.
 *
 * The state is the parser's fields: the input (`src`, read from `pos`), the
 * byte under the cursor (`cur`), its lexical class (`ch`), whether bytes are
 * being recorded, the escape mode and the recording buffer.  Each byte is
 * written to the buffer when the cursor moves past it, so a read-out holds
 * every recorded byte before the current one.
 *
 * A syntax error, which the Go code raises as a panic that unwinds the
 * whole parse, is the `SyntaxError` outcome.  The number reader
 * (`NewNumberFromGo`) is the parameter `num`.
 */
module Syntax {
  import opened Base
  import opened Words

  datatype Lexeme =
    | Eol | Eof | Space | IndirectSigil | SpliceSigil | StrQuote
    | OpenClause | CloseClause | OpenQuote | CloseQuote | CommentMark | Plain

  /** How a backslash escape is treated: in plain code, in a string, in a quote. */
  datatype EscMode = Reg | InStr | InQuote

  /** A parsed token: a literal, a sigil (`@` or `$`) applied to its operand, a quote, or a `[...]` clause. */
  datatype Node =
    | Literal(w: Word)
    | Splice(operand: Node)
    | Indirect(operand: Node)
    | QuoteNode(q: Word)
    | Clause(tokens: seq<Node>)

  /** A command: the tokens of one line. */
  type Line = seq<Node>

  /**
   * The parser's state.  Its two byte strings are a type parameter, so that
   * the solver is not handed an ordering fact for each of their bytes.
   */
  datatype PStateOf<B> = PState(src: B, pos: nat, cur: byte, ch: Lexeme, record: bool, escm: EscMode, buf: B)

  type PState = PStateOf<Bytes>

  /** A parse result: the state after it and the value, or the message of a syntax error. */
  datatype ParsedOf<T, M> = Parsed(st: PState, val: T) | SyntaxError(msg: M)

  type Parsed<T> = ParsedOf<T, Bytes>

  /** The number reader: the value of a numeric literal, or None. */
  type NumReader = Bytes -> Option<Float>

  // The messages of the syntax errors.
  const EscapeAtEnd: Bytes := "Cannot escape the end of file"
  const QuoteUnclosed: Bytes := "{ without }"
  const StringUnclosed: Bytes := "\" without \""
  const SigilAlone: Bytes := "Sigil precedes nothing"
  const QuoteUnopened: Bytes := "} before {"
  const ClauseUnclosed: Bytes := "[ without ]"
  const ClauseUnopened: Bytes := "] before ["
  const EmptyClause: Bytes := "[] invalid. Use {} for no-op"

  /** Twice the bytes left to read, plus one until the end of input is seen. */
  function Fuel(st: PState): nat
  {
    2 * (if st.pos <= |st.src| then |st.src| - st.pos else 0) + (if st.ch == Eof then 0 else 1)
  }

  /** The state `parse` starts from: nothing read yet, `ch` at Go's zero value. */
  function Start(src: Bytes): (st: PState)
    ensures Fuel(st) == 2 * |src| + 1
  {
    PState(src, 0, 0 as char, Eol, false, Reg, [])
  }

  /** `_ctrlchars`: the letters that name a control character after a backslash. */
  function CtrlChar(c: byte): Option<byte>
  {
    if c == 'n' then Some('\n')
    else if c == 'r' then Some('\r')
    else if c == 'f' then Some(FormFeed)
    else if c == 't' then Some('\t')
    else if c == 'a' then Some(Bell)
    else if c == 'b' then Some(Backspace)
    else if c == 'v' then Some(VerticalTab)
    else None
  }

  /** The lexical class of an unescaped byte. */
  function Classify(c: byte): (l: Lexeme)
    ensures l != Eof
  {
    if c == '\n' || c == ';' then Eol
    else if c == ' ' || c == '\t' || c == FormFeed then Space
    else if c == '#' then CommentMark
    else if c == '$' then IndirectSigil
    else if c == '@' then SpliceSigil
    else if c == '"' then StrQuote
    else if c == '[' then OpenClause
    else if c == ']' then CloseClause
    else if c == '{' then OpenQuote
    else if c == '}' then CloseQuote
    else Plain
  }

  /** `ch` is the class of the byte under the cursor, unless that byte was escaped or the input has ended. */
  predicate Classified(st: PState)
  {
    st.ch == Eof || st.ch == Plain || st.ch == Classify(st.cur)
  }

  /** The classes that end a bare word. */
  predicate EndsWord(l: Lexeme)
  {
    l == Eol || l == Eof || l == Space || l == OpenQuote || l == CloseQuote
    || l == OpenClause || l == CloseClause || l == StrQuote
  }

  /** `_adv`: reads the next byte into `cur`, or marks the end of input; does nothing after it. */
  function Adv(st: PState): (r: PState)
    ensures st.ch == Eof ==> r == st
    ensures st.ch != Eof ==> Fuel(r) < Fuel(st)
    ensures r.ch != Eof ==> r.ch == st.ch && r.pos == st.pos + 1 && st.pos < |st.src| && r.cur == st.src[st.pos]
  {
    if st.ch == Eof then st
    else if st.pos < |st.src| then st.(pos := st.pos + 1, cur := st.src[st.pos])
    else st.(ch := Eof)
  }

  /** The recording of the current byte `_next` does before it moves on. */
  function Recorded(st: PState): (r: PState)
    ensures Fuel(r) == Fuel(st)
  {
    if st.ch != Eof && st.record then st.(buf := st.buf + [st.cur]) else st
  }

  /** `_next`: records the current byte, moves to the next one and classifies it, resolving escapes. */
  function Next(st: PState): (r: Parsed<()>)
    ensures r.Parsed? ==> Fuel(r.st) <= Fuel(st) && Classified(r.st)
    ensures r.Parsed? && st.ch != Eof ==> Fuel(r.st) < Fuel(st)
  {
    var st1 := Adv(Recorded(st));
    if st1.ch == Eof then Parsed(st1, ())
    else if st1.cur == '\\' then EscapeStep(st1)
    else Parsed(st1.(ch := Classify(st1.cur)), ())
  }

  /** The escape branch of `_next`, with the cursor on the backslash. */
  function EscapeStep(st: PState): (r: Parsed<()>)
    requires st.ch != Eof
    ensures r.Parsed? ==> Fuel(r.st) < Fuel(st) && Classified(r.st)
  {
    var st1 := Adv(st);
    if st1.ch == Eof then SyntaxError(EscapeAtEnd)
    else if st1.escm != InQuote && st1.cur == '*' then Parsed(StarSkip(st1), ())
    else Parsed(Escaped(st1).(ch := Plain), ())
  }

  /** The escaped byte is kept: a control letter becomes its control byte in code, a string keeps the backslash unless a `"` follows, a recorded quote keeps every backslash. */
  function Escaped(st: PState): (r: PState)
    ensures Fuel(r) == Fuel(st) && r.ch == st.ch
  {
    match st.escm
    case Reg => if CtrlChar(st.cur).Some? then st.(cur := CtrlChar(st.cur).value) else st
    case InStr => if st.cur != '"' then st.(buf := st.buf + "\\") else st
    case InQuote => if st.record then st.(buf := st.buf + "\\") else st
  }

  /** `\*`: skips blanks, then classifies the first other byte as it stands. */
  function StarSkip(st: PState): (r: PState)
    requires st.ch != Eof
    ensures Fuel(r) < Fuel(st) && (r.ch == Eof || r.ch == Classify(r.cur))
    decreases Fuel(st)
  {
    var st1 := Adv(st);
    if st1.ch == Eof then st1
    else if IsBlank(st1.cur) then StarSkip(st1)
    else st1.(ch := Classify(st1.cur))
  }

  /** A first byte that makes a word worth trying as a number. */
  predicate MayBeNumber(c: byte)
  {
    IsDigit(c) || c == '-' || c == '+' || c == '.'
  }

  /** The literal a bare word reads as: a number keeping its text as serialisation, else an interned symbol. */
  function WordLiteral(r: Bytes, tryNum: bool, num: NumReader): (w: Word)
    ensures w.Number? <==> tryNum && num(r).Some?
    ensures w.Number? ==> w == Number(num(r).value, r)
    ensures !w.Number? ==> w == Intern(r)
    ensures Ser(w) == r
  {
    if tryNum && num(r).Some? then Number(num(r).value, r) else Intern(r)
  }

  /** The loop of `_parse_word`: moves until a byte that ends a word. */
  function WordLoop(st: PState): (r: Parsed<()>)
    ensures r.Parsed? ==> Fuel(r.st) <= Fuel(st) && EndsWord(r.st.ch)
    ensures r.Parsed? && !EndsWord(st.ch) ==> Fuel(r.st) < Fuel(st)
    decreases Fuel(st)
  {
    if EndsWord(st.ch) then Parsed(st, ())
    else match Next(st)
      case SyntaxError(m) => SyntaxError(m)
      case Parsed(st1, _) => WordLoop(st1)
  }

  /** A bare word: recorded up to the first byte that ends it, then read out. */
  function PlainWord(st: PState, num: NumReader): (r: Parsed<Node>)
    ensures r.Parsed? ==> Fuel(r.st) <= Fuel(st) && WellFormed(r.val) && r.val.Literal?
    ensures r.Parsed? && !EndsWord(st.ch) ==> Fuel(r.st) < Fuel(st)
  {
    match WordLoop(st.(record := true))
    case SyntaxError(m) => SyntaxError(m)
    case Parsed(st1, _) => Parsed(st1.(record := false, buf := []), Literal(WordLiteral(st1.buf, MayBeNumber(st.cur), num)))
  }

  /**
   * `_rquote`: moves to the `}` that closes the quote just opened, recording
   * what is between when `record` holds.  The first byte is handled apart:
   * a leading backslash writes one to the buffer whether or not recording,
   * and a leading `{` is not counted as opening a nested quote.  A leading
   * `}` returns at once, without resetting the escape mode or `ch`.
   */
  function RQuote(st: PState, record: bool): (r: Parsed<()>)
    ensures r.Parsed? ==> Fuel(r.st) <= Fuel(st) && r.st.ch != Eof
  {
    var st1 := Adv(st.(escm := InQuote, record := record));
    if st1.ch == Eof then SyntaxError(QuoteUnclosed)
    else if st1.cur == '\\' then LeadingEscape(st1)
    else if st1.cur == '}' then Parsed(st1, ())
    else QuoteLoop(st1.(ch := Plain), 1)
  }

  /** A quote whose first byte is a backslash: the backslash is written and the byte after it starts the body. */
  function LeadingEscape(st: PState): (r: Parsed<()>)
    ensures r.Parsed? ==> Fuel(r.st) <= Fuel(st) && r.st.ch == CloseQuote
  {
    var st1 := Adv(st);
    if st1.ch == Eof then SyntaxError(EscapeAtEnd)
    else QuoteLoop(st1.(buf := st1.buf + "\\", ch := Plain), 1)
  }

  /** The loop of `_rquote`, `depth` quotes deep. */
  function QuoteLoop(st: PState, depth: nat): (r: Parsed<()>)
    requires depth >= 1
    ensures r.Parsed? ==> Fuel(r.st) <= Fuel(st) && r.st.ch == CloseQuote && r.st.escm == Reg
    decreases Fuel(st)
  {
    if st.ch == CloseQuote && depth == 1 then Parsed(st.(escm := Reg), ())
    else if st.ch == Eof then SyntaxError(QuoteUnclosed)
    else match Next(st)
      case SyntaxError(m) => SyntaxError(m)
      case Parsed(st1, _) =>
        QuoteLoop(st1, if st.ch == OpenQuote then depth + 1 else if st.ch == CloseQuote then depth - 1 else depth)
  }

  /** `_parse_quote`: the recorded text becomes a protected quote (`{}` gives the empty one, `Noop`). */
  function ParseQuote(st: PState): (r: Parsed<Node>)
    ensures r.Parsed? ==> Fuel(r.st) < Fuel(st) && WellFormed(r.val) && r.val.QuoteNode?
  {
    match RQuote(st, true)
    case SyntaxError(m) => SyntaxError(m)
    case Parsed(st1, _) =>
      match Next(st1.(record := false, buf := []))
      case SyntaxError(m) => SyntaxError(m)
      case Parsed(st2, _) => Parsed(st2, QuoteNode(Quote(st1.buf, true)))
  }

  /** The loop of `_parse_string`: moves to the closing `"`. */
  function StringLoop(st: PState): (r: Parsed<()>)
    ensures r.Parsed? ==> Fuel(r.st) <= Fuel(st) && r.st.ch == StrQuote
    decreases Fuel(st)
  {
    if st.ch == StrQuote then Parsed(st, ())
    else if st.ch == Eof then SyntaxError(StringUnclosed)
    else match Next(st)
      case SyntaxError(m) => SyntaxError(m)
      case Parsed(st1, _) => StringLoop(st1)
  }

  /**
   * `_parse_string`: the bytes between the quotes as an interned symbol.
   * For `""` the byte after the closing quote is still read in string
   * mode; the mode is reset after it.
   */
  function ParseString(st: PState): (r: Parsed<Node>)
    ensures r.Parsed? ==> Fuel(r.st) <= Fuel(st) && WellFormed(r.val) && r.val.Literal?
    ensures r.Parsed? && st.ch != Eof ==> Fuel(r.st) < Fuel(st)
  {
    match Next(st.(escm := InStr))
    case SyntaxError(m) => SyntaxError(m)
    case Parsed(st1, _) =>
      if st1.ch == StrQuote then
        match Next(st1)
        case SyntaxError(m) => SyntaxError(m)
        case Parsed(st2, _) => Parsed(st2.(escm := Reg), Literal(Null))
      else StringBody(st1)
  }

  /** A string with something between its quotes, from its first byte. */
  function StringBody(st: PState): (r: Parsed<Node>)
    ensures r.Parsed? ==> Fuel(r.st) <= Fuel(st) && WellFormed(r.val) && r.val.Literal?
  {
    match StringLoop(st.(record := true))
    case SyntaxError(m) => SyntaxError(m)
    case Parsed(st1, _) =>
      match Next(st1.(record := false, buf := [], escm := Reg))
      case SyntaxError(m) => SyntaxError(m)
      case Parsed(st2, _) => Parsed(st2, Literal(Intern(st1.buf)))
  }

  /** Skips spaces (not line ends). */
  function SkipSpaces(st: PState): (r: Parsed<()>)
    ensures st.ch != Space ==> r == Parsed(st, ())
    ensures r.Parsed? ==> Fuel(r.st) <= Fuel(st) && r.st.ch != Space
    ensures r.Parsed? && st.ch == Space ==> Fuel(r.st) < Fuel(st)
    decreases Fuel(st)
  {
    if st.ch != Space then Parsed(st, ())
    else match Next(st)
      case SyntaxError(m) => SyntaxError(m)
      case Parsed(st1, _) => SkipSpaces(st1)
  }

  /**
   * A comment line: moves to its end, stepping over quotes whole so that
   * their braces balance; `true` when the input ends first.
   */
  function CommentLoop(st: PState): (r: Parsed<bool>)
    ensures r.Parsed? ==> Fuel(r.st) <= Fuel(st) && (r.val <==> r.st.ch == Eof) && (r.st.ch == Eol || r.st.ch == Eof)
    ensures r.Parsed? && st.ch != Eol && st.ch != Eof ==> Fuel(r.st) < Fuel(st)
    decreases Fuel(st)
  {
    if st.ch == Eol then Parsed(st, false)
    else if st.ch == Eof then Parsed(st, true)
    else
      var moved := if st.ch == OpenQuote then RQuote(st, false) else Parsed(st, ());
      match moved
      case SyntaxError(m) => SyntaxError(m)
      case Parsed(st1, _) =>
        match Next(st1)
        case SyntaxError(m) => SyntaxError(m)
        case Parsed(st2, _) => CommentLoop(st2)
  }

  /** A token a parser produces: a sigil applies to something else than a sigil, and a clause is never empty. */
  predicate WellFormed(n: Node)
    decreases n
  {
    match n
    case Literal(w) => w.Symbol? || w.Number?
    case Splice(o) => !o.Splice? && !o.Indirect? && WellFormed(o)
    case Indirect(o) => !o.Splice? && !o.Indirect? && WellFormed(o)
    case QuoteNode(q) => q.Quote? && q.protected
    case Clause(ts) => ts != [] && forall i :: 0 <= i < |ts| ==> WellFormed(ts[i])
  }

  predicate AllWellFormed(ns: seq<Node>)
  {
    forall i :: 0 <= i < |ns| ==> WellFormed(ns[i])
  }

  lemma AllWellFormedSnoc(ns: seq<Node>, n: Node)
    requires AllWellFormed(ns) && WellFormed(n)
    ensures AllWellFormed(ns + [n])
  {
  }

  /**
   * What follows a sigil (or a word without one): `[...]`, a quote, a
   * string or a bare word; the end of a line or a space is an error.
   */
  function ParseOperand(st: PState, num: NumReader): (r: Parsed<Node>)
    ensures r.Parsed? ==> Fuel(r.st) <= Fuel(st) && WellFormed(r.val) && !r.val.Splice? && !r.val.Indirect?
    ensures r.Parsed? && st.ch != CloseQuote && st.ch != CloseClause ==> Fuel(r.st) < Fuel(st)
    decreases Fuel(st), 0
  {
    if st.ch == Eol || st.ch == Eof || st.ch == Space then SyntaxError(SigilAlone)
    else if st.ch == OpenClause then
      match Next(st)
      case SyntaxError(m) => SyntaxError(m)
      case Parsed(st1, _) =>
        match ParseLine(st1, true, num)
        case SyntaxError(m) => SyntaxError(m)
        case Parsed(st2, ts) => Parsed(st2, Clause(ts))
    else if st.ch == OpenQuote then ParseQuote(st)
    else if st.ch == StrQuote then ParseString(st)
    else PlainWord(st, num)
  }

  /** `_parse_word`: an optional `@` or `$` sigil and its operand. */
  function ParseWord(st: PState, num: NumReader): (r: Parsed<Node>)
    ensures r.Parsed? ==> Fuel(r.st) <= Fuel(st) && WellFormed(r.val)
    ensures r.Parsed? && st.ch != CloseQuote && st.ch != CloseClause ==> Fuel(r.st) < Fuel(st)
    decreases Fuel(st), 1
  {
    if st.ch == SpliceSigil || st.ch == IndirectSigil then
      match Next(st)
      case SyntaxError(m) => SyntaxError(m)
      case Parsed(st1, _) =>
        match ParseOperand(st1, num)
        case SyntaxError(m) => SyntaxError(m)
        case Parsed(st2, n) => Parsed(st2, if st.ch == SpliceSigil then Splice(n) else Indirect(n))
    else ParseOperand(st, num)
  }

  /**
   * The token loop of `_parse_line`, with the tokens read so far in `acc`:
   * a line ends at a line end (an error inside a clause), a clause at its
   * `]` (an error outside one), and a `}` is always an error here.
   */
  function LineLoop(st: PState, clause: bool, acc: seq<Node>, num: NumReader): (r: Parsed<seq<Node>>)
    requires AllWellFormed(acc)
    ensures r.Parsed? ==> Fuel(r.st) <= Fuel(st) && AllWellFormed(r.val) && |r.val| >= |acc|
    ensures r.Parsed? && st.ch != Eof ==> Fuel(r.st) < Fuel(st)
    ensures r.Parsed? && st.ch != Space && st.ch != Eol && st.ch != Eof && st.ch != CloseClause ==> |r.val| > |acc|
    decreases Fuel(st), 3
  {
    match SkipSpaces(st)
    case SyntaxError(m) => SyntaxError(m)
    case Parsed(st1, _) =>
      if st1.ch == CloseQuote then SyntaxError(QuoteUnopened)
      else if st1.ch == Eof || st1.ch == Eol || st1.ch == CloseClause then LineEnd(st1, clause, acc)
      else
        match Token(st1, num)
        case SyntaxError(m) => SyntaxError(m)
        case Parsed(st2, n) =>
          AllWellFormedSnoc(acc, n);
          LineLoop(st2, clause, acc + [n], num)
  }

  /** Where the loop of `_parse_line` stops: a line at a newline or the end of input, a clause at its `]`. */
  function LineEnd(st: PState, clause: bool, acc: seq<Node>): (r: Parsed<seq<Node>>)
    requires st.ch == Eof || st.ch == Eol || st.ch == CloseClause
    ensures r.Parsed? ==> Fuel(r.st) <= Fuel(st) && r.val == acc
    ensures r.Parsed? && st.ch != Eof ==> Fuel(r.st) < Fuel(st)
  {
    if st.ch != CloseClause && clause then SyntaxError(ClauseUnclosed)
    else if st.ch == CloseClause && !clause then SyntaxError(ClauseUnopened)
    else
      match Next(st)
      case SyntaxError(m) => SyntaxError(m)
      case Parsed(st2, _) => Parsed(st2, acc)
  }

  /** The token cases of the loop of `_parse_line`: a clause, a string, a quote, or a word. */
  function Token(st: PState, num: NumReader): (r: Parsed<Node>)
    ensures r.Parsed? ==> Fuel(r.st) <= Fuel(st) && WellFormed(r.val)
    ensures r.Parsed? && st.ch != CloseQuote && st.ch != CloseClause ==> Fuel(r.st) < Fuel(st)
    decreases Fuel(st), 2
  {
    if st.ch == OpenClause then
      match Next(st)
      case SyntaxError(m) => SyntaxError(m)
      case Parsed(st1, _) =>
        match ParseLine(st1, true, num)
        case SyntaxError(m) => SyntaxError(m)
        case Parsed(st2, ts) => Parsed(st2, Clause(ts))
    else if st.ch == StrQuote then ParseString(st)
    else if st.ch == OpenQuote then ParseQuote(st)
    else ParseWord(st, num)
  }

  /**
   * `_parse_line`: one line, or with `clause` the inside of `[...]`.  A
   * blank line and a comment line give no tokens; a clause gives at least one.
   */
  function ParseLine(st: PState, clause: bool, num: NumReader): (r: Parsed<seq<Node>>)
    ensures r.Parsed? ==> Fuel(r.st) <= Fuel(st) && AllWellFormed(r.val)
    ensures r.Parsed? && st.ch != Eof ==> Fuel(r.st) < Fuel(st)
    ensures r.Parsed? && clause ==> r.val != []
    decreases Fuel(st), 5
  {
    match SkipSpaces(st)
    case SyntaxError(m) => SyntaxError(m)
    case Parsed(st1, _) =>
      if clause && st1.ch == CloseClause then SyntaxError(EmptyClause)
      else if st1.ch == Eol || st1.ch == Eof then LineEnd(st1, clause, [])
      else if !clause && st1.ch == CommentMark then CommentLine(st1, num)
      else LineLoop(st1, clause, [], num)
  }

  /**
   * A line that starts with `#` gives no tokens.  The comment runs to the
   * first line end, `;` included, or to the end of input; tokens after a
   * `;` belong to the next command.
   */
  function CommentLine(st: PState, num: NumReader): (r: Parsed<seq<Node>>)
    requires st.ch == CommentMark
    ensures r.Parsed? ==> Fuel(r.st) < Fuel(st) && AllWellFormed(r.val)
    ensures r.Parsed? ==> r.val == []
    decreases Fuel(st), 4
  {
    match CommentLoop(st)
    case SyntaxError(m) => SyntaxError(m)
    case Parsed(st1, atEnd) => if atEnd then Parsed(st1, []) else LineLoop(st1, false, [], num)
  }

  /** The loop of `parse`: every line that has tokens becomes a command. */
  function TopLoop(st: PState, acc: seq<Line>, num: NumReader): (r: Parsed<seq<Line>>)
    requires forall i :: 0 <= i < |acc| ==> acc[i] != [] && AllWellFormed(acc[i])
    ensures r.Parsed? ==> forall i :: 0 <= i < |r.val| ==> r.val[i] != [] && AllWellFormed(r.val[i])
    decreases Fuel(st)
  {
    if st.ch == Eof then Parsed(st, acc)
    else match ParseLine(st, false, num)
      case SyntaxError(m) => SyntaxError(m)
      case Parsed(st1, line) => TopLoop(st1, if line == [] then acc else acc + [line], num)
  }

  /** `parse`: the commands of `src`, or the first syntax error. */
  function Parse(src: Bytes, num: NumReader): (r: Parsed<seq<Line>>)
    ensures r.Parsed? ==> forall i :: 0 <= i < |r.val| ==> r.val[i] != [] && AllWellFormed(r.val[i])
  {
    match Next(Start(src))
    case SyntaxError(m) => SyntaxError(m)
    case Parsed(st, _) => TopLoop(st, [], num)
  }
}

