/**
 * The parser of src/gelo/parser.go as the Go code runs it: an object whose
 * fields are updated byte by byte.  Every method is proved to do what the
 * function of the same name in module Syntax says, so the properties
 * proved there (module SyntaxFacts) hold of this code.
 *
 * The Go parser panics on a syntax error; a method here returns the
 * message in `err` instead and the caller returns at once, which is what
 * the unwinding panic amounts to.  The fields are left as they are then.
 */
module Parser {
  import opened Base
  import opened Words
  import opened Syntax

  /** The method produced what the outcome `r` says: its error, or its new state and value. */
  predicate Did<T(==)>(r: Parsed<T>, err: Option<Bytes>, st: PState, v: T)
  {
    match r
    case SyntaxError(m) => err == Some(m)
    case Parsed(s, x) => err.None? && st == s && v == x
  }

  class Parser {
    var src: Bytes
    var pos: nat
    var cur: byte
    var ch: Lexeme
    var record: bool
    var escm: EscMode
    var buf: Bytes
    const num: NumReader

    function State(): PState
      reads this
    {
      PState(src, pos, cur, ch, record, escm, buf)
    }

    /** The parser `parse` makes: `cur` a one-byte slice holding 0, an empty buffer, code mode. */
    constructor(input: Bytes, reader: NumReader)
      ensures State() == Start(input) && num == reader
    {
      src, pos, cur, ch, record, escm, buf := input, 0, 0 as char, Eol, false, Reg, [];
      num := reader;
    }

    /** `_adv`. */
    method Adv()
      modifies this
      ensures State() == Syntax.Adv(old(State()))
    {
      if ch == Eof {
        return;
      }
      if pos < |src| {
        cur := src[pos];
        pos := pos + 1;
      } else {
        ch := Eof;
      }
    }

    /** `_next`. */
    method Next() returns (err: Option<Bytes>)
      modifies this
      ensures Did(Syntax.Next(old(State())), err, State(), ())
    {
      if ch != Eof && record {
        buf := buf + [cur];
      }
      Adv();
      if ch == Eof {
        return None;
      }
      if cur == '\\' {
        err := EscapeStep();
        return;
      }
      ch := Classify(cur);
      return None;
    }

    /** The escape branch of `_next`, the cursor on the backslash. */
    method EscapeStep() returns (err: Option<Bytes>)
      requires ch != Eof
      modifies this
      ensures Did(Syntax.EscapeStep(old(State())), err, State(), ())
    {
      Adv();
      if ch == Eof {
        return Some(EscapeAtEnd);
      }
      var c := cur;
      if escm != InQuote && c == '*' {
        StarSkip();
        return None;
      }
      match escm {
        case Reg =>
          if CtrlChar(c).Some? {
            cur := CtrlChar(c).value;
          }
        case InStr =>
          if c != '"' {
            buf := buf + "\\";
          }
        case InQuote =>
          if record {
            buf := buf + "\\";
          }
      }
      ch := Plain;
      return None;
    }

    /** The `\*` loop of `_next`: blanks are skipped and the next byte classified as it stands. */
    method StarSkip()
      requires ch != Eof
      modifies this
      ensures State() == Syntax.StarSkip(old(State()))
    {
      ghost var target := Syntax.StarSkip(State());
      while true
        invariant ch != Eof && Syntax.StarSkip(State()) == target
        decreases Fuel(State())
      {
        Adv();
        if ch == Eof {
          return;
        }
        if !IsBlank(cur) {
          ch := Classify(cur);
          return;
        }
      }
    }

    /** `_read_out`: the recorded bytes; recording stops and the buffer is emptied. */
    method ReadOut() returns (r: Bytes)
      modifies this
      ensures r == old(buf)
      ensures State() == old(State()).(record := false, buf := [])
    {
      record := false;
      r := buf;
      buf := [];
    }

    /** The loop `for ; p.ch == _l_space; p._next() {}`. */
    method SkipSpaces() returns (err: Option<Bytes>)
      modifies this
      ensures Did(Syntax.SkipSpaces(old(State())), err, State(), ())
    {
      ghost var target := Syntax.SkipSpaces(State());
      while ch == Space
        invariant Syntax.SkipSpaces(State()) == target
        decreases Fuel(State())
      {
        err := Next();
        if err.Some? {
          return;
        }
      }
      return None;
    }

    /** `_rquote`. */
    method RQuote(rec: bool) returns (err: Option<Bytes>)
      modifies this
      ensures Did(Syntax.RQuote(old(State()), rec), err, State(), ())
    {
      escm := InQuote;
      record := rec;
      Adv();
      if ch == Eof {
        return Some(QuoteUnclosed);
      }
      if cur == '\\' {
        err := LeadingEscape();
        return;
      } else if cur == '{' {
        // set, and overwritten in QuoteLoop, as in the source
        ch := OpenQuote;
      } else if cur == '}' {
        return None;
      }
      ch := Plain;
      err := QuoteLoop();
    }

    /** A quote's leading backslash: written to the buffer, with the byte after it starting the body. */
    method LeadingEscape() returns (err: Option<Bytes>)
      modifies this
      ensures Did(Syntax.LeadingEscape(old(State())), err, State(), ())
    {
      Adv();
      if ch == Eof {
        return Some(EscapeAtEnd);
      }
      buf := buf + "\\";
      ch := Plain;
      err := QuoteLoop();
    }

    /** The depth-counting loop of `_rquote`, starting one quote deep. */
    method QuoteLoop() returns (err: Option<Bytes>)
      modifies this
      ensures Did(Syntax.QuoteLoop(old(State()), 1), err, State(), ())
    {
      var depth := 1;
      ghost var target := Syntax.QuoteLoop(State(), 1);
      while true
        invariant depth >= 1 && Syntax.QuoteLoop(State(), depth) == target
        decreases Fuel(State())
      {
        if ch == OpenQuote {
          depth := depth + 1;
        } else if ch == CloseQuote {
          depth := depth - 1;
          if depth == 0 {
            escm := Reg;
            return None;
          }
        } else if ch == Eof {
          return Some(QuoteUnclosed);
        }
        assert target == (match Syntax.Next(State())
          case SyntaxError(m) => SyntaxError(m)
          case Parsed(s1, _) => Syntax.QuoteLoop(s1, depth));
        err := Next();
        if err.Some? {
          return;
        }
      }
    }

    /** `_parse_quote`. */
    method ParseQuote() returns (n: Node, err: Option<Bytes>)
      modifies this
      ensures Did(Syntax.ParseQuote(old(State())), err, State(), n)
    {
      n := Literal(Null);
      err := RQuote(true);
      if err.Some? {
        return;
      }
      var out := ReadOut();
      err := Next();
      if err.Some? {
        return;
      }
      var q;
      if |out| == 0 {
        q := Noop;
      } else {
        q := Quote(out, true);
      }
      n := QuoteNode(q);
    }

    /** `_parse_string`. */
    method ParseString() returns (n: Node, err: Option<Bytes>)
      modifies this
      ensures Did(Syntax.ParseString(old(State())), err, State(), n)
    {
      n := Literal(Null);
      escm := InStr;
      err := Next();
      if err.Some? {
        return;
      }
      if ch == StrQuote {
        err := Next();
        if err.Some? {
          return;
        }
        escm := Reg;
        return Literal(Null), None;
      }
      n, err := StringBody();
    }

    /** The part of `_parse_string` after a first byte that is not the closing quote. */
    method StringBody() returns (n: Node, err: Option<Bytes>)
      modifies this
      ensures Did(Syntax.StringBody(old(State())), err, State(), n)
    {
      n := Literal(Null);
      record := true;
      ghost var target := StringLoop(State());
      while ch != StrQuote
        invariant StringLoop(State()) == target
        decreases Fuel(State())
      {
        if ch == Eof {
          return n, Some(StringUnclosed);
        }
        err := Next();
        if err.Some? {
          return;
        }
      }
      var text := ReadOut();
      var val := Literal(Intern(text));
      escm := Reg;
      err := Next();
      if err.Some? {
        return;
      }
      n := val;
    }

    /** The comment loop of `_parse_line`; `atEnd` when the input ends inside the comment. */
    method SkipComment() returns (atEnd: bool, err: Option<Bytes>)
      modifies this
      ensures Did(CommentLoop(old(State())), err, State(), atEnd)
    {
      atEnd := false;
      ghost var target := CommentLoop(State());
      while ch != Eol
        invariant CommentLoop(State()) == target
        decreases Fuel(State())
      {
        if ch == Eof {
          return true, None;
        }
        ghost var before := State();
        if ch == OpenQuote {
          err := RQuote(false);
          if err.Some? {
            return;
          }
        }
        ghost var moved := State();
        assert target == (match Syntax.Next(moved) case SyntaxError(m) => SyntaxError(m) case Parsed(s, _) => CommentLoop(s));
        err := Next();
        if err.Some? {
          return;
        }
      }
      return false, None;
    }

    /** `_parse_word`: a sigil, then a clause, quote, string or bare word. */
    method ParseWord() returns (n: Node, err: Option<Bytes>)
      modifies this
      ensures Did(Syntax.ParseWord(old(State()), num), err, State(), n)
      decreases Fuel(State()), 1
    {
      ghost var start := State();
      n := Literal(Null);
      var sigil := ch;
      if ch == SpliceSigil || ch == IndirectSigil {
        err := Next();
        if err.Some? {
          return;
        }
      }
      ghost var operand := ParseOperand(State(), num);
      var m: Node;
      if ch == Eol || ch == Eof || ch == Space {
        return n, Some(SigilAlone);
      } else if ch == OpenClause {
        err := Next();
        if err.Some? {
          return;
        }
        var ts;
        ts, err := ParseLine(true);
        if err.Some? {
          return;
        }
        m := Clause(ts);
      } else if ch == OpenQuote {
        m, err := ParseQuote();
        if err.Some? {
          return;
        }
      } else if ch == StrQuote {
        m, err := ParseString();
        if err.Some? {
          return;
        }
      } else {
        m, err := BareWord();
        if err.Some? {
          return;
        }
      }
      assert operand == Parsed(State(), m);
      if sigil == SpliceSigil {
        n := Splice(m);
      } else if sigil == IndirectSigil {
        n := Indirect(m);
      } else {
        n := m;
      }
    }

    /** The bare-word part of `_parse_word`: recorded to the first byte that ends it, then tried as a number. */
    method BareWord() returns (n: Node, err: Option<Bytes>)
      modifies this
      ensures Did(PlainWord(old(State()), num), err, State(), n)
    {
      n := Literal(Null);
      record := true;
      var tryNum := false;
      var rch := cur;
      if '0' <= rch <= '9' {
        tryNum := true;
      }
      if rch == '-' || rch == '+' || rch == '.' {
        tryNum := true;
      }
      ghost var target := WordLoop(State());
      while !EndsWord(ch)
        invariant WordLoop(State()) == target
        decreases Fuel(State())
      {
        err := Next();
        if err.Some? {
          return;
        }
      }
      var r := ReadOut();
      if tryNum {
        var v := num(r);
        if v.Some? {
          return Literal(Number(v.value, r)), None;
        }
      }
      return Literal(Intern(r)), None;
    }

    /** The token cases of the loop of `_parse_line`. */
    method Token() returns (n: Node, err: Option<Bytes>)
      modifies this
      ensures Did(Syntax.Token(old(State()), num), err, State(), n)
      decreases Fuel(State()), 2
    {
      n := Literal(Null);
      if ch == OpenClause {
        err := Next();
        if err.Some? {
          return;
        }
        var ts;
        ts, err := ParseLine(true);
        if err.Some? {
          return;
        }
        n := Clause(ts);
      } else if ch == StrQuote {
        n, err := ParseString();
      } else if ch == OpenQuote {
        n, err := ParseQuote();
      } else {
        n, err := ParseWord();
      }
    }

    /** `_parse_line`: the tokens of a line, or with `clause` of a `[...]` clause. */
    method ParseLine(clause: bool) returns (tokens: seq<Node>, err: Option<Bytes>)
      modifies this
      ensures Did(Syntax.ParseLine(old(State()), clause, num), err, State(), tokens)
      decreases Fuel(State()), 5
    {
      ghost var start := State();
      ghost var target := Syntax.ParseLine(State(), clause, num);
      tokens := [];
      err := SkipSpaces();
      if err.Some? {
        return;
      }
      if clause && ch == CloseClause {
        return [], Some(EmptyClause);
      }
      if ch == Eol || ch == Eof {
        if clause {
          return [], Some(ClauseUnclosed);
        }
        err := Next();
        return [], err;
      }
      if !clause && ch == CommentMark {
        ghost var atComment := State();
        var atEnd;
        atEnd, err := SkipComment();
        assert target == CommentLine(atComment, num);
        if err.Some? || atEnd {
          return [], err;
        }
        assert target == LineLoop(State(), clause, [], num);
      }
      while true
        invariant AllWellFormed(tokens)
        invariant Fuel(State()) <= Fuel(start)
        invariant LineLoop(State(), clause, tokens, num) == target
        decreases Fuel(State())
      {
        ghost var before := State();
        err := SkipSpaces();
        if err.Some? {
          return;
        }
        if ch == CloseQuote {
          return tokens, Some(QuoteUnopened);
        } else if ch == Eof || ch == Eol {
          if clause {
            return tokens, Some(ClauseUnclosed);
          }
          err := Next();
          return tokens, err;
        } else if ch == CloseClause {
          if !clause {
            return tokens, Some(ClauseUnopened);
          }
          err := Next();
          return tokens, err;
        }
        var n;
        n, err := Token();
        if err.Some? {
          return;
        }
        AllWellFormedSnoc(tokens, n);
        tokens := tokens + [n];
      }
    }
  }

  /** `parse`: the commands of `input` in order, blank and comment lines dropped, or the first syntax error. */
  method Parse(input: Bytes, reader: NumReader) returns (lines: seq<Line>, err: Option<Bytes>)
    ensures err == (if Syntax.Parse(input, reader).SyntaxError? then Some(Syntax.Parse(input, reader).msg) else None)
    ensures err.None? ==> lines == Syntax.Parse(input, reader).val
    ensures err.None? ==> forall i :: 0 <= i < |lines| ==> lines[i] != [] && AllWellFormed(lines[i])
  {
    var p := new Parser(input, reader);
    lines := [];
    err := p.Next();
    if err.Some? {
      return;
    }
    ghost var target := Syntax.Parse(input, reader);
    assert target == TopLoop(p.State(), [], reader);
    while p.ch != Eof
      invariant forall i :: 0 <= i < |lines| ==> lines[i] != [] && AllWellFormed(lines[i])
      invariant TopLoop(p.State(), lines, reader) == target
      invariant p.num == reader && err.None?
      decreases Fuel(p.State())
    {
      ghost var before := p.State();
      var line;
      line, err := p.ParseLine(false);
      if err.Some? {
        assert target == SyntaxError(err.value);
        return;
      }
      if line != [] {
        lines := lines + [line];
      }
    }
  }
}
