/**
 * The parser of argument specifications (extensions/argparse.go): a
 * tokenizer over the bytes of a spec such as `'on|'off name rest*`, and a
 * recursive-descent parser that turns the tokens into a `Matcher`.
 *
 * The reference definitions are functions over a `Cursor`, the fields
 * `pos`, `ch`, `buf` and `s` of the Go parser; `SpecParser` is the same
 * parser as an object whose methods update those fields, proved to agree
 * with the functions.  The model follows the code as written, including
 * its quirks: an escaped byte is stored after a backslash instead of
 * alone, and after the second `|` of an alternation one token is skipped,
 * so a third alternative loses its first token.
 */
module ArgSpec {
  import opened Base
  import opened Words
  import opened Errors
  import Escape

  /** The tokens of a spec. */
  datatype Token =
    | Eoi       // end of input
    | Eot       // a space: end of token
    | Bar       // `|`
    | Tick      // `'`, before a literal
    | Asterisk  // `*`
    | Cross     // `+`
    | Question  // `?`
    | Open      // `[`
    | Close     // `]`
    | Char      // any other byte, part of a name

  /** What a spec compiles to. */
  datatype Matcher =
    | Lit(name: Bytes)
    | Var(name: Bytes)
    | Maybe(p: Matcher)
    | Star(p: Matcher)
    | Plus(p: Matcher)
    | Seq(parts: seq<Matcher>)
    | Alt(parts: seq<Matcher>)

  /** The parser's fields: the index of the current byte, its token, the name read so far and the literals seen. */
  datatype Cursor = Cursor(pos: int, ch: Token, buf: Bytes, lits: set<Bytes>)

  /**
   * What the parser raises: a syntax error with the values handed to the
   * formatter, or the Go runtime panic of showing a byte past the end.
   */
  datatype SpecError = Syntax(args: seq<Fmt>) | OutOfRange

  /** A parsing step: the cursor it leaves and what it read, or the error it raised. */
  datatype Step<T> = Went(c: Cursor, v: T) | Stopped(p: SpecError)

  /** The cursor `MakeArgParser` starts from. */
  const Start: Cursor := Cursor(-1, Char, [], {})

  /** A cursor is at the end of input exactly when it is past the last byte; only the start is before the first. */
  predicate Inv(spec: Bytes, c: Cursor)
  {
    -1 <= c.pos && (c.ch == Eoi <==> c.pos >= |spec|) && (c.pos >= 0 || c.ch == Char)
  }

  /** How much input is left: the termination measure of every parsing function. */
  function Left(spec: Bytes, c: Cursor): nat
    requires Inv(spec, c)
  {
    if c.ch == Eoi then 0 else |spec| - c.pos
  }

  /** No byte after `from` up to `to` is a control byte. */
  predicate Clean(spec: Bytes, from: int, to: int)
  {
    forall i | from < i <= to && 0 <= i < |spec| :: spec[i] as int >= 32
  }

  /** What a step promises about the cursor it leaves. */
  predicate Moved(spec: Bytes, c: Cursor, d: Cursor)
    requires Inv(spec, c)
  {
    Inv(spec, d) && Left(spec, d) <= Left(spec, c) && c.pos <= d.pos &&
    Clean(spec, c.pos, d.pos) && c.lits <= d.lits
  }

  // The messages of the syntax errors.
  const IllegalChar: Bytes := "Illegal character in argument " + "parser specification"
  const EscapedEnd: Bytes := "Attempted to escape end of input"
  const NoLiteral: Bytes := "No literal after '"
  const Unexpected: Bytes := "Unexpected token"
  const AfterPostfix: Bytes := "Unexpected token after postfix operator"
  const IllegalPrefix: Bytes := "Illegal prefix:"
  const EndsAfterBar: Bytes := "Input ends after |"
  const CloseAtTop: Bytes := "] before [ in argument specification"
  const EmptySpec: Bytes := "Empty argument specification"
  const Unclosed: Bytes := "[ without ] in argument specification"
  const EmptySeq: Bytes := "[] empty sequence in argument " + "specification"

  function Complaint(msg: Bytes): SpecError
  {
    Syntax([FStr(msg)])
  }

  /** The panic an error raises in the running program. */
  function Raised(e: SpecError): Panic
  {
    match e
    case Syntax(args) => SyntaxError(args)
    case OutOfRange => GoPanic
  }

  /** The token of a byte other than a backslash. */
  function TokenOf(b: byte): Token
  {
    match b
    case ' ' => Eot
    case '\'' => Tick
    case '*' => Asterisk
    case '+' => Cross
    case '?' => Question
    case '|' => Bar
    case '[' => Open
    case ']' => Close
    case _ => Char
  }

  // -------------------------------------------------------------------
  // The tokenizer

  /**
   * `_next`: the token of the next byte.  A control byte raises; a name
   * byte is appended to the buffer.  A backslash reads the next token and
   * makes it a name byte, and then appends the backslash itself.
   */
  function Scan(spec: Bytes, c: Cursor): (r: Step<()>)
    requires Inv(spec, c)
    ensures r.Went? ==> Inv(spec, r.c) && r.c.lits == c.lits && c.pos < r.c.pos && Clean(spec, c.pos, r.c.pos)
    ensures r.Went? && c.ch != Eoi ==> Left(spec, r.c) < Left(spec, c)
    ensures c.ch == Eoi ==> r == Went(c.(pos := c.pos + 1), ())
    decreases |spec| - c.pos
  {
    var pos := c.pos + 1;
    if c.ch == Eoi || pos >= |spec| then Went(c.(pos := pos, ch := Eoi), ())
    else
      var b := spec[pos];
      if (b as int) < 32 then Stopped(Complaint(IllegalChar))
      else if b == '\\' then
        match Scan(spec, c.(pos := pos))
        case Stopped(p) => Stopped(p)
        case Went(d, _) =>
          if d.ch == Eoi then Stopped(Complaint(EscapedEnd))
          else Went(d.(ch := Char, buf := d.buf + ['\\']), ())
      else
        var t := TokenOf(b);
        Went(c.(pos := pos, ch := t, buf := if t == Char then c.buf + [b] else c.buf), ())
  }

  /** `_parse_string`: the name bytes up to the next other token, taken out of the buffer. */
  function ReadName(spec: Bytes, c: Cursor): (r: Step<Bytes>)
    requires Inv(spec, c)
    ensures r.Went? ==> Moved(spec, c, r.c) && r.c.ch != Char && r.c.buf == [] && r.c.lits == c.lits
    decreases Left(spec, c)
  {
    if c.ch != Char then Went(c.(buf := []), c.buf)
    else
      match Scan(spec, c)
      case Stopped(p) => Stopped(p)
      case Went(d, _) => ReadName(spec, d)
  }

  /** The loop at the head of `_parse1` that steps over spaces. */
  function SkipSpaces(spec: Bytes, c: Cursor): (r: Step<()>)
    requires Inv(spec, c)
    ensures r.Went? ==> Moved(spec, c, r.c) && r.c.ch != Eot && r.c.lits == c.lits
    decreases Left(spec, c)
  {
    if c.ch != Eot then Went(c, ())
    else
      match Scan(spec, c)
      case Stopped(p) => Stopped(p)
      case Went(d, _) => SkipSpaces(spec, d)
  }

  // -------------------------------------------------------------------
  // The recursive-descent parser

  /**
   * `_parse1`: one item and its postfix, or nothing at the end of input.
   * Outside an alternation a following `|` starts one.
   */
  function Parse1(spec: Bytes, c: Cursor, inAlt: bool): (r: Step<Option<Matcher>>)
    requires Inv(spec, c)
    ensures r.Went? ==> Moved(spec, c, r.c)
    ensures r.Went? && r.v.None? ==> r.c.ch == Eoi
    decreases Left(spec, c), 2
  {
    match SkipSpaces(spec, c)
    case Stopped(p) => Stopped(p)
    case Went(d, _) =>
      if d.ch == Eoi then Went(d, None)
      else
        match Prefix(spec, d)
        case Stopped(p) => Stopped(p)
        case Went(e, item) =>
          match Postfix(spec, e, item, inAlt)
          case Stopped(p) => Stopped(p)
          case Went(f, m) => Went(f, Some(m))
  }

  /** The prefix switch of `_parse1`: a literal, a name, or a bracketed sequence. */
  function Prefix(spec: Bytes, c: Cursor): (r: Step<Matcher>)
    requires Inv(spec, c) && c.ch != Eoi
    ensures r.Went? ==> Moved(spec, c, r.c)
    decreases Left(spec, c), 1
  {
    match c.ch
    case Tick =>
      (match Scan(spec, c)
       case Stopped(p) => Stopped(p)
       case Went(d, _) =>
         match ReadName(spec, d)
         case Stopped(p) => Stopped(p)
         case Went(e, name) =>
           if name == [] then Stopped(Complaint(NoLiteral))
           else Went(e.(lits := e.lits + {name}), Lit(name)))
    case Char =>
      (match ReadName(spec, c)
       case Stopped(p) => Stopped(p)
       case Went(e, name) => Went(e, Var(name)))
    case Open => ParseSeq(spec, c, false, [])
    case Eot | Bar | Asterisk | Cross | Question | Close => Stopped(Syntax([FStr(Unexpected), FStr([spec[c.pos]])]))
  }

  /** The postfix switch of `_parse1`. */
  function Postfix(spec: Bytes, c: Cursor, item: Matcher, inAlt: bool): (r: Step<Matcher>)
    requires Inv(spec, c) && c.pos >= 0
    ensures r.Went? ==> Moved(spec, c, r.c)
    decreases Left(spec, c), 0
  {
    match c.ch
    case Asterisk => Repeated(spec, c, Star(item))
    case Cross => Repeated(spec, c, Plus(item))
    case Question => Repeated(spec, c, Maybe(item))
    case Bar =>
      if inAlt then Went(c, item)
      else
        (match Scan(spec, c)
         case Stopped(p) => Stopped(p)
         case Went(d, _) => ParseAlt(spec, d, item))
    case Eot => Went(c, item)
    case Eoi => Went(c, item)
    case Close => Went(c, item)
    case Tick => Stopped(Syntax([FStr(Unexpected), FStr([spec[c.pos]])]))
    case Char => Stopped(Syntax([FStr(Unexpected), FStr([spec[c.pos]])]))
    case Open => Stopped(Syntax([FStr(Unexpected), FStr([spec[c.pos]])]))
  }

  /** A postfix operator may be followed only by a space, `|`, `]` or the end of input. */
  function Repeated(spec: Bytes, c: Cursor, m: Matcher): (r: Step<Matcher>)
    requires Inv(spec, c) && c.ch != Eoi
    ensures r.Went? ==> Moved(spec, c, r.c) && r.v == m
  {
    match Scan(spec, c)
    case Stopped(p) => Stopped(p)
    case Went(d, _) =>
      if d.ch in {Char, Open, Asterisk, Cross, Question, Tick} then
        Stopped(Complaint(AfterPostfix))
      else Went(d, m)
  }

  /** The token after a `|` may not be another operator; at the end of input the byte shown is out of range. */
  function BadPrefix(spec: Bytes, c: Cursor): (r: Option<SpecError>)
    requires Inv(spec, c)
  {
    if c.ch in {Bar, Close, Eot, Eoi, Asterisk, Cross, Question} then
      if 0 <= c.pos < |spec| then Some(Syntax([FStr(IllegalPrefix), FOther(Decimal(spec[c.pos] as int))]))
      else Some(OutOfRange)
    else None
  }

  /** `_parse_alt`: the alternatives after the first, which was parsed before the `|`. */
  function ParseAlt(spec: Bytes, c: Cursor, first: Matcher): (r: Step<Matcher>)
    requires Inv(spec, c)
    ensures r.Went? ==> Moved(spec, c, r.c) && r.v.Alt? && |r.v.parts| >= 1
    decreases Left(spec, c), 5
  {
    match BadPrefix(spec, c)
    case Some(p) => Stopped(p)
    case None => AltLoop(spec, c, [first])
  }

  /** The loop of `_parse_alt`: an alternative, then what follows it. */
  function AltLoop(spec: Bytes, c: Cursor, acc: seq<Matcher>): (r: Step<Matcher>)
    requires Inv(spec, c)
    ensures r.Went? ==> Moved(spec, c, r.c) && r.v.Alt? && |r.v.parts| >= |acc|
    decreases Left(spec, c), 4
  {
    match Parse1(spec, c, true)
    case Stopped(p) => Stopped(p)
    case Went(d, None) => Went(d, Alt(acc))
    case Went(d, Some(m)) => AltAfter(spec, d, acc + [m])
  }

  /**
   * The switch after an alternative: the alternation ends at a `]` or a
   * space, and goes on after a `|`.  After a `|` the next token is checked
   * and then, as written, the loop steps once more before parsing again.
   */
  function AltAfter(spec: Bytes, d: Cursor, acc: seq<Matcher>): (r: Step<Matcher>)
    requires Inv(spec, d)
    ensures r.Went? ==> Moved(spec, d, r.c) && r.v.Alt? && |r.v.parts| >= |acc|
    decreases Left(spec, d), 3
  {
    if d.ch == Bar then
      match Scan(spec, d)
      case Stopped(p) => Stopped(p)
      case Went(e, _) =>
        if e.ch in {Bar, Close, Eot, Asterisk, Cross, Question} then
          Stopped(Syntax([FStr(IllegalPrefix), FOther(Decimal(spec[e.pos - 1] as int))]))
        else if e.ch == Eoi then Stopped(Complaint(EndsAfterBar))
        else
          match Scan(spec, e)
          case Stopped(p) => Stopped(p)
          case Went(f, _) => AltLoop(spec, f, acc)
    else if d.ch == Close || d.ch == Eot then Went(d, Alt(acc))
    else if 0 <= d.pos - 1 < |spec| then
      Stopped(Syntax([FStr(Unexpected), FStr(spec), FStr([spec[d.pos - 1]])]))
    else Stopped(OutOfRange)
  }

  /**
   * `_parse_seq`: items up to the `]` of a bracketed sequence, or up to
   * the end of input for the whole spec.  Each round steps to the next
   * token first.
   */
  function ParseSeq(spec: Bytes, c: Cursor, top: bool, acc: seq<Matcher>): (r: Step<Matcher>)
    requires Inv(spec, c) && c.ch != Eoi
    ensures r.Went? ==> Moved(spec, c, r.c) && r.v.Seq? && |r.v.parts| >= 1
    ensures r.Went? && top ==> r.c.ch == Eoi
    decreases Left(spec, c), 0
  {
    match Scan(spec, c)
    case Stopped(p) => Stopped(p)
    case Went(d, _) => SeqItem(spec, d, top, acc)
  }

  /** One round of `_parse_seq` after the step: an item, then the test for the end of the sequence. */
  function SeqItem(spec: Bytes, d: Cursor, top: bool, acc: seq<Matcher>): (r: Step<Matcher>)
    requires Inv(spec, d)
    ensures r.Went? ==> Moved(spec, d, r.c) && r.v.Seq? && |r.v.parts| >= 1
    ensures r.Went? && top ==> r.c.ch == Eoi
    decreases Left(spec, d), 3
  {
    match Parse1(spec, d, false)
    case Stopped(p) => Stopped(p)
    case Went(e, item) =>
      var parts := if item.Some? then acc + [item.value] else acc;
      if e.ch == Close || e.ch == Eoi then SeqEnd(spec, e, top, parts)
      else ParseSeq(spec, e, top, parts)
  }

  /** The end of a sequence: `]` closes a bracketed one, the end of input the whole spec; neither may be empty. */
  function SeqEnd(spec: Bytes, e: Cursor, top: bool, parts: seq<Matcher>): (r: Step<Matcher>)
    requires Inv(spec, e) && (e.ch == Close || e.ch == Eoi)
    ensures r.Went? ==> Moved(spec, e, r.c) && r.v == Seq(parts) && parts != []
    ensures r.Went? && top ==> r.c.ch == Eoi
  {
    if e.ch == Close then
      if top then Stopped(Complaint(CloseAtTop))
      else if parts == [] then Stopped(Complaint(EmptySpec))
      else
        match Scan(spec, e)
        case Stopped(p) => Stopped(p)
        case Went(f, _) => Went(f, Seq(parts))
    else if !top then Stopped(Complaint(Unclosed))
    else if parts == [] then Stopped(Complaint(EmptySeq))
    else Went(e, Seq(parts))
  }

  // -------------------------------------------------------------------
  // The parser object

  /** A step of a method: the error it raised, or the cursor it left and what it read. */
  function Ended<T>(c: Cursor, v: T, err: Option<SpecError>): Step<T>
  {
    if err.Some? then Stopped(err.value) else Went(c, v)
  }

  /**
   * `__arg_parserparser` while it parses: each method advances the fields
   * as the Go method does and ends as the function of the same step says.
   */
  class SpecParser {
    const spec: Bytes
    var pos: int
    var ch: Token
    var buf: Bytes
    var lits: set<Bytes>

    function Cur(): Cursor
      reads this
    {
      Cursor(pos, ch, buf, lits)
    }

    predicate Valid()
      reads this
    {
      Inv(spec, Cur())
    }

    constructor (spec: Bytes)
      ensures this.spec == spec && Cur() == Start && Valid()
    {
      this.spec := spec;
      pos := -1;
      ch := Char;
      buf := [];
      lits := {};
    }

    /** `_next`. */
    method Next() returns (err: Option<SpecError>)
      requires Valid()
      modifies this
      ensures Scan(spec, old(Cur())) == Ended(Cur(), (), err)
      decreases |spec| - pos
    {
      pos := pos + 1;
      if ch == Eoi || pos >= |spec| {
        ch := Eoi;
        return None;
      }
      var b := spec[pos];
      if (b as int) < 32 {
        return Some(Complaint(IllegalChar));
      }
      if b == '\\' {
        err := Next();
        if err.Some? {
          return;
        }
        if ch == Eoi {
          return Some(Complaint(EscapedEnd));
        }
        ch := Char;
      } else {
        ch := TokenOf(b);
      }
      if ch == Char {
        buf := buf + [b];
      }
      return None;
    }

    /** `_parse_string`. */
    method ParseString() returns (name: Bytes, err: Option<SpecError>)
      requires Valid()
      modifies this
      ensures ReadName(spec, old(Cur())) == Ended(Cur(), name, err)
    {
      name, err := [], None;
      while ch == Char
        invariant Valid()
        invariant ReadName(spec, old(Cur())) == ReadName(spec, Cur())
        invariant err == None
        decreases Left(spec, Cur())
      {
        ghost var c := Cur();
        err := Next();
        if err.Some? {
          assert ReadName(spec, c) == Stopped(err.value);
          return;
        }
      }
      name := buf;
      buf := [];
    }

    /** The loop at the head of `_parse1`. */
    method SkipBlanks() returns (err: Option<SpecError>)
      requires Valid()
      modifies this
      ensures SkipSpaces(spec, old(Cur())) == Ended(Cur(), (), err)
    {
      err := None;
      while ch == Eot
        invariant Valid()
        invariant SkipSpaces(spec, old(Cur())) == SkipSpaces(spec, Cur())
        invariant err == None
        decreases Left(spec, Cur())
      {
        ghost var c := Cur();
        err := Next();
        if err.Some? {
          assert SkipSpaces(spec, c) == Stopped(err.value);
          return;
        }
      }
    }

    /** `_parse1`. */
    method ParseOne(inAlt: bool) returns (r: Option<Matcher>, err: Option<SpecError>)
      requires Valid()
      modifies this
      ensures Parse1(spec, old(Cur()), inAlt) == Ended(Cur(), r, err)
      decreases Left(spec, Cur()), 2
    {
      r := None;
      err := SkipBlanks();
      if err.Some? || ch == Eoi {
        return;
      }
      var item;
      item, err := ParsePrefix();
      if err.Some? {
        return;
      }
      item, err := ParsePostfix(item, inAlt);
      r := Some(item);
    }

    /** The prefix switch of `_parse1`. */
    method ParsePrefix() returns (r: Matcher, err: Option<SpecError>)
      requires Valid() && ch != Eoi
      modifies this
      ensures Prefix(spec, old(Cur())) == Ended(Cur(), r, err)
      decreases Left(spec, Cur()), 1
    {
      r := Seq([]);
      match ch {
        case Tick =>
          err := Next();
          if err.Some? {
            return;
          }
          var name;
          name, err := ParseString();
          if err.Some? {
            return;
          }
          if name == [] {
            return r, Some(Complaint(NoLiteral));
          }
          lits := lits + {name};
          r := Lit(name);
        case Char =>
          var name;
          name, err := ParseString();
          r := Var(name);
        case Open =>
          r, err := ParseSequence(false);
        case Eot | Bar | Asterisk | Cross | Question | Close =>
          err := Some(Syntax([FStr(Unexpected), FStr([spec[pos]])]));
      }
    }

    /** The postfix switch of `_parse1`. */
    method ParsePostfix(item: Matcher, inAlt: bool) returns (r: Matcher, err: Option<SpecError>)
      requires Valid() && pos >= 0
      modifies this
      ensures Postfix(spec, old(Cur()), item, inAlt) == Ended(Cur(), r, err)
      decreases Left(spec, Cur()), 0
    {
      r, err := item, None;
      match ch {
        case Asterisk =>
          r, err := Repeat(Star(item));
        case Cross =>
          r, err := Repeat(Plus(item));
        case Question =>
          r, err := Repeat(Maybe(item));
        case Bar =>
          if !inAlt {
            err := Next();
            if err.Some? {
              return;
            }
            r, err := ParseAlternation(item);
          }
        case Eot | Eoi | Close =>
        case Tick | Char | Open =>
          err := Some(Syntax([FStr(Unexpected), FStr([spec[pos]])]));
      }
    }

    /** The step after a postfix operator, and the check of the token it meets. */
    method Repeat(m: Matcher) returns (r: Matcher, err: Option<SpecError>)
      requires Valid() && ch != Eoi
      modifies this
      ensures Repeated(spec, old(Cur()), m) == Ended(Cur(), r, err)
    {
      r := m;
      err := Next();
      if err.None? && ch in {Char, Open, Asterisk, Cross, Question, Tick} {
        err := Some(Complaint(AfterPostfix));
      }
    }

    /** `_parse_alt`. */
    method ParseAlternation(first: Matcher) returns (r: Matcher, err: Option<SpecError>)
      requires Valid()
      modifies this
      ensures ParseAlt(spec, old(Cur()), first) == Ended(Cur(), r, err)
      decreases Left(spec, Cur()), 5
    {
      r := first;
      err := BadPrefix(spec, Cur());
      if err.Some? {
        return;
      }
      var parts := [first];
      while true
        invariant Valid() && Left(spec, Cur()) <= Left(spec, old(Cur()))
        invariant ParseAlt(spec, old(Cur()), first) == AltLoop(spec, Cur(), parts)
        decreases Left(spec, Cur())
      {
        var item;
        item, err := ParseOne(true);
        if err.Some? {
          return;
        }
        if item.None? {
          return Alt(parts), None;
        }
        parts := parts + [item.value];
        var more;
        more, r, err := AfterAlternative(parts);
        if !more {
          return;
        }
      }
    }

    /** The switch after an alternative; `more` when the loop goes on. */
    method AfterAlternative(parts: seq<Matcher>) returns (more: bool, r: Matcher, err: Option<SpecError>)
      requires Valid()
      modifies this
      ensures !more ==> AltAfter(spec, old(Cur()), parts) == Ended(Cur(), r, err)
      ensures more ==> Valid() && Left(spec, Cur()) < Left(spec, old(Cur()))
      ensures more ==> AltAfter(spec, old(Cur()), parts) == AltLoop(spec, Cur(), parts)
      decreases Left(spec, Cur()), 3
    {
      more, r := false, Alt(parts);
      if ch == Bar {
        err := Next();
        if err.Some? {
          return;
        }
        if ch in {Bar, Close, Eot, Asterisk, Cross, Question} {
          return false, r, Some(Syntax([FStr(IllegalPrefix), FOther(Decimal(spec[pos - 1] as int))]));
        }
        if ch == Eoi {
          return false, r, Some(Complaint(EndsAfterBar));
        }
      } else if ch == Close || ch == Eot {
        return false, r, None;
      } else if 0 <= pos - 1 < |spec| {
        return false, r, Some(Syntax([FStr(Unexpected), FStr(spec), FStr([spec[pos - 1]])]));
      } else {
        return false, r, Some(OutOfRange);
      }
      err := Next();
      more := err.None?;
    }

    /** `_parse_seq`. */
    method ParseSequence(top: bool) returns (r: Matcher, err: Option<SpecError>)
      requires Valid() && ch != Eoi
      modifies this
      ensures ParseSeq(spec, old(Cur()), top, []) == Ended(Cur(), r, err)
      decreases Left(spec, Cur()), 0
    {
      r := Seq([]);
      var parts := [];
      while true
        invariant Valid() && ch != Eoi && Left(spec, Cur()) <= Left(spec, old(Cur()))
        invariant ParseSeq(spec, old(Cur()), top, []) == ParseSeq(spec, Cur(), top, parts)
        decreases Left(spec, Cur())
      {
        err := Next();
        if err.Some? {
          return;
        }
        var item;
        item, err := ParseOne(false);
        if err.Some? {
          return;
        }
        if item.Some? {
          parts := parts + [item.value];
        }
        if ch == Close || ch == Eoi {
          r, err := EndSequence(top, parts);
          return;
        }
      }
    }

    /** The two ways out of `_parse_seq`'s loop. */
    method EndSequence(top: bool, parts: seq<Matcher>) returns (r: Matcher, err: Option<SpecError>)
      requires Valid() && (ch == Close || ch == Eoi)
      modifies this
      ensures SeqEnd(spec, old(Cur()), top, parts) == Ended(Cur(), r, err)
    {
      r := Seq(parts);
      if ch == Close {
        if top {
          return r, Some(Complaint(CloseAtTop));
        }
        if parts == [] {
          return r, Some(Complaint(EmptySpec));
        }
        err := Next();
      } else if !top {
        err := Some(Complaint(Unclosed));
      } else if parts == [] {
        err := Some(Complaint(EmptySeq));
      } else {
        err := None;
      }
    }
  }

  // -------------------------------------------------------------------
  // MakeArgParser

  /** What `MakeArgParser` builds: a parser of no arguments, or the matcher of the whole spec and the literals it names. */
  datatype ArgParser = NoArgs | Matching(m: Matcher, lits: set<Bytes>)

  datatype Made = Made(parser: ArgParser) | Refused(err: SpecError)

  /**
   * `MakeArgParser`'s compile step: an empty or blank spec takes no
   * arguments; any other is parsed as one sequence, raising its syntax
   * errors when the parser is made.
   */
  function Compile(spec: Bytes): (r: Made)
    ensures r.Made? && r.parser.Matching? ==> r.parser.m.Seq? && Clean(spec, -1, |spec|)
  {
    if spec == [] || Escape.SkipBlanks(spec, 0) == |spec| then Made(NoArgs)
    else
      match ParseSeq(spec, Start, true, [])
      case Stopped(p) => Refused(p)
      case Went(d, m) => Made(Matching(m, d.lits))
  }

  /**
   * `MakeArgParser`, up to the closure it returns: a blank spec takes no
   * arguments, any other is parsed by a fresh parser object.
   */
  method MakeArgParser(spec: Bytes) returns (r: Made)
    ensures r == Compile(spec)
  {
    var blank := Escape.SlurpWS(spec, 0);
    if |spec| == 0 || blank == |spec| {
      return Made(NoArgs);
    }
    var pp := new SpecParser(spec);
    var m, err := pp.ParseSequence(true);
    if err.Some? {
      return Refused(err.value);
    }
    return Made(Matching(m, pp.lits));
  }

  /** A spec takes no arguments exactly when it is all blanks (tabs and newlines included). */
  lemma BlankSpecTakesNoArgs(spec: Bytes)
    ensures Compile(spec) == Made(NoArgs) <==> AllBlank(spec)
  {
    Escape.SkipBlanksSkipsBlanks(spec, 0);
  }

  /** Any other spec holding a control byte is refused. */
  lemma ControlByteRefused(spec: Bytes, i: nat)
    requires i < |spec| && (spec[i] as int) < 32 && !AllBlank(spec)
    ensures Compile(spec).Refused?
  {
    BlankSpecTakesNoArgs(spec);
  }

  /** A `'` must be followed by a name; a literal read is recorded among the literals. */
  lemma LiteralNeedsName(spec: Bytes, c: Cursor)
    requires Inv(spec, c) && c.ch == Tick
    ensures Scan(spec, c).Went? && Scan(spec, c).c.ch != Char && Scan(spec, c).c.buf == [] ==>
      Prefix(spec, c) == Stopped(Complaint(NoLiteral))
    ensures Prefix(spec, c).Went? ==>
      Prefix(spec, c).v.Lit? && Prefix(spec, c).v.name != [] && Prefix(spec, c).v.name in Prefix(spec, c).c.lits
  {
  }

  /** A postfix operator followed by a word, a `[`, a `'` or another operator is refused. */
  lemma PostfixThenWordRefused(spec: Bytes, c: Cursor, m: Matcher)
    requires Inv(spec, c) && c.ch != Eoi
    ensures Repeated(spec, c, m).Went? <==>
      Scan(spec, c).Went? && Scan(spec, c).c.ch !in {Char, Open, Asterisk, Cross, Question, Tick}
    ensures Scan(spec, c).Went? && Scan(spec, c).c.ch in {Char, Open, Asterisk, Cross, Question, Tick} ==>
      Repeated(spec, c, m) == Stopped(Complaint(AfterPostfix))
  {
  }

  /** A `]` after an item at the top is refused. */
  lemma CloseAtTopRefused()
    ensures Compile("a]") == Refused(Complaint(CloseAtTop))
  {
    var spec: Bytes := "a]";
    assert Escape.SkipBlanks(spec, 0) == 0;
    WordBeforeClose(spec);
  }

  /** The word of `a]`, read up to the `]`. */
  lemma WordBeforeClose(spec: Bytes)
    requires spec == "a]"
    ensures Scan(spec, Start) == Went(Cursor(0, Char, "a", {}), ())
    ensures Parse1(spec, Cursor(0, Char, "a", {}), false) == Went(Cursor(1, Close, [], {}), Some(Var("a")))
  {
    var c1 := Cursor(0, Char, "a", {});
    var c2 := Cursor(1, Close, "a", {});
    assert Scan(spec, c1) == Went(c2, ());
    assert ReadName(spec, c1) == Went(c2.(buf := []), "a");
  }

  /** A `[` that is never closed is refused. */
  lemma UnclosedRefused()
    ensures Compile("[a") == Refused(Complaint(Unclosed))
  {
    var spec: Bytes := "[a";
    assert Escape.SkipBlanks(spec, 0) == 0;
    UnclosedTop(spec);
  }

  /** The whole of `[a` stops where its bracketed part does. */
  lemma UnclosedTop(spec: Bytes)
    requires spec == "[a"
    ensures ParseSeq(spec, Start, true, []) == Stopped(Complaint(Unclosed))
  {
    var c1 := Cursor(0, Open, [], {});
    assert Scan(spec, Start) == Went(c1, ());
    UnclosedInside(spec);
    assert Parse1(spec, c1, false) == Stopped(Complaint(Unclosed));
  }

  /** The bracketed part of `[a` runs into the end of input. */
  lemma UnclosedInside(spec: Bytes)
    requires spec == "[a"
    ensures ParseSeq(spec, Cursor(0, Open, [], {}), false, []) == Stopped(Complaint(Unclosed))
  {
    WordBeforeEnd(spec);
  }

  /** The word of `[a`, read up to the end of input. */
  lemma WordBeforeEnd(spec: Bytes)
    requires spec == "[a"
    ensures Scan(spec, Cursor(0, Open, [], {})) == Went(Cursor(1, Char, "a", {}), ())
    ensures SeqItem(spec, Cursor(1, Char, "a", {}), false, []) == SeqEnd(spec, Cursor(2, Eoi, [], {}), false, [Var("a")])
  {
    var c2 := Cursor(1, Char, "a", {});
    var c3 := Cursor(2, Eoi, "a", {});
    assert Scan(spec, c2) == Went(c3, ());
    assert ReadName(spec, c2) == Went(c3.(buf := []), "a");
    assert Prefix(spec, c2) == Went(c3.(buf := []), Var("a"));
    assert Postfix(spec, c3.(buf := []), Var("a"), false) == Went(c3.(buf := []), Var("a"));
    assert Parse1(spec, c2, false) == Went(c3.(buf := []), Some(Var("a")));
  }

  /** An empty `[]` is refused: the `]` is not an item. */
  lemma EmptyBracketsRefused()
    ensures Compile("[]") == Refused(Syntax([FStr(Unexpected), FStr("]")]))
  {
    var spec: Bytes := "[]";
    assert Escape.SkipBlanks(spec, 0) == 0;
    var c1 := Cursor(0, Open, [], {});
    assert Scan(spec, Start) == Went(c1, ());
    var c2 := Cursor(1, Close, [], {});
    assert Scan(spec, c1) == Went(c2, ());
    assert [spec[1]] == "]";
    assert Parse1(spec, c2, false) == Stopped(Syntax([FStr(Unexpected), FStr("]")]));
  }

  /** In `[a|b]`, the `a` is read and the `|` passed up to the second alternative. */
  lemma FirstAlternative(spec: Bytes)
    requires spec == "[a|b]"
    ensures Scan(spec, Start) == Went(Cursor(0, Open, [], {}), ())
    ensures Scan(spec, Cursor(0, Open, [], {})) == Went(Cursor(1, Char, "a", {}), ())
    ensures Prefix(spec, Cursor(1, Char, "a", {})) == Went(Cursor(2, Bar, [], {}), Var("a"))
  {
    var c2 := Cursor(1, Char, "a", {});
    assert Scan(spec, c2) == Went(Cursor(2, Bar, "a", {}), ());
    assert ReadName(spec, c2) == Went(Cursor(2, Bar, [], {}), "a");
  }

  /** The `|` after the first alternative of `[a|b]` starts the alternation loop at the next word. */
  lemma BarAfterFirst(spec: Bytes)
    requires spec == "[a|b]"
    ensures Postfix(spec, Cursor(2, Bar, [], {}), Var("a"), false) == AltLoop(spec, Cursor(3, Char, "b", {}), [Var("a")])
  {
    assert Scan(spec, Cursor(2, Bar, [], {})) == Went(Cursor(3, Char, "b", {}), ());
  }

  /** The same steps in `[a|b|c]`. */
  lemma FirstOfThree(spec: Bytes)
    requires spec == "[a|b|c]"
    ensures Scan(spec, Start) == Went(Cursor(0, Open, [], {}), ())
    ensures Scan(spec, Cursor(0, Open, [], {})) == Went(Cursor(1, Char, "a", {}), ())
    ensures Prefix(spec, Cursor(1, Char, "a", {})) == Went(Cursor(2, Bar, [], {}), Var("a"))
  {
    var c2 := Cursor(1, Char, "a", {});
    assert Scan(spec, c2) == Went(Cursor(2, Bar, "a", {}), ());
    assert ReadName(spec, c2) == Went(Cursor(2, Bar, [], {}), "a");
  }

  /** The `|` after the first alternative of `[a|b|c]` starts the alternation loop at the next word. */
  lemma BarAfterFirstOfThree(spec: Bytes)
    requires spec == "[a|b|c]"
    ensures Postfix(spec, Cursor(2, Bar, [], {}), Var("a"), false) == AltLoop(spec, Cursor(3, Char, "b", {}), [Var("a")])
  {
    assert Scan(spec, Cursor(2, Bar, [], {})) == Went(Cursor(3, Char, "b", {}), ());
  }

  /** The alternation inside `[a|b]`, from the `b`. */
  lemma SecondAlternative(spec: Bytes)
    requires spec == "[a|b]"
    ensures AltLoop(spec, Cursor(3, Char, "b", {}), [Var("a")]) == Went(Cursor(4, Close, [], {}), Alt([Var("a"), Var("b")]))
  {
    var g := Cursor(3, Char, "b", {});
    assert Scan(spec, g) == Went(Cursor(4, Close, "b", {}), ());
    var d := Cursor(4, Close, [], {});
    assert ReadName(spec, g) == Went(d, "b");
    assert Parse1(spec, g, true) == Went(d, Some(Var("b")));
    assert [Var("a")] + [Var("b")] == [Var("a"), Var("b")];
  }

  /** The bracketed part of `[a|b]`. */
  lemma TwoAlternativesInside(spec: Bytes)
    requires spec == "[a|b]"
    ensures ParseSeq(spec, Cursor(0, Open, [], {}), false, []) == Went(Cursor(5, Eoi, [], {}), Seq([Alt([Var("a"), Var("b")])]))
  {
    var c2 := Cursor(1, Char, "a", {});
    var d := Cursor(4, Close, [], {});
    FirstAlternative(spec);
    BarAfterFirst(spec);
    SecondAlternative(spec);
    var alt := Alt([Var("a"), Var("b")]);
    assert Parse1(spec, c2, false) == Went(d, Some(alt));
    assert [] + [alt] == [alt];
    assert SeqItem(spec, c2, false, []) == SeqEnd(spec, d, false, [alt]);
    assert Scan(spec, d) == Went(Cursor(5, Eoi, [], {}), ());
  }

  /** The whole of `[a|b]`: one item, the bracketed sequence, up to the end of input. */
  lemma TwoAlternativesTop(spec: Bytes)
    requires spec == "[a|b]"
    ensures ParseSeq(spec, Start, true, []) == Went(Cursor(5, Eoi, [], {}), Seq([Seq([Alt([Var("a"), Var("b")])])]))
  {
    var c1 := Cursor(0, Open, [], {});
    FirstAlternative(spec);
    TwoAlternativesInside(spec);
    var inner := Seq([Alt([Var("a"), Var("b")])]);
    var f := Cursor(5, Eoi, [], {});
    assert Prefix(spec, c1) == Went(f, inner);
    assert Postfix(spec, f, inner, false) == Went(f, inner);
    assert Parse1(spec, c1, false) == Went(f, Some(inner));
    assert [] + [inner] == [inner];
    assert SeqItem(spec, c1, true, []) == Went(f, Seq([inner]));
  }

  /** Two alternatives in brackets compile to one alternation. */
  lemma TwoAlternatives()
    ensures Compile("[a|b]") == Made(Matching(Seq([Seq([Alt([Var("a"), Var("b")])])]), {}))
  {
    var spec: Bytes := "[a|b]";
    assert Escape.SkipBlanks(spec, 0) == 0;
    TwoAlternativesTop(spec);
  }

  /** In `[a|b|c]`, the loop after the second `|` steps over the `c` and meets the `]`. */
  lemma ThirdAlternativeSkipped(spec: Bytes)
    requires spec == "[a|b|c]"
    ensures AltLoop(spec, Cursor(3, Char, "b", {}), [Var("a")]) == Stopped(Syntax([FStr(Unexpected), FStr("]")]))
  {
    var g := Cursor(3, Char, "b", {});
    var d := Cursor(4, Bar, [], {});
    SecondOfThree(spec);
    var k := Cursor(6, Close, "c", {});
    assert [spec[6]] == "]";
    assert Parse1(spec, k, true) == Stopped(Syntax([FStr(Unexpected), FStr("]")]));
    assert AltAfter(spec, d, [Var("a"), Var("b")]) == AltLoop(spec, k, [Var("a"), Var("b")]);
    assert [Var("a")] + [Var("b")] == [Var("a"), Var("b")];
  }

  /** In `[a|b|c]`, the `b`, the second `|`, and the two steps the loop takes after it. */
  lemma SecondOfThree(spec: Bytes)
    requires spec == "[a|b|c]"
    ensures Parse1(spec, Cursor(3, Char, "b", {}), true) == Went(Cursor(4, Bar, [], {}), Some(Var("b")))
    ensures Scan(spec, Cursor(4, Bar, [], {})) == Went(Cursor(5, Char, "c", {}), ())
    ensures Scan(spec, Cursor(5, Char, "c", {})) == Went(Cursor(6, Close, "c", {}), ())
  {
    var g := Cursor(3, Char, "b", {});
    assert Scan(spec, g) == Went(Cursor(4, Bar, "b", {}), ());
    assert ReadName(spec, g) == Went(Cursor(4, Bar, [], {}), "b");
  }

  /** The bracketed part of `[a|b|c]` is refused. */
  lemma ThirdAlternativeInside(spec: Bytes)
    requires spec == "[a|b|c]"
    ensures ParseSeq(spec, Cursor(0, Open, [], {}), false, []) == Stopped(Syntax([FStr(Unexpected), FStr("]")]))
  {
    var c2 := Cursor(1, Char, "a", {});
    FirstOfThree(spec);
    BarAfterFirstOfThree(spec);
    ThirdAlternativeSkipped(spec);
    assert Parse1(spec, c2, false) == Stopped(Syntax([FStr(Unexpected), FStr("]")]));
  }

  /**
   * As written, a third alternative is refused: after the second `|` the
   * loop steps past the `c` before parsing, and meets the `]` instead.
   */
  lemma ThirdAlternativeRefused()
    ensures Compile("[a|b|c]") == Refused(Syntax([FStr(Unexpected), FStr("]")]))
  {
    var spec: Bytes := "[a|b|c]";
    assert Escape.SkipBlanks(spec, 0) == 0;
    ThirdAlternativeTop(spec);
  }

  /** The whole of `[a|b|c]` stops where its bracketed part does. */
  lemma ThirdAlternativeTop(spec: Bytes)
    requires spec == "[a|b|c]"
    ensures ParseSeq(spec, Start, true, []) == Stopped(Syntax([FStr(Unexpected), FStr("]")]))
  {
    var c1 := Cursor(0, Open, [], {});
    FirstOfThree(spec);
    ThirdAlternativeInside(spec);
    assert Prefix(spec, c1) == Stopped(Syntax([FStr(Unexpected), FStr("]")]));
    assert Parse1(spec, c1, false) == Stopped(Syntax([FStr(Unexpected), FStr("]")]));
  }
}
