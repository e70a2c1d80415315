/**
 * The parser of argument specifications as its alternation loop is
 * evidently meant to work: after the token that follows a `|` has been
 * checked, the next alternative is parsed from that token, without the
 * extra step the loop of extensions/argparse.go:325 takes.
 *
 * Every other case is the parser of `ArgSpec` unchanged; the functions
 * that reach the alternation loop are repeated here so that nested
 * alternations are read the same way.  The tokenizer and the other steps
 * are those of `ArgSpec`.
 */
module ArgSpecIntended {
  import opened Base
  import opened Words
  import opened Errors
  import opened ArgSpec
  import Escape

  /** `_parse1`, reading alternations as meant. */
  function Parse1(spec: Bytes, c: Cursor, inAlt: bool): (r: Step<Option<Matcher>>)
    requires Inv(spec, c)
    ensures r.Went? ==> Moved(spec, c, r.c)
    ensures r.Went? && r.v.None? ==> r.c.ch == Eoi
    decreases Left(spec, c), 2
  {
    match SkipSpaces(spec, c)
    case Stopped(p) => Stopped(p)
    case Went(d, _) =>
      if d.ch == Eoi then Went(d, None)
      else
        match Prefix(spec, d)
        case Stopped(p) => Stopped(p)
        case Went(e, item) =>
          match Postfix(spec, e, item, inAlt)
          case Stopped(p) => Stopped(p)
          case Went(f, m) => Went(f, Some(m))
  }

  /** The prefix switch, reading alternations as meant. */
  function Prefix(spec: Bytes, c: Cursor): (r: Step<Matcher>)
    requires Inv(spec, c) && c.ch != Eoi
    ensures r.Went? ==> Moved(spec, c, r.c)
    decreases Left(spec, c), 1
  {
    match c.ch
    case Tick =>
      (match Scan(spec, c)
       case Stopped(p) => Stopped(p)
       case Went(d, _) =>
         match ReadName(spec, d)
         case Stopped(p) => Stopped(p)
         case Went(e, name) =>
           if name == [] then Stopped(Complaint(NoLiteral))
           else Went(e.(lits := e.lits + {name}), Lit(name)))
    case Char =>
      (match ReadName(spec, c)
       case Stopped(p) => Stopped(p)
       case Went(e, name) => Went(e, Var(name)))
    case Open => ParseSeq(spec, c, false, [])
    case Eot | Bar | Asterisk | Cross | Question | Close => Stopped(Syntax([FStr(Unexpected), FStr([spec[c.pos]])]))
  }

  /** The postfix switch, reading alternations as meant. */
  function Postfix(spec: Bytes, c: Cursor, item: Matcher, inAlt: bool): (r: Step<Matcher>)
    requires Inv(spec, c) && c.pos >= 0
    ensures r.Went? ==> Moved(spec, c, r.c)
    decreases Left(spec, c), 0
  {
    match c.ch
    case Asterisk => Repeated(spec, c, Star(item))
    case Cross => Repeated(spec, c, Plus(item))
    case Question => Repeated(spec, c, Maybe(item))
    case Bar =>
      if inAlt then Went(c, item)
      else
        (match Scan(spec, c)
         case Stopped(p) => Stopped(p)
         case Went(d, _) => ParseAlt(spec, d, item))
    case Eot => Went(c, item)
    case Eoi => Went(c, item)
    case Close => Went(c, item)
    case Tick => Stopped(Syntax([FStr(Unexpected), FStr([spec[c.pos]])]))
    case Char => Stopped(Syntax([FStr(Unexpected), FStr([spec[c.pos]])]))
    case Open => Stopped(Syntax([FStr(Unexpected), FStr([spec[c.pos]])]))
  }

  /** `_parse_alt`: the alternatives after the first. */
  function ParseAlt(spec: Bytes, c: Cursor, first: Matcher): (r: Step<Matcher>)
    requires Inv(spec, c)
    ensures r.Went? ==> Moved(spec, c, r.c) && r.v.Alt? && |r.v.parts| >= 1
    decreases Left(spec, c), 5
  {
    match BadPrefix(spec, c)
    case Some(p) => Stopped(p)
    case None => AltLoop(spec, c, [first])
  }

  /** The loop of `_parse_alt`: an alternative, then what follows it. */
  function AltLoop(spec: Bytes, c: Cursor, acc: seq<Matcher>): (r: Step<Matcher>)
    requires Inv(spec, c)
    ensures r.Went? ==> Moved(spec, c, r.c) && r.v.Alt? && |r.v.parts| >= |acc|
    decreases Left(spec, c), 4
  {
    match Parse1(spec, c, true)
    case Stopped(p) => Stopped(p)
    case Went(d, None) => Went(d, Alt(acc))
    case Went(d, Some(m)) => AltAfter(spec, d, acc + [m])
  }

  /**
   * The switch after an alternative, as meant: after a `|` the next token
   * is checked and the next alternative starts at it.
   */
  function AltAfter(spec: Bytes, d: Cursor, acc: seq<Matcher>): (r: Step<Matcher>)
    requires Inv(spec, d)
    ensures r.Went? ==> Moved(spec, d, r.c) && r.v.Alt? && |r.v.parts| >= |acc|
    decreases Left(spec, d), 3
  {
    if d.ch == Bar then
      match Scan(spec, d)
      case Stopped(p) => Stopped(p)
      case Went(e, _) =>
        if e.ch in {Bar, Close, Eot, Asterisk, Cross, Question} then
          Stopped(Syntax([FStr(IllegalPrefix), FOther(Decimal(spec[e.pos - 1] as int))]))
        else if e.ch == Eoi then Stopped(Complaint(EndsAfterBar))
        else AltLoop(spec, e, acc)
    else if d.ch == Close || d.ch == Eot then Went(d, Alt(acc))
    else if 0 <= d.pos - 1 < |spec| then
      Stopped(Syntax([FStr(Unexpected), FStr(spec), FStr([spec[d.pos - 1]])]))
    else Stopped(OutOfRange)
  }

  /** `_parse_seq`, reading alternations as meant. */
  function ParseSeq(spec: Bytes, c: Cursor, top: bool, acc: seq<Matcher>): (r: Step<Matcher>)
    requires Inv(spec, c) && c.ch != Eoi
    ensures r.Went? ==> Moved(spec, c, r.c) && r.v.Seq? && |r.v.parts| >= 1
    ensures r.Went? && top ==> r.c.ch == Eoi
    decreases Left(spec, c), 0
  {
    match Scan(spec, c)
    case Stopped(p) => Stopped(p)
    case Went(d, _) => SeqItem(spec, d, top, acc)
  }

  /** One round of `_parse_seq` after the step. */
  function SeqItem(spec: Bytes, d: Cursor, top: bool, acc: seq<Matcher>): (r: Step<Matcher>)
    requires Inv(spec, d)
    ensures r.Went? ==> Moved(spec, d, r.c) && r.v.Seq? && |r.v.parts| >= 1
    ensures r.Went? && top ==> r.c.ch == Eoi
    decreases Left(spec, d), 3
  {
    match Parse1(spec, d, false)
    case Stopped(p) => Stopped(p)
    case Went(e, item) =>
      var parts := if item.Some? then acc + [item.value] else acc;
      if e.ch == Close || e.ch == Eoi then SeqEnd(spec, e, top, parts)
      else ParseSeq(spec, e, top, parts)
  }

  /** `MakeArgParser`'s compile step, reading alternations as meant. */
  function Compile(spec: Bytes): (r: Made)
    ensures r.Made? && r.parser.Matching? ==> r.parser.m.Seq? && Clean(spec, -1, |spec|)
  {
    if spec == [] || Escape.SkipBlanks(spec, 0) == |spec| then Made(NoArgs)
    else
      match ParseSeq(spec, Start, true, [])
      case Stopped(p) => Refused(p)
      case Went(d, m) => Made(Matching(m, d.lits))
  }

  // -------------------------------------------------------------------
  // `[a|b|c]`, read as meant

  /** In `[a|b|c]`, the `a` and the `|` after it start the alternation at the `b`. */
  lemma FirstOfThree(spec: Bytes)
    requires spec == "[a|b|c]"
    ensures Scan(spec, Start) == Went(Cursor(0, Open, [], {}), ())
    ensures Scan(spec, Cursor(0, Open, [], {})) == Went(Cursor(1, Char, "a", {}), ())
    ensures Prefix(spec, Cursor(1, Char, "a", {})) == Went(Cursor(2, Bar, [], {}), Var("a"))
    ensures Postfix(spec, Cursor(2, Bar, [], {}), Var("a"), false) == AltLoop(spec, Cursor(3, Char, "b", {}), [Var("a")])
  {
    var c2 := Cursor(1, Char, "a", {});
    assert Scan(spec, c2) == Went(Cursor(2, Bar, "a", {}), ());
    assert ReadName(spec, c2) == Went(Cursor(2, Bar, [], {}), "a");
    assert Scan(spec, Cursor(2, Bar, [], {})) == Went(Cursor(3, Char, "b", {}), ());
  }

  /** The `b`, up to the second `|`. */
  lemma SecondOfThree(spec: Bytes)
    requires spec == "[a|b|c]"
    ensures Parse1(spec, Cursor(3, Char, "b", {}), true) == Went(Cursor(4, Bar, [], {}), Some(Var("b")))
    ensures Scan(spec, Cursor(4, Bar, [], {})) == Went(Cursor(5, Char, "c", {}), ())
  {
    var g := Cursor(3, Char, "b", {});
    assert Scan(spec, g) == Went(Cursor(4, Bar, "b", {}), ());
    assert ReadName(spec, g) == Went(Cursor(4, Bar, [], {}), "b");
  }

  /** The `c`, read from the token after the second `|`, up to the `]`. */
  lemma ThirdOfThree(spec: Bytes)
    requires spec == "[a|b|c]"
    ensures Parse1(spec, Cursor(5, Char, "c", {}), true) == Went(Cursor(6, Close, [], {}), Some(Var("c")))
  {
    var k := Cursor(5, Char, "c", {});
    assert Scan(spec, k) == Went(Cursor(6, Close, "c", {}), ());
    assert ReadName(spec, k) == Went(Cursor(6, Close, [], {}), "c");
  }

  /** The alternation of `[a|b|c]`, from the `b`: all three alternatives. */
  lemma AlternationOfThree(spec: Bytes)
    requires spec == "[a|b|c]"
    ensures AltLoop(spec, Cursor(3, Char, "b", {}), [Var("a")]) ==
      Went(Cursor(6, Close, [], {}), Alt([Var("a"), Var("b"), Var("c")]))
  {
    SecondOfThree(spec);
    ThirdOfThree(spec);
    var ab := [Var("a"), Var("b")];
    assert [Var("a")] + [Var("b")] == ab;
    assert ab + [Var("c")] == [Var("a"), Var("b"), Var("c")];
    var e := Cursor(6, Close, [], {});
    assert AltAfter(spec, e, ab + [Var("c")]) == Went(e, Alt([Var("a"), Var("b"), Var("c")]));
    assert AltLoop(spec, Cursor(5, Char, "c", {}), ab) == Went(e, Alt([Var("a"), Var("b"), Var("c")]));
    assert AltAfter(spec, Cursor(4, Bar, [], {}), ab) == AltLoop(spec, Cursor(5, Char, "c", {}), ab);
  }

  /** The bracketed part of `[a|b|c]`. */
  lemma ThreeInside(spec: Bytes)
    requires spec == "[a|b|c]"
    ensures ParseSeq(spec, Cursor(0, Open, [], {}), false, []) ==
      Went(Cursor(7, Eoi, [], {}), Seq([Alt([Var("a"), Var("b"), Var("c")])]))
  {
    var c2 := Cursor(1, Char, "a", {});
    var e := Cursor(6, Close, [], {});
    FirstOfThree(spec);
    AlternationOfThree(spec);
    var alt := Alt([Var("a"), Var("b"), Var("c")]);
    assert ParseAlt(spec, Cursor(3, Char, "b", {}), Var("a")) == Went(e, alt);
    assert Parse1(spec, c2, false) == Went(e, Some(alt));
    assert [] + [alt] == [alt];
    assert SeqItem(spec, c2, false, []) == SeqEnd(spec, e, false, [alt]);
    assert Scan(spec, e) == Went(Cursor(7, Eoi, [], {}), ());
  }

  /** The whole of `[a|b|c]`: one item, the bracketed sequence, up to the end of input. */
  lemma ThreeTop(spec: Bytes)
    requires spec == "[a|b|c]"
    ensures ParseSeq(spec, Start, true, []) ==
      Went(Cursor(7, Eoi, [], {}), Seq([Seq([Alt([Var("a"), Var("b"), Var("c")])])]))
  {
    var c1 := Cursor(0, Open, [], {});
    FirstOfThree(spec);
    ThreeInside(spec);
    var inner := Seq([Alt([Var("a"), Var("b"), Var("c")])]);
    var f := Cursor(7, Eoi, [], {});
    assert Prefix(spec, c1) == Went(f, inner);
    assert Postfix(spec, f, inner, false) == Went(f, inner);
    assert Parse1(spec, c1, false) == Went(f, Some(inner));
    assert [] + [inner] == [inner];
    assert SeqItem(spec, c1, true, []) == Went(f, Seq([inner]));
  }

  /**
   * Read as meant, `[a|b|c]` compiles to one bracketed alternation of its
   * three names, where the parser as written refuses it
   * (`ArgSpec.ThirdAlternativeRefused`).
   */
  lemma ThreeAlternatives()
    ensures Compile("[a|b|c]") == Made(Matching(Seq([Seq([Alt([Var("a"), Var("b"), Var("c")])])]), {}))
  {
    var spec: Bytes := "[a|b|c]";
    assert Escape.SkipBlanks(spec, 0) == 0;
    ThreeTop(spec);
  }
}
