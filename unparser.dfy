/**
 * The unparser (src/gelo/unparser.go): turns a quote's parsed code back
 * into text, one token after another, each followed by a single space,
 * with a newline between commands.
 *
 * As written it never finishes on a `[...]` clause: the clause case calls
 * `_unparse_line` on the clause node itself instead of on its contents, so
 * the recursion never reaches a base case (a Go stack overflow, here the
 * `Diverges` outcome).  A quote with no code (empty or blank source) makes
 * `unparse` dereference its nil command list (`NilDeref`).  A nested quote
 * is unparsed by recursion; `fuel` bounds that nesting.
 *
 * The quote parser is a parameter, `parse`: the interpreter passes
 * `Parser(num)`, which is `Quotes.Code` with its number reader.
 */
module Unparser {
  import opened Base
  import opened Words
  import opened Syntax
  import Quotes

  datatype Unparsed = Text(bytes: Bytes) | Diverges | NilDeref | OutOfFuel

  /** The number of sigils in front of a node's core, so that sigil chains are walked structurally. */
  function Depth(n: Node): nat
  {
    match n
    case Splice(o) => 1 + Depth(o)
    case Indirect(o) => 1 + Depth(o)
    case _ => 0
  }

  /** Appends `b` to a text result, and passes a failure through. */
  function Then(r: Unparsed, b: Bytes): (s: Unparsed)
    ensures s.Text? <==> r.Text?
    ensures s.Text? ==> s.bytes == r.bytes + b
    ensures !r.Text? ==> s == r
  {
    if r.Text? then Text(r.bytes + b) else r
  }

  /** A prefix in front of a text result. */
  function After(a: Bytes, r: Unparsed): (s: Unparsed)
    ensures s.Text? <==> r.Text?
    ensures s.Text? ==> s.bytes == a + r.bytes
    ensures !r.Text? ==> s == r
  {
    if r.Text? then Text(a + r.bytes) else r
  }

  /** The text one token writes, its trailing space included. */
  function NodeText(n: Node, parse: Bytes -> Option<seq<Line>>, fuel: nat): (r: Unparsed)
    ensures r.Text? ==> |r.bytes| > 0 && r.bytes[|r.bytes| - 1] == ' '
    ensures r.Text? ==> n.Literal? || n.Splice? || n.Indirect? || n.QuoteNode?
    decreases fuel, 0, Depth(n)
  {
    match n
    case Literal(w) => Text(Ser(w) + " ")
    case Splice(o) => Then(After("@", NodeText(o, parse, fuel)), " ")
    case Indirect(o) => Then(After("$", NodeText(o, parse, fuel)), " ")
    case Clause(_) => Diverges
    case QuoteNode(q) =>
      if fuel == 0 then OutOfFuel else Then(QuoteText(q, parse, fuel - 1), " ")
  }

  /** `_unparse_line`: the tokens' texts in order, stopping at the first that fails. */
  function LineText(line: Line, parse: Bytes -> Option<seq<Line>>, fuel: nat): Unparsed
    decreases fuel, 1, |line|
  {
    if line == [] then Text([])
    else
      match NodeText(line[0], parse, fuel)
      case Text(b) => After(b, LineText(line[1..], parse, fuel))
      case other => other
  }

  /** The commands' texts, a newline after each but the last. */
  function LinesText(lines: seq<Line>, parse: Bytes -> Option<seq<Line>>, fuel: nat): Unparsed
    requires lines != []
    decreases fuel, 2, |lines|
  {
    if |lines| == 1 then LineText(lines[0], parse, fuel)
    else
      match LineText(lines[0], parse, fuel)
      case Text(b) => After(b + "\n", LinesText(lines[1..], parse, fuel))
      case other => other
  }

  /** `unparse`: a quote that does not parse comes back as its source. */
  function QuoteText(q: Word, parse: Bytes -> Option<seq<Line>>, fuel: nat): Unparsed
    decreases fuel, 3, 0
  {
    var src := if q.Quote? then q.source else Ser(q);
    match parse(src)
    case None => Text(src)
    case Some(lines) => if lines == [] then NilDeref else LinesText(lines, parse, fuel)
  }

  /** The shared output buffer of `_unparse_line`. */
  class Buffer {
    var bytes: Bytes

    constructor()
      ensures bytes == []
    {
      bytes := [];
    }
  }

  /** `_unparse_line`, writing into `buf`; on a failure, `buf` holds whatever was written before it. */
  method UnparseLine(line: Line, buf: Buffer, parse: Bytes -> Option<seq<Line>>, fuel: nat) returns (r: Unparsed)
    modifies buf
    ensures r.Text? <==> LineText(line, parse, fuel).Text?
    ensures !r.Text? ==> r == LineText(line, parse, fuel)
    ensures r.Text? ==> buf.bytes == old(buf.bytes) + LineText(line, parse, fuel).bytes
    decreases fuel, 1, |line|, 0
  {
    var i := 0;
    while i < |line|
      invariant 0 <= i <= |line|
      invariant After(old(buf.bytes), LineText(line, parse, fuel)) == After(buf.bytes, LineText(line[i..], parse, fuel))
    {
      LineTextAt(line, i, parse, fuel);
      r := UnparseNode(line[i], buf, parse, fuel);
      if !r.Text? {
        return;
      }
      i := i + 1;
    }
    r := Text([]);
  }

  lemma LineTextAt(line: Line, i: nat, parse: Bytes -> Option<seq<Line>>, fuel: nat)
    requires i < |line|
    ensures LineText(line[i..], parse, fuel) ==
      if NodeText(line[i], parse, fuel).Text? then After(NodeText(line[i], parse, fuel).bytes, LineText(line[i + 1..], parse, fuel))
      else NodeText(line[i], parse, fuel)
  {
    assert line[i..][1..] == line[i + 1..];
  }

  /** One token of `_unparse_line`'s loop, its trailing space included. */
  method UnparseNode(n: Node, buf: Buffer, parse: Bytes -> Option<seq<Line>>, fuel: nat) returns (r: Unparsed)
    modifies buf
    ensures r.Text? <==> NodeText(n, parse, fuel).Text?
    ensures !r.Text? ==> r == NodeText(n, parse, fuel)
    ensures r.Text? ==> buf.bytes == old(buf.bytes) + NodeText(n, parse, fuel).bytes
    decreases fuel, 0, Depth(n), 1
  {
    match n {
      case Literal(w) =>
        var text := Ser(w);
        buf.bytes := buf.bytes + text;
      case Splice(o) =>
        r := UnparseSigil(n, buf, parse, fuel);
        return;
      case Indirect(o) =>
        r := UnparseSigil(n, buf, parse, fuel);
        return;
      case Clause(_) =>
        return Diverges;
      case QuoteNode(q) =>
        if fuel == 0 {
          return OutOfFuel;
        }
        r := UnparseNested(q, buf, parse, fuel - 1);
        if !r.Text? {
          return;
        }
    }
    buf.bytes := buf.bytes + " ";
    r := Text([]);
  }

  /** A `@` or `$` token: the sigil, then the operand token with its own space, then one more space. */
  method UnparseSigil(n: Node, buf: Buffer, parse: Bytes -> Option<seq<Line>>, fuel: nat) returns (r: Unparsed)
    requires n.Splice? || n.Indirect?
    modifies buf
    ensures r.Text? <==> NodeText(n, parse, fuel).Text?
    ensures !r.Text? ==> r == NodeText(n, parse, fuel)
    ensures r.Text? ==> buf.bytes == old(buf.bytes) + NodeText(n, parse, fuel).bytes
    decreases fuel, 0, Depth(n), 0
  {
    var sigil: Bytes := if n.Splice? then "@" else "$";
    assert NodeText(n, parse, fuel) == Then(After(sigil, NodeText(n.operand, parse, fuel)), " ");
    buf.bytes := buf.bytes + sigil;
    r := UnparseNode(n.operand, buf, parse, fuel);
    if r.Text? {
      buf.bytes := buf.bytes + " ";
    }
  }

  /** A nested quote: `unparse` of it, written into `buf`. */
  method UnparseNested(q: Word, buf: Buffer, parse: Bytes -> Option<seq<Line>>, fuel: nat) returns (r: Unparsed)
    modifies buf
    ensures r.Text? <==> QuoteText(q, parse, fuel).Text?
    ensures !r.Text? ==> r == QuoteText(q, parse, fuel)
    ensures r.Text? ==> buf.bytes == old(buf.bytes) + QuoteText(q, parse, fuel).bytes
    decreases fuel, 3, 1, 0
  {
    r := Unparse(q, parse, fuel);
    if r.Text? {
      buf.bytes := buf.bytes + r.bytes;
    }
  }

  /** `unparse`. */
  method Unparse(q: Word, parse: Bytes -> Option<seq<Line>>, fuel: nat) returns (r: Unparsed)
    ensures r == QuoteText(q, parse, fuel)
    decreases fuel, 3, 0, 0
  {
    var src := if q.Quote? then q.source else Ser(q);
    var code := parse(src);
    if code.None? {
      return Text(src);
    }
    if code.value == [] {
      return NilDeref;
    }
    r := UnparseLines(code.value, parse, fuel);
  }

  /** `unparse`'s loop over the commands, with a newline after each but the last. */
  method UnparseLines(lines: seq<Line>, parse: Bytes -> Option<seq<Line>>, fuel: nat) returns (r: Unparsed)
    requires lines != []
    ensures r == LinesText(lines, parse, fuel)
    decreases fuel, 2, |lines|, 0
  {
    var buf := new Buffer();
    var i := 0;
    while i + 1 < |lines|
      invariant 0 <= i < |lines|
      invariant LinesText(lines, parse, fuel) == After(buf.bytes, LinesText(lines[i..], parse, fuel))
      decreases |lines| - i
    {
      assert lines[i..][1..] == lines[i + 1..];
      r := UnparseLine(lines[i], buf, parse, fuel);
      if !r.Text? {
        return;
      }
      buf.bytes := buf.bytes + "\n";
      i := i + 1;
    }
    assert lines[i..] == [lines[i]];
    r := UnparseLine(lines[i], buf, parse, fuel);
    if r.Text? {
      r := Text(buf.bytes);
    }
  }

  // ---------------------------------------------------------------------
  // Properties

  /** The text of a line of literals: each literal's serialisation followed by one space. */
  function Spaced(ws: seq<Word>): (r: Bytes)
    ensures |r| >= |ws|
  {
    if ws == [] then [] else Ser(ws[0]) + " " + Spaced(ws[1..])
  }

  /** A line of literal tokens unparses to their serialisations, each followed by a single space. */
  lemma {:induction false} LiteralLine(line: Line, parse: Bytes -> Option<seq<Line>>, fuel: nat)
    requires forall i :: 0 <= i < |line| ==> line[i].Literal?
    ensures LineText(line, parse, fuel) == Text(Spaced(seq(|line|, i requires 0 <= i < |line| => line[i].w)))
    decreases |line|
  {
    var ws := seq(|line|, i requires 0 <= i < |line| => line[i].w);
    if line != [] {
      LiteralLine(line[1..], parse, fuel);
      assert ws[1..] == seq(|line[1..]|, i requires 0 <= i < |line[1..]| => line[1..][i].w);
    }
  }

  /** A sigil puts `@` or `$` before its operand's text, and the operand's space is followed by one more. */
  lemma SigilText(w: Word, parse: Bytes -> Option<seq<Line>>, fuel: nat)
    ensures NodeText(Splice(Literal(w)), parse, fuel) == Text("@" + Ser(w) + "  ")
    ensures NodeText(Indirect(Literal(w)), parse, fuel) == Text("$" + Ser(w) + "  ")
  {
    assert "@" + (Ser(w) + " ") + " " == "@" + Ser(w) + "  ";
    assert "$" + (Ser(w) + " ") + " " == "$" + Ser(w) + "  ";
  }

  /** A clause anywhere among a line's tokens keeps the line from ever being unparsed. */
  lemma {:induction false} ClauseNeverUnparses(line: Line, k: nat, parse: Bytes -> Option<seq<Line>>, fuel: nat)
    requires k < |line| && line[k].Clause?
    ensures !LineText(line, parse, fuel).Text?
    decreases k
  {
    if k > 0 {
      ClauseNeverUnparses(line[1..], k - 1, parse, fuel);
    }
  }

  /** The quote parser of the interpreter, with number reader `num`. */
  function Parser(num: NumReader): Bytes -> Option<seq<Line>>
  {
    src => Quotes.Code(src, num)
  }

  /** A quote whose source does not parse unparses to its source, its braces not restored. */
  lemma UnparsableIsSource(src: Bytes, p: bool, num: NumReader, fuel: nat)
    requires Syntax.Parse(src, num).SyntaxError?
    ensures QuoteText(Quote(src, p), Parser(num), fuel) == Text(src)
  {
    assert src != [];
  }

  /** Empty source has no code to walk: `unparse` dereferences nil, and a nested `{}` token does too. */
  lemma EmptyCodeCrashes(p: bool, num: NumReader, fuel: nat)
    ensures QuoteText(Quote([], p), Parser(num), fuel) == NilDeref
    ensures NodeText(QuoteNode(Noop), Parser(num), fuel + 1) == NilDeref
  {
  }

  // ---------------------------------------------------------------------
  // The unparser as meant: a clause is written between brackets, and code
  // with no commands (the no-op `{}`) is the empty text.  Clauses, like
  // nested quotes, spend one unit of `fuel`.

  /** The text one token writes as meant, its trailing space included. */
  function NodeTextIntended(n: Node, parse: Bytes -> Option<seq<Line>>, fuel: nat): Unparsed
    decreases fuel, 0, Depth(n)
  {
    match n
    case Literal(w) => Text(Ser(w) + " ")
    case Splice(o) => Then(After("@", NodeTextIntended(o, parse, fuel)), " ")
    case Indirect(o) => Then(After("$", NodeTextIntended(o, parse, fuel)), " ")
    case Clause(ts) =>
      if fuel == 0 then OutOfFuel else Then(After("[", LineTextIntended(ts, parse, fuel - 1)), "] ")
    case QuoteNode(q) =>
      if fuel == 0 then OutOfFuel else Then(QuoteTextIntended(q, parse, fuel - 1), " ")
  }

  /** A line's text as meant: the tokens' texts in order. */
  function LineTextIntended(line: Line, parse: Bytes -> Option<seq<Line>>, fuel: nat): Unparsed
    decreases fuel, 1, |line|
  {
    if line == [] then Text([])
    else
      match NodeTextIntended(line[0], parse, fuel)
      case Text(b) => After(b, LineTextIntended(line[1..], parse, fuel))
      case other => other
  }

  /** The commands' texts as meant, a newline after each but the last. */
  function LinesTextIntended(lines: seq<Line>, parse: Bytes -> Option<seq<Line>>, fuel: nat): Unparsed
    requires lines != []
    decreases fuel, 2, |lines|
  {
    if |lines| == 1 then LineTextIntended(lines[0], parse, fuel)
    else
      match LineTextIntended(lines[0], parse, fuel)
      case Text(b) => After(b + "\n", LinesTextIntended(lines[1..], parse, fuel))
      case other => other
  }

  /** `unparse` as meant: a quote with no commands is the empty text. */
  function QuoteTextIntended(q: Word, parse: Bytes -> Option<seq<Line>>, fuel: nat): Unparsed
    decreases fuel, 3, 0
  {
    var src := if q.Quote? then q.source else Ser(q);
    match parse(src)
    case None => Text(src)
    case Some(lines) => if lines == [] then Text([]) else LinesTextIntended(lines, parse, fuel)
  }

  /**
   * A token unparsed as meant never diverges and never dereferences nil:
   * it gives text unless its nesting outruns `fuel`.  Where the unparser
   * as written gives text, the intended one gives the same text.
   */
  lemma {:induction false} NodeUnparses(n: Node, parse: Bytes -> Option<seq<Line>>, fuel: nat)
    ensures NodeTextIntended(n, parse, fuel).Text? || NodeTextIntended(n, parse, fuel) == OutOfFuel
    ensures NodeText(n, parse, fuel).Text? ==> NodeTextIntended(n, parse, fuel) == NodeText(n, parse, fuel)
    decreases fuel, 0, Depth(n)
  {
    match n
    case Literal(_) =>
    case Splice(o) => NodeUnparses(o, parse, fuel);
    case Indirect(o) => NodeUnparses(o, parse, fuel);
    case Clause(ts) =>
      if fuel > 0 {
        LineUnparses(ts, parse, fuel - 1);
      }
    case QuoteNode(q) =>
      if fuel > 0 {
        QuoteUnparses(q, parse, fuel - 1);
      }
  }

  /** The same for a line. */
  lemma {:induction false} LineUnparses(line: Line, parse: Bytes -> Option<seq<Line>>, fuel: nat)
    ensures LineTextIntended(line, parse, fuel).Text? || LineTextIntended(line, parse, fuel) == OutOfFuel
    ensures LineText(line, parse, fuel).Text? ==> LineTextIntended(line, parse, fuel) == LineText(line, parse, fuel)
    decreases fuel, 1, |line|
  {
    if line != [] {
      NodeUnparses(line[0], parse, fuel);
      LineUnparses(line[1..], parse, fuel);
    }
  }

  /** The same for the commands of a quote. */
  lemma {:induction false} LinesUnparse(lines: seq<Line>, parse: Bytes -> Option<seq<Line>>, fuel: nat)
    requires lines != []
    ensures LinesTextIntended(lines, parse, fuel).Text? || LinesTextIntended(lines, parse, fuel) == OutOfFuel
    ensures LinesText(lines, parse, fuel).Text? ==> LinesTextIntended(lines, parse, fuel) == LinesText(lines, parse, fuel)
    decreases fuel, 2, |lines|
  {
    LineUnparses(lines[0], parse, fuel);
    if |lines| > 1 {
      LinesUnparse(lines[1..], parse, fuel);
    }
  }

  /** The same for a quote: `unparse` as meant gives text unless its nesting outruns `fuel`. */
  lemma {:induction false} QuoteUnparses(q: Word, parse: Bytes -> Option<seq<Line>>, fuel: nat)
    ensures QuoteTextIntended(q, parse, fuel).Text? || QuoteTextIntended(q, parse, fuel) == OutOfFuel
    ensures QuoteText(q, parse, fuel).Text? ==> QuoteTextIntended(q, parse, fuel) == QuoteText(q, parse, fuel)
    decreases fuel, 3, 0
  {
    var src := if q.Quote? then q.source else Ser(q);
    match parse(src)
    case None =>
    case Some(lines) =>
      if lines != [] {
        LinesUnparse(lines, parse, fuel);
      }
  }

  /** As meant, the no-op `{}` unparses to the empty text, and a clause of one literal to that literal in brackets. */
  lemma IntendedExamples(p: bool, w: Word, num: NumReader, fuel: nat)
    ensures QuoteTextIntended(Quote([], p), Parser(num), fuel) == Text([])
    ensures NodeTextIntended(Clause([Literal(w)]), Parser(num), fuel + 1) == Text("[" + Ser(w) + " ] ")
  {
    assert LineTextIntended([Literal(w)], Parser(num), fuel) == Text(Ser(w) + " ");
  }

  /** When every command unparses, the result is their texts joined with newlines. */
  lemma {:induction false} LinesJoined(lines: seq<Line>, parse: Bytes -> Option<seq<Line>>, fuel: nat)
    requires lines != []
    requires forall i :: 0 <= i < |lines| ==> LineText(lines[i], parse, fuel).Text?
    ensures LinesText(lines, parse, fuel) ==
      Text(Join(seq(|lines|, i requires 0 <= i < |lines| => LineText(lines[i], parse, fuel).bytes), "\n"))
    decreases |lines|
  {
    var texts := seq(|lines|, i requires 0 <= i < |lines| => LineText(lines[i], parse, fuel).bytes);
    if |lines| > 1 {
      LinesJoined(lines[1..], parse, fuel);
      assert texts[1..] == seq(|lines[1..]|, i requires 0 <= i < |lines[1..]| => LineText(lines[1..][i], parse, fuel).bytes);
      assert texts[0] + "\n" + Join(texts[1..], "\n") == (texts[0] + "\n") + Join(texts[1..], "\n");
    }
  }
}
