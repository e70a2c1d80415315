/**
 * Quotes (src/gelo/quote.go): a quote is its source text, and it parses
 * that text into code the first time the code is asked for.  The parse is
 * remembered either way: the code once it has parsed, or the `literal` flag
 * once it has been found not to parse.
 *
 * The quote's value (its source and whether it is the protected wrapper)
 * is the `Quote` variant of `Word`; the memo it carries is the class
 * `Memo` below, and `Code` is what the memo stands for.
 */
module Quotes {
  import opened Base
  import opened Words
  import Syntax
  import Parser

  /**
   * The code of a quote's source: no code (`nil`) for empty source, the
   * parsed commands, or None when the source has a syntax error.  An empty
   * command list is Go's nil `*command`.
   */
  function Code(source: Bytes, num: Syntax.NumReader): (r: Option<seq<Syntax.Line>>)
    ensures source == [] ==> r == Some([])
    ensures r.None? <==> source != [] && Syntax.Parse(source, num).SyntaxError?
    ensures r.Some? && source != [] ==> r.value == Syntax.Parse(source, num).val
  {
    if source == [] then Some([])
    else
      match Syntax.Parse(source, num)
      case SyntaxError(_) => None
      case Parsed(_, lines) => Some(lines)
  }

  /** The `literal`/`code` memo of one quote. */
  class Memo {
    const source: Bytes
    const num: Syntax.NumReader
    var literal: bool
    var code: seq<Syntax.Line>
    /** How many times the source has been handed to the parser. */
    ghost var parses: nat

    /** The memo agrees with the source: `literal` only when it does not parse, and cached code is its code. */
    ghost predicate Valid()
      reads this
    {
      (literal ==> Code(source, num).None?) &&
      (code != [] ==> Code(source, num) == Some(code))
    }

    /** A quote as the parser and `Quote` build it: not known to be literal, nothing parsed yet. */
    constructor(src: Bytes, reader: Syntax.NumReader)
      ensures Valid() && source == src && num == reader
      ensures !literal && code == [] && parses == 0
    {
      source, num := src, reader;
      literal, code, parses := false, [], 0;
    }

    /**
     * `fcode`: the code of the source, whatever the memo held before; a
     * quote known to be literal, or with code already parsed, is not parsed
     * again.
     */
    method Fcode() returns (c: seq<Syntax.Line>, ok: bool)
      requires Valid()
      modifies this
      ensures Valid()
      ensures ok <==> Code(source, num).Some?
      ensures ok ==> c == Code(source, num).value
      ensures !ok ==> c == []
      ensures literal == (old(literal) || !ok)
      ensures code == (if ok then c else old(code))
      ensures old(literal) || old(code) != [] || source == [] ==> parses == old(parses)
      ensures parses <= old(parses) + 1
    {
      if literal {
        c, ok := [], false;
      } else if code != [] {
        c, ok := code, true;
      } else if |source| == 0 {
        c, ok := [], true;
      } else {
        var lines, err := Parser.Parse(source, num);
        parses := parses + 1;
        if err.Some? {
          literal := true;
          c, ok := [], false;
        } else {
          code := lines;
          c, ok := lines, true;
        }
      }
    }
  }

  /** Asking twice gives the same answer, and the second time nothing is parsed unless the code is empty. */
  method FcodeTwice(m: Memo) returns (c1: seq<Syntax.Line>, ok1: bool, c2: seq<Syntax.Line>, ok2: bool)
    requires m.Valid()
    modifies m
    ensures c1 == c2 && ok1 == ok2
    ensures !ok1 || c1 != [] || m.source == [] ==> m.parses <= old(m.parses) + 1
  {
    c1, ok1 := m.Fcode();
    c2, ok2 := m.Fcode();
  }

  /** `unprotect` of either kind of quote: the plain quote over the same source. */
  function Unprotect(q: Word): (r: Word)
    requires q.Quote?
    ensures r.Quote? && !r.protected && r.source == q.source
    ensures Equals(r, q) && Equals(q, r)
  {
    Quote(q.source, false)
  }

  /**
   * A quote, protected or not, serialises to its source, is its own copy and
   * deep copy, and equals exactly the quotes over the same source.
   */
  lemma QuoteValue(src: Bytes, p: bool, w: Word)
    ensures Ser(Quote(src, p)) == src
    ensures TypeName(Quote(src, p)) == "*QUOTE*"
    ensures Copy(Quote(src, p)) == Quote(src, p) && DeepCopy(Quote(src, p)) == Quote(src, p)
    ensures Equals(Quote(src, p), w) <==> w.Quote? && w.source == src
    ensures w.Quote? ==> (Equals(Quote(src, p), w) <==> Equals(w, Quote(src, p)))
  {
  }

  /** `Noop` is the protected quote of empty source: its code is nil and it parses. */
  lemma NoopCode(num: Syntax.NumReader)
    ensures Noop.Quote? && Noop.protected && Ser(Noop) == []
    ensures Code(Noop.source, num) == Some([])
  {
  }
}
