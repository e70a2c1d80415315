/**
 * The item codec shared by the List and Dict serialisers (src/gelo/util.go):
 * `EscapeItem` turns one item into text that survives being placed between
 * spaces or braces, `UnescapeItem` reads one such item back from a
 * position, and `SlurpWS` skips blanks.
 *
 * `UnescapeAsWritten` is the scanner exactly as the source writes it: its
 * escape branch ends in `continue` inside a `for ...; pos++` loop, so the
 * byte after every escaped pair is skipped as well.  `Unescape` is the
 * scanner with that skip removed; `UnescapeItem` implements it and the
 * codecs of lists and dicts use it.
 */
module Escape {
  import opened Base

  /** The bytes `EscapeItem` prefixes with a backslash. */
  predicate NeedsEscape(c: byte)
  {
    c == '\\' || c == '"' || c == '{' || c == '}'
  }

  function EscapeByte(c: byte): (r: Bytes)
  {
    if NeedsEscape(c) then ['\\', c] else [c]
  }

  /** The item with every special byte prefixed by a backslash. */
  function EscBody(item: Bytes): (r: Bytes)
    ensures |r| >= |item|
    decreases |item|
  {
    if item == [] then [] else EscBody(item[..|item| - 1]) + EscapeByte(item[|item| - 1])
  }

  /** An item is written between double quotes iff it is empty or holds a blank. */
  predicate NeedsQuotes(item: Bytes)
  {
    item == [] || exists i :: 0 <= i < |item| && IsBlank(item[i])
  }

  /** The encoding of one item. */
  function Escaped(item: Bytes): (r: Bytes)
  {
    if NeedsQuotes(item) then ['"'] + EscBody(item) + ['"'] else EscBody(item)
  }

  /** util.go `EscapeItem`. */
  method EscapeItem(item: Bytes) returns (out: Bytes)
    ensures out == Escaped(item)
  {
    var isStr := false;
    var buf: Bytes := ['"'];
    var pos := 0;
    while pos < |item|
      invariant 0 <= pos <= |item|
      invariant buf == ['"'] + EscBody(item[..pos])
      invariant isStr == BlankBefore(item, pos)
    {
      var cur := item[pos];
      if IsBlank(cur) {
        isStr := true;
      } else if NeedsEscape(cur) {
        buf := buf + ['\\'];
      }
      buf := buf + [cur];
      EscapeStep(item, pos);
      pos := pos + 1;
    }
    assert item[..pos] == item;
    EscapedFromBuffer(item, buf, isStr);
    if isStr || |buf| == 1 {
      out := buf + ['"'];
    } else {
      out := buf[1..];
    }
  }

  /** Some byte before index `n` is blank. */
  predicate BlankBefore(item: Bytes, n: nat)
    requires n <= |item|
  {
    exists i :: 0 <= i < n && IsBlank(item[i])
  }

  lemma EscapeStep(item: Bytes, pos: nat)
    requires pos < |item|
    ensures EscBody(item[..pos + 1]) == EscBody(item[..pos]) + EscapeByte(item[pos])
    ensures BlankBefore(item, pos + 1) == (BlankBefore(item, pos) || IsBlank(item[pos]))
  {
    assert item[..pos + 1][..pos] == item[..pos];
  }

  lemma EscapedFromBuffer(item: Bytes, buf: Bytes, isStr: bool)
    requires buf == ['"'] + EscBody(item)
    requires isStr == BlankBefore(item, |item|)
    ensures (if isStr || |buf| == 1 then buf + ['"'] else buf[1..]) == Escaped(item)
  {
    assert |buf| == 1 <==> item == [];
    assert NeedsQuotes(item) <==> item == [] || isStr;
  }

  lemma {:induction false} EscBodyAppend(x: Bytes, y: Bytes)
    ensures EscBody(x + y) == EscBody(x) + EscBody(y)
    decreases |y|
  {
    if y == [] {
      assert x + y == x;
    } else {
      var y' := y[..|y| - 1];
      assert (x + y)[..|x + y| - 1] == x + y';
      EscBodyAppend(x, y');
    }
  }

  lemma EscBodyCons(c: byte, t: Bytes)
    ensures EscBody([c] + t) == EscapeByte(c) + EscBody(t)
  {
    EscBodyAppend([c], t);
    assert [c][..0] == [];
  }

  /** The encoding starts with a double quote exactly when the item needs quotes. */
  lemma EscapedQuotedIff(item: Bytes)
    ensures |Escaped(item)| >= 1 || item == []
    ensures |Escaped(item)| >= 1 ==> (Escaped(item)[0] == '"' <==> NeedsQuotes(item))
    ensures NeedsQuotes(item) ==> Escaped(item)[|Escaped(item)| - 1] == '"'
  {
    if !NeedsQuotes(item) {
      EscBodyCons(item[0], item[1..]);
      assert [item[0]] + item[1..] == item;
    }
  }

  // ---------------------------------------------------------------------
  // Reading one item back

  /**
   * The outcome of reading one item.  The decoded bytes are a type
   * parameter, so that the solver is not handed an ordering fact for every
   * byte of every decoded item.
   */
  datatype Scanned<B> =
    | Item(bytes: B, next: nat)       // the decoded item and the position after it
    | Malformed                       // the source returns (nil, 0, false)
    | OutOfRange                      // `item[pos]` with pos past the end: a Go index panic

  type ItemScan = Scanned<Bytes>

  /** The loop of lines 147-173 as written: an escape advances `pos` by three. */
  function ScanAsWritten(item: Bytes, pos: nat, str: bool, acc: Bytes): (r: ItemScan)
    decreases if pos < |item| then |item| - pos else 0
  {
    if pos >= |item| then Item(acc, pos)
    else if item[pos] == '\\' then
      if pos + 1 >= |item| then Malformed
      else ScanAsWritten(item, pos + 3, str, acc + [item[pos + 1]])
    else if str && item[pos] == '"' then Item(acc, pos + 1)
    else if !str && item[pos] == ' ' then Item(acc, pos)
    else if item[pos] == '}' then (if !str then Item(acc, pos) else Malformed)
    else ScanAsWritten(item, pos + 1, str, acc + [item[pos]])
  }

  /** util.go `UnescapeItem` exactly as written. */
  function UnescapeAsWritten(item: Bytes, pos: nat): (r: ItemScan)
  {
    if pos >= |item| then OutOfRange
    else if item[pos] == '"' then
      if pos + 1 >= |item| then Malformed
      else if item[pos + 1] == '"' then Item([], pos + 2)
      else ScanAsWritten(item, pos + 1, true, [])
    else ScanAsWritten(item, pos, false, [])
  }

  /** The loop of lines 147-173 with an escape consuming exactly two bytes. */
  function Scan(item: Bytes, pos: nat, str: bool, acc: Bytes): (r: ItemScan)
    decreases if pos < |item| then |item| - pos else 0
  {
    if pos >= |item| then Item(acc, pos)
    else if item[pos] == '\\' then
      if pos + 1 >= |item| then Malformed
      else Scan(item, pos + 2, str, acc + [item[pos + 1]])
    else if str && item[pos] == '"' then Item(acc, pos + 1)
    else if !str && item[pos] == ' ' then Item(acc, pos)
    else if item[pos] == '}' then (if !str then Item(acc, pos) else Malformed)
    else Scan(item, pos + 1, str, acc + [item[pos]])
  }

  /** Reads one item starting at `pos`. */
  function Unescape(item: Bytes, pos: nat): (r: ItemScan)
  {
    if pos >= |item| then OutOfRange
    else if item[pos] == '"' then
      if pos + 1 >= |item| then Malformed
      else if item[pos + 1] == '"' then Item([], pos + 2)
      else Scan(item, pos + 1, true, [])
    else Scan(item, pos, false, [])
  }

  /** util.go `UnescapeItem`, with each escape consuming two bytes. */
  method UnescapeItem(item: Bytes, start: nat) returns (r: ItemScan)
    ensures r == Unescape(item, start)
  {
    if start >= |item| {
      return OutOfRange;
    }
    var pos := start;
    var str := false;
    if item[pos] == '"' {
      str := true;
      pos := pos + 1;
      if pos >= |item| {
        return Malformed;
      }
      if item[pos] == '"' {
        return Item([], pos + 1);
      }
    }
    var buf: Bytes := [];
    while pos < |item|
      invariant Scan(item, pos, str, buf) == Unescape(item, start)
      decreases |item| - pos
    {
      if item[pos] == '\\' {
        pos := pos + 1;
        if pos >= |item| {
          return Malformed;
        }
        buf := buf + [item[pos]];
        pos := pos + 1;
        continue;
      }
      if str && item[pos] == '"' {
        pos := pos + 1;
        break;
      }
      if !str && item[pos] == ' ' {
        break;
      }
      if item[pos] == '}' {
        if !str {
          break;
        } else {
          return Malformed;
        }
      }
      buf := buf + [item[pos]];
      pos := pos + 1;
    }
    return Item(buf, pos);
  }

  /** `e` sits in `item` from position `k` on. */
  predicate HasAt(item: Bytes, k: nat, e: Bytes)
  {
    k + |e| <= |item| && forall i | 0 <= i < |e| :: item[k + i] == e[i]
  }

  /** The middle part of a concatenation sits where the first part ends. */
  lemma HasAtMiddle(pre: Bytes, e: Bytes, post: Bytes)
    ensures HasAt(pre + e + post, |pre|, e)
  {
  }

  /** What sits at `k` as two parts sits there part by part. */
  lemma HasAtSplit(item: Bytes, k: nat, x: Bytes, y: Bytes)
    requires HasAt(item, k, x + y)
    ensures HasAt(item, k, x) && HasAt(item, k + |x|, y)
  {
    forall i | 0 <= i < |x| ensures item[k + i] == x[i] { assert (x + y)[i] == x[i]; }
    forall i | 0 <= i < |y| ensures item[k + |x| + i] == y[i] { assert (x + y)[|x| + i] == y[i]; }
  }

  /** One encoded byte is scanned back to that byte. */
  lemma ScanEscapeByte(item: Bytes, k: nat, c: byte, str: bool, acc: Bytes)
    requires HasAt(item, k, EscapeByte(c))
    requires !str ==> !IsBlank(c)
    ensures Scan(item, k, str, acc) == Scan(item, k + |EscapeByte(c)|, str, acc + [c])
  {
    var e := EscapeByte(c);
    assert item[k + 0] == e[0];
    if NeedsEscape(c) {
      assert item[k + 1] == e[1] == c;
    }
  }

  /** No byte of `b` is a blank. */
  predicate NoBlank(b: Bytes)
  {
    forall i :: 0 <= i < |b| ==> !IsBlank(b[i])
  }

  /** The encoding of a non-empty item in place: its first byte's encoding, then the rest's. */
  lemma EscBodyParts(item: Bytes, k: nat, b: Bytes, str: bool)
    requires b != [] && HasAt(item, k, EscBody(b))
    requires !str ==> NoBlank(b)
    ensures HasAt(item, k, EscapeByte(b[0])) && HasAt(item, k + |EscapeByte(b[0])|, EscBody(b[1..]))
    ensures k + |EscapeByte(b[0])| + |EscBody(b[1..])| == k + |EscBody(b)|
    ensures !str ==> !IsBlank(b[0]) && NoBlank(b[1..])
  {
    assert [b[0]] + b[1..] == b;
    EscBodyCons(b[0], b[1..]);
    HasAtSplit(item, k, EscapeByte(b[0]), EscBody(b[1..]));
    if !str {
      forall i | 0 <= i < |b[1..]| ensures !IsBlank(b[1..][i]) { assert b[1..][i] == b[i + 1]; }
    }
  }

  /** The escaped body is scanned back to the item it encodes. */
  lemma {:induction false} ScanEscBody(item: Bytes, k: nat, b: Bytes, str: bool, acc: Bytes)
    requires HasAt(item, k, EscBody(b))
    requires !str ==> NoBlank(b)
    ensures Scan(item, k, str, acc) == Scan(item, k + |EscBody(b)|, str, acc + b)
    decreases |b|
  {
    if b == [] {
      assert acc + b == acc;
    } else {
      EscBodyParts(item, k, b, str);
      var n := k + |EscapeByte(b[0])|;
      ScanEscapeByte(item, k, b[0], str, acc);
      ScanEscBody(item, n, b[1..], str, acc + [b[0]]);
      assert n + |EscBody(b[1..])| == k + |EscBody(b)|;
      assert acc + [b[0]] + b[1..] == acc + b;
    }
  }

  /**
   * Intended round trip: the encoding of `b` read back from position
   * `|pre|` yields `b` and the position just after it, provided that what
   * follows an unquoted encoding is the end, a space or a `}`.
   */
  lemma UnescapeEscaped(pre: Bytes, b: Bytes, rest: Bytes)
    requires NeedsQuotes(b) || rest == [] || rest[0] == ' ' || rest[0] == '}'
    ensures Unescape(pre + Escaped(b) + rest, |pre|) == Item(b, |pre| + |Escaped(b)|)
  {
    if NeedsQuotes(b) {
      UnescapeQuoted(pre, b, rest);
    } else {
      UnescapeUnquoted(pre, b, rest);
    }
  }

  lemma EscBodyHead(b: Bytes)
    requires b != []
    ensures |EscBody(b)| > 0 && EscBody(b)[0] != '"'
  {
    EscBodyCons(b[0], b[1..]);
    assert [b[0]] + b[1..] == b;
  }

  /** An encoding is never empty and never starts with a blank, so `SlurpWS` stops at its first byte. */
  lemma EscapedHeadNotBlank(b: Bytes)
    ensures |Escaped(b)| > 0 && !IsBlank(Escaped(b)[0])
  {
    if !NeedsQuotes(b) {
      EscBodyCons(b[0], b[1..]);
      assert [b[0]] + b[1..] == b;
    }
  }

  /** A successful read ends at or after where it started and within the input. */
  lemma UnescapeAdvances(item: Bytes, start: nat)
    ensures Unescape(item, start).Item? ==> start < |item| && start <= Unescape(item, start).next <= |item|
  {
    if start < |item| {
      if item[start] == '"' {
        if start + 1 < |item| && item[start + 1] != '"' {
          ScanStopsAtTerminator(item, start + 1, true, []);
        }
      } else {
        ScanStopsAtTerminator(item, start, false, []);
      }
    }
  }

  lemma UnescapeQuoted(pre: Bytes, b: Bytes, rest: Bytes)
    requires NeedsQuotes(b)
    ensures Unescape(pre + Escaped(b) + rest, |pre|) == Item(b, |pre| + |Escaped(b)|)
  {
    var body := EscBody(b);
    var item := pre + Escaped(b) + rest;
    var p := |pre|;
    HasAtMiddle(pre, Escaped(b), rest);
    HasAtSplit(item, p, ['"'] + body, ['"']);
    HasAtSplit(item, p, ['"'], body);
    assert item[p + 0] == '"';
    assert item[p + 1 + |body| + 0] == '"';
    if b != [] {
      EscBodyHead(b);
      assert item[p + 1 + 0] == body[0] != '"';
      ScanEscBody(item, p + 1, b, true, []);
      assert [] + b == b;
      ScanAtClosingQuote(item, p + 1 + |body|, b);
    }
  }

  lemma ScanAtClosingQuote(item: Bytes, q: nat, acc: Bytes)
    requires q < |item| && item[q] == '"'
    ensures Scan(item, q, true, acc) == Item(acc, q + 1)
  {
  }

  lemma ScanAtTerminator(item: Bytes, q: nat, acc: Bytes)
    requires q == |item| || (q < |item| && (item[q] == ' ' || item[q] == '}'))
    ensures Scan(item, q, false, acc) == Item(acc, q)
  {
  }

  lemma UnescapeUnquoted(pre: Bytes, b: Bytes, rest: Bytes)
    requires !NeedsQuotes(b)
    requires rest == [] || rest[0] == ' ' || rest[0] == '}'
    ensures Unescape(pre + Escaped(b) + rest, |pre|) == Item(b, |pre| + |Escaped(b)|)
  {
    var body := EscBody(b);
    var item := pre + body + rest;
    var p := |pre|;
    HasAtMiddle(pre, body, rest);
    EscBodyHead(b);
    assert item[p + 0] == body[0] != '"';
    ScanEscBody(item, p, b, false, []);
    assert [] + b == b;
    assert p + |body| < |item| ==> item[p + |body|] == rest[0];
    ScanAtTerminator(item, p + |body|, b);
  }

  /** The whole-input round trip `UnescapeItem(EscapeItem(b), 0) == b`. */
  lemma UnescapeEscapedWhole(b: Bytes)
    ensures Unescape(Escaped(b), 0) == Item(b, |Escaped(b)|)
  {
    UnescapeEscaped([], b, []);
    assert [] + Escaped(b) + [] == Escaped(b);
  }

  /** As written, the byte after an escaped pair is lost: `{x` encodes to `\{x` and reads back as `{`. */
  lemma UnescapeAsWrittenDropsByte()
    ensures Escaped("{x") == "\\{x"
    ensures UnescapeAsWritten(Escaped("{x"), 0) == Item("{", 3)
    ensures Unescape(Escaped("{x"), 0) == Item("{x", 3)
  {
    assert !NeedsQuotes("{x");
    assert EscBody("{") == "\\{";
    assert UnescapeAsWritten(Escaped("{x"), 0).bytes == "{";
    assert Unescape(Escaped("{x"), 0).bytes == "{x";
  }

  /** The scanner as written never moves back, and stays put only at a blank or `}` it stops on. */
  lemma {:induction false} ScanAsWrittenAdvances(item: Bytes, pos: nat, str: bool, acc: Bytes)
    ensures var r := ScanAsWritten(item, pos, str, acc);
      r.Item? ==> pos <= r.next && (r.next == pos ==> pos >= |item| || item[pos] == ' ' || item[pos] == '}')
    decreases if pos < |item| then |item| - pos else 0
  {
    if pos < |item| {
      if item[pos] == '\\' {
        if pos + 1 < |item| {
          ScanAsWrittenAdvances(item, pos + 3, str, acc + [item[pos + 1]]);
        }
      } else if !(str && item[pos] == '"') && !(!str && item[pos] == ' ') && item[pos] != '}' {
        ScanAsWrittenAdvances(item, pos + 1, str, acc + [item[pos]]);
      }
    }
  }

  /** A read as written starts inside the input and moves on, unless it stops at once on a blank or `}`. */
  lemma UnescapeAsWrittenAdvances(item: Bytes, start: nat)
    ensures var r := UnescapeAsWritten(item, start);
      r.Item? ==> start < |item| && start <= r.next && (r.next == start ==> item[start] == ' ' || item[start] == '}')
  {
    if start < |item| {
      if item[start] == '"' {
        if start + 1 < |item| && item[start + 1] != '"' {
          ScanAsWrittenAdvances(item, start + 1, true, []);
        }
      } else {
        ScanAsWrittenAdvances(item, start, false, []);
      }
    }
  }

  /** On text without backslashes the scanner as written and the corrected one agree. */
  lemma {:induction false} ScanAgreesWithoutEscapes(item: Bytes, pos: nat, str: bool, acc: Bytes)
    requires forall i :: 0 <= i < |item| ==> item[i] != '\\'
    ensures ScanAsWritten(item, pos, str, acc) == Scan(item, pos, str, acc)
    decreases if pos < |item| then |item| - pos else 0
  {
    if pos < |item| && !(str && item[pos] == '"') && !(!str && item[pos] == ' ') && item[pos] != '}' {
      ScanAgreesWithoutEscapes(item, pos + 1, str, acc + [item[pos]]);
    }
  }

  /** A quoted item that meets a `}` before its closing quote is malformed. */
  lemma {:induction false} QuotedBraceIsMalformed(pre: Bytes, b: Bytes, rest: Bytes)
    requires forall i :: 0 <= i < |b| ==> !NeedsEscape(b[i])
    ensures Unescape(pre + ['"'] + b + ['}'] + rest, |pre|) == Malformed
  {
    var item := pre + ['"'] + b + ['}'] + rest;
    var p := |pre|;
    assert item[p] == '"';
    if b == [] {
      assert item[p + 1] == '}';
    } else {
      assert item[p + 1] == b[0];
    }
    ScanPlainRun(item, p + 1, b, true, []);
    assert item[p + 1 + |b|] == '}';
  }

  /** A trailing backslash makes the item malformed. */
  lemma {:induction false} TrailingBackslashIsMalformed(pre: Bytes, b: Bytes, str: bool)
    requires forall i :: 0 <= i < |b| ==> !NeedsEscape(b[i]) && b[i] != ' '
    ensures Scan(pre + b + ['\\'], |pre|, str, []) == Malformed
  {
    var item := pre + b + ['\\'];
    ScanPlainRun(item, |pre|, b, str, []);
    assert item[|pre| + |b|] == '\\';
  }

  /** A run of bytes with nothing special in it is copied to the output. */
  lemma {:induction false} ScanPlainRun(item: Bytes, p: nat, b: Bytes, str: bool, acc: Bytes)
    requires p + |b| <= |item| && item[p..p + |b|] == b
    requires forall i :: 0 <= i < |b| ==> !NeedsEscape(b[i]) && (!str ==> b[i] != ' ')
    ensures Scan(item, p, str, acc) == Scan(item, p + |b|, str, acc + b)
    decreases |b|
  {
    if b == [] {
      assert acc + b == acc;
    } else {
      assert item[p] == b[0];
      assert item[p + 1..p + |b|] == b[1..];
      assert acc + [b[0]] + b[1..] == acc + b;
      ScanPlainRun(item, p + 1, b[1..], str, acc + [b[0]]);
    }
  }

  /** An unquoted item ends at the end of the input, a space or a `}`; a quoted one just after a `"` or at the end. */
  lemma {:induction false} ScanStopsAtTerminator(item: Bytes, pos: nat, str: bool, acc: Bytes)
    requires pos <= |item|
    ensures Scan(item, pos, str, acc).Item? ==>
      var n := Scan(item, pos, str, acc).next;
      pos <= n <= |item| &&
      (!str ==> n == |item| || item[n] == ' ' || item[n] == '}') &&
      (str ==> n == |item| || (n >= 1 && item[n - 1] == '"'))
    decreases |item| - pos
  {
    if pos < |item| {
      if item[pos] == '\\' {
        if pos + 2 <= |item| {
          ScanStopsAtTerminator(item, pos + 2, str, acc + [item[pos + 1]]);
        }
      } else if !(str && item[pos] == '"') && !(!str && item[pos] == ' ') && item[pos] != '}' {
        ScanStopsAtTerminator(item, pos + 1, str, acc + [item[pos]]);
      }
    }
  }

  /** The source accepts an unterminated quoted item. */
  lemma UnterminatedQuoteAccepted()
    ensures Unescape("\"ab", 0) == Item("ab", 3)
  {
    assert Unescape("\"ab", 0).bytes == "ab";
  }

  // ---------------------------------------------------------------------
  // Skipping blanks

  /** The first index at or after `pos` that does not hold a blank. */
  function SkipBlanks(s: Bytes, pos: nat): (r: nat)
    ensures pos >= |s| ==> r == pos
    ensures pos < |s| ==> pos <= r <= |s|
    ensures r < |s| ==> !IsBlank(s[r])
    decreases |s| - pos
  {
    if pos >= |s| || !IsBlank(s[pos]) then pos else SkipBlanks(s, pos + 1)
  }

  /** Every byte `SkipBlanks` passes over is blank. */
  lemma {:induction false} SkipBlanksSkipsBlanks(s: Bytes, pos: nat)
    ensures forall i :: pos <= i < SkipBlanks(s, pos) ==> IsBlank(s[i])
    decreases |s| - pos
  {
    if pos < |s| && IsBlank(s[pos]) {
      SkipBlanksSkipsBlanks(s, pos + 1);
    }
  }

  /** util.go `SlurpWS`. */
  method SlurpWS(s: Bytes, start: nat) returns (pos: nat)
    ensures pos == SkipBlanks(s, start)
  {
    pos := start;
    if pos >= |s| {
      return;
    }
    while true
      invariant start <= pos < |s|
      invariant SkipBlanks(s, pos) == SkipBlanks(s, start)
      decreases |s| - pos
    {
      if IsBlank(s[pos]) {
        pos := pos + 1;
        if pos >= |s| {
          return;
        }
      } else {
        return;
      }
    }
  }
}
