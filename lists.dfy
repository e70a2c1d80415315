/**
 * List operations of src/gelo/list.go over the value model: a `*List`
 * chain is the sequence of its values (nil, `EmptyList`, is `[]`).  The
 * loops that build chains cell by cell are methods proved against the
 * functions of module Words or against the specification functions below.
 */
module Lists {
  import opened Base
  import opened Escape
  import opened Words

  /** list.go `NewListFrom`: the first element is kept as it is and every later one is `Copy`'d. */
  method NewListFrom(s: seq<Word>) returns (r: seq<Word>)
    ensures |r| == |s|
    ensures s != [] ==> r[0] == s[0]
    ensures forall i :: 0 < i < |s| ==> r[i] == Copy(s[i])
  {
    if |s| == 0 {
      return [];
    }
    r := [s[0]];
    var i := 1;
    while i < |s|
      invariant 1 <= i <= |s| && |r| == i && r[0] == s[0]
      invariant forall j :: 0 < j < i ==> r[j] == Copy(s[j])
    {
      r := r + [Copy(s[i])];
      i := i + 1;
    }
  }

  /** Copying elements keeps the serialisation of the list they form. */
  lemma CopiedElementsKeepSer(s: seq<Word>, r: seq<Word>)
    requires |r| == |s|
    requires forall i :: 0 <= i < |s| ==> r[i] == s[i] || r[i] == Copy(s[i])
    ensures Ser(List(r)) == Ser(List(s))
  {
    forall i | 0 <= i < |s|
      ensures Ser(r[i]) == Ser(s[i])
    {
      CopyProperties(s[i]);
    }
    SameItemSers(r, s);
  }

  /** list.go `Slice`: the values in order, in an array of length `Len`. */
  method Slice(l: seq<Word>) returns (a: array<Word>)
    ensures fresh(a)
    ensures a[..] == l
  {
    a := new Word[|l|](_ => Null);
    var i := 0;
    while i < |l|
      invariant 0 <= i <= |l|
      invariant a[..i] == l[..i]
      modifies a
    {
      a[i] := l[i];
      i := i + 1;
    }
  }

  /** list.go `Len`: the number of cells. */
  method Len(l: seq<Word>) returns (count: nat)
    ensures count == |l|
  {
    count := 0;
    while count < |l|
      invariant count <= |l|
    {
      count := count + 1;
    }
  }

  /** list.go `Map`: `f` applied to every value, in order. */
  method Map(l: seq<Word>, f: Word -> Word) returns (r: seq<Word>)
    ensures |r| == |l|
    ensures forall i :: 0 <= i < |l| ==> r[i] == f(l[i])
  {
    r := [];
    var i := 0;
    while i < |l|
      invariant 0 <= i <= |l| && |r| == i
      invariant forall j :: 0 <= j < i ==> r[j] == f(l[j])
    {
      r := r + [f(l[i])];
      i := i + 1;
    }
  }

  /** list.go `MapOrApply`: Null for the empty list, `f(head)` for a singleton, otherwise the mapped list. */
  function MapOrApply(l: seq<Word>, f: Word -> Word): (r: Word)
    ensures l == [] ==> r == Null
    ensures |l| == 1 ==> r == f(l[0])
    ensures |l| > 1 ==> r.List? && |r.items| == |l| && forall i :: 0 <= i < |l| ==> r.items[i] == f(l[i])
  {
    if l == [] then Null
    else if |l| == 1 then f(l[0])
    else List(seq(|l|, i requires 0 <= i < |l| => f(l[i])))
  }

  /** list.go `AsList`: a list is returned as it is, anything else as a singleton. */
  function AsList(w: Word): (r: seq<Word>)
    ensures w.List? ==> r == w.items
    ensures !w.List? ==> r == [w]
  {
    if w.List? then w.items else [w]
  }

  /** list.go `Ser`. */
  method SerList(l: seq<Word>) returns (out: Bytes)
    ensures out == Ser(List(l))
  {
    ghost var parts := ItemSers(l);
    out := "{";
    if l != [] {
      var i := 0;
      while i < |l| - 1
        invariant 0 <= i <= |l| - 1
        invariant out == "{" + Spaced(parts[..i])
      {
        var ser := Ser(l[i]);
        var bytes := EscapeItem(ser);
        AppendSpaced(parts, i, out, bytes);
        out := out + bytes + " ";
        i := i + 1;
      }
      var ser := Ser(l[i]);
      var bytes := EscapeItem(ser);
      AppendLast(parts, out, bytes);
      out := out + bytes;
    }
    ListSer(l);
    out := out + "}";
  }

  lemma AppendSpaced(parts: seq<Bytes>, i: nat, out: Bytes, bytes: Bytes)
    requires i < |parts| && out == "{" + Spaced(parts[..i]) && bytes == parts[i]
    ensures out + bytes + " " == "{" + Spaced(parts[..i + 1])
  {
    assert parts[..i + 1][..i] == parts[..i];
    assert Spaced(parts[..i + 1]) == Spaced(parts[..i]) + bytes + " ";
    assert out + bytes + " " == "{" + (Spaced(parts[..i]) + bytes + " ");
  }

  lemma AppendLast(parts: seq<Bytes>, out: Bytes, bytes: Bytes)
    requires parts != [] && out == "{" + Spaced(parts[..|parts| - 1]) && bytes == parts[|parts| - 1]
    ensures out + bytes == "{" + Join(parts, " ")
  {
    SpacedJoin(parts);
    AppendAssoc("{", Spaced(parts[..|parts| - 1]), bytes);
  }

  /** Each part followed by a space. */
  function Spaced(parts: seq<Bytes>): Bytes
  {
    if parts == [] then [] else Spaced(parts[..|parts| - 1]) + parts[|parts| - 1] + " "
  }

  lemma {:induction false} SpacedJoin(parts: seq<Bytes>)
    requires parts != []
    ensures Spaced(parts[..|parts| - 1]) + parts[|parts| - 1] == Join(parts, " ")
    decreases |parts|
  {
    var n := |parts|;
    if n > 1 {
      var init := parts[..n - 1];
      SpacedJoin(init);
      assert init[..|init| - 1] == parts[..n - 2];
      assert init + [parts[n - 1]] == parts;
      JoinAppend(init, parts[n - 1], " ");
    }
  }

  /** list.go `Copy`: fresh cells holding the same values. */
  method CopyList(l: seq<Word>) returns (r: seq<Word>)
    ensures List(r) == Copy(List(l))
  {
    r := [];
    var i := 0;
    while i < |l|
      invariant 0 <= i <= |l| && r == l[..i]
    {
      r := r + [l[i]];
      i := i + 1;
    }
  }

  /** list.go `DeepCopy`: fresh cells holding deep copies of the values. */
  method DeepCopyList(l: seq<Word>) returns (r: seq<Word>)
    ensures List(r) == DeepCopy(List(l))
  {
    r := [];
    var i := 0;
    while i < |l|
      invariant 0 <= i <= |l| && |r| == i
      invariant forall j :: 0 <= j < i ==> r[j] == DeepCopy(l[j])
    {
      r := r + [DeepCopy(l[i])];
      i := i + 1;
    }
  }

  // ---------------------------------------------------------------------
  // Unserialisation

  /** Where the item loop of `UnserializeList` (lines 50-64) stops. */
  datatype ListScan = Scanned(items: seq<Word>, pos: nat) | ScanNotOk | ScanCrash

  /** The item loop of `UnserializeList`, from position `pos` with the items `acc` read so far. */
  function ItemLoop(ser: Bytes, pos: nat, acc: seq<Word>): (r: ListScan)
    requires pos <= |ser|
    decreases |ser| - pos
  {
    if pos >= |ser| then Scanned(acc, pos)
    else
      var start := SkipBlanks(ser, pos);
      match Unescape(ser, start)
      case OutOfRange => ScanCrash
      case Malformed => ScanNotOk
      case Item(s, next) =>
        if next < |ser| && ser[next] != ' ' then ScanNotOk
        else
          UnescapeAdvances(ser, start);
          ItemLoop(ser, SkipBlanks(ser, next), acc + [Sym(s)])
  }

  /** list.go `UnserializeList(ser, enc)`. */
  function Unserialized(ser: Bytes, enc: bool): Res<seq<Word>>
  {
    var pos := SkipBlanks(ser, 0);
    if enc && pos >= |ser| then Crash
    else if enc && ser[pos] != '{' then NotOk
    else
      match ItemLoop(ser, if enc then pos + 1 else pos, [])
      case ScanCrash => Crash
      case ScanNotOk => NotOk
      case Scanned(items, end) =>
        if enc && end >= |ser| then Crash
        else if enc && ser[end] != '}' then NotOk
        else if SkipBlanks(ser, end) != |ser| then NotOk
        else Ok(items)
  }

  /** list.go `UnserializeList`. */
  method UnserializeList(ser: Bytes, enc: bool) returns (r: Res<seq<Word>>)
    ensures r == Unserialized(ser, enc)
  {
    var pos := SlurpWS(ser, 0);
    if enc {
      if pos >= |ser| {
        return Crash;
      }
      if ser[pos] != '{' {
        return NotOk;
      }
      pos := pos + 1;
    }
    var items := [];
    ghost var from := pos;
    while pos < |ser|
      invariant pos <= |ser|
      invariant ItemLoop(ser, pos, items) == ItemLoop(ser, from, [])
      decreases |ser| - pos
    {
      var start := SlurpWS(ser, pos);
      var scan := UnescapeItem(ser, start);
      if scan.OutOfRange? {
        return Crash;
      }
      if scan.Malformed? || (scan.next < |ser| && ser[scan.next] != ' ') {
        return NotOk;
      }
      UnescapeAdvances(ser, start);
      pos := SlurpWS(ser, scan.next);
      items := items + [Sym(scan.bytes)];
    }
    if enc {
      // The loop leaves `pos == len(ser)`: the closing-brace test indexes past the end.
      return Crash;
    }
    pos := SlurpWS(ser, pos);
    if pos != |ser| {
      return NotOk;
    }
    return Ok(items);
  }

  /** list.go `UnserializeListFrom`: a symbol is read with its braces, a quote's source without; other words fail. */
  function UnserializedFrom(w: Word): (r: Res<seq<Word>>)
    ensures !w.Symbol? && !w.Quote? ==> r == NotOk
  {
    match w
    case Symbol(b, _) => Unserialized(b, true)
    case Quote(src, _) => Unserialized(src, false)
    case _ => NotOk
  }

  /**
   * The item loop as written: items are read by `UnescapeAsWritten`, whose
   * position can pass the end of the input after a final escape.
   */
  function ItemLoopAsWritten(ser: Bytes, pos: nat, acc: seq<Word>): (r: ListScan)
    decreases if pos < |ser| then |ser| - pos else 0
  {
    if pos >= |ser| then Scanned(acc, pos)
    else
      var start := SkipBlanks(ser, pos);
      match UnescapeAsWritten(ser, start)
      case OutOfRange => ScanCrash
      case Malformed => ScanNotOk
      case Item(s, next) =>
        if next < |ser| && ser[next] != ' ' then ScanNotOk
        else
          UnescapeAsWrittenAdvances(ser, start);
          ItemLoopAsWritten(ser, SkipBlanks(ser, next), acc + [Sym(s)])
  }

  /** list.go `UnserializeList(ser, enc)` as written, over `UnescapeAsWritten`. */
  function UnserializedAsWritten(ser: Bytes, enc: bool): Res<seq<Word>>
  {
    var pos := SkipBlanks(ser, 0);
    if enc && pos >= |ser| then Crash
    else if enc && ser[pos] != '{' then NotOk
    else
      match ItemLoopAsWritten(ser, if enc then pos + 1 else pos, [])
      case ScanCrash => Crash
      case ScanNotOk => NotOk
      case Scanned(items, end) =>
        if enc && end >= |ser| then Crash
        else if enc && ser[end] != '}' then NotOk
        else if SkipBlanks(ser, end) != |ser| then NotOk
        else Ok(items)
  }

  /** list.go `UnserializeListFrom` as written. */
  function UnserializedFromAsWritten(w: Word): (r: Res<seq<Word>>)
    ensures !w.Symbol? && !w.Quote? ==> r == NotOk
  {
    match w
    case Symbol(b, _) => UnserializedAsWritten(b, true)
    case Quote(src, _) => UnserializedAsWritten(src, false)
    case _ => NotOk
  }

  /**
   * As written, the list holding the one symbol `{x` does not read back: its
   * items are written as `\{x`, and the scanner drops the `x` after the
   * escaped brace.  The corrected reader gives the symbol back.
   */
  lemma ListSerRoundTripFailsAsWritten(protected: bool)
    ensures Join(ItemSers([Sym("{x")]), " ") == "\\{x"
    ensures UnserializedFromAsWritten(Quote("\\{x", protected)) == Ok([Sym("{")])
    ensures UnserializedFrom(Quote("\\{x", protected)) == Ok([Sym("{x")])
  {
    ListSerRoundTrip([Sym("{x")], protected);
    UnescapeAsWrittenDropsByte();
    var ser: Bytes := "\\{x";
    assert SkipBlanks(ser, 0) == 0;
    assert SkipBlanks(ser, 3) == 3;
    assert ItemLoopAsWritten(ser, 3, [Sym("{")]) == Scanned([Sym("{")], 3);
    assert ItemLoopAsWritten(ser, 0, []) == Scanned([Sym("{")], 3);
    assert Sers([Sym("{x")]) == ["{x"];
    assert Syms(["{x"]) == [Sym("{x")];
  }

  /** The item loop only ever stops at the end of the input. */
  lemma {:induction false} ItemLoopEndsAtEnd(ser: Bytes, pos: nat, acc: seq<Word>)
    requires pos <= |ser|
    ensures ItemLoop(ser, pos, acc).Scanned? ==> ItemLoop(ser, pos, acc).pos == |ser|
    decreases |ser| - pos
  {
    if pos < |ser| {
      var start := SkipBlanks(ser, pos);
      var scan := Unescape(ser, start);
      if scan.Item? && !(scan.next < |ser| && ser[scan.next] != ' ') {
        UnescapeAdvances(ser, start);
        ItemLoopEndsAtEnd(ser, SkipBlanks(ser, scan.next), acc + [Sym(scan.bytes)]);
      }
    }
  }

  /**
   * With `enc` set, unserialisation never succeeds: the closing-brace test
   * of line 65 always indexes one past the end.  So `{}` is rejected, `{`
   * crashes, and a symbol never unserialises to a list.
   */
  lemma EncodedNeverUnserializes(ser: Bytes)
    ensures !Unserialized(ser, true).Ok?
    ensures !UnserializedFrom(Sym(ser)).Ok?
  {
    var pos := SkipBlanks(ser, 0);
    if pos < |ser| && ser[pos] == '{' {
      ItemLoopEndsAtEnd(ser, pos + 1, []);
    }
  }

  lemma EncodedExamples()
    ensures Unserialized("{}", true) == NotOk
    ensures Unserialized("{", true) == Crash
    ensures Unserialized("", true) == Crash
  {
    assert SkipBlanks("{}", 1) == 1;
    assert Unescape("{}", 1) == Item([], 1);
  }

  /** The end of `s` once its trailing blanks are dropped. */
  function TrimmedEnd(s: Bytes): (n: nat)
    ensures n <= |s| && (n > 0 ==> !IsBlank(s[n - 1]))
    ensures n < |s| ==> IsBlank(s[|s| - 1])
  {
    if s == [] || !IsBlank(s[|s| - 1]) then |s| else TrimmedEnd(s[..|s| - 1])
  }

  /**
   * `UnserializeList` as meant: with `enc`, the items between the opening
   * `{` and the closing `}`, blanks allowed around the braces, are read as
   * they are without braces.  Without `enc` nothing changes.
   */
  function UnserializedIntended(ser: Bytes, enc: bool): (r: Res<seq<Word>>)
    ensures !enc ==> r == Unserialized(ser, false)
    ensures enc && r.Ok? ==> exists i, j | 0 <= i < j < |ser| :: ser[i] == '{' && ser[j] == '}'
  {
    if !enc then Unserialized(ser, false)
    else
      var from, to := SkipBlanks(ser, 0), TrimmedEnd(ser);
      if from + 2 <= to && ser[from] == '{' && ser[to - 1] == '}' then
        assert ser[from] == '{' && ser[to - 1] == '}';
        Unserialized(ser[from + 1..to - 1], false)
      else NotOk
  }

  /** `UnserializeListFrom` as meant: a symbol is read with its braces by `UnserializedIntended`. */
  function UnserializedFromIntended(w: Word): (r: Res<seq<Word>>)
    ensures !w.Symbol? ==> r == UnserializedFrom(w)
  {
    match w
    case Symbol(b, _) => UnserializedIntended(b, true)
    case Quote(src, _) => Unserialized(src, false)
    case _ => NotOk
  }

  /**
   * As meant, the symbol holding a list's serialisation reads back as
   * that list's items, each as the symbol of its serialisation; as written
   * it never does (`EncodedNeverUnserializes`).
   */
  lemma EncodedRoundTripIntended(xs: seq<Word>)
    ensures UnserializedFromIntended(Sym(Ser(List(xs)))) == Ok(Syms(Sers(xs)))
    ensures !UnserializedFrom(Sym(Ser(List(xs)))).Ok?
  {
    ListSerRoundTrip(xs, false);
    var inner := Join(ItemSers(xs), " ");
    var ser := "{" + inner + "}";
    assert SkipBlanks(ser, 0) == 0;
    assert TrimmedEnd(ser) == |ser|;
    assert ser[1..|ser| - 1] == inner;
    assert ItemSers(xs) == Encodings(Sers(xs));
    UnserializeJoined(Sers(xs));
    EncodedNeverUnserializes(ser);
  }

  /** All of `ws` are dynamic (uninterned) symbols. */
  predicate Dynamic(ws: seq<Word>)
  {
    forall i :: 0 <= i < |ws| ==> ws[i].Symbol? && !ws[i].interned
  }

  /** Every item read is a dynamic symbol. */
  lemma {:induction false} ItemLoopSymbols(ser: Bytes, pos: nat, acc: seq<Word>)
    requires pos <= |ser| && Dynamic(acc)
    ensures ItemLoop(ser, pos, acc).Scanned? ==> Dynamic(ItemLoop(ser, pos, acc).items)
    decreases |ser| - pos
  {
    if pos < |ser| {
      var start := SkipBlanks(ser, pos);
      match Unescape(ser, start)
      case Item(b, next) =>
        if !(next < |ser| && ser[next] != ' ') {
          UnescapeAdvances(ser, start);
          var acc' := acc + [Sym(b)];
          assert Dynamic(acc') by {
            assert acc'[|acc|] == Sym(b);
            assert forall i :: 0 <= i < |acc| ==> acc'[i] == acc[i];
          }
          ItemLoopSymbols(ser, SkipBlanks(ser, next), acc');
        }
      case _ =>
    }
  }

  lemma UnserializedSymbols(ser: Bytes, enc: bool)
    ensures Unserialized(ser, enc).Ok? ==>
      forall i :: 0 <= i < |Unserialized(ser, enc).value| ==>
        Unserialized(ser, enc).value[i].Symbol? && !Unserialized(ser, enc).value[i].interned
  {
    if enc {
      EncodedNeverUnserializes(ser);
    } else if Unserialized(ser, false).Ok? {
      var from := SkipBlanks(ser, 0);
      assert ItemLoop(ser, from, []).Scanned?;
      ItemLoopSymbols(ser, from, []);
      var items := ItemLoop(ser, from, []).items;
      assert Unserialized(ser, enc).value == items;
      assert Dynamic(items);
    }
  }

  /** Blank input without braces is the empty list. */
  lemma BlankIsEmpty(ser: Bytes)
    requires AllBlank(ser)
    ensures Unserialized(ser, false) == Ok([])
  {
    assert SkipBlanks(ser, 0) == |ser|;
  }

  /** The escaped encodings of some items. */
  function Encodings(bs: seq<Bytes>): (r: seq<Bytes>)
    ensures |r| == |bs|
  {
    seq(|bs|, i requires 0 <= i < |bs| => Escaped(bs[i]))
  }

  /** The dynamic symbols holding some items. */
  function Syms(bs: seq<Bytes>): (r: seq<Word>)
    ensures |r| == |bs|
  {
    seq(|bs|, i requires 0 <= i < |bs| => Sym(bs[i]))
  }

  lemma SkipAtNonBlank(s: Bytes, pos: nat)
    requires pos < |s| && !IsBlank(s[pos])
    ensures SkipBlanks(s, pos) == pos
  {
  }

  lemma SkipNextItem(ser: Bytes, p: nat)
    requires p + 1 < |ser| && ser[p] == ' ' && !IsBlank(ser[p + 1])
    ensures SkipBlanks(ser, p) == p + 1
  {
  }

  /** Unfolding the item loop once, at an item that reads successfully and is followed by the end or by one space and the next item. */
  lemma ItemLoopUnfold(ser: Bytes, p: nat, acc: seq<Word>, b: Bytes, next: nat)
    requires p < |ser| && SkipBlanks(ser, p) == p && Unescape(ser, p) == Item(b, next)
    requires next == |ser| || (next + 1 < |ser| && ser[next] == ' ' && !IsBlank(ser[next + 1]))
    ensures ItemLoop(ser, p, acc) == ItemLoop(ser, if next == |ser| then next else next + 1, acc + [Sym(b)])
  {
    if next < |ser| {
      SkipNextItem(ser, next);
    }
    UnescapeAdvances(ser, p);
  }

  /**
   * `bs` can be read item by item from position `p` of `ser`: each item
   * starts at a non-blank byte, reads back as the next element of `bs`, and
   * is followed by the end of the input or by one space and the next item.
   */
  predicate ItemsAt(ser: Bytes, p: nat, bs: seq<Bytes>)
    decreases |bs|
  {
    bs != [] && p < |ser| && SkipBlanks(ser, p) == p &&
    Unescape(ser, p).Item? && Unescape(ser, p).bytes == bs[0] &&
    var next := Unescape(ser, p).next;
    (|bs| == 1 ==> next == |ser|) &&
    (|bs| > 1 ==> next + 1 < |ser| && ser[next] == ' ' && !IsBlank(ser[next + 1]) && ItemsAt(ser, next + 1, bs[1..]))
  }

  /** The item loop reads such items as their symbols. */
  lemma {:induction false} ItemLoopItemsAt(ser: Bytes, p: nat, bs: seq<Bytes>, acc: seq<Word>)
    requires ItemsAt(ser, p, bs)
    ensures ItemLoop(ser, p, acc) == Scanned(acc + Syms(bs), |ser|)
    decreases |bs|
  {
    var next := Unescape(ser, p).next;
    ItemLoopUnfold(ser, p, acc, bs[0], next);
    if |bs| == 1 {
      assert Syms(bs) == [Sym(bs[0])];
    } else {
      ItemLoopItemsAt(ser, next + 1, bs[1..], acc + [Sym(bs[0])]);
      assert acc + [Sym(bs[0])] + Syms(bs[1..]) == acc + Syms(bs);
    }
  }

  /** The joined encodings of two or more items: the first encoding, a space, and the joined rest, which starts with a non-blank. */
  lemma JoinedTail(bs: seq<Bytes>)
    requires |bs| > 1
    ensures Join(Encodings(bs), " ") == Escaped(bs[0]) + (" " + Join(Encodings(bs[1..]), " "))
    ensures |Join(Encodings(bs[1..]), " ")| >= 1 && !IsBlank(Join(Encodings(bs[1..]), " ")[0])
  {
    assert Encodings(bs)[1..] == Encodings(bs[1..]);
    assert Encodings(bs[1..])[0] == Escaped(bs[1]);
    JoinHead(Encodings(bs[1..]), " ");
    EscapedHeadNotBlank(bs[1]);
  }

  /** An encoding placed after `pre` is read back from `|pre|` without skipping anything. */
  lemma EncodingAt(ser: Bytes, pre: Bytes, b: Bytes, rest: Bytes)
    requires ser == pre + Escaped(b) + rest
    requires rest == [] || rest[0] == ' '
    ensures |pre| < |ser| && SkipBlanks(ser, |pre|) == |pre|
    ensures Unescape(ser, |pre|) == Item(b, |pre| + |Escaped(b)|)
  {
    EscapedHeadNotBlank(b);
    assert ser[|pre|] == Escaped(b)[0];
    SkipAtNonBlank(ser, |pre|);
    UnescapeEscaped(pre, b, rest);
  }

  /** The joined encodings of `bs`, after any prefix, are such items. */
  lemma {:induction false} JoinedItemsAt(ser: Bytes, pre: Bytes, bs: seq<Bytes>)
    requires bs != [] && ser == pre + Join(Encodings(bs), " ")
    ensures ItemsAt(ser, |pre|, bs)
    decreases |bs|
  {
    var e := Escaped(bs[0]);
    if |bs| == 1 {
      assert ser == pre + e + [];
      EncodingAt(ser, pre, bs[0], []);
    } else {
      var next := |pre| + |e|;
      var pre' := pre + e + " ";
      HeadItem(ser, pre, bs, e, pre', next);
      JoinedItemsAt(ser, pre', bs[1..]);
      ItemsAtCons(ser, |pre|, bs, next);
    }
  }

  /** The first of two or more joined encodings reads back as its item, followed by one space and a non-blank. */
  lemma HeadItem(ser: Bytes, pre: Bytes, bs: seq<Bytes>, e: Bytes, pre': Bytes, next: nat)
    requires |bs| > 1 && ser == pre + Join(Encodings(bs), " ")
    requires e == Escaped(bs[0]) && pre' == pre + e + " " && next == |pre| + |e|
    ensures ser == pre' + Join(Encodings(bs[1..]), " ") && |pre'| == next + 1 < |ser|
    ensures SkipBlanks(ser, |pre|) == |pre| && Unescape(ser, |pre|) == Item(bs[0], next)
    ensures ser[next] == ' ' && !IsBlank(ser[next + 1])
  {
    var rest := Join(Encodings(bs[1..]), " ");
    JoinedTail(bs);
    EncodingThenRest(ser, pre, e, rest);
    EncodingAt(ser, pre, bs[0], " " + rest);
  }

  /** An item followed by one space and more items starts such items. */
  lemma ItemsAtCons(ser: Bytes, p: nat, bs: seq<Bytes>, next: nat)
    requires |bs| > 1 && p < |ser| && SkipBlanks(ser, p) == p && Unescape(ser, p) == Item(bs[0], next)
    requires next + 1 < |ser| && ser[next] == ' ' && !IsBlank(ser[next + 1]) && ItemsAt(ser, next + 1, bs[1..])
    ensures ItemsAt(ser, p, bs)
  {
  }

  /** Where one encoding, a space and the rest sit in `pre + (e + (" " + rest))`. */
  lemma EncodingThenRest(ser: Bytes, pre: Bytes, e: Bytes, rest: Bytes)
    requires ser == pre + (e + (" " + rest)) && rest != []
    ensures ser == pre + e + (" " + rest) && ser == (pre + e + " ") + rest
    ensures |pre + e + " "| == |pre| + |e| + 1 < |ser|
    ensures ser[|pre| + |e|] == ' ' && ser[|pre| + |e| + 1] == rest[0]
  {
    assert pre + (e + (" " + rest)) == pre + e + (" " + rest) == (pre + e + " ") + rest;
  }

  /** The round trip: unserialising the joined encodings of some items gives back those items as symbols. */
  lemma UnserializeJoined(bs: seq<Bytes>)
    ensures Unserialized(Join(Encodings(bs), " "), false) == Ok(Syms(bs))
  {
    var ser := Join(Encodings(bs), " ");
    if bs != [] {
      assert ser == [] + ser;
      JoinedItemsAt(ser, [], bs);
      ItemLoopItemsAt(ser, 0, bs, []);
      assert [] + Syms(bs) == Syms(bs);
      assert ItemLoop(ser, SkipBlanks(ser, 0), []) == Scanned(Syms(bs), |ser|);
    } else {
      assert Syms(bs) == [];
    }
  }

  /** The serialisations of some words. */
  function Sers(xs: seq<Word>): (r: seq<Bytes>)
    ensures |r| == |xs|
  {
    seq(|xs|, i requires 0 <= i < |xs| => Ser(xs[i]))
  }

  /**
   * A list's serialisation without its braces, held as a quote's source,
   * unserialises to symbols holding the serialisations of its items, and so
   * to a list with the same serialisation.
   */
  lemma ListSerRoundTrip(xs: seq<Word>, protected: bool)
    ensures Ser(List(xs)) == "{" + Join(ItemSers(xs), " ") + "}"
    ensures UnserializedFrom(Quote(Join(ItemSers(xs), " "), protected)) == Ok(Syms(Sers(xs)))
    ensures Ser(List(Syms(Sers(xs)))) == Ser(List(xs))
  {
    ListSer(xs);
    assert ItemSers(xs) == Encodings(Sers(xs));
    UnserializeJoined(Sers(xs));
    SameItemSers(Syms(Sers(xs)), xs);
  }
}
