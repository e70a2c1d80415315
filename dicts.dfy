/**
 * src/gelo/dict.go: the mutable `*Dict` object with its cached
 * serialisation, and the dict codec.  A dict stored inside a `Word` is the
 * value of its map (module Words); `Dictionary` is the object the source
 * mutates in place.
 */
module Dicts {
  import opened Base
  import opened Escape
  import opened Words

  /** A `*Dict`: its map and its cached serialisation (`nil` when absent). */
  class Dictionary {
    var rep: map<Bytes, Word>
    var ser: Option<Bytes>

    /** The cache, when present, is the serialisation of the current map. */
    ghost predicate Valid()
      reads this
    {
      ser.Some? ==> ser.value == Words.Ser(Dict(rep))
    }

    /** dict.go `NewDict`. */
    constructor()
      ensures rep == map[] && ser == None
      ensures Valid()
    {
      rep := map[];
      ser := None;
    }

    /** dict.go `StrGet`: the bound value, or Null and false for a missing key. */
    method StrGet(s: Bytes) returns (w: Word, ok: bool)
      ensures ok <==> s in rep
      ensures w == if ok then rep[s] else Null
    {
      if s in rep {
        return rep[s], true;
      }
      return Null, false;
    }

    /** dict.go `Get`: keyed by the serialisation of the name. */
    method Get(name: Word) returns (w: Word, ok: bool)
      ensures ok <==> Words.Ser(name) in rep
      ensures w == if ok then rep[Words.Ser(name)] else Null
    {
      var key := Words.Ser(name);
      w, ok := StrGet(key);
    }

    /** dict.go `StrHas`. */
    predicate StrHas(s: Bytes)
      reads this
    {
      s in rep
    }

    /** dict.go `Has`: keyed by the serialisation of the name. */
    predicate Has(name: Word)
      reads this
    {
      StrHas(Words.Ser(name))
    }

    /** dict.go `StrSet`: binds the key and drops the cached serialisation. */
    method StrSet(s: Bytes, w: Word)
      modifies this
      ensures rep == old(rep)[s := w] && ser == None
      ensures Valid()
    {
      ser := None;
      rep := rep[s := w];
    }

    /** dict.go `Set`: keyed by the serialisation of the name. */
    method Set(name: Word, value: Word)
      modifies this
      ensures rep == old(rep)[Words.Ser(name) := value] && ser == None
      ensures Valid()
    {
      var key := Words.Ser(name);
      StrSet(key, value);
    }

    /** dict.go `StrDel`: removes the key and drops the cached serialisation. */
    method StrDel(s: Bytes)
      modifies this
      ensures rep == old(rep) - {s} && ser == None
      ensures Valid()
    {
      ser := None;
      rep := rep - {s};
    }

    /** dict.go `Del`: keyed by the serialisation of the name. */
    method Del(name: Word)
      modifies this
      ensures rep == old(rep) - {Words.Ser(name)} && ser == None
      ensures Valid()
    {
      var key := Words.Ser(name);
      StrDel(key);
    }

    /** dict.go `Ser`: the cached bytes when present, otherwise the serialisation, which is then cached. */
    method Ser() returns (r: Bytes)
      requires Valid()
      modifies this
      ensures rep == old(rep) && ser == Some(r)
      ensures r == Words.Ser(Dict(rep))
      ensures old(ser).Some? ==> r == old(ser).value
      ensures Valid()
    {
      if ser.Some? {
        return ser.value;
      }
      r := SerMap(rep);
      ser := Some(r);
    }

    /** dict.go `Copy`: a new dict sharing the values. */
    method Copy() returns (d: Dictionary)
      ensures fresh(d) && d.rep == rep && d.ser == None
      ensures Dict(d.rep) == Words.Copy(Dict(rep))
    {
      d := new Dictionary();
      d.rep := rep;
    }

    /** dict.go `DeepCopy`: a new dict holding deep copies of the values. */
    method DeepCopy() returns (d: Dictionary)
      ensures fresh(d) && d.ser == None
      ensures Dict(d.rep) == Words.DeepCopy(Dict(rep))
    {
      d := new Dictionary();
      var rest := rep.Keys;
      while rest != {}
        invariant rest <= rep.Keys && d.ser == None
        invariant d.rep.Keys == rep.Keys - rest
        invariant forall k :: k in d.rep ==> d.rep[k] == Words.DeepCopy(rep[k])
        modifies d
        decreases rest
      {
        var k :| k in rest;
        var v := Words.DeepCopy(rep[k]);
        d.rep := d.rep[k := v];
        rest := rest - {k};
      }
      assert d.rep == map k | k in rep :: Words.DeepCopy(rep[k]);
    }

    /** dict.go `Map`: a fresh Go map with the same bindings. */
    method Map() returns (m: map<Bytes, Word>)
      ensures m == rep
    {
      m := map[];
      var rest := rep.Keys;
      while rest != {}
        invariant rest <= rep.Keys
        invariant m.Keys == rep.Keys - rest
        invariant forall k :: k in m ==> m[k] == rep[k]
        decreases rest
      {
        var k :| k in rest;
        m := m[k := rep[k]];
        rest := rest - {k};
      }
    }
  }

  /** dict.go `Ser` (lines 160-175) when nothing is cached, over the keys in the model's order. */
  method SerMap(rep: map<Bytes, Word>) returns (out: Bytes)
    ensures out == Ser(Dict(rep))
  {
    var keys := SortedKeys(rep.Keys);
    var sers := ValueSers(rep);
    out := WriteEntries(keys, sers);
  }

  /** One `{key value}` entry, each part escaped. */
  method WriteEntry(k: Bytes, v: Bytes) returns (e: Bytes)
    ensures e == EntrySer(k, v)
  {
    var key := EscapeItem(k);
    var value := EscapeItem(v);
    e := "{" + key + " " + value + "}";
  }

  /** The serialising loop: an opening brace, one `{key value}` entry per key, a closing brace. */
  method WriteEntries(keys: seq<Bytes>, sers: map<Bytes, Bytes>) returns (out: Bytes)
    requires forall k :: k in keys ==> k in sers
    ensures out == "{" + Concat(EntriesOf(keys, sers)) + "}"
  {
    out := "{";
    var i := 0;
    while i < |keys|
      invariant 0 <= i <= |keys|
      invariant out == "{" + Concat(EntriesOf(keys[..i], sers))
    {
      var e := WriteEntry(keys[i], sers[keys[i]]);
      AppendEntry(keys, sers, i, out, e);
      out := out + e;
      i := i + 1;
    }
    assert keys[..i] == keys;
    out := out + "}";
  }

  /** One turn of the serialising loop appends the next entry. */
  lemma {:induction false} AppendEntry(keys: seq<Bytes>, sers: map<Bytes, Bytes>, i: nat, out: Bytes, e: Bytes)
    requires forall k :: k in keys ==> k in sers
    requires i < |keys|
    requires out == "{" + Concat(EntriesOf(keys[..i], sers))
    requires e == EntrySer(keys[i], sers[keys[i]])
    ensures out + e == "{" + Concat(EntriesOf(keys[..i + 1], sers))
  {
    EntriesOfSnoc(keys, sers, i);
    BracedAppend(EntriesOf(keys[..i], sers), out, e);
  }

  /** dict.go `NewDictFrom`: every value is stored as its `Copy`. */
  method NewDictFrom(m: map<Bytes, Word>) returns (d: Dictionary)
    ensures fresh(d) && d.ser == None
    ensures d.rep.Keys == m.Keys
    ensures forall k :: k in m ==> d.rep[k] == Copy(m[k])
  {
    d := new Dictionary();
    var rest := m.Keys;
    while rest != {}
      invariant rest <= m.Keys && d.ser == None
      invariant d.rep.Keys == m.Keys - rest
      invariant forall k :: k in d.rep ==> d.rep[k] == Copy(m[k])
      modifies d
      decreases rest
    {
      var k :| k in rest;
      d.rep := d.rep[k := Copy(m[k])];
      rest := rest - {k};
    }
  }

  // ---------------------------------------------------------------------
  // Unserialising: dict.go `UnserializeDict` and `UnserializeDictFrom`

  /** One `{key value}` entry read at a position, and the position past the blanks after it. */
  datatype EntryScan = Entry(key: Bytes, val: Bytes, next: nat) | EntryNotOk | EntryCrash

  /**
   * One turn of the entry loop of `UnserializeDict` (lines 49-69): `{`, a
   * key, a value and `}`, each item preceded by optional blanks, then the
   * blanks that follow.
   */
  function ReadEntry(ser: Bytes, pos: nat): (r: EntryScan)
    requires pos < |ser|
    ensures r.Entry? ==> pos < r.next <= |ser|
  {
    if ser[pos] != '{' then EntryNotOk
    else
      var keyAt := SkipBlanks(ser, pos + 1);
      match Unescape(ser, keyAt)
      case OutOfRange => EntryCrash
      case Malformed => EntryNotOk
      case Item(key, p1) =>
        var valAt := SkipBlanks(ser, p1);
        match Unescape(ser, valAt)
        case OutOfRange => EntryCrash
        case Malformed => EntryNotOk
        case Item(val, p2) =>
          UnescapeAdvances(ser, keyAt);
          UnescapeAdvances(ser, valAt);
          var p3 := SkipBlanks(ser, p2);
          if p3 >= |ser| || ser[p3] != '}' then EntryNotOk
          else Entry(key, val, SkipBlanks(ser, p3 + 1))
  }

  /** Where the entry loop of `UnserializeDict` (lines 47-74) stops. */
  datatype DictScan = Stored(d: map<Bytes, Word>, pos: nat) | ScanNotOk | ScanCrash

  /**
   * The entry loop from position `pos` with the bindings `d` read so far;
   * with `enc` set it stops after an entry followed by `}`.
   */
  function EntryLoop(ser: Bytes, enc: bool, pos: nat, d: map<Bytes, Word>): (r: DictScan)
    requires pos <= |ser|
    decreases |ser| - pos
  {
    if pos >= |ser| then Stored(d, pos)
    else
      match ReadEntry(ser, pos)
      case EntryCrash => ScanCrash
      case EntryNotOk => ScanNotOk
      case Entry(key, val, next) =>
        if enc && next < |ser| && ser[next] == '}' then Stored(d[key := Sym(val)], next)
        else EntryLoop(ser, enc, next, d[key := Sym(val)])
  }

  /** What `UnserializeDict` returns once the entry loop has stopped (lines 70-82). */
  function Finish(ser: Bytes, enc: bool, scan: DictScan): Res<map<Bytes, Word>>
  {
    match scan
    case ScanCrash => Crash
    case ScanNotOk => NotOk
    case Stored(d, end) =>
      if enc && end < |ser| && ser[end] != '}' then NotOk
      else if SkipBlanks(ser, end + 1) < |ser| then NotOk
      else Ok(d)
  }

  /** dict.go `UnserializeDict(ser, enc)`: the bindings of the new dict. */
  function Unserialized(ser: Bytes, enc: bool): Res<map<Bytes, Word>>
  {
    var pos := SkipBlanks(ser, 0);
    if !enc && pos >= |ser| then Ok(map[])
    else if enc && pos >= |ser| then Crash
    else if enc && ser[pos] != '{' then NotOk
    else
      var start := if enc then SkipBlanks(ser, pos + 1) else pos;
      if enc && start < |ser| && ser[start] == '}' then
        (if SkipBlanks(ser, start + 1) < |ser| then NotOk else Ok(map[]))
      else Finish(ser, enc, EntryLoop(ser, enc, start, map[]))
  }

  /** The body of the entry loop of dict.go `UnserializeDict` (lines 49-69). */
  method ReadEntryAt(ser: Bytes, pos: nat) returns (e: EntryScan)
    requires pos < |ser|
    ensures e == ReadEntry(ser, pos)
  {
    if ser[pos] != '{' {
      return EntryNotOk;
    }
    var keyAt := SlurpWS(ser, pos + 1);
    var key := UnescapeItem(ser, keyAt);
    if key.OutOfRange? {
      return EntryCrash;
    }
    if key.Malformed? {
      return EntryNotOk;
    }
    var valAt := SlurpWS(ser, key.next);
    var val := UnescapeItem(ser, valAt);
    if val.OutOfRange? {
      return EntryCrash;
    }
    if val.Malformed? {
      return EntryNotOk;
    }
    var p := SlurpWS(ser, val.next);
    if p >= |ser| || ser[p] != '}' {
      return EntryNotOk;
    }
    p := SlurpWS(ser, p + 1);
    return Entry(key.bytes, val.bytes, p);
  }

  /** One turn of the entry loop as written, with items read by `UnescapeAsWritten`. */
  function ReadEntryAsWritten(ser: Bytes, pos: nat): (r: EntryScan)
    requires pos < |ser|
    ensures r.Entry? ==> pos < r.next <= |ser|
  {
    if ser[pos] != '{' then EntryNotOk
    else
      var keyAt := SkipBlanks(ser, pos + 1);
      match UnescapeAsWritten(ser, keyAt)
      case OutOfRange => EntryCrash
      case Malformed => EntryNotOk
      case Item(key, p1) =>
        var valAt := SkipBlanks(ser, p1);
        match UnescapeAsWritten(ser, valAt)
        case OutOfRange => EntryCrash
        case Malformed => EntryNotOk
        case Item(val, p2) =>
          UnescapeAsWrittenAdvances(ser, keyAt);
          UnescapeAsWrittenAdvances(ser, valAt);
          var p3 := SkipBlanks(ser, p2);
          if p3 >= |ser| || ser[p3] != '}' then EntryNotOk
          else Entry(key, val, SkipBlanks(ser, p3 + 1))
  }

  /** The entry loop as written. */
  function EntryLoopAsWritten(ser: Bytes, enc: bool, pos: nat, d: map<Bytes, Word>): (r: DictScan)
    requires pos <= |ser|
    decreases |ser| - pos
  {
    if pos >= |ser| then Stored(d, pos)
    else
      match ReadEntryAsWritten(ser, pos)
      case EntryCrash => ScanCrash
      case EntryNotOk => ScanNotOk
      case Entry(key, val, next) =>
        if enc && next < |ser| && ser[next] == '}' then Stored(d[key := Sym(val)], next)
        else EntryLoopAsWritten(ser, enc, next, d[key := Sym(val)])
  }

  /** dict.go `UnserializeDict(ser, enc)` as written, over `UnescapeAsWritten`. */
  function UnserializedAsWritten(ser: Bytes, enc: bool): Res<map<Bytes, Word>>
  {
    var pos := SkipBlanks(ser, 0);
    if !enc && pos >= |ser| then Ok(map[])
    else if enc && pos >= |ser| then Crash
    else if enc && ser[pos] != '{' then NotOk
    else
      var start := if enc then SkipBlanks(ser, pos + 1) else pos;
      if enc && start < |ser| && ser[start] == '}' then
        (if SkipBlanks(ser, start + 1) < |ser| then NotOk else Ok(map[]))
      else Finish(ser, enc, EntryLoopAsWritten(ser, enc, start, map[]))
  }

  /** dict.go `UnserializeDictFrom` as written. */
  function UnserializedFromAsWritten(w: Word): (r: Res<map<Bytes, Word>>)
    ensures !w.Symbol? && !w.Quote? ==> r == NotOk
  {
    match w
    case Symbol(b, _) => UnserializedAsWritten(b, true)
    case Quote(src, _) => UnserializedAsWritten(src, false)
    case _ => NotOk
  }

  /** dict.go `UnserializeDict`. */
  method UnserializeDict(ser: Bytes, enc: bool) returns (r: Res<map<Bytes, Word>>)
    ensures r == Unserialized(ser, enc)
  {
    var d: map<Bytes, Word> := map[];
    var pos := SlurpWS(ser, 0);
    if !enc && pos >= |ser| {
      return Ok(map[]);
    }
    if enc {
      if pos >= |ser| {
        return Crash;
      }
      if ser[pos] != '{' {
        return NotOk;
      }
      pos := SlurpWS(ser, pos + 1);
      if pos < |ser| && ser[pos] == '}' {
        pos := SlurpWS(ser, pos + 1);
        if pos < |ser| {
          return NotOk;
        }
        return Ok(map[]);
      }
    }
    ghost var scan := EntryLoop(ser, enc, pos, map[]);
    assert Unserialized(ser, enc) == Finish(ser, enc, scan);
    while pos < |ser|
      invariant pos <= |ser|
      invariant EntryLoop(ser, enc, pos, d) == scan
      decreases |ser| - pos
    {
      var e := ReadEntryAt(ser, pos);
      if e.EntryCrash? {
        return Crash;
      }
      if e.EntryNotOk? {
        return NotOk;
      }
      pos := e.next;
      d := d[e.key := Sym(e.val)];
      if enc && pos < |ser| && ser[pos] == '}' {
        break;
      }
    }
    assert scan == Stored(d, pos);
    if enc && pos < |ser| && ser[pos] != '}' {
      return NotOk;
    }
    pos := SlurpWS(ser, pos + 1);
    if pos < |ser| {
      return NotOk;
    }
    return Ok(d);
  }

  /** dict.go `UnserializeDictFrom`: a symbol is read enclosed in braces, a quote's source without them. */
  function UnserializedFrom(w: Word): (r: Res<map<Bytes, Word>>)
    ensures !w.Symbol? && !w.Quote? ==> r == NotOk
  {
    match w
    case Symbol(b, _) => Unserialized(b, true)
    case Quote(src, _) => Unserialized(src, false)
    case _ => NotOk
  }

  // ---------------------------------------------------------------------
  // Round trip: a serialised dict reads back as its keys bound to the
  // symbols of its values' serialisations

  /** Each value of `m` replaced by the symbol of its serialisation. */
  function SymValues(m: map<Bytes, Word>): (r: map<Bytes, Word>)
    ensures r.Keys == m.Keys
  {
    map k | k in m :: Sym(Ser(m[k]))
  }

  /** The bindings the entry loop adds, in order, to `d` for the keys `ks`. */
  function Store(d: map<Bytes, Word>, ks: seq<Bytes>, sers: map<Bytes, Bytes>): (r: map<Bytes, Word>)
    requires forall k :: k in ks ==> k in sers
    decreases |ks|
  {
    if ks == [] then d else Store(d[ks[0] := Sym(sers[ks[0]])], ks[1..], sers)
  }

  /** After the loop, the keys read are bound to their values' symbols and every other binding is kept. */
  lemma {:induction false} StoreBinds(d: map<Bytes, Word>, ks: seq<Bytes>, sers: map<Bytes, Bytes>)
    requires forall k :: k in ks ==> k in sers
    ensures forall k :: k in Store(d, ks, sers) <==> k in d || k in ks
    ensures forall k :: k in Store(d, ks, sers) ==> Store(d, ks, sers)[k] == if k in ks then Sym(sers[k]) else d[k]
    decreases |ks|
  {
    if ks != [] {
      StoreBinds(d[ks[0] := Sym(sers[ks[0]])], ks[1..], sers);
      assert forall k :: k in ks <==> k == ks[0] || k in ks[1..];
    }
  }

  /** An escaped item followed by a space or `}` reads back as the item, with no blanks to skip first. */
  lemma EscapedAt(ser: Bytes, p: nat, b: Bytes)
    requires p + |Escaped(b)| < |ser| && ser[p..p + |Escaped(b)|] == Escaped(b)
    requires ser[p + |Escaped(b)|] == ' ' || ser[p + |Escaped(b)|] == '}'
    ensures SkipBlanks(ser, p) == p && Unescape(ser, p) == Item(b, p + |Escaped(b)|)
  {
    var n := |Escaped(b)|;
    assert ser == ser[..p] + Escaped(b) + ser[p + n..];
    EscapedHeadNotBlank(b);
    assert ser[p] == Escaped(b)[0];
    UnescapeEscaped(ser[..p], b, ser[p + n..]);
  }

  /** The bytes of an entry, by position. */
  lemma EntryShape(k: Bytes, v: Bytes)
    ensures var e := EntrySer(k, v); var n := |Escaped(k)|;
      |e| == n + |Escaped(v)| + 3 && e[0] == '{' && e[1..1 + n] == Escaped(k) && e[1 + n] == ' ' &&
      e[2 + n..|e| - 1] == Escaped(v) && e[|e| - 1] == '}'
  {
    var ek, ev := Escaped(k), Escaped(v);
    var e := EntrySer(k, v);
    var n := |ek|;
    assert e == "{" + ek + " " + ev + "}";
    assert forall i | 0 <= i < n :: e[1 + i] == ek[i];
    assert e[1..1 + n] == ek;
    assert forall i | 0 <= i < |ev| :: e[2 + n + i] == ev[i];
    assert e[2 + n..|e| - 1] == ev;
  }

  /** A slice of bytes lying at `p` of `ser` lies at the corresponding offset. */
  lemma SliceAt(ser: Bytes, p: nat, e: Bytes, a: nat, b: nat)
    requires p + |e| <= |ser| && ser[p..p + |e|] == e && a <= b <= |e|
    ensures ser[p + a..p + b] == e[a..b]
  {
    var x, y := ser[p + a..p + b], e[a..b];
    forall i | 0 <= i < b - a
      ensures x[i] == y[i]
    {
      assert x[i] == ser[p + a + i] == ser[p..p + |e|][a + i];
    }
    assert x == y;
  }

  /** The parts of the entry written for `k` and `v` at `p`, by position. */
  lemma EntryPlaced(ser: Bytes, p: nat, k: Bytes, v: Bytes)
    requires p + |EntrySer(k, v)| <= |ser| && ser[p..p + |EntrySer(k, v)|] == EntrySer(k, v)
    ensures var p1 := p + 1 + |Escaped(k)|; var q := p + |EntrySer(k, v)|;
      q == p1 + 2 + |Escaped(v)| && ser[p] == '{' && ser[p + 1..p1] == Escaped(k) && ser[p1] == ' ' &&
      ser[p1 + 1..q - 1] == Escaped(v) && ser[q - 1] == '}'
  {
    var e := EntrySer(k, v);
    var n := |Escaped(k)|;
    EntryShape(k, v);
    SliceAt(ser, p, e, 1, 1 + n);
    SliceAt(ser, p, e, 2 + n, |e| - 1);
    assert ser[p] == ser[p..p + |e|][0];
    assert ser[p + 1 + n] == ser[p..p + |e|][1 + n];
    assert ser[p + |e| - 1] == ser[p..p + |e|][|e| - 1];
  }

  /** The entry written for `k` and `v` reads back as `k` and `v`. */
  lemma ReadWrittenEntry(ser: Bytes, p: nat, k: Bytes, v: Bytes)
    requires p + |EntrySer(k, v)| <= |ser| && ser[p..p + |EntrySer(k, v)|] == EntrySer(k, v)
    requires p + |EntrySer(k, v)| == |ser| || !IsBlank(ser[p + |EntrySer(k, v)|])
    ensures ReadEntry(ser, p) == Entry(k, v, p + |EntrySer(k, v)|)
  {
    var p1, q := p + 1 + |Escaped(k)|, p + |EntrySer(k, v)|;
    EntryPlaced(ser, p, k, v);
    KeyWritten(ser, p, k, p1);
    ValueWritten(ser, p1, v, q);
    assert SkipBlanks(ser, q - 1) == q - 1;
    ReadEntryFrom(ser, p, k, p1, v, q);
    assert SkipBlanks(ser, q) == q;
  }

  lemma KeyWritten(ser: Bytes, p: nat, k: Bytes, p1: nat)
    requires p1 == p + 1 + |Escaped(k)| < |ser| && ser[p + 1..p1] == Escaped(k) && ser[p1] == ' '
    ensures Unescape(ser, SkipBlanks(ser, p + 1)) == Item(k, p1)
  {
    EscapedAt(ser, p + 1, k);
  }

  lemma ValueWritten(ser: Bytes, p1: nat, v: Bytes, q: nat)
    requires q == p1 + 2 + |Escaped(v)| <= |ser| && ser[p1] == ' ' && ser[p1 + 1..q - 1] == Escaped(v) && ser[q - 1] == '}'
    ensures Unescape(ser, SkipBlanks(ser, p1)) == Item(v, q - 1)
  {
    EscapedAt(ser, p1 + 1, v);
    assert SkipBlanks(ser, p1) == SkipBlanks(ser, p1 + 1);
  }

  /** `ReadEntry` at `{`, an item, another item and `}`. */
  lemma ReadEntryFrom(ser: Bytes, p: nat, k: Bytes, p1: nat, v: Bytes, q: nat)
    requires p < q <= |ser| && ser[p] == '{' && ser[q - 1] == '}'
    requires Unescape(ser, SkipBlanks(ser, p + 1)) == Item(k, p1)
    requires Unescape(ser, SkipBlanks(ser, p1)) == Item(v, q - 1)
    requires SkipBlanks(ser, q - 1) == q - 1
    ensures ReadEntry(ser, p) == Entry(k, v, SkipBlanks(ser, q))
  {
  }

  /** A concatenation of parts from index `j` on, followed by `tail`, starts with part `j`. */
  lemma PartsFrom(ser: Bytes, p: nat, tail: Bytes, parts: seq<Bytes>, j: nat)
    requires j < |parts| && p <= |ser| && ser[p..] == Concat(parts[j..]) + tail
    ensures p + |parts[j]| <= |ser| && ser[p..p + |parts[j]|] == parts[j]
    ensures ser[p + |parts[j]|..] == Concat(parts[j + 1..]) + tail
  {
    assert parts[j..][1..] == parts[j + 1..];
    var a, b := parts[j], Concat(parts[j + 1..]) + tail;
    assert ser[p..] == a + b;
    assert ser[p..][..|a|] == a;
    assert ser[p..][|a|..] == b;
  }

  /** The entry loop, once it has read one entry. */
  lemma EntryLoopStep(ser: Bytes, enc: bool, p: nat, d: map<Bytes, Word>, k: Bytes, v: Bytes, q: nat)
    requires p < |ser| && ReadEntry(ser, p) == Entry(k, v, q)
    ensures EntryLoop(ser, enc, p, d) ==
      if enc && q < |ser| && ser[q] == '}' then Stored(d[k := Sym(v)], q)
      else EntryLoop(ser, enc, q, d[k := Sym(v)])
  {
  }

  /** Every entry starts with an opening brace. */
  lemma EntriesOfHead(keys: seq<Bytes>, sers: map<Bytes, Bytes>, i: nat)
    requires forall k :: k in keys ==> k in sers
    requires i < |keys|
    ensures |EntriesOf(keys, sers)[i]| > 0 && EntriesOf(keys, sers)[i][0] == '{'
  {
    EntriesOfAt(keys, sers, i);
  }

  /**
   * `parts[j..]` lie one after the other from `p`, followed by `tail`.
   */
  ghost predicate PartsAt(ser: Bytes, p: nat, parts: seq<Bytes>, j: nat, tail: Bytes)
    requires j < |parts|
    decreases |parts| - j
  {
    var q := p + |parts[j]|;
    q <= |ser| && ser[p..q] == parts[j] &&
    if j + 1 == |parts| then ser[q..] == tail else PartsAt(ser, q, parts, j + 1, tail)
  }

  lemma {:induction false} WrittenParts(ser: Bytes, p: nat, tail: Bytes, parts: seq<Bytes>, j: nat)
    requires j < |parts| && p <= |ser| && ser[p..] == Concat(parts[j..]) + tail
    ensures PartsAt(ser, p, parts, j, tail)
    decreases |parts| - j
  {
    PartsFrom(ser, p, tail, parts, j);
    if j + 1 < |parts| {
      WrittenParts(ser, p + |parts[j]|, tail, parts, j + 1);
    } else {
      assert parts[j + 1..] == [];
    }
  }

  /** Part `j` at `p` and the byte after it, when every part opens with a brace. */
  lemma PartAtNext(ser: Bytes, p: nat, tail: Bytes, parts: seq<Bytes>, j: nat, q: nat)
    requires tail == "}" || tail == []
    requires j < |parts| && PartsAt(ser, p, parts, j, tail) && q == p + |parts[j]|
    requires j + 1 < |parts| ==> |parts[j + 1]| > 0 && parts[j + 1][0] == '{'
    ensures q <= |ser| && ser[p..q] == parts[j]
    ensures j + 1 < |parts| ==> q < |ser| && ser[q] == '{' && PartsAt(ser, q, parts, j + 1, tail)
    ensures j + 1 == |parts| ==> q == |ser| - |tail| && (tail == "}" ==> q < |ser| && ser[q] == '}')
  {
    if j + 1 < |parts| {
      assert ser[q..q + |parts[j + 1]|] == parts[j + 1];
      assert ser[q] == parts[j + 1][0];
    } else if tail == "}" {
      assert ser[q..] == tail;
      assert ser[q] == ser[q..][0];
    }
  }

  /**
   * The entries for `keys[j..]` read back one after the other from `p`,
   * each followed by the next one's opening brace, and the last one by
   * `tail`.
   */
  ghost predicate EntriesAt(ser: Bytes, p: nat, keys: seq<Bytes>, sers: map<Bytes, Bytes>, j: nat, tail: Bytes)
    requires forall k :: k in keys ==> k in sers
    requires j < |keys|
    decreases |keys| - j
  {
    p < |ser| &&
    match ReadEntry(ser, p)
    case Entry(k, v, q) =>
      k == keys[j] && v == sers[keys[j]] &&
      if j + 1 == |keys| then q == |ser| - |tail| && (tail == "}" ==> q < |ser| && ser[q] == '}')
      else q < |ser| && ser[q] == '{' && EntriesAt(ser, q, keys, sers, j + 1, tail)
    case _ => false
  }

  /** Entry `j`, lying at `p`, reads back, and what follows it. */
  lemma EntryReadAt(ser: Bytes, p: nat, tail: Bytes, k: Bytes, v: Bytes, es: seq<Bytes>, j: nat, q: nat)
    requires tail == "}" || tail == []
    requires j < |es| && es[j] == EntrySer(k, v)
    requires j + 1 < |es| ==> |es[j + 1]| > 0 && es[j + 1][0] == '{'
    requires PartsAt(ser, p, es, j, tail) && q == p + |es[j]|
    ensures p < |ser| && ReadEntry(ser, p) == Entry(k, v, q)
    ensures j + 1 < |es| ==> q < |ser| && ser[q] == '{' && PartsAt(ser, q, es, j + 1, tail)
    ensures j + 1 == |es| ==> q == |ser| - |tail| && (tail == "}" ==> q < |ser| && ser[q] == '}')
  {
    PartAtNext(ser, p, tail, es, j, q);
    assert q == |ser| || !IsBlank(ser[q]);
    ReadWrittenEntry(ser, p, k, v);
  }

  /** Entries lying one after the other read back one after the other. */
  lemma {:induction false} PartsEntriesAt(ser: Bytes, p: nat, tail: Bytes, keys: seq<Bytes>, sers: map<Bytes, Bytes>, es: seq<Bytes>, j: nat)
    requires forall k :: k in keys ==> k in sers
    requires tail == "}" || tail == []
    requires |es| == |keys| && forall i :: 0 <= i < |es| ==> es[i] == EntrySer(keys[i], sers[keys[i]])
    requires j < |keys| && PartsAt(ser, p, es, j, tail)
    ensures EntriesAt(ser, p, keys, sers, j, tail)
    decreases |keys| - j
  {
    var q := p + |es[j]|;
    assert es[j] == EntrySer(keys[j], sers[keys[j]]);
    if j + 1 < |es| {
      var k2 := keys[j + 1];
      assert es[j + 1] == EntrySer(k2, sers[k2]);
      EntryShape(k2, sers[k2]);
    }
    EntryReadAt(ser, p, tail, keys[j], sers[keys[j]], es, j, q);
    if j + 1 < |keys| {
      PartsEntriesAt(ser, q, tail, keys, sers, es, j + 1);
    }
    EntriesAtCons(ser, p, tail, keys, sers, j, q);
  }

  lemma EntriesAtCons(ser: Bytes, p: nat, tail: Bytes, keys: seq<Bytes>, sers: map<Bytes, Bytes>, j: nat, q: nat)
    requires forall k :: k in keys ==> k in sers
    requires j < |keys| && p < |ser| && ReadEntry(ser, p) == Entry(keys[j], sers[keys[j]], q)
    requires j + 1 < |keys| ==> q < |ser| && ser[q] == '{' && EntriesAt(ser, q, keys, sers, j + 1, tail)
    requires j + 1 == |keys| ==> q == |ser| - |tail| && (tail == "}" ==> q < |ser| && ser[q] == '}')
    ensures EntriesAt(ser, p, keys, sers, j, tail)
  {
  }

  /** Written entries read back. */
  lemma WrittenEntriesAt(ser: Bytes, p: nat, tail: Bytes, keys: seq<Bytes>, sers: map<Bytes, Bytes>, j: nat)
    requires forall k :: k in keys ==> k in sers
    requires tail == "}" || tail == []
    requires j < |keys| && p <= |ser|
    requires ser[p..] == Concat(EntriesOf(keys, sers)[j..]) + tail
    ensures EntriesAt(ser, p, keys, sers, j, tail)
  {
    var es := EntriesOf(keys, sers);
    WrittenParts(ser, p, tail, es, j);
    forall i | 0 <= i < |es|
      ensures es[i] == EntrySer(keys[i], sers[keys[i]])
    {
      EntriesOfAt(keys, sers, i);
    }
    PartsEntriesAt(ser, p, tail, keys, sers, es, j);
  }

  lemma StoreStep(d: map<Bytes, Word>, keys: seq<Bytes>, sers: map<Bytes, Bytes>, j: nat)
    requires forall k :: k in keys ==> k in sers
    requires j < |keys|
    ensures Store(d, keys[j..], sers) == Store(d[keys[j] := Sym(sers[keys[j]])], keys[j + 1..], sers)
  {
    assert keys[j..][1..] == keys[j + 1..];
  }

  /**
   * From entry `j` on, the entry loop reads every remaining entry and stops
   * in front of `tail` (the closing brace with `enc`, the end of the input
   * without it).
   */
  lemma {:induction false} EntryLoopOverEntries(ser: Bytes, enc: bool, tail: Bytes, p: nat, keys: seq<Bytes>, sers: map<Bytes, Bytes>, j: nat, d: map<Bytes, Word>)
    requires forall k :: k in keys ==> k in sers
    requires (enc && tail == "}") || (!enc && tail == [])
    requires j < |keys| && EntriesAt(ser, p, keys, sers, j, tail)
    ensures EntryLoop(ser, enc, p, d) == Stored(Store(d, keys[j..], sers), |ser| - |tail|)
    decreases |keys| - j
  {
    var k := keys[j];
    var q := ReadEntry(ser, p).next;
    var d' := d[k := Sym(sers[k])];
    EntryLoopStep(ser, enc, p, d, k, sers[k], q);
    StoreStep(d, keys, sers, j);
    if j + 1 < |keys| {
      EntryLoopOverEntries(ser, enc, tail, q, keys, sers, j + 1, d');
    } else {
      assert keys[j + 1..] == [];
    }
  }

  /**
   * Unserialising a dict's serialisation with `enc` set gives back its keys,
   * each bound to the symbol of its value's serialisation, which serialises
   * exactly as the original dict.
   */
  lemma DictSerRoundTrip(m: map<Bytes, Word>)
    ensures Unserialized(Ser(Dict(m)), true) == Ok(SymValues(m))
    ensures Ser(Dict(SymValues(m))) == Ser(Dict(m))
  {
    var keys, sers := SortedKeys(m.Keys), ValueSers(m);
    var ser := "{" + Concat(EntriesOf(keys, sers)) + "}";
    assert Ser(Dict(m)) == ser;
    BracedEntriesRead(keys, sers, ser);
    StoreSorted(m);
    SameDictSer(SymValues(m), m);
  }

  /** What follows the opening brace of `{body}`. */
  lemma BracedBody(ser: Bytes, body: Bytes)
    requires ser == "{" + body + "}"
    ensures ser[1..] == body + "}"
  {
  }

  /** Braced entries unserialise, with `enc`, to the bindings the entry loop stores for them. */
  lemma BracedEntriesRead(keys: seq<Bytes>, sers: map<Bytes, Bytes>, ser: Bytes)
    requires forall k :: k in keys ==> k in sers
    requires ser == "{" + Concat(EntriesOf(keys, sers)) + "}"
    ensures Unserialized(ser, true) == Ok(Store(map[], keys, sers))
  {
    if keys == [] {
      EmptyDictSer(ser);
    } else {
      BracedBody(ser, Concat(EntriesOf(keys, sers)));
      LoopOverWritten(ser, true, "}", 1, keys, sers);
      EncodedEntries(ser, Store(map[], keys, sers));
    }
  }

  /** `{}` unserialises, with `enc`, to the empty dict. */
  lemma EmptyDictSer(ser: Bytes)
    requires ser == "{}"
    ensures Unserialized(ser, true) == Ok(map[])
  {
    assert SkipBlanks(ser, 0) == 0;
    assert SkipBlanks(ser, 1) == 1;
    assert SkipBlanks(ser, 2) == 2;
  }

  /** A braced input whose entry loop stops at the closing brace unserialises to what the loop stored. */
  lemma EncodedEntries(ser: Bytes, d: map<Bytes, Word>)
    requires |ser| >= 2 && ser[0] == '{' && ser[1] == '{' && ser[|ser| - 1] == '}'
    requires EntryLoop(ser, true, 1, map[]) == Stored(d, |ser| - 1)
    ensures Unserialized(ser, true) == Ok(d)
  {
    assert SkipBlanks(ser, 0) == 0;
    assert SkipBlanks(ser, 1) == 1;
    assert SkipBlanks(ser, |ser|) == |ser|;
  }

  /** Storing the symbols of the value serialisations of every key rebuilds `SymValues`. */
  lemma StoreSorted(m: map<Bytes, Word>)
    ensures Store(map[], SortedKeys(m.Keys), ValueSers(m)) == SymValues(m)
  {
    var ks, sers := SortedKeys(m.Keys), ValueSers(m);
    forall k | k in m
      ensures k in sers && sers[k] == Ser(m[k])
    {
    }
    StoreCovers(ks, sers, m);
  }

  lemma StoreCovers(ks: seq<Bytes>, sers: map<Bytes, Bytes>, m: map<Bytes, Word>)
    requires forall k :: k in ks <==> k in m
    requires forall k :: k in m ==> k in sers && sers[k] == Ser(m[k])
    ensures Store(map[], ks, sers) == SymValues(m)
  {
    var r, t := Store(map[], ks, sers), SymValues(m);
    StoreBinds(map[], ks, sers);
    assert r.Keys == t.Keys;
    forall k | k in r
      ensures r[k] == t[k]
    {
    }
  }

  /**
   * The entry loop, started at the first of the written entries, reads all
   * of them and stops in front of `tail`.
   */
  lemma LoopOverWritten(ser: Bytes, enc: bool, tail: Bytes, p: nat, keys: seq<Bytes>, sers: map<Bytes, Bytes>)
    requires forall k :: k in keys ==> k in sers
    requires (enc && tail == "}") || (!enc && tail == [])
    requires keys != [] && p <= |ser| && ser[p..] == Concat(EntriesOf(keys, sers)) + tail
    ensures p < |ser| && ser[p] == '{'
    ensures EntryLoop(ser, enc, p, map[]) == Stored(Store(map[], keys, sers), |ser| - |tail|)
  {
    var es := EntriesOf(keys, sers);
    EntriesOfHead(keys, sers, 0);
    assert es[0..] == es && keys[0..] == keys;
    PartsFrom(ser, p, tail, es, 0);
    assert ser[p] == ser[p..p + |es[0]|][0];
    WrittenEntriesAt(ser, p, tail, keys, sers, 0);
    EntryLoopOverEntries(ser, enc, tail, p, keys, sers, 0, map[]);
  }

  /** Without `enc`, the entries of a dict's serialisation, as a quote's source, read back the same way. */
  lemma DictSourceRoundTrip(m: map<Bytes, Word>, protected: bool)
    ensures UnserializedFrom(Quote(Concat(EntriesOf(SortedKeys(m.Keys), ValueSers(m))), protected)) == Ok(SymValues(m))
  {
    var keys, sers := SortedKeys(m.Keys), ValueSers(m);
    var src := Concat(EntriesOf(keys, sers));
    PlainEntriesRead(keys, sers, src);
    StoreSorted(m);
    QuoteRead(src, SymValues(m), protected);
  }

  /**
   * As written, the dict binding `{x` to `y` does not read back: its entry
   * is written `{\\{x y}`, and the scanner drops the `x` after the escaped
   * brace, binding `{` instead.  The corrected reader gives the binding back.
   */
  lemma DictSerRoundTripFailsAsWritten(protected: bool)
    ensures EntrySer("{x", "y") == "{\\{x y}"
    ensures UnserializedFromAsWritten(Quote("{\\{x y}", protected)) == Ok(map["{" := Sym("y")])
    ensures UnserializedFrom(Quote("{\\{x y}", protected)) == Ok(map["{x" := Sym("y")])
  {
    BraceKeyEntry();
    AsWrittenEntryRead("{\\{x y}");
    CorrectedEntryRead("{\\{x y}");
  }

  lemma BraceKeyEntry()
    ensures EntrySer("{x", "y") == "{\\{x y}"
  {
    assert Escaped("{x") == "\\{x" by {
      UnescapeAsWrittenDropsByte();
    }
    assert Escaped("y") == "y" by {
      assert !NeedsQuotes("y");
      assert EscBody("y") == EscBody([]) + EscapeByte('y');
    }
  }

  lemma AsWrittenEntryRead(ser: Bytes)
    requires ser == "{\\{x y}"
    ensures forall p: bool :: UnserializedFromAsWritten(Quote(ser, p)) == Ok(map["{" := Sym("y")])
  {
    assert ser[1] == '\\' && ser[2] == '{' && ser[4] == ' ' && ser[5] == 'y' && ser[6] == '}';
    assert UnescapeAsWritten(ser, 1) == ScanAsWritten(ser, 1, false, []);
    assert ScanAsWritten(ser, 1, false, []) == ScanAsWritten(ser, 4, false, [] + [ser[2]]);
    assert ([] + [ser[2]]) == "{";
    assert UnescapeAsWritten(ser, 5) == ScanAsWritten(ser, 5, false, []);
    assert ScanAsWritten(ser, 5, false, []) == ScanAsWritten(ser, 6, false, [] + [ser[5]]);
    assert ([] + [ser[5]]) == "y";
    assert SkipBlanks(ser, 4) == 5 && SkipBlanks(ser, 6) == 6 && SkipBlanks(ser, 7) == 7;
    assert ReadEntryAsWritten(ser, 0) == Entry("{", "y", 7);
    assert EntryLoopAsWritten(ser, false, 0, map[]) == Stored(map["{" := Sym("y")], 7);
  }

  lemma CorrectedEntryRead(ser: Bytes)
    requires ser == "{\\{x y}"
    ensures forall p: bool :: UnserializedFrom(Quote(ser, p)) == Ok(map["{x" := Sym("y")])
  {
    assert ser[1] == '\\' && ser[2] == '{' && ser[3] == 'x' && ser[4] == ' ' && ser[5] == 'y' && ser[6] == '}';
    assert Unescape(ser, 1) == Scan(ser, 1, false, []);
    assert Scan(ser, 1, false, []) == Scan(ser, 3, false, [] + [ser[2]]);
    assert Scan(ser, 3, false, [] + [ser[2]]) == Scan(ser, 4, false, [] + [ser[2]] + [ser[3]]);
    assert [] + [ser[2]] + [ser[3]] == "{x";
    assert Unescape(ser, 5) == Scan(ser, 5, false, []);
    assert Scan(ser, 5, false, []) == Scan(ser, 6, false, [] + [ser[5]]);
    assert ([] + [ser[5]]) == "y";
    assert SkipBlanks(ser, 4) == 5 && SkipBlanks(ser, 6) == 6 && SkipBlanks(ser, 7) == 7;
    assert ReadEntry(ser, 0) == Entry("{x", "y", 7);
    assert EntryLoop(ser, false, 0, map[]) == Stored(map["{x" := Sym("y")], 7);
  }

  /** A quote unserialises as its source without `enc`. */
  lemma QuoteRead(src: Bytes, d: map<Bytes, Word>, protected: bool)
    requires Unserialized(src, false) == Ok(d)
    ensures UnserializedFrom(Quote(src, protected)) == Ok(d)
  {
  }

  /** Unbraced entries unserialise, without `enc`, to the bindings the entry loop stores for them. */
  lemma PlainEntriesRead(keys: seq<Bytes>, sers: map<Bytes, Bytes>, ser: Bytes)
    requires forall k :: k in keys ==> k in sers
    requires ser == Concat(EntriesOf(keys, sers))
    ensures Unserialized(ser, false) == Ok(Store(map[], keys, sers))
  {
    if keys == [] {
      assert SkipBlanks(ser, 0) == 0;
    } else {
      assert ser[0..] == ser + [];
      LoopOverWritten(ser, false, [], 0, keys, sers);
      PlainEntries(ser, Store(map[], keys, sers));
    }
  }

  /** An unbraced input whose entry loop reads to the end unserialises to what the loop stored. */
  lemma PlainEntries(ser: Bytes, d: map<Bytes, Word>)
    requires |ser| > 0 && ser[0] == '{'
    requires EntryLoop(ser, false, 0, map[]) == Stored(d, |ser|)
    ensures Unserialized(ser, false) == Ok(d)
  {
    assert SkipBlanks(ser, 0) == 0;
    assert SkipBlanks(ser, |ser| + 1) == |ser| + 1;
  }

  // ---------------------------------------------------------------------
  // Edge cases of UnserializeDict

  /** Blank input without `enc` and `{}` with it are the empty dict; empty input with `enc` indexes past the end. */
  lemma EmptyInputs()
    ensures Unserialized(" \n", false) == Ok(map[])
    ensures Unserialized("{ }", true) == Ok(map[])
    ensures Unserialized("", true) == Crash
  {
    var blank: Bytes := " \n";
    assert SkipBlanks(blank, 2) == 2;
    assert SkipBlanks(blank, 0) == 2;
    var braces: Bytes := "{ }";
    assert SkipBlanks(braces, 3) == 3;
    assert SkipBlanks(braces, 1) == 2;
    assert SkipBlanks(braces, 0) == 0;
  }

  /** An entry whose value is missing binds its key to an empty symbol. */
  lemma MissingValue()
    ensures Unserialized("{a}", false) == Ok(map["a" := Sym([])])
  {
    var ser: Bytes := "{a}";
    assert SkipBlanks(ser, 0) == 0;
    assert SkipBlanks(ser, 1) == 1;
    assert SkipBlanks(ser, 2) == 2;
    assert SkipBlanks(ser, 3) == 3;
    assert SkipBlanks(ser, 4) == 4;
    assert Unescape(ser, 1).bytes == "a";
    assert Unescape(ser, 1) == Item("a", 2);
    assert Unescape(ser, 2) == Item([], 2);
    assert ReadEntry(ser, 0) == Entry("a", [], 3);
    assert EntryLoop(ser, false, 0, map[]) == Stored(map["a" := Sym([])], 3);
  }

  /** A later entry for a key overwrites an earlier one. */
  lemma LastDuplicateWins(k: Bytes, x: Bytes, y: Bytes)
    ensures Unserialized(EntrySer(k, x) + EntrySer(k, y), false) == Ok(map[k := Sym(y)])
  {
    var e1, e2 := EntrySer(k, x), EntrySer(k, y);
    EntryHead(k, x);
    EntryThenEntry(e1, e2, k, x, y);
    TwoEntries(e1 + e2, k, x, y, |e1|);
  }

  /** Two entries one after the other read back one after the other. */
  lemma EntryThenEntry(e1: Bytes, e2: Bytes, k: Bytes, x: Bytes, y: Bytes)
    requires e1 == EntrySer(k, x) && e2 == EntrySer(k, y)
    ensures ReadEntry(e1 + e2, 0) == Entry(k, x, |e1|) && ReadEntry(e1 + e2, |e1|) == Entry(k, y, |e1 + e2|)
  {
    EntryHead(k, y);
    Adjacent(e1, e2);
    EntryAtSlice(e1 + e2, 0, k, x, |e1|);
    EntryAtSlice(e1 + e2, |e1|, k, y, |e1 + e2|);
  }

  /** `ReadWrittenEntry` with the end of the entry named. */
  lemma EntryAtSlice(ser: Bytes, p: nat, k: Bytes, v: Bytes, q: nat)
    requires q == p + |EntrySer(k, v)| <= |ser| && ser[p..q] == EntrySer(k, v)
    requires q == |ser| || !IsBlank(ser[q])
    ensures ReadEntry(ser, p) == Entry(k, v, q)
  {
    ReadWrittenEntry(ser, p, k, v);
  }

  /** Every entry starts with `{`. */
  lemma EntryHead(k: Bytes, v: Bytes)
    ensures |EntrySer(k, v)| > 0 && EntrySer(k, v)[0] == '{'
  {
  }

  /** Where `a` and `b` lie in `a + b`. */
  lemma Adjacent(a: Bytes, b: Bytes)
    requires |b| > 0
    ensures (a + b)[0..|a|] == a && (a + b)[|a|..|a| + |b|] == b && (a + b)[|a|] == b[0]
  {
  }

  /** Two entries for the same key, filling the input: the second binding is what is stored. */
  lemma TwoEntries(ser: Bytes, k: Bytes, x: Bytes, y: Bytes, mid: nat)
    requires 0 < mid < |ser| && ser[0] == '{'
    requires ReadEntry(ser, 0) == Entry(k, x, mid) && ReadEntry(ser, mid) == Entry(k, y, |ser|)
    ensures Unserialized(ser, false) == Ok(map[k := Sym(y)])
  {
    var first, last := map[k := Sym(x)], map[k := Sym(y)];
    EntryLoopStep(ser, false, 0, map[], k, x, mid);
    EntryLoopStep(ser, false, mid, first, k, y, |ser|);
    assert first[k := Sym(y)] == last;
    assert SkipBlanks(ser, 0) == 0;
  }

  /** With `enc`, an input whose closing brace is missing is still accepted. */
  lemma MissingClosingBrace(ser: Bytes, k: Bytes, v: Bytes)
    requires |ser| > 0 && ser[0] == '{' && ser[1..] == EntrySer(k, v)
    ensures Unserialized(ser, true) == Ok(map[k := Sym(v)])
  {
    EntryHead(k, v);
    BraceThenEntry(ser, ser[1..], k, v);
    EntryLoopStep(ser, true, 1, map[], k, v, |ser|);
    assert map[][k := Sym(v)] == map[k := Sym(v)];
    assert SkipBlanks(ser, |ser| + 1) == |ser| + 1;
  }

  /** An entry after an opening brace reads back from position 1, to the end. */
  lemma BraceThenEntry(ser: Bytes, e: Bytes, k: Bytes, v: Bytes)
    requires e == EntrySer(k, v) && |ser| > 0 && ser[0] == '{' && ser[1..] == e && |e| > 0 && e[0] == '{'
    ensures SkipBlanks(ser, 0) == 0 && SkipBlanks(ser, 1) == 1 && ser[1] == '{'
    ensures ReadEntry(ser, 1) == Entry(k, v, |ser|)
  {
    assert ser[1..|ser|] == e;
    assert ser[1] == e[0];
    EntryAtSlice(ser, 1, k, v, |ser|);
  }

}
