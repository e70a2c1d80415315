/**
 * The values of the language (src/gelo/types.go, sym.go, bool.go,
 * quote.go, list.go, dict.go, error.go): every variant of `Word` with its
 * type name, serialisation, `Copy`, `DeepCopy` and `Equals`.
 *
 * Words are values here.  A Go `*List` chain is a sequence (the nil list,
 * `EmptyList`, is `List([])`), a `*Dict` is its map, and a quote is its
 * source text plus whether it is the protected wrapper; the memo of parsed
 * code a quote carries is modelled in module Quotes.
 */
module Words {
  import opened Base
  import opened Escape

  /**
   * A float64, abstractly: an integral value, some other value told apart
   * by `key` (fractions and infinities), or NaN.
   */
  datatype Float = Whole(i: int) | Fraction(key: int) | NaN

  const MaxInt64: int := 0x7fff_ffff_ffff_ffff
  const MaxInt32: int := 0x7fff_ffff

  /** number.go `Int`: fails for NaN, non-integers and values above MaxInt64. */
  function FloatInt(f: Float): (r: Option<int>)
    ensures r.Some? <==> f.Whole? && f.i <= MaxInt64
  {
    if f.Whole? && f.i <= MaxInt64 then Some(f.i) else None
  }

  /** Go's `==` on float64: NaN equals nothing, not even itself. */
  predicate FloatEq(a: Float, b: Float)
  {
    !a.NaN? && a == b
  }

  datatype ErrorKind = SyntaxErr | RuntimeErr

  datatype Word =
    | Symbol(bytes: Bytes, interned: bool)
    | Number(num: Float, ser: Bytes)
    | Bool(truth: bool)
    | List(items: seq<Word>)
    | Dict(rep: map<Bytes, Word>)
    | Quote(source: Bytes, protected: bool)
    | Alien(id: nat)
    | Error(kind: ErrorKind, msg: Bytes, from: nat)
    | Defer

  /** The empty symbol every `intern("")` returns. */
  const Null: Word := Symbol([], true)
  const True: Word := Bool(true)
  const False: Word := Bool(false)
  const EmptyList: Word := List([])
  /** `{}`: the protected quote of empty source. */
  const Noop: Word := Quote([], true)

  /** sym.go `intern`. */
  function Intern(s: Bytes): (r: Word)
    ensures s == [] ==> r == Null
    ensures r.Symbol? && r.bytes == s && r.interned
  {
    if s == [] then Null else Symbol(s, true)
  }

  /** sym.go `BytesToSym`/`StrToSym`: a dynamic symbol. */
  function Sym(s: Bytes): Word
  {
    Symbol(s, false)
  }

  /** bool.go `ToBool`. */
  function ToBool(b: bool): (r: Word)
    ensures b ==> r == True
    ensures !b ==> r == False
  {
    if b then True else False
  }

  predicate IsSymbol(w: Word) { w.Symbol? }
  predicate IsQuote(w: Word) { w.Quote? }

  /** sym.go `IsNullString`. */
  predicate IsNullString(w: Word)
  {
    w.Symbol? && Ser(w) == []
  }

  /** sym.go `StrEqualsSym`. */
  predicate StrEqualsSym(a: Bytes, b: Word)
    requires b.Symbol?
  {
    a == b.bytes
  }

  /** The type name each variant's `Type` method returns. */
  function TypeName(w: Word): (r: Bytes)
    ensures |r| >= 3 && r[0] == '*' && r[|r| - 1] == '*'
  {
    match w
    case Symbol(_, _) => "*SYMBOL*"
    case Number(_, _) => "*NUMBER*"
    case Bool(_) => "*BOOLEAN*"
    case List(_) => "*LIST*"
    case Dict(_) => "*DICT*"
    case Quote(_, _) => "*QUOTE*"
    case Alien(_) => "*ALIEN*"
    case Error(kind, _, _) => if kind == SyntaxErr then "*SYNTAX-ERROR*" else "*RUNTIME-ERROR*"
    case Defer => "*DEFER*"
  }

  /** The message prefix `Ser` puts in front of an error's message. */
  function ErrorPrefix(kind: ErrorKind): Bytes
  {
    if kind == SyntaxErr then "Syntax error: " else "Runtime error: "
  }

  /** One `{key value}` entry of a dict's serialisation. */
  function EntrySer(key: Bytes, valueSer: Bytes): Bytes
  {
    "{" + Escaped(key) + " " + Escaped(valueSer) + "}"
  }

  /** The `{key value}` entries written for `keys`, in that order, given each key's value serialisation. */
  function EntriesOf(keys: seq<Bytes>, sers: map<Bytes, Bytes>): (r: seq<Bytes>)
    requires forall k :: k in keys ==> k in sers
    ensures |r| == |keys|
  {
    if keys == [] then []
    else EntriesOf(keys[..|keys| - 1], sers) + [EntrySer(keys[|keys| - 1], sers[keys[|keys| - 1]])]
  }

  lemma {:induction false} EntriesOfAt(keys: seq<Bytes>, sers: map<Bytes, Bytes>, i: nat)
    requires forall k :: k in keys ==> k in sers
    requires i < |keys|
    ensures EntriesOf(keys, sers)[i] == EntrySer(keys[i], sers[keys[i]])
    decreases |keys|
  {
    if i < |keys| - 1 {
      EntriesOfAt(keys[..|keys| - 1], sers, i);
    }
  }

  lemma EntriesOfSnoc(keys: seq<Bytes>, sers: map<Bytes, Bytes>, i: nat)
    requires forall k :: k in keys ==> k in sers
    requires i < |keys|
    ensures EntriesOf(keys[..i + 1], sers) == EntriesOf(keys[..i], sers) + [EntrySer(keys[i], sers[keys[i]])]
  {
    var pre := keys[..i + 1];
    assert pre[..|pre| - 1] == keys[..i];
  }

  /** The serialisation of every value of a dict, by key. */
  function ValueSers(rep: map<Bytes, Word>): (r: map<Bytes, Bytes>)
    ensures r.Keys == rep.Keys
    decreases Dict(rep), 0
  {
    map k | k in rep :: Ser(rep[k])
  }

  /** The bytes of `w.Ser()`. */
  function Ser(w: Word): (r: Bytes)
    ensures w.List? || w.Dict? ==> |r| >= 2 && r[0] == '{' && r[|r| - 1] == '}'
    decreases w, 1
  {
    match w
    case Symbol(b, _) => b
    case Number(_, ser) => ser
    case Bool(t) => if t then "true" else "false"
    case List(items) =>
      "{" + Join(seq(|items|, i requires 0 <= i < |items| => Escaped(Ser(items[i]))), " ") + "}"
    case Dict(rep) => "{" + Concat(EntriesOf(SortedKeys(rep.Keys), ValueSers(rep))) + "}"
    case Quote(source, _) => source
    case Alien(_) => TypeName(w)
    case Error(kind, msg, _) => ErrorPrefix(kind) + msg
    case Defer => TypeName(w)
  }

  /** The escaped serialisations of a list's items. */
  function ItemSers(items: seq<Word>): (r: seq<Bytes>)
    ensures |r| == |items|
  {
    seq(|items|, i requires 0 <= i < |items| => Escaped(Ser(items[i])))
  }

  /** `Copy`: an empty symbol becomes Null and any other symbol a dynamic copy; every other word is returned as it is (a list or dict copy shares its values). */
  function Copy(w: Word): (r: Word)
    ensures Ser(r) == Ser(w) && TypeName(r) == TypeName(w)
    ensures r.Symbol? ==> (r.interned <==> r.bytes == [])
  {
    match w
    case Symbol(b, _) => if b == [] then Null else Symbol(b, false)
    case _ => w
  }

  /** `DeepCopy`: like `Copy`, and lists and dicts deep-copy their values. */
  function DeepCopy(w: Word): (r: Word)
    ensures TypeName(r) == TypeName(w)
    decreases w
  {
    match w
    case Symbol(_, _) => Copy(w)
    case List(items) => List(seq(|items|, i requires 0 <= i < |items| => DeepCopy(items[i])))
    case Dict(rep) => Dict(map k | k in rep :: DeepCopy(rep[k]))
    case _ => w
  }

  /** `a.Equals(b)`: the method of `a`'s variant decides. */
  function Equals(a: Word, b: Word): (r: bool)
    ensures r && !a.Symbol? ==> TypeName(b) == TypeName(a)
    decreases a
  {
    match a
    case Symbol(bs, _) => bs == Ser(b)
    case Number(n, _) => b.Number? && FloatEq(n, b.num)
    case Bool(t) => b.Bool? && b.truth == t
    case List(xs) => b.List? && ListEquals(xs, b.items)
    case Dict(m) =>
      b.Dict? && |m| == |b.rep| &&
      forall k :: k in m ==> k in b.rep && Equals(m[k], b.rep[k])
    case Quote(src, _) => b.Quote? && b.source == src
    case Alien(id) => b.Alien? && b.id == id
    case Error(kind, msg, _) => b.Error? && b.kind == kind && b.msg == msg
    case Defer => b.Defer?
  }

  /**
   * list.go `Equals` (lines 207-212) as written: on reaching the end of
   * either list it answers whether the other one is NOT at its end.
   */
  function ListEquals(xs: seq<Word>, ys: seq<Word>): (r: bool)
    ensures r ==> |xs| != |ys|
    decreases xs
  {
    if ys == [] then xs != []
    else if xs == [] then ys != []
    else Equals(xs[0], ys[0]) && ListEquals(xs[1..], ys[1..])
  }

  // ---------------------------------------------------------------------
  // Properties

  /** A Symbol equals exactly the words whose serialisation is its bytes. */
  lemma SymbolEquals(b: Bytes, f: bool, w: Word)
    ensures Equals(Symbol(b, f), w) <==> Ser(w) == b
  {
  }

  /** A Bool equals only the Bool with the same truth value. */
  lemma BoolEquals(t: bool, w: Word)
    ensures Equals(Bool(t), w) <==> w == Bool(t)
    ensures Ser(Bool(t)) == (if t then "true" else "false")
  {
  }

  /** Quotes, protected or not, are equal iff their sources are. */
  lemma QuoteEquals(src: Bytes, p: bool, w: Word)
    ensures Equals(Quote(src, p), w) <==> w.Quote? && w.source == src
  {
  }

  /** An Alien equals only itself; a defer marker equals every defer marker and nothing else. */
  lemma AlienAndDeferEquals(id: nat, w: Word)
    ensures Equals(Alien(id), w) <==> w == Alien(id)
    ensures Equals(Defer, w) <==> w == Defer
    ensures Ser(Alien(id)) == "*ALIEN*" && Ser(Defer) == "*DEFER*"
  {
  }

  /** Errors are equal iff they are of the same kind with the same message bytes. */
  lemma ErrorEquals(kind: ErrorKind, msg: Bytes, from: nat, w: Word)
    ensures Equals(Error(kind, msg, from), w) <==> w.Error? && w.kind == kind && w.msg == msg
    ensures Ser(Error(kind, msg, from)) == ErrorPrefix(kind) + msg
  {
  }

  /** Equality is not symmetric: the symbol `true` equals True but not the reverse. */
  lemma EqualsNotSymmetric()
    ensures Equals(Sym("true"), True)
    ensures !Equals(True, Sym("true"))
  {
  }

  /** A NaN number does not equal itself. */
  lemma NaNNotSelfEqual(ser: Bytes)
    ensures !Equals(Number(NaN, ser), Number(NaN, ser))
  {
  }

  /**
   * What list equality as written computes: the lists must have DIFFERENT
   * lengths and agree, by `Equals`, on their common prefix.
   */
  lemma {:induction false} ListEqualsAsWritten(xs: seq<Word>, ys: seq<Word>)
    ensures ListEquals(xs, ys) <==>
      |xs| != |ys| &&
      forall i :: 0 <= i < |xs| && i < |ys| ==> Equals(xs[i], ys[i])
    decreases xs
  {
    if ys != [] && xs != [] {
      ListEqualsAsWritten(xs[1..], ys[1..]);
      if ListEquals(xs, ys) {
        forall i | 0 <= i < |xs| && i < |ys|
          ensures Equals(xs[i], ys[i])
        {
          if i > 0 {
            assert xs[1..][i - 1] == xs[i] && ys[1..][i - 1] == ys[i];
          }
        }
      }
      if |xs| != |ys| && forall i :: 0 <= i < |xs| && i < |ys| ==> Equals(xs[i], ys[i]) {
        assert Equals(xs[0], ys[0]);
        forall i | 0 <= i < |xs[1..]| && i < |ys[1..]|
          ensures Equals(xs[1..][i], ys[1..][i])
        {
          assert xs[1..][i] == xs[i + 1] && ys[1..][i] == ys[i + 1];
        }
      }
    }
  }

  /** Consequently no list equals itself, and two lists of the same length are never equal. */
  lemma ListNeverEqualsSameLength(xs: seq<Word>, ys: seq<Word>)
    requires |xs| == |ys|
    ensures !Equals(List(xs), List(ys))
  {
    ListEqualsAsWritten(xs, ys);
  }

  /** List equality as evidently intended: both lists end together, agreeing item by item. */
  function ListEqualsIntended(xs: seq<Word>, ys: seq<Word>): (r: bool)
    ensures r ==> |xs| == |ys|
    decreases xs
  {
    if xs == [] || ys == [] then xs == [] && ys == []
    else Equals(xs[0], ys[0]) && ListEqualsIntended(xs[1..], ys[1..])
  }

  /** The intended equality holds exactly for lists of the same length that agree, by `Equals`, at every index. */
  lemma {:induction false} ListEqualsIntendedPairwise(xs: seq<Word>, ys: seq<Word>)
    ensures ListEqualsIntended(xs, ys) <==>
      |xs| == |ys| && forall i :: 0 <= i < |xs| ==> Equals(xs[i], ys[i])
    decreases xs
  {
    if ys != [] && xs != [] {
      ListEqualsIntendedPairwise(xs[1..], ys[1..]);
      if ListEqualsIntended(xs, ys) {
        forall i | 0 <= i < |xs|
          ensures Equals(xs[i], ys[i])
        {
          if i > 0 {
            assert xs[1..][i - 1] == xs[i] && ys[1..][i - 1] == ys[i];
          }
        }
      }
      if |xs| == |ys| && forall i :: 0 <= i < |xs| ==> Equals(xs[i], ys[i]) {
        assert Equals(xs[0], ys[0]);
        forall i | 0 <= i < |xs[1..]|
          ensures Equals(xs[1..][i], ys[1..][i])
        {
          assert xs[1..][i] == xs[i + 1] && ys[1..][i] == ys[i + 1];
        }
      }
    }
  }

  /** Two dicts that are Equal have the same keys. */
  lemma DictEqualsSameKeys(m: map<Bytes, Word>, n: map<Bytes, Word>)
    requires Equals(Dict(m), Dict(n))
    ensures m.Keys == n.Keys
    ensures forall k :: k in m ==> Equals(m[k], n[k])
  {
    assert m.Keys <= n.Keys;
    SubsetSameSize(m.Keys, n.Keys);
  }

  lemma SubsetSameSize<T>(a: set<T>, b: set<T>)
    requires a <= b && |a| == |b|
    ensures a == b
  {
    assert b == a + (b - a);
    assert |b - a| == 0;
  }

  /** The serialisation of a list is its escaped item serialisations between braces, separated by single spaces. */
  lemma ListSer(items: seq<Word>)
    ensures Ser(List(items)) == "{" + Join(ItemSers(items), " ") + "}"
    ensures items == [] ==> Ser(List(items)) == "{}"
  {
  }

  /** Copy keeps a word's serialisation, turns empty symbols into Null and is idempotent. */
  lemma CopyProperties(w: Word)
    ensures Ser(Copy(w)) == Ser(w)
    ensures Copy(Copy(w)) == Copy(w)
    ensures w.Symbol? ==> (Copy(w).Symbol? && !Copy(w).interned <==> w.bytes != [])
    ensures !w.Symbol? ==> Copy(w) == w
  {
  }

  /** Deep copying keeps the serialisation and the variant. */
  lemma {:induction false} DeepCopySer(w: Word)
    ensures Ser(DeepCopy(w)) == Ser(w)
    ensures TypeName(DeepCopy(w)) == TypeName(w)
    decreases w
  {
    match w
    case List(items) =>
      var copies := DeepCopy(w).items;
      forall i | 0 <= i < |items|
        ensures Ser(copies[i]) == Ser(items[i])
      {
        DeepCopySer(items[i]);
      }
      SameItemSers(copies, items);
    case Dict(rep) =>
      var copied := DeepCopy(w).rep;
      forall k | k in rep
        ensures Ser(copied[k]) == Ser(rep[k])
      {
        DeepCopySer(rep[k]);
      }
      SameDictSer(copied, rep);
    case _ =>
  }

  lemma SameItemSers(xs: seq<Word>, ys: seq<Word>)
    requires |xs| == |ys| && forall i :: 0 <= i < |xs| ==> Ser(xs[i]) == Ser(ys[i])
    ensures Ser(List(xs)) == Ser(List(ys))
  {
    assert ItemSers(xs) == ItemSers(ys);
  }

  lemma SameDictSer(m: map<Bytes, Word>, n: map<Bytes, Word>)
    requires m.Keys == n.Keys && forall k :: k in m ==> Ser(m[k]) == Ser(n[k])
    ensures Ser(Dict(m)) == Ser(Dict(n))
  {
    assert ValueSers(m) == ValueSers(n);
  }

  /** A deep copy is Equal to exactly the words the original is Equal to. */
  lemma {:induction false} DeepCopyEqualsLeft(w: Word, x: Word)
    ensures Equals(DeepCopy(w), x) == Equals(w, x)
    decreases w
  {
    match w
    case List(items) =>
      if x.List? {
        var copies := DeepCopy(w).items;
        ListEqualsAsWritten(copies, x.items);
        ListEqualsAsWritten(items, x.items);
        forall i | 0 <= i < |items| && i < |x.items|
          ensures Equals(copies[i], x.items[i]) == Equals(items[i], x.items[i])
        {
          DeepCopyEqualsLeft(items[i], x.items[i]);
        }
      }
    case Dict(rep) =>
      if x.Dict? {
        var copied := DeepCopy(w).rep;
        assert copied.Keys == rep.Keys;
        forall k | k in rep && k in x.rep
          ensures Equals(copied[k], x.rep[k]) == Equals(rep[k], x.rep[k])
        {
          DeepCopyEqualsLeft(rep[k], x.rep[k]);
        }
      }
    case _ =>
  }

  /** Deep copying is idempotent. */
  lemma {:induction false} DeepCopyIdempotent(w: Word)
    ensures DeepCopy(DeepCopy(w)) == DeepCopy(w)
    decreases w
  {
    match w
    case List(items) =>
      var once := DeepCopy(w).items;
      forall i | 0 <= i < |items|
        ensures DeepCopy(once[i]) == once[i]
      {
        DeepCopyIdempotent(items[i]);
      }
      assert DeepCopy(DeepCopy(w)).items == once;
    case Dict(rep) =>
      var once := DeepCopy(w).rep;
      forall k | k in rep
        ensures DeepCopy(once[k]) == once[k]
      {
        DeepCopyIdempotent(rep[k]);
      }
      assert DeepCopy(DeepCopy(w)).rep == once;
    case _ =>
  }

  /** IsNullString holds exactly for the empty symbols. */
  lemma IsNullStringIff(w: Word)
    ensures IsNullString(w) <==> w == Null || w == Sym([])
  {
  }

  /** Distinct variants have distinct type names (the two error kinds included). */
  lemma TypeNameInjective(a: Word, b: Word)
    requires TypeName(a) == TypeName(b)
    ensures a.Symbol? == b.Symbol? && a.Number? == b.Number? && a.Bool? == b.Bool?
    ensures a.List? == b.List? && a.Dict? == b.Dict? && a.Quote? == b.Quote?
    ensures a.Alien? == b.Alien? && a.Error? == b.Error? && a.Defer? == b.Defer?
    ensures a.Error? ==> a.kind == b.kind
  {
  }
}
