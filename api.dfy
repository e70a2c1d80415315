/**
 * The `*OrElse` coercions of src/gelo/api.go: each takes a word and either
 * gives it back as the type asked for or raises TypeMismatch naming that
 * type and the type of the word it got.  `ListOrElse` and `DictOrElse`
 * also read a symbol or a quote as the serialisation of a list or a dict.
 */
module Api {
  import opened Base
  import opened Words
  import opened Errors
  import Lists
  import Dicts
  import Syntax
  import opened Machine

  /** `w.Type()`, handed to the formatter. */
  function TypeOf(w: Word): Fmt
  {
    FWord(Intern(TypeName(w)))
  }

  /** An argument list handed to the formatter (the nil list is the empty list, not Go's nil). */
  function ArgsOf(args: seq<Word>): Fmt
  {
    FWord(List(args))
  }

  /** The TypeMismatch the VM `vm` raises when it expected `expected` and got `w`. */
  function Mismatch(vm: nat, expected: Bytes, w: Word): Unwind
  {
    Panicked(TypeMismatch(Some(vm), FStr(expected), TypeOf(w)))
  }

  /** The ArgumentError the VM `vm` raises for the command `name` expecting `spec`. */
  function BadArgs(vm: nat, name: Bytes, spec: Bytes, args: seq<Word>): Unwind
  {
    Panicked(ArgumentError(Some(vm), FStr(name), FStr(spec), ArgsOf(args)))
  }

  /** `NumberOrElse`: a number, or a word whose serialisation reads as one. */
  function NumberOrElse(vm: nat, num: Syntax.NumReader, w: Word): (r: Out<Float>)
    ensures w.Number? ==> r == Done(w.num)
    ensures !w.Number? ==> (r.Done? <==> num(Ser(w)).Some?)
    ensures !w.Number? && r.Done? ==> r.value == num(Ser(w)).value
    ensures r.Unwound? ==> r.u == Mismatch(vm, "number", w)
  {
    if w.Number? then Done(w.num)
    else match num(Ser(w))
      case Some(f) => Done(f)
      case None => Unwound(Mismatch(vm, "number", w))
  }

  /** `QuoteOrElse`: quotes only, protected or not. */
  function QuoteOrElse(vm: nat, w: Word): (r: Out<Word>)
    ensures r.Done? <==> w.Quote?
    ensures r.Done? ==> r.value == w
    ensures r.Unwound? ==> r.u == Mismatch(vm, "quote", w)
  {
    if w.Quote? then Done(w) else Unwound(Mismatch(vm, "quote", w))
  }

  /**
   * `ListOrElse`: a list's items, or the items a symbol or a quote
   * unserialises to; a serialisation that reads past its end is a Go
   * runtime panic.
   */
  function ListOrElse(vm: nat, w: Word): (r: Out<seq<Word>>)
    ensures w.List? ==> r == Done(w.items)
    ensures !w.List? && !w.Symbol? && !w.Quote? ==> r == Unwound(Mismatch(vm, "list", w))
    ensures !w.List? ==> (r.Done? <==> Lists.UnserializedFrom(w).Ok?)
  {
    if w.List? then Done(w.items)
    else match Lists.UnserializedFrom(w)
      case Ok(items) => Done(items)
      case NotOk => Unwound(Mismatch(vm, "list", w))
      case Crash => Unwound(Panicked(GoPanic))
  }

  /** `DictOrElse`: a dict's bindings, or the bindings a symbol or a quote unserialises to. */
  function DictOrElse(vm: nat, w: Word): (r: Out<map<Bytes, Word>>)
    ensures w.Dict? ==> r == Done(w.rep)
    ensures !w.Dict? && !w.Symbol? && !w.Quote? ==> r.Unwound?
    ensures !w.Dict? ==> (r.Done? <==> Dicts.UnserializedFrom(w).Ok?)
  {
    if w.Dict? then Done(w.rep)
    else match Dicts.UnserializedFrom(w)
      case Ok(d) => Done(d)
      case NotOk => Unwound(Mismatch(vm, "dict", w))
      case Crash => Unwound(Panicked(GoPanic))
  }

  /** `BoolOrElse`. */
  function BoolOrElse(vm: nat, w: Word): (r: Out<bool>)
    ensures r.Done? <==> w.Bool?
    ensures r.Done? ==> Bool(r.value) == w
    ensures r.Unwound? ==> r.u == Mismatch(vm, "bool", w)
  {
    if w.Bool? then Done(w.truth) else Unwound(Mismatch(vm, "bool", w))
  }

  /** `SymbolOrElse`: numbers are not symbols, even though they print as their text. */
  function SymbolOrElse(vm: nat, w: Word): (r: Out<Word>)
    ensures r.Done? <==> w.Symbol?
    ensures r.Done? ==> r.value == w
    ensures r.Unwound? ==> r.u == Mismatch(vm, "symbol", w)
  {
    if w.Symbol? then Done(w) else Unwound(Mismatch(vm, "symbol", w))
  }

  /** `AlienOrElse`: the id of the alien. */
  function AlienOrElse(vm: nat, w: Word): (r: Out<nat>)
    ensures r.Done? <==> w.Alien?
    ensures r.Done? ==> Alien(r.value) == w
    ensures r.Unwound? ==> r.u == Mismatch(vm, "alien", w)
  {
    if w.Alien? then Done(w.id) else Unwound(Mismatch(vm, "alien", w))
  }

  /**
   * `LiteralOrElse`: the text of a symbol or of a quote, which is its
   * serialisation; whether the quote parses is not looked at.
   */
  function LiteralOrElse(vm: nat, w: Word): (r: Out<Bytes>)
    ensures r.Done? <==> w.Symbol? || w.Quote?
    ensures r.Done? ==> r.value == Ser(w)
    ensures r.Unwound? ==> r.u == Mismatch(vm, "symbol or quote", w)
  {
    match w
    case Symbol(b, _) => Done(b)
    case Quote(src, _) => Done(src)
    case _ => Unwound(Mismatch(vm, "symbol or quote", w))
  }

  /** A list serialised into a quote's source is read back by `ListOrElse`, item by item as symbols of the same text. */
  lemma ListOrElseReadsSource(vm: nat, xs: seq<Word>, protected: bool)
    ensures var r := ListOrElse(vm, Quote(Join(ItemSers(xs), " "), protected));
      r.Done? && |r.value| == |xs| && Ser(List(r.value)) == Ser(List(xs)) &&
      forall i | 0 <= i < |xs| :: r.value[i] == Sym(Ser(xs[i]))
  {
    Lists.ListSerRoundTrip(xs, protected);
  }

  /** A dict's entries held as a quote's source are read back by `DictOrElse`, each value as the symbol of its text. */
  lemma DictOrElseReadsSource(vm: nat, m: map<Bytes, Word>, protected: bool)
    ensures var r := DictOrElse(vm, Quote(Concat(EntriesOf(SortedKeys(m.Keys), ValueSers(m))), protected));
      r.Done? && r.value.Keys == m.Keys && forall k | k in m :: r.value[k] == Sym(Ser(m[k]))
  {
    Dicts.DictSourceRoundTrip(m, protected);
  }
}
