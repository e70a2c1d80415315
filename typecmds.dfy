/**
 * The type commands of commands/types.go: `type-of` and the predicates
 * `list?`, `dict?`, `symbol?`, `port?`, `quote?`, `bool?`, `number?`,
 * `alien?`, `syntax-error?` and `runtime-error?`, each of which compares
 * a word's type name with a fixed signature.
 *
 * As written `bool?` compares with `*BOOL*`, while a Bool's type name is
 * `*BOOLEAN*` (src/gelo/bool.go line 15), so it never answers True.  The
 * table is modelled as written and corrected; the predicates proved to
 * agree with `type-of` are the corrected ones.
 */
module TypeCmds {
  import opened Base
  import opened Words
  import opened Machine
  import Lists
  import opened Natives

  /** `type-of`: an ArgumentError for no arguments; otherwise each argument's type name, mapped or applied. */
  function TypeOf(vm: nat, args: seq<Word>): (r: Out<Word>)
    ensures args == [] <==> r == Unwound(NoArgs(vm, "type-of", "value+"))
    ensures |args| == 1 ==> r == Done(Symbol(TypeName(args[0]), true))
    ensures |args| >= 2 ==>
      r.Done? && r.value.List? && |r.value.items| == |args| &&
      forall i | 0 <= i < |args| :: r.value.items[i] == Symbol(TypeName(args[i]), true)
  {
    if args == [] then Unwound(NoArgs(vm, "type-of", "value+"))
    else Done(Lists.MapOrApply(args, w => Intern(TypeName(w))))
  }

  /** `_make_tpred(sig)`: False for no arguments; otherwise whether each argument's type name is `sig`. */
  function TypePred(sig: Bytes, args: seq<Word>): (r: Word)
    ensures args == [] ==> r == False
    ensures |args| == 1 ==> (r == True <==> TypeName(args[0]) == sig)
    ensures |args| == 1 ==> (r == False <==> TypeName(args[0]) != sig)
    ensures |args| >= 2 ==>
      r.List? && |r.items| == |args| &&
      forall i | 0 <= i < |args| :: r.items[i] == ToBool(TypeName(args[i]) == sig)
  {
    if args == [] then False else Lists.MapOrApply(args, w => ToBool(TypeName(w) == sig))
  }

  /** The predicates of the table in commands/types.go. */
  datatype Pred =
    | ListP | DictP | SymbolP | PortP | QuoteP | BoolP | NumberP | AlienP | SyntaxErrorP | RuntimeErrorP

  /** The name each predicate is registered under. */
  function Name(p: Pred): Bytes
  {
    match p
    case ListP => "list?"
    case DictP => "dict?"
    case SymbolP => "symbol?"
    case PortP => "port?"
    case QuoteP => "quote?"
    case BoolP => "bool?"
    case NumberP => "number?"
    case AlienP => "alien?"
    case SyntaxErrorP => "syntax-error?"
    case RuntimeErrorP => "runtime-error?"
  }

  /** The signature each predicate compares with, as commands/types.go writes them. */
  function SigAsWritten(p: Pred): Bytes
  {
    match p
    case ListP => "*LIST*"
    case DictP => "*DICT*"
    case SymbolP => "*SYMBOL*"
    case PortP => "*PORT*"
    case QuoteP => "*QUOTE*"
    case BoolP => "*BOOL*"
    case NumberP => "*NUMBER*"
    case AlienP => "*ALIEN*"
    case SyntaxErrorP => "*SYNTAX-ERROR*"
    case RuntimeErrorP => "*RUNTIME-ERROR*"
  }

  /** The same table with `bool?` comparing against the type name Bools have. */
  function Sig(p: Pred): (sig: Bytes)
    ensures p != BoolP ==> sig == SigAsWritten(p)
    ensures p == BoolP ==> sig == TypeName(True)
  {
    if p == BoolP then "*BOOLEAN*" else SigAsWritten(p)
  }

  /** The kind of word each predicate is meant to recognise; ports are not words of this model. */
  predicate OfKind(p: Pred, w: Word)
  {
    match p
    case ListP => w.List?
    case DictP => w.Dict?
    case SymbolP => w.Symbol?
    case PortP => false
    case QuoteP => w.Quote?
    case BoolP => w.Bool?
    case NumberP => w.Number?
    case AlienP => w.Alien?
    case SyntaxErrorP => w.Error? && w.kind == SyntaxErr
    case RuntimeErrorP => w.Error? && w.kind != SyntaxErr
  }

  /** As written, `bool?` answers False for every word, Bools included. */
  lemma BoolpNeverHoldsAsWritten(w: Word)
    ensures TypePred(SigAsWritten(BoolP), [w]) == False
    ensures TypePred(SigAsWritten(BoolP), [True]) == False
  {
  }

  /** Corrected, each predicate answers True for exactly its own kind of word. */
  lemma PredicateMeansItsKind(p: Pred, w: Word)
    ensures TypePred(Sig(p), [w]) == True <==> OfKind(p, w)
  {
    if w.Error? {
      assert TypeName(w) == (if w.kind == SyntaxErr then "*SYNTAX-ERROR*" else "*RUNTIME-ERROR*");
    }
    match p
    case ListP =>
    case DictP =>
    case SymbolP =>
    case PortP =>
    case QuoteP =>
    case BoolP =>
    case NumberP =>
    case AlienP =>
    case SyntaxErrorP =>
    case RuntimeErrorP =>
  }

  /** Corrected, every predicate answers True exactly when `type-of` names its signature. */
  lemma PredicateAgreesWithTypeOf(vm: nat, p: Pred, w: Word)
    ensures TypePred(Sig(p), [w]) == True <==> TypeOf(vm, [w]) == Done(Symbol(Sig(p), true))
  {
  }

  /** At most one predicate answers True for a word. */
  lemma PredicatesExclusive(w: Word, p: Pred, q: Pred)
    requires p != q
    ensures !(TypePred(Sig(p), [w]) == True && TypePred(Sig(q), [w]) == True)
  {
    PredicateMeansItsKind(p, w);
    PredicateMeansItsKind(q, w);
  }
}
