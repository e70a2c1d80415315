/**
 * The miscellaneous commands of src/gelo/commands/misc.go: `id`, `Quote`,
 * `value`, `invokable?` and `force-invokable`.
 *
 * The VM's `IsInvokable` is the parameter `invokable`, as in module
 * Natives.  `NewQuoteFrom` and `build_quote_from_list` are not part of
 * this model: the first is the parameter `from`, told whether it was
 * handed a word or the bytes of one; the second, which turns the words of
 * a tail call into the quote `TailInvoke` returns, is the parameter
 * `built`.
 */
module Misc {
  import opened Base
  import opened Words
  import opened Errors
  import opened Machine
  import opened Api
  import Lists
  import opened Natives

  // -------------------------------------------------------------------
  // id

  /** `id`: Null for no arguments, the argument for one, the argument list for more. */
  function Id(args: seq<Word>): (r: Word)
    ensures args == [] ==> r == Null
    ensures |args| == 1 ==> r == args[0]
    ensures |args| >= 2 ==> r == List(args)
  {
    if args == [] then Null
    else if |args| == 1 then args[0]
    else List(args)
  }

  /**
   * `id` gives back the word whose `AsList` it is handed, except a list of
   * fewer than two items (which comes back as Null or as its one item).
   */
  lemma IdUndoesAsList(w: Word)
    ensures !(w.List? && |w.items| < 2) ==> Id(Lists.AsList(w)) == w
    ensures w.List? && w.items == [] ==> Id(Lists.AsList(w)) == Null
    ensures w.List? && |w.items| == 1 ==> Id(Lists.AsList(w)) == w.items[0]
  {
  }

  // -------------------------------------------------------------------
  // Quote

  /** What `NewQuoteFrom` is handed: a word, or the bytes of a serialisation. */
  datatype QuoteSource = OfWord(w: Word) | OfBytes(b: Bytes)

  /**
   * `Quote`: Noop for no arguments; otherwise a quote made from the first
   * argument, itself when it is the only one and its serialisation when
   * more follow.  The arguments after the first are never read.
   */
  function QuoteCmd(from: QuoteSource -> Word, args: seq<Word>): (r: Word)
    ensures args == [] ==> r == Noop
  {
    if args == [] then Noop
    else if |args| == 1 then from(OfWord(args[0]))
    else from(OfBytes(Ser(args[0])))
  }

  /**
   * Only the first argument counts once there are two or more; and when
   * `NewQuoteFrom` makes of a word what it makes of its serialisation,
   * the arguments after the first never count.
   */
  lemma QuoteReadsFirstOnly(from: QuoteSource -> Word, w: Word, rest: seq<Word>, other: seq<Word>)
    requires rest != [] && other != []
    ensures QuoteCmd(from, [w] + rest) == QuoteCmd(from, [w] + other)
    ensures from(OfWord(w)) == from(OfBytes(Ser(w))) ==> QuoteCmd(from, [w] + rest) == QuoteCmd(from, [w])
  {
    assert ([w] + rest)[0] == w && ([w] + other)[0] == w;
  }

  // -------------------------------------------------------------------
  // value

  /** `TailInvokeWordOrReturn` as an item of a list: an invokable becomes the quote of its tail call. */
  function Tailed(invokable: Word -> Option<Word>, built: seq<Word> -> Word, w: Word): Word
  {
    match TailOrReturn(invokable, w)
    case Value(v) => v
    case Tail(items) => built(items)
  }

  /**
   * `value`: an ArgumentError for no arguments; one argument is handed
   * back to run in the caller's place when it is invokable and returned
   * otherwise; several give the list of what each becomes.
   */
  function ValueCmd(vm: nat, invokable: Word -> Option<Word>, built: seq<Word> -> Word, args: seq<Word>): (r: Out<Reply>)
    ensures args == [] ==> r == Unwound(NoArgs(vm, "value", "items+"))
    ensures |args| == 1 ==> r == Done(TailOrReturn(invokable, args[0]))
    ensures |args| >= 2 ==>
      r.Done? && r.value.Value? && r.value.w.List? && |r.value.w.items| == |args| &&
      forall i | 0 <= i < |args| ::
        (invokable(args[i]).None? ==> r.value.w.items[i] == args[i]) &&
        (invokable(args[i]).Some? ==> r.value.w.items[i] == built(Lists.AsList(invokable(args[i]).value)))
  {
    if args == [] then Unwound(NoArgs(vm, "value", "items+"))
    else if |args| == 1 then Done(TailOrReturn(invokable, args[0]))
    else Done(Value(Lists.MapOrApply(args, w => Tailed(invokable, built, w))))
  }

  /** `value` of words none of which is invokable is `id` of them. */
  lemma ValueOfLiterals(vm: nat, invokable: Word -> Option<Word>, built: seq<Word> -> Word, args: seq<Word>)
    requires args != [] && forall i | 0 <= i < |args| :: invokable(args[i]).None?
    ensures ValueCmd(vm, invokable, built, args) == Done(Value(Id(args)))
  {
    if |args| >= 2 {
      var r := ValueCmd(vm, invokable, built, args).value.w;
      assert r.items == args;
    }
  }

  // -------------------------------------------------------------------
  // invokable?

  /** `invokable?`: False for no arguments; otherwise whether each argument is invokable, mapped or applied. */
  function Invokablep(invokable: Word -> Option<Word>, args: seq<Word>): (r: Word)
    ensures args == [] ==> r == False
  {
    if args == [] then False else Lists.MapOrApply(args, w => ToBool(invokable(w).Some?))
  }

  /** `invokable?` of one word says True exactly when `InvokableOrElse` accepts it. */
  lemma InvokablepAgrees(vm: nat, invokable: Word -> Option<Word>, w: Word)
    ensures Invokablep(invokable, [w]) == True <==> InvokableOrElse(vm, invokable, w).Done?
    ensures Invokablep(invokable, [w]) == False <==> InvokableOrElse(vm, invokable, w).Unwound?
  {
  }

  // -------------------------------------------------------------------
  // force-invokable

  /** What `force-invokable` makes of a word: its invokable, or an alien answering the word itself. */
  datatype Forced = Ready(i: Word) | Constant(w: Word)

  /** The alien `force-invokable` wraps a word in: the word when called without arguments, an ArgumentError named by the word otherwise. */
  function ApplyConstant(vm: nat, w: Word, args: seq<Word>): (r: Out<Word>)
    ensures args == [] <==> r == Done(w)
    ensures args != [] ==> r == Unwound(Panicked(ArgumentError(Some(vm), FWord(Sym(Ser(w))), FStr([]), ArgsOf(args))))
  {
    if args != [] then Unwound(Panicked(ArgumentError(Some(vm), FWord(Sym(Ser(w))), FStr([]), ArgsOf(args)))) else Done(w)
  }

  function Force(invokable: Word -> Option<Word>, w: Word): (f: Forced)
    ensures f.Ready? <==> invokable(w).Some?
    ensures f.Ready? ==> f.i == invokable(w).value
    ensures f.Constant? ==> f.w == w
  {
    match invokable(w)
    case Some(i) => Ready(i)
    case None => Constant(w)
  }

  /** What `force-invokable` returns: Noop, one forced word, or the list of them. */
  datatype Forcing = Nothing | One(f: Forced) | Several(fs: seq<Forced>)

  /** `force-invokable`: Noop for no arguments; otherwise each argument forced, mapped or applied. */
  function MakeInvokable(invokable: Word -> Option<Word>, args: seq<Word>): (r: Forcing)
    ensures args == [] <==> r == Nothing
    ensures |args| == 1 ==> r == One(Force(invokable, args[0]))
    ensures |args| >= 2 ==> r.Several? && |r.fs| == |args|
  {
    if args == [] then Nothing
    else if |args| == 1 then One(Force(invokable, args[0]))
    else Several(seq(|args|, i requires 0 <= i < |args| => Force(invokable, args[i])))
  }

  /**
   * Whatever `force-invokable` returns can be invoked: an invokable word
   * is passed on as `IsInvokable` gives it, and any other word is wrapped
   * so that calling it without arguments gives the word back.
   */
  lemma ForcedRuns(vm: nat, invokable: Word -> Option<Word>, args: seq<Word>, k: nat)
    requires |args| >= 2 && k < |args|
    ensures var f := MakeInvokable(invokable, args).fs[k];
      (f.Ready? ==> invokable(args[k]) == Some(f.i)) &&
      (f.Constant? ==> invokable(args[k]).None? && ApplyConstant(vm, f.w, []) == Done(args[k]))
  {
  }
}
