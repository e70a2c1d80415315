/**
 * What the native command libraries (src/gelo/commands and commands) share:
 * `ToIdx` of src/gelo/commands/util.go, numbers made from Go integers,
 * `MapOrApply` over a callback that may raise, and the parts of the VM a
 * command calls back into.
 *
 * A command that runs another command is given the VM's `InvokeOrElse`
 * as the parameter `run` (the words of the command line, the command
 * first), and its `IsInvokable` as `invokable`; what running does to the
 * VM is that of module Interp and is not repeated here.  Each command
 * takes the id of the VM it runs in and its arguments, the command name
 * excluded; the argument count is their number.
 */
module Natives {
  import opened Base
  import opened Words
  import opened Errors
  import opened Machine
  import opened Api
  import Lists
  import Syntax

  /** The VM's `InvokeOrElse`: the command's value, or how it unwound. */
  type Runner = seq<Word> -> Out<Word>

  /** `NewNumberFromGo` of a Go integer: its value, printed in decimal. */
  function Num(n: int): (w: Word)
    ensures w.Number? && FloatInt(w.num) == Some(n) <==> n <= MaxInt64
  {
    Number(Whole(n), Decimal(n))
  }

  /** The ArgumentError of a command that reports the empty string `""` as its arguments. */
  function NoArgs(vm: nat, name: Bytes, spec: Bytes): Unwind
  {
    Panicked(ArgumentError(Some(vm), FStr(name), FStr(spec), FStr([])))
  }

  // -------------------------------------------------------------------
  // ToIdx

  /** A whole number no larger than MaxInt32, the only numbers `ToIdx` takes. */
  function Int32Of(f: Float): Option<int>
  {
    match FloatInt(f)
    case None => None
    case Some(j) => if MaxInt32 < j then None else Some(j)
  }

  /** The integer `ToIdx` reads from a word. */
  function IntOf(vm: nat, num: Syntax.NumReader, w: Word): Option<int>
  {
    match NumberOrElse(vm, num, w)
    case Unwound(_) => None
    case Done(f) => Int32Of(f)
  }

  /** The TypeMismatch of a number that is not a 32-bit integer. */
  function NotAnIndex(vm: nat): Unwind
  {
    Panicked(TypeMismatch(Some(vm), FStr("32-bit integer"), FStr("float")))
  }

  /** `IndexError`: the index and the number it was read from. */
  function IndexError(vm: nat, i: int, n: Word): Unwind
  {
    Panicked(RuntimeError(Some(vm), [FStr("Invalid index"), FOther(Decimal(i)), FStr("in"), FWord(n)]))
  }

  /** The second half of `ToIdx`, once the number `n` holding `f` is read. */
  function Index(vm: nat, f: Float, n: Word, length: nat): (r: Out<nat>)
    ensures r.Done? <==> Int32Of(f).Some? && -(length as int) <= Int32Of(f).value < length
    ensures r.Done? ==> r.value < length
    ensures r.Done? && Int32Of(f).value >= 0 ==> r.value == Int32Of(f).value
    ensures r.Done? && Int32Of(f).value < 0 ==> r.value == length + Int32Of(f).value
    ensures Int32Of(f).None? ==> r == Unwound(NotAnIndex(vm))
  {
    match Int32Of(f)
    case None => Unwound(NotAnIndex(vm))
    case Some(j) =>
      if (j < 0 && j < -(length as int)) || (j >= 0 && j >= length) then Unwound(IndexError(vm, j, n))
      else ModShift(length, j); Done((length + j) % length)
  }

  /** Go's `%` of a non-negative dividend is Dafny's: `(length + j) % length` is `j` counted from the end when negative. */
  lemma ModShift(length: nat, j: int)
    requires -(length as int) <= j < length
    ensures (length + j) % length == if j < 0 then length + j else j
  {
    if j >= 0 {
      assert length + j == 1 * length + j;
    }
  }

  /**
   * `ToIdx`: an index into a sequence of `length`, counting from the end
   * when it is negative; a word that is not a number, a number that is
   * not a 32-bit integer and an index out of range raise.
   */
  function ToIdx(vm: nat, num: Syntax.NumReader, w: Word, length: nat): (r: Out<nat>)
    ensures r.Done? <==> IntOf(vm, num, w).Some? && -(length as int) <= IntOf(vm, num, w).value < length
    ensures r.Done? ==> r.value < length
    ensures r.Done? && IntOf(vm, num, w).value >= 0 ==> r.value == IntOf(vm, num, w).value
    ensures r.Done? && IntOf(vm, num, w).value < 0 ==> r.value == length + IntOf(vm, num, w).value
    ensures NumberOrElse(vm, num, w).Unwound? ==> r == Unwound(Mismatch(vm, "number", w))
  {
    match NumberOrElse(vm, num, w)
    case Unwound(u) => Unwound(u)
    case Done(f) => Index(vm, f, Number(f, Ser(w)), length)
  }

  /** Every position of a sequence is reached by its own index and by that index less the length. */
  lemma ToIdxCountsBothWays(vm: nat, num: Syntax.NumReader, k: nat, length: nat)
    requires k < length <= MaxInt32
    ensures ToIdx(vm, num, Num(k), length) == Done(k)
    ensures ToIdx(vm, num, Num(k - length), length) == Done(k)
  {
  }

  /** Nothing indexes an empty sequence. */
  lemma NoIndexIntoNothing(vm: nat, num: Syntax.NumReader, w: Word)
    ensures ToIdx(vm, num, w, 0).Unwound?
  {
  }

  /** The indices of a sequence of `length`, each read by `ToIdx`, in order; the first that fails raises. */
  function ToIdxs(vm: nat, num: Syntax.NumReader, ws: seq<Word>, length: nat): (r: Out<seq<nat>>)
    ensures r.Done? ==> |r.value| == |ws| && forall i | 0 <= i < |ws| :: ToIdx(vm, num, ws[i], length) == Done(r.value[i])
    ensures (forall i | 0 <= i < |ws| :: ToIdx(vm, num, ws[i], length).Done?) ==> r.Done?
  {
    if ws == [] then Done([])
    else
      var rest := ws[1..];
      assert forall i | 0 <= i < |rest| :: rest[i] == ws[i + 1];
      match ToIdx(vm, num, ws[0], length)
      case Unwound(u) => Unwound(u)
      case Done(i) =>
        match ToIdxs(vm, num, rest, length)
        case Unwound(u) => Unwound(u)
        case Done(more) => Done([i] + more)
  }

  /** What a loop has already collected, in front of what the rest of the loop gives. */
  function Before<T>(done: seq<T>, rest: Out<seq<T>>): Out<seq<T>>
  {
    match rest
    case Done(more) => Done(done + more)
    case Unwound(u) => Unwound(u)
  }

  lemma BeforeNothing<T>(rest: Out<seq<T>>)
    ensures Before([], rest) == rest
  {
    if rest.Done? {
      assert [] + rest.value == rest.value;
    }
  }

  lemma BeforeStep<T>(done: seq<T>, x: seq<T>, rest: Out<seq<T>>)
    ensures Before(done, Before(x, rest)) == Before(done + x, rest)
  {
    if rest.Done? {
      assert done + (x + rest.value) == (done + x) + rest.value;
    }
  }

  // -------------------------------------------------------------------
  // MapOrApply over a callback that may raise

  /** `f` over each word in order; the first that raises ends the walk. */
  function MapOut(l: seq<Word>, f: Word -> Out<Word>): (r: Out<seq<Word>>)
    ensures r.Done? <==> forall i | 0 <= i < |l| :: f(l[i]).Done?
    ensures r.Done? ==> |r.value| == |l| && forall i | 0 <= i < |l| :: r.value[i] == f(l[i]).value
  {
    if l == [] then Done([])
    else
      match f(l[0])
      case Unwound(u) => Unwound(u)
      case Done(w) =>
        match MapOut(l[1..], f)
        case Unwound(u) => Unwound(u)
        case Done(ws) => Done([w] + ws)
  }

  /** `MapOrApply` with a callback that may raise. */
  function MapOrApplyOut(l: seq<Word>, f: Word -> Out<Word>): (r: Out<Word>)
  {
    if l == [] then Done(Null)
    else if |l| == 1 then f(l[0])
    else
      match MapOut(l, f)
      case Unwound(u) => Unwound(u)
      case Done(ws) => Done(List(ws))
  }

  /** When the callback never raises, the result is list.go's `MapOrApply` of its values. */
  lemma MapOrApplyOutAgrees(l: seq<Word>, f: Word -> Out<Word>, g: Word -> Word)
    requires forall w :: f(w) == Done(g(w))
    ensures MapOrApplyOut(l, f) == Done(Lists.MapOrApply(l, g))
  {
    if |l| > 1 {
      var ws := MapOut(l, f).value;
      assert ws == seq(|l|, i requires 0 <= i < |l| => g(l[i]));
    }
  }

  /** When the callback raises on some word, so does the command, with the first such raise. */
  lemma MapOrApplyOutRaises(l: seq<Word>, f: Word -> Out<Word>, k: nat)
    requires k < |l| && f(l[k]).Unwound?
    requires forall i | 0 <= i < k :: f(l[i]).Done?
    ensures MapOrApplyOut(l, f) == Unwound(f(l[k]).u)
  {
    if |l| > 1 {
      FirstRaise(l, f, k);
    }
  }

  lemma {:induction false} FirstRaise(l: seq<Word>, f: Word -> Out<Word>, k: nat)
    requires k < |l| && f(l[k]).Unwound?
    requires forall i | 0 <= i < k :: f(l[i]).Done?
    ensures MapOut(l, f) == Unwound(f(l[k]).u)
    decreases k
  {
    if k > 0 {
      FirstRaise(l[1..], f, k - 1);
    }
  }

  // -------------------------------------------------------------------
  // Calling back into the VM

  /** `TailInvokeWordOrReturn`: what is invokable is handed back to run in the caller's place, anything else returned. */
  function TailOrReturn(invokable: Word -> Option<Word>, w: Word): (r: Reply)
    ensures invokable(w).None? ==> r == Value(w)
    ensures invokable(w).Some? ==> r.Tail? && r.items == Lists.AsList(invokable(w).value)
  {
    match invokable(w)
    case None => Value(w)
    case Some(i) => Tail(Lists.AsList(i))
  }

  /** `TailInvokeCmd`: the command and its arguments, handed back to run in the caller's place. */
  function TailCmd(cmd: Word, args: seq<Word>): (r: Reply)
    ensures r.Tail? && |r.items| == |args| + 1 && r.items[0] == cmd && r.items[1..] == args
  {
    Tail([cmd] + args)
  }

  /** What `Invoke` makes of `InvokeOrElse`'s outcome: a gelo error is returned, not raised. */
  function Caught(out: Out<Word>): (r: Out<Result<Word>>)
    ensures out.Done? ==> r == Done(Fine(out.value))
    ensures out.Unwound? && out.u.Panicked? && out.u.p.Raise? ==> r == Done(Failed(out.u.p.err))
    ensures r.Unwound? ==> r.u == out.u && !(out.u.Panicked? && out.u.p.Raise?)
  {
    match out
    case Done(w) => Done(Fine(w))
    case Unwound(Panicked(Raise(err))) => Done(Failed(err))
    case Unwound(u) => Unwound(u)
  }

  /** An outcome of `Invoke`: the value, or the error word raised. */
  datatype Result<T> = Fine(value: T) | Failed(err: Word)

  /** `InvokableOrElse`: the invokable a word stands for, or a TypeMismatch. */
  function InvokableOrElse(vm: nat, invokable: Word -> Option<Word>, w: Word): (r: Out<Word>)
    ensures r.Done? <==> invokable(w).Some?
    ensures r.Done? ==> r.value == invokable(w).value
    ensures r.Unwound? ==> r.u == Mismatch(vm, "invokable", w)
  {
    match invokable(w)
    case Some(i) => Done(i)
    case None => Unwound(Mismatch(vm, "invokable", w))
  }
}
