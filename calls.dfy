/**
 * The pure decisions of the evaluator (src/gelo/interpreter.go and the
 * `Invoke*` family of src/gelo/api.go): what `peval` makes of a command's
 * head, what it makes of the word that head yields, the `arguments`
 * binding `eval` makes and undoes, and the dispatch of an `Aggregate`
 * alien (src/gelo/commands/util.go).
 */
module Calls {
  import opened Base
  import opened Words
  import opened Errors
  import opened Syntax
  import opened Machine
  import opened Api

  // -------------------------------------------------------------------
  // The head of a command

  /** What `peval` does with a command's head. */
  datatype Callee = CallAlien(id: nat) | RunQuote(q: Word) | Marker | Refused(p: Panic)

  /**
   * `peval`'s choice, as meant: a quote head is run, an alien head is
   * called; any other head is looked up (`bound`), and a quote, an alien
   * or the `defer` marker bound to it is used.  Anything else refuses,
   * naming the head's type.
   */
  function Classify(vm: nat, head: Word, bound: Option<Word>): Callee
  {
    if head.Quote? then RunQuote(head)
    else if head.Alien? then CallAlien(head.id)
    else match bound
      case None => Refused(VariableUndefined(Some(vm), FWord(head)))
      case Some(w) =>
        if w.Quote? then RunQuote(w)
        else if w.Alien? then CallAlien(w.id)
        else if w.Defer? then Marker
        else Refused(TypeMismatch(Some(vm), FStr("invokable"), TypeOf(head)))
  }

  /**
   * The same choice as written: `defer` is bound to the value `defert{}`,
   * but the lookup's switch tests for the pointer type `*defert`, so the
   * marker falls into the default case like any other word.
   */
  function ClassifyAsWritten(vm: nat, head: Word, bound: Option<Word>): Callee
  {
    if head.Quote? then RunQuote(head)
    else if head.Alien? then CallAlien(head.id)
    else match bound
      case None => Refused(VariableUndefined(Some(vm), FWord(head)))
      case Some(w) =>
        if w.Quote? then RunQuote(w)
        else if w.Alien? then CallAlien(w.id)
        else Refused(TypeMismatch(Some(vm), FStr("invokable"), TypeOf(head)))
  }

  /** The two agree except on a name bound to the marker, which as written can never be used. */
  lemma DeferUnusableAsWritten(vm: nat, head: Word, bound: Option<Word>)
    ensures bound != Some(Defer) ==> ClassifyAsWritten(vm, head, bound) == Classify(vm, head, bound)
    ensures !head.Quote? && !head.Alien? && bound == Some(Defer) ==>
      ClassifyAsWritten(vm, head, bound) == Refused(TypeMismatch(Some(vm), FStr("invokable"), TypeOf(head))) &&
      Classify(vm, head, bound) == Marker
    ensures ClassifyAsWritten(vm, head, bound) != Marker
  {
  }

  /**
   * `IsInvokable` of the word a name is bound to (or of the word itself):
   * a quote whose unprotected source parses, an alien, or the marker.
   */
  function Invokable(parse: Bytes -> Compiled, w: Option<Word>): (r: Option<Word>)
    ensures r.Some? ==> r == w
  {
    match w
    case None => None
    case Some(x) =>
      if x.Quote? then (if parse(x.source).Commands? then Some(x) else None)
      else if x.Alien? || x.Defer? then Some(x)
      else None
  }

  /**
   * What `IsInvokable` accepts is what `peval` would run without refusing
   * it, and for a name it refuses, `peval` refuses the name too or fails
   * to parse the quote bound to it.
   */
  lemma InvokableAgreesWithPeval(vm: nat, parse: Bytes -> Compiled, name: Word, bound: Option<Word>)
    requires name.Symbol?
    ensures Invokable(parse, bound).Some? ==> !Classify(vm, name, bound).Refused?
    ensures Invokable(parse, bound).None? ==>
      Classify(vm, name, bound).Refused? ||
      (Classify(vm, name, bound).RunQuote? && parse(Classify(vm, name, bound).q.source).Unparsable?)
    ensures Classify(vm, name, bound).Refused? ==> Invokable(parse, bound).None?
  {
  }

  // -------------------------------------------------------------------
  // What the head yields

  /** What a command comes to before its code runs: a `defer`, a word, or code with its arguments. */
  datatype Step = Deferring(args: seq<Word>) | Produced(w: Word) | Runs(lines: seq<Line>, args: seq<Word>)

  /** `unprotect`: the quote of the same source, which `peval` will run. */
  function Unprotect(q: Word): (r: Word)
    requires q.Quote?
    ensures r.Quote? && !r.protected && Ser(r) == Ser(q)
  {
    Quote(q.source, false)
  }

  /**
   * The last stage of `peval`: an unprotected quote is compiled, raising
   * its syntax error when it does not parse; any other word, protected
   * quotes included, is the command's result.
   */
  function Invoked(parse: Bytes -> Compiled, w: Word, args: seq<Word>): (r: Out<Step>)
    ensures !(w.Quote? && !w.protected) ==> r == Done(Produced(w))
    ensures w.Quote? && !w.protected ==> (r.Done? <==> parse(w.source).Commands?)
    ensures r.Done? && r.value.Runs? ==> r.value.lines == parse(w.source).lines && r.value.args == args
  {
    if w.Quote? && !w.protected then
      match parse(w.source)
      case Commands(lines) => Done(Runs(lines, args))
      case Unparsable(e) => Unwound(Panicked(e))
    else Done(Produced(w))
  }

  /** The one line of literals `build_quote_from_list` compiles to (none for no words). */
  function TailCode(items: seq<Word>): (lines: seq<Line>)
    ensures items == [] <==> lines == []
    ensures items != [] ==> (|lines| == 1 && |lines[0]| == |items| &&
      forall i | 0 <= i < |items| :: lines[0][i] == Literal(items[i]))
  {
    if items == [] then [] else [seq(|items|, i requires 0 <= i < |items| => Literal(items[i]))]
  }

  /** What an alien's reply makes of the command: `TailInvoke` runs the words it was given as one command. */
  function Replied(parse: Bytes -> Compiled, reply: Reply): (r: Out<Step>)
    ensures reply.Tail? ==> r == Done(Runs(TailCode(reply.items), []))
    ensures reply.Value? ==> r == Invoked(parse, reply.w, [])
  {
    match reply
    case Value(w) => Invoked(parse, w, [])
    case Tail(items) => Done(Runs(TailCode(items), []))
  }

  /**
   * The argument count `peval` hands an alien: the words after the head,
   * as `rewrite` and `InvokeOrElse` count them.
   */
  function Count(line: seq<Word>): (n: nat)
    requires line != []
    ensures n == |line[1..]|
  {
    |line| - 1
  }

  /** The count a deferred handler hands `peval`, as written: the whole length, head included. */
  function HandlerCountAsWritten(command: seq<Word>): nat
  {
    |command|
  }

  /** A deferred command's alien is told of one argument more than it gets. */
  lemma HandlerCountsHead(command: seq<Word>)
    requires command != []
    ensures HandlerCountAsWritten(command) == Count(command) + 1
    ensures HandlerCountAsWritten(command) != |command[1..]|
  {
  }

  /**
   * What `_eval_line`, `eval`'s tail and `InvokeOrElse` return for a step
   * that runs no code, as meant: the word produced, or Null for a quote of
   * no code, as `eval` itself returns for no code.
   */
  function NoCodeResult(s: Step): (w: Word)
    requires s.Produced? || (s.Runs? && s.lines == [])
    ensures s.Runs? ==> w == Null
  {
    if s.Produced? then s.w else Null
  }

  /** The same as written: `peval` has set its word to Go's nil (`None`) before finding there is no code. */
  function NoCodeResultAsWritten(s: Step): Option<Word>
    requires s.Produced? || (s.Runs? && s.lines == [])
  {
    if s.Produced? then Some(s.w) else None
  }

  /** Invoking the no-op `{}` yields Go's nil as written, and Null as meant. */
  lemma NoopYieldsNilAsWritten(num: NumReader, args: seq<Word>)
    ensures Invoked(Compiler(num), Unprotect(Noop), args) == Done(Runs([], args))
    ensures NoCodeResultAsWritten(Runs([], args)) == None
    ensures NoCodeResult(Runs([], args)) == Null
  {
  }

  /**
   * What `PartialEval` keeps of a spliced node, as written: it walks to
   * the last cell of the spliced words and keeps the cell after it, the
   * empty list, so a splice of any words contributes one empty list.
   */
  function PartialSpliceAsWritten(spliced: seq<Word>): (r: seq<Word>)
    ensures spliced == [] ==> r == []
    ensures spliced != [] ==> r == [EmptyList]
  {
    if spliced == [] then [] else [EmptyList]
  }

  /** The words a splice contributes are lost, except when there were none. */
  lemma PartialSpliceLosesWords(spliced: seq<Word>)
    ensures PartialSpliceAsWritten(spliced) == spliced <==> spliced == [] || spliced == [EmptyList]
    ensures PartialSpliceAsWritten([Sym("a"), Sym("b")]) == [EmptyList]
  {
  }

  // -------------------------------------------------------------------
  // The `arguments` binding

  const ArgsKey: Bytes := "arguments"

  /** The local binding of `k` in a dict, if any. */
  function Binding(m: map<Bytes, Word>, k: Bytes): Option<Word>
  {
    if k in m then Some(m[k]) else None
  }

  /** The dict with the binding of `k` set back to `prev`: restored, or deleted when there was none. */
  function Rebound(m: map<Bytes, Word>, k: Bytes, prev: Option<Word>): (r: map<Bytes, Word>)
    ensures Binding(r, k) == prev
    ensures forall key | key != k :: Binding(r, key) == Binding(m, key)
  {
    if prev.Some? then m[k := prev.value] else m - {k}
  }

  /** Rebinding what a dict bound before a binding undoes the binding. */
  lemma ReboundUndoes(m: map<Bytes, Word>, k: Bytes, v: Word)
    ensures Rebound(m[k := v], k, Binding(m, k)) == m
  {
    var r := Rebound(m[k := v], k, Binding(m, k));
    forall key
      ensures key in r <==> key in m
      ensures key in r ==> r[key] == m[key]
    {
      assert Binding(r, key) == Binding(m, key);
    }
  }

  /** What `eval` leaves to do when it returns: restore a dict's `arguments`, or run a deferred command. */
  datatype Pending = Restore(dict: nat, prev: Option<Word>) | Handler(command: seq<Word>)

  // -------------------------------------------------------------------
  // Aggregate

  /**
   * The alien `Aggregate` makes of a table: with no arguments the table
   * as a dict; otherwise the entry named by the first argument's text is
   * tail-invoked with the rest, and an unknown name is an ArgumentError
   * reporting the rest.
   */
  function Aggregate(vm: nat, table: map<Bytes, Word>, args: seq<Word>): (r: Out<Reply>)
    ensures args == [] ==> r == Done(Value(Dict(table)))
    ensures r.Done? && args != [] ==> Ser(args[0]) in table && r.value == Tail([table[Ser(args[0])]] + args[1..])
    ensures r.Unwound? <==> args != [] && Ser(args[0]) !in table
  {
    if args == [] then Done(Value(Dict(table)))
    else if Ser(args[0]) !in table then Unwound(BadArgs(vm, "<an aggregate>", "command args*", args[1..]))
    else Done(Tail([table[Ser(args[0])]] + args[1..]))
  }

  /**
   * An aggregate's entry is reached by any word of its name's text, and
   * its reply runs one command: the entry applied to the rest.
   */
  lemma AggregateDispatch(vm: nat, table: map<Bytes, Word>, name: Word, rest: seq<Word>, parse: Bytes -> Compiled)
    requires Ser(name) in table
    ensures Aggregate(vm, table, [name] + rest) == Aggregate(vm, table, [Sym(Ser(name))] + rest)
    ensures var step := Replied(parse, Aggregate(vm, table, [name] + rest).value);
      step.Done? && step.value.Runs? && |step.value.lines| == 1 &&
      step.value.lines[0][0] == Literal(table[Ser(name)]) && |step.value.lines[0]| == 1 + |rest|
  {
    assert ([name] + rest)[1..] == rest;
    assert ([Sym(Ser(name))] + rest)[1..] == rest;
  }
}
