/**
 * The evaluator of src/gelo/interpreter.go, the builtins of
 * src/gelo/builtins.go that evaluate code (`eval`, `safe-eval`, the
 * closures of `ns.capture`), the `Invoke*` family and `PartialEval` of
 * src/gelo/api.go, and `Do`, `Exec` and `Run` of src/gelo/vm.go.
 *
 * The Go functions recurse into each other without bound; here each takes
 * a `fuel` that every nested call spends one of, and each tail call of
 * `eval` spends one more.  Running out unwinds with `Exhausted`.
 *
 * Go's `defer` is modelled by the stack of `Pending` work that `eval`
 * builds and runs in reverse when it finishes or unwinds: a deferred call
 * that panics replaces the outcome, and the calls below it still run.  A
 * VM destroyed while it evaluates has lost its namespace and API, so the
 * next command it attempts is a Go runtime panic.
 */
module Interp {
  import opened Base
  import opened Words
  import opened Errors
  import opened Scopes
  import opened Syntax
  import opened Machine
  import opened Api
  import opened Calls
  import opened Builtins
  import Lists

  /** What `Do`, `Exec` and `Invoke` report: a result, or the error they caught. */
  datatype Outcome = Finished(w: Word) | Failed(err: Word)

  const SpliceText: Bytes := "Attempted to splice nonlist"
  const BadNodeText: Bytes := "invalid node type " + "dereferenced--parser incorrect"
  const ClauseDeferText: Bytes := "defer commands must " + "not be in a clause"
  const TailDeferText: Bytes := "defer call cannot be " + "in tail position"
  const InvokeDeferText: Bytes := "Cannot register a defer " + "via Invoke*"
  const CapturedText: Bytes := "Captured ns's code does not " + "complete at captured ns"
  const NoProgramText: Bytes := "attempted to execute VM " + "with no program"

  /**
   * What every step of evaluation keeps: the VM stays valid, the world
   * only grows, and a VM still alive was alive before and kept its
   * boundary.
   */
  twostate predicate Grows(vm: VM)
    reads vm, vm.world
  {
    vm.Valid() && vm.world.Grown() && (vm.alive ==> old(vm.alive) && vm.top == old(vm.top))
  }

  /** What the command's head means to `peval`: the lookup, made for heads that are neither quotes nor aliens. */
  ghost function Bound(vm: VM, head: Word): Option<Word>
    reads vm, vm.world
  {
    if head.Quote? || head.Alien? then None else vm.Resolve(Ser(head))
  }

  /** `LookupOrElse` of a name: its meaning, or VariableUndefined. */
  ghost function Looked(vm: VM, name: Word): Out<Word>
    reads vm, vm.world
  {
    match vm.Resolve(Ser(name))
    case Some(v) => Done(v)
    case None => Unwound(Panicked(VariableUndefined(Some(vm.id), FWord(name))))
  }

  /** What `_deref` makes of a clause's result: a symbol, or a quote's source, is looked up; anything else is a mismatch. */
  ghost function Named(vm: VM, w: Word): Out<Word>
    reads vm, vm.world
  {
    if !w.Quote? && !w.Symbol? then Unwound(Mismatch(vm.id, "symbol or quote", w))
    else if !vm.alive then Unwound(Panicked(GoPanic))
    else Looked(vm, if w.Quote? then Sym(w.source) else w)
  }

  /** How `peval` classifies the head of a line of literals and quotes. */
  ghost function HeadOf(vm: VM, line: Line): Callee
    reads vm, vm.world
    requires Plain(line) && line != []
  {
    Calls.Classify(vm.id, Ser1(line[0]), Bound(vm, Ser1(line[0])))
  }

  /** A script of one command of literals and quotes, whose head is not the name `arguments` that `eval` rebinds. */
  predicate Lone(lines: seq<Line>)
  {
    |lines| == 1 && Plain(lines[0]) && lines[0] != [] && Ser(Ser1(lines[0][0])) != ArgsKey
  }

  /** What the last command of a pass comes to when `peval` refuses its head or it is a `defer`. */
  predicate RefusedTail<T>(c: Callee, vm: nat, out: Out<T>)
  {
    (c.Refused? ==> out == Unwound(Panicked(c.p))) &&
    (c.Marker? ==> out == Unwound(Panicked(RuntimeError(Some(vm), [FStr(TailDeferText)]))))
  }

  /**
   * What `peval` makes of a line of words when no code of the
   * interpreter's decides it: a refused head, the `defer` marker, a quote
   * compiled to run, or a call of an alien that is the host's or a dict's.
   * None when the head is a builtin or a captured closure, whose own code
   * decides.
   */
  ghost function Settled(vm: VM, line: seq<Word>, fuel: nat): Option<Out<Step>>
    reads vm, vm.world
    requires line != []
  {
    match Calls.Classify(vm.id, line[0], Bound(vm, line[0]))
    case Refused(p) => Some(Unwound(Panicked(p)))
    case Marker => Some(Done(Deferring(line[1..])))
    case RunQuote(q) => Some(Invoked(vm.world.parse, Unprotect(q), line[1..]))
    case CallAlien(id) =>
      if fuel == 0 then Some(Unwound(Exhausted))
      else if id !in vm.world.aliens then Some(Answered(vm.world.parse, vm.world.host(id, line[1..], Count(line))))
      else if vm.world.aliens[id].Aggregated? then
        Some(Answered(vm.world.parse, Aggregate(vm.id, vm.world.aliens[id].table, line[1..])))
      else None
  }

  /** An alien's reply as `peval` hands it on: its unwinding, or the step its word or tail quote makes. */
  function Answered(parse: Bytes -> Compiled, reply: Out<Reply>): Out<Step>
  {
    if reply.Unwound? then Unwound(reply.u) else Replied(parse, reply.value)
  }

  /**
   * What the last command of a pass comes to, given its step: the result
   * it produced with no code after it, or code (possibly none) with its
   * arguments, which is the next pass; `defer` cannot be here.
   */
  function TailOf(vm: nat, s: Out<Step>): Out<(Word, seq<Line>, seq<Word>)>
  {
    match s
    case Unwound(u) => Unwound(u)
    case Done(Deferring(_)) => Unwound(Panicked(RuntimeError(Some(vm), [FStr(TailDeferText)])))
    case Done(Produced(w)) => Done((w, [], []))
    case Done(Runs(c, a)) => Done((Null, c, a))
  }

  /**
   * What `eval`'s loop returns after a pass whose last command comes to
   * `s`: its unwinding, KillCode when a kill signal waits, or the result
   * when no code follows; None when code follows, which is another pass.
   */
  function Ends(vm: nat, s: Out<Step>, signalled: bool): Option<Out<Word>>
  {
    match TailOf(vm, s)
    case Unwound(u) => Some(Unwound(u))
    case Done(t) => if signalled then Some(Unwound(KillCode)) else if t.1 == [] then Some(Done(t.0)) else None
  }

  /** What a script of one command of literals and quotes returns when `peval` settles it in one pass. */
  ghost function Once(vm: VM, lines: seq<Line>, fuel: nat): Option<Out<Word>>
    reads vm, vm.world
    requires |lines| == 1 && Plain(lines[0]) && lines[0] != []
  {
    match Settled(vm, PlainWords(lines[0]), fuel)
    case None => None
    case Some(s) => Ends(vm.id, s, vm.id in vm.world.signalled)
  }

  /**
   * A one-command script whose head produces `w` in one step returns `w`,
   * unless the VM was signalled; a head that only defers is refused.
   */
  lemma OnceProduces(vm: VM, lines: seq<Line>, fuel: nat, w: Word)
    requires |lines| == 1 && Plain(lines[0]) && lines[0] != []
    ensures Settled(vm, PlainWords(lines[0]), fuel) == Some(Done(Produced(w))) ==>
      Once(vm, lines, fuel) == Some(if vm.id in vm.world.signalled then Unwound(KillCode) else Done(w))
    ensures Settled(vm, PlainWords(lines[0]), fuel) == Some(Done(Deferring(PlainWords(lines[0])[1..]))) ==>
      Once(vm, lines, fuel).Some? && Once(vm, lines, fuel).value.Unwound?
  {
  }

  /** The handlers' commands in a stack of deferred work, in the order `eval` runs them: the top first. */
  function TopFirst(stack: seq<Pending>): seq<seq<Word>>
  {
    if stack == [] then [] else TopFirst(stack[1..]) + (if stack[0].Handler? then [stack[0].command] else [])
  }

  /** Work pushed on the stack runs before everything under it: the handler deferred last runs first. */
  lemma {:induction false} TopFirstPush(stack: seq<Pending>, p: Pending)
    ensures TopFirst(stack + [p]) == (if p.Handler? then [p.command] else []) + TopFirst(stack)
    decreases |stack|
  {
    if stack != [] {
      assert (stack + [p])[1..] == stack[1..] + [p];
      TopFirstPush(stack[1..], p);
    } else {
      assert [p][1..] == [];
    }
  }

  /** Every node of the line is a literal word or a quote, which `rewrite` copies. */
  predicate Plain(line: Line)
  {
    forall i | 0 <= i < |line| :: line[i].Literal? || line[i].QuoteNode?
  }

  /**
   * The words each node of a line contributes to its rewriting: a literal
   * or a quote its own word, a `$` or a clause one word, a splice the
   * items of a list.
   */
  predicate Fills(line: Line, parts: seq<seq<Word>>)
  {
    |parts| == |line| &&
    forall i | 0 <= i < |line| ::
      (line[i].Literal? ==> parts[i] == [line[i].w]) &&
      (line[i].QuoteNode? ==> parts[i] == [line[i].q]) &&
      (!line[i].Splice? ==> |parts[i]| == 1)
  }

  /** The contributions, one after another. */
  function Flatten(parts: seq<seq<Word>>): seq<Word>
  {
    if parts == [] then [] else Flatten(parts[..|parts| - 1]) + parts[|parts| - 1]
  }

  /** `stack'` is `stack` with handlers of non-empty commands pushed on it. */
  predicate Deferred(stack: seq<Pending>, stack': seq<Pending>)
  {
    stack <= stack' && forall k | |stack| <= k < |stack'| :: stack'[k].Handler? && stack'[k].command != []
  }

  /** Every dict the pending restores name exists. */
  predicate Queued(stack: seq<Pending>, n: nat)
  {
    forall k | 0 <= k < |stack| :: stack[k].Restore? ==> stack[k].dict < n
  }

  // -------------------------------------------------------------------
  // Steps that do not evaluate

  /**
   * The binding `eval` makes on entering a script and on each tail call:
   * the current scope's `arguments` is set to the arguments, and what it
   * was is remembered for the restore.
   */
  method Bind(vm: VM, args: seq<Word>) returns (p: Pending)
    requires vm.Valid() && vm.alive
    modifies vm.world`dicts
    ensures vm.Valid() && |vm.world.dicts| == |old(vm.world.dicts)|
    ensures p == Restore(old(vm.Current()), old(Binding(vm.world.dicts[vm.Current()], ArgsKey)))
    ensures vm.world.dicts == old(vm.world.dicts[vm.Current() := vm.world.dicts[vm.Current()][ArgsKey := List(args)]])
    ensures forall head: Word | Ser(head) != ArgsKey :: Bound(vm, head) == old(Bound(vm, head))
  {
    vm.LiveWalk();
    var d := vm.world.scopes[vm.cns.value].dict;
    p := Restore(d, Binding(vm.world.dicts[d], ArgsKey));
    ghost var dicts0 := vm.world.dicts;
    vm.world.dicts := vm.world.dicts[d := vm.world.dicts[d][ArgsKey := List(args)]];
    forall head: Word | Ser(head) != ArgsKey
      ensures Bound(vm, head) == old(Bound(vm, head))
    {
      var key := Ser(head);
      MeaningOtherKey(DeepCopy, vm.world.scopes, dicts0, d, ArgsKey, List(args), vm.Walk(), vm.Boundary(), key, vm.IsBlacklisted(key));
    }
  }

  /** A deferred restore: `arguments` in the dict `d` is set back, or deleted when it was unbound. */
  method RestoreArgs(w: World, d: nat, prev: Option<Word>)
    requires w.Valid() && d < |w.dicts|
    modifies w`dicts
    ensures w.Valid() && w.dicts == old(w.dicts[d := Rebound(w.dicts[d], ArgsKey, prev)])
  {
    w.dicts := w.dicts[d := Rebound(w.dicts[d], ArgsKey, prev)];
  }

  /** `eval`'s kill check: a signal waiting on a live VM's kill channel is taken. */
  method TakeKill(vm: VM) returns (killed: bool)
    requires vm.Valid()
    modifies vm.world`signalled
    ensures vm.Valid() && killed == old(vm.alive && vm.id in vm.world.signalled)
    ensures vm.world.signalled == old(vm.world.signalled) - (if killed then {vm.id} else {})
  {
    killed := vm.alive && vm.id in vm.world.signalled;
    if killed {
      vm.world.signalled := vm.world.signalled - {vm.id};
    }
  }

  // -------------------------------------------------------------------
  // The evaluator

  /**
   * One node of `rewrite`: a literal or a quote is itself, `$x` is
   * `_deref`'d, a clause is evaluated, and a splice yields the items of
   * the list its operand evaluates to.
   */
  method Fill(vm: VM, n: Node, fuel: nat) returns (r: Out<seq<Word>>, ghost got: Out<Word>)
    requires vm.Valid()
    modifies vm, vm.world
    ensures Grows(vm)
    ensures n.Literal? ==> r == Done([n.w]) && unchanged(vm) && unchanged(vm.world)
    ensures n.QuoteNode? ==> r == Done([n.q]) && unchanged(vm) && unchanged(vm.world)
    ensures r.Done? && !n.Splice? ==> |r.value| == 1
    ensures !n.Literal? && !n.QuoteNode? && fuel == 0 ==> r == Unwound(Exhausted)
    ensures (n.Indirect? || n.Clause? || n.Splice?) && got.Unwound? ==> r == Unwound(got.u)
    ensures (n.Indirect? || n.Clause?) && got.Done? ==> r == Done([got.value])
    ensures n.Splice? && got.Done? ==>
      r == if got.value.List? then Done(got.value.items) else Unwound(Panicked(RuntimeError(Some(vm.id), [FStr(SpliceText)])))
    ensures (n.Indirect? || n.Splice?) && fuel > 0 && old(vm.alive) && n.operand.Literal? ==> got == old(Looked(vm, n.operand.w))
    decreases fuel, 0
  {
    got := Unwound(Exhausted);
    match n
    case Literal(w) => return Done([w]), got;
    case QuoteNode(q) => return Done([q]), got;
    case Indirect(op) =>
      if fuel == 0 {
        return Unwound(Exhausted), got;
      }
      var w, inner := Deref(vm, op, fuel - 1);
      got := w;
      return if w.Done? then Done([w.value]) else Unwound(w.u), got;
    case Clause(tokens) =>
      if fuel == 0 {
        return Unwound(Exhausted), got;
      }
      var w := EvalLine(vm, tokens, fuel - 1);
      got := w;
      return if w.Done? then Done([w.value]) else Unwound(w.u), got;
    case Splice(op) =>
      if fuel == 0 {
        return Unwound(Exhausted), got;
      }
      var w;
      if op.Clause? {
        w := EvalLine(vm, op.tokens, fuel - 1);
      } else {
        ghost var inner;
        w, inner := Deref(vm, op, fuel - 1);
      }
      got := w;
      if w.Unwound? {
        return Unwound(w.u), got;
      }
      if !w.value.List? {
        return Unwound(Panicked(RuntimeError(Some(vm.id), [FStr(SpliceText)]))), got;
      }
      return Done(w.value.items), got;
  }

  /**
   * `rewrite`: the words of a line, each node contributing its words in
   * order; a line of literals and quotes is copied without touching the VM.
   */
  method Rewrite(vm: VM, line: Line, fuel: nat) returns (r: Out<seq<Word>>, ghost parts: seq<seq<Word>>)
    requires vm.Valid()
    modifies vm, vm.world
    ensures Grows(vm)
    ensures r.Done? ==> Fills(line, parts) && r.value == Flatten(parts)
    ensures Plain(line) ==> r.Done? && unchanged(vm) && unchanged(vm.world)
    decreases fuel, 1
  {
    var words := [];
    parts := [];
    var i := 0;
    while i < |line|
      invariant i <= |line| && Grows(vm) && Fills(line[..i], parts) && words == Flatten(parts)
      invariant Plain(line) ==> unchanged(vm) && unchanged(vm.world)
    {
      ghost var got;
      var w;
      w, got := Fill(vm, line[i], fuel);
      if w.Unwound? {
        return Unwound(w.u), parts;
      }
      assert Flatten(parts + [w.value]) == Flatten(parts) + w.value by {
        assert (parts + [w.value])[..|parts|] == parts;
      }
      words := words + w.value;
      parts := parts + [w.value];
      i := i + 1;
      assert line[..i] == line[..i - 1] + [line[i - 1]];
    }
    assert line[..i] == line;
    return Done(words), parts;
  }

  /**
   * `_deref`: the name a node stands for is looked up.  A clause must give
   * a symbol or a quote (whose source is the name); a quote node's source
   * is the name; a literal is the name itself.
   */
  method Deref(vm: VM, n: Node, fuel: nat) returns (r: Out<Word>, ghost got: Out<Word>)
    requires vm.Valid()
    modifies vm, vm.world
    ensures Grows(vm)
    ensures (n.Splice? || n.Indirect?) ==> r == Unwound(Panicked(SystemError(Some(vm.id), [FStr(BadNodeText)])))
    ensures (n.Literal? || n.QuoteNode?) && old(vm.alive) ==> (unchanged(vm) && unchanged(vm.world) &&
      var key := if n.Literal? then Ser(n.w) else Ser(n.q);
      r == match old(vm.Resolve(key))
           case Some(v) => Done(v)
           case None => Unwound(Panicked(VariableUndefined(Some(vm.id), FWord(if n.Literal? then n.w else Sym(key))))))
    ensures n.Clause? && fuel == 0 ==> r == Unwound(Exhausted)
    ensures n.Clause? && got.Unwound? ==> r == Unwound(got.u)
    ensures n.Clause? && got.Done? ==> r == Named(vm, got.value)
    decreases fuel, 0
  {
    var name: Word;
    got := Unwound(Exhausted);
    match n {
    case Clause(tokens) =>
      if fuel == 0 {
        return Unwound(Exhausted), got;
      }
      var w := EvalLine(vm, tokens, fuel - 1);
      got := w;
      if w.Unwound? {
        return Unwound(w.u), got;
      }
      if w.value.Quote? {
        name := Sym(w.value.source);
      } else if w.value.Symbol? {
        name := w.value;
      } else {
        return Unwound(Mismatch(vm.id, "symbol or quote", w.value)), got;
      }
    case QuoteNode(q) => name := Sym(Ser(q));
    case Literal(w) => name := w;
    case _ => return Unwound(Panicked(SystemError(Some(vm.id), [FStr(BadNodeText)]))), got;
    }
    if !vm.alive {
      return Unwound(Panicked(GoPanic)), got;
    }
    r := vm.LookupOrElse(name);
  }

  /**
   * `peval`: the head of a rewritten line is classified (looked up when it
   * is neither a quote nor an alien), an alien is called with the rest of
   * the line, and an unprotected quote, given or returned, is compiled to
   * run with its arguments.  An empty line dereferences Go's nil.
   */
  method Peval(vm: VM, line: seq<Word>, fuel: nat) returns (r: Out<Step>)
    requires vm.Valid()
    modifies vm, vm.world
    ensures Grows(vm)
    ensures line == [] || !old(vm.alive) ==> r == Unwound(Panicked(GoPanic)) && unchanged(vm) && unchanged(vm.world)
    ensures line != [] && old(vm.alive) ==>
      var c := Calls.Classify(vm.id, line[0], old(Bound(vm, line[0])));
      (c.Refused? ==> r == Unwound(Panicked(c.p))) &&
      (c.Marker? ==> r == Done(Deferring(line[1..]))) &&
      (c.RunQuote? ==> r == Invoked(vm.world.parse, Unprotect(c.q), line[1..])) &&
      (!c.CallAlien? ==> unchanged(vm) && unchanged(vm.world)) &&
      (c.CallAlien? && r.Done? && r.value.Runs? ==> r.value.args == [])
    ensures line != [] && old(vm.alive) && old(Settled(vm, line, fuel)).Some? ==>
      r == old(Settled(vm, line, fuel)).value && unchanged(vm) && unchanged(vm.world)
    decreases fuel, 0
  {
    if line == [] || !vm.alive {
      return Unwound(Panicked(GoPanic));
    }
    var head, args := line[0], line[1..];
    var bound: Option<Word> := None;
    if !head.Quote? && !head.Alien? {
      bound := vm.Lookup(head);
    }
    match Calls.Classify(vm.id, head, bound)
    case Refused(p) => return Unwound(Panicked(p));
    case Marker => return Done(Deferring(args));
    case RunQuote(q) => return Invoked(vm.world.parse, Unprotect(q), args);
    case CallAlien(id) =>
      if fuel == 0 {
        return Unwound(Exhausted);
      }
      var reply := CallAlien(vm, id, args, Count(line), fuel - 1);
      if reply.Unwound? {
        return Unwound(reply.u);
      }
      return Replied(vm.world.parse, reply.value);
  }

  /**
   * An alien called with its arguments and count: the builtins and the
   * closures the interpreter made run here; any other alien is the host's.
   */
  method CallAlien(vm: VM, id: nat, args: seq<Word>, ac: nat, fuel: nat) returns (r: Out<Reply>)
    requires vm.Valid() && vm.alive
    modifies vm, vm.world
    ensures Grows(vm)
    ensures id !in old(vm.world.aliens) ==> r == vm.world.host(id, args, ac) && unchanged(vm) && unchanged(vm.world)
    ensures id in old(vm.world.aliens) && old(vm.world.aliens[id]).Aggregated? ==>
      r == Aggregate(vm.id, old(vm.world.aliens[id]).table, args) && unchanged(vm) && unchanged(vm.world)
    decreases fuel, 3
  {
    if id !in vm.world.aliens {
      return vm.world.host(id, args, ac);
    }
    match vm.world.aliens[id]
    case Aggregated(table) => return Aggregate(vm.id, table, args);
    case Captured(d, cmd) =>
      r := RunCaptured(vm, d, cmd, args, fuel);
    case Native(b) =>
      var w := RunBuiltin(vm, b, args, fuel);
      r := if w.Done? then Done(Value(w.value)) else Unwound(w.u);
  }

  /** The builtins of builtins.go, by name. */
  method RunBuiltin(vm: VM, b: Builtin, args: seq<Word>, fuel: nat) returns (r: Out<Word>)
    requires vm.Valid() && vm.alive
    modifies vm, vm.world
    ensures Grows(vm)
    decreases fuel, 2
  {
    match b
    case EvalCmd =>
      if fuel == 0 {
        return Unwound(Exhausted);
      }
      r := BiEval(vm, args, fuel - 1);
    case SafeEvalCmd =>
      if fuel == 0 {
        return Unwound(Exhausted);
      }
      r := SafeEval(vm, args, fuel - 1);
    case SetCmd => r := RunScopeBuiltin(vm, b, args);
    case UpdateCmd => r := RunScopeBuiltin(vm, b, args);
    case ForkCmd => r := RunScopeBuiltin(vm, b, args);
    case UnforkCmd => r := RunScopeBuiltin(vm, b, args);
    case _ => r := RunExportBuiltin(vm, b, args);
  }

  /** The builtins of builtins.go that bind names and fork or unfork the current scope. */
  method RunScopeBuiltin(vm: VM, b: Builtin, args: seq<Word>) returns (r: Out<Word>)
    requires vm.Valid() && vm.alive && (b.SetCmd? || b.UpdateCmd? || b.ForkCmd? || b.UnforkCmd?)
    modifies vm, vm.world
    ensures Grows(vm)
  {
    match b
    case SetCmd => r := SetX(vm, args);
    case UpdateCmd => r := UpdateX(vm, args);
    case ForkCmd => r := NsFork(vm, args);
    case UnforkCmd => r := NsUnfork(vm, args);
  }

  /** The builtins of builtins.go that capture, view or export bindings. */
  method RunExportBuiltin(vm: VM, b: Builtin, args: seq<Word>) returns (r: Out<Word>)
    requires vm.Valid() && vm.alive && (b.CaptureCmd? || b.GlobalsCmd? || b.ExportCmd? || b.ExportsCmd?)
    modifies vm, vm.world
    ensures Grows(vm)
  {
    match b
    case CaptureCmd => r := NsCapture(vm, args);
    case GlobalsCmd => r := NsGlobals(vm, args);
    case ExportCmd => r := ExportX(vm, args);
    case ExportsCmd => r := ExportsX(vm, args);
  }

  /**
   * `_eval_line`, for a clause: the line is rewritten and its command run;
   * a `defer` is refused here.
   */
  method EvalLine(vm: VM, line: Line, fuel: nat) returns (r: Out<Word>)
    requires vm.Valid()
    modifies vm, vm.world
    ensures Grows(vm)
    ensures Plain(line) && old(vm.alive) && line != [] ==>
      var c := old(HeadOf(vm, line));
      (c.Refused? ==> r == Unwound(Panicked(c.p))) &&
      (c.Marker? ==> r == Unwound(Panicked(RuntimeError(Some(vm.id), [FStr(ClauseDeferText)]))))
    decreases fuel, 3
  {
    var step := Command(vm, line, fuel);
    if step.Unwound? {
      return Unwound(step.u);
    }
    match step.value
    case Deferring(_) => return Unwound(Panicked(RuntimeError(Some(vm.id), [FStr(ClauseDeferText)])));
    case Produced(w) => return Done(NoCodeResult(step.value));
    case Runs(lines, a) =>
      if lines == [] {
        return Done(NoCodeResult(step.value));
      }
      if fuel == 0 {
        return Unwound(Exhausted);
      }
      r := Eval(vm, lines, a, fuel - 1);
  }

  /** `peval(rewrite(line))`: what one command of a script comes to. */
  method Command(vm: VM, line: Line, fuel: nat) returns (r: Out<Step>)
    requires vm.Valid()
    modifies vm, vm.world
    ensures Grows(vm)
    ensures Plain(line) && old(vm.alive) && line != [] ==>
      var c := old(HeadOf(vm, line));
      (c.Refused? ==> r == Unwound(Panicked(c.p))) &&
      (c.Marker? ==> r == Done(Deferring(PlainWords(line)[1..])))
    ensures Plain(line) && old(vm.alive) && line != [] && old(Settled(vm, PlainWords(line), fuel)).Some? ==>
      r == old(Settled(vm, PlainWords(line), fuel)).value && unchanged(vm) && unchanged(vm.world)
    decreases fuel, 2
  {
    var words, parts := Rewrite(vm, line, fuel);
    if words.Unwound? {
      return Unwound(words.u);
    }
    if Plain(line) {
      PlainRewrite(line, parts);
    }
    r := Peval(vm, words.value, fuel);
  }

  /** The word of a literal or quote node. */
  function Ser1(n: Node): Word
    requires n.Literal? || n.QuoteNode?
  {
    if n.Literal? then n.w else n.q
  }

  /** The words of a line of literals and quotes. */
  function PlainWords(line: Line): (ws: seq<Word>)
    requires Plain(line)
    ensures |ws| == |line| && forall i | 0 <= i < |line| :: ws[i] == Ser1(line[i])
  {
    seq(|line|, i requires 0 <= i < |line| => Ser1(line[i]))
  }

  /** A line of literals and quotes rewrites to its own words. */
  lemma {:induction false} PlainRewrite(line: Line, parts: seq<seq<Word>>)
    requires Plain(line) && Fills(line, parts)
    ensures Flatten(parts) == PlainWords(line)
    decreases |line|
  {
    if line != [] {
      var init := line[..|line| - 1];
      var pinit := parts[..|parts| - 1];
      assert Plain(init) && Fills(init, pinit);
      PlainRewrite(init, pinit);
      assert PlainWords(line) == PlainWords(init) + [Ser1(line[|line| - 1])];
    }
  }

  /**
   * `eval`: a script of no commands is Null; otherwise the script runs
   * with `arguments` bound, and on every outcome the binding of the
   * caller's scope is restored as it was.
   */
  method Eval(vm: VM, lines: seq<Line>, args: seq<Word>, fuel: nat) returns (r: Out<Word>)
    requires vm.Valid()
    modifies vm, vm.world
    ensures Grows(vm)
    ensures lines == [] ==> r == Done(Null) && unchanged(vm) && unchanged(vm.world)
    ensures lines != [] && !old(vm.alive) ==> r == Unwound(Panicked(GoPanic)) && unchanged(vm) && unchanged(vm.world)
    ensures lines != [] && old(vm.alive) ==>
      old(vm.Current()) < |vm.world.dicts| &&
      Binding(vm.world.dicts[old(vm.Current())], ArgsKey) == old(Binding(vm.world.dicts[vm.Current()], ArgsKey))
    ensures old(vm.alive) && fuel > 0 && Lone(lines) ==> RefusedTail(old(HeadOf(vm, lines[0])), vm.id, r)
    ensures old(vm.alive) && fuel > 0 && Lone(lines) && old(Once(vm, lines, fuel - 1)).Some? ==>
      r == old(Once(vm, lines, fuel - 1)).value
    decreases fuel, 2
  {
    if lines == [] {
      return Done(Null);
    }
    if !vm.alive {
      return Unwound(Panicked(GoPanic));
    }
    var out, stack := Loop(vm, lines, args, fuel);
    ghost var ran;
    r, ran := Unwind(vm, stack, out, fuel);
  }

  /**
   * The loop of `eval`: each pass binds `arguments`, runs the commands
   * before the last (attaching a handler for each `defer`, running any
   * code, discarding results), then the last command, whose code, if any,
   * is the next pass; a waiting kill signal stops it.  The work deferred
   * is returned with the outcome, the first restore at the bottom.
   */
  method Loop(vm: VM, lines: seq<Line>, args: seq<Word>, fuel: nat) returns (out: Out<Word>, stack: seq<Pending>)
    requires vm.Valid() && vm.alive && lines != []
    modifies vm, vm.world
    ensures Grows(vm) && Queued(stack, |vm.world.dicts|)
    ensures stack != [] && stack[0] == Restore(old(vm.Current()), old(Binding(vm.world.dicts[vm.Current()], ArgsKey)))
    ensures fuel > 0 && Lone(lines) && (old(HeadOf(vm, lines[0])).Refused? || old(HeadOf(vm, lines[0])).Marker?) ==>
      |stack| == 1 && RefusedTail(old(HeadOf(vm, lines[0])), vm.id, out)
    ensures fuel > 0 && Lone(lines) && old(Once(vm, lines, fuel - 1)).Some? ==>
      |stack| == 1 && out == old(Once(vm, lines, fuel - 1)).value
    decreases fuel, 1
  {
    var p := Bind(vm, args);
    out, stack := Passes(vm, lines, [p], fuel);
  }

  /** The passes of `eval`'s loop, the first already bound. */
  method Passes(vm: VM, lines: seq<Line>, stack0: seq<Pending>, fuel: nat) returns (out: Out<Word>, stack: seq<Pending>)
    requires vm.Valid() && vm.alive && lines != [] && stack0 != [] && Queued(stack0, |vm.world.dicts|)
    modifies vm, vm.world
    ensures Grows(vm) && Queued(stack, |vm.world.dicts|)
    ensures stack != [] && stack[0] == stack0[0]
    ensures (fuel > 0 && |lines| == 1 && Plain(lines[0]) && lines[0] != [] &&
             (old(HeadOf(vm, lines[0])).Refused? || old(HeadOf(vm, lines[0])).Marker?)) ==>
      stack == stack0 && RefusedTail(old(HeadOf(vm, lines[0])), vm.id, out)
    ensures fuel > 0 && |lines| == 1 && Plain(lines[0]) && lines[0] != [] && old(Once(vm, lines, fuel - 1)).Some? ==>
      stack == stack0 && out == old(Once(vm, lines, fuel - 1)).value
    decreases fuel, 0
  {
    ghost var stops := fuel > 0 && |lines| == 1 && Plain(lines[0]) && lines[0] != [] &&
      (HeadOf(vm, lines[0]).Refused? || HeadOf(vm, lines[0]).Marker? || Once(vm, lines, fuel - 1).Some?);
    stack := stack0;
    var script, arguments := lines, [];
    var left := fuel;
    while true
      invariant Grows(vm) && Queued(stack, |vm.world.dicts|) && script != []
      invariant stack != [] && stack[0] == stack0[0]
      invariant stops ==> script == lines && stack == stack0 && unchanged(vm) && unchanged(vm.world)
      decreases left
    {
      if fuel == 0 {
        return Unwound(Exhausted), stack;
      }
      var tail;
      stack, tail := Pass(vm, script, stack, fuel - 1);
      if tail.Unwound? {
        return Unwound(tail.u), stack;
      }
      var ret;
      ret, script, arguments := tail.value.0, tail.value.1, tail.value.2;
      var killed := TakeKill(vm);
      if killed {
        return Unwound(KillCode), stack;
      }
      if script == [] {
        return Done(ret), stack;
      }
      if left == 0 || !vm.alive {
        return Unwound(if left == 0 then Exhausted else Panicked(GoPanic)), stack;
      }
      left := left - 1;
      stack := Rebind(vm, stack, arguments);
    }
  }

  /**
   * One pass of `eval`'s loop: the commands before the last, then the
   * last; a script of one command runs only that, as its tail.
   */
  method Pass(vm: VM, script: seq<Line>, stack: seq<Pending>, fuel: nat) returns (stack': seq<Pending>, r: Out<(Word, seq<Line>, seq<Word>)>)
    requires vm.Valid() && Queued(stack, |vm.world.dicts|) && script != []
    modifies vm, vm.world
    ensures Grows(vm) && Queued(stack', |vm.world.dicts|) && stack <= stack'
    ensures |script| == 1 && Plain(script[0]) && script[0] != [] && old(vm.alive) ==>
      stack' == stack && RefusedTail(old(HeadOf(vm, script[0])), vm.id, r)
    ensures |script| == 1 && Plain(script[0]) && script[0] != [] && old(vm.alive) && old(Settled(vm, PlainWords(script[0]), fuel)).Some? ==>
      stack' == stack && r == TailOf(vm.id, old(Settled(vm, PlainWords(script[0]), fuel)).value) &&
      unchanged(vm) && unchanged(vm.world)
    decreases fuel, 6
  {
    var failed;
    stack', failed := RunLines(vm, script[..|script| - 1], stack, fuel);
    if failed.Some? {
      return stack', Unwound(failed.value);
    }
    r := TailCall(vm, script[|script| - 1], fuel);
  }

  /** The binding of the next pass, queued for restoring after those before it. */
  method Rebind(vm: VM, stack: seq<Pending>, args: seq<Word>) returns (stack': seq<Pending>)
    requires vm.Valid() && vm.alive && Queued(stack, |vm.world.dicts|)
    modifies vm.world`dicts
    ensures vm.Valid() && vm.world.Kept() && Queued(stack', |vm.world.dicts|) && stack < stack'
  {
    var next := Bind(vm, args);
    stack' := stack + [next];
  }

  /**
   * The last command of a pass: its result, and the code it yields with
   * that code's arguments, which are the next pass (no code: the pass was
   * the last); a `defer` cannot be here.
   */
  method TailCall(vm: VM, line: Line, fuel: nat) returns (r: Out<(Word, seq<Line>, seq<Word>)>)
    requires vm.Valid()
    modifies vm, vm.world
    ensures Grows(vm)
    ensures Plain(line) && old(vm.alive) && line != [] ==> RefusedTail(old(HeadOf(vm, line)), vm.id, r)
    ensures Plain(line) && old(vm.alive) && line != [] && old(Settled(vm, PlainWords(line), fuel)).Some? ==>
      r == TailOf(vm.id, old(Settled(vm, PlainWords(line), fuel)).value) && unchanged(vm) && unchanged(vm.world)
    decreases fuel, 3
  {
    var step := Command(vm, line, fuel);
    if step.Unwound? {
      return Unwound(step.u);
    }
    match step.value
    case Deferring(_) => return Unwound(Panicked(RuntimeError(Some(vm.id), [FStr(TailDeferText)])));
    case Produced(w) => return Done((w, [], []));
    case Runs(c, a) => return Done((if c == [] then NoCodeResult(step.value) else Null, c, a));
  }

  /**
   * The commands of a pass before the last, each as `RunLine` runs it;
   * the first failure stops the pass.
   */
  method RunLines(vm: VM, script: seq<Line>, stack: seq<Pending>, fuel: nat) returns (stack': seq<Pending>, failed: Option<Unwind>)
    requires vm.Valid() && Queued(stack, |vm.world.dicts|)
    modifies vm, vm.world
    ensures Grows(vm) && Queued(stack', |vm.world.dicts|) && Deferred(stack, stack')
    ensures script == [] ==> stack' == stack && failed.None? && unchanged(vm) && unchanged(vm.world)
    ensures script != [] && Plain(script[0]) && script[0] != [] && old(vm.alive) ==>
      var c := old(HeadOf(vm, script[0]));
      (c.Refused? ==> stack' == stack && failed == Some(Panicked(c.p))) &&
      (c.Marker? && |script[0]| == 1 ==> stack' == stack && failed == Some(NoDeferred(vm.id))) &&
      (c.Marker? && |script[0]| > 1 ==> |stack| < |stack'| && stack'[|stack|] == Handler(PlainWords(script[0])[1..]))
    decreases fuel, 5
  {
    ghost var defers := script != [] && Plain(script[0]) && script[0] != [] && vm.alive &&
      HeadOf(vm, script[0]).Marker? && |script[0]| > 1;
    ghost var head := if script != [] && Plain(script[0]) && script[0] != [] then Some(HeadOf(vm, script[0])) else None;
    stack' := stack;
    var i := 0;
    while i < |script|
      invariant i <= |script| && Grows(vm) && Queued(stack', |vm.world.dicts|) && Deferred(stack, stack')
      invariant i == 0 ==> stack' == stack && unchanged(vm) && unchanged(vm.world)
      invariant i == 0 && head.Some? ==> HeadOf(vm, script[0]) == head.value
      invariant 0 < i && head.Some? && old(vm.alive) ==> !head.value.Refused? && !(head.value.Marker? && |script[0]| == 1)
      invariant 0 < i && defers ==> |stack| < |stack'| && stack'[|stack|] == Handler(PlainWords(script[0])[1..])
    {
      var next;
      next, failed := RunLine(vm, script[i], stack', fuel);
      if failed.Some? {
        return stack', failed;
      }
      stack' := next;
      i := i + 1;
    }
    failed := None;
  }

  /** `defer` with no command: the ArgumentError `eval` raises. */
  function NoDeferred(vm: nat): Unwind
  {
    Panicked(ArgumentError(Some(vm), FStr("defer"), FStr("No command to defer"), FStr("")))
  }

  /**
   * One command of a pass before the last: a `defer` with a command
   * attaches a handler for it, one without raises ArgumentError; code the
   * command yields is evaluated and its result discarded.
   */
  method RunLine(vm: VM, line: Line, stack: seq<Pending>, fuel: nat) returns (stack': seq<Pending>, failed: Option<Unwind>)
    requires vm.Valid() && Queued(stack, |vm.world.dicts|)
    modifies vm, vm.world
    ensures Grows(vm) && Queued(stack', |vm.world.dicts|) && Deferred(stack, stack') && |stack'| <= |stack| + 1
    ensures |stack| < |stack'| ==> failed.None?
    ensures Plain(line) && line != [] && old(vm.alive) ==>
      var c := old(HeadOf(vm, line));
      (c.Refused? ==> stack' == stack && failed == Some(Panicked(c.p))) &&
      (c.Marker? && |line| == 1 ==> stack' == stack && failed == Some(NoDeferred(vm.id))) &&
      (c.Marker? && |line| > 1 ==> stack' == stack + [Handler(PlainWords(line)[1..])] && failed.None?)
    decreases fuel, 4
  {
    stack' := stack;
    var step := Command(vm, line, fuel);
    if step.Unwound? {
      return stack', Some(step.u);
    }
    match step.value {
    case Deferring(a) =>
      if a == [] {
        return stack', Some(NoDeferred(vm.id));
      }
      stack' := stack' + [Handler(a)];
    case Runs(c, a) =>
      if c != [] {
        if fuel == 0 {
          return stack', Some(Exhausted);
        }
        var e := Eval(vm, c, a, fuel - 1);
        if e.Unwound? {
          return stack', Some(e.u);
        }
      }
    case Produced(_) =>
    }
    failed := None;
  }

  /**
   * The deferred work of `eval`, last first: restores set `arguments`
   * back, handlers run their command (a failing handler's unwinding
   * replaces the outcome).  The bottom restore runs last, so its binding
   * is the one left.
   */
  method Unwind(vm: VM, stack: seq<Pending>, out: Out<Word>, fuel: nat) returns (r: Out<Word>, ghost ran: seq<seq<Word>>)
    requires vm.Valid() && Queued(stack, |vm.world.dicts|)
    modifies vm, vm.world
    ensures Grows(vm)
    ensures stack != [] && stack[0].Restore? ==>
      stack[0].dict < |vm.world.dicts| && Binding(vm.world.dicts[stack[0].dict], ArgsKey) == stack[0].prev
    ensures (forall k | 0 <= k < |stack| :: stack[k].Restore?) ==> r == out
    ensures out.Unwound? ==> r.Unwound?
    ensures r.Done? ==> r == out
    ensures ran == TopFirst(stack)
    decreases fuel, 1
  {
    r := out;
    ran := [];
    var i := |stack|;
    while i > 0
      invariant 0 <= i <= |stack| && Grows(vm) && Queued(stack, |vm.world.dicts|)
      invariant (forall k | i <= k < |stack| :: stack[k].Restore?) ==> r == out
      invariant out.Unwound? ==> r.Unwound?
      invariant r.Done? ==> r == out
      invariant i == 0 && stack != [] && stack[0].Restore? ==> Binding(vm.world.dicts[stack[0].dict], ArgsKey) == stack[0].prev
      invariant ran == TopFirst(stack[i..])
    {
      i := i - 1;
      assert stack[i..][1..] == stack[i + 1..];
      match stack[i] {
      case Restore(d, prev) =>
        RestoreArgs(vm.world, d, prev);
      case Handler(command) =>
        ran := ran + [command];
        var failed := RunHandler(vm, command, fuel);
        if failed.Some? {
          r := Unwound(failed.value);
        }
      }
    }
  }

  /** A deferred handler: its command is `peval`'d and any code it yields evaluated; the result is discarded. */
  method RunHandler(vm: VM, command: seq<Word>, fuel: nat) returns (failed: Option<Unwind>)
    requires vm.Valid()
    modifies vm, vm.world
    ensures Grows(vm)
    decreases fuel, 0
  {
    if fuel == 0 {
      return Some(Exhausted);
    }
    var step := Peval(vm, command, fuel - 1);
    if step.Unwound? {
      return Some(step.u);
    }
    if step.value.Runs? && step.value.lines != [] {
      var e := Eval(vm, step.value.lines, step.value.args, fuel - 1);
      if e.Unwound? {
        return Some(e.u);
      }
    }
    return None;
  }

  // -------------------------------------------------------------------
  // Builtins that evaluate

  /**
   * `InvokeOrElse`: no words is the no-op; otherwise the command runs as
   * `peval` and `eval` run it, except that a `defer` is refused.
   */
  method InvokeOrElse(vm: VM, args: seq<Word>, fuel: nat) returns (r: Out<Word>)
    requires vm.Valid()
    modifies vm, vm.world
    ensures Grows(vm)
    ensures args == [] ==> r == Done(Null) && unchanged(vm) && unchanged(vm.world)
    ensures args != [] && old(vm.alive) ==>
      var c := Calls.Classify(vm.id, args[0], old(Bound(vm, args[0])));
      (c.Refused? ==> r == Unwound(Panicked(c.p))) &&
      (c.Marker? ==> r == Unwound(Panicked(RuntimeError(Some(vm.id), [FStr(InvokeDeferText)])))) &&
      (c.RunQuote? && vm.world.parse(c.q.source).Unparsable? ==> r == Unwound(Panicked(vm.world.parse(c.q.source).err))) &&
      (c.RunQuote? && vm.world.parse(c.q.source) == Commands([]) ==> r == Done(Null))
    decreases fuel, 1
  {
    if args == [] {
      return Done(Null);
    }
    var step := Peval(vm, args, fuel);
    if step.Unwound? {
      return Unwound(step.u);
    }
    match step.value
    case Deferring(_) => return Unwound(Panicked(RuntimeError(Some(vm.id), [FStr(InvokeDeferText)])));
    case Produced(_) => return Done(NoCodeResult(step.value));
    case Runs(lines, a) =>
      if lines == [] {
        return Done(NoCodeResult(step.value));
      }
      if fuel == 0 {
        return Unwound(Exhausted);
      }
      r := Eval(vm, lines, a, fuel - 1);
  }

  /** What `eval` and `Invoke` recover: a halt becomes its payload and a gelo error its error word. */
  function Recovered(out: Out<Word>): (r: Out<Word>)
    ensures r.Unwound? ==> r == out && !out.u.Halted? && !(out.u.Panicked? && out.u.p.Raise?)
    ensures out.Done? ==> r == out
  {
    match out
    case Unwound(Halted(info)) => Done(List(info))
    case Unwound(Panicked(Raise(err))) => Done(err)
    case _ => out
  }

  /** `eval`'s entry: a new scope over the current one becomes current, and the old current scope the boundary. */
  method Enter(vm: VM) returns (ns: Option<nat>, top: Option<nat>, ghost scopes0: seq<Scope>)
    requires vm.Valid() && vm.alive
    modifies vm`cns, vm`top, vm.world
    ensures vm.Valid() && vm.alive && vm.world.Grown() && vm.top == ns && vm.cns.Some? && vm.world.scopes[vm.cns.value].up == ns
    ensures ns == old(vm.cns) && top == old(vm.top) && scopes0 == old(vm.world.scopes)
    ensures Acyclic(scopes0) && scopes0 <= vm.world.scopes && Within(ns, |scopes0|) && Within(top, |scopes0|) && Rooted(scopes0, ns, top)
  {
    ns, top, scopes0 := vm.cns, vm.top, vm.world.scopes;
    vm.LiveWalk();
    var s := vm.world.NewScope(ns);
    SpawnedRooted(vm.world.scopes, s, ns);
    vm.top, vm.cns := ns, Some(s);
  }

  /** `eval`'s exit: the scope and boundary saved on entry are put back. */
  method Leave(vm: VM, ns: Option<nat>, top: Option<nat>, ghost scopes0: seq<Scope>)
    requires vm.Valid() && Acyclic(scopes0) && scopes0 <= vm.world.scopes
    requires Within(ns, |scopes0|) && Within(top, |scopes0|) && Rooted(scopes0, ns, top)
    modifies vm`cns, vm`top
    ensures vm.Valid() && vm.cns == ns && vm.top == top
  {
    RootedGrows(scopes0, vm.world.scopes, ns, top);
    vm.cns, vm.top := ns, top;
  }

  /** A captured closure's exit: the caller's scope is current again. */
  method Pop(vm: VM, up: Option<nat>, ghost scopes0: seq<Scope>)
    requires vm.Valid() && Acyclic(scopes0) && scopes0 <= vm.world.scopes && Within(up, |scopes0|)
    requires vm.alive ==> Rooted(scopes0, up, vm.top)
    modifies vm`cns
    ensures vm.Valid() && vm.cns == up
  {
    RootedGrows(scopes0, vm.world.scopes, up, vm.top);
    vm.cns := up;
  }

  /**
   * `eval`: the arguments are invoked in a new scope over the current one,
   * which becomes the boundary; the caller's scope and boundary are put
   * back on every outcome, and a halt or gelo error is returned as a word.
   */
  method BiEval(vm: VM, args: seq<Word>, fuel: nat) returns (r: Out<Word>)
    requires vm.Valid() && vm.alive
    modifies vm, vm.world
    ensures Grows(vm)
    ensures vm.cns == old(vm.cns) && vm.top == old(vm.top)
    ensures args == [] ==> r == Unwound(BadArgs(vm.id, "eval", "code argument*", args))
    ensures r.Unwound? && args != [] ==> !r.u.Halted? && !(r.u.Panicked? && r.u.p.Raise?)
    decreases fuel, 2
  {
    if args == [] {
      return Unwound(BadArgs(vm.id, "eval", "code argument*", args));
    }
    var ns, top, scopes0 := Enter(vm);
    var out := InvokeOrElse(vm, args, fuel);
    Leave(vm, ns, top, scopes0);
    r := Recovered(out);
  }

  /**
   * A closure of `ns.capture`: its quote is invoked with the arguments in
   * a new scope over the current one that shares the captured dict; the
   * current scope must be that scope again at the end, and the caller's
   * becomes current again, or a RuntimeError replaces the outcome.
   */
  method RunCaptured(vm: VM, d: nat, cmd: Word, args: seq<Word>, fuel: nat) returns (r: Out<Reply>)
    requires vm.Valid() && vm.alive && d < |vm.world.dicts|
    modifies vm, vm.world
    ensures Grows(vm)
    ensures r.Done? ==> vm.cns == old(vm.cns)
    decreases fuel, 2
  {
    var up := vm.cns;
    ghost var scopes0 := vm.world.scopes;
    vm.ForkShared(d);
    var ns := vm.cns;
    var out := InvokeOrElse(vm, [cmd] + args, fuel);
    if vm.cns != ns {
      return Unwound(Panicked(RuntimeError(Some(vm.id), [FStr(CapturedText)])));
    }
    Pop(vm, up, scopes0);
    r := if out.Done? then Done(Value(out.value)) else Unwound(out.u);
  }

  /**
   * `safe-eval`: a child VM is spawned to run the quote given (or a quote
   * built from all the arguments) with the rest as its arguments; its
   * error is returned as a word, and the child is destroyed afterwards.
   */
  method SafeEval(vm: VM, args: seq<Word>, fuel: nat) returns (r: Out<Word>)
    requires vm.Valid() && vm.alive
    modifies vm, vm.world
    ensures Grows(vm)
    ensures vm.cns == old(vm.cns) || !vm.alive
    ensures args == [] ==> r == Unwound(BadArgs(vm.id, "safe-eval", "code argument*", args))
    decreases fuel, 5
  {
    if args == [] {
      return Unwound(BadArgs(vm.id, "safe-eval", "code argument*", args));
    }
    var prog, rest := if args[0].Quote? then Source(args[0].source) else Built(args), if args[0].Quote? then args[1..] else [];
    var spawned := vm.Spawn();
    if spawned.Unwound? {
      return Unwound(spawned.u);
    }
    ghost var scopes1 := vm.world.scopes;
    r := RunChild(spawned.value, prog, rest, fuel);
    RootedGrows(scopes1, vm.world.scopes, vm.cns, vm.top);
  }

  /**
   * The spawned child of `safe-eval` at work: its program is set (a
   * syntax error destroys it and is raised), it is run, and it is
   * destroyed; a failure to destroy it replaces the outcome.
   */
  method RunChild(child: VM, prog: Program, rest: seq<Word>, fuel: nat) returns (r: Out<Word>)
    requires child.Valid() && child.Healthy()
    modifies child, child.world
    ensures child.Valid() && child.world.Grown()
    ensures r.Done? ==> !child.alive
    decreases fuel, 4
  {
    var programmed := child.SetProgram(prog);
    if programmed.Unwound? {
      return Unwound(programmed.u);
    }
    if programmed.value.Some? {
      var gone := child.Destroy();
      if gone.Some? {
        return Unwound(Panicked(gone.value));
      }
      return Unwound(Panicked(Raise(programmed.value.value)));
    }
    var ran := Exec(child, Some(rest), fuel);
    var gone := child.Destroy();
    if gone.Some? {
      return Unwound(Panicked(gone.value));
    }
    r := match ran
      case Unwound(u) => Unwound(u)
      case Done(Finished(w)) => Done(w)
      case Done(Failed(err)) => Done(err);
  }

  // -------------------------------------------------------------------
  // Running a VM

  /** What `Exec`'s recover makes of the outcome; `killed` is what destroying the VM gave. */
  function ExecRecovered(out: Out<Word>, killed: Option<Panic>): (r: Out<Outcome>)
    ensures out == Unwound(KillCode) ==> r == if killed.Some? then Unwound(Panicked(killed.value)) else Done(Finished(Null))
    ensures out != Unwound(KillCode) && r.Unwound? ==> out.Unwound? && r.u == out.u && !r.u.Halted? && !(r.u.Panicked? && r.u.p.Raise?) && !r.u.KillCode?
  {
    match out
    case Done(w) => Done(Finished(w))
    case Unwound(KillCode) => if killed.Some? then Unwound(Panicked(killed.value)) else Done(Finished(Null))
    case Unwound(Halted(info)) => Done(Finished(List(info)))
    case Unwound(Panicked(Raise(err))) => Done(Failed(err))
    case Unwound(u) => Unwound(u)
  }

  /** `fcode` of a VM's program: its source compiled, or the one command a built program is. */
  function CodeOf(parse: Bytes -> Compiled, prog: Program): (c: Compiled)
    ensures prog.Built? ==> c.Commands? && (c.lines == [] <==> prog.items == [])
    ensures prog.Built? && prog.items != [] ==> |c.lines| == 1 && |c.lines[0]| == |prog.items|
  {
    match prog
    case Source(src) => parse(src)
    case Built(items) => Commands(TailCode(items))
  }

  /**
   * `Exec`: the VM, which must be alive and have a program, runs it with
   * the arguments given (none: the empty list).  A kill destroys the VM
   * and gives Null, a halt gives its payload, a gelo error is returned;
   * anything else unwinds further.
   */
  method Exec(vm: VM, args: Option<seq<Word>>, fuel: nat) returns (r: Out<Outcome>)
    requires vm.Valid()
    modifies vm, vm.world
    ensures vm.Valid() && vm.world.Grown()
    ensures !old(vm.Healthy()) ==> r == Unwound(Panicked(SystemError(Some(vm.id), [FStr(Dead("execute its program"))])))
    ensures old(vm.Healthy()) && old(vm.program).None? ==> r == Unwound(Panicked(SystemError(Some(vm.id), [FStr(NoProgramText)])))
    ensures (old(vm.Healthy()) && old(vm.program).Some? && old(vm.program).value.Source? &&
      vm.world.parse(old(vm.program).value.src) == Commands([])) ==> r == Done(Finished(Null))
    ensures r.Unwound? ==> !r.u.Halted? && !(r.u.Panicked? && r.u.p.Raise?) && !r.u.KillCode?
    decreases fuel, 3
  {
    var p := vm.Sanity("execute its program");
    if p.Some? {
      return Unwound(Panicked(p.value));
    }
    if vm.program.None? {
      return Unwound(Panicked(SystemError(Some(vm.id), [FStr(NoProgramText)])));
    }
    var code := CodeOf(vm.world.parse, vm.program.value);
    if code.Unparsable? {
      return Unwound(Panicked(SystemError(Some(vm.id), [FStr("The program is corrupt")])));
    }
    var out := Eval(vm, code.lines, if args.Some? then args.value else [], fuel);
    var killed: Option<Panic> := None;
    if out == Unwound(KillCode) {
      killed := vm.Destroy();
    }
    r := ExecRecovered(out, killed);
  }

  /**
   * `Do`: the input, which must parse, is evaluated with no arguments.  A
   * kill destroys the VM and gives Null, a halt gives its payload and a
   * runtime error is returned; syntax errors and anything else unwind
   * further.
   */
  method Do(vm: VM, input: Bytes, fuel: nat) returns (r: Out<Outcome>)
    requires vm.Valid()
    modifies vm, vm.world
    ensures vm.Valid() && vm.world.Grown()
    ensures !old(vm.Healthy()) ==> r == Unwound(Panicked(SystemError(Some(vm.id), [FStr(Dead("execute: " + input))])))
    ensures old(vm.Healthy()) && vm.world.parse(input).Unparsable? ==> r == Unwound(Panicked(vm.world.parse(input).err))
    ensures old(vm.Healthy()) && vm.world.parse(input) == Commands([]) ==> r == Done(Finished(Null))
    ensures r.Unwound? && (old(vm.Healthy()) ==> vm.world.parse(input).Commands?) ==>
      !r.u.Halted? && !r.u.KillCode? && !(r.u.Panicked? && r.u.p.Raise? && r.u.p.err.Error? && r.u.p.err.kind == RuntimeErr)
    decreases fuel, 3
  {
    var p := vm.Sanity("execute: " + input);
    if p.Some? {
      return Unwound(Panicked(p.value));
    }
    var code := vm.world.parse(input);
    if code.Unparsable? {
      return Unwound(Panicked(code.err));
    }
    var out := Eval(vm, code.lines, [], fuel);
    var killed: Option<Panic> := None;
    if out == Unwound(KillCode) {
      killed := vm.Destroy();
    }
    r := DoRecovered(out, killed);
  }

  /** What `Do`'s recover makes of the outcome: as `Exec`'s, except that only runtime errors are caught. */
  function DoRecovered(out: Out<Word>, killed: Option<Panic>): (r: Out<Outcome>)
    ensures out == Unwound(KillCode) ==> r == if killed.Some? then Unwound(Panicked(killed.value)) else Done(Finished(Null))
    ensures out != Unwound(KillCode) ==> (r.Unwound? <==> (out.Unwound? && !out.u.Halted? &&
      !(out.u.Panicked? && out.u.p.Raise? && out.u.p.err.Error? && out.u.p.err.kind == RuntimeErr)))
    ensures out != Unwound(KillCode) && r.Unwound? ==> r.u == out.u
    ensures r.Done? && r.value.Failed? ==> out == Unwound(Panicked(Raise(r.value.err)))
  {
    match out
    case Done(w) => Done(Finished(w))
    case Unwound(KillCode) => if killed.Some? then Unwound(Panicked(killed.value)) else Done(Finished(Null))
    case Unwound(Halted(info)) => Done(Finished(List(info)))
    case Unwound(Panicked(Raise(err))) =>
      if err.Error? && err.kind == RuntimeErr then Done(Failed(err)) else Unwound(out.u)
    case Unwound(u) => Unwound(u)
  }

  /** `Run`: `ParseProgram` then `Exec`; a syntax error in the program is returned. */
  method Run(vm: VM, input: Bytes, args: Option<seq<Word>>, fuel: nat) returns (r: Out<Outcome>)
    requires vm.Valid()
    modifies vm, vm.world
    ensures vm.Valid() && vm.world.Grown()
    ensures old(vm.Healthy()) && vm.world.parse(input).Unparsable? && vm.world.parse(input).err.Raise? ==>
      r == Done(Failed(vm.world.parse(input).err.err))
    ensures old(vm.Healthy()) && vm.world.parse(input) == Commands([]) ==> r == Done(Finished(Null))
    decreases fuel, 4
  {
    var parsed := vm.ParseProgram(input);
    if parsed.Unwound? {
      return Unwound(parsed.u);
    }
    if parsed.value.Some? {
      return Done(Failed(parsed.value.value));
    }
    r := Exec(vm, args, fuel);
  }

  // -------------------------------------------------------------------
  // The rest of the Invoke family

  /**
   * `Invoke`: `InvokeOrElse`, with a gelo error returned rather than
   * raised; a halt, a kill and any other panic unwind further.
   */
  method Invoke(vm: VM, args: seq<Word>, fuel: nat) returns (r: Out<Outcome>)
    requires vm.Valid()
    modifies vm, vm.world
    ensures Grows(vm)
    ensures args == [] ==> r == Done(Finished(Null))
    ensures r.Unwound? ==> !(r.u.Panicked? && r.u.p.Raise?)
    decreases fuel, 2
  {
    var out := InvokeOrElse(vm, args, fuel);
    r := match out
      case Done(w) => Done(Finished(w))
      case Unwound(Panicked(Raise(err))) => Done(Failed(err))
      case Unwound(u) => Unwound(u);
  }

  /**
   * `IsInvokable`: a symbol is looked up (a name bound to nothing is not
   * invokable), and what it means or the word itself is accepted when it
   * is code that parses, an alien or the `defer` marker.
   */
  method IsInvokable(vm: VM, w: Word) returns (r: Out<Option<Word>>)
    requires vm.Valid()
    ensures w.Symbol? && !vm.alive ==> r == Unwound(Panicked(GoPanic))
    ensures w.Symbol? && vm.alive ==> r == Done(Invokable(vm.world.parse, vm.Resolve(Ser(w))))
    ensures !w.Symbol? ==> r == Done(Invokable(vm.world.parse, Some(w)))
  {
    var it := Some(w);
    if w.Symbol? {
      if !vm.alive {
        return Unwound(Panicked(GoPanic));
      }
      it := vm.Lookup(w);
    }
    return Done(Invokable(vm.world.parse, it));
  }

  /** `InvokeWordOrReturn`: what is invokable is invoked (a list as its words), anything else returned. */
  method InvokeWordOrReturn(vm: VM, w: Word, fuel: nat) returns (r: Out<Outcome>)
    requires vm.Valid()
    modifies vm, vm.world
    ensures Grows(vm)
    ensures !w.Symbol? && Invokable(vm.world.parse, Some(w)).None? ==> r == Done(Finished(w)) && unchanged(vm) && unchanged(vm.world)
    ensures w.Symbol? && old(vm.alive) && old(vm.Resolve(Ser(w))).None? ==> r == Done(Finished(w)) && unchanged(vm) && unchanged(vm.world)
    decreases fuel, 3
  {
    var i := IsInvokable(vm, w);
    if i.Unwound? {
      return Unwound(i.u);
    }
    if i.value.None? {
      return Done(Finished(w));
    }
    r := Invoke(vm, Lists.AsList(i.value.value), fuel);
  }

  /** `TailInvokeWordOrReturn`: what is invokable is handed back to run in the caller's place, anything else returned. */
  method TailInvokeWordOrReturn(vm: VM, w: Word) returns (r: Out<Reply>)
    requires vm.Valid()
    ensures w.Symbol? && !vm.alive ==> r == Unwound(Panicked(GoPanic))
    ensures var i := Invokable(vm.world.parse, if w.Symbol? then vm.Resolve(Ser(w)) else Some(w));
      (w.Symbol? ==> vm.alive) ==> r == Done(if i.Some? then Tail(Lists.AsList(i.value)) else Value(w))
  {
    var i := IsInvokable(vm, w);
    if i.Unwound? {
      return Unwound(i.u);
    }
    return Done(if i.value.Some? then Tail(Lists.AsList(i.value.value)) else Value(w));
  }

  /**
   * `PartialEval`: the quote's code with its `$`, `@` and clauses
   * evaluated and nothing run, one list of words per line.  A quote that
   * does not parse gives nothing, and a quote of no code one empty line.
   */
  method PartialEval(vm: VM, q: Word, fuel: nat) returns (r: Out<Option<Word>>, ghost parts: seq<seq<seq<Word>>>)
    requires vm.Valid() && q.Quote?
    modifies vm, vm.world
    ensures Grows(vm)
    ensures vm.world.parse(q.source).Unparsable? ==> r == Done(None) && unchanged(vm) && unchanged(vm.world)
    ensures vm.world.parse(q.source) == Commands([]) ==> r == Done(Some(List([EmptyList]))) && unchanged(vm) && unchanged(vm.world)
    ensures r.Done? && r.value.Some? && vm.world.parse(q.source).lines != [] ==>
      var lines := vm.world.parse(q.source).lines;
      r.value.value.List? && |r.value.value.items| == |lines| == |parts| &&
      forall i | 0 <= i < |lines| :: Fills(lines[i], parts[i]) && r.value.value.items[i] == List(Flatten(parts[i]))
    decreases fuel, 2
  {
    parts := [];
    var code := vm.world.parse(Unprotect(q).source);
    if code.Unparsable? {
      return Done(None), parts;
    }
    if code.lines == [] {
      return Done(Some(List([EmptyList]))), parts;
    }
    var items := [];
    var i := 0;
    while i < |code.lines|
      invariant i <= |code.lines| && Grows(vm) && vm.world.parse(q.source) == code
      invariant |items| == i == |parts| && forall k | 0 <= k < i :: Fills(code.lines[k], parts[k]) && items[k] == List(Flatten(parts[k]))
    {
      var words, p := Rewrite(vm, code.lines[i], fuel);
      if words.Unwound? {
        return Unwound(words.u), parts;
      }
      items := items + [List(words.value)];
      parts := parts + [p];
      i := i + 1;
    }
    return Done(Some(List(items))), parts;
  }
}
