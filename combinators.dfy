/**
 * The combinators `o`, `cleave` and `partial`, in the two versions the
 * repository carries: src/gelo/commands/combinator.go and
 * commands/combinator.go.
 *
 * Each command checks its arguments and builds an alien; the alien is
 * modelled by the value `Made` that says what it will do, and by the
 * function that applies it to the arguments it is later called with.
 * The two versions differ in how a command argument is checked: the
 * first tests `possiblyInvokable` and keeps the word (`Possibly`), the
 * second calls `InvokableOrElse` and keeps what it resolves to
 * (`Resolving`).  `possiblyInvokable` is not part of this model; it is
 * the parameter `possibly`.  Running a command is the VM's
 * `InvokeOrElse`, given as `run`.
 */
module Combinators {
  import opened Base
  import opened Words
  import opened Errors
  import opened Machine
  import opened Api
  import Lists
  import opened Natives
  import ListCmds

  /** What a combinator's alien does when called. */
  datatype Made =
    | Identity                                  // `Alien(Id)`
    | Itself(w: Word)                           // the one command given, returned as it is
    | Composed(fs: seq<Word>)                   // commands in the order they are applied
    | Cleaved(cmds: seq<Word>)                  // commands applied side by side
    | Partially(cmd: Word, plan: seq<Slot>)     // a command with some arguments fixed

  /** A position in a `partial` plan: a fixed word, a hole `X`, or the rest `*`. */
  datatype Slot = Fill(item: Word) | Hole | Slurp

  /** The check of src/gelo/commands/combinator.go: a word that may be invokable is kept as it is. */
  function Possibly(vm: nat, possibly: Word -> bool): Word -> Out<Word>
  {
    w => if possibly(w) then Done(w) else Unwound(Mismatch(vm, "invokable", w))
  }

  /** The check of commands/combinator.go: `InvokableOrElse`. */
  function Resolving(vm: nat, invokable: Word -> Option<Word>): Word -> Out<Word>
  {
    w => InvokableOrElse(vm, invokable, w)
  }

  // -------------------------------------------------------------------
  // o

  /**
   * `o`: no commands give the identity and one command is returned after
   * its check; otherwise every command is checked in order, the first
   * that fails raising, and the alien applies them last one first.
   */
  function ComposeOf(check: Word -> Out<Word>, args: seq<Word>): (r: Out<Made>)
    ensures args == [] ==> r == Done(Identity)
    ensures |args| == 1 ==> r == (match check(args[0]) case Done(i) => Done(Itself(i)) case Unwound(u) => Unwound(u))
    ensures |args| >= 2 ==> (r.Done? <==> forall i | 0 <= i < |args| :: check(args[i]).Done?)
    ensures |args| >= 2 && r.Done? ==>
      r.value.Composed? && |r.value.fs| == |args| &&
      forall i | 0 <= i < |args| :: r.value.fs[i] == check(args[|args| - 1 - i]).value
  {
    if args == [] then Done(Identity)
    else if |args| == 1 then
      match check(args[0])
      case Done(i) => Done(Itself(i))
      case Unwound(u) => Unwound(u)
    else
      match Flipped(MapOut(args, check))
      case Done(fs) => Done(Composed(fs))
      case Unwound(u) => Unwound(u)
  }

  /** When some command fails its check, `o` raises the first such failure. */
  lemma ComposeRaisesFirst(check: Word -> Out<Word>, args: seq<Word>, k: nat)
    requires 2 <= |args| && k < |args| && check(args[k]).Unwound?
    requires forall i | 0 <= i < k :: check(args[i]).Done?
    ensures ComposeOf(check, args) == Unwound(check(args[k]).u)
  {
    FirstRaise(args, check, k);
  }

  /** `o`'s loop after `i` commands: `fs` holds their checked values, last first. */
  ghost predicate ComposeSoFar(check: Word -> Out<Word>, args: seq<Word>, i: nat, vals: seq<Word>, fs: seq<Word>)
    requires i <= |args|
  {
    MapOut(args, check) == Before(vals, MapOut(args[i..], check)) && fs == ListCmds.Reversed(vals)
  }

  /** One round of a loop over `MapOut`. */
  lemma MapOutStep(ws: seq<Word>, f: Word -> Out<Word>, i: nat)
    requires i < |ws|
    ensures MapOut(ws[i..], f) == if f(ws[i]).Unwound? then Unwound(f(ws[i]).u) else Before([f(ws[i]).value], MapOut(ws[i + 1..], f))
  {
    assert ws[i..][1..] == ws[i + 1..] && ws[i..][0] == ws[i];
  }

  /** `o`'s loop: each checked command is pushed to the front of the list being built. */
  method Compose(check: Word -> Out<Word>, args: seq<Word>) returns (r: Out<Made>)
    ensures r == ComposeOf(check, args)
  {
    if args == [] {
      return Done(Identity);
    }
    if |args| == 1 {
      var c := check(args[0]);
      if c.Unwound? {
        return Unwound(c.u);
      }
      return Done(Itself(c.value));
    }
    var fs := CheckReversed(check, args);
    if fs.Unwound? {
      return Unwound(fs.u);
    }
    return Done(Composed(fs.value));
  }

  /** The checked words, last first, or the first failed check. */
  function Flipped(o: Out<seq<Word>>): Out<seq<Word>>
  {
    match o
    case Done(ws) => Done(ListCmds.Reversed(ws))
    case Unwound(u) => Unwound(u)
  }

  /** The loop of `o`: each checked command is pushed to the front. */
  method CheckReversed(check: Word -> Out<Word>, args: seq<Word>) returns (r: Out<seq<Word>>)
    ensures r == Flipped(MapOut(args, check))
  {
    var fs: seq<Word> := [];
    ghost var vals: seq<Word> := [];
    var i := 0;
    assert args[0..] == args;
    BeforeNothing(MapOut(args, check));
    while i < |args|
      invariant 0 <= i <= |args| && ComposeSoFar(check, args, i, vals, fs)
    {
      MapOutStep(args, check, i);
      var c := check(args[i]);
      if c.Unwound? {
        return Unwound(c.u);
      }
      BeforeStep(vals, [c.value], MapOut(args[i + 1..], check));
      ListCmds.ReversedAppend(vals, [c.value]);
      vals := vals + [c.value];
      fs := [c.value] + fs;
      i := i + 1;
    }
    assert args[i..] == [] && vals + [] == vals;
    return Done(fs);
  }

  /** The words handed on: each command's result made a list with `AsList`, the first raise ending the chain. */
  function Threaded(run: Runner, cs: seq<Word>, args: seq<Word>): Out<seq<Word>>
    decreases |cs|
  {
    if cs == [] then Done(args)
    else
      match run([cs[0]] + args)
      case Unwound(u) => Unwound(u)
      case Done(w) => Threaded(run, cs[1..], Lists.AsList(w))
  }

  /** What threading the rest of the commands makes of an outcome so far. */
  function ThenThreaded(run: Runner, so: Out<seq<Word>>, cs: seq<Word>): Out<seq<Word>>
  {
    match so
    case Unwound(u) => Unwound(u)
    case Done(args) => Threaded(run, cs, args)
  }

  /** Threading through two runs of commands is threading through the first, then the second. */
  lemma {:induction false} ThreadedSplit(run: Runner, cs: seq<Word>, ds: seq<Word>, args: seq<Word>)
    ensures Threaded(run, cs + ds, args) == ThenThreaded(run, Threaded(run, cs, args), ds)
    decreases |cs|
  {
    if cs != [] {
      assert (cs + ds)[0] == cs[0] && (cs + ds)[1..] == cs[1..] + ds;
      match run([cs[0]] + args)
      case Unwound(u) =>
      case Done(w) => ThreadedSplit(run, cs[1..], ds, Lists.AsList(w));
    } else {
      assert cs + ds == ds;
    }
  }

  /**
   * The alien of src/gelo/commands/combinator.go: all but the last
   * command are threaded, and the last is run on what they made.  An
   * alien with no commands dereferences nil; `o` never builds one.
   */
  function ApplyComposed(run: Runner, fs: seq<Word>, args: seq<Word>): Out<Word>
  {
    if fs == [] then Unwound(Panicked(GoPanic))
    else
      match Threaded(run, fs[..|fs| - 1], args)
      case Unwound(u) => Unwound(u)
      case Done(ret) => run([fs[|fs| - 1]] + ret)
  }

  /** The alien of commands/combinator.go: as above, with the last command tail-invoked. */
  function ApplyComposedTail(run: Runner, fs: seq<Word>, args: seq<Word>): Out<Reply>
  {
    if fs == [] then Unwound(Panicked(GoPanic))
    else
      match Threaded(run, fs[..|fs| - 1], args)
      case Unwound(u) => Unwound(u)
      case Done(ret) => Done(TailCmd(fs[|fs| - 1], ret))
  }

  /**
   * `o f g` called on `x` is `f` run on what `g` made of `x`, a list's
   * items spread out as `f`'s arguments; a raise in `g` ends it.
   */
  lemma ComposeRightToLeft(check: Word -> Out<Word>, f: Word, g: Word, run: Runner, x: seq<Word>)
    requires check(f).Done? && check(g).Done?
    ensures ComposeOf(check, [f, g]) == Done(Composed([check(g).value, check(f).value]))
    ensures ApplyComposed(run, [check(g).value, check(f).value], x) ==
      (match run([check(g).value] + x)
       case Unwound(u) => Unwound(u)
       case Done(w) => run([check(f).value] + Lists.AsList(w)))
  {
    var fs := [check(g).value, check(f).value];
    var m := MapOut([f, g], check);
    assert m.Done? && |m.value| == 2;
    assert m.value == [check(f).value, check(g).value];
    assert ListCmds.Reversed([check(f).value, check(g).value]) == fs;
    assert fs[..1] == [check(g).value] && fs[1..] == [check(f).value];
    assert fs[..1][1..] == [];
    match run([check(g).value] + x)
    case Unwound(u) =>
    case Done(w) =>
      assert Threaded(run, fs[..1], x) == Threaded(run, [], Lists.AsList(w));
  }

  /** Running the tail call the commands/combinator.go alien hands back is what the other alien does. */
  lemma TailComposeAgrees(run: Runner, fs: seq<Word>, args: seq<Word>)
    requires fs != []
    ensures ApplyComposedTail(run, fs, args).Done? ==> run(ApplyComposedTail(run, fs, args).value.items) == ApplyComposed(run, fs, args)
    ensures ApplyComposedTail(run, fs, args).Unwound? ==> ApplyComposed(run, fs, args) == Unwound(ApplyComposedTail(run, fs, args).u)
  {
  }

  /** The alien's loop: `ret` is threaded through every command but the last. */
  method Thread(run: Runner, cs: seq<Word>, args: seq<Word>) returns (r: Out<seq<Word>>)
    ensures r == Threaded(run, cs, args)
  {
    var ret := args;
    var i := 0;
    assert cs[0..] == cs;
    while i < |cs|
      invariant 0 <= i <= |cs|
      invariant Threaded(run, cs, args) == Threaded(run, cs[i..], ret)
    {
      assert cs[i..][1..] == cs[i + 1..];
      var out := run([cs[i]] + ret);
      if out.Unwound? {
        return Unwound(out.u);
      }
      ret := Lists.AsList(out.value);
      i := i + 1;
    }
    return Done(ret);
  }

  /** Calling the alien of src/gelo/commands/combinator.go. */
  method RunComposed(run: Runner, fs: seq<Word>, args: seq<Word>) returns (r: Out<Word>)
    ensures r == ApplyComposed(run, fs, args)
  {
    if fs == [] {
      return Unwound(Panicked(GoPanic));
    }
    var ret := Thread(run, fs[..|fs| - 1], args);
    if ret.Unwound? {
      return Unwound(ret.u);
    }
    r := run([fs[|fs| - 1]] + ret.value);
  }

  /** Calling the alien of commands/combinator.go. */
  method RunComposedTail(run: Runner, fs: seq<Word>, args: seq<Word>) returns (r: Out<Reply>)
    ensures r == ApplyComposedTail(run, fs, args)
  {
    if fs == [] {
      return Unwound(Panicked(GoPanic));
    }
    var ret := Thread(run, fs[..|fs| - 1], args);
    if ret.Unwound? {
      return Unwound(ret.u);
    }
    return Done(TailCmd(fs[|fs| - 1], ret.value));
  }

  /** With commands/combinator.go's check, one command is `InvokableOrElse` of it, and several are resolved before they are composed. */
  lemma ResolvedCompose(vm: nat, invokable: Word -> Option<Word>, args: seq<Word>)
    requires args != []
    ensures |args| == 1 ==>
      ComposeOf(Resolving(vm, invokable), args) ==
      (match InvokableOrElse(vm, invokable, args[0]) case Done(i) => Done(Itself(i)) case Unwound(u) => Unwound(u))
    ensures ComposeOf(Resolving(vm, invokable), args).Done? <==> forall i | 0 <= i < |args| :: invokable(args[i]).Some?
    ensures |args| >= 2 && ComposeOf(Resolving(vm, invokable), args).Done? ==>
      forall i | 0 <= i < |args| :: ComposeOf(Resolving(vm, invokable), args).value.fs[i] == invokable(args[|args| - 1 - i]).value
  {
    var check := Resolving(vm, invokable);
    assert forall i | 0 <= i < |args| :: check(args[i]) == InvokableOrElse(vm, invokable, args[i]);
  }

  // -------------------------------------------------------------------
  // cleave

  /** `cleave`: at least one command, each checked in order; the alien keeps them in order. */
  function CleaveOf(vm: nat, check: Word -> Out<Word>, args: seq<Word>): (r: Out<Made>)
    ensures args == [] ==> r == Unwound(BadArgs(vm, "cleave", "cmds+", args))
    ensures args != [] ==> (r.Done? <==> forall i | 0 <= i < |args| :: check(args[i]).Done?)
    ensures args != [] && r.Done? ==>
      r.value.Cleaved? && |r.value.cmds| == |args| &&
      forall i | 0 <= i < |args| :: r.value.cmds[i] == check(args[i]).value
  {
    if args == [] then Unwound(BadArgs(vm, "cleave", "cmds+", args))
    else
      match MapOut(args, check)
      case Done(cs) => Done(Cleaved(cs))
      case Unwound(u) => Unwound(u)
  }

  /** `cleave`'s loop: each checked command is appended. */
  method Cleave(vm: nat, check: Word -> Out<Word>, args: seq<Word>) returns (r: Out<Made>)
    ensures r == CleaveOf(vm, check, args)
  {
    if args == [] {
      return Unwound(BadArgs(vm, "cleave", "cmds+", args));
    }
    var cs := Each(check, args);
    if cs.Unwound? {
      return Unwound(cs.u);
    }
    return Done(Cleaved(cs.value));
  }

  /** A loop appending `f` of each word in turn; the first raise ends it. */
  method Each(f: Word -> Out<Word>, ws: seq<Word>) returns (r: Out<seq<Word>>)
    ensures r == MapOut(ws, f)
  {
    var out: seq<Word> := [];
    var i := 0;
    assert ws[0..] == ws;
    BeforeNothing(MapOut(ws, f));
    while i < |ws|
      invariant 0 <= i <= |ws|
      invariant MapOut(ws, f) == Before(out, MapOut(ws[i..], f))
    {
      MapOutStep(ws, f, i);
      var v := f(ws[i]);
      if v.Unwound? {
        return Unwound(v.u);
      }
      BeforeStep(out, [v.value], MapOut(ws[i + 1..], f));
      out := out + [v.value];
      i := i + 1;
    }
    assert ws[i..] == [] && out + [] == out;
    return Done(out);
  }

  /** A command run on the alien's arguments. */
  function Applied(run: Runner, args: seq<Word>): Word -> Out<Word>
  {
    c => run([c] + args)
  }

  /** The cleave alien: every command run on the same arguments, the results listed in command order. */
  function ApplyCleaved(run: Runner, cmds: seq<Word>, args: seq<Word>): (r: Out<Word>)
    ensures r.Done? <==> forall i | 0 <= i < |cmds| :: run([cmds[i]] + args).Done?
    ensures r.Done? ==>
      r.value.List? && |r.value.items| == |cmds| &&
      forall i | 0 <= i < |cmds| :: r.value.items[i] == run([cmds[i]] + args).value
  {
    var f := Applied(run, args);
    assert forall i | 0 <= i < |cmds| :: f(cmds[i]) == run([cmds[i]] + args);
    ListCmds.Listed(MapOut(cmds, f))
  }

  /** The first command that raises decides what the cleave alien raises. */
  lemma CleaveRaisesFirst(run: Runner, cmds: seq<Word>, args: seq<Word>, k: nat)
    requires k < |cmds| && run([cmds[k]] + args).Unwound?
    requires forall i | 0 <= i < k :: run([cmds[i]] + args).Done?
    ensures ApplyCleaved(run, cmds, args) == Unwound(run([cmds[k]] + args).u)
  {
    FirstRaise(cmds, Applied(run, args), k);
  }

  /** Calling the cleave alien. */
  method RunCleaved(run: Runner, cmds: seq<Word>, args: seq<Word>) returns (r: Out<Word>)
    ensures r == ApplyCleaved(run, cmds, args)
  {
    var out := Each(Applied(run, args), cmds);
    r := ListCmds.Listed(out);
  }

  // -------------------------------------------------------------------
  // partial: the plan

  const StarHole: Bytes := "there will be no arguments " + "left after *"
  const StarTwice: Bytes := "only one * can be specfied"
  const PartialSpec: Bytes := "command [args*|'*|'X]+"

  /** What a `partial` argument stands for: the symbol `X` a hole, the symbol `*` the rest, anything else itself. */
  function Kind(w: Word): (s: Slot)
    ensures s.Hole? <==> w.Symbol? && StrEqualsSym("X", w)
    ensures s.Slurp? <==> w.Symbol? && StrEqualsSym("*", w)
    ensures s.Fill? ==> s.item == w
  {
    if w.Symbol? && StrEqualsSym("X", w) then Hole
    else if w.Symbol? && StrEqualsSym("*", w) then Slurp
    else Fill(w)
  }

  function Kinds(ws: seq<Word>): (r: seq<Slot>)
    ensures |r| == |ws| && forall i | 0 <= i < |ws| :: r[i] == Kind(ws[i])
  {
    if ws == [] then [] else [Kind(ws[0])] + Kinds(ws[1..])
  }

  /** Every argument passes the vet. */
  predicate Vetted(vet: Word -> Out<Word>, ws: seq<Word>)
  {
    forall i | 0 <= i < |ws| :: vet(ws[i]).Done?
  }

  /** Nothing but fixed words after a `*`: no hole and no second `*`. */
  predicate Settled(plan: seq<Slot>)
  {
    forall i, j | 0 <= i < j < |plan| :: plan[i].Slurp? ==> plan[j].Fill?
  }

  predicate AllFills(plan: seq<Slot>)
  {
    forall i | 0 <= i < |plan| :: plan[i].Fill?
  }

  /**
   * The plan loop of `partial` over the arguments after the command: each
   * argument is first vetted (src/gelo/commands/combinator.go demands a
   * symbol; commands/combinator.go vets nothing), then a hole or a `*`
   * after a `*` is an ArgumentError reporting the arguments from there on.
   */
  function PlanOf(vm: nat, vet: Word -> Out<Word>, ws: seq<Word>, star: bool): (r: Out<seq<Slot>>)
    ensures r.Done? ==> r.value == Kinds(ws)
    decreases |ws|
  {
    if ws == [] then Done([])
    else
      match vet(ws[0])
      case Unwound(u) => Unwound(u)
      case Done(_) =>
        var k := Kind(ws[0]);
        if k.Hole? && star then Unwound(BadArgs(vm, "partial", StarHole, ws))
        else if k.Slurp? && star then Unwound(BadArgs(vm, "partial", StarTwice, ws))
        else Before([k], PlanOf(vm, vet, ws[1..], star || k.Slurp?))
  }

  /**
   * A plan is made exactly when every argument passes the vet and the
   * kinds are settled (and, once a `*` has been seen, all fixed words).
   */
  lemma {:induction false} PlanAccepts(vm: nat, vet: Word -> Out<Word>, ws: seq<Word>, star: bool)
    ensures PlanOf(vm, vet, ws, star).Done? <==> Vetted(vet, ws) && Settled(Kinds(ws)) && (star ==> AllFills(Kinds(ws)))
    decreases |ws|
  {
    if ws != [] {
      var k := Kind(ws[0]);
      PlanAccepts(vm, vet, ws[1..], star || k.Slurp?);
      assert Kinds(ws)[0] == k && Kinds(ws)[1..] == Kinds(ws[1..]);
      SettledCons(Kinds(ws));
      VettedCons(vet, ws);
    }
  }

  lemma VettedCons(vet: Word -> Out<Word>, ws: seq<Word>)
    requires ws != []
    ensures Vetted(vet, ws) <==> vet(ws[0]).Done? && Vetted(vet, ws[1..])
  {
    assert forall i | 0 < i < |ws| :: ws[i] == ws[1..][i - 1];
  }

  lemma SettledCons(p: seq<Slot>)
    requires p != []
    ensures Settled(p) <==> (p[0].Slurp? ==> AllFills(p[1..])) && Settled(p[1..])
    ensures AllFills(p) <==> p[0].Fill? && AllFills(p[1..])
  {
    assert forall j | 0 < j < |p| :: p[j] == p[1..][j - 1];
    if Settled(p) {
      assert Settled(p[1..]) by {
        forall i, j | 0 <= i < j < |p[1..]|
          ensures p[1..][i].Slurp? ==> p[1..][j].Fill?
        {
          assert p[1..][i] == p[i + 1] && p[1..][j] == p[j + 1];
        }
      }
    }
  }

  /**
   * `partial`: a command and at least one more argument; the command is
   * checked, then the plan is made from the rest.
   */
  function PartialOf(vm: nat, check: Word -> Out<Word>, vet: Word -> Out<Word>, args: seq<Word>): (r: Out<Made>)
    ensures |args| < 2 ==> r == Unwound(BadArgs(vm, "partial", PartialSpec, args))
    ensures |args| >= 2 && check(args[0]).Unwound? ==> r == Unwound(check(args[0]).u)
    ensures r.Done? ==> |args| >= 2 && r == Done(Partially(check(args[0]).value, Kinds(args[1..])))
  {
    if |args| < 2 then Unwound(BadArgs(vm, "partial", PartialSpec, args))
    else
      match check(args[0])
      case Unwound(u) => Unwound(u)
      case Done(cmd) =>
        match PlanOf(vm, vet, args[1..], false)
        case Unwound(u) => Unwound(u)
        case Done(plan) => Done(Partially(cmd, plan))
  }

  /** The vet of src/gelo/commands/combinator.go: `SymbolOrElse`. */
  function SymbolsOnly(vm: nat): Word -> Out<Word>
  {
    w => SymbolOrElse(vm, w)
  }

  /** The vet of commands/combinator.go: any word is accepted. */
  function Anything(): Word -> Out<Word>
  {
    w => Done(w)
  }

  /** With src/gelo/commands/combinator.go's vet, a plan is made iff every argument is a symbol and nothing but fixed words follows a `*`. */
  lemma SymbolPlans(vm: nat, ws: seq<Word>)
    ensures PlanOf(vm, SymbolsOnly(vm), ws, false).Done? <==> (forall i | 0 <= i < |ws| :: ws[i].Symbol?) && Settled(Kinds(ws))
  {
    PlanAccepts(vm, SymbolsOnly(vm), ws, false);
    assert forall i | 0 <= i < |ws| :: SymbolsOnly(vm)(ws[i]) == SymbolOrElse(vm, ws[i]);
  }

  /** With commands/combinator.go's vet, a plan is made iff nothing but fixed words follows a `*`; every other word is a fixed word. */
  lemma AnyPlans(vm: nat, ws: seq<Word>)
    ensures PlanOf(vm, Anything(), ws, false).Done? <==> Settled(Kinds(ws))
  {
    PlanAccepts(vm, Anything(), ws, false);
  }

  /** A `*` followed by `X` is refused, reporting the arguments from the `X` on. */
  lemma HoleAfterStar(vm: nat, vet: Word -> Out<Word>, ws: seq<Word>, x: Word)
    requires vet(Sym("*")).Done? && vet(x).Done? && x.Symbol? && StrEqualsSym("X", x)
    ensures PlanOf(vm, vet, [Sym("*"), x] + ws, false) ==
      Unwound(BadArgs(vm, "partial", StarHole, [x] + ws))
  {
    var all := [Sym("*"), x] + ws;
    assert all[1..] == [x] + ws && ([x] + ws)[0] == x;
    assert Kind(all[0]) == Slurp;
  }

  /** A second `*` is refused, reporting the arguments from it on. */
  lemma SecondStar(vm: nat, vet: Word -> Out<Word>, ws: seq<Word>)
    requires vet(Sym("*")).Done?
    ensures PlanOf(vm, vet, [Sym("*"), Sym("*")] + ws, false) ==
      Unwound(BadArgs(vm, "partial", StarTwice, [Sym("*")] + ws))
  {
    var all := [Sym("*"), Sym("*")] + ws;
    assert all[1..] == [Sym("*")] + ws && ([Sym("*")] + ws)[0] == Sym("*");
    assert Kind(all[0]) == Slurp;
  }

  /** The plan loop, building the chain of slots. */
  method Plan(vm: nat, vet: Word -> Out<Word>, ws: seq<Word>) returns (r: Out<seq<Slot>>)
    ensures r == PlanOf(vm, vet, ws, false)
  {
    var plan: seq<Slot> := [];
    var star := false;
    var i := 0;
    assert ws[0..] == ws;
    BeforeNothing(PlanOf(vm, vet, ws, false));
    while i < |ws|
      invariant 0 <= i <= |ws|
      invariant PlanSoFar(vm, vet, ws, i, plan, star)
    {
      PlanStep(vm, vet, ws, i, star);
      var v := vet(ws[i]);
      if v.Unwound? {
        return Unwound(v.u);
      }
      var k := Kind(ws[i]);
      if k.Hole? && star {
        return Unwound(BadArgs(vm, "partial", StarHole, ws[i..]));
      }
      if k.Slurp? && star {
        return Unwound(BadArgs(vm, "partial", StarTwice, ws[i..]));
      }
      BeforeStep(plan, [k], PlanOf(vm, vet, ws[i + 1..], star || k.Slurp?));
      plan := plan + [k];
      star := star || k.Slurp?;
      i := i + 1;
    }
    assert ws[i..] == [] && plan + [] == plan;
    return Done(plan);
  }

  /** The plan loop after `i` arguments: `plan` holds their slots, and `star` says whether one was `*`. */
  ghost predicate PlanSoFar(vm: nat, vet: Word -> Out<Word>, ws: seq<Word>, i: nat, plan: seq<Slot>, star: bool)
    requires i <= |ws|
  {
    PlanOf(vm, vet, ws, false) == Before(plan, PlanOf(vm, vet, ws[i..], star))
  }

  /** One round of the plan loop, as the plan function takes it. */
  lemma PlanStep(vm: nat, vet: Word -> Out<Word>, ws: seq<Word>, i: nat, star: bool)
    requires i < |ws|
    ensures PlanOf(vm, vet, ws[i..], star) ==
      if vet(ws[i]).Unwound? then Unwound(vet(ws[i]).u)
      else if Kind(ws[i]).Hole? && star then Unwound(BadArgs(vm, "partial", StarHole, ws[i..]))
      else if Kind(ws[i]).Slurp? && star then Unwound(BadArgs(vm, "partial", StarTwice, ws[i..]))
      else Before([Kind(ws[i])], PlanOf(vm, vet, ws[i + 1..], star || Kind(ws[i]).Slurp?))
  {
    assert ws[i..][1..] == ws[i + 1..] && ws[i..][0] == ws[i];
  }

  /** `partial`'s command, building the plan after the command's check. */
  method Partial(vm: nat, check: Word -> Out<Word>, vet: Word -> Out<Word>, args: seq<Word>) returns (r: Out<Made>)
    ensures r == PartialOf(vm, check, vet, args)
  {
    if |args| < 2 {
      return Unwound(BadArgs(vm, "partial", PartialSpec, args));
    }
    var cmd := check(args[0]);
    if cmd.Unwound? {
      return Unwound(cmd.u);
    }
    var plan := Plan(vm, vet, args[1..]);
    if plan.Unwound? {
      return Unwound(plan.u);
    }
    return Done(Partially(cmd.value, plan.value));
  }

  // -------------------------------------------------------------------
  // partial: the call

  /** The number of holes in a plan. */
  function Holes(plan: seq<Slot>): nat
  {
    if plan == [] then 0 else (if plan[0].Hole? then 1 else 0) + Holes(plan[1..])
  }

  /** The words of a plan of fixed words. */
  function Items(plan: seq<Slot>): (r: seq<Word>)
    requires AllFills(plan)
    ensures |r| == |plan| && forall i | 0 <= i < |plan| :: r[i] == plan[i].item
  {
    seq(|plan|, i requires 0 <= i < |plan| => plan[i].item)
  }

  const TooFew: Bytes := "requires at least one " + "more argument"
  const TooMany: Bytes := "got too many arguments"

  /**
   * The arguments the partial alien assembles: a fixed word as it is, a
   * hole the next argument, `*` all that are left; an argument left over
   * at the end, or a hole with none left, is an ArgumentError.
   */
  function Assemble(vm: nat, plan: seq<Slot>, args: seq<Word>): Out<seq<Word>>
    decreases |plan|
  {
    if plan == [] then
      if args == [] then Done([]) else Unwound(BadArgs(vm, "partial function", TooMany, args))
    else
      match plan[0]
      case Fill(w) => Before([w], Assemble(vm, plan[1..], args))
      case Hole =>
        if args == [] then Unwound(BadArgs(vm, "partial function", TooFew, []))
        else Before([args[0]], Assemble(vm, plan[1..], args[1..]))
      case Slurp => Before(args, Assemble(vm, plan[1..], []))
  }

  lemma SettledTail(plan: seq<Slot>)
    requires plan != [] && Settled(plan)
    ensures Settled(plan[1..])
    ensures plan[0].Slurp? ==> AllFills(plan[1..])
  {
    SettledCons(plan);
  }

  /** A plan of fixed words has no holes and no `*`, and takes no arguments. */
  lemma {:induction false} FillsOnly(vm: nat, plan: seq<Slot>)
    requires AllFills(plan)
    ensures Holes(plan) == 0 && Slurp !in plan
    ensures Assemble(vm, plan, []) == Done(Items(plan))
    decreases |plan|
  {
    if plan != [] {
      assert AllFills(plan[1..]) by {
        assert forall j | 0 < j < |plan| :: plan[1..][j - 1] == plan[j];
      }
      FillsOnly(vm, plan[1..]);
      assert Items(plan) == [plan[0].item] + Items(plan[1..]);
    }
  }

  /**
   * A settled plan is assembled exactly when the arguments fill its holes,
   * with none left over unless there is a `*` to take them.
   */
  lemma {:induction false} AssembleArity(vm: nat, plan: seq<Slot>, args: seq<Word>)
    requires Settled(plan)
    ensures Assemble(vm, plan, args).Done? <==> if Slurp in plan then Holes(plan) <= |args| else Holes(plan) == |args|
    decreases |plan|
  {
    if plan != [] {
      SettledTail(plan);
      assert Slurp in plan <==> plan[0] == Slurp || Slurp in plan[1..];
      match plan[0]
      case Fill(_) => AssembleArity(vm, plan[1..], args);
      case Hole =>
        if args != [] {
          AssembleArity(vm, plan[1..], args[1..]);
        }
      case Slurp => FillsOnly(vm, plan[1..]);
    }
  }

  /** Too few arguments for the holes: the hole with none left raises. */
  lemma {:induction false} AssembleTooFew(vm: nat, plan: seq<Slot>, args: seq<Word>)
    requires Settled(plan) && |args| < Holes(plan)
    ensures Assemble(vm, plan, args) == Unwound(BadArgs(vm, "partial function", TooFew, []))
    decreases |plan|
  {
    SettledTail(plan);
    match plan[0]
    case Fill(_) => AssembleTooFew(vm, plan[1..], args);
    case Hole =>
      if args != [] {
        AssembleTooFew(vm, plan[1..], args[1..]);
      }
    case Slurp => FillsOnly(vm, plan[1..]);
  }

  /** Without a `*`, arguments past the holes raise, reporting those left over. */
  lemma {:induction false} AssembleTooMany(vm: nat, plan: seq<Slot>, args: seq<Word>)
    requires Settled(plan) && Slurp !in plan && |args| > Holes(plan)
    ensures Assemble(vm, plan, args) == Unwound(BadArgs(vm, "partial function", TooMany, args[Holes(plan)..]))
    decreases |plan|
  {
    if plan != [] {
      SettledTail(plan);
      assert Slurp !in plan[1..];
      match plan[0]
      case Fill(_) => AssembleTooMany(vm, plan[1..], args);
      case Hole =>
        AssembleTooMany(vm, plan[1..], args[1..]);
        assert args[1..][Holes(plan[1..])..] == args[Holes(plan)..];
    }
  }

  lemma HolesCons(plan: seq<Slot>, i: nat)
    requires 0 < i <= |plan|
    ensures Holes(plan[..i]) == (if plan[0].Hole? then 1 else 0) + Holes(plan[1..][..i - 1])
  {
    assert plan[..i][1..] == plan[1..][..i - 1];
  }

  /**
   * Without a `*`, and with exactly as many arguments as holes, the
   * assembled words follow the plan: a fixed word where it stands, and
   * at each hole the argument numbered by the holes before it.
   */
  lemma {:induction false} AssembleInOrder(vm: nat, plan: seq<Slot>, args: seq<Word>)
    requires Slurp !in plan && |args| == Holes(plan)
    ensures Assemble(vm, plan, args).Done?
    ensures var r := Assemble(vm, plan, args).value;
      |r| == |plan| &&
      forall i | 0 <= i < |plan| ::
        (plan[i].Fill? ==> r[i] == plan[i].item) &&
        (plan[i].Hole? ==> Holes(plan[..i]) < |args| && r[i] == args[Holes(plan[..i])])
    decreases |plan|
  {
    if plan != [] {
      assert Slurp !in plan[1..];
      var rest := if plan[0].Hole? then args[1..] else args;
      AssembleInOrderStep(vm, plan, args, rest);
    }
  }

  lemma AssembleInOrderStep(vm: nat, plan: seq<Slot>, args: seq<Word>, rest: seq<Word>)
    requires plan != [] && Slurp !in plan && |args| == Holes(plan)
    requires rest == if plan[0].Hole? then args[1..] else args
    requires Slurp !in plan[1..]
    ensures Assemble(vm, plan, args).Done?
    ensures var r := Assemble(vm, plan, args).value;
      |r| == |plan| &&
      forall i | 0 <= i < |plan| ::
        (plan[i].Fill? ==> r[i] == plan[i].item) &&
        (plan[i].Hole? ==> Holes(plan[..i]) < |args| && r[i] == args[Holes(plan[..i])])
    decreases |plan|, 0
  {
    AssembleInOrder(vm, plan[1..], rest);
    var r' := Assemble(vm, plan[1..], rest).value;
    var head := if plan[0].Hole? then args[0] else plan[0].item;
    assert Assemble(vm, plan, args) == Done([head] + r');
    var r := [head] + r';
    forall i | 0 < i < |plan|
      ensures (plan[i].Fill? ==> r[i] == plan[i].item)
      ensures (plan[i].Hole? ==> Holes(plan[..i]) < |args| && r[i] == args[Holes(plan[..i])])
    {
      HolesCons(plan, i);
      assert plan[i] == plan[1..][i - 1] && r[i] == r'[i - 1];
    }
    assert plan[..0] == [];
  }

  /**
   * With a `*`, the assembled words are those the slots before it make
   * from the first arguments, then every argument left, then the fixed
   * words after it.
   */
  lemma {:induction false} AssembleRest(vm: nat, pre: seq<Slot>, post: seq<Slot>, front: seq<Word>, back: seq<Word>)
    requires Slurp !in pre && AllFills(post) && |front| == Holes(pre)
    ensures Assemble(vm, pre, front).Done?
    ensures Assemble(vm, pre + [Slurp] + post, front + back) == Done(Assemble(vm, pre, front).value + back + Items(post))
    decreases |pre|
  {
    if pre == [] {
      RestAtStar(vm, post, back);
      assert front == [] && front + back == back;
    } else {
      assert Slurp !in pre[1..];
      var front' := if pre[0].Hole? then front[1..] else front;
      AssembleRest(vm, pre[1..], post, front', back);
      RestStep(vm, pre[0], pre[1..], post, front, front', back);
      assert pre == [pre[0]] + pre[1..];
    }
  }

  /** The `*` first: every argument, then the fixed words. */
  lemma RestAtStar(vm: nat, post: seq<Slot>, back: seq<Word>)
    requires AllFills(post)
    ensures Assemble(vm, [], []) == Done([])
    ensures Assemble(vm, [] + [Slurp] + post, back) == Done([] + back + Items(post))
  {
    assert [] + [Slurp] + post == [Slurp] + post;
    assert ([Slurp] + post)[1..] == post;
    FillsOnly(vm, post);
    assert Assemble(vm, [Slurp] + post, back) == Before(back, Assemble(vm, post, []));
    assert [] + back == back;
  }

  /** What a plan starting with a fixed word or a hole assembles. */
  lemma AssembleCons(vm: nat, s: Slot, plan: seq<Slot>, args: seq<Word>)
    requires s.Fill? || (s.Hole? && args != [])
    ensures s.Fill? ==> Assemble(vm, [s] + plan, args) == Before([s.item], Assemble(vm, plan, args))
    ensures s.Hole? ==> Assemble(vm, [s] + plan, args) == Before([args[0]], Assemble(vm, plan, args[1..]))
  {
    assert ([s] + plan)[0] == s && ([s] + plan)[1..] == plan;
  }

  /** One slot before the `*`: it adds its word in front of what the rest assemble. */
  lemma RestStep(vm: nat, s: Slot, t: seq<Slot>, post: seq<Slot>, front: seq<Word>, front': seq<Word>, back: seq<Word>)
    requires !s.Slurp? && AllFills(post)
    requires (s.Hole? ==> front != [] && front' == front[1..]) && (s.Fill? ==> front' == front)
    requires Assemble(vm, t, front').Done?
    requires Assemble(vm, t + [Slurp] + post, front' + back) == Done(Assemble(vm, t, front').value + back + Items(post))
    ensures Assemble(vm, [s] + t, front).Done?
    ensures Assemble(vm, [s] + t + [Slurp] + post, front + back) == Done(Assemble(vm, [s] + t, front).value + back + Items(post))
  {
    var a' := Assemble(vm, t, front').value;
    var x := if s.Hole? then front[0] else s.item;
    ConsAssoc(s, t, [Slurp], post);
    if s.Hole? {
      ConsSplit(front, back);
    }
    AssembleCons(vm, s, t + [Slurp] + post, front + back);
    AssembleCons(vm, s, t, front);
    ConsAssoc(x, a', back, Items(post));
  }

  lemma ConsAssoc<T>(x: T, a: seq<T>, b: seq<T>, c: seq<T>)
    ensures [x] + a + b + c == [x] + (a + b + c)
  {
  }

  lemma ConsSplit<T>(front: seq<T>, back: seq<T>)
    requires front != []
    ensures (front + back)[0] == front[0] && (front + back)[1..] == front[1..] + back
  {
  }

  /**
   * The partial alien of src/gelo/commands/combinator.go: the command
   * runs on the assembled words through `Invoke`, and an error it
   * returns is raised again.
   */
  function ApplyPartial(vm: nat, run: Runner, cmd: Word, plan: seq<Slot>, args: seq<Word>): Out<Word>
  {
    match Assemble(vm, plan, args)
    case Unwound(u) => Unwound(u)
    case Done(xs) => Reraised(Caught(run([cmd] + xs)))
  }

  /** `panic(err)` of an error `Invoke` returned. */
  function Reraised(out: Out<Result<Word>>): Out<Word>
  {
    match out
    case Done(Fine(w)) => Done(w)
    case Done(Failed(err)) => Unwound(Panicked(Raise(err)))
    case Unwound(u) => Unwound(u)
  }

  /**
   * Raising again what `Invoke` caught is what running the command does:
   * the alien of src/gelo/commands/combinator.go is the one of
   * commands/combinator.go, which calls `InvokeOrElse` directly.
   */
  lemma PartialReraises(vm: nat, run: Runner, cmd: Word, plan: seq<Slot>, args: seq<Word>)
    ensures ApplyPartial(vm, run, cmd, plan, args) ==
      (match Assemble(vm, plan, args) case Unwound(u) => Unwound(u) case Done(xs) => run([cmd] + xs))
  {
    if Assemble(vm, plan, args).Done? {
      var out := run([cmd] + Assemble(vm, plan, args).value);
      match out
      case Done(_) =>
      case Unwound(u) =>
        if u.Panicked? && u.p.Raise? {
          assert Caught(out) == Done(Failed(u.p.err));
        }
    }
  }

  /** The call-time loop of the partial alien: the slots in order, consuming the arguments. */
  method AssembleArgs(vm: nat, plan: seq<Slot>, args: seq<Word>) returns (r: Out<seq<Word>>)
    ensures r == Assemble(vm, plan, args)
  {
    var out: seq<Word> := [];
    var rest := args;
    var i := 0;
    assert plan[0..] == plan;
    BeforeNothing(Assemble(vm, plan, args));
    while i < |plan|
      invariant 0 <= i <= |plan|
      invariant Assemble(vm, plan, args) == Before(out, Assemble(vm, plan[i..], rest))
    {
      assert plan[i..][0] == plan[i] && plan[i..][1..] == plan[i + 1..];
      match plan[i] {
        case Fill(w) =>
          BeforeStep(out, [w], Assemble(vm, plan[i + 1..], rest));
          out := out + [w];
        case Hole =>
          if rest == [] {
            return Unwound(BadArgs(vm, "partial function", TooFew, []));
          }
          BeforeStep(out, [rest[0]], Assemble(vm, plan[i + 1..], rest[1..]));
          out := out + [rest[0]];
          rest := rest[1..];
        case Slurp =>
          BeforeStep(out, rest, Assemble(vm, plan[i + 1..], []));
          out := out + rest;
          rest := [];
      }
      i := i + 1;
    }
    assert plan[i..] == [];
    if rest != [] {
      return Unwound(BadArgs(vm, "partial function", TooMany, rest));
    }
    assert out + [] == out;
    return Done(out);
  }

  /** Calling the partial alien of src/gelo/commands/combinator.go. */
  method RunPartial(vm: nat, run: Runner, cmd: Word, plan: seq<Slot>, args: seq<Word>) returns (r: Out<Word>)
    ensures r == ApplyPartial(vm, run, cmd, plan, args)
  {
    var xs := AssembleArgs(vm, plan, args);
    if xs.Unwound? {
      return Unwound(xs.u);
    }
    var got := Caught(run([cmd] + xs.value));
    if got.Unwound? {
      return Unwound(got.u);
    }
    match got.value {
      case Fine(w) => return Done(w);
      case Failed(err) => return Unwound(Panicked(Raise(err)));
    }
  }
}
