/**
 * The namespace commands of src/gelo/builtins.go that do not evaluate
 * code: `set!`, `update!`, `ns.fork`, `ns.unfork`, `ns.globals`,
 * `export!` and `exports!`, with the helpers `_go_up_n_levels` and
 * `_parse_up_levels`.  Each takes the VM it runs in and its arguments, the
 * command name excluded; the argument count is their number.
 */
module Builtins {
  import opened Base
  import opened Words
  import opened Errors
  import opened Scopes
  import opened Machine
  import opened Api
  import Syntax

  /** `set!`: binds the name in the current scope and returns the value. */
  method SetX(vm: VM, args: seq<Word>) returns (r: Out<Word>)
    requires vm.Valid() && vm.alive
    modifies vm.world
    ensures vm.Valid() && vm.world.Kept()
    ensures |args| != 2 ==> r == Unwound(BadArgs(vm.id, "set!", "symbol value", args)) && vm.world.dicts == old(vm.world.dicts)
    ensures |args| == 2 ==> (r == Done(args[1]) && vm.Resolve(Ser(args[0])) == Some(args[1]) &&
      vm.world.dicts == old(vm.world.dicts[vm.Current() := vm.world.dicts[vm.Current()][Ser(args[0]) := args[1]]]))
  {
    if |args| != 2 {
      return Unwound(BadArgs(vm.id, "set!", "symbol value", args));
    }
    vm.Set(Sym(Ser(args[0])), args[1]);
    return Done(args[1]);
  }

  /** `update!`: `Mutate`, raising VariableUndefined for a name that means nothing to the VM. */
  method UpdateX(vm: VM, args: seq<Word>) returns (r: Out<Word>)
    requires vm.Valid() && vm.alive
    modifies vm.world
    ensures vm.Valid() && vm.world.Kept()
    ensures |args| != 2 ==> r == Unwound(BadArgs(vm.id, "update!", "symbol value", args)) && vm.world.dicts == old(vm.world.dicts)
    ensures |args| == 2 && old(vm.Resolve(Ser(args[0]))).None? ==>
      r == Unwound(Panicked(VariableUndefined(Some(vm.id), FWord(Sym(Ser(args[0])))))) && vm.world.dicts == old(vm.world.dicts)
    ensures |args| == 2 && old(vm.Resolve(Ser(args[0]))).Some? ==>
      r == Done(args[1]) && vm.Resolve(Ser(args[0])) == Some(args[1]) &&
      var t := old(vm.Slot(vm.WritePos(Ser(args[0]))));
      vm.world.dicts == old(vm.world.dicts[t := vm.world.dicts[t][Ser(args[0]) := args[1]]])
  {
    if |args| != 2 {
      return Unwound(BadArgs(vm.id, "update!", "symbol value", args));
    }
    var name := Sym(Ser(args[0]));
    var ok := vm.Mutate(name, args[1]);
    if !ok {
      return Unwound(Panicked(VariableUndefined(Some(vm.id), FWord(name))));
    }
    return Done(args[1]);
  }

  /** `ns.fork`: a new current scope with an empty dict, over the old one. */
  method NsFork(vm: VM, args: seq<Word>) returns (r: Out<Word>)
    requires vm.Valid() && vm.alive
    modifies vm, vm.world
    ensures vm.Valid() && vm.alive && vm.world.Grown() && vm.top == old(vm.top) && vm.heritage == old(vm.heritage)
    ensures vm.world.Kept'() || vm.world.dicts == old(vm.world.dicts) + [map[]]
    ensures args != [] ==> r == Unwound(BadArgs(vm.id, "ns.fork", "", args)) && unchanged(vm) && unchanged(vm.world)
    ensures args == [] ==> (r == Done(Null) && vm.Walk() == [vm.cns.value] + old(vm.Walk()) &&
      vm.Boundary() == old(vm.Boundary()) + 1 && forall key :: vm.Resolve(key) == old(vm.Resolve(key)))
  {
    if args != [] {
      return Unwound(BadArgs(vm.id, "ns.fork", "", args));
    }
    vm.Fork(None);
    return Done(Null);
  }

  /**
   * `ns.unfork`: the current scope is popped and its dict returned, unless
   * its parent is the boundary (or there is none), which is fatal.
   */
  method NsUnfork(vm: VM, args: seq<Word>) returns (r: Out<Word>)
    requires vm.Valid() && vm.alive
    modifies vm
    ensures vm.Valid() && vm.alive && vm.top == old(vm.top) && vm.heritage == old(vm.heritage)
    ensures args != [] ==> r == Unwound(BadArgs(vm.id, "ns.unfork", "", args)) && vm.cns == old(vm.cns)
    ensures args == [] && old(vm.world.scopes[vm.cns.value].up) == vm.top ==>
      r == Unwound(Panicked(RuntimeError(Some(vm.id), [FStr("Fatal: Last namespace destroyed")]))) && vm.cns == old(vm.cns)
    ensures args == [] && old(vm.world.scopes[vm.cns.value].up) != vm.top ==>
      r == Done(Dict(old(vm.world.dicts[vm.Current()]))) && vm.Walk() == old(vm.Walk()[1..]) && vm.Boundary() == old(vm.Boundary()) - 1
  {
    if args != [] {
      return Unwound(BadArgs(vm.id, "ns.unfork", "", args));
    }
    vm.LiveWalk();
    var d := vm.world.dicts[vm.world.scopes[vm.cns.value].dict];
    var popped := vm.Unfork();
    if popped.None? {
      return Unwound(Panicked(RuntimeError(Some(vm.id), [FStr("Fatal: Last namespace destroyed")])));
    }
    return Done(Dict(d));
  }

  /**
   * `ns.globals`: every name bound anywhere along the walk, to its nearest
   * binding, deep copied at or above the boundary; the blacklist is not
   * consulted.
   */
  method NsGlobals(vm: VM, args: seq<Word>) returns (r: Out<Word>)
    requires vm.Valid() && vm.alive
    ensures args != [] ==> r == Unwound(BadArgs(vm.id, "ns.globals", "", args))
    ensures args == [] ==> r == Done(Dict(View(DeepCopy, vm.world.scopes, vm.world.dicts, vm.Walk(), vm.Boundary(), None)))
  {
    if args != [] {
      return Unwound(BadArgs(vm.id, "ns.globals", "", args));
    }
    vm.LiveWalk();
    var m := LocalsWalk(DeepCopy, vm.world.scopes, vm.world.dicts, vm.cns, vm.top, None, -1);
    LocalsIsView(DeepCopy, vm.world.scopes, vm.world.dicts, vm.Walk(), vm.Boundary(), None, -1);
    assert vm.Walk()[..|vm.Walk()|] == vm.Walk();
    return Done(Dict(m));
  }

  /**
   * `ns.capture`: an alien closed over the current scope's dict and the
   * quote given; running it is the evaluator's business.
   */
  method NsCapture(vm: VM, args: seq<Word>) returns (r: Out<Word>)
    requires vm.Valid() && vm.alive
    modifies vm.world
    ensures vm.Valid() && vm.world.Grown()
    ensures vm.world.scopes == old(vm.world.scopes) && vm.world.dicts == old(vm.world.dicts)
    ensures |args| != 1 ==> r == Unwound(BadArgs(vm.id, "ns.capture", "code-quote", args)) && vm.world.aliens == old(vm.world.aliens)
    ensures |args| == 1 && !args[0].Quote? ==> r == Unwound(Mismatch(vm.id, "quote", args[0])) && vm.world.aliens == old(vm.world.aliens)
    ensures |args| == 1 && args[0].Quote? ==>
      r == Done(Alien(old(vm.world.nextAlien))) && old(vm.world.nextAlien) !in old(vm.world.aliens) &&
      vm.world.aliens == old(vm.world.aliens)[old(vm.world.nextAlien) := Captured(old(vm.Current()), args[0])]
  {
    if |args| != 1 {
      return Unwound(BadArgs(vm.id, "ns.capture", "code-quote", args));
    }
    vm.LiveWalk();
    var dict := vm.world.scopes[vm.cns.value].dict;
    var cmd := QuoteOrElse(vm.id, args[0]);
    if cmd.Unwound? {
      return Unwound(cmd.u);
    }
    var a := vm.world.NewAlien(Captured(dict, cmd.value));
    RootedGrows(old(vm.world.scopes), vm.world.scopes, vm.cns, vm.top);
    return Done(Alien(a));
  }

  // -------------------------------------------------------------------
  // export! and exports!

  /**
   * The position `_go_up_n_levels` climbs to from the current scope, for a
   * VM owning `j` scopes: `lvls` scopes up, which must still be owned.
   */
  function Climb(j: nat, lvls: int): (p: Option<nat>)
    ensures p.Some? ==> p.value < j
    ensures p.None? <==> 0 < j <= lvls || j == 0
  {
    if j == 0 then None else if lvls <= 0 then Some(0) else if lvls < j then Some(lvls) else None
  }

  /** `_go_up_n_levels`: the scope `lvls` levels up, or none when the climb reaches the boundary or the end of the walk. */
  method GoUp(vm: VM, lvls: int) returns (r: Option<nat>)
    requires vm.Valid() && vm.alive
    ensures var p := Climb(vm.Boundary(), lvls); r == if p.Some? then Some(vm.Walk()[p.value]) else None
  {
    vm.LiveWalk();
    ghost var c := vm.Walk();
    ghost var j := vm.Boundary();
    IndexOfIsFirst(c, vm.top);
    var ns := vm.cns;
    var i := 0;
    while i < lvls
      invariant 0 <= i < j && ns == At(c, i) && (i <= lvls || i == 0)
      decreases lvls - i
    {
      ns := Up(vm.world.scopes, vm.cns, i, ns);
      if ns.None? || ns == vm.top {
        return None;
      }
      i := i + 1;
    }
    return ns;
  }

  const NotWriteableText: Bytes := "attempted to export " + "to non-writeable namespace"

  /** The error of climbing to a scope the VM does not own. */
  function NotWriteable(vm: nat): Unwind
  {
    Panicked(RuntimeError(Some(vm), [FStr(NotWriteableText)]))
  }

  /**
   * `_parse_up_levels`: `up n` with a positive whole number `n` gives `n`;
   * another symbol first gives nothing; a first word that is not a symbol,
   * or an `n` that is not a positive integer, raises TypeMismatch.
   */
  function UpLevels(vm: nat, num: Syntax.NumReader, up: Word, n: Word): (r: Out<Option<int>>)
    ensures !up.Symbol? ==> r == Unwound(Mismatch(vm, "symbol", up))
    ensures up.Symbol? && up.bytes != "up" ==> r == Done(None)
    ensures r.Done? && r.value.Some? ==> up == Symbol("up", up.interned) && r.value.value >= 1
    ensures up.Symbol? && up.bytes == "up" && n.Number? && n.num.Whole? && 1 <= n.num.i <= MaxInt64 ==> r == Done(Some(n.num.i))
    ensures up.Symbol? && up.bytes == "up" && n.Number? && n.num.Whole? && n.num.i <= 0 ==>
      r == Unwound(Panicked(TypeMismatch(Some(vm), FStr("nonzero positive integer"), FStr(if n.num.i == 0 then "zero" else "negative integer"))))
  {
    if !up.Symbol? then Unwound(Mismatch(vm, "symbol", up))
    else if !StrEqualsSym("up", up) then Done(None)
    else match NumberOrElse(vm, num, n)
      case Unwound(u) => Unwound(u)
      case Done(f) =>
        match FloatInt(f)
        case None => Unwound(Panicked(TypeMismatch(Some(vm), FStr("integer"), FStr("real"))))
        case Some(l) =>
          if l < 1 then Unwound(Panicked(TypeMismatch(Some(vm), FStr("nonzero positive integer"), FStr(if l == 0 then "zero" else "negative integer"))))
          else Done(Some(l))
  }

  const ExportSpec: Bytes := "[up levels]? name value"

  /**
   * The argument checks of `export!`: two arguments, or four beginning
   * with `up n`; the levels to climb (1 by default) and the name and value
   * that remain.
   */
  function ExportArgs(vm: nat, num: Syntax.NumReader, args: seq<Word>): (r: Out<(int, seq<Word>)>)
    ensures r.Done? ==> |args| >= 2 && r.value.0 >= 1 && |r.value.1| == 2 && r.value.1 == args[|args| - 2..]
    ensures |args| != 2 && |args| != 4 ==> r == Unwound(BadArgs(vm, "export!", ExportSpec, args))
    ensures |args| == 2 ==> r == Done((1, args))
    ensures |args| == 4 && UpLevels(vm, num, args[0], args[1]) == Done(None) ==> r == Unwound(BadArgs(vm, "export!", ExportSpec, args[2..]))
  {
    if |args| != 2 && |args| != 4 then Unwound(BadArgs(vm, "export!", ExportSpec, args))
    else if |args| == 2 then Done((1, args))
    else match UpLevels(vm, num, args[0], args[1])
      case Unwound(u) => Unwound(u)
      case Done(None) => Unwound(BadArgs(vm, "export!", ExportSpec, args[2..]))
      case Done(Some(l)) => Done((l, args[2..]))
  }

  /**
   * `export!`: the value is bound to the name in the scope the given
   * number of levels above the current one (one by default), which the VM
   * must own; the value is returned.
   */
  method ExportX(vm: VM, args: seq<Word>) returns (r: Out<Word>)
    requires vm.Valid() && vm.alive
    modifies vm.world
    ensures vm.Valid() && vm.world.Kept()
    ensures var e := ExportArgs(vm.id, vm.world.num, args);
      (e.Unwound? ==> r == Unwound(e.u)) &&
      (e.Done? && Climb(old(vm.Boundary()), e.value.0).None? ==> r == Unwound(NotWriteable(vm.id))) &&
      (e.Done? && Climb(old(vm.Boundary()), e.value.0).Some? && !e.value.1[0].Symbol? ==> r == Unwound(Mismatch(vm.id, "symbol", e.value.1[0])))
    ensures !r.Done? ==> vm.world.dicts == old(vm.world.dicts)
    ensures r.Done? ==> var e := ExportArgs(vm.id, vm.world.num, args);
      e.Done? && Climb(old(vm.Boundary()), e.value.0).Some? &&
      var p := Climb(old(vm.Boundary()), e.value.0).value;
      0 < p < old(vm.Boundary()) && old(DictsIn(vm.world.scopes, |vm.world.dicts|)) && p < old(|vm.Walk()|) &&
      var t := old(vm.Slot(p));
      r == Done(e.value.1[1]) && e.value.1[0].Symbol? &&
      vm.world.dicts == old(vm.world.dicts[t := vm.world.dicts[t][e.value.1[0].bytes := e.value.1[1]]])
  {
    var e := ExportArgs(vm.id, vm.world.num, args);
    if e.Unwound? {
      return Unwound(e.u);
    }
    var (lvls, rest) := e.value;
    var wns := GoUp(vm, lvls);
    if wns.None? {
      return Unwound(NotWriteable(vm.id));
    }
    var name := SymbolOrElse(vm.id, rest[0]);
    if name.Unwound? {
      return Unwound(name.u);
    }
    vm.LiveWalk();
    ChainIn(vm.world.scopes, vm.cns, Climb(vm.Boundary(), lvls).value);
    var t := vm.world.scopes[wns.value].dict;
    vm.world.dicts := vm.world.dicts[t := vm.world.dicts[t][name.value.bytes := rest[1]]];
    return Done(rest[1]);
  }

  const ExportsSpec: Bytes := "[up levels]? name+"

  /**
   * The levels and names of `exports!` as it is meant: a leading `up n`
   * is taken when there are at least two arguments; otherwise every
   * argument is a name and the export goes one level up.
   */
  function ExportsArgs(vm: nat, num: Syntax.NumReader, args: seq<Word>): (r: Out<(int, seq<Word>)>)
    requires args != []
    ensures r.Done? ==> r.value.0 >= 1 && (r.value.1 == args || (|args| >= 2 && r.value.1 == args[2..]))
    ensures |args| == 1 ==> r == Done((1, args))
  {
    if |args| == 1 then Done((1, args))
    else match UpLevels(vm, num, args[0], args[1])
      case Unwound(u) => Unwound(u)
      case Done(None) => Done((1, args))
      case Done(Some(l)) => Done((l, args[2..]))
  }

  /**
   * The same as written: the second argument is read before the parse is
   * tried, so a single argument dereferences Go's nil list.
   */
  function ExportsArgsAsWritten(vm: nat, num: Syntax.NumReader, args: seq<Word>): (r: Out<(int, seq<Word>)>)
    requires args != []
    ensures |args| >= 2 ==> r == ExportsArgs(vm, num, args)
  {
    if |args| == 1 then Unwound(Panicked(GoPanic))
    else ExportsArgs(vm, num, args)
  }

  /** `exports! x`, with one name, crashes as written, and exports `x` one level up as meant. */
  lemma ExportsOneNameAsWritten(vm: nat, num: Syntax.NumReader, x: Word)
    ensures ExportsArgsAsWritten(vm, num, [x]) == Unwound(Panicked(GoPanic))
    ensures ExportsArgs(vm, num, [x]) == Done((1, [x]))
  {
  }

  /** The position of the first of `names` that is not a symbol bound in `d` (`|names|` when there is none). */
  function Unexportable(names: seq<Word>, d: map<Bytes, Word>): (i: nat)
    ensures i <= |names|
    ensures forall k | 0 <= k < i :: names[k].Symbol? && names[k].bytes in d
    ensures i < |names| ==> !(names[i].Symbol? && names[i].bytes in d)
  {
    if names == [] then 0
    else if !(names[0].Symbol? && names[0].bytes in d) then 0
    else 1 + Unexportable(names[1..], d)
  }

  /** The first name, from a position not past the unexportable one, that is not a bound symbol is the unexportable one. */
  lemma UnexportableAt(names: seq<Word>, d: map<Bytes, Word>, i: nat)
    requires i <= Unexportable(names, d) && i < |names| && !(names[i].Symbol? && names[i].bytes in d)
    ensures Unexportable(names, d) == i
  {
  }

  /** The bindings of `d` for those of the names that are symbols bound in `d`. */
  function Picked(names: seq<Word>, d: map<Bytes, Word>): map<Bytes, Word>
  {
    if names == [] then map[]
    else
      var last := names[|names| - 1];
      if last.Symbol? && last.bytes in d then Picked(names[..|names| - 1], d)[last.bytes := d[last.bytes]]
      else Picked(names[..|names| - 1], d)
  }

  /** The bindings picked are exactly those of the names, each as `d` has it. */
  lemma {:induction false} PickedBinds(names: seq<Word>, d: map<Bytes, Word>)
    requires forall k | 0 <= k < |names| :: names[k].Symbol? && names[k].bytes in d
    ensures forall k | 0 <= k < |names| :: names[k].bytes in Picked(names, d) && Picked(names, d)[names[k].bytes] == d[names[k].bytes]
    ensures forall key | key in Picked(names, d) :: key in d && Picked(names, d)[key] == d[key]
  {
    if names != [] {
      var init := names[..|names| - 1];
      PickedBinds(init, d);
      assert forall k | 0 <= k < |init| :: init[k] == names[k];
    }
  }

  /** The error of exporting a name the current scope does not bind. */
  function Nonexistent(vm: nat, name: Word): Unwind
  {
    Panicked(RuntimeError(Some(vm), [FStr("Cannot export nonexistient symbol"), FWord(name)]))
  }

  /** The names' bindings add nothing to the dict they are picked from. */
  lemma PickedAbsorbed(names: seq<Word>, d: map<Bytes, Word>)
    requires forall k | 0 <= k < |names| :: names[k].Symbol? && names[k].bytes in d
    ensures d + Picked(names, d) == d
  {
    PickedBinds(names, d);
  }

  /** The dicts once the first `i` names are exported from `rd` into `wd`. */
  function ExportedUpTo(d0: seq<map<Bytes, Word>>, rd: nat, wd: nat, names: seq<Word>, i: nat): seq<map<Bytes, Word>>
    requires rd < |d0| && wd < |d0| && i <= |names|
  {
    d0[wd := d0[wd] + Picked(names[..i], d0[rd])]
  }

  /** Exporting leaves the dict read from as it was, even when it is the one written to. */
  lemma ExportedKeepsSource(d0: seq<map<Bytes, Word>>, rd: nat, wd: nat, names: seq<Word>, i: nat)
    requires rd < |d0| && wd < |d0| && i <= |names|
    requires forall k | 0 <= k < i :: names[k].Symbol? && names[k].bytes in d0[rd]
    ensures ExportedUpTo(d0, rd, wd, names, i)[rd] == d0[rd]
  {
    if rd == wd {
      PickedAbsorbed(names[..i], d0[rd]);
    }
  }

  /** Exporting one more name binds it in `wd` as `rd` has it. */
  lemma ExportedStep(d0: seq<map<Bytes, Word>>, rd: nat, wd: nat, names: seq<Word>, i: nat)
    requires rd < |d0| && wd < |d0| && i < |names|
    requires forall k | 0 <= k <= i :: names[k].Symbol? && names[k].bytes in d0[rd]
    ensures var dd := ExportedUpTo(d0, rd, wd, names, i);
      dd[wd := dd[wd][names[i].bytes := d0[rd][names[i].bytes]]] == ExportedUpTo(d0, rd, wd, names, i + 1)
  {
    assert names[..i + 1][..i] == names[..i];
    var before := Picked(names[..i], d0[rd]);
    assert d0[wd] + before[names[i].bytes := d0[rd][names[i].bytes]] == (d0[wd] + before)[names[i].bytes := d0[rd][names[i].bytes]];
  }

  /** Binds `key` to `v` in the dict `t` of the world. */
  method Put(w: World, t: nat, key: Bytes, v: Word)
    requires w.Valid() && t < |w.dicts|
    modifies w`dicts
    ensures w.Valid() && w.dicts == old(w.dicts[t := w.dicts[t][key := v]])
  {
    w.dicts := w.dicts[t := w.dicts[t][key := v]];
  }

  /**
   * The loop of `exports!`: the bindings the current scope's dict `rd`
   * has for the names are written, in order, into the dict `wd`, up to the
   * first name that is not a symbol or is not bound there.
   */
  method ExportNames(vm: VM, names: seq<Word>, rd: nat, wd: nat) returns (r: Out<Word>)
    requires vm.Valid() && rd < |vm.world.dicts| && wd < |vm.world.dicts|
    modifies vm.world`dicts
    ensures vm.Valid() && |vm.world.dicts| == |old(vm.world.dicts)|
    ensures var i := Unexportable(names, old(vm.world.dicts[rd]));
      vm.world.dicts == ExportedUpTo(old(vm.world.dicts), rd, wd, names, i) &&
      r == if i == |names| then Done(Null)
           else if !names[i].Symbol? then Unwound(Mismatch(vm.id, "symbol", names[i]))
           else Unwound(Nonexistent(vm.id, names[i]))
  {
    ghost var d0 := vm.world.dicts;
    ghost var i0 := Unexportable(names, d0[rd]);
    assert names[..0] == [];
    assert d0[wd] + map[] == d0[wd];
    assert d0[wd := d0[wd]] == d0;
    var i := 0;
    while i < |names|
      invariant i <= i0 && vm.Valid() && |vm.world.dicts| == |d0|
      invariant vm.world.dicts == ExportedUpTo(d0, rd, wd, names, i)
    {
      var name := names[i];
      if !name.Symbol? {
        UnexportableAt(names, d0[rd], i);
        return Unwound(Mismatch(vm.id, "symbol", name));
      }
      ExportedKeepsSource(d0, rd, wd, names, i);
      if name.bytes !in vm.world.dicts[rd] {
        UnexportableAt(names, d0[rd], i);
        return Unwound(Nonexistent(vm.id, name));
      }
      ExportedStep(d0, rd, wd, names, i);
      Put(vm.world, wd, name.bytes, vm.world.dicts[rd][name.bytes]);
      i := i + 1;
    }
    assert names[..i] == names;
    return Done(Null);
  }

  /**
   * `exports!`: each name's binding in the current scope is copied into
   * the scope the given number of levels up (one by default), which the VM
   * must own; a name that is not bound in the current scope stops the
   * loop with an error, after the names before it were exported.
   */
  method ExportsX(vm: VM, args: seq<Word>) returns (r: Out<Word>)
    requires vm.Valid() && vm.alive
    modifies vm.world
    ensures vm.Valid() && vm.world.Kept()
    ensures args == [] ==> r == Unwound(BadArgs(vm.id, "exports!", ExportsSpec, args))
    ensures args != [] && ExportsArgs(vm.id, vm.world.num, args).Unwound? ==> r == Unwound(ExportsArgs(vm.id, vm.world.num, args).u)
    ensures args != [] && ExportsArgs(vm.id, vm.world.num, args).Done? && Climb(old(vm.Boundary()), ExportsArgs(vm.id, vm.world.num, args).value.0).None? ==>
      r == Unwound(NotWriteable(vm.id))
    ensures (r.Unwound? && (args == [] || ExportsArgs(vm.id, vm.world.num, args).Unwound? ||
      Climb(old(vm.Boundary()), ExportsArgs(vm.id, vm.world.num, args).value.0).None?)) ==> vm.world.dicts == old(vm.world.dicts)
    ensures r.Done? ==> var e := ExportsArgs(vm.id, vm.world.num, args).value;
      var p := Climb(old(vm.Boundary()), e.0).value; var t := old(vm.Slot(p)); var cur := old(vm.world.dicts[vm.Current()]);
      0 < p && r == Done(Null) && Unexportable(e.1, cur) == |e.1| &&
      vm.world.dicts == old(vm.world.dicts[t := vm.world.dicts[t] + Picked(e.1, cur)])
  {
    if args == [] {
      return Unwound(BadArgs(vm.id, "exports!", ExportsSpec, args));
    }
    var e := ExportsArgs(vm.id, vm.world.num, args);
    if e.Unwound? {
      return Unwound(e.u);
    }
    var (lvls, names) := e.value;
    var wns := GoUp(vm, lvls);
    if wns.None? {
      return Unwound(NotWriteable(vm.id));
    }
    vm.LiveWalk();
    ChainIn(vm.world.scopes, vm.cns, Climb(vm.Boundary(), lvls).value);
    var wd := vm.world.scopes[wns.value].dict;
    var rd := vm.world.scopes[vm.cns.value].dict;
    r := ExportNames(vm, names, rd, wd);
    assert names[..|names|] == names;
  }
}
