/**
 * Virtual machines and their namespaces (src/gelo/vm.go and
 * src/gelo/namespace.go).
 *
 * A `World` holds what every VM of a process shares: the arenas of scopes
 * and dicts of module Scopes (a Go pointer is an index), the id counter
 * `_max_id`, and the table of the aliens the interpreter itself creates.
 * A `VM` holds the fields of Go's `VM`: its current scope `cns`, its
 * boundary `top`, its program, its port, its kill switch and its
 * `_heritage`.  The `namespace_api` methods are methods of `VM` that walk
 * the scope chain with the walks of module Scopes, passing `DeepCopy` as
 * the copy made at or above the boundary.
 */
module Machine {
  import opened Base
  import opened Words
  import opened Scopes
  import opened Errors
  import Syntax

  /** What parsing a quote's source gives: its commands, or the syntax error it raises. */
  datatype Compiled = Commands(lines: seq<Syntax.Line>) | Unparsable(err: Panic)

  /**
   * `fcode` of a quote, as a function of its source: empty source is the
   * no-op (nil code) without parsing, otherwise the parser's commands or
   * its syntax error.
   */
  function Compiler(num: Syntax.NumReader): Bytes -> Compiled
  {
    src =>
      if src == [] then Commands([])
      else match Syntax.Parse(src, num)
        case SyntaxError(m) => Unparsable(SyntaxError([FStr(m)]))
        case Parsed(_, lines) => Commands(lines)
  }

  /** The commands of builtins.go that the model runs. */
  datatype Builtin =
    | EvalCmd | SafeEvalCmd | SetCmd | UpdateCmd
    | ForkCmd | UnforkCmd | CaptureCmd | GlobalsCmd
    | ExportCmd | ExportsCmd

  /**
   * What an alien the interpreter made runs: one of its builtins, an
   * `ns.capture` closure over a dict and a quote, or an `Aggregate` that
   * dispatches on its first argument to the words of its table.
   */
  datatype AlienFn = Native(builtin: Builtin) | Captured(dict: nat, cmd: Word) | Aggregated(table: map<Bytes, Word>)

  /** What an alien returns: a word, or (`TailInvoke`) a quote built around a list of words. */
  datatype Reply = Value(w: Word) | Tail(items: seq<Word>)

  /**
   * What unwinds the Go stack: a panic, a `halt` with its payload, the kill
   * control code, or, in the model only, running out of the fuel that
   * bounds nested evaluation.
   */
  datatype Unwind = Panicked(p: Panic) | Halted(info: seq<Word>) | KillCode | Exhausted

  /** A result, or the unwinding that replaced it. */
  datatype Out<T> = Done(value: T) | Unwound(u: Unwind)

  /** A VM's program: a quote with source text, or one built around a list of words. */
  datatype Program = Source(src: Bytes) | Built(items: seq<Word>)

  /** The message of the SystemError a dead VM raises. */
  function Dead(attempt: Bytes): Bytes
  {
    "Dead VM attempted to " + attempt
  }

  /**
   * `_heritage`: the id of its parent, and the names it deleted at or
   * above its boundary.  Its map of children is kept in the `World`, by
   * the VM's id.
   */
  datatype Heritage = Heritage(parent: Option<nat>, blacklist: Option<set<Bytes>>)

  /** What every VM of the process shares. */
  class World {
    var scopes: seq<Scope>
    var dicts: seq<map<Bytes, Word>>
    /** `_max_id`: the last VM id issued. */
    var maxId: nat
    /** The aliens the interpreter made, by id; any other alien is the host's. */
    var aliens: map<nat, AlienFn>
    /** The id the next alien made gets. */
    var nextAlien: nat
    /** What the parser and `NewNumberFromBytes` read as a number. */
    const num: Syntax.NumReader
    /** The parser every quote uses: `Compiler(num)`. */
    const parse: Bytes -> Compiled
    /** What the host's aliens return, given their id, arguments and argument count. */
    const host: (nat, seq<Word>, nat) -> Out<Reply>
    /**
     * The `children` maps of the heritages, by the id of the VM they belong
     * to (none: a nil map); a child's kill channel is named by its id.
     */
    var children: map<nat, set<nat>>
    /** The VMs whose kill channel holds a signal, by id. */
    var signalled: set<nat>

    ghost predicate Valid()
      reads this
    {
      Acyclic(scopes) && DictsIn(scopes, |dicts|) &&
      (forall a | a in aliens :: a < nextAlien && (aliens[a].Captured? ==> aliens[a].dict < |dicts|)) &&
      Issued(children, signalled, maxId)
    }

    /** Nothing but the dicts changed. */
    twostate predicate Kept()
      reads this
    {
      scopes == old(scopes) && |dicts| == |old(dicts)| && maxId == old(maxId) &&
      aliens == old(aliens) && nextAlien == old(nextAlien) && children == old(children) && signalled == old(signalled)
    }

    /** Scopes, dicts and aliens were only added, and ids only issued. */
    twostate predicate Grown()
      reads this
    {
      old(scopes) <= scopes && |old(dicts)| <= |dicts| && old(maxId) <= maxId &&
      old(nextAlien) <= nextAlien && (forall a | a in old(aliens) :: a in aliens && aliens[a] == old(aliens)[a])
    }

    /** A process with no scope and no VM, whose builtins are the aliens with ids below `first`. */
    constructor(reader: Syntax.NumReader, builtins: map<nat, AlienFn>, first: nat, hostFns: (nat, seq<Word>, nat) -> Out<Reply>)
      requires forall a | a in builtins :: a < first && !builtins[a].Captured?
      ensures Valid() && scopes == [] && dicts == [] && maxId == 0
      ensures num == reader && parse == Compiler(reader) && host == hostFns
      ensures aliens == builtins && nextAlien == first
      ensures children == map[] && signalled == {}
    {
      scopes, dicts, maxId := [], [], 0;
      children, signalled := map[], {};
      aliens, nextAlien := builtins, first;
      num, parse, host := reader, Compiler(reader), hostFns;
    }

    /** `newNamespace(up)`: a scope over `up` with a fresh empty dict. */
    method NewScope(up: Option<nat>) returns (s: nat)
      requires Valid() && Within(up, |scopes|)
      modifies this
      ensures Valid() && Grown()
      ensures s == |old(scopes)| && scopes == old(scopes) + [Scope(up, |old(dicts)|)] && dicts == old(dicts) + [map[]]
      ensures maxId == old(maxId) && aliens == old(aliens) && nextAlien == old(nextAlien)
      ensures children == old(children) && signalled == old(signalled)
    {
      s := |scopes|;
      scopes := scopes + [Scope(up, |dicts|)];
      dicts := dicts + [map[]];
    }

    /** `newNamespaceFrom(up, dict)`: a scope over `up` sharing the dict `d`. */
    method NewScopeFrom(up: Option<nat>, d: nat) returns (s: nat)
      requires Valid() && Within(up, |scopes|) && d < |dicts|
      modifies this
      ensures Valid() && Kept'()
      ensures s == |old(scopes)| && scopes == old(scopes) + [Scope(up, d)] && dicts == old(dicts)
    {
      s := |scopes|;
      scopes := scopes + [Scope(up, d)];
    }

    /** Nothing but the children maps and the kill signals changed. */
    twostate predicate Same()
      reads this
    {
      scopes == old(scopes) && dicts == old(dicts) && maxId == old(maxId) && aliens == old(aliens) && nextAlien == old(nextAlien)
    }

    /** Only a scope was added. */
    twostate predicate Kept'()
      reads this
    {
      old(scopes) <= scopes && dicts == old(dicts) && maxId == old(maxId) &&
      aliens == old(aliens) && nextAlien == old(nextAlien) && children == old(children) && signalled == old(signalled)
    }

    /** The counter of `_newVM`: one more than the last id issued. */
    method NextId() returns (id: nat)
      modifies this
      ensures id == old(maxId) + 1 && maxId == id
      ensures scopes == old(scopes) && dicts == old(dicts) && aliens == old(aliens) && nextAlien == old(nextAlien)
      ensures children == old(children) && signalled == old(signalled)
    {
      maxId := maxId + 1;
      id := maxId;
    }

    /** A new alien running `f`. */
    method NewAlien(f: AlienFn) returns (id: nat)
      requires Valid() && (f.Captured? ==> f.dict < |dicts|)
      modifies this
      ensures Valid() && Grown()
      ensures id == old(nextAlien) && id !in old(aliens) && aliens == old(aliens)[id := f]
      ensures scopes == old(scopes) && dicts == old(dicts) && maxId == old(maxId)
      ensures children == old(children) && signalled == old(signalled)
    {
      id := nextAlien;
      aliens := aliens[id := f];
      nextAlien := nextAlien + 1;
    }
  }

  /**
   * The children maps after the VM `id` is destroyed: it leaves its
   * parent's map, and its own map is gone.
   */
  function Abandoned(children: map<nat, set<nat>>, id: nat, parent: Option<nat>): (r: map<nat, set<nat>>)
    ensures id !in r
    ensures forall k | k in r :: k in children && r[k] == (if Some(k) == parent then children[k] - {id} else children[k])
  {
    var left := if parent.Some? && parent.value in children then children[parent.value := children[parent.value] - {id}] else children;
    left - {id}
  }

  /** Every VM id the children maps and the kill signals mention has been issued. */
  predicate Issued(children: map<nat, set<nat>>, signalled: set<nat>, maxId: nat)
  {
    (forall k | k in children :: k <= maxId && forall c | c in children[k] :: c <= maxId) &&
    (forall k | k in signalled :: k <= maxId)
  }

  /** Walks that exist before scopes are added are unchanged by them. */
  lemma RootedGrows(scopes: seq<Scope>, more: seq<Scope>, cns: Option<nat>, top: Option<nat>)
    requires Acyclic(scopes) && scopes <= more && Within(cns, |scopes|)
    ensures Chain(more, cns) == Chain(scopes, cns)
    ensures Rooted(scopes, cns, top) ==> Rooted(more, cns, top)
  {
    ChainExtends(scopes, more, cns);
  }

  /** A scope pushed over a VM's current scope: the boundary moves one position along. */
  lemma PushedWalk(scopes: seq<Scope>, s: nat, cns: Option<nat>, top: Option<nat>)
    requires Acyclic(scopes) && s < |scopes| && scopes[s].up == cns && Within(cns, s) && cns.Some?
    ensures Chain(scopes, Some(s)) == [s] + Chain(scopes, cns)
    ensures Some(s) != top && cns.value < s ==> IndexOf(Chain(scopes, Some(s)), top) == 1 + IndexOf(Chain(scopes, cns), top)
  {
    var c := Chain(scopes, Some(s));
    assert c[1..] == Chain(scopes, cns);
  }

  /** A spawned VM's walk: its new scope, then its boundary, the parent's current scope. */
  lemma SpawnedRooted(scopes: seq<Scope>, s: nat, cns: Option<nat>)
    requires Acyclic(scopes) && s < |scopes| && scopes[s].up == cns && cns.Some? && cns.value < s
    ensures Rooted(scopes, Some(s), cns) && IndexOf(Chain(scopes, Some(s)), cns) == 1
  {
    ChainStart(scopes, cns);
    PushedWalk(scopes, s, cns, cns);
  }

  class VM {
    const world: World
    const id: nat
    /** `API != nil`: only `Destroy` clears it. */
    var alive: bool
    var cns: Option<nat>
    var top: Option<nat>
    var program: Option<Program>
    /** The port, by identity. */
    var io: Option<nat>
    var heritage: Option<Heritage>

    /**
     * Its id was issued and the scopes it points to exist; a live VM has a
     * current scope and a boundary strictly above it when it has one; its
     * parent is another VM; a destroyed VM has no heritage and no port.
     */
    ghost predicate Valid()
      reads this, world
    {
      world.Valid() && 0 < id <= world.maxId && Within(cns, |world.scopes|) && Within(top, |world.scopes|) &&
      (alive ==> Rooted(world.scopes, cns, top)) &&
      (heritage.Some? ==> heritage.value.parent != Some(id)) &&
      (!alive ==> heritage.None? && io.None?)
    }

    constructor Init(w: World, n: nat, port: Option<nat>)
      ensures world == w && id == n && io == port && alive
      ensures cns == None && top == None && program == None && heritage == None
    {
      world, id, io := w, n, port;
      alive := true;
      cns, top, program, heritage := None, None, None, None;
    }

    // -------------------------------------------------------------------
    // What names mean to the VM

    /** The scopes a walk from the current scope visits. */
    ghost function Walk(): seq<nat>
      reads this`cns, world`scopes
    {
      Chain(world.scopes, cns)
    }

    /** The position of the boundary in the walk: the number of scopes the VM owns. */
    ghost function Boundary(): nat
      reads this`cns, this`top, world`scopes
    {
      IndexOf(Walk(), top)
    }

    /** The blacklist of its heritage. */
    function Blacklist(): Option<set<Bytes>>
      reads this`heritage
    {
      if heritage.Some? then heritage.value.blacklist else None
    }

    /** `_is_blacklisted`. */
    predicate IsBlacklisted(key: Bytes)
      reads this`heritage
    {
      Blocked(Blacklist(), key)
    }

    /** What `key` means to the VM: deep copied at or above its boundary, hidden there when blacklisted. */
    ghost function Resolve(key: Bytes): Option<Word>
      reads this`cns, this`top, this`heritage, world`scopes, world`dicts
    {
      Meaning(DeepCopy, world.scopes, world.dicts, Walk(), Boundary(), key, IsBlacklisted(key))
    }

    /** The dict of the scope at position `p` of the walk. */
    ghost function Slot(p: nat): (d: nat)
      reads this`cns, world`scopes, world`dicts
      requires DictsIn(world.scopes, |world.dicts|) && p < |Walk()|
      ensures d < |world.dicts|
    {
      ChainIn(world.scopes, cns, p);
      world.scopes[Walk()[p]].dict
    }

    /** The dict of the current scope. */
    ghost function Current(): nat
      reads this`cns, world`scopes
      requires cns.Some? && cns.value < |world.scopes|
    {
      world.scopes[cns.value].dict
    }

    /** Facts about a live VM's walk. */
    lemma LiveWalk()
      requires Valid() && alive
      ensures Walk() != [] && Walk()[0] == cns.value && 0 < Boundary() <= |Walk()|
      ensures Current() < |world.dicts| && DictOf(world.scopes, world.dicts, Walk()[0]) == world.dicts[Current()]
    {
      ChainStart(world.scopes, cns);
    }

    // -------------------------------------------------------------------
    // Walks that only read

    /** `Lookup`: what the name's serialisation means to the VM. */
    method Lookup(name: Word) returns (r: Option<Word>)
      requires Valid() && alive
      ensures r == Resolve(Ser(name))
    {
      var key := Ser(name);
      var w, ok := LookupWalk(DeepCopy, world.scopes, world.dicts, cns, top, key, IsBlacklisted(key));
      r := if ok then Some(w) else None;
    }

    /** `LookupOrElse`: the meaning, or VariableUndefined. */
    method LookupOrElse(name: Word) returns (r: Out<Word>)
      requires Valid() && alive
      ensures Resolve(Ser(name)).Some? ==> r == Done(Resolve(Ser(name)).value)
      ensures Resolve(Ser(name)).None? ==> r == Unwound(Panicked(VariableUndefined(Some(id), FWord(name))))
    {
      var w := Lookup(name);
      if w.None? {
        return Unwound(Panicked(VariableUndefined(Some(id), FWord(name))));
      }
      return Done(w.value);
    }

    /** `Has`: whether the name means anything to the VM. */
    method Has(name: Word) returns (r: bool)
      requires Valid() && alive
      ensures r == Resolve(Ser(name)).Some?
    {
      var key := Ser(name);
      r := HasWalk(world.scopes, world.dicts, cns, top, key, IsBlacklisted(key));
    }

    /**
     * `DepthOf`: how many scopes the walk visits to find the name, the
     * holder included, and whether it finds it; a blacklisted name stops
     * the count at the boundary.
     */
    method DepthOf(name: Word) returns (count: nat, there: bool)
      requires Valid() && alive
      ensures there == Resolve(Ser(name)).Some?
      ensures (count, there) == Scopes.Depth(world.scopes, world.dicts, Walk(), Boundary(), Ser(name), IsBlacklisted(Ser(name)))
    {
      var key := Ser(name);
      count, there := DepthWalk(world.scopes, world.dicts, cns, top, key, IsBlacklisted(key));
    }

    /** `Depth`: the length of the whole walk. */
    method Depth() returns (count: nat)
      requires Valid() && alive
      ensures count == |Walk()|
    {
      ghost var c := Walk();
      ChainStart(world.scopes, cns);
      var ns := cns;
      count := 0;
      while ns.Some?
        invariant count <= |c| && ns == At(c, count)
        decreases |c| - count
      {
        ns := Up(world.scopes, cns, count, ns);
        count := count + 1;
      }
    }

    /** `LocalDepth`: the number of scopes the VM owns, those below its boundary. */
    method LocalDepth() returns (count: nat)
      requires Valid() && alive
      ensures count == Boundary() && 0 < count <= |Walk()|
      ensures top.None? ==> count == |Walk()|
    {
      ghost var c := Walk();
      ghost var j := Boundary();
      LiveWalk();
      IndexOfIsFirst(c, top);
      var ns := cns;
      count := 0;
      while ns != top
        invariant count <= j && ns == At(c, count)
        decreases |c| - count
      {
        ns := Up(world.scopes, cns, count, ns);
        count := count + 1;
      }
    }

    /**
     * `Locals(lvls)`: the current scope's bindings, then those of the next
     * scopes of the walk that are not bound yet (`lvls` scopes in all, or
     * the whole walk for a negative `lvls`), deep copied at or above the
     * boundary and without the blacklisted names there.
     */
    method Locals(lvls: int) returns (m: map<Bytes, Word>)
      requires Valid() && alive
      ensures m == LocalsOf(DeepCopy, world.scopes, world.dicts, Walk(), Boundary(), Blacklist(), lvls)
    {
      m := LocalsWalk(DeepCopy, world.scopes, world.dicts, cns, top, Blacklist(), lvls);
    }

    /** `Get`: the binding of the current scope only. */
    method Get(k: Word) returns (r: Option<Word>)
      requires Valid() && alive
      ensures var d := world.dicts[Current()]; r == if Ser(k) in d then Some(d[Ser(k)]) else None
    {
      LiveWalk();
      var d := world.dicts[world.scopes[cns.value].dict];
      var key := Ser(k);
      r := if key in d then Some(d[key]) else None;
    }

    /** `copyOut` from the current scope, for the `Read*` family: the nearest binding, deep copied, with no boundary. */
    method CopyOut(key: Bytes) returns (r: Option<Word>)
      requires Valid()
      ensures var c := Walk(); var i := FirstWith(world.scopes, world.dicts, c, key);
        r == if i < |c| then Some(DeepCopy(DictOf(world.scopes, world.dicts, c[i])[key])) else None
    {
      r := CopyOutWalk(DeepCopy, world.scopes, world.dicts, cns, key);
    }

    // -------------------------------------------------------------------
    // Forking

    /**
     * `Fork`: a new current scope over the old one, with a fresh dict, or
     * sharing the dict of the scope `n` supplied.
     */
    method Fork(n: Option<nat>)
      requires Valid() && alive && Within(n, |world.scopes|)
      modifies this, world
      ensures Valid() && alive && top == old(top) && heritage == old(heritage)
      ensures world.Grown() && world.maxId == old(world.maxId) && world.aliens == old(world.aliens)
      ensures cns == Some(|old(world.scopes)|) && Walk() == [cns.value] + old(Walk())
      ensures Boundary() == old(Boundary()) + 1
      ensures n.None? ==> world.dicts == old(world.dicts) + [map[]]
      ensures n.Some? ==> world.dicts == old(world.dicts) && Current() == old(world.scopes[n.value].dict)
      ensures n.None? ==> forall key :: Resolve(key) == old(Resolve(key))
    {
      if n.None? {
        ForkEmpty();
      } else {
        ForkShared(world.scopes[n.value].dict);
      }
    }

    /** `Fork` with no scope supplied: the new current scope has a fresh, empty dict. */
    method ForkEmpty()
      requires Valid() && alive
      modifies this, world
      ensures Valid() && alive && top == old(top) && heritage == old(heritage)
      ensures world.Grown() && world.maxId == old(world.maxId) && world.aliens == old(world.aliens)
      ensures cns == Some(|old(world.scopes)|) && Walk() == [cns.value] + old(Walk())
      ensures Boundary() == old(Boundary()) + 1 && world.dicts == old(world.dicts) + [map[]]
      ensures forall key :: Resolve(key) == old(Resolve(key))
    {
      LiveWalk();
      var s := world.NewScope(cns);
      RootedGrows(old(world.scopes), world.scopes, cns, top);
      RootedGrows(old(world.scopes), world.scopes, top, top);
      Descend(s);
      ForkedMeanings(old(world.scopes), old(world.dicts), world.scopes, world.dicts, s, old(cns), old(Walk()), old(Boundary()), Blacklist());
    }

    /** `Fork` with a scope supplied: the new current scope shares the dict `d`. */
    method ForkShared(d: nat)
      requires Valid() && alive && d < |world.dicts|
      modifies this, world
      ensures Valid() && alive && top == old(top) && heritage == old(heritage)
      ensures world.Grown() && world.maxId == old(world.maxId) && world.aliens == old(world.aliens)
      ensures cns == Some(|old(world.scopes)|) && Walk() == [cns.value] + old(Walk())
      ensures Boundary() == old(Boundary()) + 1 && world.dicts == old(world.dicts) && Current() == d
    {
      LiveWalk();
      var s := world.NewScopeFrom(cns, d);
      RootedGrows(old(world.scopes), world.scopes, cns, top);
      RootedGrows(old(world.scopes), world.scopes, top, top);
      Descend(s);
    }

    /** The current scope becomes `s`, a new scope whose parent is the current scope. */
    method Descend(s: nat)
      requires Valid() && alive && cns.value < s < |world.scopes| && world.scopes[s].up == cns && top != Some(s)
      modifies this`cns
      ensures Valid() && alive && cns == Some(s) && Walk() == [s] + old(Walk()) && Boundary() == old(Boundary()) + 1
    {
      PushedWalk(world.scopes, s, cns, top);
      cns := Some(s);
    }

    /** `Unfork`: the current scope is popped, unless its parent is the boundary. */
    method Unfork() returns (r: Option<nat>)
      requires Valid() && alive
      modifies this
      ensures Valid() && alive && top == old(top) && heritage == old(heritage)
      ensures old(world.scopes[cns.value].up) == top ==> r == None && cns == old(cns)
      ensures old(world.scopes[cns.value].up) != top ==>
        r == old(cns) && cns == old(world.scopes[cns.value].up) && Walk() == old(Walk()[1..]) && Boundary() == old(Boundary()) - 1
    {
      LiveWalk();
      var up := world.scopes[cns.value].up;
      if up == top {
        return None;
      }
      ChainStep(world.scopes, cns, 0);
      PoppedWalk(world.scopes, cns, top);
      r := cns;
      cns := up;
    }

    // -------------------------------------------------------------------
    // Writes

    /** `Set`: binds the name in the current scope, where it then means the value. */
    method Set(k: Word, v: Word)
      requires Valid() && alive
      modifies world
      ensures Valid() && world.Kept()
      ensures world.dicts == old(world.dicts[Current() := world.dicts[Current()][Ser(k) := v]])
      ensures Resolve(Ser(k)) == Some(v)
    {
      LiveWalk();
      var key := Ser(k);
      var d := world.scopes[cns.value].dict;
      world.dicts := world.dicts[d := world.dicts[d][key := v]];
      WriteMeaning(DeepCopy, world.scopes, old(world.dicts), Walk(), Boundary(), key, IsBlacklisted(key), 0, v);
    }

    /** `_nthlvl`: level 0 is the current scope, a negative level the topmost owned scope, and a level at or past the boundary none. */
    method NthLevel(lvl: int) returns (r: Option<nat>)
      requires Valid() && alive
      ensures var p := Level(Boundary(), lvl); r == if p.Some? then Some(Walk()[p.value]) else None
      ensures r.None? <==> lvl >= Boundary()
    {
      LiveWalk();
      LevelOwned(Boundary(), lvl);
      r := LevelWalk(world.scopes, cns, top, lvl);
    }

    /** `NSet`: binds the name at a level; false for a level that does not exist. */
    method NSet(lvl: int, k: Word, v: Word) returns (ok: bool)
      requires Valid() && alive
      modifies world
      ensures Valid() && world.Kept()
      ensures ok <==> lvl < Boundary()
      ensures !ok ==> world.dicts == old(world.dicts)
      ensures ok ==> var d := old(Slot(Level(Boundary(), lvl).value));
        world.dicts == old(world.dicts[d := world.dicts[d][Ser(k) := v]])
    {
      var ns := NthLevel(lvl);
      if ns.None? {
        return false;
      }
      LevelOwned(Boundary(), lvl);
      ChainIn(world.scopes, cns, Level(Boundary(), lvl).value);
      var d := world.scopes[ns.value].dict;
      world.dicts := world.dicts[d := world.dicts[d][Ser(k) := v]];
      return true;
    }

    /** `Inject`: every binding of `d` is written into the current scope, overriding. */
    method Inject(d: map<Bytes, Word>)
      requires Valid() && alive
      modifies world
      ensures Valid() && world.Kept()
      ensures world.dicts == old(world.dicts[Current() := world.dicts[Current()] + d])
    {
      LiveWalk();
      var t := world.scopes[cns.value].dict;
      var m := InjectInto(world.dicts[t], d);
      world.dicts := world.dicts[t := m];
    }

    /** `NInject`: `Inject` at a level; false for a level that does not exist. */
    method NInject(lvl: int, d: map<Bytes, Word>) returns (ok: bool)
      requires Valid() && alive
      modifies world
      ensures Valid() && world.Kept()
      ensures ok <==> lvl < Boundary()
      ensures !ok ==> world.dicts == old(world.dicts)
      ensures ok ==> var t := old(Slot(Level(Boundary(), lvl).value));
        world.dicts == old(world.dicts[t := world.dicts[t] + d])
    {
      var ns := NthLevel(lvl);
      if ns.None? {
        return false;
      }
      LevelOwned(Boundary(), lvl);
      ChainIn(world.scopes, cns, Level(Boundary(), lvl).value);
      var t := world.scopes[ns.value].dict;
      var m := InjectInto(world.dicts[t], d);
      world.dicts := world.dicts[t := m];
      return true;
    }

    // -------------------------------------------------------------------
    // Walks that write further up

    /** The position in the walk of the nearest scope binding `key` (the walk's length when none does). */
    ghost function Nearest(key: Bytes): nat
      reads this`cns, world`scopes, world`dicts
    {
      FirstWith(world.scopes, world.dicts, Walk(), key)
    }

    /**
     * The position of the scope a write of `key` lands in: the holder when
     * the VM owns it, else the topmost owned scope.
     */
    ghost function WritePos(key: Bytes): (p: nat)
      reads this`cns, this`top, world`scopes, world`dicts
      requires 0 < Boundary() <= |Walk()|
      ensures p < Boundary() && p < |Walk()| && p <= Nearest(key)
    {
      var i := Nearest(key);
      if i < Boundary() then i else Boundary() - 1
    }

    /**
     * `Del`: a binding found in an owned scope is removed from it; one
     * found only at or above the boundary stays, and the name is
     * blacklisted instead, so that it no longer means anything to the VM.
     * The value found is returned as it is, not copied.
     */
    method Del(name: Word) returns (r: Res<Word>)
      requires Valid() && alive
      modifies this, world
      ensures Valid() && alive && world.Kept() && cns == old(cns) && top == old(top)
      ensures var key := Ser(name); var i := old(Nearest(key));
        r == if i >= old(|Walk()|) then NotOk
             else if i >= old(Boundary()) && old(heritage).None? then Crash
             else Ok(old(DictOf(world.scopes, world.dicts, Walk()[i])[key]))
      ensures var key := Ser(name); var i := old(Nearest(key));
        if !r.Ok? || i < old(Boundary()) then heritage == old(heritage) else
          heritage == Some(old(heritage.value).(blacklist := Some(old(if Blacklist().Some? then Blacklist().value else {}) + {key})))
      ensures var key := Ser(name); var i := old(Nearest(key));
        if r.Ok? && i < old(Boundary()) then world.dicts == old(world.dicts[Slot(i) := world.dicts[Slot(i)] - {key}])
        else world.dicts == old(world.dicts)
      ensures r.Ok? && old(Nearest(Ser(name))) >= old(Boundary()) ==> IsBlacklisted(Ser(name)) && Resolve(Ser(name)).None?
    {
      var key := Ser(name);
      ghost var c := Walk();
      LiveWalk();
      var found := DelWalk(world.scopes, world.dicts, cns, top, key);
      if found.None? {
        return NotOk;
      }
      var (s, above) := found.value;
      ChainIn(world.scopes, cns, Nearest(key));
      var d := world.scopes[s].dict;
      if above && heritage.None? {
        return Crash;
      }
      r := Ok(world.dicts[d][key]);
      if above {
        var h := heritage.value;
        var black := if h.blacklist.None? then {} else h.blacklist.value;
        heritage := Some(h.(blacklist := Some(black + {key})));
      } else {
        world.dicts := world.dicts[d := world.dicts[d] - {key}];
      }
    }

    /**
     * `Del` as written: the blacklist entry is made for `s`, a name the
     * function never declares (namespace.go has no `s` in scope there), so
     * it is a parameter here.  For any `s` other than the name, a binding
     * found at or above the boundary is reported deleted and yet the name
     * keeps its meaning.
     */
    method DelAsWritten(name: Word, s: Bytes) returns (r: Res<Word>)
      requires Valid() && alive
      modifies this, world
      ensures Valid() && alive && world.Kept() && cns == old(cns) && top == old(top)
      ensures var key := Ser(name); var i := old(Nearest(key));
        r == if i >= old(|Walk()|) then NotOk
             else if i >= old(Boundary()) && old(heritage).None? then Crash
             else Ok(old(DictOf(world.scopes, world.dicts, Walk()[i])[key]))
      ensures var key := Ser(name); var i := old(Nearest(key));
        if !r.Ok? || i < old(Boundary()) then heritage == old(heritage) else
          heritage == Some(old(heritage.value).(blacklist := Some(old(if Blacklist().Some? then Blacklist().value else {}) + {s})))
      ensures var key := Ser(name); var i := old(Nearest(key));
        if r.Ok? && i < old(Boundary()) then world.dicts == old(world.dicts[Slot(i) := world.dicts[Slot(i)] - {key}])
        else world.dicts == old(world.dicts)
      ensures r.Ok? && old(Nearest(Ser(name))) >= old(Boundary()) && s != Ser(name) ==>
        Resolve(Ser(name)) == old(Resolve(Ser(name))) &&
        (!old(IsBlacklisted(Ser(name))) ==> Resolve(Ser(name)).Some?)
    {
      var key := Ser(name);
      ghost var c := Walk();
      LiveWalk();
      var found := DelWalk(world.scopes, world.dicts, cns, top, key);
      if found.None? {
        return NotOk;
      }
      var (at, above) := found.value;
      ChainIn(world.scopes, cns, Nearest(key));
      var d := world.scopes[at].dict;
      if above && heritage.None? {
        return Crash;
      }
      r := Ok(world.dicts[d][key]);
      if above {
        var h := heritage.value;
        var black := if h.blacklist.None? then {} else h.blacklist.value;
        heritage := Some(h.(blacklist := Some(black + {s})));
      } else {
        world.dicts := world.dicts[d := world.dicts[d] - {key}];
      }
    }

    /**
     * A write of `key` where it lands, at position `WritePos(key)`: that
     * scope's dict binds `key` to `v`, and the name then means `v`.
     */
    method Store(key: Bytes, t: nat, v: Word)
      requires Valid() && alive && 0 < Boundary() <= |Walk()| && t == Slot(WritePos(key))
      modifies world
      ensures Valid() && world.Kept()
      ensures world.dicts == old(world.dicts[t := world.dicts[t][key := v]])
      ensures Resolve(key) == Some(v)
    {
      ghost var p := WritePos(key);
      ChainIn(world.scopes, cns, p);
      WriteMeaning(DeepCopy, world.scopes, world.dicts, Walk(), Boundary(), key, IsBlacklisted(key), p, v);
      world.dicts := world.dicts[t := world.dicts[t][key := v]];
    }

    /**
     * The walk of `Mutate` and `MutateBy` from the current scope: the dict
     * a write of the name lands in, its meaning, and whether it was found
     * at or above the boundary; nothing for an undefined or blacklisted name.
     */
    method Find(key: Bytes) returns (r: Option<(nat, Word, bool)>)
      requires Valid() && alive
      ensures 0 < Boundary() <= |Walk()|
      ensures r.None? <==> Resolve(key).None?
      ensures r.Some? ==> r.value.0 == Slot(WritePos(key)) && Some(r.value.1) == Resolve(key)
      ensures r.Some? ==> r.value.2 == (Boundary() <= Nearest(key))
    {
      LiveWalk();
      var found := WriteWalk(DeepCopy, world.scopes, world.dicts, cns, top, key, IsBlacklisted(key));
      if found.None? {
        return None;
      }
      var (s, w, above) := found.value;
      ChainIn(world.scopes, cns, WritePos(key));
      return Some((world.scopes[s].dict, w, above));
    }

    /**
     * `MutateBy`: the meaning of the name is returned, and when `f` gives
     * a new value for it, the value is stored where a write of the name
     * lands, after which the name means it.  An undefined or blacklisted
     * name changes nothing.
     */
    method MutateBy(name: Word, f: Word -> Option<Word>) returns (r: Option<Word>)
      requires Valid() && alive
      modifies world
      ensures Valid() && world.Kept()
      ensures r == old(Resolve(Ser(name)))
      ensures r.None? || f(r.value).None? ==> world.dicts == old(world.dicts)
      ensures r.Some? && f(r.value).Some? ==>
        var key := Ser(name); var t := old(Slot(WritePos(key)));
        world.dicts == old(world.dicts[t := world.dicts[t][key := f(r.value).value]]) &&
        Resolve(key) == f(r.value)
    {
      var key := Ser(name);
      var found := Find(key);
      if found.None? {
        return None;
      }
      var (t, w, _) := found.value;
      r := Some(w);
      var v := f(w);
      if v.Some? {
        Store(key, t, v.value);
      }
    }

    /**
     * `Mutate` as it is meant: a defined name that is not blacklisted gets
     * the value `w`, stored where a write of the name lands, and then
     * means `w`.
     */
    method Mutate(name: Word, w: Word) returns (ok: bool)
      requires Valid() && alive
      modifies world
      ensures Valid() && world.Kept()
      ensures ok == old(Resolve(Ser(name))).Some?
      ensures !ok ==> world.dicts == old(world.dicts)
      ensures ok ==> var key := Ser(name); var t := old(Slot(WritePos(key)));
        world.dicts == old(world.dicts[t := world.dicts[t][key := w]]) && Resolve(key) == Some(w)
    {
      var key := Ser(name);
      var found := Find(key);
      if found.None? {
        return false;
      }
      Store(key, found.value.0, w);
      return true;
    }

    /**
     * `Mutate` as written: for a name found at or above the boundary it
     * stores the deep copy of the value found, not `w`, so the name keeps
     * its meaning and `w` is lost although `true` is returned.
     */
    method MutateAsWritten(name: Word, w: Word) returns (ok: bool)
      requires Valid() && alive
      modifies world
      ensures Valid() && world.Kept()
      ensures ok == old(Resolve(Ser(name))).Some?
      ensures !ok ==> world.dicts == old(world.dicts)
      ensures ok && old(Nearest(Ser(name))) < old(Boundary()) ==> Resolve(Ser(name)) == Some(w)
      ensures ok && old(Nearest(Ser(name))) >= old(Boundary()) ==> Resolve(Ser(name)) == old(Resolve(Ser(name)))
    {
      var key := Ser(name);
      var found := Find(key);
      if found.None? {
        return false;
      }
      var (t, old_, above) := found.value;
      Store(key, t, if above then old_ else w);
      return true;
    }

    /** Whether either name of a `Swap` is blacklisted. */
    predicate EitherBlacklisted(key1: Bytes, key2: Bytes)
      reads this
    {
      IsBlacklisted(key1) || IsBlacklisted(key2)
    }

    /**
     * `Swap`: when both names are found, and neither is found at or above
     * the boundary with one of them blacklisted, each name's value is
     * stored where a write of the other name lands, and the two meanings
     * are exchanged; the result is (the value found for the second name,
     * the value found for the first).  `SwappedMeanings` shows these are
     * the names' old meanings.
     */
    method Swap(n1: Word, n2: Word) returns (r: Option<(Word, Word)>)
      requires Valid() && alive
      modifies world
      ensures Valid() && world.Kept()
      ensures var k1, k2 := Ser(n1), Ser(n2);
        var sw := old(Swapped(DeepCopy, world.scopes, world.dicts, Walk(), Boundary(), k1, k2, EitherBlacklisted(k1, k2)));
        (r.Some? <==> sw.Some?) && (r.Some? ==> r.value == (sw.value.3, sw.value.1))
      ensures r.None? ==> world.dicts == old(world.dicts)
      ensures r.Some? ==> var k1, k2 := Ser(n1), Ser(n2); var t1, t2 := old(Slot(WritePos(k1))), old(Slot(WritePos(k2)));
        var once := old(world.dicts[t1 := world.dicts[t1][k1 := r.value.0]]);
        world.dicts == once[t2 := once[t2][k2 := r.value.1]]
      ensures r.Some? ==> Resolve(Ser(n1)) == Some(r.value.0) && Resolve(Ser(n2)) == Some(r.value.1)
    {
      var k1, k2 := Ser(n1), Ser(n2);
      LiveWalk();
      ghost var c, j := Walk(), Boundary();
      var found := SwapWalk(DeepCopy, world.scopes, world.dicts, cns, top, k1, k2, EitherBlacklisted(k1, k2));
      if found.None? {
        return None;
      }
      var (s1, w1, s2, w2) := found.value;
      SwapSlots(k1, k2, EitherBlacklisted(k1, k2));
      Exchange(k1, k2, world.scopes[s1].dict, world.scopes[s2].dict, w2, w1);
      return Some((w2, w1));
    }

    /** The scopes `Swapped` names are those holding the dicts where writes of the two names land. */
    lemma SwapSlots(k1: Bytes, k2: Bytes, black: bool)
      requires Valid() && 0 < Boundary() <= |Walk()|
      requires Swapped(DeepCopy, world.scopes, world.dicts, Walk(), Boundary(), k1, k2, black).Some?
      ensures var sw := Swapped(DeepCopy, world.scopes, world.dicts, Walk(), Boundary(), k1, k2, black).value;
        sw.0 < |world.scopes| && sw.2 < |world.scopes| &&
        world.scopes[sw.0].dict == Slot(WritePos(k1)) && world.scopes[sw.2].dict == Slot(WritePos(k2)) &&
        (k1 == k2 ==> sw.1 == sw.3)
    {
      SwappedTargets(DeepCopy, world.scopes, world.dicts, Walk(), Boundary(), k1, k2, black);
      ChainIn(world.scopes, cns, WritePos(k1));
      ChainIn(world.scopes, cns, WritePos(k2));
    }

    /** The writes of `Swap`: `v1` where a write of `key1` lands, then `v2` where a write of `key2` lands. */
    method Exchange(key1: Bytes, key2: Bytes, t1: nat, t2: nat, v1: Word, v2: Word)
      requires Valid() && alive
      requires 0 < Boundary() <= |Walk()| && t1 == Slot(WritePos(key1)) && t2 == Slot(WritePos(key2))
      requires key1 == key2 ==> v1 == v2
      modifies world
      ensures Valid() && world.Kept()
      ensures var once := old(world.dicts[t1 := world.dicts[t1][key1 := v1]]); world.dicts == once[t2 := once[t2][key2 := v2]]
      ensures Resolve(key1) == Some(v1) && Resolve(key2) == Some(v2)
    {
      ghost var c, j := Walk(), Boundary();
      ghost var p1, p2 := WritePos(key1), WritePos(key2);
      ChainIn(world.scopes, cns, p1);
      ChainIn(world.scopes, cns, p2);
      SwapWrites(DeepCopy, world.scopes, world.dicts, c, j, key1, key2, IsBlacklisted(key1), IsBlacklisted(key2), p1, p2, v1, v2);
      var once := world.dicts[t1 := world.dicts[t1][key1 := v1]];
      world.dicts := once[t2 := once[t2][key2 := v2]];
      assert Walk() == c && Boundary() == j;
    }

    // -------------------------------------------------------------------
    // Life cycle

    /** The sanity check passes: the VM is alive and no kill signal waits for it. */
    predicate Healthy()
      reads this, world
    {
      alive && id !in world.signalled
    }

    /**
     * The body of `Destroy`, once the sanity check has passed: the VM leaves
     * its parent's children, its own children are sent a kill signal, and
     * its scopes are let go only when it never had children.
     */
    method Dismantle()
      requires Valid() && alive
      modifies this, world
      ensures Valid() && !alive && heritage == None && io == None && program == old(program)
      ensures world.scopes == old(world.scopes) && world.dicts == old(world.dicts) && world.maxId == old(world.maxId)
      ensures world.aliens == old(world.aliens) && world.nextAlien == old(world.nextAlien)
      ensures if old(heritage).Some? && id !in old(world.children) then cns == None && top == None
              else cns == old(cns) && top == old(top)
      ensures world.signalled ==
        old(world.signalled) + (if old(heritage).Some? && id in old(world.children) then old(world.children[id]) else {})
      ensures world.children == if old(heritage).Some? then Abandoned(old(world.children), id, old(heritage.value.parent)) else old(world.children)
    {
      if heritage.Some? {
        var h := heritage.value;
        if h.parent.Some? && h.parent.value in world.children {
          world.children := world.children[h.parent.value := world.children[h.parent.value] - {id}];
        }
        if id in world.children {
          world.signalled := world.signalled + world.children[id];
          world.children := world.children - {id};
        } else {
          cns, top := None, None;
        }
      }
      heritage, io, alive := None, None, false;
    }

    /**
     * `_sanity`: a destroyed VM raises SystemError; a VM with a kill signal
     * waiting takes the signal, is destroyed and then raises SystemError;
     * any other VM passes unchanged.
     */
    method Sanity(msg: Bytes) returns (p: Option<Panic>)
      requires Valid()
      modifies this, world
      ensures Valid() && world.scopes == old(world.scopes) && world.dicts == old(world.dicts) && world.maxId == old(world.maxId)
      ensures world.aliens == old(world.aliens) && world.nextAlien == old(world.nextAlien)
      ensures p.None? <==> old(Healthy())
      ensures p.Some? ==> p.value == SystemError(Some(id), [FStr(Dead(msg))]) && !alive
      ensures p.None? ==> unchanged(this) && unchanged(world)
    {
      if !alive {
        return Some(SystemError(Some(id), [FStr(Dead(msg))]));
      }
      if id in world.signalled {
        world.signalled := world.signalled - {id};
        Dismantle();
        return Some(SystemError(Some(id), [FStr(Dead(msg))]));
      }
      return None;
    }

    /** `Destroy`: the sanity check, then the body; a second `Destroy` raises SystemError. */
    method Destroy() returns (p: Option<Panic>)
      requires Valid()
      modifies this, world
      ensures Valid() && !alive && heritage == None && io == None
      ensures world.scopes == old(world.scopes) && world.dicts == old(world.dicts) && world.maxId == old(world.maxId)
      ensures world.aliens == old(world.aliens) && world.nextAlien == old(world.nextAlien)
      ensures p.None? <==> old(Healthy())
      ensures p.Some? ==> p.value == SystemError(Some(id), [FStr(Dead("be destroyed again"))])
    {
      p := Sanity("be destroyed again");
      if p.None? {
        Dismantle();
      }
    }

    /** `Kill`: a signal for the kill channel; a destroyed VM has none to get it. */
    method Kill()
      requires Valid()
      modifies world
      ensures Valid()
      ensures world.signalled == old(world.signalled) + (if alive then {id} else {})
      ensures world.children == old(world.children) && world.scopes == old(world.scopes) && world.dicts == old(world.dicts)
      ensures world.maxId == old(world.maxId) && world.aliens == old(world.aliens) && world.nextAlien == old(world.nextAlien)
    {
      if alive {
        assert id <= world.maxId;
        world.signalled := world.signalled + {id};
      }
    }

    /** `Redirect`: the port changes, and the old one is returned. */
    method Redirect(port: Option<nat>) returns (prev: Option<nat>)
      modifies this
      ensures prev == old(io) && io == port
      ensures alive == old(alive) && cns == old(cns) && top == old(top) && program == old(program)
      ensures heritage == old(heritage)
    {
      prev := io;
      io := port;
    }

    /** The child `Spawn` makes, before it is registered. */
    method Child() returns (c: VM)
      requires Valid() && alive
      modifies world
      ensures Valid() && world.Grown() && world.children == old(world.children) && world.signalled == old(world.signalled)
      ensures fresh(c) && c.world == world && c.id == old(world.maxId) + 1 && world.maxId == c.id
      ensures c.Valid() && c.Healthy() && c.io == io && c.program == None && c.top == cns && c.id !in world.children
      ensures c.heritage == Some(Heritage(Some(id), None)) && c.Walk() == [c.cns.value] + Walk() && c.Boundary() == 1
      ensures Walk() == old(Walk()) && Boundary() == old(Boundary())
      ensures world.dicts == old(world.dicts) + [map[]] && world.scopes == old(world.scopes) + [Scope(cns, |old(world.dicts)|)]
    {
      LiveWalk();
      assert id <= world.maxId;
      c := NewVMRaw(world, io);
      var s := world.NewScope(cns);
      RootedGrows(old(world.scopes), world.scopes, cns, top);
      SpawnedRooted(world.scopes, s, cns);
      c.heritage := Some(Heritage(Some(id), None));
      c.top := cns;
      c.cns := Some(s);
    }

    /**
     * `Spawn`: a child VM whose boundary is this VM's current scope and
     * whose current scope is a fresh scope above it, recorded as this VM's
     * child and recording this VM as its parent.
     */
    method Spawn() returns (r: Out<VM>)
      requires Valid()
      modifies this, world
      ensures Valid()
      ensures r.Unwound? <==> !old(Healthy())
      ensures world.Grown() && (alive ==> old(alive) && top == old(top))
      ensures r.Unwound? ==> r.u == Panicked(SystemError(Some(id), [FStr(Dead("spawn a child"))])) && !alive
      ensures r.Done? ==> var c := r.value;
        fresh(c) && c.world == world && c.id == old(world.maxId) + 1 && world.maxId == c.id &&
        c.Valid() && c.Healthy() && c.io == io && c.program == None && c.top == cns && c.id !in world.children &&
        c.heritage == Some(Heritage(Some(id), None)) && c.Walk() == [c.cns.value] + Walk() && c.Boundary() == 1
      ensures r.Done? ==> alive && cns == old(cns) && top == old(top) && Walk() == old(Walk()) && Boundary() == old(Boundary())
      ensures r.Done? ==> heritage == Some(old(if heritage.Some? then heritage.value else Heritage(None, None)))
      ensures r.Done? ==> world.children == old(world.children)[id := old(if id in world.children then world.children[id] else {}) + {r.value.id}]
      ensures r.Done? ==> world.signalled == old(world.signalled)
      ensures r.Done? ==> world.dicts == old(world.dicts) + [map[]] && world.scopes == old(world.scopes) + [Scope(cns, |old(world.dicts)|)]
    {
      var p := Sanity("spawn a child");
      if p.Some? {
        return Unwound(Panicked(p.value));
      }
      assert world.scopes == old(world.scopes) && world.dicts == old(world.dicts) && world.maxId == old(world.maxId);
      assert Walk() == old(Walk()) && Boundary() == old(Boundary());
      var c := Child();
      Adopt(c.id);
      return Done(c);
    }

    /** Records a spawned child in the children map, creating the heritage and the map if need be. */
    method Adopt(child: nat)
      requires Valid() && alive && child <= world.maxId
      modifies this`heritage, world`children
      ensures Valid() && alive
      ensures heritage == Some(old(if heritage.Some? then heritage.value else Heritage(None, None)))
      ensures world.children == old(world.children)[id := old(if id in world.children then world.children[id] else {}) + {child}]
    {
      if heritage.None? {
        heritage := Some(Heritage(None, None));
      }
      var kids := if id in world.children then world.children[id] else {};
      assert id <= world.maxId;
      world.children := world.children[id := kids + {child}];
    }

    // -------------------------------------------------------------------
    // Programs

    /** A syntax error is returned as its error word; any other failure unwinds. */
    static function Reported(err: Panic): Out<Option<Word>>
    {
      if err.Raise? then Done(Some(err.err)) else Unwound(Panicked(err))
    }

    /**
     * `SetProgram`: a program that parses becomes the VM's program; one
     * that does not leaves the program as it was and its syntax error is
     * returned.
     */
    method SetProgram(q: Program) returns (r: Out<Option<Word>>)
      requires Valid()
      modifies this, world
      ensures Valid() && world.Same()
      ensures !old(Healthy()) ==> r == Unwound(Panicked(SystemError(Some(id), [FStr(Dead("set a new program"))])))
      ensures old(Healthy()) ==> Healthy()
      ensures old(Healthy()) && q.Source? && world.parse(q.src).Unparsable? ==>
        r == Reported(world.parse(q.src).err) && program == old(program)
      ensures old(Healthy()) && !(q.Source? && world.parse(q.src).Unparsable?) ==> r == Done(None) && program == Some(q)
    {
      var p := Sanity("set a new program");
      if p.Some? {
        return Unwound(Panicked(p.value));
      }
      if q.Source? {
        var code := world.parse(q.src);
        if code.Unparsable? {
          return Reported(code.err);
        }
      }
      program := Some(q);
      return Done(None);
    }

    /** `ParseProgram`: the source read becomes the program when it parses; otherwise its syntax error is returned. */
    method ParseProgram(input: Bytes) returns (r: Out<Option<Word>>)
      requires Valid()
      modifies this, world
      ensures Valid() && world.Same()
      ensures !old(Healthy()) ==> r == Unwound(Panicked(SystemError(Some(id), [FStr(Dead("parse and set a new program"))])))
      ensures old(Healthy()) ==> Healthy()
      ensures old(Healthy()) && world.parse(input).Unparsable? ==> r == Reported(world.parse(input).err) && program == old(program)
      ensures old(Healthy()) && world.parse(input).Commands? ==> r == Done(None) && program == Some(Source(input))
    {
      var p := Sanity("parse and set a new program");
      if p.Some? {
        return Unwound(Panicked(p.value));
      }
      var code := world.parse(input);
      if code.Unparsable? {
        return Reported(code.err);
      }
      program := Some(Source(input));
      return Done(None);
    }

    // -------------------------------------------------------------------
    // Reading values out

    /**
     * `Read*`: the nearest binding of the name, deep copied and with no
     * boundary, converted to what the caller asked for; NotOk when the
     * name is absent or the value has another type.
     */
    method Read(name: Bytes, kind: Kind) returns (r: Out<Res<Reading>>)
      requires Valid()
      modifies this, world
      ensures Valid()
      ensures !old(Healthy()) ==> r == Unwound(Panicked(SystemError(Some(id), [FStr(Dead(Purpose(kind)))])))
      ensures old(Healthy()) ==>
        var c := Walk(); var i := Nearest(name);
        r == Done(if i < |c| then Extract(kind, DeepCopy(DictOf(world.scopes, world.dicts, c[i])[name])) else NotOk)
    {
      var p := Sanity(Purpose(kind));
      if p.Some? {
        return Unwound(Panicked(p.value));
      }
      var w := CopyOut(name);
      if w.None? {
        return Done(NotOk);
      }
      return Done(Extract(kind, w.value));
    }
  }

  /** Forking an empty scope in front of a walk changes the meaning of no name. */
  lemma ForkedMeanings(scopes: seq<Scope>, dicts: seq<map<Bytes, Word>>, scopes2: seq<Scope>, dicts2: seq<map<Bytes, Word>>,
                       s: nat, up: Option<nat>, c: seq<nat>, j: nat, black: Option<set<Bytes>>)
    requires scopes2 == scopes + [Scope(up, |dicts|)] && s == |scopes| && dicts2 == dicts + [map[]]
    requires c == Chain(scopes, up)
    ensures forall key :: Meaning(DeepCopy, scopes2, dicts2, [s] + c, j + 1, key, Blocked(black, key)) ==
                          Meaning(DeepCopy, scopes, dicts, c, j, key, Blocked(black, key))
  {
    forall key
      ensures Meaning(DeepCopy, scopes2, dicts2, [s] + c, j + 1, key, Blocked(black, key)) ==
              Meaning(DeepCopy, scopes, dicts, c, j, key, Blocked(black, key))
    {
      ForkedMeaning(scopes, dicts, scopes2, dicts2, s, up, c, j, key, Blocked(black, key));
    }
  }

  /** Forking an empty scope in front of a walk changes no name's meaning. */
  lemma ForkedMeaning(scopes: seq<Scope>, dicts: seq<map<Bytes, Word>>, scopes2: seq<Scope>, dicts2: seq<map<Bytes, Word>>,
                      s: nat, up: Option<nat>, c: seq<nat>, j: nat, key: Bytes, black: bool)
    requires scopes2 == scopes + [Scope(up, |dicts|)] && s == |scopes| && dicts2 == dicts + [map[]]
    requires c == Chain(scopes, up)
    ensures Meaning(DeepCopy, scopes2, dicts2, [s] + c, j + 1, key, black) == Meaning(DeepCopy, scopes, dicts, c, j, key, black)
  {
    assert DictOf(scopes2, dicts2, s) == map[];
    MeaningUnderFork(DeepCopy, scopes2, dicts2, s, c, j, key, black);
    forall m | 0 <= m < |c|
      ensures DictOf(scopes, dicts, c[m]) == DictOf(scopes2, dicts2, c[m])
    {
      ChainIn(scopes, up, m);
    }
    MeaningSame(DeepCopy, scopes, dicts, scopes2, dicts2, c, j, key, black);
  }

  /** Popping the current scope, whose parent is not the boundary, leaves a walk that still reaches it. */
  lemma PoppedWalk(scopes: seq<Scope>, cns: Option<nat>, top: Option<nat>)
    requires Acyclic(scopes) && Rooted(scopes, cns, top) && scopes[cns.value].up != top
    ensures Chain(scopes, scopes[cns.value].up) == Chain(scopes, cns)[1..]
    ensures Rooted(scopes, scopes[cns.value].up, top)
    ensures IndexOf(Chain(scopes, scopes[cns.value].up), top) == IndexOf(Chain(scopes, cns), top) - 1
  {
    var c := Chain(scopes, cns);
    ChainStart(scopes, cns);
    ChainStep(scopes, cns, 0);
    assert c[1..] == Chain(scopes, scopes[cns.value].up);
  }

  /** Binding another name in one dict does not move the nearest holder of `key`. */
  lemma {:induction false} OtherKeyFirst(scopes: seq<Scope>, dicts: seq<map<Bytes, Word>>, d: nat, k: Bytes, v: Word, c: seq<nat>, key: Bytes)
    requires k != key && d < |dicts|
    ensures FirstWith(scopes, dicts[d := dicts[d][k := v]], c, key) == FirstWith(scopes, dicts, c, key)
    decreases |c|
  {
    var dicts2 := dicts[d := dicts[d][k := v]];
    if c != [] {
      assert key in DictOf(scopes, dicts2, c[0]) <==> key in DictOf(scopes, dicts, c[0]);
      OtherKeyFirst(scopes, dicts, d, k, v, c[1..], key);
    }
  }

  /** Binding another name in one dict does not change what `key` means. */
  lemma OtherKeyMeaning(copy: Word -> Word, scopes: seq<Scope>, dicts: seq<map<Bytes, Word>>, d: nat, k: Bytes, v: Word,
                        c: seq<nat>, j: nat, key: Bytes, black: bool)
    requires k != key && d < |dicts|
    ensures Meaning(copy, scopes, dicts[d := dicts[d][k := v]], c, j, key, black) == Meaning(copy, scopes, dicts, c, j, key, black)
  {
    OtherKeyFirst(scopes, dicts, d, k, v, c, key);
  }

  /** What a `Swap` finds for each name is what the name means, each with its own blacklisting. */
  lemma SwappedMeanings(copy: Word -> Word, scopes: seq<Scope>, dicts: seq<map<Bytes, Word>>, c: seq<nat>, j: nat,
                        key1: Bytes, key2: Bytes, black1: bool, black2: bool)
    requires 0 < j <= |c| && Swapped(copy, scopes, dicts, c, j, key1, key2, black1 || black2).Some?
    ensures var sw := Swapped(copy, scopes, dicts, c, j, key1, key2, black1 || black2).value;
      Meaning(copy, scopes, dicts, c, j, key1, black1) == Some(sw.1) && Meaning(copy, scopes, dicts, c, j, key2, black2) == Some(sw.3)
  {
  }

  /**
   * The two writes of `Swap`, each at an owned position no further than
   * its name's nearest holder, leave each name meaning the value written
   * for it (the same name twice is written twice with the same value).
   */
  lemma SwapWrites(copy: Word -> Word, scopes: seq<Scope>, dicts: seq<map<Bytes, Word>>, c: seq<nat>, j: nat,
                   key1: Bytes, key2: Bytes, black1: bool, black2: bool, p1: nat, p2: nat, v1: Word, v2: Word)
    requires p1 < j <= |c| && p2 < j && c[p1] < |scopes| && c[p2] < |scopes|
    requires scopes[c[p1]].dict < |dicts| && scopes[c[p2]].dict < |dicts|
    requires p1 <= FirstWith(scopes, dicts, c, key1) && p2 <= FirstWith(scopes, dicts, c, key2)
    requires key1 == key2 ==> p1 == p2 && v1 == v2
    ensures var t1, t2 := scopes[c[p1]].dict, scopes[c[p2]].dict;
      var d1 := dicts[t1 := dicts[t1][key1 := v1]]; var d2 := d1[t2 := d1[t2][key2 := v2]];
      Meaning(copy, scopes, d2, c, j, key1, black1) == Some(v1) && Meaning(copy, scopes, d2, c, j, key2, black2) == Some(v2)
  {
    var t1, t2 := scopes[c[p1]].dict, scopes[c[p2]].dict;
    var d1 := dicts[t1 := dicts[t1][key1 := v1]];
    WriteMeaning(copy, scopes, dicts, c, j, key1, black1, p1, v1);
    if key1 == key2 {
      assert d1[t2 := d1[t2][key2 := v2]] == d1 by {
        assert d1[t1][key1 := v1] == d1[t1];
      }
      WriteMeaning(copy, scopes, dicts, c, j, key1, black2, p1, v1);
    } else {
      OtherKeyFirst(scopes, dicts, t1, key1, v1, c, key2);
      WriteMeaning(copy, scopes, d1, c, j, key2, black2, p2, v2);
      OtherKeyMeaning(copy, scopes, d1, t2, key2, v2, c, j, key1, black1);
    }
  }

  /** Where `Swap` writes: for each name, its owned holder, else the topmost owned scope; one name twice gets one value. */
  lemma SwappedTargets(copy: Word -> Word, scopes: seq<Scope>, dicts: seq<map<Bytes, Word>>, c: seq<nat>, j: nat,
                       key1: Bytes, key2: Bytes, black: bool)
    requires 0 < j <= |c| && Swapped(copy, scopes, dicts, c, j, key1, key2, black).Some?
    ensures var sw := Swapped(copy, scopes, dicts, c, j, key1, key2, black).value;
      var i1, i2 := FirstWith(scopes, dicts, c, key1), FirstWith(scopes, dicts, c, key2);
      sw.0 == c[if i1 < j then i1 else j - 1] && sw.2 == c[if i2 < j then i2 else j - 1] &&
      (key1 == key2 ==> sw.1 == sw.3)
  {
  }

  /** `_newVM`: a VM with the next id, a fresh kill switch and no scope. */
  method NewVMRaw(world: World, port: Option<nat>) returns (vm: VM)
    requires world.Valid()
    modifies world
    ensures fresh(vm) && vm.id !in world.signalled && vm.id !in world.children
    ensures world.children == old(world.children) && world.signalled == old(world.signalled)
    ensures vm.world == world && vm.id == old(world.maxId) + 1 && world.maxId == vm.id && vm.io == port && vm.alive
    ensures vm.cns == None && vm.top == None && vm.program == None && vm.heritage == None
    ensures world.Valid() && world.scopes == old(world.scopes) && world.dicts == old(world.dicts)
    ensures world.aliens == old(world.aliens) && world.nextAlien == old(world.nextAlien)
  {
    var id := world.NextId();
    vm := new VM.Init(world, id, port);
  }

  /** `NewVM`: a VM whose only scope is a new root scope binding "arguments" to Null. */
  method NewVM(world: World, port: Option<nat>) returns (vm: VM)
    requires world.Valid()
    modifies world
    ensures fresh(vm) && vm.world == world && vm.Valid() && vm.Healthy() && vm.id !in world.children
    ensures vm.id == old(world.maxId) + 1 && world.maxId == vm.id && vm.io == port
    ensures vm.top == None && vm.heritage == None && vm.program == None
    ensures world.scopes == old(world.scopes) + [Scope(None, |old(world.dicts)|)]
    ensures world.dicts == old(world.dicts) + [map["arguments" := Null]]
    ensures vm.Walk() == [vm.cns.value] && vm.Boundary() == 1
    ensures vm.Resolve("arguments") == Some(Null)
  {
    vm := NewVMRaw(world, port);
    var s := world.NewScope(None);
    world.dicts := world.dicts[|world.dicts| - 1 := map["arguments" := Null]];
    vm.cns := Some(s);
    assert vm.Walk() == [s];
    assert DictOf(world.scopes, world.dicts, s) == map["arguments" := Null];
  }

  // ---------------------------------------------------------------------
  // Reading values out

  /** Which member of the `Read*` family is called. */
  datatype Kind = AnyWord | Text | ByteText | Boolean | Mapping | Items | Code | Integer | Real

  /** What a `Read*` member returns. */
  datatype Reading = GotWord(w: Word) | GotBytes(b: Bytes) | GotBool(truth: bool) | GotMap(m: map<Bytes, Word>)
                   | GotItems(items: seq<Word>) | GotInt(i: int) | GotReal(f: Float)

  /** What the sanity check of each `Read*` member says the VM attempted. */
  function Purpose(kind: Kind): Bytes
  {
    match kind
    case AnyWord => "read a word out"
    case Text => "read a string out"
    case ByteText => "read a byte string out"
    case Boolean => "read a boolean out"
    case Mapping => "read a map out"
    case Items => "read a slice out"
    case Code => "read a quote out"
    case Integer => "read an integer out"
    case Real => "read a number out"
  }

  /** Whether a value has the type a `Read*` member asks for. */
  predicate Fits(kind: Kind, w: Word)
  {
    match kind
    case AnyWord => true
    case Text => true
    case ByteText => true
    case Boolean => w.Bool?
    case Mapping => w.Dict?
    case Items => w.List?
    case Code => w.Quote?
    case Integer => w.Number? && FloatInt(w.num).Some?
    case Real => w.Number?
  }

  /**
   * The conversion of a found value by a `Read*` member, as it is meant:
   * NotOk for a value of another type, and never a crash.
   */
  function Extract(kind: Kind, w: Word): (r: Res<Reading>)
    ensures r.Crash? == false
    ensures r.Ok? <==> Fits(kind, w)
    ensures r.Ok? && (kind == Text || kind == ByteText) ==> r.value == GotBytes(Ser(w))
    ensures r.Ok? && kind == Mapping ==> r.value == GotMap(w.rep)
  {
    if !Fits(kind, w) then NotOk
    else match kind
      case AnyWord => Ok(GotWord(w))
      case Text => Ok(GotBytes(Ser(w)))
      case ByteText => Ok(GotBytes(Ser(w)))
      case Boolean => Ok(GotBool(w.truth))
      case Mapping => Ok(GotMap(w.rep))
      case Items => Ok(GotItems(w.items))
      case Code => Ok(GotWord(w))
      case Integer => Ok(GotInt(FloatInt(w.num).value))
      case Real => Ok(GotReal(w.num))
  }

  /**
   * The conversion as written: `ReadMap` does not check its type
   * assertion, so a value that is not a dict is dereferenced as a nil
   * dict and crashes.
   */
  function ExtractAsWritten(kind: Kind, w: Word): (r: Res<Reading>)
    ensures r.Crash? <==> kind == Mapping && !w.Dict?
  {
    if kind == Mapping && !w.Dict? then Crash else Extract(kind, w)
  }

  /** The two differ exactly where `ReadMap` meets a value that is not a dict: a crash instead of NotOk. */
  lemma ReadMapCrashes(kind: Kind, w: Word)
    ensures ExtractAsWritten(kind, w) != Extract(kind, w) <==> kind == Mapping && !w.Dict?
    ensures ExtractAsWritten(Mapping, Null) == Crash && Extract(Mapping, Null) == NotOk
  {
  }
}
