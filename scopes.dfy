/**
 * The scope chain of src/gelo/namespace.go, as values.
 *
 * A `*namespace` is a scope: a link to its parent scope and the dict it
 * holds.  A VM walks the chain from its current scope `cns` upwards; the
 * scope `top` is its boundary: the VM owns the scopes strictly below it,
 * and everything from `top` upwards belongs to the VM that spawned it.
 * Reads at or above the boundary are deep copies, writes that land there go
 * to the VM's topmost owned scope, and a delete there only records the name
 * in the VM's blacklist.
 *
 * Scopes live in an arena (a sequence; a pointer is an index) and dicts in
 * another, so that two scopes can share a dict.  A scope is created once
 * and its links never change, so every chain ends: a scope's parent always
 * has a smaller index.  This module holds the walks over one snapshot of
 * the arenas, each a loop as in the source and each proved against a
 * specification function; the class that owns the arenas is in
 * machine.dfy.
 */
module Scopes {
  import opened Base
  import opened Words

  /** A `*namespace`: the index of its parent scope (`nil` is None) and of its dict. */
  datatype Scope = Scope(up: Option<nat>, dict: nat)

  // ---------------------------------------------------------------------
  // Chains

  predicate Within(s: Option<nat>, n: nat)
  {
    s.None? || s.value < n
  }

  /** Every scope's parent was created before it. */
  predicate Acyclic(scopes: seq<Scope>)
  {
    forall i | 0 <= i < |scopes| :: scopes[i].up.Some? ==> scopes[i].up.value < i
  }

  predicate DictsIn(scopes: seq<Scope>, n: nat)
  {
    forall i | 0 <= i < |scopes| :: scopes[i].dict < n
  }

  /** The scopes a walk up from `s` visits, in order (empty for nil). */
  function Chain(scopes: seq<Scope>, s: Option<nat>): (c: seq<nat>)
    decreases if s.Some? then s.value + 1 else 0
  {
    if s.None? || s.value >= |scopes| then []
    else
      var u := scopes[s.value].up;
      // the guard only fails in an arena that is not Acyclic
      if u.Some? && u.value < s.value then [s.value] + Chain(scopes, u) else [s.value]
  }

  /** The pointer at position `k` of a walk: nil past its end. */
  function At(c: seq<nat>, k: nat): Option<nat>
  {
    if k < |c| then Some(c[k]) else None
  }

  /** Every scope a walk visits is in the arena. */
  lemma {:induction false} ChainIn(scopes: seq<Scope>, s: Option<nat>, k: nat)
    requires k < |Chain(scopes, s)|
    ensures Chain(scopes, s)[k] < |scopes|
    decreases if s.Some? then s.value + 1 else 0
  {
    var u := scopes[s.value].up;
    if k > 0 {
      ChainIn(scopes, u, k - 1);
    }
  }

  /** A walk starts at `s`. */
  lemma ChainStart(scopes: seq<Scope>, s: Option<nat>)
    requires Within(s, |scopes|)
    ensures At(Chain(scopes, s), 0) == s
  {
  }

  /** Each step of a walk follows the parent link of the scope it leaves. */
  lemma {:induction false} ChainStep(scopes: seq<Scope>, s: Option<nat>, k: nat)
    requires Acyclic(scopes) && Within(s, |scopes|) && k < |Chain(scopes, s)|
    ensures var c := Chain(scopes, s); c[k] < |scopes| && scopes[c[k]].up == At(c, k + 1)
    decreases k
  {
    ChainIn(scopes, s, k);
    var c := Chain(scopes, s);
    var u := scopes[s.value].up;
    if u.Some? {
      var t := Chain(scopes, u);
      assert c == [s.value] + t;
      if k == 0 {
        ChainStart(scopes, u);
      } else {
        ChainStep(scopes, u, k - 1);
        assert c[k] == t[k - 1];
      }
    }
  }

  /** A walk never visits a scope twice: each scope is older than the one before it. */
  lemma {:induction false} ChainDescends(scopes: seq<Scope>, s: Option<nat>)
    requires Acyclic(scopes) && Within(s, |scopes|)
    ensures forall a, b | 0 <= a < b < |Chain(scopes, s)| :: Chain(scopes, s)[b] < Chain(scopes, s)[a]
    ensures s.Some? ==> forall k | 0 <= k < |Chain(scopes, s)| :: Chain(scopes, s)[k] <= s.value
    decreases if s.Some? then s.value + 1 else 0
  {
    if s.Some? {
      var u := scopes[s.value].up;
      var c := Chain(scopes, s);
      if u.Some? {
        ChainDescends(scopes, u);
        var t := Chain(scopes, u);
        assert c == [s.value] + t;
        forall a, b | 0 <= a < b < |c|
          ensures c[b] < c[a]
        {
          if a > 0 {
            assert c[a] == t[a - 1] && c[b] == t[b - 1];
            assert t[b - 1] < t[a - 1];
          } else {
            assert c[0] == s.value && c[b] == t[b - 1];
            assert t[b - 1] <= u.value < s.value;
          }
        }
        forall k | 0 <= k < |c|
          ensures c[k] <= s.value
        {
          if k > 0 {
            assert c[k] == t[k - 1];
          }
        }
      }
    }
  }

  /** Scopes added later do not change an existing walk. */
  lemma {:induction false} ChainExtends(scopes: seq<Scope>, more: seq<Scope>, s: Option<nat>)
    requires Acyclic(scopes) && Within(s, |scopes|) && scopes <= more
    ensures Chain(more, s) == Chain(scopes, s)
    decreases if s.Some? then s.value + 1 else 0
  {
    if s.Some? {
      assert more[s.value] == scopes[s.value];
      var u := scopes[s.value].up;
      if u.Some? {
        ChainExtends(scopes, more, u);
      }
    }
  }

  /** The dict of scope `s` (empty for an index outside the arena). */
  function DictOf(scopes: seq<Scope>, dicts: seq<map<Bytes, Word>>, s: nat): map<Bytes, Word>
  {
    if s < |scopes| && scopes[s].dict < |dicts| then dicts[scopes[s].dict] else map[]
  }

  /** The position of the nearest scope of the walk whose dict binds `key` (`|c|` when none does). */
  function FirstWith(scopes: seq<Scope>, dicts: seq<map<Bytes, Word>>, c: seq<nat>, key: Bytes): (i: nat)
    ensures i <= |c|
    ensures i < |c| ==> key in DictOf(scopes, dicts, c[i])
    decreases |c|
  {
    if c == [] then 0
    else if key in DictOf(scopes, dicts, c[0]) then 0
    else 1 + FirstWith(scopes, dicts, c[1..], key)
  }

  /** No scope before the nearest holder binds the key, and the holder, if any, does. */
  lemma {:induction false} FirstWithIsNearest(scopes: seq<Scope>, dicts: seq<map<Bytes, Word>>, c: seq<nat>, key: Bytes)
    ensures var i := FirstWith(scopes, dicts, c, key);
      (forall m | 0 <= m < i :: key !in DictOf(scopes, dicts, c[m])) &&
      (i < |c| ==> key in DictOf(scopes, dicts, c[i]))
    decreases |c|
  {
    if c != [] && key !in DictOf(scopes, dicts, c[0]) {
      FirstWithIsNearest(scopes, dicts, c[1..], key);
      assert forall m | 1 <= m < |c| :: c[m] == c[1..][m - 1];
    }
  }

  /** At a position not past the nearest holder, the scope binds the key exactly when it is the holder. */
  lemma {:induction false} FirstWithAt(scopes: seq<Scope>, dicts: seq<map<Bytes, Word>>, c: seq<nat>, key: Bytes, k: nat)
    requires k < |c|
    ensures k <= FirstWith(scopes, dicts, c, key) ==> (key in DictOf(scopes, dicts, c[k]) <==> k == FirstWith(scopes, dicts, c, key))
    decreases k
  {
    if 0 < k <= FirstWith(scopes, dicts, c, key) {
      assert c[1..][k - 1] == c[k];
      FirstWithAt(scopes, dicts, c[1..], key, k - 1);
    }
  }

  /** The position of the boundary scope in the walk (`|c|` when the walk never reaches it). */
  function IndexOf(c: seq<nat>, top: Option<nat>): (j: nat)
    ensures j <= |c|
    ensures j < |c| ==> Some(c[j]) == top
    decreases |c|
  {
    if c == [] then 0
    else if Some(c[0]) == top then 0
    else 1 + IndexOf(c[1..], top)
  }

  /** At a position not past the boundary, the scope is the boundary exactly when the position is the boundary's. */
  lemma {:induction false} IndexOfAt(c: seq<nat>, top: Option<nat>, k: nat)
    requires k < |c| && k <= IndexOf(c, top)
    ensures Some(c[k]) == top <==> k == IndexOf(c, top)
    decreases k
  {
    if k > 0 {
      assert c[1..][k - 1] == c[k];
      IndexOfAt(c[1..], top, k - 1);
    }
  }

  lemma {:induction false} IndexOfIsFirst(c: seq<nat>, top: Option<nat>)
    ensures var j := IndexOf(c, top);
      (forall m | 0 <= m < j :: Some(c[m]) != top) && (j < |c| ==> Some(c[j]) == top)
    decreases |c|
  {
    if c != [] && Some(c[0]) != top {
      IndexOfIsFirst(c[1..], top);
      assert forall m | 1 <= m < |c| :: c[m] == c[1..][m - 1];
    }
  }

  /** Whether a blacklist (None for Go's nil map) holds `key`. */
  predicate Blocked(black: Option<set<Bytes>>, key: Bytes)
  {
    black.Some? && key in black.value
  }

  /**
   * A live VM's walk: its current scope exists, and its boundary, when it
   * has one, is a scope strictly above the current one.
   */
  predicate Rooted(scopes: seq<Scope>, cns: Option<nat>, top: Option<nat>)
  {
    cns.Some? && cns.value < |scopes| &&
    (top.Some? ==> 0 < IndexOf(Chain(scopes, cns), top) < |Chain(scopes, cns)|)
  }

  /** The value of the binding at position `i`, deep copied when `i` is at or above the boundary `j`. */
  function Found(copy: Word -> Word, scopes: seq<Scope>, dicts: seq<map<Bytes, Word>>, c: seq<nat>, i: nat, j: nat, key: Bytes): Word
    requires i < |c| && key in DictOf(scopes, dicts, c[i])
  {
    var w := DictOf(scopes, dicts, c[i])[key];
    if j <= i then copy(w) else w
  }

  /**
   * Whether `key` means something along the walk `c` whose boundary is at
   * position `j`: some scope binds it, and the walk does not reach the
   * boundary before the nearest holder with the name blacklisted.
   */
  predicate Defined(scopes: seq<Scope>, dicts: seq<map<Bytes, Word>>, c: seq<nat>, j: nat, key: Bytes, black: bool)
  {
    var i := FirstWith(scopes, dicts, c, key);
    i < |c| && !(j <= i && black)
  }

  /**
   * What `key` means along the walk `c` whose boundary is at position `j`:
   * the binding in the nearest scope, copied with `copy` when that scope is
   * at or above the boundary, and nothing when it is not defined.
   */
  function Meaning(copy: Word -> Word, scopes: seq<Scope>, dicts: seq<map<Bytes, Word>>, c: seq<nat>, j: nat, key: Bytes, black: bool): Option<Word>
  {
    if Defined(scopes, dicts, c, j, key, black) then Some(Found(copy, scopes, dicts, c, FirstWith(scopes, dicts, c, key), j, key))
    else None
  }

  /** Where a write of a binding found at position `i` lands: there when owned, else the topmost owned scope. */
  function Target(c: seq<nat>, i: nat, j: nat): nat
    requires i < |c| && 0 < j <= |c|
  {
    c[if i < j then i else j - 1]
  }

  /** `ns` is the scope at position `k` of the walk from `s` in an arena whose links all point to older scopes. */
  ghost predicate OnChain(scopes: seq<Scope>, s: Option<nat>, k: nat, ns: Option<nat>)
  {
    Acyclic(scopes) && Within(s, |scopes|) && k < |Chain(scopes, s)| && ns == At(Chain(scopes, s), k)
  }

  /** One step up the walk: the parent of the scope at position `k`. */
  method Up(scopes: seq<Scope>, ghost s: Option<nat>, ghost k: nat, ns: Option<nat>) returns (up: Option<nat>)
    requires OnChain(scopes, s, k, ns)
    ensures up == At(Chain(scopes, s), k + 1)
  {
    ChainStep(scopes, s, k);
    up := scopes[ns.value].up;
  }

  /** The dict of the scope at position `k` of the walk. */
  method DictAt(scopes: seq<Scope>, dicts: seq<map<Bytes, Word>>, ghost s: Option<nat>, ghost k: nat, ns: Option<nat>)
    returns (d: map<Bytes, Word>)
    requires DictsIn(scopes, |dicts|) && k < |Chain(scopes, s)| && ns == At(Chain(scopes, s), k)
    ensures Chain(scopes, s)[k] < |scopes| && d == DictOf(scopes, dicts, Chain(scopes, s)[k])
  {
    ChainIn(scopes, s, k);
    d := dicts[scopes[ns.value].dict];
  }

  /**
   * What a reading walk knows once it has visited `k` scopes and is at
   * `ns`: it has not passed the nearest holder at `i`, and it has passed the
   * boundary at `j` only when the name is not blacklisted.
   */
  ghost predicate Reading(c: seq<nat>, j: nat, i: nat, black: bool, k: nat, ns: Option<nat>)
  {
    k <= |c| && ns == At(c, k) && k <= i && (j < k ==> !black)
  }

  /** A reading walk that finds the name at position `k`, not blocked there, has found its nearest holder. */
  lemma DefinedAtHolder(scopes: seq<Scope>, dicts: seq<map<Bytes, Word>>, c: seq<nat>, j: nat, key: Bytes, black: bool, k: nat)
    requires k < |c| && k <= FirstWith(scopes, dicts, c, key) && key in DictOf(scopes, dicts, c[k]) && (j <= k ==> !black)
    ensures FirstWith(scopes, dicts, c, key) == k && Defined(scopes, dicts, c, j, key, black)
  {
    FirstWithAt(scopes, dicts, c, key, k);
  }

  /** The walk of `Lookup` from `s`, with the boundary `top`; `black` is whether the name is blacklisted. */
  method LookupWalk(copy: Word -> Word, scopes: seq<Scope>, dicts: seq<map<Bytes, Word>>, s: Option<nat>, top: Option<nat>, key: Bytes, black: bool)
    returns (w: Word, ok: bool)
    requires Acyclic(scopes) && DictsIn(scopes, |dicts|) && Within(s, |scopes|)
    ensures var c := Chain(scopes, s); var r := Meaning(copy, scopes, dicts, c, IndexOf(c, top), key, black);
      ok == r.Some? && w == if ok then r.value else Null
  {
    ghost var c := Chain(scopes, s);
    ghost var j := IndexOf(c, top);
    ghost var i := FirstWith(scopes, dicts, c, key);
    ChainStart(scopes, s);
    var ns := s;
    var above := false;
    ghost var k := 0;
    while ns.Some?
      invariant Reading(c, j, i, black, k, ns) && above == (j < k)
      decreases |c| - k
    {
      if k <= j { IndexOfAt(c, top, k); }
      if ns == top {
        above := true;
        if black {
            return Null, false;
        }
      }
      var d := DictAt(scopes, dicts, s, k, ns);
      if key in d {
        DefinedAtHolder(scopes, dicts, c, j, key, black, k);
        w := d[key];
        if above {
          w := copy(w);
        }
        return w, true;
      }
      FirstWithAt(scopes, dicts, c, key, k);
      ns := Up(scopes, s, k, ns);
      k := k + 1;
    }
    return Null, false;
  }

  /** The walk of `Has`. */
  method HasWalk(scopes: seq<Scope>, dicts: seq<map<Bytes, Word>>, s: Option<nat>, top: Option<nat>, key: Bytes, black: bool)
    returns (r: bool)
    requires Acyclic(scopes) && DictsIn(scopes, |dicts|) && Within(s, |scopes|)
    ensures var c := Chain(scopes, s); r == Defined(scopes, dicts, c, IndexOf(c, top), key, black)
  {
    ghost var c := Chain(scopes, s);
    ghost var j := IndexOf(c, top);
    ghost var i := FirstWith(scopes, dicts, c, key);
    ChainStart(scopes, s);
    var ns := s;
    ghost var k := 0;
    while ns.Some?
      invariant Reading(c, j, i, black, k, ns)
      decreases |c| - k
    {
      if k <= j { IndexOfAt(c, top, k); }
      if ns == top && black {
        return false;
      }
      var d := DictAt(scopes, dicts, s, k, ns);
      if key in d {
        DefinedAtHolder(scopes, dicts, c, j, key, black, k);
        return true;
      }
      FirstWithAt(scopes, dicts, c, key, k);
      ns := Up(scopes, s, k, ns);
      k := k + 1;
    }
    return false;
  }

  /**
   * How many scopes of the walk `c` a lookup of `key` visits, the holder
   * included, and whether it finds the name: it stops at the holder, at the
   * boundary `j` when the name is blacklisted there, or at the end.
   */
  ghost function Depth(scopes: seq<Scope>, dicts: seq<map<Bytes, Word>>, c: seq<nat>, j: nat, key: Bytes, black: bool): (nat, bool)
  {
    var i := FirstWith(scopes, dicts, c, key);
    var there := Defined(scopes, dicts, c, j, key, black);
    (if there then i + 1 else if j <= i && black then j else |c|, there)
  }

  /** The walk of `DepthOf`: scopes visited (the holder included) and whether the name was found. */
  method DepthWalk(scopes: seq<Scope>, dicts: seq<map<Bytes, Word>>, s: Option<nat>, top: Option<nat>, key: Bytes, black: bool)
    returns (count: nat, there: bool)
    requires Acyclic(scopes) && DictsIn(scopes, |dicts|) && Within(s, |scopes|)
    ensures var c := Chain(scopes, s); (count, there) == Depth(scopes, dicts, c, IndexOf(c, top), key, black)
  {
    ghost var c := Chain(scopes, s);
    ghost var j := IndexOf(c, top);
    ghost var i := FirstWith(scopes, dicts, c, key);
    ChainStart(scopes, s);
    var ns := s;
    count, there := 0, false;
    while ns.Some?
      invariant Reading(c, j, i, black, count, ns)
      decreases |c| - count
    {
      if count <= j { IndexOfAt(c, top, count); }
      if ns == top && black {
        DepthStops(scopes, dicts, c, j, key, black, count, false);
        return;
      }
      var d := DictAt(scopes, dicts, s, count, ns);
      if key in d {
        DefinedAtHolder(scopes, dicts, c, j, key, black, count);
        DepthStops(scopes, dicts, c, j, key, black, count, true);
        there := true;
        count := count + 1;
        return;
      }
      FirstWithAt(scopes, dicts, c, key, count);
      ns := Up(scopes, s, count, ns);
      count := count + 1;
    }
    DepthStops(scopes, dicts, c, j, key, black, count, false);
  }

  /** Where the walk of `DepthOf` stops: past the holder, at the blacklisted boundary, or at the end. */
  lemma DepthStops(scopes: seq<Scope>, dicts: seq<map<Bytes, Word>>, c: seq<nat>, j: nat, key: Bytes, black: bool, k: nat, there: bool)
    requires k <= |c| && k <= FirstWith(scopes, dicts, c, key) && j <= |c| && (j < k ==> !black)
    requires if there then FirstWith(scopes, dicts, c, key) == k < |c| && Defined(scopes, dicts, c, j, key, black)
             else k == |c| || (k == j && black)
    ensures Depth(scopes, dicts, c, j, key, black) == (if there then k + 1 else k, there)
  {
  }

  /** The walk of `copyOut`: a deep copy of the nearest binding, with no boundary. */
  method CopyOutWalk(copy: Word -> Word, scopes: seq<Scope>, dicts: seq<map<Bytes, Word>>, s: Option<nat>, key: Bytes) returns (r: Option<Word>)
    requires Acyclic(scopes) && DictsIn(scopes, |dicts|) && Within(s, |scopes|)
    ensures var c := Chain(scopes, s); var i := FirstWith(scopes, dicts, c, key);
      r == if i < |c| then Some(copy(DictOf(scopes, dicts, c[i])[key])) else None
  {
    ghost var c := Chain(scopes, s);
    ghost var i := FirstWith(scopes, dicts, c, key);
    ChainStart(scopes, s);
    var ns := s;
    ghost var k := 0;
    while ns.Some?
      invariant Reading(c, |c|, i, false, k, ns)
      decreases |c| - k
    {
      var d := DictAt(scopes, dicts, s, k, ns);
      FirstWithAt(scopes, dicts, c, key, k);
      if key in d {
        return Some(copy(d[key]));
      }
      ns := Up(scopes, s, k, ns);
      k := k + 1;
    }
    return None;
  }


  // ---------------------------------------------------------------------
  // Snapshots that agree along a walk

  /** The two arenas hold the same dict at every scope of the walk. */
  predicate SameAlong(scopes: seq<Scope>, dicts: seq<map<Bytes, Word>>,
                      scopes2: seq<Scope>, dicts2: seq<map<Bytes, Word>>, c: seq<nat>)
  {
    forall m | 0 <= m < |c| :: DictOf(scopes, dicts, c[m]) == DictOf(scopes2, dicts2, c[m])
  }

  /** Only the dicts along a walk decide what a name means on it. */
  lemma {:induction false} FirstWithSame(scopes: seq<Scope>, dicts: seq<map<Bytes, Word>>,
                                         scopes2: seq<Scope>, dicts2: seq<map<Bytes, Word>>, c: seq<nat>, key: Bytes)
    requires SameAlong(scopes, dicts, scopes2, dicts2, c)
    ensures FirstWith(scopes, dicts, c, key) == FirstWith(scopes2, dicts2, c, key)
    decreases |c|
  {
    if c != [] {
      assert DictOf(scopes, dicts, c[0]) == DictOf(scopes2, dicts2, c[0]);
      assert forall m | 0 <= m < |c[1..]| :: c[1..][m] == c[m + 1];
      FirstWithSame(scopes, dicts, scopes2, dicts2, c[1..], key);
    }
  }

  lemma MeaningSame(copy: Word -> Word, scopes: seq<Scope>, dicts: seq<map<Bytes, Word>>,
                    scopes2: seq<Scope>, dicts2: seq<map<Bytes, Word>>, c: seq<nat>, j: nat, key: Bytes, black: bool)
    requires SameAlong(scopes, dicts, scopes2, dicts2, c)
    ensures Meaning(copy, scopes, dicts, c, j, key, black) == Meaning(copy, scopes2, dicts2, c, j, key, black)
  {
    FirstWithSame(scopes, dicts, scopes2, dicts2, c, key);
  }

  /** Rebinding one key in one dict leaves the nearest holder of every other key where it was. */
  lemma {:induction false} FirstWithOtherKey(scopes: seq<Scope>, dicts: seq<map<Bytes, Word>>, d: nat, k: Bytes, v: Word, c: seq<nat>, key: Bytes)
    requires d < |dicts| && key != k
    ensures FirstWith(scopes, dicts, c, key) == FirstWith(scopes, dicts[d := dicts[d][k := v]], c, key)
    decreases |c|
  {
    if c != [] {
      FirstWithOtherKey(scopes, dicts, d, k, v, c[1..], key);
    }
  }

  /** Rebinding one key in one dict changes the meaning of no other key. */
  lemma MeaningOtherKey(copy: Word -> Word, scopes: seq<Scope>, dicts: seq<map<Bytes, Word>>, d: nat, k: Bytes, v: Word,
                        c: seq<nat>, j: nat, key: Bytes, black: bool)
    requires d < |dicts| && key != k
    ensures Meaning(copy, scopes, dicts, c, j, key, black) == Meaning(copy, scopes, dicts[d := dicts[d][k := v]], c, j, key, black)
  {
    FirstWithOtherKey(scopes, dicts, d, k, v, c, key);
  }

  /**
   * Pushing a scope with an empty dict in front of a walk changes the
   * meaning of no name: the boundary moves one position along with it.
   */
  lemma MeaningUnderFork(copy: Word -> Word, scopes: seq<Scope>, dicts: seq<map<Bytes, Word>>, n: nat, c: seq<nat>, j: nat, key: Bytes, black: bool)
    requires DictOf(scopes, dicts, n) == map[]
    ensures Meaning(copy, scopes, dicts, [n] + c, j + 1, key, black) == Meaning(copy, scopes, dicts, c, j, key, black)
  {
    assert ([n] + c)[1..] == c;
  }

  // ---------------------------------------------------------------------
  // Locals

  /**
   * One pass of `Locals` over a scope's dict `d`: each name that `m` does
   * not bind yet is added, deep copied when the scope is at or above the
   * boundary, and skipped there when the blacklist holds it.
   */
  function Merge(copy: Word -> Word, m: map<Bytes, Word>, d: map<Bytes, Word>, above: bool, black: Option<set<Bytes>>): (r: map<Bytes, Word>)
  {
    map k | k in m.Keys + d.Keys && (k in m || !(above && Blocked(black, k))) ::
      if k in m then m[k] else if above then copy(d[k]) else d[k]
  }

  /** The part of `d` outside `rest`. */
  function Without(d: map<Bytes, Word>, rest: set<Bytes>): map<Bytes, Word>
  {
    map k | k in d && k !in rest :: d[k]
  }

  /** Merging one more name of the dict adds it unless it is already there or blacklisted above the boundary. */
  lemma MergeOne(copy: Word -> Word, m: map<Bytes, Word>, e: map<Bytes, Word>, k: Bytes, x: Word, above: bool, black: Option<set<Bytes>>)
    requires k !in e
    ensures k in Merge(copy, m, e, above, black) <==> k in m
    ensures Merge(copy, m, e[k := x], above, black) ==
      if k in m || (above && Blocked(black, k)) then Merge(copy, m, e, above, black)
      else Merge(copy, m, e, above, black)[k := if above then copy(x) else x]
  {
    var a := Merge(copy, m, e[k := x], above, black);
    var b := Merge(copy, m, e, above, black);
    if k in m || (above && Blocked(black, k)) {
      forall y | y in a ensures y in b && a[y] == b[y] {
      }
      assert a.Keys == b.Keys;
    } else {
      var b' := b[k := if above then copy(x) else x];
      forall y | y in a ensures y in b' && a[y] == b'[y] {
      }
      assert a.Keys == b'.Keys;
    }
  }

  /** The inner loop of `Locals`, over the names of one dict in any order. */
  method MergeInto(copy: Word -> Word, m: map<Bytes, Word>, d: map<Bytes, Word>, above: bool, black: Option<set<Bytes>>) returns (r: map<Bytes, Word>)
    ensures r == Merge(copy, m, d, above, black)
  {
    r := m;
    var rest := d.Keys;
    while rest != {}
      invariant rest <= d.Keys
      invariant r == Merge(copy, m, Without(d, rest), above, black)
      decreases rest
    {
      var k :| k in rest;
      ghost var before := Without(d, rest);
      rest := rest - {k};
      assert Without(d, rest) == before[k := d[k]];
      MergeOne(copy, m, before, k, d[k], above, black);
      if k !in r && !(above && Blocked(black, k)) {
        r := r[k := if above then copy(d[k]) else d[k]];
      }
    }
    assert Without(d, {}) == d;
  }

  /**
   * The outer loop of `Locals` from position `k` on, with `m` gathered so
   * far: it stops after `lvls` scopes (never, for a negative `lvls`) or at
   * the end of the walk; positions from `j` on are at or above the boundary.
   */
  function Gather(copy: Word -> Word, scopes: seq<Scope>, dicts: seq<map<Bytes, Word>>, c: seq<nat>, j: nat, black: Option<set<Bytes>>,
                  lvls: int, k: nat, m: map<Bytes, Word>): map<Bytes, Word>
    requires k <= |c|
    decreases |c| - k
  {
    if k == lvls || k == |c| then m
    else Gather(copy, scopes, dicts, c, j, black, lvls, k + 1, Merge(copy, m, DictOf(scopes, dicts, c[k]), j <= k, black))
  }

  /** `Locals(lvls)`: the current scope's dict, then the passes over the walk. */
  function LocalsOf(copy: Word -> Word, scopes: seq<Scope>, dicts: seq<map<Bytes, Word>>, c: seq<nat>, j: nat, black: Option<set<Bytes>>, lvls: int): map<Bytes, Word>
  {
    if c == [] then map[] else Gather(copy, scopes, dicts, c, j, black, lvls, 0, DictOf(scopes, dicts, c[0]))
  }

  /** Every name some scope of the walk binds. */
  function NamesAlong(scopes: seq<Scope>, dicts: seq<map<Bytes, Word>>, c: seq<nat>): set<Bytes>
    decreases |c|
  {
    if c == [] then {} else DictOf(scopes, dicts, c[0]).Keys + NamesAlong(scopes, dicts, c[1..])
  }

  /** What every name means along the walk, as one dict. */
  function View(copy: Word -> Word, scopes: seq<Scope>, dicts: seq<map<Bytes, Word>>, c: seq<nat>, j: nat, black: Option<set<Bytes>>): map<Bytes, Word>
  {
    map k | k in NamesAlong(scopes, dicts, c) && Meaning(copy, scopes, dicts, c, j, k, Blocked(black, k)).Some? ::
      Meaning(copy, scopes, dicts, c, j, k, Blocked(black, k)).value
  }

  /** A name some scope binds is found, and one found is bound somewhere. */
  lemma {:induction false} NamesAlongFirstWith(scopes: seq<Scope>, dicts: seq<map<Bytes, Word>>, c: seq<nat>, key: Bytes)
    ensures key in NamesAlong(scopes, dicts, c) <==> FirstWith(scopes, dicts, c, key) < |c|
    decreases |c|
  {
    if c != [] {
      NamesAlongFirstWith(scopes, dicts, c[1..], key);
    }
  }

  /** The view binds exactly the names that mean something, to what they mean. */
  lemma ViewIsMeaning(copy: Word -> Word, scopes: seq<Scope>, dicts: seq<map<Bytes, Word>>, c: seq<nat>, j: nat, black: Option<set<Bytes>>, key: Bytes)
    ensures var v := View(copy, scopes, dicts, c, j, black); var r := Meaning(copy, scopes, dicts, c, j, key, Blocked(black, key));
      (key in v <==> r.Some?) && (key in v ==> v[key] == r.value)
  {
    NamesAlongFirstWith(scopes, dicts, c, key);
  }

  /** Extending a walk by one scope: the nearest holder stays unless none was found, then it may be the new scope. */
  lemma {:induction false} FirstWithSnoc(scopes: seq<Scope>, dicts: seq<map<Bytes, Word>>, c: seq<nat>, n: nat, key: Bytes)
    ensures var i := FirstWith(scopes, dicts, c, key);
      FirstWith(scopes, dicts, c + [n], key) ==
        if i < |c| then i else if key in DictOf(scopes, dicts, n) then |c| else |c| + 1
    decreases |c|
  {
    if c != [] {
      assert (c + [n])[1..] == c[1..] + [n];
      FirstWithSnoc(scopes, dicts, c[1..], n, key);
    } else {
      assert (c + [n])[1..] == [];
    }
  }

  /** A pass of `Locals` over the scope at position `k` extends the view of the first `k` scopes to the first `k + 1`. */
  lemma MergeStep(copy: Word -> Word, scopes: seq<Scope>, dicts: seq<map<Bytes, Word>>, c: seq<nat>, j: nat, black: Option<set<Bytes>>, k: nat)
    requires k < |c|
    ensures Merge(copy, View(copy, scopes, dicts, c[..k], j, black), DictOf(scopes, dicts, c[k]), j <= k, black)
         == View(copy, scopes, dicts, c[..k + 1], j, black)
  {
    var v := View(copy, scopes, dicts, c[..k], j, black);
    var r := Merge(copy, v, DictOf(scopes, dicts, c[k]), j <= k, black);
    var w := View(copy, scopes, dicts, c[..k + 1], j, black);
    assert c[..k + 1] == c[..k] + [c[k]];
    forall key
      ensures (key in r <==> key in w) && (key in r ==> r[key] == w[key])
    {
      ViewIsMeaning(copy, scopes, dicts, c[..k], j, black, key);
      ViewIsMeaning(copy, scopes, dicts, c[..k + 1], j, black, key);
      FirstWithSnoc(scopes, dicts, c[..k], c[k], key);
      FirstWithPrefix(scopes, dicts, c[..k + 1], key, k);
    }
    assert r == w;
  }

  /** The holder found in a prefix is the holder at that position of the longer walk. */
  lemma FirstWithPrefix(scopes: seq<Scope>, dicts: seq<map<Bytes, Word>>, c: seq<nat>, key: Bytes, k: nat)
    requires k < |c|
    ensures FirstWith(scopes, dicts, c, key) < k ==> DictOf(scopes, dicts, c[FirstWith(scopes, dicts, c, key)]) == DictOf(scopes, dicts, c[..k][FirstWith(scopes, dicts, c, key)])
  {
  }

  /** Gathering from position `k` with the view of the first `k` scopes gives the view of the first `n`. */
  lemma {:induction false} GatherView(copy: Word -> Word, scopes: seq<Scope>, dicts: seq<map<Bytes, Word>>, c: seq<nat>, j: nat, black: Option<set<Bytes>>,
                                      lvls: int, k: nat)
    requires k <= |c|
    requires lvls < 0 || k <= lvls
    ensures var n := if 0 <= lvls < |c| then lvls else |c|;
      Gather(copy, scopes, dicts, c, j, black, lvls, k, View(copy, scopes, dicts, c[..k], j, black)) == View(copy, scopes, dicts, c[..n], j, black)
    decreases |c| - k
  {
    if k != lvls && k != |c| {
      MergeStep(copy, scopes, dicts, c, j, black, k);
      GatherView(copy, scopes, dicts, c, j, black, lvls, k + 1);
    } else {
      assert c[..|c|] == c;
    }
  }

  /**
   * `Locals(lvls)` with the current scope owned (`j > 0`) is what every
   * name means on the first `lvls` scopes of the walk (at least the
   * current one, all of them for a negative `lvls`).  This follows the
   * code: the current scope is taken first, and the walk then starts
   * again at the current scope and counts `lvls` scopes, so a positive
   * `n` covers `n` scopes rather than the `1 + min(n, Depth())` of the
   * comment at namespace.go lines 171-173.  The two agree on the values
   * the interpreter passes, 0 and -1.
   */
  lemma LocalsIsView(copy: Word -> Word, scopes: seq<Scope>, dicts: seq<map<Bytes, Word>>, c: seq<nat>, j: nat, black: Option<set<Bytes>>, lvls: int)
    requires c != [] && 0 < j
    ensures var n := if lvls < 0 || lvls >= |c| then |c| else if lvls == 0 then 1 else lvls;
      LocalsOf(copy, scopes, dicts, c, j, black, lvls) == View(copy, scopes, dicts, c[..n], j, black)
  {
    var d := DictOf(scopes, dicts, c[0]);
    var v1 := View(copy, scopes, dicts, c[..1], j, black);
    forall key
      ensures (key in d <==> key in v1) && (key in d ==> d[key] == v1[key])
    {
      ViewIsMeaning(copy, scopes, dicts, c[..1], j, black, key);
      assert c[..1][1..] == [];
    }
    assert d == v1;
    if lvls == 0 {
    } else {
      assert Merge(copy, d, d, false, black) == d;
      assert Gather(copy, scopes, dicts, c, j, black, lvls, 0, d) == Gather(copy, scopes, dicts, c, j, black, lvls, 1, d);
      GatherView(copy, scopes, dicts, c, j, black, lvls, 1);
    }
  }

  /** The loop of `Locals` has merged the dicts of the first `count` scopes of the walk into `m`. */
  ghost predicate Gathering(copy: Word -> Word, scopes: seq<Scope>, dicts: seq<map<Bytes, Word>>, c: seq<nat>, j: nat, black: Option<set<Bytes>>,
                            lvls: int, count: nat, ns: Option<nat>, above: bool, m: map<Bytes, Word>, m0: map<Bytes, Word>)
  {
    count <= |c| && ns == At(c, count) && above == (j < count) &&
    Gather(copy, scopes, dicts, c, j, black, lvls, count, m) == Gather(copy, scopes, dicts, c, j, black, lvls, 0, m0)
  }

  /** The walk of `Locals`: the current scope's dict, then one `MergeInto` pass per scope visited. */
  method LocalsWalk(copy: Word -> Word, scopes: seq<Scope>, dicts: seq<map<Bytes, Word>>, s: Option<nat>, top: Option<nat>,
                    black: Option<set<Bytes>>, lvls: int) returns (m: map<Bytes, Word>)
    requires Acyclic(scopes) && DictsIn(scopes, |dicts|) && s.Some? && Within(s, |scopes|)
    ensures var c := Chain(scopes, s); m == LocalsOf(copy, scopes, dicts, c, IndexOf(c, top), black, lvls)
  {
    ghost var c := Chain(scopes, s);
    ghost var j := IndexOf(c, top);
    ChainStart(scopes, s);
    var ns := s;
    m := DictAt(scopes, dicts, s, 0, ns);
    ghost var m0 := m;
    var count := 0;
    var above := false;
    while count != lvls && ns.Some?
      invariant Gathering(copy, scopes, dicts, c, j, black, lvls, count, ns, above, m, m0)
      decreases |c| - count
    {
      if count <= j { IndexOfAt(c, top, count); }
      above := above || ns == top;
      var d := DictAt(scopes, dicts, s, count, ns);
      m := MergeInto(copy, m, d, above, black);
      ns := Up(scopes, s, count, ns);
      count := count + 1;
    }
  }

  // ---------------------------------------------------------------------
  // Levels

  /**
   * `_nthlvl` on a walk whose boundary is at position `t`: levels 0 and 1
   * are both the current scope, level `n` below `t` is position `n - 1`, a
   * negative level is the topmost owned scope, and any other level fails.
   */
  function Level(t: nat, lvl: int): (r: Option<nat>)
  {
    if lvl == 0 then Some(0)
    else if 1 <= lvl < t then Some(lvl - 1)
    else if lvl < 0 && 0 < t then Some(t - 1)
    else None
  }

  /** Every level that resolves is an owned scope, and a level at or beyond the boundary does not resolve. */
  lemma LevelOwned(t: nat, lvl: int)
    requires 0 < t
    ensures Level(t, lvl).Some? ==> Level(t, lvl).value < t
    ensures Level(t, lvl).None? <==> lvl >= t
    ensures lvl < 0 ==> Level(t, lvl) == Some(t - 1)
    ensures Level(t, 1) == Level(t, 0) || t == 1
  {
  }

  /** The loop of `_nthlvl` has climbed `count` levels, below the boundary and the level asked for, to `ns`. */
  ghost predicate Leveled(scopes: seq<Scope>, c: seq<nat>, t: nat, lvl: int, count: nat, ns: Option<nat>)
  {
    count < t <= |c| && ns == At(c, count) && c[count] < |scopes| && (lvl < 1 || count < lvl) &&
    scopes[c[count]].up == At(c, count + 1)
  }

  /** The loop of `_nthlvl`: the scope at the level's position of the walk. */
  method LevelWalk(scopes: seq<Scope>, s: Option<nat>, top: Option<nat>, lvl: int) returns (r: Option<nat>)
    requires Acyclic(scopes) && Rooted(scopes, s, top)
    ensures var c := Chain(scopes, s); var p := Level(IndexOf(c, top), lvl);
      r == if p.Some? then Some(c[p.value]) else None
  {
    ghost var c := Chain(scopes, s);
    ghost var t := IndexOf(c, top);
    ChainStart(scopes, s);
    IndexOfIsFirst(c, top);
    var ns := s;
    if lvl == 0 {
      return ns;
    }
    var count := 0;
    ChainStep(scopes, s, count);
    while scopes[ns.value].up != top
      invariant Leveled(scopes, c, t, lvl, count, ns)
      decreases t - count
    {
      count := count + 1;
      if count == lvl {
        return ns;
      }
      ns := scopes[ns.value].up;
      ChainStep(scopes, s, count);
    }
    if lvl < 0 {
      return ns;
    }
    return None;
  }

  // ---------------------------------------------------------------------
  // Inject

  /** The loop of `Inject`: every binding of `d` is written into `t`, overriding. */
  method InjectInto(t: map<Bytes, Word>, d: map<Bytes, Word>) returns (r: map<Bytes, Word>)
    ensures r == t + d
  {
    r := t;
    var rest := d.Keys;
    while rest != {}
      invariant rest <= d.Keys
      invariant r == t + Without(d, rest)
      decreases rest
    {
      var k :| k in rest;
      rest := rest - {k};
      r := r[k := d[k]];
    }
    assert Without(d, {}) == d;
  }

  // ---------------------------------------------------------------------
  // Walks that write

  /**
   * The walk of `Del`: below the boundary it looks for an owned binding;
   * from the boundary on it looks further without consulting the
   * blacklist.  The result is the holding scope and whether it is at or
   * above the boundary.
   */
  method DelWalk(scopes: seq<Scope>, dicts: seq<map<Bytes, Word>>, s: Option<nat>, top: Option<nat>, key: Bytes)
    returns (r: Option<(nat, bool)>)
    requires Acyclic(scopes) && DictsIn(scopes, |dicts|) && Within(s, |scopes|)
    ensures var c := Chain(scopes, s); var i := FirstWith(scopes, dicts, c, key);
      r == if i < |c| then Some((c[i], IndexOf(c, top) <= i)) else None
  {
    ghost var c := Chain(scopes, s);
    ghost var j := IndexOf(c, top);
    ChainStart(scopes, s);
    var ns := s;
    ghost var k := 0;
    while ns.Some?
      invariant k <= |c| && ns == At(c, k)
      invariant k <= FirstWith(scopes, dicts, c, key) && k <= j
      decreases |c| - k
    {
      if k <= j && k < |c| { IndexOfAt(c, top, k); }
      if ns == top {
        while ns.Some?
          invariant j <= k <= |c| && ns == At(c, k)
          invariant k <= FirstWith(scopes, dicts, c, key)
          decreases |c| - k
        {
          var d := DictAt(scopes, dicts, s, k, ns);
          FirstWithAt(scopes, dicts, c, key, k);
          if key in d {
            return Some((ns.value, true));
          }
          ChainStep(scopes, s, k);
          ns := scopes[ns.value].up;
          k := k + 1;
        }
        return None;
      }
      var d := DictAt(scopes, dicts, s, k, ns);
      FirstWithAt(scopes, dicts, c, key, k);
      if key in d {
        return Some((ns.value, false));
      }
      ChainStep(scopes, s, k);
      ns := scopes[ns.value].up;
      k := k + 1;
    }
    return None;
  }

  /**
   * What a writing walk knows about the boundary once it has visited `k`
   * scopes: whether it has passed the boundary at position `j`, and the
   * last owned scope it has seen.
   */
  ghost predicate Tracked(c: seq<nat>, j: nat, k: nat, above: bool, below: Option<nat>)
  {
    k <= |c| && j <= |c| && above == (j < k) &&
    (0 < k <= j ==> below == Some(c[k - 1])) &&
    (j < k ==> 0 < j && below == Some(c[j - 1]))
  }

  /**
   * A writing walk enters the scope at position `k`: it is the boundary
   * at the boundary's position, and not before it, and the scope a write found here
   * goes to is this one when owned, else the topmost owned scope.
   */
  method Enter(ghost c: seq<nat>, ghost j: nat, ghost k: nat, ns: Option<nat>, top: Option<nat>, above: bool, below: Option<nat>)
    returns (atTop: bool, above': bool, below': Option<nat>)
    requires j == IndexOf(c, top) && 0 < j && k < |c| && ns == Some(c[k]) && Tracked(c, j, k, above, below)
    ensures (k == j ==> atTop) && (atTop ==> j <= k)
    ensures above' == (j <= k) && below' == Some(Target(c, k, j))
    ensures Tracked(c, j, k + 1, above', below')
  {
    if k <= j { IndexOfAt(c, top, k); }
    atTop := ns == top;
    below' := if !atTop && !above then ns else below;
    above' := above || atTop;
  }

  /**
   * The walk shared by `Mutate` and `MutateBy`: the scope the write goes
   * to, the value found (deep copied when at or above the boundary) and
   * whether it was; nothing for an undefined or blacklisted name.  The
   * topmost owned scope (`below`) must exist.
   */
  method WriteWalk(copy: Word -> Word, scopes: seq<Scope>, dicts: seq<map<Bytes, Word>>, s: Option<nat>, top: Option<nat>, key: Bytes, black: bool)
    returns (r: Option<(nat, Word, bool)>)
    requires Acyclic(scopes) && DictsIn(scopes, |dicts|) && Within(s, |scopes|)
    requires 0 < IndexOf(Chain(scopes, s), top)
    ensures var c := Chain(scopes, s); var j := IndexOf(c, top); var i := FirstWith(scopes, dicts, c, key);
      var m := Meaning(copy, scopes, dicts, c, j, key, black);
      r == if m.None? then None else Some((Target(c, i, j), m.value, j <= i))
  {
    ghost var c := Chain(scopes, s);
    ghost var j := IndexOf(c, top);
    ghost var i := FirstWith(scopes, dicts, c, key);
    ChainStart(scopes, s);
    var ns := s;
    var below: Option<nat> := None;
    var above := false;
    ghost var k := 0;
    while ns.Some?
      invariant WriteSeen(c, j, i, black, k, ns, above, below)
      decreases |c| - k
    {
      var atTop;
      atTop, above, below := Enter(c, j, k, ns, top, above, below);
      if atTop && black {
        return None;
      }
      var d := DictAt(scopes, dicts, s, k, ns);
      FirstWithAt(scopes, dicts, c, key, k);
      if key in d {
        var w := d[key];
        if above {
          w := copy(w);
          return Some((below.value, w, true));
        }
        return Some((ns.value, w, false));
      }
      ns := Up(scopes, s, k, ns);
      k := k + 1;
    }
    return None;
  }

  /** What the walk of `Mutate` knows once it has visited `k` scopes and is at `ns`. */
  ghost predicate WriteSeen(c: seq<nat>, j: nat, i: nat, black: bool, k: nat, ns: Option<nat>, above: bool, below: Option<nat>)
  {
    k <= |c| && ns == At(c, k) && 0 < j <= |c| && k <= i && Tracked(c, j, k, above, below) && (j < k ==> !black)
  }

  /**
   * What the walk of `Swap` has noted for one name once it has visited `k`
   * scopes: nothing before the holder at `i`, afterwards the scope the
   * write goes to and the value found there.
   */
  ghost predicate Noted(copy: Word -> Word, scopes: seq<Scope>, dicts: seq<map<Bytes, Word>>, c: seq<nat>, i: nat, j: nat, key: Bytes,
                        k: nat, slot: Option<nat>, w: Word)
    requires 0 < j <= |c|
  {
    if k <= i then slot.None?
    else i < |c| && key in DictOf(scopes, dicts, c[i]) && slot == Some(Target(c, i, j)) && w == Found(copy, scopes, dicts, c, i, j, key)
  }

  /** One scope of the walk of `Swap`, for one of the two names. */
  method SwapNote(copy: Word -> Word, ghost scopes: seq<Scope>, ghost dicts: seq<map<Bytes, Word>>, ghost c: seq<nat>, ghost j: nat, key: Bytes,
                  ghost k: nat, d: map<Bytes, Word>, above: bool, below: Option<nat>, ns: Option<nat>,
                  slot: Option<nat>, w: Word) returns (slot': Option<nat>, w': Word)
    requires k < |c| && 0 < j <= |c| && above == (j <= k)
    requires d == DictOf(scopes, dicts, c[k]) && ns == Some(c[k]) && below == Some(Target(c, k, j))
    requires Noted(copy, scopes, dicts, c, FirstWith(scopes, dicts, c, key), j, key, k, slot, w)
    ensures Noted(copy, scopes, dicts, c, FirstWith(scopes, dicts, c, key), j, key, k + 1, slot', w')
    ensures slot.Some? ==> slot' == slot && w' == w
  {
    FirstWithAt(scopes, dicts, c, key, k);
    slot', w' := slot, w;
    if slot.None? && key in d {
      w' := d[key];
      if above {
        w' := copy(w');
        slot' := below;
      } else {
        slot' := ns;
      }
    }
  }

  /**
   * What a `Swap` of `key1` and `key2` along the walk `c` with the boundary
   * at `j` finds: for each name the scope its write goes to and the value
   * found for it; nothing when either is undefined, or when either is found
   * at or above the boundary with the names blacklisted.
   */
  ghost function Swapped(copy: Word -> Word, scopes: seq<Scope>, dicts: seq<map<Bytes, Word>>, c: seq<nat>, j: nat, key1: Bytes, key2: Bytes, black: bool)
    : Option<(nat, Word, nat, Word)>
    requires 0 < j <= |c|
  {
    var i1 := FirstWith(scopes, dicts, c, key1);
    var i2 := FirstWith(scopes, dicts, c, key2);
    if i1 == |c| || i2 == |c| || ((j <= i1 || j <= i2) && black) then None
    else Some((Target(c, i1, j), Found(copy, scopes, dicts, c, i1, j, key1), Target(c, i2, j), Found(copy, scopes, dicts, c, i2, j, key2)))
  }

  /**
   * The walk of `Swap`: the scope each name's write goes to and the value
   * found for it, once both are found; nothing when either is undefined,
   * or when the walk reaches the boundary with either name blacklisted.
   */
  method SwapWalk(copy: Word -> Word, scopes: seq<Scope>, dicts: seq<map<Bytes, Word>>, s: Option<nat>, top: Option<nat>,
                  key1: Bytes, key2: Bytes, black: bool)
    returns (r: Option<(nat, Word, nat, Word)>)
    requires Acyclic(scopes) && DictsIn(scopes, |dicts|) && Within(s, |scopes|)
    requires 0 < IndexOf(Chain(scopes, s), top)
    ensures var c := Chain(scopes, s); r == Swapped(copy, scopes, dicts, c, IndexOf(c, top), key1, key2, black)
  {
    ghost var c := Chain(scopes, s);
    ghost var j := IndexOf(c, top);
    ghost var i1 := FirstWith(scopes, dicts, c, key1);
    ghost var i2 := FirstWith(scopes, dicts, c, key2);
    ChainStart(scopes, s);
    var ns := s;
    var below: Option<nat> := None;
    var left: Option<nat> := None;
    var right: Option<nat> := None;
    var w1, w2 := Null, Null;
    var above := false;
    ghost var k := 0;
    while ns.Some?
      invariant SwapSeen(copy, scopes, dicts, c, j, key1, key2, black, k, ns, above, below, left, w1, right, w2)
      decreases |c| - k
    {
      var atTop;
      atTop, above, below := Enter(c, j, k, ns, top, above, below);
      if atTop && black {
        SwapMissed(copy, scopes, dicts, c, j, i1, i2, key1, key2, k, black, left, w1, right, w2);
        return None;
      }
      var d := DictAt(scopes, dicts, s, k, ns);
      left, w1, right, w2 := SwapVisit(copy, scopes, dicts, c, j, key1, key2, k, d, above, below, ns, left, w1, right, w2);
      if left.Some? && right.Some? {
        SwapFound(copy, scopes, dicts, c, j, i1, i2, key1, key2, k, black, left, w1, right, w2);
        return Some((left.value, w1, right.value, w2));
      }
      ns := Up(scopes, s, k, ns);
      k := k + 1;
    }
    SwapMissed(copy, scopes, dicts, c, j, i1, i2, key1, key2, k, black, left, w1, right, w2);
    return None;
  }

  /** What the walk of `Swap` knows once it has visited `k` scopes and is at `ns`. */
  ghost predicate SwapSeen(copy: Word -> Word, scopes: seq<Scope>, dicts: seq<map<Bytes, Word>>, c: seq<nat>, j: nat, key1: Bytes, key2: Bytes, black: bool,
                           k: nat, ns: Option<nat>, above: bool, below: Option<nat>, left: Option<nat>, w1: Word, right: Option<nat>, w2: Word)
  {
    k <= |c| && ns == At(c, k) && 0 < j <= |c| && Tracked(c, j, k, above, below) && (j < k ==> !black) &&
    Noted(copy, scopes, dicts, c, FirstWith(scopes, dicts, c, key1), j, key1, k, left, w1) &&
    Noted(copy, scopes, dicts, c, FirstWith(scopes, dicts, c, key2), j, key2, k, right, w2) &&
    (left.None? || right.None?)
  }

  /** Both names looked up in one scope of the walk of `Swap`. */
  method SwapVisit(copy: Word -> Word, ghost scopes: seq<Scope>, ghost dicts: seq<map<Bytes, Word>>, ghost c: seq<nat>, ghost j: nat,
                   key1: Bytes, key2: Bytes, ghost k: nat, d: map<Bytes, Word>, above: bool, below: Option<nat>, ns: Option<nat>,
                   left: Option<nat>, w1: Word, right: Option<nat>, w2: Word)
    returns (left': Option<nat>, w1': Word, right': Option<nat>, w2': Word)
    requires k < |c| && 0 < j <= |c| && above == (j <= k)
    requires d == DictOf(scopes, dicts, c[k]) && ns == Some(c[k]) && below == Some(Target(c, k, j))
    requires Noted(copy, scopes, dicts, c, FirstWith(scopes, dicts, c, key1), j, key1, k, left, w1)
    requires Noted(copy, scopes, dicts, c, FirstWith(scopes, dicts, c, key2), j, key2, k, right, w2)
    ensures Noted(copy, scopes, dicts, c, FirstWith(scopes, dicts, c, key1), j, key1, k + 1, left', w1')
    ensures Noted(copy, scopes, dicts, c, FirstWith(scopes, dicts, c, key2), j, key2, k + 1, right', w2')
  {
    left', w1' := SwapNote(copy, scopes, dicts, c, j, key1, k, d, above, below, ns, left, w1);
    right', w2' := SwapNote(copy, scopes, dicts, c, j, key2, k, d, above, below, ns, right, w2);
  }

  /**
   * A walk of `Swap` that stops, at the end of the chain or at the boundary
   * with the names blacklisted, before both names are noted finds nothing.
   */
  lemma SwapMissed(copy: Word -> Word, scopes: seq<Scope>, dicts: seq<map<Bytes, Word>>, c: seq<nat>, j: nat, i1: nat, i2: nat,
                   key1: Bytes, key2: Bytes, k: nat, black: bool, left: Option<nat>, w1: Word, right: Option<nat>, w2: Word)
    requires 0 < j <= |c| && i1 <= |c| && i2 <= |c| && (k == |c| || (k == j && black))
    requires Noted(copy, scopes, dicts, c, i1, j, key1, k, left, w1) && Noted(copy, scopes, dicts, c, i2, j, key2, k, right, w2)
    requires left.None? || right.None?
    requires i1 == FirstWith(scopes, dicts, c, key1) && i2 == FirstWith(scopes, dicts, c, key2)
    ensures Swapped(copy, scopes, dicts, c, j, key1, key2, black) == None
  {
  }

  /** Once both names are noted, what was noted is what the walk of `Swap` promises. */
  lemma SwapFound(copy: Word -> Word, scopes: seq<Scope>, dicts: seq<map<Bytes, Word>>, c: seq<nat>, j: nat, i1: nat, i2: nat,
                  key1: Bytes, key2: Bytes, k: nat, black: bool, left: Option<nat>, w1: Word, right: Option<nat>, w2: Word)
    requires 0 < j <= |c| && k < |c| && (j < k + 1 ==> !black)
    requires Noted(copy, scopes, dicts, c, i1, j, key1, k + 1, left, w1) && Noted(copy, scopes, dicts, c, i2, j, key2, k + 1, right, w2)
    requires left.Some? && right.Some?
    requires i1 == FirstWith(scopes, dicts, c, key1) && i2 == FirstWith(scopes, dicts, c, key2)
    ensures Swapped(copy, scopes, dicts, c, j, key1, key2, black) == Some((left.value, w1, right.value, w2))
  {
  }

  // ---------------------------------------------------------------------
  // What a write means

  /**
   * Binding `key` to `v` in the dict of the scope at owned position `p`,
   * with no nearer scope binding it, makes `key` mean `v`: whichever scope
   * now holds it first shares that dict.
   */
  lemma {:induction false} WriteMeaning(copy: Word -> Word, scopes: seq<Scope>, dicts: seq<map<Bytes, Word>>, c: seq<nat>, j: nat, key: Bytes, black: bool,
                                        p: nat, v: Word)
    requires p < j <= |c| && c[p] < |scopes| && scopes[c[p]].dict < |dicts|
    requires p <= FirstWith(scopes, dicts, c, key)
    ensures var d := scopes[c[p]].dict;
      Meaning(copy, scopes, dicts[d := dicts[d][key := v]], c, j, key, black) == Some(v)
    decreases p
  {
    var d := scopes[c[p]].dict;
    var dicts2 := dicts[d := dicts[d][key := v]];
    if p == 0 {
      assert DictOf(scopes, dicts2, c[0]) == dicts2[d];
    } else {
      if key in DictOf(scopes, dicts2, c[0]) {
        assert c[0] < |scopes| && scopes[c[0]].dict == d;
      } else {
        assert c[1..][p - 1] == c[p];
        WriteMeaning(copy, scopes, dicts, c[1..], j - 1, key, black, p - 1, v);
      }
    }
  }
}
