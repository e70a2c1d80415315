/**
 * `lsort` of src/gelo/commands/list.go: the positions of a list's words,
 * ordered by the words' serialisations.
 *
 * The Go command sorts an array of positions with `sort.Sort`, comparing
 * the serialisations of the words at those positions with
 * `bytes.Compare`.  `sort.Sort` on fewer than 12 elements is an insertion
 * sort by adjacent swaps; that is the algorithm modelled here, on a Dafny
 * array, and its contract (a permutation of the positions, in order of
 * serialisation) is what `sort.Sort` promises for any length.
 */
module ListSort {
  import opened Base
  import opened Words
  import opened Machine
  import opened Api
  import opened Errors
  import Lists
  import ListCmds
  import Natives

  /** The positions `0 .. n - 1`, as the Go loop fills `perms`. */
  function Iota(n: nat): (r: seq<nat>)
    ensures |r| == n && forall i | 0 <= i < n :: r[i] == i
  {
    seq(n, i requires 0 <= i < n => i)
  }

  /** `bytes.Compare(a, b) == -1`: `a` is strictly before `b`. */
  predicate LexLess(a: Bytes, b: Bytes)
  {
    LexLe(a, b) && a != b
  }

  /** Strictly before is the negation of after-or-equal. */
  lemma LessIsNotLe(a: Bytes, b: Bytes)
    ensures LexLess(a, b) <==> !LexLe(b, a)
  {
    LexTotal(a, b);
    if LexLe(a, b) && LexLe(b, a) {
      LexAntisym(a, b);
    }
  }

  predicate InRange(p: seq<nat>, n: nat)
  {
    forall i | 0 <= i < |p| :: p[i] < n
  }

  /** The positions in `p` are in order of their keys. */
  predicate Sorted(keys: seq<Bytes>, p: seq<nat>)
    requires InRange(p, |keys|)
  {
    forall i, j | 0 <= i < j < |p| :: LexLe(keys[p[i]], keys[p[j]])
  }

  /** Neighbouring positions in `p` are in order of their keys. */
  predicate SortedNeighbours(keys: seq<Bytes>, p: seq<nat>)
    requires InRange(p, |keys|)
  {
    forall i | 0 < i < |p| :: LexLe(keys[p[i - 1]], keys[p[i]])
  }

  /** Order between neighbours is order throughout. */
  lemma NeighboursSorted(keys: seq<Bytes>, p: seq<nat>)
    requires InRange(p, |keys|) && SortedNeighbours(keys, p)
    ensures Sorted(keys, p)
  {
    forall i, j | 0 <= i < j < |p|
      ensures LexLe(keys[p[i]], keys[p[j]])
    {
      Chain(keys, p, i, j);
    }
  }

  lemma {:induction false} Chain(keys: seq<Bytes>, p: seq<nat>, i: nat, j: nat)
    requires InRange(p, |keys|) && SortedNeighbours(keys, p)
    requires i <= j < |p|
    ensures LexLe(keys[p[i]], keys[p[j]])
    decreases j - i
  {
    if i == j {
      LexRefl(keys[p[i]]);
    } else {
      Chain(keys, p, i, j - 1);
      LexTrans(keys[p[i]], keys[p[j - 1]], keys[p[j]]);
    }
  }

  /** `p` lists every position of `keys` once, in order of their keys. */
  predicate IsSortOf(keys: seq<Bytes>, p: seq<nat>)
  {
    |p| == |keys| && InRange(p, |keys|) && multiset(p) == multiset(Iota(|keys|)) && Sorted(keys, p)
  }

  /** A sort names each position exactly once. */
  lemma EveryPositionOnce(keys: seq<Bytes>, p: seq<nat>, k: nat)
    requires IsSortOf(keys, p) && k < |keys|
    ensures multiset(p)[k] == 1
  {
    var n := |keys|;
    IotaCounts(n, k);
  }

  lemma {:induction false} IotaCounts(n: nat, k: nat)
    requires k < n
    ensures multiset(Iota(n))[k] == 1
    decreases n
  {
    assert Iota(n) == Iota(n - 1) + [n - 1];
    if k < n - 1 {
      IotaCounts(n - 1, k);
    } else {
      assert k !in Iota(n - 1);
    }
  }

  /** Go's `insertionSort`: each position sinks by adjacent swaps while its key is strictly before its left neighbour's. */
  method InsertionSort(keys: seq<Bytes>, a: array<nat>)
    requires InRange(a[..], |keys|)
    modifies a
    ensures multiset(a[..]) == multiset(old(a[..]))
    ensures InRange(a[..], |keys|) && SortedNeighbours(keys, a[..])
  {
    var i := 1;
    while i < a.Length
      invariant 1 <= i && (a.Length == 0 || i <= a.Length)
      invariant multiset(a[..]) == multiset(old(a[..]))
      invariant InRange(a[..], |keys|)
      invariant forall x | 0 < x < i && x < a.Length :: LexLe(keys[a[x - 1]], keys[a[x]])
    {
      Sink(keys, a, i);
      i := i + 1;
    }
  }

  /** The inner loop of `insertionSort`, for the position at `i`. */
  method Sink(keys: seq<Bytes>, a: array<nat>, i: nat)
    requires 0 < i < a.Length && InRange(a[..], |keys|)
    requires forall x | 0 < x < i :: LexLe(keys[a[x - 1]], keys[a[x]])
    modifies a
    ensures multiset(a[..]) == multiset(old(a[..])) && InRange(a[..], |keys|)
    ensures forall x | 0 < x <= i :: LexLe(keys[a[x - 1]], keys[a[x]])
  {
    var j := i;
    while j > 0 && LexLess(keys[a[j]], keys[a[j - 1]])
      invariant 0 <= j <= i
      invariant multiset(a[..]) == multiset(old(a[..])) && InRange(a[..], |keys|)
      invariant forall x | 0 < x <= i && x != j :: LexLe(keys[a[x - 1]], keys[a[x]])
      invariant 0 < j < i ==> LexLe(keys[a[j - 1]], keys[a[j + 1]])
    {
      SwapDown(keys, a, i, j);
      j := j - 1;
    }
    if j > 0 {
      LessIsNotLe(keys[a[j]], keys[a[j - 1]]);
    }
  }

  /** One swap of the inner loop: the position at `j` changes places with its left neighbour, whose key is after its own. */
  method SwapDown(keys: seq<Bytes>, a: array<nat>, i: nat, j: nat)
    requires 0 < j <= i < a.Length && InRange(a[..], |keys|)
    requires LexLess(keys[a[j]], keys[a[j - 1]])
    requires forall x | 0 < x <= i && x != j :: LexLe(keys[a[x - 1]], keys[a[x]])
    requires j < i ==> LexLe(keys[a[j - 1]], keys[a[j + 1]])
    modifies a
    ensures multiset(a[..]) == multiset(old(a[..])) && InRange(a[..], |keys|)
    ensures forall x | 0 < x <= i && x != j - 1 :: LexLe(keys[a[x - 1]], keys[a[x]])
    ensures 0 < j - 1 ==> LexLe(keys[a[j - 2]], keys[a[j]])
  {
    a[j], a[j - 1] := a[j - 1], a[j];
  }

  /** The Go loop filling `perms` with the positions in order. */
  method Positions(n: nat) returns (a: array<nat>)
    ensures fresh(a) && a[..] == Iota(n)
  {
    a := new nat[n];
    var i := 0;
    while i < n
      modifies a
      invariant 0 <= i <= n
      invariant forall k | 0 <= k < i :: a[k] == k
    {
      a[i] := i;
      i := i + 1;
    }
  }

  /** The list `lsort` builds from the sorted positions, as written: it starts from `perms[0]`, which an empty list does not have. */
  function PositionListAsWritten(p: seq<nat>): Out<Word>
  {
    if p == [] then Unwound(Panicked(GoPanic)) else Done(List(ListCmds.Nums(p)))
  }

  /** As written, sorting the empty list panics; its sort is the empty list of positions. */
  lemma SortEmptyAsWritten()
    ensures PositionListAsWritten([]) == Unwound(Panicked(GoPanic))
    ensures IsSortOf([], []) && List(ListCmds.Nums([])) == EmptyList
  {
    assert Iota(0) == [];
  }

  /** The loop building the result list: each position as a number. */
  method PositionList(p: seq<nat>) returns (out: seq<Word>)
    ensures out == ListCmds.Nums(p)
  {
    out := [];
    var i := 0;
    while i < |p|
      invariant 0 <= i <= |p|
      invariant out == ListCmds.Nums(p[..i])
    {
      assert p[..i + 1] == p[..i] + [p[i]];
      out := out + [Natives.Num(p[i])];
      i := i + 1;
    }
    assert p[..i] == p;
  }

  /**
   * `lsort list`: the positions of the list's words, as numbers, ordered
   * by the words' serialisations; every position appears once.
   */
  method LSort(vm: nat, args: seq<Word>) returns (r: Out<Word>)
    ensures |args| != 1 ==> r == Unwound(BadArgs(vm, "lsort", "list", args))
    ensures |args| == 1 && ListOrElse(vm, args[0]).Unwound? ==> r == Unwound(ListOrElse(vm, args[0]).u)
    ensures |args| == 1 && ListOrElse(vm, args[0]).Done? ==>
      exists p: seq<nat> :: IsSortOf(Lists.Sers(ListOrElse(vm, args[0]).value), p) && r == Done(List(ListCmds.Nums(p)))
  {
    if |args| != 1 {
      return Unwound(BadArgs(vm, "lsort", "list", args));
    }
    var l := ListOrElse(vm, args[0]);
    if l.Unwound? {
      return Unwound(l.u);
    }
    var keys := Lists.Sers(l.value);
    var perms := Positions(|keys|);
    InsertionSort(keys, perms);
    NeighboursSorted(keys, perms[..]);
    var p := perms[..];
    var out := PositionList(p);
    assert IsSortOf(keys, p);
    return Done(List(out));
  }
}
