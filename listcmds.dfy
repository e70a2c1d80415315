/**
 * The list commands of src/gelo/commands/list.go.
 *
 * Each command takes the id of its VM and its arguments and answers a
 * word or an unwind.  The commands whose Go code loops are methods proved
 * against the specification functions beside them; their results are
 * built in a local sequence (the list builders are module ListBuilders).
 * Commands that read their arguments through an argument parser
 * (`some`, `reduce`, `complement-of`, `make-list`) start from the words
 * the parser bound.
 */
module ListCmds {
  import opened Base
  import opened Words
  import opened Errors
  import opened Machine
  import opened Api
  import opened Natives
  import Syntax

  /** The serialisations of some words, as a set. */
  function SerSet(xs: seq<Word>): set<Bytes>
  {
    set w | w in xs :: Ser(w)
  }

  /** Numbers for some Go integers, in order. */
  function Nums(ns: seq<int>): (r: seq<Word>)
    ensures |r| == |ns| && forall k | 0 <= k < |ns| :: r[k] == Num(ns[k])
  {
    seq(|ns|, k requires 0 <= k < |ns| => Num(ns[k]))
  }

  // -------------------------------------------------------------------
  // head, tail, empty-list?

  function FirstOf(vm: nat, w: Word): Out<Word>
  {
    match ListOrElse(vm, w)
    case Unwound(u) => Unwound(u)
    case Done(xs) => Done(if xs == [] then Null else xs[0])
  }

  function RestOf(vm: nat, w: Word): Out<Word>
  {
    match ListOrElse(vm, w)
    case Unwound(u) => Unwound(u)
    case Done(xs) => Done(if xs == [] then EmptyList else List(xs[1..]))
  }

  /** `head`: the first item of each list, Null for an empty one. */
  function Head(vm: nat, args: seq<Word>): (r: Out<Word>)
    ensures args == [] ==> r == Unwound(NoArgs(vm, "head", "list+"))
    ensures |args| > 1 && r.Done? ==> r.value.List? && |r.value.items| == |args|
  {
    if args == [] then Unwound(NoArgs(vm, "head", "list+"))
    else MapOrApplyOut(args, w => FirstOf(vm, w))
  }

  /** `tail`: each list without its first item, the empty list for an empty one. */
  function Tail(vm: nat, args: seq<Word>): (r: Out<Word>)
    ensures args == [] ==> r == Unwound(NoArgs(vm, "tail", "list+"))
    ensures |args| > 1 && r.Done? ==> r.value.List? && |r.value.items| == |args|
  {
    if args == [] then Unwound(NoArgs(vm, "tail", "list+"))
    else MapOrApplyOut(args, w => RestOf(vm, w))
  }

  /** `head` and `tail` of a non-empty list put it back together; of the empty list they give Null and the empty list. */
  lemma HeadTailSplit(vm: nat, xs: seq<Word>)
    ensures xs != [] ==> Head(vm, [List(xs)]).Done? && Tail(vm, [List(xs)]).Done?
    ensures xs != [] ==> [Head(vm, [List(xs)]).value] + Tail(vm, [List(xs)]).value.items == xs
    ensures xs == [] ==> Head(vm, [List(xs)]) == Done(Null) && Tail(vm, [List(xs)]) == Done(EmptyList)
  {
  }

  /** `head` of several lists is the list of their first items. */
  lemma HeadOfSeveral(vm: nat, ls: seq<seq<Word>>)
    requires |ls| > 1 && forall k | 0 <= k < |ls| :: ls[k] != []
    ensures Head(vm, seq(|ls|, k requires 0 <= k < |ls| => List(ls[k])))
      == Done(List(seq(|ls|, k requires 0 <= k < |ls| => ls[k][0])))
  {
    var args := seq(|ls|, k requires 0 <= k < |ls| => List(ls[k]));
    var r := MapOut(args, w => FirstOf(vm, w));
    assert r.Done?;
    assert r.value == seq(|ls|, k requires 0 <= k < |ls| => ls[k][0]);
  }

  function IsEmptyList(vm: nat, w: Word): Out<Word>
  {
    match ListOrElse(vm, w)
    case Unwound(u) => Unwound(u)
    case Done(xs) => Done(ToBool(xs == []))
  }

  /** `empty-list?`: true with no arguments; otherwise whether each argument is an empty list. */
  function EmptyListp(vm: nat, args: seq<Word>): (r: Out<Word>)
    ensures args == [] ==> r == Done(True)
    ensures |args| == 1 && args[0].List? ==> r == Done(ToBool(args[0].items == []))
    ensures |args| > 1 && r.Done? ==> r.value.List? && |r.value.items| == |args|
    ensures (exists k | 0 <= k < |args| :: !args[k].List? && !args[k].Symbol? && !args[k].Quote?) ==> r.Unwound?
  {
    if args == [] then Done(True)
    else MapOrApplyOut(args, w => IsEmptyList(vm, w))
  }

  /** A list that `empty-list?` calls non-empty splits into its `head` and its `tail`. */
  lemma NonEmptySplits(vm: nat, w: Word)
    requires EmptyListp(vm, [w]) == Done(False)
    ensures Head(vm, [w]).Done? && Tail(vm, [w]).Done?
    ensures [Head(vm, [w]).value] + Tail(vm, [w]).value.items == ListOrElse(vm, w).value
  {
  }

  // -------------------------------------------------------------------
  // lreverse

  /** A sequence in reverse order. */
  function Reversed(xs: seq<Word>): (r: seq<Word>)
    ensures |r| == |xs| && forall i | 0 <= i < |xs| :: r[i] == xs[|xs| - 1 - i]
  {
    if xs == [] then [] else Reversed(xs[1..]) + [xs[0]]
  }

  /** Reversing twice gives the sequence back. */
  lemma ReversedTwice(xs: seq<Word>)
    ensures Reversed(Reversed(xs)) == xs
  {
  }

  /** Reversing a concatenation reverses and swaps its parts. */
  lemma ReversedAppend(xs: seq<Word>, ys: seq<Word>)
    ensures Reversed(xs + ys) == Reversed(ys) + Reversed(xs)
  {
    assert |Reversed(xs + ys)| == |Reversed(ys) + Reversed(xs)|;
  }

  /** `lreverse`: the list's items in reverse order, each pushed to the front of the result. */
  method LReverse(vm: nat, args: seq<Word>) returns (r: Out<Word>)
    ensures |args| != 1 ==> r == Unwound(BadArgs(vm, "lreverse", "list", args))
    ensures |args| == 1 && ListOrElse(vm, args[0]).Unwound? ==> r == Unwound(ListOrElse(vm, args[0]).u)
    ensures |args| == 1 && ListOrElse(vm, args[0]).Done? ==> r == Done(List(Reversed(ListOrElse(vm, args[0]).value)))
  {
    if |args| != 1 {
      return Unwound(BadArgs(vm, "lreverse", "list", args));
    }
    var l := ListOrElse(vm, args[0]);
    if l.Unwound? {
      return Unwound(l.u);
    }
    var xs := l.value;
    var out: seq<Word> := [];
    var i := 0;
    while i < |xs|
      invariant 0 <= i <= |xs| && |out| == i
      invariant forall k | 0 <= k < i :: out[k] == xs[i - 1 - k]
    {
      out := [xs[i]] + out;
      i := i + 1;
    }
    assert out == Reversed(xs);
    return Done(List(out));
  }

  // -------------------------------------------------------------------
  // unique

  /** The words of `xs` whose serialisation is not in `seen` and not that of an earlier word. */
  function Kept(xs: seq<Word>, seen: set<Bytes>): (r: seq<Word>)
  {
    if xs == [] then []
    else if Ser(xs[0]) in seen then Kept(xs[1..], seen)
    else [xs[0]] + Kept(xs[1..], seen + {Ser(xs[0])})
  }

  /** What `Kept` keeps: one word per new serialisation, none of them seen before, each from the input. */
  lemma KeptSers(xs: seq<Word>, seen: set<Bytes>)
    ensures SerSet(Kept(xs, seen)) == SerSet(xs) - seen
    ensures forall i, j | 0 <= i < j < |Kept(xs, seen)| :: Ser(Kept(xs, seen)[i]) != Ser(Kept(xs, seen)[j])
    ensures forall w | w in Kept(xs, seen) :: w in xs
  {
    KeptSerSet(xs, seen);
    KeptDistinct(xs, seen);
    KeptFrom(xs, seen);
  }

  lemma {:induction false} KeptSerSet(xs: seq<Word>, seen: set<Bytes>)
    ensures SerSet(Kept(xs, seen)) == SerSet(xs) - seen
    decreases |xs|
  {
    if xs != [] {
      var x, rest := xs[0], xs[1..];
      assert xs == [x] + rest;
      assert SerSet(xs) == {Ser(x)} + SerSet(rest);
      if Ser(x) in seen {
        KeptSerSet(rest, seen);
      } else {
        KeptSerSet(rest, seen + {Ser(x)});
        var k := Kept(rest, seen + {Ser(x)});
        assert SerSet([x] + k) == {Ser(x)} + SerSet(k);
      }
    }
  }

  lemma {:induction false} KeptDistinct(xs: seq<Word>, seen: set<Bytes>)
    ensures forall i, j | 0 <= i < j < |Kept(xs, seen)| :: Ser(Kept(xs, seen)[i]) != Ser(Kept(xs, seen)[j])
    decreases |xs|
  {
    if xs != [] {
      var x, rest := xs[0], xs[1..];
      if Ser(x) in seen {
        KeptDistinct(rest, seen);
      } else {
        KeptDistinct(rest, seen + {Ser(x)});
        KeptSerSet(rest, seen + {Ser(x)});
        var k := Kept(rest, seen + {Ser(x)});
        forall j | 0 < j < |[x] + k|
          ensures Ser(([x] + k)[j]) != Ser(x)
        {
          assert ([x] + k)[j] == k[j - 1];
          assert Ser(k[j - 1]) in SerSet(k);
        }
      }
    }
  }

  lemma {:induction false} KeptFrom(xs: seq<Word>, seen: set<Bytes>)
    ensures forall w | w in Kept(xs, seen) :: w in xs
    decreases |xs|
  {
    if xs != [] {
      var x, rest := xs[0], xs[1..];
      assert forall w | w in rest :: w in xs;
      if Ser(x) in seen {
        KeptFrom(rest, seen);
      } else {
        KeptFrom(rest, seen + {Ser(x)});
      }
    }
  }

  /** Words with distinct, unseen serialisations are all kept. */
  lemma {:induction false} KeptAll(xs: seq<Word>, seen: set<Bytes>)
    requires forall i, j | 0 <= i < j < |xs| :: Ser(xs[i]) != Ser(xs[j])
    requires SerSet(xs) !! seen
    ensures Kept(xs, seen) == xs
    decreases |xs|
  {
    if xs != [] {
      assert Ser(xs[0]) in SerSet(xs);
      var rest := xs[1..];
      assert forall i | 0 <= i < |rest| :: rest[i] == xs[i + 1];
      assert SerSet(rest) !! seen + {Ser(xs[0])} by {
        forall w | w in rest
          ensures Ser(w) != Ser(xs[0]) && Ser(w) !in seen
        {
          var i :| 0 <= i < |rest| && rest[i] == w;
          assert xs[i + 1] == w;
          assert Ser(w) in SerSet(xs);
        }
      }
      KeptAll(rest, seen + {Ser(xs[0])});
    }
  }

  /** `unique` of a unique list changes nothing. */
  lemma UniqueIdempotent(xs: seq<Word>)
    ensures Kept(Kept(xs, {}), {}) == Kept(xs, {})
  {
    KeptSers(xs, {});
    KeptAll(Kept(xs, {}), {});
  }

  /** `unique`: the first word of each serialisation, in their original order. */
  method Unique(vm: nat, args: seq<Word>) returns (r: Out<Word>)
    ensures |args| != 1 ==> r == Unwound(BadArgs(vm, "uniq", "list", args))
    ensures |args| == 1 && ListOrElse(vm, args[0]).Unwound? ==> r == Unwound(ListOrElse(vm, args[0]).u)
    ensures |args| == 1 && ListOrElse(vm, args[0]).Done? ==> r == Done(List(Kept(ListOrElse(vm, args[0]).value, {})))
  {
    if |args| != 1 {
      return Unwound(BadArgs(vm, "uniq", "list", args));
    }
    var l := ListOrElse(vm, args[0]);
    if l.Unwound? {
      return Unwound(l.u);
    }
    var xs := l.value;
    var out: seq<Word> := [];
    var seen: set<Bytes> := {};
    var i := 0;
    while i < |xs|
      invariant 0 <= i <= |xs|
      invariant Kept(xs, {}) == out + Kept(xs[i..], seen)
    {
      var item := Ser(xs[i]);
      assert xs[i..][1..] == xs[i + 1..];
      if item !in seen {
        seen := seen + {item};
        out := out + [xs[i]];
      }
      i := i + 1;
    }
    assert xs[|xs|..] == [];
    assert out + [] == out;
    return Done(List(out));
  }

  // -------------------------------------------------------------------
  // index-of

  /** The positions, ascending, of the words of `xs` that `val` Equals. */
  function Positions(val: Word, xs: seq<Word>): (p: seq<nat>)
    ensures forall k | 0 <= k < |p| :: p[k] < |xs| && Equals(val, xs[p[k]])
    ensures forall k, m | 0 <= k < m < |p| :: p[k] < p[m]
    ensures forall i | 0 <= i < |xs| && Equals(val, xs[i]) :: i in p
  {
    if xs == [] then []
    else
      var front := xs[..|xs| - 1];
      assert forall i | 0 <= i < |front| :: front[i] == xs[i];
      Positions(val, front) + (if Equals(val, xs[|xs| - 1]) then [|xs| - 1] else [])
  }

  /** `index-of`: the positions of the list's items that the value Equals, as numbers. */
  method IndexOf(vm: nat, args: seq<Word>) returns (r: Out<Word>)
    ensures |args| != 2 ==> r == Unwound(BadArgs(vm, "index-of", "value list", args))
    ensures |args| == 2 && ListOrElse(vm, args[1]).Unwound? ==> r == Unwound(ListOrElse(vm, args[1]).u)
    ensures |args| == 2 && ListOrElse(vm, args[1]).Done? ==> r == Done(List(Nums(Positions(args[0], ListOrElse(vm, args[1]).value))))
  {
    if |args| != 2 {
      return Unwound(BadArgs(vm, "index-of", "value list", args));
    }
    var val := args[0];
    var l := ListOrElse(vm, args[1]);
    if l.Unwound? {
      return Unwound(l.u);
    }
    var found := Find(val, l.value);
    return Done(List(Nums(found)));
  }

  /** The loop of `index-of`: each position is compared in turn. */
  method Find(val: Word, xs: seq<Word>) returns (found: seq<nat>)
    ensures found == Positions(val, xs)
  {
    found := [];
    var count := 0;
    while count < |xs|
      invariant 0 <= count <= |xs|
      invariant found == Positions(val, xs[..count])
    {
      assert xs[..count + 1][..count] == xs[..count];
      if Equals(val, xs[count]) {
        found := found + [count];
      }
      count := count + 1;
    }
    assert xs[..|xs|] == xs;
  }

  // -------------------------------------------------------------------
  // enumerate

  /** The entries of `enumerate`: each item's position and a copy of it, as a pair inside a one-element list. */
  function Numbered(xs: seq<Word>): (r: seq<Word>)
    ensures |r| == |xs|
  {
    seq(|xs|, i requires 0 <= i < |xs| => List([List([Num(i), Copy(xs[i])])]))
  }

  /** Each entry of `enumerate` holds its position and a word that prints like the item. */
  lemma NumberedEntries(xs: seq<Word>, i: nat)
    requires i < |xs|
    ensures Numbered(xs)[i].List? && |Numbered(xs)[i].items| == 1
    ensures var pair := Numbered(xs)[i].items[0];
      pair.List? && |pair.items| == 2 && pair.items[0] == Num(i) && Ser(pair.items[1]) == Ser(xs[i])
  {
    CopyProperties(xs[i]);
  }

  /** The entries for the first `i + 1` items extend those for the first `i` by the entry of item `i`. */
  lemma NumberedSnoc(xs: seq<Word>, i: nat)
    requires i < |xs|
    ensures Numbered(xs)[..i + 1] == Numbered(xs)[..i] + [List([List([Num(i), Copy(xs[i])])])]
  {
  }

  /** `enumerate`: one entry per item, numbered from zero. */
  method Enumerate(vm: nat, args: seq<Word>) returns (r: Out<Word>)
    ensures |args| != 1 ==> r == Unwound(BadArgs(vm, "enumerate", "list", args))
    ensures |args| == 1 && ListOrElse(vm, args[0]).Unwound? ==> r == Unwound(ListOrElse(vm, args[0]).u)
    ensures |args| == 1 && ListOrElse(vm, args[0]).Done? ==> r == Done(List(Numbered(ListOrElse(vm, args[0]).value)))
  {
    if |args| != 1 {
      return Unwound(BadArgs(vm, "enumerate", "list", args));
    }
    var l := ListOrElse(vm, args[0]);
    if l.Unwound? {
      return Unwound(l.u);
    }
    var xs := l.value;
    var out: seq<Word> := [];
    var count := 0;
    while count < |xs|
      invariant 0 <= count <= |xs|
      invariant out == Numbered(xs)[..count]
    {
      var pair := Lists.NewListFrom([Num(count), xs[count]]);
      var entry := Lists.NewListFrom([List(pair)]);
      assert pair == [Num(count), Copy(xs[count])];
      assert entry == [List(pair)];
      NumberedSnoc(xs, count);
      out := out + [List(entry)];
      count := count + 1;
    }
    assert Numbered(xs)[..|xs|] == Numbered(xs);
    return Done(List(out));
  }

  // -------------------------------------------------------------------
  // lindex

  /** The items at the given index words: one item for one index, otherwise a list of them in index order. */
  function Picked(vm: nat, num: Syntax.NumReader, xs: seq<Word>, idx: seq<Word>): (r: Out<Word>)
    requires idx != []
  {
    if |idx| == 1 then
      match ToIdx(vm, num, idx[0], |xs|)
      case Unwound(u) => Unwound(u)
      case Done(i) => Done(xs[i])
    else
      match ToIdxs(vm, num, idx, |xs|)
      case Unwound(u) => Unwound(u)
      case Done(ps) => Done(List(seq(|ps|, k requires 0 <= k < |ps| => xs[ps[k]])))
  }

  /** Positions count from the front, or from the back when negative, and several give their items in order. */
  lemma PickedItems(vm: nat, num: Syntax.NumReader, xs: seq<Word>, i: nat, j: nat)
    requires i < |xs| && j < |xs| && |xs| <= MaxInt32
    ensures Picked(vm, num, xs, [Num(i)]) == Done(xs[i])
    ensures Picked(vm, num, xs, [Num(i - |xs|)]) == Done(xs[i])
    ensures Picked(vm, num, xs, [Num(i), Num(j - |xs|)]) == Done(List([xs[i], xs[j]]))
  {
    ToIdxCountsBothWays(vm, num, i, |xs|);
    ToIdxCountsBothWays(vm, num, j, |xs|);
    var two := [Num(i), Num(j - |xs|)];
    var ps := ToIdxs(vm, num, two, |xs|).value;
    assert ps == [i, j];
    assert seq(|ps|, k requires 0 <= k < |ps| => xs[ps[k]]) == [xs[i], xs[j]];
  }

  /** `lindex`: the list's items at the given indices, all of them read before any is taken. */
  method LIndex(vm: nat, num: Syntax.NumReader, args: seq<Word>) returns (r: Out<Word>)
    ensures |args| < 2 ==> r == Unwound(BadArgs(vm, "lindex", "list indicies+", args))
    ensures |args| >= 2 && ListOrElse(vm, args[0]).Unwound? ==> r == Unwound(ListOrElse(vm, args[0]).u)
    ensures |args| >= 2 && ListOrElse(vm, args[0]).Done? ==> r == Picked(vm, num, ListOrElse(vm, args[0]).value, args[1..])
  {
    if |args| < 2 {
      return Unwound(BadArgs(vm, "lindex", "list indicies+", args));
    }
    var l := ListOrElse(vm, args[0]);
    if l.Unwound? {
      return Unwound(l.u);
    }
    var list := l.value;
    if |args| == 2 {
      var i := ToIdx(vm, num, args[1], |list|);
      if i.Unwound? {
        return Unwound(i.u);
      }
      return Done(list[i.value]);
    }
    var idxs := ReadIdxs(vm, num, args[1..], |list|);
    if idxs.Unwound? {
      return Unwound(idxs.u);
    }
    var out := Gather(list, idxs.value);
    return Done(List(out));
  }

  /** `ToIdx` of each index word in turn, stopping at the first that raises. */
  method ReadIdxs(vm: nat, num: Syntax.NumReader, ws: seq<Word>, length: nat) returns (r: Out<seq<nat>>)
    ensures r == ToIdxs(vm, num, ws, length)
  {
    var idxs: seq<nat> := [];
    var count := 0;
    assert ws[0..] == ws;
    BeforeNothing(ToIdxs(vm, num, ws, length));
    while count < |ws|
      invariant 0 <= count <= |ws|
      invariant ToIdxs(vm, num, ws, length) == Before(idxs, ToIdxs(vm, num, ws[count..], length))
    {
      assert ws[count..][1..] == ws[count + 1..];
      var i := ToIdx(vm, num, ws[count], length);
      if i.Unwound? {
        return Unwound(i.u);
      }
      BeforeStep(idxs, [i.value], ToIdxs(vm, num, ws[count + 1..], length));
      idxs := idxs + [i.value];
      count := count + 1;
    }
    assert ws[count..] == [];
    assert idxs + [] == idxs;
    return Done(idxs);
  }

  /** The items at some positions, in the order of the positions. */
  method Gather(list: seq<Word>, idxs: seq<nat>) returns (out: seq<Word>)
    requires forall t | 0 <= t < |idxs| :: idxs[t] < |list|
    ensures out == seq(|idxs|, t requires 0 <= t < |idxs| => list[idxs[t]])
  {
    out := [];
    var k := 0;
    while k < |idxs|
      invariant 0 <= k <= |idxs|
      invariant out == seq(k, t requires 0 <= t < k => list[idxs[t]])
    {
      out := out + [list[idxs[k]]];
      k := k + 1;
    }
  }

  // -------------------------------------------------------------------
  // zip

  /** The lists `zip` reads, in order; None once one of them is empty, and the later ones are then not read. */
  function ZipArgs(vm: nat, args: seq<Word>): (r: Out<Option<seq<seq<Word>>>>)
    ensures r.Done? && r.value.Some? ==> |r.value.value| == |args| && forall k | 0 <= k < |args| :: r.value.value[k] != []
  {
    if args == [] then Done(Some([]))
    else
      match ListOrElse(vm, args[0])
      case Unwound(u) => Unwound(u)
      case Done(xs) =>
        if xs == [] then Done(None)
        else
          match ZipArgs(vm, args[1..])
          case Unwound(u) => Unwound(u)
          case Done(None) => Done(None)
          case Done(Some(ls)) => Done(Some([xs] + ls))
  }

  /** The length of the shortest list. */
  function MinLen(ls: seq<seq<Word>>): (n: nat)
    requires ls != []
    ensures forall k | 0 <= k < |ls| :: n <= |ls[k]|
    ensures exists k | 0 <= k < |ls| :: n == |ls[k]|
  {
    if |ls| == 1 then |ls[0]|
    else
      var m := MinLen(ls[1..]);
      assert forall k | 1 <= k < |ls| :: ls[1..][k - 1] == ls[k];
      if |ls[0]| <= m then |ls[0]| else m
  }

  /** The `i`-th items of the lists, as a list. */
  function Column(ls: seq<seq<Word>>, i: nat): Word
    requires forall k | 0 <= k < |ls| :: i < |ls[k]|
  {
    List(seq(|ls|, k requires 0 <= k < |ls| => ls[k][i]))
  }

  /** The tuples of `zip`: as many as the shortest list has items, the `i`-th holding every list's `i`-th item. */
  function Zipped(ls: seq<seq<Word>>): (r: seq<Word>)
    requires ls != []
    ensures |r| == MinLen(ls)
  {
    seq(MinLen(ls), i requires 0 <= i < MinLen(ls) => Column(ls, i))
  }

  /** Reading the `k`-th item of every tuple gives back the `k`-th list, cut to the shortest length. */
  lemma UnzipColumn(ls: seq<seq<Word>>, k: nat)
    requires k < |ls|
    ensures forall i | 0 <= i < |Zipped(ls)| :: Zipped(ls)[i].List? && |Zipped(ls)[i].items| == |ls|
    ensures seq(|Zipped(ls)|, i requires 0 <= i < |Zipped(ls)| => Zipped(ls)[i].items[k]) == ls[k][..MinLen(ls)]
  {
  }

  /** `zip`: the lists' items in tuples; the empty list as soon as one list is empty. */
  method Zip(vm: nat, args: seq<Word>) returns (r: Out<Word>)
    ensures args == [] ==> r == Unwound(BadArgs(vm, "zip", "list+", args))
    ensures args != [] && ZipArgs(vm, args).Unwound? ==> r == Unwound(ZipArgs(vm, args).u)
    ensures args != [] && ZipArgs(vm, args) == Done(None) ==> r == Done(EmptyList)
    ensures args != [] && ZipArgs(vm, args).Done? && ZipArgs(vm, args).value.Some? ==>
      r == Done(List(Zipped(ZipArgs(vm, args).value.value)))
  {
    if args == [] {
      return Unwound(BadArgs(vm, "zip", "list+", args));
    }
    var ring := ReadRing(vm, args);
    match ring
    case Unwound(u) =>
      return Unwound(u);
    case Done(None) =>
      return Done(EmptyList);
    case Done(Some(ls)) =>
      var out := Tuples(ls);
      return Done(List(out));
  }

  /** The type-checking pass of `zip`: each argument read as a list, stopping at the first empty one. */
  method ReadRing(vm: nat, args: seq<Word>) returns (r: Out<Option<seq<seq<Word>>>>)
    ensures r == ZipArgs(vm, args)
  {
    var ring: seq<seq<Word>> := [];
    var a := 0;
    assert args[0..] == args;
    AheadOfNothing(ZipArgs(vm, args));
    while a < |args|
      invariant 0 <= a <= |args| && |ring| == a
      invariant ZipArgs(vm, args) == Ahead(ring, ZipArgs(vm, args[a..]))
    {
      assert args[a..][1..] == args[a + 1..];
      var l := ListOrElse(vm, args[a]);
      if l.Unwound? {
        return Unwound(l.u);
      }
      if l.value == [] {
        return Done(None);
      }
      AheadStep(ring, l.value, ZipArgs(vm, args[a + 1..]));
      ring := ring + [l.value];
      a := a + 1;
    }
    assert args[a..] == [];
    assert ring + [] == ring;
    return Done(Some(ring));
  }

  /** The pass of `zip` that goes round the lists taking one item from each, until one runs out. */
  method Tuples(ring: seq<seq<Word>>) returns (out: seq<Word>)
    requires ring != []
    ensures out == Zipped(ring)
  {
    out := [];
    var round := 0;
    var done := false;
    while !done
      invariant 0 <= round <= MinLen(ring)
      invariant out == Zipped(ring)[..round]
      invariant done ==> round == MinLen(ring)
      decreases MinLen(ring) - round, !done
    {
      var tuple: seq<Word> := [];
      var k := 0;
      while k < |ring| && round < |ring[k]|
        invariant 0 <= k <= |ring|
        invariant forall t | 0 <= t < k :: round < |ring[t]|
        invariant tuple == seq(k, t requires 0 <= t < k => ring[t][round])
      {
        tuple := tuple + [ring[k][round]];
        k := k + 1;
      }
      if k < |ring| {
        done := true;
      } else {
        assert List(tuple) == Column(ring, round);
        assert Zipped(ring)[..round + 1] == Zipped(ring)[..round] + [Column(ring, round)];
        out := out + [List(tuple)];
        round := round + 1;
      }
    }
    assert Zipped(ring)[..round] == Zipped(ring);
  }

  lemma AheadStep(ring: seq<seq<Word>>, xs: seq<Word>, rest: Out<Option<seq<seq<Word>>>>)
    ensures Ahead(ring, Ahead([xs], rest)) == Ahead(ring + [xs], rest)
  {
    if rest.Done? && rest.value.Some? {
      assert ring + ([xs] + rest.value.value) == (ring + [xs]) + rest.value.value;
    }
  }

  lemma AheadOfNothing(rest: Out<Option<seq<seq<Word>>>>)
    ensures Ahead([], rest) == rest
  {
    if rest.Done? && rest.value.Some? {
      assert [] + rest.value.value == rest.value.value;
    }
  }

  /** The lists already read, in front of what reading the rest gives. */
  function Ahead(ring: seq<seq<Word>>, rest: Out<Option<seq<seq<Word>>>>): Out<Option<seq<seq<Word>>>>
  {
    match rest
    case Done(Some(ls)) => Done(Some(ring + ls))
    case _ => rest
  }

  // -------------------------------------------------------------------
  // some

  /** The words of `xs` for which the command answers true, in order; the first raise ends the walk. */
  function Selected(run: Runner, cmd: Word, xs: seq<Word>): (r: Out<seq<Word>>)
    ensures r.Done? <==> forall i | 0 <= i < |xs| :: run([cmd, xs[i]]).Done?
    ensures r.Done? ==> forall w | w in r.value :: w in xs && run([cmd, w]) == Done(True)
    ensures r.Done? ==> forall w | w in xs && run([cmd, w]) == Done(True) :: w in r.value
  {
    if xs == [] then Done([])
    else
      var rest := xs[1..];
      assert forall i | 0 <= i < |rest| :: rest[i] == xs[i + 1];
      assert forall w | w in xs :: w == xs[0] || w in rest;
      match run([cmd, xs[0]])
      case Unwound(u) => Unwound(u)
      case Done(v) => Before(if v == True then [xs[0]] else [], Selected(run, cmd, rest))
  }

  /** A command that accepts everything keeps the whole list. */
  lemma {:induction false} SelectedAll(run: Runner, cmd: Word, xs: seq<Word>)
    requires forall w | w in xs :: run([cmd, w]) == Done(True)
    ensures Selected(run, cmd, xs) == Done(xs)
    decreases |xs|
  {
    if xs != [] {
      assert forall w | w in xs[1..] :: w in xs;
      SelectedAll(run, cmd, xs[1..]);
      assert [xs[0]] + xs[1..] == xs;
    }
  }

  /**
   * `some`: the items for which the command answers the Bool true.  The
   * list is read first, then the item name (which must be a symbol), then
   * the command is checked.
   */
  method SomeItems(vm: nat, list: Word, name: Option<Word>, cmd: Word, possibly: Word -> bool, run: Runner) returns (r: Out<Word>)
    ensures ListOrElse(vm, list).Unwound? ==> r == Unwound(ListOrElse(vm, list).u)
    ensures ListOrElse(vm, list).Done? && name.Some? && !name.value.Symbol? ==> r == Unwound(Mismatch(vm, "symbol", name.value))
    ensures ListOrElse(vm, list).Done? && (name.None? || name.value.Symbol?) ==>
      (!possibly(cmd) ==> r == Unwound(Mismatch(vm, "invokable", cmd))) &&
      (possibly(cmd) ==> r == Listed(Selected(run, cmd, ListOrElse(vm, list).value)))
  {
    var l := ListOrElse(vm, list);
    if l.Unwound? {
      return Unwound(l.u);
    }
    if name.Some? {
      var n := SymbolOrElse(vm, name.value);
      if n.Unwound? {
        return Unwound(n.u);
      }
    }
    if !possibly(cmd) {
      return Unwound(Mismatch(vm, "invokable", cmd));
    }
    var kept := Select(run, cmd, l.value);
    return Listed(kept);
  }

  /** The loop of `some`. */
  method Select(run: Runner, cmd: Word, xs: seq<Word>) returns (r: Out<seq<Word>>)
    ensures r == Selected(run, cmd, xs)
  {
    var kept: seq<Word> := [];
    var i := 0;
    assert xs[0..] == xs;
    BeforeNothing(Selected(run, cmd, xs));
    while i < |xs|
      invariant 0 <= i <= |xs|
      invariant Selected(run, cmd, xs) == Before(kept, Selected(run, cmd, xs[i..]))
    {
      var val, taken := SelectStep(run, cmd, xs, i);
      if val.Unwound? {
        return Unwound(val.u);
      }
      BeforeStep(kept, taken, Selected(run, cmd, xs[i + 1..]));
      kept := kept + taken;
      i := i + 1;
    }
    assert xs[i..] == [] && kept + [] == kept;
    return Done(kept);
  }

  /** One round of `some`'s loop: the command's answer for the word at `i`, and what it adds. */
  method SelectStep(run: Runner, cmd: Word, xs: seq<Word>, i: nat) returns (val: Out<Word>, taken: seq<Word>)
    requires i < |xs|
    ensures val.Unwound? ==> Selected(run, cmd, xs[i..]) == Unwound(val.u)
    ensures val.Done? ==> Selected(run, cmd, xs[i..]) == Before(taken, Selected(run, cmd, xs[i + 1..]))
  {
    assert xs[i..][1..] == xs[i + 1..];
    val := run([cmd, xs[i]]);
    taken := if val.Done? && val.value == True then [xs[i]] else [];
  }

  /** A collected sequence as a list word. */
  function Listed(r: Out<seq<Word>>): Out<Word>
  {
    match r
    case Done(ws) => Done(List(ws))
    case Unwound(u) => Unwound(u)
  }

  // -------------------------------------------------------------------
  // reduce

  /** The left fold: the command applied to the accumulator and each item in turn; the first raise ends it. */
  function Folded(run: Runner, cmd: Word, acc: Word, xs: seq<Word>): Out<Word>
    decreases |xs|
  {
    if xs == [] then Done(acc)
    else
      match run([cmd, acc, xs[0]])
      case Unwound(u) => Unwound(u)
      case Done(a) => Folded(run, cmd, a, xs[1..])
  }

  /** Folding a concatenation folds the second part from where the first left off. */
  lemma {:induction false} FoldedAppend(run: Runner, cmd: Word, acc: Word, xs: seq<Word>, ys: seq<Word>)
    ensures Folded(run, cmd, acc, xs + ys) ==
      match Folded(run, cmd, acc, xs)
      case Done(a) => Folded(run, cmd, a, ys)
      case Unwound(u) => Unwound(u)
    decreases |xs|
  {
    if xs != [] {
      assert (xs + ys)[0] == xs[0] && (xs + ys)[1..] == xs[1..] + ys;
      match run([cmd, acc, xs[0]])
      case Unwound(_) =>
      case Done(a) => FoldedAppend(run, cmd, a, xs[1..], ys);
    } else {
      assert xs + ys == ys;
    }
  }

  /** Folding with a command that answers its last argument gives the last item. */
  lemma {:induction false} FoldedKeepsLast(run: Runner, cmd: Word, acc: Word, xs: seq<Word>)
    requires forall a, b :: run([cmd, a, b]) == Done(b)
    ensures Folded(run, cmd, acc, xs) == Done(if xs == [] then acc else xs[|xs| - 1])
    decreases |xs|
  {
    if xs != [] {
      FoldedKeepsLast(run, cmd, xs[0], xs[1..]);
    }
  }

  /**
   * `reduce`: the left fold of the command over the list, from `initial`
   * when it is given and otherwise from the first item; without `initial`
   * an empty list dereferences nil.
   */
  method Reduce(vm: nat, list: Word, initial: Option<Word>, cmd: Word, possibly: Word -> bool, run: Runner) returns (r: Out<Word>)
    ensures ListOrElse(vm, list).Unwound? ==> r == Unwound(ListOrElse(vm, list).u)
    ensures ListOrElse(vm, list).Done? && !possibly(cmd) ==> r == Unwound(Mismatch(vm, "invokable", cmd))
    ensures ListOrElse(vm, list).Done? && possibly(cmd) ==>
      var xs := ListOrElse(vm, list).value;
      (initial.Some? ==> r == Folded(run, cmd, initial.value, xs)) &&
      (initial.None? && xs == [] ==> r == Unwound(Panicked(GoPanic))) &&
      (initial.None? && xs != [] ==> r == Folded(run, cmd, xs[0], xs[1..]))
  {
    var l := ListOrElse(vm, list);
    if l.Unwound? {
      return Unwound(l.u);
    }
    if !possibly(cmd) {
      return Unwound(Mismatch(vm, "invokable", cmd));
    }
    var xs := l.value;
    var acc: Word;
    var i := 0;
    if initial.Some? {
      acc := initial.value;
    } else {
      if xs == [] {
        return Unwound(Panicked(GoPanic));
      }
      acc := xs[0];
      i := 1;
    }
    ghost var start := acc;
    while i < |xs|
      invariant 0 <= i <= |xs|
      invariant Folded(run, cmd, start, xs[if initial.Some? then 0 else 1..]) == Folded(run, cmd, acc, xs[i..])
    {
      assert xs[i..][1..] == xs[i + 1..];
      var next := run([cmd, acc, xs[i]]);
      if next.Unwound? {
        return Unwound(next.u);
      }
      acc := next.value;
      i := i + 1;
    }
    assert xs[0..] == xs;
    return Done(acc);
  }

  // -------------------------------------------------------------------
  // intersect

  /** `v` once for each word of `right` it Equals. */
  function MatchesIn(v: Word, right: seq<Word>): seq<Word>
  {
    if right == [] then []
    else (if Equals(v, right[0]) then [v] else []) + MatchesIn(v, right[1..])
  }

  /** Each word of `left`, once per word of `right` it Equals, in the order of `left`. */
  function Common(left: seq<Word>, right: seq<Word>): seq<Word>
  {
    if left == [] then []
    else MatchesIn(left[0], right) + Common(left[1..], right)
  }

  /** The matches of `v` are copies of `v`, and there are some exactly when `v` Equals a word of `right`. */
  lemma {:induction false} MatchesInMembers(v: Word, right: seq<Word>)
    ensures forall w | w in MatchesIn(v, right) :: w == v
    ensures MatchesIn(v, right) != [] <==> exists y | y in right :: Equals(v, y)
    decreases |right|
  {
    if right != [] {
      MatchesInMembers(v, right[1..]);
      assert forall y | y in right :: y == right[0] || y in right[1..];
      if Equals(v, right[0]) {
        assert right[0] in right;
      }
    }
  }

  /** A word is in the intersection exactly when it is a left item that Equals some right item. */
  lemma {:induction false} CommonMembers(left: seq<Word>, right: seq<Word>)
    ensures forall w | w in Common(left, right) :: w in left && exists y | y in right :: Equals(w, y)
    ensures forall w | w in left && (exists y | y in right :: Equals(w, y)) :: w in Common(left, right)
    decreases |left|
  {
    if left != [] {
      CommonMembers(left[1..], right);
      MatchesInMembers(left[0], right);
      var here := MatchesIn(left[0], right);
      assert here != [] ==> here[0] in here;
      assert forall w | w in left :: w == left[0] || w in left[1..];
    }
  }

  /** Nothing is in common with an empty list. */
  lemma {:induction false} NothingInCommon(left: seq<Word>, right: seq<Word>)
    requires left == [] || right == []
    ensures Common(left, right) == []
    decreases |left|
  {
    if left != [] {
      NothingInCommon(left[1..], right);
    }
  }

  /** `intersect`: the left items that Equal a right item, repeated per match; a single argument dereferences nil. */
  method Intersect(vm: nat, args: seq<Word>) returns (r: Out<Word>)
    ensures args == [] ==> r == Unwound(BadArgs(vm, "intersect", "list list", args))
    ensures args != [] && ListOrElse(vm, args[0]).Unwound? ==> r == Unwound(ListOrElse(vm, args[0]).u)
    ensures |args| == 1 && ListOrElse(vm, args[0]).Done? ==> r == Unwound(Panicked(GoPanic))
    ensures |args| >= 2 && ListOrElse(vm, args[0]).Done? ==>
      (ListOrElse(vm, args[1]).Unwound? ==> r == Unwound(ListOrElse(vm, args[1]).u)) &&
      (ListOrElse(vm, args[1]).Done? ==> r == Done(List(Common(ListOrElse(vm, args[0]).value, ListOrElse(vm, args[1]).value))))
  {
    if args == [] {
      return Unwound(BadArgs(vm, "intersect", "list list", args));
    }
    var left := ListOrElse(vm, args[0]);
    if left.Unwound? {
      return Unwound(left.u);
    }
    if |args| == 1 {
      return Unwound(Panicked(GoPanic));
    }
    var right := ListOrElse(vm, args[1]);
    if right.Unwound? {
      return Unwound(right.u);
    }
    if left.value == [] || right.value == [] {
      NothingInCommon(left.value, right.value);
      return Done(EmptyList);
    }
    var out := Intersection(left.value, right.value);
    return Done(List(out));
  }

  /** The outer loop of `intersect`. */
  method Intersection(left: seq<Word>, right: seq<Word>) returns (out: seq<Word>)
    ensures out == Common(left, right)
  {
    out := [];
    var i := 0;
    while i < |left|
      invariant 0 <= i <= |left|
      invariant Common(left, right) == out + Common(left[i..], right)
    {
      assert left[i..][1..] == left[i + 1..];
      var found := Matches(left[i], right);
      assert Common(left[i..], right) == found + Common(left[i + 1..], right);
      out := out + found;
      i := i + 1;
    }
    assert left[i..] == [];
  }

  /** The inner loop of `intersect`: the left item once per right item it Equals. */
  method Matches(v: Word, right: seq<Word>) returns (found: seq<Word>)
    ensures found == MatchesIn(v, right)
  {
    found := [];
    var j := 0;
    assert right[0..] == right && [] + MatchesIn(v, right) == MatchesIn(v, right);
    while j < |right|
      invariant 0 <= j <= |right|
      invariant MatchesIn(v, right) == found + MatchesIn(v, right[j..])
    {
      var here := MatchStep(v, right, j);
      found := found + here;
      j := j + 1;
    }
    assert right[j..] == [] && MatchesIn(v, right[j..]) == [] && found + [] == found;
  }

  /** One round of the inner loop of `intersect`: what the word at `j` adds. */
  method MatchStep(v: Word, right: seq<Word>, j: nat) returns (here: seq<Word>)
    requires j < |right|
    ensures MatchesIn(v, right[j..]) == here + MatchesIn(v, right[j + 1..])
    ensures here == [] || here == [v]
  {
    assert right[j..][1..] == right[j + 1..];
    if Equals(v, right[j]) {
      here := [v];
    } else {
      here := [];
    }
  }

  // -------------------------------------------------------------------
  // complement-of

  /** `v` Equals no word of `a`. */
  predicate Outside(v: Word, a: seq<Word>)
  {
    forall x | x in a :: !Equals(v, x)
  }

  /**
   * The complement of `a` with respect to `b`: the first word of `b` of
   * each serialisation not in `seen`, kept when it Equals no word of `a`.
   */
  function Complement(a: seq<Word>, b: seq<Word>, seen: set<Bytes>): seq<Word>
  {
    if b == [] then []
    else if Ser(b[0]) in seen then Complement(a, b[1..], seen)
    else (if Outside(b[0], a) then [b[0]] else []) + Complement(a, b[1..], seen + {Ser(b[0])})
  }

  /**
   * list.go `Complement_of` as written: a word of `b` is kept only from
   * inside the loop over `a`, so with `a` empty nothing is kept.
   */
  function ComplementAsWritten(a: seq<Word>, b: seq<Word>, seen: set<Bytes>): seq<Word>
  {
    if b == [] then []
    else if Ser(b[0]) in seen then ComplementAsWritten(a, b[1..], seen)
    else (if a != [] && Outside(b[0], a) then [b[0]] else []) + ComplementAsWritten(a, b[1..], seen + {Ser(b[0])})
  }

  /** As written, the complement of the empty list is empty, where it should be the whole second list. */
  lemma ComplementOfEmptyAsWritten(x: Word)
    ensures ComplementAsWritten([], [x], {}) == []
    ensures Complement([], [x], {}) == [x]
  {
  }

  /** What the complement keeps comes from `b`, was not seen, and Equals nothing in `a`. */
  lemma {:induction false} ComplementMembers(a: seq<Word>, b: seq<Word>, seen: set<Bytes>)
    ensures forall w | w in Complement(a, b, seen) :: w in b && Ser(w) !in seen && Outside(w, a)
    decreases |b|
  {
    if b != [] {
      assert forall w | w in b[1..] :: w in b;
      if Ser(b[0]) in seen {
        ComplementMembers(a, b[1..], seen);
      } else {
        ComplementMembers(a, b[1..], seen + {Ser(b[0])});
      }
    }
  }

  /** When nothing in `b` Equals a word of `a`, the complement is `unique` of `b`; in particular for an empty `a`. */
  lemma {:induction false} ComplementAllOutside(a: seq<Word>, b: seq<Word>, seen: set<Bytes>)
    requires forall w | w in b :: Outside(w, a)
    ensures Complement(a, b, seen) == Kept(b, seen)
    decreases |b|
  {
    if b != [] {
      assert forall w | w in b[1..] :: w in b;
      assert b[0] in b;
      if Ser(b[0]) in seen {
        ComplementAllOutside(a, b[1..], seen);
      } else {
        ComplementAllOutside(a, b[1..], seen + {Ser(b[0])});
      }
    }
  }

  /** `complement-of list1 wrt list2`: each serialisation of list2 once, for the words that Equal nothing in list1. */
  method ComplementOf(vm: nat, list1: Word, list2: Word) returns (r: Out<Word>)
    ensures ListOrElse(vm, list1).Unwound? ==> r == Unwound(ListOrElse(vm, list1).u)
    ensures ListOrElse(vm, list1).Done? && ListOrElse(vm, list2).Unwound? ==> r == Unwound(ListOrElse(vm, list2).u)
    ensures ListOrElse(vm, list1).Done? && ListOrElse(vm, list2).Done? ==>
      r == Done(List(Complement(ListOrElse(vm, list1).value, ListOrElse(vm, list2).value, {})))
  {
    var l1 := ListOrElse(vm, list1);
    if l1.Unwound? {
      return Unwound(l1.u);
    }
    var l2 := ListOrElse(vm, list2);
    if l2.Unwound? {
      return Unwound(l2.u);
    }
    var out := ComplementLoop(l1.value, l2.value);
    return Done(List(out));
  }

  /** The outer loop of `complement-of`, over the words of `b`. */
  method ComplementLoop(a: seq<Word>, b: seq<Word>) returns (out: seq<Word>)
    ensures out == Complement(a, b, {})
  {
    out := [];
    var seen: set<Bytes> := {};
    var i := 0;
    assert b[0..] == b;
    while i < |b|
      invariant 0 <= i <= |b|
      invariant Complement(a, b, {}) == out + Complement(a, b[i..], seen)
    {
      var here;
      here, seen := ComplementStep(a, b, i, seen);
      out := out + here;
      i := i + 1;
    }
    assert b[i..] == [] && out + [] == out;
  }

  /** One round of the outer loop of `complement-of`: what the word at `i` adds, and the serialisations seen after it. */
  method ComplementStep(a: seq<Word>, b: seq<Word>, i: nat, seen: set<Bytes>) returns (here: seq<Word>, after: set<Bytes>)
    requires i < |b|
    ensures Complement(a, b[i..], seen) == here + Complement(a, b[i + 1..], after)
  {
    assert b[i..][1..] == b[i + 1..] && b[i..][0] == b[i];
    here := [];
    after := seen + {Ser(b[i])};
    if Ser(b[i]) in seen {
      assert after == seen;
    } else {
      var outside := NoneEqual(b[i], a);
      if outside {
        here := [b[i]];
      }
    }
  }

  /** The inner loop of `complement-of`: whether `v` gets through `a` without Equalling any of it. */
  method NoneEqual(v: Word, a: seq<Word>) returns (outside: bool)
    ensures outside == Outside(v, a)
  {
    var j := 0;
    while j < |a|
      invariant 0 <= j <= |a|
      invariant forall k | 0 <= k < j :: !Equals(v, a[k])
    {
      if Equals(v, a[j]) {
        return false;
      }
      j := j + 1;
    }
    return true;
  }

  // -------------------------------------------------------------------
  // sym-diff

  /** Each serialisation of `xs` bound to the last word of `xs` with it, as the Go map is filled. */
  function LastBySer(xs: seq<Word>): map<Bytes, Word>
  {
    if xs == [] then map[] else LastBySer(xs[..|xs| - 1])[Ser(xs[|xs| - 1]) := xs[|xs| - 1]]
  }

  /** Every serialisation of `xs` is a key, bound to a word of `xs` that prints as that key. */
  lemma {:induction false} LastBySerBinds(xs: seq<Word>)
    ensures LastBySer(xs).Keys == SerSet(xs)
    ensures forall k | k in LastBySer(xs) :: Ser(LastBySer(xs)[k]) == k && LastBySer(xs)[k] in xs
    decreases |xs|
  {
    if xs != [] {
      var front := xs[..|xs| - 1];
      LastBySerBinds(front);
      assert xs == front + [xs[|xs| - 1]];
      assert forall w | w in xs :: w in front || w == xs[|xs| - 1];
      assert forall w | w in front :: w in xs;
    }
  }

  /** A word with no later word of the same serialisation is the one its serialisation is bound to. */
  lemma {:induction false} LastWins(xs: seq<Word>, j: nat)
    requires j < |xs| && forall t | j < t < |xs| :: Ser(xs[t]) != Ser(xs[j])
    ensures Ser(xs[j]) in LastBySer(xs) && LastBySer(xs)[Ser(xs[j])] == xs[j]
    decreases |xs|
  {
    if j < |xs| - 1 {
      var front := xs[..|xs| - 1];
      LastWins(front, j);
    }
  }

  /**
   * The symmetric difference of two maps from serialisations to words, in
   * any order: each key of exactly one map gives its word, once.
   */
  predicate SymDiffOf(am: map<Bytes, Word>, bm: map<Bytes, Word>, items: seq<Word>)
  {
    (forall i, j | 0 <= i < j < |items| :: Ser(items[i]) != Ser(items[j])) &&
    (forall w | w in items :: (Ser(w) in am && Ser(w) !in bm && w == am[Ser(w)]) || (Ser(w) in bm && Ser(w) !in am && w == bm[Ser(w)])) &&
    (forall k | k in am && k !in bm :: am[k] in items) &&
    (forall k | k in bm && k !in am :: bm[k] in items)
  }

  /** The symmetric difference of a list with itself is empty. */
  lemma SymDiffOfSelf(am: map<Bytes, Word>, items: seq<Word>)
    ensures SymDiffOf(am, am, items) <==> items == []
  {
    if items != [] {
      assert items[0] in items;
    }
  }

  /** The symmetric difference does not depend on which list comes first. */
  lemma SymDiffSwapped(am: map<Bytes, Word>, bm: map<Bytes, Word>, items: seq<Word>)
    requires SymDiffOf(am, bm, items)
    ensures SymDiffOf(bm, am, items)
  {
  }

  /**
   * `sym-diff`: when one list is empty, the other as it is; otherwise the
   * last word of each serialisation found in exactly one list, in map order.
   */
  method SymDiff(vm: nat, args: seq<Word>) returns (r: Out<Word>)
    ensures |args| != 2 ==> r == Unwound(BadArgs(vm, "sym-diff", "list1 list2", args))
    ensures |args| == 2 && ListOrElse(vm, args[0]).Unwound? ==> r == Unwound(ListOrElse(vm, args[0]).u)
    ensures |args| == 2 && ListOrElse(vm, args[0]).Done? && ListOrElse(vm, args[1]).Unwound? ==> r == Unwound(ListOrElse(vm, args[1]).u)
    ensures |args| == 2 && ListOrElse(vm, args[0]).Done? && ListOrElse(vm, args[1]).Done? ==>
      var a, b := ListOrElse(vm, args[0]).value, ListOrElse(vm, args[1]).value;
      (a == [] ==> r == Done(List(b))) &&
      (a != [] && b == [] ==> r == Done(List(a))) &&
      (a != [] && b != [] ==> r.Done? && r.value.List? && SymDiffOf(LastBySer(a), LastBySer(b), r.value.items))
  {
    if |args| != 2 {
      return Unwound(BadArgs(vm, "sym-diff", "list1 list2", args));
    }
    var la := ListOrElse(vm, args[0]);
    if la.Unwound? {
      return Unwound(la.u);
    }
    var lb := ListOrElse(vm, args[1]);
    if lb.Unwound? {
      return Unwound(lb.u);
    }
    var a, b := la.value, lb.value;
    if a == [] {
      return Done(List(b));
    }
    if b == [] {
      return Done(List(a));
    }
    var am := BySer(a);
    var bm := BySer(b);
    LastBySerBinds(a);
    LastBySerBinds(b);
    var out, rest := OnlyLeft(am, bm);
    out := OnlyRight(am, bm, rest, out);
    return Done(List(out));
  }

  /** The loop filling a Go map from serialisations to words. */
  method BySer(xs: seq<Word>) returns (m: map<Bytes, Word>)
    ensures m == LastBySer(xs)
  {
    m := map[];
    var i := 0;
    while i < |xs|
      invariant 0 <= i <= |xs|
      invariant m == LastBySer(xs[..i])
    {
      assert xs[..i + 1][..i] == xs[..i];
      m := m[Ser(xs[i]) := xs[i]];
      i := i + 1;
    }
    assert xs[..i] == xs;
  }

  /** The first loop of `sym-diff`: the words of keys only on the left, and the right map without the common keys. */
  method OnlyLeft(am: map<Bytes, Word>, bm: map<Bytes, Word>) returns (out: seq<Word>, rest: map<Bytes, Word>)
    requires forall k | k in am :: Ser(am[k]) == k
    ensures rest.Keys == bm.Keys - am.Keys && forall k | k in rest :: rest[k] == bm[k]
    ensures forall i, j | 0 <= i < j < |out| :: Ser(out[i]) != Ser(out[j])
    ensures forall w | w in out :: Ser(w) in am && Ser(w) !in bm && w == am[Ser(w)]
    ensures forall k | k in am && k !in bm :: am[k] in out
  {
    out := [];
    rest := bm;
    var keys := am.Keys;
    while keys != {}
      invariant keys <= am.Keys
      invariant rest.Keys == bm.Keys - (am.Keys - keys) && forall k | k in rest :: rest[k] == bm[k]
      invariant forall i, j | 0 <= i < j < |out| :: Ser(out[i]) != Ser(out[j])
      invariant forall w | w in out :: Ser(w) in am.Keys - keys && Ser(w) !in bm && w == am[Ser(w)]
      invariant forall k | k in am.Keys - keys && k !in bm :: am[k] in out
      decreases |keys|
    {
      var k :| k in keys;
      out, rest := LeftStep(am, bm, keys, k, out, rest);
      keys := keys - {k};
    }
  }

  /** One round of the first loop of `sym-diff`, for the key `k` not yet visited. */
  method LeftStep(am: map<Bytes, Word>, bm: map<Bytes, Word>, keys: set<Bytes>, key: Bytes, out: seq<Word>, rest: map<Bytes, Word>)
    returns (out': seq<Word>, rest': map<Bytes, Word>)
    requires forall k | k in am :: Ser(am[k]) == k
    requires key in keys && keys <= am.Keys
    requires rest.Keys == bm.Keys - (am.Keys - keys) && forall k | k in rest :: rest[k] == bm[k]
    requires forall i, j | 0 <= i < j < |out| :: Ser(out[i]) != Ser(out[j])
    requires forall w | w in out :: Ser(w) in am.Keys - keys && Ser(w) !in bm && w == am[Ser(w)]
    requires forall k | k in am.Keys - keys && k !in bm :: am[k] in out
    ensures rest'.Keys == bm.Keys - (am.Keys - (keys - {key})) && forall k | k in rest' :: rest'[k] == bm[k]
    ensures forall i, j | 0 <= i < j < |out'| :: Ser(out'[i]) != Ser(out'[j])
    ensures forall w | w in out' :: Ser(w) in am.Keys - (keys - {key}) && Ser(w) !in bm && w == am[Ser(w)]
    ensures forall k | k in am.Keys - (keys - {key}) && k !in bm :: am[k] in out'
  {
    out', rest' := out, rest;
    if key in rest {
      rest' := rest - {key};
    } else {
      out' := out + [am[key]];
    }
  }

  /** The second loop of `sym-diff`: the words of the keys left in the right map, after those of the first loop. */
  method OnlyRight(am: map<Bytes, Word>, bm: map<Bytes, Word>, rest: map<Bytes, Word>, left: seq<Word>) returns (out: seq<Word>)
    requires forall k | k in bm :: Ser(bm[k]) == k
    requires rest.Keys == bm.Keys - am.Keys && forall k | k in rest :: rest[k] == bm[k]
    requires forall i, j | 0 <= i < j < |left| :: Ser(left[i]) != Ser(left[j])
    requires forall w | w in left :: Ser(w) in am && Ser(w) !in bm && w == am[Ser(w)]
    requires forall k | k in am && k !in bm :: am[k] in left
    ensures SymDiffOf(am, bm, out)
  {
    var right := ValuesOf(rest);
    SymDiffJoin(am, bm, rest, left, right);
    return left + right;
  }

  /** The values of a map whose words print as their keys, each once, in any order. */
  method ValuesOf(m: map<Bytes, Word>) returns (out: seq<Word>)
    requires forall k | k in m :: Ser(m[k]) == k
    ensures forall i, j | 0 <= i < j < |out| :: Ser(out[i]) != Ser(out[j])
    ensures forall w | w in out :: Ser(w) in m && w == m[Ser(w)]
    ensures forall k | k in m :: m[k] in out
  {
    out := [];
    var keys := m.Keys;
    while keys != {}
      invariant keys <= m.Keys
      invariant forall i, j | 0 <= i < j < |out| :: Ser(out[i]) != Ser(out[j])
      invariant forall w | w in out :: Ser(w) in m.Keys - keys && w == m[Ser(w)]
      invariant forall k | k in m.Keys - keys :: m[k] in out
      decreases |keys|
    {
      var k :| k in keys;
      keys := keys - {k};
      out := out + [m[k]];
    }
  }

  /** The words of the first loop followed by those of the second are the symmetric difference. */
  lemma SymDiffJoin(am: map<Bytes, Word>, bm: map<Bytes, Word>, rest: map<Bytes, Word>, left: seq<Word>, right: seq<Word>)
    requires rest.Keys == bm.Keys - am.Keys && forall k | k in rest :: rest[k] == bm[k]
    requires forall i, j | 0 <= i < j < |left| :: Ser(left[i]) != Ser(left[j])
    requires forall w | w in left :: Ser(w) in am && Ser(w) !in bm && w == am[Ser(w)]
    requires forall k | k in am && k !in bm :: am[k] in left
    requires forall i, j | 0 <= i < j < |right| :: Ser(right[i]) != Ser(right[j])
    requires forall w | w in right :: Ser(w) in rest && w == rest[Ser(w)]
    requires forall k | k in rest :: rest[k] in right
    ensures SymDiffOf(am, bm, left + right)
  {
    var out := left + right;
    forall i, j | 0 <= i < j < |out|
      ensures Ser(out[i]) != Ser(out[j])
    {
      if i < |left| && j >= |left| {
        assert out[i] in left && out[j] == right[j - |left|] && out[j] in right;
      } else if i >= |left| {
        assert out[i] == right[i - |left|] && out[j] == right[j - |left|];
      }
    }
    forall w | w in out
      ensures (Ser(w) in am && Ser(w) !in bm && w == am[Ser(w)]) || (Ser(w) in bm && Ser(w) !in am && w == bm[Ser(w)])
    {
      assert w in left || w in right;
    }
  }

  // -------------------------------------------------------------------
  // subseq?

  /** `b` matches, word by word with `Equals`, the run of `a` starting at `i`. */
  predicate MatchAt(a: seq<Word>, b: seq<Word>, i: nat)
  {
    i + |b| <= |a| && forall k | 0 <= k < |b| :: Equals(a[i + k], b[k])
  }

  /** `b` is a contiguous run of `a`. */
  predicate Occurs(a: seq<Word>, b: seq<Word>)
  {
    exists i: nat | i <= |a| :: MatchAt(a, b, i)
  }

  /**
   * list.go `Subseqp`'s loop as written, from position `i` of `a` and `j`
   * of `b`: the loop runs while `j < |a|` rather than `i < |a|`, after a
   * mismatch it retries `b` from the next position only, and running off
   * either list is a Go panic.
   */
  function SubseqScan(a: seq<Word>, b: seq<Word>, i: nat, j: nat): (r: Out<bool>)
    decreases |a| - i
  {
    if |a| <= j then Unwound(Panicked(GoPanic))
    else if |a| <= i || |b| <= j then Unwound(Panicked(GoPanic))
    else if Equals(a[i], b[j]) then
      if j + 1 == |b| then Done(true) else SubseqScan(a, b, i + 1, j + 1)
    else if |a| - i < |b| then Done(false)
    else SubseqScan(a, b, i + 1, 0)
  }

  /** `subseq?` as written, once both lists are read. */
  function SubseqAsWritten(a: seq<Word>, b: seq<Word>): Out<bool>
  {
    if |a| < |b| then Done(false) else SubseqScan(a, b, 0, 0)
  }

  /** As written, a partial match hides a match that starts inside it: `a b` is not found in `a a b`. */
  lemma SubseqMissesRetry()
    ensures SubseqAsWritten([Sym("a"), Sym("a"), Sym("b")], [Sym("a"), Sym("b")]) == Done(false)
    ensures Occurs([Sym("a"), Sym("a"), Sym("b")], [Sym("a"), Sym("b")])
  {
    assert MatchAt([Sym("a"), Sym("a"), Sym("b")], [Sym("a"), Sym("b")], 1);
  }

  /** As written, a one-word list that is not found runs off the end of the first list. */
  lemma SubseqOverruns()
    ensures SubseqAsWritten([Sym("b")], [Sym("a")]) == Unwound(Panicked(GoPanic))
    ensures !Occurs([Sym("b")], [Sym("a")])
  {
    assert Ser(Sym("a")) == "a" != "b";
    assert !Equals([Sym("b")][0 + 0], [Sym("a")][0]);
    assert !MatchAt([Sym("b")], [Sym("a")], 0);
  }

  /** As written, the empty list is a sub-sequence of nothing: asking always panics. */
  lemma SubseqOfEmptyPanics(a: seq<Word>)
    ensures SubseqAsWritten(a, []) == Unwound(Panicked(GoPanic))
    ensures Occurs(a, [])
  {
    assert MatchAt(a, [], 0);
  }

  /** The empty list occurs everywhere; nothing longer than a list occurs in it. */
  lemma OccursBounds(a: seq<Word>, b: seq<Word>)
    ensures Occurs(a, [])
    ensures |a| < |b| ==> !Occurs(a, b)
  {
    assert MatchAt(a, [], 0);
  }

  /** A list whose words equal themselves occurs wherever it is spliced in. */
  lemma OccursInside(p: seq<Word>, b: seq<Word>, q: seq<Word>)
    requires forall k | 0 <= k < |b| :: Equals(b[k], b[k])
    ensures Occurs(p + b + q, b)
  {
    var a := p + b + q;
    forall k | 0 <= k < |b|
      ensures Equals(a[|p| + k], b[k])
    {
      assert a[|p| + k] == b[k];
    }
    assert MatchAt(a, b, |p|);
  }

  /** `subseq? list1 list2`: whether list2 is a contiguous run of list1. */
  method Subseqp(vm: nat, args: seq<Word>) returns (r: Out<Word>)
    ensures |args| != 2 ==> r == Unwound(BadArgs(vm, "subseq?", "list1 list2", args))
    ensures |args| == 2 && ListOrElse(vm, args[0]).Unwound? ==> r == Unwound(ListOrElse(vm, args[0]).u)
    ensures |args| == 2 && ListOrElse(vm, args[0]).Done? && ListOrElse(vm, args[1]).Unwound? ==> r == Unwound(ListOrElse(vm, args[1]).u)
    ensures |args| == 2 && ListOrElse(vm, args[0]).Done? && ListOrElse(vm, args[1]).Done? ==>
      r == Done(ToBool(Occurs(ListOrElse(vm, args[0]).value, ListOrElse(vm, args[1]).value)))
  {
    if |args| != 2 {
      return Unwound(BadArgs(vm, "subseq?", "list1 list2", args));
    }
    var la := ListOrElse(vm, args[0]);
    if la.Unwound? {
      return Unwound(la.u);
    }
    var lb := ListOrElse(vm, args[1]);
    if lb.Unwound? {
      return Unwound(lb.u);
    }
    var found := Search(la.value, lb.value);
    return Done(ToBool(found));
  }

  /** The loop of `subseq?`: `b` tried at each position of `a` in turn. */
  method Search(a: seq<Word>, b: seq<Word>) returns (found: bool)
    ensures found == Occurs(a, b)
  {
    if |a| < |b| {
      OccursBounds(a, b);
      return false;
    }
    var i := 0;
    while i + |b| <= |a|
      invariant i <= |a| - |b| + 1
      invariant forall t: nat | t < i :: !MatchAt(a, b, t)
    {
      var here := RunMatches(a, b, i);
      if here {
        return true;
      }
      i := i + 1;
    }
    return false;
  }

  /** Whether `b` matches the run of `a` at `i`, word by word. */
  method RunMatches(a: seq<Word>, b: seq<Word>, i: nat) returns (m: bool)
    requires i + |b| <= |a|
    ensures m == MatchAt(a, b, i)
  {
    var k := 0;
    while k < |b|
      invariant k <= |b|
      invariant forall t | 0 <= t < k :: Equals(a[i + t], b[t])
    {
      if !Equals(a[i + k], b[k]) {
        return false;
      }
      k := k + 1;
    }
    return true;
  }

  // -------------------------------------------------------------------
  // subset?

  lemma SerSetSnoc(xs: seq<Word>, x: Word)
    ensures SerSet(xs + [x]) == SerSet(xs) + {Ser(x)}
  {
    assert forall w | w in xs + [x] :: w in xs || w == x;
  }

  /** Whether one list is a subset of another does not depend on repeated words. */
  lemma SubsetIgnoresRepeats(a: seq<Word>, b: seq<Word>)
    ensures (SerSet(b) <= SerSet(a)) == (SerSet(Kept(b, {})) <= SerSet(Kept(a, {})))
  {
    KeptSers(a, {});
    KeptSers(b, {});
  }

  /** `subset? list1 list2`: whether every word of list2 prints as some word of list1. */
  method Subsetp(vm: nat, args: seq<Word>) returns (r: Out<Word>)
    ensures |args| != 2 ==> r == Unwound(BadArgs(vm, "subset?", "list1 list2", args))
    ensures |args| == 2 && ListOrElse(vm, args[0]).Unwound? ==> r == Unwound(ListOrElse(vm, args[0]).u)
    ensures |args| == 2 && ListOrElse(vm, args[0]).Done? && ListOrElse(vm, args[1]).Unwound? ==> r == Unwound(ListOrElse(vm, args[1]).u)
    ensures |args| == 2 && ListOrElse(vm, args[0]).Done? && ListOrElse(vm, args[1]).Done? ==>
      r == Done(ToBool(SerSet(ListOrElse(vm, args[1]).value) <= SerSet(ListOrElse(vm, args[0]).value)))
  {
    if |args| != 2 {
      return Unwound(BadArgs(vm, "subset?", "list1 list2", args));
    }
    var la := ListOrElse(vm, args[0]);
    if la.Unwound? {
      return Unwound(la.u);
    }
    var lb := ListOrElse(vm, args[1]);
    if lb.Unwound? {
      return Unwound(lb.u);
    }
    var m := SersOf(la.value);
    var all := AllIn(lb.value, m);
    return Done(ToBool(all));
  }

  /** The first loop of `subset?`: the serialisations of a list, as a Go map to `true`. */
  method SersOf(a: seq<Word>) returns (m: set<Bytes>)
    ensures m == SerSet(a)
  {
    m := {};
    var i := 0;
    while i < |a|
      invariant i <= |a|
      invariant m == SerSet(a[..i])
    {
      SerSetSnoc(a[..i], a[i]);
      assert a[..i + 1] == a[..i] + [a[i]];
      m := m + {Ser(a[i])};
      i := i + 1;
    }
    assert a[..i] == a;
  }

  /** The second loop of `subset?`: whether every word of `b` prints as a member of `m`. */
  method AllIn(b: seq<Word>, m: set<Bytes>) returns (all: bool)
    ensures all == (SerSet(b) <= m)
  {
    var j := 0;
    while j < |b|
      invariant j <= |b|
      invariant forall t | 0 <= t < j :: Ser(b[t]) in m
    {
      if Ser(b[j]) !in m {
        assert b[j] in b;
        return false;
      }
      j := j + 1;
    }
    assert forall w | w in b :: exists t :: 0 <= t < |b| && b[t] == w;
    return true;
  }

  // -------------------------------------------------------------------
  // make-list

  /** The length `make-list` reads: a whole number of at least 1, or a TypeMismatch. */
  function ListLength(vm: nat, num: Syntax.NumReader, length: Word): (r: Out<int>)
    ensures r.Done? ==> r.value >= 1
  {
    match NumberOrElse(vm, num, length)
    case Unwound(u) => Unwound(u)
    case Done(f) =>
      match FloatInt(f)
      case Some(n) => if n < 1 then Unwound(Panicked(TypeMismatch(Some(vm), FStr("nonzero positive integer"), FStr("number")))) else Done(n)
      case None => Unwound(Panicked(TypeMismatch(Some(vm), FStr("nonzero positive integer"), FStr("number"))))
  }

  /** list.go `Make_list` as written: its loop counts from 1, so it makes one copy fewer than asked for. */
  function MakeListAsWritten(vm: nat, num: Syntax.NumReader, length: Word, zero: Word): Out<Word>
  {
    match ListLength(vm, num, length)
    case Unwound(u) => Unwound(u)
    case Done(n) => Done(List(seq(n - 1, _ => Copy(zero))))
  }

  /** As written, `make-list 1 with x` makes the empty list. */
  lemma MakeListShortAsWritten(vm: nat, num: Syntax.NumReader, zero: Word)
    ensures ListLength(vm, num, Num(1)) == Done(1)
    ensures MakeListAsWritten(vm, num, Num(1), zero) == Done(EmptyList)
  {
    assert seq(0, _ => Copy(zero)) == [];
  }

  /**
   * `make-list length 'long 'with zero-value`, given the words the argument
   * parser bound to `length` and `zero-value`: a list of `length` copies of
   * the zero value.
   */
  method MakeList(vm: nat, num: Syntax.NumReader, length: Word, zero: Word) returns (r: Out<Word>)
    ensures ListLength(vm, num, length).Unwound? ==> r == Unwound(ListLength(vm, num, length).u)
    ensures ListLength(vm, num, length).Done? ==>
      r.Done? && r.value.List? && |r.value.items| == ListLength(vm, num, length).value &&
      forall k | 0 <= k < |r.value.items| :: r.value.items[k] == Copy(zero)
  {
    var n := ListLength(vm, num, length);
    if n.Unwound? {
      return Unwound(n.u);
    }
    var out: seq<Word> := [];
    var i := 0;
    while i < n.value
      invariant 0 <= i <= n.value
      invariant |out| == i && forall k | 0 <= k < i :: out[k] == Copy(zero)
    {
      out := out + [Copy(zero)];
      i := i + 1;
    }
    return Done(List(out));
  }

  /** Every item of a made list prints and compares as the zero value does. */
  lemma MadeItemsLikeZero(zero: Word, w: Word)
    requires w == Copy(zero)
    ensures Ser(w) == Ser(zero) && (forall x :: Equals(w, x) == Equals(zero, x))
  {
    CopyProperties(zero);
  }
}
