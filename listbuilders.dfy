/**
 * The list builders: a `head`/`tail` pair of pointers into a chain of list
 * cells, grown at either end.  The chain reachable from `head` is modelled
 * by the sequence `items`; `tailSet` records whether `tail` points at the
 * last cell (it is either that or nil).  Go's nil dereference, which happens
 * when a cell is appended while `head` is set but `tail` is nil, is a
 * `crashed` result that leaves the builder unchanged.
 *
 * `Builder` is the `_builder` of src/gelo/listbuilder.go and of
 * src/gelo/extensions/listbuilder.go (the same code; only the latter has
 * `Destroy`); `CountingBuilder` is `LBuilder` of extensions/listbuilder.go,
 * which also keeps a counter `n`.
 */
module ListBuilders {
  import opened Words

  class Builder {
    var items: seq<Word>
    var tailSet: bool

    /** `tail` is nil or the last cell, and it is nil while there are no cells. */
    ghost predicate Valid()
      reads this
    {
      tailSet ==> items != []
    }

    /** `head` is set but `tail` is nil: appending dereferences nil. */
    predicate Broken()
      reads this
    {
      items != [] && !tailSet
    }

    /** `ListBuilder(start...)`. */
    constructor(start: seq<Word>)
      ensures Valid() && items == start && tailSet == (start != [])
    {
      items, tailSet := [], false;
      new;
      var i := 0;
      while i < |start|
        invariant 0 <= i <= |start|
        invariant Valid() && items == start[..i] && tailSet == (i > 0)
      {
        var crashed := Push(start[i]);
        i := i + 1;
      }
    }

    /** `List`: the chain from `head`. */
    method List() returns (r: seq<Word>)
      ensures r == items
    {
      r := items;
    }

    /** `Push` (`_add`): a new last cell, or a nil dereference when the builder is broken. */
    method Push(w: Word) returns (crashed: bool)
      requires Valid()
      modifies this
      ensures Valid()
      ensures crashed <==> old(Broken())
      ensures crashed ==> items == old(items) && tailSet == old(tailSet)
      ensures !crashed ==> items == old(items) + [w] && tailSet
    {
      if items != [] {
        if !tailSet {
          return true;
        }
        items := items + [w];
      } else {
        items, tailSet := [w], true;
      }
      return false;
    }

    /** `PushFront`: a new first cell; `tail` is left as it was, nil on an empty builder. */
    method PushFront(w: Word)
      requires Valid()
      modifies this
      ensures Valid()
      ensures items == [w] + old(items) && tailSet == old(tailSet)
    {
      items := [w] + items;
    }

    /** `Extend`: appends a new cell for each element of `l`, in order. */
    method Extend(l: seq<Word>) returns (crashed: bool)
      requires Valid()
      modifies this
      ensures Valid()
      ensures crashed <==> l != [] && old(Broken())
      ensures crashed ==> items == old(items) && tailSet == old(tailSet)
      ensures !crashed ==> items == old(items) + l && tailSet == (old(tailSet) || l != [])
    {
      var i := 0;
      while i < |l|
        invariant 0 <= i <= |l|
        invariant Valid()
        invariant i > 0 ==> items == old(items) + l[..i] && tailSet && !old(Broken())
        invariant i == 0 ==> items == old(items) && tailSet == old(tailSet)
      {
        crashed := Push(l[i]);
        if crashed {
          return;
        }
        i := i + 1;
      }
      assert l[..i] == l;
      crashed := false;
    }

    /** `ExtendFront`: `l`'s cells come first, its last cell relinked to the old head; `tail` is untouched. */
    method ExtendFront(l: seq<Word>)
      requires Valid()
      modifies this
      ensures Valid()
      ensures items == l + old(items) && tailSet == old(tailSet)
    {
      if l == [] {
        return;
      }
      items := l + items;
    }

    /** `Destroy` (extensions variant): clears `head` and `tail`. */
    method Destroy()
      modifies this
      ensures Valid() && items == [] && !tailSet
    {
      items, tailSet := [], false;
    }
  }

  /**
   * After `PushFront` on an empty builder, `tail` is still nil, so the next
   * `Push` dereferences it.
   */
  method PushAfterFrontPush(x: Word, y: Word) returns (crashed: bool)
    ensures crashed
  {
    var b := new Builder([]);
    b.PushFront(x);
    crashed := b.Push(y);
  }

  /** The same happens after `ExtendFront` of a non-empty list on an empty builder. */
  method ExtendAfterFrontExtend(l: seq<Word>, m: seq<Word>) returns (crashed: bool)
    requires l != [] && m != []
    ensures crashed
  {
    var b := new Builder([]);
    b.ExtendFront(l);
    crashed := b.Extend(m);
  }

  /** A builder that is only ever pushed at the back keeps `tail` on the last cell. */
  method PushedInOrder(start: seq<Word>, more: seq<Word>) returns (r: seq<Word>, crashed: bool)
    ensures !crashed && r == start + more
  {
    var b := new Builder(start);
    crashed := b.Extend(more);
    r := b.List();
  }

  /** `LBuilder`: a builder that also counts the cells it added in `n`. */
  class CountingBuilder {
    var items: seq<Word>
    var tailSet: bool
    var n: int

    ghost predicate Valid()
      reads this
    {
      tailSet ==> items != []
    }

    predicate Broken()
      reads this
    {
      items != [] && !tailSet
    }

    /** `Len` agrees with the number of cells. */
    predicate Counted()
      reads this
    {
      n == |items|
    }

    constructor(start: seq<Word>)
      ensures Valid() && Counted()
      ensures items == start && tailSet == (start != []) && n == |start|
    {
      items, tailSet, n := [], false, 0;
      new;
      var i := 0;
      while i < |start|
        invariant 0 <= i <= |start|
        invariant Valid() && items == start[..i] && tailSet == (i > 0) && n == i
      {
        var crashed := Push(start[i]);
        i := i + 1;
      }
    }

    method List() returns (r: seq<Word>)
      ensures r == items
    {
      r := items;
    }

    /** `Len`: the counter, which is not recomputed from the cells. */
    method Len() returns (r: int)
      ensures r == n
      ensures Counted() ==> r == |items|
    {
      r := n;
    }

    /** `Push` (`_add`): one more cell and one more count, unless the nil `tail` is dereferenced first. */
    method Push(w: Word) returns (crashed: bool)
      requires Valid()
      modifies this
      ensures Valid()
      ensures crashed <==> old(Broken())
      ensures crashed ==> items == old(items) && tailSet == old(tailSet) && n == old(n)
      ensures !crashed ==> items == old(items) + [w] && tailSet && n == old(n) + 1
      ensures !crashed ==> (Counted() <==> old(Counted()))
    {
      if items != [] {
        if !tailSet {
          return true;
        }
        items := items + [w];
      } else {
        items, tailSet := [w], true;
      }
      n := n + 1;
      return false;
    }

    method PushFront(w: Word)
      requires Valid()
      modifies this
      ensures Valid()
      ensures items == [w] + old(items) && tailSet == old(tailSet) && n == old(n) + 1
      ensures Counted() <==> old(Counted())
    {
      items := [w] + items;
      n := n + 1;
    }

    method Extend(l: seq<Word>) returns (crashed: bool)
      requires Valid()
      modifies this
      ensures Valid()
      ensures crashed <==> l != [] && old(Broken())
      ensures crashed ==> items == old(items) && tailSet == old(tailSet) && n == old(n)
      ensures !crashed ==> items == old(items) + l && tailSet == (old(tailSet) || l != []) && n == old(n) + |l|
      ensures !crashed ==> (Counted() <==> old(Counted()))
    {
      var i := 0;
      while i < |l|
        invariant 0 <= i <= |l|
        invariant Valid()
        invariant i > 0 ==> items == old(items) + l[..i] && tailSet && n == old(n) + i && !old(Broken())
        invariant i == 0 ==> items == old(items) && tailSet == old(tailSet) && n == old(n)
      {
        crashed := Push(l[i]);
        if crashed {
          return;
        }
        i := i + 1;
      }
      assert l[..i] == l;
      crashed := false;
    }

    /**
     * `ExtendFront`: `l`'s cells come first, but the counting loop stops at
     * `l`'s last cell, so `n` grows by one less than the number of cells added.
     */
    method ExtendFront(l: seq<Word>)
      requires Valid()
      modifies this
      ensures Valid()
      ensures items == l + old(items) && tailSet == old(tailSet)
      ensures l == [] ==> n == old(n)
      ensures l != [] ==> n == old(n) + |l| - 1
      ensures old(Counted()) && l != [] ==> n == |items| - 1
    {
      if l == [] {
        return;
      }
      var i := 0;
      while i + 1 < |l|
        invariant 0 <= i < |l|
        invariant items == old(items) && tailSet == old(tailSet) && n == old(n) + i
      {
        n := n + 1;
        i := i + 1;
      }
      items := l + items;
    }

    /** `Destroy`: clears `head` and `tail` but leaves the counter. */
    method Destroy()
      modifies this
      ensures Valid() && items == [] && !tailSet && n == old(n)
    {
      items, tailSet := [], false;
    }
  }

  /** `Len` still reports the old count after `Destroy`. */
  method LenAfterDestroy(start: seq<Word>) returns (len: int, cells: seq<Word>)
    ensures len == |start| && cells == []
  {
    var b := new CountingBuilder(start);
    b.Destroy();
    len := b.Len();
    cells := b.List();
  }
}
