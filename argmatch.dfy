/**
 * extensions/argparse.go, the matching half: the matcher combinators a
 * compiled spec is made of, the closure `MakeArgParser` returns, which
 * builds the bindings from a match, and `MakeOrElseArgParser`; then the
 * two commands of commands/argparse.go.
 *
 * A match's `_kv` chain is a sequence of pairs with a flag saying whether
 * its tail pointer is set; the argument list is a sequence and a position
 * in it, the end standing for Go's nil list.  `pp.l`, the set of keys to
 * be bound to lists, is threaded through every attempt, failed ones
 * included, as the source leaves it.
 */
module ArgMatch {
  import opened Base
  import opened Words
  import opened Errors
  import opened Machine
  import opened Api
  import opened ArgSpec

  /** A `_kv`: the name bound and the word bound to it. */
  datatype Pair = Pair(key: Bytes, val: Word)

  /**
   * A `*_match`: its pairs from `head` along the `next` links, whether
   * `tail` is set, and where the arguments continue (`|args|` for nil).
   */
  datatype Matched = Matched(kvs: seq<Pair>, linked: bool, cont: nat)

  /** A chain being built by `seq` or `*`: its pairs and whether `tail` is set. */
  datatype Chain = Chain(kvs: seq<Pair>, linked: bool)

  /**
   * What a `match` call comes to: `(false, nil)`, `(true, m)` with `m`
   * possibly nil, a loop that never ends, or a nil dereference.
   */
  datatype Tried = NoMatch | Matches(found: Option<Matched>) | Loops | Panics

  /** An attempt's outcome together with `pp.l` after it. */
  datatype Trial = Trial(t: Tried, marks: set<Bytes>)

  // -------------------------------------------------------------------
  // What a match records

  /** A pair records the argument it consumed: a variable binds it, a literal names it and binds Null. */
  predicate Took(a: Word, p: Pair)
  {
    p.val == a || (p.val == Null && Ser(a) == p.key)
  }

  /** The pairs record the arguments from `from` on, one each. */
  predicate Records(args: seq<Word>, from: nat, kvs: seq<Pair>)
  {
    from + |kvs| <= |args| && forall j | 0 <= j < |kvs| :: Took(args[from + j], kvs[j])
  }

  /** A match from `at` consumed exactly the arguments its pairs record, and has a tail only when it has pairs. */
  predicate Fits(args: seq<Word>, at: nat, m: Matched)
  {
    at <= m.cont <= |args| && m.cont - at == |m.kvs| && (m.linked ==> m.kvs != []) && Records(args, at, m.kvs)
  }

  /** A chain built up to `at` records the arguments just before it. */
  predicate ChainFits(args: seq<Word>, at: nat, c: Chain)
  {
    |c.kvs| <= at <= |args| && (c.linked ==> c.kvs != []) && Records(args, at - |c.kvs|, c.kvs)
  }

  lemma RecordsJoin(args: seq<Word>, from: nat, a: seq<Pair>, b: seq<Pair>)
    requires Records(args, from, a) && Records(args, from + |a|, b)
    ensures Records(args, from, a + b)
  {
    forall j | 0 <= j < |a + b|
      ensures Took(args[from + j], (a + b)[j])
    {
      if j >= |a| {
        assert (a + b)[j] == b[j - |a|];
      }
    }
  }

  /**
   * `tail.next = m.head; tail = m.tail` of `seq` and `*`, or taking `m`'s
   * ends when the chain is empty; None where `tail` is nil under a
   * non-empty chain, the nil dereference.
   */
  function Link(acc: Chain, m: Matched): (r: Option<Chain>)
    ensures r.Some? <==> acc.kvs == [] || acc.linked
    ensures r.Some? ==> r.value.kvs == acc.kvs + m.kvs && r.value.linked == m.linked
  {
    if acc.kvs == [] then Some(Chain(m.kvs, m.linked))
    else if !acc.linked then None
    else Some(Chain(acc.kvs + m.kvs, m.linked))
  }

  lemma LinkFits(args: seq<Word>, at: nat, acc: Chain, m: Matched)
    requires ChainFits(args, at, acc) && Fits(args, at, m) && Link(acc, m).Some?
    ensures ChainFits(args, m.cont, Link(acc, m).value)
  {
    RecordsJoin(args, at - |acc.kvs|, acc.kvs, m.kvs);
  }

  /** The keys the marking loops of `*` and `+` add to `pp.l`: those that are not literals. */
  function Marked(kvs: seq<Pair>, lits: set<Bytes>): (r: set<Bytes>)
    ensures r !! lits
  {
    set p | p in kvs && p.key !in lits :: p.key
  }

  // -------------------------------------------------------------------
  // The matchers

  /**
   * `match` of each combinator on the arguments from `at`, with the
   * literals `lits` (`pp.s`) and the marks `marks` (`pp.l`) so far.
   */
  function Match(m: Matcher, args: seq<Word>, at: nat, lits: set<Bytes>, marks: set<Bytes>): (r: Trial)
    requires at <= |args|
    ensures marks <= r.marks && r.marks - marks !! lits
    ensures r.t.Matches? && r.t.found.Some? ==> Fits(args, at, r.t.found.value)
    ensures (m.Seq? || m.Alt? || m.Lit? || m.Var? || m.Plus?) && at == |args| ==> r == Trial(NoMatch, marks)
    ensures (m.Maybe? || m.Star?) && at == |args| ==> r == Trial(Matches(None), marks)
    ensures (m.Maybe? || m.Star?) ==> r.t != NoMatch
    ensures (m.Seq? || m.Plus?) && r.t.Matches? ==> r.t.found.Some?
    decreases m, 1
  {
    match m
    case Lit(name) =>
      if at == |args| || Ser(args[at]) != name then Trial(NoMatch, marks)
      else Trial(Matches(Some(Matched([Pair(name, Null)], true, at + 1))), marks)
    case Var(name) =>
      if at == |args| then Trial(NoMatch, marks)
      else Trial(Matches(Some(Matched([Pair(name, args[at])], true, at + 1))), marks)
    case Maybe(p) =>
      if at == |args| then Trial(Matches(None), marks)
      else
        var r := Match(p, args, at, lits, marks);
        if r.t.NoMatch? then Trial(Matches(None), r.marks) else r
    case Star(p) => Starred(p, args, at, lits, marks)
    case Plus(p) =>
      if at == |args| then Trial(NoMatch, marks)
      else Plussed(p, args, at, lits, marks)
    case Seq(parts) =>
      if at == |args| then Trial(NoMatch, marks)
      else SeqFrom(m, 0, args, at, lits, Chain([], false), marks)
    case Alt(parts) =>
      if at == |args| then Trial(NoMatch, marks)
      else AltFrom(m, 0, args, at, lits, marks)
  }

  /** The loop of `seq`: each part in turn, from where the last one left off. */
  function SeqFrom(m: Matcher, i: nat, args: seq<Word>, at: nat, lits: set<Bytes>, acc: Chain, marks: set<Bytes>): (r: Trial)
    requires m.Seq? && i <= |m.parts| && ChainFits(args, at, acc)
    ensures marks <= r.marks && r.marks - marks !! lits
    ensures r.t.Matches? ==> r.t.found.Some? && Fits(args, at - |acc.kvs|, r.t.found.value)
    decreases m, 0, |m.parts| - i
  {
    if i == |m.parts| then Trial(Matches(Some(Matched(acc.kvs, acc.linked, at))), marks)
    else
      var r := Match(m.parts[i], args, at, lits, marks);
      match r.t
      case NoMatch => Trial(NoMatch, r.marks)
      case Loops => r
      case Panics => r
      case Matches(None) => SeqFrom(m, i + 1, args, at, lits, acc, r.marks)
      case Matches(Some(mm)) =>
        match Link(acc, mm)
        case None => Trial(Panics, r.marks)
        case Some(next) =>
          LinkFits(args, at, acc, mm);
          SeqFrom(m, i + 1, args, mm.cont, lits, next, r.marks)
  }

  /** The loop of `alt`: the first part that succeeds with a match, each tried from the same place. */
  function AltFrom(m: Matcher, i: nat, args: seq<Word>, at: nat, lits: set<Bytes>, marks: set<Bytes>): (r: Trial)
    requires m.Alt? && i <= |m.parts| && at <= |args|
    ensures marks <= r.marks && r.marks - marks !! lits
    ensures r.t.Matches? ==> r.t.found.Some? && Fits(args, at, r.t.found.value)
    decreases m, 0, |m.parts| - i
  {
    if i == |m.parts| then Trial(NoMatch, marks)
    else
      var r := Match(m.parts[i], args, at, lits, marks);
      match r.t
      case Matches(Some(_)) => r
      case Loops => r
      case Panics => r
      case _ => AltFrom(m, i + 1, args, at, lits, r.marks)
  }

  /**
   * `*`: nothing at the end of the arguments; otherwise the loop, and
   * when it gathered pairs their non-literal keys are marked as lists.
   */
  function Starred(p: Matcher, args: seq<Word>, at: nat, lits: set<Bytes>, marks: set<Bytes>): (r: Trial)
    requires at <= |args|
    ensures marks <= r.marks && r.marks - marks !! lits
    ensures r.t.Matches? && r.t.found.Some? ==> Fits(args, at, r.t.found.value) && r.t.found.value.kvs != []
    ensures r.t != NoMatch
    ensures at == |args| ==> r == Trial(Matches(None), marks)
    decreases p, 3
  {
    if at == |args| then Trial(Matches(None), marks)
    else
      var r := StarLoop(p, args, at, lits, Chain([], false), marks);
      match r.t
      case Matches(Some(mm)) =>
        if mm.kvs == [] then Trial(Matches(None), r.marks)
        else Trial(r.t, r.marks + Marked(mm.kvs, lits))
      case _ => r
  }

  /**
   * The loop of `*`, until the arguments run out or `p` fails.  A step
   * that consumes nothing repeats for ever with the same outcome: it
   * loops while the chain is empty, and dereferences the nil tail its
   * empty match left once the chain is not.
   */
  function StarLoop(p: Matcher, args: seq<Word>, at: nat, lits: set<Bytes>, acc: Chain, marks: set<Bytes>): (r: Trial)
    requires ChainFits(args, at, acc)
    ensures marks <= r.marks && r.marks - marks !! lits
    ensures r.t.Matches? ==> r.t.found.Some? && Fits(args, at - |acc.kvs|, r.t.found.value)
    ensures r.t.Matches? ==> |acc.kvs| <= |r.t.found.value.kvs|
    ensures r.t != NoMatch
    decreases p, 2, |args| - at, 1
  {
    if at == |args| then Trial(Matches(Some(Matched(acc.kvs, acc.linked, at))), marks)
    else StarRound(p, args, at, lits, acc, Match(p, args, at, lits, marks))
  }

  /**
   * One round of the loop of `*`, given what `p` made of the arguments
   * from `at`: the chain ends where `p` does not match, grows by its match
   * and goes on, or the loop hangs or dereferences nil.
   */
  function StarRound(p: Matcher, args: seq<Word>, at: nat, lits: set<Bytes>, acc: Chain, r: Trial): (s: Trial)
    requires at < |args| && ChainFits(args, at, acc)
    requires r.t.Matches? && r.t.found.Some? ==> Fits(args, at, r.t.found.value)
    ensures r.marks <= s.marks && s.marks - r.marks !! lits
    ensures s.t.Matches? ==> s.t.found.Some? && Fits(args, at - |acc.kvs|, s.t.found.value)
    ensures s.t.Matches? ==> |acc.kvs| <= |s.t.found.value.kvs|
    ensures s.t != NoMatch
    decreases p, 2, |args| - at, 0
  {
    match r.t
    case NoMatch => Trial(Matches(Some(Matched(acc.kvs, acc.linked, at))), r.marks)
    case Loops => r
    case Panics => r
    case Matches(None) => Trial(Loops, r.marks)
    case Matches(Some(mm)) =>
      match Link(acc, mm)
      case None => Trial(Panics, r.marks)
      case Some(next) =>
        if mm.cont == at then
          (if next.kvs == [] then Trial(Loops, r.marks) else Trial(Panics, r.marks))
        else
          LinkFits(args, at, acc, mm);
          StarLoop(p, args, mm.cont, lits, next, r.marks)
  }

  /**
   * `+`: one match of `p`, then `*` of `p` from where it stopped, linked
   * on through the first match's tail; the keys are marked as lists.
   * A success of `p` without a match dereferences nil.
   */
  function Plussed(p: Matcher, args: seq<Word>, at: nat, lits: set<Bytes>, marks: set<Bytes>): (r: Trial)
    requires at < |args|
    ensures marks <= r.marks && r.marks - marks !! lits
    ensures r.t.Matches? ==> r.t.found.Some? && Fits(args, at, r.t.found.value)
    decreases p, 4
  {
    var r := Match(p, args, at, lits, marks);
    match r.t
    case NoMatch => r
    case Loops => r
    case Panics => r
    case Matches(None) => Trial(Panics, r.marks)
    case Matches(Some(mm)) =>
      var s := Starred(p, args, mm.cont, lits, r.marks);
      match s.t
      case Loops => s
      case Panics => s
      case Matches(None) => Trial(Matches(Some(mm)), s.marks + Marked(mm.kvs, lits))
      case Matches(Some(st)) =>
        if !mm.linked then Trial(Panics, s.marks)
        else
          RecordsJoin(args, at, mm.kvs, st.kvs);
          var joined := Matched(mm.kvs + st.kvs, st.linked, st.cont);
          Trial(Matches(Some(joined)), s.marks + Marked(joined.kvs, lits))
  }

  // -------------------------------------------------------------------
  // The bindings built from a match

  /** The builder's state: `out`, the keys `pp.l` holds, and the keys `repeat` holds a list tail for. */
  datatype Acc = Acc(out: map<Bytes, Word>, lists: set<Bytes>, repeat: set<Bytes>)

  /** A key with a tail in `repeat` is not a literal and is bound to a list in `out`. */
  predicate Coherent(a: Acc, lits: set<Bytes>)
  {
    a.repeat <= a.lists && a.repeat !! lits && forall k | k in a.repeat :: k in a.out && a.out[k].List?
  }

  /**
   * One round of the builder's loop: a literal binds Null; a key marked
   * as a list gets the value appended to its list; a second value of a
   * single key promotes it to a list of both, the second copied.
   */
  function Put(a: Acc, p: Pair, lits: set<Bytes>): (r: Acc)
    requires Coherent(a, lits)
    ensures Coherent(r, lits)
    ensures r.out.Keys == a.out.Keys + {p.key}
    ensures forall k | k != p.key :: (k in r.out ==> r.out[k] == a.out[k]) && (k in r.lists <==> k in a.lists) && (k in r.repeat <==> k in a.repeat)
  {
    var k := p.key;
    if k in lits then a.(out := a.out[k := Null])
    else if k in a.lists then
      if k in a.repeat then a.(out := a.out[k := List(a.out[k].items + [p.val])])
      else Acc(a.out[k := List([p.val])], a.lists, a.repeat + {k})
    else if k in a.out then Acc(a.out[k := List([a.out[k], Copy(p.val)])], a.lists + {k}, a.repeat + {k})
    else a.(out := a.out[k := p.val])
  }

  /** The builder's state after the pairs, starting from the marks the match left in `pp.l`. */
  function Fold(kvs: seq<Pair>, lits: set<Bytes>, marks: set<Bytes>): (r: Acc)
    ensures Coherent(r, lits)
  {
    if kvs == [] then Acc(map[], marks, {})
    else Put(Fold(kvs[..|kvs| - 1], lits, marks), kvs[|kvs| - 1], lits)
  }

  /** The loop of `MakeArgParser`'s closure over the matched pairs. */
  method Collect(kvs: seq<Pair>, lits: set<Bytes>, marks: set<Bytes>) returns (out: map<Bytes, Word>)
    ensures out == Fold(kvs, lits, marks).out
  {
    out := map[];
    var lists, repeat := marks, {};
    for i := 0 to |kvs|
      invariant Acc(out, lists, repeat) == Fold(kvs[..i], lits, marks)
    {
      assert kvs[..i + 1][..i] == kvs[..i];
      var key, val := kvs[i].key, kvs[i].val;
      if key in lits {
        out := out[key := Null];
      } else if key in lists {
        if key in repeat {
          out := out[key := List(out[key].items + [val])];
        } else {
          out := out[key := List([val])];
          repeat := repeat + {key};
        }
      } else if key in out {
        lists := lists + {key};
        out := out[key := List([out[key], Copy(val)])];
        repeat := repeat + {key};
      } else {
        out := out[key := val];
      }
    }
    assert kvs[..|kvs|] == kvs;
  }

  /** The values bound to `k` in the pairs, in order. */
  function ValuesOf(kvs: seq<Pair>, k: Bytes): (vs: seq<Word>)
    ensures |vs| <= |kvs|
  {
    if kvs == [] then []
    else ValuesOf(kvs[..|kvs| - 1], k) + (if kvs[|kvs| - 1].key == k then [kvs[|kvs| - 1].val] else [])
  }

  /**
   * What a key is bound to, given its values in order: Null for a
   * literal, the list of all of them for a key marked as a list, the one
   * value of a single key, and for a key met more than once a list whose
   * second element is copied.
   */
  function Expected(k: Bytes, vs: seq<Word>, lits: set<Bytes>, marks: set<Bytes>): Word
    requires vs != []
  {
    if k in lits then Null
    else if k in marks then List(vs)
    else if |vs| == 1 then vs[0]
    else List([vs[0], Copy(vs[1])] + vs[2..])
  }

  /** The builder's state for one key, in terms of the values that key was given. */
  predicate KeyDescribed(a: Acc, vs: seq<Word>, lits: set<Bytes>, marks: set<Bytes>, k: Bytes)
  {
    (k in a.out <==> vs != []) &&
    (k in a.out ==> a.out[k] == Expected(k, vs, lits, marks)) &&
    (k in a.lists <==> k in marks || (k !in lits && |vs| >= 2)) &&
    (k in a.repeat <==> k !in lits && vs != [] && (k in marks || |vs| >= 2))
  }

  /** The builder's state, key by key. */
  ghost predicate Describes(a: Acc, kvs: seq<Pair>, lits: set<Bytes>, marks: set<Bytes>)
  {
    forall k :: KeyDescribed(a, ValuesOf(kvs, k), lits, marks, k)
  }

  /** Every key of the pairs is bound, as `Expected` says, and no other. */
  lemma {:induction false} FoldDescribes(kvs: seq<Pair>, lits: set<Bytes>, marks: set<Bytes>)
    ensures Describes(Fold(kvs, lits, marks), kvs, lits, marks)
    decreases |kvs|
  {
    if kvs == [] {
      forall k
        ensures KeyDescribed(Fold(kvs, lits, marks), ValuesOf(kvs, k), lits, marks, k)
      {
      }
    } else {
      var init := kvs[..|kvs| - 1];
      var p := kvs[|kvs| - 1];
      FoldDescribes(init, lits, marks);
      var a := Fold(init, lits, marks);
      forall k
        ensures KeyDescribed(Put(a, p, lits), ValuesOf(kvs, k), lits, marks, k)
      {
        assert KeyDescribed(a, ValuesOf(init, k), lits, marks, k);
        if k == p.key {
          PutSameKey(a, ValuesOf(init, k), p, lits, marks);
        } else {
          PutOtherKey(a, ValuesOf(init, k), p, lits, marks, k);
        }
      }
    }
  }

  lemma PutOtherKey(a: Acc, vs: seq<Word>, p: Pair, lits: set<Bytes>, marks: set<Bytes>, k: Bytes)
    requires Coherent(a, lits) && KeyDescribed(a, vs, lits, marks, k) && k != p.key
    ensures KeyDescribed(Put(a, p, lits), vs, lits, marks, k)
  {
  }

  lemma PutSameKey(a: Acc, vs: seq<Word>, p: Pair, lits: set<Bytes>, marks: set<Bytes>)
    requires Coherent(a, lits) && KeyDescribed(a, vs, lits, marks, p.key)
    ensures KeyDescribed(Put(a, p, lits), vs + [p.val], lits, marks, p.key)
  {
    var k := p.key;
    if k !in lits && k !in marks && |vs| >= 2 {
      assert [vs[0], Copy(vs[1])] + vs[2..] + [p.val] == [vs[0], Copy(vs[1])] + (vs + [p.val])[2..];
    }
  }

  /**
   * The bindings, key by key: a literal key is bound to Null, a key marked
   * as a list to all its values in order, a key given once to its value,
   * and a key given twice or more to a list whose second value is a copy.
   */
  lemma Bindings(kvs: seq<Pair>, lits: set<Bytes>, marks: set<Bytes>, k: Bytes)
    ensures var out := Fold(kvs, lits, marks).out;
      var vs := ValuesOf(kvs, k);
      (k in out <==> vs != []) &&
      (vs != [] && k in lits ==> out[k] == Null) &&
      (vs != [] && k !in lits && k in marks ==> out[k] == List(vs)) &&
      (|vs| == 1 && k !in lits && k !in marks ==> out[k] == vs[0]) &&
      (|vs| >= 2 && k !in lits && k !in marks ==> out[k] == List([vs[0], Copy(vs[1])] + vs[2..]))
  {
    FoldDescribes(kvs, lits, marks);
  }

  // -------------------------------------------------------------------
  // The parser closure

  /** What the closure comes to: the bindings, a mismatch, a loop that never ends, or a nil dereference. */
  datatype Verdict = Accepted(out: map<Bytes, Word>) | Rejected | Diverges | Crashed

  /**
   * The closure `MakeArgParser` returns: a blank spec's parser accepts
   * only no arguments (with no bindings); otherwise the match must
   * succeed and consume every argument, and the bindings are built from
   * its pairs with `pp.l` as the match left it.
   */
  function Apply(parser: ArgParser, args: seq<Word>): (r: Verdict)
    ensures parser.NoArgs? ==> (r == Accepted(map[]) <==> args == []) && (r.Accepted? || r.Rejected?)
    ensures parser.Matching? && parser.m.Seq? && args == [] ==> r == Rejected
  {
    match parser
    case NoArgs => if args == [] then Accepted(map[]) else Rejected
    case Matching(m, lits) =>
      var r := Match(m, args, 0, lits, {});
      match r.t
      case NoMatch => Rejected
      case Loops => Diverges
      case Panics => Crashed
      case Matches(None) => Crashed
      case Matches(Some(mm)) => if mm.cont != |args| then Rejected else Accepted(Fold(mm.kvs, lits, r.marks).out)
  }

  /** The closure with its builder loop. */
  method Run(parser: ArgParser, args: seq<Word>) returns (r: Verdict)
    ensures r == Apply(parser, args)
  {
    if parser.NoArgs? {
      return if args == [] then Accepted(map[]) else Rejected;
    }
    var tr := Match(parser.m, args, 0, parser.lits, {});
    if tr.t.NoMatch? {
      return Rejected;
    } else if tr.t.Loops? {
      return Diverges;
    } else if tr.t.Panics? || tr.t.found.None? {
      return Crashed;
    }
    var mm := tr.t.found.value;
    if mm.cont != |args| {
      return Rejected;
    }
    var out := Collect(mm.kvs, parser.lits, tr.marks);
    return Accepted(out);
  }

  /**
   * An accepted argument list was consumed whole: the match's pairs
   * record the arguments one each, in order, and the keys bound are
   * exactly the keys of those pairs.
   */
  lemma AcceptedConsumesAll(m: Matcher, lits: set<Bytes>, args: seq<Word>)
    requires Apply(Matching(m, lits), args).Accepted?
    ensures var tr := Match(m, args, 0, lits, {});
      tr.t.Matches? && tr.t.found.Some? &&
      |tr.t.found.value.kvs| == |args| && Records(args, 0, tr.t.found.value.kvs) &&
      forall k :: k in Apply(Matching(m, lits), args).out <==> ValuesOf(tr.t.found.value.kvs, k) != []
  {
    var tr := Match(m, args, 0, lits, {});
    forall k
      ensures k in Apply(Matching(m, lits), args).out <==> ValuesOf(tr.t.found.value.kvs, k) != []
    {
      Bindings(tr.t.found.value.kvs, lits, tr.marks, k);
    }
  }

  /** The pairs binding `name` to each of `ws`. */
  function Pairs(name: Bytes, ws: seq<Word>): (r: seq<Pair>)
    ensures |r| == |ws| && forall j | 0 <= j < |ws| :: r[j] == Pair(name, ws[j])
  {
    seq(|ws|, j requires 0 <= j < |ws| => Pair(name, ws[j]))
  }

  lemma {:induction false} ValuesOfPairs(name: Bytes, ws: seq<Word>, k: Bytes)
    ensures ValuesOf(Pairs(name, ws), k) == if k == name then ws else []
    decreases |ws|
  {
    if ws != [] {
      var init := ws[..|ws| - 1];
      ValuesOfPairs(name, init, k);
      assert Pairs(name, ws)[..|ws| - 1] == Pairs(name, init);
      assert init + [ws[|ws| - 1]] == ws;
    }
  }

  /** `*` of a variable runs to the end of the arguments, binding each in turn. */
  lemma {:induction false} StarOfVarLoop(name: Bytes, args: seq<Word>, at: nat, marks: set<Bytes>)
    requires at <= |args|
    ensures StarLoop(Var(name), args, at, {}, Chain(Pairs(name, args[..at]), at > 0), marks) ==
      Trial(Matches(Some(Matched(Pairs(name, args), |args| > 0, |args|))), marks)
    decreases |args| - at
  {
    if at == |args| {
      assert args[..at] == args;
    } else {
      StarOfVarStep(name, args, at, marks);
      StarOfVarLoop(name, args, at + 1, marks);
    }
  }

  /** One round of the loop of `name*`: the variable takes the next argument. */
  lemma StarOfVarStep(name: Bytes, args: seq<Word>, at: nat, marks: set<Bytes>)
    requires at < |args|
    ensures StarLoop(Var(name), args, at, {}, Chain(Pairs(name, args[..at]), at > 0), marks) ==
      StarLoop(Var(name), args, at + 1, {}, Chain(Pairs(name, args[..at + 1]), true), marks)
  {
    var acc := Chain(Pairs(name, args[..at]), at > 0);
    var mm := Matched([Pair(name, args[at])], true, at + 1);
    assert Match(Var(name), args, at, {}, marks) == Trial(Matches(Some(mm)), marks);
    assert Pairs(name, args[..at]) + [Pair(name, args[at])] == Pairs(name, args[..at + 1]);
  }

  /** A sequence of one part matches as that part does, when that part finds a match. */
  lemma SeqOfOne(p: Matcher, args: seq<Word>, lits: set<Bytes>, marks: set<Bytes>)
    requires args != [] && Match(p, args, 0, lits, marks).t.Matches? && Match(p, args, 0, lits, marks).t.found.Some?
    ensures Match(Seq([p]), args, 0, lits, marks) == Match(p, args, 0, lits, marks)
  {
    var r := Match(p, args, 0, lits, marks);
    var f := r.t.found.value;
    assert Link(Chain([], false), f) == Some(Chain(f.kvs, f.linked));
    assert SeqFrom(Seq([p]), 1, args, f.cont, lits, Chain(f.kvs, f.linked), r.marks) == r;
  }

  /** The loop of `name*` from the first argument gathers a pair for each. */
  lemma StarOfVarFromStart(name: Bytes, args: seq<Word>)
    requires args != []
    ensures StarLoop(Var(name), args, 0, {}, Chain([], false), {}) == Trial(Matches(Some(Matched(Pairs(name, args), true, |args|))), {})
  {
    StarOfVarLoop(name, args, 0, {});
    assert Pairs(name, args[..0]) == [];
  }

  /** The pairs of one name mark that name, unless it is a literal. */
  lemma MarkedPairs(name: Bytes, args: seq<Word>)
    requires args != []
    ensures Marked(Pairs(name, args), {}) == {name}
  {
    assert Pairs(name, args)[0] == Pair(name, args[0]);
  }

  /** `name*` matches every argument, and marks `name` as a list. */
  lemma StarOfVarMatch(name: Bytes, args: seq<Word>)
    requires args != []
    ensures Match(Star(Var(name)), args, 0, {}, {}) == Trial(Matches(Some(Matched(Pairs(name, args), true, |args|))), {name})
  {
    StarOfVarStarred(name, args);
    MatchStar(Var(name), args, 0, {}, {});
  }

  lemma StarOfVarStarred(name: Bytes, args: seq<Word>)
    requires args != []
    ensures Starred(Var(name), args, 0, {}, {}) == Trial(Matches(Some(Matched(Pairs(name, args), true, |args|))), {name})
  {
    StarOfVarFromStart(name, args);
    MarkedPairs(name, args);
  }

  lemma MatchStar(p: Matcher, args: seq<Word>, at: nat, lits: set<Bytes>, marks: set<Bytes>)
    requires at <= |args|
    ensures Match(Star(p), args, at, lits, marks) == Starred(p, args, at, lits, marks)
  {
  }

  /** The pairs of one list-marked name bind it to the list of their values. */
  lemma MarkedPairsBindList(name: Bytes, args: seq<Word>)
    ensures Fold(Pairs(name, args), {}, {name}).out == if args == [] then map[] else map[name := List(args)]
  {
    var out := Fold(Pairs(name, args), {}, {name}).out;
    forall k
      ensures k in out <==> k == name && args != []
      ensures k in out ==> out[k] == List(args)
    {
      ValuesOfPairs(name, args, k);
      Bindings(Pairs(name, args), {}, {name}, k);
    }
  }

  /**
   * `name*` binds `name` to the list of all the arguments; as written, the
   * sequence around it fails on no arguments, so no arguments are refused.
   */
  lemma StarOfVarCollectsAll(name: Bytes, args: seq<Word>)
    ensures args == [] ==> Apply(Matching(Seq([Star(Var(name))]), {}), args) == Rejected
    ensures args != [] ==> Apply(Matching(Seq([Star(Var(name))]), {}), args) == Accepted(map[name := List(args)])
  {
    if args != [] {
      StarOfVarMatch(name, args);
      SeqOfOne(Star(Var(name)), args, {}, {});
      MarkedPairsBindList(name, args);
    }
  }

  /** A variable given twice is promoted to a list of both values, the second copied. */
  lemma RepeatedVarPromoted(name: Bytes, x: Word, y: Word)
    ensures Apply(Matching(Seq([Var(name), Var(name)]), {}), [x, y]) == Accepted(map[name := List([x, Copy(y)])])
  {
    var m := Seq([Var(name), Var(name)]);
    var args := [x, y];
    var kvs := [Pair(name, x), Pair(name, y)];
    assert Match(Var(name), args, 0, {}, {}) == Trial(Matches(Some(Matched([Pair(name, x)], true, 1))), {});
    assert Match(Var(name), args, 1, {}, {}) == Trial(Matches(Some(Matched([Pair(name, y)], true, 2))), {});
    assert SeqFrom(m, 2, args, 2, {}, Chain(kvs, true), {}) == Trial(Matches(Some(Matched(kvs, true, 2))), {});
    assert [Pair(name, x)] + [Pair(name, y)] == kvs;
    assert SeqFrom(m, 1, args, 1, {}, Chain([Pair(name, x)], true), {}) == Trial(Matches(Some(Matched(kvs, true, 2))), {});
    assert Match(m, args, 0, {}, {}) == Trial(Matches(Some(Matched(kvs, true, 2))), {});
    assert kvs[..1] == [Pair(name, x)];
    assert Fold(kvs[..1], {}, {}) == Acc(map[name := x], {}, {});
    assert Fold(kvs, {}, {}).out == map[name := List([x, Copy(y)])];
  }

  /** A literal binds its name to Null; an argument that does not serialise to it is refused. */
  lemma LiteralBindsNull(name: Bytes, w: Word)
    ensures Ser(w) == name ==> Apply(Matching(Seq([Lit(name)]), {name}), [w]) == Accepted(map[name := Null])
    ensures Ser(w) != name ==> Apply(Matching(Seq([Lit(name)]), {name}), [w]) == Rejected
  {
    if Ser(w) == name {
      LiteralAccepted(name, w);
    } else {
      assert Match(Lit(name), [w], 0, {name}, {}) == Trial(NoMatch, {});
      assert Match(Seq([Lit(name)]), [w], 0, {name}, {}).t == NoMatch;
    }
  }

  /** The matching half of LiteralBindsNull. */
  lemma LiteralAccepted(name: Bytes, w: Word)
    requires Ser(w) == name
    ensures Apply(Matching(Seq([Lit(name)]), {name}), [w]) == Accepted(map[name := Null])
  {
    var kvs := [Pair(name, Null)];
    assert Match(Lit(name), [w], 0, {name}, {}) == Trial(Matches(Some(Matched(kvs, true, 1))), {});
    SeqOfOne(Lit(name), [w], {name}, {});
    assert kvs[..0] == [];
    assert Fold(kvs, {name}, {}).out == map[name := Null];
  }

  // -------------------------------------------------------------------
  // MakeOrElseArgParser and the commands

  /** What an ArgumentError reports as the spec: the spec, or "no arguments" for an empty one. */
  function Shown(spec: Bytes): (r: Bytes)
    ensures r != []
  {
    if |spec| != 0 then spec else "no arguments"
  }

  /**
   * The closure `MakeOrElseArgParser` returns: the bindings, or an
   * ArgumentError naming the spec and the arguments on a mismatch.  A
   * match that never ends is the model's exhaustion, and a nil
   * dereference a Go panic.
   */
  function OrElse(vm: nat, spec: Bytes, parser: ArgParser, args: seq<Word>): (r: Out<map<Bytes, Word>>)
    ensures r.Done? <==> Apply(parser, args).Accepted?
    ensures r.Done? ==> r.value == Apply(parser, args).out
    ensures Apply(parser, args).Rejected? ==> r == Unwound(BadArgs(vm, "argparser", Shown(spec), args))
  {
    match Apply(parser, args)
    case Accepted(out) => Done(out)
    case Rejected => Unwound(BadArgs(vm, "argparser", Shown(spec), args))
    case Diverges => Unwound(Exhausted)
    case Crashed => Unwound(Panicked(GoPanic))
  }

  /** The map `NewDictFrom` stores: every value copied. */
  function Copied(m: map<Bytes, Word>): (r: map<Bytes, Word>)
    ensures r.Keys == m.Keys && forall k | k in m :: r[k] == Copy(m[k])
  {
    map k | k in m :: Copy(m[k])
  }

  /** The text of each word followed by a blank, as `_args_to_spec` joins several. */
  function Spaced(ws: seq<Word>): (r: Bytes)
    ensures ws != [] ==> |r| > 0 && r[|r| - 1] == ' '
  {
    if ws == [] then [] else Spaced(ws[..|ws| - 1]) + Ser(ws[|ws| - 1]) + " "
  }

  /** `_args_to_spec`: no spec for no words, one word's text, or several joined by `Spaced`. */
  function SpecOf(args: seq<Word>): Bytes
  {
    if |args| == 0 then [] else if |args| == 1 then Ser(args[0]) else Spaced(args)
  }

  /** `_args_to_spec` with its loop. */
  method ArgsToSpec(args: seq<Word>) returns (spec: Bytes)
    ensures spec == SpecOf(args)
  {
    if |args| == 0 {
      return [];
    } else if |args| == 1 {
      return Ser(args[0]);
    }
    spec := [];
    for i := 0 to |args|
      invariant spec == Spaced(args[..i])
    {
      assert args[..i + 1][..i] == args[..i];
      spec := spec + Ser(args[i]) + " ";
    }
    assert args[..|args|] == args;
  }

  /** Compiling a spec for a command: the parser, or the syntax error it raises. */
  function Build(spec: Bytes): (r: Out<ArgParser>)
    ensures r.Done? <==> Compile(spec).Made?
    ensures AllBlank(spec) ==> r == Done(NoArgs)
  {
    ArgSpec.BlankSpecTakesNoArgs(spec);
    match Compile(spec)
    case Made(p) => Done(p)
    case Refused(e) => Unwound(Panicked(Raised(e)))
  }

  /** `ArgumentParser` and `MaybeArgumentParser` up to the alien they return: the spec from the words, compiled. */
  method MakeParser(args: seq<Word>) returns (spec: Bytes, r: Out<ArgParser>)
    ensures spec == SpecOf(args) && r == Build(spec)
  {
    spec := ArgsToSpec(args);
    var made := ArgSpec.MakeArgParser(spec);
    match made
    case Made(p) =>
      ArgSpec.BlankSpecTakesNoArgs(spec);
      r := Done(p);
    case Refused(e) =>
      r := Unwound(Panicked(Raised(e)));
  }

  /** The alien `ArgumentParser` returns: the bindings as a dict, or the ArgumentError. */
  function ParserCall(vm: nat, spec: Bytes, parser: ArgParser, args: seq<Word>): (r: Out<Word>)
    ensures r.Done? <==> Apply(parser, args).Accepted?
    ensures r.Done? ==> r.value == Dict(Copied(Apply(parser, args).out))
  {
    match OrElse(vm, spec, parser, args)
    case Done(out) => Done(Dict(Copied(out)))
    case Unwound(u) => Unwound(u)
  }

  /** The alien `MaybeArgumentParser` returns: `[false]` on a mismatch, `[true dict]` on a match. */
  function MaybeParserCall(parser: ArgParser, args: seq<Word>): (r: Out<Word>)
    ensures Apply(parser, args).Rejected? <==> r == Done(List([False]))
    ensures Apply(parser, args).Accepted? ==> r == Done(List([True, Dict(Copied(Apply(parser, args).out))]))
  {
    match Apply(parser, args)
    case Accepted(out) => Done(List([True, Dict(Copied(out))]))
    case Rejected => Done(List([False]))
    case Diverges => Unwound(Exhausted)
    case Crashed => Unwound(Panicked(GoPanic))
  }

  /**
   * The two commands agree: `[false]` exactly where `ArgumentParser`
   * raises its ArgumentError, `[true d]` exactly where it returns `d`, and
   * the same unwinding otherwise.
   */
  lemma MaybeAgreesWithOrElse(vm: nat, spec: Bytes, parser: ArgParser, args: seq<Word>)
    ensures Apply(parser, args).Rejected? <==> MaybeParserCall(parser, args) == Done(List([False]))
    ensures Apply(parser, args).Rejected? ==> ParserCall(vm, spec, parser, args) == Unwound(BadArgs(vm, "argparser", Shown(spec), args))
    ensures forall d :: MaybeParserCall(parser, args) == Done(List([True, d])) <==> ParserCall(vm, spec, parser, args) == Done(d)
    ensures MaybeParserCall(parser, args).Unwound? ==> MaybeParserCall(parser, args) == ParserCall(vm, spec, parser, args)
  {
  }
}
