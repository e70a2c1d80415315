/**
 * The control commands of src/gelo/commands/control.go: `if`, with its
 * `elif` chain and `else`, and `case-of`.
 *
 * Both commands first read their arguments with a parser built from an
 * argument spec (module ArgMatch); each is modelled from the bindings
 * that parser returns.  Conditions, the `by` command and the chosen
 * results run through the VM's `InvokeOrElse`, given as `run`, and
 * `IsInvokable`, given as `invokable`, as in module Natives; the lines of
 * a `case-of` block come from the VM's `PartialEval`, given as `partial`.
 */
module Control {
  import opened Base
  import opened Words
  import opened Errors
  import opened Machine
  import opened Api
  import Lists
  import opened Natives
  import Scopes

  // -------------------------------------------------------------------
  // if

  /**
   * `_condition`: the word, invoked first when it is invokable, must come
   * to a Bool.  (control.go passes both results of `InvokeWordOrReturn`
   * to the one-parameter `BoolOrElse`; the model takes the word, and an
   * error raised by the condition goes on unwinding.)
   */
  function Condition(vm: nat, run: Runner, invokable: Word -> Option<Word>, w: Word): Out<bool>
  {
    match invokable(w)
    case None => BoolOrElse(vm, w)
    case Some(i) =>
      match run(Lists.AsList(i))
      case Unwound(u) => Unwound(u)
      case Done(v) => BoolOrElse(vm, v)
  }

  /**
   * What `_if_parser`, built from "cond 'then cons ['elif cond 'then
   * cons]* ['else alt]?", binds: a condition and a consequent; when an
   * `elif` was given, all the conditions and all the consequents as two
   * lists of the same length; and the alternative whenever `else` was
   * given.
   */
  predicate IfBound(bound: map<Bytes, Word>)
  {
    "cond" in bound && "cons" in bound &&
    ("elif" in bound ==> bound["cond"].List? && bound["cons"].List? && |bound["cond"].items| == |bound["cons"].items|) &&
    ("else" in bound ==> "alt" in bound)
  }

  /** The conditions, in order. */
  function Conds(bound: map<Bytes, Word>): (r: seq<Word>)
    requires IfBound(bound)
    ensures |r| == |Conss(bound)|
  {
    if "elif" in bound then bound["cond"].items else [bound["cond"]]
  }

  /** The consequents, in the order of their conditions. */
  function Conss(bound: map<Bytes, Word>): seq<Word>
    requires IfBound(bound)
  {
    if "elif" in bound then bound["cons"].items else [bound["cons"]]
  }

  /** The consequent of the first condition that holds, or none; the first condition that raises ends the walk. */
  function FirstHolding(vm: nat, run: Runner, invokable: Word -> Option<Word>, conds: seq<Word>, conss: seq<Word>): Out<Option<Word>>
    requires |conds| == |conss|
  {
    if conds == [] then Done(None)
    else
      match Condition(vm, run, invokable, conds[0])
      case Unwound(u) => Unwound(u)
      case Done(b) => if b then Done(Some(conss[0])) else FirstHolding(vm, run, invokable, conds[1..], conss[1..])
  }

  /** The first `k` conditions come to false. */
  predicate FalseBefore(vm: nat, run: Runner, invokable: Word -> Option<Word>, conds: seq<Word>, k: nat)
    requires k <= |conds|
  {
    forall i | 0 <= i < k :: Condition(vm, run, invokable, conds[i]) == Done(false)
  }

  /** Conditions that come to false are passed over. */
  lemma {:induction false} FirstHoldingSkips(vm: nat, run: Runner, invokable: Word -> Option<Word>, conds: seq<Word>, conss: seq<Word>, k: nat)
    requires |conds| == |conss| && k <= |conds| && FalseBefore(vm, run, invokable, conds, k)
    ensures FirstHolding(vm, run, invokable, conds, conss) == FirstHolding(vm, run, invokable, conds[k..], conss[k..])
    decreases k
  {
    if k > 0 {
      assert forall i | 0 <= i < k - 1 :: conds[1..][i] == conds[i + 1];
      FirstHoldingSkips(vm, run, invokable, conds[1..], conss[1..], k - 1);
      assert conds[1..][k - 1..] == conds[k..] && conss[1..][k - 1..] == conss[k..];
    }
  }

  /**
   * What `if` replies: the consequent of the first condition that holds,
   * to run in its place when invokable; failing that the alternative in
   * the same way when `else` was given; otherwise Null.
   */
  function IfOf(vm: nat, run: Runner, invokable: Word -> Option<Word>, bound: map<Bytes, Word>): Out<Reply>
    requires IfBound(bound)
  {
    match FirstHolding(vm, run, invokable, Conds(bound), Conss(bound))
    case Unwound(u) => Unwound(u)
    case Done(Some(c)) => Done(TailOrReturn(invokable, c))
    case Done(None) => Done(if "else" in bound then TailOrReturn(invokable, bound["alt"]) else Value(Null))
  }

  /** The first condition that holds picks its consequent. */
  lemma IfFirstHolds(vm: nat, run: Runner, invokable: Word -> Option<Word>, bound: map<Bytes, Word>, k: nat)
    requires IfBound(bound) && k < |Conds(bound)| && FalseBefore(vm, run, invokable, Conds(bound), k)
    requires Condition(vm, run, invokable, Conds(bound)[k]) == Done(true)
    ensures IfOf(vm, run, invokable, bound) == Done(TailOrReturn(invokable, Conss(bound)[k]))
  {
    FirstHoldingSkips(vm, run, invokable, Conds(bound), Conss(bound), k);
  }

  /** When no condition holds: the alternative if `else` was given, Null otherwise. */
  lemma IfNoneHolds(vm: nat, run: Runner, invokable: Word -> Option<Word>, bound: map<Bytes, Word>)
    requires IfBound(bound) && FalseBefore(vm, run, invokable, Conds(bound), |Conds(bound)|)
    ensures "else" in bound ==> IfOf(vm, run, invokable, bound) == Done(TailOrReturn(invokable, bound["alt"]))
    ensures "else" !in bound ==> IfOf(vm, run, invokable, bound) == Done(Value(Null))
  {
    var n := |Conds(bound)|;
    FirstHoldingSkips(vm, run, invokable, Conds(bound), Conss(bound), n);
    assert Conds(bound)[n..] == [];
  }

  /** A condition that raises before any holds ends `if` with that raise. */
  lemma IfConditionRaises(vm: nat, run: Runner, invokable: Word -> Option<Word>, bound: map<Bytes, Word>, k: nat)
    requires IfBound(bound) && k < |Conds(bound)| && FalseBefore(vm, run, invokable, Conds(bound), k)
    requires Condition(vm, run, invokable, Conds(bound)[k]).Unwound?
    ensures IfOf(vm, run, invokable, bound) == Unwound(Condition(vm, run, invokable, Conds(bound)[k]).u)
  {
    FirstHoldingSkips(vm, run, invokable, Conds(bound), Conss(bound), k);
  }

  /** `If`, with its loop over the `elif` chain. */
  method If(vm: nat, run: Runner, invokable: Word -> Option<Word>, bound: map<Bytes, Word>) returns (r: Out<Reply>)
    requires IfBound(bound)
    ensures r == IfOf(vm, run, invokable, bound)
  {
    var cond, cons := bound["cond"], bound["cons"];
    if "elif" !in bound {
      assert Conds(bound) == [cond] && Conss(bound) == [cons] && [cond][1..] == [] && [cons][1..] == [];
      var c := Condition(vm, run, invokable, cond);
      if c.Unwound? {
        return Unwound(c.u);
      }
      if c.value {
        return Done(TailOrReturn(invokable, cons));
      }
      assert FirstHolding(vm, run, invokable, [cond][1..], [cons][1..]) == Done(None);
    } else {
      var lcond, lcons := Conds(bound), Conss(bound);
      var i := 0;
      while i < |lcond|
        invariant i <= |lcond| && FirstHolding(vm, run, invokable, lcond, lcons) == FirstHolding(vm, run, invokable, lcond[i..], lcons[i..])
      {
        assert lcond[i..][1..] == lcond[i + 1..] && lcons[i..][1..] == lcons[i + 1..];
        var c := Condition(vm, run, invokable, lcond[i]);
        if c.Unwound? {
          return Unwound(c.u);
        }
        if c.value {
          return Done(TailOrReturn(invokable, lcons[i]));
        }
        i := i + 1;
      }
      assert lcond[i..] == [];
    }
    if "else" in bound {
      return Done(TailOrReturn(invokable, bound["alt"]));
    }
    return Done(Value(Null));
  }

  /**
   * The walk of control.go as written: it takes the condition for the
   * `elif` chain whenever it is a list, and steps the consequents along
   * with the conditions, dereferencing nil when they run out first.
   */
  function PairedAsWritten(vm: nat, run: Runner, invokable: Word -> Option<Word>, conds: seq<Word>, conss: seq<Word>): Out<Option<Word>>
  {
    if conds == [] then Done(None)
    else
      match Condition(vm, run, invokable, conds[0])
      case Unwound(u) => Unwound(u)
      case Done(b) =>
        if conss == [] then Unwound(Panicked(GoPanic))
        else if b then Done(Some(conss[0])) else PairedAsWritten(vm, run, invokable, conds[1..], conss[1..])
  }

  /** `If` as written: a list-valued condition is read as the chain of conditions, and the consequent must then be a list. */
  function IfAsWritten(vm: nat, run: Runner, invokable: Word -> Option<Word>, bound: map<Bytes, Word>): Out<Reply>
    requires "cond" in bound && "cons" in bound && ("else" in bound ==> "alt" in bound)
  {
    var cond, cons := bound["cond"], bound["cons"];
    var chosen: Out<Option<Word>> :=
      if !cond.List? then
        (match Condition(vm, run, invokable, cond)
         case Unwound(u) => Unwound(u)
         case Done(b) => Done(if b then Some(cons) else None))
      else if !cons.List? then Unwound(Panicked(GoPanic))
      else PairedAsWritten(vm, run, invokable, cond.items, cons.items);
    match chosen
    case Unwound(u) => Unwound(u)
    case Done(Some(c)) => Done(TailOrReturn(invokable, c))
    case Done(None) => Done(if "else" in bound then TailOrReturn(invokable, bound["alt"]) else Value(Null))
  }

  /** With equally many consequents, the walk as written is the walk meant. */
  lemma {:induction false} PairedAgrees(vm: nat, run: Runner, invokable: Word -> Option<Word>, conds: seq<Word>, conss: seq<Word>)
    requires |conds| == |conss|
    ensures PairedAsWritten(vm, run, invokable, conds, conss) == FirstHolding(vm, run, invokable, conds, conss)
    decreases |conds|
  {
    if conds != [] {
      PairedAgrees(vm, run, invokable, conds[1..], conss[1..]);
    }
  }

  /** As written and as meant agree whenever the condition is a list exactly when an `elif` was given. */
  lemma IfAgrees(vm: nat, run: Runner, invokable: Word -> Option<Word>, bound: map<Bytes, Word>)
    requires IfBound(bound) && ("elif" in bound <==> bound["cond"].List?)
    ensures IfAsWritten(vm, run, invokable, bound) == IfOf(vm, run, invokable, bound)
  {
    if "elif" in bound {
      PairedAgrees(vm, run, invokable, Conds(bound), Conss(bound));
    } else {
      assert Conds(bound) == [bound["cond"]] && Conss(bound) == [bound["cons"]];
      assert FirstHolding(vm, run, invokable, [bound["cond"]][1..], [bound["cons"]][1..]) == Done(None);
    }
  }

  /**
   * `if [list true] then a`: as written the list condition is taken for an
   * `elif` chain and the consequent `a`, not a list, fails its type
   * assertion; as meant the condition is not a Bool.
   */
  lemma IfListConditionAsWritten(vm: nat, run: Runner, invokable: Word -> Option<Word>)
    requires invokable(List([True])) == None
    ensures var bound := map["cond" := List([True]), "cons" := Sym("a")];
      IfBound(bound) &&
      IfAsWritten(vm, run, invokable, bound) == Unwound(Panicked(GoPanic)) &&
      IfOf(vm, run, invokable, bound) == Unwound(Mismatch(vm, "bool", List([True])))
  {
    var bound := map["cond" := List([True]), "cons" := Sym("a")];
    assert Conds(bound) == [List([True])];
  }

  // -------------------------------------------------------------------
  // case-of: reading the block

  /** `_case_eval`: a quote, an alien or a symbol is invoked with the arguments, and stands for itself when that raises a gelo error. */
  function CaseEval(run: Runner, w: Word, args: seq<Word>): (r: Out<Word>)
    ensures !(w.Quote? || w.Alien? || w.Symbol?) ==> r == Done(w)
    ensures (w.Quote? || w.Alien? || w.Symbol?) && run([w] + args).Done? ==> r == run([w] + args)
    ensures (w.Quote? || w.Alien? || w.Symbol?) && run([w] + args).Unwound? ==>
      r == (if run([w] + args).u.Panicked? && run([w] + args).u.p.Raise? then Done(w) else run([w] + args))
  {
    if w.Quote? || w.Alien? || w.Symbol? then
      match Caught(run([w] + args))
      case Done(Fine(v)) => Done(v)
      case Done(Failed(_)) => Done(w)
      case Unwound(u) => Unwound(u)
    else Done(w)
  }

  /** `_cases_synerr`: a line is not "value+ => resultant". */
  const Malformed: Unwind := Panicked(SyntaxError([FStr("Patterns needs to be:"), FStr("\"value+ => resultant\", " + "where value may be a command")]))

  /** A line of one or more patterns, the symbol `=>` and a result. */
  predicate Arrowed(item: seq<Word>)
  {
    |item| >= 3 && item[|item| - 2].Symbol? && StrEqualsSym("=>", item[|item| - 2])
  }

  /** A line headed by the symbol `otherwise`. */
  predicate IsOtherwise(item: seq<Word>)
  {
    |item| > 0 && item[0].Symbol? && StrEqualsSym("otherwise", item[0])
  }

  /**
   * A case line read: its patterns and its result; the syntax error of a
   * line too short or without `=>` before its last word; an empty line
   * has no first cell and dereferences nil.
   */
  function ReadLine(item: seq<Word>): (r: Out<(seq<Word>, Word)>)
    ensures r.Done? <==> Arrowed(item)
    ensures r.Done? ==> |r.value.0| >= 1 && item == r.value.0 + [item[|item| - 2], r.value.1]
    ensures r.Unwound? ==> r.u == if item == [] then Panicked(GoPanic) else Malformed
  {
    if item == [] then Unwound(Panicked(GoPanic))
    else if !Arrowed(item) then Unwound(Malformed)
    else Done((item[..|item| - 2], item[|item| - 1]))
  }

  /** The loop reading one line cell by cell, keeping the patterns in order. */
  method ParseLine(item: seq<Word>) returns (r: Out<(seq<Word>, Word)>)
    ensures r == ReadLine(item)
  {
    if item == [] {
      return Unwound(Panicked(GoPanic));
    }
    if |item| < 3 {
      return Unwound(Malformed);
    }
    var n := |item|;
    var head: seq<Word> := [];
    var resultant := Null;
    var i := 0;
    while i < n
      invariant i <= n && head == item[..if i <= n - 2 then i else n - 2]
      invariant i > n - 2 ==> item[n - 2].Symbol? && StrEqualsSym("=>", item[n - 2])
      invariant i == n ==> resultant == item[n - 1]
    {
      if i == n - 1 {
        resultant := item[i];
      } else if i == n - 2 {
        if !(item[i].Symbol? && StrEqualsSym("=>", item[i])) {
          return Unwound(Malformed);
        }
      } else {
        assert item[..i + 1] == item[..i] + [item[i]];
        head := head + [item[i]];
      }
      i := i + 1;
    }
    return Done((head, resultant));
  }

  /** Some pattern is `Equal` to the key (by the key's `Equals`). */
  predicate AnyEquals(key: Word, pats: seq<Word>)
  {
    exists i | 0 <= i < |pats| :: Equals(key, pats[i])
  }

  /** The loop comparing the key with a line's patterns in turn. */
  method FindMatch(key: Word, pats: seq<Word>) returns (hit: bool)
    ensures hit == AnyEquals(key, pats)
  {
    var i := 0;
    while i < |pats|
      invariant i <= |pats| && forall j | 0 <= j < i :: !Equals(key, pats[j])
    {
      if Equals(key, pats[i]) {
        return true;
      }
      i := i + 1;
    }
    return false;
  }

  /**
   * The result `case-of` settles on, from line `i` on: a last line headed
   * by `otherwise` must hold exactly one result, which is taken; any
   * other line is read and taken when one of its patterns equals the
   * key; nothing when the lines run out.
   */
  function Pick(key: Word, lines: seq<seq<Word>>, i: nat): Out<Option<Word>>
    requires i <= |lines|
    decreases |lines| - i
  {
    if i == |lines| then Done(None)
    else if i == |lines| - 1 && IsOtherwise(lines[i]) then
      (if |lines[i]| != 2 then Unwound(Malformed) else Done(Some(lines[i][1])))
    else
      match ReadLine(lines[i])
      case Unwound(u) => Unwound(u)
      case Done(line) => if AnyEquals(key, line.0) then Done(Some(line.1)) else Pick(key, lines, i + 1)
  }

  /** The first `k` lines are well formed, none is a final `otherwise`, and no pattern in them equals the key. */
  predicate PassedOver(key: Word, lines: seq<seq<Word>>, k: nat)
    requires k <= |lines|
  {
    forall i | 0 <= i < k ::
      Arrowed(lines[i]) && !(i == |lines| - 1 && IsOtherwise(lines[i])) && !AnyEquals(key, lines[i][..|lines[i]| - 2])
  }

  /** Lines passed over do not change the outcome. */
  lemma {:induction false} PickSkips(key: Word, lines: seq<seq<Word>>, k: nat)
    requires k <= |lines| && PassedOver(key, lines, k)
    ensures Pick(key, lines, 0) == Pick(key, lines, k)
    decreases k
  {
    if k > 0 {
      PickSkips(key, lines, k - 1);
    }
  }

  /** The first line with a pattern equal to the key gives its result. */
  lemma PickFirstMatch(key: Word, lines: seq<seq<Word>>, k: nat)
    requires k < |lines| && PassedOver(key, lines, k)
    requires Arrowed(lines[k]) && !(k == |lines| - 1 && IsOtherwise(lines[k])) && AnyEquals(key, lines[k][..|lines[k]| - 2])
    ensures Pick(key, lines, 0) == Done(Some(lines[k][|lines[k]| - 1]))
  {
    PickSkips(key, lines, k);
  }

  /** No line matching and no `otherwise`: nothing is picked. */
  lemma PickNoMatch(key: Word, lines: seq<seq<Word>>)
    requires PassedOver(key, lines, |lines|)
    ensures Pick(key, lines, 0) == Done(None)
  {
    PickSkips(key, lines, |lines|);
  }

  /** A final `otherwise r`, reached: `r` is picked. */
  lemma PickOtherwise(key: Word, lines: seq<seq<Word>>, r: Word)
    requires |lines| > 0 && PassedOver(key, lines, |lines| - 1)
    requires IsOtherwise(lines[|lines| - 1]) && |lines[|lines| - 1]| == 2 && lines[|lines| - 1][1] == r
    ensures Pick(key, lines, 0) == Done(Some(r))
  {
    PickSkips(key, lines, |lines| - 1);
  }

  /**
   * A line reached that is not "pattern+ => result" raises the syntax
   * error (an empty one dereferences nil), and so does a final
   * `otherwise` line that does not hold exactly one result.
   */
  lemma PickMalformed(key: Word, lines: seq<seq<Word>>, k: nat)
    requires k < |lines| && PassedOver(key, lines, k) && lines[k] != []
    requires if k == |lines| - 1 && IsOtherwise(lines[k]) then |lines[k]| != 2 else !Arrowed(lines[k])
    ensures Pick(key, lines, 0) == Unwound(Malformed)
  {
    PickSkips(key, lines, k);
  }

  /** The loop of `Case_of` over the lines. */
  method Select(key: Word, lines: seq<seq<Word>>) returns (r: Out<Option<Word>>)
    ensures r == Pick(key, lines, 0)
  {
    var i := 0;
    while i < |lines|
      invariant i <= |lines| && Pick(key, lines, 0) == Pick(key, lines, i)
    {
      var item := lines[i];
      if i == |lines| - 1 && item != [] && item[0].Symbol? && StrEqualsSym("otherwise", item[0]) {
        if |item| != 2 {
          return Unwound(Malformed);
        }
        return Done(Some(item[1]));
      }
      var line := ParseLine(item);
      if line.Unwound? {
        return Unwound(line.u);
      }
      var hit := FindMatch(key, line.value.0);
      if hit {
        return Done(Some(line.value.1));
      }
      i := i + 1;
    }
    return Done(None);
  }

  /** What the key comes to with the lines: the picked result evaluated with the value's words as arguments, or Null. */
  function Answer(run: Runner, key: Word, lines: seq<seq<Word>>, arguments: seq<Word>): Out<Word>
  {
    match Pick(key, lines, 0)
    case Unwound(u) => Unwound(u)
    case Done(None) => Done(Null)
    case Done(Some(res)) => CaseEval(run, res, arguments)
  }

  // -------------------------------------------------------------------
  // case-of: the command

  /** The VM's `PartialEval` of a quote: its lines of words, or nothing when its code does not parse. */
  type Evaluator = Word -> Out<Option<seq<seq<Word>>>>

  /** A Go pointer or function value handed to the formatter; `fmt.Sprint` prints its address, which is not modelled. */
  const Unprintable: Fmt := FOther([])

  /** The syntax error of a block that cannot be read, naming the command's arguments. */
  function BadBlock(args: seq<Word>): Unwind
  {
    Panicked(SyntaxError([Unprintable, FStr("Expected:"), Unprintable,
      FStr("{[value+ => resultant\n]+ " + "[otherwise result]?} Got:"), ArgsOf(args)]))
  }

  /**
   * The blocks refused with that error, as meant: code that does not parse,
   * and code of no commands, which `PartialEval` gives as one empty line.
   */
  predicate Refused(lines: Option<seq<seq<Word>>>)
  {
    lines.None? || lines.value == [[]]
  }

  /**
   * As written: only code that does not parse.  The test for the empty
   * block compares the first line, a nil `*List` held in a `Word`, with
   * the untyped nil, which it never equals.
   */
  predicate RefusedAsWritten(lines: Option<seq<seq<Word>>>)
  {
    lines.None?
  }

  /**
   * `case-of {}`: as written the empty block is let through and its one
   * empty line dereferences nil; as meant it is refused with the syntax
   * error naming the arguments.
   */
  lemma EmptyBlockAsWritten(vm: nat, run: Runner, partial: Evaluator, key: Word, args: seq<Word>, bound: map<Bytes, Word>)
    requires "value" in bound && "cases" in bound && bound["cases"].Quote? && partial(bound["cases"]) == Done(Some([[]]))
    ensures !RefusedAsWritten(Some([[]])) && Pick(key, [[]], 0) == Unwound(Panicked(GoPanic))
    ensures CaseOfOf(vm, run, partial, args, bound) == Unwound(BadBlock(args))
  {
  }

  /**
   * What `case-of` comes to, from the bindings of "value ['as var]? ['by
   * cmd]? cases": the cases must be a quote whose lines are readable;
   * the `as` name must be a symbol; the key is the value, or what the `by`
   * command makes of the value's words; then the answer of the lines.
   */
  function CaseOfOf(vm: nat, run: Runner, partial: Evaluator, args: seq<Word>, bound: map<Bytes, Word>): Out<Word>
    requires "value" in bound && "cases" in bound
  {
    match QuoteOrElse(vm, bound["cases"])
    case Unwound(u) => Unwound(u)
    case Done(q) =>
      match partial(q)
      case Unwound(u) => Unwound(u)
      case Done(lines) =>
        if Refused(lines) then Unwound(BadBlock(args))
        else if lines.value == [] then Unwound(Panicked(GoPanic))
        else if "var" in bound && !bound["var"].Symbol? then Unwound(Mismatch(vm, "symbol", bound["var"]))
        else Keyed(run, bound, lines.value)
  }

  /** Without `by`, a value equal to a pattern of the first matching line gets that line's result, evaluated. */
  lemma CaseOfPicksFirstMatch(vm: nat, run: Runner, partial: Evaluator, args: seq<Word>, bound: map<Bytes, Word>,
                              lines: seq<seq<Word>>, k: nat)
    requires "value" in bound && "cases" in bound && bound["cases"].Quote? && partial(bound["cases"]) == Done(Some(lines))
    requires lines != [[]] && ("var" in bound ==> bound["var"].Symbol?) && "cmd" !in bound
    requires k < |lines| && PassedOver(bound["value"], lines, k)
    requires Arrowed(lines[k]) && !(k == |lines| - 1 && IsOtherwise(lines[k])) && AnyEquals(bound["value"], lines[k][..|lines[k]| - 2])
    ensures CaseOfOf(vm, run, partial, args, bound) == CaseEval(run, lines[k][|lines[k]| - 1], Lists.AsList(bound["value"]))
  {
    PickFirstMatch(bound["value"], lines, k);
  }

  /** Without `by`, a value matching no line of a block with no `otherwise` gives Null. */
  lemma CaseOfNoMatch(vm: nat, run: Runner, partial: Evaluator, args: seq<Word>, bound: map<Bytes, Word>, lines: seq<seq<Word>>)
    requires "value" in bound && "cases" in bound && bound["cases"].Quote? && partial(bound["cases"]) == Done(Some(lines))
    requires lines != [] && lines != [[]] && ("var" in bound ==> bound["var"].Symbol?) && "cmd" !in bound
    requires PassedOver(bound["value"], lines, |lines|)
    ensures CaseOfOf(vm, run, partial, args, bound) == Done(Null)
  {
    PickNoMatch(bound["value"], lines);
  }

  // -------------------------------------------------------------------
  // case-of: the `as` name

  /** What the deferred call of `Case_of` does to the `as` name: set it back to its value, or delete it. */
  datatype Restore = PutBack(prior: Word) | Drop

  /**
   * Lines 86-93 as meant: a name bound in the current scope (found by
   * `DepthOf` in the first scope it visits) is to be set back to its
   * value, any other deleted; then the name is bound to the value.
   */
  method Bind(vm: VM, name: Word, value: Word) returns (undo: Restore)
    requires vm.Valid() && vm.alive
    modifies vm.world
    ensures vm.Valid() && vm.world.Kept()
    ensures var d := old(vm.world.dicts[vm.Current()]);
      undo == (if Ser(name) in d then PutBack(d[Ser(name)]) else Drop) &&
      vm.world.dicts == old(vm.world.dicts)[vm.Current() := d[Ser(name) := value]]
  {
    vm.LiveWalk();
    var count, there := vm.DepthOf(name);
    Held(vm, Ser(name));
    if there && count == 1 {
      var w := vm.LookupOrElse(name);
      undo := PutBack(w.value);
    } else {
      undo := Drop;
    }
    vm.Set(name, value);
  }

  /**
   * Lines 86-93 as written: the test asks for depth 0, which `DepthOf`
   * never gives (it counts the scope holding the name), so the name is
   * always to be deleted, even when the current scope held it before.
   */
  method BindAsWritten(vm: VM, name: Word, value: Word) returns (undo: Restore)
    requires vm.Valid() && vm.alive
    modifies vm.world
    ensures vm.Valid() && vm.world.Kept()
    ensures undo == Drop
    ensures var d := old(vm.world.dicts[vm.Current()]);
      vm.world.dicts == old(vm.world.dicts)[vm.Current() := d[Ser(name) := value]]
  {
    vm.LiveWalk();
    var count, there := vm.DepthOf(name);
    Held(vm, Ser(name));
    if there && count == 0 {
      // the branch that would set the name back is never taken
      assert false;
    }
    undo := Drop;
    vm.Set(name, value);
  }

  /** What `DepthOf` and `Lookup` say of a name the current scope binds, and that the count is never 0. */
  lemma Held(vm: VM, key: Bytes)
    requires vm.Valid() && vm.alive
    ensures var (count, there) := Scopes.Depth(vm.world.scopes, vm.world.dicts, vm.Walk(), vm.Boundary(), key, vm.IsBlacklisted(key));
      count > 0 &&
      (there && count == 1 <==> key in vm.world.dicts[vm.Current()]) &&
      (key in vm.world.dicts[vm.Current()] ==> vm.Resolve(key) == Some(vm.world.dicts[vm.Current()][key]))
  {
    vm.LiveWalk();
    var c := vm.Walk();
    if key in vm.world.dicts[vm.Current()] {
      Scopes.DefinedAtHolder(vm.world.scopes, vm.world.dicts, c, vm.Boundary(), key, vm.IsBlacklisted(key), 0);
    }
  }

  /** The deferred call: the name set back to its prior value, or deleted from the current scope that binds it. */
  method Unbind(vm: VM, name: Word, undo: Restore)
    requires vm.Valid() && vm.alive && Ser(name) in vm.world.dicts[vm.Current()]
    modifies vm, vm.world
    ensures vm.Valid() && vm.alive && vm.world.Kept()
    ensures vm.cns == old(vm.cns) && vm.top == old(vm.top) && vm.heritage == old(vm.heritage)
    ensures var d := old(vm.world.dicts[vm.Current()]);
      vm.world.dicts == old(vm.world.dicts)[old(vm.Current()) := if undo.Drop? then d - {Ser(name)} else d[Ser(name) := undo.prior]]
  {
    vm.LiveWalk();
    if undo.PutBack? {
      vm.Set(name, undo.prior);
    } else {
      var gone := vm.Del(name);
    }
  }

  /** Binding a name in one dict and then undoing as `Bind` planned gives the dicts back. */
  lemma Restored(dicts: seq<map<Bytes, Word>>, cur: nat, k: Bytes, v: Word, undo: Restore)
    requires cur < |dicts| && undo == (if k in dicts[cur] then PutBack(dicts[cur][k]) else Drop)
    ensures var d := dicts[cur][k := v];
      dicts[cur := d][cur := if undo.Drop? then d - {k} else d[k := undo.prior]] == dicts
  {
    var d := dicts[cur][k := v];
    var back := if undo.Drop? then d - {k} else d[k := undo.prior];
    assert back == dicts[cur];
  }

  /** Binding the `as` name and running the deferred call leave every scope as it was. */
  method Bracket(vm: VM, name: Word, value: Word)
    requires vm.Valid() && vm.alive
    modifies vm, vm.world
    ensures vm.Valid() && vm.alive && vm.world.Kept() && vm.world.dicts == old(vm.world.dicts)
    ensures vm.cns == old(vm.cns) && vm.top == old(vm.top) && vm.heritage == old(vm.heritage)
  {
    ghost var dicts, cur := vm.world.dicts, vm.Current();
    var undo := Bind(vm, name, value);
    Unbind(vm, name, undo);
    Restored(dicts, cur, Ser(name), value, undo);
  }

  /** As written, a binding the current scope held before is gone once `case-of` returns. */
  method BracketAsWritten(vm: VM, name: Word, value: Word)
    requires vm.Valid() && vm.alive
    modifies vm, vm.world
    ensures vm.Valid() && vm.alive && vm.world.Kept()
    ensures vm.world.dicts == old(vm.world.dicts)[vm.Current() := old(vm.world.dicts[vm.Current()]) - {Ser(name)}]
  {
    ghost var d, k := vm.world.dicts[vm.Current()], Ser(name);
    var undo := BindAsWritten(vm, name, value);
    Unbind(vm, name, undo);
    assert d[k := value] - {k} == d - {k};
  }

  /** The answer of the lines, with the picked result evaluated. */
  method Respond(run: Runner, key: Word, lines: seq<seq<Word>>, arguments: seq<Word>) returns (r: Out<Word>)
    ensures r == Answer(run, key, lines, arguments)
  {
    var picked := Select(key, lines);
    if picked.Unwound? {
      r := Unwound(picked.u);
    } else if picked.value.None? {
      r := Done(Null);
    } else {
      r := CaseEval(run, picked.value.value, arguments);
    }
  }

  /** The key, or how the `by` command unwound, then the answer of the lines. */
  function Keyed(run: Runner, bound: map<Bytes, Word>, lines: seq<seq<Word>>): Out<Word>
    requires "value" in bound
  {
    var arguments := Lists.AsList(bound["value"]);
    match (if "cmd" in bound then run([bound["cmd"]] + arguments) else Done(bound["value"]))
    case Unwound(u) => Unwound(u)
    case Done(key) => Answer(run, key, lines, arguments)
  }

  /**
   * Lines 84-152 once the block is read: the `as` name bound to the value
   * while the key is made and the lines are answered, and every scope as
   * it was afterwards, whether they return or unwind.
   */
  method Scoped(vm: VM, run: Runner, bound: map<Bytes, Word>, lines: seq<seq<Word>>) returns (r: Out<Word>)
    requires vm.Valid() && vm.alive && "value" in bound && ("var" in bound ==> bound["var"].Symbol?)
    modifies vm, vm.world
    ensures r == Keyed(run, bound, lines)
    ensures vm.Valid() && vm.alive && vm.world.Kept() && vm.world.dicts == old(vm.world.dicts)
    ensures vm.cns == old(vm.cns) && vm.top == old(vm.top) && vm.heritage == old(vm.heritage)
  {
    ghost var dicts, cur := vm.world.dicts, vm.Current();
    var value := bound["value"];
    var arguments := Lists.AsList(value);
    var undo := Drop;
    var named := "var" in bound;
    if named {
      undo := Bind(vm, bound["var"], value);
    }
    var key := value;
    if "cmd" in bound {
      var k := run([bound["cmd"]] + arguments);
      if k.Unwound? {
        if named {
          Unbind(vm, bound["var"], undo);
          Restored(dicts, cur, Ser(bound["var"]), value, undo);
        }
        return Unwound(k.u);
      }
      key := k.value;
    }
    r := Respond(run, key, lines, arguments);
    if named {
      Unbind(vm, bound["var"], undo);
      Restored(dicts, cur, Ser(bound["var"]), value, undo);
    }
  }

  /**
   * `Case_of`: the outcome of `CaseOfOf`, with the `as` name bound to the
   * value while the block runs and every scope as it was afterwards,
   * whether the command returns or unwinds.
   */
  method CaseOf(vm: VM, run: Runner, partial: Evaluator, args: seq<Word>, bound: map<Bytes, Word>) returns (r: Out<Word>)
    requires vm.Valid() && vm.alive && "value" in bound && "cases" in bound
    modifies vm, vm.world
    ensures r == CaseOfOf(vm.id, run, partial, args, bound)
    ensures vm.Valid() && vm.alive && vm.world.Kept() && vm.world.dicts == old(vm.world.dicts)
    ensures vm.cns == old(vm.cns) && vm.top == old(vm.top) && vm.heritage == old(vm.heritage)
  {
    var q := QuoteOrElse(vm.id, bound["cases"]);
    if q.Unwound? {
      return Unwound(q.u);
    }
    var cases := partial(q.value);
    if cases.Unwound? {
      return Unwound(cases.u);
    }
    var lines := cases.value;
    if lines.None? || lines.value == [[]] {
      return Unwound(BadBlock(args));
    }
    if lines.value == [] {
      return Unwound(Panicked(GoPanic));
    }
    if "var" in bound {
      var name := SymbolOrElse(vm.id, bound["var"]);
      if name.Unwound? {
        return Unwound(name.u);
      }
    }
    r := Scoped(vm, run, bound, lines.value);
  }
}
