/**
 * The logic commands of commands/logic.go: `and`, `or`, `not`, `=` and
 * `/=`.  `and` and `or` look only for the word False, so that every
 * other word counts as true; `not` accepts only Bools.  Each loop of the
 * source is a method proved against a function saying what it answers.
 */
module Logic {
  import opened Words
  import opened Machine
  import opened Api
  import opened Natives

  // -------------------------------------------------------------------
  // Specifications

  /** The index of the first word of `ws` that is not `v`, or `|ws|` when there is none. */
  function FirstOther(ws: seq<Word>, v: Word): (k: nat)
    ensures k <= |ws|
    ensures forall j | 0 <= j < k :: ws[j] == v
    ensures k < |ws| ==> ws[k] != v
  {
    if ws == [] then 0
    else if ws[0] != v then 0
    else 1 + FirstOther(ws[1..], v)
  }

  /** What `and` answers: True for nothing, False if any word is False, the last word otherwise. */
  function AndOf(args: seq<Word>): Word
  {
    if args == [] then True
    else if False in args then False
    else args[|args| - 1]
  }

  /** What `or` answers: False for nothing or only Falses, otherwise the first word that is not False. */
  function OrOf(args: seq<Word>): Word
  {
    var k := FirstOther(args, False);
    if k == |args| then False else args[k]
  }

  /** What `=` answers: True for fewer than two words; `a.Equals(b)` for two; every later word `Equals` the first for more. */
  function EqualsOf(args: seq<Word>): Word
  {
    if |args| <= 1 then True
    else if |args| == 2 then ToBool(Equals(args[0], args[1]))
    else ToBool(forall i | 1 <= i < |args| :: Equals(args[i], args[0]))
  }

  /** What `/=` answers: False for fewer than two words; `!a.Equals(b)` for two; no later word `Equals` the first for more. */
  function NotEqualsOf(args: seq<Word>): Word
  {
    if |args| <= 1 then False
    else if |args| == 2 then ToBool(!Equals(args[0], args[1]))
    else ToBool(forall i | 1 <= i < |args| :: !Equals(args[i], args[0]))
  }

  // -------------------------------------------------------------------
  // The commands

  /** `and`: the last word unless some word is False. */
  method And(args: seq<Word>) returns (r: Word)
    ensures r == AndOf(args)
  {
    if |args| == 0 {
      return True;
    } else if |args| == 1 {
      return args[0];
    }
    r := args[0];
    var i := 0;
    while i < |args|
      invariant 0 <= i <= |args|
      invariant False !in args[..i]
      invariant 0 < i ==> r == args[i - 1]
    {
      r := args[i];
      if r.Bool? && !r.truth {
        assert args[i] == False;
        return False;
      }
      assert args[..i + 1] == args[..i] + [args[i]];
      i := i + 1;
    }
    assert args[..i] == args;
  }

  /** `or`: the first word that is not False, or False. */
  method Or(args: seq<Word>) returns (r: Word)
    ensures r == OrOf(args)
  {
    if |args| == 0 {
      return False;
    } else if |args| == 1 {
      return args[0];
    }
    var i := 0;
    while i < |args|
      invariant 0 <= i <= |args|
      invariant forall j | 0 <= j < i :: args[j] == False
    {
      r := args[i];
      if r.Bool? {
        if r.truth {
          OrStopsAt(args, i);
          return r;
        }
      } else {
        OrStopsAt(args, i);
        return r;
      }
      i := i + 1;
    }
    OrStopsAt(args, i);
    return False;
  }

  /** The words before `k` are False and the one at `k` is not (or there is none): `or` answers there. */
  lemma OrStopsAt(args: seq<Word>, k: nat)
    requires k <= |args| && forall j | 0 <= j < k :: args[j] == False
    requires k < |args| ==> args[k] != False
    ensures OrOf(args) == if k == |args| then False else args[k]
  {
  }

  /** `not`: False for nothing; otherwise each argument, which must be a Bool, negated. */
  function Not(vm: nat, args: seq<Word>): (r: Out<Word>)
    ensures args == [] ==> r == Done(False)
    ensures |args| == 1 && args[0].Bool? ==> r == Done(ToBool(!args[0].truth))
    ensures |args| == 1 && !args[0].Bool? ==> r == Unwound(Mismatch(vm, "bool", args[0]))
    ensures |args| >= 2 ==>
      (r.Done? <==> forall i | 0 <= i < |args| :: args[i].Bool?)
    ensures |args| >= 2 && r.Done? ==>
      r.value.List? && |r.value.items| == |args| &&
      forall i | 0 <= i < |args| :: r.value.items[i] == ToBool(!args[i].truth)
  {
    if args == [] then Done(False) else MapOrApplyOut(args, w => Negated(vm, w))
  }

  function Negated(vm: nat, w: Word): (r: Out<Word>)
    ensures r.Done? <==> w.Bool?
    ensures r.Done? ==> r.value == ToBool(!w.truth)
    ensures r.Unwound? ==> r.u == Mismatch(vm, "bool", w)
  {
    match BoolOrElse(vm, w)
    case Done(b) => Done(ToBool(!b))
    case Unwound(u) => Unwound(u)
  }

  /** `=`: the two words compared, or every later word compared with the first. */
  method EqualsCmd(args: seq<Word>) returns (r: Word)
    ensures r == EqualsOf(args)
  {
    if |args| <= 1 {
      return True;
    } else if |args| == 2 {
      return ToBool(Equals(args[0], args[1]));
    }
    var head := args[0];
    var i := 1;
    while i < |args|
      invariant 1 <= i <= |args|
      invariant forall j | 1 <= j < i :: Equals(args[j], head)
    {
      if !Equals(args[i], head) {
        return False;
      }
      i := i + 1;
    }
    return True;
  }

  /** `/=`: the two words compared, or no later word equal to the first. */
  method NotEquals(args: seq<Word>) returns (r: Word)
    ensures r == NotEqualsOf(args)
  {
    if |args| <= 1 {
      return False;
    } else if |args| == 2 {
      return ToBool(!Equals(args[0], args[1]));
    }
    var head := args[0];
    var i := 1;
    while i < |args|
      invariant 1 <= i <= |args|
      invariant forall j | 1 <= j < i :: !Equals(args[j], head)
    {
      if Equals(args[i], head) {
        return False;
      }
      i := i + 1;
    }
    return True;
  }

  // -------------------------------------------------------------------
  // Properties

  /** On Bools alone, `and` is conjunction and `or` is disjunction. */
  lemma OnBools(args: seq<Word>)
    requires forall i | 0 <= i < |args| :: args[i].Bool?
    ensures AndOf(args) == ToBool(forall i | 0 <= i < |args| :: args[i].truth)
    ensures OrOf(args) == ToBool(exists i | 0 <= i < |args| :: args[i].truth)
  {
    var k := FirstOther(args, False);
    if k < |args| {
      assert args[k].truth;
    } else {
      forall i | 0 <= i < |args| ensures !args[i].truth {
        assert args[i] == False;
      }
    }
    if False in args {
      var j :| 0 <= j < |args| && args[j] == False;
      assert !args[j].truth;
    } else if args != [] {
      forall i | 0 <= i < |args| ensures args[i].truth {
        assert args[i] != False;
      }
    }
  }

  /** `and` and `or` of a single word give that word back, whatever it is. */
  lemma OfOne(w: Word)
    ensures AndOf([w]) == w && OrOf([w]) == w
  {
  }

  /** `or` answers False exactly when every word is False; `and` answers False exactly when some word is. */
  lemma FalseOnlyFromFalse(args: seq<Word>)
    ensures OrOf(args) == False <==> forall i | 0 <= i < |args| :: args[i] == False
    ensures args != [] ==> (AndOf(args) == False <==> False in args)
  {
  }

  /** `not` of a Bool, negated again, gives the Bool back. */
  lemma NotTwice(vm: nat, t: bool)
    ensures Not(vm, [Bool(t)]).Done?
    ensures Not(vm, [Not(vm, [Bool(t)]).value]) == Done(Bool(t))
  {
  }

  /** `=` and `/=` never both answer True; on two words exactly one of them does. */
  lemma EqualsExclusive(args: seq<Word>)
    ensures !(EqualsOf(args) == True && NotEqualsOf(args) == True)
    ensures |args| == 2 ==> (EqualsOf(args) == True <==> NotEqualsOf(args) == False)
  {
    if |args| > 2 && EqualsOf(args) == True {
      assert Equals(args[1], args[0]);
    }
  }

  /**
   * Two words are compared first against second, more than two each
   * against the first; as `Equals` is not symmetric, `= true "true"`
   * answers False while `= true "true" "true"` answers True.
   */
  lemma EqualsDirection()
    ensures EqualsOf([True, Sym("true")]) == False
    ensures EqualsOf([True, Sym("true"), Sym("true")]) == True
  {
    EqualsNotSymmetric();
  }
}
