/**
 * The dict commands of src/gelo/commands/dict.go: `Dict`, the `dict`
 * aggregate and its subcommands, and `zip-map`.
 *
 * A subcommand that changes its first argument changes the `*Dict` that
 * argument holds, in place.  When the argument is a dict word, that object
 * is given to the command as `held`; any other argument is read by
 * `DictOrElse` into a fresh object, whose changes nobody else sees.  What
 * such a command does is specified by a function giving its reply and the
 * bindings of the dict afterwards (`Change`); the method on the object is
 * proved to do exactly that.
 */
module DictCmds {
  import opened Base
  import opened Words
  import opened Errors
  import opened Machine
  import opened Api
  import opened Dicts

  // -------------------------------------------------------------------
  // Dict

  /** The RuntimeError of `Dict` given something that does not read as a dict. */
  function Unreadable(vm: nat, w: Word): Unwind
  {
    Panicked(RuntimeError(Some(vm), [FStr("Cannot unserialize"), FWord(w), FStr("into a dict")]))
  }

  /**
   * `Dict`: the empty dict with no argument, the dict a symbol or a quote
   * unserialises to with one; anything else that does not read as a dict
   * raises, and so do several arguments.
   */
  function DictCon(vm: nat, args: seq<Word>): (r: Out<Word>)
    ensures args == [] ==> r == Done(Dict(map[]))
    ensures |args| > 1 ==> r == Unwound(BadArgs(vm, "Dict", "{{k1 v1} {k2 v2} ... {kn vn}}", args))
    ensures |args| == 1 ==> (r.Done? <==> UnserializedFrom(args[0]).Ok?)
    ensures |args| == 1 && r.Done? ==> r.value == Dict(UnserializedFrom(args[0]).value)
    ensures |args| == 1 && UnserializedFrom(args[0]).NotOk? ==> r == Unwound(Unreadable(vm, args[0]))
  {
    if args == [] then Done(Dict(map[]))
    else if |args| != 1 then Unwound(BadArgs(vm, "Dict", "{{k1 v1} {k2 v2} ... {kn vn}}", args))
    else match UnserializedFrom(args[0])
      case Ok(m) => Done(Dict(m))
      case NotOk => Unwound(Unreadable(vm, args[0]))
      case Crash => Unwound(Panicked(GoPanic))
  }

  /** `Dict` reads a dict's entries back from a quote, each value as the symbol of its text, and from the symbol of its serialisation. */
  lemma DictConReadsEntries(vm: nat, m: map<Bytes, Word>, protected: bool)
    ensures DictCon(vm, [Quote(Concat(EntriesOf(SortedKeys(m.Keys), ValueSers(m))), protected)]) == Done(Dict(SymValues(m)))
    ensures DictCon(vm, [Sym(Ser(Dict(m)))]) == Done(Dict(SymValues(m)))
  {
    DictSourceRoundTrip(m, protected);
    DictSerRoundTrip(m);
  }

  /** A dict word is not text to unserialise: `Dict` refuses it. */
  lemma DictConRefusesDict(vm: nat, m: map<Bytes, Word>)
    ensures DictCon(vm, [Dict(m)]) == Unwound(Unreadable(vm, Dict(m)))
  {
  }

  // -------------------------------------------------------------------
  // What a subcommand does to the dict it is given

  /** The reply of a subcommand and the bindings of its dict afterwards. */
  datatype Change = Change(reply: Word, after: map<Bytes, Word>)

  /** The outcome the caller sees. */
  function Reply(c: Out<Change>): (r: Out<Word>)
    ensures r.Done? <==> c.Done?
    ensures r.Done? ==> r.value == c.value.reply
    ensures r.Unwound? ==> r.u == c.u
  {
    match c
    case Done(ch) => Done(ch.reply)
    case Unwound(u) => Unwound(u)
  }

  /** The bindings afterwards: a subcommand that raises has changed nothing. */
  function After(c: Out<Change>, before: map<Bytes, Word>): (m: map<Bytes, Word>)
    ensures c.Unwound? ==> m == before
  {
    if c.Done? then c.value.after else before
  }

  /** The dict the first argument reads as, with the outcome of `f` on it. */
  function WithDict(vm: nat, w: Word, f: map<Bytes, Word> -> Out<Change>): (r: Out<Change>)
    ensures DictOrElse(vm, w).Unwound? ==> r == Unwound(DictOrElse(vm, w).u)
    ensures DictOrElse(vm, w).Done? ==> r == f(DictOrElse(vm, w).value)
  {
    match DictOrElse(vm, w)
    case Unwound(u) => Unwound(u)
    case Done(m) => f(m)
  }

  // -------------------------------------------------------------------
  // get, get!, set!, unset!, set?

  /** The RuntimeError of `dict.get` for a key with no binding and no default. */
  function Missing(vm: nat, k: Word): Unwind
  {
    Panicked(RuntimeError(Some(vm), [FStr("dictionary does not contain"), FWord(k)]))
  }

  /**
   * `dict.get dictionary key default?`: the value bound to the key's
   * serialisation; for a key with no binding, the default when there is
   * one, otherwise a RuntimeError.
   */
  function Get(vm: nat, args: seq<Word>): (r: Out<Word>)
    ensures !(|args| == 2 || |args| == 3) ==> r == Unwound(BadArgs(vm, "dict.get", "dictionary key default?", args))
    ensures (|args| == 2 || |args| == 3) && DictOrElse(vm, args[0]).Unwound? ==> r == Unwound(DictOrElse(vm, args[0]).u)
    ensures (|args| == 2 || |args| == 3) && DictOrElse(vm, args[0]).Done? ==>
      (Ser(args[1]) in DictOrElse(vm, args[0]).value ==> r == Done(DictOrElse(vm, args[0]).value[Ser(args[1])])) &&
      (Ser(args[1]) !in DictOrElse(vm, args[0]).value ==> r == if |args| == 3 then Done(args[2]) else Unwound(Missing(vm, args[1])))
  {
    if !(|args| == 2 || |args| == 3) then Unwound(BadArgs(vm, "dict.get", "dictionary key default?", args))
    else match DictOrElse(vm, args[0])
      case Unwound(u) => Unwound(u)
      case Done(m) =>
        var k := Ser(args[1]);
        if k in m then Done(m[k])
        else if |args| == 3 then Done(args[2])
        else Unwound(Missing(vm, args[1]))
  }

  /** `dict.get!` on the bindings `m`: a missing key is bound to the default. */
  function Defaulted(m: map<Bytes, Word>, k: Word, df: Word): (r: Out<Change>)
    ensures r.Done? && Ser(k) in r.value.after && r.value.after[Ser(k)] == r.value.reply
    ensures r.value.after.Keys == m.Keys + {Ser(k)}
    ensures forall j | j in m :: r.value.after[j] == m[j]
    ensures Ser(k) !in m ==> r.value.reply == df
  {
    var key := Ser(k);
    if key in m then Done(Change(m[key], m)) else Done(Change(df, m[key := df]))
  }

  /**
   * `dict.get! dictionary key default`: what `dict.get` with the default
   * returns; a missing key is bound to the default, and every binding
   * already there is left as it was.
   */
  function GetxOf(vm: nat, args: seq<Word>): (r: Out<Change>)
    ensures |args| != 3 ==> r == Unwound(BadArgs(vm, "dict.get!", "dictionary key default", args))
    ensures |args| == 3 ==> r == WithDict(vm, args[0], m => Defaulted(m, args[1], args[2]))
  {
    if |args| != 3 then Unwound(BadArgs(vm, "dict.get!", "dictionary key default", args))
    else WithDict(vm, args[0], m => Defaulted(m, args[1], args[2]))
  }

  /** `dict.set!` on the bindings `m`. */
  function Stored(m: map<Bytes, Word>, k: Word, v: Word): (r: Out<Change>)
    ensures r.Done? && r.value.reply == v && Ser(k) in r.value.after && r.value.after[Ser(k)] == v
    ensures r.value.after.Keys == m.Keys + {Ser(k)}
    ensures forall j | j in m && j != Ser(k) :: r.value.after[j] == m[j]
  {
    Done(Change(v, m[Ser(k) := v]))
  }

  /** `dict.set! dictionary key value`: binds the key's serialisation to the value, and returns the value. */
  function SetxOf(vm: nat, args: seq<Word>): (r: Out<Change>)
    ensures |args| != 3 ==> r == Unwound(BadArgs(vm, "dict.set", "dictionary key value", args))
    ensures |args| == 3 ==> r == WithDict(vm, args[0], m => Stored(m, args[1], args[2]))
  {
    if |args| != 3 then Unwound(BadArgs(vm, "dict.set", "dictionary key value", args))
    else WithDict(vm, args[0], m => Stored(m, args[1], args[2]))
  }

  /** The RuntimeError of `dict.unset!` for a key with no binding. */
  function NotThere(vm: nat): Unwind
  {
    Panicked(RuntimeError(Some(vm), [FStr("dict.unset! attempted to unset " + "a key not in dictionary")]))
  }

  /** `dict.unset!` on the bindings `m`. */
  function Removed(vm: nat, m: map<Bytes, Word>, k: Word): (r: Out<Change>)
    ensures r.Done? <==> Ser(k) in m
    ensures r.Done? ==> r.value.reply == m[Ser(k)] && r.value.after.Keys == m.Keys - {Ser(k)}
    ensures r.Done? ==> forall j | j in r.value.after :: r.value.after[j] == m[j]
    ensures r.Unwound? ==> r.u == NotThere(vm)
  {
    var key := Ser(k);
    if key in m then Done(Change(m[key], m - {key})) else Unwound(NotThere(vm))
  }

  /** `dict.unset! dictionary key`: removes the key and returns the value it had; a missing key raises. */
  function UnsetxOf(vm: nat, args: seq<Word>): (r: Out<Change>)
    ensures |args| != 2 ==> r == Unwound(BadArgs(vm, "dict.unset!", "dictionary key", args))
    ensures |args| == 2 ==> r == WithDict(vm, args[0], m => Removed(vm, m, args[1]))
  {
    if |args| != 2 then Unwound(BadArgs(vm, "dict.unset!", "dictionary key", args))
    else WithDict(vm, args[0], m => Removed(vm, m, args[1]))
  }

  /**
   * `dict.set?` as written: the first argument is type-asserted to a
   * `*Dict` before `DictOrElse` sees it, so a dict given as text is a Go
   * runtime panic.
   */
  function SetpAsWritten(vm: nat, args: seq<Word>): (r: Out<Word>)
    ensures |args| != 2 ==> r == Unwound(BadArgs(vm, "dict.setp?", "dictionary key", args))
    ensures |args| == 2 && !args[0].Dict? ==> r == Unwound(Panicked(GoPanic))
    ensures |args| == 2 && args[0].Dict? ==> r == Done(ToBool(Ser(args[1]) in args[0].rep))
  {
    if |args| != 2 then Unwound(BadArgs(vm, "dict.setp?", "dictionary key", args))
    else if !args[0].Dict? then Unwound(Panicked(GoPanic))
    else Done(ToBool(Ser(args[1]) in args[0].rep))
  }

  /** `dict.set? dictionary key`: whether the key's serialisation is bound, for any argument `DictOrElse` reads. */
  function Setp(vm: nat, args: seq<Word>): (r: Out<Word>)
    ensures |args| != 2 ==> r == Unwound(BadArgs(vm, "dict.setp?", "dictionary key", args))
    ensures |args| == 2 && DictOrElse(vm, args[0]).Unwound? ==> r == Unwound(DictOrElse(vm, args[0]).u)
    ensures |args| == 2 && DictOrElse(vm, args[0]).Done? ==> r == Done(ToBool(Ser(args[1]) in DictOrElse(vm, args[0]).value))
  {
    if |args| != 2 then Unwound(BadArgs(vm, "dict.setp?", "dictionary key", args))
    else match DictOrElse(vm, args[0])
      case Unwound(u) => Unwound(u)
      case Done(m) => Done(ToBool(Ser(args[1]) in m))
  }

  /** As written, `set?` panics on a quote holding a dict's entries, such as `{a b}`; as intended it answers whether the key is bound. */
  lemma SetpOnTextAsWritten(vm: nat, m: map<Bytes, Word>, k: Word)
    ensures var text := Quote(Concat(EntriesOf(SortedKeys(m.Keys), ValueSers(m))), false);
      SetpAsWritten(vm, [text, k]) == Unwound(Panicked(GoPanic)) &&
      Setp(vm, [text, k]) == Done(ToBool(Ser(k) in m))
  {
    DictSourceRoundTrip(m, false);
  }

  /** Both agree on dict words. */
  lemma SetpAgreesOnDicts(vm: nat, m: map<Bytes, Word>, k: Word)
    ensures SetpAsWritten(vm, [Dict(m), k]) == Setp(vm, [Dict(m), k])
  {
  }

  // -------------------------------------------------------------------
  // How the subcommands combine

  /** After `set!`, `get` finds the value and `set?` answers true. */
  lemma SetThenGet(vm: nat, m: map<Bytes, Word>, k: Word, v: Word)
    ensures SetxOf(vm, [Dict(m), k, v]).Done?
    ensures var after := SetxOf(vm, [Dict(m), k, v]).value.after;
      Get(vm, [Dict(after), k]) == Done(v) && Setp(vm, [Dict(after), k]) == Done(True)
  {
  }

  /** `get!` returns what `get` with the same default returns, and `get` then finds it bound. */
  lemma GetxThenGet(vm: nat, m: map<Bytes, Word>, k: Word, df: Word)
    ensures GetxOf(vm, [Dict(m), k, df]).Done?
    ensures var c := GetxOf(vm, [Dict(m), k, df]).value;
      Get(vm, [Dict(m), k, df]) == Done(c.reply) && Get(vm, [Dict(c.after), k]) == Done(c.reply)
  {
  }

  /** A second `get!` of the same key changes nothing and returns the same value, whatever its default. */
  lemma GetxTwice(vm: nat, m: map<Bytes, Word>, k: Word, df: Word, df2: Word)
    ensures var c := GetxOf(vm, [Dict(m), k, df]).value;
      GetxOf(vm, [Dict(c.after), k, df2]) == Done(c)
  {
  }

  /** `unset!` after `set!` of the same key returns the value set and leaves the dict without the key. */
  lemma SetThenUnset(vm: nat, m: map<Bytes, Word>, k: Word, v: Word)
    ensures var after := SetxOf(vm, [Dict(m), k, v]).value.after;
      UnsetxOf(vm, [Dict(after), k]) == Done(Change(v, m - {Ser(k)}))
  {
    var after := m[Ser(k) := v];
    assert after - {Ser(k)} == m - {Ser(k)};
  }

  /** `unset!` of a key that is bound, then `set!` of the value it returned, gives back the dict. */
  lemma UnsetThenSet(vm: nat, m: map<Bytes, Word>, k: Word)
    requires Ser(k) in m
    ensures UnsetxOf(vm, [Dict(m), k]).Done?
    ensures var c := UnsetxOf(vm, [Dict(m), k]).value;
      SetxOf(vm, [Dict(c.after), k, c.reply]) == Done(Change(m[Ser(k)], m))
  {
    var key := Ser(k);
    assert (m - {key})[key := m[key]] == m;
  }

  /** `unset!` raises exactly when `set?` answers false. */
  lemma UnsetNeedsBinding(vm: nat, m: map<Bytes, Word>, k: Word)
    ensures UnsetxOf(vm, [Dict(m), k]).Unwound? <==> Setp(vm, [Dict(m), k]) == Done(False)
  {
    ToBoolSplits(Ser(k) in m);
  }

  lemma ToBoolSplits(b: bool)
    ensures ToBool(b) == False <==> !b
  {
  }

  // -------------------------------------------------------------------
  // add and sub

  /** `d1 + d2`: the bindings of `d1`, and those of `d2` whose key `d1` does not bind. */
  function Added(d1: map<Bytes, Word>, d2: map<Bytes, Word>): (r: map<Bytes, Word>)
    ensures r.Keys == d1.Keys + d2.Keys
  {
    d2 + d1
  }

  /** `dict.add` never overwrites: every binding of `d1` stays, and only the keys `d1` lacks are taken from `d2`. */
  lemma AddedBinds(d1: map<Bytes, Word>, d2: map<Bytes, Word>)
    ensures forall k | k in d1 :: Added(d1, d2)[k] == d1[k]
    ensures forall k | k in d2 && k !in d1 :: Added(d1, d2)[k] == d2[k]
  {
  }

  /** `d1 - d2`: the bindings of `d1` whose key `d2` does not bind. */
  function Subtracted(d1: map<Bytes, Word>, d2: map<Bytes, Word>): (r: map<Bytes, Word>)
    ensures r.Keys == d1.Keys - d2.Keys
  {
    d1 - d2.Keys
  }

  /** `dict.sub` removes the keys of `d2` and keeps every other binding of `d1`. */
  lemma SubtractedBinds(d1: map<Bytes, Word>, d2: map<Bytes, Word>)
    ensures forall k | k in Subtracted(d1, d2) :: Subtracted(d1, d2)[k] == d1[k]
  {
  }

  /** Adding twice adds nothing more. */
  lemma AddedIdempotent(d1: map<Bytes, Word>, d2: map<Bytes, Word>)
    ensures Added(Added(d1, d2), d2) == Added(d1, d2)
  {
  }

  /** `d1 + d2 /= d2 + d1`: a key both bind keeps the left value. */
  lemma AddedNotSymmetric()
    ensures Added(map["a" := True], map["a" := False]) != Added(map["a" := False], map["a" := True])
  {
    assert Added(map["a" := True], map["a" := False])["a"] == True;
  }

  /** Subtracting what was added gives the subtraction of the original. */
  lemma SubUndoesAdd(d1: map<Bytes, Word>, d2: map<Bytes, Word>)
    ensures Subtracted(Added(d1, d2), d2) == Subtracted(d1, d2)
  {
  }

  /** Subtracting `d2` and then adding it lets `d2` win every shared key: `d2 + d1`. */
  lemma AddAfterSub(d1: map<Bytes, Word>, d2: map<Bytes, Word>)
    ensures Added(Subtracted(d1, d2), d2) == Added(d2, d1)
  {
  }

  /** A dict less itself is empty. */
  lemma SubSelf(d: map<Bytes, Word>)
    ensures Subtracted(d, d) == map[]
  {
  }

  /** `dict.add` and `dict.sub` on the dicts their two arguments read as; both return the first dict. */
  function Combined(vm: nat, args: seq<Word>, name: Bytes, f: (map<Bytes, Word>, map<Bytes, Word>) -> map<Bytes, Word>): (r: Out<Change>)
    ensures |args| != 2 ==> r == Unwound(BadArgs(vm, name, "dictionary1 dictionary2", args))
    ensures |args| == 2 && DictOrElse(vm, args[0]).Unwound? ==> r == Unwound(DictOrElse(vm, args[0]).u)
    ensures |args| == 2 && DictOrElse(vm, args[0]).Done? && DictOrElse(vm, args[1]).Unwound? ==> r == Unwound(DictOrElse(vm, args[1]).u)
    ensures r.Done? ==> r.value.after == f(DictOrElse(vm, args[0]).value, DictOrElse(vm, args[1]).value)
    ensures r.Done? ==> r.value.reply == Dict(r.value.after)
  {
    if |args| != 2 then Unwound(BadArgs(vm, name, "dictionary1 dictionary2", args))
    else match DictOrElse(vm, args[0])
      case Unwound(u) => Unwound(u)
      case Done(d1) =>
        match DictOrElse(vm, args[1])
        case Unwound(u) => Unwound(u)
        case Done(d2) => var m := f(d1, d2); Done(Change(Dict(m), m))
  }

  function AddOf(vm: nat, args: seq<Word>): Out<Change>
  {
    Combined(vm, args, "dict.add", Added)
  }

  function SubOf(vm: nat, args: seq<Word>): Out<Change>
  {
    Combined(vm, args, "dict.sub", Subtracted)
  }

  // -------------------------------------------------------------------
  // The commands on the object

  /** When a `*Dict` object is given, the first argument is the dict word holding it. */
  ghost predicate Holds(args: seq<Word>, held: Option<Dictionary>)
    reads if held.Some? then {held.value} else {}
  {
    held.Some? ==> |args| > 0 && args[0] == Dict(held.value.rep)
  }

  function Object(held: Option<Dictionary>): set<object>
  {
    if held.Some? then {held.value} else {}
  }

  /** `DictOrElse` on the first argument: the object it holds, or a fresh object with the bindings it reads as. */
  method Open(vm: nat, w: Word, held: Option<Dictionary>) returns (r: Out<Dictionary>)
    requires held.Some? ==> w == Dict(held.value.rep)
    ensures r.Done? <==> DictOrElse(vm, w).Done?
    ensures r.Done? ==> r.value.rep == DictOrElse(vm, w).value
    ensures r.Unwound? ==> r.u == DictOrElse(vm, w).u
    ensures held.Some? ==> r == Done(held.value)
    ensures held.None? && r.Done? ==> fresh(r.value) && r.value.Valid()
  {
    if held.Some? {
      return Done(held.value);
    }
    match DictOrElse(vm, w) {
      case Unwound(u) =>
        return Unwound(u);
      case Done(m) =>
        var d := new Dictionary();
        d.rep := m;
        return Done(d);
    }
  }

  /** `Dict_getx`: `GetxOf` carried out on the dict object. */
  method Getx(vm: nat, args: seq<Word>, held: Option<Dictionary>) returns (r: Out<Word>)
    requires Holds(args, held)
    modifies Object(held)
    ensures r == Reply(GetxOf(vm, args))
    ensures held.Some? ==> held.value.rep == After(GetxOf(vm, args), old(held.value.rep))
    ensures held.Some? && old(held.value.Valid()) ==> held.value.Valid()
  {
    if |args| != 3 {
      return Unwound(BadArgs(vm, "dict.get!", "dictionary key default", args));
    }
    var o := Open(vm, args[0], held);
    if o.Unwound? {
      return Unwound(o.u);
    }
    var d := o.value;
    var k := args[1];
    var ret, ok := d.Get(k);
    if !ok {
      var df := args[2];
      d.Set(k, df);
      return Done(df);
    }
    return Done(ret);
  }

  /** `Dict_setx`: `SetxOf` carried out on the dict object. */
  method Setx(vm: nat, args: seq<Word>, held: Option<Dictionary>) returns (r: Out<Word>)
    requires Holds(args, held)
    modifies Object(held)
    ensures r == Reply(SetxOf(vm, args))
    ensures held.Some? ==> held.value.rep == After(SetxOf(vm, args), old(held.value.rep))
    ensures held.Some? && old(held.value.Valid()) ==> held.value.Valid()
  {
    if |args| != 3 {
      return Unwound(BadArgs(vm, "dict.set", "dictionary key value", args));
    }
    var o := Open(vm, args[0], held);
    if o.Unwound? {
      return Unwound(o.u);
    }
    var d := o.value;
    var k, v := args[1], args[2];
    d.Set(k, v);
    return Done(v);
  }

  /** `Dict_unsetx`: `UnsetxOf` carried out on the dict object. */
  method Unsetx(vm: nat, args: seq<Word>, held: Option<Dictionary>) returns (r: Out<Word>)
    requires Holds(args, held)
    modifies Object(held)
    ensures r == Reply(UnsetxOf(vm, args))
    ensures held.Some? ==> held.value.rep == After(UnsetxOf(vm, args), old(held.value.rep))
    ensures held.Some? && old(held.value.Valid()) ==> held.value.Valid()
  {
    if |args| != 2 {
      return Unwound(BadArgs(vm, "dict.unset!", "dictionary key", args));
    }
    var o := Open(vm, args[0], held);
    if o.Unwound? {
      return Unwound(o.u);
    }
    var d := o.value;
    var k := args[1];
    var v, ok := d.Get(k);
    if !ok {
      return Unwound(NotThere(vm));
    }
    d.Del(k);
    return Done(v);
  }

  /** The bindings of `d2` whose keys the loop has visited. */
  function Visited(d2: map<Bytes, Word>, rest: set<Bytes>): map<Bytes, Word>
  {
    d2 - rest
  }

  /** `Dict_add`: the keys of the second dict, in any order, are added to the first object where it lacks them. */
  method Add(vm: nat, args: seq<Word>, held: Option<Dictionary>) returns (r: Out<Word>)
    requires Holds(args, held)
    modifies Object(held)
    ensures r == Reply(AddOf(vm, args))
    ensures held.Some? ==> held.value.rep == After(AddOf(vm, args), old(held.value.rep))
    ensures held.Some? && old(held.value.Valid()) ==> held.value.Valid()
  {
    if |args| != 2 {
      return Unwound(BadArgs(vm, "dict.add", "dictionary1 dictionary2", args));
    }
    var o := Open(vm, args[0], held);
    if o.Unwound? {
      return Unwound(o.u);
    }
    var d1 := o.value;
    var second := DictOrElse(vm, args[1]);
    if second.Unwound? {
      return Unwound(second.u);
    }
    var d2 := second.value;
    AddInto(d1, d2);
    return Done(Dict(d1.rep));
  }

  /** The invariant of the `dict.add` loop: the keys of `d2` visited so far have been added. */
  ghost predicate AddedSoFar(rep: map<Bytes, Word>, m1: map<Bytes, Word>, d2: map<Bytes, Word>, rest: set<Bytes>)
  {
    rest <= d2.Keys && rep == Added(m1, Visited(d2, rest))
  }

  /**
   * The loop of `Dict_add`: the keys of `d2`, in any order, are added to
   * `d1` where it lacks them.  The bindings are gathered turn by turn and
   * stored in the object when the loop ends, with the cached serialisation
   * dropped when a key was added, as each `StrSet` would.
   */
  method AddInto(d1: Dictionary, d2: map<Bytes, Word>)
    modifies d1
    ensures d1.rep == Added(old(d1.rep), d2)
    ensures old(d1.Valid()) ==> d1.Valid()
  {
    var cur, changed := AddedTo(d1.rep, d2);
    if changed {
      d1.ser := None;
      d1.rep := cur;
    }
  }

  /** The turns of the loop over the keys of `d2`, in any order; `changed` tells whether a key was added. */
  method AddedTo(m1: map<Bytes, Word>, d2: map<Bytes, Word>) returns (cur: map<Bytes, Word>, changed: bool)
    ensures cur == Added(m1, d2)
    ensures changed <==> cur != m1
  {
    cur, changed := m1, false;
    var rest := d2.Keys;
    while rest != {}
      invariant AddedSoFar(cur, m1, d2, rest)
      invariant changed <==> cur != m1
      decreases rest
    {
      var k :| k in rest;
      AddStep(m1, d2, rest, k);
      if k !in cur {
        cur, changed := cur[k := d2[k]], true;
      }
      rest := rest - {k};
    }
    assert Visited(d2, {}) == d2;
  }

  /** One turn of the `dict.add` loop. */
  lemma AddStep(m1: map<Bytes, Word>, d2: map<Bytes, Word>, rest: set<Bytes>, k: Bytes)
    requires k in rest && rest <= d2.Keys
    ensures var before := Added(m1, Visited(d2, rest));
      Added(m1, Visited(d2, rest - {k})) == if k in before then before else before[k := d2[k]]
  {
  }

  /** `Dict_sub`: the keys of the second dict, in any order, are removed from the first object. */
  method Sub(vm: nat, args: seq<Word>, held: Option<Dictionary>) returns (r: Out<Word>)
    requires Holds(args, held)
    modifies Object(held)
    ensures r == Reply(SubOf(vm, args))
    ensures held.Some? ==> held.value.rep == After(SubOf(vm, args), old(held.value.rep))
    ensures held.Some? && old(held.value.Valid()) ==> held.value.Valid()
  {
    if |args| != 2 {
      return Unwound(BadArgs(vm, "dict.sub", "dictionary1 dictionary2", args));
    }
    var o := Open(vm, args[0], held);
    if o.Unwound? {
      return Unwound(o.u);
    }
    var d1 := o.value;
    var second := DictOrElse(vm, args[1]);
    if second.Unwound? {
      return Unwound(second.u);
    }
    var d2 := second.value;
    SubFrom(d1, d2);
    return Done(Dict(d1.rep));
  }

  /** The invariant of the `dict.sub` loop: the keys of `d2` visited so far have been removed. */
  ghost predicate SubtractedSoFar(rep: map<Bytes, Word>, m1: map<Bytes, Word>, d2: map<Bytes, Word>, rest: set<Bytes>)
  {
    rest <= d2.Keys && rep == Subtracted(m1, Visited(d2, rest))
  }

  /** The loop of `Dict_sub`: the keys of `d2`, in any order, are removed from `d1`, gathered as in `AddInto`. */
  method SubFrom(d1: Dictionary, d2: map<Bytes, Word>)
    modifies d1
    ensures d1.rep == Subtracted(old(d1.rep), d2)
    ensures old(d1.Valid()) ==> d1.Valid()
  {
    var cur, changed := SubtractedFrom(d1.rep, d2);
    if changed {
      d1.ser := None;
      d1.rep := cur;
    }
  }

  /** The turns of the loop over the keys of `d2`, in any order; `changed` tells whether a key was removed. */
  method SubtractedFrom(m1: map<Bytes, Word>, d2: map<Bytes, Word>) returns (cur: map<Bytes, Word>, changed: bool)
    ensures cur == Subtracted(m1, d2)
    ensures changed <==> cur != m1
  {
    cur, changed := m1, false;
    var rest := d2.Keys;
    while rest != {}
      invariant SubtractedSoFar(cur, m1, d2, rest)
      invariant changed <==> cur != m1
      decreases rest
    {
      var k :| k in rest;
      SubStep(m1, d2, rest, k);
      if k in cur {
        cur, changed := cur - {k}, true;
      }
      rest := rest - {k};
    }
    assert Visited(d2, {}) == d2;
  }

  /** One turn of the `dict.sub` loop. */
  lemma SubStep(m1: map<Bytes, Word>, d2: map<Bytes, Word>, rest: set<Bytes>, k: Bytes)
    requires k in rest && rest <= d2.Keys
    ensures var before := Subtracted(m1, Visited(d2, rest));
      Subtracted(m1, Visited(d2, rest - {k})) == if k in before then before - {k} else before
  {
  }

  // -------------------------------------------------------------------
  // keys, values, items: in Go's map order, which is any order

  /** `order` names every key of `m` exactly once. */
  ghost predicate Enumerates(order: seq<Bytes>, m: map<Bytes, Word>)
  {
    (forall i, j | 0 <= i < j < |order| :: order[i] != order[j]) &&
    (forall i | 0 <= i < |order| :: order[i] in m) &&
    (forall k | k in m :: k in order)
  }

  /** An enumeration has one entry per binding. */
  lemma {:induction false} EnumerationLength(order: seq<Bytes>, m: map<Bytes, Word>)
    requires Enumerates(order, m)
    ensures |order| == |m|
    decreases |order|
  {
    if order == [] {
      assert m.Keys == {};
    } else {
      var last := order[|order| - 1];
      var shorter := order[..|order| - 1];
      var rest := m - {last};
      forall k | k in rest
        ensures k in shorter
      {
        var i :| 0 <= i < |order| && order[i] == k;
        assert i != |order| - 1;
        assert shorter[i] == k;
      }
      EnumerationLength(shorter, rest);
      assert m.Keys == rest.Keys + {last};
    }
  }

  /** The symbols of the keys, in the order given. */
  function KeySyms(order: seq<Bytes>): (r: seq<Word>)
    ensures |r| == |order| && forall i | 0 <= i < |order| :: r[i] == Sym(order[i])
  {
    seq(|order|, i requires 0 <= i < |order| => Sym(order[i]))
  }

  /** The values bound to the keys, in the order given. */
  function ValuesIn(order: seq<Bytes>, m: map<Bytes, Word>): (r: seq<Word>)
    requires forall i | 0 <= i < |order| :: order[i] in m
    ensures |r| == |order| && forall i | 0 <= i < |order| :: r[i] == m[order[i]]
  {
    seq(|order|, i requires 0 <= i < |order| => m[order[i]])
  }

  /** `items`' entry for a key: a list holding the list of the key's symbol and the value's `Copy`. */
  function ItemEntry(k: Bytes, v: Word): Word
  {
    List([List([Sym(k), Copy(v)])])
  }

  /** The entries of the keys, in the order given. */
  function ItemsIn(order: seq<Bytes>, m: map<Bytes, Word>): (r: seq<Word>)
    requires forall i | 0 <= i < |order| :: order[i] in m
    ensures |r| == |order| && forall i | 0 <= i < |order| :: r[i] == ItemEntry(order[i], m[order[i]])
  {
    seq(|order|, i requires 0 <= i < |order| => ItemEntry(order[i], m[order[i]]))
  }

  /** What `dict.keys`, `dict.values` or `dict.items` may return for the arguments: the listing `list` makes of some enumeration of the dict. */
  ghost predicate Listing(vm: nat, args: seq<Word>, name: Bytes, r: Out<Word>, list: (seq<Bytes>, map<Bytes, Word>) -> seq<Word>)
  {
    if |args| != 1 then r == Unwound(BadArgs(vm, name, "dictionary", args))
    else match DictOrElse(vm, args[0])
      case Unwound(u) => r == Unwound(u)
      case Done(m) => exists order :: Enumerates(order, m) && r == Done(List(list(order, m)))
  }

  function KeysList(order: seq<Bytes>, m: map<Bytes, Word>): seq<Word>
  {
    KeySyms(order)
  }

  function ValuesList(order: seq<Bytes>, m: map<Bytes, Word>): seq<Word>
  {
    if forall i | 0 <= i < |order| :: order[i] in m then ValuesIn(order, m) else []
  }

  function ItemsList(order: seq<Bytes>, m: map<Bytes, Word>): seq<Word>
  {
    if forall i | 0 <= i < |order| :: order[i] in m then ItemsIn(order, m) else []
  }

  /** The keys of `m`, visited in any order. */
  method Enumerate(m: map<Bytes, Word>) returns (order: seq<Bytes>)
    ensures Enumerates(order, m)
  {
    order := [];
    var rest := m.Keys;
    while rest != {}
      invariant rest <= m.Keys
      invariant forall i, j | 0 <= i < j < |order| :: order[i] != order[j]
      invariant forall i | 0 <= i < |order| :: order[i] in m && order[i] !in rest
      invariant forall k | k in m && k !in rest :: k in order
      decreases rest
    {
      var k :| k in rest;
      order := order + [k];
      rest := rest - {k};
    }
  }

  /** `Dict_keys`: the symbols of the keys, each once, in Go's map order. */
  method Keys(vm: nat, args: seq<Word>) returns (r: Out<Word>)
    ensures Listing(vm, args, "dict.keys", r, KeysList)
  {
    if |args| != 1 {
      return Unwound(BadArgs(vm, "dict.keys", "dictionary", args));
    }
    match DictOrElse(vm, args[0]) {
      case Unwound(u) =>
        return Unwound(u);
      case Done(m) =>
        var order := Enumerate(m);
        return Done(List(KeysList(order, m)));
    }
  }

  /** `Dict_values`: the values, one per key, in Go's map order. */
  method Values(vm: nat, args: seq<Word>) returns (r: Out<Word>)
    ensures Listing(vm, args, "dict.values", r, ValuesList)
  {
    if |args| != 1 {
      return Unwound(BadArgs(vm, "dict.values", "dictionary", args));
    }
    match DictOrElse(vm, args[0]) {
      case Unwound(u) =>
        return Unwound(u);
      case Done(m) =>
        var order := Enumerate(m);
        return Done(List(ValuesList(order, m)));
    }
  }

  /** `Dict_items`: one entry per key, in Go's map order; its ArgumentError names `dict.values`. */
  method Items(vm: nat, args: seq<Word>) returns (r: Out<Word>)
    ensures Listing(vm, args, "dict.values", r, ItemsList)
  {
    if |args| != 1 {
      return Unwound(BadArgs(vm, "dict.values", "dictionary", args));
    }
    match DictOrElse(vm, args[0]) {
      case Unwound(u) =>
        return Unwound(u);
      case Done(m) =>
        var order := Enumerate(m);
        return Done(List(ItemsList(order, m)));
    }
  }

  /** Whatever the order, `keys` lists each key once and nothing else. */
  lemma KeysCover(vm: nat, m: map<Bytes, Word>, r: Out<Word>)
    requires Listing(vm, [Dict(m)], "dict.keys", r, KeysList)
    ensures r.Done? && |r.value.items| == |m|
    ensures forall k | k in m :: Sym(k) in r.value.items
    ensures forall i | 0 <= i < |m| :: r.value.items[i].Symbol? && r.value.items[i].bytes in m
  {
    var order :| Enumerates(order, m) && r == Done(List(KeysList(order, m)));
    EnumerationLength(order, m);
    forall k | k in m
      ensures Sym(k) in r.value.items
    {
      var i :| 0 <= i < |order| && order[i] == k;
      assert r.value.items[i] == Sym(k);
    }
  }

  /** Whatever the order, `values` lists one value per key. */
  lemma ValuesCover(vm: nat, m: map<Bytes, Word>, r: Out<Word>)
    requires Listing(vm, [Dict(m)], "dict.values", r, ValuesList)
    ensures r.Done? && |r.value.items| == |m|
    ensures forall i | 0 <= i < |m| :: r.value.items[i] in m.Values
  {
    var order :| Enumerates(order, m) && r == Done(List(ValuesList(order, m)));
    EnumerationLength(order, m);
    forall i | 0 <= i < |m|
      ensures r.value.items[i] in m.Values
    {
      assert r.value.items[i] == m[order[i]];
    }
  }

  // -------------------------------------------------------------------
  // The dict aggregate

  /** The subcommands of `dict`. */
  const Subcommands: set<Bytes> := {"set!", "set?", "unset!", "get", "get!", "add", "sub", "keys", "values", "items"}

  /** What running the subcommand `name` on `args` does: its outcome, and, when `tracked`, the bindings of the object it was given before and after. */
  ghost predicate Ran(name: Bytes, vm: nat, args: seq<Word>, r: Out<Word>, tracked: bool, before: map<Bytes, Word>, after: map<Bytes, Word>)
  {
    if name == "get" then r == Get(vm, args) && after == before
    else if name == "set?" then r == Setp(vm, args) && after == before
    else if name == "get!" then Changed(GetxOf(vm, args), r, tracked, before, after)
    else if name == "set!" then Changed(SetxOf(vm, args), r, tracked, before, after)
    else if name == "unset!" then Changed(UnsetxOf(vm, args), r, tracked, before, after)
    else if name == "add" then Changed(AddOf(vm, args), r, tracked, before, after)
    else if name == "sub" then Changed(SubOf(vm, args), r, tracked, before, after)
    else if name == "keys" then Listing(vm, args, "dict.keys", r, KeysList) && after == before
    else if name == "values" then Listing(vm, args, "dict.values", r, ValuesList) && after == before
    else if name == "items" then Listing(vm, args, "dict.values", r, ItemsList) && after == before
    else false
  }

  ghost predicate Changed(c: Out<Change>, r: Out<Word>, tracked: bool, before: map<Bytes, Word>, after: map<Bytes, Word>)
  {
    r == Reply(c) && (tracked ==> after == After(c, before))
  }

  /** The bindings of the object given, if any. */
  function Contents(held: Option<Dictionary>): map<Bytes, Word>
    reads Object(held)
  {
    if held.Some? then held.value.rep else map[]
  }

  /** The subcommand `name` run on `args`. */
  method Dispatch(name: Bytes, vm: nat, args: seq<Word>, held: Option<Dictionary>) returns (r: Out<Word>)
    requires name in Subcommands && Holds(args, held)
    modifies Object(held)
    ensures Ran(name, vm, args, r, held.Some?, old(Contents(held)), Contents(held))
  {
    if name == "get" {
      r := Get(vm, args);
    } else if name == "set?" {
      r := Setp(vm, args);
    } else if name == "get!" {
      r := Getx(vm, args, held);
    } else if name == "set!" {
      r := Setx(vm, args, held);
    } else if name == "unset!" {
      r := Unsetx(vm, args, held);
    } else if name == "add" {
      r := Add(vm, args, held);
    } else if name == "sub" {
      r := Sub(vm, args, held);
    } else if name == "keys" {
      r := Keys(vm, args);
    } else if name == "values" {
      r := Values(vm, args);
    } else {
      r := Items(vm, args);
    }
  }

  /** The ArgumentError of `dict` naming an unknown subcommand. */
  function Unknown(vm: nat, name: Bytes): Unwind
  {
    Panicked(ArgumentError(Some(vm), FStr("dict"), FStr("dictionary 'set!|'unset!|'get|" + "'get!|'set?|'keys|'value args*"), FStr(name)))
  }

  /**
   * `dict dictionary command args*`: the subcommand named by the
   * serialisation of the second argument, run on the dict followed by the
   * remaining arguments; fewer than two arguments, or an unknown name,
   * raise.
   */
  method DictAggregate(vm: nat, args: seq<Word>, held: Option<Dictionary>) returns (r: Out<Word>)
    requires Holds(args, held)
    modifies Object(held)
    ensures |args| < 2 ==> r == Unwound(BadArgs(vm, "dict", "dictionary command args*", args)) && Contents(held) == old(Contents(held))
    ensures |args| >= 2 && Ser(args[1]) !in Subcommands ==> r == Unwound(Unknown(vm, Ser(args[1]))) && Contents(held) == old(Contents(held))
    ensures |args| >= 2 && Ser(args[1]) in Subcommands ==>
      Ran(Ser(args[1]), vm, [args[0]] + args[2..], r, held.Some?, old(Contents(held)), Contents(held))
  {
    if |args| < 2 {
      return Unwound(BadArgs(vm, "dict", "dictionary command args*", args));
    }
    var name := Ser(args[1]);
    if name !in Subcommands {
      return Unwound(Unknown(vm, name));
    }
    r := Dispatch(name, vm, [args[0]] + args[2..], held);
  }

  /** Through the aggregate, `set!` then `get` on a dict word finds the value. */
  lemma AggregateSetThenGet(vm: nat, m: map<Bytes, Word>, k: Word, v: Word, r: Out<Word>, after: map<Bytes, Word>)
    requires Ran("set!", vm, [Dict(m), k, v], r, true, m, after)
    ensures r == Done(v)
    ensures Ran("get", vm, [Dict(after), k], Done(v), true, after, after)
  {
    SetThenGet(vm, m, k, v);
  }

  // -------------------------------------------------------------------
  // zip-map

  /** The bindings the `zip-map` loop makes: each key's serialisation to its value, a later key winning. */
  function Paired(ks: seq<Word>, vs: seq<Word>): (m: map<Bytes, Word>)
    requires |ks| == |vs|
    decreases |ks|
  {
    if ks == [] then map[]
    else Paired(ks[..|ks| - 1], vs[..|vs| - 1])[Ser(ks[|ks| - 1]) := vs[|vs| - 1]]
  }

  /** The keys bound are the serialisations of the keys given. */
  lemma {:induction false} PairedKeys(ks: seq<Word>, vs: seq<Word>)
    requires |ks| == |vs|
    ensures forall k :: k in Paired(ks, vs) <==> exists i | 0 <= i < |ks| :: Ser(ks[i]) == k
    decreases |ks|
  {
    if ks != [] {
      var n := |ks| - 1;
      var ks', vs' := ks[..n], vs[..n];
      PairedKeys(ks', vs');
      forall k
        ensures k in Paired(ks, vs) <==> exists i | 0 <= i < |ks| :: Ser(ks[i]) == k
      {
        if k in Paired(ks', vs') {
          var i :| 0 <= i < |ks'| && Ser(ks'[i]) == k;
          assert Ser(ks[i]) == k;
        }
        if exists i | 0 <= i < |ks| :: Ser(ks[i]) == k {
          var i :| 0 <= i < |ks| && Ser(ks[i]) == k;
          if i < n {
            assert Ser(ks'[i]) == k;
          }
        }
      }
    }
  }

  /** A key is bound to the value paired with its last occurrence. */
  lemma {:induction false} PairedLast(ks: seq<Word>, vs: seq<Word>, i: nat)
    requires |ks| == |vs| && i < |ks|
    requires forall j | i < j < |ks| :: Ser(ks[j]) != Ser(ks[i])
    ensures Ser(ks[i]) in Paired(ks, vs) && Paired(ks, vs)[Ser(ks[i])] == vs[i]
    decreases |ks|
  {
    var n := |ks| - 1;
    if i < n {
      var ks', vs' := ks[..n], vs[..n];
      assert Ser(ks[n]) != Ser(ks[i]);
      assert ks'[i] == ks[i];
      PairedLast(ks', vs', i);
    }
  }

  /** Each value stored as its `Copy`, as `NewDictFrom` does. */
  function Copied(m: map<Bytes, Word>): (r: map<Bytes, Word>)
    ensures r.Keys == m.Keys
  {
    map k | k in m :: Copy(m[k])
  }

  /**
   * `zip-map key-list value-list`: a dict binding each key's serialisation
   * to the `Copy` of the value at the same position; lists of different
   * lengths dereference nil past the end of the shorter one.
   */
  function ZipMapOf(vm: nat, args: seq<Word>): (r: Out<Word>)
    ensures |args| != 2 ==> r == Unwound(BadArgs(vm, "zip-map", "key-list value-list", args))
    ensures r.Done? <==> (|args| == 2 && ListOrElse(vm, args[0]).Done? && ListOrElse(vm, args[1]).Done? &&
      |ListOrElse(vm, args[0]).value| == |ListOrElse(vm, args[1]).value|)
    ensures r.Done? ==> r.value.Dict? && r.value.rep == Copied(Paired(ListOrElse(vm, args[0]).value, ListOrElse(vm, args[1]).value))
  {
    if |args| != 2 then Unwound(BadArgs(vm, "zip-map", "key-list value-list", args))
    else match ListOrElse(vm, args[0])
      case Unwound(u) => Unwound(u)
      case Done(ks) =>
        match ListOrElse(vm, args[1])
        case Unwound(u) => Unwound(u)
        case Done(vs) =>
          if |ks| != |vs| then Unwound(Panicked(GoPanic)) else Done(Dict(Copied(Paired(ks, vs))))
  }

  /** Zipping distinct keys binds each to the copy of its own value, and `get` finds it. */
  lemma ZipMapThenGet(vm: nat, ks: seq<Word>, vs: seq<Word>, i: nat)
    requires |ks| == |vs| && i < |ks|
    requires forall j | i < j < |ks| :: Ser(ks[j]) != Ser(ks[i])
    ensures ZipMapOf(vm, [List(ks), List(vs)]).Done?
    ensures Get(vm, [ZipMapOf(vm, [List(ks), List(vs)]).value, ks[i]]) == Done(Copy(vs[i]))
  {
    PairedLast(ks, vs, i);
  }

  /** `Zip_map`. */
  method ZipMap(vm: nat, args: seq<Word>) returns (r: Out<Word>)
    ensures r == ZipMapOf(vm, args)
  {
    if |args| != 2 {
      return Unwound(BadArgs(vm, "zip-map", "key-list value-list", args));
    }
    var first := ListOrElse(vm, args[0]);
    if first.Unwound? {
      return Unwound(first.u);
    }
    var second := ListOrElse(vm, args[1]);
    if second.Unwound? {
      return Unwound(second.u);
    }
    var paired := PairUp(first.value, second.value);
    if paired.None? {
      return Unwound(Panicked(GoPanic));
    }
    var d := NewDictFrom(paired.value);
    assert d.rep == Copied(paired.value);
    return Done(Dict(d.rep));
  }

  /** The invariant of the `zip-map` loop: the first `i` pairs are bound. */
  ghost predicate PairedSoFar(ks: seq<Word>, vs: seq<Word>, i: nat, m: map<Bytes, Word>)
  {
    i <= |ks| && i <= |vs| && m == Paired(ks[..i], vs[..i])
  }

  /** The loop of `Zip_map`, over both lists at once while either has an item; it dereferences nil once one ends before the other (`None`). */
  method PairUp(ks: seq<Word>, vs: seq<Word>) returns (r: Option<map<Bytes, Word>>)
    ensures r.Some? <==> |ks| == |vs|
    ensures r.Some? ==> r.value == Paired(ks, vs)
  {
    var m := map[];
    var i := 0;
    while i < |ks| || i < |vs|
      invariant PairedSoFar(ks, vs, i, m)
      decreases |ks| + |vs| - 2 * i
    {
      if i == |ks| || i == |vs| {
        return None;
      }
      PairedStep(ks, vs, i, m);
      m := m[Ser(ks[i]) := vs[i]];
      i := i + 1;
    }
    assert ks[..i] == ks && vs[..i] == vs;
    return Some(m);
  }

  /** One turn of the `zip-map` loop. */
  lemma PairedStep(ks: seq<Word>, vs: seq<Word>, i: nat, m: map<Bytes, Word>)
    requires PairedSoFar(ks, vs, i, m) && i < |ks| && i < |vs|
    ensures PairedSoFar(ks, vs, i + 1, m[Ser(ks[i]) := vs[i]])
  {
    assert ks[..i + 1][..i] == ks[..i] && vs[..i + 1][..i] == vs[..i];
  }
}
