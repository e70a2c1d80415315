/**
 * Errors (src/gelo/error.go): how gelo builds the message of an error it
 * raises, and the two kinds of error that are also words.
 *
 * Every raising function formats its arguments, Go values of any type,
 * into a message: each argument is rendered by `_format1` and the
 * renderings are joined with single spaces.  The arguments are `Fmt`
 * values.  A raise is a `Panic`: a syntax or runtime error word, the
 * system or programmer errors that are not words, or a Go runtime panic
 * (the formatter indexes the first argument of an empty argument list).
 */
module Errors {
  import opened Base
  import opened Words

  /** A Go value handed to the formatter. */
  datatype Fmt =
    | FNil
    | FStr(s: Bytes)
    | FBytes(b: Bytes)
    | FWord(w: Word)
    | FSlice(items: seq<Fmt>)
    /** Any other Go value, with the text `fmt.Sprint` gives it. */
    | FOther(text: Bytes)

  /** What unwinds the Go stack when gelo raises. */
  datatype Panic =
    | Raise(err: Word)
    | SystemFailure(msg: Bytes)
    | ProgrammerMistake(msg: Bytes)
    | GoPanic

  /** `_format1` of a word: a list is each item's rendering followed by a space; the empty symbol is named. */
  function WordText(w: Word): Bytes
    decreases w, 1
  {
    match w
    case List(items) => ItemsText(items)
    case Symbol(b, _) => if b == [] then "<<the null string>>" else b
    case _ => Ser(w)
  }

  function ItemsText(items: seq<Word>): Bytes
    decreases items, 0
  {
    if items == [] then [] else WordText(items[0]) + " " + ItemsText(items[1..])
  }

  /** `_format1`; None is the index-out-of-range panic of an empty nested argument list. */
  function Format1(f: Fmt): Option<Bytes>
    decreases f
  {
    match f
    case FNil => Some("NIL")
    case FStr(s) => Some(if s == [] then "\"\"" else s)
    case FBytes(b) => Some(if b == [] then "\"\"" else b)
    case FWord(w) => Some(WordText(w))
    case FSlice(items) => FormatSlice(items)
    case FOther(text) => Some(text)
  }

  /** `_format_slice`: the renderings joined with single spaces; an empty list has no first item to render. */
  function FormatSlice(all: seq<Fmt>): Option<Bytes>
    decreases all
  {
    if all == [] then None
    else
      match Format1(all[0])
      case None => None
      case Some(b) =>
        if |all| == 1 then Some(b)
        else
          match FormatSlice(all[1..])
          case None => None
          case Some(rest) => Some(b + " " + rest)
  }

  /** `_format1`, rendering into a fresh buffer. */
  method Render(f: Fmt) returns (r: Option<Bytes>)
    ensures r == Format1(f)
    decreases f
  {
    match f {
      case FNil => r := Some("NIL");
      case FStr(s) => r := Some(if s == [] then "\"\"" else s);
      case FBytes(b) => r := Some(if b == [] then "\"\"" else b);
      case FWord(w) =>
        var text := RenderWord(w);
        r := Some(text);
      case FSlice(items) => r := RenderSlice(items);
      case FOther(text) => r := Some(text);
    }
  }

  /** `_format1` of a word, walking a list's cells. */
  method RenderWord(w: Word) returns (text: Bytes)
    ensures text == WordText(w)
    decreases w
  {
    if !w.List? {
      return WordText(w);
    }
    var items := w.items;
    text := [];
    var i := 0;
    while i < |items|
      invariant 0 <= i <= |items|
      invariant text + ItemsText(items[i..]) == ItemsText(items)
    {
      ItemsTextAt(items, i);
      var item := RenderWord(items[i]);
      AppendAssoc(text, item + " ", ItemsText(items[i + 1..]));
      text := text + (item + " ");
      i := i + 1;
    }
  }

  lemma ItemsTextAt(items: seq<Word>, i: nat)
    requires i < |items|
    ensures ItemsText(items[i..]) == (WordText(items[i]) + " ") + ItemsText(items[i + 1..])
  {
    assert items[i..][1..] == items[i + 1..];
  }

  /** `_format_slice`: the first rendering, then a space and the next one for each further argument. */
  method RenderSlice(all: seq<Fmt>) returns (r: Option<Bytes>)
    ensures r == FormatSlice(all)
    decreases all
  {
    if all == [] {
      return None;
    }
    var first := Render(all[0]);
    if first.None? {
      return None;
    }
    var out: Bytes := first.value;
    var i := 1;
    while i < |all|
      invariant 1 <= i <= |all|
      invariant FormatSlice(all) == (if i == |all| then Some(out) else Glue(out, FormatSlice(all[i..])))
    {
      SliceStep(all, i, out);
      var next := Render(all[i]);
      if next.None? {
        return None;
      }
      out := out + " " + next.value;
      i := i + 1;
    }
    r := Some(out);
  }

  lemma SliceStep(all: seq<Fmt>, i: nat, out: Bytes)
    requires i < |all|
    ensures Format1(all[i]).None? ==> Glue(out, FormatSlice(all[i..])) == None
    ensures Format1(all[i]).Some? && i + 1 == |all| ==>
      Glue(out, FormatSlice(all[i..])) == Some(out + " " + Format1(all[i]).value)
    ensures Format1(all[i]).Some? && i + 1 < |all| ==>
      Glue(out, FormatSlice(all[i..])) == Glue(out + " " + Format1(all[i]).value, FormatSlice(all[i + 1..]))
  {
    assert all[i..][0] == all[i];
    assert all[i..][1..] == all[i + 1..];
    if Format1(all[i]).Some? && i + 1 < |all| && FormatSlice(all[i + 1..]).Some? {
      var b, rest := Format1(all[i]).value, FormatSlice(all[i + 1..]).value;
      assert out + " " + (b + " " + rest) == (out + " " + b) + " " + rest;
    }
  }

  /** A prefix, then a space, in front of a rendering; a crash stays a crash. */
  function Glue(pre: Bytes, rest: Option<Bytes>): (r: Option<Bytes>)
    ensures r.Some? <==> rest.Some?
    ensures rest.Some? ==> r.value == pre + " " + rest.value
  {
    if rest.Some? then Some(pre + " " + rest.value) else None
  }

  // ---------------------------------------------------------------------
  // Raising

  /** `_make_error`: the id of the raising VM, or 0 without one, and the formatted arguments. */
  function MakeError(kind: ErrorKind, vm: Option<nat>, args: seq<Fmt>): (p: Panic)
    ensures p.Raise? <==> FormatSlice(args).Some?
    ensures p.Raise? ==> p.err == Error(kind, FormatSlice(args).value, if vm.Some? then vm.value else 0)
    ensures !p.Raise? ==> p == GoPanic
  {
    match FormatSlice(args)
    case None => GoPanic
    case Some(msg) => Raise(Error(kind, msg, if vm.Some? then vm.value else 0))
  }

  /** `SyntaxError`: never attributed to a VM. */
  function SyntaxError(args: seq<Fmt>): Panic
  {
    MakeError(SyntaxErr, None, args)
  }

  function RuntimeError(vm: Option<nat>, args: seq<Fmt>): Panic
  {
    MakeError(RuntimeErr, vm, args)
  }

  function VariableUndefined(vm: Option<nat>, name: Fmt): Panic
  {
    RuntimeError(vm, [FStr("Undefined variable:"), name])
  }

  function TypeMismatch(vm: Option<nat>, expected: Fmt, got: Fmt): Panic
  {
    RuntimeError(vm, [FStr("Type mismatch. Expected:"), expected, FStr("Got:"), got])
  }

  /** `ArgumentError`: with no arguments to report, the message says so. */
  function ArgumentError(vm: Option<nat>, name: Fmt, spec: Fmt, args: Fmt): Panic
  {
    var shown := if args == FNil then FStr("no arguments") else args;
    RuntimeError(vm, [FStr("Illegal arguments."), name, FStr("expected:"), spec, FStr("Got:"), shown])
  }

  /** `killed`: the error a killed VM reports. */
  function Killed(vm: Option<nat>): (e: Word)
    ensures e.Error? && e.kind == RuntimeErr && e.msg == "VM killed"
  {
    Error(RuntimeErr, "VM killed", if vm.Some? then vm.value else 0)
  }

  /**
   * `SystemError`: not a word.  Its message is the formatted arguments;
   * the fixed plea to report the bug that Go appends is not modelled.
   */
  function SystemError(vm: Option<nat>, args: seq<Fmt>): Panic
  {
    match FormatSlice(args)
    case None => GoPanic
    case Some(msg) => SystemFailure(msg)
  }

  function ProgrammerError(vm: Option<nat>, args: seq<Fmt>): Panic
  {
    match FormatSlice(args)
    case None => GoPanic
    case Some(msg) => ProgrammerMistake(msg)
  }


  // ---------------------------------------------------------------------
  // Properties

  /** The renderings of the arguments, when none of them crashes. */
  function Rendered(all: seq<Fmt>): (r: seq<Bytes>)
    requires forall i :: 0 <= i < |all| ==> Format1(all[i]).Some?
    ensures |r| == |all|
  {
    seq(|all|, i requires 0 <= i < |all| => Format1(all[i]).value)
  }

  /** `_format_slice` joins the renderings with single spaces, and crashes exactly on an empty list or a crashing item. */
  lemma {:induction false} FormatSliceJoins(all: seq<Fmt>)
    ensures FormatSlice(all).Some? <==> all != [] && forall i :: 0 <= i < |all| ==> Format1(all[i]).Some?
    ensures FormatSlice(all).Some? ==> FormatSlice(all).value == Join(Rendered(all), " ")
    decreases all
  {
    if |all| > 1 {
      FormatSliceJoins(all[1..]);
      if Format1(all[0]).Some? && forall i :: 0 <= i < |all[1..]| ==> Format1(all[1..][i]).Some? {
        forall i | 0 <= i < |all|
          ensures Format1(all[i]).Some?
        {
          if i > 0 {
            assert all[i] == all[1..][i - 1];
          }
        }
        assert Rendered(all)[1..] == Rendered(all[1..]);
      }
      if forall i :: 0 <= i < |all| ==> Format1(all[i]).Some? {
        assert Format1(all[0]).Some?;
        forall i | 0 <= i < |all[1..]|
          ensures Format1(all[1..][i]).Some?
        {
          assert all[1..][i] == all[i + 1];
        }
      }
    }
  }

  /** A list renders as each of its items' renderings followed by a space; the empty list renders as nothing. */
  lemma {:induction false} ListRendering(items: seq<Word>)
    ensures WordText(List(items)) == Concat(seq(|items|, i requires 0 <= i < |items| => WordText(items[i]) + " "))
    decreases items
  {
    var parts := seq(|items|, i requires 0 <= i < |items| => WordText(items[i]) + " ");
    if items != [] {
      ListRendering(items[1..]);
      assert parts[1..] == seq(|items[1..]|, i requires 0 <= i < |items[1..]| => WordText(items[1..][i]) + " ");
    }
  }

  /** The special renderings: nil, empty strings and byte slices, the empty symbol; other words render as their serialisation. */
  lemma SpecialRenderings(w: Word)
    ensures Format1(FNil) == Some("NIL")
    ensures Format1(FStr([])) == Some("\"\"") && Format1(FBytes([])) == Some("\"\"")
    ensures Format1(FWord(Null)) == Some("<<the null string>>")
    ensures !w.List? && !w.Symbol? ==> Format1(FWord(w)) == Some(Ser(w))
    ensures w.Symbol? && w.bytes != [] ==> Format1(FWord(w)) == Some(Ser(w))
  {
  }

  /** With nil arguments, `ArgumentError` reports "no arguments" after `Got:`. */
  lemma ArgumentErrorWithoutArgs(vm: Option<nat>, name: Bytes, spec: Bytes)
    requires name != [] && spec != []
    ensures ArgumentError(vm, FStr(name), FStr(spec), FNil) ==
      Raise(Error(RuntimeErr, Join(["Illegal arguments.", name, "expected:", spec, "Got:", "no arguments"], " "),
                  if vm.Some? then vm.value else 0))
  {
    var all := [FStr("Illegal arguments."), FStr(name), FStr("expected:"), FStr(spec), FStr("Got:"), FStr("no arguments")];
    FormatSliceJoins(all);
    assert Rendered(all) == ["Illegal arguments.", name, "expected:", spec, "Got:", "no arguments"];
  }

  /** Raising with no arguments at all fails in the formatter before any error is built. */
  lemma EmptyArgumentsCrash(vm: Option<nat>)
    ensures RuntimeError(vm, []) == GoPanic && SyntaxError([]) == GoPanic
    ensures SystemError(vm, []) == GoPanic && ProgrammerError(vm, []) == GoPanic
  {
    assert Format1(FSlice([])) == None;
  }

  /**
   * The error words: equal exactly when of the same kind with the same
   * message bytes, whatever VM raised them; serialised with their kind's
   * prefix; their own copies.
   */
  lemma ErrorWord(kind: ErrorKind, msg: Bytes, from: nat, w: Word)
    ensures Equals(Error(kind, msg, from), w) <==> w.Error? && w.kind == kind && w.msg == msg
    ensures Ser(Error(kind, msg, from)) == (if kind == SyntaxErr then "Syntax error: " else "Runtime error: ") + msg
    ensures Copy(Error(kind, msg, from)) == Error(kind, msg, from)
    ensures DeepCopy(Error(kind, msg, from)) == Error(kind, msg, from)
  {
  }
}
