/**
 * The string commands of src/gelo/commands/string.go.
 *
 * Strings are the serialisations of words, as bytes.  Commands that read
 * their arguments through an argument parser (`split`, `join`) start from
 * the words the parser bound; an optional part of the pattern that was not
 * given is `None`.
 */
module StrCmds {
  import opened Base
  import opened Words
  import opened Errors
  import opened Machine
  import opened Api
  import opened Natives
  import Lists
  import Util
  import Escape
  import ListCmds
  import Syntax

  // -------------------------------------------------------------------
  // chars

  /** The bytes of `str` at the given index words, as one symbol; the first bad index raises. */
  function CharsOf(vm: nat, num: Syntax.NumReader, str: Bytes, idx: seq<Word>): (r: Out<Word>)
  {
    match ToIdxs(vm, num, idx, |str|)
    case Unwound(u) => Unwound(u)
    case Done(ps) => Done(Sym(seq(|ps|, k requires 0 <= k < |ps| => str[ps[k]])))
  }

  /** Each byte is reached from the front and from the back, and indices pick bytes in the order given. */
  lemma CharsPicks(vm: nat, num: Syntax.NumReader, str: Bytes, i: nat, j: nat)
    requires i < |str| && j < |str| && |str| <= MaxInt32
    ensures CharsOf(vm, num, str, [Num(i)]) == Done(Sym([str[i]]))
    ensures CharsOf(vm, num, str, [Num(i - |str|)]) == Done(Sym([str[i]]))
    ensures CharsOf(vm, num, str, [Num(j), Num(i - |str|)]) == Done(Sym([str[j], str[i]]))
  {
    ToIdxCountsBothWays(vm, num, i, |str|);
    ToIdxCountsBothWays(vm, num, j, |str|);
    IdxsRead(vm, num, [Num(i)], |str|, [i]);
    IdxsRead(vm, num, [Num(i - |str|)], |str|, [i]);
    IdxsRead(vm, num, [Num(j), Num(i - |str|)], |str|, [j, i]);
    var one: seq<nat> := [i];
    var two: seq<nat> := [j, i];
    assert seq(|one|, k requires 0 <= k < |one| => str[one[k]]) == [str[i]];
    assert seq(|two|, k requires 0 <= k < |two| => str[two[k]]) == [str[j], str[i]];
  }

  /** One index word is read by `ToIdx` alone. */
  lemma IdxsOne(vm: nat, num: Syntax.NumReader, w: Word, length: nat)
    ensures ToIdx(vm, num, w, length).Unwound? ==> ToIdxs(vm, num, [w], length) == Unwound(ToIdx(vm, num, w, length).u)
    ensures ToIdx(vm, num, w, length).Done? ==> ToIdxs(vm, num, [w], length) == Done([ToIdx(vm, num, w, length).value])
  {
    assert [w][1..] == [];
    assert ToIdxs(vm, num, [], length) == Done([]);
    if ToIdx(vm, num, w, length).Done? {
      assert [ToIdx(vm, num, w, length).value] + [] == [ToIdx(vm, num, w, length).value];
    }
  }

  lemma {:induction false} IdxsRead(vm: nat, num: Syntax.NumReader, ws: seq<Word>, length: nat, ps: seq<nat>)
    requires |ws| == |ps| && forall k | 0 <= k < |ws| :: ToIdx(vm, num, ws[k], length) == Done(ps[k])
    ensures ToIdxs(vm, num, ws, length) == Done(ps)
    decreases |ws|
  {
    if ws != [] {
      IdxsRead(vm, num, ws[1..], length, ps[1..]);
      assert [ps[0]] + ps[1..] == ps;
    }
  }

  /**
   * `chars symbol indicies+`: the bytes of the symbol at the indices, as a
   * symbol; one index gives a one-byte symbol.
   */
  method Chars(vm: nat, num: Syntax.NumReader, args: seq<Word>) returns (r: Out<Word>)
    ensures |args| < 2 ==> r == Unwound(BadArgs(vm, "chars", "symbol indicies+", args))
    ensures |args| >= 2 && !args[0].Symbol? ==> r == Unwound(Mismatch(vm, "symbol", args[0]))
    ensures |args| >= 2 && args[0].Symbol? ==> r == CharsOf(vm, num, args[0].bytes, args[1..])
  {
    if |args| < 2 {
      return Unwound(BadArgs(vm, "chars", "symbol indicies+", args));
    }
    var s := SymbolOrElse(vm, args[0]);
    if s.Unwound? {
      return Unwound(s.u);
    }
    var str := s.value.bytes;
    if |args| == 2 {
      var i := ToIdx(vm, num, args[1], |str|);
      assert args[1..] == [args[1]];
      IdxsOne(vm, num, args[1], |str|);
      if i.Unwound? {
        return Unwound(i.u);
      }
      var one: seq<nat> := [i.value];
      assert seq(|one|, k requires 0 <= k < |one| => str[one[k]]) == [str[i.value]] == str[i.value..i.value + 1];
      return Done(Sym(str[i.value..i.value + 1]));
    }
    var idxs := ListCmds.ReadIdxs(vm, num, args[1..], |str|);
    if idxs.Unwound? {
      return Unwound(idxs.u);
    }
    var build := Build(str, idxs.value);
    return Done(Sym(build));
  }

  /** The loop of `chars` filling `build` from the indices. */
  method Build(str: Bytes, idxs: seq<nat>) returns (build: Bytes)
    requires forall t | 0 <= t < |idxs| :: idxs[t] < |str|
    ensures build == seq(|idxs|, k requires 0 <= k < |idxs| => str[idxs[k]])
  {
    build := [];
    var k := 0;
    while k < |idxs|
      invariant k <= |idxs|
      invariant |build| == k && forall t | 0 <= t < k :: build[t] == str[idxs[t]]
    {
      build := build + [str[idxs[k]]];
      k := k + 1;
    }
  }

  // -------------------------------------------------------------------
  // split and join

  /**
   * Go's `bytes.Split(s, sep, -1)` for a non-empty separator, scanning from
   * `i` with the current piece begun at `start`: the separator is matched
   * left to right, and matches do not overlap.
   */
  function SplitFrom(s: Bytes, sep: Bytes, start: nat, i: nat): (r: seq<Bytes>)
    requires sep != [] && start <= i <= |s|
    ensures |r| >= 1
    decreases |s| - i
  {
    if |s| < i + |sep| then [s[start..]]
    else if s[i..i + |sep|] == sep then [s[start..i]] + SplitFrom(s, sep, i + |sep|, i + |sep|)
    else SplitFrom(s, sep, start, i + 1)
  }

  /** The pieces `split` cuts a string into: at each separator, or into single bytes when the separator is empty. */
  function Pieces(s: Bytes, sep: Bytes): seq<Bytes>
  {
    if sep == [] then seq(|s|, i requires 0 <= i < |s| => s[i..i + 1])
    else SplitFrom(s, sep, 0, 0)
  }

  /** Joining the pieces of a split with its separator gives back the string. */
  lemma JoinPieces(s: Bytes, sep: Bytes)
    ensures Join(Pieces(s, sep), sep) == s
  {
    if sep == [] {
      JoinBytes(s);
    } else {
      JoinSplitFrom(s, sep, 0, 0);
    }
  }

  lemma {:induction false} JoinSplitFrom(s: Bytes, sep: Bytes, start: nat, i: nat)
    requires sep != [] && start <= i <= |s|
    ensures Join(SplitFrom(s, sep, start, i), sep) == s[start..]
    decreases |s| - i
  {
    if |s| < i + |sep| {
    } else if s[i..i + |sep|] == sep {
      JoinSplitFrom(s, sep, i + |sep|, i + |sep|);
      JoinAtSeparator(s, sep, start, i);
    } else {
      JoinSplitFrom(s, sep, start, i + 1);
    }
  }

  /** The step of `JoinSplitFrom` at a separator. */
  lemma JoinAtSeparator(s: Bytes, sep: Bytes, start: nat, i: nat)
    requires sep != [] && start <= i && i + |sep| <= |s| && s[i..i + |sep|] == sep
    requires Join(SplitFrom(s, sep, i + |sep|, i + |sep|), sep) == s[i + |sep|..]
    ensures Join(SplitFrom(s, sep, start, i), sep) == s[start..]
  {
    var rest := SplitFrom(s, sep, i + |sep|, i + |sep|);
    var parts := [s[start..i]] + rest;
    assert SplitFrom(s, sep, start, i) == parts;
    assert parts[0] == s[start..i] && parts[1..] == rest && |parts| > 1;
    assert Join(parts, sep) == s[start..i] + sep + s[i + |sep|..];
    assert s[start..] == s[start..i] + s[i..i + |sep|] + s[i + |sep|..];
  }

  lemma {:induction false} JoinBytes(s: Bytes)
    ensures Join(seq(|s|, i requires 0 <= i < |s| => s[i..i + 1]), []) == s
    decreases |s|
  {
    if |s| > 1 {
      var p := seq(|s|, i requires 0 <= i < |s| => s[i..i + 1]);
      JoinBytes(s[1..]);
      forall k | 0 <= k < |s| - 1
        ensures p[1..][k] == s[1..][k..k + 1]
      {
        assert s[1..][k..k + 1] == s[k + 1..k + 2];
      }
      assert p[1..] == seq(|s[1..]|, i requires 0 <= i < |s[1..]| => s[1..][i..i + 1]);
      assert s == s[0..1] + s[1..];
    } else if |s| == 1 {
      assert s[0..1] == s;
    }
  }

  /** The words of a list of byte strings: one dynamic symbol each. */
  function Syms(ps: seq<Bytes>): (r: seq<Word>)
    ensures |r| == |ps| && Lists.Sers(r) == ps
  {
    seq(|ps|, k requires 0 <= k < |ps| => Sym(ps[k]))
  }

  /**
   * `split string ['on sep]?`, given the words the parser bound to `string`
   * and, when `on` was given, to `sep`: the pieces of the string as symbols.
   * The separator is read before the string.
   */
  function Split(vm: nat, str: Word, sep: Option<Word>): (r: Out<Word>)
    ensures sep.Some? && LiteralOrElse(vm, sep.value).Unwound? ==> r == Unwound(LiteralOrElse(vm, sep.value).u)
    ensures (sep.None? || LiteralOrElse(vm, sep.value).Done?) && LiteralOrElse(vm, str).Unwound? ==> r == Unwound(LiteralOrElse(vm, str).u)
    ensures r.Done? <==> (sep.None? || sep.value.Symbol? || sep.value.Quote?) && (str.Symbol? || str.Quote?)
    ensures r.Done? ==> r.value.List? && Join(Lists.Sers(r.value.items), if sep.Some? then Ser(sep.value) else " ") == Ser(str)
  {
    var cut := if sep.None? then Done(" ") else LiteralOrElse(vm, sep.value);
    match cut
    case Unwound(u) => Unwound(u)
    case Done(b) =>
      match LiteralOrElse(vm, str)
      case Unwound(u) => Unwound(u)
      case Done(s) => JoinPieces(s, b); Done(List(Syms(Pieces(s, b))))
  }

  /** `join list ['with sep]?` as a function: the serialisations of the items with the separator's between them. */
  function Joined(vm: nat, list: Word, sep: Option<Word>): Out<Word>
  {
    match ListOrElse(vm, list)
    case Unwound(u) => Unwound(u)
    case Done(xs) => Done(Sym(Join(Lists.Sers(xs), if sep.Some? then Ser(sep.value) else "")))
  }

  /** `join` undoes `split` given the same separator. */
  lemma JoinUndoesSplit(vm: nat, str: Word, sep: Word)
    requires Split(vm, str, Some(sep)).Done?
    ensures Joined(vm, Split(vm, str, Some(sep)).value, Some(sep)) == Done(Sym(Ser(str)))
  {
    var l := Split(vm, str, Some(sep)).value;
    assert ListOrElse(vm, l) == Done(l.items);
  }

  /**
   * `join list ['with sep]?`, given the words the parser bound to `list`
   * and, when `with` was given, to `sep`.
   */
  method JoinItems(vm: nat, list: Word, sep: Option<Word>) returns (r: Out<Word>)
    ensures r == Joined(vm, list, sep)
  {
    var glue: Bytes := if sep.Some? then Ser(sep.value) else "";
    var l := ListOrElse(vm, list);
    if l.Unwound? {
      return Unwound(l.u);
    }
    var xs := l.value;
    var slice: seq<Bytes> := [];
    var count := 0;
    while count < |xs|
      invariant count <= |xs|
      invariant slice == Lists.Sers(xs[..count])
    {
      assert xs[..count + 1] == xs[..count] + [xs[count]];
      slice := slice + [Ser(xs[count])];
      count := count + 1;
    }
    assert xs[..count] == xs;
    return Done(Sym(Base.Join(slice, glue)));
  }

  // -------------------------------------------------------------------
  // starts-with, ends-with, length

  /** `starts-with string prefix`: whether the first serialisation begins with the second. */
  function StartsWith(vm: nat, args: seq<Word>): (r: Out<Word>)
    ensures |args| != 2 ==> r == Unwound(BadArgs(vm, "starts-with", "string prefix", args))
    ensures |args| == 2 ==> r.Done? && (r.value == True <==> exists t: Bytes :: Ser(args[0]) == Ser(args[1]) + t)
    ensures |args| == 2 ==> r.value == True || r.value == False
  {
    if |args| != 2 then Unwound(BadArgs(vm, "starts-with", "string prefix", args))
    else
      PrefixIff(Ser(args[1]), Ser(args[0]));
      assert ToBool(IsPrefix(Ser(args[1]), Ser(args[0]))) == True <==> IsPrefix(Ser(args[1]), Ser(args[0]));
      Done(ToBool(IsPrefix(Ser(args[1]), Ser(args[0]))))
  }

  /** `ends-with string suffix`: whether the first serialisation ends with the second; a wrong count reports itself as `starts-with`. */
  function EndsWith(vm: nat, args: seq<Word>): (r: Out<Word>)
    ensures |args| != 2 ==> r == Unwound(BadArgs(vm, "starts-with", "string prefix", args))
    ensures |args| == 2 ==> r.Done? && (r.value == True <==> exists t: Bytes :: Ser(args[0]) == t + Ser(args[1]))
    ensures |args| == 2 ==> r.value == True || r.value == False
  {
    if |args| != 2 then Unwound(BadArgs(vm, "starts-with", "string prefix", args))
    else
      SuffixIff(Ser(args[1]), Ser(args[0]));
      assert ToBool(IsSuffix(Ser(args[1]), Ser(args[0]))) == True <==> IsSuffix(Ser(args[1]), Ser(args[0]));
      Done(ToBool(IsSuffix(Ser(args[1]), Ser(args[0]))))
  }

  lemma PrefixIff(p: Bytes, s: Bytes)
    ensures IsPrefix(p, s) <==> exists t: Bytes :: s == p + t
  {
    if IsPrefix(p, s) {
      assert s == p + s[|p|..];
    }
    if exists t: Bytes :: s == p + t {
      var t: Bytes :| s == p + t;
      assert s[..|p|] == p;
    }
  }

  lemma SuffixIff(p: Bytes, s: Bytes)
    ensures IsSuffix(p, s) <==> exists t: Bytes :: s == t + p
  {
    if IsSuffix(p, s) {
      assert s == s[..|s| - |p|] + p;
    }
    if exists t: Bytes :: s == t + p {
      var t: Bytes :| s == t + p;
      assert s[|t|..] == p;
    }
  }

  /** `length`: the byte length of each serialisation. */
  function Length(args: seq<Word>): (r: Word)
  {
    Lists.MapOrApply(args, w => Num(|Ser(w)|))
  }

  // -------------------------------------------------------------------
  // str->list

  /** One byte-symbol per byte of a word's serialisation; the empty string gives Null. */
  function ByteSyms(w: Word): (r: Word)
  {
    var bs := Ser(w);
    if bs == [] then Null else List(seq(|bs|, i requires 0 <= i < |bs| => Sym(bs[i..i + 1])))
  }

  /**
   * string.go `StrToList`'s closure as written: after the first byte it
   * ranges over `bs[1:]` but slices `bs[i:i+1]`, so it repeats the first
   * byte and drops the last.
   */
  function ByteSymsAsWritten(w: Word): Word
  {
    var bs := Ser(w);
    if bs == [] then Null
    else List([Sym(bs[0..1])] + seq(|bs| - 1, i requires 0 <= i < |bs| - 1 => Sym(bs[i..i + 1])))
  }

  /** As written, `str->list ab` gives `a a`. */
  lemma StrToListRepeatsAsWritten()
    ensures ByteSymsAsWritten(Sym("ab")) == List([Sym("a"), Sym("a")])
    ensures ByteSyms(Sym("ab")) == List([Sym("a"), Sym("b")])
  {
    var bs: Bytes := "ab";
    assert bs[0..1] == "a" && bs[1..2] == "b";
    assert seq(1, i requires 0 <= i < 1 => Sym(bs[i..i + 1])) == [Sym("a")];
    assert seq(2, i requires 0 <= i < 2 => Sym(bs[i..i + 1])) == [Sym("a"), Sym("b")];
  }

  /** `str->list`: each argument's serialisation as a list of one-byte symbols; no arguments give the empty list. */
  function StrToList(args: seq<Word>): (r: Word)
    ensures args == [] ==> r == EmptyList
  {
    if args == [] then EmptyList else Lists.MapOrApply(args, ByteSyms)
  }

  /** `str->list` of a non-empty string has `length` items, and joining them without a separator gives the string back. */
  lemma StrToListJoins(w: Word)
    requires Ser(w) != []
    ensures StrToList([w]).List? && Length([w]) == Num(|StrToList([w]).items|)
    ensures Join(Lists.Sers(StrToList([w]).items), "") == Ser(w)
  {
    var bs := Ser(w);
    var items := seq(|bs|, i requires 0 <= i < |bs| => Sym(bs[i..i + 1]));
    assert StrToList([w]) == ByteSyms(w) == List(items);
    assert Length([w]) == Num(|bs|);
    SymsOfBytes(bs);
    JoinBytes(bs);
  }

  lemma SymsOfBytes(bs: Bytes)
    ensures Lists.Sers(seq(|bs|, i requires 0 <= i < |bs| => Sym(bs[i..i + 1]))) == seq(|bs|, i requires 0 <= i < |bs| => bs[i..i + 1])
  {
    var items := seq(|bs|, i requires 0 <= i < |bs| => Sym(bs[i..i + 1]));
    forall k | 0 <= k < |bs|
      ensures Lists.Sers(items)[k] == bs[k..k + 1]
    {
      assert items[k] == Sym(bs[k..k + 1]);
    }
  }

  // -------------------------------------------------------------------
  // ->runes

  /** The code point `->runes` reads from a word: a whole number in `0 .. MaxInt32`. */
  function CodePoint(vm: nat, num: Syntax.NumReader, w: Word): (r: Out<int>)
    ensures r.Done? ==> 0 <= r.value <= MaxInt32
    ensures NumberOrElse(vm, num, w).Done? && r.Unwound? ==> r.u == Panicked(TypeMismatch(Some(vm), FStr("rune"), FStr("number")))
  {
    match NumberOrElse(vm, num, w)
    case Unwound(u) => Unwound(u)
    case Done(f) =>
      match FloatInt(f)
      case Some(i) =>
        if i < 0 || i > MaxInt32 then Unwound(Panicked(TypeMismatch(Some(vm), FStr("rune"), FStr("number"))))
        else Done(i)
      case None => Unwound(Panicked(TypeMismatch(Some(vm), FStr("rune"), FStr("number"))))
  }

  /** The code points of a list of words, in order; the first that is not one raises. */
  function CodePoints(vm: nat, num: Syntax.NumReader, xs: seq<Word>): (r: Out<seq<int>>)
    ensures r.Done? ==> |r.value| == |xs| && forall i | 0 <= i < |xs| :: CodePoint(vm, num, xs[i]) == Done(r.value[i])
    ensures (forall i | 0 <= i < |xs| :: CodePoint(vm, num, xs[i]).Done?) ==> r.Done?
  {
    if xs == [] then Done([])
    else
      var rest := xs[1..];
      assert forall i | 0 <= i < |rest| :: rest[i] == xs[i + 1];
      match CodePoint(vm, num, xs[0])
      case Unwound(u) => Unwound(u)
      case Done(c) => Before([c], CodePoints(vm, num, rest))
  }

  /** `->runes` as a function: the UTF-8 encodings of the code points, as one symbol. */
  function FromRunesOf(vm: nat, num: Syntax.NumReader, xs: seq<Word>): Out<Word>
  {
    match CodePoints(vm, num, xs)
    case Unwound(u) => Unwound(u)
    case Done(cs) => Done(Sym(Util.EncodeRunes(cs)))
  }

  /** The numbers of ASCII bytes make those bytes back. */
  lemma AsciiFromRunes(vm: nat, num: Syntax.NumReader, s: Bytes)
    requires forall i | 0 <= i < |s| :: s[i] as int < 0x80
    ensures FromRunesOf(vm, num, ListCmds.Nums(seq(|s|, i requires 0 <= i < |s| => s[i] as int))) == Done(Sym(s))
  {
    var cs := seq(|s|, i requires 0 <= i < |s| => s[i] as int);
    var ns := ListCmds.Nums(cs);
    assert forall i | 0 <= i < |ns| :: CodePoint(vm, num, ns[i]) == Done(cs[i]);
    var got := CodePoints(vm, num, ns).value;
    assert got == cs;
    Util.AsciiRunes(cs);
    assert Util.EncodeRunes(cs) == s;
  }

  /** A negative number is not a code point. */
  lemma NegativeIsNoRune(vm: nat, num: Syntax.NumReader, i: int)
    requires i < 0
    ensures FromRunesOf(vm, num, [Num(i)]) == Unwound(Panicked(TypeMismatch(Some(vm), FStr("rune"), FStr("number"))))
  {
    assert CodePoint(vm, num, Num(i)).Unwound?;
  }

  /** `->runes list`: the code points of the list's numbers, UTF-8 encoded, as one symbol. */
  method FromRunes(vm: nat, num: Syntax.NumReader, args: seq<Word>) returns (r: Out<Word>)
    ensures |args| != 1 ==> r == Unwound(BadArgs(vm, "->runes", "list of runes", args))
    ensures |args| == 1 && ListOrElse(vm, args[0]).Unwound? ==> r == Unwound(ListOrElse(vm, args[0]).u)
    ensures |args| == 1 && ListOrElse(vm, args[0]).Done? ==> r == FromRunesOf(vm, num, ListOrElse(vm, args[0]).value)
  {
    if |args| != 1 {
      return Unwound(BadArgs(vm, "->runes", "list of runes", args));
    }
    var l := ListOrElse(vm, args[0]);
    if l.Unwound? {
      return Unwound(l.u);
    }
    var xs := l.value;
    var buf: Bytes := [];
    ghost var done: seq<int> := [];
    var i := 0;
    assert xs[0..] == xs;
    BeforeNothing(CodePoints(vm, num, xs));
    while i < |xs|
      invariant 0 <= i <= |xs|
      invariant CodePoints(vm, num, xs) == Before(done, CodePoints(vm, num, xs[i..]))
      invariant buf == Util.EncodeRunes(done)
    {
      assert xs[i..][1..] == xs[i + 1..];
      var c := CodePoint(vm, num, xs[i]);
      if c.Unwound? {
        return Unwound(c.u);
      }
      BeforeStep(done, [c.value], CodePoints(vm, num, xs[i + 1..]));
      EncodeRunesAppend(done, c.value);
      buf := buf + Util.EncodeRune(c.value);
      done := done + [c.value];
      i := i + 1;
    }
    assert xs[i..] == [] && done + [] == done;
    return Done(Sym(buf));
  }

  lemma {:induction false} EncodeRunesAppend(rs: seq<int>, c: int)
    ensures Util.EncodeRunes(rs + [c]) == Util.EncodeRunes(rs) + Util.EncodeRune(c)
    decreases |rs|
  {
    if rs == [] {
      assert [] + [c] == [c];
    } else {
      assert (rs + [c])[1..] == rs[1..] + [c];
      EncodeRunesAppend(rs[1..], c);
    }
  }

  // -------------------------------------------------------------------
  // empty?

  /** Whether a word is a literal of only blanks, as `empty?` decides with `SlurpWS`. */
  function Blank(vm: nat, w: Word): Out<Word>
  {
    match LiteralOrElse(vm, w)
    case Unwound(u) => Unwound(u)
    case Done(lit) => Done(ToBool(|lit| == Escape.SkipBlanks(lit, 0)))
  }

  /** `SlurpWS` from the start reaches the end exactly when every byte is blank. */
  lemma SlurpAllIffBlank(s: Bytes)
    ensures |s| == Escape.SkipBlanks(s, 0) <==> AllBlank(s)
  {
    Escape.SkipBlanksSkipsBlanks(s, 0);
    if !AllBlank(s) {
      var i :| 0 <= i < |s| && !IsBlank(s[i]);
      assert Escape.SkipBlanks(s, 0) <= i;
    }
  }

  /** `empty?`: true with no arguments, otherwise whether each literal holds only spaces, tabs, form feeds and newlines. */
  function Emptyp(vm: nat, args: seq<Word>): (r: Out<Word>)
    ensures args == [] ==> r == Done(True)
    ensures |args| == 1 && LiteralOrElse(vm, args[0]).Done? ==> r == Done(ToBool(AllBlank(Ser(args[0]))))
    ensures |args| == 1 && LiteralOrElse(vm, args[0]).Unwound? ==> r == Unwound(Mismatch(vm, "symbol or quote", args[0]))
  {
    if args == [] then Done(True)
    else
      if |args| == 1 && LiteralOrElse(vm, args[0]).Done? then SlurpAllIffBlank(Ser(args[0])); MapOrApplyOut(args, w => Blank(vm, w))
      else MapOrApplyOut(args, w => Blank(vm, w))
  }
}
