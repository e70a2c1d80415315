/**
 * Helpers of src/gelo/util.go: the conversion of Go values into words
 * (`Convert`), the byte buffer with its read-and-reset accessors, and the
 * reader that records every byte it passes on.  `EscapeItem`,
 * `UnescapeItem` and `SlurpWS` are in module Escape.
 */
module Util {
  import opened Base
  import opened Words
  import Syntax

  // ---------------------------------------------------------------------
  // UTF-8

  function B(x: int): byte
    requires 0 <= x < 256
  {
    x as char
  }

  /**
   * The UTF-8 encoding of a code point, as Go's `string([]int)` writes it:
   * a value that is negative or above U+10FFFF becomes U+FFFD.
   */
  function EncodeRune(r: int): (b: Bytes)
    ensures 1 <= |b| <= 4
    ensures 0 <= r < 0x80 <==> |b| == 1
  {
    if 0 <= r < 0x80 then [B(r)]
    else if 0x80 <= r < 0x800 then [B(0xC0 + r / 0x40), B(0x80 + r % 0x40)]
    else if 0x800 <= r < 0x10000 then [B(0xE0 + r / 0x1000), B(0x80 + r / 0x40 % 0x40), B(0x80 + r % 0x40)]
    else if 0x10000 <= r <= 0x10FFFF then
      [B(0xF0 + r / 0x40000), B(0x80 + r / 0x1000 % 0x40), B(0x80 + r / 0x40 % 0x40), B(0x80 + r % 0x40)]
    else [B(0xEF), B(0xBF), B(0xBD)]
  }

  /** `string(t)` of a `[]int`: the code points' encodings, in order. */
  function EncodeRunes(rs: seq<int>): (b: Bytes)
    ensures |b| >= |rs|
  {
    if rs == [] then [] else EncodeRune(rs[0]) + EncodeRunes(rs[1..])
  }

  /** ASCII code points encode as themselves, one byte each. */
  lemma {:induction false} AsciiRunes(rs: seq<int>)
    requires forall i :: 0 <= i < |rs| ==> 0 <= rs[i] < 0x80
    ensures |EncodeRunes(rs)| == |rs|
    ensures forall i :: 0 <= i < |rs| ==> EncodeRunes(rs)[i] as int == rs[i]
    decreases rs
  {
    if rs != [] {
      AsciiRunes(rs[1..]);
      forall i | 0 < i < |rs|
        ensures EncodeRunes(rs)[i] as int == rs[i]
      {
        assert EncodeRunes(rs)[i] == EncodeRunes(rs[1..])[i - 1];
        assert rs[1..][i - 1] == rs[i];
      }
    }
  }

  // ---------------------------------------------------------------------
  // Convert

  /** A Go value handed to `Convert`. */
  datatype GoValue =
    | GNil
    /** A Go integer or float; `text` is what `Number.Ser` renders for it. */
    | GNumber(f: Float, text: Bytes)
    | GAlien(id: nat)
    | GWord(w: Word)
    | GDefer
    | GBool(truth: bool)
    | GString(s: Bytes)
    | GBytes(bs: Bytes)
    | GInts(runes: seq<int>)
    | GStrings(ss: seq<Bytes>)
    | GWords(ws: seq<Word>)
    | GValues(vs: seq<GoValue>)
    | GValueMap(vm: map<Bytes, GoValue>)
    | GWordMap(wm: map<Bytes, Word>)
    /** A value of a type `Convert` does not know. */
    | GUnknown

  /**
   * `NewNumberFromGo`: Go numbers, and strings, byte slices and words whose
   * text the number reader accepts, become numbers (a number word is
   * returned as it is); everything else is not a number.
   */
  function NumberFromGo(v: GoValue, num: Syntax.NumReader): (r: Option<Word>)
    ensures r.Some? ==> r.value.Number?
  {
    match v
    case GNumber(f, text) => Some(Number(f, text))
    case GWord(w) =>
      if w.Number? then Some(w)
      else if num(Ser(w)).Some? then Some(Number(num(Ser(w)).value, Ser(w))) else None
    case GString(s) => if num(s).Some? then Some(Number(num(s).value, s)) else None
    case GBytes(b) => if num(b).Some? then Some(Number(num(b).value, b)) else None
    case _ => None
  }

  /** `Convert`: None is the programmer error raised for a value of unknown type. */
  function Convert(v: GoValue, num: Syntax.NumReader): (r: Option<Word>)
    decreases v
  {
    if NumberFromGo(v, num).Some? then NumberFromGo(v, num)
    else
      match v
      case GNil => Some(Null)
      case GAlien(id) => Some(Alien(id))
      case GWord(w) => Some(w)
      case GDefer => Some(Defer)
      case GBool(b) => Some(ToBool(b))
      case GString(s) => Some(Intern(s))
      case GBytes(b) => Some(Intern(b))
      case GInts(rs) => Some(Intern(EncodeRunes(rs)))
      case GStrings(ss) => Some(List(seq(|ss|, i requires 0 <= i < |ss| => Intern(ss[i]))))
      case GWords(ws) =>
        Some(List(seq(|ws|, i requires 0 <= i < |ws| => if i == 0 then ws[0] else Copy(ws[i]))))
      case GValues(vs) =>
        if forall i :: 0 <= i < |vs| ==> Convert(vs[i], num).Some?
        then Some(List(seq(|vs|, i requires 0 <= i < |vs| => Convert(vs[i], num).value)))
        else None
      case GValueMap(m) =>
        if forall k :: k in m ==> Convert(m[k], num).Some?
        then Some(Dict(map k | k in m :: Convert(m[k], num).value))
        else None
      case GWordMap(m) => Some(Dict(map k | k in m :: Copy(m[k])))
      case _ => None
  }

  /** The only value that cannot be converted is one of an unknown type, alone or inside a slice or map. */
  lemma ConvertKnown(v: GoValue, num: Syntax.NumReader)
    requires !v.GUnknown? && !v.GValues? && !v.GValueMap?
    ensures Convert(v, num).Some?
  {
  }

  /** Numbers are tried first: a word or string whose text reads as a number converts to that number, text kept. */
  lemma NumberFirst(v: GoValue, num: Syntax.NumReader)
    requires v.GString? || v.GBytes? || (v.GWord? && !v.w.Number?)
    ensures var text := if v.GString? then v.s else if v.GBytes? then v.bs else Ser(v.w);
      num(text).Some? ==> Convert(v, num) == Some(Number(num(text).value, text))
    ensures var text := if v.GString? then v.s else if v.GBytes? then v.bs else Ser(v.w);
      num(text).None? ==> Convert(v, num) == Some(if v.GWord? then v.w else Intern(text))
  {
  }

  /** A slice of strings becomes the list of their interned symbols, in order; an empty one, the empty list. */
  lemma ConvertStrings(ss: seq<Bytes>, num: Syntax.NumReader)
    ensures Convert(GStrings(ss), num).Some?
    ensures Convert(GStrings(ss), num).value.List?
    ensures var items := Convert(GStrings(ss), num).value.items;
      |items| == |ss| && forall i :: 0 <= i < |ss| ==> items[i] == Intern(ss[i]) && Ser(items[i]) == ss[i]
  {
  }

  /** A slice of words becomes a list with the first kept and the rest copied, as `NewListFrom` builds it. */
  lemma ConvertWords(ws: seq<Word>, num: Syntax.NumReader)
    ensures Convert(GWords(ws), num).Some? && Convert(GWords(ws), num).value.List?
    ensures var items := Convert(GWords(ws), num).value.items;
      |items| == |ws| && (ws != [] ==> items[0] == ws[0]) &&
      forall i :: 0 < i < |ws| ==> items[i] == Copy(ws[i])
  {
  }

  /** A slice of Go values converts element by element, and fails if any element does. */
  lemma ConvertValues(vs: seq<GoValue>, num: Syntax.NumReader)
    ensures Convert(GValues(vs), num).Some? <==> forall i :: 0 <= i < |vs| ==> Convert(vs[i], num).Some?
    ensures Convert(GValues(vs), num).Some? ==>
      Convert(GValues(vs), num).value.List? &&
      |Convert(GValues(vs), num).value.items| == |vs| &&
      forall i :: 0 <= i < |vs| ==> Convert(GValues(vs), num).value.items[i] == Convert(vs[i], num).value
  {
  }

  // ---------------------------------------------------------------------
  // The buffer

  /** `buffer`: a growing byte buffer whose `Bytes` and `CopyBytes` empty it. */
  class Buffer {
    var data: Bytes

    constructor()
      ensures data == []
    {
      data := [];
    }

    /** `newBufFrom`: a buffer holding `s`. */
    constructor From(s: Bytes)
      ensures data == s
    {
      data := s;
    }

    method Write(b: Bytes)
      modifies this
      ensures data == old(data) + b
    {
      data := data + b;
    }

    /** `WriteWord`: a word's serialisation, `NIL` for a nil word; the nil list writes `{}`. */
    method WriteWord(w: Option<Word>)
      modifies this
      ensures data == old(data) + WordBytes(w)
    {
      if w.None? {
        data := data + "NIL";
        return;
      }
      if w.value == EmptyList {
        data := data + "{}";
        return;
      }
      var text := Ser(w.value);
      data := data + text;
    }

    /** `CopyBytes`: the contents, and the buffer reset. */
    method CopyBytes() returns (out: Bytes)
      modifies this
      ensures out == old(data) && data == []
    {
      out := data;
      data := [];
    }

    /** `Bytes`: the contents, and the buffer reset. */
    method Bytes() returns (out: Bytes)
      modifies this
      ensures out == old(data) && data == []
    {
      out := data;
      data := [];
    }

    /** `String`: the contents, or nothing when empty; either way the buffer is left empty. */
    method String() returns (out: Bytes)
      modifies this
      ensures out == old(data) && data == []
    {
      if |data| == 0 {
        return [];
      }
      out := Bytes();
    }
  }

  /** What `WriteWord` writes. */
  function WordBytes(w: Option<Word>): (r: Bytes)
    ensures w.Some? ==> r == Ser(w.value)
    ensures w.None? ==> r == "NIL"
  {
    if w.None? then "NIL" else if w.value == EmptyList then "{}" else Ser(w.value)
  }

  /** `dup`: a copy of the bytes. */
  function Dup(s: Bytes): (r: Bytes)
    ensures r == s
  {
    s[..]
  }

  // ---------------------------------------------------------------------
  // The recording reader

  /** What one `Read` of the underlying reader yields: some bytes, or an error. */
  datatype Chunk = Chunk(data: Bytes, failed: bool)

  /** An underlying reader, as the sequence of what its successive reads yield. */
  class Source {
    var pending: seq<Chunk>

    constructor(chunks: seq<Chunk>)
      ensures pending == chunks
    {
      pending := chunks;
    }

    /** `Read(p)`: at most `max` bytes of the next chunk; the rest of that chunk is left for the next read. */
    method Read(max: nat) returns (got: Bytes, failed: bool)
      modifies this
      ensures (got, failed, pending) == NextRead(old(pending), max)
    {
      if pending == [] {
        return [], true;
      }
      var c := pending[0];
      if c.failed {
        pending := pending[1..];
        return [], true;
      }
      if |c.data| <= max {
        got, failed := c.data, false;
        pending := pending[1..];
      } else {
        got, failed := c.data[..max], false;
        pending := [Chunk(c.data[max..], false)] + pending[1..];
      }
    }
  }

  /** What a read of at most `max` bytes yields, and what is left to read after it. */
  function NextRead(pending: seq<Chunk>, max: nat): (r: (Bytes, bool, seq<Chunk>))
    ensures !r.1 ==> |r.0| <= max
    ensures pending == [] || pending[0].failed <==> r.1
    ensures r.1 ==> r.0 == []
    ensures ChunkBytes(pending) == r.0 + ChunkBytes(r.2)
  {
    if pending == [] then ([], true, [])
    else if pending[0].failed then ([], true, pending[1..])
    else if |pending[0].data| <= max then (pending[0].data, false, pending[1..])
    else (pending[0].data[..max], false, [Chunk(pending[0].data[max..], false)] + pending[1..])
  }

  /** `_recordingReader`: passes reads through and keeps every byte read without error. */
  class RecordingReader {
    const src: Source
    var recorded: Bytes

    constructor(s: Source)
      ensures src == s && recorded == []
    {
      src := s;
      recorded := [];
    }

    /** `Read`: what the source yields, recorded unless it failed. */
    method Read(max: nat) returns (got: Bytes, failed: bool)
      modifies this, src
      ensures (got, failed, src.pending) == NextRead(old(src.pending), max)
      ensures recorded == old(recorded) + got
    {
      got, failed := src.Read(max);
      if failed {
        return;
      }
      recorded := recorded + got;
    }

    /** `Bytes`: everything recorded so far. */
    function Bytes(): Bytes
      reads this
    {
      recorded
    }
  }

  /** The reader `newRecordingReader` is given: a plain one, or one that already records. */
  datatype AnyReader = Plain(s: Source) | Recorder(r: RecordingReader)

  /** `newRecordingReader`: a recording reader is not wrapped twice. */
  method NewRecordingReader(src: AnyReader) returns (rr: RecordingReader)
    ensures src.Recorder? ==> rr == src.r
    ensures src.Plain? ==> fresh(rr) && rr.src == src.s && rr.recorded == []
  {
    if src.Recorder? {
      return src.r;
    }
    rr := new RecordingReader(src.s);
  }

  /** Reading a source to its end through a recorder records exactly the bytes delivered, in order. */
  method RecordAll(chunks: seq<Chunk>, max: nat) returns (delivered: Bytes, recorded: Bytes)
    requires max > 0
    ensures recorded == delivered
    ensures (forall i :: 0 <= i < |chunks| ==> !chunks[i].failed) ==> delivered == ChunkBytes(chunks)
  {
    var s := new Source(chunks);
    var rr := new RecordingReader(s);
    delivered := [];
    ghost var clean := NoneFailed(chunks);
    while true
      invariant rr.src == s && rr.recorded == delivered
      invariant clean ==> NoneFailed(s.pending) && delivered + ChunkBytes(s.pending) == ChunkBytes(chunks)
      decreases |ChunkBytes(s.pending)| + |s.pending|
      modifies s, rr
    {
      ghost var before := s.pending;
      var got, failed := rr.Read(max);
      if failed {
        break;
      }
      ReadStep(before, max);
      assert delivered + got + ChunkBytes(s.pending) == delivered + (got + ChunkBytes(s.pending));
      delivered := delivered + got;
    }
    recorded := rr.recorded;
  }

  /** No read of `cs` fails. */
  predicate NoneFailed(cs: seq<Chunk>)
  {
    forall i :: 0 <= i < |cs| ==> !cs[i].failed
  }

  /** One successful read takes its bytes off the front of what the source has left. */
  lemma ReadStep(before: seq<Chunk>, max: nat)
    requires max > 0 && !NextRead(before, max).1
    ensures var after := NextRead(before, max).2;
      |ChunkBytes(after)| + |after| < |ChunkBytes(before)| + |before| &&
      (NoneFailed(before) ==> NoneFailed(after))
  {
    var after := NextRead(before, max).2;
    if |before[0].data| > max {
      assert after[1..] == before[1..];
      assert forall i :: 1 <= i < |after| ==> after[i] == before[i];
    }
  }

  /** The bytes of successive chunks; a failed read delivers none. */
  function ChunkBytes(cs: seq<Chunk>): (r: Bytes)
    ensures cs != [] && !cs[0].failed ==> r == cs[0].data + ChunkBytes(cs[1..])
  {
    if cs == [] then [] else (if cs[0].failed then [] else cs[0].data) + ChunkBytes(cs[1..])
  }
}
