/**
 * Shared vocabulary of the gelo model: bytes, optional values, the byte
 * classes the lexers test for, and a deterministic enumeration of the keys
 * of a Go map (Go leaves the iteration order of `range m` unspecified; the
 * model always uses byte-lexicographic order, which is one of the orders
 * Go may produce).
 */
module Base {

  /** A Go `byte`; string literals of ASCII text are byte strings directly. */
  type byte = c: char | c as int < 256

  /** A Go `[]byte` or `string`. */
  type Bytes = seq<byte>

  datatype Option<T> = None | Some(value: T)

  /**
   * The result of a Go function returning `(value, ok)`: the value, `ok`
   * false, or a crash with a Go runtime panic (an index out of range or a
   * nil dereference) before anything is returned.
   */
  datatype Res<T> = Ok(value: T) | NotOk | Crash

  const FormFeed: byte := 12 as char
  const Bell: byte := 7 as char
  const Backspace: byte := 8 as char
  const VerticalTab: byte := 11 as char

  /** The four bytes `SlurpWS`, `EscapeItem` and the list/dict codecs treat as blank. */
  predicate IsBlank(c: byte)
  {
    c == ' ' || c == '\t' || c == FormFeed || c == '\n'
  }

  /** True iff every byte of `s` is blank. */
  predicate AllBlank(s: Bytes)
  {
    forall i :: 0 <= i < |s| ==> IsBlank(s[i])
  }

  /** The decimal digits as bytes. */
  predicate IsDigit(c: byte)
  {
    '0' <= c <= '9'
  }

  /** `a` is a prefix of `b`. */
  predicate IsPrefix(a: Bytes, b: Bytes)
  {
    |a| <= |b| && b[..|a|] == a
  }

  /** `a` is a suffix of `b`. */
  predicate IsSuffix(a: Bytes, b: Bytes)
  {
    |a| <= |b| && b[|b| - |a|..] == a
  }

  /** Concatenation regroups freely. */
  lemma AppendAssoc(a: Bytes, b: Bytes, c: Bytes)
    ensures a + b + c == a + (b + c)
  {
  }

  /** Concatenation of a sequence of byte strings. */
  function Concat(parts: seq<Bytes>): (r: Bytes)
    ensures |parts| == 0 ==> r == []
  {
    if parts == [] then [] else parts[0] + Concat(parts[1..])
  }

  lemma {:induction false} ConcatAppend(parts: seq<Bytes>, last: Bytes)
    ensures Concat(parts + [last]) == Concat(parts) + last
  {
    if parts == [] {
      assert parts + [last] == [last];
    } else {
      assert (parts + [last])[1..] == parts[1..] + [last];
      ConcatAppend(parts[1..], last);
    }
  }

  /** Appending to an opened brace and a concatenation appends one more part. */
  lemma BracedAppend(parts: seq<Bytes>, out: Bytes, last: Bytes)
    requires out == "{" + Concat(parts)
    ensures out + last == "{" + Concat(parts + [last])
  {
    ConcatAppend(parts, last);
  }

  /** `parts` joined with `sep` between consecutive elements (Go's `bytes.Join`). */
  function Join(parts: seq<Bytes>, sep: Bytes): (r: Bytes)
    ensures |parts| == 1 ==> r == parts[0]
  {
    if parts == [] then []
    else if |parts| == 1 then parts[0]
    else parts[0] + sep + Join(parts[1..], sep)
  }

  lemma {:induction false} JoinAppend(parts: seq<Bytes>, last: Bytes, sep: Bytes)
    requires parts != []
    ensures Join(parts + [last], sep) == Join(parts, sep) + sep + last
  {
    if |parts| == 1 {
      assert (parts + [last])[1..] == [last];
    } else {
      assert (parts + [last])[1..] == parts[1..] + [last];
      JoinAppend(parts[1..], last, sep);
    }
  }

  /** A join starts with its first part. */
  lemma JoinHead(parts: seq<Bytes>, sep: Bytes)
    requires parts != []
    ensures IsPrefix(parts[0], Join(parts, sep))
  {
  }

  // ---------------------------------------------------------------------
  // Byte-lexicographic order (Go's bytes.Compare) and sorted map keys

  /** `a` sorts before or equal to `b` under `bytes.Compare`. */
  predicate LexLe(a: Bytes, b: Bytes)
  {
    |a| == 0 || (|b| > 0 && (a[0] < b[0] || (a[0] == b[0] && LexLe(a[1..], b[1..]))))
  }

  lemma {:induction false} LexRefl(a: Bytes)
    ensures LexLe(a, a)
  {
    if |a| > 0 {
      LexRefl(a[1..]);
    }
  }

  lemma {:induction false} LexAntisym(a: Bytes, b: Bytes)
    requires LexLe(a, b) && LexLe(b, a)
    ensures a == b
  {
    if |a| > 0 {
      LexAntisym(a[1..], b[1..]);
    }
  }

  lemma {:induction false} LexTotal(a: Bytes, b: Bytes)
    ensures LexLe(a, b) || LexLe(b, a)
  {
    if |a| > 0 && |b| > 0 && a[0] == b[0] {
      LexTotal(a[1..], b[1..]);
    }
  }

  lemma {:induction false} LexTrans(a: Bytes, b: Bytes, c: Bytes)
    requires LexLe(a, b) && LexLe(b, c)
    ensures LexLe(a, c)
  {
    if |a| > 0 && a[0] == b[0] && b[0] == c[0] {
      LexTrans(a[1..], b[1..], c[1..]);
    }
  }

  predicate IsLeast(k: Bytes, s: set<Bytes>)
  {
    k in s && forall j :: j in s ==> LexLe(k, j)
  }

  lemma {:induction false} LeastExists(s: set<Bytes>)
    requires s != {}
    ensures exists k :: IsLeast(k, s)
    decreases |s|
  {
    var x :| x in s;
    if s == {x} {
      LexRefl(x);
      assert IsLeast(x, s);
    } else {
      LeastExists(s - {x});
      var k :| IsLeast(k, s - {x});
      LexTotal(k, x);
      if LexLe(k, x) {
        assert IsLeast(k, s);
      } else {
        forall j | j in s
          ensures LexLe(x, j)
        {
          if j != x {
            LexTrans(x, k, j);
          } else {
            LexRefl(x);
          }
        }
        assert IsLeast(x, s);
      }
    }
  }

  lemma LeastUnique(s: set<Bytes>)
    ensures forall a, b :: IsLeast(a, s) && IsLeast(b, s) ==> a == b
  {
    forall a, b | IsLeast(a, s) && IsLeast(b, s)
      ensures a == b
    {
      LexAntisym(a, b);
    }
  }

  /** The keys of a Go map in the order the model iterates them. */
  function SortedKeys(s: set<Bytes>): (r: seq<Bytes>)
    ensures |r| == |s|
    ensures forall k :: k in s <==> k in r
    decreases |s|
  {
    if s == {} then []
    else
      LeastExists(s);
      LeastUnique(s);
      var k :| IsLeast(k, s);
      [k] + SortedKeys(s - {k})
  }

  /** No key comes twice in the iteration order. */
  lemma {:induction false} SortedKeysDistinct(s: set<Bytes>)
    ensures forall i, j :: 0 <= i < j < |SortedKeys(s)| ==> SortedKeys(s)[i] != SortedKeys(s)[j]
    decreases |s|
  {
    if s != {} {
      var r := SortedKeys(s);
      var k := r[0];
      assert r == [k] + SortedKeys(s - {k});
      SortedKeysDistinct(s - {k});
    }
  }

  // ---------------------------------------------------------------------
  // Decimal rendering of integers (Go's strconv.Itoa64)

  function DigitChar(d: int): byte
    requires 0 <= d < 10
  {
    (('0' as int) + d) as char
  }

  function Digits(n: nat): (r: Bytes)
    ensures |r| >= 1
    ensures forall i :: 0 <= i < |r| ==> IsDigit(r[i])
  {
    if n < 10 then [DigitChar(n)] else Digits(n / 10) + [DigitChar(n % 10)]
  }

  /** Decimal text of `i`, with a leading `-` for negative values. */
  function Decimal(i: int): (r: Bytes)
    ensures |r| >= 1
    ensures (r[0] == '-') <==> i < 0
  {
    if i < 0 then ['-'] + Digits(-i) else Digits(i)
  }
}
