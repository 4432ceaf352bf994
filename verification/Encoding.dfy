/**
 Canonical encodings.  Every protocol object is a tree of fixed-width integers, length-prefixed
 blobs, fixed-width raw bytes, flagged optionals, counted lists and plain sequences; for a fixed
 shape such an encoding can be read back in exactly one way, whatever follows it.  Text is
 represented by its UTF-8 bytes.
 */
module Encoding {
  import opened Bytes

  const LIMIT32: nat := 0x1_0000_0000

  datatype Value =
    | Num(width: nat, n: nat)
    | Blob(b: Bytes)
    | Raw(b: Bytes)
    | Absent
    | Present(v: Value)
    | List(vs: seq<Value>)
    | Tuple(vs: seq<Value>)

  datatype Shape =
    | NumS(width: nat)
    | BlobS
    | RawS(width: nat)
    | OptS(s: Shape)
    | ListS(s: Shape)
    | TupleS(ss: seq<Shape>)

  function Prefixed(b: Bytes): Bytes
  {
    BigEndian(|b|, 4) + b
  }

  function Enc(v: Value): Bytes
  {
    match v
    case Num(width, n) => BigEndian(n, width)
    case Blob(b) => Prefixed(b)
    case Raw(b) => b
    case Absent => [0]
    case Present(x) => [1] + Enc(x)
    case List(vs) => BigEndian(|vs|, 4) + EncAll(vs)
    case Tuple(vs) => EncAll(vs)
  }

  function EncAll(vs: seq<Value>): Bytes
  {
    if vs == [] then [] else Enc(vs[0]) + EncAll(vs[1..])
  }

  ghost predicate Conforms(v: Value, s: Shape)
    decreases s
  {
    match s
    case NumS(width) => v.Num? && v.width == width && v.n < Pow256(width)
    case BlobS => v.Blob? && |v.b| < LIMIT32
    case RawS(width) => v.Raw? && |v.b| == width
    case OptS(inner) => v.Absent? || (v.Present? && Conforms(v.v, inner))
    case ListS(inner) => v.List? && |v.vs| < LIMIT32 && forall i :: 0 <= i < |v.vs| ==> Conforms(v.vs[i], inner)
    case TupleS(ss) => v.Tuple? && |v.vs| == |ss| && forall i :: 0 <= i < |ss| ==> Conforms(v.vs[i], ss[i])
  }

  // ----- splitting at a known length

  lemma SplitAt(a: Bytes, b: Bytes, t: Bytes, u: Bytes)
    requires |a| == |b| && a + t == b + u
    ensures a == b && t == u
  {
    assert a == (a + t)[..|a|] == (b + u)[..|b|] == b;
    assert t == (a + t)[|a|..] == (b + u)[|b|..] == u;
  }

  lemma NumPrefix(m: nat, n: nat, width: nat, t: Bytes, u: Bytes)
    requires m < Pow256(width) && n < Pow256(width)
    requires BigEndian(m, width) + t == BigEndian(n, width) + u
    ensures m == n && t == u
  {
    SplitAt(BigEndian(m, width), BigEndian(n, width), t, u);
    BigEndianInjective(m, n, width);
  }

  lemma BlobPrefix(a: Bytes, b: Bytes, t: Bytes, u: Bytes)
    requires |a| < LIMIT32 && |b| < LIMIT32 && Prefixed(a) + t == Prefixed(b) + u
    ensures a == b && t == u
  {
    Widths();
    assert BigEndian(|a|, 4) + (a + t) == Prefixed(a) + t;
    assert BigEndian(|b|, 4) + (b + u) == Prefixed(b) + u;
    NumPrefix(|a|, |b|, 4, a + t, b + u);
    SplitAt(a, b, t, u);
  }

  // ----- unique readability

  lemma FlagFirst(v: Value, t: Bytes)
    requires v.Absent? || v.Present?
    ensures Enc(v) + t == if v.Absent? then [0] + t else [1] + (Enc(v.v) + t)
    ensures (Enc(v) + t)[0] == if v.Absent? then 0 else 1
  {
  }

  lemma CountFirst(vs: seq<Value>, t: Bytes)
    ensures Enc(List(vs)) + t == BigEndian(|vs|, 4) + (EncAll(vs) + t)
  {
  }

  /** Two values of one shape whose encodings agree up to what follows are equal. */
  lemma {:induction false} UniqueReading(v: Value, w: Value, s: Shape, t: Bytes, u: Bytes)
    requires Conforms(v, s) && Conforms(w, s) && Enc(v) + t == Enc(w) + u
    ensures v == w && t == u
    decreases s, 1, 0
  {
    hide Pow256;
    match s
    case NumS(width) => NumPrefix(v.n, w.n, width, t, u);
    case BlobS => BlobPrefix(v.b, w.b, t, u);
    case RawS(width) => SplitAt(v.b, w.b, t, u);
    case OptS(inner) =>
      FlagFirst(v, t);
      FlagFirst(w, u);
      if v.Present? {
        SplitAt([1], [1], Enc(v.v) + t, Enc(w.v) + u);
        UniqueReading(v.v, w.v, inner, t, u);
      } else {
        SplitAt([0], [0], t, u);
      }
    case ListS(inner) =>
      Widths();
      CountFirst(v.vs, t);
      CountFirst(w.vs, u);
      NumPrefix(|v.vs|, |w.vs|, 4, EncAll(v.vs) + t, EncAll(w.vs) + u);
      UniqueReadings(v.vs, w.vs, seq(|v.vs|, _ => inner), s, t, u);
    case TupleS(ss) =>
      UniqueReadings(v.vs, w.vs, ss, s, t, u);
  }

  lemma {:induction false} UniqueReadings(vs: seq<Value>, ws: seq<Value>, ss: seq<Shape>, parent: Shape, t: Bytes,
      u: Bytes)
    requires |vs| == |ws| == |ss|
    requires forall i :: 0 <= i < |ss| ==> Conforms(vs[i], ss[i]) && Conforms(ws[i], ss[i])
    requires forall i :: 0 <= i < |ss| ==> (parent decreases to ss[i])
    requires EncAll(vs) + t == EncAll(ws) + u
    ensures vs == ws && t == u
    decreases parent, 0, |ss|
  {
    hide Enc, Conforms;
    if ss != [] {
      var t', u' := EncAll(vs[1..]) + t, EncAll(ws[1..]) + u;
      assert EncAll(vs) + t == Enc(vs[0]) + t' && EncAll(ws) + u == Enc(ws[0]) + u';
      UniqueReading(vs[0], ws[0], ss[0], t', u');
      UniqueReadings(vs[1..], ws[1..], ss[1..], parent, t, u);
      assert vs == [vs[0]] + vs[1..] && ws == [ws[0]] + ws[1..];
    } else {
      assert EncAll(vs) + t == t && EncAll(ws) + u == u;
    }
  }

  // ----- lists of blobs without a count

  function PrefixedAll(bs: seq<Bytes>): Bytes
  {
    if bs == [] then [] else Prefixed(bs[0]) + PrefixedAll(bs[1..])
  }

  ghost predicate AllShort(bs: seq<Bytes>)
  {
    forall i :: 0 <= i < |bs| ==> |bs[i]| < LIMIT32
  }

  lemma PrefixedAllSize(bs: seq<Bytes>)
    ensures bs != [] ==> |PrefixedAll(bs)| >= 4
  {
  }

  /** Without a count a list of blobs is still determined when nothing follows it. */
  lemma {:induction false} WholeListInjective(a: seq<Bytes>, b: seq<Bytes>)
    requires AllShort(a) && AllShort(b) && PrefixedAll(a) == PrefixedAll(b)
    ensures a == b
    decreases |a|
  {
    if a == [] || b == [] {
      PrefixedAllSize(a);
      PrefixedAllSize(b);
    } else {
      BlobPrefix(a[0], b[0], PrefixedAll(a[1..]), PrefixedAll(b[1..]));
      WholeListInjective(a[1..], b[1..]);
      assert a == [a[0]] + a[1..] && b == [b[0]] + b[1..];
    }
  }

  // ----- ordered sets of byte strings

  predicate NotAfter(a: Bytes, b: Bytes)
  {
    a == [] || (b != [] && (a[0] < b[0] || (a[0] == b[0] && NotAfter(a[1..], b[1..]))))
  }

  /** Lexicographic order on bytes: a prefix comes first, else the first difference decides. */
  lemma {:induction false} NotAfterMeans(a: Bytes, b: Bytes)
    ensures NotAfter(a, b) <==>
              a <= b || exists i :: 0 <= i < |a| && i < |b| && a[..i] == b[..i] && a[i] < b[i]
    decreases |a|
  {
    if a != [] && b != [] {
      if a[0] == b[0] {
        NotAfterMeans(a[1..], b[1..]);
        FirstDifference(a, b);
      } else if a[0] < b[0] {
        assert a[..0] == b[..0];
      }
    }
  }

  /** With equal first bytes the comparison is that of the rest. */
  lemma FirstDifference(a: Bytes, b: Bytes)
    requires a != [] && b != [] && a[0] == b[0]
    ensures a <= b <==> a[1..] <= b[1..]
    ensures (exists i :: 0 <= i < |a| && i < |b| && a[..i] == b[..i] && a[i] < b[i]) <==>
              exists i :: 0 <= i < |a[1..]| && i < |b[1..]| && a[1..][..i] == b[1..][..i] && a[1..][i] < b[1..][i]
  {
    assert a == [a[0]] + a[1..] && b == [b[0]] + b[1..];
    if exists i :: 0 <= i < |a| && i < |b| && a[..i] == b[..i] && a[i] < b[i] {
      var i :| 0 <= i < |a| && i < |b| && a[..i] == b[..i] && a[i] < b[i];
      assert a[1..][..i - 1] == a[..i][1..] && b[1..][..i - 1] == b[..i][1..];
      assert a[1..][i - 1] < b[1..][i - 1];
    }
    if exists i :: 0 <= i < |a[1..]| && i < |b[1..]| && a[1..][..i] == b[1..][..i] && a[1..][i] < b[1..][i] {
      var i :| 0 <= i < |a[1..]| && i < |b[1..]| && a[1..][..i] == b[1..][..i] && a[1..][i] < b[1..][i];
      assert a[..i + 1] == [a[0]] + a[1..][..i] && b[..i + 1] == [b[0]] + b[1..][..i];
      assert a[i + 1] < b[i + 1];
    }
  }

  lemma {:induction false} NotAfterAntisymmetric(a: Bytes, b: Bytes)
    requires NotAfter(a, b) && NotAfter(b, a)
    ensures a == b
  {
    if a != [] && b != [] {
      NotAfterAntisymmetric(a[1..], b[1..]);
      assert a == [a[0]] + a[1..] && b == [b[0]] + b[1..];
    }
  }

  lemma {:induction false} NotAfterTotal(a: Bytes, b: Bytes)
    ensures NotAfter(a, b) || NotAfter(b, a)
  {
    if a != [] && b != [] && a[0] == b[0] {
      NotAfterTotal(a[1..], b[1..]);
    }
  }

  lemma {:induction false} NotAfterTransitive(a: Bytes, b: Bytes, c: Bytes)
    requires NotAfter(a, b) && NotAfter(b, c)
    ensures NotAfter(a, c)
  {
    if a != [] && a[0] == b[0] && b[0] == c[0] {
      NotAfterTransitive(a[1..], b[1..], c[1..]);
    }
  }

  ghost predicate IsFirst(x: Bytes, s: set<Bytes>)
  {
    x in s && forall y :: y in s ==> NotAfter(x, y)
  }

  lemma {:induction false} FirstExists(s: set<Bytes>)
    requires s != {}
    ensures exists x :: IsFirst(x, s)
  {
    hide NotAfter;
    var x :| x in s;
    NotAfterTotal(x, x);
    if s == {x} {
      assert IsFirst(x, s);
    } else {
      FirstExists(s - {x});
      var y :| IsFirst(y, s - {x});
      NotAfterTotal(x, y);
      if NotAfter(x, y) {
        forall z | z in s
          ensures NotAfter(x, z)
        {
          if z != x {
            NotAfterTransitive(x, y, z);
          }
        }
        assert IsFirst(x, s);
      } else {
        assert IsFirst(y, s);
      }
    }
  }

  lemma FirstUnique(s: set<Bytes>)
    ensures forall x, y :: IsFirst(x, s) && IsFirst(y, s) ==> x == y
  {
    hide NotAfter;
    forall x, y | IsFirst(x, s) && IsFirst(y, s)
      ensures x == y
    {
      NotAfterAntisymmetric(x, y);
    }
  }

  function First(s: set<Bytes>): (x: Bytes)
    requires s != {}
    ensures IsFirst(x, s)
  {
    FirstExists(s);
    FirstUnique(s);
    assert forall x :: x in s && (forall y :: y in s ==> NotAfter(x, y)) ==> IsFirst(x, s);
    var x :| x in s && forall y :: y in s ==> NotAfter(x, y);
    x
  }

  /** The elements of a set in increasing order. */
  function Sorted(s: set<Bytes>): (r: seq<Bytes>)
    ensures |r| == |s|
    ensures forall x :: x in r <==> x in s
  {
    if s == {} then []
    else
      var x := First(s);
      assert s == (s - {x}) + {x};
      [x] + Sorted(s - {x})
  }

  lemma {:induction false} SortedIncreases(s: set<Bytes>, i: nat, j: nat)
    requires i < j < |Sorted(s)|
    ensures NotAfter(Sorted(s)[i], Sorted(s)[j]) && Sorted(s)[i] != Sorted(s)[j]
  {
    hide NotAfter;
    var x := First(s);
    var t := Sorted(s - {x});
    if i == 0 {
      assert Sorted(s)[j] == t[j - 1] && t[j - 1] in t;
    } else {
      SortedIncreases(s - {x}, i - 1, j - 1);
    }
  }

  lemma SortedInjective(s: set<Bytes>, t: set<Bytes>)
    requires Sorted(s) == Sorted(t)
    ensures s == t
  {
    assert forall x :: x in s <==> x in Sorted(s);
    assert forall x :: x in t <==> x in Sorted(t);
  }
}
