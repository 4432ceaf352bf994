/**
 The builder that collects encoded parts.  A call with an out-of-range argument reports failure.  A
 single value then leaves the parts as they were; an optional value leaves its flag behind, and a
 list or map its count and the members before the first that does not fit.
 */
module CanonicalEncoders {
  import opened Bytes
  import opened Encoding
  import opened Options

  function Concat(parts: seq<Bytes>): Bytes
  {
    if parts == [] then [] else Concat(parts[..|parts| - 1]) + parts[|parts| - 1]
  }

  lemma ConcatSnoc(parts: seq<Bytes>, p: Bytes)
    ensures Concat(parts + [p]) == Concat(parts) + p
  {
    assert (parts + [p])[..|parts|] == parts;
  }

  predicate Fits(n: int, width: nat)
  {
    0 <= n < Pow256(width)
  }

  class CanonicalEncoder {
    var parts: seq<Bytes>

    /** Everything encoded so far. */
    ghost function Joined(): Bytes
      reads this
    {
      Concat(parts)
    }

    constructor (tag: Bytes)
      requires tag != []
      ensures Joined() == tag
    {
      parts := [tag];
      new;
      assert [tag] == [] + [tag];
      ConcatSnoc([], tag);
      assert Concat([]) == [] && [] + tag == tag;
    }

    method Append(part: Bytes)
      modifies this
      ensures Joined() == old(Joined()) + part
    {
      ConcatSnoc(parts, part);
      parts := parts + [part];
    }

    /** uint8, uint32 and uint64 at widths 1, 4 and 8. */
    method Uint(n: int, width: nat) returns (ok: bool)
      modifies this
      ensures ok == (0 <= n < Pow256(width))
      ensures Joined() == old(Joined()) + if ok then Enc(Num(width, n)) else []
    {
      ok := Fits(n, width);
      if ok {
        Append(BigEndian(n, width));
      } else {
        assert Joined() + [] == Joined();
      }
    }

    /** An IEEE 754 double given by its eight bytes; exponent 2047 (NaN, infinities) is refused. */
    method Float64(bits: Bytes) returns (ok: bool)
      requires |bits| == 8
      modifies this
      ensures ok <==> !(bits[0] % 128 == 127 && bits[1] >= 240)
      ensures Joined() == old(Joined()) + if ok then Enc(Raw(bits)) else []
    {
      FiniteMeans(bits);
      ok := Finite(bits);
      if ok {
        Append(bits);
      } else {
        assert Joined() + [] == Joined();
      }
    }

    method RawBytes(b: Bytes)
      modifies this
      ensures Joined() == old(Joined()) + Enc(Raw(b))
    {
      Append(b);
    }

    /** Length-prefixed bytes, and text by its UTF-8 bytes. */
    method LengthPrefixed(b: Bytes) returns (ok: bool)
      modifies this
      ensures ok == (|b| < LIMIT32)
      ensures Joined() == old(Joined()) + if ok then Enc(Blob(b)) else []
    {
      ok := |b| < LIMIT32;
      if ok {
        Append(Prefixed(b));
      } else {
        assert Joined() + [] == Joined();
      }
    }

    method OptionalBytes(b: Option<Bytes>) returns (ok: bool)
      modifies this
      ensures ok == (b.None? || |b.value| < LIMIT32)
      ensures Joined() == old(Joined()) + if ok then Enc(OptionalBlob(b)) else [1]
    {
      match b {
        case None =>
          Append([0]);
          ok := true;
        case Some(v) =>
          Append([1]);
          ok := LengthPrefixed(v);
          assert ok ==> Joined() == old(Joined()) + ([1] + Enc(Blob(v)));
          assert !ok ==> Joined() == old(Joined()) + [1] + [];
      }
    }

    method OptionalUint64(n: Option<int>) returns (ok: bool)
      modifies this
      ensures ok == (n.None? || Fits(n.value, 8))
      ensures Joined() == old(Joined()) + if ok then Enc(if n.None? then Absent else Present(Num(8, n.value))) else [1]
    {
      hide Pow256;
      match n {
        case None =>
          Append([0]);
          ok := true;
        case Some(v) =>
          Append([1]);
          ok := Uint(v, 8);
          assert ok ==> Joined() == old(Joined()) + ([1] + Enc(Num(8, v)));
          assert !ok ==> Joined() == old(Joined()) + [1] + [];
      }
    }

    /** A set of texts: count, then the members in order. */
    method CountedTexts(items: set<Bytes>) returns (ok: bool)
      modifies this
      ensures ok == TextsFit(items)
      ensures ok ==> Joined() == old(Joined()) + Enc(TextList(items))
      ensures !ok && |items| >= LIMIT32 ==> Joined() == old(Joined())
      ensures !ok && |items| < LIMIT32 ==>
                exists i :: FirstLong(Sorted(items), i) && Joined() == old(Joined()) + TextsBefore(Sorted(items), i)
    {
      hide Pow256, Enc, Sorted, Concat;
      Widths();
      var sorted := Sorted(items);
      SortedIs(items);
      ghost var start := Joined();
      ok := Uint(|sorted|, 4);
      if !ok {
        assert start + [] == start;
        return;
      }
      for i := 0 to |sorted|
        invariant forall j :: 0 <= j < i ==> |sorted[j]| < LIMIT32
        invariant Joined() == start + (Enc(Num(4, |sorted|)) + EncAll(Blobs(sorted[..i])))
      {
        assert sorted[i] in sorted;
        BlobsSnoc(sorted, i);
        ghost var before := EncAll(Blobs(sorted[..i]));
        ok := LengthPrefixed(sorted[i]);
        if !ok {
          assert FirstLong(sorted, i) && Joined() == start + TextsBefore(sorted, i) + [];
          return;
        }
        assert start + (Enc(Num(4, |sorted|)) + before) + Enc(Blob(sorted[i]))
            == start + (Enc(Num(4, |sorted|)) + (before + Enc(Blob(sorted[i]))));
      }
      assert sorted[..|sorted|] == sorted;
      CountedIs(Blobs(sorted));
    }

    method KeyValue(k: Bytes, v: Bytes) returns (ok: bool)
      modifies this
      ensures ok == (|k| < LIMIT32 && |v| < LIMIT32)
      ensures ok ==> Joined() == old(Joined()) + (Enc(Blob(k)) + Enc(Blob(v)))
      ensures !ok ==> Joined() == old(Joined()) + if |k| < LIMIT32 then Enc(Blob(k)) else []
    {
      hide Enc;
      ok := LengthPrefixed(k);
      if !ok { return; }
      ok := LengthPrefixed(v);
      assert ok ==> Joined() == old(Joined()) + Enc(Blob(k)) + Enc(Blob(v));
      assert !ok ==> Joined() == old(Joined()) + Enc(Blob(k)) + [];
    }

    /** A text-to-text map: count, then each key and its value in key order. */
    method SortedMap(m: map<Bytes, Bytes>) returns (ok: bool)
      modifies this
      ensures ok == (|m| < LIMIT32 && forall k :: k in m ==> |k| < LIMIT32 && |m[k]| < LIMIT32)
      ensures ok ==> Joined() == old(Joined()) + Enc(MapList(m))
      ensures !ok && |m| >= LIMIT32 ==> Joined() == old(Joined())
      ensures !ok && |m| < LIMIT32 ==>
                exists i :: FirstLongEntry(m, Sorted(m.Keys), i)
                    && Joined() == old(Joined()) + EntriesBefore(m, Sorted(m.Keys), i)
    {
      hide Pow256, Enc, Sorted, Concat;
      Widths();
      var sorted := Sorted(m.Keys);
      SortedIs(m.Keys);
      assert |m.Keys| == |m|;
      ghost var start := Joined();
      ok := Uint(|m|, 4);
      if !ok {
        assert start + [] == start;
        return;
      }
      for i := 0 to |sorted|
        invariant forall j :: 0 <= j < i ==> |sorted[j]| < LIMIT32 && |m[sorted[j]]| < LIMIT32
        invariant Joined() == start + (Enc(Num(4, |sorted|)) + EncAll(Entries(m, sorted[..i])))
      {
        EntriesSnoc(m, sorted, i);
        ghost var before := EncAll(Entries(m, sorted[..i]));
        ok := KeyValue(sorted[i], m[sorted[i]]);
        if !ok {
          ghost var tail: Bytes := if |sorted[i]| < LIMIT32 then Enc(Blob(sorted[i])) else [];
          assert Joined() == start + (Enc(Num(4, |sorted|)) + before) + tail
              == start + (Enc(Num(4, |sorted|)) + before + tail);
          assert FirstLongEntry(m, sorted, i) && Joined() == start + EntriesBefore(m, sorted, i);
          return;
        }
        assert start + (Enc(Num(4, |sorted|)) + before) + (Enc(Blob(sorted[i])) + Enc(Blob(m[sorted[i]])))
            == start + (Enc(Num(4, |sorted|)) + (before + (Enc(Blob(sorted[i])) + Enc(Blob(m[sorted[i]])))));
      }
      assert sorted[..|sorted|] == sorted;
      CountedIs(Entries(m, sorted));
      forall k | k in m
        ensures |k| < LIMIT32 && |m[k]| < LIMIT32
      {
        assert k in sorted;
      }
    }

    method Finalize() returns (b: Bytes)
      ensures b == Joined()
    {
      b := Concat(parts);
    }
  }

  predicate Finite(bits: Bytes)
    requires |bits| == 8
  {
    var high: int, next: int := bits[0], bits[1];
    (high % 128) * 16 + next / 16 != 2047
  }

  /** All eleven exponent bits set is what infinities and NaN have. */
  lemma FiniteMeans(bits: Bytes)
    requires |bits| == 8
    ensures Finite(bits) <==> !(bits[0] % 128 == 127 && bits[1] >= 240)
  {
  }

  function OptionalBlob(b: Option<Bytes>): Value
  {
    if b.None? then Absent else Present(Blob(b.value))
  }

  predicate TextsFit(items: set<Bytes>)
  {
    |items| < LIMIT32 && forall t :: t in items ==> |t| < LIMIT32
  }

  function Blobs(ts: seq<Bytes>): (vs: seq<Value>)
    ensures |vs| == |ts|
  {
    seq(|ts|, i requires 0 <= i < |ts| => Blob(ts[i]))
  }

  /** The first text too long for its length prefix, and what a list leaves encoded when it meets it. */
  ghost predicate FirstLong(ts: seq<Bytes>, i: nat)
  {
    i < |ts| && |ts[i]| >= LIMIT32 && forall j :: 0 <= j < i ==> |ts[j]| < LIMIT32
  }

  ghost function TextsBefore(ts: seq<Bytes>, i: nat): Bytes
    requires i <= |ts| < LIMIT32
  {
    Widths();
    Enc(Num(4, |ts|)) + EncAll(Blobs(ts[..i]))
  }

  function TextList(items: set<Bytes>): Value
  {
    List(Blobs(Sorted(items)))
  }

  function Entries(m: map<Bytes, Bytes>, keys: seq<Bytes>): (vs: seq<Value>)
    requires forall i :: 0 <= i < |keys| ==> keys[i] in m
    ensures |vs| == |keys|
  {
    seq(|keys|, i requires 0 <= i < |keys| => Tuple([Blob(keys[i]), Blob(m[keys[i]])]))
  }

  predicate EntryFits(m: map<Bytes, Bytes>, k: Bytes)
    requires k in m
  {
    |k| < LIMIT32 && |m[k]| < LIMIT32
  }

  /** The same for a map: the key of the failing entry stays if it is the value that does not fit. */
  ghost predicate FirstLongEntry(m: map<Bytes, Bytes>, keys: seq<Bytes>, i: nat)
  {
    && (forall j :: 0 <= j < |keys| ==> keys[j] in m)
    && i < |keys| && !EntryFits(m, keys[i]) && forall j :: 0 <= j < i ==> EntryFits(m, keys[j])
  }

  ghost function EntriesBefore(m: map<Bytes, Bytes>, keys: seq<Bytes>, i: nat): Bytes
    requires i < |keys| < LIMIT32 && forall j :: 0 <= j < |keys| ==> keys[j] in m
  {
    Widths();
    Enc(Num(4, |keys|)) + EncAll(Entries(m, keys[..i])) + if |keys[i]| < LIMIT32 then Enc(Blob(keys[i])) else []
  }

  function MapList(m: map<Bytes, Bytes>): Value
  {
    SortedIs(m.Keys);
    List(Entries(m, Sorted(m.Keys)))
  }

  /** Key and value, each with its length, for the keys in order. */
  function SizedPairs(m: map<Bytes, Bytes>, keys: seq<Bytes>): Bytes
    requires forall i :: 0 <= i < |keys| ==> keys[i] in m
  {
    if keys == [] then [] else Sized(keys[0]) + Sized(m[keys[0]]) + SizedPairs(m, keys[1..])
  }

  /** A map is its count, then its entries in key order. */
  lemma MapLayout(m: map<Bytes, Bytes>)
    ensures forall i :: 0 <= i < |Sorted(m.Keys)| ==> Sorted(m.Keys)[i] in m
    ensures Enc(MapList(m)) == BigEndian(|m|, 4) + SizedPairs(m, Sorted(m.Keys))
  {
    hide Sorted;
    SortedIs(m.Keys);
    assert |m.Keys| == |m|;
    EntriesLayout(m, Sorted(m.Keys));
  }

  lemma {:induction false} EntriesLayout(m: map<Bytes, Bytes>, keys: seq<Bytes>)
    requires forall i :: 0 <= i < |keys| ==> keys[i] in m
    ensures EncAll(Entries(m, keys)) == SizedPairs(m, keys)
    decreases |keys|
  {
    if keys != [] {
      EntriesLayout(m, keys[1..]);
      assert Entries(m, keys)[1..] == Entries(m, keys[1..]);
      EntryLayout(keys[0], m[keys[0]]);
    }
  }

  lemma EntryLayout(k: Bytes, v: Bytes)
    ensures Enc(Tuple([Blob(k), Blob(v)])) == Sized(k) + Sized(v)
  {
    hide BigEndian;
    var pair := [Blob(k), Blob(v)];
    assert pair[1..] == [Blob(v)] && [Blob(v)][1..] == [];
    assert EncAll(pair) == Enc(pair[0]) + EncAll(pair[1..]);
    assert EncAll([Blob(v)]) == Enc(Blob(v)) + EncAll([]);
  }

  lemma SortedIs(s: set<Bytes>)
    ensures |Sorted(s)| == |s|
    ensures forall i :: 0 <= i < |Sorted(s)| ==> Sorted(s)[i] in s
    ensures forall x :: x in s <==> x in Sorted(s)
  {
    forall i | 0 <= i < |Sorted(s)|
      ensures Sorted(s)[i] in s
    {
      assert Sorted(s)[i] in Sorted(s);
    }
  }

  lemma {:induction false} EncAllSnoc(vs: seq<Value>, v: Value)
    ensures EncAll(vs + [v]) == EncAll(vs) + Enc(v)
  {
    hide Enc;
    if vs == [] {
      assert (vs + [v])[1..] == [];
    } else {
      EncAllSnoc(vs[1..], v);
      assert (vs + [v])[1..] == vs[1..] + [v];
    }
  }

  lemma BlobsSnoc(ts: seq<Bytes>, i: nat)
    requires i < |ts|
    ensures EncAll(Blobs(ts[..i + 1])) == EncAll(Blobs(ts[..i])) + Enc(Blob(ts[i]))
  {
    hide Enc;
    EncAllSnoc(Blobs(ts[..i]), Blob(ts[i]));
    assert Blobs(ts[..i + 1]) == Blobs(ts[..i]) + [Blob(ts[i])];
  }

  lemma EntriesSnoc(m: map<Bytes, Bytes>, keys: seq<Bytes>, i: nat)
    requires i < |keys| && forall j :: 0 <= j < |keys| ==> keys[j] in m
    ensures EncAll(Entries(m, keys[..i + 1]))
         == EncAll(Entries(m, keys[..i])) + (Enc(Blob(keys[i])) + Enc(Blob(m[keys[i]])))
  {
    var pair := [Blob(keys[i]), Blob(m[keys[i]])];
    EncAllSnoc(Entries(m, keys[..i]), Tuple(pair));
    assert Entries(m, keys[..i + 1]) == Entries(m, keys[..i]) + [Tuple(pair)];
    assert EncAll(pair) == Enc(pair[0]) + EncAll(pair[1..]);
    assert pair[1..] == [pair[1]] && EncAll([pair[1]]) == Enc(pair[1]);
  }

  lemma CountedIs(vs: seq<Value>)
    ensures Enc(List(vs)) == Enc(Num(4, |vs|)) + EncAll(vs)
  {
  }
}
