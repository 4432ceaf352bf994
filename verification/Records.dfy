/**
 Commitment records and their legacy binary form.  The parameter map is written without a count,
 so the form is not prefix-free; as a whole string it still determines every encoded field.
 */
module Records {
  import opened Bytes
  import opened CanonicalEncoders
  import opened Encoding
  import opened Options

  /** Encoding parameters are integers or texts; both are written as text. */
  datatype Param = IntParam(n: nat) | TextParam(t: Bytes)

  function Decimal(n: nat): Bytes
  {
    if n < 10 then [48 + n] else Decimal(n / 10) + [48 + n % 10]
  }

  function ParamText(p: Param): Bytes
  {
    match p
    case IntParam(n) => Decimal(n)
    case TextParam(t) => t
  }

  function ParamTexts(r: Record): (m: map<Bytes, Bytes>)
    ensures m.Keys == r.params.Keys
  {
    map k | k in r.params :: ParamText(r.params[k])
  }

  /** Text fields by their UTF-8 bytes, the timestamp by its eight IEEE 754 bytes. */
  datatype Record = Record(
    entityId: Bytes, senderId: Bytes, shardMapRoot: Bytes, contentHash: Bytes,
    params: map<Bytes, Param>, shape: Bytes, shapeHash: Bytes, timestamp: Bytes,
    ttlEpochs: Option<nat>, predecessor: Option<Bytes>, signature: Bytes, senderVk: Bytes)

  const COMMIT_TAG: Bytes := Ascii("LTP-COMMIT-v1") + [0]
  const RECORD_TAG: Bytes := Ascii("LTP-RECORD-v1") + [0]

  function Texts(r: Record): seq<Bytes>
  {
    [r.entityId, r.senderId, r.shardMapRoot, r.contentHash, r.shape, r.shapeHash]
  }

  function PredecessorText(r: Record): Bytes
  {
    if r.predecessor.None? then [] else r.predecessor.value
  }

  function Trailer(r: Record): seq<Bytes>
  {
    [PredecessorText(r), r.signature, r.senderVk]
  }

  function Pairs(m: map<Bytes, Bytes>, keys: seq<Bytes>): (ps: seq<Bytes>)
    requires forall i :: 0 <= i < |keys| ==> keys[i] in m
    ensures |ps| == 2 * |keys|
  {
    if keys == [] then [] else [keys[0], m[keys[0]]] + Pairs(m, keys[1..])
  }

  function Params(r: Record): seq<Bytes>
  {
    SortedIs(r.params.Keys);
    Pairs(ParamTexts(r), Sorted(r.params.Keys))
  }

  /** Packing succeeds: every length fits in four bytes and the timestamp has eight. */
  predicate Encodable(r: Record)
  {
    && |r.timestamp| == 8
    && (forall i :: 0 <= i < 6 ==> |Texts(r)[i]| < LIMIT32)
    && (forall i :: 0 <= i < 3 ==> |Trailer(r)[i]| < LIMIT32)
    && (var m := ParamTexts(r); forall k :: k in m ==> |k| < LIMIT32 && |m[k]| < LIMIT32)
  }

  function SignablePayload(r: Record): Bytes
  {
    COMMIT_TAG + (PrefixedAll(Texts(r)) + (r.timestamp + PrefixedAll(Params(r))))
  }

  function ToBytes(r: Record): Option<Bytes>
  {
    if Encodable(r) then Some(RECORD_TAG + (SignablePayload(r) + PrefixedAll(Trailer(r)))) else None
  }

  // ----- the bytes determine the record

  lemma {:induction false} PrefixedAllAppend(a: seq<Bytes>, b: seq<Bytes>)
    ensures PrefixedAll(a + b) == PrefixedAll(a) + PrefixedAll(b)
  {
    if a == [] {
      assert a + b == b;
    } else {
      hide Prefixed;
      PrefixedAllAppend(a[1..], b);
      assert (a + b)[1..] == a[1..] + b && (a + b)[0] == a[0];
      AssocTwo(Prefixed(a[0]), PrefixedAll(a[1..]), PrefixedAll(b));
    }
  }

  lemma AssocTwo(a: Bytes, b: Bytes, c: Bytes)
    ensures a + (b + c) == a + b + c
  {
  }

  /** Lists of equal length are determined whatever follows. */
  lemma {:induction false} FixedListPrefix(a: seq<Bytes>, b: seq<Bytes>, t: Bytes, u: Bytes)
    requires |a| == |b| && AllShort(a) && AllShort(b) && PrefixedAll(a) + t == PrefixedAll(b) + u
    ensures a == b && t == u
  {
    hide Prefixed;
    if a == [] {
      assert PrefixedAll(a) + t == t && PrefixedAll(b) + u == u;
    } else {
      var t', u' := PrefixedAll(a[1..]) + t, PrefixedAll(b[1..]) + u;
      assert PrefixedAll(a) + t == Prefixed(a[0]) + t' && PrefixedAll(b) + u == Prefixed(b[0]) + u';
      BlobPrefix(a[0], b[0], t', u');
      FixedListPrefix(a[1..], b[1..], t, u);
      assert a == [a[0]] + a[1..] && b == [b[0]] + b[1..];
    }
  }

  lemma {:induction false} PairsShort(m: map<Bytes, Bytes>, keys: seq<Bytes>)
    requires forall i :: 0 <= i < |keys| ==> keys[i] in m
    requires forall k :: k in m ==> |k| < LIMIT32 && |m[k]| < LIMIT32
    ensures AllShort(Pairs(m, keys))
  {
    if keys != [] {
      PairsShort(m, keys[1..]);
      assert keys[0] in m;
    }
  }

  lemma {:induction false} PairsInjective(m: map<Bytes, Bytes>, s: seq<Bytes>, n: map<Bytes, Bytes>, t: seq<Bytes>)
    requires (forall i :: 0 <= i < |s| ==> s[i] in m) && (forall i :: 0 <= i < |t| ==> t[i] in n)
    requires Pairs(m, s) == Pairs(n, t)
    ensures s == t && forall i :: 0 <= i < |s| ==> m[s[i]] == n[s[i]]
  {
    if s != [] && t != [] {
      var x, y := Pairs(m, s), Pairs(n, t);
      assert x[0] == y[0] && x[1] == y[1] && x[2..] == y[2..];
      PairsInjective(m, s[1..], n, t[1..]);
      assert s == [s[0]] + s[1..] && t == [t[0]] + t[1..];
    }
  }

  /** A map is determined by its pairs in key order. */
  lemma SortedPairsInjective(m: map<Bytes, Bytes>, n: map<Bytes, Bytes>)
    requires (forall i :: 0 <= i < |Sorted(m.Keys)| ==> Sorted(m.Keys)[i] in m)
    requires (forall i :: 0 <= i < |Sorted(n.Keys)| ==> Sorted(n.Keys)[i] in n)
    requires Pairs(m, Sorted(m.Keys)) == Pairs(n, Sorted(n.Keys))
    ensures m == n
  {
    hide Sorted, Pairs;
    var s := Sorted(m.Keys);
    SortedIs(m.Keys);
    SortedIs(n.Keys);
    PairsInjective(m, s, n, Sorted(n.Keys));
    assert m.Keys == n.Keys;
    forall k | k in m
      ensures m[k] == n[k]
    {
      assert k in s;
    }
  }

  lemma ParamsInjective(a: Record, b: Record)
    requires Params(a) == Params(b)
    ensures ParamTexts(a) == ParamTexts(b)
  {
    hide Sorted, ParamTexts, Pairs;
    SortedIs(a.params.Keys);
    SortedIs(b.params.Keys);
    SortedPairsInjective(ParamTexts(a), ParamTexts(b));
  }

  /**
   Everything the record bytes carry: the time to live is not encoded, a missing predecessor reads
   as the empty text, and parameters are compared by their text.
   */
  /** The fields that the sender signs. */
  ghost predicate SameSignedFields(a: Record, b: Record)
  {
    && a.entityId == b.entityId && a.senderId == b.senderId && a.shardMapRoot == b.shardMapRoot
    && a.contentHash == b.contentHash && a.shape == b.shape && a.shapeHash == b.shapeHash && a.timestamp == b.timestamp
    && a.params.Keys == b.params.Keys
    && (forall k :: k in a.params ==> ParamText(a.params[k]) == ParamText(b.params[k]))
    && (forall k :: k in a.params && a.params[k].IntParam? && b.params[k].IntParam? ==> a.params[k] == b.params[k])
  }

  /** Those and the fields added by the log: a missing predecessor is written as an empty one. */
  ghost predicate SameEncodedFields(a: Record, b: Record)
  {
    && SameSignedFields(a, b) && a.signature == b.signature && a.senderVk == b.senderVk
    && (if a.predecessor.None? then [] else a.predecessor.value)
        == (if b.predecessor.None? then [] else b.predecessor.value)
  }

  /** Decimal text determines the number. */
  lemma {:induction false} DecimalInjective(m: nat, n: nat)
    requires Decimal(m) == Decimal(n)
    ensures m == n
  {
    var a, b := Decimal(m), Decimal(n);
    DecimalNonEmpty(m / 10);
    DecimalNonEmpty(n / 10);
    assert a[|a| - 1] == 48 + m % 10 && b[|b| - 1] == 48 + n % 10;
    if m >= 10 && n >= 10 {
      assert a[..|a| - 1] == Decimal(m / 10) && b[..|b| - 1] == Decimal(n / 10);
      DecimalInjective(m / 10, n / 10);
    }
  }

  lemma DecimalNonEmpty(n: nat)
    ensures |Decimal(n)| >= 1
  {
  }

  lemma SignedFields(a: Record, b: Record)
    requires Texts(a) == Texts(b) && a.timestamp == b.timestamp && ParamTexts(a) == ParamTexts(b)
    ensures SameSignedFields(a, b)
  {
    hide Decimal;
    var t, u := Texts(a), Texts(b);
    assert t[0] == u[0] && t[1] == u[1] && t[2] == u[2] && t[3] == u[3] && t[4] == u[4] && t[5] == u[5];
    forall k | k in a.params
      ensures k in b.params && ParamText(a.params[k]) == ParamText(b.params[k])
    {
      assert ParamTexts(a)[k] == ParamTexts(b)[k];
    }
    forall k | k in a.params && a.params[k].IntParam? && b.params[k].IntParam?
      ensures a.params[k] == b.params[k]
    {
      DecimalInjective(a.params[k].n, b.params[k].n);
    }
  }

  // ----- the layout, written out

  /** Tag, six texts with their lengths, the timestamp, then the parameters in key order. */
  lemma SignableLayout(r: Record)
    requires Encodable(r)
    ensures SignablePayload(r) ==
            Ascii("LTP-COMMIT-v1") + [0] + Sized(r.entityId) + Sized(r.senderId) + Sized(r.shardMapRoot)
            + Sized(r.contentHash) + Sized(r.shape) + Sized(r.shapeHash) + r.timestamp + PrefixedAll(Params(r))
  {
    hide Params, PrefixedAll, Sized, Texts, Ascii;
    TextsLayout(r);
    var tag: Bytes := Ascii("LTP-COMMIT-v1") + [0];
    assert COMMIT_TAG == tag;
    hide COMMIT_TAG;
    Regroup(tag, Sized(r.entityId), Sized(r.senderId), Sized(r.shardMapRoot), Sized(r.contentHash), Sized(r.shape),
            Sized(r.shapeHash), r.timestamp + PrefixedAll(Params(r)));
  }

  lemma TextsLayout(r: Record)
    ensures PrefixedAll(Texts(r)) == Sized(r.entityId) + (Sized(r.senderId) + (Sized(r.shardMapRoot)
            + (Sized(r.contentHash) + (Sized(r.shape) + Sized(r.shapeHash)))))
  {
    hide Sized, PrefixedAll;
    var a, b, c, d, e, f := r.entityId, r.senderId, r.shardMapRoot, r.contentHash, r.shape, r.shapeHash;
    OneSized(a, [b, c, d, e, f]);
    OneSized(b, [c, d, e, f]);
    OneSized(c, [d, e, f]);
    OneSized(d, [e, f]);
    OneSized(e, [f]);
    OneSized(f, []);
    assert Texts(r) == [a] + [b, c, d, e, f];
    assert [b, c, d, e, f] == [b] + [c, d, e, f] && [c, d, e, f] == [c] + [d, e, f];
    assert [d, e, f] == [d] + [e, f] && [e, f] == [e] + [f] && [f] == [f] + [];
    assert Sized(f) + [] == Sized(f);
  }

  lemma Regroup(tag: Bytes, a: Bytes, b: Bytes, c: Bytes, d: Bytes, e: Bytes, f: Bytes, rest: Bytes)
    ensures tag + ((a + (b + (c + (d + (e + f))))) + rest) == tag + a + b + c + d + e + f + rest
  {
    var ef, cdef := e + f, c + (d + (e + f));
    assert a + (b + cdef) == a + b + cdef;
    assert cdef == c + d + e + f;
  }

  lemma OneSized(b: Bytes, rest: seq<Bytes>)
    ensures PrefixedAll([b] + rest) == Sized(b) + PrefixedAll(rest) && PrefixedAll([]) == []
  {
    hide BigEndian;
    assert ([b] + rest)[1..] == rest;
  }

  /** The full record: tag, signed payload, then predecessor, signature and key with their lengths. */
  lemma RecordLayout(r: Record)
    requires Encodable(r)
    ensures ToBytes(r).Some?
    ensures var previous := if r.predecessor.None? then [] else r.predecessor.value;
            ToBytes(r).value ==
            Ascii("LTP-RECORD-v1") + [0] + SignablePayload(r) + Sized(previous) + Sized(r.signature) + Sized(r.senderVk)
  {
    hide BigEndian, SignablePayload;
    var previous := if r.predecessor.None? then [] else r.predecessor.value;
    OneSized(previous, [r.signature, r.senderVk]);
    OneSized(r.signature, [r.senderVk]);
    OneSized(r.senderVk, []);
    assert Trailer(r) == [previous] + [r.signature, r.senderVk];
    assert [r.signature, r.senderVk] == [r.signature] + [r.senderVk] && [r.senderVk] == [r.senderVk] + [];
    hide PrefixedAll, Sized;
  }

  /** Parameters alternate key and text, keys increasing. */
  lemma {:induction false} PairsAt(m: map<Bytes, Bytes>, keys: seq<Bytes>, i: nat)
    requires i < |keys| && forall j :: 0 <= j < |keys| ==> keys[j] in m
    ensures Pairs(m, keys)[2 * i] == keys[i] && Pairs(m, keys)[2 * i + 1] == m[keys[i]]
    decreases i
  {
    if i > 0 {
      PairsAt(m, keys[1..], i - 1);
    }
  }

  lemma PayloadParts(r: Record, rest: Bytes)
    ensures SignablePayload(r) + rest
         == COMMIT_TAG + (PrefixedAll(Texts(r)) + (r.timestamp + (PrefixedAll(Params(r)) + rest)))
  {
    hide PrefixedAll, Params, Texts, COMMIT_TAG;
  }

  lemma PayloadReading(a: Record, b: Record, x: seq<Bytes>, y: seq<Bytes>)
    requires Encodable(a) && Encodable(b) && AllShort(x) && AllShort(y)
    requires SignablePayload(a) + PrefixedAll(x) == SignablePayload(b) + PrefixedAll(y)
    ensures Texts(a) == Texts(b) && a.timestamp == b.timestamp && Params(a) + x == Params(b) + y
  {
    hide PrefixedAll, Params, COMMIT_TAG;
    var p, q := PrefixedAll(Params(a)), PrefixedAll(Params(b));
    var xs, ys := PrefixedAll(x), PrefixedAll(y);
    var ta, tb := PrefixedAll(Texts(a)), PrefixedAll(Texts(b));
    PayloadParts(a, xs);
    PayloadParts(b, ys);
    hide SignablePayload;
    SplitAt(COMMIT_TAG, COMMIT_TAG, ta + (a.timestamp + (p + xs)), tb + (b.timestamp + (q + ys)));
    FixedListPrefix(Texts(a), Texts(b), a.timestamp + (p + xs), b.timestamp + (q + ys));
    SplitAt(a.timestamp, b.timestamp, p + xs, q + ys);
    PrefixedAllAppend(Params(a), x);
    PrefixedAllAppend(Params(b), y);
    ParamsShort(a);
    ParamsShort(b);
    WholeListInjective(Params(a) + x, Params(b) + y);
  }

  lemma ParamsShort(r: Record)
    requires Encodable(r)
    ensures AllShort(Params(r))
  {
    SortedIs(r.params.Keys);
    PairsShort(ParamTexts(r), Sorted(r.params.Keys));
  }

  /** Equal record bytes mean equal encoded fields. */
  lemma RecordBytesInjective(a: Record, b: Record)
    requires ToBytes(a).Some? && ToBytes(a) == ToBytes(b)
    ensures SameEncodedFields(a, b)
  {
    hide PrefixedAll, SignablePayload, Params;
    var x, y := Trailer(a), Trailer(b);
    SplitAt(RECORD_TAG, RECORD_TAG, SignablePayload(a) + PrefixedAll(x), SignablePayload(b) + PrefixedAll(y));
    PayloadReading(a, b, x, y);
    var ps, qs := Params(a), Params(b);
    assert |ps| + 3 == |ps + x| == |qs + y| == |qs| + 3;
    assert ps == (ps + x)[..|ps|] == (qs + y)[..|qs|] == qs;
    assert x == (ps + x)[|ps|..] == (qs + y)[|qs|..] == y;
    ParamsInjective(a, b);
    SignedFields(a, b);
    assert x[0] == y[0] && x[1] == y[1] && x[2] == y[2];
  }

  /** The signed payload determines every field it covers. */
  lemma SignablePayloadInjective(a: Record, b: Record)
    requires Encodable(a) && Encodable(b) && SignablePayload(a) == SignablePayload(b)
    ensures SameSignedFields(a, b)
  {
    hide SignablePayload, Params;
    assert SignablePayload(a) + PrefixedAll([]) == SignablePayload(a);
    assert SignablePayload(b) + PrefixedAll([]) == SignablePayload(b);
    PayloadReading(a, b, [], []);
    assert Params(a) + [] == Params(a) && Params(b) + [] == Params(b);
    ParamsInjective(a, b);
    SignedFields(a, b);
  }
}
