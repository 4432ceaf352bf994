/** The signer policy and its canonical bytes: nested counted lists that determine the policy. */
module Governance {
  import opened Bytes
  import opened CanonicalEncoders
  import opened Encoding
  import opened Options

  datatype SignerEntry = SignerEntry(
    signerId: Bytes, vk: Bytes, roles: set<Bytes>, validFrom: int, validUntil: int, predecessorVk: Option<Bytes>)

  datatype ApprovalRule = ApprovalRule(actionType: Bytes, requiredRoles: set<Bytes>, minSigners: int,
      maxAgeSeconds: int)

  datatype SignerPolicy = SignerPolicy(version: int, signers: seq<SignerEntry>, rules: seq<ApprovalRule>)

  const DOMAIN_SIGNER_POLICY: Bytes := Ascii("SUWAPPU-LTP:signer-policy:v1") + [0]

  const SIGNER: Shape := TupleS([BlobS, BlobS, ListS(BlobS), NumS(8), NumS(8), OptS(BlobS)])
  const RULE: Shape := TupleS([BlobS, ListS(BlobS), NumS(4), NumS(4)])
  const POLICY: Shape := TupleS([NumS(4), ListS(SIGNER), ListS(RULE)])

  predicate SignerFits(s: SignerEntry)
  {
    && |s.signerId| < LIMIT32 && |s.vk| < LIMIT32 && TextsFit(s.roles)
    && Fits(s.validFrom, 8) && Fits(s.validUntil, 8)
    && (s.predecessorVk.None? || |s.predecessorVk.value| < LIMIT32)
  }

  predicate RuleFits(r: ApprovalRule)
  {
    |r.actionType| < LIMIT32 && TextsFit(r.requiredRoles) && Fits(r.minSigners, 4) && Fits(r.maxAgeSeconds, 4)
  }

  /** Every field is in the range its encoding allows; otherwise encoding raises an error. */
  predicate PolicyFits(p: SignerPolicy)
  {
    && Fits(p.version, 4) && |p.signers| < LIMIT32 && |p.rules| < LIMIT32
    && (forall i :: 0 <= i < |p.signers| ==> SignerFits(p.signers[i]))
    && (forall i :: 0 <= i < |p.rules| ==> RuleFits(p.rules[i]))
  }

  function SignerValue(s: SignerEntry): Value
    requires SignerFits(s)
  {
    Tuple([Blob(s.signerId), Blob(s.vk), TextList(s.roles), Num(8, s.validFrom), Num(8, s.validUntil),
        OptionalBlob(s.predecessorVk)])
  }

  function RuleValue(r: ApprovalRule): Value
    requires RuleFits(r)
  {
    Tuple([Blob(r.actionType), TextList(r.requiredRoles), Num(4, r.minSigners), Num(4, r.maxAgeSeconds)])
  }

  function SignerValues(ss: seq<SignerEntry>): (vs: seq<Value>)
    requires forall i :: 0 <= i < |ss| ==> SignerFits(ss[i])
    ensures |vs| == |ss|
  {
    seq(|ss|, i requires 0 <= i < |ss| => SignerValue(ss[i]))
  }

  function RuleValues(rs: seq<ApprovalRule>): (vs: seq<Value>)
    requires forall i :: 0 <= i < |rs| ==> RuleFits(rs[i])
    ensures |vs| == |rs|
  {
    seq(|rs|, i requires 0 <= i < |rs| => RuleValue(rs[i]))
  }

  function PolicyValue(p: SignerPolicy): Value
    requires PolicyFits(p)
  {
    Tuple([Num(4, p.version), List(SignerValues(p.signers)), List(RuleValues(p.rules))])
  }

  /** None when some field is out of range. */
  function CanonicalBytes(p: SignerPolicy): Option<Bytes>
  {
    if PolicyFits(p) then Some(DOMAIN_SIGNER_POLICY + Enc(PolicyValue(p))) else None
  }

  // ----- the layout, written out

  /** Count, then each text with its length, in increasing order. */
  function SizedAll(ts: seq<Bytes>): Bytes
  {
    if ts == [] then [] else Sized(ts[0]) + SizedAll(ts[1..])
  }

  lemma {:induction false} BlobsLayout(ts: seq<Bytes>)
    ensures EncAll(Blobs(ts)) == SizedAll(ts)
    decreases |ts|
  {
    hide BigEndian;
    if ts != [] {
      BlobsLayout(ts[1..]);
      assert Blobs(ts)[1..] == Blobs(ts[1..]);
    }
  }

  lemma TextListLayout(items: set<Bytes>)
    ensures Enc(TextList(items)) == BigEndian(|items|, 4) + SizedAll(Sorted(items))
  {
    SortedIs(items);
    BlobsLayout(Sorted(items));
  }

  /** Identifier, key, roles, validity, and the previous key behind a flag. */
  lemma SignerLayout(s: SignerEntry)
    requires SignerFits(s)
    ensures Enc(SignerValue(s)) ==
            Sized(s.signerId) + Sized(s.vk) + (BigEndian(|s.roles|, 4) + SizedAll(Sorted(s.roles)))
            + BigEndian(s.validFrom, 8) + BigEndian(s.validUntil, 8)
            + if s.predecessorVk.None? then [0] else [1] + Sized(s.predecessorVk.value)
  {
    hide BigEndian, SizedAll, Sorted;
    TextListLayout(s.roles);
    Tuple6(Blob(s.signerId), Blob(s.vk), TextList(s.roles), Num(8, s.validFrom), Num(8, s.validUntil),
           OptionalBlob(s.predecessorVk));
  }

  /** Action, roles, threshold and age. */
  lemma RuleLayout(r: ApprovalRule)
    requires RuleFits(r)
    ensures Enc(RuleValue(r)) ==
            Sized(r.actionType) + (BigEndian(|r.requiredRoles|, 4) + SizedAll(Sorted(r.requiredRoles)))
            + BigEndian(r.minSigners, 4) + BigEndian(r.maxAgeSeconds, 4)
  {
    hide BigEndian, SizedAll, Sorted;
    TextListLayout(r.requiredRoles);
    Tuple4(Blob(r.actionType), TextList(r.requiredRoles), Num(4, r.minSigners), Num(4, r.maxAgeSeconds));
  }

  /** Tag and version, then the signers and the rules, each list behind its count. */
  lemma PolicyLayout(p: SignerPolicy)
    requires PolicyFits(p)
    ensures CanonicalBytes(p) == Some(
              Ascii("SUWAPPU-LTP:signer-policy:v1") + [0] + BigEndian(p.version, 4)
              + BigEndian(|p.signers|, 4) + EncAll(SignerValues(p.signers))
              + BigEndian(|p.rules|, 4) + EncAll(RuleValues(p.rules)))
  {
    hide BigEndian, EncAll, Enc;
    var ss, rs := SignerValues(p.signers), RuleValues(p.rules);
    var tag: Bytes := Ascii("SUWAPPU-LTP:signer-policy:v1") + [0];
    Tuple3(Num(4, p.version), List(ss), List(rs));
    CountedIs(ss);
    CountedIs(rs);
    NumIs(4, p.version);
    NumIs(4, |ss|);
    NumIs(4, |rs|);
    assert DOMAIN_SIGNER_POLICY == tag;
    hide SignerValues, RuleValues, Ascii, DOMAIN_SIGNER_POLICY;
    Assoc(tag, BigEndian(p.version, 4), BigEndian(|ss|, 4), EncAll(ss), BigEndian(|rs|, 4), EncAll(rs));
  }

  lemma NumIs(width: nat, n: nat)
    ensures Enc(Num(width, n)) == BigEndian(n, width)
  {
  }

  lemma Assoc(a: Bytes, b: Bytes, c: Bytes, d: Bytes, e: Bytes, f: Bytes)
    ensures a + (b + ((c + d) + (e + f))) == a + b + c + d + e + f
  {
  }

  // ----- the bytes determine the policy

  lemma TextListConforms(items: set<Bytes>)
    requires TextsFit(items)
    ensures Conforms(TextList(items), ListS(BlobS))
  {
    SortedIs(items);
  }

  lemma TextListInjective(a: set<Bytes>, b: set<Bytes>)
    requires TextList(a) == TextList(b)
    ensures a == b
  {
    var s, t := Sorted(a), Sorted(b);
    assert Blobs(s) == Blobs(t);
    forall i | 0 <= i < |s|
      ensures s[i] == t[i]
    {
      assert Blobs(s)[i] == Blobs(t)[i];
    }
    SortedInjective(a, b);
  }

  lemma SignerConforms(s: SignerEntry)
    requires SignerFits(s)
    ensures Conforms(SignerValue(s), SIGNER)
  {
    hide TextList, Pow256;
    TextListConforms(s.roles);
  }

  lemma SignerInjective(a: SignerEntry, b: SignerEntry)
    requires SignerFits(a) && SignerFits(b) && SignerValue(a) == SignerValue(b)
    ensures a == b
  {
    hide TextList, Pow256;
    var x, y := SignerValue(a).vs, SignerValue(b).vs;
    assert x[0] == y[0] && x[1] == y[1] && x[2] == y[2] && x[3] == y[3] && x[4] == y[4] && x[5] == y[5];
    TextListInjective(a.roles, b.roles);
  }

  lemma RuleConforms(r: ApprovalRule)
    requires RuleFits(r)
    ensures Conforms(RuleValue(r), RULE)
  {
    hide TextList, Pow256;
    TextListConforms(r.requiredRoles);
  }

  lemma RuleInjective(a: ApprovalRule, b: ApprovalRule)
    requires RuleFits(a) && RuleFits(b) && RuleValue(a) == RuleValue(b)
    ensures a == b
  {
    hide TextList, Pow256;
    var x, y := RuleValue(a).vs, RuleValue(b).vs;
    assert x[0] == y[0] && x[1] == y[1] && x[2] == y[2] && x[3] == y[3];
    TextListInjective(a.requiredRoles, b.requiredRoles);
  }

  lemma PolicyConforms(p: SignerPolicy)
    requires PolicyFits(p)
    ensures Conforms(PolicyValue(p), POLICY)
  {
    hide SignerValue, RuleValue, Pow256;
    var signers, rules := SignerValues(p.signers), RuleValues(p.rules);
    assert Conforms(List(signers), ListS(SIGNER)) by {
      forall i | 0 <= i < |signers|
        ensures Conforms(signers[i], SIGNER)
      {
        SignerConforms(p.signers[i]);
      }
    }
    assert Conforms(List(rules), ListS(RULE)) by {
      forall i | 0 <= i < |rules|
        ensures Conforms(rules[i], RULE)
      {
        RuleConforms(p.rules[i]);
      }
    }
  }

  /** Equal canonical bytes, even as prefixes of longer strings, mean equal policies (roles as sets). */
  lemma PolicyBytesInjective(p: SignerPolicy, q: SignerPolicy, t: Bytes, u: Bytes)
    requires CanonicalBytes(p).Some? && CanonicalBytes(q).Some?
    requires CanonicalBytes(p).value + t == CanonicalBytes(q).value + u
    ensures p == q && t == u
  {
    hide SignerValue, RuleValue, Pow256, Conforms, Enc;
    var v, w := PolicyValue(p), PolicyValue(q);
    assert DOMAIN_SIGNER_POLICY + (Enc(v) + t) == CanonicalBytes(p).value + t;
    assert DOMAIN_SIGNER_POLICY + (Enc(w) + u) == CanonicalBytes(q).value + u;
    SplitAt(DOMAIN_SIGNER_POLICY, DOMAIN_SIGNER_POLICY, Enc(v) + t, Enc(w) + u);
    PolicyConforms(p);
    PolicyConforms(q);
    UniqueReading(v, w, POLICY, t, u);
    assert v.vs[0] == w.vs[0] && v.vs[1] == w.vs[1] && v.vs[2] == w.vs[2];
    var a, b := SignerValues(p.signers), SignerValues(q.signers);
    var c, d := RuleValues(p.rules), RuleValues(q.rules);
    forall i | 0 <= i < |p.signers|
      ensures p.signers[i] == q.signers[i]
    {
      assert a[i] == b[i];
      SignerInjective(p.signers[i], q.signers[i]);
    }
    forall i | 0 <= i < |p.rules|
      ensures p.rules[i] == q.rules[i]
    {
      assert c[i] == d[i];
      RuleInjective(p.rules[i], q.rules[i]);
    }
  }

  // ----- the nested loops

  method EncodeSigner(enc: CanonicalEncoder, s: SignerEntry) returns (ok: bool)
    modifies enc
    ensures ok == SignerFits(s)
    ensures ok ==> enc.Joined() == old(enc.Joined()) + Enc(SignerValue(s))
  {
    hide Enc, TextList, Pow256;
    ok := enc.LengthPrefixed(s.signerId);
    if !ok { return; }
    ok := enc.LengthPrefixed(s.vk);
    if !ok { return; }
    ok := enc.CountedTexts(s.roles);
    if !ok { return; }
    ok := enc.Uint(s.validFrom, 8);
    if !ok { return; }
    ok := enc.Uint(s.validUntil, 8);
    if !ok { return; }
    ok := enc.OptionalBytes(s.predecessorVk);
    if !ok { return; }
    Tuple6(Blob(s.signerId), Blob(s.vk), TextList(s.roles), Num(8, s.validFrom), Num(8, s.validUntil),
        OptionalBlob(s.predecessorVk));
    Assoc6(old(enc.Joined()), Enc(Blob(s.signerId)), Enc(Blob(s.vk)), Enc(TextList(s.roles)), Enc(Num(8, s.validFrom)),
           Enc(Num(8, s.validUntil)), Enc(OptionalBlob(s.predecessorVk)));
  }

  method EncodeRule(enc: CanonicalEncoder, r: ApprovalRule) returns (ok: bool)
    modifies enc
    ensures ok == RuleFits(r)
    ensures ok ==> enc.Joined() == old(enc.Joined()) + Enc(RuleValue(r))
  {
    hide Enc, TextList, Pow256;
    ok := enc.LengthPrefixed(r.actionType);
    if !ok { return; }
    ok := enc.CountedTexts(r.requiredRoles);
    if !ok { return; }
    ok := enc.Uint(r.minSigners, 4);
    if !ok { return; }
    ok := enc.Uint(r.maxAgeSeconds, 4);
    if !ok { return; }
    Tuple4(Blob(r.actionType), TextList(r.requiredRoles), Num(4, r.minSigners), Num(4, r.maxAgeSeconds));
    Assoc4(old(enc.Joined()), Enc(Blob(r.actionType)), Enc(TextList(r.requiredRoles)), Enc(Num(4, r.minSigners)),
        Enc(Num(4, r.maxAgeSeconds)));
  }

  lemma NoSigners()
    ensures EncAll(SignerValues([])) == [] && EncAll(RuleValues([])) == []
  {
  }

  lemma SignersSnoc(signers: seq<SignerEntry>, i: nat)
    requires i < |signers| && forall j :: 0 <= j <= i ==> SignerFits(signers[j])
    ensures EncAll(SignerValues(signers[..i + 1])) == EncAll(SignerValues(signers[..i])) + Enc(SignerValue(signers[i]))
  {
    hide Enc, EncAll, SignerValue, SignerFits;
    assert SignerValues(signers[..i + 1]) == SignerValues(signers[..i]) + [SignerValue(signers[i])];
    EncAllSnoc(SignerValues(signers[..i]), SignerValue(signers[i]));
  }

  lemma RulesSnoc(rules: seq<ApprovalRule>, i: nat)
    requires i < |rules| && forall j :: 0 <= j <= i ==> RuleFits(rules[j])
    ensures EncAll(RuleValues(rules[..i + 1])) == EncAll(RuleValues(rules[..i])) + Enc(RuleValue(rules[i]))
  {
    hide Enc, EncAll, RuleValue, RuleFits;
    assert RuleValues(rules[..i + 1]) == RuleValues(rules[..i]) + [RuleValue(rules[i])];
    EncAllSnoc(RuleValues(rules[..i]), RuleValue(rules[i]));
  }

  method EncodeSigners(enc: CanonicalEncoder, signers: seq<SignerEntry>) returns (ok: bool)
    modifies enc
    ensures ok == (|signers| < LIMIT32 && forall i :: 0 <= i < |signers| ==> SignerFits(signers[i]))
    ensures ok ==> enc.Joined() == old(enc.Joined()) + Enc(List(SignerValues(signers)))
  {
    hide Enc, EncAll, SignerValue, SignerFits, Pow256, Concat;
    Widths();
    NoSigners();
    ok := enc.Uint(|signers|, 4);
    if !ok { return; }
    var head := Enc(Num(4, |signers|));
    for i := 0 to |signers|
      invariant forall j :: 0 <= j < i ==> SignerFits(signers[j])
      invariant enc.Joined() == old(enc.Joined()) + (head + EncAll(SignerValues(signers[..i])))
    {
      ghost var before := EncAll(SignerValues(signers[..i]));
      ok := EncodeSigner(enc, signers[i]);
      if !ok { return; }
      SignersSnoc(signers, i);
      Regroup(old(enc.Joined()), head, before, Enc(SignerValue(signers[i])));
    }
    assert signers[..|signers|] == signers;
    CountedIs(SignerValues(signers));
  }

  method EncodeRules(enc: CanonicalEncoder, rules: seq<ApprovalRule>) returns (ok: bool)
    modifies enc
    ensures ok == (|rules| < LIMIT32 && forall i :: 0 <= i < |rules| ==> RuleFits(rules[i]))
    ensures ok ==> enc.Joined() == old(enc.Joined()) + Enc(List(RuleValues(rules)))
  {
    hide Enc, EncAll, RuleValue, RuleFits, Pow256, Concat;
    Widths();
    NoSigners();
    ok := enc.Uint(|rules|, 4);
    if !ok { return; }
    var head := Enc(Num(4, |rules|));
    for i := 0 to |rules|
      invariant forall j :: 0 <= j < i ==> RuleFits(rules[j])
      invariant enc.Joined() == old(enc.Joined()) + (head + EncAll(RuleValues(rules[..i])))
    {
      ghost var before := EncAll(RuleValues(rules[..i]));
      ok := EncodeRule(enc, rules[i]);
      if !ok { return; }
      RulesSnoc(rules, i);
      Regroup(old(enc.Joined()), head, before, Enc(RuleValue(rules[i])));
    }
    assert rules[..|rules|] == rules;
    CountedIs(RuleValues(rules));
  }

  method EncodePolicy(p: SignerPolicy) returns (b: Option<Bytes>)
    ensures b == CanonicalBytes(p)
  {
    hide Enc, SignerValues, RuleValues, SignerFits, RuleFits, Pow256;
    var enc := new CanonicalEncoder(DOMAIN_SIGNER_POLICY);
    var ok := enc.Uint(p.version, 4);
    if !ok { return None; }
    ok := EncodeSigners(enc, p.signers);
    if !ok { return None; }
    ok := EncodeRules(enc, p.rules);
    if !ok { return None; }
    Tuple3(Num(4, p.version), List(SignerValues(p.signers)), List(RuleValues(p.rules)));
    Assoc3(DOMAIN_SIGNER_POLICY, Enc(Num(4, p.version)), Enc(List(SignerValues(p.signers))),
        Enc(List(RuleValues(p.rules))));
    var bytes := enc.Finalize();
    b := Some(bytes);
  }

  // ----- regrouping concatenations

  lemma Regroup(a: Bytes, b: Bytes, c: Bytes, d: Bytes)
    ensures a + (b + c) + d == a + (b + (c + d))
  {
  }

  lemma Assoc3(a: Bytes, b: Bytes, c: Bytes, d: Bytes)
    ensures a + b + c + d == a + (b + (c + d))
  {
  }

  lemma Assoc4(a: Bytes, b: Bytes, c: Bytes, d: Bytes, e: Bytes)
    ensures a + b + c + d + e == a + (b + (c + (d + e)))
  {
  }

  lemma Assoc6(a: Bytes, b: Bytes, c: Bytes, d: Bytes, e: Bytes, f: Bytes, g: Bytes)
    ensures a + b + c + d + e + f + g == a + (b + (c + (d + (e + (f + g)))))
  {
    Assoc4(a + b + c, d, e, f, g);
    Assoc3(a, b, c, d + (e + (f + g)));
  }

  lemma {:induction false} TupleCons(v: Value, vs: seq<Value>)
    ensures EncAll([v] + vs) == Enc(v) + EncAll(vs)
  {
    assert ([v] + vs)[1..] == vs;
  }

  lemma Pair(v: Value, w: Value)
    ensures EncAll([v, w]) == Enc(v) + Enc(w)
  {
    hide Enc;
    TupleCons(v, [w]);
    TupleCons(w, []);
    assert [w] + [] == [w] && [v] + [w] == [v, w];
    assert EncAll([]) == [] && Enc(w) + [] == Enc(w);
  }

  lemma Tuple3(u: Value, v: Value, w: Value)
    ensures Enc(Tuple([u, v, w])) == Enc(u) + (Enc(v) + Enc(w))
  {
    Pair(v, w);
    TupleCons(u, [v, w]);
    assert [u] + [v, w] == [u, v, w];
  }

  lemma Tuple4(t: Value, u: Value, v: Value, w: Value)
    ensures Enc(Tuple([t, u, v, w])) == Enc(t) + (Enc(u) + (Enc(v) + Enc(w)))
  {
    Tuple3(u, v, w);
    TupleCons(t, [u, v, w]);
    assert [t] + [u, v, w] == [t, u, v, w];
  }

  lemma Tuple6(r: Value, s: Value, t: Value, u: Value, v: Value, w: Value)
    ensures Enc(Tuple([r, s, t, u, v, w])) == Enc(r) + (Enc(s) + (Enc(t) + (Enc(u) + (Enc(v) + Enc(w)))))
  {
    Tuple4(t, u, v, w);
    TupleCons(s, [t, u, v, w]);
    assert [s] + [t, u, v, w] == [s, t, u, v, w];
    TupleCons(r, [s, t, u, v, w]);
    assert [r] + [s, t, u, v, w] == [r, s, t, u, v, w];
  }
}
