/**
 The transfer protocol on values, over ideal cryptography: what commit produces, what the
 receiver computes from a lattice key, a record and the fetched shards, and why the result is
 either nothing or exactly the committed content.
 */
module Materialization {
  import opened Bytes
  import opened ErasureCode
  import opened Network
  import opened NetworkRuns
  import opened Options
  import opened Placement
  import opened Records

  /** What is sealed to the receiver; the policy is carried along and not consulted by materialize. */
  datatype LatticeKey = LatticeKey(entityId: Bytes, cek: Bytes, commitmentRef: Bytes, policy: map<Bytes, Bytes>)

  /**
   Cryptographic primitives as given functions.  Encryption takes key, entity id, plaintext and
   shard index; sealing takes the receiver's encapsulation key and fresh randomness.
   */
  datatype Crypto = Crypto(
    hash: Bytes -> Bytes,
    encrypt: (Bytes, Bytes, Bytes, nat) -> Bytes,
    decrypt: (Bytes, Bytes, Bytes, nat) -> Option<Bytes>,
    seal: (LatticeKey, Bytes, Bytes) -> Bytes,
    unseal: (Bytes, Bytes) -> Option<LatticeKey>,
    sign: (Bytes, Bytes) -> Bytes,
    verify: (Bytes, Bytes, Bytes) -> bool,
    shardRoot: (Bytes, seq<Bytes>) -> Bytes)

  ghost predicate InjectiveHash(c: Crypto)
  {
    forall a: Bytes, b: Bytes :: c.hash(a) == c.hash(b) ==> a == b
  }

  function EntityId(c: Crypto, content: Bytes, shape: Bytes, timestamp: Bytes, vk: Bytes): Bytes
  {
    c.hash(content + shape + timestamp + vk)
  }

  datatype Outcome = Nothing | Content(bytes: Bytes) | Raised

  /** The key that the sender makes from a record. */
  function KeyFor(c: Crypto, entityId: Bytes, r: Record, cek: Bytes, policy: map<Bytes, Bytes>): LatticeKey
    requires ToBytes(r).Some?
  {
    LatticeKey(entityId, cek, c.hash(ToBytes(r).value), policy)
  }

  const N_KEY: Bytes := [110]
  const K_KEY: Bytes := [107]

  // ----- the receiver's computation

  function Decrypted(c: Crypto, key: LatticeKey, fetched: map<nat, Bytes>): map<nat, Bytes>
  {
    map i | i in fetched && c.decrypt(key.cek, key.entityId, fetched[i], i).Some?
      :: c.decrypt(key.cek, key.entityId, fetched[i], i).value
  }

  /** The verification key: the registered one if the sender is known, else the record's own. */
  function SenderVk(registry: map<Bytes, Bytes>, r: Record): Option<Bytes>
  {
    if r.senderId in registry then Some(registry[r.senderId])
    else if r.senderVk != [] then Some(r.senderVk)
    else None
  }

  function VerifySignature(c: Crypto, r: Record, vk: Bytes): bool
  {
    r.signature != [] && c.verify(vk, SignablePayload(r), r.signature)
  }

  predicate HasCounts(r: Record)
  {
    N_KEY in r.params && K_KEY in r.params && r.params[N_KEY].IntParam? && r.params[K_KEY].IntParam?
  }

  /** Steps 3 to 5: the record is the sealed one, signed by its sender. */
  function CheckRecord(c: Crypto, key: LatticeKey, r: Record, registry: map<Bytes, Bytes>): Outcome
  {
    match ToBytes(r)
    case None => Raised
    case Some(bytes) =>
      var vk := SenderVk(registry, r);
      if c.hash(bytes) != key.commitmentRef || vk.None? || !VerifySignature(c, r, vk.value) then Nothing
      else if !HasCounts(r) then Raised
      else Content([])
  }

  /** Steps 7 to 9: decrypt, decode, compare the entity id. */
  ghost function Reconstruct(c: Crypto, key: LatticeKey, r: Record, vk: Bytes, k: nat, fetched: map<nat,
      Bytes>): Outcome
  {
    var plain := Decrypted(c, key, fetched);
    if |fetched| < k || |plain| < k then Nothing
    else
      match Decode(plain, k)
      case Failure(_) => Raised
      case Success(content) =>
        if EntityId(c, content, r.shape, r.timestamp, vk) != key.entityId then Nothing else Content(content)
  }

  ghost function Materialized(c: Crypto, key: LatticeKey, record: Option<Record>, registry: map<Bytes, Bytes>,
                              fetch: nat -> Placed<map<nat, Bytes>>): Outcome
  {
    match record
    case None => Nothing
    case Some(r) =>
      var checked := CheckRecord(c, key, r, registry);
      if !checked.Content? then checked
      else
        match fetch(r.params[N_KEY].n)
        case Err(_) => Raised
        case Ok(fetched) => Reconstruct(c, key, r, SenderVk(registry, r).value, r.params[K_KEY].n, fetched)
  }

  // ----- integrity

  /** What commit and lattice bind together: the key names this record and this content. */
  ghost predicate Binds(c: Crypto, key: LatticeKey, r: Record, content: Bytes)
  {
    && ToBytes(r).Some? && key.commitmentRef == c.hash(ToBytes(r).value)
    && key.entityId == EntityId(c, content, r.shape, r.timestamp, r.senderVk)
  }

  lemma SameSuffix(a: Bytes, b: Bytes, s: Bytes)
    requires a + s == b + s
    ensures a == b
  {
    assert |a| == |b|;
    assert a == (a + s)[..|a|] == (b + s)[..|b|] == b;
  }

  lemma EntityIdDetermines(c: Crypto, x: Bytes, y: Bytes, shape: Bytes, timestamp: Bytes, v: Bytes, w: Bytes)
    requires InjectiveHash(c) && |v| == |w|
    requires EntityId(c, x, shape, timestamp, v) == EntityId(c, y, shape, timestamp, w)
    ensures x == y
  {
    var a, b := x + shape + timestamp, y + shape + timestamp;
    assert a + v == b + w;
    assert a == (a + v)[..|a|] && b == (b + w)[..|b|] && |a| == |b|;
    SameSuffix(x + shape, y + shape, timestamp);
    SameSuffix(x, y, shape);
  }

  /** The id has no separators, so its reading rests on keys of one length: a longer key can pass for more content. */
  lemma EntityIdNeedsFixedKeys(c: Crypto, content: Bytes, shape: Bytes, timestamp: Bytes, vk: Bytes)
    requires shape + timestamp != []
    ensures content + shape + timestamp != content
    ensures EntityId(c, content + shape + timestamp, shape, timestamp, vk)
         == EntityId(c, content, shape, timestamp, shape + timestamp + vk)
  {
    var long := content + shape + timestamp;
    assert |long| == |content| + |shape + timestamp|;
    assert long + shape + timestamp + vk == content + shape + timestamp + (shape + timestamp + vk);
  }

  lemma SameFields(r: Record, committed: Record)
    requires ToBytes(r).Some? && ToBytes(r) == ToBytes(committed)
    ensures r.shape == committed.shape && r.timestamp == committed.timestamp && r.senderVk == committed.senderVk
  {
    hide ToBytes;
    RecordBytesInjective(r, committed);
  }

  /**
   Whatever record is presented, whatever the registry says and whatever shards arrive, the
   receiver never accepts content other than what was committed.
   */
  lemma NeverWrongContent(c: Crypto, key: LatticeKey, committed: Record, content: Bytes,
                          record: Option<Record>, registry: map<Bytes, Bytes>, fetch: nat -> Placed<map<nat, Bytes>>)
    requires InjectiveHash(c) && Binds(c, key, committed, content)
    requires forall id :: id in registry ==> |registry[id]| == |committed.senderVk|
    ensures var result := Materialized(c, key, record, registry, fetch);
            result.Content? ==> result == Content(content)
  {
    hide Decode, ToBytes, Decrypted, EntityId, VerifySignature;
    var result := Materialized(c, key, record, registry, fetch);
    if result.Content? {
      var r := record.value;
      SameFields(r, committed);
      EntityIdDetermines(c, result.bytes, content, committed.shape, committed.timestamp, SenderVk(registry, r).value,
          committed.senderVk);
    }
  }

  // ----- availability

  /** Under this key and entity id exactly the encryptions of the given plaintexts decrypt, each to its own. */
  ghost predicate IdealAead(c: Crypto, cek: Bytes, entityId: Bytes, plain: seq<Bytes>)
  {
    && (forall i :: 0 <= i < |plain| ==>
        c.decrypt(cek, entityId, c.encrypt(cek, entityId, plain[i], i), i) == Some(plain[i]))
    && (forall ct, i: nat :: c.decrypt(cek, entityId, ct, i).Some? ==>
        i < |plain| && ct == c.encrypt(cek, entityId, plain[i], i))
  }

  lemma DecryptedGenuine(c: Crypto, key: LatticeKey, content: Bytes, n: nat, k: nat, fetched: map<nat, Bytes>)
    requires Encode(content, n, k).Success? && IdealAead(c, key.cek, key.entityId, Encode(content, n, k).value)
    ensures Genuine(Decrypted(c, key, fetched), content, n, k)
    ensures forall i ::
              && i in fetched && i < n
              && fetched[i] == c.encrypt(key.cek, key.entityId, Encode(content, n, k).value[i], i) ==>
                i in Decrypted(c, key, fetched)
  {
    hide Encode;
    EncodeLength(content, n, k);
  }

  lemma EncodeLength(content: Bytes, n: nat, k: nat)
    requires Encode(content, n, k).Success?
    ensures |Encode(content, n, k).value| == n && k > 0
  {
  }

  lemma EnoughKeys(m: map<nat, Bytes>, s: set<nat>)
    requires s <= m.Keys
    ensures |m| >= |s|
  {
    assert m.Keys == s + (m.Keys - s);
    assert |m.Keys| == |m|;
  }

  /** The receiver knows the sender's key, directly or from the record, and the signature holds. */
  ghost predicate Trusted(c: Crypto, r: Record, registry: map<Bytes, Bytes>)
  {
    SenderVk(registry, r) == Some(r.senderVk) && VerifySignature(c, r, r.senderVk)
  }

  /** With the right key and record, k genuine shards among any fetched ones are enough. */
  lemma EnoughShardsSuffice(c: Crypto, key: LatticeKey, r: Record, content: Bytes, n: nat, k: nat,
                            registry: map<Bytes, Bytes>, fetch: nat -> Placed<map<nat, Bytes>>,
                            fetched: map<nat, Bytes>, genuine: set<nat>)
    requires Binds(c, key, r, content) && Trusted(c, r, registry)
    requires HasCounts(r) && r.params[N_KEY].n == n && r.params[K_KEY].n == k
    requires Encode(content, n, k).Success? && IdealAead(c, key.cek, key.entityId, Encode(content, n, k).value)
    requires fetch(n) == Ok(fetched) && |genuine| >= k
    requires forall i :: i in genuine ==>
               i in fetched && i < n && fetched[i]
                   == c.encrypt(key.cek, key.entityId, Encode(content, n, k).value[i], i)
    ensures Materialized(c, key, Some(r), registry, fetch) == Content(content)
  {
    hide Encode, Decode, ToBytes, Decrypted;
    var plain := Decrypted(c, key, fetched);
    DecryptedGenuine(c, key, content, n, k, fetched);
    EnoughKeys(fetched, genuine);
    EnoughKeys(plain, genuine);
    AnyShardsDecode(content, n, k, plain);
  }

  // ----- end to end

  function Encrypted(c: Crypto, cek: Bytes, entityId: Bytes, plain: seq<Bytes>): (e: seq<Bytes>)
    ensures |e| == |plain|
  {
    seq(|plain|, i requires 0 <= i < |plain| => c.encrypt(cek, entityId, plain[i], i))
  }

  /** After distribution and any run of evictions, a fetch of all n shards returns each as distributed. */
  lemma FetchAfterEvictions(env: Env, start: Net, entityId: Bytes, shards: seq<Bytes>, run: seq<Eviction>, i: nat)
    requires CacheSound(env, start) && i < |shards|
    requires forall j :: 0 <= j < |shards| ==> !HeldBySomeActive(start.nodes, (entityId, j))
    requires Distribute(env, start, entityId, shards, 2, |shards|).1.Ok?
    requires var stored := Distribute(env, start, entityId, shards, 2, |shards|).0;
             Enough(stored.nodes, (entityId, i)) && Possible(stored, run)
    requires var end := AfterEvictions(Distribute(env, start, entityId, shards, 2, |shards|).0, run);
             exists p :: 0 <= p < |end.nodes| && Placement.Usable(env, end.fence, end.nodes[p])
    ensures var end := AfterEvictions(Distribute(env, start, entityId, shards, 2, |shards|).0, run);
            var m := Fetched(env, end.nodes, end.fence, entityId, |shards|, |shards|);
            i in m && m[i] == shards[i]
  {
    hide Distribute, Evict, Fetched, Enough, CacheSound;
    var stored := Distribute(env, start, entityId, shards, 2, |shards|).0;
    var end := AfterEvictions(stored, run);
    var key := (entityId, i);
    DistributeHolds(env, start, entityId, shards, 2, |shards|, i);
    EvictionsKeepShards(stored, run, key, shards[i]);
    var p :| 0 <= p < |end.nodes| && Placement.Usable(env, end.fence, end.nodes[p]);
    assert p in Active(end.nodes);
    var q :| 0 <= q < |end.nodes| && Serves(end.nodes[q], key, shards[i]);
    assert HeldBySomeActive(end.nodes, key);
    FetchAll(env, end.nodes, end.fence, entityId, |shards|, |shards|, i);
  }

  /**
   A transfer commits content on a network, any number of nodes are then evicted in any order, and
   as long as one node usable for placement is left the receiver gets exactly the content back.
   Only k of the n shards need to have been fully replicated.
   */
  lemma TransferSurvivesEvictions(c: Crypto, env: Env, start: Net, run: seq<Eviction>, key: LatticeKey, r: Record,
                                  content: Bytes, n: nat, k: nat, kept: set<nat>, registry: map<Bytes, Bytes>,
                                  fetch: nat -> Placed<map<nat, Bytes>>)
    requires Binds(c, key, r, content) && Trusted(c, r, registry) && |kept| >= k
    requires HasCounts(r) && r.params[N_KEY].n == n && r.params[K_KEY].n == k
    requires Encode(content, n, k).Success? && IdealAead(c, key.cek, key.entityId, Encode(content, n, k).value)
    requires CacheSound(env, start) && forall j :: 0 <= j < n ==> !HeldBySomeActive(start.nodes, (key.entityId, j))
    requires var shards := Encrypted(c, key.cek, key.entityId, Encode(content, n, k).value);
             var (stored, status) := Distribute(env, start, key.entityId, shards, 2, n);
             && status.Ok? && Possible(stored, run)
             && (forall i :: i in kept ==> i < n && Enough(stored.nodes, (key.entityId, i)))
             && var end := AfterEvictions(stored, run);
                && (exists p :: 0 <= p < |end.nodes| && Placement.Usable(env, end.fence, end.nodes[p]))
                && fetch(n) == Ok(Fetched(env, end.nodes, end.fence, key.entityId, n, n))
    ensures Materialized(c, key, Some(r), registry, fetch) == Content(content)
  {
    hide Encode, Distribute, Fetched, AfterEvictions, Possible, Enough, CacheSound, Materialized, ToBytes,
        HeldBySomeActive;
    EncodeLength(content, n, k);
    var plain := Encode(content, n, k).value;
    var shards := Encrypted(c, key.cek, key.entityId, plain);
    var stored := Distribute(env, start, key.entityId, shards, 2, n).0;
    var end := AfterEvictions(stored, run);
    var fetched := Fetched(env, end.nodes, end.fence, key.entityId, n, n);
    forall i | i in kept
      ensures i in fetched && i < n && fetched[i] == c.encrypt(key.cek, key.entityId, plain[i], i)
    {
      FetchAfterEvictions(env, start, key.entityId, shards, run, i);
    }
    EnoughShardsSuffice(c, key, r, content, n, k, registry, fetch, fetched, kept);
  }
}
