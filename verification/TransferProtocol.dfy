/**
 The protocol orchestrator: commit, lattice and materialize as the program runs them, on top of
 the erasure coder, the commitment network and the commitment log.
 */
module TransferProtocol {
  import opened Bytes
  import opened Coder
  import opened CommitmentLogs
  import opened Materialization
  import opened Network
  import opened NetworkRuns
  import opened NetworkService
  import opened Options
  import opened Placement
  import opened Records

  datatype Entity = Entity(content: Bytes, shape: Bytes)

  datatype Sender = Sender(name: Bytes, vk: Bytes, sk: Bytes)

  datatype CommitOutcome = Committed(entityId: Bytes, record: Record, cek: Bytes) | Raised

  predicate ValidCek(cek: Bytes)
  {
    |cek| == 32 && cek != Zeros(32) && cek != seq(32, _ => 255)
  }

  function OrDefault(n: nat, fallback: nat): nat
  {
    if n == 0 then fallback else n
  }

  const ENCODING_LABELS: map<Bytes, Param> := map[
    Ascii("algorithm") := TextParam(Ascii("reed-solomon-gf256")),
    Ascii("gf_poly") := TextParam(Ascii("0x11d")),
    Ascii("eval") := TextParam(Ascii("vandermonde-powers-of-0x02"))]

  function EncodingParams(n: nat, k: nat): map<Bytes, Param>
  {
    ENCODING_LABELS[N_KEY := IntParam(n)][K_KEY := IntParam(k)]
  }

  /** The signed record, before the log links it to its predecessor. */
  function SignedRecord(c: Crypto, e: Entity, s: Sender, entityId: Bytes, shardMapRoot: Bytes, timestamp: Bytes,
      n: nat, k: nat): Record
  {
    var r := Record(entityId, s.name, shardMapRoot, c.hash(e.content), EncodingParams(n, k), e.shape, c.hash(e.shape),
                    timestamp, None, None, [], s.vk);
    r.(signature := c.sign(s.sk, SignablePayload(r)))
  }

  /** Thirty-two bytes, not all zero and not all ones. */
  lemma CekMeans(cek: Bytes)
    ensures ValidCek(cek) <==>
              |cek| == 32 && (exists i :: 0 <= i < 32 && cek[i] != 0) && (exists i :: 0 <= i < 32 && cek[i] != 255)
  {
    if |cek| == 32 {
      var ones: Bytes := seq(32, _ => 255);
      if forall i :: 0 <= i < 32 ==> cek[i] == 0 {
        assert cek == Zeros(32);
      }
      if forall i :: 0 <= i < 32 ==> cek[i] == 255 {
        assert cek == ones;
      }
    }
  }

  /** The policy of a key sealed without one. */
  const UNRESTRICTED: map<Bytes, Bytes> := map[Ascii("type") := Ascii("unrestricted")]

  /** The sealed lattice key: entity id, content key and record hash, with the policy or the default one. */
  function SealedKey(c: Crypto, entityId: Bytes, record: Record, cek: Bytes, ek: Bytes, policy: map<Bytes, Bytes>,
      randomness: Bytes): Bytes
    requires ToBytes(record).Some?
  {
    c.seal(KeyFor(c, entityId, record, cek, if policy == map[] then UNRESTRICTED else policy), ek, randomness)
  }

  /** What the receiver gets for a sealed key, the log's records and a network. */
  ghost function Received(c: Crypto, sealedKey: Bytes, dk: Bytes, given: Option<Record>, records: map<Bytes, Record>,
                          registry: map<Bytes, Bytes>, env: Env, nodes: seq<Node>, fence: Option<Fence>): Outcome
  {
    match c.unseal(sealedKey, dk)
    case None => Nothing
    case Some(key) =>
      var record := if given.Some? then given
                    else if key.entityId in records then Some(records[key.entityId]) else None;
      Materialized(c, key, record, registry, FetchResult(env, nodes, fence, key.entityId))
  }

  class LtpProtocol {
    const crypto: Crypto
    const network: CommitmentNetwork
    const log: CommitmentLog
    const coder: ErasureCoder
    var registry: map<Bytes, Bytes>
    var entitySizes: map<Bytes, nat>

    constructor (c: Crypto, network: CommitmentNetwork, log: CommitmentLog, coder: ErasureCoder)
      ensures crypto == c && this.network == network && this.log == log && this.coder == coder
      ensures registry == map[] && entitySizes == map[]
    {
      crypto, this.network, this.log, this.coder := c, network, log, coder;
      registry, entitySizes := map[], map[];
    }

    ghost predicate Valid()
      reads this, network, log, log.store, coder, coder.exp, coder.log
    {
      network.Valid() && log.Valid() && coder.Valid()
    }

    method EncryptShards(cek: Bytes, entityId: Bytes, plain: seq<Bytes>) returns (shards: seq<Bytes>)
      ensures shards == Encrypted(crypto, cek, entityId, plain)
    {
      shards := [];
      for i := 0 to |plain|
        invariant |shards| == i
        invariant forall j :: 0 <= j < i ==> shards[j] == crypto.encrypt(cek, entityId, plain[j], j)
      {
        shards := shards + [crypto.encrypt(cek, entityId, plain[i], i)];
      }
    }

    /** Erasure-code, encrypt and distribute the content. */
    method DistributeEntity(content: Bytes, entityId: Bytes, count: nat, need: nat, cek: Bytes)
        returns (shards: Option<seq<Bytes>>)
      requires coder.Valid() && network.Valid()
      modifies network, coder, coder.exp, coder.log
      ensures coder.Valid() && network.Valid()
      ensures shards.Some? <==>
          Distributable(crypto, network.env, old(network.State()), content, entityId, count, need, cek)
      ensures shards.Some? ==>
                && ValidCek(cek) && ErasureCode.Encode(content, count, need).Success?
                && shards.value == Encrypted(crypto, cek, entityId, ErasureCode.Encode(content, count, need).value)
                && |shards.value| == count
                && (var (after, status) := Distribute(network.env, old(network.State()), entityId, shards.value, 2,
                    count);
                    network.State() == after && status.Ok?)
    {
      hide CacheSound, ErasureCode.Encode, Distribute;
      var encoded := coder.Encode(content, count, need);
      if encoded.Failure? || !ValidCek(cek) { return None; }
      EncodeLength(content, count, need);
      var encrypted := EncryptShards(cek, entityId, encoded.value);
      var placed := network.DistributeEncryptedShards(entityId, encrypted, 2);
      if placed.Err? { return None; }
      shards := Some(encrypted);
    }

    method AppendRecord(signed: Record) returns (record: Option<Record>)
      requires log.Valid()
      modifies log, log.store
      ensures log.Valid()
      ensures record.Some? <==> Accepts(log.hashes, old(log.Memory()), signed)
      ensures record.None? ==> log.Memory() == old(log.Memory())
      ensures record.Some? ==>
                && record.value == Sealed(log.hashes, old(log.Memory()), signed)
                && log.Memory() == CommitmentLogs.Committed(old(log.Memory()), signed.entityId, record.value)
    {
      hide Sound, ToBytes;
      var outcome := log.Append(signed, Completes);
      if !outcome.Done? { return None; }
      record := Some(log.records[signed.entityId]);
    }

    /**
     Phase 1.  Success means the shards are distributed, the record is in the log under the entity
     id, and a key made from them binds exactly this content.  On failure the log is untouched;
     shards already placed stay where they are.
     */
    method Commit(e: Entity, s: Sender, n: nat, k: nat, timestamp: Bytes, cek: Bytes) returns (r: CommitOutcome)
      requires Valid()
      modifies this, network, log, log.store, coder, coder.exp, coder.log
      ensures Valid()
      ensures r.Committed? <==>
          MayCommit(crypto, network.env, log.hashes, old(network.State()), old(log.Memory()), e, s, timestamp,
          OrDefault(n, 8), OrDefault(k, 4), cek)
      ensures r.Raised? ==> log.Memory() == old(log.Memory())
      ensures r.Committed? ==>
                && |cek| == 32 && (exists i :: 0 <= i < 32 && cek[i] != 0) && (exists i :: 0 <= i < 32 && cek[i] != 255)
                && N_KEY in r.record.params && r.record.params[N_KEY] == IntParam(if n == 0 then 8 else n)
                && K_KEY in r.record.params && r.record.params[K_KEY] == IntParam(if k == 0 then 4 else k)
      ensures r.Committed? ==>
                && r.cek == cek && ValidCek(cek) && registry == old(registry)[s.name := s.vk]
                && CommittedShards(crypto, network.env, old(network.State()), network.State(), e, r, OrDefault(n, 8),
                    OrDefault(k, 4))
                && CommittedRecord(crypto, log.hashes, old(log.Memory()), log.Memory(), e, s, timestamp, r,
                    OrDefault(n, 8), OrDefault(k, 4))
                && Binds(crypto, KeyFor(crypto, r.entityId, r.record, cek, UNRESTRICTED), r.record, e.content)
    {
      hide Sound, CacheSound, ErasureCode.Encode, ToBytes, Distribute, SignedRecord, Accepts, Sealed, EntityId,
          Encrypted, Binds, ValidCek, N_KEY, K_KEY;
      var count, need := OrDefault(n, 8), OrDefault(k, 4);
      if s.name == [] { return CommitOutcome.Raised; }
      registry := registry[s.name := s.vk];
      var entityId := EntityId(crypto, e.content, e.shape, timestamp, s.vk);
      entitySizes := entitySizes[entityId := |e.content|];
      var shards := DistributeEntity(e.content, entityId, count, need, cek);
      if shards.None? { return CommitOutcome.Raised; }
      var signed := SignedRecord(crypto, e, s, entityId, crypto.shardRoot(entityId, shards.value), timestamp, count,
          need);
      SignedEntity(crypto, e, s, entityId, crypto.shardRoot(entityId, shards.value), timestamp, count, need);
      var record := AppendRecord(signed);
      if record.None? { return CommitOutcome.Raised; }
      r := CommitOutcome.Committed(entityId, record.value, cek);
      CommitBinds(crypto, log.hashes, old(log.Memory()), log.Memory(), e, s, timestamp, r, count, need, UNRESTRICTED);
      CommitCounts(crypto, log.hashes, old(log.Memory()), log.Memory(), e, s, timestamp, r, count, need);
      CekMeans(cek);
    }

    /** Phase 2: seal the three secrets to the receiver. */
    method Lattice(entityId: Bytes, record: Record, cek: Bytes, receiverEk: Bytes, policy: map<Bytes, Bytes>,
        randomness: Bytes)
      returns (sealedKey: Option<Bytes>)
      ensures sealedKey.Some? <==> ToBytes(record).Some?
      ensures sealedKey.Some? ==>
                && sealedKey.value == SealedKey(crypto, entityId, record, cek, receiverEk, policy, randomness)
                && var carried := if policy == map[] then map[Ascii("type") := Ascii("unrestricted")] else policy;
                   sealedKey.value == crypto.seal(
                     LatticeKey(entityId, cek, crypto.hash(ToBytes(record).value), carried), receiverEk, randomness)
    {
      var bytes := ToBytes(record);
      if bytes.None? { return None; }
      var carried := if policy == map[] then UNRESTRICTED else policy;
      sealedKey := Some(crypto.seal(LatticeKey(entityId, cek, crypto.hash(bytes.value), carried), receiverEk,
          randomness));
    }

    method DecryptShards(key: LatticeKey, fetched: map<nat, Bytes>) returns (plain: map<nat, Bytes>)
      ensures plain == Decrypted(crypto, key, fetched)
    {
      plain := map[];
      var remaining := fetched.Keys;
      while remaining != {}
        invariant remaining <= fetched.Keys
        invariant plain == Decrypted(crypto, key, map i | i in fetched && i !in remaining :: fetched[i])
        decreases |remaining|
      {
        var i :| i in remaining;
        var opened' := crypto.decrypt(key.cek, key.entityId, fetched[i], i);
        if opened'.Some? {
          plain := plain[i := opened'.value];
        }
        remaining := remaining - {i};
      }
      assert fetched == map i | i in fetched && i !in remaining :: fetched[i];
    }

    /** The fetch of all n shards as a function of the network's nodes. */
    ghost function FetchOf(entityId: Bytes): nat -> Placed<map<nat, Bytes>>
      reads network
    {
      FetchResult(network.env, network.nodes, network.fence, entityId)
    }

    /** Decrypt, decode and compare the entity id. */
    method ReconstructFrom(key: LatticeKey, r: Record, vk: Bytes, k: nat, fetched: map<nat, Bytes>)
        returns (result: Outcome)
      requires coder.Valid()
      modifies coder, coder.exp, coder.log
      ensures coder.Valid() && result == Reconstruct(crypto, key, r, vk, k, fetched)
    {
      hide ErasureCode.Decode, Decrypted;
      var plain := DecryptShards(key, fetched);
      if |fetched| < k || |plain| < k { return Nothing; }
      var decoded := coder.Decode(plain, k);
      if decoded.Failure? { return Outcome.Raised; }
      if EntityId(crypto, decoded.value, r.shape, r.timestamp, vk) != key.entityId { return Nothing; }
      result := Content(decoded.value);
    }

    method FetchAndReconstruct(key: LatticeKey, r: Record) returns (result: Outcome)
      requires coder.Valid() && network.Valid() && CheckRecord(crypto, key, r, registry).Content?
      modifies network`cache, network`cachedCount, coder, coder.exp, coder.log
      ensures coder.Valid() && network.Valid()
      ensures result == Materialized(crypto, key, Some(r), registry, FetchOf(key.entityId))
    {
      hide CacheSound, Fetched, Reconstruct, ToBytes;
      var n, k := r.params[N_KEY].n, r.params[K_KEY].n;
      var fetched := network.FetchEncryptedShards(key.entityId, n, n);
      FetchResultIs(network.env, network.nodes, network.fence, key.entityId, n);
      if fetched.Err? { return Outcome.Raised; }
      result := ReconstructFrom(key, r, SenderVk(registry, r).value, k, fetched.value);
    }

    /** Phase 3. */
    method Materialize(sealedKey: Bytes, receiverDk: Bytes, given: Option<Record>) returns (result: Outcome)
      requires Valid()
      modifies network`cache, network`cachedCount, coder, coder.exp, coder.log
      ensures Valid()
      ensures result == Received(crypto, sealedKey, receiverDk, given, log.records, registry, network.env,
          network.nodes, network.fence)
    {
      hide Sound, CacheSound, CheckRecord;
      var unsealed := crypto.unseal(sealedKey, receiverDk);
      if unsealed.None? { return Nothing; }
      var key := unsealed.value;
      var record := given;
      if record.None? {
        record := log.Fetch(key.entityId);
      }
      if record.None? { return Nothing; }
      var checked := CheckRecord(crypto, key, record.value, registry);
      if !checked.Content? { return checked; }
      result := FetchAndReconstruct(key, record.value);
    }
  }

  /** The content key is sound, the content can be coded, and every shard finds a place. */
  ghost predicate Distributable(c: Crypto, env: Env, net: Net, content: Bytes, entityId: Bytes, count: nat, need: nat,
      cek: Bytes)
    requires CacheSound(env, net)
  {
    && ValidCek(cek) && ErasureCode.Encode(content, count, need).Success?
    && var shards := Encrypted(c, cek, entityId, ErasureCode.Encode(content, count, need).value);
       |shards| == count && Distribute(env, net, entityId, shards, 2, count).1.Ok?
  }

  /** Everything commit needs: a named sender, shards that can be placed, and a record the log accepts. */
  ghost predicate MayCommit(c: Crypto, env: Env, h: Hashes, net: Net, log: Log, e: Entity, s: Sender, timestamp: Bytes,
                            count: nat, need: nat, cek: Bytes)
    requires CacheSound(env, net)
  {
    var entityId := EntityId(c, e.content, e.shape, timestamp, s.vk);
    && s.name != [] && Distributable(c, env, net, e.content, entityId, count, need, cek)
    && var shards := Encrypted(c, cek, entityId, ErasureCode.Encode(e.content, count, need).value);
       Accepts(h, log, SignedRecord(c, e, s, entityId, c.shardRoot(entityId, shards), timestamp, count, need))
  }

  /** The network after commit: the encrypted shards of the content, distributed twice each. */
  ghost predicate CommittedShards(c: Crypto, env: Env, before: Net, after: Net, e: Entity, r: CommitOutcome,
      count: nat, need: nat)
    requires r.Committed?
  {
    && ErasureCode.Encode(e.content, count, need).Success? && CacheSound(env, before)
    && var shards := Encrypted(c, r.cek, r.entityId, ErasureCode.Encode(e.content, count, need).value);
       |shards| == count &&
       var (stored, status) := Distribute(env, before, r.entityId, shards, 2, count);
       after == stored && status.Ok?
  }

  /** The log after commit: the signed record, linked to the previous head. */
  ghost predicate CommittedRecord(c: Crypto, h: Hashes, before: Log, after: Log, e: Entity, s: Sender, timestamp: Bytes,
                                  r: CommitOutcome, count: nat, need: nat)
    requires r.Committed?
  {
    && r.entityId == EntityId(c, e.content, e.shape, timestamp, s.vk)
        && ErasureCode.Encode(e.content, count, need).Success?
    && var shards := Encrypted(c, r.cek, r.entityId, ErasureCode.Encode(e.content, count, need).value);
       var signed := SignedRecord(c, e, s, r.entityId, c.shardRoot(r.entityId, shards), timestamp, count, need);
       && Accepts(h, before, signed) && r.record == Sealed(h, before, signed)
       && after == CommitmentLogs.Committed(before, r.entityId, r.record)
  }

  ghost function FetchResult(env: Env, nodes: seq<Node>, fence: Option<Fence>,
      entityId: Bytes): nat -> Placed<map<nat, Bytes>>
  {
    n => if n > 0 && !exists p :: 0 <= p < |nodes| && Placement.Usable(env, fence, nodes[p]) then Err(NoneActive)
         else Ok(Fetched(env, nodes, fence, entityId, n, n))
  }

  lemma FetchResultIs(env: Env, nodes: seq<Node>, fence: Option<Fence>, entityId: Bytes, n: nat)
    ensures FetchResult(env, nodes, fence, entityId)(n)
         == if n > 0 && !exists p :: 0 <= p < |nodes| && Placement.Usable(env, fence, nodes[p]) then Err(NoneActive)
            else Ok(Fetched(env, nodes, fence, entityId, n, n))
  {
  }

  // ----- what the receiver insists on

  /** The record that the receiver works from. */
  ghost function RecordUsed(key: LatticeKey, given: Option<Record>, records: map<Bytes, Record>): Option<Record>
  {
    if given.Some? then given else if key.entityId in records then Some(records[key.entityId]) else None
  }

  /**
   Content is delivered only from a record whose hash the key names and whose signature verifies
   under the registered key of its sender, or its own key if the sender is unknown, and only if
   the content hashes to the entity id.
   */
  lemma ContentIsSigned(c: Crypto, sealedKey: Bytes, dk: Bytes, given: Option<Record>, records: map<Bytes, Record>,
                        registry: map<Bytes, Bytes>, env: Env, nodes: seq<Node>, fence: Option<Fence>)
    requires Received(c, sealedKey, dk, given, records, registry, env, nodes, fence).Content?
    ensures var content := Received(c, sealedKey, dk, given, records, registry, env, nodes, fence).bytes;
            && c.unseal(sealedKey, dk).Some?
            && var key := c.unseal(sealedKey, dk).value;
               && RecordUsed(key, given, records).Some?
               && var r := RecordUsed(key, given, records).value;
                  var vk := if r.senderId in registry then registry[r.senderId] else r.senderVk;
                  && (r.senderId !in registry ==> r.senderVk != [])
                  && r.signature != [] && c.verify(vk, SignablePayload(r), r.signature)
                  && ToBytes(r).Some? && key.commitmentRef == c.hash(ToBytes(r).value)
                  && key.entityId == c.hash(content + r.shape + r.timestamp + vk)
  {
    hide ToBytes, SignablePayload, Fetched, Decrypted, ErasureCode.Decode;
  }

  /** An encodable record that no key vouches for gives nothing, whatever else is right. */
  lemma UnsignedGivesNothing(c: Crypto, sealedKey: Bytes, dk: Bytes, given: Option<Record>, records: map<Bytes, Record>,
                             registry: map<Bytes, Bytes>, env: Env, nodes: seq<Node>, fence: Option<Fence>)
    requires c.unseal(sealedKey, dk).Some?
    requires var key := c.unseal(sealedKey, dk).value;
             && RecordUsed(key, given, records).Some?
             && var r := RecordUsed(key, given, records).value;
                var vk := if r.senderId in registry then registry[r.senderId] else r.senderVk;
                && ToBytes(r).Some?
                && ((r.senderId !in registry && r.senderVk == []) || r.signature == []
                    || !c.verify(vk, SignablePayload(r), r.signature) || key.commitmentRef != c.hash(ToBytes(r).value))
    ensures Received(c, sealedKey, dk, given, records, registry, env, nodes, fence) == Nothing
  {
    hide ToBytes, SignablePayload, Fetched, Reconstruct;
  }

  /** Without a key that opens, or without a record, there is nothing either. */
  lemma UnopenedGivesNothing(c: Crypto, sealedKey: Bytes, dk: Bytes, given: Option<Record>, records: map<Bytes, Record>,
                             registry: map<Bytes, Bytes>, env: Env, nodes: seq<Node>, fence: Option<Fence>)
    requires c.unseal(sealedKey, dk).None? || RecordUsed(c.unseal(sealedKey, dk).value, given, records).None?
    ensures Received(c, sealedKey, dk, given, records, registry, env, nodes, fence) == Nothing
  {
  }

  /** Fewer than k shards that decrypt never give content. */
  lemma FewShardsGiveNothing(c: Crypto, key: LatticeKey, r: Record, registry: map<Bytes, Bytes>,
                             fetch: nat -> Placed<map<nat, Bytes>>, fetched: map<nat, Bytes>)
    requires CheckRecord(c, key, r, registry).Content? && fetch(r.params[N_KEY].n) == Ok(fetched)
    requires |set i | i in fetched && c.decrypt(key.cek, key.entityId, fetched[i], i).Some?| < r.params[K_KEY].n
    ensures Materialized(c, key, Some(r), registry, fetch) == Nothing
  {
    hide ToBytes, SignablePayload, ErasureCode.Decode;
    var plain := Decrypted(c, key, fetched);
    assert plain.Keys == set i | i in fetched && c.decrypt(key.cek, key.entityId, fetched[i], i).Some?;
    assert |plain.Keys| == |plain|;
  }

  // ----- the whole transfer

  /** Signatures made with the sender's key verify, and are never empty. */
  ghost predicate IdealSignature(c: Crypto, s: Sender)
  {
    forall m: Bytes :: c.sign(s.sk, m) != [] && c.verify(s.vk, m, c.sign(s.sk, m))
  }

  lemma PayloadIgnoresSeal(a: Record, b: Record)
    requires a.(signature := [], predecessor := None) == b.(signature := [], predecessor := None)
    ensures SignablePayload(a) == SignablePayload(b)
  {
    assert ParamTexts(a) == ParamTexts(b);
  }

  lemma CountsRecorded(n: nat, k: nat)
    ensures var p := EncodingParams(n, k);
            N_KEY in p && K_KEY in p && p[N_KEY] == IntParam(n) && p[K_KEY] == IntParam(k)
  {
    assert N_KEY[0] != K_KEY[0];
  }

  lemma LabelsRecorded(n: nat, k: nat)
    ensures EncodingParams(n, k) == map[
              Ascii("algorithm") := TextParam(Ascii("reed-solomon-gf256")),
              Ascii("gf_poly") := TextParam(Ascii("0x11d")),
              Ascii("eval") := TextParam(Ascii("vandermonde-powers-of-0x02"))]
              [N_KEY := IntParam(n)][K_KEY := IntParam(k)]
  {
    hide Ascii;
  }

  lemma SignedEntity(c: Crypto, e: Entity, s: Sender, entityId: Bytes, root: Bytes, timestamp: Bytes, n: nat, k: nat)
    ensures SignedRecord(c, e, s, entityId, root, timestamp, n, k).entityId == entityId
  {
    hide SignablePayload, EncodingParams;
  }

  /** A key made from a commit names its record and its content. */
  lemma CommitBinds(c: Crypto, h: Hashes, before: Log, after: Log, e: Entity, s: Sender, timestamp: Bytes,
                    r: CommitOutcome, n: nat, k: nat, policy: map<Bytes, Bytes>)
    requires r.Committed? && CommittedRecord(c, h, before, after, e, s, timestamp, r, n, k)
    ensures ToBytes(r.record).Some?
    ensures Binds(c, KeyFor(c, r.entityId, r.record, r.cek, policy), r.record, e.content)
  {
    hide ErasureCode.Encode, ToBytes, SignablePayload, EncodingParams;
  }

  /**
   The committed record carries the hashes of content and shape, the root of the encrypted shards,
   the sender's name, key and signature, the counts, and the root of the log before it.
   */
  lemma CommittedCarries(c: Crypto, h: Hashes, before: Log, after: Log, e: Entity, s: Sender, timestamp: Bytes,
                         r: CommitOutcome, n: nat, k: nat)
    requires r.Committed? && CommittedRecord(c, h, before, after, e, s, timestamp, r, n, k)
    ensures r.entityId == c.hash(e.content + e.shape + timestamp + s.vk) == r.record.entityId
    ensures r.record.contentHash == c.hash(e.content) && r.record.shapeHash == c.hash(e.shape)
    ensures r.record.shape == e.shape && r.record.timestamp == timestamp
    ensures r.record.senderId == s.name && r.record.senderVk == s.vk
    ensures r.record.signature == c.sign(s.sk, SignablePayload(r.record))
    ensures r.record.predecessor == Some(if before.leaves == [] then seq(64, _ => 48) else h.root(before.leaves))
    ensures N_KEY in r.record.params && r.record.params[N_KEY] == IntParam(n)
    ensures K_KEY in r.record.params && r.record.params[K_KEY] == IntParam(k)
    ensures r.record.params == map[
              Ascii("algorithm") := TextParam(Ascii("reed-solomon-gf256")),
              Ascii("gf_poly") := TextParam(Ascii("0x11d")),
              Ascii("eval") := TextParam(Ascii("vandermonde-powers-of-0x02"))]
              [N_KEY := IntParam(n)][K_KEY := IntParam(k)]
    ensures exists shards: seq<Bytes> ::
              && ErasureCode.Encode(e.content, n, k).Success? && |shards| == n
              && (forall i :: 0 <= i < n ==>
                    shards[i] == c.encrypt(r.cek, r.entityId, ErasureCode.Encode(e.content, n, k).value[i], i))
              && r.record.shardMapRoot == c.shardRoot(r.entityId, shards)
    ensures r.entityId in after.records && after.records[r.entityId] == r.record
  {
    hide ErasureCode.Encode, ToBytes, SignablePayload, EncodingParams;
    EncodeLength(e.content, n, k);
    var plain := ErasureCode.Encode(e.content, n, k).value;
    var shards := Encrypted(c, r.cek, r.entityId, plain);
    var root := c.shardRoot(r.entityId, shards);
    var unsigned := Record(r.entityId, s.name, root, c.hash(e.content), EncodingParams(n, k), e.shape, c.hash(e.shape),
                           timestamp, None, None, [], s.vk);
    PayloadIgnoresSeal(r.record, unsigned);
    CountsRecorded(n, k);
    HeadMeans(h, before.leaves);
    LabelsRecorded(n, k);
  }

  lemma CommitCounts(c: Crypto, h: Hashes, before: Log, after: Log, e: Entity, s: Sender, timestamp: Bytes,
                     r: CommitOutcome, n: nat, k: nat)
    requires r.Committed? && CommittedRecord(c, h, before, after, e, s, timestamp, r, n, k)
    ensures N_KEY in r.record.params && r.record.params[N_KEY] == IntParam(n)
    ensures K_KEY in r.record.params && r.record.params[K_KEY] == IntParam(k)
  {
    hide CommittedRecord;
    CommittedCarries(c, h, before, after, e, s, timestamp, r, n, k);
  }

  /** The committed record is one the receiver trusts. */
  lemma CommittedRecordTrusted(c: Crypto, h: Hashes, before: Log, after: Log, e: Entity, s: Sender, timestamp: Bytes,
                               r: CommitOutcome, n: nat, k: nat, registry: map<Bytes, Bytes>, policy: map<Bytes, Bytes>)
    requires r.Committed? && CommittedRecord(c, h, before, after, e, s, timestamp, r, n, k)
    requires IdealSignature(c, s) && s.vk != [] && (s.name in registry ==> registry[s.name] == s.vk)
    ensures Trusted(c, r.record, registry) && HasCounts(r.record)
    ensures r.record.params[N_KEY].n == n && r.record.params[K_KEY].n == k
    ensures Binds(c, KeyFor(c, r.entityId, r.record, r.cek, policy), r.record, e.content)
  {
    hide ErasureCode.Encode, ToBytes, SignablePayload, EncodingParams;
    var shards := Encrypted(c, r.cek, r.entityId, ErasureCode.Encode(e.content, n, k).value);
    var root := c.shardRoot(r.entityId, shards);
    var unsigned := Record(r.entityId, s.name, root, c.hash(e.content), EncodingParams(n, k), e.shape, c.hash(e.shape),
                           timestamp, None, None, [], s.vk);
    PayloadIgnoresSeal(r.record, unsigned);
    CountsRecorded(n, k);
  }

  /** What is sealed to an encapsulation key opens with the matching decapsulation key. */
  ghost predicate IdealSeal(c: Crypto, ek: Bytes, dk: Bytes)
  {
    forall key, randomness :: c.unseal(c.seal(key, ek, randomness), dk) == Some(key)
  }

  /**
   Commit, seal, lose nodes, materialize: the receiver of the sealed key gets exactly the content
   that was committed, from the log's record or the sender's copy, as long as one usable node is
   left and k of the shards had been fully replicated.
   */
  lemma TransferDelivers(c: Crypto, env: Env, h: Hashes, start: Net, stored: Net, logBefore: Log, logAfter: Log,
                         e: Entity, s: Sender, timestamp: Bytes, r: CommitOutcome, n: nat, k: nat, kept: set<nat>,
                         run: seq<Eviction>, registry: map<Bytes, Bytes>, given: Option<Record>,
                         policy: map<Bytes, Bytes>, ek: Bytes, dk: Bytes, randomness: Bytes)
    requires r.Committed? && CommittedShards(c, env, start, stored, e, r, n, k)
    requires CommittedRecord(c, h, logBefore, logAfter, e, s, timestamp, r, n, k)
    requires IdealSignature(c, s) && s.vk != [] && (s.name in registry ==> registry[s.name] == s.vk)
    requires IdealAead(c, r.cek, r.entityId, ErasureCode.Encode(e.content, n, k).value) && IdealSeal(c, ek, dk)
    requires given == None || given == Some(r.record)
    requires forall j :: 0 <= j < n ==> !HeldBySomeActive(start.nodes, (r.entityId, j))
    requires |kept| >= k && forall i :: i in kept ==> i < n && Enough(stored.nodes, (r.entityId, i))
    requires Possible(stored, run)
    requires var end := AfterEvictions(stored, run);
             exists p :: 0 <= p < |end.nodes| && Placement.Usable(env, end.fence, end.nodes[p])
    ensures ToBytes(r.record).Some?
    ensures var end := AfterEvictions(stored, run);
            var sealedKey := SealedKey(c, r.entityId, r.record, r.cek, ek, policy, randomness);
            Received(c, sealedKey, dk, given, logAfter.records, registry, env, end.nodes, end.fence)
                == Content(e.content)
  {
    hide ErasureCode.Encode, ToBytes, SignedRecord, Distribute, AfterEvictions, Possible, Enough, Materialized,
         HeldBySomeActive, CacheSound, Fetched, Binds;
    var carried := if policy == map[] then UNRESTRICTED else policy;
    CommittedRecordTrusted(c, h, logBefore, logAfter, e, s, timestamp, r, n, k, registry, carried);
    CommitBinds(c, h, logBefore, logAfter, e, s, timestamp, r, n, k, carried);
    var end := AfterEvictions(stored, run);
    FetchResultIs(env, end.nodes, end.fence, r.entityId, n);
    var key := KeyFor(c, r.entityId, r.record, r.cek, carried);
    TransferSurvivesEvictions(c, env, start, run, key, r.record, e.content, n, k, kept, registry,
                              FetchResult(env, end.nodes, end.fence, r.entityId));
    assert r.entityId in logAfter.records && logAfter.records[r.entityId] == r.record;
  }
}
