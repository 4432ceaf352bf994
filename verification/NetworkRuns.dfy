/**
 Theorems about every run of the commitment network: replication survives evictions, replicas
 stay identical, the placement cache and the reverse index stay exact.
 */
module NetworkRuns {
  import opened Bytes
  import opened Network
  import opened Options
  import opened Placement

  // ----- replicas

  ghost function Active(nodes: seq<Node>): set<nat>
  {
    set q: nat | q < |nodes| && !nodes[q].evicted
  }

  ghost function Holders(nodes: seq<Node>, key: Key): set<nat>
  {
    set q: nat | q < |nodes| && !nodes[q].evicted && key in nodes[q].shards
  }

  /** At least two active replicas, or one on every active node when there are fewer than two. */
  ghost predicate Enough(nodes: seq<Node>, key: Key)
  {
    |Holders(nodes, key)| >= 2 || |Holders(nodes, key)| >= |Active(nodes)|
  }

  /** All active replicas hold the given bytes. */
  ghost predicate Agreed(nodes: seq<Node>, key: Key, data: Bytes)
  {
    forall q :: 0 <= q < |nodes| && !nodes[q].evicted && key in nodes[q].shards ==> nodes[q].shards[key] == data
  }

  lemma HoldersActive(nodes: seq<Node>, key: Key)
    ensures Holders(nodes, key) <= Active(nodes) && |Holders(nodes, key)| <= |Active(nodes)|
  {
    SubsetSize(Holders(nodes, key), Active(nodes));
  }

  lemma SubsetSize(s: set<nat>, t: set<nat>)
    requires s <= t
    ensures |s| <= |t|
  {
    assert t == s + (t - s);
  }

  lemma StoreHolders(net: Net, p: nat, key: Key, data: Bytes, k: Key)
    requires p < |net.nodes| && !net.nodes[p].evicted
    ensures var after := Store(net, p, key, data).nodes;
            && Active(after) == Active(net.nodes)
            && Holders(after, k) == if k == key then Holders(net.nodes, k) + {p} else Holders(net.nodes, k)
  {
  }

  lemma StoreAgreed(net: Net, p: nat, key: Key, data: Bytes, k: Key, d: Bytes)
    requires p < |net.nodes| && Agreed(net.nodes, k, d) && (k == key ==> data == d)
    ensures Agreed(Store(net, p, key, data).nodes, k, d)
  {
  }

  /** Repairing a shard that still has a holder brings it to full replication; nothing else loses any. */
  lemma RepairReplicates(net: Net, except: nat, key: Key, k: Key)
    requires except < |net.nodes| && net.nodes[except].evicted
    ensures var after := Repair(net, except, key).nodes;
            && Active(after) == Active(net.nodes) && Holders(net.nodes, k) <= Holders(after, k)
            && (k == key && (Holders(net.nodes, k) != {} || Active(net.nodes) == {}) ==> Enough(after, k))
  {
    hide Store;
    var source := FirstActive(net.nodes, except, key, true, 0);
    var target := FirstActive(net.nodes, except, key, false, 0);
    HoldersActive(net.nodes, k);
    if source.Some? && target.Some? {
      StoreHolders(net, target.value, key, net.nodes[source.value].shards[key], k);
      if k == key {
        var h := Holders(net.nodes, k);
        assert source.value in h && target.value !in h;
        TwoMembers(h + {target.value}, source.value, target.value);
      }
    } else if k == key {
      if source.None? {
        assert Holders(net.nodes, k) == {} by {
          forall q: nat | q < |net.nodes|
            ensures q !in Holders(net.nodes, k)
          {
            assert !Candidate(net.nodes, except, key, true, q);
          }
        }
      } else {
        assert Active(net.nodes) == Holders(net.nodes, k) by {
          forall q: nat | q in Active(net.nodes)
            ensures q in Holders(net.nodes, k)
          {
            assert !Candidate(net.nodes, except, key, false, q);
          }
        }
      }
    }
  }

  lemma TwoMembers(s: set<nat>, a: nat, b: nat)
    requires a in s && b in s && a != b
    ensures |s| >= 2
  {
    SubsetSize({a, b}, s);
  }

  lemma RepairAgreed(net: Net, except: nat, key: Key, k: Key, d: Bytes)
    requires Agreed(net.nodes, k, d)
    ensures Agreed(Repair(net, except, key).nodes, k, d)
  {
    hide Store;
    var source := FirstActive(net.nodes, except, key, true, 0);
    var target := FirstActive(net.nodes, except, key, false, 0);
    if source.Some? && target.Some? {
      StoreAgreed(net, target.value, key, net.nodes[source.value].shards[key], k, d);
    }
  }

  lemma RepairEvicted(net: Net, except: nat, key: Key)
    requires except < |net.nodes| && net.nodes[except].evicted
    ensures Repair(net, except, key).nodes[except].evicted
  {
  }

  lemma {:induction false} RepairAllReplicates(net: Net, except: nat, keys: seq<Key>, k: Key)
    requires except < |net.nodes| && net.nodes[except].evicted
    ensures var after := RepairAll(net, except, keys).nodes;
            && after[except].evicted
            && Active(after) == Active(net.nodes) && Holders(net.nodes, k) <= Holders(after, k)
            && (k in keys && (Holders(net.nodes, k) != {} || Active(net.nodes) == {}) ==> Enough(after, k))
    decreases |keys|
  {
    hide Repair, Holders, Active;
    if keys != [] {
      var rest, last := keys[..|keys| - 1], keys[|keys| - 1];
      RepairAllReplicates(net, except, rest, k);
      var before := RepairAll(net, except, rest);
      RepairReplicates(before, except, last, k);
      RepairEvicted(before, except, last);
      SubsetSize(Holders(before.nodes, k), Holders(Repair(before, except, last).nodes, k));
      assert k in keys ==> k in rest || k == last;
    }
  }

  lemma {:induction false} RepairAllAgreed(net: Net, except: nat, keys: seq<Key>, k: Key, d: Bytes)
    requires Agreed(net.nodes, k, d)
    ensures Agreed(RepairAll(net, except, keys).nodes, k, d)
    decreases |keys|
  {
    hide Repair, Agreed;
    if keys != [] {
      RepairAllAgreed(net, except, keys[..|keys| - 1], k, d);
      RepairAgreed(RepairAll(net, except, keys[..|keys| - 1]), except, keys[|keys| - 1], k, d);
    }
  }

  lemma MarkedHolders(net: Net, p: nat, now: real, k: Key)
    requires p < |net.nodes|
    ensures var after := Marked(net, p, now).nodes;
            && |after| == |net.nodes| && after[p].evicted
            && Active(after) == Active(net.nodes) - {p}
            && Holders(after, k) == Holders(net.nodes, k) - {p}
  {
  }

  lemma RemoveSize(s: set<nat>, p: nat)
    ensures |s - {p}| == if p in s then |s| - 1 else |s|
  {
    if p in s {
      assert s == (s - {p}) + {p};
    } else {
      assert s - {p} == s;
    }
  }

  /** Evicting a node and repairing what it held keeps every shard fully replicated. */
  lemma EvictKeepsEnough(net: Net, p: nat, now: real, order: seq<Key>, k: Key)
    requires p < |net.nodes| && Lists(order, Orphans(net, p)) && Enough(net.nodes, k)
    ensures Enough(Evict(net, p, now, order).nodes, k)
    ensures Active(Evict(net, p, now, order).nodes) == Active(net.nodes) - {p}
  {
    hide RepairAll, Marked, Active, Holders;
    var marked := Marked(net, p, now);
    var h, a := Holders(net.nodes, k), Active(net.nodes);
    MarkedHolders(net, p, now, k);
    RepairAllReplicates(marked, p, order, k);
    RemoveSize(h, p);
    RemoveSize(a, p);
    HoldersActive(net.nodes, k);
    var after := RepairAll(marked, p, order).nodes;
    SubsetSize(Holders(marked.nodes, k), Holders(after, k));
    if p in h {
      OrphanListed(net, p, k);
      if h - {p} == {} {
        assert |a - {p}| == 0;
      }
    }
  }

  lemma OrphanListed(net: Net, p: nat, k: Key)
    requires p < |net.nodes| && p in Holders(net.nodes, k)
    ensures k in Orphans(net, p)
  {
    assert k in net.nodes[p].shards;
  }

  lemma EvictKeepsAgreed(net: Net, p: nat, now: real, order: seq<Key>, k: Key, d: Bytes)
    requires p < |net.nodes| && Agreed(net.nodes, k, d)
    ensures Agreed(Evict(net, p, now, order).nodes, k, d)
  {
    hide RepairAll;
    RepairAllAgreed(Marked(net, p, now), p, order, k, d);
  }

  // ----- runs of evictions

  datatype Eviction = Eviction(p: nat, now: real, order: seq<Key>)

  ghost predicate Possible(net: Net, run: seq<Eviction>)
    decreases |run|
  {
    run == [] ||
    (var e := run[0];
     e.p < |net.nodes| && Lists(e.order, Orphans(net, e.p)) && Possible(Evict(net, e.p, e.now, e.order), run[1..]))
  }

  ghost function AfterEvictions(net: Net, run: seq<Eviction>): Net
    requires Possible(net, run)
    decreases |run|
  {
    if run == [] then net
    else AfterEvictions(Evict(net, run[0].p, run[0].now, run[0].order), run[1..])
  }

  /**
   However many nodes are evicted, in whatever order, a shard that started fully replicated stays
   fully replicated with unchanged content, and so can be fetched while any active node is left.
   */
  lemma {:induction false} EvictionsKeepShards(net: Net, run: seq<Eviction>, k: Key, d: Bytes)
    requires Possible(net, run) && Enough(net.nodes, k) && Agreed(net.nodes, k, d)
    ensures var after := AfterEvictions(net, run).nodes;
            && Enough(after, k) && Agreed(after, k, d)
            && (Active(after) != {} ==> exists q :: 0 <= q < |after| && Serves(after[q], k, d))
    decreases |run|
  {
    hide Evict;
    if run == [] {
      if Active(net.nodes) != {} {
        var h := Holders(net.nodes, k);
        assert |Active(net.nodes)| > 0 && h != {};
        var q :| q in h;
        assert Serves(net.nodes[q], k, d);
      }
    } else {
      var e := run[0];
      EvictKeepsEnough(net, e.p, e.now, e.order, k);
      EvictKeepsAgreed(net, e.p, e.now, e.order, k, d);
      EvictionsKeepShards(Evict(net, e.p, e.now, e.order), run[1..], k, d);
    }
  }

  // ----- the reverse index

  ghost predicate UniqueActive(nodes: seq<Node>)
  {
    forall q, r :: 0 <= q < r < |nodes| && !nodes[q].evicted && !nodes[r].evicted ==> nodes[q].id != nodes[r].id
  }

  ghost predicate NoActive(nodes: seq<Node>, id: Bytes)
  {
    forall q :: 0 <= q < |nodes| && !nodes[q].evicted ==> nodes[q].id != id
  }

  /** For every active node the index lists exactly the shards it holds. */
  ghost predicate IndexExact(net: Net)
  {
    && UniqueActive(net.nodes)
    && forall q :: 0 <= q < |net.nodes| && !net.nodes[q].evicted ==>
        Indexed(net, net.nodes[q].id) == net.nodes[q].shards.Keys
  }

  /** Identifiers without an active node, other than those in `skip`, have no index entries left. */
  ghost predicate NoStale(net: Net, skip: set<Bytes>)
  {
    forall id :: id in net.index && id !in skip && NoActive(net.nodes, id) ==> net.index[id] == {}
  }

  lemma StoreNoStale(net: Net, p: nat, key: Key, data: Bytes, skip: set<Bytes>)
    requires p < |net.nodes| && !net.nodes[p].evicted && NoStale(net, skip)
    ensures NoStale(Store(net, p, key, data), skip)
  {
    var after := Store(net, p, key, data);
    forall id | id in after.index && id !in skip && NoActive(after.nodes, id)
      ensures after.index[id] == {}
    {
      assert !after.nodes[p].evicted;
      assert NoActive(net.nodes, id) by {
        forall q | 0 <= q < |net.nodes| && !net.nodes[q].evicted
          ensures net.nodes[q].id != id
        {
          assert !after.nodes[q].evicted && after.nodes[q].id == net.nodes[q].id;
        }
      }
    }
  }

  lemma StoreIndex(net: Net, p: nat, key: Key, data: Bytes)
    requires p < |net.nodes| && !net.nodes[p].evicted && IndexExact(net)
    ensures IndexExact(Store(net, p, key, data))
  {
    var after := Store(net, p, key, data);
    forall q | 0 <= q < |after.nodes| && !after.nodes[q].evicted
      ensures Indexed(after, after.nodes[q].id) == after.nodes[q].shards.Keys
    {
      if q != p {
        assert after.nodes[q] == net.nodes[q];
      }
    }
  }

  lemma {:induction false} StoreAllIndex(net: Net, targets: seq<nat>, key: Key, data: Bytes)
    requires Below(targets, |net.nodes|) && IndexExact(net) && NoStale(net, {})
    requires forall i :: 0 <= i < |targets| ==> !net.nodes[targets[i]].evicted
    ensures var after := StoreAll(net, targets, key, data);
            && IndexExact(after) && NoStale(after, {}) && |after.nodes| == |net.nodes|
            && forall q :: 0 <= q < |net.nodes| ==> after.nodes[q].evicted == net.nodes[q].evicted
    decreases |targets|
  {
    hide IndexExact, NoStale;
    if targets != [] {
      var t := targets[..|targets| - 1];
      StoreAllIndex(net, t, key, data);
      StoreIndex(StoreAll(net, t, key, data), targets[|targets| - 1], key, data);
      StoreNoStale(StoreAll(net, t, key, data), targets[|targets| - 1], key, data, {});
    }
  }

  lemma PlaceShardIndex(env: Env, net: Net, key: Key, data: Bytes, replicas: nat)
    requires CacheSound(env, net) && IndexExact(net) && NoStale(net, {})
    ensures var after := PlaceShard(env, net, key, data, replicas).0; IndexExact(after) && NoStale(after, {})
  {
    hide StoreAll, Fresh;
    LookupIsFresh(env, net, key, replicas);
    var (looked, placed) := Lookup(env, net, key, replicas);
    assert IndexExact(looked) && NoStale(looked, {});
    if placed.Ok? {
      FreshBelow(env, net.nodes, net.fence, key, replicas);
      FreshUsable(env, net.nodes, net.fence, key, replicas);
      StoreAllIndex(looked, placed.value, key, data);
    }
  }

  lemma FreshUsable(env: Env, nodes: seq<Node>, fence: Option<Fence>, key: Key, replicas: nat)
    ensures var r := Fresh(env, nodes, fence, key, replicas);
            r.Ok? ==> forall i :: 0 <= i < |r.value| ==> r.value[i] < |nodes| && !nodes[r.value[i]].evicted
  {
    var r := Fresh(env, nodes, fence, key, replicas);
    if r.Ok? {
      forall i | 0 <= i < |r.value|
        ensures r.value[i] < |nodes| && !nodes[r.value[i]].evicted
      {
        assert r.value[i] in r.value;
      }
    }
  }

  lemma {:induction false} DistributeIndex(env: Env, net: Net, entity: Bytes, shards: seq<Bytes>, replicas: nat, n: nat)
    requires n <= |shards| && CacheSound(env, net) && IndexExact(net) && NoStale(net, {})
    ensures var after := Distribute(env, net, entity, shards, replicas, n).0; IndexExact(after) && NoStale(after, {})
  {
    hide IndexExact, NoStale, CacheSound, PlaceShard;
    if n != 0 {
      DistributeIndex(env, net, entity, shards, replicas, n - 1);
      var (before, status) := Distribute(env, net, entity, shards, replicas, n - 1);
      if status.Ok? {
        PlaceShardIndex(env, before, (entity, n - 1), shards[n - 1], replicas);
      }
    }
  }

  lemma RepairIndex(net: Net, except: nat, key: Key, skip: set<Bytes>)
    requires IndexExact(net) && NoStale(net, skip)
    ensures IndexExact(Repair(net, except, key)) && NoStale(Repair(net, except, key), skip)
  {
    hide Store, IndexExact, NoStale;
    var source := FirstActive(net.nodes, except, key, true, 0);
    var target := FirstActive(net.nodes, except, key, false, 0);
    if source.Some? && target.Some? {
      StoreIndex(net, target.value, key, net.nodes[source.value].shards[key]);
      StoreNoStale(net, target.value, key, net.nodes[source.value].shards[key], skip);
    }
  }

  lemma {:induction false} RepairAllIndex(net: Net, except: nat, keys: seq<Key>, skip: set<Bytes>)
    requires IndexExact(net) && NoStale(net, skip)
    ensures IndexExact(RepairAll(net, except, keys)) && NoStale(RepairAll(net, except, keys), skip)
    decreases |keys|
  {
    hide IndexExact, NoStale, Repair;
    if keys != [] {
      RepairAllIndex(net, except, keys[..|keys| - 1], skip);
      RepairIndex(RepairAll(net, except, keys[..|keys| - 1]), except, keys[|keys| - 1], skip);
    }
  }

  lemma RepairLayout(net: Net, except: nat, key: Key)
    ensures SameLayout(net, Repair(net, except, key))
    ensures Repair(net, except, key).cache == net.cache && Repair(net, except, key).cachedCount == net.cachedCount
  {
  }

  lemma {:induction false} RepairAllLayout(net: Net, except: nat, keys: seq<Key>)
    ensures SameLayout(net, RepairAll(net, except, keys))
    ensures RepairAll(net, except, keys).cache == net.cache
        && RepairAll(net, except, keys).cachedCount == net.cachedCount
    decreases |keys|
  {
    hide Repair, SameLayout;
    if keys == [] {
      assert SameLayout(net, net) by { LayoutReflexive(net); }
    } else {
      var before := RepairAll(net, except, keys[..|keys| - 1]);
      RepairAllLayout(net, except, keys[..|keys| - 1]);
      RepairLayout(before, except, keys[|keys| - 1]);
      LayoutTransitive(net, before, Repair(before, except, keys[|keys| - 1]));
    }
  }

  lemma LayoutReflexive(net: Net)
    ensures SameLayout(net, net)
  {
  }

  lemma EvictCache(env: Env, net: Net, p: nat, now: real, order: seq<Key>)
    requires p < |net.nodes|
    ensures CacheSound(env, Evict(net, p, now, order))
  {
    hide RepairAll, Fresh;
    var marked := Marked(net, p, now);
    RepairAllLayout(marked, p, order);
    CacheLayout(env, marked, RepairAll(marked, p, order));
  }

  lemma MarkedIndex(net: Net, p: nat, now: real)
    requires p < |net.nodes| && IndexExact(net) && NoStale(net, {})
    requires net.nodes[p].evicted ==> NoActive(net.nodes, net.nodes[p].id)
    ensures var marked := Marked(net, p, now);
            IndexExact(marked) && NoStale(marked, {net.nodes[p].id}) && NoActive(marked.nodes, net.nodes[p].id)
  {
    var marked := Marked(net, p, now);
    forall id | id in marked.index && id != net.nodes[p].id && NoActive(marked.nodes, id)
      ensures marked.index[id] == {}
    {
      forall q | 0 <= q < |net.nodes| && !net.nodes[q].evicted
        ensures net.nodes[q].id != id
      {
        if q != p {
          assert marked.nodes[q] == net.nodes[q];
        }
      }
    }
  }

  lemma EvictIndex(net: Net, p: nat, now: real, order: seq<Key>)
    requires p < |net.nodes| && IndexExact(net) && NoStale(net, {})
    requires net.nodes[p].evicted ==> NoActive(net.nodes, net.nodes[p].id)
    ensures IndexExact(Evict(net, p, now, order)) && NoStale(Evict(net, p, now, order), {})
  {
    hide RepairAll, Marked;
    var id := net.nodes[p].id;
    var marked := Marked(net, p, now);
    var repaired := RepairAll(marked, p, order);
    MarkedIndex(net, p, now);
    MarkedHolders(net, p, now, ([], 0));
    RepairAllIndex(marked, p, order, {id});
    RepairAllLayout(marked, p, order);
    forall q | 0 <= q < |repaired.nodes| && !repaired.nodes[q].evicted
      ensures repaired.nodes[q].id != id
    {
      assert marked.nodes[q].(shards := map[]) == repaired.nodes[q].(shards := map[]);
    }
  }

  /** Evicting a node twice drops the index of an active node that has since taken its identifier. */
  lemma ReEvictionDropsIndex(net: Net, p: nat, q: nat, now: real, order: seq<Key>, k: Key)
    requires p < |net.nodes| && q < |net.nodes| && net.nodes[p].evicted && !net.nodes[q].evicted
    requires net.nodes[q].id == net.nodes[p].id && k in net.nodes[q].shards
    ensures !IndexExact(Evict(net, p, now, order))
  {
    hide RepairAll, Marked;
    var marked := Marked(net, p, now);
    MarkedHolders(net, p, now, k);
    RepairAllReplicates(marked, p, order, k);
    RepairAllLayout(marked, p, order);
    var after := Evict(net, p, now, order);
    assert q in Holders(net.nodes, k) && q in Holders(after.nodes, k);
    MarkedSame(net, p, q, now);
    assert marked.nodes[q].(shards := map[]) == after.nodes[q].(shards := map[]);
    assert Indexed(after, after.nodes[q].id) == {};
  }

  lemma MarkedSame(net: Net, p: nat, q: nat, now: real)
    requires p < |net.nodes| && q < |net.nodes| && p != q
    ensures Marked(net, p, now).nodes[q] == net.nodes[q]
  {
  }

  // ----- every reachable state

  datatype Op =
    | AddNode(node: Node)
    | Register(id: Bytes, region: Bytes, stake: real, now: real)
    | EvictNode(p: nat, now: real, order: seq<Key>)
    | DistributeShards(entity: Bytes, shards: seq<Bytes>, replicas: nat)
    | SetFence(fence: Option<Fence>)
    | LookUp(key: Key, replicas: nat)

  function Added(net: Net, node: Node): Net
  {
    Invalidated(net.(nodes := net.nodes + [node], index := net.index[node.id := {}]))
  }

  /** Registration with stake and cooldown checks; refused registrations change nothing. */
  predicate MayRegister(net: Net, id: Bytes, stake: real, now: real)
  {
    stake >= MIN_STAKE && (id in net.evictedAt ==> now >= net.evictedAt[id] + COOLDOWN)
  }

  function Registered(net: Net, id: Bytes, region: Bytes): Net
  {
    net.(nodes := net.nodes + [Node(id, region, false, map[])])
  }

  ghost predicate Meaningful(net: Net, op: Op)
  {
    op.EvictNode? ==> op.p < |net.nodes| && Lists(op.order, Orphans(net, op.p))
  }

  ghost function Step(env: Env, net: Net, op: Op): (r: Net)
    requires CacheSound(env, net) && Meaningful(net, op)
    ensures CacheSound(env, r)
  {
    match op
    case AddNode(node) => Added(net, node)
    case Register(id, region, stake, now) => if MayRegister(net, id, stake, now) then Registered(net, id, region)
        else net
    case EvictNode(p, now, order) => EvictCache(env, net, p, now, order); Evict(net, p, now, order)
    case DistributeShards(entity, shards, replicas) => Distribute(env, net, entity, shards, replicas, |shards|).0
    case SetFence(fence) => Invalidated(net.(fence := fence))
    case LookUp(key, replicas) => LookupIsFresh(env, net, key, replicas); Lookup(env, net, key, replicas).0
  }

  /**
   New nodes start empty under an identifier no active node uses, and a node already evicted is
   evicted again only while no active node has taken over its identifier.
   */
  ghost predicate Orderly(net: Net, op: Op)
  {
    match op
    case AddNode(node) => node.shards == map[] && NoActive(net.nodes, node.id)
    case Register(id, _, _, _) => NoActive(net.nodes, id)
    case EvictNode(p, _, _) => p < |net.nodes| && (net.nodes[p].evicted ==> NoActive(net.nodes, net.nodes[p].id))
    case _ => true
  }

  /**
   After an eviction at a time the identifier may register again exactly with 1000 staked and 30
   days later; a refused registration changes nothing, an accepted one adds an empty active node.
   */
  lemma RegistrationAfterEviction(env: Env, net: Net, p: nat, at: real, order: seq<Key>, region: Bytes, stake: real,
      now: real)
    requires CacheSound(env, net) && p < |net.nodes| && Lists(order, Orphans(net, p))
    ensures var evicted := Step(env, net, EvictNode(p, at, order));
            var after := Step(env, evicted, Register(net.nodes[p].id, region, stake, now));
            if stake >= 1000.0 && now >= at + 2592000.0
            then after == evicted.(nodes := evicted.nodes + [Node(net.nodes[p].id, region, false, map[])])
            else after == evicted
  {
    hide RepairAll, CacheSound;
    RepairAllLayout(Marked(net, p, at), p, order);
  }

  lemma StepIndex(env: Env, net: Net, op: Op)
    requires CacheSound(env, net) && Meaningful(net, op) && IndexExact(net) && NoStale(net, {}) && Orderly(net, op)
    ensures IndexExact(Step(env, net, op)) && NoStale(Step(env, net, op), {})
  {
    hide Distribute, Evict, Fresh;
    match op
    case AddNode(node) => AddIndex(net, Added(net, node), node);
    case Register(id, region, stake, now) => AddIndex(net, Registered(net, id, region), Node(id, region, false, map[]));
    case EvictNode(p, now, order) => EvictIndex(net, p, now, order);
    case DistributeShards(entity, shards, replicas) => DistributeIndex(env, net, entity, shards, replicas, |shards|);
    case SetFence(fence) =>
    case LookUp(key, replicas) => LookupIsFresh(env, net, key, replicas);
  }

  lemma AddIndex(net: Net, after: Net, node: Node)
    requires IndexExact(net) && NoStale(net, {}) && NoActive(net.nodes, node.id) && node.shards == map[]
    requires after.nodes == net.nodes + [node]
    requires after.index == net.index || after.index == net.index[node.id := {}]
    ensures IndexExact(after) && NoStale(after, {})
  {
    forall id | id in after.index && NoActive(after.nodes, id)
      ensures after.index[id] == {}
    {
      forall q | 0 <= q < |net.nodes| && !net.nodes[q].evicted
        ensures net.nodes[q].id != id
      {
        assert after.nodes[q] == net.nodes[q];
      }
    }
    forall q | 0 <= q < |after.nodes| && !after.nodes[q].evicted
      ensures Indexed(after, after.nodes[q].id) == after.nodes[q].shards.Keys
    {
      if q < |net.nodes| {
        assert after.nodes[q] == net.nodes[q];
      }
    }
  }

  ghost predicate Runs(env: Env, net: Net, ops: seq<Op>, orderly: bool)
    requires CacheSound(env, net)
    decreases |ops|
  {
    ops == [] ||
    (Meaningful(net, ops[0]) && (orderly ==> Orderly(net, ops[0]))
        && Runs(env, Step(env, net, ops[0]), ops[1..], orderly))
  }

  ghost function Reached(env: Env, net: Net, ops: seq<Op>, orderly: bool): (r: Net)
    requires CacheSound(env, net) && Runs(env, net, ops, orderly)
    ensures CacheSound(env, r)
    decreases |ops|
  {
    if ops == [] then net else Reached(env, Step(env, net, ops[0]), ops[1..], orderly)
  }

  lemma {:induction false} IndexExactAlways(env: Env, net: Net, ops: seq<Op>)
    requires CacheSound(env, net) && Runs(env, net, ops, true) && IndexExact(net) && NoStale(net, {})
    ensures IndexExact(Reached(env, net, ops, true))
    decreases |ops|
  {
    hide Step, IndexExact, NoStale, CacheSound;
    if ops != [] {
      StepIndex(env, net, ops[0]);
      IndexExactAlways(env, Step(env, net, ops[0]), ops[1..]);
    }
  }

  /**
   In every state reachable from the empty network: a cached placement is a fresh one, made of
   distinct, active, allowed nodes; and in orderly runs the reverse index is exact.
   */
  lemma ReachableSound(env: Env, ops: seq<Op>, orderly: bool, key: Key, replicas: nat)
    requires Runs(env, EMPTY, ops, orderly)
    ensures var net := Reached(env, EMPTY, ops, orderly);
            var answer := Lookup(env, net, key, replicas).1;
            && answer == Fresh(env, net.nodes, net.fence, key, replicas)
            && (answer.Ok? ==>
                  && Distinct(answer.value) && |answer.value| <= replicas
                  && forall p: nat :: p in answer.value ==>
                      p < |net.nodes| && Placement.Usable(env, net.fence, net.nodes[p]))
            && (orderly ==> IndexExact(net))
  {
    var net := Reached(env, EMPTY, ops, orderly);
    LookupIsFresh(env, net, key, replicas);
    if orderly {
      IndexExactAlways(env, EMPTY, ops);
    }
  }

  // ----- what distribution leaves behind

  /** What node q holds under k after storing `key` on the targets. */
  lemma {:induction false} StoreAllEffect(net: Net, targets: seq<nat>, key: Key, data: Bytes, q: nat, k: Key)
    requires Below(targets, |net.nodes|) && q < |net.nodes|
    ensures var before, after := net.nodes[q], StoreAll(net, targets, key, data).nodes[q];
            && after.evicted == before.evicted
            && (k != key || q !in targets || before.evicted ==>
                  (k in after.shards <==> k in before.shards)
                      && (k in after.shards ==> after.shards[k] == before.shards[k]))
            && (k == key && q in targets && !before.evicted ==> k in after.shards && after.shards[k] == data)
    decreases |targets|
  {
    if targets != [] {
      var t := targets[..|targets| - 1];
      StoreAllEffect(net, t, key, data, q, k);
      assert q in targets <==> q in t || q == targets[|targets| - 1];
    }
  }

  ghost predicate SameAt(a: Node, b: Node, k: Key)
  {
    a.evicted == b.evicted && (k in a.shards <==> k in b.shards) && (k in a.shards ==> a.shards[k] == b.shards[k])
  }

  /** Placing one shard touches no other key. */
  lemma PlaceShardOther(env: Env, net: Net, key: Key, data: Bytes, replicas: nat, q: nat, k: Key)
    requires CacheSound(env, net) && k != key && q < |net.nodes|
    ensures SameAt(net.nodes[q], PlaceShard(env, net, key, data, replicas).0.nodes[q], k)
  {
    hide StoreAll, Fresh;
    LookupIsFresh(env, net, key, replicas);
    var (looked, placed) := Lookup(env, net, key, replicas);
    if placed.Ok? {
      FreshBelow(env, net.nodes, net.fence, key, replicas);
      StoreAllEffect(looked, placed.value, key, data, q, k);
    }
  }

  ghost predicate Available(nodes: seq<Node>, k: Key, data: Bytes)
  {
    Agreed(nodes, k, data) && HeldBySomeActive(nodes, k)
  }

  /** A newly placed shard is held by an active node, and by none with other content. */
  lemma PlaceShardHolds(env: Env, net: Net, key: Key, data: Bytes, replicas: nat)
    requires CacheSound(env, net) && replicas > 0 && !HeldBySomeActive(net.nodes, key)
    requires PlaceShard(env, net, key, data, replicas).1.Ok?
    ensures Available(PlaceShard(env, net, key, data, replicas).0.nodes, key, data)
  {
    hide StoreAll;
    LookupIsFresh(env, net, key, replicas);
    var (looked, placed) := Lookup(env, net, key, replicas);
    FreshBelow(env, net.nodes, net.fence, key, replicas);
    FreshUsable(env, net.nodes, net.fence, key, replicas);
    var after := StoreAll(looked, placed.value, key, data).nodes;
    forall q | 0 <= q < |after| && !after[q].evicted && key in after[q].shards
      ensures after[q].shards[key] == data
    {
      StoreAllEffect(looked, placed.value, key, data, q, key);
    }
    StoreAllEffect(looked, placed.value, key, data, placed.value[0], key);
  }

  lemma {:induction false} DistributeOther(env: Env, net: Net, entity: Bytes, shards: seq<Bytes>, replicas: nat,
      n: nat, q: nat, k: Key)
    requires n <= |shards| && CacheSound(env, net) && q < |net.nodes|
    requires k.0 != entity || k.1 >= n
    ensures SameAt(net.nodes[q], Distribute(env, net, entity, shards, replicas, n).0.nodes[q], k)
  {
    hide PlaceShard, CacheSound;
    if n != 0 {
      DistributeOther(env, net, entity, shards, replicas, n - 1, q, k);
      var (before, status) := Distribute(env, net, entity, shards, replicas, n - 1);
      if status.Ok? {
        PlaceShardOther(env, before, (entity, n - 1), shards[n - 1], replicas, q, k);
      }
    }
  }

  lemma SameAvailable(a: seq<Node>, b: seq<Node>, k: Key, data: Bytes)
    requires |a| == |b| && forall q :: 0 <= q < |a| ==> SameAt(a[q], b[q], k)
    ensures HeldBySomeActive(a, k) <==> HeldBySomeActive(b, k)
    ensures Agreed(a, k, data) <==> Agreed(b, k, data)
  {
    if HeldBySomeActive(a, k) {
      var q :| 0 <= q < |a| && !a[q].evicted && k in a[q].shards;
      assert SameAt(a[q], b[q], k);
    }
    if HeldBySomeActive(b, k) {
      var q :| 0 <= q < |b| && !b[q].evicted && k in b[q].shards;
      assert SameAt(a[q], b[q], k);
    }
  }

  lemma PlaceShardExact(env: Env, net: Net, key: Key, data: Bytes, replicas: nat, q: nat)
    requires CacheSound(env, net) && q < |net.nodes| && PlaceShard(env, net, key, data, replicas).1.Ok?
    ensures Fresh(env, net.nodes, net.fence, key, replicas).Ok?
    ensures var before, after := net.nodes[q], PlaceShard(env, net, key, data, replicas).0.nodes[q];
            if q in Fresh(env, net.nodes, net.fence, key, replicas).value
            then Serves(after, key, data) else SameAt(before, after, key)
  {
    hide StoreAll;
    LookupIsFresh(env, net, key, replicas);
    var (looked, placed) := Lookup(env, net, key, replicas);
    FreshBelow(env, net.nodes, net.fence, key, replicas);
    FreshUsable(env, net.nodes, net.fence, key, replicas);
    hide Fresh;
    StoreAllEffect(looked, placed.value, key, data, q, key);
  }

  /** Distribution stores each shard on every node of its placement, and changes it nowhere else. */
  lemma {:induction false} DistributePlaces(env: Env, net: Net, entity: Bytes, shards: seq<Bytes>, replicas: nat,
      n: nat, i: nat, q: nat)
    requires i < n <= |shards| && CacheSound(env, net) && q < |net.nodes|
    requires Distribute(env, net, entity, shards, replicas, n).1.Ok?
    ensures Fresh(env, net.nodes, net.fence, (entity, i), replicas).Ok?
    ensures var before, after := net.nodes[q], Distribute(env, net, entity, shards, replicas, n).0.nodes[q];
            if q in Fresh(env, net.nodes, net.fence, (entity, i), replicas).value
            then Serves(after, (entity, i), shards[i]) else SameAt(before, after, (entity, i))
  {
    hide PlaceShard, CacheSound, Fresh;
    var (before, _) := Distribute(env, net, entity, shards, replicas, n - 1);
    var last, k := (entity, n - 1), (entity, i);
    if i == n - 1 {
      DistributeOther(env, net, entity, shards, replicas, n - 1, q, k);
      PlaceShardExact(env, before, k, shards[i], replicas, q);
      FreshLayout(env, net.nodes, before.nodes, net.fence, k, replicas);
    } else {
      DistributePlaces(env, net, entity, shards, replicas, n - 1, i, q);
      PlaceShardOther(env, before, last, shards[n - 1], replicas, q, k);
    }
  }

  /** Distributing a new entity makes every one of its shards available. */
  lemma {:induction false} DistributeHolds(env: Env, net: Net, entity: Bytes, shards: seq<Bytes>, replicas: nat,
      n: nat, i: nat)
    requires i < n <= |shards| && CacheSound(env, net) && replicas > 0
    requires Distribute(env, net, entity, shards, replicas, n).1.Ok?
    requires forall j :: 0 <= j < n ==> !HeldBySomeActive(net.nodes, (entity, j))
    ensures Available(Distribute(env, net, entity, shards, replicas, n).0.nodes, (entity, i), shards[i])
  {
    hide PlaceShard, CacheSound, HeldBySomeActive, Agreed, SameAt;
    var (before, status) := Distribute(env, net, entity, shards, replicas, n - 1);
    var last := (entity, n - 1);
    var k := (entity, i);
    var after := PlaceShard(env, before, last, shards[n - 1], replicas).0;
    if i == n - 1 {
      forall q | 0 <= q < |net.nodes|
        ensures SameAt(net.nodes[q], before.nodes[q], k)
      {
        DistributeOther(env, net, entity, shards, replicas, n - 1, q, k);
      }
      SameAvailable(net.nodes, before.nodes, k, shards[i]);
      PlaceShardHolds(env, before, k, shards[i], replicas);
    } else {
      DistributeHolds(env, net, entity, shards, replicas, n - 1, i);
      forall q | 0 <= q < |before.nodes|
        ensures SameAt(before.nodes[q], after.nodes[q], k)
      {
        PlaceShardOther(env, before, last, shards[n - 1], replicas, q, k);
      }
      SameAvailable(before.nodes, after.nodes, k, shards[i]);
    }
  }
}
