/**
 The commitment network as an object: fields reassigned by methods, with the loops the program
 runs.  Each method refines the corresponding step of the Network state machine.
 */
module NetworkService {
  import opened Bytes
  import opened Network
  import opened NetworkRuns
  import opened Options
  import opened Placement

  class CommitmentNetwork {
    const env: Env
    var nodes: seq<Node>
    var cache: map<CacheKey, seq<nat>>
    var cachedCount: nat
    var index: map<Bytes, set<Key>>
    var fence: Option<Fence>
    var evictedAt: map<Bytes, real>

    ghost function State(): Net
      reads this
    {
      Net(nodes, cache, cachedCount, index, fence, evictedAt)
    }

    ghost predicate Valid()
      reads this
    {
      CacheSound(env, State())
    }

    constructor (env: Env)
      ensures this.env == env && State() == EMPTY && Valid()
    {
      this.env := env;
      nodes, cache, cachedCount, index, fence, evictedAt := [], map[], 0, map[], None, map[];
    }

    method InvalidatePlacementCache()
      modifies this
      ensures State() == Invalidated(old(State())) && Valid()
    {
      cache := map[];
      cachedCount := |nodes|;
    }

    method SetGeoFence(policy: Option<Fence>)
      requires Valid()
      modifies this
      ensures Valid() && State() == Step(env, old(State()), SetFence(policy))
    {
      fence := policy;
      InvalidatePlacementCache();
    }

    method AddExistingNode(node: Node)
      requires Valid()
      modifies this
      ensures Valid() && State() == Step(env, old(State()), Op.AddNode(node))
    {
      nodes := nodes + [node];
      index := index[node.id := {}];
      InvalidatePlacementCache();
    }

    method RegisterNode(id: Bytes, region: Bytes, stake: real, now: real) returns (ok: bool)
      requires Valid()
      modifies this
      ensures Valid() && State() == Step(env, old(State()), Register(id, region, stake, now))
      ensures ok == MayRegister(old(State()), id, stake, now)
    {
      if id in evictedAt && now < evictedAt[id] + COOLDOWN { return false; }
      if stake < MIN_STAKE { return false; }
      nodes := nodes + [Node(id, region, false, map[])];
      return true;
    }

    /** Probe a slot, re-probing on collision. */
    method ExtendSelection(active: seq<nat>, selected: seq<nat>, key: Key, slot: nat) returns (extended: seq<nat>)
      requires active != []
      ensures extended == Extend(env, active, selected, key, slot)
    {
      hide Reprobe;
      extended := selected;
      var candidate := active[env.probe(key.0, key.1, slot) % |active|];
      if candidate !in selected {
        extended := selected + [candidate];
      } else if |active| > |selected| {
        var found := SearchFree(active, selected, key, slot);
        if found.Some? {
          extended := selected + [found.value];
        }
      }
    }

    /** One slot at a time. */
    method SelectNodes(active: seq<nat>, key: Key, replicas: nat) returns (selected: seq<nat>)
      requires active != []
      ensures selected == Select(env, active, key, replicas)
    {
      hide Extend;
      selected := [];
      for slot := 0 to replicas
        invariant selected == Select(env, active, key, slot)
      {
        selected := ExtendSelection(active, selected, key, slot);
      }
    }

    method SearchFree(active: seq<nat>, selected: seq<nat>, key: Key, slot: nat) returns (found: Option<nat>)
      requires active != []
      ensures found == Reprobe(env, active, selected, key, slot, 0)
    {
      for attempt := 0 to |active|
        invariant Reprobe(env, active, selected, key, slot, 0) == Reprobe(env, active, selected, key, slot, attempt)
      {
        var candidate := active[env.reprobe(key.0, key.1, slot, attempt) % |active|];
        if candidate !in selected { return Some(candidate); }
      }
      return None;
    }

    method PlacementOf(key: Key, replicas: nat) returns (r: Placed<seq<nat>>)
      requires Valid()
      modifies this`cache, this`cachedCount
      ensures Valid() && State() == Lookup(env, old(State()), key, replicas).0
      ensures r == Fresh(env, nodes, fence, key, replicas)
    {
      hide Select, Eligible;
      LookupIsFresh(env, State(), key, replicas);
      if nodes == [] { return Err(NoNodes); }
      if |nodes| != cachedCount {
        cache := map[];
        cachedCount := |nodes|;
      }
      var slot := (key.0, key.1, replicas);
      if slot in cache { return Ok(cache[slot]); }
      var active := Eligible(env, nodes, fence, |nodes|);
      if active == [] {
        if forall p :: 0 <= p < |nodes| ==> !RegionAllowed(env, fence, nodes[p].region) { return Err(NoneAllowed); }
        return Err(NoneActive);
      }
      var selected := SelectNodes(active, key, replicas);
      cache := cache[slot := selected];
      return Ok(selected);
    }

    method StoreOn(targets: seq<nat>, key: Key, data: Bytes)
      requires Valid() && Below(targets, |nodes|)
      modifies this`nodes, this`index
      ensures Valid() && State() == StoreAll(old(State()), targets, key, data)
    {
      ghost var start := State();
      for t := 0 to |targets|
        invariant State() == StoreAll(start, targets[..t], key, data)
      {
        var p := targets[t];
        assert targets[..t + 1][..t] == targets[..t];
        if !nodes[p].evicted {
          nodes := nodes[p := nodes[p].(shards := nodes[p].shards[key := data])];
        }
        var id := nodes[p].id;
        index := index[id := (if id in index then index[id] else {}) + {key}];
      }
      assert targets[..|targets|] == targets;
      StoreAllKeeps(env, start, targets, key, data);
    }

    method PlaceAndStore(key: Key, data: Bytes, replicas: nat) returns (r: Placed<()>)
      requires Valid()
      modifies this
      ensures Valid() && (State(), r) == PlaceShard(env, old(State()), key, data, replicas)
    {
      hide StoreAll, Fresh, CacheSound;
      LookupIsFresh(env, State(), key, replicas);
      var placed := PlacementOf(key, replicas);
      if placed.Err? { return Err(placed.error); }
      FreshBelow(env, nodes, fence, key, replicas);
      StoreOn(placed.value, key, data);
      r := Ok(());
    }

    method DistributeEncryptedShards(entity: Bytes, shards: seq<Bytes>, replicas: nat) returns (r: Placed<()>)
      requires Valid()
      modifies this
      ensures Valid() && (State(), r) == Distribute(env, old(State()), entity, shards, replicas, |shards|)
    {
      hide PlaceShard, CacheSound;
      ghost var start := State();
      r := Ok(());
      for i := 0 to |shards|
        invariant Valid() && r.Ok? && (State(), r) == Distribute(env, start, entity, shards, replicas, i)
      {
        r := PlaceAndStore((entity, i), shards[i], replicas);
        if r.Err? {
          DistributeStops(env, start, entity, shards, replicas, i + 1, |shards|);
          return;
        }
      }
    }

    method FetchEncryptedShards(entity: Bytes, n: nat, most: nat) returns (r: Placed<map<nat, Bytes>>)
      requires Valid()
      modifies this`cache, this`cachedCount
      ensures Valid()
      ensures r.Ok? ==> r.value == Fetched(env, nodes, fence, entity, n, most)
      ensures r.Err? <==> n > 0 && most > 0 && !exists p :: 0 <= p < |nodes| && Placement.Usable(env, fence, nodes[p])
    {
      hide Fresh, CacheSound, FirstServing;
      var fetched: map<nat, Bytes> := map[];
      for i := 0 to n
        invariant Valid() && fetched == Fetched(env, nodes, fence, entity, i, most)
        invariant i > 0 && most > 0 ==> exists p :: 0 <= p < |nodes| && Placement.Usable(env, fence, nodes[p])
      {
        if |fetched| >= most {
          FetchedFull(env, nodes, fence, entity, i, n, most);
          return Ok(fetched);
        }
        var placed := PlacementOf((entity, i), 2);
        if placed.Err? { return Err(placed.error); }
        FreshBelow(env, nodes, fence, (entity, i), 2);
        var data := ServeFrom(placed.value, (entity, i));
        if data.None? {
          data := ServeFrom(AllPositions(|nodes|), (entity, i));
        }
        if data.Some? {
          fetched := fetched[i := data.value];
        }
      }
      return Ok(fetched);
    }

    method ServeFrom(targets: seq<nat>, key: Key) returns (data: Option<Bytes>)
      requires Below(targets, |nodes|)
      ensures data == FirstServing(nodes, targets, key)
    {
      for t := 0 to |targets|
        invariant FirstServing(nodes, targets, key) == FirstServing(nodes, targets[t..], key)
      {
        var node := nodes[targets[t]];
        assert targets[t..][0] == targets[t] && targets[t..][1..] == targets[t + 1..];
        if !node.evicted && key in node.shards { return Some(node.shards[key]); }
      }
      return None;
    }

    method FindActive(except: nat, key: Key, holding: bool) returns (found: Option<nat>)
      ensures found == FirstActive(nodes, except, key, holding, 0)
    {
      for q := 0 to |nodes|
        invariant FirstActive(nodes, except, key, holding, 0) == FirstActive(nodes, except, key, holding, q)
      {
        if q != except && !nodes[q].evicted && (key in nodes[q].shards) == holding { return Some(q); }
      }
      return None;
    }

    /** Copy each orphaned shard, in some order, to a node that lacks it. */
    method RepairOrphans(p: nat, orphans: set<Key>) returns (repaired: nat, lost: nat, ghost order: seq<Key>)
      modifies this`nodes, this`index
      ensures Lists(order, orphans) && State() == RepairAll(old(State()), p, order)
      ensures repaired + lost == |order| == |orphans| && repaired == RepairCount(old(State()), p, order)
    {
      hide FirstActive, Store;
      ghost var marked := State();
      repaired, lost, order := 0, 0, [];
      var remaining := orphans;
      while remaining != {}
        invariant remaining <= orphans && Lists(order, orphans - remaining)
        invariant State() == RepairAll(marked, p, order)
        invariant repaired + lost == |order| == |orphans| - |remaining| && repaired == RepairCount(marked, p, order)
        decreases |remaining|
      {
        var key :| key in remaining;
        var source := FindActive(p, key, true);
        var target := FindActive(p, key, false);
        ghost var extended := order + [key];
        assert extended[..|order|] == order;
        if source.Some? && target.Some? {
          SourceTarget(nodes, p, key);
          StoreRepaired(target.value, key, nodes[source.value].shards[key]);
          repaired := repaired + 1;
        } else {
          lost := lost + 1;
        }
        remaining := remaining - {key};
        order := extended;
      }
    }

    /** Evict the node at position p; `order` is the order in which its shards were repaired. */
    method EvictNode(p: nat, now: real) returns (repaired: nat, lost: nat, ghost order: seq<Key>)
      requires Valid() && p < |nodes|
      modifies this
      ensures Lists(order, Orphans(old(State()), p)) && Valid()
      ensures State() == Step(env, old(State()), Op.EvictNode(p, now, order))
      ensures repaired + lost == |Orphans(old(State()), p)|
      ensures forall k :: k in order <==>
                if old(nodes[p]).shards != map[] then k in old(nodes[p]).shards
                else old(nodes[p]).id in old(index) && k in old(index)[old(nodes[p]).id]
      ensures repaired == RepairCount(Marked(old(State()), p, now), p, order)
    {
      hide CacheSound, RepairAll, RepairCount;
      ghost var start := State();
      var id := nodes[p].id;
      var orphans := if nodes[p].shards != map[] then nodes[p].shards.Keys else if id in index then index[id] else {};
      nodes := nodes[p := nodes[p].(evicted := true)];
      evictedAt := evictedAt[id := now];
      InvalidatePlacementCache();
      repaired, lost, order := RepairOrphans(p, orphans);
      index := index - {id};
      EvictCache(env, start, p, now, order);
    }

    method StoreRepaired(target: nat, key: Key, data: Bytes)
      requires target < |nodes| && !nodes[target].evicted
      modifies this`nodes, this`index
      ensures State() == Store(old(State()), target, key, data)
    {
      nodes := nodes[target := nodes[target].(shards := nodes[target].shards[key := data])];
      var id := nodes[target].id;
      index := index[id := (if id in index then index[id] else {}) + {key}];
    }
  }

  lemma SourceTarget(nodes: seq<Node>, except: nat, key: Key)
    ensures var source := FirstActive(nodes, except, key, true, 0);
            source.Some? ==> source.value < |nodes| && key in nodes[source.value].shards
    ensures var target := FirstActive(nodes, except, key, false, 0);
            target.Some? ==> target.value < |nodes| && !nodes[target.value].evicted
  {
  }

  /** How many of the listed shards were copied to a new node. */
  ghost function RepairCount(net: Net, except: nat, keys: seq<Key>): nat
  {
    if keys == [] then 0
    else
      var rest, last := keys[..|keys| - 1], keys[|keys| - 1];
      var nodes := RepairAll(net, except, rest).nodes;
      RepairCount(net, except, rest)
        + if FirstActive(nodes, except, last, true, 0).Some? && FirstActive(nodes, except, last, false, 0).Some?
            then 1 else 0
  }

  lemma {:induction false} DistributeStops(env: Env, net: Net, entity: Bytes, shards: seq<Bytes>, replicas: nat,
      i: nat, n: nat)
    requires i <= n <= |shards| && CacheSound(env, net)
    requires Distribute(env, net, entity, shards, replicas, i).1.Err?
    ensures Distribute(env, net, entity, shards, replicas, n) == Distribute(env, net, entity, shards, replicas, i)
    decreases n
  {
    hide PlaceShard, CacheSound;
    if i < n {
      DistributeStops(env, net, entity, shards, replicas, i, n - 1);
    }
  }

  lemma {:induction false} FetchedFull(env: Env, nodes: seq<Node>, fence: Option<Fence>, entity: Bytes, i: nat,
      n: nat, most: nat)
    requires i <= n && |Fetched(env, nodes, fence, entity, i, most)| >= most
    ensures Fetched(env, nodes, fence, entity, n, most) == Fetched(env, nodes, fence, entity, i, most)
    decreases n
  {
    hide Fresh, Serve;
    if i < n {
      FetchedFull(env, nodes, fence, entity, i, n - 1, most);
    }
  }
}
