/**
 The commitment network as a state machine over values: cached placement, the reverse shard
 index, distribution, fetching with fallback, and eviction with repair.  The theorems are about
 every run; the class in NetworkService refines these steps.
 */
module Network {
  import opened Bytes
  import opened Options
  import opened Placement

  const MIN_STAKE: real := 1000.0
  const COOLDOWN: real := 2592000.0

  type CacheKey = (Bytes, nat, nat)

  datatype Net = Net(
    nodes: seq<Node>,
    cache: map<CacheKey, seq<nat>>,
    cachedCount: nat,
    index: map<Bytes, set<Key>>,
    fence: Option<Fence>,
    evictedAt: map<Bytes, real>)

  const EMPTY := Net([], map[], 0, map[], None, map[])

  // ----- placement cache

  function Invalidated(net: Net): Net
  {
    net.(cache := map[], cachedCount := |net.nodes|)
  }

  /** The cached placement lookup: the new network and the answer. */
  function Lookup(env: Env, net: Net, key: Key, replicas: nat): (Net, Placed<seq<nat>>)
  {
    if net.nodes == [] then (net, Err(NoNodes))
    else
      var current := if |net.nodes| != net.cachedCount then Invalidated(net) else net;
      var slot := (key.0, key.1, replicas);
      if slot in current.cache then (current, Ok(current.cache[slot]))
      else
        match Fresh(env, net.nodes, net.fence, key, replicas)
        case Ok(s) => (current.(cache := current.cache[slot := s]), Ok(s))
        case Err(e) => (current, Err(e))
  }

  /** Whenever the cache will be consulted, every entry is what a fresh computation gives. */
  ghost predicate CacheSound(env: Env, net: Net)
  {
    && net.cachedCount <= |net.nodes|
    && (net.cachedCount == |net.nodes| ==>
          forall c :: c in net.cache ==> Fresh(env, net.nodes, net.fence, (c.0, c.1), c.2) == Ok(net.cache[c]))
  }

  lemma LookupIsFresh(env: Env, net: Net, key: Key, replicas: nat)
    requires CacheSound(env, net)
    ensures Lookup(env, net, key, replicas).1 == Fresh(env, net.nodes, net.fence, key, replicas)
    ensures CacheSound(env, Lookup(env, net, key, replicas).0)
    ensures var after := Lookup(env, net, key, replicas).0;
            net == after.(cache := net.cache, cachedCount := net.cachedCount)
  {
  }

  // ----- storing

  function Indexed(net: Net, id: Bytes): set<Key>
  {
    if id in net.index then net.index[id] else {}
  }

  /** Store one shard on the node at position p and note it in the reverse index. */
  function Store(net: Net, p: nat, key: Key, data: Bytes): Net
    requires p < |net.nodes|
  {
    var node := net.nodes[p];
    net.(nodes := if node.evicted then net.nodes else net.nodes[p := node.(shards := node.shards[key := data])],
         index := net.index[node.id := Indexed(net, node.id) + {key}])
  }

  predicate Below(s: seq<nat>, n: nat)
  {
    forall i :: 0 <= i < |s| ==> s[i] < n
  }

  function StoreAll(net: Net, targets: seq<nat>, key: Key, data: Bytes): (r: Net)
    requires Below(targets, |net.nodes|)
    ensures |r.nodes| == |net.nodes|
    decreases |targets|
  {
    if targets == [] then net
    else
      var last := targets[|targets| - 1];
      Store(StoreAll(net, targets[..|targets| - 1], key, data), last, key, data)
  }

  /** Look up the placement of one shard and store it there. */
  function PlaceShard(env: Env, net: Net, key: Key, data: Bytes, replicas: nat): (r: (Net, Placed<()>))
    requires CacheSound(env, net)
    ensures CacheSound(env, r.0) && SameLayout(net, r.0)
  {
    LookupIsFresh(env, net, key, replicas);
    var (looked, placed) := Lookup(env, net, key, replicas);
    match placed
    case Err(e) => (looked, Err(e))
    case Ok(targets) =>
      FreshBelow(env, net.nodes, net.fence, key, replicas);
      StoreAllKeeps(env, looked, targets, key, data);
      (StoreAll(looked, targets, key, data), Ok(()))
  }

  lemma FreshBelow(env: Env, nodes: seq<Node>, fence: Option<Fence>, key: Key, replicas: nat)
    ensures var r := Fresh(env, nodes, fence, key, replicas); r.Ok? ==> Below(r.value, |nodes|)
  {
    var r := Fresh(env, nodes, fence, key, replicas);
    if r.Ok? {
      forall i | 0 <= i < |r.value|
        ensures r.value[i] < |nodes|
      {
        assert r.value[i] in r.value;
      }
    }
  }

  /** Distribute the first n shards of an entity. */
  function Distribute(env: Env, net: Net, entity: Bytes, shards: seq<Bytes>, replicas: nat,
      n: nat): (r: (Net, Placed<()>))
    requires n <= |shards| && CacheSound(env, net)
    ensures CacheSound(env, r.0) && SameLayout(net, r.0)
  {
    if n == 0 then (net, Ok(()))
    else
      var (before, status) := Distribute(env, net, entity, shards, replicas, n - 1);
      if status.Err? then (before, status)
      else
        LayoutTransitive(net, before, PlaceShard(env, before, (entity, n - 1), shards[n - 1], replicas).0);
        PlaceShard(env, before, (entity, n - 1), shards[n - 1], replicas)
  }

  lemma LayoutTransitive(a: Net, b: Net, c: Net)
    requires SameLayout(a, b) && SameLayout(b, c)
    ensures SameLayout(a, c)
  {
    forall p | 0 <= p < |a.nodes|
      ensures a.nodes[p].(shards := map[]) == c.nodes[p].(shards := map[])
    {
      assert a.nodes[p].(shards := map[]) == b.nodes[p].(shards := map[]);
    }
  }

  /** Same nodes in the same places, up to what they hold. */
  ghost predicate SameLayout(a: Net, b: Net)
  {
    && |a.nodes| == |b.nodes| && a.fence == b.fence && a.evictedAt == b.evictedAt
    && forall p :: 0 <= p < |a.nodes| ==> a.nodes[p].(shards := map[]) == b.nodes[p].(shards := map[])
  }

  lemma {:induction false} EligibleLayout(env: Env, a: seq<Node>, b: seq<Node>, fence: Option<Fence>, n: nat)
    requires n <= |a| == |b|
    requires forall p :: 0 <= p < |a| ==> a[p].(shards := map[]) == b[p].(shards := map[])
    ensures Eligible(env, a, fence, n) == Eligible(env, b, fence, n)
  {
    hide Insert, RegionAllowed;
    if n != 0 {
      EligibleLayout(env, a, b, fence, n - 1);
      SameUsable(env, a[n - 1], b[n - 1], fence);
      hide Usable;
      InsertLayout(a, b, n - 1, Eligible(env, a, fence, n - 1));
    }
  }

  lemma SameUsable(env: Env, a: Node, b: Node, fence: Option<Fence>)
    requires a.(shards := map[]) == b.(shards := map[])
    ensures Usable(env, fence, a) == Usable(env, fence, b)
  {
  }

  lemma {:induction false} InsertLayout(a: seq<Node>, b: seq<Node>, p: nat, s: seq<nat>)
    requires p < |a| == |b| && forall q: nat :: q in s ==> q < |a|
    requires forall q :: 0 <= q < |a| ==> a[q].(shards := map[]) == b[q].(shards := map[])
    ensures Insert(a, p, s) == Insert(b, p, s)
  {
    hide Encoding.NotAfter;
    assert a[p].(shards := map[]) == b[p].(shards := map[]);
    if s != [] {
      assert s[0] in s;
      assert forall q: nat :: q in s[1..] ==> q in s;
      assert a[s[0]].(shards := map[]) == b[s[0]].(shards := map[]);
      InsertLayout(a, b, p, s[1..]);
    }
  }

  /** Placement depends on the layout only, not on what nodes hold. */
  lemma FreshLayout(env: Env, a: seq<Node>, b: seq<Node>, fence: Option<Fence>, key: Key, replicas: nat)
    requires |a| == |b|
    requires forall p :: 0 <= p < |a| ==> a[p].(shards := map[]) == b[p].(shards := map[])
    ensures Fresh(env, a, fence, key, replicas) == Fresh(env, b, fence, key, replicas)
  {
    hide Eligible, Select;
    EligibleLayout(env, a, b, fence, |a|);
    forall p | 0 <= p < |a|
      ensures a[p].region == b[p].region
    {
      assert a[p].(shards := map[]) == b[p].(shards := map[]);
    }
  }

  lemma CacheLayout(env: Env, a: Net, b: Net)
    requires SameLayout(a, b) && CacheSound(env, a) && a.cache == b.cache && a.cachedCount == b.cachedCount
    ensures CacheSound(env, b)
  {
    hide Fresh;
    if b.cachedCount == |b.nodes| {
      forall c | c in b.cache
        ensures Fresh(env, b.nodes, b.fence, (c.0, c.1), c.2) == Ok(b.cache[c])
      {
        FreshLayout(env, a.nodes, b.nodes, a.fence, (c.0, c.1), c.2);
      }
    }
  }

  lemma {:induction false} StoreAllKeeps(env: Env, net: Net, targets: seq<nat>, key: Key, data: Bytes)
    requires Below(targets, |net.nodes|) && CacheSound(env, net)
    ensures var after := StoreAll(net, targets, key, data);
            SameLayout(net, after) && CacheSound(env, after) && after.cache == net.cache
    decreases |targets|
  {
    hide CacheSound;
    if targets != [] {
      var t := targets[..|targets| - 1];
      var last := targets[|targets| - 1];
      StoreAllKeeps(env, net, t, key, data);
      var before := StoreAll(net, t, key, data);
      CacheLayout(env, before, Store(before, last, key, data));
    }
  }

  // ----- eviction

  function Orphans(net: Net, p: nat): set<Key>
    requires p < |net.nodes|
  {
    if net.nodes[p].shards != map[] then net.nodes[p].shards.Keys else Indexed(net, net.nodes[p].id)
  }

  /** The first active node from position q on, other than `except`, that holds (or lacks) the key. */
  function FirstActive(nodes: seq<Node>, except: nat, key: Key, holding: bool, q: nat): (r: Option<nat>)
    requires q <= |nodes|
    ensures r.Some? ==> Candidate(nodes, except, key, holding, r.value)
    ensures r.None? ==> forall t :: q <= t < |nodes| ==> !Candidate(nodes, except, key, holding, t)
    decreases |nodes| - q
  {
    if q == |nodes| then None
    else if Candidate(nodes, except, key, holding, q) then Some(q)
    else FirstActive(nodes, except, key, holding, q + 1)
  }

  predicate Candidate(nodes: seq<Node>, except: nat, key: Key, holding: bool, q: nat)
  {
    q < |nodes| && q != except && !nodes[q].evicted && (key in nodes[q].shards) == holding
  }

  /** Copy one orphaned shard from a surviving holder to the first active node without it. */
  function Repair(net: Net, except: nat, key: Key): (r: Net)
    ensures |r.nodes| == |net.nodes|
  {
    match (FirstActive(net.nodes, except, key, true, 0), FirstActive(net.nodes, except, key, false, 0))
    case (Some(source), Some(target)) => Store(net, target, key, net.nodes[source].shards[key])
    case _ => net
  }

  function RepairAll(net: Net, except: nat, keys: seq<Key>): (r: Net)
    ensures |r.nodes| == |net.nodes|
  {
    if keys == [] then net
    else Repair(RepairAll(net, except, keys[..|keys| - 1]), except, keys[|keys| - 1])
  }

  function Marked(net: Net, p: nat, now: real): Net
    requires p < |net.nodes|
  {
    Invalidated(net.(nodes := net.nodes[p := net.nodes[p].(evicted := true)],
                     evictedAt := net.evictedAt[net.nodes[p].id := now]))
  }

  /** Evict the node at position p, repairing its shards in the given order. */
  function Evict(net: Net, p: nat, now: real, order: seq<Key>): (r: Net)
    requires p < |net.nodes|
    ensures |r.nodes| == |net.nodes|
  {
    var repaired := RepairAll(Marked(net, p, now), p, order);
    repaired.(index := repaired.index - {net.nodes[p].id})
  }

  /** The keys in some order, each once. */
  ghost predicate Lists(order: seq<Key>, keys: set<Key>)
  {
    && (forall k: Key :: k in order <==> k in keys)
    && forall i, j :: 0 <= i < j < |order| ==> order[i] != order[j]
  }

  // ----- fetching

  /** The first position among the given nodes that serves the key. */
  function FirstServing(nodes: seq<Node>, targets: seq<nat>, key: Key): (r: Option<Bytes>)
    requires Below(targets, |nodes|)
  {
    if targets == [] then None
    else if !nodes[targets[0]].evicted && key in nodes[targets[0]].shards then Some(nodes[targets[0]].shards[key])
    else FirstServing(nodes, targets[1..], key)
  }

  function AllPositions(n: nat): (s: seq<nat>)
    ensures |s| == n && Below(s, n)
  {
    seq(n, i requires 0 <= i < n => i)
  }

  /** Placement first, then every node in order. */
  function Serve(nodes: seq<Node>, targets: seq<nat>, key: Key): Option<Bytes>
    requires Below(targets, |nodes|)
  {
    match FirstServing(nodes, targets, key)
    case Some(data) => Some(data)
    case None => FirstServing(nodes, AllPositions(|nodes|), key)
  }

  ghost predicate Serves(node: Node, key: Key, data: Bytes)
  {
    !node.evicted && key in node.shards && node.shards[key] == data
  }

  ghost predicate HeldBySomeActive(nodes: seq<Node>, key: Key)
  {
    exists q :: 0 <= q < |nodes| && !nodes[q].evicted && key in nodes[q].shards
  }

  lemma {:induction false} FirstServingMeans(nodes: seq<Node>, targets: seq<nat>, key: Key)
    requires Below(targets, |nodes|)
    ensures var r := FirstServing(nodes, targets, key);
            && (r.Some? <==>
                  exists i :: 0 <= i < |targets| && !nodes[targets[i]].evicted && key in nodes[targets[i]].shards)
            && (r.Some? ==> exists q :: 0 <= q < |nodes| && Serves(nodes[q], key, r.value))
  {
    if targets != [] {
      var p := targets[0];
      if !nodes[p].evicted && key in nodes[p].shards {
        assert Serves(nodes[p], key, nodes[p].shards[key]);
      } else {
        FirstServingMeans(nodes, targets[1..], key);
        if exists i :: 0 <= i < |targets| && !nodes[targets[i]].evicted && key in nodes[targets[i]].shards {
          var i :| 0 <= i < |targets| && !nodes[targets[i]].evicted && key in nodes[targets[i]].shards;
          assert targets[1..][i - 1] == targets[i];
        }
      }
    }
  }

  /** A shard is served exactly when some active node holds it, and what is served is held. */
  lemma ServeMeans(nodes: seq<Node>, targets: seq<nat>, key: Key)
    requires Below(targets, |nodes|)
    ensures var r := Serve(nodes, targets, key);
            && (r.Some? <==> HeldBySomeActive(nodes, key))
            && (r.Some? ==> exists q :: 0 <= q < |nodes| && Serves(nodes[q], key, r.value))
  {
    var all := AllPositions(|nodes|);
    FirstServingMeans(nodes, targets, key);
    FirstServingMeans(nodes, all, key);
    if HeldBySomeActive(nodes, key) {
      var q :| 0 <= q < |nodes| && !nodes[q].evicted && key in nodes[q].shards;
      assert all[q] == q;
    }
  }

  /** The shards among indices below i that active nodes hold, stopping after `most`. */
  ghost function Fetched(env: Env, nodes: seq<Node>, fence: Option<Fence>, entity: Bytes, i: nat,
      most: nat): (m: map<nat, Bytes>)
    ensures forall j :: j in m ==> j < i
  {
    if i == 0 then map[]
    else
      var m := Fetched(env, nodes, fence, entity, i - 1, most);
      var placed := Fresh(env, nodes, fence, (entity, i - 1), 2);
      if |m| >= most || placed.Err? then m
      else
        FreshBelow(env, nodes, fence, (entity, i - 1), 2);
        match Serve(nodes, placed.value, (entity, i - 1))
        case None => m
        case Some(data) => m[i - 1 := data]
  }

  lemma {:induction false} FetchedSize(env: Env, nodes: seq<Node>, fence: Option<Fence>, entity: Bytes, i: nat,
      most: nat)
    ensures |Fetched(env, nodes, fence, entity, i, most)| <= i
  {
    if i != 0 {
      FetchedSize(env, nodes, fence, entity, i - 1, most);
    }
  }

  lemma {:induction false} FirstServingIs(nodes: seq<Node>, targets: seq<nat>, key: Key, i: nat)
    requires Below(targets, |nodes|) && i < |targets|
    requires !nodes[targets[i]].evicted && key in nodes[targets[i]].shards
    requires forall j :: 0 <= j < i ==> nodes[targets[j]].evicted || key !in nodes[targets[j]].shards
    ensures FirstServing(nodes, targets, key) == Some(nodes[targets[i]].shards[key])
    decreases i
  {
    if i > 0 {
      FirstServingIs(nodes, targets[1..], key, i - 1);
    }
  }

  /** The replica served is the first active holder in placement order, else the first in node order. */
  lemma ServeOrder(nodes: seq<Node>, targets: seq<nat>, key: Key, i: nat, q: nat)
    requires Below(targets, |nodes|)
    ensures i < |targets| && !nodes[targets[i]].evicted && key in nodes[targets[i]].shards
            && (forall j :: 0 <= j < i ==> nodes[targets[j]].evicted || key !in nodes[targets[j]].shards) ==>
              Serve(nodes, targets, key) == Some(nodes[targets[i]].shards[key])
    ensures (forall j :: 0 <= j < |targets| ==> nodes[targets[j]].evicted || key !in nodes[targets[j]].shards)
            && q < |nodes| && !nodes[q].evicted && key in nodes[q].shards
            && (forall t :: 0 <= t < q ==> nodes[t].evicted || key !in nodes[t].shards) ==>
              Serve(nodes, targets, key) == Some(nodes[q].shards[key])
  {
    hide FirstServing;
    if i < |targets| && !nodes[targets[i]].evicted && key in nodes[targets[i]].shards
        && forall j :: 0 <= j < i ==> nodes[targets[j]].evicted || key !in nodes[targets[j]].shards {
      FirstServingIs(nodes, targets, key, i);
    }
    if (forall j :: 0 <= j < |targets| ==> nodes[targets[j]].evicted || key !in nodes[targets[j]].shards)
        && q < |nodes| && !nodes[q].evicted && key in nodes[q].shards
        && forall t :: 0 <= t < q ==> nodes[t].evicted || key !in nodes[t].shards {
      FirstServingMeans(nodes, targets, key);
      FirstServingIs(nodes, AllPositions(|nodes|), key, q);
    }
  }

  /** The indices below i that some active node holds. */
  ghost function Offered(nodes: seq<Node>, entity: Bytes, i: nat): set<nat>
  {
    set j: nat | j < i && HeldBySomeActive(nodes, (entity, j))
  }

  lemma OfferedNext(nodes: seq<Node>, entity: Bytes, i: nat)
    ensures |Offered(nodes, entity, i + 1)|
         == |Offered(nodes, entity, i)| + if HeldBySomeActive(nodes, (entity, i)) then 1 else 0
    ensures forall j: nat :: j in Offered(nodes, entity, i + 1) <==>
              j in Offered(nodes, entity, i) || (j == i && HeldBySomeActive(nodes, (entity, i)))
    ensures forall j: nat :: j in Offered(nodes, entity, i) ==> j < i
    ensures Offered(nodes, entity, 0) == {}
  {
    hide HeldBySomeActive;
    assert Offered(nodes, entity, i + 1)
        == Offered(nodes, entity, i) + if HeldBySomeActive(nodes, (entity, i)) then {i} else {};
  }

  /**
   A fetch limited to `most` shards returns exactly the lowest `most` available indices, each from
   the replica that placement with two slots, and then node order, comes to first.
   */
  lemma {:induction false} FetchLimit(env: Env, nodes: seq<Node>, fence: Option<Fence>, entity: Bytes, i: nat,
      most: nat, j: nat)
    requires exists p :: 0 <= p < |nodes| && Placement.Usable(env, fence, nodes[p])
    ensures var m := Fetched(env, nodes, fence, entity, i, most);
            && |m| == (if |Offered(nodes, entity, i)| <= most then |Offered(nodes, entity, i)| else most)
            && (j in m <==> j in Offered(nodes, entity, i) && |Offered(nodes, entity, j)| < most)
            && (j in m ==>
                  && Fresh(env, nodes, fence, (entity, j), 2).Ok?
                      && Below(Fresh(env, nodes, fence, (entity, j), 2).value, |nodes|)
                  && Serve(nodes, Fresh(env, nodes, fence, (entity, j), 2).value, (entity, j)) == Some(m[j]))
    decreases i
  {
    hide Fetched, Fresh, Serve, HeldBySomeActive, Offered;
    if i == 0 {
      FetchNone(env, nodes, fence, entity, most);
      OfferedNext(nodes, entity, 0);
    } else {
      FetchLimit(env, nodes, fence, entity, i - 1, most, j);
      OfferedNext(nodes, entity, i - 1);
      OfferedGrows(nodes, entity, j, i - 1);
      FetchOne(env, nodes, fence, entity, i - 1, most);
    }
  }

  /** One turn of the fetch loop. */
  lemma FetchOne(env: Env, nodes: seq<Node>, fence: Option<Fence>, entity: Bytes, i: nat, most: nat)
    requires exists p :: 0 <= p < |nodes| && Placement.Usable(env, fence, nodes[p])
    ensures Fresh(env, nodes, fence, (entity, i), 2).Ok?
    ensures Below(Fresh(env, nodes, fence, (entity, i), 2).value, |nodes|)
    ensures var m := Fetched(env, nodes, fence, entity, i, most);
            var data := Serve(nodes, Fresh(env, nodes, fence, (entity, i), 2).value, (entity, i));
            && (data.Some? <==> HeldBySomeActive(nodes, (entity, i)))
            && i !in m
            && Fetched(env, nodes, fence, entity, i + 1, most)
               == if |m| >= most || data.None? then m else m[i := data.value]
  {
    hide Fresh, Serve, HeldBySomeActive;
    FreshBelow(env, nodes, fence, (entity, i), 2);
    ServeMeans(nodes, Fresh(env, nodes, fence, (entity, i), 2).value, (entity, i));
  }

  lemma OfferedGrows(nodes: seq<Node>, entity: Bytes, j: nat, i: nat)
    ensures j <= i ==> |Offered(nodes, entity, j)| <= |Offered(nodes, entity, i)|
    ensures i !in Offered(nodes, entity, i)
  {
    hide HeldBySomeActive;
    if j <= i {
      var a, b := Offered(nodes, entity, j), Offered(nodes, entity, i);
      assert b == a + (b - a);
    }
  }

  ghost predicate ServedBySome(nodes: seq<Node>, key: Key, data: Bytes)
  {
    exists q :: 0 <= q < |nodes| && Serves(nodes[q], key, data)
  }

  lemma FetchNone(env: Env, nodes: seq<Node>, fence: Option<Fence>, entity: Bytes, n: nat)
    ensures Fetched(env, nodes, fence, entity, 0, n) == map[]
  {
  }

  /** One more index: what is served for it, if anything, is added. */
  lemma FetchNext(env: Env, nodes: seq<Node>, fence: Option<Fence>, entity: Bytes, i: nat, n: nat)
      returns (data: Option<Bytes>)
    requires i < n && exists p :: 0 <= p < |nodes| && Placement.Usable(env, fence, nodes[p])
    ensures data.Some? <==> HeldBySomeActive(nodes, (entity, i))
    ensures data.Some? ==> ServedBySome(nodes, (entity, i), data.value)
    ensures var m := Fetched(env, nodes, fence, entity, i, n);
            Fetched(env, nodes, fence, entity, i + 1, n) == if data.Some? then m[i := data.value] else m
  {
    hide Fresh, Serve, HeldBySomeActive;
    FetchedSize(env, nodes, fence, entity, i, n);
    FreshBelow(env, nodes, fence, (entity, i), 2);
    var placed := Fresh(env, nodes, fence, (entity, i), 2);
    ServeMeans(nodes, placed.value, (entity, i));
    data := Serve(nodes, placed.value, (entity, i));
  }

  /** Asking for all n shards returns index j exactly when some active node holds it. */
  lemma {:induction false} FetchAll(env: Env, nodes: seq<Node>, fence: Option<Fence>, entity: Bytes, i: nat, n: nat,
      j: nat)
    requires i <= n && exists p :: 0 <= p < |nodes| && Placement.Usable(env, fence, nodes[p])
    ensures var m := Fetched(env, nodes, fence, entity, i, n);
            && (j in m <==> j < i && HeldBySomeActive(nodes, (entity, j)))
            && (j in m ==> ServedBySome(nodes, (entity, j), m[j]))
  {
    hide Fetched, HeldBySomeActive, Placement.Usable, ServedBySome;
    if i == 0 {
      FetchNone(env, nodes, fence, entity, n);
    } else {
      FetchAll(env, nodes, fence, entity, i - 1, n, j);
      var _ := FetchNext(env, nodes, fence, entity, i - 1, n);
    }
  }
}
