/**
 Exactly when the reverse shard index stays exact.  The index is kept per identifier, so it goes
 wrong when two nodes share one: the condition below is what a caller can test before each call.
 */
module NetworkIndex {
  import opened Bytes
  import opened Options
  import opened Placement
  import opened Network
  import opened NetworkRuns

  // ----- where repairs land

  /** Some active node can supply k, and q is the first active node without it. */
  ghost predicate LandsOn(nodes: seq<Node>, p: nat, k: Key, q: nat)
  {
    && (exists h :: Candidate(nodes, p, k, true, h))
    && Candidate(nodes, p, k, false, q)
    && forall t: nat :: t < q ==> !Candidate(nodes, p, k, false, t)
  }

  lemma {:induction false} FirstActiveIs(nodes: seq<Node>, except: nat, key: Key, holding: bool, q: nat, t: nat)
    requires q <= |nodes|
    ensures FirstActive(nodes, except, key, holding, q) == Some(t) <==>
              && q <= t && Candidate(nodes, except, key, holding, t)
              && forall u: nat :: q <= u < t ==> !Candidate(nodes, except, key, holding, u)
    decreases |nodes| - q
  {
    if q < |nodes| && !Candidate(nodes, except, key, holding, q) {
      FirstActiveIs(nodes, except, key, holding, q + 1, t);
    }
  }

  lemma RepairTarget(net: Net, p: nat, k: Key, q: nat)
    ensures LandsOn(net.nodes, p, k, q) <==>
              FirstActive(net.nodes, p, k, true, 0).Some? && FirstActive(net.nodes, p, k, false, 0) == Some(q)
  {
    hide Candidate;
    FirstActiveIs(net.nodes, p, k, false, 0, q);
    var source := FirstActive(net.nodes, p, k, true, 0);
    if exists h :: Candidate(net.nodes, p, k, true, h) {
      var h :| Candidate(net.nodes, p, k, true, h);
      CandidateBelow(net.nodes, p, k, h);
    }
  }

  lemma CandidateBelow(nodes: seq<Node>, p: nat, k: Key, h: nat)
    requires Candidate(nodes, p, k, true, h)
    ensures h < |nodes|
  {
  }

  /** The same nodes are active and hold k. */
  ghost predicate SameHolding(a: seq<Node>, b: seq<Node>, k: Key)
  {
    && |a| == |b|
    && forall t :: 0 <= t < |a| ==> a[t].evicted == b[t].evicted && (k in a[t].shards <==> k in b[t].shards)
  }

  lemma LandsSame(a: seq<Node>, b: seq<Node>, p: nat, k: Key, q: nat)
    requires SameHolding(a, b, k)
    ensures LandsOn(a, p, k, q) <==> LandsOn(b, p, k, q)
  {
    forall holding, t ensures Candidate(a, p, k, holding, t) <==> Candidate(b, p, k, holding, t) { }
    hide Candidate;
  }

  /** A repair gives its key to the node it lands on and changes nothing else. */
  lemma RepairLands(net: Net, p: nat, key: Key, q: nat, k: Key)
    requires q < |net.nodes| && !net.nodes[q].evicted
    ensures k in Repair(net, p, key).nodes[q].shards <==>
              k in net.nodes[q].shards || (k == key && LandsOn(net.nodes, p, key, q))
  {
    hide LandsOn;
    RepairTarget(net, p, key, q);
  }

  lemma RepairOthers(net: Net, p: nat, key: Key, k: Key)
    requires k != key
    ensures SameHolding(net.nodes, Repair(net, p, key).nodes, k)
  {
  }

  lemma {:induction false} RepairAllOthers(net: Net, p: nat, keys: seq<Key>, k: Key)
    requires k !in keys
    ensures SameHolding(net.nodes, RepairAll(net, p, keys).nodes, k)
    decreases |keys|
  {
    hide Repair;
    if keys != [] {
      var before := RepairAll(net, p, keys[..|keys| - 1]);
      RepairAllOthers(net, p, keys[..|keys| - 1], k);
      RepairOthers(before, p, keys[|keys| - 1], k);
    }
  }

  lemma {:induction false} RepairAllLands(net: Net, p: nat, keys: seq<Key>, q: nat, k: Key)
    requires q < |net.nodes| && !net.nodes[q].evicted
    requires forall i, j :: 0 <= i < j < |keys| ==> keys[i] != keys[j]
    ensures k in RepairAll(net, p, keys).nodes[q].shards <==>
              k in net.nodes[q].shards || (k in keys && LandsOn(net.nodes, p, k, q))
    decreases |keys|
  {
    hide Repair, LandsOn, SameLayout;
    if keys != [] {
      var n := |keys| - 1;
      var before := RepairAll(net, p, keys[..n]);
      RepairAllLands(net, p, keys[..n], q, k);
      StillActive(net, p, keys[..n], q);
      RepairLands(before, p, keys[n], q, k);
      if k == keys[n] {
        assert k !in keys[..n];
        RepairAllOthers(net, p, keys[..n], k);
        LandsSame(net.nodes, before.nodes, p, k, q);
      }
    }
  }

  lemma StillActive(net: Net, p: nat, keys: seq<Key>, q: nat)
    requires q < |net.nodes|
    ensures RepairAll(net, p, keys).nodes[q].evicted == net.nodes[q].evicted
    ensures RepairAll(net, p, keys).nodes[q].id == net.nodes[q].id
  {
    hide RepairAll;
    RepairAllLayout(net, p, keys);
    assert net.nodes[q].(shards := map[]) == RepairAll(net, p, keys).nodes[q].(shards := map[]);
  }

  // ----- evicting an evicted node

  /** After any eviction the index is exact if and only if no active node under the identifier holds anything. */
  lemma EvictIndexIff(net: Net, p: nat, now: real, order: seq<Key>)
    requires p < |net.nodes| && net.nodes[p].evicted && IndexExact(net) && NoStale(net, {})
    ensures NoStale(Evict(net, p, now, order), {})
    ensures IndexExact(Evict(net, p, now, order)) <==>
              forall q :: 0 <= q < |net.nodes| && !net.nodes[q].evicted && net.nodes[q].id == net.nodes[p].id ==>
                Evict(net, p, now, order).nodes[q].shards == map[]
  {
    hide RepairAll;
    var id := net.nodes[p].id;
    var marked := Marked(net, p, now);
    assert marked.nodes == net.nodes;
    var repaired := RepairAll(marked, p, order);
    RepairAllIndex(marked, p, order, {});
    forall q | 0 <= q < |net.nodes|
      ensures repaired.nodes[q].evicted == net.nodes[q].evicted && repaired.nodes[q].id == net.nodes[q].id
    {
      StillActive(marked, p, order, q);
    }
    IndexWithout(repaired, id);
  }

  /** Removing an identifier from an exact index. */
  lemma IndexWithout(net: Net, id: Bytes)
    requires IndexExact(net) && NoStale(net, {})
    ensures var after := net.(index := net.index - {id});
            && NoStale(after, {})
            && (IndexExact(after) <==>
                  forall q :: 0 <= q < |net.nodes| && !net.nodes[q].evicted && net.nodes[q].id == id ==>
                      net.nodes[q].shards == map[])
  {
    var after := net.(index := net.index - {id});
    forall q | 0 <= q < |net.nodes| && !net.nodes[q].evicted
      ensures Indexed(after, net.nodes[q].id) == (if net.nodes[q].id == id then {} else net.nodes[q].shards.Keys)
    {
    }
    forall q | 0 <= q < |net.nodes|
      ensures net.nodes[q].shards.Keys == {} <==> net.nodes[q].shards == map[]
    {
    }
  }

  /** The same condition before the call: whoever holds the identifier holds nothing, and no repair will land there. */
  ghost predicate HarmlessAgain(net: Net, p: nat)
    requires p < |net.nodes|
  {
    forall q :: 0 <= q < |net.nodes| && !net.nodes[q].evicted && net.nodes[q].id == net.nodes[p].id ==>
      net.nodes[q].shards == map[] && forall k :: k in Orphans(net, p) ==> !LandsOn(net.nodes, p, k, q)
  }

  lemma ReEvictionIff(net: Net, p: nat, now: real, order: seq<Key>)
    requires p < |net.nodes| && net.nodes[p].evicted && IndexExact(net) && NoStale(net, {})
        && Lists(order, Orphans(net, p))
    ensures NoStale(Evict(net, p, now, order), {})
    ensures IndexExact(Evict(net, p, now, order)) <==> HarmlessAgain(net, p)
  {
    hide IndexExact, NoStale, LandsOn, RepairAll, Orphans;
    EvictIndexIff(net, p, now, order);
    var marked := Marked(net, p, now);
    assert marked.nodes == net.nodes;
    forall q | 0 <= q < |net.nodes| && !net.nodes[q].evicted
      ensures Evict(net, p, now, order).nodes[q].shards == map[] <==>
                net.nodes[q].shards == map[] && forall k :: k in Orphans(net, p) ==> !LandsOn(net.nodes, p, k, q)
    {
      var after := RepairAll(marked, p, order).nodes[q].shards;
      forall k: Key
        ensures k in after <==> k in net.nodes[q].shards || (k in order && LandsOn(net.nodes, p, k, q))
      {
        RepairAllLands(marked, p, order, q, k);
      }
      NothingHeld(after);
      NothingHeld(net.nodes[q].shards);
    }
  }

  lemma NothingHeld(shards: map<Key, Bytes>)
    ensures shards == map[] <==> forall k: Key :: k !in shards
  {
  }

  /**
   A node that holds nothing may be evicted again exactly when its identifier has no active node or
   that node is empty.
   */
  lemma EmptyReEvictionIff(net: Net, p: nat, now: real, order: seq<Key>)
    requires p < |net.nodes| && net.nodes[p].evicted && net.nodes[p].shards == map[]
    requires IndexExact(net) && NoStale(net, {}) && Lists(order, Orphans(net, p))
    ensures IndexExact(Evict(net, p, now, order)) <==> NoActive(net.nodes, net.nodes[p].id) || Orphans(net, p) == {}
  {
    hide LandsOn;
    ReEvictionIff(net, p, now, order);
    hide Evict;
    if Orphans(net, p) == {} {
      forall q | 0 <= q < |net.nodes| && !net.nodes[q].evicted && net.nodes[q].id == net.nodes[p].id
        ensures net.nodes[q].shards == map[]
      {
        assert net.nodes[q].shards.Keys == {};
        KeysEmpty(net.nodes[q].shards);
      }
    }
  }

  lemma KeysEmpty(shards: map<Key, Bytes>)
    requires shards.Keys == {}
    ensures shards == map[]
  {
  }

  // ----- every operation

  /** What a caller must see to before each operation. */
  ghost predicate Safe(net: Net, op: Op)
  {
    match op
    case AddNode(node) =>
      if node.evicted then
        forall q :: 0 <= q < |net.nodes| && !net.nodes[q].evicted && net.nodes[q].id == node.id ==>
            net.nodes[q].shards == map[]
      else NoActive(net.nodes, node.id) && node.shards == map[]
    case Register(id, _, stake, now) => MayRegister(net, id, stake, now) ==> NoActive(net.nodes, id)
    case EvictNode(p, _, _) => p < |net.nodes| && (net.nodes[p].evicted ==> HarmlessAgain(net, p))
    case _ => true
  }

  /** A node appended, its identifier's entry possibly cleared. */
  lemma AppendIff(net: Net, after: Net, node: Node)
    requires IndexExact(net) && NoStale(net, {}) && after.nodes == net.nodes + [node] && !node.evicted
    requires after.index == net.index || after.index == net.index[node.id := {}]
    requires node.shards == map[] || after.index == net.index[node.id := {}]
    ensures IndexExact(after) <==> NoActive(net.nodes, node.id) && node.shards == map[]
  {
    if NoActive(net.nodes, node.id) && node.shards == map[] {
      AddIndex(net, after, node);
    } else {
      var n := |net.nodes|;
      assert after.nodes[n] == node;
      if !NoActive(net.nodes, node.id) {
        var q :| 0 <= q < n && !net.nodes[q].evicted && net.nodes[q].id == node.id;
        assert after.nodes[q] == net.nodes[q];
        assert !UniqueActive(after.nodes);
      } else {
        SomethingHeld(node.shards);
        assert Indexed(after, node.id) == {};
      }
    }
  }

  lemma SomethingHeld(shards: map<Key, Bytes>)
    requires shards != map[]
    ensures shards.Keys != {}
  {
    if shards.Keys == {} {
      KeysEmpty(shards);
      assert false;
    }
  }

  lemma AppendNoStale(net: Net, after: Net, node: Node)
    requires NoStale(net, {}) && after.nodes == net.nodes + [node]
    requires after.index == net.index || after.index == net.index[node.id := {}]
    ensures NoStale(after, {})
  {
    forall id | id in after.index && NoActive(after.nodes, id)
      ensures after.index[id] == {}
    {
      forall q | 0 <= q < |net.nodes| && !net.nodes[q].evicted
        ensures net.nodes[q].id != id
      {
        assert after.nodes[q] == net.nodes[q];
      }
    }
  }

  /** An evicted node appended: its identifier's entry is cleared. */
  lemma AppendEvictedIff(net: Net, node: Node)
    requires IndexExact(net) && NoStale(net, {}) && node.evicted
    ensures IndexExact(Added(net, node)) <==> Safe(net, AddNode(node))
  {
    var after := Added(net, node);
    forall q | 0 <= q < |net.nodes| ensures after.nodes[q] == net.nodes[q] { }
    forall q | 0 <= q < |net.nodes| && !net.nodes[q].evicted
      ensures Indexed(after, net.nodes[q].id) == (if net.nodes[q].id == node.id then {} else net.nodes[q].shards.Keys)
    {
    }
    forall q | 0 <= q < |net.nodes| && net.nodes[q].shards.Keys == {} ensures net.nodes[q].shards == map[]
    {
      KeysEmpty(net.nodes[q].shards);
    }
    assert UniqueActive(after.nodes);
  }

  /** From an exact index every operation leaves an exact one if and only if it is safe. */
  lemma StepIndexIff(env: Env, net: Net, op: Op)
    requires CacheSound(env, net) && Meaningful(net, op) && IndexExact(net) && NoStale(net, {})
    ensures NoStale(Step(env, net, op), {})
    ensures IndexExact(Step(env, net, op)) <==> Safe(net, op)
  {
    hide Distribute, Evict, Fresh, IndexExact, NoStale, HarmlessAgain, CacheSound;
    match op
    case AddNode(node) =>
      AppendNoStale(net, Added(net, node), node);
      if node.evicted {
        AppendEvictedIff(net, node);
      } else {
        AppendIff(net, Added(net, node), node);
      }
    case Register(id, region, stake, now) =>
      if MayRegister(net, id, stake, now) {
        var node := Node(id, region, false, map[]);
        AppendNoStale(net, Registered(net, id, region), node);
        AppendIff(net, Registered(net, id, region), node);
      }
    case EvictNode(p, now, order) =>
      if net.nodes[p].evicted {
        ReEvictionIff(net, p, now, order);
      } else {
        EvictIndex(net, p, now, order);
      }
    case _ => StepIndex(env, net, op);
  }

  // ----- whole runs

  /** The index is exact after every step of the run. */
  ghost predicate ExactThroughout(env: Env, net: Net, ops: seq<Op>)
    requires CacheSound(env, net) && Runs(env, net, ops, false)
    decreases |ops|
  {
    IndexExact(net) && (ops == [] || ExactThroughout(env, Step(env, net, ops[0]), ops[1..]))
  }

  /** Every operation of the run is safe where it happens. */
  ghost predicate SafeThroughout(env: Env, net: Net, ops: seq<Op>)
    requires CacheSound(env, net) && Runs(env, net, ops, false)
    decreases |ops|
  {
    ops == [] || (Safe(net, ops[0]) && SafeThroughout(env, Step(env, net, ops[0]), ops[1..]))
  }

  lemma {:induction false} ExactIff(env: Env, net: Net, ops: seq<Op>)
    requires CacheSound(env, net) && Runs(env, net, ops, false) && IndexExact(net) && NoStale(net, {})
    ensures ExactThroughout(env, net, ops) <==> SafeThroughout(env, net, ops)
    decreases |ops|
  {
    hide Step, IndexExact, NoStale, CacheSound, Safe;
    if ops != [] {
      StepIndexIff(env, net, ops[0]);
      if Safe(net, ops[0]) {
        ExactIff(env, Step(env, net, ops[0]), ops[1..]);
      } else {
        NotExact(env, Step(env, net, ops[0]), ops[1..]);
      }
    }
  }

  lemma NotExact(env: Env, net: Net, ops: seq<Op>)
    requires CacheSound(env, net) && Runs(env, net, ops, false) && !IndexExact(net)
    ensures !ExactThroughout(env, net, ops)
  {
  }

  /** From the empty network the index is exact throughout a run if and only if every operation is safe. */
  lemma IndexExactIff(env: Env, ops: seq<Op>)
    requires Runs(env, EMPTY, ops, false)
    ensures ExactThroughout(env, EMPTY, ops) <==> SafeThroughout(env, EMPTY, ops)
  {
    hide Step, Safe;
    ExactIff(env, EMPTY, ops);
  }

  // ----- a run that goes wrong

  lemma {:induction false} SomeOrder(keys: set<Key>) returns (order: seq<Key>)
    ensures Lists(order, keys)
    decreases |keys|
  {
    if keys == {} {
      order := [];
    } else {
      var k :| k in keys;
      var rest := SomeOrder(keys - {k});
      order := rest + [k];
    }
  }

  /**
   Add a node, evict it, let its operator register again after the cooldown, store a shard, evict the
   old node once more.
   */
  function EvictedTwice(id: Bytes, region: Bytes, entity: Bytes, data: Bytes, order: seq<Key>): seq<Op>
  {
    [AddNode(Node(id, region, false, map[])), EvictNode(0, 0.0, []), Register(id, region, MIN_STAKE, COOLDOWN),
     DistributeShards(entity, [data], 2), EvictNode(0, COOLDOWN, order)]
  }

  ghost predicate TwoNodes(net: Net, id: Bytes)
  {
    && |net.nodes| == 2 && net.nodes[0].evicted && !net.nodes[1].evicted
    && net.nodes[0].id == id == net.nodes[1].id
  }

  /** The state after registration: the old node evicted, the new one active and empty. */
  lemma AfterRegistration(env: Env, id: Bytes, region: Bytes)
    ensures var s1 := Added(EMPTY, Node(id, region, false, map[]));
            && |s1.nodes| == 1 && Lists([], Orphans(s1, 0))
            && var s2 := Evict(s1, 0, 0.0, []);
               && MayRegister(s2, id, MIN_STAKE, COOLDOWN)
               && var s3 := Registered(s2, id, region);
                  && TwoNodes(s3, id) && s3.fence == None && s3.nodes[0].shards == map[] && s3.nodes[1].shards == map[]
  {
  }

  /** One shard distributed over the two: it can only go to the active node. */
  lemma AfterDistribution(env: Env, net: Net, id: Bytes, entity: Bytes, data: Bytes)
    requires CacheSound(env, net) && TwoNodes(net, id) && net.fence == None
    requires net.nodes[0].shards == map[] && net.nodes[1].shards == map[]
    ensures var s := Distribute(env, net, entity, [data], 2, 1).0;
            TwoNodes(s, id) && (entity, 0) in s.nodes[1].shards
  {
    hide CacheSound;
    var s := Distribute(env, net, entity, [data], 2, 1).0;
    assert Placement.Usable(env, net.fence, net.nodes[1]);
    LookupIsFresh(env, net, (entity, 0), 2);
    assert Distribute(env, net, entity, [data], 2, 1).1.Ok?;
    assert !HeldBySomeActive(net.nodes, (entity, 0));
    DistributeHolds(env, net, entity, [data], 2, 1, 0);
    hide Distribute;
    assert SameLayout(net, s);
    assert net.nodes[0].(shards := map[]) == s.nodes[0].(shards := map[]);
    assert net.nodes[1].(shards := map[]) == s.nodes[1].(shards := map[]);
  }

  /** The index goes wrong in a run from the empty network, for every environment, identifier and shard. */
  lemma IndexGoesWrong(env: Env, id: Bytes, region: Bytes, entity: Bytes, data: Bytes) returns (order: seq<Key>)
    ensures Runs(env, EMPTY, EvictedTwice(id, region, entity, data, order), false)
    ensures !IndexExact(Reached(env, EMPTY, EvictedTwice(id, region, entity, data, order), false))
  {
    AfterRegistration(env, id, region);
    var node := Node(id, region, false, map[]);
    var s1 := Step(env, EMPTY, AddNode(node));
    var s2 := Step(env, s1, EvictNode(0, 0.0, []));
    var s3 := Step(env, s2, Register(id, region, MIN_STAKE, COOLDOWN));
    AfterDistribution(env, s3, id, entity, data);
    var s4 := Step(env, s3, DistributeShards(entity, [data], 2));
    hide Step, CacheSound, IndexExact;
    order := SomeOrder(Orphans(s4, 0));
    var last := EvictNode(0, COOLDOWN, order);
    var ops := EvictedTwice(id, region, entity, data, order);
    Chain(env, s4, last, []);
    Chain(env, s3, ops[3], [last]);
    Chain(env, s2, ops[2], ops[3..]);
    Chain(env, s1, ops[1], ops[2..]);
    Chain(env, EMPTY, ops[0], ops[1..]);
    EvictStep(env, s4, 0, COOLDOWN, order);
    ReEvictionDropsIndex(s4, 0, 1, COOLDOWN, order, (entity, 0));
  }

  lemma EvictStep(env: Env, net: Net, p: nat, now: real, order: seq<Key>)
    requires CacheSound(env, net) && p < |net.nodes| && Lists(order, Orphans(net, p))
    ensures Step(env, net, EvictNode(p, now, order)) == Evict(net, p, now, order)
  {
    hide Evict, CacheSound;
  }

  /** A run grows at its front. */
  lemma Chain(env: Env, net: Net, op: Op, ops: seq<Op>)
    requires CacheSound(env, net) && Meaningful(net, op) && Runs(env, Step(env, net, op), ops, false)
    ensures Runs(env, net, [op] + ops, false)
    ensures Reached(env, net, [op] + ops, false) == Reached(env, Step(env, net, op), ops, false)
  {
    hide Step, CacheSound;
    assert ([op] + ops)[1..] == ops;
  }
}
