/**
 Deterministic shard placement: the active nodes allowed by the geo-fence, ordered by identifier,
 are probed by hash, and a colliding replica slot is re-probed.  Nodes are named by their
 position in the network's node list.
 */
module Placement {
  import opened Bytes
  import opened Encoding
  import opened Options

  /** Entity identifier (as text bytes) and shard index. */
  type Key = (Bytes, nat)

  datatype Node = Node(id: Bytes, region: Bytes, evicted: bool, shards: map<Key, Bytes>)

  datatype Fence = Fence(allowed: set<nat>, excluded: set<nat>)

  const GLOBAL: nat := 0

  /** The hash probes and the region table, as given functions. */
  datatype Env = Env(probe: (Bytes, nat, nat) -> nat, reprobe: (Bytes, nat, nat, nat) -> nat,
      jurisdiction: Bytes -> nat)

  datatype PlacementError = NoNodes | NoneAllowed | NoneActive

  datatype Placed<+T> = Ok(value: T) | Err(error: PlacementError)

  predicate RegionAllowed(env: Env, fence: Option<Fence>, region: Bytes)
  {
    match fence
    case None => true
    case Some(f) =>
      var j := env.jurisdiction(region);
      j !in f.excluded && (GLOBAL in f.allowed || j in f.allowed)
  }

  function Insert(nodes: seq<Node>, p: nat, s: seq<nat>): (r: seq<nat>)
    requires p < |nodes| && forall q: nat :: q in s ==> q < |nodes|
    ensures forall q: nat :: q in r <==> q == p || q in s
  {
    if s == [] then [p]
    else
      assert s[0] in s;
      assert forall q: nat :: q in s[1..] ==> q in s;
      if NotAfter(nodes[s[0]].id, nodes[p].id) then [s[0]] + Insert(nodes, p, s[1..])
      else [p] + s
  }

  predicate Usable(env: Env, fence: Option<Fence>, node: Node)
  {
    !node.evicted && RegionAllowed(env, fence, node.region)
  }

  /** Positions below n of the nodes a shard may be placed on, sorted by identifier (stably). */
  function Eligible(env: Env, nodes: seq<Node>, fence: Option<Fence>, n: nat): (r: seq<nat>)
    requires n <= |nodes|
    ensures forall q: nat :: q in r <==> q < n && Usable(env, fence, nodes[q])
  {
    if n == 0 then []
    else
      var rest := Eligible(env, nodes, fence, n - 1);
      if Usable(env, fence, nodes[n - 1]) then Insert(nodes, n - 1, rest) else rest
  }

  predicate Distinct(s: seq<nat>)
  {
    forall i, j :: 0 <= i < j < |s| ==> s[i] != s[j]
  }

  /** The first re-probe, from `attempt` on, that hits a node not yet selected. */
  function Reprobe(env: Env, active: seq<nat>, selected: seq<nat>, key: Key, slot: nat, attempt: nat): (c: Option<nat>)
    requires active != []
    ensures c.Some? ==> c.value in active && c.value !in selected
    decreases |active| - attempt
  {
    if attempt >= |active| then None
    else
      var candidate := active[env.reprobe(key.0, key.1, slot, attempt) % |active|];
      if candidate !in selected then Some(candidate)
      else Reprobe(env, active, selected, key, slot, attempt + 1)
  }

  function Extend(env: Env, active: seq<nat>, selected: seq<nat>, key: Key, slot: nat): (r: seq<nat>)
    requires active != []
  {
    var candidate := active[env.probe(key.0, key.1, slot) % |active|];
    if candidate !in selected then selected + [candidate]
    else if |active| > |selected| then
      match Reprobe(env, active, selected, key, slot, 0)
      case Some(c) => selected + [c]
      case None => selected
    else selected
  }

  /** The nodes chosen for the first `replicas` slots. */
  function Select(env: Env, active: seq<nat>, key: Key, replicas: nat): (r: seq<nat>)
    requires active != []
    ensures Distinct(r) && |r| <= replicas && (replicas > 0 ==> r != [])
    ensures forall p :: p in r ==> p in active
  {
    if replicas == 0 then []
    else Extend(env, active, Select(env, active, key, replicas - 1), key, replicas - 1)
  }

  /** A placement computed from scratch. */
  function Fresh(env: Env, nodes: seq<Node>, fence: Option<Fence>, key: Key, replicas: nat): (r: Placed<seq<nat>>)
    ensures r.Ok? <==> exists p :: 0 <= p < |nodes| && Usable(env, fence, nodes[p])
    ensures r.Ok? ==>
              && Distinct(r.value) && |r.value| <= replicas && (replicas > 0 ==> r.value != [])
              && forall p :: p in r.value ==> p < |nodes| && Usable(env, fence, nodes[p])
  {
    var active := Eligible(env, nodes, fence, |nodes|);
    if active != [] then
      assert active[0] in active;
      Ok(Select(env, active, key, replicas))
    else if nodes == [] then Err(NoNodes)
    else if forall p :: 0 <= p < |nodes| ==> !RegionAllowed(env, fence, nodes[p].region) then Err(NoneAllowed)
    else Err(NoneActive)
  }

  // ----- the candidate list is ordered and without repetition

  /** x may stand before y. */
  ghost predicate Before(nodes: seq<Node>, x: nat, y: nat)
  {
    x < |nodes| && y < |nodes| && x != y && NotAfter(nodes[x].id, nodes[y].id) && (nodes[x].id == nodes[y].id ==> x < y)
  }

  ghost predicate Ordered(nodes: seq<Node>, s: seq<nat>)
  {
    forall i, j :: 0 <= i < j < |s| ==> Before(nodes, s[i], s[j])
  }

  lemma OrderedCons(nodes: seq<Node>, x: nat, r: seq<nat>)
    requires Ordered(nodes, r) && forall q: nat :: q in r ==> Before(nodes, x, q)
    ensures Ordered(nodes, [x] + r)
  {
    hide Before;
    var t := [x] + r;
    forall i, j | 0 <= i < j < |t|
      ensures Before(nodes, t[i], t[j])
    {
      assert t[j] == r[j - 1] && r[j - 1] in r;
      if i > 0 {
        assert t[i] == r[i - 1];
      }
    }
  }

  lemma OrderedHead(nodes: seq<Node>, s: seq<nat>)
    requires s != [] && Ordered(nodes, s)
    ensures Ordered(nodes, s[1..]) && forall q: nat :: q in s[1..] ==> Before(nodes, s[0], q) && q in s
  {
    hide Before;
    forall q: nat | q in s[1..]
      ensures Before(nodes, s[0], q)
    {
      var u :| 0 <= u < |s[1..]| && s[1..][u] == q;
      assert s[u + 1] == q;
    }
  }

  lemma {:induction false} InsertOrdered(nodes: seq<Node>, p: nat, s: seq<nat>)
    requires p < |nodes| && (forall q: nat :: q in s ==> q < p) && Ordered(nodes, s)
    ensures Ordered(nodes, Insert(nodes, p, s))
  {
    hide NotAfter, Ordered;
    if s == [] {
      Singleton(nodes, p);
    } else {
      assert s[0] in s;
      OrderedHead(nodes, s);
      if NotAfter(nodes[s[0]].id, nodes[p].id) {
        InsertOrdered(nodes, p, s[1..]);
        OrderedCons(nodes, s[0], Insert(nodes, p, s[1..]));
      } else {
        NotAfterTotal(nodes[s[0]].id, nodes[p].id);
        forall q: nat | q in s
          ensures Before(nodes, p, q)
        {
          if q != s[0] {
            assert q in s[1..];
            NotAfterTransitive(nodes[p].id, nodes[s[0]].id, nodes[q].id);
            assert Before(nodes, s[0], q);
          }
        }
        OrderedCons(nodes, p, s);
      }
    }
  }

  lemma Singleton(nodes: seq<Node>, p: nat)
    ensures Ordered(nodes, [p])
  {
  }

  lemma {:induction false} EligibleOrdered(env: Env, nodes: seq<Node>, fence: Option<Fence>, n: nat)
    requires n <= |nodes|
    ensures Ordered(nodes, Eligible(env, nodes, fence, n))
  {
    if n != 0 {
      EligibleOrdered(env, nodes, fence, n - 1);
      if Usable(env, fence, nodes[n - 1]) {
        InsertOrdered(nodes, n - 1, Eligible(env, nodes, fence, n - 1));
      }
    }
  }

  /** The candidates: exactly the usable nodes, by identifier and, under one identifier, by position. */
  ghost predicate Candidates(env: Env, nodes: seq<Node>, fence: Option<Fence>, active: seq<nat>)
  {
    && Ordered(nodes, active)
    && forall q: nat :: q in active <==> q < |nodes| && Usable(env, fence, nodes[q])
  }

  /** Under a fence every placed node lies in an allowed jurisdiction that is not excluded, and is active. */
  lemma PlacementRespectsFence(env: Env, nodes: seq<Node>, f: Fence, key: Key, replicas: nat, p: nat)
    requires Fresh(env, nodes, Some(f), key, replicas).Ok? && p in Fresh(env, nodes, Some(f), key, replicas).value
    ensures p < |nodes| && !nodes[p].evicted
    ensures env.jurisdiction(nodes[p].region) !in f.excluded
    ensures 0 in f.allowed || env.jurisdiction(nodes[p].region) in f.allowed
  {
    var placed := Fresh(env, nodes, Some(f), key, replicas);
    hide Fresh;
    assert Usable(env, Some(f), nodes[p]);
  }

  /** Which error is raised. */
  lemma PlacementErrors(env: Env, nodes: seq<Node>, fence: Option<Fence>, key: Key, replicas: nat)
    ensures Fresh(env, nodes, fence, key, replicas) == Err(NoNodes) <==> |nodes| == 0
    ensures Fresh(env, nodes, fence, key, replicas) == Err(NoneAllowed) <==>
              |nodes| > 0 && forall p :: 0 <= p < |nodes| ==> !RegionAllowed(env, fence, nodes[p].region)
    ensures Fresh(env, nodes, fence, key, replicas) == Err(NoneActive) <==>
              && (exists p :: 0 <= p < |nodes| && RegionAllowed(env, fence, nodes[p].region))
              && forall p :: 0 <= p < |nodes| && RegionAllowed(env, fence, nodes[p].region) ==> nodes[p].evicted
  {
    hide Select, RegionAllowed;
    var active := Eligible(env, nodes, fence, |nodes|);
    if active != [] {
      assert active[0] in active;
    }
    forall p: nat | p < |nodes| && Usable(env, fence, nodes[p])
      ensures active != []
    {
      assert p in active;
    }
  }

  /** There is one such list. */
  lemma {:induction false} CandidatesUnique(nodes: seq<Node>, a: seq<nat>, b: seq<nat>)
    requires Ordered(nodes, a) && Ordered(nodes, b) && forall q: nat :: q in a <==> q in b
    ensures a == b
    decreases |a|
  {
    assert b != [] ==> b[0] in b;
    if a != [] {
      assert a[0] in a && b != [];
      OrderedHead(nodes, a);
      OrderedHead(nodes, b);
      HeadsAgree(nodes, a, b);
      forall q: nat
        ensures q in a[1..] <==> q in b[1..]
      {
        assert q in a <==> q == a[0] || q in a[1..];
        assert q in b <==> q == b[0] || q in b[1..];
      }
      CandidatesUnique(nodes, a[1..], b[1..]);
      assert a == [a[0]] + a[1..] && b == [b[0]] + b[1..];
    }
  }

  lemma HeadsAgree(nodes: seq<Node>, a: seq<nat>, b: seq<nat>)
    requires a != [] && b != [] && a[0] in b && b[0] in a
    requires forall q: nat :: q in a[1..] ==> Before(nodes, a[0], q)
    requires forall q: nat :: q in b[1..] ==> Before(nodes, b[0], q)
    ensures a[0] == b[0]
  {
    if a[0] != b[0] {
      assert b[0] in a[1..] && a[0] in b[1..];
      NotAfterAntisymmetric(nodes[a[0]].id, nodes[b[0]].id);
      assert false;
    }
  }

  /**
   The first replica goes to the candidate that the first probe names, counting the usable nodes in
   identifier order.
   */
  lemma FirstReplica(env: Env, nodes: seq<Node>, fence: Option<Fence>, key: Key, replicas: nat, active: seq<nat>)
    requires replicas > 0 && Candidates(env, nodes, fence, active) && active != []
    ensures Fresh(env, nodes, fence, key, replicas).Ok?
    ensures Fresh(env, nodes, fence, key, replicas).value[0] == active[env.probe(key.0, key.1, 0) % |active|]
  {
    hide Ordered, Extend;
    var list := Eligible(env, nodes, fence, |nodes|);
    EligibleOrdered(env, nodes, fence, |nodes|);
    CandidatesUnique(nodes, active, list);
    SelectedFirst(env, active, key, replicas);
  }

  lemma {:induction false} SelectedFirst(env: Env, active: seq<nat>, key: Key, replicas: nat)
    requires replicas > 0 && active != []
    ensures Select(env, active, key, replicas) != []
    ensures Select(env, active, key, replicas)[0] == active[env.probe(key.0, key.1, 0) % |active|]
  {
    if replicas > 1 {
      SelectedFirst(env, active, key, replicas - 1);
    } else {
      assert Select(env, active, key, 1) == Extend(env, active, Select(env, active, key, 0), key, 0);
    }
  }

  // ----- how many replicas a placement really has

  /** The slot of the candidate list that a probe lands on. */
  function Slot(env: Env, n: nat, key: Key, slot: nat): nat
    requires n > 0
  {
    env.probe(key.0, key.1, slot) % n
  }

  /** Some probe or re-probe for the second replica lands off the first. */
  ghost predicate SecondProbeMoves(env: Env, n: nat, key: Key)
    requires n > 0
  {
    || Slot(env, n, key, 1) != Slot(env, n, key, 0)
    || exists attempt: nat :: attempt < n && env.reprobe(key.0, key.1, 1, attempt) % n != Slot(env, n, key, 0)
  }

  lemma {:induction false} ReprobeFinds(env: Env, active: seq<nat>, key: Key, slot: nat, first: nat, attempt: nat)
    requires first < |active| && Distinct(active)
    ensures Reprobe(env, active, [active[first]], key, slot, attempt).Some? <==>
              exists a: nat :: attempt <= a < |active| && env.reprobe(key.0, key.1, slot, a) % |active| != first
    decreases |active| - attempt
  {
    if attempt < |active| {
      var at := env.reprobe(key.0, key.1, slot, attempt) % |active|;
      if at == first {
        ReprobeFinds(env, active, key, slot, first, attempt + 1);
      } else {
        assert active[at] != active[first];
      }
    }
  }

  /**
   A placement asked for two replicas has two exactly when its probes do not all land on one
   candidate: re-probing is bounded, so spare nodes alone do not guarantee a second replica.
   */
  lemma TwoReplicasIff(env: Env, active: seq<nat>, key: Key)
    requires |active| >= 2 && Distinct(active)
    ensures |Select(env, active, key, 2)| == 2 <==> SecondProbeMoves(env, |active|, key)
  {
    var n := |active|;
    var first := Slot(env, n, key, 0);
    assert Select(env, active, key, 1) == Extend(env, active, Select(env, active, key, 0), key, 0) == [active[first]];
    var at := Slot(env, n, key, 1);
    if at == first {
      ReprobeFinds(env, active, key, 1, first, 0);
    } else {
      assert active[at] != active[first];
    }
  }

  /** Which node the second replica goes to: the second probe's, or that of the first re-probe off the first replica. */
  lemma SecondReplica(env: Env, active: seq<nat>, key: Key, attempt: nat)
    requires |active| >= 2 && Distinct(active)
    ensures var n := |active|;
            var first, second := Slot(env, n, key, 0), Slot(env, n, key, 1);
            var replicas := Select(env, active, key, 2);
            && (second != first ==> replicas == [active[first], active[second]])
            && (second == first && attempt < n && env.reprobe(key.0, key.1, 1, attempt) % n != first
                && (forall a: nat :: a < attempt ==> env.reprobe(key.0, key.1, 1, a) % n == first) ==>
                  replicas == [active[first], active[env.reprobe(key.0, key.1, 1, attempt) % n]])
  {
    var n := |active|;
    var first, second := Slot(env, n, key, 0), Slot(env, n, key, 1);
    assert Select(env, active, key, 1) == Extend(env, active, Select(env, active, key, 0), key, 0) == [active[first]];
    if second != first {
      assert active[second] != active[first];
    } else if attempt < n && env.reprobe(key.0, key.1, 1, attempt) % n != first
        && forall a: nat :: a < attempt ==> env.reprobe(key.0, key.1, 1, a) % n == first {
      ReprobeFirst(env, active, key, 1, first, 0, attempt);
    }
  }

  lemma {:induction false} ReprobeFirst(env: Env, active: seq<nat>, key: Key, slot: nat, first: nat, from: nat, to: nat)
    requires first < |active| && Distinct(active) && from <= to < |active|
    requires env.reprobe(key.0, key.1, slot, to) % |active| != first
    requires forall a: nat :: from <= a < to ==> env.reprobe(key.0, key.1, slot, a) % |active| == first
    ensures Reprobe(env, active, [active[first]], key, slot, from)
         == Some(active[env.reprobe(key.0, key.1, slot, to) % |active|])
    decreases |active| - from
  {
    if from == to {
      assert active[env.reprobe(key.0, key.1, slot, to) % |active|] != active[first];
    } else {
      ReprobeFirst(env, active, key, slot, first, from + 1, to);
    }
  }
}
