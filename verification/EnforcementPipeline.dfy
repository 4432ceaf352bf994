/** The objects of the slashing pipeline: the epoch batches, the dispute registry and the pipeline that drives them. */
module EnforcementPipelines {
  import opened Sums
  import opened SlashAmounts
  import opened Slashing
  import opened SlashingRuns
  import opened SlashingEffects
  import opened SlashingLaws

  class BatchSlashingAccumulator {
    var batches: map<int, seq<Entry>>

    constructor ()
      ensures batches == map[]
    {
      batches := map[];
    }

    method Add(epoch: int, entry: Entry)
      modifies this
      ensures batches == old(batches)[epoch := (if epoch in old(batches) then old(batches)[epoch] else []) + [entry]]
    {
      var batch := if epoch in batches then batches[epoch] else [];
      batches := batches[epoch := batch + [entry]];
    }

    /** The batch is handed out once: a second call for the epoch finds nothing. */
    method FinalizeEpoch(epoch: int) returns (entries: seq<Entry>)
      modifies this
      ensures entries == (if epoch in old(batches) then old(batches)[epoch] else [])
      ensures batches == old(batches) - {epoch}
    {
      entries := if epoch in batches then batches[epoch] else [];
      batches := batches - {epoch};
    }
  }

  class DisputeRegistry {
    var disputes: map<nat, Dispute>
    var nextId: nat

    constructor ()
      ensures disputes == map[] && nextId == 0
    {
      disputes, nextId := map[], 0;
    }

    method CreateDispute(challenger: Id, target: Id, targetStake: int, bond: int, amount: int, epoch: int)
        returns (ok: bool)
      modifies this
      ensures ok == MayDispute(targetStake, bond)
      ensures !ok ==> disputes == old(disputes) && nextId == old(nextId)
      ensures ok ==>
                && nextId == old(nextId) + 1
                && disputes == old(disputes)[nextId := Dispute(challenger, target, bond, amount, Undecided, 0, 0,
                    epoch + VOTING_PERIOD, -1)]
    {
      if bond < targetStake / 100 { return false; }
      nextId := nextId + 1;
      disputes := disputes[nextId := Dispute(challenger, target, bond, amount, Undecided, 0, 0,
                                            epoch + VOTING_PERIOD, -1)];
      ok := true;
    }

    method CastVote(n: nat, stake: int, inFavour: bool, epoch: int) returns (ok: bool)
      modifies this
      ensures nextId == old(nextId)
      ensures ok == (n in old(disputes) && old(disputes)[n].resolution == Undecided
          && epoch <= old(disputes)[n].deadline)
      ensures disputes == if ok then old(disputes)[n := Voted(old(disputes)[n], stake, inFavour)] else old(disputes)
    {
      if n !in disputes || disputes[n].resolution != Undecided || epoch > disputes[n].deadline { return false; }
      var d := disputes[n];
      disputes := disputes[n := if inFavour then d.(votesFor := d.votesFor + stake)
          else d.(votesAgainst := d.votesAgainst + stake)];
      ok := true;
    }

    /** Decided at most once: afterwards the dispute is no longer undecided and the call refuses. */
    method Resolve(n: nat, epoch: int) returns (ok: bool, upheld: bool)
      modifies this
      ensures nextId == old(nextId)
      ensures ok == (n in old(disputes) && CanResolve(old(disputes)[n], epoch))
      ensures upheld == (ok && Decision(old(disputes)[n]) == Upheld)
      ensures disputes == if ok then old(disputes)[n := Resolved(old(disputes)[n], epoch)] else old(disputes)
      ensures ok ==> disputes[n].resolution != Undecided
    {
      if n !in disputes || !CanResolve(disputes[n], epoch) { return false, false; }
      var d := disputes[n];
      upheld := d.votesFor + d.votesAgainst != 0 && 100 * d.votesFor >= 66 * (d.votesFor + d.votesAgainst);
      disputes := disputes[n := d.(resolution := if upheld then Upheld else Rejected, resolvedEpoch := epoch)];
      ok := true;
    }
  }

  // ----- what closing an epoch reports

  datatype Summary = Summary(
    epoch: int, batchEntries: nat, pendingCreated: nat, slashesFinalized: nat, stakeDeducted: int,
    nodesEvicted: seq<Id>, disputesResolved: nat)

  function Amounts(ps: seq<Pending>): int
  {
    if ps == [] then 0 else ps[0].slip.amount + Amounts(ps[1..])
  }

  function ListedEntries(entries: seq<Entry>, listed: set<Id>): nat
  {
    if entries == [] then 0 else (if entries[0].slip.node in listed then 1 else 0) + ListedEntries(entries[1..], listed)
  }

  ghost function TotalSlashed(nodes: map<Id, Node>): map<Id, int>
  {
    map id | id in nodes :: nodes[id].totalSlashed
  }

  /** How much closing the nodes takes, and in how many slashes: every total grows by the full amounts. */
  lemma {:induction false} DeductAllTotals(s: Pipe, id: Id, ps: seq<Pending>, epoch: int)
    requires id in s.nodes
    ensures var s' := DeductAll(s, id, ps, epoch);
            Sum(TotalSlashed(s'.nodes)) == Sum(TotalSlashed(s.nodes)) + Amounts(ps)
    decreases |ps|
  {
    hide Sum;
    if ps != [] {
      var next := Deduct(s, id, ps[0], epoch);
      SumUpdate(TotalSlashed(s.nodes), id, next.nodes[id].totalSlashed);
      assert TotalSlashed(next.nodes) == TotalSlashed(s.nodes)[id := next.nodes[id].totalSlashed];
      DeductAllTotals(next, id, ps[1..], epoch);
    }
  }

  ghost function Evicted(nodes: map<Id, Node>): set<Id>
  {
    set id | id in nodes && nodes[id].evicted
  }

  lemma SameEvicted(a: map<Id, Node>, b: map<Id, Node>)
    requires Standing(a) == Standing(b)
    ensures Evicted(a) == Evicted(b)
  {
    assert a.Keys == Standing(a).Keys == Standing(b).Keys == b.Keys;
    forall id | id in a
      ensures id in b && a[id].evicted == b[id].evicted
    {
      SameStanding(a, b, id);
    }
  }

  /** The disputes below a number that may be decided now. */
  ghost function Resolvable(disputes: map<nat, Dispute>, epoch: int, below: nat): set<nat>
  {
    set n | n in disputes && n < below && CanResolve(disputes[n], epoch)
  }

  lemma ResolvableNext(disputes: map<nat, Dispute>, epoch: int, n: nat)
    ensures |Resolvable(disputes, epoch, n + 1)| ==
            |Resolvable(disputes, epoch, n)| + if n in disputes && CanResolve(disputes[n], epoch) then 1 else 0
  {
    var before := Resolvable(disputes, epoch, n);
    if n in disputes && CanResolve(disputes[n], epoch) {
      assert Resolvable(disputes, epoch, n + 1) == before + {n};
    } else {
      assert Resolvable(disputes, epoch, n + 1) == before;
    }
  }

  /** Splits a pending list; reversed slashes are dropped. */
  method SplitPending(reversed: set<Ticket>, ps: seq<Pending>, epoch: int)
      returns (finalized: seq<Pending>, remaining: seq<Pending>)
    ensures finalized == Expired(reversed, ps, epoch) && remaining == Remaining(reversed, ps, epoch)
  {
    finalized, remaining := [], [];
    assert ps[0..] == ps;
    for i := 0 to |ps|
      invariant finalized + Expired(reversed, ps[i..], epoch) == Expired(reversed, ps, epoch)
      invariant remaining + Remaining(reversed, ps[i..], epoch) == Remaining(reversed, ps, epoch)
    {
      var p := ps[i];
      assert ps[i..][1..] == ps[i + 1..];
      if p.slip.ticket !in reversed {
        if epoch >= p.created + p.grace {
          finalized := finalized + [p];
        } else {
          remaining := remaining + [p];
        }
      }
    }
  }

  class EnforcementPipeline {
    const rules: Rules
    const accumulator: BatchSlashingAccumulator
    const registry: DisputeRegistry
    var nodes: map<Id, Node>
    var reversed: set<Ticket>
    var slashesQueued: nat
    var epochsFinalized: nat
    ghost var issued: map<Ticket, Slip>
    ghost var promotions: seq<Pending>
    ghost var deducted: map<Ticket, Deduction>
    ghost const init: map<Id, Node>

    ghost function State(): Pipe
      reads this, accumulator, registry
    {
      Pipe(nodes, accumulator.batches, registry.disputes, reversed, slashesQueued, registry.nextId, issued,
          promotions, deducted)
    }

    ghost predicate Valid()
      reads this, accumulator, registry
    {
      Sound(init, State())
    }

    constructor (r: Rules, n: map<Id, Node>)
      requires Fresh(n)
      ensures Valid() && rules == r && init == n && State() == Opening(n)
      ensures fresh(accumulator) && fresh(registry)
    {
      rules, init, nodes, reversed, slashesQueued, epochsFinalized := r, n, n, {}, 0, 0;
      issued, promotions, deducted := map[], [], map[];
      accumulator := new BatchSlashingAccumulator();
      registry := new DisputeRegistry();
      new;
      OpeningSound(n);
    }

    /** The slash is queued before the runtime check is made, and stays queued when the check fails. */
    method EvaluateAndQueue(id: Id, v: Verdict, condition: string, allocationBps: int, epoch: int, network: int)
        returns (checkHolds: bool)
      requires Valid() && Proper(State(), Violation(id, v, condition, allocationBps, epoch, network))
      modifies this, accumulator
      ensures Valid() && State()
          == Take(rules, old(State()), Violation(id, v, condition, allocationBps, epoch, network))
      ensures checkHolds == (!v.violated || CheckHolds(nodes[id]))
    {
      hide Sound, Later, SlashFor;
      StepSound(init, rules, State(), Violation(id, v, condition, allocationBps, epoch, network));
      if !v.violated { return true; }
      var node := nodes[id];
      nodes := nodes[id := node.(offenses := node.offenses + 1, cleanEpochs := 0)];
      var amount := SlashFor(rules.correlation, node.stake, allocationBps, v.severity, 0, network);
      var slip := Slip(Queued(slashesQueued), id, amount);
      accumulator.Add(epoch, Entry(slip, condition, v.evidenceHash, v.severity));
      slashesQueued := slashesQueued + 1;
      issued := issued[slip.ticket := slip];
      checkHolds := nodes[id].totalSlashed <= nodes[id].stake;
    }

    /** Succeeds for any slash not reversed before, even one already deducted. */
    method ReversePendingSlash(ticket: Ticket) returns (ok: bool)
      requires Valid()
      modifies this
      ensures Valid() && ok == (ticket !in old(reversed))
      ensures State() == Take(rules, old(State()), Reverse(ticket))
    {
      hide Sound, Later;
      StepSound(init, rules, State(), Reverse(ticket));
      ok := ticket !in reversed;
      reversed := reversed + {ticket};
    }

    method CreateDispute(challenger: Id, target: Id, targetStake: int, bond: int, amount: int, epoch: int)
        returns (ok: bool)
      requires Valid() && amount >= 0
      modifies this, registry
      ensures Valid() && ok == MayDispute(targetStake, bond)
      ensures State() == Take(rules, old(State()), Open(challenger, target, targetStake, bond, amount, epoch))
    {
      hide Sound, Later;
      StepSound(init, rules, State(), Open(challenger, target, targetStake, bond, amount, epoch));
      ok := registry.CreateDispute(challenger, target, targetStake, bond, amount, epoch);
      if ok {
        issued := issued[Disputed(registry.nextId) := Slip(Disputed(registry.nextId), target, amount)];
      }
    }

    method CastDisputeVote(n: nat, stake: int, inFavour: bool, epoch: int) returns (ok: bool)
      requires Valid() && stake >= 0
      modifies registry
      ensures Valid() && ok == MayVote(old(State()), n, epoch)
      ensures State() == Take(rules, old(State()), Ballot(n, stake, inFavour, epoch))
    {
      hide Sound, Later;
      StepSound(init, rules, State(), Ballot(n, stake, inFavour, epoch));
      ok := registry.CastVote(n, stake, inFavour, epoch);
    }

    method CreatePendingSlash(p: Pending)
      requires p.slip.node in nodes
      modifies this`nodes, this`promotions
      ensures State() == AddPending(old(State()), p) && TotalSlashed(nodes) == TotalSlashed(old(nodes))
    {
      var node := nodes[p.slip.node];
      nodes := nodes[p.slip.node := node.(pending := node.pending + [p])];
      promotions := promotions + [p];
    }

    method CreateFromBatch(entries: seq<Entry>, listed: set<Id>, epoch: int) returns (created: nat)
      requires listed <= nodes.Keys
      modifies this`nodes, this`promotions
      ensures State() == CreateAll(old(State()), listed, entries, epoch, rules.grace)
      ensures created == ListedEntries(entries, listed) && TotalSlashed(nodes) == TotalSlashed(old(nodes))
    {
      created := 0;
      ghost var start := State();
      assert entries[0..] == entries;
      for i := 0 to |entries|
        invariant listed <= nodes.Keys && TotalSlashed(nodes) == TotalSlashed(start.nodes)
        invariant CreateAll(State(), listed, entries[i..], epoch, rules.grace)
            == CreateAll(start, listed, entries, epoch, rules.grace)
        invariant created + ListedEntries(entries[i..], listed) == ListedEntries(entries, listed)
      {
        var entry := entries[i];
        assert entries[i..][1..] == entries[i + 1..];
        if entry.slip.node in listed {
          CreatePendingSlash(Pending(entry.slip, TierOf(entry.severity), epoch, rules.grace));
          created := created + 1;
        }
      }
    }

    method FinalizePendingSlashes(id: Id, epoch: int) returns (finalized: seq<Pending>)
      requires id in nodes
      modifies this`nodes
      ensures finalized == Expired(reversed, old(nodes[id].pending), epoch)
      ensures State() == Keep(old(State()), id, Remaining(reversed, old(nodes[id].pending), epoch))
    {
      var remaining;
      finalized, remaining := SplitPending(reversed, nodes[id].pending, epoch);
      nodes := nodes[id := nodes[id].(pending := remaining)];
    }

    method DeductOne(id: Id, p: Pending, epoch: int)
      requires id in nodes
      modifies this`nodes, this`deducted
      ensures State() == Deduct(old(State()), id, p, epoch)
    {
      var node := nodes[id];
      var stake := if node.stake - p.slip.amount > 0 then node.stake - p.slip.amount else 0;
      nodes := nodes[id := node.(stake := stake, totalSlashed := node.totalSlashed + p.slip.amount)];
      deducted := deducted[p.slip.ticket := Deduction(p, epoch)];
    }

    /** Deducts the given slashes one by one. */
    method DeductStake(id: Id, finalized: seq<Pending>, epoch: int) returns (amount: int)
      requires id in nodes
      modifies this`nodes, this`deducted
      ensures State() == DeductAll(old(State()), id, finalized, epoch)
      ensures amount == Amounts(finalized)
    {
      hide Deduct;
      ghost var start := State();
      amount := 0;
      assert finalized[0..] == finalized;
      for i := 0 to |finalized|
        invariant id in nodes
        invariant DeductAll(State(), id, finalized[i..], epoch) == DeductAll(start, id, finalized, epoch)
        invariant amount + Amounts(finalized[i..]) == Amounts(finalized)
      {
        assert finalized[i..][1..] == finalized[i + 1..];
        DeductOne(id, finalized[i], epoch);
        amount := amount + finalized[i].slip.amount;
      }
    }

    method CloseOne(id: Id, epoch: int) returns (count: nat, amount: int)
      requires id in nodes
      modifies this`nodes, this`deducted
      ensures State() == CloseNode(old(State()), id, epoch)
      ensures count == |Expired(reversed, old(nodes[id].pending), epoch)|
      ensures Sum(TotalSlashed(nodes)) == Sum(TotalSlashed(old(nodes))) + amount
    {
      hide Sum, DeductAll, Expired, Remaining, Amounts;
      var finalized := FinalizePendingSlashes(id, epoch);
      ghost var kept := State();
      assert TotalSlashed(kept.nodes) == TotalSlashed(old(nodes));
      amount := DeductStake(id, finalized, epoch);
      count := |finalized|;
      DeductAllTotals(kept, id, finalized, epoch);
    }

    /** Every slash counted is one more deduction on record. */
    method CloseAll(ids: seq<Id>, epoch: int) returns (count: nat, amount: int)
      requires Sound(init, State()) && Known(State(), ids)
      modifies this`nodes, this`deducted
      ensures State() == CloseNodes(old(State()), ids, epoch)
      ensures Sum(TotalSlashed(nodes)) == Sum(TotalSlashed(old(nodes))) + amount
      ensures |deducted| == |old(deducted)| + count
    {
      hide Sum, CloseNode, Sound, Later, TotalSlashed;
      ghost var start := State();
      count, amount := 0, 0;
      assert ids[0..] == ids;
      for i := 0 to |ids|
        invariant nodes.Keys == start.nodes.Keys && Sound(init, State())
        invariant CloseNodes(State(), ids[i..], epoch) == CloseNodes(start, ids, epoch)
        invariant Sum(TotalSlashed(nodes)) == Sum(TotalSlashed(start.nodes)) + amount
        invariant |deducted| == |start.deducted| + count
      {
        assert ids[i..][1..] == ids[i + 1..];
        CloseNodeSound(init, State(), ids[i], epoch);
        var c, a := CloseOne(ids[i], epoch);
        count, amount := count + c, amount + a;
      }
    }

    method EvictOne(id: Id) returns (newly: bool)
      requires id in nodes
      modifies this`nodes
      ensures State() == EvictNode(old(State()), id, rules.evictionThreshold)
      ensures TotalSlashed(nodes) == TotalSlashed(old(nodes))
      ensures Evicted(nodes) == Evicted(old(nodes)) + (if newly then {id} else {})
          && (newly ==> id !in Evicted(old(nodes)))
    {
      var node := nodes[id];
      newly := !node.evicted && node.offenses >= rules.evictionThreshold;
      if newly {
        nodes := nodes[id := node.(evicted := true)];
      } else {
        assert nodes[id := node] == nodes;
      }
    }

    method EvictEligible(ids: seq<Id>) returns (evicted: seq<Id>)
      requires Known(State(), ids)
      modifies this`nodes
      ensures State() == EvictNodes(old(State()), ids, rules.evictionThreshold)
      ensures forall id :: id in evicted <==> id in Evicted(nodes) && id !in Evicted(old(nodes))
      ensures TotalSlashed(nodes) == TotalSlashed(old(nodes))
    {
      hide Evicted, TotalSlashed, EvictNode;
      ghost var start := State();
      evicted := [];
      assert ids[0..] == ids;
      for i := 0 to |ids|
        invariant nodes.Keys == start.nodes.Keys && TotalSlashed(nodes) == TotalSlashed(start.nodes)
        invariant EvictNodes(State(), ids[i..], rules.evictionThreshold)
            == EvictNodes(start, ids, rules.evictionThreshold)
        invariant forall id :: id in evicted <==> id in Evicted(nodes) && id !in Evicted(start.nodes)
        invariant Evicted(start.nodes) <= Evicted(nodes)
      {
        assert ids[i..][1..] == ids[i + 1..];
        var newly := EvictOne(ids[i]);
        if newly {
          evicted := evicted + [ids[i]];
        }
      }
    }

    method ResolveExpiredDisputes(epoch: int, listed: set<Id>) returns (resolved: nat)
      requires listed <= nodes.Keys && forall n :: n in registry.disputes ==> 1 <= n <= registry.nextId
      modifies this`nodes, this`promotions, registry
      ensures State() == ResolveFrom(old(State()), listed, 1, epoch, rules.grace)
      ensures TotalSlashed(nodes) == TotalSlashed(old(nodes))
      ensures resolved == |Resolvable(old(registry.disputes), epoch, registry.nextId + 1)|
      ensures registry.nextId == old(registry.nextId)
    {
      hide ResolveOne, TotalSlashed;
      ghost var start := State();
      resolved := 0;
      var n := 1;
      assert Resolvable(start.disputes, epoch, 1) == {};
      while n <= registry.nextId
        invariant TotalSlashed(nodes) == TotalSlashed(start.nodes)
        invariant 1 <= n <= registry.nextId + 1 && listed <= nodes.Keys && registry.nextId == start.raised
        invariant ResolveFrom(State(), listed, n, epoch, rules.grace)
            == ResolveFrom(start, listed, 1, epoch, rules.grace)
        invariant forall m :: m >= n ==> (m in registry.disputes <==> m in start.disputes)
        invariant forall m :: m >= n && m in start.disputes ==> registry.disputes[m] == start.disputes[m]
        invariant resolved == |Resolvable(start.disputes, epoch, n)|
        decreases registry.nextId + 1 - n
      {
        ResolvableNext(start.disputes, epoch, n);
        var ok := ResolveDispute(n, listed, epoch);
        if ok {
          resolved := resolved + 1;
        }
        n := n + 1;
      }
    }

    method ResolveDispute(n: nat, listed: set<Id>, epoch: int) returns (ok: bool)
      requires listed <= nodes.Keys
      modifies this`nodes, this`promotions, registry
      ensures registry.nextId == old(registry.nextId)
      ensures ok == (n in old(registry.disputes) && CanResolve(old(registry.disputes)[n], epoch))
      ensures State() == ResolveOne(old(State()), listed, n, epoch, rules.grace)
      ensures forall m :: m != n ==> (m in registry.disputes <==> m in old(registry.disputes))
      ensures forall m :: m != n && m in registry.disputes ==> registry.disputes[m] == old(registry.disputes)[m]
      ensures TotalSlashed(nodes) == TotalSlashed(old(nodes))
    {
      ghost var start := State();
      var upheld;
      ok, upheld := registry.Resolve(n, epoch);
      if upheld {
        var d := registry.disputes[n];
        if d.target in listed {
          CreatePendingSlash(Pending(Slip(Disputed(n), d.target, d.amount), Major, epoch, rules.grace));
        }
      }
    }

    /** Pending slashes are created, expired ones deducted, and nodes past the offense threshold evicted. */
    method Enforce(entries: seq<Entry>, ids: seq<Id>, epoch: int) returns (summary: Summary)
      requires Known(State(), ids) && IdSet(ids) <= nodes.Keys
      requires Sound(init, CreateAll(State(), IdSet(ids), entries, epoch, rules.grace))
      modifies this`nodes, this`promotions, this`deducted
      ensures var created := CreateAll(old(State()), IdSet(ids), entries, epoch, rules.grace);
              State() == EvictNodes(CloseNodes(created, ids, epoch), ids, rules.evictionThreshold)
      ensures summary.epoch == epoch && summary.batchEntries == |entries|
          && summary.pendingCreated == ListedEntries(entries, IdSet(ids))
      ensures |deducted| == |old(deducted)| + summary.slashesFinalized
      ensures Sum(TotalSlashed(nodes)) == Sum(TotalSlashed(old(nodes))) + summary.stakeDeducted
      ensures forall id :: id in summary.nodesEvicted <==> id in Evicted(nodes) && id !in Evicted(old(nodes))
      ensures summary.disputesResolved == 0
    {
      hide Sum, CreateAll, CloseNodes, EvictNodes, TotalSlashed, Evicted, ListedEntries, Sound;
      CreateAllStanding(State(), IdSet(ids), entries, epoch, rules.grace);
      var created := CreateFromBatch(entries, IdSet(ids), epoch);
      CloseNodesStanding(State(), ids, epoch);
      var count, amount := CloseAll(ids, epoch);
      SameEvicted(old(nodes), nodes);
      var evicted := EvictEligible(ids);
      summary := Summary(epoch, |entries|, created, count, amount, evicted, 0);
    }

    method DrainAndEnforce(epoch: int, ids: seq<Id>) returns (summary: Summary)
      requires Valid() && Known(State(), ids)
      modifies this`nodes, this`promotions, this`deducted, accumulator
      ensures State() == Enforced(rules, old(State()), epoch, ids)
      ensures summary.epoch == epoch && summary.batchEntries == |Batch(old(State()), epoch)|
      ensures summary.pendingCreated == ListedEntries(Batch(old(State()), epoch), IdSet(ids))
      ensures |deducted| == |old(deducted)| + summary.slashesFinalized
      ensures Sum(TotalSlashed(nodes)) == Sum(TotalSlashed(old(nodes))) + summary.stakeDeducted
      ensures forall id :: id in summary.nodesEvicted <==> id in Evicted(nodes) && id !in Evicted(old(nodes))
      ensures summary.disputesResolved == 0
    {
      hide Sound, Later, Sum, CreateAll, CloseNodes, EvictNodes, TotalSlashed, Evicted, ListedEntries;
      ListedKnown(State(), ids);
      DrainSound(init, State(), IdSet(ids), epoch, rules.grace);
      var entries := accumulator.FinalizeEpoch(epoch);
      assert State() == old(State()).(batches := old(State()).batches - {epoch});
      summary := Enforce(entries, ids, epoch);
    }

    method FinalizeEpoch(epoch: int, ids: seq<Id>) returns (summary: Summary)
      requires Valid() && Known(State(), ids)
      modifies this, accumulator, registry
      ensures Valid() && State() == Take(rules, old(State()), Close(epoch, ids))
      ensures summary.epoch == epoch && summary.batchEntries == |Batch(old(State()), epoch)|
      ensures summary.pendingCreated == ListedEntries(Batch(old(State()), epoch), IdSet(ids))
      ensures |deducted| == |old(deducted)| + summary.slashesFinalized
      ensures Sum(TotalSlashed(nodes)) == Sum(TotalSlashed(old(nodes))) + summary.stakeDeducted
      ensures forall id :: id in summary.nodesEvicted <==> id in Evicted(nodes) && id !in Evicted(old(nodes))
      ensures summary.disputesResolved ==
              if rules.disputesEnabled then |Resolvable(old(registry.disputes), epoch, registry.nextId + 1)| else 0
      ensures epochsFinalized == old(epochsFinalized) + 1
    {
      hide Sound, Later, Sum, Enforced, ResolveFrom, TotalSlashed, Evicted, ListedEntries, Resolvable, Batch;
      StepSound(init, rules, State(), Close(epoch, ids));
      ListedKnown(State(), ids);
      DisputesNumbered(init, State());
      summary := DrainAndEnforce(epoch, ids);
      if rules.disputesEnabled {
        ghost var before := nodes;
        ResolveFromStanding(State(), IdSet(ids), 1, epoch, rules.grace);
        var resolved := ResolveExpiredDisputes(epoch, IdSet(ids));
        SameEvicted(before, nodes);
        summary := summary.(disputesResolved := resolved);
      }
      epochsFinalized := epochsFinalized + 1;
    }
  }

  lemma DisputesNumbered(init: map<Id, Node>, s: Pipe)
    requires Sound(init, s)
    ensures forall n :: n in s.disputes ==> 1 <= n <= s.raised
  {
    hide Single, EntriesTraced, PendingTraced, InOrder, Timely, Charged;
  }
}
