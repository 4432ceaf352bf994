/**
 What single steps of the pipeline do besides moving slashes: offenses and evictions, and the votes
 that decide disputes.
 */
module SlashingEffects {
  import opened Sums
  import opened SlashAmounts
  import opened Slashing
  import opened SlashingRuns
  import opened SlashingHistory

  // ----- violations

  /**
   A violation adds one offense and queues one slash for its epoch: the tier's percentage of the
   condition's share of the stake the node has then.
   */
  lemma ViolationQueues(r: Rules, s: Pipe, id: Id, v: Verdict, condition: string, bps: int, epoch: int, network: int)
    requires id in s.nodes && s.nodes[id].stake >= 0 && 0 <= bps <= 10000 && v.violated
    ensures var s', node := Violate(r, s, id, v, condition, bps, epoch, network), s.nodes[id];
            var risk := node.stake * bps / 10000;
            var percent := match v.severity case "minor" => 5 case "major" => 15 case "critical" => 30 case _ => 1;
            && s'.nodes == s.nodes[id := node.(offenses := node.offenses + 1, cleanEpochs := 0)]
            && s'.batches == s.batches[epoch := (if epoch in s.batches then s.batches[epoch] else []) +
                 [Entry(Slip(Queued(s.queued), id, risk * percent / 100), condition, v.evidenceHash, v.severity)]]
            && s'.queued == s.queued + 1 && s'.disputes == s.disputes && s'.reversed == s.reversed
  {
    hide Base;
    SeverityAmounts(s.nodes[id].stake, bps, v.severity);
    BaseApplies(r.correlation, s.nodes[id].stake, bps, v.severity, network);
    hide SlashFor;
  }

  // ----- offenses and evictions

  /** Offenses and eviction of every node. */
  ghost function Standing(nodes: map<Id, Node>): map<Id, (int, bool)>
  {
    map id | id in nodes :: (nodes[id].offenses, nodes[id].evicted)
  }

  lemma StandingUpdate(nodes: map<Id, Node>, id: Id, node: Node)
    requires id in nodes && node.offenses == nodes[id].offenses && node.evicted == nodes[id].evicted
    ensures Standing(nodes[id := node]) == Standing(nodes)
  {
  }

  lemma {:induction false} CreateAllStanding(s: Pipe, listed: set<Id>, entries: seq<Entry>, epoch: int, grace: int)
    requires listed <= s.nodes.Keys
    ensures Standing(CreateAll(s, listed, entries, epoch, grace).nodes) == Standing(s.nodes)
    decreases |entries|
  {
    hide Standing;
    if entries != [] {
      var e := entries[0];
      var p := Pending(e.slip, TierOf(e.severity), epoch, grace);
      if e.slip.node in listed {
        StandingUpdate(s.nodes, e.slip.node, AddPending(s, p).nodes[e.slip.node]);
      }
      CreateAllStanding(if e.slip.node in listed then AddPending(s, p) else s, listed, entries[1..], epoch, grace);
    }
  }

  lemma {:induction false} DeductAllStanding(s: Pipe, id: Id, ps: seq<Pending>, epoch: int)
    requires id in s.nodes
    ensures Standing(DeductAll(s, id, ps, epoch).nodes) == Standing(s.nodes)
    decreases |ps|
  {
    hide Standing;
    if ps != [] {
      var next := Deduct(s, id, ps[0], epoch);
      StandingUpdate(s.nodes, id, next.nodes[id]);
      DeductAllStanding(next, id, ps[1..], epoch);
    }
  }

  lemma {:induction false} CloseNodesStanding(s: Pipe, ids: seq<Id>, epoch: int)
    requires Known(s, ids)
    ensures Standing(CloseNodes(s, ids, epoch).nodes) == Standing(s.nodes)
    decreases |ids|
  {
    hide Standing, DeductAll, Expired, Remaining;
    if ids != [] {
      var ps := s.nodes[ids[0]].pending;
      var kept := Keep(s, ids[0], Remaining(s.reversed, ps, epoch));
      StandingUpdate(s.nodes, ids[0], kept.nodes[ids[0]]);
      DeductAllStanding(kept, ids[0], Expired(s.reversed, ps, epoch), epoch);
      CloseNodesStanding(CloseNode(s, ids[0], epoch), ids[1..], epoch);
    }
  }

  lemma {:induction false} ResolveFromStanding(s: Pipe, listed: set<Id>, n: nat, epoch: int, grace: int)
    requires listed <= s.nodes.Keys
    ensures Standing(ResolveFrom(s, listed, n, epoch, grace).nodes) == Standing(s.nodes)
    decreases s.raised + 1 - n
  {
    hide Standing;
    if n <= s.raised {
      ResolveOneStanding(s, listed, n, epoch, grace);
      ResolveFromStanding(ResolveOne(s, listed, n, epoch, grace), listed, n + 1, epoch, grace);
    }
  }

  lemma ResolveOneStanding(s: Pipe, listed: set<Id>, n: nat, epoch: int, grace: int)
    requires listed <= s.nodes.Keys
    ensures Standing(ResolveOne(s, listed, n, epoch, grace).nodes) == Standing(s.nodes)
  {
    hide Standing;
    if n in s.disputes && CanResolve(s.disputes[n], epoch) {
      var d := s.disputes[n];
      if Decision(d) == Upheld && d.target in listed {
        StandingUpdate(s.nodes, d.target, ResolveOne(s, listed, n, epoch, grace).nodes[d.target]);
      }
    }
  }

  lemma {:induction false} EvictNodesStanding(s: Pipe, ids: seq<Id>, threshold: int, id: Id)
    requires Known(s, ids) && id in s.nodes
    ensures var node, after := s.nodes[id], EvictNodes(s, ids, threshold).nodes[id];
            && after.offenses == node.offenses
            && (after.evicted <==> node.evicted || (id in ids && node.offenses >= threshold))
    decreases |ids|
  {
    if ids != [] {
      EvictNodesStanding(EvictNode(s, ids[0], threshold), ids[1..], threshold, id);
    }
  }

  /** Closing an epoch evicts exactly the listed nodes whose offenses have reached the threshold, and nobody returns. */
  lemma CloseEvicts(r: Rules, s: Pipe, epoch: int, ids: seq<Id>, id: Id)
    requires Known(s, ids) && id in s.nodes
    ensures var node, after := s.nodes[id], CloseEpoch(r, s, epoch, ids).nodes[id];
            && after.offenses == node.offenses
            && (after.evicted <==> node.evicted || (id in ids && node.offenses >= r.evictionThreshold))
  {
    hide CreateAll, CloseNodes, EvictNodes, ResolveFrom, Batch;
    ListedKnown(s, ids);
    var listed := IdSet(ids);
    var drained := s.(batches := s.batches - {epoch});
    var created := CreateAll(drained, listed, Batch(s, epoch), epoch, r.grace);
    CreateAllStanding(drained, listed, Batch(s, epoch), epoch, r.grace);
    SameStanding(drained.nodes, created.nodes, id);
    var closed := CloseNodes(created, ids, epoch);
    CloseNodesStanding(created, ids, epoch);
    SameStanding(created.nodes, closed.nodes, id);
    var evicted := EvictNodes(closed, ids, r.evictionThreshold);
    EvictNodesStanding(closed, ids, r.evictionThreshold, id);
    if r.disputesEnabled {
      ResolveFromStanding(evicted, listed, 1, epoch, r.grace);
      SameStanding(evicted.nodes, ResolveFrom(evicted, listed, 1, epoch, r.grace).nodes, id);
    }
  }

  lemma SameStanding(a: map<Id, Node>, b: map<Id, Node>, id: Id)
    requires Standing(a) == Standing(b) && id in a
    ensures id in b && b[id].offenses == a[id].offenses && b[id].evicted == a[id].evicted
  {
    assert Standing(a)[id] == Standing(b)[id];
  }

  /** Closing an epoch empties its batch, entries of unlisted nodes included, and leaves the other batches alone. */
  lemma CloseDrains(r: Rules, s: Pipe, epoch: int, ids: seq<Id>)
    requires Known(s, ids)
    ensures CloseEpoch(r, s, epoch, ids).batches == s.batches - {epoch}
  {
    hide CreateAll, CloseNodes, EvictNodes, ResolveFrom, Batch;
    ListedKnown(s, ids);
    var created := CreateAll(s.(batches := s.batches - {epoch}), IdSet(ids), Batch(s, epoch), epoch, r.grace);
    CloseNodesBatches(created, ids, epoch);
    EvictNodesBatches(CloseNodes(created, ids, epoch), ids, r.evictionThreshold);
    if r.disputesEnabled {
      ResolveFromBatches(Enforced(r, s, epoch, ids), IdSet(ids), 1, epoch, r.grace);
    }
  }

  lemma {:induction false} DeductAllBatches(s: Pipe, id: Id, ps: seq<Pending>, epoch: int)
    requires id in s.nodes
    ensures DeductAll(s, id, ps, epoch).batches == s.batches
    decreases |ps|
  {
    if ps != [] {
      DeductAllBatches(Deduct(s, id, ps[0], epoch), id, ps[1..], epoch);
    }
  }

  lemma {:induction false} CloseNodesBatches(s: Pipe, ids: seq<Id>, epoch: int)
    requires Known(s, ids)
    ensures CloseNodes(s, ids, epoch).batches == s.batches
    decreases |ids|
  {
    hide DeductAll, Expired, Remaining;
    if ids != [] {
      var ps := s.nodes[ids[0]].pending;
      var kept := Keep(s, ids[0], Remaining(s.reversed, ps, epoch));
      DeductAllBatches(kept, ids[0], Expired(s.reversed, ps, epoch), epoch);
      CloseNodesBatches(CloseNode(s, ids[0], epoch), ids[1..], epoch);
    }
  }

  lemma {:induction false} EvictNodesBatches(s: Pipe, ids: seq<Id>, threshold: int)
    requires Known(s, ids)
    ensures EvictNodes(s, ids, threshold).batches == s.batches
    decreases |ids|
  {
    if ids != [] {
      EvictNodesBatches(EvictNode(s, ids[0], threshold), ids[1..], threshold);
    }
  }

  lemma {:induction false} ResolveFromBatches(s: Pipe, listed: set<Id>, n: nat, epoch: int, grace: int)
    requires listed <= s.nodes.Keys
    ensures ResolveFrom(s, listed, n, epoch, grace).batches == s.batches
    decreases s.raised + 1 - n
  {
    if n <= s.raised {
      ResolveFromBatches(ResolveOne(s, listed, n, epoch, grace), listed, n + 1, epoch, grace);
    }
  }

  // ----- disputes

  /** A dispute needs one percent of the stake as bond and stays open to votes for 168 epochs. */
  lemma DisputeOpens(s: Pipe, challenger: Id, target: Id, targetStake: int, bond: int, amount: int, epoch: int)
    ensures MayDispute(targetStake, bond) <==> 100 * bond > targetStake - 100
    ensures var s', n := OpenDispute(s, challenger, target, bond, amount, epoch), s.raised + 1;
            && s'.disputes == s.disputes[n := s'.disputes[n]] && s'.raised == n
            && s'.disputes[n].target == target && s'.disputes[n].amount == amount
            && s'.disputes[n].resolution == Undecided && s'.disputes[n].votesFor == 0 == s'.disputes[n].votesAgainst
            && (forall at :: MayVote(s', n, at) <==> at <= epoch + 168)
            && (forall at :: CanResolve(s'.disputes[n], at) <==> at > epoch + 168)
  {
  }

  lemma ResolveOneDisputes(s: Pipe, listed: set<Id>, m: nat, epoch: int, grace: int)
    requires listed <= s.nodes.Keys
    ensures var s' := ResolveOne(s, listed, m, epoch, grace);
            && s'.disputes.Keys == s.disputes.Keys && s'.raised == s.raised
            && (forall n :: n in s.disputes && n != m ==> s'.disputes[n] == s.disputes[n])
            && (m in s.disputes ==>
                  s'.disputes[m] == if CanResolve(s.disputes[m], epoch) then Resolved(s.disputes[m], epoch)
                      else s.disputes[m])
  {
    hide CanResolve, Resolved;
  }

  lemma {:induction false} ResolveFromDisputes(s: Pipe, listed: set<Id>, m: nat, epoch: int, grace: int, n: nat)
    requires listed <= s.nodes.Keys
    ensures var s' := ResolveFrom(s, listed, m, epoch, grace);
            && s'.disputes.Keys == s.disputes.Keys && s'.raised == s.raised
            && (n in s.disputes ==>
                  s'.disputes[n] == if m <= n <= s.raised && CanResolve(s.disputes[n], epoch)
                                    then Resolved(s.disputes[n], epoch) else s.disputes[n])
    decreases s.raised + 1 - m
  {
    hide ResolveOne, CanResolve, Resolved;
    if m <= s.raised {
      ResolveOneDisputes(s, listed, m, epoch, grace);
      ResolveFromDisputes(ResolveOne(s, listed, m, epoch, grace), listed, m + 1, epoch, grace, n);
    }
  }

  /** Closing an epoch decides, if disputes are enabled, exactly the undecided disputes past their deadline. */
  lemma CloseDecides(init: map<Id, Node>, r: Rules, s: Pipe, epoch: int, ids: seq<Id>, n: nat)
    requires Sound(init, s) && Historic(r.grace, s) && Known(s, ids)
    ensures var s' := CloseEpoch(r, s, epoch, ids);
            && s'.disputes.Keys == s.disputes.Keys
            && (n in s.disputes ==>
                  s'.disputes[n] == if r.disputesEnabled && CanResolve(s.disputes[n], epoch)
                                    then Resolved(s.disputes[n], epoch) else s.disputes[n])
  {
    hide Single, Timely, Charged, Historic, EntriesTraced, PendingTraced, InOrder, Enforced, ResolveFrom, Resolved,
        CanResolve;
    ListedKnown(s, ids);
    EnforcedHistory(r, s, epoch, ids);
    if r.disputesEnabled {
      ResolveFromDisputes(Enforced(r, s, epoch, ids), IdSet(ids), 1, epoch, r.grace, n);
    }
  }

  // ----- votes over a run

  /** The stake of the ballots for one side that the run accepts. */
  ghost function Tally(r: Rules, s: Pipe, steps: seq<Step>, n: nat, inFavour: bool): int
    decreases |steps|
  {
    if steps == [] then 0
    else
      (if steps[0].Ballot? && Proper(s, steps[0]) then Counted(s, steps[0], n, inFavour) else 0)
      + Tally(r, if Proper(s, steps[0]) then Take(r, s, steps[0]) else s, steps[1..], n, inFavour)
  }

  /** What an accepted ballot adds to a side of a dispute. */
  function Counted(s: Pipe, ballot: Step, n: nat, inFavour: bool): int
    requires ballot.Ballot?
  {
    if ballot.dispute == n && ballot.inFavour == inFavour && n in s.disputes && s.disputes[n].resolution == Undecided
       && ballot.epoch <= s.disputes[n].deadline
    then ballot.stake else 0
  }

  ghost function Votes(s: Pipe, n: nat, inFavour: bool): int
  {
    if n !in s.disputes then 0 else if inFavour then s.disputes[n].votesFor else s.disputes[n].votesAgainst
  }

  /** A decision follows the votes: upheld exactly with 66% of a non-zero total, and not before the deadline. */
  ghost predicate Lawful(d: Dispute)
  {
    d.resolution == Undecided ||
    (&& (d.resolution == Upheld <==>
           d.votesFor + d.votesAgainst != 0 && 100 * d.votesFor >= 66 * (d.votesFor + d.votesAgainst))
     && d.resolvedEpoch > d.deadline)
  }

  lemma StepVotes(init: map<Id, Node>, r: Rules, s: Pipe, step: Step, n: nat)
    requires Sound(init, s) && Historic(r.grace, s) && Proper(s, step)
    ensures var s' := Take(r, s, step);
            && Votes(s', n, true) == Votes(s, n, true) + (if step.Ballot? then Counted(s, step, n, true) else 0)
            && Votes(s', n, false) == Votes(s, n, false) + (if step.Ballot? then Counted(s, step, n, false) else 0)
            && ((n in s.disputes ==> Lawful(s.disputes[n])) ==> n in s'.disputes ==> Lawful(s'.disputes[n]))
  {
    hide Sound, Historic, CloseEpoch, SlashFor, Lawful, Votes, OpenDispute, Vote, Counted;
    match step
    case Close(epoch, ids) => CloseVotes(init, r, s, epoch, ids, n);
    case Open(challenger, target, targetStake, bond, amount, epoch) =>
      OpenVotes(init, s, challenger, target, bond, amount, epoch, n);
    case Ballot(_, _, _, _) => BallotVotes(s, step, n);
    case _ => SameVotes(s, Take(r, s, step), n);
  }

  lemma CloseVotes(init: map<Id, Node>, r: Rules, s: Pipe, epoch: int, ids: seq<Id>, n: nat)
    requires Sound(init, s) && Historic(r.grace, s) && Known(s, ids)
    ensures var s' := CloseEpoch(r, s, epoch, ids);
            && Votes(s', n, true) == Votes(s, n, true) && Votes(s', n, false) == Votes(s, n, false)
            && ((n in s.disputes ==> Lawful(s.disputes[n])) ==> n in s'.disputes ==> Lawful(s'.disputes[n]))
  {
    hide Sound, Historic, CloseEpoch;
    CloseDecides(init, r, s, epoch, ids, n);
  }

  lemma OpenVotes(init: map<Id, Node>, s: Pipe, challenger: Id, target: Id, bond: int, amount: int, epoch: int, n: nat)
    requires Sound(init, s)
    ensures var s' := OpenDispute(s, challenger, target, bond, amount, epoch);
            && Votes(s', n, true) == Votes(s, n, true) && Votes(s', n, false) == Votes(s, n, false)
            && ((n in s.disputes ==> Lawful(s.disputes[n])) ==> n in s'.disputes ==> Lawful(s'.disputes[n]))
  {
    assert n in s.disputes ==> n <= s.raised by {
      hide Single, Timely, Charged, EntriesTraced, PendingTraced;
    }
    hide Sound;
  }

  lemma BallotVotes(s: Pipe, step: Step, n: nat)
    requires step.Ballot?
    ensures var s' := Vote(s, step.dispute, step.stake, step.inFavour, step.epoch);
            && Votes(s', n, true) == Votes(s, n, true) + Counted(s, step, n, true)
            && Votes(s', n, false) == Votes(s, n, false) + Counted(s, step, n, false)
            && ((n in s.disputes ==> Lawful(s.disputes[n])) ==> n in s'.disputes ==> Lawful(s'.disputes[n]))
  {
  }

  lemma SameVotes(s: Pipe, s': Pipe, n: nat)
    requires s'.disputes == s.disputes
    ensures Votes(s', n, true) == Votes(s, n, true) && Votes(s', n, false) == Votes(s, n, false)
    ensures (n in s.disputes ==> Lawful(s.disputes[n])) ==> n in s'.disputes ==> Lawful(s'.disputes[n])
  {
  }

  lemma {:induction false} VotesCounted(init: map<Id, Node>, r: Rules, s: Pipe, steps: seq<Step>, n: nat)
    requires Sound(init, s) && Historic(r.grace, s) && (n in s.disputes ==> Lawful(s.disputes[n]))
    ensures var s' := Run(r, s, steps);
            && Votes(s', n, true) == Votes(s, n, true) + Tally(r, s, steps, n, true)
            && Votes(s', n, false) == Votes(s, n, false) + Tally(r, s, steps, n, false)
            && (n in s'.disputes ==> Lawful(s'.disputes[n]))
    decreases |steps|
  {
    hide Sound, Historic, Take, Proper, Votes, Lawful, Counted;
    if steps != [] {
      if Proper(s, steps[0]) {
        StepSound(init, r, s, steps[0]);
        SoundIsTraced(init, s);
        StepHistory(r, s, steps[0]);
        StepVotes(init, r, s, steps[0], n);
        VotesCounted(init, r, Take(r, s, steps[0]), steps[1..], n);
      } else {
        VotesCounted(init, r, s, steps[1..], n);
      }
    }
  }

  lemma SoundIsTraced(init: map<Id, Node>, s: Pipe)
    requires Sound(init, s)
    ensures Traced(s)
  {
    hide Single, Traced, Timely, Charged;
  }

  /**
   In every run a decided dispute is upheld exactly when the accepted ballots in favour hold at
   least 66% of a non-zero total; the slash it asks for then becomes pending at most once.
   */
  lemma VotesDecide(init: map<Id, Node>, r: Rules, steps: seq<Step>, n: nat)
    requires Fresh(init)
    ensures var s := Run(r, Opening(init), steps);
            var yes, no := Tally(r, Opening(init), steps, n, true), Tally(r, Opening(init), steps, n, false);
            n in s.disputes && s.disputes[n].resolution != Undecided ==>
              && (s.disputes[n].resolution == Upheld <==> yes + no != 0 && 100 * yes >= 66 * (yes + no))
              && s.disputes[n].resolvedEpoch > s.disputes[n].deadline
  {
    hide Sound, Historic, Run, Tally;
    OpeningSound(init);
    OpeningHistory(r.grace, init);
    VotesCounted(init, r, Opening(init), steps, n);
  }
}
