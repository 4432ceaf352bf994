/**
 The history of promotions.  A ticket that has become a pending slash once never does again, even
 after that slash was reversed and dropped; and what is deducted was promoted under the rules' grace.
 */
module SlashingHistory {
  import opened Sums
  import opened SlashAmounts
  import opened Slashing
  import opened SlashingRuns

  /** How often the ticket is waiting to be promoted or has been. */
  ghost function Passages(s: Pipe, t: Ticket): int
  {
    Sum(EntryCounts(s.batches, t)) + One(Awaits(s.disputes, t)) + InPending(s.promotions, t)
  }

  ghost predicate Unrepeated(s: Pipe)
  {
    forall t :: Passages(s, t) <= One(t in s.issued)
  }

  ghost predicate PendingRecorded(nodes: map<Id, Node>, promotions: seq<Pending>)
  {
    forall id, i :: id in nodes && 0 <= i < |nodes[id].pending| ==> nodes[id].pending[i] in promotions
  }

  ghost predicate DeductedRecorded(deducted: map<Ticket, Deduction>, promotions: seq<Pending>)
  {
    forall t :: t in deducted ==> deducted[t].pending in promotions && deducted[t].pending.slip.ticket == t
  }

  /** Every promotion was of an issued slip and under the given grace. */
  ghost predicate Graced(grace: int, promotions: seq<Pending>, issued: map<Ticket, Slip>)
  {
    forall i :: 0 <= i < |promotions| ==> promotions[i].grace == grace && Matches(issued, promotions[i].slip)
  }

  ghost predicate Historic(grace: int, s: Pipe)
  {
    && Unrepeated(s) && PendingRecorded(s.nodes, s.promotions) && DeductedRecorded(s.deducted, s.promotions)
    && Graced(grace, s.promotions, s.issued)
  }

  /** The history grows at its end, by promotions dated with the epoch. */
  ghost predicate Extends(s: Pipe, s': Pipe, epoch: int)
  {
    && s.promotions <= s'.promotions
    && forall i :: |s.promotions| <= i < |s'.promotions| ==> s'.promotions[i].created == epoch
  }

  lemma ExtendsTransitive(s: Pipe, m: Pipe, s': Pipe, epoch: int)
    requires Extends(s, m, epoch) && Extends(m, s', epoch)
    ensures Extends(s, s', epoch)
  {
    forall i | |s.promotions| <= i < |s'.promotions|
      ensures s'.promotions[i].created == epoch
    {
      if i < |m.promotions| {
        assert s'.promotions[i] == m.promotions[i];
      }
    }
  }

  // ----- promotion

  /** A ticket that is nowhere in the passage may be promoted. */
  lemma PromotedFirst(grace: int, s: Pipe, p: Pending)
    requires Historic(grace, s) && p.slip.node in s.nodes && Matches(s.issued, p.slip) && p.grace == grace
    requires Passages(s, p.slip.ticket) <= 0
    ensures Historic(grace, AddPending(s, p)) && Extends(s, AddPending(s, p), p.created)
  {
    hide Sum, EntryCounts, InPending;
    var s' := AddPending(s, p);
    assert Unrepeated(s') by {
      hide PendingRecorded, DeductedRecorded, Graced;
      forall t ensures Passages(s', t) <= One(t in s'.issued)
      {
        assert Passages(s, t) <= One(t in s.issued);
        PendingConcat(s.promotions, [p], t);
        PendingOne(p, t);
      }
    }
    assert PendingRecorded(s'.nodes, s'.promotions) by { hide Unrepeated, DeductedRecorded, Graced; }
  }

  lemma EntryLeaves(grace: int, s: Pipe, epoch: int)
    requires Historic(grace, s) && epoch in s.batches && s.batches[epoch] != []
    ensures var s' := s.(batches := s.batches[epoch := s.batches[epoch][1..]]);
            Historic(grace, s') && Passages(s', s.batches[epoch][0].slip.ticket) <= 0
  {
    hide Sum, EntryCounts, PendingRecorded, DeductedRecorded, Graced;
    var s' := s.(batches := s.batches[epoch := s.batches[epoch][1..]]);
    forall t
      ensures Passages(s', t) == Passages(s, t) - One(s.batches[epoch][0].slip.ticket == t)
      ensures Passages(s', t) <= One(t in s'.issued)
    {
      assert Passages(s, t) <= One(t in s.issued);
      EntryCountUpdate(s.batches, epoch, s.batches[epoch][1..], t);
    }
  }

  lemma EmptyBatchHistory(grace: int, s: Pipe, epoch: int)
    requires epoch !in s.batches
    ensures Historic(grace, s.(batches := s.batches[epoch := []])) <==> Historic(grace, s)
  {
    hide Sum, EntryCounts, PendingRecorded, DeductedRecorded, Graced;
    var s' := s.(batches := s.batches[epoch := []]);
    forall t ensures Passages(s', t) == Passages(s, t)
    {
      EntryCountUpdate(s.batches, epoch, [], t);
    }
    assert forall t :: Passages(s', t) <= One(t in s.issued) <==> Passages(s, t) <= One(t in s.issued);
  }

  lemma {:induction false} CreateAllHistory(grace: int, s: Pipe, listed: set<Id>, entries: seq<Entry>, epoch: int)
    requires listed <= s.nodes.Keys && Historic(grace, WithBatch(s, epoch, entries))
    requires forall i :: 0 <= i < |entries| ==> Matches(s.issued, entries[i].slip)
    ensures var s' := CreateAll(s, listed, entries, epoch, grace);
            && Historic(grace, WithBatch(s', epoch, [])) && Extends(s, s', epoch)
            && s'.disputes == s.disputes && s'.issued == s.issued && s'.raised == s.raised
    decreases |entries|
  {
    hide Historic, Matches;
    if entries != [] {
      var e, rest := entries[0], entries[1..];
      var p := Pending(e.slip, TierOf(e.severity), epoch, grace);
      var before := WithBatch(s, epoch, entries);
      assert before.batches[epoch := rest] == s.batches[epoch := rest];
      EntryLeaves(grace, before, epoch);
      assert Matches(s.issued, entries[0].slip);
      assert forall i :: 0 <= i < |rest| ==> rest[i] == entries[i + 1];
      if e.slip.node in listed {
        PromotedFirst(grace, WithBatch(s, epoch, rest), p);
        assert AddPending(WithBatch(s, epoch, rest), p) == WithBatch(AddPending(s, p), epoch, rest);
        CreateAllHistory(grace, AddPending(s, p), listed, rest, epoch);
        ExtendsTransitive(s, AddPending(s, p), CreateAll(AddPending(s, p), listed, rest, epoch, grace), epoch);
      } else {
        CreateAllHistory(grace, s, listed, rest, epoch);
      }
    }
  }

  lemma DrainHistory(grace: int, s: Pipe, listed: set<Id>, epoch: int)
    requires listed <= s.nodes.Keys && Historic(grace, s) && EntriesTraced(s.batches, s.issued)
    ensures var s' := CreateAll(s.(batches := s.batches - {epoch}), listed, Batch(s, epoch), epoch, grace);
            && Historic(grace, s') && Extends(s, s', epoch)
            && s'.disputes == s.disputes && s'.issued == s.issued && s'.raised == s.raised
  {
    hide Historic, Matches;
    var drained := s.(batches := s.batches - {epoch});
    if epoch in s.batches {
      assert WithBatch(drained, epoch, Batch(s, epoch)).batches == s.batches;
      assert WithBatch(drained, epoch, Batch(s, epoch)) == s;
    } else {
      assert drained.batches == s.batches;
      EmptyBatchHistory(grace, s, epoch);
    }
    CreateAllHistory(grace, drained, listed, Batch(s, epoch), epoch);
    EmptyBatchHistory(grace, CreateAll(drained, listed, Batch(s, epoch), epoch, grace), epoch);
  }

  // ----- closing and evicting leave the history alone

  /** Nothing that a passage depends on has changed. */
  ghost predicate SamePassages(s: Pipe, s': Pipe)
  {
    && s'.batches == s.batches && s'.disputes == s.disputes && s'.promotions == s.promotions
    && s'.issued == s.issued && s'.raised == s.raised
  }

  lemma SameUnrepeated(s: Pipe, s': Pipe)
    requires Unrepeated(s) && s'.batches == s.batches && s'.disputes == s.disputes
    requires s'.promotions == s.promotions && s'.issued == s.issued
    ensures Unrepeated(s')
  {
    hide Sum;
    forall t ensures Passages(s', t) <= One(t in s'.issued)
    {
      assert Passages(s, t) <= One(t in s.issued);
    }
  }

  lemma {:induction false} DeductAllHistory(s: Pipe, id: Id, ps: seq<Pending>, epoch: int)
    requires id in s.nodes && PendingRecorded(s.nodes, s.promotions) && DeductedRecorded(s.deducted, s.promotions)
    requires forall p :: p in ps ==> p in s.promotions
    ensures var s' := DeductAll(s, id, ps, epoch);
            && SamePassages(s, s')
            && PendingRecorded(s'.nodes, s'.promotions) && DeductedRecorded(s'.deducted, s'.promotions)
    decreases |ps|
  {
    if ps != [] {
      var next := Deduct(s, id, ps[0], epoch);
      assert ps[0] in s.promotions;
      assert PendingRecorded(next.nodes, next.promotions) by { hide DeductedRecorded; }
      hide PendingRecorded;
      assert DeductedRecorded(next.deducted, next.promotions);
      hide DeductedRecorded;
      DeductAllHistory(next, id, ps[1..], epoch);
    }
  }

  lemma CloseNodeHistory(grace: int, s: Pipe, id: Id, epoch: int)
    requires Historic(grace, s) && id in s.nodes
    ensures Historic(grace, CloseNode(s, id, epoch)) && SamePassages(s, CloseNode(s, id, epoch))
  {
    hide Unrepeated, Graced, DeductedRecorded;
    var ps := s.nodes[id].pending;
    var keep, due := Remaining(s.reversed, ps, epoch), Expired(s.reversed, ps, epoch);
    SplitMembers(s.reversed, ps, epoch);
    var kept := Keep(s, id, keep);
    forall p | p in ps ensures p in s.promotions
    {
      var i :| 0 <= i < |ps| && ps[i] == p;
      assert s.nodes[id].pending[i] in s.promotions;
    }
    assert PendingRecorded(kept.nodes, kept.promotions) by {
      forall i | 0 <= i < |keep| ensures keep[i] in s.promotions { assert keep[i] in keep; }
    }
    hide PendingRecorded;
    DeductAllHistory(kept, id, due, epoch);
    SameUnrepeated(s, CloseNode(s, id, epoch));
  }

  lemma {:induction false} CloseNodesHistory(grace: int, s: Pipe, ids: seq<Id>, epoch: int)
    requires Historic(grace, s) && Known(s, ids)
    ensures Historic(grace, CloseNodes(s, ids, epoch)) && SamePassages(s, CloseNodes(s, ids, epoch))
    decreases |ids|
  {
    hide Historic, CloseNode;
    if ids != [] {
      CloseNodeHistory(grace, s, ids[0], epoch);
      CloseNodesHistory(grace, CloseNode(s, ids[0], epoch), ids[1..], epoch);
    }
  }

  lemma {:induction false} EvictNodesHistory(grace: int, s: Pipe, ids: seq<Id>, threshold: int)
    requires Historic(grace, s) && Known(s, ids)
    ensures var s' := EvictNodes(s, ids, threshold); Historic(grace, s') && SamePassages(s, s')
    decreases |ids|
  {
    hide Unrepeated, Graced, DeductedRecorded;
    if ids != [] {
      var next := EvictNode(s, ids[0], threshold);
      SameUnrepeated(s, next);
      assert PendingRecorded(next.nodes, next.promotions);
      hide PendingRecorded;
      EvictNodesHistory(grace, next, ids[1..], threshold);
    }
  }

  // ----- disputes

  /** A change to an undecided dispute; a decision takes its ticket out of the passage. */
  lemma DecidedHistory(grace: int, s: Pipe, n: nat, d: Dispute)
    requires Historic(grace, s) && n in s.disputes && s.disputes[n].resolution == Undecided
    ensures var s' := s.(disputes := s.disputes[n := d]);
            Historic(grace, s') && (d.resolution != Undecided ==> Passages(s', Disputed(n)) <= 0)
  {
    hide Sum, EntryCounts, InPending, PendingRecorded, DeductedRecorded, Graced;
    var s' := s.(disputes := s.disputes[n := d]);
    forall t ensures Passages(s', t) <= Passages(s, t) && Passages(s', t) <= One(t in s'.issued)
    {
      assert Passages(s, t) <= One(t in s.issued);
    }
    assert Passages(s, Disputed(n)) <= One(Disputed(n) in s.issued);
  }

  lemma ResolveOneHistory(grace: int, s: Pipe, listed: set<Id>, n: nat, epoch: int)
    requires Historic(grace, s) && listed <= s.nodes.Keys && DisputesTraced(s.disputes, s.issued, s.raised)
    ensures var s' := ResolveOne(s, listed, n, epoch, grace);
            && Historic(grace, s') && Extends(s, s', epoch)
            && s'.issued == s.issued && s'.raised == s.raised && DisputesTraced(s'.disputes, s'.issued, s'.raised)
  {
    hide Historic, Passages;
    if n in s.disputes && CanResolve(s.disputes[n], epoch) {
      var d := s.disputes[n];
      var decided := s.(disputes := s.disputes[n := Resolved(d, epoch)]);
      DecidedHistory(grace, s, n, Resolved(d, epoch));
      assert DisputesTraced(decided.disputes, decided.issued, decided.raised);
      if Decision(d) == Upheld && d.target in listed {
        PromotedFirst(grace, decided, Pending(Slip(Disputed(n), d.target, d.amount), Major, epoch, grace));
      }
    }
  }

  lemma {:induction false} ResolveFromHistory(grace: int, s: Pipe, listed: set<Id>, n: nat, epoch: int)
    requires Historic(grace, s) && listed <= s.nodes.Keys && DisputesTraced(s.disputes, s.issued, s.raised)
    ensures var s' := ResolveFrom(s, listed, n, epoch, grace); Historic(grace, s') && Extends(s, s', epoch)
    decreases s.raised + 1 - n
  {
    hide Historic, ResolveOne, DisputesTraced, Extends;
    if n <= s.raised {
      var next := ResolveOne(s, listed, n, epoch, grace);
      ResolveOneHistory(grace, s, listed, n, epoch);
      ResolveFromHistory(grace, next, listed, n + 1, epoch);
      ExtendsTransitive(s, next, ResolveFrom(next, listed, n + 1, epoch, grace), epoch);
    } else {
      SameExtends(s, s, epoch);
    }
  }

  lemma SameExtends(s: Pipe, s': Pipe, epoch: int)
    requires s'.promotions == s.promotions
    ensures Extends(s, s', epoch)
  {
  }

  // ----- steps and runs

  lemma EnforcedHistory(r: Rules, s: Pipe, epoch: int, ids: seq<Id>)
    requires Historic(r.grace, s) && Known(s, ids) && Traced(s)
    ensures var s' := Enforced(r, s, epoch, ids);
            && Historic(r.grace, s') && Extends(s, s', epoch) && DisputesTraced(s'.disputes, s'.issued, s'.raised)
            && s'.disputes == s.disputes && s'.raised == s.raised
  {
    hide Historic, EntriesTraced, PendingTraced, DisputesTraced, InOrder, CreateAll, CloseNodes, EvictNodes, Batch;
    ListedKnown(s, ids);
    DrainHistory(r.grace, s, IdSet(ids), epoch);
    var created := CreateAll(s.(batches := s.batches - {epoch}), IdSet(ids), Batch(s, epoch), epoch, r.grace);
    CloseNodesHistory(r.grace, created, ids, epoch);
    EvictNodesHistory(r.grace, CloseNodes(created, ids, epoch), ids, r.evictionThreshold);
  }

  lemma CloseEpochHistory(r: Rules, s: Pipe, epoch: int, ids: seq<Id>)
    requires Historic(r.grace, s) && Known(s, ids) && Traced(s)
    ensures Historic(r.grace, CloseEpoch(r, s, epoch, ids)) && Extends(s, CloseEpoch(r, s, epoch, ids), epoch)
  {
    hide Historic, Traced, Enforced, DisputesTraced, ResolveFrom, Extends;
    ListedKnown(s, ids);
    EnforcedHistory(r, s, epoch, ids);
    if r.disputesEnabled {
      var enforced := Enforced(r, s, epoch, ids);
      ResolveFromHistory(r.grace, enforced, IdSet(ids), 1, epoch);
      ExtendsTransitive(s, enforced, ResolveFrom(enforced, IdSet(ids), 1, epoch, r.grace), epoch);
    }
  }

  /** Issuing a ticket that was never issued before. */
  lemma IssuedHistory(grace: int, s: Pipe, s': Pipe, slip: Slip)
    requires Historic(grace, s) && slip.ticket !in s.issued && s'.issued == s.issued[slip.ticket := slip]
    requires s'.promotions == s.promotions && s'.deducted == s.deducted
    requires PendingRecorded(s'.nodes, s.promotions)
    requires forall t :: Passages(s', t) <= Passages(s, t) + One(t == slip.ticket)
    ensures Historic(grace, s')
  {
    hide Passages, PendingRecorded, DeductedRecorded;
    forall t ensures Passages(s', t) <= One(t in s'.issued)
    {
      assert Passages(s, t) <= One(t in s.issued);
    }
    hide Unrepeated;
  }

  lemma ViolateHistory(r: Rules, s: Pipe, id: Id, v: Verdict, condition: string, bps: int, epoch: int, network: int)
    requires Historic(r.grace, s) && Traced(s) && id in s.nodes && v.violated
    ensures Historic(r.grace, Violate(r, s, id, v, condition, bps, epoch, network))
  {
    hide SlashFor, Sum, EntryCounts, EntriesTraced, PendingTraced, DisputesTraced, DeductedRecorded, Graced;
    var s' := Violate(r, s, id, v, condition, bps, epoch, network);
    var slip := Slip(Queued(s.queued), id, SlashFor(r.correlation, s.nodes[id].stake, bps, v.severity, 0, network));
    var e := Entry(slip, condition, v.evidenceHash, v.severity);
    forall t ensures Passages(s', t) <= Passages(s, t) + One(t == slip.ticket)
    {
      EntryCountUpdate(s.batches, epoch, Batch(s, epoch) + [e], t);
      EntriesAppend(Batch(s, epoch), e, t);
    }
    assert PendingRecorded(s'.nodes, s.promotions);
    hide PendingRecorded, Unrepeated, Passages;
    IssuedHistory(r.grace, s, s', slip);
  }

  lemma OpenHistory(grace: int, s: Pipe, challenger: Id, target: Id, bond: int, amount: int, epoch: int)
    requires Historic(grace, s) && Traced(s)
    ensures Historic(grace, OpenDispute(s, challenger, target, bond, amount, epoch))
  {
    hide Sum, EntryCounts, InPending, EntriesTraced, PendingTraced, DeductedRecorded, PendingRecorded, Graced;
    var s' := OpenDispute(s, challenger, target, bond, amount, epoch);
    var slip := Slip(Disputed(s.raised + 1), target, amount);
    forall t ensures Passages(s', t) <= Passages(s, t) + One(t == slip.ticket) { }
    hide Unrepeated, Passages, DisputesTraced;
    IssuedHistory(grace, s, s', slip);
  }

  /** Every step keeps the history sound; only closing an epoch promotes, and dates what it promotes. */
  lemma StepHistory(r: Rules, s: Pipe, step: Step)
    requires Historic(r.grace, s) && Traced(s) && Proper(s, step)
    ensures Historic(r.grace, Take(r, s, step)) && Extends(s, Take(r, s, step), EpochOf(step))
    ensures !step.Close? ==> Take(r, s, step).promotions == s.promotions
  {
    hide Unrepeated, PendingRecorded, DeductedRecorded, Graced, Traced, CloseEpoch, SlashFor;
    match step
    case Violation(id, v, condition, bps, epoch, network) =>
      if v.violated {
        ViolateHistory(r, s, id, v, condition, bps, epoch, network);
      }
    case Close(epoch, ids) => CloseEpochHistory(r, s, epoch, ids);
    case Reverse(ticket) => SameUnrepeated(s, Take(r, s, step));
    case Open(challenger, target, targetStake, bond, amount, epoch) =>
      if MayDispute(targetStake, bond) {
        OpenHistory(r.grace, s, challenger, target, bond, amount, epoch);
      }
    case Ballot(n, stake, inFavour, epoch) =>
      if MayVote(s, n, epoch) {
        DecidedHistory(r.grace, s, n, Voted(s.disputes[n], stake, inFavour));
      }
  }

  lemma {:induction false} RunHistory(init: map<Id, Node>, r: Rules, s: Pipe, steps: seq<Step>)
    requires Sound(init, s) && Historic(r.grace, s)
    ensures Historic(r.grace, Run(r, s, steps)) && s.promotions <= Run(r, s, steps).promotions
    decreases |steps|
  {
    hide Single, Timely, Charged, Traced, Historic, Take;
    if steps != [] {
      if Proper(s, steps[0]) {
        StepSound(init, r, s, steps[0]);
        StepHistory(r, s, steps[0]);
        RunHistory(init, r, Take(r, s, steps[0]), steps[1..]);
      } else {
        RunHistory(init, r, s, steps[1..]);
      }
    }
  }

  lemma OpeningHistory(grace: int, init: map<Id, Node>)
    requires Fresh(init)
    ensures Historic(grace, Opening(init))
  {
    var s := Opening(init);
    forall t ensures Passages(s, t) == 0
    {
      hide Sum;
      SumEmpty<int>();
      assert EntryCounts(map[], t) == map[];
    }
    hide Passages;
  }
}
