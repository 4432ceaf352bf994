/**
 What every run of the slashing pipeline keeps.  Each ticket sits in at most one place: a batch, a
 pending list, an undecided dispute, or the record of deductions.  That one conservation law gives
 "promoted at most once" and "deducted at most once", and makes the stake a closed form.
 */
module SlashingRuns {
  import opened Sums
  import opened SlashAmounts
  import opened Slashing

  // ----- counting the places a ticket occupies

  ghost function One(b: bool): int
  {
    if b then 1 else 0
  }

  ghost function InEntries(es: seq<Entry>, t: Ticket): (n: int)
    ensures n >= 0
  {
    if es == [] then 0 else One(es[0].slip.ticket == t) + InEntries(es[1..], t)
  }

  ghost function InPending(ps: seq<Pending>, t: Ticket): (n: int)
    ensures n >= 0
  {
    if ps == [] then 0 else One(ps[0].slip.ticket == t) + InPending(ps[1..], t)
  }

  lemma {:induction false} EntriesAppend(es: seq<Entry>, e: Entry, t: Ticket)
    ensures InEntries(es + [e], t) == InEntries(es, t) + One(e.slip.ticket == t)
    decreases |es|
  {
    if es == [] {
      assert es + [e] == [e];
      assert InEntries([e], t) == One(e.slip.ticket == t) + InEntries([e][1..], t);
    } else {
      EntriesAppend(es[1..], e, t);
      assert (es + [e])[1..] == es[1..] + [e];
    }
  }

  lemma {:induction false} PendingConcat(ps: seq<Pending>, qs: seq<Pending>, t: Ticket)
    ensures InPending(ps + qs, t) == InPending(ps, t) + InPending(qs, t)
    decreases |ps|
  {
    if ps == [] {
      assert ps + qs == qs;
    } else {
      PendingConcat(ps[1..], qs, t);
      assert (ps + qs)[1..] == ps[1..] + qs;
    }
  }

  lemma PendingOne(p: Pending, t: Ticket)
    ensures InPending([p], t) == One(p.slip.ticket == t)
  {
    assert InPending([p], t) == One(p.slip.ticket == t) + InPending([p][1..], t);
  }

  /** Splitting off the expired slashes loses only the reversed ones. */
  lemma {:induction false} SplitCounts(reversed: set<Ticket>, ps: seq<Pending>, epoch: int, t: Ticket)
    ensures InPending(Remaining(reversed, ps, epoch), t)
        + InPending(Expired(reversed, ps, epoch), t) <= InPending(ps, t)
    decreases |ps|
  {
    if ps != [] {
      SplitCounts(reversed, ps[1..], epoch, t);
      PendingOne(ps[0], t);
      PendingConcat(if Waits(reversed, ps[0], epoch) then [ps[0]] else [], Remaining(reversed, ps[1..], epoch), t);
      PendingConcat(if Due(reversed, ps[0], epoch) then [ps[0]] else [], Expired(reversed, ps[1..], epoch), t);
    }
  }

  lemma {:induction false} SplitMembers(reversed: set<Ticket>, ps: seq<Pending>, epoch: int)
    ensures forall p :: p in Remaining(reversed, ps, epoch) ==> p in ps
    ensures forall p :: p in Expired(reversed, ps, epoch) ==> p in ps && Due(reversed, p, epoch)
    decreases |ps|
  {
    if ps != [] {
      SplitMembers(reversed, ps[1..], epoch);
    }
  }

  ghost function EntryCounts(batches: map<int, seq<Entry>>, t: Ticket): map<int, int>
  {
    map e | e in batches :: InEntries(batches[e], t)
  }

  ghost function PendingCounts(nodes: map<Id, Node>, t: Ticket): map<Id, int>
  {
    map id | id in nodes :: InPending(nodes[id].pending, t)
  }

  ghost predicate Awaits(disputes: map<nat, Dispute>, t: Ticket)
  {
    t.Disputed? && t.n in disputes && disputes[t.n].resolution == Undecided
  }

  /** How many places hold the ticket. */
  ghost function Count(s: Pipe, t: Ticket): int
  {
    Sum(EntryCounts(s.batches, t)) + Sum(PendingCounts(s.nodes, t)) + One(Awaits(s.disputes, t)) + One(t in s.deducted)
  }

  lemma EntryCountUpdate(batches: map<int, seq<Entry>>, e: int, es: seq<Entry>, t: Ticket)
    ensures Sum(EntryCounts(batches[e := es], t)) ==
            Sum(EntryCounts(batches, t)) + InEntries(es, t) - if e in batches then InEntries(batches[e], t) else 0
  {
    hide Sum;
    SumUpdate(EntryCounts(batches, t), e, InEntries(es, t));
    assert EntryCounts(batches[e := es], t) == EntryCounts(batches, t)[e := InEntries(es, t)];
  }

  lemma PendingCountUpdate(nodes: map<Id, Node>, id: Id, node: Node, t: Ticket)
    ensures Sum(PendingCounts(nodes[id := node], t)) ==
            Sum(PendingCounts(nodes, t)) + InPending(node.pending, t) -
                if id in nodes then InPending(nodes[id].pending, t) else 0
  {
    hide Sum;
    SumUpdate(PendingCounts(nodes, t), id, InPending(node.pending, t));
    assert PendingCounts(nodes[id := node], t) == PendingCounts(nodes, t)[id := InPending(node.pending, t)];
  }

  lemma CountsNonNegative(s: Pipe, t: Ticket)
    ensures Sum(EntryCounts(s.batches, t)) >= 0 && Sum(PendingCounts(s.nodes, t)) >= 0
    ensures forall id :: id in s.nodes ==> InPending(s.nodes[id].pending, t) <= Sum(PendingCounts(s.nodes, t))
  {
    hide Sum;
    forall e | e in s.batches ensures EntryCounts(s.batches, t)[e] >= 0
    {
      assert InEntries(s.batches[e], t) >= 0;
    }
    SumNonNegative(EntryCounts(s.batches, t));
    SumNonNegative(PendingCounts(s.nodes, t));
    forall id | id in s.nodes
      ensures InPending(s.nodes[id].pending, t) <= Sum(PendingCounts(s.nodes, t))
    {
      SumMember(PendingCounts(s.nodes, t), id);
    }
  }

  // ----- the invariant

  /** No ticket occupies two places, and none occupies any before it is issued. */
  ghost predicate Single(s: Pipe)
  {
    forall t :: Count(s, t) <= One(t in s.issued)
  }

  predicate Matches(issued: map<Ticket, Slip>, slip: Slip)
  {
    slip.ticket in issued && issued[slip.ticket] == slip
  }

  /** Every slip in the pipeline is the one that was issued: same node, same amount. */
  ghost predicate EntriesTraced(batches: map<int, seq<Entry>>, issued: map<Ticket, Slip>)
  {
    forall e, i :: e in batches && 0 <= i < |batches[e]| ==> Matches(issued, batches[e][i].slip)
  }

  ghost predicate PendingTraced(nodes: map<Id, Node>, issued: map<Ticket, Slip>)
  {
    forall id, i :: id in nodes && 0 <= i < |nodes[id].pending| ==>
      nodes[id].pending[i].slip.node == id && Matches(issued, nodes[id].pending[i].slip)
  }

  ghost predicate DisputesTraced(disputes: map<nat, Dispute>, issued: map<Ticket, Slip>, raised: nat)
  {
    forall n :: n in disputes ==>
        1 <= n <= raised && Matches(issued, Slip(Disputed(n), disputes[n].target, disputes[n].amount))
  }

  ghost predicate InOrder(issued: map<Ticket, Slip>, queued: nat, raised: nat)
  {
    forall t :: t in issued ==> issued[t].amount >= 0 && if t.Queued? then t.n < queued else t.n <= raised
  }

  ghost predicate Traced(s: Pipe)
  {
    && EntriesTraced(s.batches, s.issued) && PendingTraced(s.nodes, s.issued)
    && DisputesTraced(s.disputes, s.issued, s.raised) && InOrder(s.issued, s.queued, s.raised)
  }

  /** The amounts deducted from one node, by ticket. */
  ghost function ChargedTo(deducted: map<Ticket, Deduction>, id: Id): map<Ticket, int>
  {
    map t | t in deducted && deducted[t].pending.slip.node == id :: deducted[t].pending.slip.amount
  }

  /** Each deduction is of the amount issued and was made once the grace period was over. */
  ghost predicate Timely(deducted: map<Ticket, Deduction>, issued: map<Ticket, Slip>)
  {
    forall t :: t in deducted ==>
      var d := deducted[t];
      d.pending.slip.ticket == t && Matches(issued, d.pending.slip) && d.epoch >= d.pending.created + d.pending.grace
  }

  /** A node's stake is its opening stake less all its deductions, floored at zero; its total takes them in full. */
  ghost predicate StakeOf(opening: Node, node: Node, deductions: int)
  {
    && opening.stake >= 0
    && node.stake == Max(0, opening.stake - deductions)
    && node.totalSlashed == opening.totalSlashed + deductions
  }

  ghost predicate Charged(init: map<Id, Node>, nodes: map<Id, Node>, deducted: map<Ticket, Deduction>)
  {
    nodes.Keys == init.Keys && forall id :: id in nodes ==> StakeOf(init[id], nodes[id], Sum(ChargedTo(deducted, id)))
  }

  ghost predicate Sound(init: map<Id, Node>, s: Pipe)
  {
    Single(s) && Traced(s) && Timely(s.deducted, s.issued) && Charged(init, s.nodes, s.deducted)
  }

  // ----- moves between places

  /** Replace a node without touching what it is charged, its pending list losing tickets at most. */
  lemma NodeReplaced(init: map<Id, Node>, s: Pipe, id: Id, node: Node)
    requires Sound(init, s) && id in s.nodes
    requires node.stake == s.nodes[id].stake && node.totalSlashed == s.nodes[id].totalSlashed
    requires forall t :: InPending(node.pending, t) <= InPending(s.nodes[id].pending, t)
    requires forall p :: p in node.pending ==> p in s.nodes[id].pending
    ensures Sound(init, s.(nodes := s.nodes[id := node]))
  {
    hide Sum, InPending, PendingCounts, EntryCounts, ChargedTo, EntriesTraced, DisputesTraced, InOrder, Timely;
    var s' := s.(nodes := s.nodes[id := node]);
    assert Single(s') by {
      hide Charged, PendingTraced;
      forall t ensures Count(s', t) <= One(t in s'.issued)
      {
        assert Count(s, t) <= One(t in s.issued);
        PendingCountUpdate(s.nodes, id, node, t);
      }
    }
    assert Charged(init, s'.nodes, s'.deducted) by { hide Single, PendingTraced; }
    assert PendingTraced(s'.nodes, s'.issued) by {
      hide Single, Charged;
      forall i | 0 <= i < |node.pending|
        ensures node.pending[i].slip.node == id && Matches(s.issued, node.pending[i].slip)
      {
        assert node.pending[i] in s.nodes[id].pending;
      }
    }
  }

  /** The first entry of a batch leaves it. */
  lemma Dropped(init: map<Id, Node>, s: Pipe, epoch: int)
    requires Sound(init, s) && epoch in s.batches && s.batches[epoch] != []
    ensures Sound(init, s.(batches := s.batches[epoch := s.batches[epoch][1..]]))
  {
    hide Sum, EntryCounts, PendingCounts, PendingTraced, DisputesTraced, InOrder, Timely, Charged;
    var s' := s.(batches := s.batches[epoch := s.batches[epoch][1..]]);
    assert Single(s') by {
      hide EntriesTraced;
      forall t ensures Count(s', t) <= One(t in s'.issued)
      {
        assert Count(s, t) <= One(t in s.issued);
        EntryCountUpdate(s.batches, epoch, s.batches[epoch][1..], t);
      }
    }
  }

  /** A ticket that no place holds may become a pending slash of its node. */
  lemma Admitted(init: map<Id, Node>, s: Pipe, p: Pending)
    requires Sound(init, s) && p.slip.node in s.nodes && Matches(s.issued, p.slip) && Count(s, p.slip.ticket) <= 0
    ensures Sound(init, AddPending(s, p))
  {
    hide Sum, InPending, PendingCounts, EntryCounts, ChargedTo, EntriesTraced, DisputesTraced, InOrder, Timely;
    var s' := AddPending(s, p);
    var id := p.slip.node;
    assert Single(s') by {
      hide Charged, PendingTraced;
      forall t ensures Count(s', t) <= One(t in s'.issued)
      {
        assert Count(s, t) <= One(t in s.issued);
        PendingCountUpdate(s.nodes, id, s'.nodes[id], t);
        PendingConcat(s.nodes[id].pending, [p], t);
        PendingOne(p, t);
      }
    }
    assert Charged(init, s'.nodes, s'.deducted) by { hide Single, PendingTraced; }
    assert PendingTraced(s'.nodes, s'.issued) by { hide Single, Charged; }
  }

  /** Taking the first entry out of its batch frees its ticket. */
  lemma Freed(s: Pipe, epoch: int)
    requires Single(s) && epoch in s.batches && s.batches[epoch] != []
    ensures Count(s.(batches := s.batches[epoch := s.batches[epoch][1..]]), s.batches[epoch][0].slip.ticket) <= 0
  {
    hide Sum, EntryCounts, PendingCounts;
    var t := s.batches[epoch][0].slip.ticket;
    assert Count(s, t) <= One(t in s.issued);
    EntryCountUpdate(s.batches, epoch, s.batches[epoch][1..], t);
  }

  /** A queued entry becomes a pending slash. */
  lemma Promoted(init: map<Id, Node>, s: Pipe, epoch: int, p: Pending)
    requires Sound(init, s) && epoch in s.batches && s.batches[epoch] != []
    requires p.slip == s.batches[epoch][0].slip && p.slip.node in s.nodes
    ensures Sound(init, AddPending(s.(batches := s.batches[epoch := s.batches[epoch][1..]]), p))
  {
    hide Single, Count, PendingTraced, DisputesTraced, InOrder, Timely, Charged;
    Dropped(init, s, epoch);
    Freed(s, epoch);
    assert Matches(s.issued, s.batches[epoch][0].slip);
    hide EntriesTraced, AddPending;
    Admitted(init, s.(batches := s.batches[epoch := s.batches[epoch][1..]]), p);
  }

  /** An empty batch and a missing one hold the same tickets. */
  lemma EmptyBatch(init: map<Id, Node>, s: Pipe, epoch: int)
    requires epoch !in s.batches
    ensures Sound(init, s.(batches := s.batches[epoch := []])) <==> Sound(init, s)
  {
    hide Sum, EntryCounts, PendingCounts, PendingTraced, DisputesTraced, InOrder, Timely, Charged;
    var s' := s.(batches := s.batches[epoch := []]);
    assert Single(s') <==> Single(s) by {
      forall t ensures Count(s', t) == Count(s, t)
      {
        EntryCountUpdate(s.batches, epoch, [], t);
      }
      assert forall t :: Count(s', t) <= One(t in s.issued) <==> Count(s, t) <= One(t in s.issued);
    }
    assert EntriesTraced(s'.batches, s.issued) <==> EntriesTraced(s.batches, s.issued) by {
      hide Count;
      assert forall e :: e in s.batches ==> s'.batches[e] == s.batches[e];
    }
  }

  // ----- deducting

  /** A pending ticket has not been deducted. */
  lemma NotYetDeducted(s: Pipe, id: Id, i: nat)
    requires Single(s) && id in s.nodes && i < |s.nodes[id].pending|
    ensures s.nodes[id].pending[i].slip.ticket !in s.deducted
  {
    hide Sum, EntryCounts, PendingCounts;
    var t := s.nodes[id].pending[i].slip.ticket;
    assert Count(s, t) <= One(t in s.issued);
    CountsNonNegative(s, t);
    Present(s.nodes[id].pending, i);
  }

  lemma {:induction false} Present(ps: seq<Pending>, i: nat)
    requires i < |ps|
    ensures InPending(ps, ps[i].slip.ticket) >= 1
    decreases i
  {
    if i > 0 {
      Present(ps[1..], i - 1);
    }
  }

  lemma ChargedMore(deducted: map<Ticket, Deduction>, t: Ticket, d: Deduction, id: Id)
    requires t !in deducted
    ensures Sum(ChargedTo(deducted[t := d], id)) ==
            Sum(ChargedTo(deducted, id)) + if d.pending.slip.node == id then d.pending.slip.amount else 0
  {
    hide Sum;
    if d.pending.slip.node == id {
      SumUpdate(ChargedTo(deducted, id), t, d.pending.slip.amount);
      assert ChargedTo(deducted[t := d], id) == ChargedTo(deducted, id)[t := d.pending.slip.amount];
    } else {
      assert ChargedTo(deducted[t := d], id) == ChargedTo(deducted, id);
    }
  }

  lemma DeductedSingle(s: Pipe, id: Id, keep: seq<Pending>, p: Pending, rest: seq<Pending>, epoch: int)
    requires Single(s) && id in s.nodes && s.nodes[id].pending == keep + [p] + rest && p.slip.ticket !in s.deducted
    ensures Single(Deduct(Keep(s, id, keep + rest), id, p, epoch))
  {
    hide Sum, InPending, PendingCounts, EntryCounts;
    var s' := Deduct(Keep(s, id, keep + rest), id, p, epoch);
    assert s'.nodes == s.nodes[id := s'.nodes[id]];
    forall t ensures Count(s', t) <= One(t in s'.issued)
    {
      assert Count(s, t) <= One(t in s.issued);
      PendingCountUpdate(s.nodes, id, s'.nodes[id], t);
      PendingConcat(keep + [p], rest, t);
      PendingConcat(keep, [p], t);
      PendingConcat(keep, rest, t);
      PendingOne(p, t);
      assert One(t in s'.deducted) == One(t in s.deducted) + One(p.slip.ticket == t);
    }
  }

  lemma DeductedTraced(s: Pipe, id: Id, keep: seq<Pending>, p: Pending, rest: seq<Pending>, epoch: int)
    requires Traced(s) && Timely(s.deducted, s.issued)
    requires id in s.nodes && s.nodes[id].pending == keep + [p] + rest && epoch >= p.created + p.grace
    ensures Matches(s.issued, p.slip) && p.slip.node == id && p.slip.amount >= 0
    ensures var s' := Deduct(Keep(s, id, keep + rest), id, p, epoch); Traced(s') && Timely(s'.deducted, s'.issued)
  {
    hide EntriesTraced, DisputesTraced;
    var s' := Deduct(Keep(s, id, keep + rest), id, p, epoch);
    assert s.nodes[id].pending[|keep|] == p;
    assert PendingTraced(s'.nodes, s'.issued) by {
      hide InOrder, Timely;
      forall i | 0 <= i < |keep + rest|
        ensures (keep + rest)[i].slip.node == id && Matches(s.issued, (keep + rest)[i].slip)
      {
        assert (keep + rest)[i] == s.nodes[id].pending[if i < |keep| then i else i + 1];
      }
    }
  }

  lemma DeductedCharged(init: map<Id, Node>, s: Pipe, id: Id, ps: seq<Pending>, p: Pending, epoch: int)
    requires Charged(init, s.nodes, s.deducted) && id in s.nodes && p.slip.ticket !in s.deducted
    requires p.slip.node == id && p.slip.amount >= 0
    ensures var s' := Deduct(Keep(s, id, ps), id, p, epoch); Charged(init, s'.nodes, s'.deducted)
  {
    hide Sum, ChargedTo;
    var s' := Deduct(Keep(s, id, ps), id, p, epoch);
    forall other | other in s'.nodes
      ensures StakeOf(init[other], s'.nodes[other], Sum(ChargedTo(s'.deducted, other)))
    {
      assert StakeOf(init[other], s.nodes[other], Sum(ChargedTo(s.deducted, other)));
      ChargedMore(s.deducted, p.slip.ticket, Deduction(p, epoch), other);
    }
  }

  /** The pending slash at the head of `rest` leaves the list and is deducted. */
  lemma Deducted(init: map<Id, Node>, s: Pipe, id: Id, keep: seq<Pending>, p: Pending, rest: seq<Pending>, epoch: int)
    requires Sound(init, s) && id in s.nodes && s.nodes[id].pending == keep + [p] + rest
    requires epoch >= p.created + p.grace
    ensures p.slip.ticket !in s.deducted
    ensures Sound(init, Deduct(Keep(s, id, keep + rest), id, p, epoch))
  {
    hide Single, Traced, Timely, Charged, Deduct;
    assert s.nodes[id].pending[|keep|] == p;
    NotYetDeducted(s, id, |keep|);
    DeductedSingle(s, id, keep, p, rest, epoch);
    DeductedTraced(s, id, keep, p, rest, epoch);
    DeductedCharged(init, s, id, keep + rest, p, epoch);
  }

  // ----- what a step may do to the record

  /**
   Deductions are permanent; new ones carry the closing epoch and were not reversed before the step;
   reversals and issued slips stay.
   */
  ghost predicate Later(s: Pipe, s': Pipe, epoch: int)
  {
    && s.reversed <= s'.reversed
    && (forall t :: t in s.issued ==> t in s'.issued && s'.issued[t] == s.issued[t])
    && (forall t :: t in s.deducted ==> t in s'.deducted && s'.deducted[t] == s.deducted[t])
    && (forall t :: t in s'.deducted && t !in s.deducted ==> s'.deducted[t].epoch == epoch && t !in s.reversed)
  }

  lemma LaterTransitive(s: Pipe, m: Pipe, s': Pipe, epoch: int)
    requires Later(s, m, epoch) && Later(m, s', epoch)
    ensures Later(s, s', epoch)
  {
    forall t | t in s'.deducted && t !in s.deducted
      ensures s'.deducted[t].epoch == epoch && t !in s.reversed
    {
      if t in m.deducted {
        assert s'.deducted[t] == m.deducted[t];
      }
    }
  }

  // ----- closing an epoch

  ghost function WithBatch(s: Pipe, epoch: int, entries: seq<Entry>): Pipe
  {
    s.(batches := s.batches[epoch := entries])
  }

  lemma {:induction false} CreateAllSound(
      init: map<Id, Node>, s: Pipe, listed: set<Id>, entries: seq<Entry>, epoch: int, grace: int)
    requires listed <= s.nodes.Keys && Sound(init, WithBatch(s, epoch, entries))
    ensures var s' := CreateAll(s, listed, entries, epoch, grace);
            && Sound(init, WithBatch(s', epoch, []))
            && s'.deducted == s.deducted && s'.issued == s.issued && s'.disputes == s.disputes && s'.raised == s.raised
    decreases |entries|
  {
    hide Sound, Matches;
    if entries != [] {
      var e := entries[0];
      var p := Pending(e.slip, TierOf(e.severity), epoch, grace);
      var before := WithBatch(s, epoch, entries);
      assert before.batches[epoch := entries[1..]] == s.batches[epoch := entries[1..]];
      if e.slip.node in listed {
        Promoted(init, before, epoch, p);
        assert AddPending(before.(batches := before.batches[epoch := entries[1..]]), p)
            == WithBatch(AddPending(s, p), epoch, entries[1..]);
        CreateAllSound(init, AddPending(s, p), listed, entries[1..], epoch, grace);
      } else {
        Dropped(init, before, epoch);
        CreateAllSound(init, s, listed, entries[1..], epoch, grace);
      }
    }
  }

  lemma DrainSound(init: map<Id, Node>, s: Pipe, listed: set<Id>, epoch: int, grace: int)
    requires listed <= s.nodes.Keys && Sound(init, s)
    ensures var s' := CreateAll(s.(batches := s.batches - {epoch}), listed, Batch(s, epoch), epoch, grace);
            Sound(init, s') && Later(s, s', epoch)
  {
    hide Sound;
    var drained := s.(batches := s.batches - {epoch});
    if epoch in s.batches {
      assert WithBatch(drained, epoch, Batch(s, epoch)).batches == s.batches;
      assert WithBatch(drained, epoch, Batch(s, epoch)) == s;
    } else {
      assert drained.batches == s.batches;
      EmptyBatch(init, s, epoch);
    }
    CreateAllSound(init, drained, listed, Batch(s, epoch), epoch, grace);
    var s' := CreateAll(drained, listed, Batch(s, epoch), epoch, grace);
    EmptyBatch(init, s', epoch);
  }

  lemma DueDated(reversed: set<Ticket>, p: Pending, epoch: int)
    requires Due(reversed, p, epoch)
    ensures epoch >= p.created + p.grace
  {
  }

  /** The first of the due slashes is deducted. */
  lemma DeductHead(init: map<Id, Node>, s: Pipe, id: Id, ps: seq<Pending>, epoch: int)
    requires id in s.nodes && ps != [] && Due(s.reversed, ps[0], epoch)
    requires Sound(init, Keep(s, id, s.nodes[id].pending + ps))
    ensures var next := Deduct(s, id, ps[0], epoch);
            && Sound(init, Keep(next, id, next.nodes[id].pending + ps[1..]))
            && Later(s, next, epoch) && |next.deducted| == |s.deducted| + 1
  {
    hide Sound, Later, Due;
    var p, rest, keep := ps[0], ps[1..], s.nodes[id].pending;
    var before := Keep(s, id, keep + ps);
    assert keep + ps == keep + [p] + rest;
    assert epoch >= p.created + p.grace by { DueDated(s.reversed, p, epoch); }
    Deducted(init, before, id, keep, p, rest, epoch);
    var next := Deduct(s, id, p, epoch);
    assert Deduct(Keep(before, id, keep + rest), id, p, epoch).nodes == Keep(next, id, keep + rest).nodes;
    DeductLater(s, id, p, epoch);
  }

  lemma DeductLater(s: Pipe, id: Id, p: Pending, epoch: int)
    requires id in s.nodes && p.slip.ticket !in s.deducted && Due(s.reversed, p, epoch)
    ensures Later(s, Deduct(s, id, p, epoch), epoch) && |Deduct(s, id, p, epoch).deducted| == |s.deducted| + 1
  {
  }

  lemma {:induction false} DeductAllSound(
      init: map<Id, Node>, s: Pipe, id: Id, ps: seq<Pending>, epoch: int)
    requires id in s.nodes && Sound(init, Keep(s, id, s.nodes[id].pending + ps))
    requires forall p :: p in ps ==> Due(s.reversed, p, epoch)
    ensures Sound(init, DeductAll(s, id, ps, epoch)) && Later(s, DeductAll(s, id, ps, epoch), epoch)
    ensures |DeductAll(s, id, ps, epoch).deducted| == |s.deducted| + |ps|
    decreases |ps|
  {
    hide Sound, Later, Due;
    if ps == [] {
      assert s.nodes[id].pending + ps == s.nodes[id].pending;
      assert Keep(s, id, s.nodes[id].pending).nodes == s.nodes;
      SameLater(s, epoch);
    } else {
      assert ps[0] in ps;
      DeductHead(init, s, id, ps, epoch);
      var next := Deduct(s, id, ps[0], epoch);
      DeductAllSound(init, next, id, ps[1..], epoch);
      LaterTransitive(s, next, DeductAll(next, id, ps[1..], epoch), epoch);
    }
  }

  lemma SameLater(s: Pipe, epoch: int)
    ensures Later(s, s, epoch)
  {
  }

  lemma CloseNodeSound(init: map<Id, Node>, s: Pipe, id: Id, epoch: int)
    requires Sound(init, s) && id in s.nodes
    ensures Sound(init, CloseNode(s, id, epoch)) && Later(s, CloseNode(s, id, epoch), epoch)
    ensures |CloseNode(s, id, epoch).deducted| == |s.deducted| + |Expired(s.reversed, s.nodes[id].pending, epoch)|
  {
    hide Sound, Later;
    var ps := s.nodes[id].pending;
    var keep, due := Remaining(s.reversed, ps, epoch), Expired(s.reversed, ps, epoch);
    SplitMembers(s.reversed, ps, epoch);
    forall t ensures InPending(keep + due, t) <= InPending(ps, t)
    {
      PendingConcat(keep, due, t);
      SplitCounts(s.reversed, ps, epoch, t);
    }
    NodeReplaced(init, s, id, s.nodes[id].(pending := keep + due));
    var kept := Keep(s, id, keep);
    assert Keep(kept, id, keep + due).nodes == s.nodes[id := s.nodes[id].(pending := keep + due)];
    DeductAllSound(init, kept, id, due, epoch);
    KeepLater(s, kept, DeductAll(kept, id, due, epoch), epoch);
  }

  /** Only the histories matter to `Later`. */
  lemma KeepLater(s: Pipe, m: Pipe, s': Pipe, epoch: int)
    requires m.deducted == s.deducted && m.issued == s.issued && m.reversed == s.reversed
    ensures Later(m, s', epoch) <==> Later(s, s', epoch)
    ensures Later(s', m, epoch) <==> Later(s', s, epoch)
  {
  }

  lemma {:induction false} CloseNodesSound(init: map<Id, Node>, s: Pipe, ids: seq<Id>, epoch: int)
    requires Sound(init, s) && Known(s, ids)
    ensures Sound(init, CloseNodes(s, ids, epoch)) && Later(s, CloseNodes(s, ids, epoch), epoch)
    decreases |ids|
  {
    hide Sound, Later, CloseNode;
    if ids == [] {
      SameLater(s, epoch);
    } else {
      var next := CloseNode(s, ids[0], epoch);
      CloseNodeSound(init, s, ids[0], epoch);
      CloseNodesSound(init, next, ids[1..], epoch);
      LaterTransitive(s, next, CloseNodes(next, ids[1..], epoch), epoch);
    }
  }

  lemma {:induction false} EvictNodesSound(init: map<Id, Node>, s: Pipe, ids: seq<Id>, threshold: int)
    requires Sound(init, s) && Known(s, ids)
    ensures var s' := EvictNodes(s, ids, threshold);
            && Sound(init, s') && s'.deducted == s.deducted && s'.issued == s.issued
            && s'.disputes == s.disputes && s'.raised == s.raised
    decreases |ids|
  {
    hide Sound;
    if ids != [] {
      var node := s.nodes[ids[0]];
      if node.offenses >= threshold {
        NodeReplaced(init, s, ids[0], node.(evicted := true));
      }
      EvictNodesSound(init, EvictNode(s, ids[0], threshold), ids[1..], threshold);
    }
  }

  /** A dispute is decided, which frees its ticket. */
  lemma Decided(init: map<Id, Node>, s: Pipe, n: nat, d: Dispute)
    requires Sound(init, s) && n in s.disputes && s.disputes[n].resolution == Undecided
    requires d.target == s.disputes[n].target && d.amount == s.disputes[n].amount
    ensures var s' := s.(disputes := s.disputes[n := d]);
            && Sound(init, s') && (d.resolution != Undecided ==> Count(s', Disputed(n)) <= 0)
  {
    hide Sum, EntryCounts, PendingCounts, EntriesTraced, PendingTraced, InOrder, Timely, Charged;
    var s' := s.(disputes := s.disputes[n := d]);
    forall t ensures Count(s', t) <= Count(s, t) && Count(s', t) <= One(t in s'.issued)
    {
      assert Count(s, t) <= One(t in s.issued);
    }
    assert Count(s, Disputed(n)) <= One(Disputed(n) in s.issued);
  }

  lemma ResolveOneSound(init: map<Id, Node>, s: Pipe, listed: set<Id>, n: nat, epoch: int, grace: int)
    requires Sound(init, s) && listed <= s.nodes.Keys
    ensures var s' := ResolveOne(s, listed, n, epoch, grace);
            Sound(init, s') && s'.deducted == s.deducted && s'.issued == s.issued && s'.raised == s.raised
  {
    hide Single, Count, EntriesTraced, PendingTraced, InOrder, Timely, Charged;
    if n in s.disputes && CanResolve(s.disputes[n], epoch) {
      var d := s.disputes[n];
      Decided(init, s, n, Resolved(d, epoch));
      if Decision(d) == Upheld && d.target in listed {
        Admitted(init, s.(disputes := s.disputes[n := Resolved(d, epoch)]),
                 Pending(Slip(Disputed(n), d.target, d.amount), Major, epoch, grace));
      }
    }
  }

  lemma {:induction false} ResolveFromSound(init: map<Id, Node>, s: Pipe, listed: set<Id>, n: nat, epoch: int,
      grace: int)
    requires Sound(init, s) && listed <= s.nodes.Keys
    ensures var s' := ResolveFrom(s, listed, n, epoch, grace);
            Sound(init, s') && s'.deducted == s.deducted && s'.issued == s.issued
    decreases s.raised + 1 - n
  {
    hide Sound, ResolveOne;
    if n <= s.raised {
      ResolveOneSound(init, s, listed, n, epoch, grace);
      ResolveFromSound(init, ResolveOne(s, listed, n, epoch, grace), listed, n + 1, epoch, grace);
    }
  }

  lemma ListedKnown(s: Pipe, ids: seq<Id>)
    requires Known(s, ids)
    ensures IdSet(ids) <= s.nodes.Keys
  {
  }

  lemma CloseEpochSound(init: map<Id, Node>, r: Rules, s: Pipe, epoch: int, ids: seq<Id>)
    requires Sound(init, s) && Known(s, ids)
    ensures Sound(init, CloseEpoch(r, s, epoch, ids)) && Later(s, CloseEpoch(r, s, epoch, ids), epoch)
  {
    hide Sound, Later, CloseNodes, EvictNodes, ResolveFrom, CreateAll, Batch;
    ListedKnown(s, ids);
    var listed := IdSet(ids);
    var created := CreateAll(s.(batches := s.batches - {epoch}), listed, Batch(s, epoch), epoch, r.grace);
    DrainSound(init, s, listed, epoch, r.grace);
    var closed := CloseNodes(created, ids, epoch);
    CloseNodesSound(init, created, ids, epoch);
    LaterTransitive(s, created, closed, epoch);
    var evicted := EvictNodes(closed, ids, r.evictionThreshold);
    EvictNodesSound(init, closed, ids, r.evictionThreshold);
    KeepLater(closed, evicted, s, epoch);
    if r.disputesEnabled {
      ResolveFromSound(init, evicted, listed, 1, epoch, r.grace);
      KeepLater(evicted, ResolveFrom(evicted, listed, 1, epoch, r.grace), s, epoch);
    }
  }

  // ----- issuing

  lemma EntryIssued(s: Pipe, epoch: int, e: Entry)
    requires Single(s) && e.slip.ticket !in s.issued
    ensures Single(s.(batches := s.batches[epoch := Batch(s, epoch) + [e]],
        issued := s.issued[e.slip.ticket := e.slip]))
  {
    hide Sum, EntryCounts, PendingCounts;
    var s' := s.(batches := s.batches[epoch := Batch(s, epoch) + [e]], issued := s.issued[e.slip.ticket := e.slip]);
    forall t ensures Count(s', t) <= One(t in s'.issued)
    {
      assert Count(s, t) <= One(t in s.issued);
      EntryCountUpdate(s.batches, epoch, Batch(s, epoch) + [e], t);
      EntriesAppend(Batch(s, epoch), e, t);
    }
  }

  /** Issuing a new ticket disturbs no slip already traced. */
  lemma TracedIssued(s: Pipe, slip: Slip)
    requires Traced(s) && Timely(s.deducted, s.issued) && slip.ticket !in s.issued
    ensures var issued := s.issued[slip.ticket := slip];
            && EntriesTraced(s.batches, issued) && PendingTraced(s.nodes, issued)
            && DisputesTraced(s.disputes, issued, s.raised) && Timely(s.deducted, issued)
  {
    var issued := s.issued[slip.ticket := slip];
    assert EntriesTraced(s.batches, issued) by { hide PendingTraced, DisputesTraced, Timely; }
    assert PendingTraced(s.nodes, issued) by { hide EntriesTraced, DisputesTraced, Timely; }
  }

  lemma ViolateSound(init: map<Id, Node>, r: Rules, s: Pipe, id: Id, v: Verdict, condition: string, bps: int,
      epoch: int, network: int)
    requires Sound(init, s) && id in s.nodes && 0 <= bps <= 10000
    ensures Sound(init, Violate(r, s, id, v, condition, bps, epoch, network))
  {
    hide Sum, SlashFor, Count, ChargedTo, PendingTraced, DisputesTraced, Timely;
    if v.violated {
      var node := s.nodes[id];
      assert node.stake >= 0 by { assert StakeOf(init[id], node, Sum(ChargedTo(s.deducted, id))); }
      BaseApplies(r.correlation, node.stake, bps, v.severity, network);
      var slip := Slip(Queued(s.queued), id, SlashFor(r.correlation, node.stake, bps, v.severity, 0, network));
      var e := Entry(slip, condition, v.evidenceHash, v.severity);
      hide Single, Charged;
      TracedIssued(s, slip);
      EntryIssued(s, epoch, e);
      var queued := s.(batches := s.batches[epoch := Batch(s, epoch) + [e]], issued := s.issued[slip.ticket := slip],
          queued := s.queued + 1);
      assert Single(queued) by { SameCounts(s.(batches := queued.batches, issued := queued.issued), queued); }
      assert EntriesTraced(queued.batches, queued.issued) by { hide InOrder; }
      assert InOrder(queued.issued, queued.queued, queued.raised) by { hide EntriesTraced; }
      hide EntriesTraced, InOrder;
      NodeReplaced(init, queued, id, node.(offenses := node.offenses + 1, cleanEpochs := 0));
    }
  }

  lemma SameCounts(s: Pipe, s': Pipe)
    requires Single(s) && s'.batches == s.batches && s'.nodes == s.nodes && s'.disputes == s.disputes
    requires s'.deducted == s.deducted && s'.issued == s.issued
    ensures Single(s')
  {
    hide Sum;
    forall t ensures Count(s', t) <= One(t in s'.issued)
    {
      assert Count(s, t) <= One(t in s.issued);
    }
  }

  lemma DisputeIssued(s: Pipe, n: nat, d: Dispute)
    requires Single(s) && Disputed(n) !in s.issued
    ensures Single(s.(disputes := s.disputes[n := d],
        issued := s.issued[Disputed(n) := Slip(Disputed(n), d.target, d.amount)]))
  {
    hide Sum, EntryCounts, PendingCounts;
    var s' := s.(disputes := s.disputes[n := d],
        issued := s.issued[Disputed(n) := Slip(Disputed(n), d.target, d.amount)]);
    forall t ensures Count(s', t) <= One(t in s'.issued)
    {
      assert Count(s, t) <= One(t in s.issued);
    }
  }

  lemma OpenSound(init: map<Id, Node>, s: Pipe, challenger: Id, target: Id, bond: int, amount: int, epoch: int)
    requires Sound(init, s) && amount >= 0
    ensures Sound(init, OpenDispute(s, challenger, target, bond, amount, epoch))
  {
    hide Single, EntriesTraced, PendingTraced, Timely, Charged;
    var s' := OpenDispute(s, challenger, target, bond, amount, epoch);
    var n := s.raised + 1;
    TracedIssued(s, Slip(Disputed(n), target, amount));
    DisputeIssued(s, n, s'.disputes[n]);
    SameCounts(s.(disputes := s'.disputes, issued := s'.issued), s');
    assert DisputesTraced(s'.disputes, s'.issued, s'.raised) by { hide InOrder; }
    assert InOrder(s'.issued, s'.queued, s'.raised) by { hide DisputesTraced; }
  }

  // ----- runs

  function EpochOf(step: Step): int
  {
    if step.Reverse? then 0 else step.epoch
  }

  /** Every step keeps the invariant, and only closing an epoch deducts. */
  lemma StepSound(init: map<Id, Node>, r: Rules, s: Pipe, step: Step)
    requires Sound(init, s) && Proper(s, step)
    ensures Sound(init, Take(r, s, step)) && Later(s, Take(r, s, step), EpochOf(step))
    ensures !step.Close? ==> Take(r, s, step).deducted == s.deducted
  {
    hide Single, EntriesTraced, PendingTraced, DisputesTraced, Timely, Charged, CloseEpoch, SlashFor;
    match step
    case Violation(id, v, condition, bps, epoch, network) => ViolateSound(init, r, s, id, v, condition, bps, epoch,
        network);
    case Close(epoch, ids) => CloseEpochSound(init, r, s, epoch, ids);
    case Reverse(ticket) => SameCounts(s, Take(r, s, step));
    case Open(challenger, target, targetStake, bond, amount, epoch) =>
      if MayDispute(targetStake, bond) {
        OpenSound(init, s, challenger, target, bond, amount, epoch);
      }
    case Ballot(n, stake, inFavour, epoch) =>
      if MayVote(s, n, epoch) {
        Decided(init, s, n, Voted(s.disputes[n], stake, inFavour));
      }
  }

  /** A run; a step on a node nobody knows is no step. */
  ghost function Run(r: Rules, s: Pipe, steps: seq<Step>): Pipe
    decreases |steps|
  {
    if steps == [] then s
    else Run(r, if Proper(s, steps[0]) then Take(r, s, steps[0]) else s, steps[1..])
  }

  ghost predicate Fresh(init: map<Id, Node>)
  {
    forall id :: id in init ==> init[id].stake >= 0 && init[id].pending == []
  }

  function Opening(init: map<Id, Node>): Pipe
  {
    Pipe(init, map[], map[], {}, 0, 0, map[], [], map[])
  }

  lemma OpeningSound(init: map<Id, Node>)
    requires Fresh(init)
    ensures Sound(init, Opening(init))
  {
    var s := Opening(init);
    forall t ensures Count(s, t) == 0
    {
      hide Sum;
      SumEmpty<int>();
      assert EntryCounts(map[], t) == map[];
      SumZero(PendingCounts(init, t));
    }
    hide Sum;
    SumEmpty<Ticket>();
    forall id ensures ChargedTo(map[], id) == map[] { }
  }

  lemma SumZero(m: map<Id, int>)
    requires forall k :: k in m ==> m[k] == 0
    ensures Sum(m) == 0
  {
    hide Sum;
    var none: map<Id, int> := map[];
    SumEmpty<Id>();
    SumMonotone(none, m);
    SumMonotone(m, map k | k in m :: 0);
    SumZeros(m.Keys);
  }

  lemma {:induction false} SumZeros(keys: set<Id>)
    ensures Sum(map k | k in keys :: 0) == 0
    decreases |keys|
  {
    hide Sum;
    var m := map k | k in keys :: 0;
    if keys == {} {
      assert m == map[];
      SumEmpty<Id>();
    } else {
      var k :| k in keys;
      SumRemove(m, k);
      assert m - {k} == map j | j in keys - {k} :: 0;
      SumZeros(keys - {k});
    }
  }

  /** Over any run the invariant holds and the record only grows. */
  lemma {:induction false} RunSound(init: map<Id, Node>, r: Rules, s: Pipe, steps: seq<Step>)
    requires Sound(init, s)
    ensures Sound(init, Run(r, s, steps)) && s.reversed <= Run(r, s, steps).reversed
    ensures forall t :: t in s.deducted ==>
        t in Run(r, s, steps).deducted && Run(r, s, steps).deducted[t] == s.deducted[t]
    ensures forall t :: t in s.reversed && t !in s.deducted ==> t !in Run(r, s, steps).deducted
    decreases |steps|
  {
    hide Sound, Take;
    if steps != [] {
      if Proper(s, steps[0]) {
        StepSound(init, r, s, steps[0]);
        RunSound(init, r, Take(r, s, steps[0]), steps[1..]);
      } else {
        RunSound(init, r, s, steps[1..]);
      }
    }
  }
}
