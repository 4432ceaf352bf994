/** What the slashing pipeline promises over whole runs. */
module SlashingLaws {
  import opened Sums
  import opened SlashAmounts
  import opened Slashing
  import opened SlashingRuns
  import opened SlashingHistory

  /**
   In every reachable state each deduction is of the amount and node issued with its ticket, was
   made no earlier than the end of the grace period, and the stake of every node is its opening
   stake less the deductions, each taken once, floored at zero, whatever the order of events.
   */
  lemma StakeIsClosedForm(init: map<Id, Node>, r: Rules, steps: seq<Step>)
    requires Fresh(init)
    ensures var s := Run(r, Opening(init), steps);
            && s.nodes.Keys == init.Keys
            && (forall t :: t in s.deducted ==>
                  var d := s.deducted[t];
                  && t in s.issued && s.issued[t] == d.pending.slip && s.issued[t].amount >= 0
                  && d.pending in s.promotions && d.epoch >= d.pending.created + r.grace)
            && (forall id :: id in s.nodes ==>
                  && s.nodes[id].stake == Max(0, init[id].stake - Sum(ChargedTo(s.deducted, id)))
                  && s.nodes[id].totalSlashed == init[id].totalSlashed + Sum(ChargedTo(s.deducted, id)))
  {
    hide Sum, ChargedTo, Single, EntriesTraced, PendingTraced, DisputesTraced, Take, Proper, Unrepeated,
        PendingRecorded;
    OpeningSound(init);
    OpeningHistory(r.grace, init);
    RunSound(init, r, Opening(init), steps);
    RunHistory(init, r, Opening(init), steps);
    hide Run;
  }

  /**
   Two runs that deduct the same slashes from a node leave it the same stake and total, in whatever
   order they did so.
   */
  lemma OrderIrrelevant(init: map<Id, Node>, r: Rules, r': Rules, steps: seq<Step>, steps': seq<Step>, id: Id)
    requires Fresh(init) && id in init
    requires ChargedTo(Run(r, Opening(init), steps).deducted, id)
        == ChargedTo(Run(r', Opening(init), steps').deducted, id)
    ensures id in Run(r, Opening(init), steps).nodes && id in Run(r', Opening(init), steps').nodes
    ensures var a, b := Run(r, Opening(init), steps).nodes[id], Run(r', Opening(init), steps').nodes[id];
            a.stake == b.stake && a.totalSlashed == b.totalSlashed
  {
    hide Sum, ChargedTo, Run;
    StakeIsClosedForm(init, r, steps);
    StakeIsClosedForm(init, r', steps');
  }

  /** A slash reversed before its deduction is never deducted, however the run goes on. */
  lemma ReversedInTime(init: map<Id, Node>, r: Rules, before: seq<Step>, ticket: Ticket, after: seq<Step>)
    requires Fresh(init) && ticket !in Run(r, Opening(init), before).deducted
    ensures var s := Run(r, Opening(init), before);
            ticket !in Run(r, Take(r, s, Reverse(ticket)), after).deducted
  {
    hide Sound, Take;
    OpeningSound(init);
    RunSound(init, r, Opening(init), before);
    var s := Run(r, Opening(init), before);
    StepSound(init, r, s, Reverse(ticket));
    ReverseEffect(r, s, ticket);
    RunSound(init, r, Take(r, s, Reverse(ticket)), after);
  }

  lemma ReverseEffect(r: Rules, s: Pipe, ticket: Ticket)
    ensures var s' := Take(r, s, Reverse(ticket));
            ticket in s'.reversed && s'.nodes == s.nodes && s'.deducted == s.deducted
  {
  }

  /** Reversing a slash after its deduction leaves the deduction in place for good. */
  lemma ReversedTooLate(init: map<Id, Node>, r: Rules, before: seq<Step>, ticket: Ticket, after: seq<Step>)
    requires Fresh(init) && ticket in Run(r, Opening(init), before).deducted
    ensures var s := Run(r, Opening(init), before);
            var last := Run(r, Take(r, s, Reverse(ticket)), after);
            ticket in last.deducted && last.deducted[ticket] == s.deducted[ticket]
  {
    hide Sound, Take;
    OpeningSound(init);
    RunSound(init, r, Opening(init), before);
    var s := Run(r, Opening(init), before);
    StepSound(init, r, s, Reverse(ticket));
    ReverseEffect(r, s, ticket);
    RunSound(init, r, Take(r, s, Reverse(ticket)), after);
  }

  // ----- one promotion per ticket

  lemma {:induction false} RunSnoc(r: Rules, s: Pipe, steps: seq<Step>)
    requires steps != []
    ensures var n := |steps| - 1;
            var before := Run(r, s, steps[..n]);
            Run(r, s, steps) == if Proper(before, steps[n]) then Take(r, before, steps[n]) else before
    decreases |steps|
  {
    hide Proper, Take;
    var n := |steps| - 1;
    if n == 0 {
      assert steps[1..] == [] && steps[..0] == [];
    } else {
      var next := if Proper(s, steps[0]) then Take(r, s, steps[0]) else s;
      RunSnoc(r, next, steps[1..]);
      assert steps[1..][..n - 1] == steps[..n][1..];
    }
  }

  /** The state after the first i steps of a run from the opening. */
  ghost function StateAt(init: map<Id, Node>, r: Rules, steps: seq<Step>, i: nat): Pipe
    requires i <= |steps|
  {
    Run(r, Opening(init), steps[..i])
  }

  lemma StateSound(init: map<Id, Node>, r: Rules, steps: seq<Step>, i: nat)
    requires Fresh(init) && i <= |steps|
    ensures Sound(init, StateAt(init, r, steps, i)) && Historic(r.grace, StateAt(init, r, steps, i))
  {
    hide Sound, Historic;
    OpeningSound(init);
    OpeningHistory(r.grace, init);
    RunSound(init, r, Opening(init), steps[..i]);
    RunHistory(init, r, Opening(init), steps[..i]);
  }

  lemma StateNext(init: map<Id, Node>, r: Rules, steps: seq<Step>, i: nat)
    requires i < |steps|
    ensures var s := StateAt(init, r, steps, i);
            StateAt(init, r, steps, i + 1) == if Proper(s, steps[i]) then Take(r, s, steps[i]) else s
  {
    hide Proper, Take;
    assert steps[..i + 1][..i] == steps[..i];
    RunSnoc(r, Opening(init), steps[..i + 1]);
  }

  lemma {:induction false} HistoryGrows(init: map<Id, Node>, r: Rules, steps: seq<Step>, i: nat, j: nat)
    requires Fresh(init) && i <= j <= |steps|
    ensures StateAt(init, r, steps, i).promotions <= StateAt(init, r, steps, j).promotions
    decreases j - i
  {
    hide Sound, Historic, StateAt, Take, Proper;
    if i < j {
      HistoryGrows(init, r, steps, i, j - 1);
      StateSound(init, r, steps, j - 1);
      StateNext(init, r, steps, j - 1);
      var s := StateAt(init, r, steps, j - 1);
      if Proper(s, steps[j - 1]) {
        SoundTraced(init, s);
        StepHistory(r, s, steps[j - 1]);
      }
    }
  }

  lemma SoundTraced(init: map<Id, Node>, s: Pipe)
    requires Sound(init, s)
    ensures Traced(s) && Timely(s.deducted, s.issued)
  {
    hide Traced, Timely, Single, Charged;
  }

  predicate IsPromoted(s: Pipe, t: Ticket)
  {
    exists i :: 0 <= i < |s.promotions| && s.promotions[i].slip.ticket == t
  }

  /**
   Over any run each ticket is promoted at most once, reversed and dropped slashes included; what is
   queued was never promoted; and what is pending or deducted was promoted under the rules' grace.
   */
  lemma PromotedOnce(init: map<Id, Node>, r: Rules, steps: seq<Step>)
    requires Fresh(init)
    ensures var s := Run(r, Opening(init), steps);
            && (forall i, j :: 0 <= i < j < |s.promotions| ==>
                s.promotions[i].slip.ticket != s.promotions[j].slip.ticket)
            && (forall e, i :: e in s.batches && 0 <= i < |s.batches[e]| ==>
                !IsPromoted(s, s.batches[e][i].slip.ticket))
            && (forall id, i :: id in s.nodes && 0 <= i < |s.nodes[id].pending| ==>
                s.nodes[id].pending[i] in s.promotions)
            && (forall t :: t in s.deducted ==> s.deducted[t].pending in s.promotions)
            && (forall p :: p in s.promotions ==> p.grace == r.grace && Matches(s.issued, p.slip))
  {
    hide Sound, Take, Proper, Unrepeated, Matches;
    OpeningSound(init);
    OpeningHistory(r.grace, init);
    RunHistory(init, r, Opening(init), steps);
    var s := Run(r, Opening(init), steps);
    hide Run;
    forall i, j | 0 <= i < j < |s.promotions|
      ensures s.promotions[i].slip.ticket != s.promotions[j].slip.ticket
    {
      PromotionsDiffer(s, i, j);
    }
    forall e, i | e in s.batches && 0 <= i < |s.batches[e]|
      ensures !IsPromoted(s, s.batches[e][i].slip.ticket)
    {
      QueuedUnpromoted(s, e, i);
    }
  }

  lemma PromotionsDiffer(s: Pipe, i: nat, j: nat)
    requires Unrepeated(s) && i < j < |s.promotions|
    ensures s.promotions[i].slip.ticket != s.promotions[j].slip.ticket
  {
    hide Sum, EntryCounts;
    var t := s.promotions[i].slip.ticket;
    assert Passages(s, t) <= One(t in s.issued);
    CountsNonNegative(s, t);
    if s.promotions[j].slip.ticket == t {
      PresentTwice(s.promotions, i, j);
      assert false;
    }
  }

  lemma QueuedUnpromoted(s: Pipe, epoch: int, i: nat)
    requires Unrepeated(s) && epoch in s.batches && i < |s.batches[epoch]|
    ensures !IsPromoted(s, s.batches[epoch][i].slip.ticket)
  {
    hide Sum;
    var t := s.batches[epoch][i].slip.ticket;
    assert Passages(s, t) <= One(t in s.issued);
    EntryPresent(s.batches[epoch], i);
    assert forall e :: e in s.batches ==> InEntries(s.batches[e], t) >= 0;
    SumMember(EntryCounts(s.batches, t), epoch);
    if IsPromoted(s, t) {
      var x :| 0 <= x < |s.promotions| && s.promotions[x].slip.ticket == t;
      Present(s.promotions, x);
      assert false;
    }
  }

  lemma PrefixPromoted(s: Pipe, s': Pipe, x: nat)
    requires s.promotions <= s'.promotions && x < |s.promotions|
    ensures IsPromoted(s, s'.promotions[x].slip.ticket)
  {
    assert s.promotions[x] == s'.promotions[x];
  }

  lemma StaysPromoted(s: Pipe, s': Pipe, t: Ticket)
    requires s.promotions <= s'.promotions && IsPromoted(s, t)
    ensures IsPromoted(s', t)
  {
    var x :| 0 <= x < |s.promotions| && s.promotions[x].slip.ticket == t;
    assert s'.promotions[x] == s.promotions[x];
  }

  /** The step that promotes a ticket closes an epoch, and dates the promotion with it. */
  lemma PromotionDated(init: map<Id, Node>, r: Rules, steps: seq<Step>, i: nat, t: Ticket) returns (x: nat)
    requires Fresh(init) && i < |steps|
    requires !IsPromoted(StateAt(init, r, steps, i), t) && IsPromoted(StateAt(init, r, steps, i + 1), t)
    ensures var s := StateAt(init, r, steps, i + 1);
            steps[i].Close? && x < |s.promotions| && s.promotions[x].slip.ticket == t
                && s.promotions[x].created == steps[i].epoch
  {
    hide Sound, Historic, StateAt, Take, Proper;
    StateSound(init, r, steps, i);
    StateNext(init, r, steps, i);
    var s, s' := StateAt(init, r, steps, i), StateAt(init, r, steps, i + 1);
    SoundTraced(init, s);
    StepHistory(r, s, steps[i]);
    x :| 0 <= x < |s'.promotions| && s'.promotions[x].slip.ticket == t;
    if x < |s.promotions| {
      PrefixPromoted(s, s', x);
      assert false;
    }
  }

  /** The step that deducts a ticket closes an epoch, no earlier than the pending slash's own grace allows. */
  lemma DeductionDated(init: map<Id, Node>, r: Rules, steps: seq<Step>, j: nat, t: Ticket)
    requires Fresh(init) && j < |steps|
    requires t !in StateAt(init, r, steps, j).deducted && t in StateAt(init, r, steps, j + 1).deducted
    ensures var s := StateAt(init, r, steps, j + 1);
            var p := s.deducted[t].pending;
            && steps[j].Close? && steps[j].epoch >= p.created + r.grace
            && p in s.promotions && p.slip.ticket == t && IsPromoted(s, t)
  {
    hide Sound, Historic, StateAt, Take, Proper;
    StateSound(init, r, steps, j);
    StateSound(init, r, steps, j + 1);
    StateNext(init, r, steps, j);
    StepSound(init, r, StateAt(init, r, steps, j), steps[j]);
    DeductionRecorded(init, r.grace, StateAt(init, r, steps, j + 1), t);
  }

  lemma DeductionRecorded(init: map<Id, Node>, grace: int, s: Pipe, t: Ticket)
    requires Sound(init, s) && Historic(grace, s) && t in s.deducted
    ensures var d := s.deducted[t];
            && d.epoch >= d.pending.created + grace
            && d.pending in s.promotions && d.pending.slip.ticket == t && IsPromoted(s, t)
  {
    hide Single, Traced, Charged, Unrepeated, PendingRecorded;
    var p := s.deducted[t].pending;
    var x :| 0 <= x < |s.promotions| && s.promotions[x] == p;
  }

  /**
   In any run, if step i promotes a ticket and step j deducts it, both close an epoch, j is not
   before i, and the epoch of j is at least the epoch of i plus the rules' grace.
   */
  lemma GraceKept(init: map<Id, Node>, r: Rules, steps: seq<Step>, i: nat, j: nat, t: Ticket)
    requires Fresh(init) && i < |steps| && j < |steps|
    requires !IsPromoted(StateAt(init, r, steps, i), t) && IsPromoted(StateAt(init, r, steps, i + 1), t)
    requires t !in StateAt(init, r, steps, j).deducted && t in StateAt(init, r, steps, j + 1).deducted
    ensures steps[i].Close? && steps[j].Close? && i <= j
    ensures steps[j].epoch >= steps[i].epoch + r.grace
  {
    hide StateAt, Historic;
    var x := PromotionDated(init, r, steps, i, t);
    DeductionDated(init, r, steps, j, t);
    var s := StateAt(init, r, steps, j + 1);
    if j < i {
      HistoryGrows(init, r, steps, j + 1, i);
      StaysPromoted(s, StateAt(init, r, steps, i), t);
      assert false;
    }
    HistoryGrows(init, r, steps, i + 1, j + 1);
    assert s.promotions[x] == StateAt(init, r, steps, i + 1).promotions[x];
    var p := s.deducted[t].pending;
    var y :| 0 <= y < |s.promotions| && s.promotions[y] == p;
    SamePromotion(init, r, steps, j + 1, x, y);
  }

  lemma SamePromotion(init: map<Id, Node>, r: Rules, steps: seq<Step>, i: nat, x: nat, y: nat)
    requires Fresh(init) && i <= |steps|
    requires x < |StateAt(init, r, steps, i).promotions| && y < |StateAt(init, r, steps, i).promotions|
    requires StateAt(init, r, steps, i).promotions[x].slip.ticket
        == StateAt(init, r, steps, i).promotions[y].slip.ticket
    ensures x == y
  {
    hide Unrepeated, StateAt;
    StateSound(init, r, steps, i);
    var s := StateAt(init, r, steps, i);
    if x < y {
      PromotionsDiffer(s, x, y);
    } else if y < x {
      PromotionsDiffer(s, y, x);
    }
  }

  // ----- one place per ticket

  /** In every reachable state two pending slashes, of one node or of two, carry different tickets. */
  lemma PendingDistinct(init: map<Id, Node>, r: Rules, steps: seq<Step>, id: Id, i: nat, id': Id, j: nat)
    requires Fresh(init)
    requires var nodes := Run(r, Opening(init), steps).nodes;
             && id in nodes && id' in nodes && i < |nodes[id].pending| && j < |nodes[id'].pending|
             && nodes[id].pending[i].slip.ticket == nodes[id'].pending[j].slip.ticket
    ensures id == id' && i == j
  {
    hide Single, Traced, Timely, Charged, Run;
    OpeningSound(init);
    RunSound(init, r, Opening(init), steps);
    SinglePending(Run(r, Opening(init), steps), id, i, id', j);
  }

  /** In every reachable state what is still queued is neither pending nor deducted. */
  lemma QueuedNowhereElse(init: map<Id, Node>, r: Rules, steps: seq<Step>, epoch: int, i: nat, id: Id, j: nat)
    requires Fresh(init)
    requires var s := Run(r, Opening(init), steps); epoch in s.batches && i < |s.batches[epoch]|
    ensures var s := Run(r, Opening(init), steps);
            var t := s.batches[epoch][i].slip.ticket;
            && t !in s.deducted
            && (id in s.nodes && j < |s.nodes[id].pending| ==> s.nodes[id].pending[j].slip.ticket != t)
  {
    hide Single, Traced, Timely, Charged, Run;
    OpeningSound(init);
    RunSound(init, r, Opening(init), steps);
    SingleQueued(Run(r, Opening(init), steps), epoch, i, id, j);
  }

  lemma SinglePending(s: Pipe, id: Id, i: nat, id': Id, j: nat)
    requires Single(s) && id in s.nodes && id' in s.nodes && i < |s.nodes[id].pending| && j < |s.nodes[id'].pending|
    requires s.nodes[id].pending[i].slip.ticket == s.nodes[id'].pending[j].slip.ticket
    ensures id == id' && i == j
  {
    hide Sum, EntryCounts;
    var t := s.nodes[id].pending[i].slip.ticket;
    assert Count(s, t) <= One(t in s.issued);
    CountsNonNegative(s, t);
    Present(s.nodes[id].pending, i);
    Present(s.nodes[id'].pending, j);
    if id == id' {
      if i < j {
        PresentTwice(s.nodes[id].pending, i, j);
      } else if j < i {
        PresentTwice(s.nodes[id].pending, j, i);
      }
    } else {
      var counts := PendingCounts(s.nodes, t);
      SumRemove(counts, id);
      SumMember(counts - {id}, id');
      assert false;
    }
  }

  lemma {:induction false} PresentTwice(ps: seq<Pending>, i: nat, j: nat)
    requires i < j < |ps| && ps[i].slip.ticket == ps[j].slip.ticket
    ensures InPending(ps, ps[i].slip.ticket) >= 2
    decreases i
  {
    if i == 0 {
      Present(ps[1..], j - 1);
    } else {
      PresentTwice(ps[1..], i - 1, j - 1);
    }
  }

  lemma SingleQueued(s: Pipe, epoch: int, i: nat, id: Id, j: nat)
    requires Single(s) && epoch in s.batches && i < |s.batches[epoch]|
    ensures s.batches[epoch][i].slip.ticket !in s.deducted
    ensures id in s.nodes && j < |s.nodes[id].pending| ==>
        s.nodes[id].pending[j].slip.ticket != s.batches[epoch][i].slip.ticket
  {
    hide Sum, PendingCounts;
    var t := s.batches[epoch][i].slip.ticket;
    assert Count(s, t) <= One(t in s.issued);
    CountsNonNegative(s, t);
    EntryPresent(s.batches[epoch], i);
    assert forall e :: e in s.batches ==> InEntries(s.batches[e], t) >= 0;
    SumMember(EntryCounts(s.batches, t), epoch);
    if id in s.nodes && j < |s.nodes[id].pending| && s.nodes[id].pending[j].slip.ticket == t {
      Present(s.nodes[id].pending, j);
      assert false;
    }
  }

  lemma {:induction false} EntryPresent(es: seq<Entry>, i: nat)
    requires i < |es|
    ensures InEntries(es, es[i].slip.ticket) >= 1
    decreases i
  {
    if i > 0 {
      EntryPresent(es[1..], i - 1);
    }
  }

  // ----- closing an epoch leaves nothing due behind

  lemma {:induction false} SplitComplete(reversed: set<Ticket>, ps: seq<Pending>, epoch: int, p: Pending)
    requires p in ps
    ensures Due(reversed, p, epoch) ==> p in Expired(reversed, ps, epoch)
    ensures Waits(reversed, p, epoch) ==> p in Remaining(reversed, ps, epoch)
    decreases |ps|
  {
    if p != ps[0] {
      assert p in ps[1..];
      SplitComplete(reversed, ps[1..], epoch, p);
    }
  }

  lemma {:induction false} DeductAllReach(s: Pipe, id: Id, ps: seq<Pending>, epoch: int)
    requires id in s.nodes
    ensures var s' := DeductAll(s, id, ps, epoch);
            && s.deducted.Keys <= s'.deducted.Keys
            && (forall p :: p in ps ==> p.slip.ticket in s'.deducted)
            && (forall other :: other in s.nodes ==> s'.nodes[other].pending == s.nodes[other].pending)
    decreases |ps|
  {
    if ps != [] {
      var next := Deduct(s, id, ps[0], epoch);
      DeductAllReach(next, id, ps[1..], epoch);
    }
  }

  lemma CloseNodeReach(s: Pipe, id: Id, epoch: int)
    requires id in s.nodes
    ensures var s' := CloseNode(s, id, epoch);
            && s.deducted.Keys <= s'.deducted.Keys
            && (forall p :: p in s.nodes[id].pending && Due(s.reversed, p, epoch) ==> p.slip.ticket in s'.deducted)
            && (forall p :: p in s.nodes[id].pending && Waits(s.reversed, p, epoch) ==> p in s'.nodes[id].pending)
            && (forall other :: other in s.nodes && other != id ==> s'.nodes[other].pending == s.nodes[other].pending)
  {
    hide Due, Waits;
    var ps := s.nodes[id].pending;
    var kept := Keep(s, id, Remaining(s.reversed, ps, epoch));
    forall p | p in ps
      ensures Due(s.reversed, p, epoch) ==> p in Expired(s.reversed, ps, epoch)
      ensures Waits(s.reversed, p, epoch) ==> p in Remaining(s.reversed, ps, epoch)
    {
      SplitComplete(s.reversed, ps, epoch, p);
    }
    DeductAllReach(kept, id, Expired(s.reversed, ps, epoch), epoch);
  }

  lemma {:induction false} CloseNodesReach(s: Pipe, ids: seq<Id>, epoch: int, id: Id, p: Pending)
    requires Known(s, ids) && id in s.nodes && (p in s.nodes[id].pending || p.slip.ticket in s.deducted)
    ensures var s' := CloseNodes(s, ids, epoch);
            && s.deducted.Keys <= s'.deducted.Keys
            && (id in ids && p in s.nodes[id].pending && Due(s.reversed, p, epoch) ==> p.slip.ticket in s'.deducted)
            && (p in s.nodes[id].pending && Waits(s.reversed, p, epoch) ==> p in s'.nodes[id].pending)
    decreases |ids|
  {
    hide CloseNode, Due, Waits;
    if ids != [] {
      var next := CloseNode(s, ids[0], epoch);
      CloseNodeReach(s, ids[0], epoch);
      if p in next.nodes[id].pending || p.slip.ticket in next.deducted {
        CloseNodesReach(next, ids[1..], epoch, id, p);
      } else {
        CloseNodesKeys(next, ids[1..], epoch);
      }
    }
  }

  lemma {:induction false} CloseNodesKeys(s: Pipe, ids: seq<Id>, epoch: int)
    requires Known(s, ids)
    ensures s.deducted.Keys <= CloseNodes(s, ids, epoch).deducted.Keys
    decreases |ids|
  {
    hide CloseNode;
    if ids != [] {
      CloseNodeReach(s, ids[0], epoch);
      CloseNodesKeys(CloseNode(s, ids[0], epoch), ids[1..], epoch);
    }
  }

  lemma {:induction false} CreateAllReach(s: Pipe, listed: set<Id>, entries: seq<Entry>, epoch: int, grace: int)
    requires listed <= s.nodes.Keys
    ensures var s' := CreateAll(s, listed, entries, epoch, grace);
            && s'.deducted == s.deducted
            && (forall id, p :: id in s.nodes && p in s.nodes[id].pending ==> p in s'.nodes[id].pending)
            && (forall e :: e in entries && e.slip.node in listed ==>
                  Pending(e.slip, TierOf(e.severity), epoch, grace) in s'.nodes[e.slip.node].pending)
    decreases |entries|
  {
    hide TierOf;
    if entries != [] {
      var e := entries[0];
      var p := Pending(e.slip, TierOf(e.severity), epoch, grace);
      var next := if e.slip.node in listed then AddPending(s, p) else s;
      CreateAllReach(next, listed, entries[1..], epoch, grace);
    }
  }

  lemma {:induction false} EvictNodesReach(s: Pipe, ids: seq<Id>, threshold: int)
    requires Known(s, ids)
    ensures var s' := EvictNodes(s, ids, threshold);
            && s'.deducted == s.deducted
            && (forall id :: id in s.nodes ==> s'.nodes[id].pending == s.nodes[id].pending)
    decreases |ids|
  {
    if ids != [] {
      EvictNodesReach(EvictNode(s, ids[0], threshold), ids[1..], threshold);
    }
  }

  lemma {:induction false} ResolveFromReach(s: Pipe, listed: set<Id>, n: nat, epoch: int, grace: int)
    requires listed <= s.nodes.Keys
    ensures var s' := ResolveFrom(s, listed, n, epoch, grace);
            && s'.deducted == s.deducted
            && (forall id, p :: id in s.nodes && p in s.nodes[id].pending ==> p in s'.nodes[id].pending)
    decreases s.raised + 1 - n
  {
    if n <= s.raised {
      ResolveFromReach(ResolveOne(s, listed, n, epoch, grace), listed, n + 1, epoch, grace);
    }
  }

  /**
   Closing an epoch deducts every slash of a listed node whose grace period is over and which was
   not reversed, and keeps every one still waiting.
   */
  lemma CloseReaches(r: Rules, s: Pipe, epoch: int, ids: seq<Id>, id: Id, p: Pending)
    requires Known(s, ids) && id in ids && id in s.nodes
    requires p in s.nodes[id].pending ||
             exists e :: && e in Batch(s, epoch) && e.slip.node == id
                         && p == Pending(e.slip, TierOf(e.severity), epoch, r.grace)
    ensures var s' := CloseEpoch(r, s, epoch, ids);
            && (p.slip.ticket !in s.reversed && epoch >= p.created + p.grace ==> p.slip.ticket in s'.deducted)
            && (p.slip.ticket !in s.reversed && epoch < p.created + p.grace ==> p in s'.nodes[id].pending)
  {
    hide CreateAll, CloseNodes, EvictNodes, ResolveFrom, TierOf, Batch;
    var listed := IdSet(ids);
    ListedKnown(s, ids);
    var drained := s.(batches := s.batches - {epoch});
    var created := CreateAll(drained, listed, Batch(s, epoch), epoch, r.grace);
    CreateAllReach(drained, listed, Batch(s, epoch), epoch, r.grace);
    var closed := CloseNodes(created, ids, epoch);
    CloseNodesReach(created, ids, epoch, id, p);
    var evicted := EvictNodes(closed, ids, r.evictionThreshold);
    EvictNodesReach(closed, ids, r.evictionThreshold);
    if r.disputesEnabled {
      ResolveFromReach(evicted, listed, 1, epoch, r.grace);
    }
  }

  // ----- the runtime check

  /** The check made after a violation is queued: cumulative slashes against the stake that is left. */
  predicate CheckHolds(node: Node)
  {
    node.totalSlashed <= node.stake
  }

  /**
   The check compares a total with a stake that the total has already been taken from, so it fails
   exactly when more than half of the opening stake has been deducted.
   */
  lemma CheckTripsPastHalf(init: map<Id, Node>, r: Rules, steps: seq<Step>, id: Id)
    requires Fresh(init) && id in init && init[id].totalSlashed == 0
    ensures id in Run(r, Opening(init), steps).nodes
    ensures var node := Run(r, Opening(init), steps).nodes[id];
            CheckHolds(node) <==> 2 * node.totalSlashed <= init[id].stake
  {
    hide Sum, Run;
    StakeIsClosedForm(init, r, steps);
    var s := Run(r, Opening(init), steps);
    SumNonNegative(ChargedTo(s.deducted, id));
  }

  const STRICT := Rules(0, 100, false, Correlation(0.0, 1.0))

  const NODE: Id := "n"

  /** A critical violation against the whole stake. */
  const WORST := Violation(NODE, Verdict(true, "critical", ""), "audit_failure", 10000, 0, 0)

  function FullStake(): map<Id, Node>
  {
    map[NODE := Node(100, 0, 0, 0, false, [])]
  }

  /** A queued slash of thirty. */
  function Thirty(n: nat): Entry
  {
    Entry(Slip(Queued(n), NODE, 30), "audit_failure", "", "critical")
  }

  lemma ThirtyPercent()
    ensures SlashFor(STRICT.correlation, 100, 10000, "critical", 0, 0) == 30
  {
    assert TierOf("critical") == Critical;
    assert AtRisk(100, 10000) == 100;
  }

  /** One violation queues a slash of thirty and leaves the stake alone. */
  lemma OneQueued(s: Pipe, offenses: int)
    requires s.nodes == map[NODE := Node(100, 0, offenses, 0, false, [])]
    ensures Proper(s, WORST)
    ensures var s' := Take(STRICT, s, WORST);
            && s'.nodes == map[NODE := Node(100, 0, offenses + 1, 0, false, [])] && s'.reversed == s.reversed
            && s'.batches == s.batches[0 := Batch(s, 0) + [Thirty(s.queued)]] && s'.queued == s.queued + 1
  {
    ThirtyPercent();
    hide SlashFor;
    var s' := Take(STRICT, s, WORST);
    assert s'.nodes == map[NODE := Node(100, 0, offenses + 1, 0, false, [])];
  }

  /** Closing the epoch turns two of them into pending slashes. */
  lemma TwoCreated(s: Pipe, p: Pending, q: Pending)
    requires NODE in s.nodes && s.nodes[NODE] == Node(100, 0, 2, 0, false, [])
    requires p == Pending(Thirty(0).slip, Critical, 0, 0) && q == Pending(Thirty(1).slip, Critical, 0, 0)
    ensures IdSet([NODE]) <= s.nodes.Keys
    ensures var s' := CreateAll(s, IdSet([NODE]), [Thirty(0), Thirty(1)], 0, 0);
            s'.nodes[NODE] == Node(100, 0, 2, 0, false, [p, q]) && s'.reversed == s.reversed
  {
    var entries := [Thirty(0), Thirty(1)];
    assert entries[1..] == [Thirty(1)] && [Thirty(1)][1..] == [];
    assert NODE in IdSet([NODE]) by { assert [NODE][0] == NODE; }
    assert TierOf("critical") == Critical;
    var one := AddPending(s, p);
    var two := AddPending(one, q);
    assert CreateAll(s, IdSet([NODE]), entries, 0, 0) == CreateAll(one, IdSet([NODE]), [Thirty(1)], 0, 0);
    assert CreateAll(one, IdSet([NODE]), [Thirty(1)], 0, 0) == CreateAll(two, IdSet([NODE]), [], 0, 0) == two;
    assert [p] + [q] == [p, q];
  }

  /** Without grace both are due, and both are deducted. */
  lemma TwoDeducted(s: Pipe, p: Pending, q: Pending)
    requires NODE in s.nodes && s.nodes[NODE] == Node(100, 0, 2, 0, false, [p, q]) && s.reversed == {}
    requires p.slip.amount == 30 && q.slip.amount == 30 && p.created + p.grace == 0 && q.created + q.grace == 0
    ensures var node := CloseNode(s, NODE, 0).nodes[NODE]; node.stake == 40 && node.totalSlashed == 60
  {
    var ps := [p, q];
    assert ps[1..] == [q] && [q][1..] == [];
    assert Expired({}, [q], 0) == [q] + Expired({}, [], 0) == [q];
    assert Expired({}, ps, 0) == [p] + Expired({}, [q], 0) == ps;
    var kept := Keep(s, NODE, Remaining({}, ps, 0));
    var first := Deduct(kept, NODE, p, 0);
    var closed := Deduct(first, NODE, q, 0);
    assert DeductAll(kept, NODE, ps, 0) == DeductAll(first, NODE, [q], 0) == DeductAll(closed, NODE, [], 0) == closed;
  }

  lemma TwoClosed(s: Pipe)
    requires s.nodes == map[NODE := Node(100, 0, 2, 0, false, [])]
    requires Batch(s, 0) == [Thirty(0), Thirty(1)] && s.reversed == {}
    ensures Proper(s, Close(0, [NODE]))
    ensures var s' := Take(STRICT, s, Close(0, [NODE]));
            NODE in s'.nodes && s'.nodes[NODE].stake == 40 && s'.nodes[NODE].totalSlashed == 60
  {
    hide Batch, CreateAll, CloseNode;
    var p, q := Pending(Thirty(0).slip, Critical, 0, 0), Pending(Thirty(1).slip, Critical, 0, 0);
    var drained := s.(batches := s.batches - {0});
    TwoCreated(drained, p, q);
    var created := CreateAll(drained, IdSet([NODE]), [Thirty(0), Thirty(1)], 0, 0);
    TwoDeducted(created, p, q);
    assert [NODE][1..] == [];
    var closed := CloseNode(created, NODE, 0);
    assert CloseNodes(created, [NODE], 0) == CloseNodes(closed, [], 0) == closed;
    assert EvictNodes(closed, [NODE], 100) == EvictNodes(EvictNode(closed, NODE, 100), [], 100);
  }

  /** A run in which the check fails: sixty of a hundred deducted, then one more violation. */
  lemma CheckCanFail()
    ensures var s := Run(STRICT, Opening(FullStake()), [WORST, WORST, Close(0, [NODE]), WORST]);
            Fresh(FullStake()) && NODE in s.nodes && !CheckHolds(s.nodes[NODE])
  {
    hide Run, Take;
    FailsFrom(Opening(FullStake()));
  }

  lemma FailsFrom(s0: Pipe)
    requires s0.nodes == map[NODE := Node(100, 0, 0, 0, false, [])] && s0.batches == map[] && s0.queued == 0
        && s0.reversed == {}
    ensures var s := Run(STRICT, s0, [WORST, WORST, Close(0, [NODE]), WORST]);
            NODE in s.nodes && !CheckHolds(s.nodes[NODE])
  {
    hide Run, Take, Proper;
    OneQueued(s0, 0);
    var s1 := Take(STRICT, s0, WORST);
    OneQueued(s1, 1);
    var s2 := Take(STRICT, s1, WORST);
    assert Batch(s1, 0) == [] + [Thirty(0)] == [Thirty(0)];
    assert Batch(s2, 0) == [Thirty(0)] + [Thirty(1)] == [Thirty(0), Thirty(1)];
    TwoClosed(s2);
    var s3 := Take(STRICT, s2, Close(0, [NODE]));
    StakeKept(s3);
    FourSteps(s0, s1, s2, s3, Take(STRICT, s3, WORST));
  }

  lemma StakeKept(s: Pipe)
    requires NODE in s.nodes
    ensures Proper(s, WORST)
    ensures var node := Take(STRICT, s, WORST).nodes[NODE];
            node.stake == s.nodes[NODE].stake && node.totalSlashed == s.nodes[NODE].totalSlashed
  {
    hide SlashFor;
  }

  lemma FourSteps(s0: Pipe, s1: Pipe, s2: Pipe, s3: Pipe, s4: Pipe)
    requires Proper(s0, WORST) && s1 == Take(STRICT, s0, WORST)
    requires Proper(s1, WORST) && s2 == Take(STRICT, s1, WORST)
    requires Proper(s2, Close(0, [NODE])) && s3 == Take(STRICT, s2, Close(0, [NODE]))
    requires Proper(s3, WORST) && s4 == Take(STRICT, s3, WORST)
    ensures Run(STRICT, s0, [WORST, WORST, Close(0, [NODE]), WORST]) == s4
  {
    hide Take, Proper;
    var steps := [WORST, WORST, Close(0, [NODE]), WORST];
    assert steps[1..] == [WORST, Close(0, [NODE]), WORST];
    assert steps[1..][1..] == [Close(0, [NODE]), WORST];
    assert steps[1..][1..][1..] == [WORST];
    assert [WORST][1..] == [];
    assert Run(STRICT, s3, [WORST]) == Run(STRICT, s4, []);
    assert Run(STRICT, s2, [Close(0, [NODE]), WORST]) == s4;
    assert Run(STRICT, s1, [WORST, Close(0, [NODE]), WORST]) == s4;
  }
}
