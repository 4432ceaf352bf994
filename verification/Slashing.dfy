/**
 The slashing pipeline as a state machine.  A violation queues a slash for its epoch; closing the
 epoch turns queued slashes into pending ones held for a grace period; a pending slash is then
 deducted from the stake, unless it was reversed first.  Upheld disputes enter as pending slashes.

 Every slash carries a ticket, the running number of the queue or of the dispute that raised it,
 so that one slash can be followed through the stages.  `issued`, `promotions` and `deducted` are
 histories: the slips handed out, the pending slashes created in order, and the deductions made.
 */
module Slashing {
  import opened SlashAmounts

  type Id = string

  datatype Ticket = Queued(n: nat) | Disputed(n: nat)

  datatype Slip = Slip(ticket: Ticket, node: Id, amount: int)

  datatype Entry = Entry(slip: Slip, condition: string, evidenceHash: string, severity: string)

  datatype Pending = Pending(slip: Slip, tier: Tier, created: int, grace: int)

  datatype Node = Node(stake: int, totalSlashed: int, offenses: int, cleanEpochs: int, evicted: bool,
      pending: seq<Pending>)

  datatype Resolution = Undecided | Upheld | Rejected

  datatype Dispute = Dispute(
    challenger: Id, target: Id, bond: int, amount: int, resolution: Resolution,
    votesFor: int, votesAgainst: int, deadline: int, resolvedEpoch: int)

  datatype Deduction = Deduction(pending: Pending, epoch: int)

  datatype Pipe = Pipe(
    nodes: map<Id, Node>, batches: map<int, seq<Entry>>, disputes: map<nat, Dispute>, reversed: set<Ticket>,
    queued: nat, raised: nat, issued: map<Ticket, Slip>, promotions: seq<Pending>, deducted: map<Ticket, Deduction>)

  datatype Rules = Rules(grace: int, evictionThreshold: int, disputesEnabled: bool, correlation: Correlation)

  // ----- steps

  datatype Verdict = Verdict(violated: bool, severity: string, evidenceHash: string)

  function Batch(s: Pipe, epoch: int): seq<Entry>
  {
    if epoch in s.batches then s.batches[epoch] else []
  }

  /** Queue a slash for a violation.  The queue passes no concurrent stake, so the base amount applies. */
  function Violate(r: Rules, s: Pipe, id: Id, v: Verdict, condition: string, allocationBps: int, epoch: int,
      network: int): Pipe
    requires id in s.nodes
  {
    if !v.violated then s
    else
      var node := s.nodes[id];
      var slip := Slip(Queued(s.queued), id,
          SlashFor(r.correlation, node.stake, allocationBps, v.severity, 0, network));
      s.(nodes := s.nodes[id := node.(offenses := node.offenses + 1, cleanEpochs := 0)],
         batches := s.batches[epoch := Batch(s, epoch) + [Entry(slip, condition, v.evidenceHash, v.severity)]],
         queued := s.queued + 1,
         issued := s.issued[slip.ticket := slip])
  }

  function AddPending(s: Pipe, p: Pending): Pipe
    requires p.slip.node in s.nodes
  {
    var node := s.nodes[p.slip.node];
    s.(nodes := s.nodes[p.slip.node := node.(pending := node.pending + [p])], promotions := s.promotions + [p])
  }

  /** Pending slashes for the drained entries; an entry whose node is not listed is dropped. */
  function CreateAll(s: Pipe, listed: set<Id>, entries: seq<Entry>, epoch: int, grace: int): (s': Pipe)
    requires listed <= s.nodes.Keys
    ensures s'.nodes.Keys == s.nodes.Keys && s'.batches == s.batches && s'.reversed == s.reversed
    decreases |entries|
  {
    if entries == [] then s
    else
      var e := entries[0];
      var next := if e.slip.node in listed then AddPending(s, Pending(e.slip, TierOf(e.severity), epoch, grace)) else s;
      CreateAll(next, listed, entries[1..], epoch, grace)
  }

  predicate Due(reversed: set<Ticket>, p: Pending, epoch: int)
  {
    p.slip.ticket !in reversed && epoch >= p.created + p.grace
  }

  predicate Waits(reversed: set<Ticket>, p: Pending, epoch: int)
  {
    p.slip.ticket !in reversed && epoch < p.created + p.grace
  }

  function Expired(reversed: set<Ticket>, ps: seq<Pending>, epoch: int): seq<Pending>
  {
    if ps == [] then []
    else (if Due(reversed, ps[0], epoch) then [ps[0]] else []) + Expired(reversed, ps[1..], epoch)
  }

  function Remaining(reversed: set<Ticket>, ps: seq<Pending>, epoch: int): seq<Pending>
  {
    if ps == [] then []
    else (if Waits(reversed, ps[0], epoch) then [ps[0]] else []) + Remaining(reversed, ps[1..], epoch)
  }

  function Max(a: int, b: int): int
  {
    if a >= b then a else b
  }

  /** The stake is floored at zero; the running total takes the full amount. */
  function Deduct(s: Pipe, id: Id, p: Pending, epoch: int): Pipe
    requires id in s.nodes
  {
    var node := s.nodes[id];
    s.(nodes := s.nodes[id := node.(stake := Max(0, node.stake - p.slip.amount),
        totalSlashed := node.totalSlashed + p.slip.amount)],
       deducted := s.deducted[p.slip.ticket := Deduction(p, epoch)])
  }

  function DeductAll(s: Pipe, id: Id, ps: seq<Pending>, epoch: int): (s': Pipe)
    requires id in s.nodes
    ensures s'.nodes.Keys == s.nodes.Keys && s'.reversed == s.reversed
    decreases |ps|
  {
    if ps == [] then s else DeductAll(Deduct(s, id, ps[0], epoch), id, ps[1..], epoch)
  }

  function Keep(s: Pipe, id: Id, ps: seq<Pending>): Pipe
    requires id in s.nodes
  {
    s.(nodes := s.nodes[id := s.nodes[id].(pending := ps)])
  }

  function CloseNode(s: Pipe, id: Id, epoch: int): (s': Pipe)
    requires id in s.nodes
    ensures s'.nodes.Keys == s.nodes.Keys && s'.reversed == s.reversed
  {
    var ps := s.nodes[id].pending;
    DeductAll(Keep(s, id, Remaining(s.reversed, ps, epoch)), id, Expired(s.reversed, ps, epoch), epoch)
  }

  predicate Known(s: Pipe, ids: seq<Id>)
  {
    forall i :: 0 <= i < |ids| ==> ids[i] in s.nodes
  }

  function CloseNodes(s: Pipe, ids: seq<Id>, epoch: int): (s': Pipe)
    requires Known(s, ids)
    ensures s'.nodes.Keys == s.nodes.Keys && s'.reversed == s.reversed
    decreases |ids|
  {
    if ids == [] then s else CloseNodes(CloseNode(s, ids[0], epoch), ids[1..], epoch)
  }

  function EvictNode(s: Pipe, id: Id, threshold: int): (s': Pipe)
    requires id in s.nodes
    ensures s'.nodes.Keys == s.nodes.Keys && s'.reversed == s.reversed
  {
    var node := s.nodes[id];
    if node.offenses >= threshold then s.(nodes := s.nodes[id := node.(evicted := true)]) else s
  }

  function EvictNodes(s: Pipe, ids: seq<Id>, threshold: int): (s': Pipe)
    requires Known(s, ids)
    ensures s'.nodes.Keys == s.nodes.Keys && s'.reversed == s.reversed
    decreases |ids|
  {
    if ids == [] then s else EvictNodes(EvictNode(s, ids[0], threshold), ids[1..], threshold)
  }

  // ----- disputes

  const VOTING_PERIOD := 168

  predicate CanResolve(d: Dispute, epoch: int)
  {
    d.resolution == Undecided && epoch > d.deadline
  }

  /** A 66% stake-weighted majority upholds; no votes at all reject. */
  function Decision(d: Dispute): Resolution
  {
    if d.votesFor + d.votesAgainst != 0 && 100 * d.votesFor >= 66 * (d.votesFor + d.votesAgainst) then Upheld
        else Rejected
  }

  function Resolved(d: Dispute, epoch: int): Dispute
  {
    d.(resolution := Decision(d), resolvedEpoch := epoch)
  }

  function ResolveOne(s: Pipe, listed: set<Id>, n: nat, epoch: int, grace: int): (s': Pipe)
    requires listed <= s.nodes.Keys
    ensures s'.nodes.Keys == s.nodes.Keys && s'.reversed == s.reversed
  {
    if n !in s.disputes || !CanResolve(s.disputes[n], epoch) then s
    else
      var d := s.disputes[n];
      var decided := s.(disputes := s.disputes[n := Resolved(d, epoch)]);
      if Decision(d) == Upheld && d.target in listed then
        AddPending(decided, Pending(Slip(Disputed(n), d.target, d.amount), Major, epoch, grace))
      else decided
  }

  /** Disputes past their deadline, from number `n` on. */
  function ResolveFrom(s: Pipe, listed: set<Id>, n: nat, epoch: int, grace: int): (s': Pipe)
    requires listed <= s.nodes.Keys
    ensures s'.nodes.Keys == s.nodes.Keys && s'.reversed == s.reversed
    decreases s.raised + 1 - n
  {
    if n > s.raised then s
    else ResolveFrom(ResolveOne(s, listed, n, epoch, grace), listed, n + 1, epoch, grace)
  }

  /** The 1% minimum bond. */
  predicate MayDispute(targetStake: int, bond: int)
  {
    bond >= targetStake / 100
  }

  function OpenDispute(s: Pipe, challenger: Id, target: Id, bond: int, amount: int, epoch: int): Pipe
  {
    var n := s.raised + 1;
    var dispute := Dispute(challenger, target, bond, amount, Undecided, 0, 0, epoch + VOTING_PERIOD, -1);
    s.(disputes := s.disputes[n := dispute],
       raised := n,
       issued := s.issued[Disputed(n) := Slip(Disputed(n), target, amount)])
  }

  predicate MayVote(s: Pipe, n: nat, epoch: int)
  {
    n in s.disputes && s.disputes[n].resolution == Undecided && epoch <= s.disputes[n].deadline
  }

  function Voted(d: Dispute, stake: int, inFavour: bool): Dispute
  {
    if inFavour then d.(votesFor := d.votesFor + stake) else d.(votesAgainst := d.votesAgainst + stake)
  }

  function Vote(s: Pipe, n: nat, stake: int, inFavour: bool, epoch: int): Pipe
  {
    if MayVote(s, n, epoch) then s.(disputes := s.disputes[n := Voted(s.disputes[n], stake, inFavour)]) else s
  }

  // ----- closing an epoch

  function IdSet(ids: seq<Id>): set<Id>
  {
    set i | 0 <= i < |ids| :: ids[i]
  }

  /** The batch is drained into pending slashes, expired ones are deducted, and repeat offenders evicted. */
  function Enforced(r: Rules, s: Pipe, epoch: int, ids: seq<Id>): (s': Pipe)
    requires Known(s, ids)
    ensures s'.nodes.Keys == s.nodes.Keys && s'.reversed == s.reversed
  {
    var drained := s.(batches := s.batches - {epoch});
    var created := CreateAll(drained, IdSet(ids), Batch(s, epoch), epoch, r.grace);
    EvictNodes(CloseNodes(created, ids, epoch), ids, r.evictionThreshold)
  }

  function CloseEpoch(r: Rules, s: Pipe, epoch: int, ids: seq<Id>): (s': Pipe)
    requires Known(s, ids)
    ensures s'.nodes.Keys == s.nodes.Keys && s'.reversed == s.reversed
  {
    var enforced := Enforced(r, s, epoch, ids);
    if r.disputesEnabled then ResolveFrom(enforced, IdSet(ids), 1, epoch, r.grace) else enforced
  }

  datatype Step =
    | Violation(id: Id, verdict: Verdict, condition: string, allocationBps: int, epoch: int, network: int)
    | Close(epoch: int, ids: seq<Id>)
    | Reverse(ticket: Ticket)
    | Open(challenger: Id, target: Id, targetStake: int, bond: int, amount: int, epoch: int)
    | Ballot(dispute: nat, stake: int, inFavour: bool, epoch: int)

  /** Nodes are known, shares lie between nothing and everything, and disputed amounts and votes are not negative. */
  predicate Proper(s: Pipe, step: Step)
  {
    match step
    case Violation(id, _, _, bps, _, _) => id in s.nodes && 0 <= bps <= 10000
    case Close(_, ids) => Known(s, ids)
    case Reverse(_) => true
    case Open(_, _, _, _, amount, _) => amount >= 0
    case Ballot(_, stake, _, _) => stake >= 0
  }

  function Take(r: Rules, s: Pipe, step: Step): (s': Pipe)
    requires Proper(s, step)
    ensures s'.nodes.Keys == s.nodes.Keys
  {
    match step
    case Violation(id, v, condition, bps, epoch, network) => Violate(r, s, id, v, condition, bps, epoch, network)
    case Close(epoch, ids) => CloseEpoch(r, s, epoch, ids)
    case Reverse(ticket) => s.(reversed := s.reversed + {ticket})
    case Open(challenger, target, targetStake, bond, amount, epoch) =>
      if MayDispute(targetStake, bond) then OpenDispute(s, challenger, target, bond, amount, epoch) else s
    case Ballot(n, stake, inFavour, epoch) => Vote(s, n, stake, inFavour, epoch)
  }
}
