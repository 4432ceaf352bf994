/** Linear vesting of deferred rewards, claimed at arbitrary epochs. */
module Vesting {
  import opened Arithmetic

  datatype VestingEntry = VestingEntry(amount: int, start: int, duration: int, claimed: int)

  /** Rewards are not negative and no more than the reward has been released. */
  predicate Good(e: VestingEntry)
  {
    0 <= e.claimed <= e.amount
  }

  predicate AllGood(es: seq<VestingEntry>)
  {
    forall i :: 0 <= i < |es| ==> Good(es[i])
  }

  function Remaining(e: VestingEntry): int
  {
    e.amount - e.claimed
  }

  function Max(a: int, b: int): int
  {
    if a >= b then a else b
  }

  function ClaimableAt(e: VestingEntry, epoch: int): int
  {
    if epoch < e.start then 0
    else if epoch - e.start >= e.duration then Remaining(e)
    else Max(0, e.amount * (epoch - e.start) / e.duration - e.claimed)
  }

  function Claim(e: VestingEntry, epoch: int): VestingEntry
  {
    if ClaimableAt(e, epoch) > 0 then e.(claimed := e.claimed + ClaimableAt(e, epoch)) else e
  }

  // ----- the closed form

  /** What has vested by an epoch, whoever asked before. */
  function Vested(e: VestingEntry, epoch: int): int
  {
    if epoch < e.start then 0
    else if epoch - e.start >= e.duration then e.amount
    else e.amount * (epoch - e.start) / e.duration
  }

  lemma VestedBounds(e: VestingEntry, epoch: int)
    requires Good(e)
    ensures 0 <= Vested(e, epoch) <= e.amount
  {
    if e.start <= epoch < e.start + e.duration {
      Fraction(e.amount, epoch - e.start, e.duration);
    }
  }

  lemma FractionMonotone(amount: int, part: int, more: int, whole: int)
    requires amount >= 0 && 0 <= part <= more && whole > 0
    ensures amount * part / whole <= amount * more / whole
  {
    PartOf(amount, part, more);
    DivMonotone(amount * part, amount * more, whole);
  }

  lemma VestedMonotone(e: VestingEntry, epoch: int, later: int)
    requires Good(e) && epoch <= later
    ensures Vested(e, epoch) <= Vested(e, later)
  {
    VestedBounds(e, epoch);
    VestedBounds(e, later);
    if e.start <= epoch && later - e.start < e.duration {
      FractionMonotone(e.amount, epoch - e.start, later - e.start, e.duration);
    }
  }

  /** Nothing before the start, everything from the end on, and in between the elapsed share rounded down. */
  lemma VestedLinear(e: VestingEntry, epoch: int)
    requires Good(e)
    ensures epoch < e.start ==> Vested(e, epoch) == 0
    ensures epoch >= e.start && epoch >= e.start + e.duration ==> Vested(e, epoch) == e.amount
    ensures e.start <= epoch < e.start + e.duration ==>
              && Vested(e, epoch) * e.duration <= e.amount * (epoch - e.start)
              && e.amount * (epoch - e.start) < (Vested(e, epoch) + 1) * e.duration
  {
    if e.start <= epoch < e.start + e.duration {
      var x, d := e.amount * (epoch - e.start), e.duration;
      var q, r := x / d, x % d;
      assert x == q * d + r && 0 <= r < d;
      assert (q + 1) * d == q * d + d;
    }
  }

  /** A claim raises what was released to what has vested, and never lowers it. */
  lemma ClaimReaches(e: VestingEntry, epoch: int)
    requires Good(e)
    ensures Good(Claim(e, epoch)) && Claim(e, epoch) == e.(claimed := Max(e.claimed, Vested(e, epoch)))
    ensures Claim(e, epoch).claimed == e.claimed + Max(0, ClaimableAt(e, epoch))
  {
    VestedBounds(e, epoch);
  }

  // ----- runs of grants and claims

  function ClaimAll(es: seq<VestingEntry>, epoch: int): seq<VestingEntry>
  {
    if es == [] then [] else [Claim(es[0], epoch)] + ClaimAll(es[1..], epoch)
  }

  function ReleasedAt(es: seq<VestingEntry>, epoch: int): int
  {
    if es == [] then 0 else Max(0, ClaimableAt(es[0], epoch)) + ReleasedAt(es[1..], epoch)
  }

  /** Fully vested entries are removed. */
  function Cleaned(es: seq<VestingEntry>): seq<VestingEntry>
  {
    if es == [] then [] else (if Remaining(es[0]) > 0 then [es[0]] else []) + Cleaned(es[1..])
  }

  /** Clean-up keeps exactly the entries with something left, each as often as it occurs. */
  lemma {:induction false} CleanedExactly(es: seq<VestingEntry>, e: VestingEntry)
    ensures multiset(Cleaned(es))[e] == if e.amount - e.claimed > 0 then multiset(es)[e] else 0
    decreases |es|
  {
    if es != [] {
      CleanedExactly(es[1..], e);
      assert es == [es[0]] + es[1..];
    }
  }

  datatype VestingOp = ClaimVested(epoch: int) | Grant(entry: VestingEntry)

  ghost predicate Proper(ops: seq<VestingOp>)
  {
    forall i :: 0 <= i < |ops| && ops[i].Grant? ==> Good(ops[i].entry)
  }

  /** The total a run releases, with or without the clean-up after each claim. */
  ghost function Released(es: seq<VestingEntry>, ops: seq<VestingOp>, cleanUp: bool): int
    decreases |ops|
  {
    if ops == [] then 0
    else match ops[0]
      case Grant(e) => Released(es + [e], ops[1..], cleanUp)
      case ClaimVested(epoch) =>
        var claimed := ClaimAll(es, epoch);
        ReleasedAt(es, epoch) + Released(if cleanUp then Cleaned(claimed) else claimed, ops[1..], cleanUp)
  }

  ghost function ClaimEpochs(ops: seq<VestingOp>): seq<int>
    decreases |ops|
  {
    if ops == [] then []
    else (if ops[0].ClaimVested? then [ops[0].epoch] else []) + ClaimEpochs(ops[1..])
  }

  ghost function Latest(epochs: seq<int>): int
    requires epochs != []
  {
    if |epochs| == 1 then epochs[0] else Max(epochs[0], Latest(epochs[1..]))
  }

  /** What one entry releases over claims at the given epochs: up to what has vested by the latest of them. */
  ghost function Due(e: VestingEntry, epochs: seq<int>): int
  {
    if epochs == [] then 0 else Max(0, Vested(e, Latest(epochs)) - e.claimed)
  }

  ghost function TotalDue(es: seq<VestingEntry>, epochs: seq<int>): int
  {
    if es == [] then 0 else Due(es[0], epochs) + TotalDue(es[1..], epochs)
  }

  /** Entries present at the start by every claim, and each later grant by the claims after it. */
  ghost function Expected(es: seq<VestingEntry>, ops: seq<VestingOp>): int
  {
    TotalDue(es, ClaimEpochs(ops)) + GrantsDue(ops)
  }

  ghost function GrantsDue(ops: seq<VestingOp>): int
    decreases |ops|
  {
    if ops == [] then 0
    else (if ops[0].Grant? then Due(ops[0].entry, ClaimEpochs(ops[1..])) else 0) + GrantsDue(ops[1..])
  }

  lemma DueStep(e: VestingEntry, epoch: int, epochs: seq<int>)
    requires Good(e)
    ensures Due(e, [epoch] + epochs) == Max(0, ClaimableAt(e, epoch)) + Due(Claim(e, epoch), epochs)
  {
    hide Vested, ClaimableAt, Claim;
    ClaimReaches(e, epoch);
    var e' := Claim(e, epoch);
    if epochs == [] {
      assert [epoch] + epochs == [epoch];
    } else {
      var last := Latest(epochs);
      assert ([epoch] + epochs)[1..] == epochs;
      assert Latest([epoch] + epochs) == Max(epoch, last);
      SameSchedule(e, e', last);
      if last >= epoch {
        VestedMonotone(e, epoch, last);
      } else {
        VestedMonotone(e, last, epoch);
      }
    }
  }

  lemma SameSchedule(e: VestingEntry, e': VestingEntry, epoch: int)
    requires e' == e.(claimed := e'.claimed)
    ensures Vested(e', epoch) == Vested(e, epoch)
  {
  }

  lemma {:induction false} TotalDueStep(es: seq<VestingEntry>, epoch: int, epochs: seq<int>)
    requires AllGood(es)
    ensures AllGood(ClaimAll(es, epoch))
    ensures TotalDue(es, [epoch] + epochs) == ReleasedAt(es, epoch) + TotalDue(ClaimAll(es, epoch), epochs)
    decreases |es|
  {
    hide Due, ClaimableAt, Claim;
    if es != [] {
      DueStep(es[0], epoch, epochs);
      ClaimReaches(es[0], epoch);
      TotalDueStep(es[1..], epoch, epochs);
      assert ClaimAll(es, epoch)[1..] == ClaimAll(es[1..], epoch);
    }
  }

  lemma {:induction false} TotalDueAppend(es: seq<VestingEntry>, e: VestingEntry, epochs: seq<int>)
    ensures TotalDue(es + [e], epochs) == TotalDue(es, epochs) + Due(e, epochs)
    decreases |es|
  {
    hide Due;
    if es == [] {
      assert es + [e] == [e];
      assert TotalDue([e], epochs) == Due(e, epochs) + TotalDue([e][1..], epochs);
    } else {
      assert (es + [e])[1..] == es[1..] + [e];
      TotalDueAppend(es[1..], e, epochs);
    }
  }

  /** A finished entry owes nothing more, so removing it changes no later release. */
  lemma {:induction false} CleanedDue(es: seq<VestingEntry>, epochs: seq<int>)
    requires AllGood(es)
    ensures AllGood(Cleaned(es)) && TotalDue(Cleaned(es), epochs) == TotalDue(es, epochs)
    decreases |es|
  {
    hide Vested;
    if es != [] {
      CleanedDue(es[1..], epochs);
      if Remaining(es[0]) > 0 {
        assert Cleaned(es)[1..] == Cleaned(es[1..]);
      } else {
        assert Cleaned(es) == Cleaned(es[1..]);
        if epochs != [] {
          VestedBounds(es[0], Latest(epochs));
        }
      }
    }
  }

  /**
   Over any run of grants and claims, claims in any order and repeated at will, each entry releases
   what has vested by the latest claim made after it was granted; clean-up makes no difference.
   */
  lemma {:induction false} ReleasedIsVested(es: seq<VestingEntry>, ops: seq<VestingOp>, cleanUp: bool)
    requires AllGood(es) && Proper(ops)
    ensures Released(es, ops, cleanUp) == Expected(es, ops)
    decreases |ops|
  {
    hide Due, ClaimAll, ReleasedAt, Cleaned;
    if ops == [] {
      NothingDue(es);
    } else {
      match ops[0]
      case Grant(e) =>
        ReleasedIsVested(es + [e], ops[1..], cleanUp);
        TotalDueAppend(es, e, ClaimEpochs(ops[1..]));
        assert ClaimEpochs(ops) == ClaimEpochs(ops[1..]);
      case ClaimVested(epoch) =>
        var epochs := ClaimEpochs(ops[1..]);
        assert ClaimEpochs(ops) == [epoch] + epochs;
        var claimed := ClaimAll(es, epoch);
        TotalDueStep(es, epoch, epochs);
        CleanedDue(claimed, epochs);
        ReleasedIsVested(if cleanUp then Cleaned(claimed) else claimed, ops[1..], cleanUp);
    }
  }

  lemma {:induction false} NothingDue(es: seq<VestingEntry>)
    ensures TotalDue(es, []) == 0
    decreases |es|
  {
    if es != [] {
      NothingDue(es[1..]);
    }
  }

  ghost function TotalRemaining(es: seq<VestingEntry>): int
  {
    if es == [] then 0 else Remaining(es[0]) + TotalRemaining(es[1..])
  }

  /** No more than the rewards is ever released, and all of them once some claim comes after every end. */
  lemma {:induction false} DueBounds(es: seq<VestingEntry>, epochs: seq<int>)
    requires AllGood(es)
    ensures 0 <= TotalDue(es, epochs) <= TotalRemaining(es)
    ensures epochs != [] && (forall i :: 0 <= i < |es| ==>
        Latest(epochs) >= es[i].start && Latest(epochs) >= es[i].start + es[i].duration) ==>
              TotalDue(es, epochs) == TotalRemaining(es)
    decreases |es|
  {
    if es != [] {
      DueBounds(es[1..], epochs);
      if epochs != [] {
        VestedBounds(es[0], Latest(epochs));
        if forall i :: 0 <= i < |es| ==>
            Latest(epochs) >= es[i].start && Latest(epochs) >= es[i].start + es[i].duration {
          assert Vested(es[0], Latest(epochs)) == es[0].amount;
          assert forall i :: 0 <= i < |es[1..]| ==> es[1..][i] == es[i + 1];
        }
      }
    }
  }

  // ----- the node's vesting list

  class NodeEconomics {
    var vesting: seq<VestingEntry>

    constructor ()
      ensures vesting == []
    {
      vesting := [];
    }

    method ClaimVested(epoch: int) returns (released: int)
      modifies this
      ensures vesting == Cleaned(ClaimAll(old(vesting), epoch))
      ensures released == ReleasedAt(old(vesting), epoch)
    {
      var updated;
      updated, released := ClaimEach(vesting, epoch);
      vesting := CleanUp(updated);
    }
  }

  lemma ClaimNone(epoch: int)
    ensures ClaimAll([], epoch) == [] && ReleasedAt([], epoch) == 0
  {
  }

  lemma ClaimNext(es: seq<VestingEntry>, i: nat, epoch: int)
    requires i < |es|
    ensures ClaimAll(es[i..], epoch) == [Claim(es[i], epoch)] + ClaimAll(es[i + 1..], epoch)
    ensures ReleasedAt(es[i..], epoch) == Max(0, ClaimableAt(es[i], epoch)) + ReleasedAt(es[i + 1..], epoch)
  {
    assert es[i..][1..] == es[i + 1..];
  }

  method ClaimEach(es: seq<VestingEntry>, epoch: int) returns (updated: seq<VestingEntry>, released: int)
    ensures updated == ClaimAll(es, epoch) && released == ReleasedAt(es, epoch)
  {
    hide ClaimableAt, ClaimAll, ReleasedAt;
    updated, released := [], 0;
    assert es[0..] == es;
    ClaimNone(epoch);
    for i := 0 to |es|
      invariant updated + ClaimAll(es[i..], epoch) == ClaimAll(es, epoch)
      invariant released + ReleasedAt(es[i..], epoch) == ReleasedAt(es, epoch)
    {
      ClaimNext(es, i, epoch);
      var claimable := ClaimableAt(es[i], epoch);
      var entry := es[i];
      if claimable > 0 {
        entry := entry.(claimed := entry.claimed + claimable);
        released := released + claimable;
      }
      updated := updated + [entry];
    }
    assert es[|es|..] == [];
  }

  method CleanUp(es: seq<VestingEntry>) returns (kept: seq<VestingEntry>)
    ensures kept == Cleaned(es)
  {
    kept := [];
    assert es[0..] == es;
    for i := 0 to |es|
      invariant kept + Cleaned(es[i..]) == Cleaned(es)
    {
      assert es[i..][1..] == es[i + 1..];
      if es[i].amount - es[i].claimed > 0 {
        kept := kept + [es[i]];
      }
    }
  }
}
