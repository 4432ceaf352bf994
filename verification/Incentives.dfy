/**
 Epoch settlement: claims are paid from the operator pool, pro rata when the pool is short.  The
 payment clamp is shown never to bind, and rounding to leave less than one unit per claimant.
 */
module Incentives {
  import opened Arithmetic
  import opened Ledgers
  import opened SlashAmounts
  import opened Sums

  /** The positive claims at the start of settlement. */
  ghost function Owed(accounts: map<Id, Account>): map<Id, int>
  {
    map id | id in accounts && accounts[id].claim > 0 :: accounts[id].claim
  }

  ghost function TotalOwed(b: Books): int
  {
    Sum(Owed(b.accounts))
  }

  ghost function Budget(b: Books): int
  {
    Min(TotalOwed(b), b.pool)
  }

  function Share(claim: int, budget: int, total: int): int
    requires total > 0
  {
    claim * budget / total
  }

  /** What each claimant receives. */
  ghost function Payouts(owed: map<Id, int>, budget: int, total: int): map<Id, int>
    requires total > 0
  {
    map id | id in owed :: Share(owed[id], budget, total)
  }

  // ----- rounding

  lemma ShareBounds(claim: int, budget: int, total: int)
    requires total > 0 && 0 <= claim && 0 <= budget <= total
    ensures 0 <= Share(claim, budget, total) <= claim
    ensures Share(claim, budget, total) * total <= claim * budget < (Share(claim, budget, total) + 1) * total
    ensures budget == total ==> Share(claim, budget, total) == claim
  {
    Fraction(claim, budget, total);
    var x := claim * budget;
    var q, r := x / total, x % total;
    assert x == q * total + r && 0 <= r < total;
    assert (q + 1) * total == q * total + total;
    if budget == total {
      DivModUnique(x, total, claim, 0);
    }
  }

  lemma PayoutsRest(owed: map<Id, int>, id: Id, budget: int, total: int)
    requires total > 0 && id in owed
    ensures Sum(owed) == owed[id] + Sum(owed - {id})
    ensures Sum(Payouts(owed, budget, total))
        == Share(owed[id], budget, total) + Sum(Payouts(owed - {id}, budget, total))
    ensures |owed| == |owed - {id}| + 1
  {
    hide Sum, Share;
    SumRemove(owed, id);
    SumRemove(Payouts(owed, budget, total), id);
    assert Payouts(owed, budget, total) - {id} == Payouts(owed - {id}, budget, total);
    assert owed.Keys == (owed - {id}).Keys + {id};
    assert |owed.Keys| == |owed| && |(owed - {id}).Keys| == |owed - {id}|;
  }

  /**
   Sum of floors against floor of sum: total*paid lies between budget*owed less total per claimant and
   budget*owed.
   */
  lemma {:induction false} PayoutsSum(owed: map<Id, int>, budget: int, total: int)
    requires total > 0 && 0 <= budget <= total && forall id :: id in owed ==> owed[id] > 0
    ensures Sum(Payouts(owed, budget, total)) * total <= Sum(owed) * budget
    ensures Sum(owed) * budget <= Sum(Payouts(owed, budget, total)) * total + |owed| * total
    ensures owed != map[] ==> Sum(owed) * budget < Sum(Payouts(owed, budget, total)) * total + |owed| * total
    decreases |owed|
  {
    hide Sum, Share, Payouts;
    if owed == map[] {
      PayoutsNone(budget, total);
    } else {
      var id :| id in owed;
      PayoutsSum(owed - {id}, budget, total);
      PayoutsRest(owed, id, budget, total);
      ShareBounds(owed[id], budget, total);
      RoundingStep(Sum(owed - {id}), Sum(Payouts(owed - {id}, budget, total)), |owed - {id}|,
                   owed[id], Share(owed[id], budget, total), budget, total);
    }
  }

  lemma PayoutsNone(budget: int, total: int)
    requires total > 0
    ensures Sum<Id>(map[]) == 0 && Sum(Payouts(map[], budget, total)) == 0
  {
    SumEmpty<Id>();
    assert Payouts(map[], budget, total) == map[];
  }

  lemma RoundingStep(s: int, p: int, n: int, claim: int, share: int, budget: int, total: int)
    requires p * total <= s * budget <= p * total + n * total
    requires share * total <= claim * budget < (share + 1) * total
    ensures (share + p) * total <= (claim + s) * budget < (share + p) * total + (n + 1) * total
  {
    assert (share + p) * total == share * total + p * total;
    assert (claim + s) * budget == claim * budget + s * budget;
    assert (n + 1) * total == n * total + total;
    assert (share + 1) * total == share * total + total;
  }

  /**
   Pro-rata settlement: payouts never exceed the budget and fall short of it by less than one unit
   per claimant; when the pool covers all claims every claim is paid in full.
   */
  lemma SettlementBounds(b: Books)
    requires Solvent(b) && TotalOwed(b) > 0
    ensures var owed, total, budget := Owed(b.accounts), TotalOwed(b), Budget(b);
            var paid := Sum(Payouts(owed, budget, total));
            && 0 <= budget - paid < |owed| && budget <= b.pool
            && (forall id :: id in owed ==> 0 <= Share(owed[id], budget, total) <= owed[id])
            && (b.pool >= total ==> paid == total && forall id :: id in owed ==>
                Share(owed[id], budget, total) == owed[id])
  {
    hide Sum, Share;
    var owed, total, budget := Owed(b.accounts), TotalOwed(b), Budget(b);
    var payouts := Payouts(owed, budget, total);
    SumEmpty<Id>();
    PayoutsSum(owed, budget, total);
    var paid := Sum(payouts);
    Cancel(total, paid, budget, |owed|);
    forall id | id in owed
      ensures 0 <= Share(owed[id], budget, total) <= owed[id]
      ensures b.pool >= total ==> Share(owed[id], budget, total) == owed[id]
    {
      ShareBounds(owed[id], budget, total);
    }
    if b.pool >= total {
      assert payouts == owed;
    }
  }

  lemma Cancel(total: int, paid: int, budget: int, n: int)
    requires total > 0 && paid * total <= total * budget < paid * total + n * total
    ensures 0 <= budget - paid < n
  {
    if paid > budget {
      MulLess(total, budget, paid);
      assert false;
    }
    assert (paid + n) * total == paid * total + n * total;
    if budget > paid + n {
      MulLess(total, paid + n, budget);
      assert false;
    }
  }

  // ----- settlement as a step on the books

  /** The payouts of the listed nodes. */
  ghost function PayoutsTo(b: Books, done: set<Id>): map<Id, int>
    requires TotalOwed(b) > 0
  {
    var owed := Owed(b.accounts);
    map id | id in owed && id in done :: Share(owed[id], Budget(b), TotalOwed(b))
  }

  function Paid(a: Account, share: int): Account
  {
    a.(paid := a.paid + share, claim := a.claim - share)
  }

  /** Pay the claims of the listed nodes and no others. */
  ghost function Settled(b: Books, done: set<Id>): Books
    requires TotalOwed(b) > 0
  {
    var payouts := PayoutsTo(b, done);
    b.(pool := b.pool - Sum(payouts),
       withdrawn := b.withdrawn + Sum(payouts),
       accounts := map id | id in b.accounts ::
         if id in payouts then Paid(b.accounts[id], payouts[id]) else b.accounts[id])
  }

  /** What one epoch's settlement pays, and the books after it. */
  ghost function EpochPayouts(b: Books): map<Id, int>
  {
    if TotalOwed(b) > 0 then PayoutsTo(b, Owed(b.accounts).Keys) else map[]
  }

  ghost function AfterEpoch(b: Books): Books
  {
    if TotalOwed(b) > 0 then Settled(b, Owed(b.accounts).Keys) else b
  }

  lemma AllPayouts(b: Books)
    requires TotalOwed(b) > 0
    ensures EpochPayouts(b) == Payouts(Owed(b.accounts), Budget(b), TotalOwed(b))
  {
    hide Sum, Share;
  }

  /** Nobody is paid before the books are settled. */
  lemma SettledNone(b: Books)
    requires TotalOwed(b) > 0
    ensures Settled(b, {}) == b && PayoutsTo(b, {}) == map[]
  {
    hide Share;
    assert PayoutsTo(b, {}) == map[];
    SumEmpty<Id>();
    hide Sum;
    assert Settled(b, {}).accounts == b.accounts;
  }

  /** The pool still covers the next share, so the clamp on payments never binds. */
  lemma ClampNeverBinds(b: Books, done: set<Id>, id: Id)
    requires Solvent(b) && TotalOwed(b) > 0 && id in Owed(b.accounts) && id !in done
    ensures var share := Share(b.accounts[id].claim, Budget(b), TotalOwed(b));
            && 0 <= share <= b.accounts[id].claim && share <= Settled(b, done).pool
            && Sum(PayoutsTo(b, done + {id})) == Sum(PayoutsTo(b, done)) + share
  {
    hide Sum, Share, TotalOwed, Budget, Solvent;
    SettlementBounds(b);
    AllPayouts(b);
    var share := Share(b.accounts[id].claim, Budget(b), TotalOwed(b));
    var more := PayoutsTo(b, done + {id});
    SumRemove(more, id);
    assert more - {id} == PayoutsTo(b, done);
    SumMonotone(more, EpochPayouts(b));
  }

  lemma SettledStep(b: Books, done: set<Id>, id: Id)
    requires Solvent(b) && TotalOwed(b) > 0 && id in Owed(b.accounts) && id !in done
    ensures var share := Share(b.accounts[id].claim, Budget(b), TotalOwed(b));
            var now := Settled(b, done);
            && id in now.accounts && now.accounts[id] == b.accounts[id] && 0 <= share <= now.pool
            && Settled(b, done + {id}) ==
               now.(pool := now.pool - share, withdrawn := now.withdrawn + share,
                    accounts := now.accounts[id := Paid(now.accounts[id], share)])
            && PayoutsTo(b, done + {id}) == PayoutsTo(b, done)[id := share]
  {
    hide Sum, Share, TotalOwed, Budget, Solvent;
    ClampNeverBinds(b, done, id);
    var share := Share(b.accounts[id].claim, Budget(b), TotalOwed(b));
    assert PayoutsTo(b, done + {id}) == PayoutsTo(b, done)[id := share];
    assert Settled(b, done + {id}).accounts == Settled(b, done).accounts[id := Paid(b.accounts[id], share)];
  }

  lemma OwedNonNegative(b: Books)
    requires Solvent(b)
    ensures TotalOwed(b) >= 0 && TotalOwed(b) == Sum(Claims(b.accounts))
  {
    hide Sum;
    SumNonNegative(Owed(b.accounts));
    OwedIsClaims(b.accounts);
  }

  lemma {:induction false} OwedIsClaims(accounts: map<Id, Account>)
    requires forall id :: id in accounts ==> accounts[id].claim >= 0
    ensures Sum(Owed(accounts)) == Sum(Claims(accounts))
    decreases |accounts|
  {
    hide Sum;
    SumEmpty<Id>();
    if accounts == map[] {
      assert Owed(accounts) == map[] && Claims(accounts) == map[];
    } else {
      var id :| id in accounts;
      var rest := accounts - {id};
      OwedIsClaims(rest);
      SumRemove(Claims(accounts), id);
      assert Claims(accounts) - {id} == Claims(rest);
      if accounts[id].claim > 0 {
        SumRemove(Owed(accounts), id);
        assert Owed(accounts) - {id} == Owed(rest);
      } else {
        assert Owed(accounts) == Owed(rest);
      }
    }
  }

  ghost function PayClaim(b: Books, id: Id, share: int): Books
    requires id in b.accounts
  {
    b.(pool := b.pool - share, withdrawn := b.withdrawn + share,
        accounts := b.accounts[id := Paid(b.accounts[id], share)])
  }

  lemma PayClaimSolvent(b: Books, id: Id, share: int)
    requires Solvent(b) && id in b.accounts && 0 <= share <= b.pool && share <= b.accounts[id].claim
    ensures Solvent(PayClaim(b, id, share))
    ensures Sum(Claims(PayClaim(b, id, share).accounts)) == Sum(Claims(b.accounts)) - share
  {
    hide Sum, Bonds, Claims;
    BondsUpdate(b.accounts, id, Paid(b.accounts[id], share));
    ClaimsUpdate(b.accounts, id, Paid(b.accounts[id], share));
  }

  /** At every point of a settlement the books are solvent, and what is paid comes off the claims. */
  lemma {:induction false} SettledSolvent(b: Books, done: set<Id>)
    requires Solvent(b) && TotalOwed(b) > 0 && done <= Owed(b.accounts).Keys
    ensures Solvent(Settled(b, done))
    ensures Sum(Claims(Settled(b, done).accounts)) + Sum(PayoutsTo(b, done)) == Sum(Claims(b.accounts))
    decreases |done|
  {
    hide Sum, Solvent, TotalOwed, Budget, Claims, Settled, PayoutsTo, Share;
    if done == {} {
      SettledNone(b);
      SumEmpty<Id>();
    } else {
      var id :| id in done;
      var before := done - {id};
      assert before + {id} == done;
      SettledSolvent(b, before);
      ClampNeverBinds(b, before, id);
      SettledStep(b, before, id);
      PayClaimSolvent(Settled(b, before), id, Share(b.accounts[id].claim, Budget(b), TotalOwed(b)));
    }
  }

  /**
   One epoch's settlement: the books stay solvent, what is paid plus what is carried is what was
   claimed, the payout total is what leaves the pool, nobody gets more than the claim, and the
   budget left unpaid is below the number of claimants.  Everyone is paid in full exactly when the
   pool covers the claims.
   */
  lemma SettlementSound(b: Books)
    requires Solvent(b)
    ensures var after, payouts := AfterEpoch(b), EpochPayouts(b);
            && Solvent(after)
            && payouts.Keys == Owed(b.accounts).Keys
            && (forall id :: id in payouts ==>
                0 <= payouts[id] <= b.accounts[id].claim && id in after.accounts
                && after.accounts[id].claim == b.accounts[id].claim - payouts[id])
            && Sum(payouts) + Sum(Claims(after.accounts)) == Sum(Claims(b.accounts))
            && after.pool == b.pool - Sum(payouts)
            && (payouts != map[] ==> 0 <= Budget(b) - Sum(payouts) < |payouts|)
            && (b.pool >= TotalOwed(b) <==> Sum(payouts) == TotalOwed(b))
            && (b.pool >= TotalOwed(b) ==> forall id :: id in after.accounts ==> after.accounts[id].claim == 0)
  {
    hide Sum, Share, Solvent, Claims;
    OwedNonNegative(b);
    var owed := Owed(b.accounts);
    SumEmpty<Id>();
    if TotalOwed(b) > 0 {
      SettledSolvent(b, owed.Keys);
      SettlementBounds(b);
      AllPayouts(b);
      ClaimsNonNegative(b);
    } else {
      NothingOwed(b);
      PoolNonNegative(b);
    }
  }

  lemma EmptyPoolPaysNothing(b: Books)
    requires Solvent(b) && b.pool == 0
    ensures Sum(EpochPayouts(b)) == 0 && Sum(Claims(AfterEpoch(b).accounts)) == Sum(Claims(b.accounts))
  {
    hide Sum, Claims, Solvent, AfterEpoch, EpochPayouts, Owed;
    SettlementSound(b);
    OwedNonNegative(b);
    SumNonNegative(EpochPayouts(b));
    SumEmpty<Id>();
  }

  lemma PoolNonNegative(b: Books)
    requires Solvent(b)
    ensures b.pool >= 0
  {
  }

  lemma ClaimsNonNegative(b: Books)
    requires Solvent(b)
    ensures forall id :: id in b.accounts ==> b.accounts[id].claim >= 0
  {
  }

  lemma NothingOwed(b: Books)
    requires Solvent(b) && TotalOwed(b) == 0
    ensures Owed(b.accounts) == map[] && forall id :: id in b.accounts ==> b.accounts[id].claim == 0
  {
    hide Sum;
    forall id | id in b.accounts
      ensures b.accounts[id].claim == 0
    {
      if b.accounts[id].claim > 0 {
        SumMember(Owed(b.accounts), id);
        assert false;
      }
    }
    assert Owed(b.accounts) == map[];
  }

  // ----- metering

  const GIB := 1073741824
  const SECONDS_PER_MONTH := 2592000

  function StorageRate(c: Config, byteSeconds: int): int
  {
    byteSeconds * c.pricePerGibMonth / (GIB * SECONDS_PER_MONTH)
  }

  function ServingRate(c: Config, bytesServed: int): int
  {
    bytesServed * c.pricePerGibServed / GIB
  }

  function Metered(c: Config, bytesStored: int, seconds: int, bytesServed: int): int
  {
    StorageRate(c, bytesStored * seconds) + ServingRate(c, bytesServed)
  }

  /** Storage by byte-second and serving by byte, each rounded down to whole units. */
  lemma MeteredMeans(c: Config, bytesStored: int, seconds: int, bytesServed: int)
    ensures Metered(c, bytesStored, seconds, bytesServed)
         == bytesStored * seconds * c.pricePerGibMonth / (1073741824 * 2592000)
            + bytesServed * c.pricePerGibServed / 1073741824
  {
  }

  lemma MeteredNonNegative(c: Config, bytesStored: int, seconds: int, bytesServed: int)
    requires GoodConfig(c) && bytesStored >= 0 && seconds >= 0 && bytesServed >= 0
    ensures Metered(c, bytesStored, seconds, bytesServed) >= 0
  {
    assert bytesStored * seconds >= 0;
    assert bytesStored * seconds * c.pricePerGibMonth >= 0;
    assert bytesServed * c.pricePerGibServed >= 0;
  }

  /** A GiB kept for a month costs the month's price, a GiB served the serving price, and more never costs less. */
  lemma RatesMeanPrices(c: Config, x: int, y: int)
    requires GoodConfig(c) && 0 <= x <= y
    ensures StorageRate(c, GIB * SECONDS_PER_MONTH) == c.pricePerGibMonth && ServingRate(c, GIB) == c.pricePerGibServed
    ensures StorageRate(c, x) <= StorageRate(c, y) && ServingRate(c, x) <= ServingRate(c, y)
  {
    DivModUnique(GIB * SECONDS_PER_MONTH * c.pricePerGibMonth, GIB * SECONDS_PER_MONTH, c.pricePerGibMonth, 0);
    DivModUnique(GIB * c.pricePerGibServed, GIB, c.pricePerGibServed, 0);
    PartOf(c.pricePerGibMonth, x, y);
    PartOf(c.pricePerGibServed, x, y);
    DivMonotone(x * c.pricePerGibMonth, y * c.pricePerGibMonth, GIB * SECONDS_PER_MONTH);
    DivMonotone(x * c.pricePerGibServed, y * c.pricePerGibServed, GIB);
  }

  datatype Report = Report(node: Id, bytesStored: int, secondsStored: int, bytesServed: int, auditsPassed: int,
      auditsTotal: int)

  /** The checks made when a report is built. */
  predicate WellFormed(r: Report)
  {
    r.bytesStored >= 0 && r.secondsStored >= 0 && r.bytesServed >= 0 && 0 <= r.auditsPassed <= r.auditsTotal
  }

  /** Pay scales with the audit pass ratio; unaudited work earns nothing. */
  function ReportPay(c: Config, r: Report): int
  {
    if r.auditsTotal <= 0 then 0
    else Metered(c, r.bytesStored, r.secondsStored, r.bytesServed) * r.auditsPassed / r.auditsTotal
  }

  lemma ReportPayBounds(c: Config, r: Report)
    requires GoodConfig(c) && WellFormed(r)
    ensures 0 <= ReportPay(c, r) <= Metered(c, r.bytesStored, r.secondsStored, r.bytesServed)
    ensures r.auditsPassed == r.auditsTotal > 0 ==>
        ReportPay(c, r) == Metered(c, r.bytesStored, r.secondsStored, r.bytesServed)
    ensures r.auditsTotal == 0 ==> ReportPay(c, r) == 0
    ensures r.auditsTotal > 0 ==>
              var metered := Metered(c, r.bytesStored, r.secondsStored, r.bytesServed);
              && ReportPay(c, r) * r.auditsTotal <= metered * r.auditsPassed
              && metered * r.auditsPassed < (ReportPay(c, r) + 1) * r.auditsTotal
  {
    var m := Metered(c, r.bytesStored, r.secondsStored, r.bytesServed);
    MeteredNonNegative(c, r.bytesStored, r.secondsStored, r.bytesServed);
    hide Metered;
    if r.auditsTotal > 0 {
      ShareBounds(m, r.auditsPassed, r.auditsTotal);
    }
  }

  ghost function Accrue(b: Books, node: Id, amount: int): Books
  {
    var a := AccountOf(b, node);
    b.(accounts := b.accounts[node := a.(claim := a.claim + amount)])
  }

  lemma AccrueSolvent(b: Books, node: Id, amount: int)
    requires Solvent(b) && amount >= 0
    ensures Solvent(Accrue(b, node, amount))
    ensures Sum(Claims(Accrue(b, node, amount).accounts)) == Sum(Claims(b.accounts)) + amount
  {
    hide Sum, Bonds, Claims;
    var a := AccountOf(b, node);
    BondsUpdate(b.accounts, node, a.(claim := a.claim + amount));
    ClaimsUpdate(b.accounts, node, a.(claim := a.claim + amount));
  }

  // ----- slashing

  ghost function Counted(b: Books, node: Id, failures: int): Books
  {
    var a := AccountOf(b, node);
    b.(accounts := b.accounts[node := a.(offenses := a.offenses + failures)])
  }

  ghost function Penalty(b: Books, node: Id, failures: int): int
  {
    var a := AccountOf(b, node);
    a.bond * Rate(TierFor(a.offenses + failures)) / 10000
  }

  /** The books after audit failures: the offense counter rises and the bond pays the tier's rate into insurance. */
  ghost function Slashed(b: Books, node: Id, failures: int): Books
  {
    if failures <= 0 then b
    else
      var counted, penalty := Counted(b, node, failures), Penalty(b, node, failures);
      var a := AccountOf(counted, node);
      counted.(accounts := counted.accounts[node := a.(bond := a.bond - penalty, slashed := a.slashed + penalty)],
               insurance := counted.insurance + penalty)
  }

  /**
   The penalty by cumulative offenses: 1% of the bond for the first, 5% from the second, 15% from the
   fourth, 30% from the sixth.
   */
  lemma PenaltyTiers(b: Books, node: Id, failures: int)
    ensures var a := AccountOf(b, node);
            var n := a.offenses + failures;
            && (n < 2 ==> Penalty(b, node, failures) == a.bond / 100)
            && (2 <= n < 4 ==> Penalty(b, node, failures) == a.bond * 5 / 100)
            && (4 <= n < 6 ==> Penalty(b, node, failures) == a.bond * 15 / 100)
            && (n >= 6 ==> Penalty(b, node, failures) == a.bond * 30 / 100)
  {
    var bond := AccountOf(b, node).bond;
    assert bond * 100 / 10000 == bond / 100 && bond * 500 / 10000 == bond * 5 / 100;
    assert bond * 1500 / 10000 == bond * 15 / 100 && bond * 3000 / 10000 == bond * 30 / 100;
  }

  /** A slash moves the penalty from the bond to insurance, counts the failures, and touches nothing else. */
  lemma SlashedEffect(b: Books, node: Id, failures: int)
    requires failures > 0
    ensures var after, penalty := Slashed(b, node, failures), Penalty(b, node, failures);
            var a, a' := AccountOf(b, node), AccountOf(after, node);
            && a' == a.(bond := a.bond - penalty, slashed := a.slashed + penalty, offenses := a.offenses + failures)
            && after.insurance == b.insurance + penalty && after.pool == b.pool && after.treasury == b.treasury
            && after.customers == b.customers && after.deposited == b.deposited && after.withdrawn == b.withdrawn
            && forall id :: id != node ==> AccountOf(after, id) == AccountOf(b, id)
  {
    hide Penalty;
  }

  lemma CountedSolvent(b: Books, node: Id, failures: int)
    requires Solvent(b)
    ensures Solvent(Counted(b, node, failures)) && 0 <= Penalty(b, node, failures) <= AccountOf(b, node).bond
  {
    hide Sum, Bonds;
    var a := AccountOf(b, node);
    BondsUpdate(b.accounts, node, a.(offenses := a.offenses + failures));
    Fraction(a.bond, Rate(TierFor(a.offenses + failures)), 10000);
  }

  // ----- the incentive object

  datatype Snapshot = Snapshot(
    epoch: int, totalClaims: int, totalPaid: int, poolBefore: int, poolAfter: int,
    payouts: map<Id, int>, carried: map<Id, int>)

  ghost function EpochSnapshot(b: Books, epoch: int): Snapshot
  {
    var after, payouts := AfterEpoch(b), EpochPayouts(b);
    Snapshot(epoch, TotalOwed(b), Sum(payouts), b.pool, after.pool, payouts, Owed(after.accounts))
  }

  /**
   The report adds up: paid and carried make the claims, what left the pool is what was paid, and
   everybody with a claim is listed.
   */
  lemma SnapshotAddsUp(b: Books, epoch: int)
    requires Solvent(b)
    ensures var s := EpochSnapshot(b, epoch);
            && s.epoch == epoch && s.totalClaims == Sum(Claims(b.accounts)) && s.totalPaid == Sum(s.payouts)
            && s.poolBefore == b.pool && s.poolBefore - s.poolAfter == s.totalPaid
            && s.totalPaid + Sum(s.carried) == s.totalClaims
            && (forall id :: id in s.payouts <==> id in b.accounts && b.accounts[id].claim > 0)
            && (forall id :: id in s.carried ==>
                id in s.payouts && s.carried[id] == b.accounts[id].claim - s.payouts[id] > 0)
  {
    hide Sum, Solvent, Claims, Budget, Settled, PayoutsTo;
    OwedNonNegative(b);
    SettlementSound(b);
    OwedNonNegative(AfterEpoch(b));
    CarriedAmong(b);
  }

  lemma CarriedAmong(b: Books)
    requires Solvent(b)
    ensures forall id :: id in Owed(AfterEpoch(b).accounts) ==> id in Owed(b.accounts)
  {
    hide Sum, Share;
  }

  class StableNodeIncentive {
    const ledger: StablecoinLedger

    constructor (l: StablecoinLedger)
      ensures ledger == l
    {
      ledger := l;
    }

    method Compensate(node: Id, bytesStored: int, seconds: int, bytesServed: int) returns (ok: bool, reward: int)
      requires ledger.Valid()
      modifies ledger
      ensures ledger.Valid() && ok == (bytesStored >= 0 && seconds >= 0 && bytesServed >= 0)
      ensures !ok ==> ledger.State() == old(ledger.State())
      ensures ok ==>
                && reward == (if AccountOf(old(ledger.State()), node).evicted then 0
                    else Metered(ledger.config, bytesStored, seconds, bytesServed))
                && ledger.State() == Accrue(old(ledger.State()), node, reward)
    {
      hide Solvent, StorageRate, ServingRate;
      if bytesStored < 0 || seconds < 0 || bytesServed < 0 { return false, 0; }
      ok := true;
      MeteredNonNegative(ledger.config, bytesStored, seconds, bytesServed);
      var a := if node in ledger.accounts then ledger.accounts[node] else NEW_ACCOUNT;
      reward := if a.evicted then 0
          else StorageRate(ledger.config, bytesStored * seconds) + ServingRate(ledger.config, bytesServed);
      AccrueSolvent(ledger.State(), node, reward);
      ledger.accounts := ledger.accounts[node := a.(claim := a.claim + reward)];
    }

    /** The clamp of the ledger does not bind here either: the penalty is within the bond. */
    method Slash(node: Id, failures: int) returns (slashed: int)
      requires ledger.Valid()
      modifies ledger
      ensures ledger.Valid() && ledger.State() == Slashed(old(ledger.State()), node, failures)
      ensures slashed == (if failures > 0 then Penalty(old(ledger.State()), node, failures) else 0)
    {
      hide Solvent;
      if failures <= 0 { return 0; }
      ghost var start := ledger.State();
      var a := if node in ledger.accounts then ledger.accounts[node] else NEW_ACCOUNT;
      ledger.accounts := ledger.accounts[node := a.(offenses := a.offenses + failures)];
      CountedSolvent(start, node, failures);
      var tier := TierForOffenseCount(a.offenses + failures);
      var penalty := a.bond * Rate(tier) / 10000;
      var ok, s := ledger.SlashBond(node, penalty);
      slashed := s;
    }

    method AccrueReport(r: Report) returns (accrued: int)
      requires ledger.Valid() && WellFormed(r)
      modifies ledger
      ensures ledger.Valid()
      ensures accrued == if AccountOf(old(ledger.State()), r.node).evicted then 0 else ReportPay(ledger.config, r)
      ensures var failures := r.auditsTotal - r.auditsPassed;
              ledger.State() == Slashed(Accrue(old(ledger.State()), r.node, accrued), r.node,
                                        if failures >= ledger.config.slashFailureThreshold then failures else 0)
    {
      hide Solvent, StorageRate, ServingRate, Slashed;
      var a := if r.node in ledger.accounts then ledger.accounts[r.node] else NEW_ACCOUNT;
      if a.evicted || r.auditsTotal == 0 {
        accrued := 0;
      } else {
        var metered := StorageRate(ledger.config, r.bytesStored * r.secondsStored)
            + ServingRate(ledger.config, r.bytesServed);
        accrued := metered * r.auditsPassed / r.auditsTotal;
      }
      ReportPayBounds(ledger.config, r);
      AccrueSolvent(ledger.State(), r.node, accrued);
      ledger.accounts := ledger.accounts[r.node := a.(claim := a.claim + accrued)];
      SlashedNothing(ledger.State(), r.node);
      if r.auditsTotal - r.auditsPassed >= ledger.config.slashFailureThreshold {
        var _ := Slash(r.node, r.auditsTotal - r.auditsPassed);
      }
    }

    method SettleEpoch(epoch: int) returns (snapshot: Snapshot)
      requires ledger.Valid()
      modifies ledger
      ensures ledger.Valid() && ledger.State() == AfterEpoch(old(ledger.State()))
      ensures snapshot == EpochSnapshot(old(ledger.State()), epoch)
    {
      hide Solvent, Sum, Share, Settled, PayoutsTo, Claims, Apply, CarriedBy;
      ghost var start := ledger.State();
      var owed := map id | id in ledger.accounts && ledger.accounts[id].claim > 0 :: ledger.accounts[id].claim;
      assert owed == Owed(start.accounts);
      var totalClaims := Total(owed);
      var poolBefore := ledger.pool;
      OwedNonNegative(start);
      if totalClaims == 0 {
        NothingOwed(start);
        SumEmpty<Id>();
        return Snapshot(epoch, 0, 0, poolBefore, poolBefore, map[], map[]);
      }
      var budget := Min(totalClaims, poolBefore);
      var totalPaid := 0;
      var payouts: map<Id, int> := map[];
      var carried: map<Id, int> := map[];
      var todo := owed.Keys;
      ghost var done: set<Id> := {};
      SettledNone(start);
      SumEmpty<Id>();
      CarriedNone(ledger.accounts);
      while todo != {}
        invariant todo !! done && todo + done == owed.Keys
        invariant ledger.Valid() && ledger.State() == Settled(start, done)
        invariant payouts == PayoutsTo(start, done) && totalPaid == Sum(payouts)
        invariant carried == CarriedBy(ledger.accounts, done)
        decreases todo
      {
        var id :| id in todo;
        todo := todo - {id};
        SettledStep(start, done, id);
        ClampNeverBinds(start, done, id);
        var share := Share(ledger.accounts[id].claim, budget, totalClaims);
        CarriedNext(ledger.accounts, done, id, Paid(ledger.accounts[id], share));
        var paid := PayOne(id, share);
        payouts := payouts[id := paid];
        totalPaid := totalPaid + paid;
        if ledger.accounts[id].claim > 0 {
          carried := carried[id := ledger.accounts[id].claim];
        }
        done := done + {id};
      }
      assert done == owed.Keys;
      CarriedAll(start);
      snapshot := Snapshot(epoch, totalClaims, totalPaid, poolBefore, ledger.pool, payouts, carried);
    }

    /** One turn of the settlement loop. */
    method PayOne(id: Id, share: int) returns (paid: int)
      requires ledger.Valid() && id in ledger.accounts && 0 <= share <= ledger.pool
          && share <= ledger.accounts[id].claim
      modifies ledger
      ensures ledger.Valid() && paid == share && ledger.State() == PayClaim(old(ledger.State()), id, share)
    {
      hide Solvent;
      PayClaimSolvent(ledger.State(), id, share);
      var ok, p := ledger.PayFromPool(id, share);
      paid := p;
      var a := ledger.accounts[id];
      ledger.accounts := ledger.accounts[id := a.(claim := a.claim - paid)];
      assert ledger.accounts == old(ledger.accounts)[id := Paid(old(ledger.accounts[id]), share)];
      assert ledger.State() == PayClaim(old(ledger.State()), id, share);
    }
  }

  /** The unpaid claims of the nodes already visited. */
  ghost function CarriedBy(accounts: map<Id, Account>, done: set<Id>): map<Id, int>
  {
    map id | id in done && id in Owed(accounts) :: accounts[id].claim
  }

  lemma CarriedNone(accounts: map<Id, Account>)
    ensures CarriedBy(accounts, {}) == map[]
  {
  }

  lemma CarriedNext(accounts: map<Id, Account>, done: set<Id>, id: Id, a: Account)
    requires id !in done
    ensures CarriedBy(accounts[id := a], done + {id})
         == if a.claim > 0 then CarriedBy(accounts, done)[id := a.claim] else CarriedBy(accounts, done)
  {
  }

  /** Only an unpaid part of a claim is carried. */
  lemma CarriedAll(b: Books)
    requires TotalOwed(b) > 0
    ensures CarriedBy(AfterEpoch(b).accounts, Owed(b.accounts).Keys) == Owed(AfterEpoch(b).accounts)
  {
    hide Sum, Share;
  }

  lemma SlashedNothing(b: Books, node: Id)
    ensures Slashed(b, node, 0) == b
  {
  }
}
