/**
 The inference market: receipts are quoted, billed once, and split into the ledger's pools.  The
 serving node's claim is the operator share that the same settlement put in the pool, which is why
 epoch settlement can always pay it.
 */
module InferenceMarkets {
  import opened Options
  import opened Sums
  import opened Ledgers
  import opened Incentives

  const MTOK := 1000000

  datatype Pricing = Pricing(model: Id, inputRate: int, outputRate: int)

  /** The checks made when a listing is built. */
  predicate GoodPricing(p: Pricing)
  {
    p.model != "" && p.inputRate >= 0 && p.outputRate >= 0
  }

  // ----- quotes

  /** Ceiling division, written with the floor. */
  function CeilDiv(a: int, m: int): int
    requires m > 0
  {
    -((-a) / m)
  }

  lemma CeilBounds(a: int, m: int)
    requires m > 0
    ensures m * (CeilDiv(a, m) - 1) < a <= m * CeilDiv(a, m)
  {
    var q, r := (-a) / m, (-a) % m;
    assert -a == m * q + r && 0 <= r < m;
    assert m * (-q) == -(m * q);
    assert m * (-q - 1) == -(m * q) - m;
  }

  function Quote(p: Pricing, inputTokens: int, outputTokens: int): int
  {
    CeilDiv(inputTokens * p.inputRate, MTOK) + CeilDiv(outputTokens * p.outputRate, MTOK)
  }

  /** The quote covers the exact metered cost and exceeds it by less than one unit per direction. */
  lemma QuoteRoundsUp(p: Pricing, inputTokens: int, outputTokens: int)
    requires GoodPricing(p) && inputTokens >= 0 && outputTokens >= 0
    ensures var exact := inputTokens * p.inputRate + outputTokens * p.outputRate;
            && 0 <= exact <= MTOK * Quote(p, inputTokens, outputTokens) < exact + 2 * MTOK
            && (Quote(p, inputTokens, outputTokens) == 0 <==> exact == 0)
  {
    var a, b := inputTokens * p.inputRate, outputTokens * p.outputRate;
    assert a >= 0 && b >= 0;
    CeilBounds(a, MTOK);
    CeilBounds(b, MTOK);
  }

  lemma QuoteMonotone(p: Pricing, i: int, o: int, i': int, o': int)
    requires GoodPricing(p) && 0 <= i <= i' && 0 <= o <= o'
    ensures Quote(p, i, o) <= Quote(p, i', o')
  {
    CeilMonotone(i, i', p.inputRate);
    CeilMonotone(o, o', p.outputRate);
  }

  lemma CeilMonotone(x: int, y: int, rate: int)
    requires 0 <= x <= y && rate >= 0
    ensures CeilDiv(x * rate, MTOK) <= CeilDiv(y * rate, MTOK)
  {
    assert (y - x) * rate >= 0;
    assert y * rate == x * rate + (y - x) * rate;
    CeilBounds(x * rate, MTOK);
    CeilBounds(y * rate, MTOK);
  }

  // ----- settlement

  datatype Receipt = Receipt(
    request: Id, node: Id, model: Id, inputTokens: int, outputTokens: int, requestDigest: string,
        responseDigest: string)

  /** The checks made when a receipt is built. */
  predicate GoodReceipt(r: Receipt)
  {
    && r.request != "" && r.node != "" && r.model != "" && r.inputTokens >= 0 && r.outputTokens >= 0
    && Digest(r.requestDigest) && Digest(r.responseDigest)
  }

  predicate Digest(d: string)
  {
    |d| == 64 && forall i :: 0 <= i < |d| ==> '0' <= d[i] <= '9' || 'a' <= d[i] <= 'f'
  }

  datatype Error =
    | Unlisted
    | AlreadySettled
    | Unverified
    | Underpaid(paid: int, due: int)
    | NoCustomer
    | InsufficientBalance(balance: int, due: int)

  datatype Settlement = Settlement(
    request: Id, node: Id, model: Id, revenue: int, claim: int, insurance: int, treasury: int,
    customer: Option<Id>, balanceAfter: Option<int>)

  datatype Outcome = Billed(settlement: Settlement) | Refused(error: Error)

  datatype Market = Market(
    books: Books, pricing: map<Id, Pricing>, settled: set<Id>, revenue: map<Id, int>, tokens: map<Id, int>)

  function Get(m: map<Id, int>, id: Id): int
  {
    if id in m then m[id] else 0
  }

  /** What stops a receipt from being settled, before payment is looked at. */
  function Objection(verify: Receipt -> bool, m: Market, r: Receipt): Option<Error>
  {
    if r.model !in m.pricing then Some(Unlisted)
    else if r.request in m.settled then Some(AlreadySettled)
    else if !verify(r) then Some(Unverified)
    else None
  }

  function Due(m: Market, r: Receipt): int
    requires r.model in m.pricing
  {
    Quote(m.pricing[r.model], r.inputTokens, r.outputTokens)
  }

  /** Why a settlement is refused, if it is. */
  function WhyNot(verify: Receipt -> bool, m: Market, op: MarketOp): Option<Error>
    requires op.Settle? || op.SettlePrepaid?
  {
    match op
    case Settle(r, paid) =>
      if Objection(verify, m, r) != None then Objection(verify, m, r)
      else if paid < Due(m, r) then Some(Underpaid(paid, Due(m, r)))
      else None
    case SettlePrepaid(r, customer) =>
      if customer == "" then Some(NoCustomer)
      else if Objection(verify, m, r) != None then Objection(verify, m, r)
      else if Balance(m.books, customer) < Due(m, r)
          then Some(InsufficientBalance(Balance(m.books, customer), Due(m, r)))
      else None
  }

  /** The claim a settlement gives its node: nothing once the node is evicted. */
  function Earned(b: Books, node: Id, operator: int): int
  {
    if AccountOf(b, node).evicted then 0 else operator
  }

  /** The market after a payment of `revenue` has been split into the books. */
  ghost function Recorded(c: Config, m: Market, r: Receipt, revenue: int): Market
  {
    m.(books := Accrue(m.books, r.node, Earned(m.books, r.node, Operator(c, revenue))),
       settled := m.settled + {r.request},
       revenue := m.revenue[r.model := Get(m.revenue, r.model) + revenue],
       tokens := m.tokens[r.model := Get(m.tokens, r.model) + r.inputTokens + r.outputTokens])
  }

  // ----- runs

  datatype MarketOp =
    | Register(listing: Pricing)
    | Settle(receipt: Receipt, paid: int)
    | SettlePrepaid(receipt: Receipt, customer: Id)
    | Epoch
    | AuditFailures(node: Id, failures: int)
    | EvictAccount(node: Id, forfeits: bool)
    | Meter(node: Id, reward: int)
    | OnLedger(op: Op)

  /** Inputs as the constructors build them. */
  predicate Proper(op: MarketOp)
  {
    match op
    case Register(p) => GoodPricing(p)
    case Settle(r, _) => GoodReceipt(r)
    case SettlePrepaid(r, _) => GoodReceipt(r)
    case Meter(_, reward) => reward >= 0
    case _ => true
  }

  /** Gives no claim outside a settlement and pays no node outside epoch settlement. */
  predicate Backed(op: MarketOp)
  {
    !op.Meter? && !(op.OnLedger? && op.op.PayFromPool?)
  }

  predicate Settles(verify: Receipt -> bool, m: Market, op: MarketOp)
  {
    (op.Settle? || op.SettlePrepaid?) && WhyNot(verify, m, op) == None
  }

  /** How a settlement that is not refused moves money. */
  function Payment(m: Market, op: MarketOp): Op
    requires op.Settle? || (op.SettlePrepaid? && op.receipt.model in m.pricing)
  {
    match op
    case Settle(_, paid) => DepositFee(paid)
    case SettlePrepaid(r, customer) => CustomerDebit(customer, Due(m, r))
  }

  ghost function Next(c: Config, verify: Receipt -> bool, m: Market, op: MarketOp): Market
    requires MarketSound(m) && Proper(op)
  {
    match op
    case Register(p) => m.(pricing := m.pricing[p.model := p])
    case Epoch => m.(books := AfterEpoch(m.books))
    case AuditFailures(node, failures) => m.(books := Slashed(m.books, node, failures))
    case EvictAccount(node, forfeits) => m.(books := EvictedBooks(c, m.books, node, forfeits))
    case Meter(node, reward) => m.(books := Accrue(m.books, node, reward))
    case OnLedger(o) => if Allowed(m.books, o) then m.(books := Apply(c, m.books, o)) else m
    case _ =>
      if WhyNot(verify, m, op) != None then m
      else
        DueNonNegative(m, op.receipt);
        var pay := Payment(m, op);
        Recorded(c, m.(books := Apply(c, m.books, pay)), op.receipt, pay.amount)
  }

  /** Eviction marks the account, which stops accrual, and forfeits or refunds the bond. */
  ghost function EvictedBooks(c: Config, b: Books, node: Id, forfeits: bool): Books
  {
    var marked := b.(accounts := b.accounts[node := AccountOf(b, node).(evicted := true)]);
    Apply(c, marked, if forfeits then ForfeitBond(node) else RefundBond(node))
  }

  lemma EvictKeepsCover(c: Config, b: Books, node: Id, forfeits: bool)
    requires GoodConfig(c) && Solvent(b)
    ensures var after := EvictedBooks(c, b, node, forfeits);
            && Solvent(after) && after.pool == b.pool && Sum(Claims(after.accounts)) == Sum(Claims(b.accounts))
            && node in after.accounts && after.accounts[node].evicted && after.accounts[node].bond == 0
            && (forfeits ==> after.insurance == b.insurance + AccountOf(b, node).bond && after.withdrawn == b.withdrawn)
            && (!forfeits ==>
                  after.withdrawn == b.withdrawn + AccountOf(b, node).bond && after.insurance == b.insurance)
  {
    hide Sum, Bonds, Claims;
    var account := AccountOf(b, node).(evicted := true);
    var marked := b.(accounts := b.accounts[node := account]);
    BondsUpdate(b.accounts, node, account);
    ClaimsUpdate(b.accounts, node, account);
    ApplySolvent(c, marked, if forfeits then ForfeitBond(node) else RefundBond(node));
  }

  lemma DueNonNegative(m: Market, r: Receipt)
    requires MarketSound(m) && GoodReceipt(r) && r.model in m.pricing
    ensures Due(m, r) >= 0
  {
    QuoteRoundsUp(m.pricing[r.model], r.inputTokens, r.outputTokens);
  }

  /** Listings are well formed and the books solvent. */
  ghost predicate MarketSound(m: Market)
  {
    Solvent(m.books) && forall id :: id in m.pricing ==> GoodPricing(m.pricing[id])
  }

  /** The operator pool covers every outstanding claim. */
  ghost predicate Covered(b: Books)
  {
    Sum(Claims(b.accounts)) <= b.pool
  }

  lemma LedgerKeepsCover(c: Config, b: Books, op: Op)
    requires GoodConfig(c) && Solvent(b) && Allowed(b, op) && !op.PayFromPool?
    ensures Apply(c, b, op).pool >= b.pool
    ensures op.DepositFee? || op.CustomerDebit? ==>
              Apply(c, b, op).pool == b.pool + Operator(c, op.amount) && Operator(c, op.amount) >= 0
  {
    hide Operator, Insurance, Treasury, Solvent;
    if op.DepositFee? || op.CustomerDebit? {
      SplitExact(c, op.amount);
    }
  }

  /** A settlement adds to the pool at least what it adds to the claims. */
  lemma SettlementKeepsCover(c: Config, verify: Receipt -> bool, m: Market, op: MarketOp)
    requires GoodConfig(c) && MarketSound(m) && Proper(op) && Settles(verify, m, op)
    ensures MarketSound(Next(c, verify, m, op))
    ensures Covered(m.books) ==> Covered(Next(c, verify, m, op).books)
  {
    hide Sum, Claims, Solvent, Apply, Operator, Accrue, AccountOf, Due;
    DueNonNegative(m, op.receipt);
    var pay := Payment(m, op);
    var b := Apply(c, m.books, pay);
    ApplySolvent(c, m.books, pay);
    LedgerKeepsCover(c, m.books, pay);
    var earned := Earned(b, op.receipt.node, Operator(c, pay.amount));
    AccrueSolvent(b, op.receipt.node, earned);
    AccruePool(b, op.receipt.node, earned);
  }

  lemma AccruePool(b: Books, node: Id, amount: int)
    ensures Accrue(b, node, amount).pool == b.pool && Accrue(b, node, amount).customers == b.customers
  {
  }

  lemma SlashKeepsCover(b: Books, node: Id, failures: int)
    requires Solvent(b)
    ensures Solvent(Slashed(b, node, failures)) && Slashed(b, node, failures).pool == b.pool
    ensures Sum(Claims(Slashed(b, node, failures).accounts)) == Sum(Claims(b.accounts))
  {
    hide Sum, Bonds, Claims, Penalty;
    if failures > 0 {
      CountedSolvent(b, node, failures);
      var a := AccountOf(b, node);
      var penalty := Penalty(b, node, failures);
      var cut := a.(offenses := a.offenses + failures, bond := a.bond - penalty, slashed := a.slashed + penalty);
      assert Slashed(b, node, failures).accounts == b.accounts[node := cut];
      ClaimsUpdate(b.accounts, node, cut);
      BondsUpdate(b.accounts, node, cut);
    }
  }

  lemma EpochKeepsCover(b: Books)
    requires Solvent(b)
    ensures Solvent(AfterEpoch(b)) && (Covered(b) ==> Covered(AfterEpoch(b)))
  {
    hide Sum, Claims, Solvent, TotalOwed, Budget, Owed, EpochPayouts;
    SettlementSound(b);
  }

  /** Every step keeps the books solvent; every backed step keeps the pool at or above the outstanding claims. */
  lemma NextSound(c: Config, verify: Receipt -> bool, m: Market, op: MarketOp)
    requires GoodConfig(c) && MarketSound(m) && Proper(op)
    ensures MarketSound(Next(c, verify, m, op))
    ensures Backed(op) && Covered(m.books) ==> Covered(Next(c, verify, m, op).books)
  {
    hide Sum, Claims, Solvent, Apply, AfterEpoch, Slashed, Accrue, EvictedBooks;
    match op
    case Register(_) =>
    case Epoch => EpochKeepsCover(m.books);
    case AuditFailures(node, failures) => SlashKeepsCover(m.books, node, failures);
    case EvictAccount(node, forfeits) => EvictKeepsCover(c, m.books, node, forfeits);
    case Meter(node, reward) => AccrueSolvent(m.books, node, reward);
    case OnLedger(o) =>
      if Allowed(m.books, o) {
        ApplySolvent(c, m.books, o);
        if Backed(op) {
          LedgerKeepsCover(c, m.books, o);
        }
      }
    case _ =>
      if Settles(verify, m, op) {
        SettlementKeepsCover(c, verify, m, op);
      }
  }

  ghost predicate AllProper(ops: seq<MarketOp>)
  {
    forall i :: 0 <= i < |ops| ==> Proper(ops[i])
  }

  ghost predicate AllBacked(ops: seq<MarketOp>)
  {
    forall i :: 0 <= i < |ops| ==> Backed(ops[i])
  }

  /** The state a run ends in. */
  ghost function After(c: Config, verify: Receipt -> bool, m: Market, ops: seq<MarketOp>): (last: Market)
    requires GoodConfig(c) && MarketSound(m) && AllProper(ops)
    ensures MarketSound(last)
    ensures AllBacked(ops) && Covered(m.books) ==> Covered(last.books)
    decreases |ops|
  {
    if ops == [] then m
    else
      NextSound(c, verify, m, ops[0]);
      After(c, verify, Next(c, verify, m, ops[0]), ops[1..])
  }

  const OPENING := Market(NO_BOOKS, map[], {}, map[], map[])

  lemma OpeningSound()
    ensures MarketSound(OPENING) && Covered(OPENING.books)
  {
    hide Solvent, Sum, Claims;
    EmptyBooks();
  }

  /**
   When claims arise only from settlements and the pool pays only through epoch settlement, the
   next epoch settlement after any run pays every claim in full and carries nothing.
   */
  lemma EveryEpochPaysInFull(c: Config, verify: Receipt -> bool, ops: seq<MarketOp>)
    requires GoodConfig(c) && AllProper(ops) && AllBacked(ops)
    ensures MarketSound(OPENING)
    ensures var b := After(c, verify, OPENING, ops).books;
            && EpochPayouts(b) == Owed(b.accounts)
            && Owed(AfterEpoch(b).accounts) == map[]
            && AfterEpoch(b).pool == b.pool - Sum(Claims(b.accounts)) >= 0
  {
    hide Sum, Claims, Solvent, Owed, AfterEpoch, EpochPayouts, Covered, OPENING;
    OpeningSound();
    CoveredPaysInFull(After(c, verify, OPENING, ops).books);
  }

  lemma CoveredPaysInFull(b: Books)
    requires Solvent(b) && Covered(b)
    ensures EpochPayouts(b) == Owed(b.accounts)
    ensures Owed(AfterEpoch(b).accounts) == map[]
    ensures AfterEpoch(b).pool == b.pool - Sum(Claims(b.accounts)) >= 0
  {
    hide Sum, Claims, Solvent, TotalOwed, Budget, AfterEpoch, EpochPayouts;
    OwedNonNegative(b);
    SettlementSound(b);
    FullPayouts(b);
    assert Owed(AfterEpoch(b).accounts) == map[];
  }

  lemma FullPayouts(b: Books)
    requires Solvent(b) && b.pool >= TotalOwed(b)
    ensures EpochPayouts(b) == Owed(b.accounts)
  {
    hide Sum, Share;
    OwedNonNegative(b);
    if TotalOwed(b) > 0 {
      SettlementBounds(b);
      AllPayouts(b);
    } else {
      NothingOwed(b);
    }
  }

  /** A metered claim has no fee behind it: with an empty pool it is carried, not paid. */
  lemma MeteredClaimIsCarried(b: Books, node: Id, reward: int)
    requires Solvent(b) && b.pool == 0 && Sum(Claims(b.accounts)) == 0 && reward > 0
    ensures var b' := Accrue(b, node, reward);
            !Covered(b') && Sum(EpochPayouts(b')) == 0 && Sum(Claims(AfterEpoch(b').accounts)) == reward
  {
    hide Sum, Claims, Solvent, Accrue, AfterEpoch, EpochPayouts;
    AccrueSolvent(b, node, reward);
    AccruePool(b, node, reward);
    EmptyPoolPaysNothing(Accrue(b, node, reward));
  }

  // ----- each request settles once

  /** How many steps of the run settle the request. */
  ghost function TimesSettled(c: Config, verify: Receipt -> bool, m: Market, ops: seq<MarketOp>, request: Id): (n: nat)
    requires GoodConfig(c) && MarketSound(m) && AllProper(ops)
    decreases |ops|
  {
    if ops == [] then 0
    else
      NextSound(c, verify, m, ops[0]);
      (if Settles(verify, m, ops[0]) && ops[0].receipt.request == request then 1 else 0)
      + TimesSettled(c, verify, Next(c, verify, m, ops[0]), ops[1..], request)
  }

  /** A step settles the request it bills, which was not settled before, and no other. */
  lemma NextSettled(c: Config, verify: Receipt -> bool, m: Market, op: MarketOp)
    requires MarketSound(m) && Proper(op)
    ensures Settles(verify, m, op) ==> op.receipt.request !in m.settled
    ensures Next(c, verify, m, op).settled == m.settled + if Settles(verify, m, op) then {op.receipt.request} else {}
  {
    hide MarketSound, Apply, AfterEpoch, Slashed, Accrue, Due, EvictedBooks;
  }

  /** A request settles at most once in a run, and the settled set records exactly those that did. */
  lemma {:induction false} SettledOnce(c: Config, verify: Receipt -> bool, m: Market, ops: seq<MarketOp>, request: Id)
    requires GoodConfig(c) && MarketSound(m) && AllProper(ops)
    ensures TimesSettled(c, verify, m, ops, request) <= 1
    ensures request in m.settled ==> TimesSettled(c, verify, m, ops, request) == 0
    ensures request in After(c, verify, m, ops).settled <==>
              request in m.settled || TimesSettled(c, verify, m, ops, request) == 1
    decreases |ops|
  {
    hide MarketSound, Next, Settles;
    if ops != [] {
      NextSound(c, verify, m, ops[0]);
      NextSettled(c, verify, m, ops[0]);
      SettledOnce(c, verify, Next(c, verify, m, ops[0]), ops[1..], request);
    }
  }

  // ----- what a settlement does

  /** A receipt settles exactly when it is listed, new, verified and paid for. */
  lemma SettlesExactly(verify: Receipt -> bool, m: Market, r: Receipt, paid: int, customer: Id)
    ensures Settles(verify, m, Settle(r, paid)) <==>
              && r.model in m.pricing && r.request !in m.settled && verify(r)
              && paid >= Quote(m.pricing[r.model], r.inputTokens, r.outputTokens)
    ensures Settles(verify, m, SettlePrepaid(r, customer)) <==>
              && |customer| > 0 && r.model in m.pricing && r.request !in m.settled && verify(r)
              && (if customer in m.books.customers then m.books.customers[customer] else 0)
                 >= Quote(m.pricing[r.model], r.inputTokens, r.outputTokens)
  {
    hide Quote;
  }

  /** What is billed: the payment, or the quote when it is debited. */
  function Billed(m: Market, op: MarketOp): int
    requires op.Settle? || (op.SettlePrepaid? && op.receipt.model in m.pricing)
  {
    match op
    case Settle(_, paid) => paid
    case SettlePrepaid(r, _) => Quote(m.pricing[r.model], r.inputTokens, r.outputTokens)
  }

  /**
   A settlement books its revenue and tokens on its model, splits the money into the three pools,
   and gives the operators' share as a claim to the serving node unless that is evicted.
   */
  lemma SettlementEffect(c: Config, verify: Receipt -> bool, m: Market, op: MarketOp)
    requires MarketSound(m) && Proper(op) && Settles(verify, m, op)
    ensures var after, r, amount := Next(c, verify, m, op), op.receipt, Billed(m, op);
            && after.settled == m.settled + {r.request} && after.pricing == m.pricing
            && (forall id :: Get(after.revenue, id) == Get(m.revenue, id) + if id == r.model then amount else 0)
            && (forall id ::
                  Get(after.tokens, id) == Get(m.tokens, id) + if id == r.model then r.inputTokens + r.outputTokens
                      else 0)
  {
    hide MarketSound, Apply, Accrue, Quote;
    DueNonNegative(m, op.receipt);
  }

  lemma SettlementMoney(c: Config, verify: Receipt -> bool, m: Market, op: MarketOp)
    requires MarketSound(m) && Proper(op) && Settles(verify, m, op)
    ensures var b, b', r, amount := m.books, Next(c, verify, m, op).books, op.receipt, Billed(m, op);
            var insurance, treasury := amount * c.insuranceBps / 10000, amount * c.treasuryBps / 10000;
            && b'.insurance == b.insurance + insurance && b'.treasury == b.treasury + treasury
            && b'.pool == b.pool + amount - insurance - treasury
            && AccountOf(b', r.node) == AccountOf(b, r.node).(claim := AccountOf(b, r.node).claim +
                 if AccountOf(b, r.node).evicted then 0 else amount - insurance - treasury)
            && (forall id :: id != r.node ==> AccountOf(b', id) == AccountOf(b, id))
            && (forall id ::
                  Balance(b', id) == Balance(b, id) - if op.SettlePrepaid? && id == op.customer then amount else 0)
            && b'.withdrawn == b.withdrawn && b'.deposited == b.deposited + if op.Settle? then amount else 0
  {
    hide MarketSound, Quote, Apply;
    DueNonNegative(m, op.receipt);
    FeeEffect(c, m.books, Payment(m, op));
  }

  /** The revenue booked over a run is what its settlements billed. */
  ghost function BilledOver(c: Config, verify: Receipt -> bool, m: Market, ops: seq<MarketOp>): int
    requires GoodConfig(c) && MarketSound(m) && AllProper(ops)
    decreases |ops|
  {
    if ops == [] then 0
    else
      NextSound(c, verify, m, ops[0]);
      (if Settles(verify, m, ops[0]) then Billed(m, ops[0]) else 0)
      + BilledOver(c, verify, Next(c, verify, m, ops[0]), ops[1..])
  }

  lemma {:induction false} RevenueIsBilled(c: Config, verify: Receipt -> bool, m: Market, ops: seq<MarketOp>)
    requires GoodConfig(c) && MarketSound(m) && AllProper(ops)
    ensures Sum(After(c, verify, m, ops).revenue) == Sum(m.revenue) + BilledOver(c, verify, m, ops)
    decreases |ops|
  {
    hide MarketSound, Next, Settles, Sum, Billed;
    if ops != [] {
      NextSound(c, verify, m, ops[0]);
      NextRevenue(c, verify, m, ops[0]);
      RevenueIsBilled(c, verify, Next(c, verify, m, ops[0]), ops[1..]);
    }
  }

  lemma NextRevenue(c: Config, verify: Receipt -> bool, m: Market, op: MarketOp)
    requires MarketSound(m) && Proper(op)
    ensures Sum(Next(c, verify, m, op).revenue) == Sum(m.revenue) + if Settles(verify, m, op) then Billed(m, op) else 0
  {
    hide MarketSound, Apply, Accrue, AfterEpoch, Slashed, EvictedBooks, Quote, Sum;
    if Settles(verify, m, op) {
      DueNonNegative(m, op.receipt);
      SumUpdate(m.revenue, op.receipt.model, Get(m.revenue, op.receipt.model) + Billed(m, op));
    }
  }

  // ----- the market object

  class InferenceMarket {
    const ledger: StablecoinLedger
    const verifier: Receipt -> bool
    var pricing: map<Id, Pricing>
    var settled: set<Id>
    var revenue: map<Id, int>
    var tokens: map<Id, int>

    ghost function State(): Market
      reads this, ledger
    {
      Market(ledger.State(), pricing, settled, revenue, tokens)
    }

    ghost predicate Valid()
      reads this, ledger
    {
      GoodConfig(ledger.config) && MarketSound(State())
    }

    constructor (l: StablecoinLedger, v: Receipt -> bool)
      ensures ledger == l && verifier == v && State() == Market(l.State(), map[], {}, map[], map[])
    {
      ledger, verifier, pricing, settled, revenue, tokens := l, v, map[], {}, map[], map[];
    }

    method RegisterModel(p: Pricing)
      requires Valid() && Proper(Register(p))
      modifies this
      ensures Valid() && State() == Next(ledger.config, verifier, old(State()), Register(p))
    {
      hide Solvent, Sum;
      pricing := pricing[p.model := p];
    }

    method ValidateForSettlement(r: Receipt) returns (objection: Option<Error>, due: int)
      requires Valid() && GoodReceipt(r)
      ensures objection == Objection(verifier, State(), r)
      ensures objection == None ==> r.model in pricing && due == Due(State(), r) && due >= 0
    {
      if r.model !in pricing { return Some(Unlisted), 0; }
      if r.request in settled { return Some(AlreadySettled), 0; }
      if !verifier(r) { return Some(Unverified), 0; }
      DueNonNegative(State(), r);
      return None, Quote(pricing[r.model], r.inputTokens, r.outputTokens);
    }

    /** The serving node's claim rises unless the node is evicted. */
    method AccrueClaim(node: Id, operator: int) returns (claim: int)
      requires ledger.Valid() && operator >= 0
      modifies ledger
      ensures ledger.Valid() && claim == Earned(old(ledger.State()), node, operator)
      ensures ledger.State() == Accrue(old(ledger.State()), node, claim)
    {
      hide Solvent;
      var account := if node in ledger.accounts then ledger.accounts[node] else NEW_ACCOUNT;
      claim := if !account.evicted then operator else 0;
      AccrueSolvent(ledger.State(), node, claim);
      ledger.accounts := ledger.accounts[node := account.(claim := account.claim + claim)];
    }

    method RecordSettlement(r: Receipt, paid: int, operator: int, customer: Option<Id>) returns (s: Settlement)
      requires this.ledger.Valid() && operator == Operator(ledger.config, paid) && operator >= 0
      modifies this, ledger
      ensures ledger.Valid() && State() == Recorded(ledger.config, old(State()), r, paid)
      ensures s == Settlement(r.request, r.node, r.model, paid, Earned(old(ledger.State()), r.node, operator),
                              Insurance(ledger.config, paid), Treasury(ledger.config, paid), customer,
                              if customer == None then None else Some(Balance(ledger.State(), customer.value)))
      ensures ledger.customers == old(ledger.customers)
    {
      hide Solvent, Operator, Insurance, Treasury, Accrue;
      AccruePool(ledger.State(), r.node, Earned(ledger.State(), r.node, operator));
      var claim := AccrueClaim(r.node, operator);
      settled := settled + {r.request};
      revenue := revenue[r.model := (if r.model in revenue then revenue[r.model] else 0) + paid];
      tokens := tokens[r.model := (if r.model in tokens then tokens[r.model] else 0) + r.inputTokens + r.outputTokens];
      var balance := if customer == None then None
                     else Some(if customer.value in ledger.customers then ledger.customers[customer.value] else 0);
      s := Settlement(r.request, r.node, r.model, paid, claim,
                      Insurance(ledger.config, paid), Treasury(ledger.config, paid), customer, balance);
    }

    /** Either the receipt is billed once or nothing changes. */
    method Settle(r: Receipt, paid: int) returns (outcome: Outcome)
      requires Valid() && GoodReceipt(r)
      modifies this, ledger
      ensures Valid() && State() == Next(ledger.config, verifier, old(State()), MarketOp.Settle(r, paid))
      ensures outcome.Refused? <==> WhyNot(verifier, old(State()), MarketOp.Settle(r, paid)) != None
      ensures outcome.Refused? ==>
                State() == old(State()) && WhyNot(verifier, old(State()), MarketOp.Settle(r, paid))
                    == Some(outcome.error)
      ensures outcome.Billed? ==> outcome.settlement.request == r.request && outcome.settlement.revenue == paid
    {
      hide Solvent, Sum, Claims, Operator, Insurance, Treasury, Quote, Accrue, Recorded;
      ghost var op := MarketOp.Settle(r, paid);
      ghost var start := State();
      NextSound(ledger.config, verifier, start, op);
      var objection, due := ValidateForSettlement(r);
      if objection != None { return Refused(objection.value); }
      if paid < due { return Refused(Underpaid(paid, due)); }
      LedgerKeepsCover(ledger.config, start.books, DepositFee(paid));
      var ok, operator := ledger.DepositFee(paid);
      var s := RecordSettlement(r, paid, operator, None);
      outcome := Billed(s);
    }

    method SettlePrepaid(r: Receipt, customer: Id) returns (outcome: Outcome)
      requires Valid() && GoodReceipt(r)
      modifies this, ledger
      ensures Valid() && State() == Next(ledger.config, verifier, old(State()), MarketOp.SettlePrepaid(r, customer))
      ensures outcome.Refused? <==> WhyNot(verifier, old(State()), MarketOp.SettlePrepaid(r, customer)) != None
      ensures outcome.Refused? ==>
                State() == old(State()) && WhyNot(verifier, old(State()), MarketOp.SettlePrepaid(r, customer))
                    == Some(outcome.error)
      ensures outcome.Billed? ==>
                && outcome.settlement.request == r.request && outcome.settlement.revenue == Due(old(State()), r)
                && outcome.settlement.balanceAfter
                    == Some(Balance(old(ledger.State()), customer) - outcome.settlement.revenue)
    {
      hide Solvent, Sum, Claims, Operator, Insurance, Treasury, Quote, Accrue, Recorded;
      ghost var op := MarketOp.SettlePrepaid(r, customer);
      ghost var start := State();
      NextSound(ledger.config, verifier, start, op);
      if customer == "" { return Refused(NoCustomer); }
      var objection, due := ValidateForSettlement(r);
      if objection != None { return Refused(objection.value); }
      var ok, operator := ledger.CustomerDebitToFees(customer, due);
      if !ok {
        var balance := if customer in ledger.customers then ledger.customers[customer] else 0;
        return Refused(InsufficientBalance(balance, due));
      }
      LedgerKeepsCover(ledger.config, start.books, CustomerDebit(customer, due));
      var s := RecordSettlement(r, due, operator, Some(customer));
      outcome := Billed(s);
    }
  }
}
