/**
 The stablecoin ledger: pools, node bonds and customer balances, with every movement a step on
 the books.  Nothing here mints: what is held is always what came in less what went out.
 */
module Ledgers {
  import opened Arithmetic
  import opened Sums

  type Id = string

  datatype Config = Config(
    operatorBps: int, insuranceBps: int, treasuryBps: int,
    pricePerGibMonth: int, pricePerGibServed: int, slashFailureThreshold: int)

  /** Shares sum to 10000 basis points and neither a share nor a price is negative. */
  ghost predicate GoodConfig(c: Config)
  {
    && c.pricePerGibMonth >= 0 && c.pricePerGibServed >= 0
    && c.operatorBps >= 0 && c.insuranceBps >= 0 && c.treasuryBps >= 0
        && c.operatorBps + c.insuranceBps + c.treasuryBps == 10000
  }

  datatype Account = Account(bond: int, claim: int, paid: int, slashed: int, offenses: int, evicted: bool)

  const NEW_ACCOUNT := Account(0, 0, 0, 0, 0, false)

  datatype Books = Books(
    pool: int, insurance: int, treasury: int,
    accounts: map<Id, Account>, customers: map<Id, int>,
    deposited: int, withdrawn: int)

  const NO_BOOKS := Books(0, 0, 0, map[], map[], 0, 0)

  function AccountOf(b: Books, id: Id): Account
  {
    if id in b.accounts then b.accounts[id] else NEW_ACCOUNT
  }

  function Balance(b: Books, id: Id): int
  {
    if id in b.customers then b.customers[id] else 0
  }

  ghost function Bonds(accounts: map<Id, Account>): map<Id, int>
  {
    map id | id in accounts :: accounts[id].bond
  }

  ghost function Claims(accounts: map<Id, Account>): map<Id, int>
  {
    map id | id in accounts :: accounts[id].claim
  }

  /** Everything the ledger holds, across all buckets. */
  ghost function Held(b: Books): int
  {
    b.pool + b.insurance + b.treasury + Sum(Bonds(b.accounts)) + Sum(b.customers)
  }

  ghost predicate Solvent(b: Books)
  {
    && Held(b) == b.deposited - b.withdrawn
    && b.pool >= 0 && b.insurance >= 0 && b.treasury >= 0
    && (forall id :: id in b.accounts ==> b.accounts[id].bond >= 0 && b.accounts[id].claim >= 0)
    && (forall id :: id in b.customers ==> b.customers[id] >= 0)
  }

  // ----- movements

  function Insurance(c: Config, amount: int): int
  {
    amount * c.insuranceBps / 10000
  }

  function Treasury(c: Config, amount: int): int
  {
    amount * c.treasuryBps / 10000
  }

  function Operator(c: Config, amount: int): int
  {
    amount - Insurance(c, amount) - Treasury(c, amount)
  }

  /** The three shares are non-negative and add up to the fee. */
  lemma SplitExact(c: Config, amount: int)
    requires GoodConfig(c) && amount >= 0
    ensures Insurance(c, amount) >= 0 && Treasury(c, amount) >= 0 && Operator(c, amount) >= 0
    ensures Operator(c, amount) + Insurance(c, amount) + Treasury(c, amount) == amount
  {
    var i, t := amount * c.insuranceBps, amount * c.treasuryBps;
    MulNonNegative(amount, c.insuranceBps);
    MulNonNegative(amount, c.treasuryBps);
    PartOf(amount, c.insuranceBps + c.treasuryBps, 10000);
    assert i + t == amount * (c.insuranceBps + c.treasuryBps);
  }

  /** Each share is its own basis points of the fee, rounded down; the remainder goes to the operators. */
  lemma SharesMeanPoints(c: Config, amount: int)
    requires GoodConfig(c) && amount >= 0
    ensures 10000 * Insurance(c, amount) <= amount * c.insuranceBps < 10000 * (Insurance(c, amount) + 1)
    ensures 10000 * Treasury(c, amount) <= amount * c.treasuryBps < 10000 * (Treasury(c, amount) + 1)
    ensures amount * c.operatorBps <= 10000 * Operator(c, amount) < amount * c.operatorBps + 20000
  {
    var i, t := amount * c.insuranceBps, amount * c.treasuryBps;
    assert c.operatorBps == 10000 - c.insuranceBps - c.treasuryBps;
    assert amount * (10000 - c.insuranceBps - c.treasuryBps) == 10000 * amount - i - t;
  }

  datatype Op =
    | DepositFee(amount: int)
    | FundBudget(amount: int)
    | PostBond(node: Id, amount: int)
    | CustomerDeposit(customer: Id, amount: int)
    | CustomerDebit(customer: Id, amount: int)
    | CustomerRefund(customer: Id)
    | PayFromPool(node: Id, amount: int)
    | SlashBond(node: Id, amount: int)
    | RefundBond(node: Id)
    | ForfeitBond(node: Id)

  /** The call does not raise. */
  predicate Allowed(b: Books, op: Op)
  {
    match op
    case CustomerDeposit(customer, amount) => customer != "" && amount >= 0
    case CustomerDebit(customer, amount) => 0 <= amount <= Balance(b, customer)
    case CustomerRefund(_) => true
    case RefundBond(_) => true
    case ForfeitBond(_) => true
    case _ => op.amount >= 0
  }

  function Min(a: int, b: int): int
  {
    if a <= b then a else b
  }

  function WithFee(c: Config, b: Books, amount: int): Books
  {
    b.(pool := b.pool + Operator(c, amount),
       insurance := b.insurance + Insurance(c, amount),
       treasury := b.treasury + Treasury(c, amount))
  }

  function Apply(c: Config, b: Books, op: Op): Books
    requires Allowed(b, op)
  {
    match op
    case DepositFee(amount) => WithFee(c, b, amount).(deposited := b.deposited + amount)
    case FundBudget(amount) => b.(pool := b.pool + amount, deposited := b.deposited + amount)
    case PostBond(node, amount) =>
      var a := AccountOf(b, node);
      b.(accounts := b.accounts[node := a.(bond := a.bond + amount)], deposited := b.deposited + amount)
    case CustomerDeposit(customer, amount) =>
      b.(customers := b.customers[customer := Balance(b, customer) + amount], deposited := b.deposited + amount)
    case CustomerDebit(customer, amount) =>
      WithFee(c, b, amount).(customers := b.customers[customer := Balance(b, customer) - amount])
    case CustomerRefund(customer) =>
      b.(customers := b.customers - {customer}, withdrawn := b.withdrawn + Balance(b, customer))
    case PayFromPool(node, amount) =>
      var paid := Min(amount, b.pool);
      var a := AccountOf(b, node);
      b.(pool := b.pool - paid, accounts := b.accounts[node := a.(paid := a.paid + paid)],
          withdrawn := b.withdrawn + paid)
    case SlashBond(node, amount) =>
      var a := AccountOf(b, node);
      var slashed := Min(amount, a.bond);
      b.(accounts := b.accounts[node := a.(bond := a.bond - slashed, slashed := a.slashed + slashed)],
         insurance := b.insurance + slashed)
    case RefundBond(node) =>
      var a := AccountOf(b, node);
      b.(accounts := b.accounts[node := a.(bond := 0)], withdrawn := b.withdrawn + a.bond)
    case ForfeitBond(node) =>
      var a := AccountOf(b, node);
      b.(accounts := b.accounts[node := a.(bond := 0, slashed := a.slashed + a.bond)],
          insurance := b.insurance + a.bond)
  }

  // ----- conservation

  lemma BondsUpdate(accounts: map<Id, Account>, id: Id, a: Account)
    ensures Sum(Bonds(accounts[id := a])) == Sum(Bonds(accounts)) + a.bond - if id in accounts then accounts[id].bond
        else 0
  {
    SumUpdate(Bonds(accounts), id, a.bond);
    assert Bonds(accounts[id := a]) == Bonds(accounts)[id := a.bond];
  }

  lemma ClaimsUpdate(accounts: map<Id, Account>, id: Id, a: Account)
    ensures Sum(Claims(accounts[id := a])) == Sum(Claims(accounts)) + a.claim -
        if id in accounts then accounts[id].claim else 0
  {
    SumUpdate(Claims(accounts), id, a.claim);
    assert Claims(accounts[id := a]) == Claims(accounts)[id := a.claim];
  }

  lemma CustomerRemoved(b: Books, customer: Id)
    ensures Sum(b.customers - {customer}) == Sum(b.customers) - Balance(b, customer)
  {
    if customer in b.customers {
      SumRemove(b.customers, customer);
    } else {
      assert b.customers - {customer} == b.customers;
    }
  }

  /** Every movement keeps the books solvent and leaves claims alone. */
  lemma ApplySolvent(c: Config, b: Books, op: Op)
    requires GoodConfig(c) && Solvent(b) && Allowed(b, op)
    ensures Solvent(Apply(c, b, op)) && Sum(Claims(Apply(c, b, op).accounts)) == Sum(Claims(b.accounts))
  {
    hide Sum, Bonds, Claims, Operator, Insurance, Treasury;
    var after := Apply(c, b, op);
    match op
    case DepositFee(amount) => SplitExact(c, amount);
    case FundBudget(amount) =>
    case CustomerDeposit(customer, amount) => SumUpdate(b.customers, customer, after.customers[customer]);
    case CustomerDebit(customer, amount) =>
      SplitExact(c, amount);
      SumUpdate(b.customers, customer, after.customers[customer]);
    case CustomerRefund(customer) => CustomerRemoved(b, customer);
    case _ =>
      BondsUpdate(b.accounts, op.node, after.accounts[op.node]);
      ClaimsUpdate(b.accounts, op.node, after.accounts[op.node]);
  }

  /** When a call is refused. */
  lemma RefusedExactly(b: Books, customer: Id, node: Id, amount: int)
    ensures Allowed(b, DepositFee(amount)) <==> amount >= 0
    ensures Allowed(b, FundBudget(amount)) <==> amount >= 0
    ensures Allowed(b, PostBond(node, amount)) <==> amount >= 0
    ensures Allowed(b, PayFromPool(node, amount)) <==> amount >= 0
    ensures Allowed(b, SlashBond(node, amount)) <==> amount >= 0
    ensures Allowed(b, CustomerDeposit(customer, amount)) <==> |customer| > 0 && amount >= 0
    ensures Allowed(b, CustomerDebit(customer, amount)) <==>
              0 <= amount <= (if customer in b.customers then b.customers[customer] else 0)
    ensures Allowed(b, CustomerRefund(customer)) && Allowed(b, RefundBond(node)) && Allowed(b, ForfeitBond(node))
  {
  }

  /** Where the money of a fee goes, whether deposited or debited from a customer. */
  lemma FeeEffect(c: Config, b: Books, op: Op)
    requires Allowed(b, op) && (op.DepositFee? || op.CustomerDebit?)
    ensures var after := Apply(c, b, op);
            && after.pool == b.pool + op.amount - op.amount * c.insuranceBps / 10000 - op.amount * c.treasuryBps / 10000
            && after.insurance == b.insurance + op.amount * c.insuranceBps / 10000
            && after.treasury == b.treasury + op.amount * c.treasuryBps / 10000
            && after.accounts == b.accounts && after.withdrawn == b.withdrawn
            && after.deposited == b.deposited + (if op.DepositFee? then op.amount else 0)
            && (forall id :: Balance(after, id) == Balance(b, id) -
                  if op.CustomerDebit? && id == op.customer then op.amount else 0)
  {
  }

  /** A customer's own deposits and refunds touch that balance and the totals, nothing else. */
  lemma CustomerEffect(c: Config, b: Books, op: Op)
    requires Allowed(b, op) && (op.CustomerDeposit? || op.CustomerRefund?)
    ensures var after := Apply(c, b, op);
            && after.pool == b.pool && after.insurance == b.insurance && after.treasury == b.treasury
            && after.accounts == b.accounts
            && (forall id :: id != op.customer ==> Balance(after, id) == Balance(b, id))
            && (op.CustomerDeposit? ==>
                  && Balance(after, op.customer) == Balance(b, op.customer) + op.amount
                  && after.deposited == b.deposited + op.amount && after.withdrawn == b.withdrawn)
            && (op.CustomerRefund? ==>
                  && Balance(after, op.customer) == 0 && op.customer !in after.customers
                  && after.withdrawn == b.withdrawn + Balance(b, op.customer) && after.deposited == b.deposited)
  {
  }

  /**
   What reaches a node's account.  Bonds come in from outside; slashed and forfeited bonds go to
   insurance, refunds and payments go out; no other account, balance or claim is touched.
   */
  lemma AccountEffect(c: Config, b: Books, op: Op)
    requires Allowed(b, op)
    requires op.PostBond? || op.PayFromPool? || op.SlashBond? || op.RefundBond? || op.ForfeitBond?
    ensures var after := Apply(c, b, op);
            var a, a' := AccountOf(b, op.node), AccountOf(after, op.node);
            var cut := if op.SlashBond? then (if op.amount <= a.bond then op.amount else a.bond) else a.bond;
            var paid := if op.PayFromPool? then (if op.amount <= b.pool then op.amount else b.pool) else 0;
            && after.treasury == b.treasury && after.customers == b.customers
            && (forall id :: id != op.node ==> AccountOf(after, id) == AccountOf(b, id))
            && a'.claim == a.claim && a'.offenses == a.offenses && a'.evicted == a.evicted
            && after.pool == b.pool - paid && a'.paid == a.paid + paid
            && a'.bond == (if op.PostBond? then a.bond + op.amount else if op.PayFromPool? then a.bond
                else a.bond - cut)
            && a'.slashed == a.slashed + (if op.SlashBond? || op.ForfeitBond? then cut else 0)
            && after.insurance == b.insurance + (if op.SlashBond? || op.ForfeitBond? then cut else 0)
            && after.deposited == b.deposited + (if op.PostBond? then op.amount else 0)
            && after.withdrawn == b.withdrawn + (if op.RefundBond? then a.bond else paid)
  {
  }

  /** An outside budget goes to the operator pool whole. */
  lemma BudgetEffect(c: Config, b: Books, amount: int)
    requires amount >= 0
    ensures Apply(c, b, FundBudget(amount)) == b.(pool := b.pool + amount, deposited := b.deposited + amount)
  {
  }

  ghost function Run(c: Config, b: Books, ops: seq<Op>): Books
    decreases |ops|
  {
    if ops == [] then b
    else Run(c, if Allowed(b, ops[0]) then Apply(c, b, ops[0]) else b, ops[1..])
  }

  /** Over any run, refused calls included, the books stay solvent. */
  lemma {:induction false} RunSolvent(c: Config, b: Books, ops: seq<Op>)
    requires GoodConfig(c) && Solvent(b)
    ensures Solvent(Run(c, b, ops))
    decreases |ops|
  {
    hide Solvent, Apply;
    if ops != [] {
      if Allowed(b, ops[0]) {
        ApplySolvent(c, b, ops[0]);
      }
      RunSolvent(c, if Allowed(b, ops[0]) then Apply(c, b, ops[0]) else b, ops[1..]);
    }
  }

  // ----- the ledger object

  class StablecoinLedger {
    const config: Config
    var pool: int
    var insurance: int
    var treasury: int
    var accounts: map<Id, Account>
    var customers: map<Id, int>
    var deposited: int
    var withdrawn: int

    ghost function State(): Books
      reads this
    {
      Books(pool, insurance, treasury, accounts, customers, deposited, withdrawn)
    }

    ghost predicate Valid()
      reads this
    {
      GoodConfig(config) && Solvent(State())
    }

    constructor (c: Config)
      requires GoodConfig(c)
      ensures config == c && State() == NO_BOOKS && Valid()
    {
      hide Solvent;
      config := c;
      pool, insurance, treasury, accounts, customers, deposited, withdrawn := 0, 0, 0, map[], map[], 0, 0;
      new;
      EmptyBooks();
    }

    method DepositFee(amount: int) returns (ok: bool, operator: int)
      requires Valid()
      modifies this
      ensures Valid() && ok == Allowed(old(State()), Op.DepositFee(amount))
      ensures State() == if ok then Apply(config, old(State()), Op.DepositFee(amount)) else old(State())
      ensures ok ==> operator == Operator(config, amount)
    {
      hide Solvent;
      if amount < 0 { return false, 0; }
      ApplySolvent(config, State(), Op.DepositFee(amount));
      var toInsurance := amount * config.insuranceBps / 10000;
      var toTreasury := amount * config.treasuryBps / 10000;
      operator := amount - toInsurance - toTreasury;
      pool := pool + operator;
      insurance := insurance + toInsurance;
      treasury := treasury + toTreasury;
      deposited := deposited + amount;
      ok := true;
    }

    method FundIncentiveBudget(amount: int) returns (ok: bool)
      requires Valid()
      modifies this
      ensures Valid() && ok == Allowed(old(State()), FundBudget(amount))
      ensures State() == if ok then Apply(config, old(State()), FundBudget(amount)) else old(State())
    {
      hide Solvent;
      if amount < 0 { return false; }
      ApplySolvent(config, State(), FundBudget(amount));
      pool := pool + amount;
      deposited := deposited + amount;
      ok := true;
    }

    method PostBond(node: Id, amount: int) returns (ok: bool)
      requires Valid()
      modifies this
      ensures Valid() && ok == Allowed(old(State()), Op.PostBond(node, amount))
      ensures State() == if ok then Apply(config, old(State()), Op.PostBond(node, amount)) else old(State())
    {
      hide Solvent;
      if amount < 0 { return false; }
      ApplySolvent(config, State(), Op.PostBond(node, amount));
      var a := if node in accounts then accounts[node] else NEW_ACCOUNT;
      accounts := accounts[node := a.(bond := a.bond + amount)];
      deposited := deposited + amount;
      ok := true;
    }

    method CustomerDeposit(customer: Id, amount: int) returns (ok: bool)
      requires Valid()
      modifies this
      ensures Valid() && ok == Allowed(old(State()), Op.CustomerDeposit(customer, amount))
      ensures State() == if ok then Apply(config, old(State()), Op.CustomerDeposit(customer, amount)) else old(State())
    {
      hide Solvent;
      if customer == "" || amount < 0 { return false; }
      ApplySolvent(config, State(), Op.CustomerDeposit(customer, amount));
      customers := customers[customer := (if customer in customers then customers[customer] else 0) + amount];
      deposited := deposited + amount;
      ok := true;
    }

    method CustomerDebitToFees(customer: Id, amount: int) returns (ok: bool, operator: int)
      requires Valid()
      modifies this
      ensures Valid() && ok == Allowed(old(State()), CustomerDebit(customer, amount))
      ensures State() == if ok then Apply(config, old(State()), CustomerDebit(customer, amount)) else old(State())
      ensures ok ==> operator == Operator(config, amount)
    {
      hide Solvent;
      var balance := if customer in customers then customers[customer] else 0;
      if amount < 0 || balance < amount { return false, 0; }
      ApplySolvent(config, State(), CustomerDebit(customer, amount));
      customers := customers[customer := balance - amount];
      var toInsurance := amount * config.insuranceBps / 10000;
      var toTreasury := amount * config.treasuryBps / 10000;
      operator := amount - toInsurance - toTreasury;
      pool := pool + operator;
      insurance := insurance + toInsurance;
      treasury := treasury + toTreasury;
      ok := true;
    }

    method CustomerRefund(customer: Id) returns (refund: int)
      requires Valid()
      modifies this
      ensures Valid() && State() == Apply(config, old(State()), Op.CustomerRefund(customer))
      ensures refund == Balance(old(State()), customer)
    {
      hide Solvent;
      ApplySolvent(config, State(), Op.CustomerRefund(customer));
      refund := if customer in customers then customers[customer] else 0;
      customers := customers - {customer};
      withdrawn := withdrawn + refund;
    }

    method PayFromPool(node: Id, amount: int) returns (ok: bool, paid: int)
      requires Valid()
      modifies this
      ensures Valid() && ok == Allowed(old(State()), Op.PayFromPool(node, amount))
      ensures State() == if ok then Apply(config, old(State()), Op.PayFromPool(node, amount)) else old(State())
      ensures ok ==> paid == Min(amount, old(pool))
    {
      hide Solvent;
      if amount < 0 { return false, 0; }
      ApplySolvent(config, State(), Op.PayFromPool(node, amount));
      paid := Min(amount, pool);
      pool := pool - paid;
      var a := if node in accounts then accounts[node] else NEW_ACCOUNT;
      accounts := accounts[node := a.(paid := a.paid + paid)];
      withdrawn := withdrawn + paid;
      ok := true;
    }

    method SlashBond(node: Id, amount: int) returns (ok: bool, slashed: int)
      requires Valid()
      modifies this
      ensures Valid() && ok == Allowed(old(State()), Op.SlashBond(node, amount))
      ensures State() == if ok then Apply(config, old(State()), Op.SlashBond(node, amount)) else old(State())
      ensures ok ==> slashed == Min(amount, AccountOf(old(State()), node).bond)
    {
      hide Solvent;
      if amount < 0 { return false, 0; }
      ApplySolvent(config, State(), Op.SlashBond(node, amount));
      var a := if node in accounts then accounts[node] else NEW_ACCOUNT;
      slashed := Min(amount, a.bond);
      accounts := accounts[node := a.(bond := a.bond - slashed, slashed := a.slashed + slashed)];
      insurance := insurance + slashed;
      ok := true;
    }

    method RefundBond(node: Id) returns (refund: int)
      requires Valid()
      modifies this
      ensures Valid() && State() == Apply(config, old(State()), Op.RefundBond(node))
      ensures refund == AccountOf(old(State()), node).bond
    {
      hide Solvent;
      ApplySolvent(config, State(), Op.RefundBond(node));
      var a := if node in accounts then accounts[node] else NEW_ACCOUNT;
      refund := a.bond;
      accounts := accounts[node := a.(bond := 0)];
      withdrawn := withdrawn + refund;
    }

    method ForfeitBondToInsurance(node: Id) returns (forfeited: int)
      requires Valid()
      modifies this
      ensures Valid() && State() == Apply(config, old(State()), ForfeitBond(node))
      ensures forfeited == AccountOf(old(State()), node).bond
    {
      hide Solvent;
      ApplySolvent(config, State(), ForfeitBond(node));
      var a := if node in accounts then accounts[node] else NEW_ACCOUNT;
      forfeited := a.bond;
      accounts := accounts[node := a.(bond := 0, slashed := a.slashed + forfeited)];
      insurance := insurance + forfeited;
    }
  }

  lemma EmptyBooks()
    ensures Solvent(NO_BOOKS) && Sum(Claims(NO_BOOKS.accounts)) == 0
  {
    hide Solvent, Sum, Claims;
    NothingHeld(NO_BOOKS);
  }

  lemma NothingHeld(b: Books)
    requires b.accounts.Keys == {} && b.customers.Keys == {}
    requires b.pool == 0 && b.insurance == 0 && b.treasury == 0 && b.deposited == b.withdrawn
    ensures Solvent(b) && Sum(Claims(b.accounts)) == 0
  {
    hide Sum;
    SumNone(Bonds(b.accounts));
    SumNone(Claims(b.accounts));
    SumNone(b.customers);
  }
}
