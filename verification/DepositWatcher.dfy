/**
 Crediting bridge deposits from an event feed that repeats, reorders and re-batches sightings.
 A transaction hash determines its sender and amount; the watcher keeps the set of credited hashes.
 */
module DepositWatchers {
  import opened Sums
  import opened Ledgers

  type Tx = string
  type Address = string

  datatype Event = Event(tx: Tx, sender: Address, amount: int, confirmations: int)

  /** The checks made when an event is built. */
  predicate GoodEvent(e: Event)
  {
    HexOf(e.tx, 64) && HexOf(e.sender, 40) && e.amount >= 0 && e.confirmations >= 0
  }

  /** `0x` followed by the given number of lower-case hexadecimal digits. */
  predicate HexOf(s: string, digits: nat)
  {
    |s| == digits + 2 && s[0] == '0' && s[1] == 'x' && forall i :: 2 <= i < |s| ==>
        '0' <= s[i] <= '9' || 'a' <= s[i] <= 'f'
  }

  /** The same as the program's pattern: a prefix and digits from a fixed alphabet. */
  lemma HexMeans(s: string, digits: nat)
    ensures HexOf(s, digits) <==>
              |s| == digits + 2 && s[..2] == "0x" && forall i :: 2 <= i < |s| ==> s[i] in "0123456789abcdef"
  {
    if |s| == digits + 2 {
      forall i | 2 <= i < |s|
        ensures s[i] in "0123456789abcdef" <==> '0' <= s[i] <= '9' || 'a' <= s[i] <= 'f'
      {
        HexDigit(s[i]);
      }
    }
  }

  lemma HexDigit(c: char)
    ensures c in "0123456789abcdef" <==> '0' <= c <= '9' || 'a' <= c <= 'f'
  {
    var all := "0123456789abcdef";
    if '0' <= c <= '9' {
      assert all[c as int - '0' as int] == c;
    } else if 'a' <= c <= 'f' {
      assert all[10 + c as int - 'a' as int] == c;
    }
  }

  predicate GoodEvents(events: seq<Event>)
  {
    forall i :: 0 <= i < |events| ==> GoodEvent(events[i])
  }

  datatype Credit = Credit(tx: Tx, customer: Id, amount: int, balanceAfter: int)

  datatype Watch = Watch(books: Books, bindings: map<Address, Id>, credited: set<Tx>, unattributed: map<Tx, Event>)

  // ----- one event, and a feed of them

  predicate Credits(min: int, w: Watch, e: Event)
  {
    e.tx !in w.credited && e.confirmations >= min && e.sender in w.bindings
  }

  predicate Quarantines(min: int, w: Watch, e: Event)
  {
    e.tx !in w.credited && e.confirmations >= min && e.sender !in w.bindings
  }

  function Deposited(b: Books, customer: Id, amount: int): Books
  {
    b.(customers := b.customers[customer := Balance(b, customer) + amount], deposited := b.deposited + amount)
  }

  function See(min: int, w: Watch, e: Event): Watch
  {
    if Credits(min, w, e) then
      w.(books := Deposited(w.books, w.bindings[e.sender], e.amount),
         credited := w.credited + {e.tx}, unattributed := w.unattributed - {e.tx})
    else if Quarantines(min, w, e) then w.(unattributed := w.unattributed[e.tx := e])
    else w
  }

  ghost function SeeAll(min: int, w: Watch, events: seq<Event>): Watch
  {
    if events == [] then w
    else See(min, SeeAll(min, w, events[..|events| - 1]), events[|events| - 1])
  }

  /** The credit an event yields, if any, with the balance after it. */
  function CreditFor(min: int, w: Watch, e: Event): seq<Credit>
  {
    if Credits(min, w, e) then
      var customer := w.bindings[e.sender];
      [Credit(e.tx, customer, e.amount, Balance(w.books, customer) + e.amount)]
    else []
  }

  /** The credits a feed yields, in order. */
  ghost function CreditList(min: int, w: Watch, events: seq<Event>): seq<Credit>
  {
    if events == [] then []
    else
      var before, e := SeeAll(min, w, events[..|events| - 1]), events[|events| - 1];
      CreditList(min, w, events[..|events| - 1]) + CreditFor(min, before, e)
  }

  /** Splitting a feed into batches changes nothing. */
  lemma {:induction false} BatchingIrrelevant(min: int, w: Watch, first: seq<Event>, second: seq<Event>)
    ensures SeeAll(min, w, first + second) == SeeAll(min, SeeAll(min, w, first), second)
    decreases |second|
  {
    hide See;
    if second == [] {
      assert first + second == first;
    } else {
      var n := |second| - 1;
      BatchingIrrelevant(min, w, first, second[..n]);
      assert (first + second)[..|first + second| - 1] == first + second[..n];
    }
  }

  // ----- the closed form

  datatype Transfer = Transfer(sender: Address, amount: int)

  /** The feed reports what the chain holds. */
  ghost predicate Reports(chain: Tx -> Transfer, events: seq<Event>)
  {
    forall i :: 0 <= i < |events| ==> Transfer(events[i].sender, events[i].amount) == chain(events[i].tx)
  }

  ghost function Confirmed(min: int, events: seq<Event>): set<Tx>
  {
    set i | 0 <= i < |events| && events[i].confirmations >= min :: events[i].tx
  }

  /** Transactions the feed confirms whose sender is bound, and those whose sender is not. */
  ghost function Bound(chain: Tx -> Transfer, bindings: map<Address, Id>, txs: set<Tx>): set<Tx>
  {
    set tx | tx in txs && chain(tx).sender in bindings
  }

  ghost function Unbound(chain: Tx -> Transfer, bindings: map<Address, Id>, txs: set<Tx>): set<Tx>
  {
    set tx | tx in txs && chain(tx).sender !in bindings
  }

  ghost function Owner(chain: Tx -> Transfer, bindings: map<Address, Id>, tx: Tx): Id
  {
    if chain(tx).sender in bindings then bindings[chain(tx).sender] else ""
  }

  ghost function Amounts(chain: Tx -> Transfer, txs: set<Tx>): map<Tx, int>
  {
    map tx | tx in txs :: chain(tx).amount
  }

  ghost function Theirs(chain: Tx -> Transfer, bindings: map<Address, Id>, txs: set<Tx>, customer: Id): set<Tx>
  {
    set tx | tx in txs && Owner(chain, bindings, tx) == customer
  }

  ghost function Owners(chain: Tx -> Transfer, bindings: map<Address, Id>, txs: set<Tx>): set<Id>
  {
    set tx | tx in txs :: Owner(chain, bindings, tx)
  }

  /** The books once every listed transaction has been credited, each exactly once. */
  ghost function CreditedOnce(chain: Tx -> Transfer, bindings: map<Address, Id>, b: Books, txs: set<Tx>): Books
  {
    b.(customers := map c | c in b.customers.Keys + Owners(chain, bindings, txs) ::
                      Holding(chain, bindings, b, txs, c),
       deposited := b.deposited + Sum(Amounts(chain, txs)))
  }

  lemma AmountsMore(chain: Tx -> Transfer, txs: set<Tx>, tx: Tx)
    requires tx !in txs
    ensures Sum(Amounts(chain, txs + {tx})) == Sum(Amounts(chain, txs)) + chain(tx).amount
  {
    hide Sum;
    SumUpdate(Amounts(chain, txs), tx, chain(tx).amount);
    assert Amounts(chain, txs + {tx}) == Amounts(chain, txs)[tx := chain(tx).amount];
  }

  lemma CreditedNone(chain: Tx -> Transfer, bindings: map<Address, Id>, b: Books)
    ensures CreditedOnce(chain, bindings, b, {}) == b
  {
    hide Sum;
    SumEmpty<Tx>();
    assert Amounts(chain, {}) == map[];
    forall c ensures Theirs(chain, bindings, {}, c) == {} { }
    assert CreditedOnce(chain, bindings, b, {}).customers == b.customers;
  }

  lemma TheirsMore(chain: Tx -> Transfer, bindings: map<Address, Id>, txs: set<Tx>, tx: Tx, c: Id)
    requires tx !in txs
    ensures Sum(Amounts(chain, Theirs(chain, bindings, txs + {tx}, c))) ==
            Sum(Amounts(chain, Theirs(chain, bindings, txs, c))) +
                if c == Owner(chain, bindings, tx) then chain(tx).amount else 0
  {
    hide Sum, Owner, Amounts;
    var mine := Theirs(chain, bindings, txs, c);
    if c == Owner(chain, bindings, tx) {
      AmountsMore(chain, mine, tx);
      assert Theirs(chain, bindings, txs + {tx}, c) == mine + {tx};
    } else {
      assert Theirs(chain, bindings, txs + {tx}, c) == mine;
    }
  }

  lemma NobodysShare(chain: Tx -> Transfer, bindings: map<Address, Id>, txs: set<Tx>, c: Id)
    requires c !in Owners(chain, bindings, txs)
    ensures Sum(Amounts(chain, Theirs(chain, bindings, txs, c))) == 0
  {
    hide Sum, Owner;
    assert Theirs(chain, bindings, txs, c) == {};
    SumEmpty<Tx>();
    assert Amounts(chain, {}) == map[];
  }

  ghost function Holding(chain: Tx -> Transfer, bindings: map<Address, Id>, b: Books, txs: set<Tx>, c: Id): int
  {
    Balance(b, c) + Sum(Amounts(chain, Theirs(chain, bindings, txs, c)))
  }

  lemma HoldingMore(chain: Tx -> Transfer, bindings: map<Address, Id>, b: Books, txs: set<Tx>, tx: Tx, c: Id)
    requires tx !in txs
    ensures Holding(chain, bindings, b, txs + {tx}, c) ==
            Holding(chain, bindings, b, txs, c) + if c == Owner(chain, bindings, tx) then chain(tx).amount else 0
    ensures Balance(CreditedOnce(chain, bindings, b, txs), c) == Holding(chain, bindings, b, txs, c)
  {
    hide Sum, Owner, Amounts, Theirs;
    TheirsMore(chain, bindings, txs, tx, c);
    if c !in b.customers.Keys + Owners(chain, bindings, txs) {
      NobodysShare(chain, bindings, txs, c);
    }
  }

  lemma OwnersMore(chain: Tx -> Transfer, bindings: map<Address, Id>, txs: set<Tx>, tx: Tx)
    ensures Owners(chain, bindings, txs + {tx}) == Owners(chain, bindings, txs) + {Owner(chain, bindings, tx)}
  {
    hide Owner;
  }

  lemma CreditedAt(chain: Tx -> Transfer, bindings: map<Address, Id>, b: Books, txs: set<Tx>)
    ensures var after := CreditedOnce(chain, bindings, b, txs).customers;
            && after.Keys == b.customers.Keys + Owners(chain, bindings, txs)
            && forall c :: c in after ==> after[c] == Holding(chain, bindings, b, txs, c)
  {
    hide Owners, Holding, Sum;
  }

  lemma CreditedCustomers(chain: Tx -> Transfer, bindings: map<Address, Id>, b: Books, txs: set<Tx>, tx: Tx)
    requires tx !in txs
    ensures CreditedOnce(chain, bindings, b, txs + {tx}).customers ==
            Deposited(CreditedOnce(chain, bindings, b, txs), Owner(chain, bindings, tx), chain(tx).amount).customers
  {
    hide Owner, Owners, Holding, CreditedOnce, Balance;
    var owner, amount := Owner(chain, bindings, tx), chain(tx).amount;
    var before, after := CreditedOnce(chain, bindings, b, txs), CreditedOnce(chain, bindings, b, txs + {tx});
    CreditedAt(chain, bindings, b, txs);
    CreditedAt(chain, bindings, b, txs + {tx});
    OwnersMore(chain, bindings, txs, tx);
    HoldingMore(chain, bindings, b, txs, tx, owner);
    forall c | c in after.customers && c != owner
      ensures after.customers[c] == before.customers[c]
    {
      HoldingMore(chain, bindings, b, txs, tx, c);
    }
  }

  /** Crediting one more transaction is one ledger deposit. */
  lemma CreditedMore(chain: Tx -> Transfer, bindings: map<Address, Id>, b: Books, txs: set<Tx>, tx: Tx)
    requires tx !in txs
    ensures CreditedOnce(chain, bindings, b, txs + {tx}) ==
            Deposited(CreditedOnce(chain, bindings, b, txs), Owner(chain, bindings, tx), chain(tx).amount)
  {
    hide Sum, Owner, Amounts, Theirs, Holding, Owners;
    AmountsMore(chain, txs, tx);
    CreditedCustomers(chain, bindings, b, txs, tx);
  }

  /** Where a feed leaves the watcher, in terms of which transactions it confirms and nothing else. */
  ghost predicate SettledAs(chain: Tx -> Transfer, w: Watch, confirmed: set<Tx>, after: Watch)
  {
    var credit := Bound(chain, w.bindings, confirmed) - w.credited;
    && after.bindings == w.bindings
    && after.credited == w.credited + credit
    && after.books == CreditedOnce(chain, w.bindings, w.books, credit)
    && after.unattributed.Keys == (w.unattributed.Keys - credit) + (Unbound(chain, w.bindings, confirmed) - w.credited)
  }

  /** A sighting of a confirmed transaction adds it to what the feed confirms; any other is ignored. */
  lemma SeeSettles(chain: Tx -> Transfer, min: int, w: Watch, confirmed: set<Tx>, now: Watch, e: Event)
    requires SettledAs(chain, w, confirmed, now) && Transfer(e.sender, e.amount) == chain(e.tx)
    ensures SettledAs(chain, w, if e.confirmations >= min then confirmed + {e.tx} else confirmed, See(min, now, e))
  {
    hide CreditedOnce, Deposited;
    if e.confirmations >= min && e.tx !in w.credited {
      var more := confirmed + {e.tx};
      var credit := Bound(chain, w.bindings, confirmed) - w.credited;
      if e.sender in w.bindings {
        assert Unbound(chain, w.bindings, more) == Unbound(chain, w.bindings, confirmed);
        if e.tx in credit {
          assert Bound(chain, w.bindings, more) - w.credited == credit;
        } else {
          assert Bound(chain, w.bindings, more) - w.credited == credit + {e.tx};
          CreditedMore(chain, w.bindings, w.books, credit, e.tx);
        }
      } else {
        assert Bound(chain, w.bindings, more) == Bound(chain, w.bindings, confirmed);
        assert Unbound(chain, w.bindings, more) == Unbound(chain, w.bindings, confirmed) + {e.tx};
      }
    } else if e.confirmations >= min {
      AlreadyCredited(chain, w, confirmed, e.tx);
    }
  }

  lemma AlreadyCredited(chain: Tx -> Transfer, w: Watch, confirmed: set<Tx>, tx: Tx)
    requires tx in w.credited
    ensures Bound(chain, w.bindings, confirmed + {tx}) - w.credited == Bound(chain, w.bindings, confirmed) - w.credited
    ensures Unbound(chain, w.bindings, confirmed + {tx}) - w.credited
        == Unbound(chain, w.bindings, confirmed) - w.credited
  {
  }

  /** With fixed bindings a feed credits each confirmed, bound transaction once, whatever its order. */
  lemma {:induction false} FeedSettles(chain: Tx -> Transfer, min: int, w: Watch, events: seq<Event>)
    requires Reports(chain, events)
    ensures SettledAs(chain, w, Confirmed(min, events), SeeAll(min, w, events))
    decreases |events|
  {
    hide CreditedOnce, Deposited, See, SettledAs;
    if events == [] {
      assert Confirmed(min, events) == {};
      NothingSeen(chain, w);
    } else {
      var n := |events| - 1;
      FeedSettles(chain, min, w, events[..n]);
      SeeSettles(chain, min, w, Confirmed(min, events[..n]), SeeAll(min, w, events[..n]), events[n]);
      ConfirmedStep(min, events);
    }
  }

  lemma NothingSeen(chain: Tx -> Transfer, w: Watch)
    ensures SettledAs(chain, w, {}, w)
  {
    CreditedNone(chain, w.bindings, w.books);
    assert Bound(chain, w.bindings, {}) == {} && Unbound(chain, w.bindings, {}) == {};
  }

  lemma ConfirmedStep(min: int, events: seq<Event>)
    requires events != []
    ensures var n := |events| - 1;
            Confirmed(min, events) ==
              if events[n].confirmations >= min
              then Confirmed(min, events[..n]) + {events[n].tx}
              else Confirmed(min, events[..n])
  {
    var n := |events| - 1;
    forall tx | tx in Confirmed(min, events[..n])
      ensures tx in Confirmed(min, events)
    {
      var i :| 0 <= i < n && events[..n][i].confirmations >= min && events[..n][i].tx == tx;
      assert events[i].tx == tx;
    }
    forall tx | tx in Confirmed(min, events)
      ensures tx in Confirmed(min, events[..n]) || (tx == events[n].tx && events[n].confirmations >= min)
    {
      var i :| 0 <= i < |events| && events[i].confirmations >= min && events[i].tx == tx;
      if i < n {
        assert events[..n][i].tx == tx;
      }
    }
  }

  /**
   Two feeds that confirm the same transactions, in any order, batching and number of sightings,
   leave the same balances, credited set and quarantined hashes.
   */
  lemma OrderIrrelevant(chain: Tx -> Transfer, min: int, w: Watch, events: seq<Event>, events': seq<Event>)
    requires Reports(chain, events) && Reports(chain, events') && Confirmed(min, events) == Confirmed(min, events')
    ensures var a, b := SeeAll(min, w, events), SeeAll(min, w, events');
            a.books == b.books && a.credited == b.credited && a.unattributed.Keys == b.unattributed.Keys
  {
    hide SeeAll, CreditedOnce;
    FeedSettles(chain, min, w, events);
    FeedSettles(chain, min, w, events');
  }

  // ----- runs with changing bindings

  datatype WatchOp = Bind(address: Address, customer: Id) | Unbind(address: Address) | Feed(event: Event)

  /** Rebinding to another customer is refused, and so is a malformed address or an empty customer. */
  predicate MayBind(bindings: map<Address, Id>, address: Address, customer: Id)
  {
    customer != "" && HexOf(address, 40) && (address in bindings ==> bindings[address] == customer)
  }

  function Act(min: int, w: Watch, op: WatchOp): Watch
  {
    match op
    case Bind(address, customer) =>
      if MayBind(w.bindings, address, customer) then w.(bindings := w.bindings[address := customer]) else w
    case Unbind(address) => if HexOf(address, 40) then w.(bindings := w.bindings - {address}) else w
    case Feed(e) => See(min, w, e)
  }

  ghost function ActAll(min: int, w: Watch, ops: seq<WatchOp>): Watch
  {
    if ops == [] then w
    else Act(min, ActAll(min, w, ops[..|ops| - 1]), ops[|ops| - 1])
  }

  /**
   Credited and quarantined are disjoint, nobody nameless is bound, and each credited transaction was
   deposited exactly once.
   */
  ghost predicate WatchSound(chain: Tx -> Transfer, w: Watch)
  {
    && w.unattributed.Keys !! w.credited
    && (forall a :: a in w.bindings ==> w.bindings[a] != "")
    && (forall tx :: tx in w.unattributed ==> w.unattributed[tx].tx == tx)
    && w.books.deposited == Sum(Amounts(chain, w.credited))
    && Sum(w.books.customers) == Sum(Amounts(chain, w.credited))
  }

  lemma SeeSound(chain: Tx -> Transfer, min: int, w: Watch, e: Event)
    requires WatchSound(chain, w) && Transfer(e.sender, e.amount) == chain(e.tx)
    ensures WatchSound(chain, See(min, w, e))
  {
    hide Sum, Amounts;
    if Credits(min, w, e) {
      AmountsMore(chain, w.credited, e.tx);
      var customer := w.bindings[e.sender];
      SumUpdate(w.books.customers, customer, Balance(w.books, customer) + e.amount);
    }
  }

  const WATCH_EMPTY := Watch(NO_BOOKS, map[], {}, map[])

  /**
   Over any run of bindings, unbindings and sightings no transaction is credited twice or both credited
   and quarantined.
   */
  lemma {:induction false} RunKeepsSound(chain: Tx -> Transfer, min: int, ops: seq<WatchOp>)
    requires forall i :: 0 <= i < |ops| && ops[i].Feed? ==>
        Transfer(ops[i].event.sender, ops[i].event.amount) == chain(ops[i].event.tx)
    ensures WatchSound(chain, ActAll(min, WATCH_EMPTY, ops))
    decreases |ops|
  {
    if ops == [] {
      SumEmpty<Tx>();
      SumEmpty<Id>();
      assert Amounts(chain, {}) == map[];
    } else {
      hide Sum, Amounts, See;
      var n := |ops| - 1;
      RunKeepsSound(chain, min, ops[..n]);
      if ops[n].Feed? {
        SeeSound(chain, min, ActAll(min, WATCH_EMPTY, ops[..n]), ops[n].event);
      }
    }
  }

  /** Until it is unbound, an address keeps its first customer whatever else is attempted. */
  lemma {:induction false} BindingStays(min: int, w: Watch, ops: seq<WatchOp>, address: Address)
    requires address in w.bindings && forall i :: 0 <= i < |ops| ==> ops[i] != Unbind(address)
    ensures address in ActAll(min, w, ops).bindings && ActAll(min, w, ops).bindings[address] == w.bindings[address]
    decreases |ops|
  {
    if ops != [] {
      var n := |ops| - 1;
      BindingStays(min, w, ops[..n], address);
      assert ops[n] != Unbind(address);
    }
  }

  /** The credits a run makes, in order. */
  ghost function RunCredits(min: int, w: Watch, ops: seq<WatchOp>): seq<Credit>
  {
    if ops == [] then []
    else
      var before, op := ActAll(min, w, ops[..|ops| - 1]), ops[|ops| - 1];
      RunCredits(min, w, ops[..|ops| - 1]) + if op.Feed? then CreditFor(min, before, op.event) else []
  }

  /** The sum of a customer's credits. */
  ghost function CreditedTo(credits: seq<Credit>, customer: Id): int
  {
    if credits == [] then 0
    else
      var last := credits[|credits| - 1];
      CreditedTo(credits[..|credits| - 1], customer) + if last.customer == customer then last.amount else 0
  }

  lemma CreditedToSnoc(credits: seq<Credit>, c: Credit, customer: Id)
    ensures CreditedTo(credits + [c], customer) == CreditedTo(credits, customer) +
        if c.customer == customer then c.amount else 0
  {
    assert (credits + [c])[..|credits|] == credits;
  }

  /** The credits and the state tell one story: no transaction twice, the credited set, and every balance. */
  ghost predicate Accounted(credits: seq<Credit>, w: Watch)
  {
    && (forall i, j :: 0 <= i < j < |credits| ==> credits[i].tx != credits[j].tx)
    && (forall i :: 0 <= i < |credits| ==> credits[i].tx in w.credited)
    && (forall tx :: tx in w.credited ==> exists i :: 0 <= i < |credits| && credits[i].tx == tx)
    && (forall customer :: Balance(w.books, customer) == CreditedTo(credits, customer))
    && (forall i :: 0 <= i < |credits| ==>
          credits[i].balanceAfter == CreditedTo(credits[..i + 1], credits[i].customer))
  }

  lemma CreditAccounted(min: int, w: Watch, e: Event, credits: seq<Credit>)
    requires Accounted(credits, w) && Credits(min, w, e)
    ensures Accounted(credits + CreditFor(min, w, e), See(min, w, e))
  {
    hide CreditedTo;
    var customer := w.bindings[e.sender];
    var c := Credit(e.tx, customer, e.amount, Balance(w.books, customer) + e.amount);
    var after, more := See(min, w, e), credits + [c];
    forall tx | tx in after.credited
      ensures exists i :: 0 <= i < |more| && more[i].tx == tx
    {
      if tx == e.tx {
        assert more[|credits|].tx == tx;
      } else {
        var i :| 0 <= i < |credits| && credits[i].tx == tx;
        assert more[i].tx == tx;
      }
    }
    forall other ensures Balance(after.books, other) == CreditedTo(more, other)
    {
      CreditedToSnoc(credits, c, other);
    }
    forall i | 0 <= i < |more|
      ensures more[i].balanceAfter == CreditedTo(more[..i + 1], more[i].customer)
    {
      if i < |credits| {
        assert more[..i + 1] == credits[..i + 1];
      } else {
        assert more[..i + 1] == more;
      }
    }
  }

  lemma ActAccounted(min: int, w: Watch, op: WatchOp, credits: seq<Credit>)
    requires Accounted(credits, w)
    ensures Accounted(credits + if op.Feed? then CreditFor(min, w, op.event) else [], Act(min, w, op))
  {
    if op.Feed? && Credits(min, w, op.event) {
      CreditAccounted(min, w, op.event, credits);
    } else {
      hide Accounted;
      assert credits + [] == credits;
      SameAccounted(credits, w, Act(min, w, op));
    }
  }

  lemma SameAccounted(credits: seq<Credit>, w: Watch, after: Watch)
    requires Accounted(credits, w) && after.books == w.books && after.credited == w.credited
    ensures Accounted(credits, after)
  {
  }

  /**
   Over any run, bindings changing at will, no transaction is credited twice, the credited set is
   what was credited, and every customer's balance is the sum of the credits made to them.
   */
  lemma {:induction false} EachCreditedOnce(min: int, ops: seq<WatchOp>)
    ensures Accounted(RunCredits(min, WATCH_EMPTY, ops), ActAll(min, WATCH_EMPTY, ops))
    decreases |ops|
  {
    hide Accounted, Act, CreditFor;
    if ops == [] {
      NothingAccounted(WATCH_EMPTY);
    } else {
      var n := |ops| - 1;
      EachCreditedOnce(min, ops[..n]);
      ActAccounted(min, ActAll(min, WATCH_EMPTY, ops[..n]), ops[n], RunCredits(min, WATCH_EMPTY, ops[..n]));
    }
  }

  lemma NothingAccounted(w: Watch)
    requires w.credited == {} && w.books.customers.Keys == {}
    ensures Accounted([], w)
  {
  }

  // ----- the watcher object

  class DepositWatcher {
    const ledger: StablecoinLedger
    const minConfirmations: int
    var bindings: map<Address, Id>
    var credited: set<Tx>
    var unattributed: map<Tx, Event>

    ghost function State(): Watch
      reads this, ledger
    {
      Watch(ledger.State(), bindings, credited, unattributed)
    }

    ghost predicate Valid()
      reads this, ledger
    {
      && ledger.Valid()
      && unattributed.Keys !! credited
      && (forall a :: a in bindings ==> bindings[a] != "")
    }

    constructor (l: StablecoinLedger, min: int)
      requires l.Valid() && min >= 0
      ensures Valid() && ledger == l && minConfirmations == min && State() == Watch(l.State(), map[], {}, map[])
    {
      ledger, minConfirmations, bindings, credited, unattributed := l, min, map[], {}, map[];
    }

    method BindAddress(address: Address, customer: Id) returns (ok: bool)
      requires Valid()
      modifies this
      ensures Valid() && ok == MayBind(old(bindings), address, customer)
      ensures State() == Act(minConfirmations, old(State()), Bind(address, customer))
    {
      if customer == "" || !HexOf(address, 40) { return false; }
      if address in bindings && bindings[address] != customer { return false; }
      bindings := bindings[address := customer];
      ok := true;
    }

    method UnbindAddress(address: Address) returns (ok: bool)
      requires Valid()
      modifies this
      ensures Valid() && ok == HexOf(address, 40)
      ensures State() == Act(minConfirmations, old(State()), Unbind(address))
    {
      ok := HexOf(address, 40);
      if ok {
        bindings := bindings - {address};
      }
    }

    method Process(events: seq<Event>) returns (credits: seq<Credit>)
      requires Valid() && GoodEvents(events)
      modifies this, ledger
      ensures Valid() && State() == SeeAll(minConfirmations, old(State()), events)
      ensures credits == CreditList(minConfirmations, old(State()), events)
    {
      hide Solvent;
      ghost var start := State();
      credits := [];
      assert events[..0] == [];
      for i := 0 to |events|
        invariant Valid() && State() == SeeAll(minConfirmations, start, events[..i])
        invariant credits == CreditList(minConfirmations, start, events[..i])
      {
        assert events[..i + 1][..i] == events[..i];
        var credit := ProcessOne(events[i]);
        credits := credits + credit;
      }
      assert events[..|events|] == events;
    }

    /** One turn of the loop: skip, quarantine or credit. */
    method ProcessOne(event: Event) returns (credit: seq<Credit>)
      requires Valid() && GoodEvent(event)
      modifies this, ledger
      ensures Valid() && State() == See(minConfirmations, old(State()), event)
      ensures credit == CreditFor(minConfirmations, old(State()), event)
    {
      hide Solvent;
      if event.tx in credited || event.confirmations < minConfirmations { return []; }
      if event.sender !in bindings {
        unattributed := unattributed[event.tx := event];
        return [];
      }
      var customer := bindings[event.sender];
      var ok := ledger.CustomerDeposit(customer, event.amount);
      credited := credited + {event.tx};
      unattributed := unattributed - {event.tx};
      credit := [Credit(event.tx, customer, event.amount, ledger.customers[customer])];
    }
  }
}
