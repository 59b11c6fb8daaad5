/** Concrete runs from the empty system in which a law of the protocol fails outside the steps it is proved for. */
module ProtocolFindings {
  import opened RedisScripts
  import opened OrderStore
  import opened OrderHandlers
  import opened SeckillProtocol
  import opened MapSums
  import opened ProtocolRuns

  const ALL_OK := Calls(true, true, true, true)

  function Single(user: UserId): Purchase {
    Purchase(user, 7, 1, 1, 60)
  }

  function Message(user: UserId): OrderMsg {
    OrderMsg(100 + user, user, 7, 1)
  }

  function Pending7(user: UserId): Order {
    Order(user, 7, 1, Pending)
  }

  function Row7(shards: Shards, user: UserId): Row {
    RowAt(shards, user, 100 + user)
  }

  // ---------------------------------------------------------------------------------------------
  // Chaining steps
  // ---------------------------------------------------------------------------------------------

  ghost predicate Leads(s: System, step: Step, s': System) {
    Enabled(s, step) && Apply(s, step) == s'
  }

  /** The steps lead from one state to another. */
  ghost predicate Reaches(from: System, steps: seq<Step>, to: System) {
    Runs(from, steps) && Final(from, steps) == to
  }

  lemma OneStep(s: System, step: Step, s': System)
    requires Leads(s, step, s')
    ensures Reaches(s, [step], s')
  {
    assert Runs(Apply(s, step), [step][1..]);
  }

  lemma Then(from: System, steps: seq<Step>, s: System, step: Step, s': System)
    requires Reaches(from, steps, s) && Leads(s, step, s')
    ensures Reaches(from, steps + [step], s')
  {
    RunExtends(from, steps, step);
  }

  lemma {:induction false} FirstStep(from: System, step: Step, rest: seq<Step>, to: System)
    requires Enabled(from, step) && Reaches(Apply(from, step), rest, to)
    ensures Reaches(from, [step] + rest, to)
  {
    assert ([step] + rest)[1..] == rest;
  }

  lemma {:induction false} ReachesOn(from: System, first: seq<Step>, mid: System, second: seq<Step>, to: System)
    requires Reaches(from, first, mid) && Reaches(mid, second, to)
    ensures Reaches(from, first + second, to)
    decreases |first|
  {
    if first == [] {
      assert first + second == second;
    } else {
      ReachesOn(Apply(from, first[0]), first[1..], mid, second, to);
      FirstStep(from, first[0], first[1..] + second, to);
      assert [first[0]] + (first[1..] + second) == first + second;
    }
  }

  // ---------------------------------------------------------------------------------------------
  // Steps of a shop that sells one unit of product 7
  // ---------------------------------------------------------------------------------------------

  function Opened(shards: Shards): System {
    System(Stores(Redis(map[7 := 1], map[], map[]), Db(shards, map[7 := 1], map[])),
           multiset{}, multiset{}, map[], {}, map[7 := Product(1, 1)], map[])
  }

  /** Only product 7 is on sale, and Redis and MySQL know it. */
  ghost predicate Shop(s: System) {
    s.catalog == map[7 := Product(1, 1)] && 7 in s.stores.redis.stock && 7 in s.stores.db.remain
  }

  lemma Opens(shards: Shards)
    ensures Leads(Empty(shards), NewProduct(7, 1, 1, true), Opened(shards)) && Shop(Opened(shards))
  {
  }

  function Reserved(s: System, t: nat, user: UserId): System
    requires 7 in s.stores.redis.stock
  {
    s.(stores := s.stores.(redis := s.stores.redis.(stock := s.stores.redis.stock[7 := s.stores.redis.stock[7] - 1],
                                                    count := s.stores.redis.count[Buyer(user, 7) := 1])),
       flight := s.flight[Ticket(t) := Pending7(user)])
  }

  lemma Reserves(s: System, t: nat, user: UserId)
    requires Shop(s) && s.stores.redis.stock[7] >= 1 && Buyer(user, 7) !in s.stores.redis.count && Ticket(t) !in s.flight
    ensures Leads(s, Reserve(t, Single(user), "", 0), Reserved(s, t, user)) && Shop(Reserved(s, t, user))
  {
  }

  function Published(s: System, t: nat, user: UserId): System {
    s.(queue := s.queue + multiset{Message(user)},
       flight := (s.flight - {Ticket(t)})[Sent(Row7(s.stores.db.shards, user)) := Pending7(user)],
       issued := s.issued + {100 + user})
  }

  lemma Publishes(s: System, t: nat, user: UserId)
    requires Shop(s) && Ticket(t) in s.flight && s.flight[Ticket(t)] == Pending7(user) && 100 + user !in s.issued
    ensures Leads(s, Publish(t, 100 + user, false), Published(s, t, user)) && Shop(Published(s, t, user))
  {
  }

  /** The order is stored; its unit is taken only if MySQL still has one. */
  function Stored(s: System, user: UserId, queue: multiset<OrderMsg>): System
    requires 7 in s.stores.db.remain
  {
    var row, remain := Row7(s.stores.db.shards, user), s.stores.db.remain;
    s.(stores := s.stores.(db := s.stores.db.(orders := s.stores.db.orders[row := Pending7(user)],
                                              remain := if remain[7] >= 1 then remain[7 := remain[7] - 1] else remain)),
       queue := queue, flight := s.flight - {Sent(row)})
  }

  lemma Stores7(s: System, user: UserId, removed: bool)
    requires Shop(s) && Message(user) in s.queue && Row7(s.stores.db.shards, user) !in s.stores.db.orders
    ensures var s' := Stored(s, user, if removed then s.queue - multiset{Message(user)} else s.queue);
      Leads(s, Consume(Message(user), true, removed), s') && Shop(s')
  {
  }

  function Forgotten(s: System, user: UserId): System {
    s.(queue := s.queue - multiset{Message(user)}, flight := s.flight - {Sent(Row7(s.stores.db.shards, user))})
  }

  lemma Forgets(s: System, user: UserId)
    requires Message(user) in s.queue && Row7(s.stores.db.shards, user) in s.stores.db.orders
    ensures Leads(s, Consume(Message(user), true, true), Forgotten(s, user))
  {
  }

  function Listed(s: System): System {
    s.(passes := s.passes[0 := s.stores.db.remain])
  }

  lemma Lists(s: System)
    requires Shop(s)
    ensures Leads(s, ReadStocks(0), Listed(s)) && Shop(Listed(s))
  {
  }

  function Overwritten(s: System, stock: int): System {
    s.(stores := s.stores.(redis := s.stores.redis.(stock := s.stores.redis.stock[7 := stock])))
  }

  lemma Overwrites(s: System, stock: int)
    requires Shop(s) && 0 in s.passes && 7 in s.passes[0] && s.passes[0][7] == stock
    ensures Leads(s, Overwrite(0, 7), Overwritten(s, stock)) && Shop(Overwritten(s, stock))
  {
  }

  // ---------------------------------------------------------------------------------------------
  // Overselling
  // ---------------------------------------------------------------------------------------------

  ghost predicate Oversold(s: System, p: ProductId) {
    && p in s.catalog && s.catalog[p].total < Ordered(s, OfProduct(p))
    && s.queue == multiset{} && s.flight == map[]
  }

  lemma OneOrder(row: Row, o: Order, f: Filter)
    ensures Sum(map[row := o], ShareOf(f)) == Share(f, o)
  {
    SumUpdate(map[], ShareOf(f), row, o);
    assert map[][row := o] == map[row := o];
  }

  lemma TwoOrders(one: map<Row, Order>, row1: Row, row2: Row)
    requires one == map[row1 := Pending7(1)] && row2 != row1
    ensures Sum(one[row2 := Pending7(2)], ShareOf(OfProduct(7))) == 2
  {
    OneOrder(row1, Pending7(1), OfProduct(7));
    SumUpdate(one, ShareOf(OfProduct(7)), row2, Pending7(2));
  }

  // ---------------------------------------------------------------------------------------------
  // Pieces of runs
  // ---------------------------------------------------------------------------------------------

  /** Nothing has happened but the opening and perhaps a listing. */
  ghost predicate OnSale(s: System) {
    && Shop(s) && s.stores.redis.stock == s.stores.db.remain == map[7 := 1]
    && s.stores.redis.count == map[] && s.stores.db.orders == map[]
    && s.queue == s.delayed == multiset{} && s.flight == map[] && s.issued == {}
  }

  /** User 1's purchase is in flight, and Redis offers so much. */
  ghost predicate Sending(s: System, stock: int) {
    && Shop(s) && s.stores.redis.stock == map[7 := stock] && s.stores.db.remain == map[7 := 1]
    && s.stores.redis.count == map[Buyer(1, 7) := 1] && s.stores.db.orders == map[]
    && s.queue == multiset{Message(1)} && s.delayed == multiset{} && s.issued == {101}
    && s.flight == map[Sent(Row7(s.stores.db.shards, 1)) := Pending7(1)]
  }

  /** User 1 has the unit, and Redis offers so much. */
  ghost predicate Sold(s: System, stock: int) {
    && Shop(s) && s.stores.redis.stock == map[7 := stock] && s.stores.db.remain == map[7 := 0]
    && s.stores.redis.count == map[Buyer(1, 7) := 1]
    && s.stores.db.orders == map[Row7(s.stores.db.shards, 1) := Pending7(1)]
    && s.queue == s.delayed == multiset{} && s.flight == map[] && s.issued == {101}
  }

  const OPENING := [NewProduct(7, 1, 1, true)]
  const LISTING := [ReadStocks(0)]
  const OVERWRITING := [Overwrite(0, 7)]
  const SENDING := [Reserve(0, Single(1), "", 0)] + [Publish(0, 101, false)]
  const STORING := [Consume(Message(1), true, true)]

  lemma OpensShop(shards: Shards)
    ensures Reaches(Empty(shards), OPENING, Opened(shards)) && OnSale(Opened(shards))
  {
    Opens(shards);
    OneStep(Empty(shards), NewProduct(7, 1, 1, true), Opened(shards));
  }

  lemma Sends(s: System) returns (s': System)
    requires OnSale(s)
    ensures Reaches(s, SENDING, s') && Sending(s', 0)
    ensures s'.passes == s.passes && s'.stores.db.shards == s.stores.db.shards
  {
    var mid := Reserved(s, 0, 1);
    Reserves(s, 0, 1);
    s' := Published(mid, 0, 1);
    Publishes(mid, 0, 1);
    OneStep(s, Reserve(0, Single(1), "", 0), mid);
    Then(s, [Reserve(0, Single(1), "", 0)], mid, Publish(0, 101, false), s');
  }

  lemma Sells(s: System, stock: int) returns (s': System)
    requires Sending(s, stock)
    ensures Reaches(s, STORING, s') && Sold(s', stock)
    ensures s'.passes == s.passes && s'.stores.db.shards == s.stores.db.shards
  {
    s' := Stored(s, 1, s.queue - multiset{Message(1)});
    Stores7(s, 1, true);
    OneStep(s, Consume(Message(1), true, true), s');
  }

  /** User 2 buys although the only unit is sold to user 1; the last delivery is a redelivery. */
  function SecondSale(): seq<Step> {
    [Reserve(1, Single(2), "", 0), Publish(1, 102, false), Consume(Message(2), true, false), Consume(Message(2), true, true)]
  }

  /** The second order's row stays although the stock guard refused it, and its redelivery is acknowledged. */
  lemma SecondSaleOversells(s: System)
    requires Sold(s, 1)
    ensures exists s' :: Reaches(s, SecondSale(), s') && Oversold(s', 7)
  {
    var b := SecondSends(s);
    var d := SecondIsStored(b);
    ReachesOn(s, SecondSale()[..2], b, SecondSale()[2..], d);
    assert SecondSale()[..2] + SecondSale()[2..] == SecondSale();
  }

  /** User 2's purchase is in flight while the unit is sold to user 1. */
  ghost predicate SecondInFlight(s: System) {
    && Shop(s) && s.stores.db.remain == map[7 := 0]
    && s.stores.db.orders == map[Row7(s.stores.db.shards, 1) := Pending7(1)]
    && s.queue == multiset{Message(2)} && s.flight == map[Sent(Row7(s.stores.db.shards, 2)) := Pending7(2)]
  }

  lemma SecondSends(s: System) returns (b: System)
    requires Sold(s, 1)
    ensures Reaches(s, SecondSale()[..2], b) && SecondInFlight(b)
  {
    var a := Reserved(s, 1, 2);
    Reserves(s, 1, 2);
    b := Published(a, 1, 2);
    Publishes(a, 1, 2);
    OneStep(s, SecondSale()[0], a);
    Then(s, [SecondSale()[0]], a, SecondSale()[1], b);
  }

  lemma SecondIsStored(b: System) returns (d: System)
    requires SecondInFlight(b)
    ensures Reaches(b, SecondSale()[2..], d) && Oversold(d, 7)
  {
    var c := Stored(b, 2, b.queue);
    Stores7(b, 2, false);
    d := Forgotten(c, 2);
    Forgets(c, 2);
    OneStep(b, SecondSale()[2], c);
    Then(b, [SecondSale()[2]], c, SecondSale()[3], d);
    TwoOrders(b.stores.db.orders, Row7(b.stores.db.shards, 1), Row7(b.stores.db.shards, 2));
  }

  /** The pass lists and overwrites while user 1's purchase is in flight. */
  function InFlightPass(): seq<Step> {
    OPENING + SENDING + LISTING + OVERWRITING + STORING
  }

  lemma ListsAndOverwrites(s: System) returns (s': System)
    requires Sending(s, 0)
    ensures Reaches(s, LISTING + OVERWRITING, s') && Sending(s', 1)
    ensures s'.stores.db.shards == s.stores.db.shards
  {
    var mid := Listed(s);
    Lists(s);
    s' := Overwritten(mid, 1);
    Overwrites(mid, 1);
    OneStep(s, ReadStocks(0), mid);
    Then(s, LISTING, mid, Overwrite(0, 7), s');
  }

  lemma InFlightPassOffersAgain(shards: Shards) returns (s: System)
    ensures Reaches(Empty(shards), InFlightPass(), s) && Sold(s, 1)
  {
    OpensShop(shards);
    var a := Sends(Opened(shards));
    var b := ListsAndOverwrites(a);
    s := Sells(b, 1);
    FourPieces(Empty(shards), OPENING, Opened(shards), SENDING, a, LISTING + OVERWRITING, b, STORING, s);
    assert OPENING + SENDING + (LISTING + OVERWRITING) + STORING == InFlightPass();
  }

  lemma FourPieces(from: System, w: seq<Step>, a: System, x: seq<Step>, b: System, y: seq<Step>, c: System, z: seq<Step>, to: System)
    requires Reaches(from, w, a) && Reaches(a, x, b) && Reaches(b, y, c) && Reaches(c, z, to)
    ensures Reaches(from, w + x + y + z, to)
  {
    ReachesOn(from, w, a, x, b);
    ReachesOn(from, w + x, b, y, c);
    ReachesOn(from, w + x + y, c, z, to);
  }

  /** Every step but the overwrite is clean, and yet two orders end pending for one unit of stock. */
  lemma ReconcilingInFlightOversells(shards: Shards)
    ensures exists s :: Reaches(Empty(shards), InFlightPass() + SecondSale(), s) && Oversold(s, 7)
  {
    var mid := InFlightPassOffersAgain(shards);
    SecondSaleOversells(mid);
    var s :| Reaches(mid, SecondSale(), s) && Oversold(s, 7);
    ReachesOn(Empty(shards), InFlightPass(), mid, SecondSale(), s);
  }

  /** The pass lists before user 1's purchase, and gets to the product when the purchase is complete. */
  function StaleList(): seq<Step> {
    OPENING + LISTING + SENDING + STORING
  }

  /** One unit sold to user 1 and nothing else going on. */
  lemma SoldIsExact(s: System)
    requires Sold(s, 0)
    ensures Exact(s)
  {
    assert GoodOrder(s, Row7(s.stores.db.shards, 1), Pending7(1));
    forall f ensures InFlight(s, f) == 0 && Ordered(s, f) == Share(f, Pending7(1)) {
      OneOrder(Row7(s.stores.db.shards, 1), Pending7(1), f);
    }
    forall b ensures CountSound(s, b) && CountGap(s, b) == 0 {
      assert b == Buyer(b.user, b.product);
    }
  }

  /** The list still holds the unit that is sold. */
  ghost predicate ListedUnit(s: System) {
    0 in s.passes && 7 in s.passes[0] && s.passes[0][7] == 1
  }

  lemma ListsFirst(shards: Shards) returns (s: System)
    ensures Reaches(Opened(shards), LISTING, s) && OnSale(s) && ListedUnit(s)
  {
    OpensShop(shards);
    s := Listed(Opened(shards));
    Lists(Opened(shards));
    OneStep(Opened(shards), ReadStocks(0), s);
  }

  /** The books are exact, nothing is in flight, and the listed unit is sold. */
  lemma StaleListReaches(shards: Shards) returns (s: System)
    ensures Reaches(Empty(shards), StaleList(), s)
    ensures Exact(s) && Sold(s, 0) && ListedUnit(s)
  {
    OpensShop(shards);
    var a := ListsFirst(shards);
    var b := Sends(a);
    s := Sells(b, 0);
    SoldIsExact(s);
    FourPieces(Empty(shards), OPENING, Opened(shards), LISTING, a, SENDING, b, STORING, s);
  }

  lemma OverwritesSold(s: System) returns (s': System)
    requires Sold(s, 0) && ListedUnit(s)
    ensures Reaches(s, OVERWRITING, s') && Sold(s', 1)
  {
    s' := Overwritten(s, 1);
    Overwrites(s, 1);
    OneStep(s, Overwrite(0, 7), s');
  }

  /** The overwrite that follows offers the sold unit again although nothing is in flight. */
  lemma StaleListOversells(shards: Shards)
    ensures exists mid :: Reaches(Empty(shards), StaleList(), mid) && Exact(mid) && mid.flight == map[]
                          && OversellsBy(mid, OVERWRITING + SecondSale())
  {
    var mid := StaleListReaches(shards);
    var offered := OverwritesSold(mid);
    SecondSaleOversells(offered);
    var s :| Reaches(offered, SecondSale(), s) && Oversold(s, 7);
    ReachesOn(mid, OVERWRITING, offered, SecondSale(), s);
    assert OversellsBy(mid, OVERWRITING + SecondSale());
  }

  ghost predicate OversellsBy(s: System, steps: seq<Step>) {
    exists s' :: Reaches(s, steps, s') && Oversold(s', 7)
  }

  // ---------------------------------------------------------------------------------------------
  // The last second
  // ---------------------------------------------------------------------------------------------

  /** The unit has left Redis and is nowhere else. */
  ghost predicate Leaked7(s: System) {
    && StockOf(s.stores.redis, 7) == 0 && RemainOf(s, 7) == 1 && Gap(s, 7) == 1
    && s.flight == map[] && s.stores.db.orders == map[] && s.stores.redis.count == map[]
  }

  const LAST_SECOND := Reserve(0, Purchase(1, 7, 1, 1, 0), "", 0)

  /** A purchase in the last second of an activity takes the only unit and gives it to nobody. */
  lemma LastSecondLeaks(shards: Shards)
    ensures exists s :: Reaches(Empty(shards), OPENING + [LAST_SECOND], s) && Leaked7(s)
  {
    var a, b := Opened(shards), Overwritten(Opened(shards), 0);
    OpensShop(shards);
    assert Leads(a, LAST_SECOND, b);
    Then(Empty(shards), OPENING, a, LAST_SECOND, b);
    assert Leaked7(b);
  }

  // ---------------------------------------------------------------------------------------------
  // Returning an order
  // ---------------------------------------------------------------------------------------------

  /** User 1 buys the only unit. */
  function Buying(): seq<Step> {
    OPENING + SENDING + STORING
  }

  lemma Buys(shards: Shards) returns (s: System)
    ensures Reaches(Empty(shards), Buying(), s) && Sold(s, 0) && s.stores.db.shards == shards
  {
    OpensShop(shards);
    var a := Sends(Opened(shards));
    s := Sells(a, 0);
    ReachesOn(Empty(shards), OPENING, Opened(shards), SENDING, a);
    ReachesOn(Empty(shards), OPENING + SENDING, a, STORING, s);
  }

  /** The order is cancelled, with these stocks left and user 1's counter as given. */
  function CancelledOrder(s: System, stock: int, count: map<Buyer, int>, remain: int): System {
    s.(stores := Stores(s.stores.redis.(stock := map[7 := stock], count := count),
                        s.stores.db.(remain := map[7 := remain],
                                     orders := map[Row7(s.stores.db.shards, 1) := Pending7(1).(status := Cancelled)])))
  }

  lemma NothingOrdered(s: System, stock: int, count: map<Buyer, int>, remain: int, f: Filter)
    ensures Ordered(CancelledOrder(s, stock, count, remain), f) == 0
  {
    OneOrder(Row7(s.stores.db.shards, 1), Pending7(1).(status := Cancelled), f);
  }

  /** The product is on sale, and the buyer has reached the limit without an order. */
  ghost predicate Blocked(s: System, b: Buyer) {
    && b.product in s.catalog && CountOf(s.stores.redis, b) == s.catalog[b.product].limit
    && Ordered(s, OfBuyer(b)) == 0 && s.flight == map[]
    && StockOf(s.stores.redis, b.product) == RemainOf(s, b.product) == s.catalog[b.product].total
  }

  /** User 17 shares a table with user 1 when there are sixteen, and cancels user 1's order. The unit is offered
      again, but user 1's counter stays at its limit without any order. */
  lemma ForeignCancelBlocksOwner()
    ensures exists s :: Reaches(Empty(16), Buying() + [Cancel(101, 17, ALL_OK)], s) && Blocked(s, Buyer(1, 7))
  {
    var mid := Buys(16);
    var s := CancelledOrder(mid, 1, map[Buyer(1, 7) := 1], 1);
    ForeignCancelLeads(mid);
    Then(Empty(16), Buying(), mid, Cancel(101, 17, ALL_OK), s);
    NothingOrdered(mid, 1, map[Buyer(1, 7) := 1], 1, OfBuyer(Buyer(1, 7)));
    assert Blocked(s, Buyer(1, 7));
  }

  lemma ForeignCancelLeads(s: System)
    requires Sold(s, 0) && s.stores.db.shards == 16
    ensures Leads(s, Cancel(101, 17, ALL_OK), CancelledOrder(s, 1, map[Buyer(1, 7) := 1], 1))
  {
    assert RowAt(16, 17, 101) == Row7(16, 1);
  }

  /** The unit is in no order, in no flight and not in MySQL's stock, and cancelling again is refused. */
  ghost predicate Lost(s: System) {
    && 7 in s.catalog && s.catalog[7].total > 0 && RemainOf(s, 7) == Ordered(s, OfProduct(7)) == 0 && s.flight == map[]
    && CancelEffect(s.stores, 101, 1, ALL_OK) == (s.stores, WrongStatus)
  }

  const RESTOCK_FAILS := Cancel(101, 1, Calls(true, false, true, true))

  /** A cancellation whose restock fails. */
  lemma FailedRestockLosesStock(shards: Shards)
    ensures exists s :: Reaches(Empty(shards), Buying() + [RESTOCK_FAILS], s) && Lost(s)
  {
    var mid := Buys(shards);
    var s := CancelledOrder(mid, 1, map[], 0);
    FailedRestockLeads(mid);
    Then(Empty(shards), Buying(), mid, RESTOCK_FAILS, s);
    NothingOrdered(mid, 1, map[], 0, OfProduct(7));
    assert Lost(s);
  }

  lemma FailedRestockLeads(s: System)
    requires Sold(s, 0)
    ensures Leads(s, RESTOCK_FAILS, CancelledOrder(s, 1, map[], 0))
  {
  }
}
