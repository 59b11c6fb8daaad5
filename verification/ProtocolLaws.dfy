/** Conservation of stock and of purchase counts, step by step and over whole runs. */
module ProtocolLaws {
  import opened Prelude
  import opened RedisScripts
  import opened OrderStore
  import opened OrderHandlers
  import opened SeckillProtocol
  import opened MapSums
  import opened ProtocolShape

  // ---------------------------------------------------------------------------------------------
  // How each step moves the quantity in flight and the quantity ordered
  // ---------------------------------------------------------------------------------------------

  /** The order a step moves out of Pending or Paid, if any. */
  function GivenBack(s: System, step: Step): Option<Row> {
    match step
    case Cancel(no, caller, c) => Closing(s, RowAt(s.stores.db.shards, caller, no), Pending, c)
    case Refund(no, caller, c) => Closing(s, RowAt(s.stores.db.shards, caller, no), Paid, c)
    case Expire(m, c, _) => Closing(s, RowOf(s.stores.db, m), Pending, c)
    case _ => None
  }

  /** The order that a handler for this status closes, if its status write succeeds. */
  function Closing(s: System, row: Row, status: Status, c: Calls): Option<Row> {
    if row in s.stores.db.orders && s.stores.db.orders[row].status == status && c.write then Some(row) else None
  }

  /** The purchase a step takes out of flight without saving its order. */
  function Dropped(s: System, step: Step): Option<Slot> {
    match step
    case GiveUp(t, _) => if Ticket(t) in s.flight then Some(Ticket(t)) else None
    case Consume(m, insertOk, removed) =>
      var row := RowOf(s.stores.db, m);
      if row !in s.stores.db.orders && !insertOk && removed && m !in s.queue - multiset{m} && Sent(row) in s.flight
      then Some(Sent(row)) else None
    case _ => None
  }

  lemma HeldIsPicked(s: System, row: Row, f: Filter)
    requires Shape(s) && row in s.stores.db.orders
    ensures 0 <= Share(f, s.stores.db.orders[row]) <= Ordered(s, f)
  {
    forall r | r in s.stores.db.orders ensures ShareOf(f)(s.stores.db.orders[r]) >= 0 {
      assert GoodOrder(s, r, s.stores.db.orders[r]);
    }
    SumNonNegative(s.stores.db.orders, ShareOf(f));
  }

  lemma SumsNonNegative(s: System, f: Filter)
    requires Shape(s)
    ensures InFlight(s, f) >= 0 && Ordered(s, f) >= 0
    ensures forall slot :: slot in s.flight ==> 0 <= Share(f, s.flight[slot]) <= InFlight(s, f)
  {
    forall r | r in s.stores.db.orders ensures ShareOf(f)(s.stores.db.orders[r]) >= 0 {
      assert GoodOrder(s, r, s.stores.db.orders[r]);
    }
    SumNonNegative(s.stores.db.orders, ShareOf(f));
    SumNonNegative(s.flight, ShareOf(f));
    forall slot | slot in s.flight ensures 0 <= Share(f, s.flight[slot]) <= InFlight(s, f) {
      assert ShareOf(f)(s.flight[slot]) == Share(f, s.flight[slot]);
    }
  }

  lemma StatusSums(s: System, s': System, row: Row, status: Status, f: Filter)
    requires row in s.stores.db.orders && s'.flight == s.flight
    requires s'.stores.db.orders == s.stores.db.orders[row := s.stores.db.orders[row].(status := status)]
    ensures InFlight(s', f) == InFlight(s, f)
    ensures Ordered(s', f) == Ordered(s, f) - Share(f, s.stores.db.orders[row]) + Share(f, s'.stores.db.orders[row])
  {
    SumUpdate(s.stores.db.orders, ShareOf(f), row, s'.stores.db.orders[row]);
  }

  /** A saved purchase moves from flight to the order table with its quantity. */
  lemma SaveSums(s: System, s': System, slot: Slot, row: Row, f: Filter)
    requires slot in s.flight && s.flight[slot].status == Pending && row !in s.stores.db.orders
    requires s'.flight == s.flight - {slot}
    requires s'.stores.db.orders == s.stores.db.orders[row := s.flight[slot]]
    ensures InFlight(s', f) == InFlight(s, f) - Share(f, s.flight[slot])
    ensures Ordered(s', f) == Ordered(s, f) + Share(f, s.flight[slot])
  {
    SumDrop(s.flight, ShareOf(f), slot);
    SumUpdate(s.stores.db.orders, ShareOf(f), row, s.flight[slot]);
  }

  lemma PublishSums(s: System, t: nat, no: OrderNo, delaySent: bool, f: Filter)
    requires Shape(s) && Enabled(s, Publish(t, no, delaySent))
    ensures InFlight(PublishEffect(s, t, no, delaySent), f) == InFlight(s, f)
  {
    var o := s.flight[Ticket(t)];
    var sent := Sent(RowAt(s.stores.db.shards, o.user, no));
    UnusedNumber(s, o.user, no);
    SumDrop(s.flight, ShareOf(f), Ticket(t));
    SumUpdate(s.flight - {Ticket(t)}, ShareOf(f), sent, o);
  }

  lemma ReserveSums(s: System, t: nat, q: Purchase, key: string, now: int, f: Filter)
    requires Enabled(s, Reserve(t, q, key, now))
    ensures var s' := ReserveEffect(s, t, q, key, now);
      var reply := BuyOnce(s.stores.redis, q, key, now).1;
      && Ordered(s', f) == Ordered(s, f)
      && InFlight(s', f) == InFlight(s, f)
           + if reply.Reply? && reply.code == OK then Share(f, Order(q.user, q.product, q.quantity, Pending)) else 0
  {
    SumUpdate(s.flight, ShareOf(f), Ticket(t), Order(q.user, q.product, q.quantity, Pending));
  }

  // ---------------------------------------------------------------------------------------------
  // What a step leaks
  // ---------------------------------------------------------------------------------------------

  /** Stock of `p` that the step makes unavailable in Redis with nothing to show for it. */
  ghost function Leak(s: System, step: Step, p: ProductId): int
    requires Enabled(s, step)
  {
    match step
    case NewProduct(p', total, _, preloaded) => if p' == p && !preloaded then total else 0
    case Reserve(_, q, key, now) =>
      if q.product == p && BuyOnce(s.stores.redis, q, key, now).1 == ScriptError then q.quantity else 0
    case GiveUp(t, c) => if c.stock then 0 else Share(OfProduct(p), s.flight[Ticket(t)])
    case Consume(_, _, _) =>
      if Dropped(s, step).Some? then Share(OfProduct(p), s.flight[Dropped(s, step).value]) else 0
    case Cancel(_, _, c) => Unreturned(s, step, OfProduct(p), c.stock)
    case Refund(_, _, c) => Unreturned(s, step, OfProduct(p), c.stock)
    case Expire(_, c, _) => Unreturned(s, step, OfProduct(p), c.stock)
    case Overwrite(pass, p') => if p' == p then StockOf(s.stores.redis, p) - s.passes[pass][p] else 0
    case _ => 0
  }

  /** Purchase count of `b` that the step leaves standing with nothing to show for it. */
  ghost function Stuck(s: System, step: Step, b: Buyer): int
    requires Enabled(s, step)
  {
    match step
    case GiveUp(t, c) => if c.count then 0 else Share(OfBuyer(b), s.flight[Ticket(t)])
    case Consume(_, _, _) =>
      if Dropped(s, step).Some? then Share(OfBuyer(b), s.flight[Dropped(s, step).value]) else 0
    case Cancel(_, _, c) => Unreturned(s, step, OfBuyer(b), c.count)
    case Refund(_, _, c) => Unreturned(s, step, OfBuyer(b), c.count)
    case Expire(_, c, _) => Unreturned(s, step, OfBuyer(b), c.count)
    case _ => 0
  }

  function Unreturned(s: System, step: Step, f: Filter, returned: bool): int {
    var row := GivenBack(s, step);
    if row.Some? && row.value in s.stores.db.orders && !returned then Share(f, s.stores.db.orders[row.value]) else 0
  }

  /** The step keeps the books of product `p` up to exactly what it leaks. */
  ghost predicate StockBooked(s: System, step: Step, p: ProductId)
    requires Enabled(s, step)
  {
    var s' := Apply(s, step);
    p in s'.catalog && MySqlLaw(s', p) && 0 <= StockOf(s'.stores.redis, p) && Gap(s', p) == Gap(s, p) + Leak(s, step, p)
  }

  ghost predicate CountBooked(s: System, step: Step, b: Buyer)
    requires Enabled(s, step)
  {
    var s' := Apply(s, step);
    && CountGap(s', b) == CountGap(s, b) + Stuck(s, step, b)
    && (b.product in s'.catalog ==> CountOf(s'.stores.redis, b) <= s'.catalog[b.product].limit)
  }

  // ---------------------------------------------------------------------------------------------
  // What a sound state guarantees
  // ---------------------------------------------------------------------------------------------

  /** A product outside the catalog has no orders, nothing in flight and no purchase counts. */
  lemma NothingOf(s: System, p: ProductId)
    requires Shape(s) && p !in s.catalog
    ensures InFlight(s, OfProduct(p)) == 0 && Ordered(s, OfProduct(p)) == 0
    ensures RemainOf(s, p) == 0 && StockOf(s.stores.redis, p) == 0
    ensures forall b :: b in s.stores.redis.count ==> b.product != p
  {
    forall slot | slot in s.flight ensures ShareOf(OfProduct(p))(s.flight[slot]) == 0 {}
    forall row | row in s.stores.db.orders ensures ShareOf(OfProduct(p))(s.stores.db.orders[row]) == 0 {
      assert GoodOrder(s, row, s.stores.db.orders[row]);
    }
    SumZero(s.flight, ShareOf(OfProduct(p)));
    SumZero(s.stores.db.orders, ShareOf(OfProduct(p)));
  }

  /** MySQL holds the stock of everything in flight, so its stock guard never refuses it. */
  lemma GuardNeverRefuses(s: System, slot: Slot)
    requires Sound(s) && slot in s.flight
    ensures s.flight[slot].product in s.stores.db.remain
    ensures s.flight[slot].quantity <= s.stores.db.remain[s.flight[slot].product]
  {
    var p := s.flight[slot].product;
    assert StockSound(s, p);
    SumsNonNegative(s, OfProduct(p));
    assert Share(OfProduct(p), s.flight[slot]) == s.flight[slot].quantity;
  }

  /** A buyer's counter covers each purchase in flight and each held order, so that taking one back
      deletes the key only when exactly zero is left. */
  lemma CounterCoversFlight(s: System, slot: Slot)
    requires Sound(s) && slot in s.flight
    ensures var o := s.flight[slot]; var b := Buyer(o.user, o.product);
      && 0 < o.quantity <= CountOf(s.stores.redis, b)
      && CountOf(TakeCount(s.stores.redis, b, o.quantity), b) == CountOf(s.stores.redis, b) - o.quantity
  {
    var o := s.flight[slot];
    var b := Buyer(o.user, o.product);
    assert CountSound(s, b);
    SumsNonNegative(s, OfBuyer(b));
    assert Share(OfBuyer(b), o) == o.quantity;
  }

  lemma CounterCoversOrder(s: System, row: Row)
    requires Sound(s) && row in s.stores.db.orders && Held(s.stores.db.orders[row].status)
    ensures var o := s.stores.db.orders[row]; var b := Buyer(o.user, o.product);
      && 0 < o.quantity <= CountOf(s.stores.redis, b)
      && CountOf(TakeCount(s.stores.redis, b, o.quantity), b) == CountOf(s.stores.redis, b) - o.quantity
  {
    var o := s.stores.db.orders[row];
    var b := Buyer(o.user, o.product);
    assert CountSound(s, b) && GoodOrder(s, row, o);
    SumsNonNegative(s, OfBuyer(b));
    HeldIsPicked(s, row, OfBuyer(b));
  }

  /** The queued purchase behind a message whose order is not in the tables. */
  lemma QueuedPurchase(s: System, m: OrderMsg)
    requires Shape(s) && m in s.queue
    ensures var row := RowOf(s.stores.db, m);
      if row in s.stores.db.orders then Sent(row) !in s.flight
      else Sent(row) in s.flight && s.flight[Sent(row)] == OrderFor(m)
  {
  }

  /** A timeout message names the product and the quantity of the stored order. */
  lemma TimeoutAgrees(s: System, m: OrderMsg)
    requires Shape(s) && m in s.delayed && RowOf(s.stores.db, m) in s.stores.db.orders
    ensures Agrees(m, s.stores.db.orders[RowOf(s.stores.db, m)])
  {
  }

  // ---------------------------------------------------------------------------------------------
  // One step
  // ---------------------------------------------------------------------------------------------

  lemma NewProductBooks(s: System, step: Step, p: ProductId, b: Buyer)
    requires Enabled(s, step) && step.NewProduct? && p in Apply(s, step).catalog
    requires if p == step.p
             then StockOf(s.stores.redis, p) == RemainOf(s, p) == InFlight(s, OfProduct(p)) == Ordered(s, OfProduct(p)) == 0
             else StockSound(s, p)
    requires CountSound(s, b) && (b.product == step.p ==> b !in s.stores.redis.count)
    ensures StockBooked(s, step, p) && CountBooked(s, step, b)
  {
  }

  lemma ReserveBooks(s: System, step: Step, p: ProductId, b: Buyer)
    requires Enabled(s, step) && step.Reserve? && p in s.catalog
    requires StockSound(s, p) && CountSound(s, b)
    ensures StockBooked(s, step, p) && CountBooked(s, step, b)
  {
    BuyShape(s.stores.redis, step.q, step.key, step.now);
    ReserveSums(s, step.t, step.q, step.key, step.now, OfProduct(p));
    ReserveSums(s, step.t, step.q, step.key, step.now, OfBuyer(b));
  }

  /** A compensation that never takes more than the counter holds moves exactly what its calls say. */
  lemma CompensatedNumbers(r: Redis, b: Buyer, quantity: int, c: Calls, p: ProductId, other: Buyer)
    requires 0 < quantity <= CountOf(r, b)
    ensures var r' := Compensated(r, b, quantity, c);
      && StockOf(r', p) == StockOf(r, p) + (if c.stock && p == b.product then quantity else 0)
      && CountOf(r', other) == CountOf(r, other) - (if c.count && other == b then quantity else 0)
  {
  }

  lemma GiveUpBooks(s: System, step: Step, p: ProductId, b: Buyer)
    requires Enabled(s, step) && step.GiveUp? && p in s.catalog
    requires StockSound(s, p) && CountSound(s, b)
    requires var o := s.flight[Ticket(step.t)];
      o.status == Pending && 0 < o.quantity <= CountOf(s.stores.redis, Buyer(o.user, o.product))
    ensures StockBooked(s, step, p) && CountBooked(s, step, b)
  {
    var slot := Ticket(step.t);
    var o := s.flight[slot];
    CompensatedNumbers(s.stores.redis, Buyer(o.user, o.product), o.quantity, step.calls, p, b);
    SumDrop(s.flight, ShareOf(OfProduct(p)), slot);
    SumDrop(s.flight, ShareOf(OfBuyer(b)), slot);
  }

  /** Saving a purchase in flight as an order whose stock MySQL still holds. */
  lemma SavedBooks(s: System, s': System, slot: Slot, row: Row, p: ProductId, b: Buyer)
    requires p in s.catalog && StockSound(s, p) && CountSound(s, b)
    requires slot in s.flight && row !in s.stores.db.orders
    requires s'.catalog == s.catalog && s'.stores.redis == s.stores.redis && s'.flight == s.flight - {slot}
    requires var o := s.flight[slot];
      && o.status == Pending && o.product in s.stores.db.remain
      && s'.stores.db.orders == s.stores.db.orders[row := o]
      && s'.stores.db.remain == s.stores.db.remain[o.product := s.stores.db.remain[o.product] - o.quantity]
    ensures MySqlLaw(s', p) && Gap(s', p) == Gap(s, p) && CountGap(s', b) == CountGap(s, b)
  {
    SaveSums(s, s', slot, row, OfProduct(p));
    SaveSums(s, s', slot, row, OfBuyer(b));
  }

  ghost predicate Coverable(s: System, slot: Slot) {
    && slot in s.flight && s.flight[slot].status == Pending
    && s.flight[slot].product in s.stores.db.remain
    && s.flight[slot].quantity <= s.stores.db.remain[s.flight[slot].product]
  }

  lemma CreateDirectBooks(s: System, step: Step, p: ProductId, b: Buyer)
    requires Enabled(s, step) && step.CreateDirect? && p in s.catalog
    requires StockSound(s, p) && CountSound(s, b)
    requires Coverable(s, Ticket(step.t))
    requires RowAt(s.stores.db.shards, s.flight[Ticket(step.t)].user, step.no) !in s.stores.db.orders
    ensures StockBooked(s, step, p) && CountBooked(s, step, b)
  {
    var slot := Ticket(step.t);
    SavedBooks(s, Apply(s, step), slot, RowAt(s.stores.db.shards, s.flight[slot].user, step.no), p, b);
  }

  lemma ConsumeBooks(s: System, step: Step, p: ProductId, b: Buyer)
    requires Enabled(s, step) && step.Consume? && p in s.catalog
    requires StockSound(s, p) && CountSound(s, b)
    requires var row := RowOf(s.stores.db, step.m);
      if row in s.stores.db.orders then Sent(row) !in s.flight
      else Coverable(s, Sent(row)) && s.flight[Sent(row)] == OrderFor(step.m)
    ensures StockBooked(s, step, p) && CountBooked(s, step, b)
  {
    var row := RowOf(s.stores.db, step.m);
    var s' := Apply(s, step);
    if row in s.stores.db.orders {
      assert s'.flight == s.flight && s'.stores == s.stores;
    } else if step.insertOk {
      SavedBooks(s, s', Sent(row), row, p, b);
    } else {
      SumDrop(s.flight, ShareOf(OfProduct(p)), Sent(row));
      SumDrop(s.flight, ShareOf(OfBuyer(b)), Sent(row));
    }
  }

  lemma PublishBooks(s: System, step: Step, p: ProductId, b: Buyer)
    requires Shape(s) && Enabled(s, step) && step.Publish? && p in s.catalog
    requires StockSound(s, p) && CountSound(s, b)
    ensures StockBooked(s, step, p) && CountBooked(s, step, b)
  {
    PublishSums(s, step.t, step.no, step.delaySent, OfProduct(p));
    PublishSums(s, step.t, step.no, step.delaySent, OfBuyer(b));
  }

  lemma PayBooks(s: System, step: Step, p: ProductId, b: Buyer)
    requires Enabled(s, step) && step.Pay? && p in s.catalog
    requires StockSound(s, p) && CountSound(s, b)
    ensures StockBooked(s, step, p) && CountBooked(s, step, b)
  {
    var row := RowAt(s.stores.db.shards, step.caller, step.no);
    if PayEffect(s.stores, step.no, step.caller, step.write).1.Done? {
      StatusSums(s, Apply(s, step), row, Paid, OfProduct(p));
      StatusSums(s, Apply(s, step), row, Paid, OfBuyer(b));
    }
  }

  /** A held order whose product MySQL knows and whose quantity its buyer's counter covers. */
  ghost predicate Returnable(s: System, row: Row) {
    && row in s.stores.db.orders
    && var o := s.stores.db.orders[row];
      && Held(o.status) && o.product in s.stores.db.remain
      && 0 < o.quantity <= CountOf(s.stores.redis, Buyer(o.user, o.product))
  }

  /** Taking an order out of the books together with its stock and its count. */
  lemma ReturnBooks(s: System, s': System, row: Row, status: Status, c: Calls, p: ProductId, b: Buyer)
    requires p in s.catalog && StockSound(s, p) && CountSound(s, b)
    requires Returnable(s, row) && !Held(status)
    requires s'.flight == s.flight && s'.catalog == s.catalog
    requires s'.stores.db.orders == s.stores.db.orders[row := s.stores.db.orders[row].(status := status)]
    requires var o := s.stores.db.orders[row];
      && s'.stores.db.remain == Restock(s.stores.db, o.product, o.quantity).remain
      && s'.stores.redis == Compensated(s.stores.redis, Buyer(o.user, o.product), o.quantity, c)
    ensures MySqlLaw(s', p) && 0 <= StockOf(s'.stores.redis, p)
    ensures Gap(s', p) == Gap(s, p) + if c.stock then 0 else Share(OfProduct(p), s.stores.db.orders[row])
    ensures CountGap(s', b) == CountGap(s, b) + if c.count then 0 else Share(OfBuyer(b), s.stores.db.orders[row])
    ensures b.product in s.catalog ==> CountOf(s'.stores.redis, b) <= s.catalog[b.product].limit
  {
    var o := s.stores.db.orders[row];
    CompensatedNumbers(s.stores.redis, Buyer(o.user, o.product), o.quantity, c, p, b);
    StatusSums(s, s', row, status, OfProduct(p));
    StatusSums(s, s', row, status, OfBuyer(b));
  }

  predicate IsReturn(step: Step) {
    step.Cancel? || step.Refund? || step.Expire?
  }

  /** The order of `row` is closed with its quantity returned to MySQL and compensated in Redis; nothing else changes. */
  ghost predicate ClosesOne(s: System, s': System, row: Row, status: Status, c: Calls)
    requires row in s.stores.db.orders
  {
    var o := s.stores.db.orders[row];
    && s'.stores.db.orders == s.stores.db.orders[row := o.(status := status)]
    && s'.stores.db.remain == Restock(s.stores.db, o.product, o.quantity).remain
    && s'.stores.redis == Compensated(s.stores.redis, Buyer(o.user, o.product), o.quantity, c)
  }

  /** A return closes the order it gives back, if any, and does nothing otherwise. */
  ghost predicate ReturnsOne(s: System, step: Step, status: Status)
    requires Enabled(s, step) && IsReturn(step)
    requires GivenBack(s, step).Some? ==> GivenBack(s, step).value in s.stores.db.orders
  {
    var s' := Apply(s, step);
    && s'.flight == s.flight && s'.catalog == s.catalog
    && (GivenBack(s, step).None? ==> s'.stores == s.stores)
    && (GivenBack(s, step).Some? ==> ClosesOne(s, s', GivenBack(s, step).value, status, step.calls))
  }

  lemma CancelReturnsOne(s: System, step: Step)
    requires Enabled(s, step) && Admissible(s, step) && step.Cancel?
    requires GivenBack(s, step).Some? ==> GivenBack(s, step).value in s.stores.db.orders
    ensures ReturnsOne(s, step, Cancelled)
  {
  }

  lemma RefundReturnsOne(s: System, step: Step)
    requires Enabled(s, step) && Admissible(s, step) && step.Refund?
    requires GivenBack(s, step).Some? ==> GivenBack(s, step).value in s.stores.db.orders
    ensures ReturnsOne(s, step, Refunded)
  {
  }

  lemma ExpireReturnsOne(s: System, step: Step)
    requires Enabled(s, step) && Admissible(s, step) && step.Expire?
    requires GivenBack(s, step).Some? ==> GivenBack(s, step).value in s.stores.db.orders
    requires GivenBack(s, step).Some? ==> Agrees(step.m, s.stores.db.orders[GivenBack(s, step).value])
    ensures ReturnsOne(s, step, Timeout)
  {
  }

  lemma CancelBooks(s: System, step: Step, p: ProductId, b: Buyer)
    requires Enabled(s, step) && Admissible(s, step) && step.Cancel? && p in s.catalog
    requires StockSound(s, p) && CountSound(s, b)
    requires GivenBack(s, step).Some? ==> Returnable(s, GivenBack(s, step).value)
    ensures StockBooked(s, step, p) && CountBooked(s, step, b)
  {
    CancelReturnsOne(s, step);
    if GivenBack(s, step).Some? {
      ReturnBooks(s, Apply(s, step), GivenBack(s, step).value, Cancelled, step.calls, p, b);
    }
  }

  lemma RefundBooks(s: System, step: Step, p: ProductId, b: Buyer)
    requires Enabled(s, step) && Admissible(s, step) && step.Refund? && p in s.catalog
    requires StockSound(s, p) && CountSound(s, b)
    requires GivenBack(s, step).Some? ==> Returnable(s, GivenBack(s, step).value)
    ensures StockBooked(s, step, p) && CountBooked(s, step, b)
  {
    RefundReturnsOne(s, step);
    if GivenBack(s, step).Some? {
      ReturnBooks(s, Apply(s, step), GivenBack(s, step).value, Refunded, step.calls, p, b);
    }
  }

  lemma ExpireBooks(s: System, step: Step, p: ProductId, b: Buyer)
    requires Enabled(s, step) && Admissible(s, step) && step.Expire? && p in s.catalog
    requires StockSound(s, p) && CountSound(s, b)
    requires GivenBack(s, step).Some? ==> Returnable(s, GivenBack(s, step).value)
    requires GivenBack(s, step).Some? ==> Agrees(step.m, s.stores.db.orders[GivenBack(s, step).value])
    ensures StockBooked(s, step, p) && CountBooked(s, step, b)
  {
    ExpireReturnsOne(s, step);
    if GivenBack(s, step).Some? {
      ReturnBooks(s, Apply(s, step), GivenBack(s, step).value, Timeout, step.calls, p, b);
    }
  }

  lemma OverwriteBooks(s: System, step: Step, p: ProductId, b: Buyer)
    requires Enabled(s, step) && Admissible(s, step) && (step.ReadStocks? || step.Overwrite?) && p in s.catalog
    requires StockSound(s, p) && CountSound(s, b)
    ensures StockBooked(s, step, p) && CountBooked(s, step, b)
  {
  }

  /** What a sound state guarantees about the order a handler gives back. */
  lemma ReturnsAreCovered(s: System, step: Step)
    requires Sound(s) && Enabled(s, step) && IsReturn(step) && GivenBack(s, step).Some?
    ensures Returnable(s, GivenBack(s, step).value)
    ensures step.Expire? ==> Agrees(step.m, s.stores.db.orders[GivenBack(s, step).value])
  {
    var row := GivenBack(s, step).value;
    CounterCoversOrder(s, row);
    assert GoodOrder(s, row, s.stores.db.orders[row]);
    if step.Expire? {
      TimeoutAgrees(s, step.m);
    }
  }

  /** Every admissible step keeps the MySQL equality exact and moves both gaps by exactly what it leaks. */
  lemma StepBooks(s: System, step: Step, p: ProductId, b: Buyer)
    requires Sound(s) && Enabled(s, step) && Admissible(s, step) && p in Apply(s, step).catalog
    ensures StockBooked(s, step, p) && CountBooked(s, step, b)
  {
    assert CountSound(s, b) && (p in s.catalog ==> StockSound(s, p));
    if IsReturn(step) {
      ReturnStepBooks(s, step, p, b);
    } else if MovesFlight(step) {
      FlightStepBooks(s, step, p, b);
    } else {
      OtherStepBooks(s, step, p, b);
    }
  }

  predicate MovesFlight(step: Step) {
    step.GiveUp? || step.Publish? || step.CreateDirect? || step.Consume?
  }

  lemma OtherStepBooks(s: System, step: Step, p: ProductId, b: Buyer)
    requires Sound(s) && Enabled(s, step) && Admissible(s, step) && p in Apply(s, step).catalog
    requires !IsReturn(step) && !MovesFlight(step)
    ensures StockBooked(s, step, p) && CountBooked(s, step, b)
  {
    assert CountSound(s, b) && (p in s.catalog ==> StockSound(s, p));
    match step
    case NewProduct(_, _, _, _) =>
      NothingOf(s, step.p);
      NewProductBooks(s, step, p, b);
    case Reserve(_, _, _, _) => ReserveBooks(s, step, p, b);
    case Pay(_, _, _) => PayBooks(s, step, p, b);
    case ReadStocks(_) => OverwriteBooks(s, step, p, b);
    case Overwrite(_, _) => OverwriteBooks(s, step, p, b);
  }

  lemma FlightStepBooks(s: System, step: Step, p: ProductId, b: Buyer)
    requires Sound(s) && Enabled(s, step) && p in Apply(s, step).catalog && MovesFlight(step)
    ensures StockBooked(s, step, p) && CountBooked(s, step, b)
  {
    assert CountSound(s, b) && StockSound(s, p);
    match step
    case GiveUp(_, _) =>
      CounterCoversFlight(s, Ticket(step.t));
      GiveUpBooks(s, step, p, b);
    case Publish(_, _, _) => PublishBooks(s, step, p, b);
    case CreateDirect(_, _, _) =>
      CanCreate(s, step);
      CreateDirectBooks(s, step, p, b);
    case Consume(_, _, _) =>
      CanConsume(s, step);
      ConsumeBooks(s, step, p, b);
  }

  lemma CanCreate(s: System, step: Step)
    requires Sound(s) && Enabled(s, step) && step.CreateDirect?
    ensures Coverable(s, Ticket(step.t))
    ensures RowAt(s.stores.db.shards, s.flight[Ticket(step.t)].user, step.no) !in s.stores.db.orders
  {
    GuardNeverRefuses(s, Ticket(step.t));
    UnusedNumber(s, s.flight[Ticket(step.t)].user, step.no);
  }

  lemma CanConsume(s: System, step: Step)
    requires Sound(s) && Enabled(s, step) && step.Consume?
    ensures var row := RowOf(s.stores.db, step.m);
      if row in s.stores.db.orders then Sent(row) !in s.flight
      else Coverable(s, Sent(row)) && s.flight[Sent(row)] == OrderFor(step.m)
  {
    QueuedPurchase(s, step.m);
    if RowOf(s.stores.db, step.m) !in s.stores.db.orders {
      GuardNeverRefuses(s, Sent(RowOf(s.stores.db, step.m)));
    }
  }

  lemma ReturnStepBooks(s: System, step: Step, p: ProductId, b: Buyer)
    requires Sound(s) && Enabled(s, step) && Admissible(s, step) && p in Apply(s, step).catalog
    requires IsReturn(step)
    ensures StockBooked(s, step, p) && CountBooked(s, step, b)
  {
    assert CountSound(s, b) && StockSound(s, p);
    if GivenBack(s, step).Some? {
      ReturnsAreCovered(s, step);
    }
    match step
    case Cancel(_, _, _) => CancelBooks(s, step, p, b);
    case Refund(_, _, _) => RefundBooks(s, step, p, b);
    case Expire(_, _, _) => ExpireBooks(s, step, p, b);
  }
}
