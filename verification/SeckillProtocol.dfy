/**
 The inventory protocol as a step machine over both stores, the queues and the purchases in flight.

 `flight` records the purchases whose stock Redis has taken and whose order MySQL does not hold yet:
 under a ticket until the order number is drawn and published, under their row afterwards.
 */
module SeckillProtocol {
  import opened RedisScripts
  import opened OrderStore
  import opened OrderHandlers
  import opened MapSums

  datatype Slot = Ticket(t: nat) | Sent(row: Row)

  datatype Product = Product(total: int, limit: int)

  datatype System = System(
    stores: Stores,
    queue: multiset<OrderMsg>,
    delayed: multiset<OrderMsg>,
    flight: map<Slot, Order>,
    issued: set<OrderNo>,
    catalog: map<ProductId, Product>,
    passes: map<nat, map<ProductId, int>>)

  datatype Step =
    | NewProduct(p: ProductId, total: int, limit: int, preloaded: bool)
    | Reserve(t: nat, q: Purchase, key: string, now: int)
    | GiveUp(t: nat, calls: Calls)
    | Publish(t: nat, no: OrderNo, delaySent: bool)
    | CreateDirect(t: nat, no: OrderNo, calls: Calls)
    | Consume(m: OrderMsg, insertOk: bool, removed: bool)
    | Cancel(no: OrderNo, caller: UserId, calls: Calls)
    | Expire(m: OrderMsg, calls: Calls, removed: bool)
    | Pay(no: OrderNo, caller: UserId, write: bool)
    | Refund(no: OrderNo, caller: UserId, calls: Calls)
    | ReadStocks(pass: nat)
    | Overwrite(pass: nat, p: ProductId)

  function MsgFor(no: OrderNo, o: Order): OrderMsg {
    OrderMsg(no, o.user, o.product, o.quantity)
  }

  function OrderFor(m: OrderMsg): Order {
    Order(m.user, m.product, m.quantity, Pending)
  }

  /** What the environment guarantees of a step: tickets and order numbers are fresh, the script gets the
      product's limit, a delivery comes from its queue. */
  ghost predicate Enabled(s: System, step: Step) {
    match step
    case NewProduct(p, total, limit, _) => p !in s.catalog && total > 0 && limit > 0
    case Reserve(t, q, _, _) =>
      Ticket(t) !in s.flight && q.product in s.catalog && q.quantity > 0 && q.limit == s.catalog[q.product].limit
    case GiveUp(t, _) => Ticket(t) in s.flight
    case Publish(t, no, _) => Ticket(t) in s.flight && no !in s.issued
    case CreateDirect(t, no, _) => Ticket(t) in s.flight && no !in s.issued
    case Consume(m, _, _) => m in s.queue
    case Expire(m, _, _) => m in s.delayed
    case ReadStocks(_) => true
    case Overwrite(pass, p) => pass in s.passes && p in s.passes[pass] && p in s.catalog
    case Cancel(_, _, _) => true
    case Pay(_, _, _) => true
    case Refund(_, _, _) => true
  }

  function ReserveEffect(s: System, t: nat, q: Purchase, key: string, now: int): System {
    var (redis, reply) := BuyOnce(s.stores.redis, q, key, now);
    s.(stores := s.stores.(redis := redis),
       flight := if reply.Reply? && reply.code == OK
                 then s.flight[Ticket(t) := Order(q.user, q.product, q.quantity, Pending)] else s.flight)
  }

  function GiveUpEffect(s: System, t: nat, c: Calls): System
    requires Ticket(t) in s.flight
  {
    var o := s.flight[Ticket(t)];
    s.(stores := s.stores.(redis := Compensated(s.stores.redis, Buyer(o.user, o.product), o.quantity, c)),
       flight := s.flight - {Ticket(t)})
  }

  function PublishEffect(s: System, t: nat, no: OrderNo, delaySent: bool): System
    requires Ticket(t) in s.flight
  {
    var o := s.flight[Ticket(t)];
    var m := MsgFor(no, o);
    s.(queue := s.queue + multiset{m},
       delayed := if delaySent then s.delayed + multiset{m} else s.delayed,
       flight := (s.flight - {Ticket(t)})[Sent(RowOf(s.stores.db, m)) := o],
       issued := s.issued + {no})
  }

  /** The queue is down: the order is written by the purchase itself, without a timeout message. */
  function CreateDirectEffect(s: System, t: nat, no: OrderNo, c: Calls): System
    requires Ticket(t) in s.flight
  {
    var o := s.flight[Ticket(t)];
    var (db, ok) := Created(s.stores.db, MsgFor(no, o));
    var redis := if ok then s.stores.redis else Compensated(s.stores.redis, Buyer(o.user, o.product), o.quantity, c);
    s.(stores := Stores(redis, db), flight := s.flight - {Ticket(t)}, issued := s.issued + {no})
  }

  /** One delivery; `removed` says whether the broker forgets it (acknowledged or dropped) or delivers it again. */
  function ConsumeEffect(s: System, m: OrderMsg, insertOk: bool, removed: bool): System {
    var row := RowOf(s.stores.db, m);
    var db := if row !in s.stores.db.orders && !insertOk then s.stores.db else Created(s.stores.db, m).0;
    var queue := if removed then s.queue - multiset{m} else s.queue;
    s.(stores := s.stores.(db := db), queue := queue,
       flight := if row in db.orders || m !in queue then s.flight - {Sent(row)} else s.flight)
  }

  /** A reconciliation pass lists the MySQL stocks once; whatever happens until it gets to a product, it
      overwrites with what it has listed. */
  function OverwriteEffect(s: System, pass: nat, p: ProductId): System
    requires pass in s.passes && p in s.passes[pass]
  {
    s.(stores := s.stores.(redis := SetStock(s.stores.redis, p, s.passes[pass][p])))
  }

  function NewProductEffect(s: System, p: ProductId, total: int, limit: int, preloaded: bool): System {
    s.(catalog := s.catalog[p := Product(total, limit)],
       stores := Stores(if preloaded then SetStock(s.stores.redis, p, total) else s.stores.redis,
                        s.stores.db.(remain := s.stores.db.remain[p := total])))
  }

  function Apply(s: System, step: Step): System
    requires Enabled(s, step)
  {
    match step
    case NewProduct(p, total, limit, preloaded) => NewProductEffect(s, p, total, limit, preloaded)
    case Reserve(t, q, key, now) => ReserveEffect(s, t, q, key, now)
    case GiveUp(t, c) => GiveUpEffect(s, t, c)
    case Publish(t, no, delaySent) => PublishEffect(s, t, no, delaySent)
    case CreateDirect(t, no, c) => CreateDirectEffect(s, t, no, c)
    case Consume(m, insertOk, removed) => ConsumeEffect(s, m, insertOk, removed)
    case Cancel(no, caller, c) => s.(stores := CancelEffect(s.stores, no, caller, c).0)
    case Expire(m, c, removed) =>
      s.(stores := TimeoutEffect(s.stores, m, c).0, delayed := if removed then s.delayed - multiset{m} else s.delayed)
    case Pay(no, caller, write) => s.(stores := PayEffect(s.stores, no, caller, write).0)
    case Refund(no, caller, c) => s.(stores := RefundEffect(s.stores, no, caller, c).0)
    case ReadStocks(pass) => s.(passes := s.passes[pass := s.stores.db.remain])
    case Overwrite(pass, p) => OverwriteEffect(s, pass, p)
  }

  // ---------------------------------------------------------------------------------------------
  // Quantities
  // ---------------------------------------------------------------------------------------------

  datatype Filter = OfProduct(p: ProductId) | OfBuyer(b: Buyer)

  predicate Held(status: Status) {
    status == Pending || status == Paid
  }

  predicate Picks(f: Filter, o: Order) {
    match f
    case OfProduct(p) => o.product == p
    case OfBuyer(b) => o.user == b.user && o.product == b.product
  }

  function Share(f: Filter, o: Order): int {
    if Held(o.status) && Picks(f, o) then o.quantity else 0
  }

  ghost function ShareOf(f: Filter): Order -> int {
    (o: Order) => Share(f, o)
  }

  /** Quantity reserved and not yet persisted. */
  ghost function InFlight(s: System, f: Filter): int {
    Sum(s.flight, ShareOf(f))
  }

  /** Quantity of Pending and Paid orders. */
  ghost function Ordered(s: System, f: Filter): int {
    Sum(s.stores.db.orders, ShareOf(f))
  }

  function RemainOf(s: System, p: ProductId): int {
    if p in s.stores.db.remain then s.stores.db.remain[p] else 0
  }

  /** Stock that Redis no longer offers although no order or purchase in flight accounts for it. */
  ghost function Gap(s: System, p: ProductId): int {
    RemainOf(s, p) - StockOf(s.stores.redis, p) - InFlight(s, OfProduct(p))
  }

  /** Purchase count of a buyer not backed by an order or purchase in flight. */
  ghost function CountGap(s: System, b: Buyer): int {
    CountOf(s.stores.redis, b) - InFlight(s, OfBuyer(b)) - Ordered(s, OfBuyer(b))
  }

  // ---------------------------------------------------------------------------------------------
  // Structure
  // ---------------------------------------------------------------------------------------------

  predicate Agrees(m: OrderMsg, o: Order) {
    m.user == o.user && m.product == o.product && m.quantity == o.quantity
  }

  ghost predicate GoodOrder(s: System, row: Row, o: Order) {
    && o.product in s.catalog && o.quantity > 0
    && row == RowAt(s.stores.db.shards, o.user, row.no)
    && row.no in s.issued
  }

  ghost predicate GoodRedis(s: System) {
    && s.stores.redis.stock.Keys <= s.catalog.Keys
    && (forall b :: b in s.stores.redis.count ==> s.stores.redis.count[b] > 0 && b.product in s.catalog)
  }

  ghost predicate GoodRows(s: System) {
    && s.stores.db.remain.Keys == s.catalog.Keys
    && (forall p :: p in s.catalog ==> s.catalog[p].total > 0 && s.catalog[p].limit > 0)
    && (forall row :: row in s.stores.db.orders ==> GoodOrder(s, row, s.stores.db.orders[row]))
  }

  /** What is in flight is exactly what is ticketed or queued and not in the order tables. */
  ghost predicate GoodFlight(s: System) {
    && (forall slot :: slot in s.flight ==>
          s.flight[slot].status == Pending && s.flight[slot].quantity > 0 && s.flight[slot].product in s.catalog)
    && (forall row :: Sent(row) in s.flight ==>
          && row !in s.stores.db.orders
          && GoodOrder(s, row, s.flight[Sent(row)]))
    && (forall row {:trigger MsgFor(row.no, s.flight[Sent(row)])} :: Sent(row) in s.flight ==>
          MsgFor(row.no, s.flight[Sent(row)]) in s.queue)
  }

  ghost predicate GoodMessage(s: System, m: OrderMsg) {
    && m.no in s.issued
    && (RowOf(s.stores.db, m) in s.stores.db.orders ==> Agrees(m, s.stores.db.orders[RowOf(s.stores.db, m)]))
    && (Sent(RowOf(s.stores.db, m)) in s.flight ==> Agrees(m, s.flight[Sent(RowOf(s.stores.db, m))]))
  }

  ghost predicate GoodQueues(s: System) {
    && (forall m :: m in s.queue ==>
          GoodMessage(s, m) && (RowOf(s.stores.db, m) in s.stores.db.orders || Sent(RowOf(s.stores.db, m)) in s.flight))
    && (forall m :: m in s.delayed ==> GoodMessage(s, m))
  }

  ghost predicate Shape(s: System) {
    GoodRedis(s) && GoodRows(s) && GoodFlight(s) && GoodQueues(s)
  }

  // ---------------------------------------------------------------------------------------------
  // The laws
  // ---------------------------------------------------------------------------------------------

  ghost predicate MySqlLaw(s: System, p: ProductId)
    requires p in s.catalog
  {
    RemainOf(s, p) + Ordered(s, OfProduct(p)) == s.catalog[p].total
  }

  ghost predicate StockSound(s: System, p: ProductId)
    requires p in s.catalog
  {
    MySqlLaw(s, p) && 0 <= StockOf(s.stores.redis, p) && 0 <= Gap(s, p)
  }

  ghost predicate CountSound(s: System, b: Buyer) {
    && 0 <= CountGap(s, b)
    && (b.product in s.catalog ==> CountOf(s.stores.redis, b) <= s.catalog[b.product].limit)
  }

  /** Holds also when compensations fail and messages are dropped: stock may leak but is never oversold. */
  ghost predicate Sound(s: System) {
    && Shape(s)
    && (forall p :: p in s.catalog ==> StockSound(s, p))
    && (forall b :: CountSound(s, b))
  }

  /** The conservation laws with nothing leaked. */
  ghost predicate Exact(s: System) {
    && Sound(s)
    && (forall p :: p in s.catalog ==> Gap(s, p) == 0)
    && (forall b :: CountGap(s, b) == 0)
  }

  /** The order, if it can be found at all, is the caller's own. */
  ghost predicate Own(s: System, no: OrderNo, caller: UserId) {
    Lookup(s.stores.db, no, caller).Some? ==> Lookup(s.stores.db, no, caller).value.user == caller
  }

  /** What Redis may offer of a product without overselling it. */
  ghost function Free(s: System, p: ProductId): int {
    RemainOf(s, p) - InFlight(s, OfProduct(p))
  }

  /** Steps that keep the stores sound: MySQL returns succeed, callers act on their own orders, and the
      reconciler's listed stock is not above what is still free. */
  ghost predicate Admissible(s: System, step: Step)
    requires Enabled(s, step)
  {
    match step
    case Cancel(no, caller, c) => c.restock && Own(s, no, caller)
    case Refund(no, caller, c) => c.restock && Own(s, no, caller)
    case Expire(_, c, _) => c.restock
    case Overwrite(pass, p) => 0 <= s.passes[pass][p] <= Free(s, p)
    case _ => true
  }

  /** Admissible steps in which every Redis compensation succeeds and no unsaved message is dropped. */
  ghost predicate Clean(s: System, step: Step)
    requires Enabled(s, step)
  {
    && Admissible(s, step)
    && match step
       case NewProduct(_, _, _, preloaded) => preloaded
       case Reserve(_, q, _, _) => q.expireSec > 0
       case GiveUp(_, c) => c.stock && c.count
       case Consume(_, insertOk, removed) => insertOk || !removed
       case Cancel(_, _, c) => c.stock && c.count
       case Refund(_, _, c) => c.stock && c.count
       case Expire(_, c, _) => c.stock && c.count
       case Overwrite(pass, p) => s.passes[pass][p] == Free(s, p)
       case _ => true
  }
}
