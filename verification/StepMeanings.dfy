/** What every handler answers and writes, stated on the tables, stocks and counters themselves. */
module StepMeanings {
  import opened Prelude
  import opened RedisScripts
  import opened OrderStore
  import opened OrderHandlers
  import opened SeckillProtocol
  import opened ProtocolRuns
  import opened OrderLifecycle
  import opened SeckillService

  // ---------------------------------------------------------------------------------------------
  // Changes
  // ---------------------------------------------------------------------------------------------

  /** One row has this status now; every other row, and the rest of this one, is as before. */
  ghost predicate OnlyStatus(before: Db, after: Db, row: Row, status: Status) {
    && row in before.orders && after.shards == before.shards && after.orders.Keys == before.orders.Keys
    && after.orders[row].status == status
    && after.orders[row].user == before.orders[row].user
    && after.orders[row].product == before.orders[row].product
    && after.orders[row].quantity == before.orders[row].quantity
    && forall other :: other in before.orders && other != row ==> after.orders[other] == before.orders[other]
  }

  /** The known product has so much more, every other product what it had. */
  ghost predicate MoreOf(before: map<ProductId, int>, after: map<ProductId, int>, p: ProductId, quantity: int) {
    && after.Keys == before.Keys
    && (p in before ==> after[p] == before[p] + quantity)
    && forall other :: other in before && other != p ==> after[other] == before[other]
  }

  function Left(count: int, quantity: int): int {
    if count > quantity then count - quantity else 0
  }

  /** Redis offers the quantity again if that call succeeds, and the buyer's counter is down by it if that one does. */
  ghost predicate GivenBackInRedis(before: Redis, after: Redis, b: Buyer, quantity: int, c: Calls) {
    && after.idem == before.idem
    && (forall p :: StockOf(after, p) == StockOf(before, p) + if c.stock && p == b.product then quantity else 0)
    && (forall other :: other != b ==> CountOf(after, other) == CountOf(before, other))
    && CountOf(after, b) == if c.count then Left(CountOf(before, b), quantity) else CountOf(before, b)
  }

  lemma CompensationMeans(r: Redis, b: Buyer, quantity: int, c: Calls)
    requires quantity > 0 && forall buyer :: buyer in r.count ==> r.count[buyer] > 0
    ensures GivenBackInRedis(r, Compensated(r, b, quantity, c), b, quantity, c)
  {
  }

  // ---------------------------------------------------------------------------------------------
  // Payment
  // ---------------------------------------------------------------------------------------------

  /** The order a caller gets at under this number. */
  function RowFor(st: Stores, no: OrderNo, caller: UserId): Row {
    Row(caller % st.db.shards, no)
  }

  ghost predicate Found(st: Stores, no: OrderNo, caller: UserId, status: Status) {
    RowFor(st, no, caller) in st.db.orders && st.db.orders[RowFor(st, no, caller)].status == status
  }

  /** Each answer has its own condition, in the order in which they are checked. */
  ghost predicate AnsweredBy(out: Outcome, known: bool, right: bool, written: bool) {
    && (out == NotFound <==> !known)
    && (out == WrongStatus <==> known && !right)
    && (out == StoreError <==> known && right && !written)
    && (out == Done <==> known && right && written)
  }

  /** A payment marks a Pending order of the caller's table as Paid, and nothing else changes; any other answer
      changes nothing at all. */
  lemma PayMeans(st: Stores, no: OrderNo, caller: UserId, write: bool)
    ensures var (after, out) := PayEffect(st, no, caller, write);
      var row := RowFor(st, no, caller);
      && AnsweredBy(out, row in st.db.orders, Found(st, no, caller, Pending), write)
      && (out != Done ==> after == st)
      && (out == Done ==> after.redis == st.redis && after.db.remain == st.db.remain && OnlyStatus(st.db, after.db, row, Paid))
  {
  }

  /** A paid order ends Paid or Refunded in every run, never Cancelled or Timeout. */
  lemma {:induction false} PaidStays(s: System, steps: seq<Step>, row: Row)
    requires Runs(s, steps) && row in s.stores.db.orders && s.stores.db.orders[row].status == Paid
    ensures row in Final(s, steps).stores.db.orders
    ensures Final(s, steps).stores.db.orders[row].status in {Paid, OrderStore.Refunded}
  {
    StatusHistory(s, steps, row);
  }

  lemma {:induction false} PaymentLasts(s: System, no: OrderNo, caller: UserId, rest: seq<Step>)
    requires Found(s.stores, no, caller, Pending)
    requires Runs(Apply(s, Pay(no, caller, true)), rest)
    ensures var row := RowFor(s.stores, no, caller);
      var f := Final(Apply(s, Pay(no, caller, true)), rest);
      row in f.stores.db.orders && f.stores.db.orders[row].status in {Paid, OrderStore.Refunded}
  {
    PayMeans(s.stores, no, caller, true);
    PaidStays(Apply(s, Pay(no, caller, true)), rest, RowFor(s.stores, no, caller));
  }

  // ---------------------------------------------------------------------------------------------
  // Returns
  // ---------------------------------------------------------------------------------------------

  ghost predicate Positive(st: Stores) {
    && (forall row :: row in st.db.orders ==> st.db.orders[row].quantity > 0)
    && (forall b :: b in st.redis.count ==> st.redis.count[b] > 0)
  }

  /** An order is closed with this status, MySQL's stock grows if its call succeeds, and so do Redis and the counter. */
  ghost predicate Closes(st: Stores, after: Stores, row: Row, status: Status, b: Buyer, quantity: int, c: Calls) {
    && OnlyStatus(st.db, after.db, row, status)
    && MoreOf(st.db.remain, after.db.remain, b.product, if c.restock then quantity else 0)
    && GivenBackInRedis(st.redis, after.redis, b, quantity, c)
  }

  /** A cancellation closes a Pending order of the caller's table; any other answer changes nothing. */
  lemma CancelMeans(st: Stores, no: OrderNo, caller: UserId, c: Calls)
    requires Positive(st)
    ensures var (after, out) := CancelEffect(st, no, caller, c);
      var row := RowFor(st, no, caller);
      && AnsweredBy(out, row in st.db.orders, Found(st, no, caller, Pending), c.write)
      && (out != Done ==> after == st)
      && (out == Done ==>
            var o := st.db.orders[row]; Closes(st, after, row, Cancelled, Buyer(caller, o.product), o.quantity, c))
  {
    var row := RowFor(st, no, caller);
    if row in st.db.orders {
      var o := st.db.orders[row];
      CompensationMeans(st.redis, Buyer(caller, o.product), o.quantity, c);
    }
  }

  /** A refund closes a Paid order of the caller's table; any other answer changes nothing. */
  lemma RefundMeans(st: Stores, no: OrderNo, caller: UserId, c: Calls)
    requires Positive(st)
    ensures var (after, out) := RefundEffect(st, no, caller, c);
      var row := RowFor(st, no, caller);
      && AnsweredBy(out, row in st.db.orders, Found(st, no, caller, Paid), c.write)
      && (out != Done ==> after == st)
      && (out == Done ==>
            var o := st.db.orders[row];
            Closes(st, after, row, OrderStore.Refunded, Buyer(caller, o.product), o.quantity, c))
  {
    var row := RowFor(st, no, caller);
    if row in st.db.orders {
      var o := st.db.orders[row];
      CompensationMeans(st.redis, Buyer(caller, o.product), o.quantity, c);
    }
  }

  const NO_REDIS := Calls(true, false, false, false)

  /** A timeout message is done with as soon as its order is no longer Pending, or is closed and restocked. A failed
      restock leaves Redis alone, though the status is written. */
  lemma TimeoutMeans(st: Stores, m: OrderMsg, c: Calls)
    requires Positive(st) && m.quantity > 0
    ensures var (after, out) := TimeoutEffect(st, m, c);
      var row := RowFor(st, m.no, m.user);
      var pending := Found(st, m.no, m.user, Pending);
      && (out == NotFound <==> row !in st.db.orders)
      && (out == Done <==> row in st.db.orders && (!pending || (c.write && c.restock)))
      && (out == StoreError <==> pending && !(c.write && c.restock))
      && out != WrongStatus
      && (!pending || !c.write ==> after == st)
      && (pending && c.write ==>
            Closes(st, after, row, Timeout, Buyer(m.user, m.product), m.quantity, if c.restock then c else NO_REDIS))
  {
    CompensationMeans(st.redis, Buyer(m.user, m.product), m.quantity, c);
  }

  // ---------------------------------------------------------------------------------------------
  // Creation
  // ---------------------------------------------------------------------------------------------

  predicate Enough(db: Db, m: OrderMsg) {
    m.product in db.remain && db.remain[m.product] >= m.quantity
  }

  /** Creation succeeds if the order is there already, or if MySQL holds its quantity, which is then taken. A new row
      is Pending and stays even when the quantity is refused. */
  lemma CreatedMeans(db: Db, m: OrderMsg)
    ensures var (after, ok) := Created(db, m);
      var row := Row(m.user % db.shards, m.no);
      && (ok <==> row in db.orders || Enough(db, m))
      && (row in db.orders ==> after == db)
      && (row !in db.orders ==>
            && after.shards == db.shards
            && after.orders.Keys == db.orders.Keys + {row}
            && after.orders[row] == Order(m.user, m.product, m.quantity, Pending)
            && (forall other :: other in db.orders ==> after.orders[other] == db.orders[other])
            && MoreOf(db.remain, after.remain, m.product, if Enough(db, m) then -m.quantity else 0))
  {
  }

  // ---------------------------------------------------------------------------------------------
  // Publication and new products
  // ---------------------------------------------------------------------------------------------

  /** A purchase that is published puts one message into the order queue and, if that publication succeeds, the same
      one into the delay queue; the message names the purchase. */
  lemma PublishMeans(s: System, t: nat, no: OrderNo, delaySent: bool)
    requires Enabled(s, Publish(t, no, delaySent))
    ensures var s' := Apply(s, Publish(t, no, delaySent));
      var o := s.flight[Ticket(t)];
      var m := OrderMsg(no, o.user, o.product, o.quantity);
      && s'.queue[m] == s.queue[m] + 1 && s'.delayed[m] == s.delayed[m] + (if delaySent then 1 else 0)
      && (forall other :: other != m ==> s'.queue[other] == s.queue[other] && s'.delayed[other] == s.delayed[other])
      && s'.stores == s.stores && no in s'.issued
      && Ticket(t) !in s'.flight && Sent(Row(o.user % s.stores.db.shards, no)) in s'.flight
      && s'.flight[Sent(Row(o.user % s.stores.db.shards, no))] == o
  {
  }

  /** The stock was taken under this ticket, and the order number is new. */
  ghost predicate Reserved(s: System, t: nat, env: Env) {
    && Ticket(t) in s.flight && s.flight[Ticket(t)].status == Pending && s.flight[Ticket(t)].quantity > 0
    && (env.no.Some? ==> env.no.value !in s.issued && Row(s.flight[Ticket(t)].user % s.stores.db.shards, env.no.value) !in s.stores.db.orders)
    && forall b :: b in s.stores.redis.count ==> s.stores.redis.count[b] > 0
  }

  /** The order is to be published or inserted. */
  predicate Ready(env: Env) {
    !env.replyLost && env.no.Some? && env.marshalled
  }

  /** A reservation is settled in one of three ways. Published: one message in each queue that takes it. Inserted: the
      row stays, and the reservation is given back if MySQL refuses the quantity. Otherwise: given back, as far as the
      calls succeed, and not at all if the buyer's call never learned of it. */
  lemma SettlementMeans(s: System, t: nat, env: Env)
    requires Reserved(s, t, env)
    ensures Enabled(s, Settlement(t, env))
    ensures Ticket(t) !in Apply(s, Settlement(t, env)).flight
    ensures Ready(env) && env.published ==> Apply(s, Settlement(t, env)) == Apply(s, Publish(t, env.no.value, env.delaySent))
    ensures Ready(env) && !env.published && env.insertOk ==> Inserted(s, Apply(s, Settlement(t, env)), t, env)
    ensures !Ready(env) || (!env.published && !env.insertOk) ==> GivenUp(s, Apply(s, Settlement(t, env)), t, env)
  {
    var o := s.flight[Ticket(t)];
    CompensationMeans(s.stores.redis, Buyer(o.user, o.product), o.quantity, env.calls);
    if Ready(env) && !env.published && env.insertOk {
      CreatedMeans(s.stores.db, OrderMsg(env.no.value, o.user, o.product, o.quantity));
    }
  }

  ghost predicate Inserted(s: System, s': System, t: nat, env: Env)
    requires Ticket(t) in s.flight && env.no.Some?
  {
    var o := s.flight[Ticket(t)];
    var row := Row(o.user % s.stores.db.shards, env.no.value);
    var accepted := o.product in s.stores.db.remain && s.stores.db.remain[o.product] >= o.quantity;
    && row in s'.stores.db.orders && s'.stores.db.orders[row] == Order(o.user, o.product, o.quantity, Pending)
    && MoreOf(s.stores.db.remain, s'.stores.db.remain, o.product, if accepted then -o.quantity else 0)
    && s'.queue == s.queue && s'.delayed == s.delayed
    && (accepted ==> s'.stores.redis == s.stores.redis)
    && (!accepted ==> GivenBackInRedis(s.stores.redis, s'.stores.redis, Buyer(o.user, o.product), o.quantity, env.calls))
  }

  ghost predicate GivenUp(s: System, s': System, t: nat, env: Env)
    requires Ticket(t) in s.flight
  {
    var o := s.flight[Ticket(t)];
    && s'.stores.db == s.stores.db && s'.queue == s.queue && s'.delayed == s.delayed
    && (env.replyLost ==> s'.stores.redis == s.stores.redis)
    && (!env.replyLost ==> GivenBackInRedis(s.stores.redis, s'.stores.redis, Buyer(o.user, o.product), o.quantity, env.calls))
  }

  /** A delivery leaves the queue once if the broker forgets it, and stays otherwise; the same holds of dead letters. No
      other step but a publication touches a queue. */
  lemma DeliveriesLeave(s: System, step: Step, m: OrderMsg)
    requires Enabled(s, step) && !step.Publish?
    ensures var s' := Apply(s, step);
      && s'.queue[m] == s.queue[m] - (if step.Consume? && step.removed && step.m == m then 1 else 0)
      && s'.delayed[m] == s.delayed[m] - (if step.Expire? && step.removed && step.m == m then 1 else 0)
  {
  }

  /** A new product starts with its whole stock in MySQL, and in Redis if that write succeeds. */
  lemma NewProductMeans(s: System, p: ProductId, total: int, limit: int, preloaded: bool)
    requires Enabled(s, NewProduct(p, total, limit, preloaded))
    ensures var s' := Apply(s, NewProduct(p, total, limit, preloaded));
      && p in s'.catalog && s'.catalog[p].total == total && s'.catalog[p].limit == limit
      && RemainOf(s', p) == total
      && StockOf(s'.stores.redis, p) == (if preloaded then total else StockOf(s.stores.redis, p))
      && (forall other :: other != p ==>
            RemainOf(s', other) == RemainOf(s, other) && StockOf(s'.stores.redis, other) == StockOf(s.stores.redis, other))
      && s'.stores.db.orders == s.stores.db.orders && s'.flight == s.flight
  {
  }
}
