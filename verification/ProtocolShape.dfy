/** The structure of a system state is kept by every step, clean or not. */
module ProtocolShape {
  import opened RedisScripts
  import opened OrderStore
  import opened OrderHandlers
  import opened SeckillProtocol

  lemma NewProductShape(s: System, p: ProductId, total: int, limit: int, preloaded: bool)
    requires Shape(s) && Enabled(s, NewProduct(p, total, limit, preloaded))
    ensures Shape(NewProductEffect(s, p, total, limit, preloaded))
  {
    var s' := NewProductEffect(s, p, total, limit, preloaded);
    assert GoodRows(s') by {
      forall row | row in s'.stores.db.orders ensures GoodOrder(s', row, s'.stores.db.orders[row]) {
        assert GoodOrder(s, row, s.stores.db.orders[row]);
      }
    }
    assert GoodFlight(s') by {
      forall row | Sent(row) in s'.flight ensures GoodOrder(s', row, s'.flight[Sent(row)]) {
        assert GoodOrder(s, row, s.flight[Sent(row)]);
      }
    }
    assert GoodQueues(s') by { QueuesKept(s, s'); }
  }

  /** Messages only look at the order tables, the flight table and the issued numbers. */
  lemma QueuesKept(s: System, s': System)
    requires GoodQueues(s)
    requires s'.stores.db.shards == s.stores.db.shards && s.issued <= s'.issued
    requires s'.queue <= s.queue && s'.delayed <= s.delayed
    requires forall row :: row in s'.stores.db.orders <==> row in s.stores.db.orders
    requires forall row :: row in s.stores.db.orders ==>
      s'.stores.db.orders[row].(status := Pending) == s.stores.db.orders[row].(status := Pending)
    requires forall row :: Sent(row) in s'.flight <==> Sent(row) in s.flight
    requires forall row :: Sent(row) in s.flight ==> s'.flight[Sent(row)] == s.flight[Sent(row)]
    ensures GoodQueues(s')
  {
    forall m | m in s'.queue ensures GoodMessage(s', m) {
      assert m in s.queue;
      assert GoodMessage(s, m);
    }
    forall m | m in s'.queue
      ensures RowOf(s'.stores.db, m) in s'.stores.db.orders || Sent(RowOf(s'.stores.db, m)) in s'.flight
    {
      assert m in s.queue;
      assert RowOf(s.stores.db, m) in s.stores.db.orders || Sent(RowOf(s.stores.db, m)) in s.flight;
    }
    forall m | m in s'.delayed ensures GoodMessage(s', m) {
      assert m in s.delayed;
      assert GoodMessage(s, m);
    }
  }

  lemma BuyShape(r: Redis, q: Purchase, key: string, now: int)
    ensures var (r', reply) := BuyOnce(r, q, key, now);
      && r'.stock.Keys == r.stock.Keys
      && (reply.Reply? && reply.code == OK ==>
            && q.product in r.stock && r.stock[q.product] >= q.quantity
            && CountOf(r, BuyerOf(q)) + q.quantity <= q.limit && q.expireSec > 0
            && r'.stock == r.stock[q.product := r.stock[q.product] - q.quantity]
            && r'.count == r.count[BuyerOf(q) := CountOf(r, BuyerOf(q)) + q.quantity])
      && (reply == ScriptError ==>
            && q.product in r.stock && r.stock[q.product] >= q.quantity && q.expireSec <= 0
            && r'.stock == r.stock[q.product := r.stock[q.product] - q.quantity]
            && r'.count == r.count)
      && (reply.Reply? && reply.code != OK ==> r'.stock == r.stock && r'.count == r.count)
  {
  }

  lemma ReserveShape(s: System, t: nat, q: Purchase, key: string, now: int)
    requires Shape(s) && Enabled(s, Reserve(t, q, key, now))
    ensures Shape(ReserveEffect(s, t, q, key, now))
  {
    var s' := ReserveEffect(s, t, q, key, now);
    BuyShape(s.stores.redis, q, key, now);
    assert GoodRows(s') by {
      forall row | row in s'.stores.db.orders ensures GoodOrder(s', row, s'.stores.db.orders[row]) {
        assert GoodOrder(s, row, s.stores.db.orders[row]);
      }
    }
    assert GoodFlight(s') by {
      forall row | Sent(row) in s'.flight ensures GoodOrder(s', row, s'.flight[Sent(row)]) {
        assert GoodOrder(s, row, s.flight[Sent(row)]);
      }
    }
    QueuesKept(s, s');
  }

  lemma CompensatedShape(s: System, b: Buyer, quantity: int, c: Calls, s': System)
    requires GoodRedis(s) && b.product in s.catalog && quantity > 0
    requires s'.stores.redis == Compensated(s.stores.redis, b, quantity, c) && s'.catalog == s.catalog
    ensures GoodRedis(s')
  {
  }

  lemma GiveUpShape(s: System, t: nat, c: Calls)
    requires Shape(s) && Ticket(t) in s.flight
    ensures Shape(GiveUpEffect(s, t, c))
  {
    var s' := GiveUpEffect(s, t, c);
    var o := s.flight[Ticket(t)];
    CompensatedShape(s, Buyer(o.user, o.product), o.quantity, c, s');
    RowsKept(s, s');
    QueuesKept(s, s');
    FlightKept(s, s');
  }

  /** Order rows survive any change of status and any change outside the order tables. */
  lemma RowsKept(s: System, s': System)
    requires GoodRows(s) && s'.catalog == s.catalog
    requires s'.stores.db.shards == s.stores.db.shards && s.issued <= s'.issued
    requires s'.stores.db.remain.Keys == s.stores.db.remain.Keys
    requires s'.stores.db.orders.Keys == s.stores.db.orders.Keys
    requires forall row :: row in s.stores.db.orders ==>
      s'.stores.db.orders[row].(status := Pending) == s.stores.db.orders[row].(status := Pending)
    ensures GoodRows(s')
  {
  }

  lemma FlightKept(s: System, s': System)
    requires GoodFlight(s) && s'.catalog == s.catalog
    requires s'.stores.db.shards == s.stores.db.shards && s.issued <= s'.issued
    requires s'.queue == s.queue
    requires s'.stores.db.orders.Keys == s.stores.db.orders.Keys
    requires forall slot :: slot in s'.flight ==> slot in s.flight && s'.flight[slot] == s.flight[slot]
    ensures GoodFlight(s')
  {
  }

  /** A number that was never issued has no row in any table and no slot in flight. */
  lemma UnusedNumber(s: System, user: UserId, no: OrderNo)
    requires Shape(s) && no !in s.issued
    ensures RowAt(s.stores.db.shards, user, no) !in s.stores.db.orders
    ensures Sent(RowAt(s.stores.db.shards, user, no)) !in s.flight
  {
  }

  lemma PublishShape(s: System, t: nat, no: OrderNo, delaySent: bool)
    requires Shape(s) && Enabled(s, Publish(t, no, delaySent))
    ensures Shape(PublishEffect(s, t, no, delaySent))
  {
    var s' := PublishEffect(s, t, no, delaySent);
    var o := s.flight[Ticket(t)];
    var placed := RowAt(s.stores.db.shards, o.user, no);
    UnusedNumber(s, o.user, no);
    RowsKept(s, s');
    forall row | Sent(row) in s'.flight
      ensures row !in s'.stores.db.orders && GoodOrder(s', row, s'.flight[Sent(row)])
      ensures MsgFor(row.no, s'.flight[Sent(row)]) in s'.queue
    {
      if row != placed {
        assert Sent(row) in s.flight && GoodOrder(s, row, s.flight[Sent(row)]);
      }
    }
    forall m | m in s'.queue || m in s'.delayed
      ensures GoodMessage(s', m)
    {
      if m != MsgFor(no, o) {
        assert GoodMessage(s, m);
        assert m.no in s.issued && m.no != no;
      }
    }
    forall m | m in s'.queue
      ensures RowOf(s'.stores.db, m) in s'.stores.db.orders || Sent(RowOf(s'.stores.db, m)) in s'.flight
    {
      if m != MsgFor(no, o) {
        assert m in s.queue;
      }
    }
  }

  lemma CreatedRows(db: Db, m: OrderMsg)
    ensures var db' := Created(db, m).0;
      && db'.shards == db.shards && db'.remain.Keys == db.remain.Keys
      && RowOf(db, m) in db'.orders
      && db'.orders == (if RowOf(db, m) in db.orders then db.orders else db.orders[RowOf(db, m) := OrderFor(m)])
  {
  }

  lemma CreateDirectShape(s: System, t: nat, no: OrderNo, c: Calls)
    requires Shape(s) && Enabled(s, CreateDirect(t, no, c))
    ensures Shape(CreateDirectEffect(s, t, no, c))
  {
    var s' := CreateDirectEffect(s, t, no, c);
    var o := s.flight[Ticket(t)];
    var m := MsgFor(no, o);
    var placed := RowOf(s.stores.db, m);
    CreatedRows(s.stores.db, m);
    UnusedNumber(s, o.user, no);
    assert GoodRedis(s') by {
      CompensatedShape(s, Buyer(o.user, o.product), o.quantity, c,
        s.(stores := s.stores.(redis := Compensated(s.stores.redis, Buyer(o.user, o.product), o.quantity, c))));
    }
    forall row | row in s'.stores.db.orders
      ensures GoodOrder(s', row, s'.stores.db.orders[row])
    {
      if row != placed { assert GoodOrder(s, row, s.stores.db.orders[row]); }
    }
    forall row | Sent(row) in s'.flight
      ensures row !in s'.stores.db.orders && GoodOrder(s', row, s'.flight[Sent(row)])
    {
      assert Sent(row) in s.flight && GoodOrder(s, row, s.flight[Sent(row)]);
    }
    forall m' | m' in s'.queue || m' in s'.delayed
      ensures GoodMessage(s', m')
    {
      assert GoodMessage(s, m');
      assert m'.no != no;
    }
  }

  lemma ConsumeRows(s: System, m: OrderMsg, insertOk: bool, removed: bool)
    requires Shape(s) && m in s.queue
    ensures GoodRows(ConsumeEffect(s, m, insertOk, removed))
  {
    var s' := ConsumeEffect(s, m, insertOk, removed);
    var row0 := RowOf(s.stores.db, m);
    CreatedRows(s.stores.db, m);
    forall row | row in s'.stores.db.orders
      ensures GoodOrder(s', row, s'.stores.db.orders[row])
    {
      if row in s.stores.db.orders {
        assert GoodOrder(s, row, s.stores.db.orders[row]);
      } else {
        assert GoodMessage(s, m) && Sent(row0) in s.flight;
        assert GoodOrder(s, row0, s.flight[Sent(row0)]);
      }
    }
  }

  lemma ConsumeFlight(s: System, m: OrderMsg, insertOk: bool, removed: bool)
    requires Shape(s) && m in s.queue
    ensures GoodFlight(ConsumeEffect(s, m, insertOk, removed))
  {
    var s' := ConsumeEffect(s, m, insertOk, removed);
    CreatedRows(s.stores.db, m);
    forall row | Sent(row) in s'.flight
      ensures row !in s'.stores.db.orders && GoodOrder(s', row, s'.flight[Sent(row)])
      ensures MsgFor(row.no, s'.flight[Sent(row)]) in s'.queue
    {
      assert Sent(row) in s.flight && GoodOrder(s, row, s.flight[Sent(row)]);
      var waiting := MsgFor(row.no, s.flight[Sent(row)]);
      assert waiting in s.queue && RowOf(s.stores.db, waiting) == row;
    }
  }

  lemma ConsumeMessage(s: System, m: OrderMsg, insertOk: bool, removed: bool, m': OrderMsg)
    requires Shape(s) && m in s.queue && (m' in s.queue || m' in s.delayed)
    ensures GoodMessage(ConsumeEffect(s, m, insertOk, removed), m')
  {
    CreatedRows(s.stores.db, m);
    assert GoodMessage(s, m) && GoodMessage(s, m');
    if RowOf(s.stores.db, m) !in s.stores.db.orders {
      assert Sent(RowOf(s.stores.db, m)) in s.flight;
    }
  }

  lemma ConsumeHome(s: System, m: OrderMsg, insertOk: bool, removed: bool, m': OrderMsg)
    requires Shape(s) && m in s.queue && m' in ConsumeEffect(s, m, insertOk, removed).queue
    ensures var s' := ConsumeEffect(s, m, insertOk, removed);
      RowOf(s'.stores.db, m') in s'.stores.db.orders || Sent(RowOf(s'.stores.db, m')) in s'.flight
  {
    var row := RowOf(s.stores.db, m);
    CreatedRows(s.stores.db, m);
    assert m' in s.queue && GoodMessage(s, m) && GoodMessage(s, m');
    if RowOf(s.stores.db, m') == row && Sent(row) in s.flight {
      assert GoodOrder(s, row, s.flight[Sent(row)]);
      assert m' == m;
    }
  }

  lemma ConsumeQueues(s: System, m: OrderMsg, insertOk: bool, removed: bool)
    requires Shape(s) && m in s.queue
    ensures GoodQueues(ConsumeEffect(s, m, insertOk, removed))
  {
    var s' := ConsumeEffect(s, m, insertOk, removed);
    forall m' | m' in s'.queue || m' in s'.delayed ensures GoodMessage(s', m') {
      ConsumeMessage(s, m, insertOk, removed, m');
    }
    forall m' | m' in s'.queue
      ensures RowOf(s'.stores.db, m') in s'.stores.db.orders || Sent(RowOf(s'.stores.db, m')) in s'.flight
    {
      ConsumeHome(s, m, insertOk, removed, m');
    }
  }

  lemma ConsumeShape(s: System, m: OrderMsg, insertOk: bool, removed: bool)
    requires Shape(s) && m in s.queue
    ensures Shape(ConsumeEffect(s, m, insertOk, removed))
  {
    ConsumeRows(s, m, insertOk, removed);
    ConsumeFlight(s, m, insertOk, removed);
    ConsumeQueues(s, m, insertOk, removed);
  }

  /** Handlers on existing orders: statuses, stocks and counters move, nothing else does. */
  lemma HandlerShape(s: System, s': System)
    requires Shape(s) && GoodRedis(s')
    requires s' == s.(stores := s'.stores, delayed := s'.delayed, passes := s'.passes) && s'.delayed <= s.delayed
    requires s'.stores.db.shards == s.stores.db.shards
    requires s'.stores.db.remain.Keys == s.stores.db.remain.Keys
    requires s'.stores.db.orders.Keys == s.stores.db.orders.Keys
    requires forall row :: row in s.stores.db.orders ==>
      s'.stores.db.orders[row].(status := Pending) == s.stores.db.orders[row].(status := Pending)
    ensures Shape(s')
  {
    RowsKept(s, s');
    FlightKept(s, s');
    QueuesKept(s, s');
  }

  lemma CancelShape(s: System, no: OrderNo, caller: UserId, c: Calls)
    requires Shape(s)
    ensures Shape(s.(stores := CancelEffect(s.stores, no, caller, c).0))
  {
    if Lookup(s.stores.db, no, caller).Some? {
      assert GoodOrder(s, RowAt(s.stores.db.shards, caller, no), Lookup(s.stores.db, no, caller).value);
    }
    HandlerShape(s, s.(stores := CancelEffect(s.stores, no, caller, c).0));
  }

  lemma RefundShape(s: System, no: OrderNo, caller: UserId, c: Calls)
    requires Shape(s)
    ensures Shape(s.(stores := RefundEffect(s.stores, no, caller, c).0))
  {
    if Lookup(s.stores.db, no, caller).Some? {
      assert GoodOrder(s, RowAt(s.stores.db.shards, caller, no), Lookup(s.stores.db, no, caller).value);
    }
    HandlerShape(s, s.(stores := RefundEffect(s.stores, no, caller, c).0));
  }

  lemma ExpireRedis(s: System, m: OrderMsg, c: Calls)
    requires GoodRedis(s) && GoodRows(s) && GoodMessage(s, m)
    ensures GoodRedis(s.(stores := TimeoutEffect(s.stores, m, c).0))
  {
    var s' := s.(stores := TimeoutEffect(s.stores, m, c).0);
    if s'.stores.redis != s.stores.redis {
      assert GoodOrder(s, RowOf(s.stores.db, m), s.stores.db.orders[RowOf(s.stores.db, m)]);
      CompensatedShape(s, Buyer(m.user, m.product), m.quantity, c, s');
    }
  }

  lemma TimeoutHandled(s: System, m: OrderMsg, c: Calls)
    requires Shape(s) && GoodMessage(s, m)
    ensures Shape(s.(stores := TimeoutEffect(s.stores, m, c).0))
  {
    ExpireRedis(s, m, c);
    HandlerShape(s, s.(stores := TimeoutEffect(s.stores, m, c).0));
  }

  lemma FewerDelayed(s: System, delayed: multiset<OrderMsg>)
    requires Shape(s) && delayed <= s.delayed
    ensures Shape(s.(delayed := delayed))
  {
    QueuesKept(s, s.(delayed := delayed));
  }

  lemma ExpireShape(s: System, m: OrderMsg, c: Calls, removed: bool)
    requires Shape(s) && m in s.delayed
    ensures Shape(Apply(s, Expire(m, c, removed)))
  {
    assert GoodMessage(s, m);
    TimeoutHandled(s, m, c);
    FewerDelayed(s.(stores := TimeoutEffect(s.stores, m, c).0), Apply(s, Expire(m, c, removed)).delayed);
  }

  lemma PayShape(s: System, no: OrderNo, caller: UserId, write: bool)
    requires Shape(s)
    ensures Shape(s.(stores := PayEffect(s.stores, no, caller, write).0))
  {
    HandlerShape(s, s.(stores := PayEffect(s.stores, no, caller, write).0));
  }

  lemma StepKeepsShape(s: System, step: Step)
    requires Shape(s) && Enabled(s, step)
    ensures Shape(Apply(s, step))
  {
    match step
    case NewProduct(p, total, limit, preloaded) => NewProductShape(s, p, total, limit, preloaded);
    case Reserve(t, q, key, now) => ReserveShape(s, t, q, key, now);
    case GiveUp(t, c) => GiveUpShape(s, t, c);
    case Publish(t, no, delaySent) => PublishShape(s, t, no, delaySent);
    case CreateDirect(t, no, c) => CreateDirectShape(s, t, no, c);
    case Consume(m, insertOk, removed) => ConsumeShape(s, m, insertOk, removed);
    case ReadStocks(_) => HandlerShape(s, Apply(s, step));
    case Overwrite(_, _) => HandlerShape(s, Apply(s, step));
    case Pay(no, caller, write) => PayShape(s, no, caller, write);
    case Cancel(no, caller, c) => CancelShape(s, no, caller, c);
    case Refund(no, caller, c) => RefundShape(s, no, caller, c);
    case Expire(m, c, removed) => ExpireShape(s, m, c, removed);
  }
}
