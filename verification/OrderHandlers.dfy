/** The order life cycle: creation from a message, payment, and the three ways of giving an order back. */
module OrderHandlers {
  import opened RedisScripts
  import opened OrderStore

  datatype Stores = Stores(redis: Redis, db: Db)

  /** Which store calls of a handler succeed: the status write, the MySQL restock, the two Redis compensations. */
  datatype Calls = Calls(write: bool, restock: bool, stock: bool, count: bool)

  datatype Outcome = Done | NotFound | WrongStatus | StoreError

  // ---------------------------------------------------------------------------------------------
  // Effects
  // ---------------------------------------------------------------------------------------------

  /** Inserts the order and takes its stock; an existing order is acknowledged without a write. When the
      stock guard refuses, the inserted row stays. */
  function Created(db: Db, m: OrderMsg): (Db, bool) {
    if RowOf(db, m) in db.orders then (db, true)
    else Deduct(Insert(db, RowOf(db, m), Order(m.user, m.product, m.quantity, Pending)), m.product, m.quantity)
  }

  /** Redis compensation; the errors of both calls are swallowed. */
  function Compensated(r: Redis, b: Buyer, quantity: int, c: Calls): Redis {
    var stocked := if c.stock then AddStock(r, b.product, quantity) else r;
    if c.count then TakeCount(stocked, b, quantity) else stocked
  }

  function CancelEffect(st: Stores, no: OrderNo, caller: UserId, c: Calls): (Stores, Outcome) {
    match Lookup(st.db, no, caller)
    case None => (st, NotFound)
    case Some(o) =>
      if o.status != Pending then (st, WrongStatus)
      else if !c.write then (st, StoreError)
      else
        var db := SetStatus(st.db, RowAt(st.db.shards, caller, no), Cancelled);
        (Stores(Compensated(st.redis, Buyer(caller, o.product), o.quantity, c),
                if c.restock then Restock(db, o.product, o.quantity) else db), Done)
  }

  /** Driven by the timeout message, whose product and quantity are used for the return. */
  function TimeoutEffect(st: Stores, m: OrderMsg, c: Calls): (Stores, Outcome) {
    match Lookup(st.db, m.no, m.user)
    case None => (st, NotFound)
    case Some(o) =>
      if o.status != Pending then (st, Done)
      else if !c.write then (st, StoreError)
      else
        var db := SetStatus(st.db, RowOf(st.db, m), Timeout);
        if !c.restock then (st.(db := db), StoreError)
        else (Stores(Compensated(st.redis, Buyer(m.user, m.product), m.quantity, c),
                     Restock(db, m.product, m.quantity)), Done)
  }

  function PayEffect(st: Stores, no: OrderNo, caller: UserId, write: bool): (Stores, Outcome) {
    match Lookup(st.db, no, caller)
    case None => (st, NotFound)
    case Some(o) =>
      if o.status != Pending then (st, WrongStatus)
      else if !write then (st, StoreError)
      else (st.(db := SetStatus(st.db, RowAt(st.db.shards, caller, no), Paid)), Done)
  }

  function RefundEffect(st: Stores, no: OrderNo, caller: UserId, c: Calls): (Stores, Outcome) {
    match Lookup(st.db, no, caller)
    case None => (st, NotFound)
    case Some(o) =>
      if o.status != Paid then (st, WrongStatus)
      else if !c.write then (st, StoreError)
      else
        var db := SetStatus(st.db, RowAt(st.db.shards, caller, no), Refunded);
        (Stores(Compensated(st.redis, Buyer(caller, o.product), o.quantity, c),
                if c.restock then Restock(db, o.product, o.quantity) else db), Done)
  }

  // ---------------------------------------------------------------------------------------------
  // The service
  // ---------------------------------------------------------------------------------------------

  class OrderService {
    const redis: RedisStore
    const db: Database

    ghost function View(): Stores
      reads redis, db
    {
      Stores(redis.View(), db.View())
    }

    constructor (redis: RedisStore, db: Database)
      ensures this.redis == redis && this.db == db
    {
      this.redis := redis;
      this.db := db;
    }

    /** `insertOk` says whether the insert statement reaches the database. */
    method CreateOrder(m: OrderMsg, insertOk: bool) returns (ok: bool)
      modifies db
      ensures redis.View() == old(redis.View())
      ensures insertOk || RowOf(old(db.View()), m) in old(db.orders) ==> (db.View(), ok) == Created(old(db.View()), m)
      ensures !insertOk && RowOf(old(db.View()), m) !in old(db.orders) ==> db.View() == old(db.View()) && !ok
    {
      var exist := db.GetOrderByOrderNo(m.no, m.user);
      if exist.Some? {
        return true;
      }
      if !insertOk {
        return false;
      }
      var inserted := db.CreateOrder(m.no, Order(m.user, m.product, m.quantity, Pending));
      if !inserted {
        return false;
      }
      ok := db.DeductProductStock(m.product, m.quantity);
    }

    method Compensate(b: Buyer, quantity: int, c: Calls)
      modifies redis
      ensures redis.View() == Compensated(old(redis.View()), b, quantity, c)
    {
      if c.stock {
        redis.IncrStock(b.product, quantity);
      }
      if c.count {
        var _ := redis.DecrUserPurchaseCount(b.user, b.product, quantity);
      }
    }

    method CancelOrder(no: OrderNo, user: UserId, c: Calls) returns (outcome: Outcome)
      modifies redis, db
      ensures (View(), outcome) == CancelEffect(old(View()), no, user, c)
    {
      var order := db.GetOrderByOrderNo(no, user);
      if order.None? {
        return NotFound;
      }
      if order.value.status != Pending {
        return WrongStatus;
      }
      if !c.write {
        return StoreError;
      }
      db.UpdateOrderStatus(no, user, Cancelled);
      if c.restock {
        db.RollbackProductStock(order.value.product, order.value.quantity);
      }
      Compensate(Buyer(user, order.value.product), order.value.quantity, c);
      return Done;
    }

    method ProcessTimeoutOrder(m: OrderMsg, c: Calls) returns (outcome: Outcome)
      modifies redis, db
      ensures (View(), outcome) == TimeoutEffect(old(View()), m, c)
    {
      var order := db.GetOrderByOrderNo(m.no, m.user);
      if order.None? {
        return NotFound;
      }
      if order.value.status != Pending {
        return Done;
      }
      if !c.write {
        return StoreError;
      }
      db.UpdateOrderStatus(m.no, m.user, Timeout);
      if !c.restock {
        return StoreError;
      }
      db.RollbackProductStock(m.product, m.quantity);
      Compensate(Buyer(m.user, m.product), m.quantity, c);
      return Done;
    }

    method PayCallback(no: OrderNo, user: UserId, write: bool) returns (outcome: Outcome)
      modifies redis, db
      ensures (View(), outcome) == PayEffect(old(View()), no, user, write)
    {
      var order := db.GetOrderByOrderNo(no, user);
      if order.None? {
        return NotFound;
      }
      if order.value.status != Pending {
        return WrongStatus;
      }
      if !write {
        return StoreError;
      }
      db.UpdateOrderStatus(no, user, Paid);
      return Done;
    }

    method Refund(no: OrderNo, user: UserId, c: Calls) returns (outcome: Outcome)
      modifies redis, db
      ensures (View(), outcome) == RefundEffect(old(View()), no, user, c)
    {
      var order := db.GetOrderByOrderNo(no, user);
      if order.None? {
        return NotFound;
      }
      if order.value.status != Paid {
        return WrongStatus;
      }
      if !c.write {
        return StoreError;
      }
      db.UpdateOrderStatus(no, user, Refunded);
      if c.restock {
        db.RollbackProductStock(order.value.product, order.value.quantity);
      }
      Compensate(Buyer(user, order.value.product), order.value.quantity, c);
      return Done;
    }
  }
}
