/** The MySQL side: product stock and the order tables, sharded by user. */
module OrderStore {
  import opened Prelude
  import opened RedisScripts

  type OrderNo = nat
  type Shards = n: int | 0 < n witness 1

  datatype Status = Pending | Paid | Cancelled | Refunded | Timeout

  datatype Order = Order(user: UserId, product: ProductId, quantity: int, status: Status)

  /** A row of table `t_order_<shard>`; the order number is unique within its table. */
  datatype Row = Row(shard: nat, no: OrderNo)

  datatype Db = Db(shards: Shards, remain: map<ProductId, int>, orders: map<Row, Order>)

  /** Body of an order message and of the timeout message sent with it. */
  datatype OrderMsg = OrderMsg(no: OrderNo, user: UserId, product: ProductId, quantity: int)

  function RowAt(shards: Shards, user: UserId, no: OrderNo): Row {
    Row(user % shards, no)
  }

  function RowOf(db: Db, m: OrderMsg): Row {
    RowAt(db.shards, m.user, m.no)
  }

  /** Reads by order number in the caller's table; the user column is not compared. */
  function Lookup(db: Db, no: OrderNo, caller: UserId): Option<Order> {
    var row := RowAt(db.shards, caller, no);
    if row in db.orders then Some(db.orders[row]) else None
  }

  function Insert(db: Db, row: Row, o: Order): Db {
    db.(orders := db.orders[row := o])
  }

  function SetStatus(db: Db, row: Row, status: Status): Db {
    if row in db.orders then db.(orders := db.orders[row := db.orders[row].(status := status)]) else db
  }

  function Deduct(db: Db, p: ProductId, quantity: int): (Db, bool) {
    if p in db.remain && db.remain[p] >= quantity
    then (db.(remain := db.remain[p := db.remain[p] - quantity]), true)
    else (db, false)
  }

  function Restock(db: Db, p: ProductId, quantity: int): Db {
    if p in db.remain then db.(remain := db.remain[p := db.remain[p] + quantity]) else db
  }

  class Database {
    const shards: Shards
    var remain: map<ProductId, int>
    var orders: map<Row, Order>

    ghost function View(): Db
      reads this
    {
      Db(shards, remain, orders)
    }

    constructor (shards: Shards)
      ensures View() == Db(shards, map[], map[])
    {
      this.shards := shards;
      remain, orders := map[], map[];
    }

    method GetOrderByOrderNo(no: OrderNo, user: UserId) returns (o: Option<Order>)
      ensures o == Lookup(View(), no, user)
    {
      var row := RowAt(shards, user, no);
      if row in orders {
        return Some(orders[row]);
      }
      return None;
    }

    /** Refused by the unique key when the row is already there. */
    method CreateOrder(no: OrderNo, o: Order) returns (ok: bool)
      modifies this`orders
      ensures ok <==> RowAt(shards, o.user, no) !in old(orders)
      ensures View() == if ok then Insert(old(View()), RowAt(shards, o.user, no), o) else old(View())
    {
      var row := RowAt(shards, o.user, no);
      if row in orders {
        return false;
      }
      orders := orders[row := o];
      return true;
    }

    method DeductProductStock(p: ProductId, quantity: int) returns (ok: bool)
      modifies this`remain
      ensures (View(), ok) == Deduct(old(View()), p, quantity)
    {
      ok := p in remain && remain[p] >= quantity;
      if ok {
        remain := remain[p := remain[p] - quantity];
      }
    }

    method RollbackProductStock(p: ProductId, quantity: int)
      modifies this`remain
      ensures View() == Restock(old(View()), p, quantity)
    {
      if p in remain {
        remain := remain[p := remain[p] + quantity];
      }
    }

    method UpdateOrderStatus(no: OrderNo, user: UserId, status: Status)
      modifies this`orders
      ensures View() == SetStatus(old(View()), RowAt(shards, user, no), status)
    {
      var row := RowAt(shards, user, no);
      if row in orders {
        orders := orders[row := orders[row].(status := status)];
      }
    }
  }
}
