/** At-least-once delivery of order messages has exactly-once effect on the order tables and the stock. */
module OrderDelivery {
  import opened RedisScripts
  import opened OrderStore
  import opened OrderHandlers
  import opened SeckillProtocol
  import opened MapSums

  /** The database after the workers have handled the deliveries in this order. */
  function Delivered(db: Db, ms: seq<OrderMsg>): Db {
    if ms == [] then db else Created(Delivered(db, ms[..|ms| - 1]), ms[|ms| - 1]).0
  }

  /** Each order number is published with one content. */
  ghost predicate OneContent(db: Db, ms: set<OrderMsg>) {
    forall m, n :: m in ms && n in ms && RowOf(db, m) == RowOf(db, n) ==> m == n
  }

  ghost predicate Positive(ms: set<OrderMsg>) {
    forall m :: m in ms ==> m.quantity > 0
  }

  function Distinct(ms: seq<OrderMsg>): set<OrderMsg> {
    set m | m in ms
  }

  function Unsaved(db: Db, ms: set<OrderMsg>): set<OrderMsg> {
    set m | m in ms && RowOf(db, m) !in db.orders
  }

  ghost function QuantityOf(p: ProductId): OrderMsg -> int {
    (m: OrderMsg) => if m.product == p then m.quantity else 0
  }

  /** Total quantity of a product over distinct messages. */
  ghost function Due(ms: set<OrderMsg>, p: ProductId): int {
    Sum(map m | m in ms :: m, QuantityOf(p))
  }

  ghost predicate Fits(db: Db, ms: set<OrderMsg>) {
    forall p :: p in db.remain ==> Due(Unsaved(db, ms), p) <= db.remain[p]
  }

  /** Every distinct new order is stored once as Pending and its quantity deducted once; nothing else changed. */
  ghost predicate SettledOnce(db: Db, ms: set<OrderMsg>, after: Db) {
    && after.shards == db.shards
    && after.remain.Keys == db.remain.Keys
    && (forall p :: p in db.remain ==> after.remain[p] == db.remain[p] - Due(Unsaved(db, ms), p))
    && (forall row :: row in after.orders <==> row in db.orders || exists m :: m in ms && RowOf(db, m) == row)
    && (forall row :: row in db.orders ==> row in after.orders && after.orders[row] == db.orders[row])
    && (forall m :: m in Unsaved(db, ms) ==> RowOf(db, m) in after.orders && after.orders[RowOf(db, m)] == OrderFor(m))
  }

  lemma DueAdd(ms: set<OrderMsg>, m: OrderMsg, p: ProductId)
    requires m !in ms
    ensures Due(ms + {m}, p) == Due(ms, p) + QuantityOf(p)(m)
  {
    var before := map x | x in ms :: x;
    SumUpdate(before, QuantityOf(p), m, m);
    assert (map x | x in ms + {m} :: x) == before[m := m];
  }

  /** The outcome is determined by the set of messages. */
  lemma SettledUnique(db: Db, ms: set<OrderMsg>, a: Db, b: Db)
    requires SettledOnce(db, ms, a) && SettledOnce(db, ms, b)
    ensures a == b
  {
    forall p | p in a.remain ensures p in b.remain && a.remain[p] == b.remain[p] {}
    assert a.remain.Keys == b.remain.Keys;
    assert a.remain == b.remain;
    forall row | row in a.orders
      ensures row in b.orders && a.orders[row] == b.orders[row]
    {
      if row !in db.orders {
        var m :| m in ms && RowOf(db, m) == row;
        assert m in Unsaved(db, ms);
      }
    }
    assert a.orders.Keys == b.orders.Keys;
    assert a.orders == b.orders;
  }

  lemma SettleAgain(db: Db, ms: set<OrderMsg>, mid: Db, m: OrderMsg)
    requires SettledOnce(db, ms, mid) && (m in ms || RowOf(db, m) in db.orders)
    ensures SettledOnce(db, ms + {m}, Created(mid, m).0)
  {
    assert RowOf(db, m) in mid.orders;
    assert Unsaved(db, ms + {m}) == Unsaved(db, ms);
  }

  lemma SettleNewStock(db: Db, ms: set<OrderMsg>, mid: Db, m: OrderMsg)
    requires SettledOnce(db, ms, mid)
    requires m !in ms && RowOf(db, m) !in db.orders && RowOf(db, m) !in mid.orders
    requires Fits(db, ms + {m})
    ensures var after := Created(mid, m).0;
      && after.shards == db.shards
      && after.orders == mid.orders[RowOf(db, m) := OrderFor(m)]
      && after.remain.Keys == db.remain.Keys
      && (forall p :: p in db.remain ==> after.remain[p] == db.remain[p] - Due(Unsaved(db, ms + {m}), p))
  {
    assert Unsaved(db, ms + {m}) == Unsaved(db, ms) + {m};
    forall p ensures Due(Unsaved(db, ms + {m}), p) == Due(Unsaved(db, ms), p) + QuantityOf(p)(m) {
      DueAdd(Unsaved(db, ms), m, p);
    }
  }

  lemma SettleNew(db: Db, ms: set<OrderMsg>, mid: Db, m: OrderMsg)
    requires SettledOnce(db, ms, mid) && OneContent(db, ms + {m})
    requires m !in ms && RowOf(db, m) !in db.orders
    requires Fits(db, ms + {m})
    ensures SettledOnce(db, ms + {m}, Created(mid, m).0)
  {
    assert RowOf(db, m) !in mid.orders by {
      forall n | n in ms ensures RowOf(db, n) != RowOf(db, m) {
        assert n in ms + {m} && m in ms + {m};
      }
    }
    SettleNewStock(db, ms, mid, m);
    var after := Created(mid, m).0;
    forall row
      ensures row in after.orders <==> row in db.orders || exists n :: n in ms + {m} && RowOf(db, n) == row
    {
      if row == RowOf(db, m) {
        assert m in ms + {m};
      } else if n :| n in ms && RowOf(db, n) == row {
        assert n in ms + {m};
      }
    }
  }

  lemma FitsLess(db: Db, ms: set<OrderMsg>, m: OrderMsg)
    requires Positive(ms + {m}) && Fits(db, ms + {m})
    ensures Fits(db, ms)
  {
    var less, more := Unsaved(db, ms), Unsaved(db, ms + {m});
    if m in ms || RowOf(db, m) in db.orders {
      assert less == more;
    } else {
      assert more == less + {m};
      forall p ensures Due(more, p) >= Due(less, p) { DueAdd(less, m, p); }
    }
  }

  lemma {:induction false} DeliveredSettles(db: Db, ms: seq<OrderMsg>)
    requires OneContent(db, Distinct(ms)) && Positive(Distinct(ms)) && Fits(db, Distinct(ms))
    ensures SettledOnce(db, Distinct(ms), Delivered(db, ms))
  {
    if ms == [] {
      assert (map m | m in Unsaved(db, {}) :: m) == map[];
    } else {
      var prefix, m := ms[..|ms| - 1], ms[|ms| - 1];
      assert Distinct(ms) == Distinct(prefix) + {m};
      FitsLess(db, Distinct(prefix), m);
      DeliveredSettles(db, prefix);
      if m in prefix || RowOf(db, m) in db.orders {
        SettleAgain(db, Distinct(prefix), Delivered(db, prefix), m);
      } else {
        SettleNew(db, Distinct(prefix), Delivered(db, prefix), m);
      }
    }
  }

  lemma {:induction false} StockStaysNonNegative(db: Db, ms: seq<OrderMsg>)
    requires forall p :: p in db.remain ==> db.remain[p] >= 0
    ensures Delivered(db, ms).remain.Keys == db.remain.Keys
    ensures forall p :: p in db.remain ==> Delivered(db, ms).remain[p] >= 0
  {
    if ms != [] {
      StockStaysNonNegative(db, ms[..|ms| - 1]);
    }
  }

  /** Deliveries, with any duplicates and in any order, store each distinct order once and deduct it once, exactly
      when the distinct new orders fit the stock together. */
  lemma {:induction false} ExactlyOnceExactly(db: Db, ms: seq<OrderMsg>)
    requires OneContent(db, Distinct(ms)) && Positive(Distinct(ms))
    requires forall p :: p in db.remain ==> db.remain[p] >= 0
    ensures SettledOnce(db, Distinct(ms), Delivered(db, ms)) <==> Fits(db, Distinct(ms))
  {
    if Fits(db, Distinct(ms)) {
      DeliveredSettles(db, ms);
    }
    StockStaysNonNegative(db, ms);
  }

  /** Two deliveries of the same messages end in the same database. */
  lemma {:induction false} OrderAndDuplicatesDoNotMatter(db: Db, ms: seq<OrderMsg>, ns: seq<OrderMsg>)
    requires OneContent(db, Distinct(ms)) && Positive(Distinct(ms)) && Fits(db, Distinct(ms))
    requires Distinct(ms) == Distinct(ns)
    ensures Delivered(db, ms) == Delivered(db, ns)
  {
    DeliveredSettles(db, ms);
    DeliveredSettles(db, ns);
    SettledUnique(db, Distinct(ms), Delivered(db, ms), Delivered(db, ns));
  }

  /** Beyond the stock the order of delivery shows in the database. */
  lemma OrderMattersBeyondStock(shards: Shards)
    ensures var db := Db(shards, map[7 := 2], map[]);
      var two, one := OrderMsg(1, 1, 7, 2), OrderMsg(2, 1, 7, 1);
      Delivered(db, [two, one]).remain == map[7 := 0] && Delivered(db, [one, two]).remain == map[7 := 1]
  {
    var db := Db(shards, map[7 := 2], map[]);
    var two, one := OrderMsg(1, 1, 7, 2), OrderMsg(2, 1, 7, 1);
    assert [two, one][..1] == [two] && [one, two][..1] == [one];
    assert Delivered(db, [two]).remain == map[7 := 0];
    assert Delivered(db, [one]).remain == map[7 := 1];
  }

  // ---------------------------------------------------------------------------------------------
  // Attempts that may fail
  // ---------------------------------------------------------------------------------------------

  /** One delivery, and whether its insert statement reaches the database. */
  datatype Attempt = Attempt(m: OrderMsg, insertOk: bool)

  function Tried(db: Db, a: Attempt): (Db, bool) {
    if RowOf(db, a.m) !in db.orders && !a.insertOk then (db, false) else Created(db, a.m)
  }

  /** The database after the workers have handled the attempts in this order. */
  function Attempted(db: Db, attempts: seq<Attempt>): Db {
    if attempts == [] then db else Tried(Attempted(db, attempts[..|attempts| - 1]), attempts[|attempts| - 1]).0
  }

  /** The messages whose insert got through, in the order of the attempts. */
  function Arrived(attempts: seq<Attempt>): seq<OrderMsg> {
    if attempts == [] then []
    else
      var last := attempts[|attempts| - 1];
      Arrived(attempts[..|attempts| - 1]) + if last.insertOk then [last.m] else []
  }

  /** Failed attempts leave no trace, whether the order is new or already there. */
  lemma {:induction false} FailuresLeaveNoTrace(db: Db, attempts: seq<Attempt>)
    ensures Attempted(db, attempts) == Delivered(db, Arrived(attempts))
  {
    if attempts != [] {
      var init, last := attempts[..|attempts| - 1], attempts[|attempts| - 1];
      FailuresLeaveNoTrace(db, init);
      if last.insertOk {
        assert (Arrived(init) + [last.m])[..|Arrived(init)|] == Arrived(init);
      } else {
        assert Arrived(init) + [] == Arrived(init);
      }
    }
  }

  /** With requeueing after failures: whatever fails, is repeated or overtakes, the orders with at least one
      successful attempt are stored and deducted exactly once, and the others not at all, exactly when those new
      orders fit the stock together. */
  lemma {:induction false} AttemptsExactly(db: Db, attempts: seq<Attempt>)
    requires OneContent(db, Distinct(Arrived(attempts))) && Positive(Distinct(Arrived(attempts)))
    requires forall p :: p in db.remain ==> db.remain[p] >= 0
    ensures SettledOnce(db, Distinct(Arrived(attempts)), Attempted(db, attempts)) <==> Fits(db, Distinct(Arrived(attempts)))
  {
    FailuresLeaveNoTrace(db, attempts);
    ExactlyOnceExactly(db, Arrived(attempts));
  }

  /** A message has arrived exactly if one of its attempts succeeded. */
  lemma {:induction false} ArrivedExactly(attempts: seq<Attempt>, m: OrderMsg)
    ensures m in Distinct(Arrived(attempts)) <==> Attempt(m, true) in attempts
  {
    if attempts != [] {
      ArrivedExactly(attempts[..|attempts| - 1], m);
      assert attempts == attempts[..|attempts| - 1] + [attempts[|attempts| - 1]];
    }
  }

  // ---------------------------------------------------------------------------------------------
  // A worker
  // ---------------------------------------------------------------------------------------------

  datatype Verdict = Ack | Requeue | Drop

  function VerdictAt(db: Db, attempts: seq<Attempt>, lastTry: seq<bool>, i: nat): Verdict
    requires i < |attempts| == |lastTry|
  {
    if Tried(Attempted(db, attempts[..i]), attempts[i]).1 then Ack else if lastTry[i] then Drop else Requeue
  }

  lemma {:induction false} AttemptedNext(db: Db, attempts: seq<Attempt>, i: nat)
    requires i < |attempts|
    ensures Attempted(db, attempts[..i + 1]) == Tried(Attempted(db, attempts[..i]), attempts[i]).0
  {
    assert attempts[..i + 1][..i] == attempts[..i];
  }

  /** MySQL holds the quantity of this message. */
  predicate Holds(db: Db, m: OrderMsg) {
    m.product in db.remain && db.remain[m.product] >= m.quantity
  }

  /** An attempt succeeds exactly if its order is there already, or its insert gets through and MySQL holds the
      quantity. */
  lemma TriedExactly(db: Db, a: Attempt)
    ensures Tried(db, a).1 <==> RowOf(db, a.m) in db.orders || (a.insertOk && Holds(db, a.m))
    ensures RowOf(db, a.m) in Tried(db, a).0.orders <==> RowOf(db, a.m) in db.orders || a.insertOk
    ensures forall row :: row in db.orders ==> row in Tried(db, a).0.orders
    ensures Tried(db, a).0.shards == db.shards
  {
  }

  /** The verdict on every delivery: acknowledged exactly if the attempt succeeds, dropped exactly if it fails at the
      last try, requeued exactly if it fails before. */
  lemma {:induction false} VerdictExactly(db: Db, attempts: seq<Attempt>, lastTry: seq<bool>, i: nat)
    requires i < |attempts| == |lastTry|
    ensures var before := Attempted(db, attempts[..i]);
      var succeeds := RowOf(before, attempts[i].m) in before.orders || (attempts[i].insertOk && Holds(before, attempts[i].m));
      var verdict := VerdictAt(db, attempts, lastTry, i);
      && (verdict == Ack <==> succeeds)
      && (verdict == Drop <==> !succeeds && lastTry[i])
      && (verdict == Requeue <==> !succeeds && !lastTry[i])
  {
    TriedExactly(Attempted(db, attempts[..i]), attempts[i]);
  }

  lemma {:induction false} StoredStays(db: Db, attempts: seq<Attempt>, i: nat, j: nat, row: Row)
    requires i <= j <= |attempts| && row in Attempted(db, attempts[..i]).orders
    ensures row in Attempted(db, attempts[..j]).orders && Attempted(db, attempts[..j]).shards == db.shards
    decreases j
  {
    if j > 0 {
      AttemptedNext(db, attempts, j - 1);
      TriedExactly(Attempted(db, attempts[..j - 1]), attempts[j - 1]);
      if i < j {
        StoredStays(db, attempts, i, j - 1, row);
      } else {
        ShardsStay(db, attempts, j - 1);
      }
    }
  }

  lemma {:induction false} ShardsStay(db: Db, attempts: seq<Attempt>, n: nat)
    requires n <= |attempts|
    ensures Attempted(db, attempts[..n]).shards == db.shards
  {
    if n > 0 {
      AttemptedNext(db, attempts, n - 1);
      ShardsStay(db, attempts, n - 1);
      TriedExactly(Attempted(db, attempts[..n - 1]), attempts[n - 1]);
    }
  }

  /** A redelivery of a message whose insert has got through once is acknowledged, whatever becomes of its own
      statements and however many tries are left; so is one for an order that was there from the start. */
  lemma RedeliveryIsAcked(db: Db, attempts: seq<Attempt>, lastTry: seq<bool>, i: nat, j: nat)
    requires i < j < |attempts| == |lastTry|
    requires RowOf(db, attempts[i].m) == RowOf(db, attempts[j].m)
    requires attempts[i].insertOk || RowOf(db, attempts[i].m) in db.orders
    ensures VerdictAt(db, attempts, lastTry, j) == Ack
  {
    var row := RowOf(db, attempts[i].m);
    ShardsStay(db, attempts, i);
    if row in db.orders {
      assert attempts[..0] == [];
      StoredStays(db, attempts, 0, i, row);
    }
    AttemptedNext(db, attempts, i);
    TriedExactly(Attempted(db, attempts[..i]), attempts[i]);
    StoredStays(db, attempts, i + 1, j, row);
    VerdictExactly(db, attempts, lastTry, j);
  }

  /** One worker over a stretch of deliveries. `lastTry[i]` says that delivery i has used up its retries. */
  method ConsumeOrders(service: OrderService, attempts: seq<Attempt>, lastTry: seq<bool>) returns (verdicts: seq<Verdict>)
    requires |lastTry| == |attempts|
    modifies service.db
    ensures service.db.View() == Attempted(old(service.db.View()), attempts)
    ensures service.redis.View() == old(service.redis.View())
    ensures |verdicts| == |attempts|
    ensures forall i :: 0 <= i < |attempts| ==> verdicts[i] == VerdictAt(old(service.db.View()), attempts, lastTry, i)
  {
    ghost var start := service.db.View();
    verdicts := [];
    for i := 0 to |attempts|
      invariant service.db.View() == Attempted(start, attempts[..i])
      invariant service.redis.View() == old(service.redis.View())
      invariant |verdicts| == i
      invariant forall j :: 0 <= j < i ==> verdicts[j] == VerdictAt(start, attempts, lastTry, j)
    {
      AttemptedNext(start, attempts, i);
      var ok := service.CreateOrder(attempts[i].m, attempts[i].insertOk);
      if ok {
        verdicts := verdicts + [Ack];
      } else if lastTry[i] {
        verdicts := verdicts + [Drop];
      } else {
        verdicts := verdicts + [Requeue];
      }
    }
    assert attempts[..|attempts|] == attempts;
  }
}
