/** Order statuses over arbitrary runs, and how often an order's quantity is returned. */
module OrderLifecycle {
  import opened Prelude
  import opened RedisScripts
  import opened OrderStore
  import opened SeckillProtocol
  import opened ProtocolLaws
  import opened ProtocolRuns

  predicate Follows(before: Status, after: Status) {
    || before == after
    || (before == Pending && (after == Paid || after == Cancelled || after == Timeout))
    || (before == Paid && after == Refunded)
  }

  /** What one step may do to one order. */
  ghost predicate KeepsOrder(s: System, s': System, back: Option<Row>, row: Row)
    requires row in s.stores.db.orders
  {
    && row in s'.stores.db.orders
    && s'.stores.db.orders[row] == s.stores.db.orders[row].(status := s'.stores.db.orders[row].status)
    && Follows(s.stores.db.orders[row].status, s'.stores.db.orders[row].status)
    && (back == Some(row) <==> Held(s.stores.db.orders[row].status) && !Held(s'.stores.db.orders[row].status))
  }

  lemma CancelStatus(s: System, step: Step, row: Row)
    requires step.Cancel? && row in s.stores.db.orders
    ensures KeepsOrder(s, Apply(s, step), GivenBack(s, step), row)
  {
  }

  lemma RefundStatus(s: System, step: Step, row: Row)
    requires step.Refund? && row in s.stores.db.orders
    ensures KeepsOrder(s, Apply(s, step), GivenBack(s, step), row)
  {
  }

  lemma ExpireStatus(s: System, step: Step, row: Row)
    requires Enabled(s, step) && step.Expire? && row in s.stores.db.orders
    ensures KeepsOrder(s, Apply(s, step), GivenBack(s, step), row)
  {
  }

  lemma PayStatus(s: System, step: Step, row: Row)
    requires step.Pay? && row in s.stores.db.orders
    ensures KeepsOrder(s, Apply(s, step), GivenBack(s, step), row)
  {
  }

  /** Any step, admissible or not, keeps an order's content and moves its status along the life cycle;
      it leaves Pending and Paid exactly in the steps that give the order back. */
  lemma StatusStep(s: System, step: Step, row: Row)
    requires Enabled(s, step) && row in s.stores.db.orders
    ensures KeepsOrder(s, Apply(s, step), GivenBack(s, step), row)
  {
    match step
    case Cancel(_, _, _) => CancelStatus(s, step, row);
    case Refund(_, _, _) => RefundStatus(s, step, row);
    case Expire(_, _, _) => ExpireStatus(s, step, row);
    case Pay(_, _, _) => PayStatus(s, step, row);
    case _ =>
  }

  /** Only saving an order can add a row, and it adds it as Pending. */
  lemma SavedRow(s: System, step: Step, row: Row)
    requires Enabled(s, step) && (step.CreateDirect? || step.Consume?) && row !in s.stores.db.orders
    ensures row in Apply(s, step).stores.db.orders ==> Apply(s, step).stores.db.orders[row].status == Pending
  {
  }

  lemma NoOtherRow(s: System, step: Step, row: Row)
    requires Enabled(s, step) && !step.CreateDirect? && !step.Consume? && row !in s.stores.db.orders
    ensures row !in Apply(s, step).stores.db.orders
  {
  }

  /** Orders appear as Pending. */
  lemma NewOrderStep(s: System, step: Step, row: Row)
    requires Enabled(s, step) && row !in s.stores.db.orders
    ensures var s' := Apply(s, step);
      && (row in s'.stores.db.orders ==> s'.stores.db.orders[row].status == Pending)
      && GivenBack(s, step) != Some(row)
  {
    if step.CreateDirect? || step.Consume? {
      SavedRow(s, step, row);
    } else {
      NoOtherRow(s, step, row);
    }
  }

  /** The number of steps of a run that return the order of `row`. */
  ghost function Returns(s: System, steps: seq<Step>, row: Row): nat
    requires Runs(s, steps)
    decreases |steps|
  {
    if steps == [] then 0
    else (if GivenBack(s, steps[0]) == Some(row) then 1 else 0) + Returns(Apply(s, steps[0]), steps[1..], row)
  }

  predicate Closed(s: System, row: Row) {
    row in s.stores.db.orders && !Held(s.stores.db.orders[row].status)
  }

  /** An order has been returned exactly once if it ends Cancelled, Timeout or Refunded, and never otherwise:
      no duplicate message and no repeated call returns it twice. */
  lemma {:induction false} ReturnedExactlyOnce(s: System, steps: seq<Step>, row: Row)
    requires Runs(s, steps)
    ensures Returns(s, steps, row) == (if Closed(Final(s, steps), row) then 1 else 0) - (if Closed(s, row) then 1 else 0)
    decreases |steps|
  {
    if steps != [] {
      if row in s.stores.db.orders {
        StatusStep(s, steps[0], row);
      } else {
        NewOrderStep(s, steps[0], row);
      }
      ReturnedExactlyOnce(Apply(s, steps[0]), steps[1..], row);
    }
  }

  ghost predicate Reaches(before: Status, after: Status) {
    exists mid :: Follows(before, mid) && Follows(mid, after)
  }

  lemma {:induction false} StatusHistory(s: System, steps: seq<Step>, row: Row)
    requires Runs(s, steps) && row in s.stores.db.orders
    ensures var f := Final(s, steps);
      && row in f.stores.db.orders
      && f.stores.db.orders[row] == s.stores.db.orders[row].(status := f.stores.db.orders[row].status)
      && Reaches(s.stores.db.orders[row].status, f.stores.db.orders[row].status)
    decreases |steps|
  {
    if steps == [] {
      assert Follows(s.stores.db.orders[row].status, s.stores.db.orders[row].status);
    } else {
      StatusStep(s, steps[0], row);
      StatusHistory(Apply(s, steps[0]), steps[1..], row);
      var a, b := s.stores.db.orders[row].status, Apply(s, steps[0]).stores.db.orders[row].status;
      var c := Final(s, steps).stores.db.orders[row].status;
      var mid :| Follows(b, mid) && Follows(mid, c);
      if Follows(a, mid) {
      } else {
        assert Follows(a, b) && Follows(b, c);
      }
    }
  }

  /** Quantity under `f` of the order that the step gives back. */
  function Returned(s: System, step: Step, f: Filter): int {
    var back := GivenBack(s, step);
    if back.Some? && back.value in s.stores.db.orders then Share(f, s.stores.db.orders[back.value]) else 0
  }

  ghost predicate MovesOnce(s: System, step: Step, p: ProductId, b: Buyer)
    requires Enabled(s, step)
  {
    var s' := Apply(s, step);
    && RemainOf(s', p) == RemainOf(s, p) + Returned(s, step, OfProduct(p))
    && StockOf(s'.stores.redis, p) == StockOf(s.stores.redis, p) + Returned(s, step, OfProduct(p))
    && CountOf(s'.stores.redis, b) == CountOf(s.stores.redis, b) - Returned(s, step, OfBuyer(b))
  }

  lemma ReturnMoves(s: System, step: Step, status: Status, p: ProductId, b: Buyer)
    requires Enabled(s, step) && IsReturn(step) && step.calls.stock && step.calls.count
    requires GivenBack(s, step).Some? ==> Returnable(s, GivenBack(s, step).value)
    requires ReturnsOne(s, step, status)
    ensures MovesOnce(s, step, p, b)
  {
    if GivenBack(s, step).Some? {
      var o := s.stores.db.orders[GivenBack(s, step).value];
      CompensatedNumbers(s.stores.redis, Buyer(o.user, o.product), o.quantity, step.calls, p, b);
    }
  }

  /** A handler step that gives an order back adds its quantity once to MySQL, once to Redis and takes it once
      from the buyer's counter; any other handler step, payment included, moves none of the three. */
  lemma HandlerMovesOnce(s: System, step: Step, p: ProductId, b: Buyer)
    requires Sound(s) && Enabled(s, step) && Admissible(s, step)
    requires IsReturn(step) || step.Pay?
    requires IsReturn(step) ==> step.calls.stock && step.calls.count
    ensures MovesOnce(s, step, p, b)
  {
    if GivenBack(s, step).Some? {
      ReturnsAreCovered(s, step);
    }
    match step
    case Cancel(_, _, _) =>
      CancelReturnsOne(s, step);
      ReturnMoves(s, step, Cancelled, p, b);
    case Refund(_, _, _) =>
      RefundReturnsOne(s, step);
      ReturnMoves(s, step, OrderStore.Refunded, p, b);
    case Expire(_, _, _) =>
      ExpireReturnsOne(s, step);
      ReturnMoves(s, step, Timeout, p, b);
    case Pay(_, _, _) => PayMoves(s, step, p, b);
  }

  lemma PayMoves(s: System, step: Step, p: ProductId, b: Buyer)
    requires Enabled(s, step) && step.Pay?
    ensures MovesOnce(s, step, p, b)
  {
  }

  // ---------------------------------------------------------------------------------------------
  // What a run returns of one order
  // ---------------------------------------------------------------------------------------------

  /** Additions to MySQL's stock and to Redis stock, and what is taken from the buyer's counter. */
  datatype Balance = Balance(mysql: int, redis: int, count: int)

  function Plus(a: Balance, b: Balance): Balance {
    Balance(a.mysql + b.mysql, a.redis + b.redis, a.count + b.count)
  }

  ghost function MovedBy(s: System, step: Step, p: ProductId, b: Buyer): Balance
    requires Enabled(s, step)
  {
    var s' := Apply(s, step);
    Balance(RemainOf(s', p) - RemainOf(s, p), StockOf(s'.stores.redis, p) - StockOf(s.stores.redis, p),
            CountOf(s.stores.redis, b) - CountOf(s'.stores.redis, b))
  }

  /** What the steps of a run that give back the order of `row` move for this product and buyer. */
  ghost function Moved(s: System, steps: seq<Step>, row: Row, p: ProductId, b: Buyer): Balance
    requires Runs(s, steps)
    decreases |steps|
  {
    if steps == [] then Balance(0, 0, 0)
    else
      var rest := Moved(Apply(s, steps[0]), steps[1..], row, p, b);
      if GivenBack(s, steps[0]) == Some(row) then Plus(MovedBy(s, steps[0], p, b), rest) else rest
  }

  lemma OnlyReturnsGiveBack(s: System, step: Step)
    requires Enabled(s, step) && Clean(s, step) && GivenBack(s, step).Some?
    ensures IsReturn(step) && step.calls.stock && step.calls.count
  {
  }

  lemma GivesBackAll(s: System, step: Step, row: Row)
    requires Sound(s) && Enabled(s, step) && Clean(s, step) && GivenBack(s, step) == Some(row)
    ensures row in s.stores.db.orders
    ensures var o := s.stores.db.orders[row];
      MovedBy(s, step, o.product, Buyer(o.user, o.product)) == Balance(o.quantity, o.quantity, o.quantity)
  {
    OnlyReturnsGiveBack(s, step);
    ReturnsAreCovered(s, step);
    var o := s.stores.db.orders[row];
    HandlerMovesOnce(s, step, o.product, Buyer(o.user, o.product));
  }

  /** Over a whole run with all compensations succeeding, an order's quantity goes back to MySQL, to Redis and off
      its buyer's counter exactly once if the order ends Cancelled, Timeout or Refunded, and not at all otherwise. */
  lemma {:induction false} ReturnedInFull(s: System, steps: seq<Step>, row: Row)
    requires Sound(s) && CleanRun(s, steps) && row in Final(s, steps).stores.db.orders
    ensures var o := Final(s, steps).stores.db.orders[row];
      Moved(s, steps, row, o.product, Buyer(o.user, o.product))
        == if Closed(Final(s, steps), row) && !Closed(s, row) then Balance(o.quantity, o.quantity, o.quantity)
           else Balance(0, 0, 0)
    decreases |steps|
  {
    if steps != [] {
      var s' := Apply(s, steps[0]);
      StepKeepsSound(s, steps[0]);
      ReturnedInFull(s', steps[1..], row);
      if row in s.stores.db.orders {
        StatusStep(s, steps[0], row);
        StatusHistory(s, steps, row);
        StatusHistory(s', steps[1..], row);
      } else {
        NewOrderStep(s, steps[0], row);
      }
      if GivenBack(s, steps[0]) == Some(row) {
        GivesBackAll(s, steps[0], row);
      }
    }
  }

  /** In every run a timeout message names the user, the product and the quantity of the stored order. */
  lemma {:induction false} TimeoutsAgree(shards: Shards, steps: seq<Step>, m: OrderMsg)
    requires Runs(Empty(shards), steps)
    ensures var s := Final(Empty(shards), steps);
      m in s.delayed && RowOf(s.stores.db, m) in s.stores.db.orders ==> Agrees(m, s.stores.db.orders[RowOf(s.stores.db, m)])
  {
    var s := Final(Empty(shards), steps);
    EmptyIsExact(shards);
    RunKeepsShape(Empty(shards), steps);
    if m in s.delayed && RowOf(s.stores.db, m) in s.stores.db.orders {
      TimeoutAgrees(s, m);
    }
  }
}
