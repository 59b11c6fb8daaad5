/** The purchase path and the message consumers, each proved to be steps of the protocol. */
module SeckillService {
  import opened Prelude
  import opened RedisScripts
  import opened OrderStore
  import opened OrderHandlers
  import opened SeckillProtocol
  import opened ProtocolRuns

  const ONLINE := 1

  datatype ProductInfo = ProductInfo(status: int, startTime: int, endTime: int, limitPerUser: int)

  /** What the environment answers during one purchase. The script may fail to run, or run and lose its reply. */
  datatype Env = Env(redisUp: bool, replyLost: bool, no: Option<OrderNo>, marshalled: bool, published: bool, delaySent: bool,
                     insertOk: bool, calls: Calls)

  datatype SeckillResult =
    | Queued(no: OrderNo)
    | NoSuchProduct | Offline | OutsideWindow | SkuUnknown | OverLimit
    | RedisDown | DuplicateSubmit | SoldOut | AlreadyPurchased
    | NoOrderNumber | MarshalFailed | QueueDown

  function LimitOf(info: ProductInfo): int {
    if info.limitPerUser <= 0 then 1 else info.limitPerUser
  }

  /** Whole seconds left until the activity ends; zero in its last second. */
  function SecondsLeft(info: ProductInfo, now: int): int
    requires now <= info.endTime
  {
    (info.endTime - now) / 1000
  }

  const NOTHING := Calls(false, false, false, false)

  /** What follows a reservation that succeeded. After a lost reply nothing is given back. */
  function Settlement(t: nat, env: Env): Step {
    if env.replyLost then GiveUp(t, NOTHING)
    else if env.no.None? || !env.marshalled then GiveUp(t, env.calls)
    else if env.published then Publish(t, env.no.value, env.delaySent)
    else if env.insertOk then CreateDirect(t, env.no.value, env.calls)
    else GiveUp(t, env.calls)
  }

  /** The checks made before any store is written. */
  predicate Refused(info: Option<ProductInfo>, quantity: int, skuOk: bool, now: int, env: Env) {
    || info.None? || info.value.status != ONLINE
    || now < info.value.startTime || now > info.value.endTime
    || !skuOk || quantity > LimitOf(info.value) || !env.redisUp
  }

  // ---------------------------------------------------------------------------------------------
  // What the buyer is told
  // ---------------------------------------------------------------------------------------------

  /** MySQL's guard accepts the quantity. */
  predicate Sells(remain: map<ProductId, int>, p: ProductId, quantity: int) {
    p in remain && remain[p] >= quantity
  }

  function SettledAnswer(remain: map<ProductId, int>, p: ProductId, quantity: int, env: Env): SeckillResult {
    if env.no.None? then NoOrderNumber
    else if !env.marshalled then MarshalFailed
    else if env.published then Queued(env.no.value)
    else if env.insertOk && Sells(remain, p, quantity) then Queued(env.no.value)
    else QueueDown
  }

  function ScriptAnswer(r: Redis, q: Purchase, key: string, now: int): Option<SeckillResult> {
    var reply := BuyOnce(r, q, key, now).1;
    if reply == ScriptError then Some(RedisDown)
    else if reply.code == DUPLICATE then Some(DuplicateSubmit)
    else if reply.code == NO_PRODUCT then Some(RedisDown)
    else if reply.code == OUT_OF_STOCK then Some(SoldOut)
    else if reply.code == LIMIT_REACHED then Some(AlreadyPurchased)
    else None
  }

  function AttemptAnswer(r: Redis, remain: map<ProductId, int>, q: Purchase, key: string, now: int, env: Env): SeckillResult {
    var refusal := ScriptAnswer(r, q, key, now);
    if env.replyLost then RedisDown
    else if refusal.Some? then refusal.value
    else SettledAnswer(remain, q.product, q.quantity, env)
  }

  function Answer(r: Redis, remain: map<ProductId, int>, info: Option<ProductInfo>, user: UserId, p: ProductId, quantity: int,
                  skuOk: bool, key: string, now: int, env: Env): SeckillResult {
    if info.None? then NoSuchProduct
    else if info.value.status != ONLINE then Offline
    else if now < info.value.startTime || now > info.value.endTime then OutsideWindow
    else if !skuOk then SkuUnknown
    else if quantity > LimitOf(info.value) then OverLimit
    else if !env.redisUp then RedisDown
    else
      AttemptAnswer(r, remain, Purchase(user, p, quantity, LimitOf(info.value), SecondsLeft(info.value, now)), key, now, env)
  }

  /** The product is on sale at this time. */
  predicate OnSale(info: Option<ProductInfo>, now: int) {
    info.Some? && info.value.status == ONLINE && info.value.startTime <= now <= info.value.endTime
  }

  /** One unit per buyer where no limit is set. */
  predicate WithinLimit(info: ProductInfo, quantity: int) {
    quantity <= info.limitPerUser || (info.limitPerUser <= 0 && quantity == 1)
  }

  /** Refusals made before the script: each has its own condition, in this order. */
  lemma EarlyAnswers(r: Redis, remain: map<ProductId, int>, info: Option<ProductInfo>, user: UserId, p: ProductId,
                     quantity: int, skuOk: bool, key: string, now: int, env: Env)
    requires quantity > 0
    ensures var a := Answer(r, remain, info, user, p, quantity, skuOk, key, now, env);
      && (a == NoSuchProduct <==> info.None?)
      && (a == Offline <==> info.Some? && info.value.status != ONLINE)
      && (a == OutsideWindow <==> info.Some? && info.value.status == ONLINE && !OnSale(info, now))
      && (a == SkuUnknown <==> OnSale(info, now) && !skuOk)
      && (a == OverLimit <==> OnSale(info, now) && skuOk && !WithinLimit(info.value, quantity))
  {
  }

  /** The script ran and its reply arrived. */
  predicate Asked(info: Option<ProductInfo>, quantity: int, skuOk: bool, now: int, env: Env) {
    OnSale(info, now) && skuOk && WithinLimit(info.value, quantity) && env.redisUp && !env.replyLost
  }

  predicate LastSecond(info: ProductInfo, now: int) {
    info.endTime - now < 1000
  }

  predicate Repeated(r: Redis, user: UserId, p: ProductId, key: string, now: int) {
    key != "" && Live(r, IdemKey(user, p, key), now)
  }

  predicate AboveLimit(r: Redis, info: ProductInfo, user: UserId, p: ProductId, quantity: int) {
    !WithinLimit(info, CountOf(r, Buyer(user, p)) + quantity)
  }

  /** What the keyspace decides, in this order: live key, limit, missing stock, short stock, lifetime of the counter. */
  lemma ScriptAnswers(r: Redis, remain: map<ProductId, int>, info: Option<ProductInfo>, user: UserId, p: ProductId,
                      quantity: int, skuOk: bool, key: string, now: int, env: Env)
    requires quantity > 0 && CountOf(r, Buyer(user, p)) >= 0 && Asked(info, quantity, skuOk, now, env)
    ensures var a := Answer(r, remain, info, user, p, quantity, skuOk, key, now, env);
      var again, above := Repeated(r, user, p, key, now), AboveLimit(r, info.value, user, p, quantity);
      && (a == DuplicateSubmit <==> again)
      && (a == AlreadyPurchased <==> !again && above)
      && (a == SoldOut <==> !again && !above && p in r.stock && r.stock[p] < quantity)
      && (a == RedisDown <==> !again && !above && (p !in r.stock || (r.stock[p] >= quantity && LastSecond(info.value, now))))
  {
  }

  lemma DownWithoutReply(r: Redis, remain: map<ProductId, int>, info: Option<ProductInfo>, user: UserId, p: ProductId,
                         quantity: int, skuOk: bool, key: string, now: int, env: Env)
    requires quantity > 0 && OnSale(info, now) && skuOk && WithinLimit(info.value, quantity)
    requires !env.redisUp || env.replyLost
    ensures Answer(r, remain, info, user, p, quantity, skuOk, key, now, env) == RedisDown
  {
  }

  /** The script took the stock. */
  predicate Accepted(r: Redis, info: Option<ProductInfo>, user: UserId, p: ProductId, quantity: int, skuOk: bool,
                     key: string, now: int, env: Env) {
    && Asked(info, quantity, skuOk, now, env)
    && !Repeated(r, user, p, key, now) && !AboveLimit(r, info.value, user, p, quantity)
    && p in r.stock && r.stock[p] >= quantity && info.value.endTime - now >= 1000
  }

  /** The buyer is told that the order is queued exactly if the stock was taken, the order has a number and a message,
      and either the queue took it or MySQL did. */
  lemma LateAnswers(r: Redis, remain: map<ProductId, int>, info: Option<ProductInfo>, user: UserId, p: ProductId,
                    quantity: int, skuOk: bool, key: string, now: int, env: Env)
    requires quantity > 0 && CountOf(r, Buyer(user, p)) >= 0
    ensures var a := Answer(r, remain, info, user, p, quantity, skuOk, key, now, env);
      var accepted := Accepted(r, info, user, p, quantity, skuOk, key, now, env);
      var ready := env.no.Some? && env.marshalled;
      var taken := env.published || (env.insertOk && p in remain && remain[p] >= quantity);
      && (a == NoOrderNumber <==> accepted && env.no.None?)
      && (a == MarshalFailed <==> accepted && env.no.Some? && !env.marshalled)
      && (a.Queued? <==> accepted && ready && taken)
      && (a.Queued? ==> a.no == env.no.value)
      && (a == QueueDown <==> accepted && ready && !taken)
  {
  }

  // ---------------------------------------------------------------------------------------------
  // Runs of one purchase
  // ---------------------------------------------------------------------------------------------

  /** The protocol steps of one purchase. */
  function PurchaseSteps(s: System, t: nat, q: Purchase, key: string, now: int, env: Env): seq<Step> {
    var reply := BuyOnce(s.stores.redis, q, key, now).1;
    if reply.Reply? && reply.code == OK then [Reserve(t, q, key, now), Settlement(t, env)] else [Reserve(t, q, key, now)]
  }

  lemma {:induction false} OneStepRun(s: System, step: Step)
    requires Enabled(s, step)
    ensures Runs(s, [step]) && Final(s, [step]) == Apply(s, step)
  {
  }

  lemma {:induction false} TwoStepRun(s: System, first: Step, second: Step)
    requires Enabled(s, first) && Enabled(Apply(s, first), second)
    ensures Runs(s, [first, second])
    ensures Final(s, [first, second]) == Apply(Apply(s, first), second)
  {
    assert [first, second][1..] == [second];
    OneStepRun(Apply(s, first), second);
  }

  /** A purchase keeps a sound system sound whatever fails along the way. */
  lemma {:induction false} PurchaseKeepsSound(s: System, t: nat, q: Purchase, key: string, now: int, env: Env)
    requires Sound(s) && Enabled(s, Reserve(t, q, key, now))
    requires env.no.Some? ==> env.no.value !in s.issued
    ensures var steps := PurchaseSteps(s, t, q, key, now, env); Runs(s, steps) && Sound(Final(s, steps))
  {
    var reserve := Reserve(t, q, key, now);
    StepKeepsSound(s, reserve);
    if |PurchaseSteps(s, t, q, key, now, env)| == 1 {
      OneStepRun(s, reserve);
    } else {
      StepKeepsSound(Apply(s, reserve), Settlement(t, env));
      TwoStepRun(s, reserve, Settlement(t, env));
    }
  }

  lemma SettlementStaysExact(s: System, t: nat, env: Env)
    requires Exact(s) && Enabled(s, Settlement(t, env))
    requires !env.replyLost && env.calls.stock && env.calls.count
    ensures Exact(Apply(s, Settlement(t, env)))
  {
    StepKeepsSound(s, Settlement(t, env));
  }

  /** With every later store call succeeding, a purchase that no guard refuses keeps the books exact exactly when
      the activity lasts at least one more second. */
  lemma {:induction false} PurchaseExactly(s: System, t: nat, info: ProductInfo, user: UserId, p: ProductId, quantity: int,
                        key: string, now: int, env: Env)
    requires now <= info.endTime
    requires var q := Purchase(user, p, quantity, LimitOf(info), SecondsLeft(info, now));
      Enabled(s, Reserve(t, q, key, now)) && !Rejected(s.stores.redis, q, key, now)
    requires Exact(s) && (env.no.Some? ==> env.no.value !in s.issued)
    requires !env.replyLost && env.calls.stock && env.calls.count
    ensures var q := Purchase(user, p, quantity, LimitOf(info), SecondsLeft(info, now));
      var steps := PurchaseSteps(s, t, q, key, now, env);
      Runs(s, steps) && (Exact(Final(s, steps)) <==> info.endTime - now >= 1000)
  {
    var q := Purchase(user, p, quantity, LimitOf(info), SecondsLeft(info, now));
    var reserve := Reserve(t, q, key, now);
    ReserveExactly(s, reserve);
    if q.expireSec > 0 {
      SettlementStaysExact(Apply(s, reserve), t, env);
      TwoStepRun(s, reserve, Settlement(t, env));
    } else {
      OneStepRun(s, reserve);
    }
  }

  lemma ReservationUndone(r: Redis, q: Purchase, key: string, now: int, calls: Calls)
    requires q.quantity > 0 && forall b :: b in r.count ==> r.count[b] > 0
    requires var reply := BuyOnce(r, q, key, now).1; reply.Reply? && reply.code == OK
    requires calls.stock && calls.count
    ensures var undone := Compensated(BuyOnce(r, q, key, now).0, BuyerOf(q), q.quantity, calls);
      undone.stock == r.stock && undone.count == r.count
  {
  }

  /** A rolled-back purchase leaves no trace in stock and counters, down to the presence of the counter key. */
  lemma RollbackUndoesReservation(s: System, t: nat, q: Purchase, key: string, now: int, calls: Calls)
    requires GoodRedis(s) && Enabled(s, Reserve(t, q, key, now))
    requires var reply := BuyOnce(s.stores.redis, q, key, now).1; reply.Reply? && reply.code == OK
    requires calls.stock && calls.count
    ensures var after := Apply(Apply(s, Reserve(t, q, key, now)), GiveUp(t, calls));
      && after.stores.redis.stock == s.stores.redis.stock
      && after.stores.redis.count == s.stores.redis.count
      && after == s.(stores := s.stores.(redis := s.stores.redis.(idem := after.stores.redis.idem)))
  {
    ReservationUndone(s.stores.redis, q, key, now, calls);
    assert s.flight[Ticket(t) := Order(q.user, q.product, q.quantity, Pending)] - {Ticket(t)} == s.flight;
  }

  /** A buyer whose order could not be made after all is back where the purchase began, down to the presence of the
      counter key. */
  lemma FailedPurchaseUndone(s: System, t: nat, q: Purchase, key: string, now: int, env: Env)
    requires GoodRedis(s) && Enabled(s, Reserve(t, q, key, now)) && env.calls.stock && env.calls.count && !env.replyLost
    requires var reply := BuyOnce(s.stores.redis, q, key, now).1; reply.Reply? && reply.code == OK
    requires env.no.Some? ==> env.no.value !in s.issued && RowAt(s.stores.db.shards, q.user, env.no.value) !in s.stores.db.orders
    requires !SettledAnswer(s.stores.db.remain, q.product, q.quantity, env).Queued?
    ensures var reserved := Apply(s, Reserve(t, q, key, now));
      Enabled(reserved, Settlement(t, env)) &&
      var after := Apply(reserved, Settlement(t, env));
      && after.stores.redis.stock == s.stores.redis.stock && after.stores.redis.count == s.stores.redis.count
      && after.stores.db.remain == s.stores.db.remain && after.queue == s.queue && after.delayed == s.delayed
      && after.flight == s.flight
  {
    ReservationUndone(s.stores.redis, q, key, now, env.calls);
    assert s.flight[Ticket(t) := Order(q.user, q.product, q.quantity, Pending)] - {Ticket(t)} == s.flight;
  }

  /** Both stores and the broker, with the bookkeeping of the protocol as ghost state. */
  class Backend {
    const redis: RedisStore
    const db: Database
    const orders: OrderService
    var queue: multiset<OrderMsg>
    var delayed: multiset<OrderMsg>
    ghost var flight: map<Slot, Order>
    ghost var issued: set<OrderNo>
    ghost var catalog: map<ProductId, Product>
    ghost var passes: map<nat, map<ProductId, int>>

    ghost predicate Valid()
      reads this
    {
      orders.redis == redis && orders.db == db
    }

    ghost function View(): System
      reads this, redis, db
    {
      System(Stores(redis.View(), db.View()), queue, delayed, flight, issued, catalog, passes)
    }

    constructor (shards: Shards)
      ensures Valid() && View() == Empty(shards)
      ensures Exact(View())
    {
      var store := new RedisStore();
      var database := new Database(shards);
      redis, db := store, database;
      orders := new OrderService(store, database);
      queue, delayed := multiset{}, multiset{};
      flight, issued, catalog, passes := map[], {}, map[], map[];
      new;
      EmptyIsExact(shards);
    }

    /** Creating a product establishes both stocks; a missing purchase limit becomes one. When the insert fails
        there is no product, and when its variants cannot be saved its Redis stock is not set. */
    method CreateProduct(p: ProductId, total: int, limitPerUser: int, insertOk: bool, variantsOk: bool, preloaded: bool)
      returns (ok: bool)
      requires Valid() && p !in catalog && total > 0
      modifies this`catalog, redis, db
      ensures Valid()
      ensures ok <==> insertOk && variantsOk
      ensures var limit := if limitPerUser <= 0 then 1 else limitPerUser;
        View() == if insertOk then Apply(old(View()), NewProduct(p, total, limit, variantsOk && preloaded)) else old(View())
    {
      var limit := limitPerUser;
      if limit <= 0 {
        limit := 1;
      }
      if !insertOk {
        return false;
      }
      db.remain := db.remain[p := total];
      catalog := catalog[p := Product(total, limit)];
      if !variantsOk {
        return false;
      }
      if preloaded {
        redis.PreloadStock(p, total);
      }
      return true;
    }

    /** One purchase: checks, reservation, then publication, direct creation or rollback. Every check that
        refuses leaves the system as it was; everything else is one or two steps of the protocol. */
    method ExecuteSeckill(info: Option<ProductInfo>, user: UserId, p: ProductId, quantity: int, skuOk: bool,
                          key: string, now: int, env: Env, ghost t: nat)
      returns (result: SeckillResult)
      requires Valid() && quantity > 0
      requires info.Some? ==> p in catalog && catalog[p].limit == LimitOf(info.value)
      requires Ticket(t) !in flight
      requires env.no.Some? ==> env.no.value !in issued && RowAt(db.shards, user, env.no.value) !in db.orders
      modifies this`queue, this`delayed, this`flight, this`issued, redis, db
      ensures Valid()
      ensures Refused(info, quantity, skuOk, now, env) ==> View() == old(View())
      ensures !Refused(info, quantity, skuOk, now, env) ==>
        var q := Purchase(user, p, quantity, LimitOf(info.value), SecondsLeft(info.value, now));
        var steps := PurchaseSteps(old(View()), t, q, key, now, env);
        Runs(old(View()), steps) && View() == Final(old(View()), steps)
      ensures Ticket(t) !in flight
      ensures result == Answer(old(redis.View()), old(db.remain), info, user, p, quantity, skuOk, key, now, env)
      ensures result.Queued? ==>
        var row := RowAt(db.shards, user, result.no);
        if env.published then Sent(row) in flight && queue[OrderMsg(result.no, user, p, quantity)] > 0
        else row in db.orders && db.orders[row] == Order(user, p, quantity, Pending)
    {
      if info.None? {
        return NoSuchProduct;
      }
      var product := info.value;
      if product.status != ONLINE {
        return Offline;
      }
      if now < product.startTime || now > product.endTime {
        return OutsideWindow;
      }
      if !skuOk {
        return SkuUnknown;
      }
      var limit := product.limitPerUser;
      if limit <= 0 {
        limit := 1;
      }
      if quantity > limit {
        return OverLimit;
      }
      if !env.redisUp {
        return RedisDown;
      }
      result := Attempt(Purchase(user, p, quantity, limit, SecondsLeft(product, now)), key, now, env, t);
    }

    /** The purchase after its checks: the script, and what follows from its reply. */
    method Attempt(q: Purchase, key: string, now: int, env: Env, ghost t: nat) returns (result: SeckillResult)
      requires Valid() && Enabled(View(), Reserve(t, q, key, now))
      requires env.no.Some? ==> env.no.value !in issued && RowAt(db.shards, q.user, env.no.value) !in db.orders
      modifies this`queue, this`delayed, this`flight, this`issued, redis, db
      ensures Valid() && Ticket(t) !in flight
      ensures var steps := PurchaseSteps(old(View()), t, q, key, now, env);
        Runs(old(View()), steps) && View() == Final(old(View()), steps)
      ensures result == AttemptAnswer(old(redis.View()), old(db.remain), q, key, now, env)
      ensures result.Queued? ==>
        var row := RowAt(db.shards, q.user, result.no);
        if env.published then Sent(row) in flight && queue[OrderMsg(result.no, q.user, q.product, q.quantity)] > 0
        else row in db.orders && db.orders[row] == Order(q.user, q.product, q.quantity, Pending)
    {
      ghost var s := View();
      var reply := TakeReservation(q, key, now, t);
      OneStepRun(s, Reserve(t, q, key, now));
      if env.replyLost {
        LoseReply(s, q, key, now, env, t);
        return RedisDown;
      }
      if reply == ScriptError {
        return RedisDown;
      }
      if reply.code == DUPLICATE {
        return DuplicateSubmit;
      } else if reply.code == NO_PRODUCT {
        return RedisDown;
      } else if reply.code == OUT_OF_STOCK {
        return SoldOut;
      } else if reply.code == LIMIT_REACHED {
        return AlreadyPurchased;
      }
      TwoStepRun(s, Reserve(t, q, key, now), Settlement(t, env));
      result := CompletePurchase(q.user, q.product, q.quantity, env, t);
    }

    /** The reply of a script that has run does not arrive: whatever it took stays taken. */
    ghost method LoseReply(s: System, q: Purchase, key: string, now: int, env: Env, t: nat)
      requires Valid() && env.replyLost && Enabled(s, Reserve(t, q, key, now))
      requires View() == Apply(s, Reserve(t, q, key, now))
      modifies this`flight
      ensures Valid() && Ticket(t) !in flight
      ensures var steps := PurchaseSteps(s, t, q, key, now, env); Runs(s, steps) && View() == Final(s, steps)
    {
      OneStepRun(s, Reserve(t, q, key, now));
      if Ticket(t) in flight {
        TwoStepRun(s, Reserve(t, q, key, now), Settlement(t, env));
        flight := flight - {Ticket(t)};
      }
    }

    method TakeReservation(q: Purchase, key: string, now: int, ghost t: nat) returns (reply: Reply)
      requires Valid() && Enabled(View(), Reserve(t, q, key, now))
      modifies this`flight, redis
      ensures Valid() && View() == Apply(old(View()), Reserve(t, q, key, now))
      ensures reply == BuyOnce(old(redis.View()), q, key, now).1
      ensures Ticket(t) in flight <==> reply.Reply? && reply.code == OK
      ensures reply.Reply? && reply.code == OK ==> flight[Ticket(t)] == Order(q.user, q.product, q.quantity, Pending)
      ensures reply.Reply? ==> reply.code in {OK, DUPLICATE, NO_PRODUCT, OUT_OF_STOCK, LIMIT_REACHED}
    {
      reply := redis.DecrStockAndIncrPurchaseWithIdempotent(q, key, now);
      if reply.Reply? && reply.code == OK {
        flight := flight[Ticket(t) := Order(q.user, q.product, q.quantity, Pending)];
      }
    }

    /** What follows a reservation: publish the order, write it directly, or give the reservation back. */
    method CompletePurchase(user: UserId, p: ProductId, quantity: int, env: Env, ghost t: nat) returns (result: SeckillResult)
      requires Valid() && Ticket(t) in flight && flight[Ticket(t)] == Order(user, p, quantity, Pending)
      requires !env.replyLost
      requires env.no.Some? ==> env.no.value !in issued && RowAt(db.shards, user, env.no.value) !in db.orders
      modifies this`queue, this`delayed, this`flight, this`issued, redis, db
      ensures Valid() && View() == Apply(old(View()), Settlement(t, env))
      ensures Ticket(t) !in flight
      ensures result == SettledAnswer(old(db.remain), p, quantity, env)
      ensures result.Queued? ==>
        var row := RowAt(db.shards, user, result.no);
        if env.published then Sent(row) in flight && queue[OrderMsg(result.no, user, p, quantity)] > 0
        else row in db.orders && db.orders[row] == Order(user, p, quantity, Pending)
    {
      if env.no.None? {
        Rollback(user, p, quantity, env.calls, t);
        return NoOrderNumber;
      }
      if !env.marshalled {
        Rollback(user, p, quantity, env.calls, t);
        return MarshalFailed;
      }
      var msg := OrderMsg(env.no.value, user, p, quantity);
      if env.published {
        PublishOrder(msg, env.delaySent, t);
        return Queued(msg.no);
      }
      result := CreateDirectly(msg, env, t);
    }

    /** The order message and, if its publication succeeds, the timeout message. */
    method PublishOrder(msg: OrderMsg, delaySent: bool, ghost t: nat)
      requires Valid() && Ticket(t) in flight && flight[Ticket(t)] == OrderFor(msg)
      modifies this`queue, this`delayed, this`flight, this`issued
      ensures Valid() && View() == PublishEffect(old(View()), t, msg.no, delaySent)
      ensures Ticket(t) !in flight && Sent(RowOf(db.View(), msg)) in flight && queue[msg] > 0
    {
      queue := queue + multiset{msg};
      if delaySent {
        delayed := delayed + multiset{msg};
      }
      issued := issued + {msg.no};
      flight := (flight - {Ticket(t)})[Sent(RowOf(db.View(), msg)) := OrderFor(msg)];
    }

    /** The queue did not take the message. */
    method CreateDirectly(msg: OrderMsg, env: Env, ghost t: nat) returns (result: SeckillResult)
      requires Valid() && Ticket(t) in flight && flight[Ticket(t)] == OrderFor(msg)
      requires RowOf(db.View(), msg) !in db.orders
      modifies this`flight, this`issued, redis, db
      ensures Valid() && Ticket(t) !in flight
      ensures View() == if env.insertOk then CreateDirectEffect(old(View()), t, msg.no, env.calls)
                        else GiveUpEffect(old(View()), t, env.calls)
      ensures result == if env.insertOk && Sells(old(db.remain), msg.product, msg.quantity) then Queued(msg.no) else QueueDown
      ensures result.Queued? ==> RowOf(db.View(), msg) in db.orders && db.orders[RowOf(db.View(), msg)] == OrderFor(msg)
    {
      var created := orders.CreateOrder(msg, env.insertOk);
      if env.insertOk {
        issued := issued + {msg.no};
      }
      if !created {
        Rollback(msg.user, msg.product, msg.quantity, env.calls, t);
        return QueueDown;
      }
      flight := flight - {Ticket(t)};
      return Queued(msg.no);
    }

    /** The common exit after a reservation that cannot be completed. */
    method Rollback(user: UserId, p: ProductId, quantity: int, calls: Calls, ghost t: nat)
      requires Valid()
      modifies this`flight, redis
      ensures Valid() && flight == old(flight) - {Ticket(t)}
      ensures redis.View() == Compensated(old(redis.View()), Buyer(user, p), quantity, calls)
    {
      orders.Compensate(Buyer(user, p), quantity, calls);
      flight := flight - {Ticket(t)};
    }

    /** One delivery from the order queue. The broker forgets it when it is acknowledged and the
        acknowledgement arrives, or when its retries are used up. */
    method HandleOrderMessage(m: OrderMsg, insertOk: bool, ackArrives: bool, lastTry: bool) returns (created: bool)
      requires Valid() && m in queue
      modifies this`queue, this`flight, db
      ensures Valid()
      ensures View() == ConsumeEffect(old(View()), m, insertOk, if created then ackArrives else lastTry)
      ensures created <==> RowOf(old(db.View()), m) in old(db.orders)
                           || (insertOk && m.product in old(db.remain) && old(db.remain)[m.product] >= m.quantity)
      ensures created ==> RowOf(db.View(), m) in db.orders
    {
      ghost var s := View();
      created := orders.CreateOrder(m, insertOk);
      assert redis.View() == s.stores.redis;
      assert db.View() == if RowOf(s.stores.db, m) !in s.stores.db.orders && !insertOk then s.stores.db
                          else Created(s.stores.db, m).0;
      var removed := if created then ackArrives else lastTry;
      if removed {
        queue := queue - multiset{m};
      }
      if RowOf(db.View(), m) in db.orders || m !in queue {
        flight := flight - {Sent(RowOf(db.View(), m))};
      }
    }

    /** A reconciliation pass lists the stock of every product. */
    method ListStocks(ghost pass: nat) returns (listed: map<ProductId, int>)
      requires Valid()
      modifies this`passes
      ensures Valid() && View() == Apply(old(View()), ReadStocks(pass))
      ensures listed == db.remain
    {
      listed := db.remain;
      passes := passes[pass := listed];
    }

    /** One delivery from the dead-letter queue. */
    method HandleTimeoutMessage(m: OrderMsg, calls: Calls, ackArrives: bool, lastTry: bool) returns (outcome: Outcome)
      requires Valid() && m in delayed
      modifies this`delayed, redis, db
      ensures Valid()
      ensures outcome == TimeoutEffect(old(orders.View()), m, calls).1
      ensures View() == Apply(old(View()), Expire(m, calls, if outcome.Done? then ackArrives else lastTry))
    {
      ghost var s := View();
      outcome := orders.ProcessTimeoutOrder(m, calls);
      assert (orders.View(), outcome) == TimeoutEffect(s.stores, m, calls);
      assert View() == s.(stores := TimeoutEffect(s.stores, m, calls).0);
      var removed := if outcome.Done? then ackArrives else lastTry;
      if removed {
        delayed := delayed - multiset{m};
      }
    }
  }
}
