/**
 The stock, purchase-counter and idempotency keys of Redis, and the atomic scripts over them.

 A script is one step on the keyspace. Keys carry structured names here: the printed key
 `seckill:user:<user>:<product>` is the pair `Buyer(user, product)`, and so on. Times are milliseconds.
 */
module RedisScripts {

  type ProductId = int
  type UserId = nat

  const IDEMPOTENT_TTL_MS := 5000

  const OK := 1
  const NO_PRODUCT := -1
  const OUT_OF_STOCK := -2
  const LIMIT_REACHED := -3
  const DUPLICATE := -4

  datatype Buyer = Buyer(user: UserId, product: ProductId)
  datatype IdemKey = IdemKey(user: UserId, product: ProductId, key: string)

  /** `idem` maps each idempotency key to the time at which it expires. */
  datatype Redis = Redis(stock: map<ProductId, int>, count: map<Buyer, int>, idem: map<IdemKey, int>)

  datatype Purchase = Purchase(user: UserId, product: ProductId, quantity: int, limit: int, expireSec: int)

  /** What the caller of a script sees; a script that raises an error keeps the writes made before the error. */
  datatype Reply = Reply(remain: int, count: int, code: int) | ScriptError

  function StockOf(r: Redis, p: ProductId): int {
    if p in r.stock then r.stock[p] else 0
  }

  function CountOf(r: Redis, b: Buyer): int {
    if b in r.count then r.count[b] else 0
  }

  function BuyerOf(q: Purchase): Buyer {
    Buyer(q.user, q.product)
  }

  predicate Live(r: Redis, k: IdemKey, now: int) {
    k in r.idem && now < r.idem[k]
  }

  // ---------------------------------------------------------------------------------------------
  // What each command does to the keyspace
  // ---------------------------------------------------------------------------------------------

  function AddStock(r: Redis, p: ProductId, quantity: int): Redis {
    r.(stock := r.stock[p := StockOf(r, p) + quantity])
  }

  function SetStock(r: Redis, p: ProductId, stock: int): Redis {
    r.(stock := r.stock[p := stock])
  }

  function AddCount(r: Redis, b: Buyer, quantity: int): Redis {
    r.(count := r.count[b := CountOf(r, b) + quantity])
  }

  /** The key disappears when nothing is left of it, and a missing key stays missing. */
  function TakeCount(r: Redis, b: Buyer, quantity: int): Redis {
    if b !in r.count then r
    else if r.count[b] - quantity <= 0 then r.(count := r.count - {b})
    else r.(count := r.count[b := r.count[b] - quantity])
  }

  function TakeStock(r: Redis, p: ProductId, quantity: int): (Redis, int, bool) {
    if p !in r.stock || r.stock[p] < quantity then (r, 0, false)
    else if r.stock[p] - quantity < 0 then (r.(stock := r.stock[p := r.stock[p] - quantity]), 0, false)
    else (r.(stock := r.stock[p := r.stock[p] - quantity]), r.stock[p] - quantity, true)
  }

  /** The guards of the combined script: any of them refuses the purchase before anything is written. */
  predicate Rejected(r: Redis, q: Purchase, key: string, now: int) {
    || (key != "" && Live(r, IdemKey(q.user, q.product, key), now))
    || CountOf(r, BuyerOf(q)) + q.quantity > q.limit
    || q.product !in r.stock
    || r.stock[q.product] < q.quantity
  }

  /** The combined script without an idempotency key. */
  function Buy(r: Redis, q: Purchase): (Redis, Reply) {
    var b := BuyerOf(q);
    var current := CountOf(r, b);
    if current + q.quantity > q.limit then (r, Reply(0, current, LIMIT_REACHED))
    else if q.product !in r.stock then (r, Reply(0, 0, NO_PRODUCT))
    else if r.stock[q.product] < q.quantity then (r, Reply(0, current, OUT_OF_STOCK))
    else
      var taken := r.(stock := r.stock[q.product := r.stock[q.product] - q.quantity]);
      if q.expireSec <= 0 then (taken, ScriptError)
      else (AddCount(taken, b, q.quantity), Reply(r.stock[q.product] - q.quantity, current + q.quantity, OK))
  }

  /** The combined script as the purchase path calls it. */
  function BuyOnce(r: Redis, q: Purchase, key: string, now: int): (Redis, Reply) {
    if key == "" then Buy(r, q)
    else
      var k := IdemKey(q.user, q.product, key);
      if Live(r, k, now) then (r, Reply(0, 0, DUPLICATE))
      else Buy(r.(idem := r.idem[k := now + IDEMPOTENT_TTL_MS]), q)
  }

  // ---------------------------------------------------------------------------------------------
  // The client, command by command
  // ---------------------------------------------------------------------------------------------

  class RedisStore {
    var stock: map<ProductId, int>
    var count: map<Buyer, int>
    var idem: map<IdemKey, int>

    ghost function View(): Redis
      reads this
    {
      Redis(stock, count, idem)
    }

    constructor ()
      ensures View() == Redis(map[], map[], map[])
    {
      stock, count, idem := map[], map[], map[];
    }

    method PreloadStock(p: ProductId, amount: int)
      modifies this`stock
      ensures View() == SetStock(old(View()), p, amount)
    {
      stock := stock[p := amount];
    }

    /** A missing key reads as zero. */
    method GetStock(p: ProductId) returns (amount: int)
      ensures amount == StockOf(View(), p)
    {
      if p !in stock {
        return 0;
      }
      amount := stock[p];
    }

    method DecrStock(p: ProductId, quantity: int) returns (remain: int, ok: bool)
      modifies this`stock
      ensures (View(), remain, ok) == TakeStock(old(View()), p, quantity)
    {
      var result: int;
      if p !in stock {
        result := -1;
      } else if stock[p] < quantity {
        result := -2;
      } else {
        result := stock[p] - quantity;
        stock := stock[p := result];
      }
      if result < 0 {
        return 0, false;
      }
      return result, true;
    }

    method IncrStock(p: ProductId, quantity: int)
      modifies this`stock
      ensures View() == AddStock(old(View()), p, quantity)
    {
      var before := if p in stock then stock[p] else 0;
      stock := stock[p := before + quantity];
    }

    /** Raises an error, writing nothing, when the key would be stored with a non-positive lifetime. */
    method IncrUserPurchaseCount(user: UserId, p: ProductId, quantity: int, expireSec: int) returns (total: int, ok: bool)
      modifies this`count
      ensures ok <==> expireSec > 0
      ensures ok ==> View() == AddCount(old(View()), Buyer(user, p), quantity) && total == CountOf(View(), Buyer(user, p))
      ensures !ok ==> View() == old(View())
    {
      var key := Buyer(user, p);
      var current := if key in count then count[key] else 0;
      total := current + quantity;
      ok := expireSec > 0;
      if ok {
        count := count[key := total];
      }
    }

    method DecrUserPurchaseCount(user: UserId, p: ProductId, quantity: int) returns (left: int)
      modifies this`count
      ensures View() == TakeCount(old(View()), Buyer(user, p), quantity)
      ensures left == CountOf(View(), Buyer(user, p))
    {
      var key := Buyer(user, p);
      if key !in count {
        return 0;
      }
      var current := count[key];
      var newCount := current - quantity;
      if newCount <= 0 {
        count := count - {key};
        return 0;
      }
      count := count[key := current - quantity];
      left := newCount;
    }

    method DecrStockAndIncrPurchase(q: Purchase) returns (reply: Reply)
      modifies this`stock, this`count
      ensures (View(), reply) == Buy(old(View()), q)
    {
      var userKey := Buyer(q.user, q.product);
      var current := if userKey in count then count[userKey] else 0;
      if current + q.quantity > q.limit {
        return Reply(0, current, LIMIT_REACHED);
      }
      if q.product !in stock {
        return Reply(0, 0, NO_PRODUCT);
      }
      var available := stock[q.product];
      if available < q.quantity {
        return Reply(0, current, OUT_OF_STOCK);
      }
      var remain := available - q.quantity;
      stock := stock[q.product := remain];
      var newCount := current + q.quantity;
      if q.expireSec <= 0 {
        return ScriptError;
      }
      count := count[userKey := newCount];
      return Reply(remain, newCount, OK);
    }

    method DecrStockAndIncrPurchaseWithIdempotent(q: Purchase, key: string, now: int) returns (reply: Reply)
      modifies this
      ensures (View(), reply) == BuyOnce(old(View()), q, key, now)
    {
      if key != "" {
        var idemKey := IdemKey(q.user, q.product, key);
        if idemKey in idem && now < idem[idemKey] {
          return Reply(0, 0, DUPLICATE);
        }
        idem := idem[idemKey := now + IDEMPOTENT_TTL_MS];
      }
      var userKey := Buyer(q.user, q.product);
      var current := if userKey in count then count[userKey] else 0;
      if current + q.quantity > q.limit {
        return Reply(0, current, LIMIT_REACHED);
      }
      if q.product !in stock {
        return Reply(0, 0, NO_PRODUCT);
      }
      var available := stock[q.product];
      if available < q.quantity {
        return Reply(0, current, OUT_OF_STOCK);
      }
      var remain := available - q.quantity;
      stock := stock[q.product := remain];
      var newCount := current + q.quantity;
      if q.expireSec <= 0 {
        return ScriptError;
      }
      count := count[userKey := newCount];
      return Reply(remain, newCount, OK);
    }
  }
}
