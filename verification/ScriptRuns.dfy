/** What holds of whole runs of the combined purchase script. */
module ScriptRuns {
  import opened RedisScripts

  datatype Call = Call(q: Purchase, key: string, now: int)

  function KeyOf(c: Call): IdemKey {
    IdemKey(c.q.user, c.q.product, c.key)
  }

  /** The keyspace before the n-th call. */
  function StateAt(r: Redis, calls: seq<Call>, n: nat): Redis
    requires n <= |calls|
  {
    if n == 0 then r
    else BuyOnce(StateAt(r, calls, n - 1), calls[n - 1].q, calls[n - 1].key, calls[n - 1].now).0
  }

  function ReplyAt(r: Redis, calls: seq<Call>, n: nat): Reply
    requires n < |calls|
  {
    BuyOnce(StateAt(r, calls, n), calls[n].q, calls[n].key, calls[n].now).1
  }

  ghost predicate ClockAdvances(calls: seq<Call>) {
    forall i, j :: 0 <= i < j < |calls| ==> calls[i].now <= calls[j].now
  }

  /** Accepted by the idempotency check: neither a duplicate nor sent without a key. */
  predicate Claims(reply: Reply, c: Call) {
    c.key != "" && (reply.Reply? ==> reply.code != DUPLICATE)
  }

  // ---------------------------------------------------------------------------------------------
  // One call
  // ---------------------------------------------------------------------------------------------

  /** Each code is returned under exactly one condition, checked in the order key, limit, existence, stock. */
  lemma DecisionTable(r: Redis, q: Purchase, key: string, now: int)
    ensures var reply := BuyOnce(r, q, key, now).1;
      var duplicate := key != "" && Live(r, IdemKey(q.user, q.product, key), now);
      var over := CountOf(r, BuyerOf(q)) + q.quantity > q.limit;
      var missing := q.product !in r.stock;
      var short := StockOf(r, q.product) < q.quantity;
      && (reply.Reply? && reply.code == DUPLICATE <==> duplicate)
      && (reply.Reply? && reply.code == LIMIT_REACHED <==> !duplicate && over)
      && (reply.Reply? && reply.code == NO_PRODUCT <==> !duplicate && !over && missing)
      && (reply.Reply? && reply.code == OUT_OF_STOCK <==> !duplicate && !over && !missing && short)
      && (reply == ScriptError <==> !duplicate && !over && !missing && !short && q.expireSec <= 0)
      && (reply.Reply? && reply.code == OK <==> !duplicate && !over && !missing && !short && q.expireSec > 0)
  {
  }

  /** The numbers a reply carries: what is left and what the buyer now has after a success, what the buyer already had
      when the limit or the stock refused it. */
  lemma RepliesTell(r: Redis, q: Purchase, key: string, now: int)
    requires BuyOnce(r, q, key, now).1.Reply?
    ensures var (after, reply) := BuyOnce(r, q, key, now);
      && (reply.code == OK ==> reply.remain == StockOf(after, q.product) && reply.count == CountOf(after, BuyerOf(q)))
      && (reply.code == OK ==> reply.count == CountOf(r, BuyerOf(q)) + q.quantity)
      && (reply.code == LIMIT_REACHED || reply.code == OUT_OF_STOCK ==> reply.count == CountOf(r, BuyerOf(q)))
      && (reply.code != OK ==> reply.remain == 0)
  {
  }

  /** A call leaves stock and counters alone exactly when one of the guards refuses it. One that passes them all
      with a counter lifetime under one second raises an error after it has taken the stock. */
  lemma RejectionKeepsStock(r: Redis, q: Purchase, key: string, now: int)
    requires q.quantity > 0
    ensures var (after, reply) := BuyOnce(r, q, key, now);
      && (after.stock == r.stock && after.count == r.count <==> Rejected(r, q, key, now))
      && (!Rejected(r, q, key, now) ==> StockOf(after, q.product) == StockOf(r, q.product) - q.quantity)
      && (!Rejected(r, q, key, now) ==> (reply == ScriptError <==> q.expireSec <= 0))
      && (reply == ScriptError ==> after.count == r.count)
  {
    var (after, reply) := BuyOnce(r, q, key, now);
    if !Rejected(r, q, key, now) {
      assert after.stock[q.product] != r.stock[q.product];
    }
  }

  /** An `OK` is DecrStock followed by IncrUserPurchaseCount, and never goes below zero or above the limit. */
  lemma SuccessIsBothSingleSteps(r: Redis, q: Purchase)
    requires Buy(r, q).1.Reply? && Buy(r, q).1.code == OK
    requires q.quantity > 0
    ensures var (after, reply) := Buy(r, q);
      var (taken, remain, ok) := TakeStock(r, q.product, q.quantity);
      && ok && reply.remain == remain
      && after == AddCount(taken, BuyerOf(q), q.quantity)
      && reply.count == CountOf(after, BuyerOf(q)) <= q.limit
      && 0 <= StockOf(after, q.product) == StockOf(r, q.product) - q.quantity
  {
  }

  // ---------------------------------------------------------------------------------------------
  // Runs
  // ---------------------------------------------------------------------------------------------

  /** The expiry table after one call: a live key blocks the call, anything else is claimed anew. */
  lemma IdemAfter(r: Redis, c: Call)
    ensures var (after, reply) := BuyOnce(r, c.q, c.key, c.now);
      && (Claims(reply, c) <==> c.key != "" && !Live(r, KeyOf(c), c.now))
      && after.idem == if Claims(reply, c) then r.idem[KeyOf(c) := c.now + IDEMPOTENT_TTL_MS] else r.idem
  {
  }

  /** On a key that is not held, only the expiry table tells the idempotent script from the plain one. */
  lemma SameBuy(r: Redis, plain: Redis, c: Call)
    requires r.stock == plain.stock && r.count == plain.count
    requires c.key != "" ==> KeyOf(c) !in r.idem
    ensures var (after, reply) := BuyOnce(r, c.q, c.key, c.now);
      && reply == Buy(plain, c.q).1
      && after.stock == Buy(plain, c.q).0.stock
      && after.count == Buy(plain, c.q).0.count
  {
  }

  /** Once claimed, a key stays in the keyspace with an expiry no earlier than the claim plus five seconds. */
  lemma {:induction false} ClaimLasts(r: Redis, calls: seq<Call>, i: nat, n: nat)
    requires ClockAdvances(calls)
    requires i < n <= |calls|
    requires Claims(ReplyAt(r, calls, i), calls[i])
    ensures KeyOf(calls[i]) in StateAt(r, calls, n).idem
    ensures StateAt(r, calls, n).idem[KeyOf(calls[i])] >= calls[i].now + IDEMPOTENT_TTL_MS
  {
    IdemAfter(StateAt(r, calls, n - 1), calls[n - 1]);
    if n > i + 1 {
      ClaimLasts(r, calls, i, n - 1);
    }
  }

  /** Two accepted submissions of the same (user, product, key) are at least five seconds apart in every run,
      whatever the calls in between; so are two successes. */
  lemma DuplicateWindow(r: Redis, calls: seq<Call>, i: nat, j: nat)
    requires ClockAdvances(calls)
    requires i < j < |calls|
    requires KeyOf(calls[i]) == KeyOf(calls[j])
    requires Claims(ReplyAt(r, calls, i), calls[i]) && Claims(ReplyAt(r, calls, j), calls[j])
    ensures calls[j].now - calls[i].now >= 5000
  {
    ClaimLasts(r, calls, i, j);
  }

  /** Every held key was put there by some earlier accepted call. */
  lemma {:induction false} ClaimedBySome(r: Redis, calls: seq<Call>, n: nat, k: IdemKey) returns (i: nat)
    requires n <= |calls|
    requires k !in r.idem && k in StateAt(r, calls, n).idem
    ensures i < n && KeyOf(calls[i]) == k && Claims(ReplyAt(r, calls, i), calls[i])
    ensures StateAt(r, calls, n).idem[k] == calls[i].now + IDEMPOTENT_TTL_MS
  {
    IdemAfter(StateAt(r, calls, n - 1), calls[n - 1]);
    if Claims(ReplyAt(r, calls, n - 1), calls[n - 1]) && KeyOf(calls[n - 1]) == k {
      i := n - 1;
    } else {
      i := ClaimedBySome(r, calls, n - 1, k);
    }
  }

  /** Call i was accepted and shuts out call j. */
  ghost predicate ShutsOut(r: Redis, calls: seq<Call>, i: nat, j: nat) {
    && i < j < |calls|
    && KeyOf(calls[i]) == KeyOf(calls[j])
    && Claims(ReplyAt(r, calls, i), calls[i])
    && calls[j].now - calls[i].now < IDEMPOTENT_TTL_MS
  }

  /** A submission is refused as a duplicate exactly when an accepted one with its key is less than five seconds old. */
  lemma DuplicateExactly(r: Redis, calls: seq<Call>, j: nat)
    requires ClockAdvances(calls)
    requires j < |calls| && calls[j].key != "" && KeyOf(calls[j]) !in r.idem
    ensures !Claims(ReplyAt(r, calls, j), calls[j]) <==> exists i :: ShutsOut(r, calls, i, j)
  {
    IdemAfter(StateAt(r, calls, j), calls[j]);
    if !Claims(ReplyAt(r, calls, j), calls[j]) {
      var i := ClaimedBySome(r, calls, j, KeyOf(calls[j]));
      assert ShutsOut(r, calls, i, j);
    }
    if i :| ShutsOut(r, calls, i, j) {
      ClaimLasts(r, calls, i, j);
    }
  }

  /** The same calls through the script without idempotency. */
  function PlainStateAt(r: Redis, calls: seq<Call>, n: nat): Redis
    requires n <= |calls|
  {
    if n == 0 then r else Buy(PlainStateAt(r, calls, n - 1), calls[n - 1].q).0
  }

  /** Every key is either empty or used once, and not already held at the start. */
  ghost predicate FreshKeys(r: Redis, calls: seq<Call>) {
    && (forall i :: 0 <= i < |calls| && calls[i].key != "" ==> KeyOf(calls[i]) !in r.idem)
    && (forall i, j :: 0 <= i < j < |calls| && calls[i].key != "" && calls[j].key != "" ==> KeyOf(calls[i]) != KeyOf(calls[j]))
  }

  lemma {:induction false} FreshKeyIsFree(r: Redis, calls: seq<Call>, n: nat, i: nat)
    requires FreshKeys(r, calls)
    requires n <= i < |calls| && calls[i].key != ""
    ensures KeyOf(calls[i]) !in StateAt(r, calls, n).idem
  {
    if n > 0 {
      FreshKeyIsFree(r, calls, n - 1, i);
      IdemAfter(StateAt(r, calls, n - 1), calls[n - 1]);
    }
  }

  lemma {:induction false} FreshRunStates(r: Redis, calls: seq<Call>, n: nat)
    requires FreshKeys(r, calls)
    requires n <= |calls|
    ensures StateAt(r, calls, n).stock == PlainStateAt(r, calls, n).stock
    ensures StateAt(r, calls, n).count == PlainStateAt(r, calls, n).count
  {
    if n > 0 {
      FreshRunStates(r, calls, n - 1);
      if calls[n - 1].key != "" {
        FreshKeyIsFree(r, calls, n - 1, n - 1);
      }
      SameBuy(StateAt(r, calls, n - 1), PlainStateAt(r, calls, n - 1), calls[n - 1]);
    }
  }

  /** On fresh keys the idempotent script refines the plain one: same stocks, same counters, same replies, call by call. */
  lemma FreshKeysRefinePlain(r: Redis, calls: seq<Call>, n: nat)
    requires FreshKeys(r, calls)
    requires n < |calls|
    ensures StateAt(r, calls, n + 1).stock == PlainStateAt(r, calls, n + 1).stock
    ensures StateAt(r, calls, n + 1).count == PlainStateAt(r, calls, n + 1).count
    ensures ReplyAt(r, calls, n) == Buy(PlainStateAt(r, calls, n), calls[n].q).1
  {
    FreshRunStates(r, calls, n);
    if calls[n].key != "" {
      FreshKeyIsFree(r, calls, n, n);
    }
    SameBuy(StateAt(r, calls, n), PlainStateAt(r, calls, n), calls[n]);
  }
}
