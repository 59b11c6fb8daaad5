/** Whole runs: conservation with and without failures, and what the reconciler may and may not do. */
module ProtocolRuns {
  import opened RedisScripts
  import opened OrderStore
  import opened OrderHandlers
  import opened SeckillProtocol
  import opened MapSums
  import opened ProtocolShape
  import opened ProtocolLaws

  function Empty(shards: Shards): System {
    System(Stores(Redis(map[], map[], map[]), Db(shards, map[], map[])), multiset{}, multiset{}, map[], {}, map[], map[])
  }

  lemma EmptyIsExact(shards: Shards)
    ensures Exact(Empty(shards))
  {
  }

  // ---------------------------------------------------------------------------------------------
  // One step
  // ---------------------------------------------------------------------------------------------

  /** The quantities that a step may lose are never negative. */
  ghost predicate LossesPositive(s: System, step: Step) {
    && (GivenBack(s, step).Some? ==>
          GivenBack(s, step).value in s.stores.db.orders && s.stores.db.orders[GivenBack(s, step).value].quantity > 0)
    && (forall slot :: slot in s.flight ==> s.flight[slot].quantity > 0)
  }

  /** Apart from the reconciler's correction nothing is ever leaked in the other direction, and clean steps leak nothing. */
  lemma LeaksAreLosses(s: System, step: Step, p: ProductId, b: Buyer)
    requires Enabled(s, step) && LossesPositive(s, step)
    ensures !step.Overwrite? ==> Leak(s, step, p) >= 0
    ensures Stuck(s, step, b) >= 0
    ensures Clean(s, step) && !step.Overwrite? ==> Leak(s, step, p) == 0
    ensures Clean(s, step) ==> Stuck(s, step, b) == 0
  {
    if step.Reserve? {
      BuyShape(s.stores.redis, step.q, step.key, step.now);
    }
  }

  lemma ShapeLosses(s: System, step: Step)
    requires Shape(s) && Enabled(s, step)
    ensures LossesPositive(s, step)
  {
  }

  lemma StepKeepsSound(s: System, step: Step)
    requires Sound(s) && Enabled(s, step) && Admissible(s, step)
    ensures Sound(Apply(s, step))
    ensures Exact(s) && Clean(s, step) ==> Exact(Apply(s, step))
  {
    var s' := Apply(s, step);
    StepKeepsShape(s, step);
    forall p | p in s'.catalog
      ensures StockSound(s', p)
      ensures Exact(s) && Clean(s, step) ==> Gap(s', p) == 0
    {
      GapAfter(s, step, p);
    }
    forall b
      ensures CountSound(s', b)
      ensures Exact(s) && Clean(s, step) ==> CountGap(s', b) == 0
    {
      CountGapAfter(s, step, b);
    }
  }

  lemma GapAfter(s: System, step: Step, p: ProductId)
    requires Sound(s) && Enabled(s, step) && Admissible(s, step) && p in Apply(s, step).catalog
    ensures StockSound(Apply(s, step), p)
    ensures Exact(s) && Clean(s, step) ==> Gap(Apply(s, step), p) == 0
  {
    var b := Buyer(0, p);
    StepBooks(s, step, p, b);
    ShapeLosses(s, step);
    LeaksAreLosses(s, step, p, b);
    if p in s.catalog {
      assert StockSound(s, p);
    } else {
      NothingOf(s, p);
    }
  }

  lemma CountGapAfter(s: System, step: Step, b: Buyer)
    requires Sound(s) && Enabled(s, step) && Admissible(s, step)
    ensures CountSound(Apply(s, step), b)
    ensures Exact(s) && Clean(s, step) ==> CountGap(Apply(s, step), b) == 0
  {
    var s' := Apply(s, step);
    assert CountSound(s, b);
    if s'.catalog != map[] {
      var p := SomeKey(s'.catalog);
      ShapeLosses(s, step);
      StepBooks(s, step, p, b);
      LeaksAreLosses(s, step, p, b);
    } else {
      NothingHappens(s, step);
    }
  }

  /** Without products no step changes the stores or the flight table. */
  lemma NothingHappens(s: System, step: Step)
    requires Shape(s) && Enabled(s, step) && Apply(s, step).catalog == map[]
    ensures Apply(s, step).stores == s.stores && Apply(s, step).flight == s.flight
  {
    assert s.catalog.Keys <= Apply(s, step).catalog.Keys;
    forall row | row in s.stores.db.orders ensures s.stores.db.orders[row].product in s.catalog {
      assert GoodOrder(s, row, s.stores.db.orders[row]);
    }
    assert s.stores.db.orders == map[];
    assert s.flight == map[];
    forall m | m in s.queue ensures RowOf(s.stores.db, m) in s.stores.db.orders || Sent(RowOf(s.stores.db, m)) in s.flight {}
  }

  // ---------------------------------------------------------------------------------------------
  // Runs
  // ---------------------------------------------------------------------------------------------

  /** Any interleaving of steps the environment can take. */
  ghost predicate Runs(s: System, steps: seq<Step>)
    decreases |steps|
  {
    steps == [] || (Enabled(s, steps[0]) && Runs(Apply(s, steps[0]), steps[1..]))
  }

  ghost predicate AdmissibleRun(s: System, steps: seq<Step>)
    ensures AdmissibleRun(s, steps) ==> Runs(s, steps)
    decreases |steps|
  {
    steps == [] || (Enabled(s, steps[0]) && Admissible(s, steps[0]) && AdmissibleRun(Apply(s, steps[0]), steps[1..]))
  }

  ghost predicate CleanRun(s: System, steps: seq<Step>)
    ensures CleanRun(s, steps) ==> AdmissibleRun(s, steps)
    decreases |steps|
  {
    steps == [] || (Enabled(s, steps[0]) && Clean(s, steps[0]) && CleanRun(Apply(s, steps[0]), steps[1..]))
  }

  ghost function Final(s: System, steps: seq<Step>): System
    requires Runs(s, steps)
    decreases |steps|
  {
    if steps == [] then s else Final(Apply(s, steps[0]), steps[1..])
  }

  /** The structure needs no assumption about failures, callers or reconciliations. */
  lemma {:induction false} RunKeepsShape(s: System, steps: seq<Step>)
    requires Shape(s) && Runs(s, steps)
    ensures Shape(Final(s, steps))
    decreases |steps|
  {
    if steps != [] {
      StepKeepsShape(s, steps[0]);
      RunKeepsShape(Apply(s, steps[0]), steps[1..]);
    }
  }

  lemma {:induction false} RunExtends(s: System, steps: seq<Step>, step: Step)
    requires Runs(s, steps) && Enabled(Final(s, steps), step)
    ensures Runs(s, steps + [step]) && Final(s, steps + [step]) == Apply(Final(s, steps), step)
    decreases |steps|
  {
    if steps == [] {
      assert [step][1..] == [];
      assert Runs(Apply(s, step), []);
    } else {
      RunExtends(Apply(s, steps[0]), steps[1..], step);
      assert (steps + [step])[1..] == steps[1..] + [step];
    }
  }

  /** Lost compensations and dropped messages never oversell: the MySQL equality stays exact and what
      Redis offers plus what is in flight stays within MySQL's stock. */
  lemma {:induction false} RunStaysSound(s: System, steps: seq<Step>)
    requires Sound(s) && AdmissibleRun(s, steps)
    ensures Sound(Final(s, steps))
    decreases |steps|
  {
    if steps != [] {
      StepKeepsSound(s, steps[0]);
      RunStaysSound(Apply(s, steps[0]), steps[1..]);
    }
  }

  lemma {:induction false} RunStaysExact(s: System, steps: seq<Step>)
    requires Exact(s) && CleanRun(s, steps)
    ensures Exact(Final(s, steps))
    decreases |steps|
  {
    if steps != [] {
      StepKeepsSound(s, steps[0]);
      RunStaysExact(Apply(s, steps[0]), steps[1..]);
    }
  }

  /** Conservation over every clean run from the empty system. */
  lemma {:induction false} Conservation(shards: Shards, steps: seq<Step>, p: ProductId, b: Buyer)
    requires CleanRun(Empty(shards), steps)
    requires p in Final(Empty(shards), steps).catalog
    ensures var s := Final(Empty(shards), steps);
      && RemainOf(s, p) == StockOf(s.stores.redis, p) + InFlight(s, OfProduct(p))
      && RemainOf(s, p) + Ordered(s, OfProduct(p)) == s.catalog[p].total
      && StockOf(s.stores.redis, p) >= 0 && InFlight(s, OfProduct(p)) >= 0 && Ordered(s, OfProduct(p)) >= 0
      && CountOf(s.stores.redis, b) == InFlight(s, OfBuyer(b)) + Ordered(s, OfBuyer(b))
      && (b.product == p ==> CountOf(s.stores.redis, b) <= s.catalog[p].limit)
  {
    EmptyIsExact(shards);
    RunStaysExact(Empty(shards), steps);
    var s := Final(Empty(shards), steps);
    assert StockSound(s, p) && CountSound(s, b);
    SumsNonNegative(s, OfProduct(p));
  }

  /** However many compensations fail and messages are dropped, no product is oversold, no buyer holds more
      than the limit, and no reserved order is refused by the MySQL stock guard. */
  lemma {:induction false} NeverOversold(shards: Shards, steps: seq<Step>, p: ProductId, b: Buyer)
    requires AdmissibleRun(Empty(shards), steps)
    requires p in Final(Empty(shards), steps).catalog && b.product == p
    ensures var s := Final(Empty(shards), steps);
      && Ordered(s, OfProduct(p)) + InFlight(s, OfProduct(p)) + StockOf(s.stores.redis, p) <= s.catalog[p].total
      && RemainOf(s, p) + Ordered(s, OfProduct(p)) == s.catalog[p].total
      && InFlight(s, OfBuyer(b)) + Ordered(s, OfBuyer(b)) <= s.catalog[p].limit
      && forall slot :: slot in s.flight && s.flight[slot].product == p ==> s.flight[slot].quantity <= RemainOf(s, p)
  {
    EmptyIsExact(shards);
    RunStaysSound(Empty(shards), steps);
    var s := Final(Empty(shards), steps);
    assert StockSound(s, p) && CountSound(s, b);
    SumsNonNegative(s, OfProduct(p));
    forall slot | slot in s.flight && s.flight[slot].product == p
      ensures s.flight[slot].quantity <= RemainOf(s, p)
    {
      GuardNeverRefuses(s, slot);
    }
  }

  /** Total quantity of `p` leaked along a run. */
  ghost function Leaked(s: System, steps: seq<Step>, p: ProductId): int
    requires Runs(s, steps)
    decreases |steps|
  {
    if steps == [] then 0 else Leak(s, steps[0], p) + Leaked(Apply(s, steps[0]), steps[1..], p)
  }

  ghost function StuckCount(s: System, steps: seq<Step>, b: Buyer): int
    requires Runs(s, steps)
    decreases |steps|
  {
    if steps == [] then 0 else Stuck(s, steps[0], b) + StuckCount(Apply(s, steps[0]), steps[1..], b)
  }

  /** The shortfall of Redis is the sum of the single leaks, to the unit. */
  lemma {:induction false} LeakLedger(s: System, steps: seq<Step>, p: ProductId, b: Buyer)
    requires Sound(s) && AdmissibleRun(s, steps) && p in s.catalog
    ensures p in Final(s, steps).catalog
    ensures Gap(Final(s, steps), p) == Gap(s, p) + Leaked(s, steps, p)
    ensures CountGap(Final(s, steps), b) == CountGap(s, b) + StuckCount(s, steps, b)
    decreases |steps|
  {
    if steps != [] {
      StepBooks(s, steps[0], p, b);
      StepKeepsSound(s, steps[0]);
      LeakLedger(Apply(s, steps[0]), steps[1..], p, b);
    }
  }

  lemma NoGapIsExact(s: System)
    requires Sound(s)
    requires forall p :: p in s.catalog ==> Gap(s, p) == 0
    requires forall b :: CountGap(s, b) == 0
    ensures Exact(s)
  {
  }

  lemma ReserveGaps(s: System, step: Step, p: ProductId, b: Buyer)
    requires Exact(s) && Enabled(s, step) && step.Reserve? && p in s.catalog
    ensures Gap(Apply(s, step), p) == Leak(s, step, p) && CountGap(Apply(s, step), b) == 0
  {
    assert Gap(s, p) == 0 && CountGap(s, b) == 0;
    StepBooks(s, step, p, b);
  }

  /** What a reservation leaks: the quantity, if no guard refuses it and the counter lives less than a second. */
  lemma ReserveLeak(s: System, step: Step, p: ProductId)
    requires Enabled(s, step) && step.Reserve?
    ensures Leak(s, step, p)
      == if p == step.q.product && !Rejected(s.stores.redis, step.q, step.key, step.now) && step.q.expireSec <= 0
         then step.q.quantity else 0
  {
  }

  lemma ReserveStaysExact(s: System, step: Step)
    requires Exact(s) && Enabled(s, step) && step.Reserve?
    requires Rejected(s.stores.redis, step.q, step.key, step.now) || step.q.expireSec > 0
    ensures Exact(Apply(s, step))
  {
    StepKeepsSound(s, step);
    var s' := Apply(s, step);
    forall p | p in s'.catalog ensures Gap(s', p) == 0 {
      ReserveGaps(s, step, p, BuyerOf(step.q));
      ReserveLeak(s, step, p);
    }
    forall b ensures CountGap(s', b) == 0 {
      ReserveGaps(s, step, step.q.product, b);
    }
    NoGapIsExact(s');
  }

  /** A reservation keeps the books exact exactly when a guard refuses it or its counter lives at least a second;
      otherwise the stock it takes belongs to nobody. */
  lemma ReserveExactly(s: System, step: Step)
    requires Exact(s) && Enabled(s, step) && step.Reserve?
    ensures Exact(Apply(s, step)) <==>
      Rejected(s.stores.redis, step.q, step.key, step.now) || step.q.expireSec > 0
    ensures Sound(Apply(s, step))
  {
    if Rejected(s.stores.redis, step.q, step.key, step.now) || step.q.expireSec > 0 {
      ReserveStaysExact(s, step);
    } else {
      StepKeepsSound(s, step);
      ReserveGaps(s, step, step.q.product, BuyerOf(step.q));
      ReserveLeak(s, step, step.q.product);
      GapIsNotExact(Apply(s, step), step.q.product);
    }
  }

  lemma GapIsNotExact(s: System, p: ProductId)
    requires p in s.catalog && Gap(s, p) != 0
    ensures !Exact(s)
  {
  }

  // ---------------------------------------------------------------------------------------------
  // The reconciler
  // ---------------------------------------------------------------------------------------------

  /** Writing a listed stock into Redis is safe exactly when it is not above what is free by then: MySQL's stock
      less what is in flight. The reconciler checks neither, it only compares with Redis. */
  lemma OverwriteSafeExactly(s: System, pass: nat, p: ProductId)
    requires Sound(s) && Enabled(s, Overwrite(pass, p))
    ensures Sound(Apply(s, Overwrite(pass, p))) <==> 0 <= s.passes[pass][p] <= Free(s, p)
  {
    var step := Overwrite(pass, p);
    if Admissible(s, step) {
      StepKeepsSound(s, step);
    }
    if Sound(Apply(s, step)) {
      assert StockSound(Apply(s, step), p);
    }
  }

  /** In exact books the only harmless overwrite is the one that changes nothing. */
  lemma OverwriteExactly(s: System, pass: nat, p: ProductId)
    requires Exact(s) && Enabled(s, Overwrite(pass, p))
    ensures Exact(Apply(s, Overwrite(pass, p))) <==> s.passes[pass][p] == StockOf(s.stores.redis, p)
  {
    var step := Overwrite(pass, p);
    assert StockSound(s, p) && Gap(s, p) == 0;
    if Exact(Apply(s, step)) {
      assert Gap(Apply(s, step), p) == 0;
    }
    if s.passes[pass][p] == StockOf(s.stores.redis, p) {
      StepKeepsSound(s, step);
    }
  }

  /** Even when MySQL's stock has not moved since it was listed, the overwrite is safe exactly when nothing of the
      product is in flight: otherwise stock that is already reserved is offered a second time. */
  lemma FreshOverwriteSafeExactly(s: System, pass: nat, p: ProductId)
    requires Sound(s) && Enabled(s, Overwrite(pass, p)) && s.passes[pass][p] == RemainOf(s, p)
    ensures Sound(Apply(s, Overwrite(pass, p))) <==> InFlight(s, OfProduct(p)) == 0
  {
    OverwriteSafeExactly(s, pass, p);
    SumsNonNegative(s, OfProduct(p));
    assert StockSound(s, p);
  }

  /** If in addition nothing of the product is in flight, the overwrite restores full equality. */
  lemma OverwriteHeals(s: System, pass: nat, p: ProductId)
    requires Sound(s) && Enabled(s, Overwrite(pass, p)) && s.passes[pass][p] == RemainOf(s, p)
    requires InFlight(s, OfProduct(p)) == 0
    ensures var healed := Apply(s, Overwrite(pass, p));
      && Sound(healed)
      && StockOf(healed.stores.redis, p) == RemainOf(healed, p) == RemainOf(s, p)
      && Gap(healed, p) == 0
  {
    FreshOverwriteSafeExactly(s, pass, p);
  }

  /** The overwrites of a pass, product by product. */
  function Overwrites(pass: nat, ids: seq<ProductId>): (steps: seq<Step>)
    ensures |steps| == |ids|
  {
    seq(|ids|, (i: nat) requires i < |ids| => Overwrite(pass, ids[i]))
  }

  /** The pass has listed what MySQL still holds, and no purchase is in flight. */
  ghost predicate Quiet(s: System, pass: nat) {
    s.flight == map[] && pass in s.passes && s.passes[pass] == s.stores.db.remain
  }

  /** Redis offers all that MySQL has. */
  predicate Equal(s: System, p: ProductId) {
    StockOf(s.stores.redis, p) == RemainOf(s, p)
  }

  lemma EqualClosesGap(s: System, p: ProductId)
    requires s.flight == map[]
    ensures Equal(s, p) <==> Gap(s, p) == 0
  {
  }

  /** Redis offers MySQL's stock of these products; nothing else differs. */
  ghost predicate HealedFor(s: System, f: System, ids: seq<ProductId>) {
    && f == s.(stores := s.stores.(redis := s.stores.redis.(stock := f.stores.redis.stock)))
    && forall p :: StockOf(f.stores.redis, p) == if p in ids then RemainOf(s, p) else StockOf(s.stores.redis, p)
  }

  lemma QuietOverwrite(s: System, pass: nat, p: ProductId)
    requires Sound(s) && Quiet(s, pass) && p in s.catalog
    ensures Enabled(s, Overwrite(pass, p))
    ensures var s' := Apply(s, Overwrite(pass, p)); Sound(s') && Quiet(s', pass) && HealedFor(s, s', [p])
  {
    assert p in s.stores.db.remain;
    assert InFlight(s, OfProduct(p)) == 0;
    OverwriteHeals(s, pass, p);
  }

  lemma HealedOn(s: System, s': System, f: System, p: ProductId, ids: seq<ProductId>)
    requires HealedFor(s, s', [p]) && HealedFor(s', f, ids)
    ensures HealedFor(s, f, [p] + ids)
  {
  }

  /** With nothing in flight a pass over any products gives all of them MySQL's stock, keeps the laws at every
      overwrite, and leaves everything else as it is. */
  lemma {:induction false} OverwritesHeal(s: System, pass: nat, ids: seq<ProductId>)
    requires Sound(s) && Quiet(s, pass) && forall i :: 0 <= i < |ids| ==> ids[i] in s.catalog
    ensures Runs(s, Overwrites(pass, ids))
    ensures var f := Final(s, Overwrites(pass, ids)); Sound(f) && HealedFor(s, f, ids)
    decreases |ids|
  {
    var steps := Overwrites(pass, ids);
    if ids != [] {
      var s' := Apply(s, steps[0]);
      QuietOverwrite(s, pass, ids[0]);
      OverwritesHeal(s', pass, ids[1..]);
      assert steps[1..] == Overwrites(pass, ids[1..]);
      HealedOn(s, s', Final(s', steps[1..]), ids[0], ids[1..]);
      assert ids == [ids[0]] + ids[1..];
    }
  }

  /** A pass never lists a product that is not in the catalog, so being catalogued excludes no overwrite. */
  ghost predicate PassesKnown(s: System) {
    forall pass :: pass in s.passes ==> s.passes[pass].Keys <= s.catalog.Keys
  }

  lemma {:induction false} PassesStayKnown(s: System, steps: seq<Step>)
    requires Shape(s) && PassesKnown(s) && Runs(s, steps)
    ensures PassesKnown(Final(s, steps))
    decreases |steps|
  {
    if steps != [] {
      StepKeepsShape(s, steps[0]);
      PassesStayKnown(Apply(s, steps[0]), steps[1..]);
    }
  }

  // ---------------------------------------------------------------------------------------------
  // Handlers outside the admissible cases
  // ---------------------------------------------------------------------------------------------

  /** Returning an order while the counter of someone else is taken down. */
  lemma ForeignReturn(s: System, step: Step)
    requires (step.Cancel? || step.Refund?) && step.calls == Calls(true, true, true, true)
    requires GivenBack(s, step).Some? && GivenBack(s, step).value in s.stores.db.orders
    ensures var o := s.stores.db.orders[GivenBack(s, step).value];
      var owner := Buyer(o.user, o.product);
      o.user != step.caller ==> CountGap(Apply(s, step), owner) == CountGap(s, owner) + o.quantity
  {
    var row := GivenBack(s, step).value;
    var o := s.stores.db.orders[row];
    var status := if step.Cancel? then Cancelled else OrderStore.Refunded;
    StatusSums(s, Apply(s, step), row, status, OfBuyer(Buyer(o.user, o.product)));
  }

  /** An order found through another user's table entry is cancelled or refunded against the wrong counter:
      with every store call succeeding, the books stay exact exactly when the caller owns the order. */
  lemma ForeignReturnExactly(s: System, step: Step)
    requires Exact(s) && (step.Cancel? || step.Refund?)
    requires step.calls == Calls(true, true, true, true) && GivenBack(s, step).Some?
    ensures Exact(Apply(s, step)) <==> s.stores.db.orders[GivenBack(s, step).value].user == step.caller
  {
    var o := s.stores.db.orders[GivenBack(s, step).value];
    ShapeLosses(s, step);
    if o.user == step.caller {
      StepKeepsSound(s, step);
    } else {
      ForeignReturn(s, step);
      assert CountGap(Apply(s, step), Buyer(o.user, o.product)) == o.quantity;
    }
  }

  lemma RestockNeeded(s: System, step: Step)
    requires Enabled(s, step) && IsReturn(step) && GivenBack(s, step).Some?
    requires GivenBack(s, step).value in s.stores.db.orders
    requires step.Expire? ==> Agrees(step.m, s.stores.db.orders[GivenBack(s, step).value])
    requires s.stores.db.orders[GivenBack(s, step).value].product in s.stores.db.remain
    ensures var o := s.stores.db.orders[GivenBack(s, step).value]; var s' := Apply(s, step);
      && s'.catalog == s.catalog
      && Ordered(s', OfProduct(o.product)) == Ordered(s, OfProduct(o.product)) - o.quantity
      && RemainOf(s', o.product) == RemainOf(s, o.product) + (if step.calls.restock then o.quantity else 0)
  {
    var row := GivenBack(s, step).value;
    var status := if step.Cancel? then Cancelled else if step.Refund? then OrderStore.Refunded else Timeout;
    StatusSums(s, Apply(s, step), row, status, OfProduct(s.stores.db.orders[row].product));
  }

  /** A handler that has written the final status keeps the MySQL equality exactly when its restock succeeds;
      the failure is not retried, because the status is no longer Pending or Paid. */
  lemma RestockNeededExactly(s: System, step: Step)
    requires Sound(s) && Enabled(s, step) && IsReturn(step) && GivenBack(s, step).Some?
    ensures var o := s.stores.db.orders[GivenBack(s, step).value];
      o.product in s.catalog && (MySqlLaw(Apply(s, step), o.product) <==> step.calls.restock)
  {
    var row := GivenBack(s, step).value;
    ReturnsAreCovered(s, step);
    assert GoodOrder(s, row, s.stores.db.orders[row]);
    assert StockSound(s, s.stores.db.orders[row].product);
    RestockNeeded(s, step);
  }
}
