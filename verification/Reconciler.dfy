/** The periodic comparison of Redis stock with MySQL stock, proved to be steps of the protocol. */
module Reconciler {
  import opened RedisScripts
  import opened SeckillProtocol
  import opened ProtocolRuns
  import opened SeckillService

  const ATTEMPTS := 3

  /** Where an attempt on one product breaks off, if it does. */
  datatype Attempt = ReadFails | RecordFails | PreloadFails | Completes

  datatype Target = Target(id: ProductId, remain: int)

  /** Outcome for one product: its Redis stock afterwards, and whether it was given up. */
  datatype Verdict = Verdict(stock: int, diffs: nat, fixes: nat, done: bool)

  /** An attempt on a product whose stocks agree needs only the read. */
  predicate Succeeds(stock: int, remain: int, a: Attempt) {
    a == Completes || (stock == remain && a != ReadFails)
  }

  function Reconciled(stock: int, remain: int, attempts: seq<Attempt>): Verdict {
    if attempts == [] then Verdict(stock, 0, 0, false)
    else
      var diff := if attempts[0] != ReadFails && stock != remain then 1 else 0;
      if Succeeds(stock, remain, attempts[0]) then Verdict(remain, diff, diff, true)
      else
        var rest := Reconciled(stock, remain, attempts[1..]);
        rest.(diffs := rest.diffs + diff)
  }

  /** A product ends equal to MySQL exactly when it started equal or one of its attempts completes; its
      stock is either corrected or untouched, and each correction is counted once. */
  lemma {:induction false} ReconciledExactly(stock: int, remain: int, attempts: seq<Attempt>)
    ensures var v := Reconciled(stock, remain, attempts);
      && (v.stock == remain <==> stock == remain || Completes in attempts)
      && (v.stock == remain || v.stock == stock)
      && v.fixes == (if stock != remain && Completes in attempts then 1 else 0)
      && v.fixes <= v.diffs <= |attempts|
      && (v.diffs == 0 <== stock == remain)
  {
    if attempts != [] {
      ReconciledExactly(stock, remain, attempts[1..]);
    }
  }

  /** A product is done with exactly if one of its attempts succeeds: completes, or finds the stocks equal. */
  lemma {:induction false} DoneExactly(stock: int, remain: int, attempts: seq<Attempt>)
    ensures Reconciled(stock, remain, attempts).done
      <==> exists i :: 0 <= i < |attempts| && (attempts[i] == Completes || (stock == remain && attempts[i] != ReadFails))
  {
    if attempts != [] {
      DoneExactly(stock, remain, attempts[1..]);
      assert attempts == [attempts[0]] + attempts[1..];
      if Reconciled(stock, remain, attempts[1..]).done {
        var i :| 0 <= i < |attempts[1..]|
                 && (attempts[1..][i] == Completes || (stock == remain && attempts[1..][i] != ReadFails));
        assert attempts[i + 1] == attempts[1..][i];
      }
    }
  }

  /** The attempts that are made: up to the first that completes, if any does. */
  ghost predicate Made(attempts: seq<Attempt>, n: nat) {
    && n <= |attempts|
    && (n < |attempts| ==> n > 0 && attempts[n - 1] == Completes)
    && (forall i :: 0 <= i < n - 1 ==> attempts[i] != Completes)
  }

  /** On a product that differs every attempt made counts the difference again, unless its read fails. */
  lemma {:induction false} DiffsExactly(stock: int, remain: int, attempts: seq<Attempt>) returns (n: nat)
    requires stock != remain
    ensures Made(attempts, n)
    ensures Reconciled(stock, remain, attempts).diffs == n - multiset(attempts[..n])[ReadFails]
  {
    if attempts == [] {
      n := 0;
    } else if attempts[0] == Completes {
      n := 1;
      assert attempts[..1] == [attempts[0]];
    } else {
      n := DiffsExactly(stock, remain, attempts[1..]);
      assert attempts[..n + 1] == [attempts[0]] + attempts[1..][..n];
      n := n + 1;
    }
  }

  lemma {:induction false} DoneMeansEqual(stock: int, remain: int, attempts: seq<Attempt>)
    ensures Reconciled(stock, remain, attempts).done ==> Reconciled(stock, remain, attempts).stock == remain
  {
    if attempts != [] {
      DoneMeansEqual(stock, remain, attempts[1..]);
    }
  }

  function Plan(targets: seq<Target>, attempts: seq<seq<Attempt>>, r: Redis, i: nat): Verdict
    requires i < |targets| == |attempts|
  {
    Reconciled(StockOf(r, targets[i].id), targets[i].remain, attempts[i])
  }

  function DiffsUpTo(targets: seq<Target>, attempts: seq<seq<Attempt>>, r: Redis, n: nat): nat
    requires n <= |targets| == |attempts|
  {
    if n == 0 then 0 else DiffsUpTo(targets, attempts, r, n - 1) + Plan(targets, attempts, r, n - 1).diffs
  }

  function FixesUpTo(targets: seq<Target>, attempts: seq<seq<Attempt>>, r: Redis, n: nat): nat
    requires n <= |targets| == |attempts|
  {
    if n == 0 then 0 else FixesUpTo(targets, attempts, r, n - 1) + Plan(targets, attempts, r, n - 1).fixes
  }

  /** The overwrite that the attempts on one product come to, if any. */
  function Fixing(v: Verdict, pass: nat, p: ProductId): seq<Step> {
    if v.fixes > 0 then [Overwrite(pass, p)] else []
  }

  /** The products that a pass corrects, up to its n-th. */
  function FixedIds(targets: seq<Target>, attempts: seq<seq<Attempt>>, r: Redis, n: nat): (ids: seq<ProductId>)
    requires n <= |targets| == |attempts|
    ensures forall p :: p in ids ==> exists i :: 0 <= i < n && targets[i].id == p
    ensures forall i :: 0 <= i < n && Plan(targets, attempts, r, i).fixes > 0 ==> targets[i].id in ids
  {
    if n == 0 then []
    else
      FixedIds(targets, attempts, r, n - 1) + if Plan(targets, attempts, r, n - 1).fixes > 0 then [targets[n - 1].id] else []
  }

  /** The protocol steps of a pass up to its n-th product. */
  function PassSteps(targets: seq<Target>, attempts: seq<seq<Attempt>>, r: Redis, pass: nat, n: nat): seq<Step>
    requires n <= |targets| == |attempts|
  {
    [ReadStocks(pass)] + Overwrites(pass, FixedIds(targets, attempts, r, n))
  }

  lemma FixingAppends(before: seq<Step>, v: Verdict, pass: nat, ids: seq<ProductId>, p: ProductId)
    ensures before + Overwrites(pass, ids) + Fixing(v, pass, p)
         == before + Overwrites(pass, ids + if v.fixes > 0 then [p] else [])
  {
    if v.fixes > 0 {
      assert Overwrites(pass, ids + [p]) == Overwrites(pass, ids) + [Overwrite(pass, p)];
    } else {
      assert ids + [] == ids;
    }
  }

  ghost predicate DistinctIds(targets: seq<Target>) {
    forall i, j :: 0 <= i < j < |targets| ==> targets[i].id != targets[j].id
  }

  /** The product list is what MySQL holds when the pass starts. */
  ghost predicate Lists(targets: seq<Target>, remain: map<ProductId, int>) {
    DistinctIds(targets) && forall i :: 0 <= i < |targets| ==> targets[i].id in remain && remain[targets[i].id] == targets[i].remain
  }

  ghost predicate Listed(s: System, pass: nat, target: Target) {
    Enabled(s, Overwrite(pass, target.id)) && s.passes[pass][target.id] == target.remain
  }

  /** An attempt that succeeds on a difference is the overwrite step; any other leaves the system as it was. */
  method ReconcileSingleProduct(backend: Backend, ghost pass: nat, target: Target, attempt: Attempt, diffIn: nat, fixIn: nat)
    returns (ok: bool, diffCount: nat, fixCount: nat)
    requires backend.Valid() && Listed(backend.View(), pass, target)
    modifies backend.redis`stock
    ensures var before := StockOf(old(backend.redis.View()), target.id);
      && ok == Succeeds(before, target.remain, attempt)
      && diffCount == diffIn + (if attempt != ReadFails && before != target.remain then 1 else 0)
      && fixCount == fixIn + (if ok && before != target.remain then 1 else 0)
      && backend.View() == (if ok && before != target.remain
                            then Apply(old(backend.View()), Overwrite(pass, target.id)) else old(backend.View()))
  {
    diffCount, fixCount := diffIn, fixIn;
    if attempt == ReadFails {
      return false, diffCount, fixCount;
    }
    var redisStock := backend.redis.GetStock(target.id);
    if redisStock != target.remain {
      diffCount := diffCount + 1;
      if attempt == RecordFails {
        return false, diffCount, fixCount;
      }
      if attempt == PreloadFails {
        return false, diffCount, fixCount;
      }
      backend.redis.PreloadStock(target.id, target.remain);
      fixCount := fixCount + 1;
    }
    return true, diffCount, fixCount;
  }

  /** At most three attempts, all with the stock listed at the start of the pass. */
  method ReconcileWithRetries(backend: Backend, ghost pass: nat, target: Target, attempts: seq<Attempt>, diffIn: nat, fixIn: nat)
    returns (reconciled: bool, diffCount: nat, fixCount: nat)
    requires |attempts| == ATTEMPTS
    requires backend.Valid() && Listed(backend.View(), pass, target)
    modifies backend.redis`stock
    ensures var v := Reconciled(StockOf(old(backend.redis.View()), target.id), target.remain, attempts);
      && reconciled == v.done && diffCount == diffIn + v.diffs && fixCount == fixIn + v.fixes
      && StockOf(backend.redis.View(), target.id) == v.stock
      && backend.View() == (if v.fixes > 0 then Apply(old(backend.View()), Overwrite(pass, target.id)) else old(backend.View()))
  {
    ghost var before := StockOf(backend.redis.View(), target.id);
    reconciled, diffCount, fixCount := false, diffIn, fixIn;
    var attempt := 0;
    while attempt < ATTEMPTS
      invariant 0 <= attempt <= ATTEMPTS && !reconciled
      invariant backend.View() == old(backend.View())
      invariant var rest := Reconciled(before, target.remain, attempts[attempt..]);
        var whole := Reconciled(before, target.remain, attempts);
        && whole.done == rest.done && whole.stock == rest.stock
        && whole.fixes + fixIn == rest.fixes + fixCount && whole.diffs + diffIn == rest.diffs + diffCount
        && fixCount == fixIn
    {
      assert attempts[attempt..][1..] == attempts[attempt + 1..];
      reconciled, diffCount, fixCount := ReconcileSingleProduct(backend, pass, target, attempts[attempt], diffCount, fixCount);
      if reconciled {
        break;
      }
      attempt := attempt + 1;
    }
  }

  /** One pass. It does nothing without the lock of its instance or without the product list; otherwise it is a run
      of the protocol: one listing, then one overwrite for each product that differs and has an attempt completed. */
  method RunReconciliation(backend: Backend, ghost pass: nat, locked: bool, listOk: bool, targets: seq<Target>,
                           attempts: seq<seq<Attempt>>)
    returns (diffCount: nat, fixCount: nat, skipped: set<ProductId>)
    requires backend.Valid() && backend.db.remain.Keys <= backend.catalog.Keys && Lists(targets, backend.db.remain)
    requires |attempts| == |targets| && forall i :: 0 <= i < |attempts| ==> |attempts[i]| == ATTEMPTS
    modifies backend`passes, backend.redis`stock
    ensures !locked || !listOk ==> backend.View() == old(backend.View()) && diffCount == fixCount == 0 && skipped == {}
    ensures locked && listOk ==>
      var steps := PassSteps(targets, attempts, old(backend.redis.View()), pass, |targets|);
      Runs(old(backend.View()), steps) && backend.View() == Final(old(backend.View()), steps)
    ensures locked && listOk ==> forall i :: 0 <= i < |targets| ==>
      var v := Plan(targets, attempts, old(backend.redis.View()), i);
      StockOf(backend.redis.View(), targets[i].id) == v.stock && (targets[i].id in skipped <==> !v.done)
    ensures locked && listOk ==> diffCount == DiffsUpTo(targets, attempts, old(backend.redis.View()), |targets|)
    ensures locked && listOk ==> fixCount == FixesUpTo(targets, attempts, old(backend.redis.View()), |targets|)
  {
    if !locked || !listOk {
      return 0, 0, {};
    }
    ghost var start := backend.View();
    var _ := backend.ListStocks(pass);
    PassStarts(start, targets, attempts, pass);
    diffCount, fixCount, skipped := ReconcileAll(backend, start, pass, targets, attempts);
  }

  /** The loop over the listed products. */
  method ReconcileAll(backend: Backend, ghost start: System, ghost pass: nat, targets: seq<Target>, attempts: seq<seq<Attempt>>)
    returns (diffCount: nat, fixCount: nat, skipped: set<ProductId>)
    requires DistinctIds(targets)
    requires |attempts| == |targets| && forall i :: 0 <= i < |attempts| ==> |attempts[i]| == ATTEMPTS
    requires backend.Valid() && Passing(start, backend.View(), targets, attempts, pass, 0)
    modifies backend.redis`stock
    ensures Passing(start, backend.View(), targets, attempts, pass, |targets|)
    ensures Tallied(targets, attempts, start.stores.redis, |targets|, diffCount, fixCount, skipped)
  {
    diffCount, fixCount, skipped := 0, 0, {};
    for i := 0 to |targets|
      invariant Passing(start, backend.View(), targets, attempts, pass, i)
      invariant Tallied(targets, attempts, start.stores.redis, i, diffCount, fixCount, skipped)
    {
      diffCount, fixCount, skipped := ReconcileNext(backend, start, pass, targets, attempts, i, diffCount, fixCount, skipped);
    }
  }

  /** The body of the loop. */
  method ReconcileNext(backend: Backend, ghost start: System, ghost pass: nat, targets: seq<Target>,
                       attempts: seq<seq<Attempt>>, i: nat, diffIn: nat, fixIn: nat, skippedIn: set<ProductId>)
    returns (diffCount: nat, fixCount: nat, skipped: set<ProductId>)
    requires i < |targets| == |attempts| && |attempts[i]| == ATTEMPTS && DistinctIds(targets)
    requires backend.Valid() && Passing(start, backend.View(), targets, attempts, pass, i)
    requires Tallied(targets, attempts, start.stores.redis, i, diffIn, fixIn, skippedIn)
    modifies backend.redis`stock
    ensures Passing(start, backend.View(), targets, attempts, pass, i + 1)
    ensures Tallied(targets, attempts, start.stores.redis, i + 1, diffCount, fixCount, skipped)
  {
    ghost var s := backend.View();
    var reconciled;
    reconciled, diffCount, fixCount := ReconcileWithRetries(backend, pass, targets[i], attempts[i], diffIn, fixIn);
    PassContinues(start, s, backend.View(), targets, attempts, pass, i);
    TallyContinues(targets, attempts, start.stores.redis, i, diffIn, fixIn, skippedIn);
    skipped := if reconciled then skippedIn else skippedIn + {targets[i].id};
  }

  /** The counts of a pass after its first n products, and those among them that were given up. */
  ghost predicate Tallied(targets: seq<Target>, attempts: seq<seq<Attempt>>, r: Redis, n: nat,
                          diffs: nat, fixes: nat, skipped: set<ProductId>)
    requires n <= |targets| == |attempts|
  {
    && diffs == DiffsUpTo(targets, attempts, r, n) && fixes == FixesUpTo(targets, attempts, r, n)
    && (forall j :: 0 <= j < n ==> (targets[j].id in skipped <==> !Plan(targets, attempts, r, j).done))
    && (forall p :: p in skipped ==> exists j :: 0 <= j < n && targets[j].id == p)
  }

  lemma TallyContinues(targets: seq<Target>, attempts: seq<seq<Attempt>>, r: Redis, n: nat,
                       diffs: nat, fixes: nat, skipped: set<ProductId>)
    requires n < |targets| == |attempts| && DistinctIds(targets)
    requires Tallied(targets, attempts, r, n, diffs, fixes, skipped)
    ensures var v := Plan(targets, attempts, r, n);
      Tallied(targets, attempts, r, n + 1, diffs + v.diffs, fixes + v.fixes,
              if v.done then skipped else skipped + {targets[n].id})
  {
  }

  /** A pass after its first n products: the steps taken so far, the outcome of those products, the others untouched. */
  ghost predicate Passing(start: System, s: System, targets: seq<Target>, attempts: seq<seq<Attempt>>, pass: nat, n: nat)
    requires n <= |targets| == |attempts|
  {
    && SteppedTo(start, s, PassSteps(targets, attempts, start.stores.redis, pass, n))
    && AllListed(s, targets, pass)
    && Treated(s, targets, attempts, start.stores.redis, n)
    && Untouched(s, targets, start.stores.redis, n)
  }

  ghost predicate SteppedTo(start: System, s: System, steps: seq<Step>) {
    Runs(start, steps) && s == Final(start, steps)
  }

  ghost predicate AllListed(s: System, targets: seq<Target>, pass: nat) {
    forall i :: 0 <= i < |targets| ==> Listed(s, pass, targets[i])
  }

  ghost predicate Treated(s: System, targets: seq<Target>, attempts: seq<seq<Attempt>>, r: Redis, n: nat)
    requires n <= |targets| == |attempts|
  {
    forall i :: 0 <= i < n ==> StockOf(s.stores.redis, targets[i].id) == Plan(targets, attempts, r, i).stock
  }

  ghost predicate Untouched(s: System, targets: seq<Target>, r: Redis, n: nat) {
    forall i :: n <= i < |targets| ==> StockOf(s.stores.redis, targets[i].id) == StockOf(r, targets[i].id)
  }

  lemma PassStarts(start: System, targets: seq<Target>, attempts: seq<seq<Attempt>>, pass: nat)
    requires |targets| == |attempts| && Lists(targets, start.stores.db.remain)
    requires start.stores.db.remain.Keys <= start.catalog.Keys
    ensures Passing(start, Apply(start, ReadStocks(pass)), targets, attempts, pass, 0)
  {
    OneStepRun(start, ReadStocks(pass));
    assert PassSteps(targets, attempts, start.stores.redis, pass, 0) == [ReadStocks(pass)];
  }

  lemma PassContinues(start: System, s: System, s': System, targets: seq<Target>, attempts: seq<seq<Attempt>>,
                      pass: nat, n: nat)
    requires n < |targets| == |attempts| && DistinctIds(targets)
    requires Passing(start, s, targets, attempts, pass, n)
    requires var v := Plan(targets, attempts, start.stores.redis, n);
      && s' == (if v.fixes > 0 then Apply(s, Overwrite(pass, targets[n].id)) else s)
      && StockOf(s'.stores.redis, targets[n].id) == v.stock
    ensures Passing(start, s', targets, attempts, pass, n + 1)
  {
    var p, v := targets[n].id, Plan(targets, attempts, start.stores.redis, n);
    FixingRuns(start, PassSteps(targets, attempts, start.stores.redis, pass, n), s, v, pass, p);
    FixingAppends([ReadStocks(pass)], v, pass, FixedIds(targets, attempts, start.stores.redis, n), p);
    if v.fixes > 0 {
      OverwriteTouchesOne(s, pass, p);
    }
    ListedContinues(s, s', targets, pass);
    StocksContinue(s, s', targets, attempts, start.stores.redis, n);
  }

  lemma ListedContinues(s: System, s': System, targets: seq<Target>, pass: nat)
    requires AllListed(s, targets, pass) && s'.passes == s.passes && s'.catalog == s.catalog
    ensures AllListed(s', targets, pass)
  {
    forall i | 0 <= i < |targets| ensures Listed(s', pass, targets[i]) {
      assert Listed(s, pass, targets[i]);
    }
  }

  lemma StocksContinue(s: System, s': System, targets: seq<Target>, attempts: seq<seq<Attempt>>, r: Redis, n: nat)
    requires n < |targets| == |attempts| && DistinctIds(targets)
    requires Treated(s, targets, attempts, r, n) && Untouched(s, targets, r, n)
    requires forall p :: p != targets[n].id ==> StockOf(s'.stores.redis, p) == StockOf(s.stores.redis, p)
    requires StockOf(s'.stores.redis, targets[n].id) == Plan(targets, attempts, r, n).stock
    ensures Treated(s', targets, attempts, r, n + 1) && Untouched(s', targets, r, n + 1)
  {
  }

  lemma {:induction false} FixingRuns(start: System, steps: seq<Step>, s: System, v: Verdict, pass: nat, p: ProductId)
    requires Runs(start, steps) && s == Final(start, steps) && Enabled(s, Overwrite(pass, p))
    ensures var more := steps + Fixing(v, pass, p);
      Runs(start, more) && Final(start, more) == if v.fixes > 0 then Apply(s, Overwrite(pass, p)) else s
  {
    if v.fixes > 0 {
      RunExtends(start, steps, Overwrite(pass, p));
    } else {
      assert steps + [] == steps;
    }
  }

  lemma OverwriteTouchesOne(s: System, pass: nat, p: ProductId)
    requires Enabled(s, Overwrite(pass, p))
    ensures var s' := Apply(s, Overwrite(pass, p));
      && s'.passes == s.passes && s'.catalog == s.catalog
      && forall q :: q != p ==> StockOf(s'.stores.redis, q) == StockOf(s.stores.redis, q)
  {
  }

  /** After a pass that skipped nothing, a second pass over the same MySQL stocks finds no difference. */
  lemma {:induction false} SecondPassFindsNothing(targets: seq<Target>, first: seq<seq<Attempt>>, r: Redis,
                               second: seq<seq<Attempt>>, r': Redis, pass: nat, n: nat)
    requires n <= |targets| == |first| == |second|
    requires forall i :: 0 <= i < |targets| ==> Plan(targets, first, r, i).done
    requires forall i :: 0 <= i < |targets| ==> StockOf(r', targets[i].id) == Plan(targets, first, r, i).stock
    ensures DiffsUpTo(targets, second, r', n) == 0 && FixesUpTo(targets, second, r', n) == 0
    ensures PassSteps(targets, second, r', pass, n) == [ReadStocks(pass)]
  {
    forall i | 0 <= i < |targets| ensures StockOf(r', targets[i].id) == targets[i].remain {
      assert Plan(targets, first, r, i).done;
      DoneMeansEqual(StockOf(r, targets[i].id), targets[i].remain, first[i]);
    }
    NothingToFix(targets, second, r', pass, n);
  }

  // ---------------------------------------------------------------------------------------------
  // A whole pass
  // ---------------------------------------------------------------------------------------------

  /** The list leaves no product out. */
  ghost predicate Covers(targets: seq<Target>, remain: map<ProductId, int>) {
    forall p :: p in remain ==> exists i :: 0 <= i < |targets| && targets[i].id == p
  }

  ghost predicate AllDone(targets: seq<Target>, attempts: seq<seq<Attempt>>, r: Redis)
    requires |targets| == |attempts|
  {
    forall i :: 0 <= i < |targets| ==> Plan(targets, attempts, r, i).done
  }

  /** A product that needed no fix was equal already. */
  lemma {:induction false} DoneWithoutFix(stock: int, remain: int, attempts: seq<Attempt>)
    requires Reconciled(stock, remain, attempts).done && Reconciled(stock, remain, attempts).fixes == 0
    ensures stock == remain
  {
    DoneMeansEqual(stock, remain, attempts);
    ReconciledExactly(stock, remain, attempts);
  }

  /** With no purchase in flight, a pass over all products that gives none up keeps the laws at every step and ends
      with Redis offering exactly MySQL's stock of every product, whatever had leaked before. */
  lemma {:induction false} WholePassHeals(s: System, targets: seq<Target>, attempts: seq<seq<Attempt>>, pass: nat)
    requires Sound(s) && s.flight == map[] && |targets| == |attempts|
    requires Lists(targets, s.stores.db.remain) && Covers(targets, s.stores.db.remain)
    requires AllDone(targets, attempts, s.stores.redis)
    ensures var steps := PassSteps(targets, attempts, s.stores.redis, pass, |targets|);
      Runs(s, steps) && HealedFrom(s, Final(s, steps))
  {
    var r, n := s.stores.redis, |targets|;
    var ids := FixedIds(targets, attempts, r, n);
    var listed := Apply(s, ReadStocks(pass));
    StepKeepsSound(s, ReadStocks(pass));
    assert GoodRows(s);
    forall i | 0 <= i < |ids| ensures ids[i] in listed.catalog {
      assert ids[i] in ids;
      var k :| 0 <= k < n && targets[k].id == ids[i];
      assert targets[k].id in s.stores.db.remain;
    }
    OverwritesHeal(listed, pass, ids);
    RunBegins(s, ReadStocks(pass), Overwrites(pass, ids));
    var f := Final(listed, Overwrites(pass, ids));
    PassEqualises(s, targets, attempts, ids, f, listed);
    forall p | p in f.catalog ensures Gap(f, p) == 0 {
      EqualClosesGap(f, p);
    }
  }

  lemma {:induction false} PassEqualises(s: System, targets: seq<Target>, attempts: seq<seq<Attempt>>, ids: seq<ProductId>, f: System, listed: System)
    requires |targets| == |attempts| && ids == FixedIds(targets, attempts, s.stores.redis, |targets|)
    requires Lists(targets, s.stores.db.remain) && Covers(targets, s.stores.db.remain)
    requires s.catalog.Keys == s.stores.db.remain.Keys && AllDone(targets, attempts, s.stores.redis)
    requires listed.stores == s.stores && HealedFor(listed, f, ids)
    ensures forall p :: p in s.catalog ==> Equal(f, p)
  {
    forall p | p in s.catalog ensures Equal(f, p) {
      assert p in s.stores.db.remain;
      var i :| 0 <= i < |targets| && targets[i].id == p;
      NotFixedIsEqual(s, targets, attempts, i);
    }
  }

  lemma {:induction false} NotFixedIsEqual(s: System, targets: seq<Target>, attempts: seq<seq<Attempt>>, i: nat)
    requires i < |targets| == |attempts| && Lists(targets, s.stores.db.remain) && AllDone(targets, attempts, s.stores.redis)
    ensures targets[i].id in FixedIds(targets, attempts, s.stores.redis, |targets|) || Equal(s, targets[i].id)
  {
    assert Plan(targets, attempts, s.stores.redis, i).done;
    if Plan(targets, attempts, s.stores.redis, i).fixes == 0 {
      DoneWithoutFix(StockOf(s.stores.redis, targets[i].id), targets[i].remain, attempts[i]);
    }
  }

  /** Only Redis stock has changed, and it equals MySQL's for every product, so that nothing is leaked any more. */
  ghost predicate HealedFrom(s: System, f: System) {
    && Sound(f) && f.stores.db == s.stores.db && f.catalog == s.catalog && f.flight == s.flight
    && f.stores.redis.count == s.stores.redis.count
    && f.stores.redis.idem == s.stores.redis.idem && f.queue == s.queue && f.delayed == s.delayed && f.issued == s.issued
    && forall p :: p in f.catalog ==> Equal(f, p) && Gap(f, p) == 0
  }

  lemma {:induction false} RunBegins(s: System, step: Step, rest: seq<Step>)
    requires Enabled(s, step) && Runs(Apply(s, step), rest)
    ensures Runs(s, [step] + rest) && Final(s, [step] + rest) == Final(Apply(s, step), rest)
  {
    assert ([step] + rest)[1..] == rest;
  }

  /** The next pass then only lists: whatever becomes of its attempts, it changes neither store. */
  lemma {:induction false} NextPassIsIdle(f: System, targets: seq<Target>, attempts: seq<seq<Attempt>>, pass: nat)
    requires |targets| == |attempts| && Lists(targets, f.stores.db.remain)
    requires forall i :: 0 <= i < |targets| ==> Equal(f, targets[i].id)
    ensures PassSteps(targets, attempts, f.stores.redis, pass, |targets|) == [ReadStocks(pass)]
    ensures DiffsUpTo(targets, attempts, f.stores.redis, |targets|) == 0
    ensures Runs(f, [ReadStocks(pass)]) && Final(f, [ReadStocks(pass)]).stores == f.stores
  {
    NothingToFix(targets, attempts, f.stores.redis, pass, |targets|);
    OneStepRun(f, ReadStocks(pass));
  }

  lemma {:induction false} NothingToFix(targets: seq<Target>, attempts: seq<seq<Attempt>>, r: Redis, pass: nat, n: nat)
    requires n <= |targets| == |attempts|
    requires forall i :: 0 <= i < |targets| ==> StockOf(r, targets[i].id) == targets[i].remain
    ensures FixedIds(targets, attempts, r, n) == [] && PassSteps(targets, attempts, r, pass, n) == [ReadStocks(pass)]
    ensures DiffsUpTo(targets, attempts, r, n) == 0 && FixesUpTo(targets, attempts, r, n) == 0
  {
    if n > 0 {
      NothingToFix(targets, attempts, r, pass, n - 1);
      ReconciledExactly(targets[n - 1].remain, targets[n - 1].remain, attempts[n - 1]);
    }
  }

  /** One pass with nothing in flight restores full equality and makes the next one a no-op on both stores. */
  lemma {:induction false} PassThenIdle(s: System, targets: seq<Target>, first: seq<seq<Attempt>>, second: seq<seq<Attempt>>, pass: nat, next: nat)
    requires Sound(s) && s.flight == map[] && |targets| == |first| == |second|
    requires Lists(targets, s.stores.db.remain) && Covers(targets, s.stores.db.remain)
    requires AllDone(targets, first, s.stores.redis)
    ensures var steps := PassSteps(targets, first, s.stores.redis, pass, |targets|);
      Runs(s, steps) && HealedFrom(s, Final(s, steps)) &&
      var healed := Final(s, steps);
      && PassSteps(targets, second, healed.stores.redis, next, |targets|) == [ReadStocks(next)]
      && Final(healed, [ReadStocks(next)]).stores == healed.stores
  {
    WholePassHeals(s, targets, first, pass);
    var healed := Final(s, PassSteps(targets, first, s.stores.redis, pass, |targets|));
    forall i | 0 <= i < |targets| ensures Equal(healed, targets[i].id) {
      assert targets[i].id in s.stores.db.remain && GoodRows(s);
    }
    NextPassIsIdle(healed, targets, second, next);
  }
}
