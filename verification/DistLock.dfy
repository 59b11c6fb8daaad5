/** The Redis lock with renewal: one key, its remaining lifetime, and the clients that try for it. Times are nanoseconds. */
module DistLock {

  import opened Prelude

  const MILLI := 1_000_000
  const SECOND := 1_000_000_000

  /** Delay of a renewal tick that is always harmless. */
  const SAFE_DELAY := 333_333_333

  type Client = nat
  type Value = int

  datatype Entry = Entry(value: Value, expiry: int)

  /** `Holding(refreshed)`: acquired and not unlocked, last acquired or ticked at that time. */
  datatype Status = Outside | Holding(refreshed: int)

  datatype Handle = Handle(value: Value, expire: int, status: Status)

  datatype World = World(now: int, key: Option<Entry>, clients: map<Client, Handle>)

  datatype Step = Pass(dt: nat) | TryLock(c: Client) | Renew(c: Client) | Unlock(c: Client)

  // ---------------------------------------------------------------------------------------------
  // Lifetimes
  // ---------------------------------------------------------------------------------------------

  /** SET NX takes the lifetime in whole seconds when it is one, and in whole milliseconds otherwise. */
  function FirstTtl(expire: int): int
    requires expire > 0
  {
    if expire % SECOND == 0 then expire
    else if expire < MILLI then MILLI
    else expire / MILLI * MILLI
  }

  /** EXPIRE is given the seconds, truncated. */
  function RenewTtl(expire: int): int
    requires expire > 0
  {
    expire / SECOND * SECOND
  }

  function Period(expire: int): int
    requires expire > 0
  {
    expire / 3
  }

  /** A tick that is not late arrives before the lifetime set by the previous one has run out exactly when the
      lock's lifetime is at least one second; from one second on even a third of a second's delay is harmless. */
  lemma PeriodBelowTtl(expire: int)
    requires expire > 0
    ensures Period(expire) < RenewTtl(expire) <==> expire >= SECOND
    ensures expire >= SECOND ==> Period(expire) + SAFE_DELAY < RenewTtl(expire) <= FirstTtl(expire)
  {
  }

  /** The lifetimes are what was asked for, up to the unit in which Redis takes them. */
  lemma LifetimesAreAsked(expire: int)
    requires expire > 0
    ensures expire >= MILLI ==> expire - MILLI < FirstTtl(expire) <= expire
    ensures expire < MILLI ==> FirstTtl(expire) == MILLI
    ensures expire - SECOND < RenewTtl(expire) <= expire
  {
  }

  // ---------------------------------------------------------------------------------------------
  // Steps
  // ---------------------------------------------------------------------------------------------

  predicate Live(w: World) {
    w.key.Some? && w.now < w.key.value.expiry
  }

  ghost predicate Enabled(w: World, step: Step) {
    match step
    case Pass(_) => true
    case TryLock(c) => c in w.clients && w.clients[c].status.Outside?
    case Renew(c) => c in w.clients && w.clients[c].status.Holding?
    case Unlock(c) => c in w.clients
  }

  function Acquired(w: World, h: Handle): Option<Entry>
    requires h.expire > 0
  {
    if Live(w) then w.key else Some(Entry(h.value, w.now + FirstTtl(h.expire)))
  }

  /** A renewal with no whole second left removes the key at once. */
  function Renewed(w: World, h: Handle): Option<Entry>
    requires h.expire > 0
  {
    if !Live(w) || w.key.value.value != h.value then w.key
    else if RenewTtl(h.expire) <= 0 then None
    else Some(Entry(h.value, w.now + RenewTtl(h.expire)))
  }

  function Released(w: World, h: Handle): Option<Entry> {
    if Live(w) && w.key.value.value == h.value then None else w.key
  }

  ghost predicate Handles(w: World) {
    forall c :: c in w.clients ==> w.clients[c].expire > 0
  }

  function Apply(w: World, step: Step): World
    requires Handles(w) && Enabled(w, step)
  {
    match step
    case Pass(dt) => w.(now := w.now + dt)
    case TryLock(c) =>
      var h := w.clients[c];
      if Live(w) then w
      else w.(key := Acquired(w, h), clients := w.clients[c := h.(status := Holding(w.now))])
    case Renew(c) =>
      w.(key := Renewed(w, w.clients[c]), clients := w.clients[c := w.clients[c].(status := Holding(w.now))])
    case Unlock(c) =>
      w.(key := Released(w, w.clients[c]), clients := w.clients[c := w.clients[c].(status := Outside)])
  }

  ghost predicate DistinctValues(w: World) {
    forall c, d :: c in w.clients && d in w.clients && w.clients[c].value == w.clients[d].value ==> c == d
  }

  // ---------------------------------------------------------------------------------------------
  // Mutual exclusion while ticks are not too late
  // ---------------------------------------------------------------------------------------------

  /** Every holder's key is its own and outlives the next tick, even one delayed by `delay`. */
  ghost predicate Held(w: World, c: Client, delay: int)
    requires c in w.clients && w.clients[c].status.Holding? && w.clients[c].expire > 0
  {
    var h := w.clients[c];
    && w.key.Some? && w.key.value.value == h.value
    && h.status.refreshed + RenewTtl(h.expire) <= w.key.value.expiry
    && h.status.refreshed <= w.now <= h.status.refreshed + Period(h.expire) + delay
  }

  ghost predicate Inv(w: World, delay: int) {
    && Handles(w) && DistinctValues(w)
    && (forall c :: c in w.clients ==> w.clients[c].expire >= SECOND)
    && (forall c :: c in w.clients && w.clients[c].status.Holding? ==> Held(w, c, delay))
  }

  /** Time does not pass a holder's next tick by more than the delay. */
  ghost predicate OnTime(w: World, step: Step, delay: int)
    requires Handles(w)
  {
    step.Pass? ==> forall c :: c in w.clients && w.clients[c].status.Holding? ==>
      w.now + step.dt <= w.clients[c].status.refreshed + Period(w.clients[c].expire) + delay
  }

  predicate Holds(w: World, c: Client) {
    c in w.clients && w.clients[c].status.Holding?
  }

  /** In such a state the holder's key has not expired and there is no second holder. */
  lemma HolderIsAlone(w: World, c: Client, d: Client, delay: int)
    requires Inv(w, delay) && delay <= SAFE_DELAY
    requires c in w.clients && w.clients[c].status.Holding?
    ensures Live(w) && w.key.value.value == w.clients[c].value
    ensures d in w.clients && w.clients[d].status.Holding? ==> d == c
  {
  }

  lemma StepKeepsInv(w: World, step: Step, delay: int)
    requires Inv(w, delay) && 0 <= delay <= SAFE_DELAY && Enabled(w, step) && OnTime(w, step, delay)
    ensures Inv(Apply(w, step), delay)
  {
    var w' := Apply(w, step);
    forall c | c in w'.clients && w'.clients[c].status.Holding? ensures Held(w', c, delay) {
      PeriodBelowTtl(w.clients[c].expire);
      if step.Pass? {
        assert Held(w, c, delay);
      } else if w.clients[c].status.Holding? {
        HolderIsAlone(w, c, step.c, delay);
        assert Held(w, c, delay);
      }
    }
  }

  ghost predicate Runs(w: World, steps: seq<Step>, delay: int)
    decreases |steps|
  {
    Handles(w) &&
    (steps == [] || (Enabled(w, steps[0]) && OnTime(w, steps[0], delay) && Runs(Apply(w, steps[0]), steps[1..], delay)))
  }

  ghost function Final(w: World, steps: seq<Step>, delay: int): World
    requires Runs(w, steps, delay)
    decreases |steps|
  {
    if steps == [] then w else Final(Apply(w, steps[0]), steps[1..], delay)
  }

  /** Mutual exclusion over every run: with lifetimes of at least a second, distinct lock values and ticks at most
      a third of a second late, the key of a client that has not unlocked never expires and no other client holds it. */
  lemma {:induction false} MutualExclusion(w: World, steps: seq<Step>, delay: int)
    requires Inv(w, delay) && 0 <= delay <= SAFE_DELAY && Runs(w, steps, delay)
    ensures var f := Final(w, steps, delay);
      && Inv(f, delay)
      && (forall c :: c in f.clients && f.clients[c].status.Holding? ==> Live(f) && f.key.value.value == f.clients[c].value)
      && (forall c, d :: Holds(f, c) && Holds(f, d) ==> c == d)
    decreases |steps|
  {
    if steps == [] {
      forall c | c in w.clients && w.clients[c].status.Holding?
        ensures Live(w) && w.key.value.value == w.clients[c].value
      {
        HolderIsAlone(w, c, c, delay);
      }
      forall c, d | Holds(w, c) && Holds(w, d)
        ensures c == d
      {
        HolderIsAlone(w, c, d, delay);
      }
    } else {
      StepKeepsInv(w, steps[0], delay);
      MutualExclusion(Apply(w, steps[0]), steps[1..], delay);
    }
  }

  // ---------------------------------------------------------------------------------------------
  // Clients that have lost their lock
  // ---------------------------------------------------------------------------------------------

  predicate ActsFor(step: Step, c: Client) {
    !step.Pass? && step.c == c
  }

  ghost predicate Others(w: World, steps: seq<Step>, c: Client)
    decreases |steps|
  {
    Handles(w) && (steps == [] || (Enabled(w, steps[0]) && !ActsFor(steps[0], c) && Others(Apply(w, steps[0]), steps[1..], c)))
  }

  ghost function After(w: World, steps: seq<Step>, c: Client): World
    requires Others(w, steps, c)
    decreases |steps|
  {
    if steps == [] then w else After(Apply(w, steps[0]), steps[1..], c)
  }

  /** However late the ticks, until the owner acts or its lifetime ends nobody else deletes, extends or takes its
      key: not a waiting client, and not one whose own lock expired while it still believes it holds it. */
  lemma {:induction false} NobodyTouchesForeignLock(w: World, steps: seq<Step>, c: Client)
    requires DistinctValues(w) && Others(w, steps, c)
    requires c in w.clients && w.key.Some? && w.key.value.value == w.clients[c].value
    requires After(w, steps, c).now < w.key.value.expiry
    ensures After(w, steps, c).key == w.key
    decreases |steps|
  {
    if steps != [] {
      TimeAdvances(Apply(w, steps[0]), steps[1..], c);
      NobodyTouchesForeignLock(Apply(w, steps[0]), steps[1..], c);
    }
  }

  lemma {:induction false} TimeAdvances(w: World, steps: seq<Step>, c: Client)
    requires Others(w, steps, c)
    ensures w.now <= After(w, steps, c).now
    decreases |steps|
  {
    if steps != [] {
      TimeAdvances(Apply(w, steps[0]), steps[1..], c);
    }
  }

  /** The distinctness is needed: an equal value opens the other client's lock, so that a live key is left alone by
      every unlock and renewal of another client exactly when no other client shares its value. */
  lemma ForeignUnlockExactly(w: World, c: Client, d: Client)
    requires Handles(w) && Live(w) && c in w.clients && w.key.value.value == w.clients[c].value
    requires d != c && Enabled(w, Unlock(d))
    ensures Apply(w, Unlock(d)).key == w.key <==> w.clients[d].value != w.clients[c].value
  {
  }

  /** Below one second the first renewal deletes the holder's own lock and lets the next client in beside it. */
  lemma ShortLockDeletesItself(w: World, c: Client, d: Client)
    requires Handles(w) && Live(w) && c != d && Enabled(w, Renew(c)) && Enabled(w, TryLock(d))
    requires w.key.value.value == w.clients[c].value
    ensures var renewed := Apply(w, Renew(c));
      && (renewed.key == None <==> w.clients[c].expire < SECOND)
      && (w.clients[c].expire < SECOND ==>
            var both := Apply(renewed, TryLock(d));
            both.clients[c].status.Holding? && both.clients[d].status.Holding?)
  {
  }

  /** Unlocking the own live lock frees it: the next client to try gets it and nobody else holds it. */
  lemma UnlockFrees(w: World, c: Client, d: Client)
    requires Handles(w) && DistinctValues(w) && Live(w) && Enabled(w, Unlock(c)) && w.key.value.value == w.clients[c].value
    requires d in w.clients && (w.clients[d].status.Outside? || d == c)
    ensures var freed := Apply(w, Unlock(c));
      && !Live(freed) && freed.clients[c].status.Outside? && freed.now == w.now
      && Enabled(freed, TryLock(d))
      && var next := Apply(freed, TryLock(d));
         next.clients[d].status == Holding(w.now) && next.key.Some? && next.key.value.value == w.clients[d].value && Live(next)
  {
  }

  /** A client that does not get the lock changes nothing. */
  lemma FailedTryIsIdle(w: World, c: Client)
    requires Handles(w) && Live(w) && Enabled(w, TryLock(c))
    ensures Apply(w, TryLock(c)) == w
  {
  }

  function Longest(expire: int): int {
    if expire < MILLI then MILLI else expire
  }

  /** A key belongs to a client and has no more left than that client's lifetime. */
  ghost predicate Bounded(w: World) {
    w.key.Some? ==>
      exists c :: c in w.clients && w.clients[c].value == w.key.value.value
                  && w.key.value.expiry <= w.now + Longest(w.clients[c].expire)
  }

  lemma StepKeepsBounded(w: World, step: Step)
    requires Handles(w) && Bounded(w) && Enabled(w, step)
    ensures Bounded(Apply(w, step))
  {
    var w' := Apply(w, step);
    if w'.key.Some? {
      if w.key == w'.key {
        var c :| c in w.clients && w.clients[c].value == w.key.value.value
                 && w.key.value.expiry <= w.now + Longest(w.clients[c].expire);
        assert w'.clients[c].value == w'.key.value.value && w'.clients[c].expire == w.clients[c].expire;
      } else {
        LifetimesAreAsked(w.clients[step.c].expire);
        assert w'.clients[step.c].value == w'.key.value.value;
      }
    }
  }

  /** A client that dies with the lock blocks the others no longer than the lifetime it asked for. */
  lemma DeadClientIsForgotten(w: World, c: Client, dt: nat)
    requires Handles(w) && Bounded(w) && DistinctValues(w) && c in w.clients
    requires w.key.Some? && w.key.value.value == w.clients[c].value && dt >= Longest(w.clients[c].expire)
    ensures !Live(Apply(w, Pass(dt)))
  {
  }

  const HALF_SECOND := 500_000_000

  /** Two clients want the same lock for half a second. */
  function TwoClients(): World {
    World(0, None, map[0 := Handle(100, HALF_SECOND, Outside), 1 := Handle(101, HALF_SECOND, Outside)])
  }

  /** The first tick comes exactly on time, and lets the second client in. */
  function ShortLockSteps(): seq<Step> {
    [TryLock(0), Pass(Period(HALF_SECOND)), Renew(0), TryLock(1)]
  }

  lemma ShortLockRun()
    ensures Runs(TwoClients(), ShortLockSteps(), 0)
    ensures var w := Final(TwoClients(), ShortLockSteps(), 0); Holds(w, 0) && Holds(w, 1) && w.now < HALF_SECOND
  {
    var steps := ShortLockSteps();
    var w1 := Apply(TwoClients(), steps[0]);
    var w2 := Apply(w1, steps[1]);
    var w3 := Apply(w2, steps[2]);
    var w4 := Apply(w3, steps[3]);
    assert Runs(w4, [], 0) && Final(w4, [], 0) == w4;
    FirstStep(w3, steps[3], [], 0);
    FirstStep(w2, steps[2], [steps[3]], 0);
    FirstStep(w1, steps[1], [steps[2]] + [steps[3]], 0);
    FirstStep(TwoClients(), steps[0], [steps[1]] + ([steps[2]] + [steps[3]]), 0);
    assert steps == [steps[0]] + ([steps[1]] + ([steps[2]] + [steps[3]]));
    assert [steps[3]] == [steps[3]] + [];
  }

  lemma {:induction false} FirstStep(w: World, step: Step, rest: seq<Step>, delay: int)
    requires Handles(w) && Enabled(w, step) && OnTime(w, step, delay) && Runs(Apply(w, step), rest, delay)
    ensures Runs(w, [step] + rest, delay) && Final(w, [step] + rest, delay) == Final(Apply(w, step), rest, delay)
  {
    assert ([step] + rest)[1..] == rest;
  }

  // ---------------------------------------------------------------------------------------------
  // The lock object
  // ---------------------------------------------------------------------------------------------

  /** The server's one key. */
  class Server {
    var now: int
    var key: Option<Entry>

    constructor ()
      ensures now == 0 && key == None
    {
      now, key := 0, None;
    }
  }

  /** What one attempt of the acquisition loop meets. */
  datatype Attempt = Attempt(now: int, free: bool, fails: bool)

  datatype LockResult = AcquiredAt(k: nat) | FailedAt(k: nat) | TimedOutAt(k: nat) | StillTrying

  ghost predicate Unsuccessful(attempts: seq<Attempt>, k: nat, deadline: int)
    requires k <= |attempts|
  {
    forall i :: 0 <= i < k ==> !attempts[i].fails && !attempts[i].free && attempts[i].now <= deadline
  }

  /** The acquisition loop: it ends with the first attempt that errors, finds the key free, or comes after the
      deadline without finding it free. */
  method LockLoop(start: int, timeout: int, attempts: seq<Attempt>) returns (r: LockResult)
    ensures r.AcquiredAt? ==>
      r.k < |attempts| && Unsuccessful(attempts, r.k, start + timeout) && !attempts[r.k].fails && attempts[r.k].free
    ensures r.FailedAt? ==> r.k < |attempts| && Unsuccessful(attempts, r.k, start + timeout) && attempts[r.k].fails
    ensures r.TimedOutAt? ==>
      r.k < |attempts| && Unsuccessful(attempts, r.k, start + timeout) && !attempts[r.k].fails && !attempts[r.k].free
      && attempts[r.k].now > start + timeout
    ensures r.StillTrying? ==> Unsuccessful(attempts, |attempts|, start + timeout)
  {
    var deadline := start + timeout;
    var i := 0;
    while i < |attempts|
      invariant 0 <= i <= |attempts|
      invariant Unsuccessful(attempts, i, deadline)
    {
      var a := attempts[i];
      if a.fails {
        return FailedAt(i);
      }
      if a.free {
        return AcquiredAt(i);
      }
      if a.now > deadline {
        return TimedOutAt(i);
      }
      i := i + 1;
    }
    return StillTrying;
  }

  class Lock {
    const value: Value
    const expire: int
    var status: Status

    ghost function View(): Handle
      reads this
    {
      Handle(value, expire, status)
    }

    constructor (value: Value, expire: int)
      requires expire > 0
      ensures View() == Handle(value, expire, Outside)
    {
      this.value, this.expire, status := value, expire, Outside;
    }

    ghost function Seen(s: Server): World
      reads this, s
    {
      World(s.now, s.key, map[0 := View()])
    }

    method TryAcquire(s: Server) returns (ok: bool)
      requires expire > 0 && status.Outside?
      modifies this`status, s`key
      ensures Seen(s) == Apply(old(Seen(s)), TryLock(0))
      ensures ok <==> !Live(old(Seen(s)))
    {
      if s.key.Some? && s.now < s.key.value.expiry {
        return false;
      }
      var ttl := if expire % SECOND == 0 then expire else if expire < MILLI then MILLI else expire / MILLI * MILLI;
      s.key := Some(Entry(value, s.now + ttl));
      status := Holding(s.now);
      return true;
    }

    method RenewTick(s: Server)
      requires expire > 0 && status.Holding?
      modifies this`status, s`key
      ensures Seen(s) == Apply(old(Seen(s)), Renew(0))
    {
      status := Holding(s.now);
      if s.key.Some? && s.now < s.key.value.expiry && s.key.value.value == value {
        var seconds := expire / SECOND;
        if seconds <= 0 {
          s.key := None;
        } else {
          s.key := Some(Entry(value, s.now + seconds * SECOND));
        }
      }
    }

    /** Reports an error when the key is not this lock's, also when it was never acquired. */
    method Release(s: Server) returns (ok: bool)
      requires expire > 0
      modifies this`status, s`key
      ensures Seen(s) == Apply(old(Seen(s)), Unlock(0))
      ensures ok <==> Live(old(Seen(s))) && old(s.key).value.value == value
    {
      status := Outside;
      ok := s.key.Some? && s.now < s.key.value.expiry && s.key.value.value == value;
      if ok {
        s.key := None;
      }
    }
  }
}
