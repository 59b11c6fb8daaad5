/**
 Request coalescing under a clock: how long a function and its merge window may last so that the periodic sweep
 never meets a call that is still in use. Times are milliseconds.
 */
module TimedFlight {
  import opened Prelude
  import opened SingleFlight
  import opened ShardedFlight

  /** `ends` holds the time at which the function of a call returned. */
  datatype Clocked = Clocked(group: Group, now: int, ends: map<Id, int>)

  datatype Event = Tick(dt: nat) | Do(step: Step)

  /** The longest a function runs, and the longest its entry stays after it has returned. */
  datatype Limits = Limits(fn: nat, window: nat)

  predicate Timely(call: Call, id: Id, ends: map<Id, int>, now: int, lim: Limits) {
    && (call.stage == Executing ==> now <= call.ts + lim.fn)
    && (call.stage == Closing || call.stage == Windowed ==> id in ends && now <= ends[id] + lim.window)
  }

  /** Time does not pass the limits of any call; callers and sweeps read the clock. A sweep may come at any time. */
  ghost predicate Allowed(x: Clocked, e: Event, lim: Limits) {
    match e
    case Tick(dt) => forall id :: 0 <= id < |x.group.heap| ==> Timely(x.group.heap[id], id, x.ends, x.now + dt, lim)
    case Do(step) => Enabled(x.group, step) && (step.Enter? || step.Sweep? ==> step.now == x.now)
  }

  function After(x: Clocked, e: Event, lim: Limits): Clocked
    requires Allowed(x, e, lim)
  {
    match e
    case Tick(dt) => x.(now := x.now + dt)
    case Do(step) =>
      Clocked(Apply(x.group, step), x.now, if step.Finish? then x.ends[x.group.who[step.c].id := x.now] else x.ends)
  }

  // ---------------------------------------------------------------------------------------------
  // The age of calls
  // ---------------------------------------------------------------------------------------------

  /** No call that is not removed is older than both limits together. */
  predicate Young(call: Call, id: Id, ends: map<Id, int>, now: int, lim: Limits) {
    && Timely(call, id, ends, now, lim)
    && call.ts <= now
    && (call.stage == Closing || call.stage == Windowed ==> call.ts <= ends[id] <= now && ends[id] <= call.ts + lim.fn)
  }

  ghost predicate TimedInv(x: Clocked, lim: Limits) {
    Inv(x.group) && forall id :: 0 <= id < |x.group.heap| ==> Young(x.group.heap[id], id, x.ends, x.now, lim)
  }

  /** An entry of the table belongs to a call that is not removed, so it is no older than that. */
  lemma NothingStale(x: Clocked, lim: Limits, key: Key)
    requires TimedInv(x, lim) && lim.fn + lim.window <= SWEEP_AGE && key in x.group.calls
    ensures x.group.calls[key] < |x.group.heap| && !Stale(x.group, key, x.now)
  {
    var id := x.group.calls[key];
    assert GoodCall(x.group, id) && Young(x.group.heap[id], id, x.ends, x.now, lim);
  }

  lemma EventInTime(x: Clocked, e: Event, lim: Limits)
    requires TimedInv(x, lim) && Allowed(x, e, lim) && lim.fn + lim.window <= SWEEP_AGE && e.Do?
    ensures InTime(x.group, e.step)
  {
    if e.step.Sweep? {
      forall key | key in x.group.calls ensures !Stale(x.group, key, x.now) {
        NothingStale(x, lim, key);
      }
    }
  }

  /** What a step other than a sweep does to a call that was there before, as far as time is concerned. */
  lemma StepKeepsYoung(x: Clocked, step: Step, lim: Limits, id: Id)
    requires TimedInv(x, lim) && Allowed(x, Do(step), lim) && !step.Sweep? && id < |x.group.heap|
    ensures var x' := After(x, Do(step), lim);
      id < |x'.group.heap| && Young(x'.group.heap[id], id, x'.ends, x'.now, lim)
  {
    assert Young(x.group.heap[id], id, x.ends, x.now, lim);
  }

  lemma EventKeepsYoung(x: Clocked, e: Event, lim: Limits, id: Id)
    requires TimedInv(x, lim) && Allowed(x, e, lim) && (e.Do? ==> InTime(x.group, e.step))
    requires id < |After(x, e, lim).group.heap|
    ensures var x' := After(x, e, lim); Young(x'.group.heap[id], id, x'.ends, x'.now, lim)
  {
    if e.Tick? {
      assert Young(x.group.heap[id], id, x.ends, x.now, lim);
    } else if e.step.Sweep? {
      IdleSweep(x.group, e.step.now);
      assert Young(x.group.heap[id], id, x.ends, x.now, lim);
    } else if id < |x.group.heap| {
      StepKeepsYoung(x, e.step, lim, id);
    }
  }

  lemma EventKeepsTimed(x: Clocked, e: Event, lim: Limits)
    requires TimedInv(x, lim) && Allowed(x, e, lim) && lim.fn + lim.window <= SWEEP_AGE
    ensures TimedInv(After(x, e, lim), lim)
  {
    if e.Do? {
      EventInTime(x, e, lim);
      StepKeepsInv(x.group, e.step);
    }
    forall id | 0 <= id < |After(x, e, lim).group.heap|
      ensures var x' := After(x, e, lim); Young(x'.group.heap[id], id, x'.ends, x'.now, lim)
    {
      EventKeepsYoung(x, e, lim, id);
    }
  }

  // ---------------------------------------------------------------------------------------------
  // Runs
  // ---------------------------------------------------------------------------------------------

  ghost predicate TimedRuns(x: Clocked, events: seq<Event>, lim: Limits)
    decreases |events|
  {
    events == [] || (Allowed(x, events[0], lim) && TimedRuns(After(x, events[0], lim), events[1..], lim))
  }

  ghost function TimedFinal(x: Clocked, events: seq<Event>, lim: Limits): Clocked
    requires TimedRuns(x, events, lim)
    decreases |events|
  {
    if events == [] then x else TimedFinal(After(x, events[0], lim), events[1..], lim)
  }

  function StepsOf(events: seq<Event>): seq<Step>
    decreases |events|
  {
    if events == [] then [] else (if events[0].Do? then [events[0].step] else []) + StepsOf(events[1..])
  }

  /** If each function and its window together end within ten seconds, every sweep of every run finds nothing old,
      so the run is one of those for which the coalescing properties are proved. */
  lemma {:induction false} PunctualRuns(x: Clocked, events: seq<Event>, lim: Limits)
    requires TimedInv(x, lim) && TimedRuns(x, events, lim) && lim.fn + lim.window <= SWEEP_AGE
    ensures TimedInv(TimedFinal(x, events, lim), lim)
    ensures Runs(x.group, StepsOf(events))
    ensures TimedFinal(x, events, lim).group == Final(x.group, StepsOf(events))
    decreases |events|
  {
    if events != [] {
      EventKeepsTimed(x, events[0], lim);
      PunctualRuns(After(x, events[0], lim), events[1..], lim);
      if events[0].Do? {
        EventInTime(x, events[0], lim);
        assert StepsOf(events)[1..] == StepsOf(events[1..]);
      } else {
        assert StepsOf(events) == StepsOf(events[1..]);
      }
    }
  }

  function Start(): Clocked {
    Clocked(Group(map[], [], map[]), 0, map[])
  }

  predicate BothExecute(a: Call, b: Call) {
    a.stage == b.stage == Executing && a.key == b.key
  }

  /** What callers get in every punctual run: one execution per key at a time, one signal per call, the same
      outcome for everybody in a call, and no timeout error. */
  lemma {:induction false} PunctualFlight(events: seq<Event>, lim: Limits)
    requires TimedRuns(Start(), events, lim) && lim.fn + lim.window <= SWEEP_AGE
    ensures var g := TimedFinal(Start(), events, lim).group;
      && (forall i, j :: 0 <= i < |g.heap| && 0 <= j < |g.heap| && BothExecute(g.heap[i], g.heap[j]) ==> i == j)
      && (forall id :: 0 <= id < |g.heap| ==> g.heap[id].signals <= 1)
      && (forall c, d :: c in g.who && d in g.who && g.who[c].Got? && g.who[d].Got? && g.who[c].id == g.who[d].id ==>
            g.who[c].outcome == g.who[d].outcome && g.who[c].outcome.Returned?)
  {
    PunctualRuns(Start(), events, lim);
    var g := TimedFinal(Start(), events, lim).group;
    forall id | 0 <= id < |g.heap| ensures g.heap[id].signals <= 1 {
      assert GoodCall(g, id);
    }
    forall i, j | 0 <= i < |g.heap| && 0 <= j < |g.heap| && BothExecute(g.heap[i], g.heap[j]) ensures i == j {
      OneExecutionPerKey(g, i, j);
    }
    forall c, d | c in g.who && d in g.who && g.who[c].Got? && g.who[d].Got? && g.who[c].id == g.who[d].id
      ensures g.who[c].outcome == g.who[d].outcome && g.who[c].outcome.Returned?
    {
      JoinersAgree(g, c, d);
    }
  }

  /** A caller that enters at some moment of a punctual run enters a call that nobody has removed by then, is bound
      to it for the rest of the run, and can only return the value and error its function left there. */
  lemma {:induction false} PunctualCaller(before: seq<Event>, c: Caller, key: Key, rest: seq<Event>, lim: Limits)
    requires lim.fn + lim.window <= SWEEP_AGE && TimedRuns(Start(), before, lim)
    requires var x := TimedFinal(Start(), before, lim); var enter := Do(Enter(c, key, x.now));
      Allowed(x, enter, lim) && TimedRuns(After(x, enter, lim), rest, lim)
    ensures var x := TimedFinal(Start(), before, lim);
      var entered := After(x, Do(Enter(c, key, x.now)), lim);
      var g, f := entered.group, TimedFinal(entered, rest, lim).group;
      && c in g.who && EntersLive(x.group, g, c, key)
      && c in f.who && f.who[c].id == g.who[c].id < |f.heap| && f.heap[f.who[c].id].key == key
      && (f.who[c].Got? ==> f.heap[f.who[c].id].result == Some(f.who[c].outcome) && f.who[c].outcome.Returned?)
  {
    PunctualRuns(Start(), before, lim);
    var x := TimedFinal(Start(), before, lim);
    var enter := Do(Enter(c, key, x.now));
    var entered := After(x, enter, lim);
    EntersLiveCall(x.group, c, key, x.now);
    EventKeepsTimed(x, enter, lim);
    PunctualRuns(entered, rest, lim);
    FateOfCaller(entered.group, StepsOf(rest), c);
    var f := TimedFinal(entered, rest, lim).group;
    assert GoodCall(f, f.who[c].id);
  }

  /** And what the function returned, value and error, is what everybody in its call gets. */
  lemma {:induction false} PunctualResult(before: seq<Event>, c: Caller, outcome: Outcome, window: bool, rest: seq<Event>, lim: Limits, d: Caller)
    requires lim.fn + lim.window <= SWEEP_AGE && TimedRuns(Start(), before, lim)
    requires var x := TimedFinal(Start(), before, lim); var finish := Do(Finish(c, outcome, window));
      Allowed(x, finish, lim) && TimedRuns(After(x, finish, lim), rest, lim)
    ensures var x := TimedFinal(Start(), before, lim);
      var id := x.group.who[c].id;
      var f := TimedFinal(After(x, Do(Finish(c, outcome, window)), lim), rest, lim).group;
      && id < |f.heap| && f.heap[id].result == Some(outcome)
      && (d in f.who && f.who[d].Got? && f.who[d].id == id ==> f.who[d].outcome == outcome)
  {
    PunctualRuns(Start(), before, lim);
    var x := TimedFinal(Start(), before, lim);
    var finish := Do(Finish(c, outcome, window));
    EventKeepsTimed(x, finish, lim);
    PunctualRuns(After(x, finish, lim), rest, lim);
    FinishDecides(x.group, c, outcome, window, StepsOf(rest), d);
  }

  /** The entered call is in the table under the key, and was not removed before. */
  ghost predicate EntersLive(g: Group, g': Group, c: Caller, key: Key) {
    && c in g'.who && key in g'.calls && g'.calls[key] == g'.who[c].id < |g'.heap|
    && g'.heap[g'.who[c].id].key == key && g'.heap[g'.who[c].id].stage != Removed
    && (g'.who[c].id < |g.heap| ==> g.heap[g'.who[c].id].stage != Removed)
  }

  // ---------------------------------------------------------------------------------------------
  // The ten seconds are exact
  // ---------------------------------------------------------------------------------------------

  const LEADER: Caller := 0
  const KEY: Key := "k"

  function Led(now: int): Clocked {
    Clocked(Group(map[KEY := 0], [Call(KEY, 0, 1, None, 0, Executing)], map[LEADER := Leads(0)]), now, map[])
  }

  function Ended(end: int, now: int): Clocked {
    Clocked(Group(map[KEY := 0], [Call(KEY, 0, 1, Some(Returned(0, false)), 1, Windowed)],
                  map[LEADER := Got(0, Returned(0, false))]), now, map[0 := end])
  }

  /** Some run from here ends with the table out of order. */
  ghost predicate Breaks(x: Clocked, lim: Limits) {
    exists events :: TimedRuns(x, events, lim) && !Inv(TimedFinal(x, events, lim).group)
  }

  lemma BreaksEarlier(x: Clocked, e: Event, lim: Limits)
    requires Allowed(x, e, lim) && Breaks(After(x, e, lim), lim)
    ensures Breaks(x, lim)
  {
    var rest :| TimedRuns(After(x, e, lim), rest, lim) && !Inv(TimedFinal(After(x, e, lim), rest, lim).group);
    var events := [e] + rest;
    assert events[1..] == rest;
    assert TimedRuns(x, events, lim) && TimedFinal(x, events, lim) == TimedFinal(After(x, e, lim), rest, lim);
  }

  lemma StaleSweepBreaks(x: Clocked, lim: Limits)
    requires Inv(x.group) && KEY in x.group.calls && Stale(x.group, KEY, x.now)
    ensures Breaks(x, lim)
  {
    var sweep := Do(Sweep(x.now));
    SweepSafeExactly(x.group, x.now);
    assert Allowed(x, sweep, lim);
    assert TimedRuns(After(x, sweep, lim), [], lim);
    BreaksEarlier(x, sweep, lim);
  }

  /** The function takes too long. */
  lemma SlowFunctionBreaks(lim: Limits)
    requires lim.fn > SWEEP_AGE
    ensures Breaks(Led(0), lim)
  {
    var late := Led(SWEEP_AGE + 1);
    assert GoodCall(late.group, 0);
    StaleSweepBreaks(late, lim);
    assert After(Led(0), Tick(SWEEP_AGE + 1), lim) == late;
    BreaksEarlier(Led(0), Tick(SWEEP_AGE + 1), lim);
  }

  lemma FinishEnds(end: nat, lim: Limits)
    ensures var finish := Do(Finish(LEADER, Returned(0, false), true));
      Allowed(Led(end), finish, lim) && After(Led(end), finish, lim) == Ended(end, end)
  {
  }

  lemma EndedWaits(lim: Limits)
    requires lim.fn <= SWEEP_AGE < lim.fn + lim.window
    ensures Breaks(Ended(lim.fn, lim.fn), lim)
  {
    var late := Ended(lim.fn, SWEEP_AGE + 1);
    assert GoodCall(late.group, 0);
    StaleSweepBreaks(late, lim);
    var wait := SWEEP_AGE + 1 - lim.fn;
    assert After(Ended(lim.fn, lim.fn), Tick(wait), lim) == late;
    BreaksEarlier(Ended(lim.fn, lim.fn), Tick(wait), lim);
  }

  /** The window ends too late. */
  lemma LongWindowBreaks(lim: Limits)
    requires lim.fn <= SWEEP_AGE < lim.fn + lim.window
    ensures Breaks(Led(0), lim)
  {
    EndedWaits(lim);
    FinishEnds(lim.fn, lim);
    BreaksEarlier(Led(lim.fn), Do(Finish(LEADER, Returned(0, false), true)), lim);
    assert After(Led(0), Tick(lim.fn), lim) == Led(lim.fn);
    BreaksEarlier(Led(0), Tick(lim.fn), lim);
  }

  lemma LimitsExceeded(lim: Limits)
    requires lim.fn + lim.window > SWEEP_AGE
    ensures Breaks(Start(), lim)
  {
    if lim.fn > SWEEP_AGE {
      SlowFunctionBreaks(lim);
    } else {
      LongWindowBreaks(lim);
    }
    var enter := Do(Enter(LEADER, KEY, 0));
    assert After(Start(), enter, lim) == Led(0);
    BreaksEarlier(Start(), enter, lim);
  }

  /** The table stays in order in every run exactly when a function and its window together take at most ten
      seconds. */
  lemma TenSecondsExactly(lim: Limits)
    ensures !Breaks(Start(), lim) <==> lim.fn + lim.window <= 10_000
  {
    if lim.fn + lim.window <= SWEEP_AGE {
      if events :| TimedRuns(Start(), events, lim) && !Inv(TimedFinal(Start(), events, lim).group) {
        PunctualRuns(Start(), events, lim);
        assert false;
      }
    } else {
      LimitsExceeded(lim);
    }
  }

  function Split(): Clocked {
    var first := Call(KEY, 0, 1, Some(TimedOut), 1, Executing);
    var second := Call(KEY, 30000, 1, None, 0, Executing);
    Clocked(Group(map[KEY := 1], [first, second], map[0 := Leads(0), 1 := Leads(1)]), 30000, map[])
  }

  /** A function still running at thirty seconds, the sweep that meets it, and a second caller: two executions for
      one key, and a second signal when the first of them ends. */
  lemma ThirtySecondsSplit()
    ensures var lim := Limits(30000, 0);
      var events := [Do(Enter(0, KEY, 0))] + ([Tick(30000)] + ([Do(Sweep(30000))] + [Do(Enter(1, KEY, 30000))]));
      TimedRuns(Start(), events, lim) && TimedFinal(Start(), events, lim) == Split()
    ensures BothExecute(Split().group.heap[0], Split().group.heap[1])
    ensures Enabled(Split().group, Finish(0, Returned(0, false), false))
    ensures Apply(Split().group, Finish(0, Returned(0, false), false)).heap[0].signals == 2
  {
    var lim := Limits(30000, 0);
    var swept := Clocked(Group(map[], [Call(KEY, 0, 1, Some(TimedOut), 1, Executing)], map[0 := Leads(0)]), 30000, map[]);
    SplitEnters(lim, swept);
    SplitSweeps(lim, swept);
    assert After(Start(), Do(Enter(0, KEY, 0)), lim) == Led(0);
    assert After(Led(0), Tick(30000), lim) == Led(30000);
    OneEvent(swept, Do(Enter(1, KEY, 30000)), lim);
    Earlier(Led(30000), Do(Sweep(30000)), [Do(Enter(1, KEY, 30000))], lim);
    Earlier(Led(0), Tick(30000), [Do(Sweep(30000))] + [Do(Enter(1, KEY, 30000))], lim);
    Earlier(Start(), Do(Enter(0, KEY, 0)), [Tick(30000)] + ([Do(Sweep(30000))] + [Do(Enter(1, KEY, 30000))]), lim);
  }

  lemma SplitEnters(lim: Limits, swept: Clocked)
    requires swept == Clocked(Group(map[], [Call(KEY, 0, 1, Some(TimedOut), 1, Executing)], map[0 := Leads(0)]), 30000, map[])
    ensures Allowed(swept, Do(Enter(1, KEY, 30000)), lim) && After(swept, Do(Enter(1, KEY, 30000)), lim) == Split()
  {
  }

  lemma SplitSweeps(lim: Limits, swept: Clocked)
    requires swept == Clocked(Group(map[], [Call(KEY, 0, 1, Some(TimedOut), 1, Executing)], map[0 := Leads(0)]), 30000, map[])
    ensures Allowed(Led(30000), Do(Sweep(30000)), lim) && After(Led(30000), Do(Sweep(30000)), lim) == swept
  {
    var g := Led(30000).group;
    assert Stale(g, KEY, 30000);
    assert SweepEffect(g, 30000).heap == swept.group.heap;
  }

  lemma {:induction false} Earlier(x: Clocked, e: Event, rest: seq<Event>, lim: Limits)
    requires Allowed(x, e, lim) && TimedRuns(After(x, e, lim), rest, lim)
    ensures TimedRuns(x, [e] + rest, lim) && TimedFinal(x, [e] + rest, lim) == TimedFinal(After(x, e, lim), rest, lim)
  {
    assert ([e] + rest)[1..] == rest;
  }

  lemma {:induction false} OneEvent(x: Clocked, e: Event, lim: Limits)
    requires Allowed(x, e, lim)
    ensures TimedRuns(x, [e], lim) && TimedFinal(x, [e], lim) == After(x, e, lim)
  {
    assert TimedRuns(After(x, e, lim), [e][1..], lim);
  }

  // ---------------------------------------------------------------------------------------------
  // The sharded group
  // ---------------------------------------------------------------------------------------------

  datatype ClockedShards = ClockedShards(shards: Sharded, now: int, ends: map<Id, int>)

  datatype ShardEvent = ShardTick(dt: nat) | DoShard(step: ShardStep)

  /** The same clock over the union of the shards. */
  ghost function Joined(x: ClockedShards): Clocked {
    Clocked(Abs(x.shards), x.now, x.ends)
  }

  ghost predicate ShardAllowed(x: ClockedShards, e: ShardEvent, lim: Limits)
    requires WellFormed(x.shards)
  {
    match e
    case ShardTick(dt) => Allowed(Joined(x), Tick(dt), lim)
    case DoShard(step) =>
      && ShardEnabled(x.shards, step)
      && (step.Local? && step.step.Enter? ==> step.step.now == x.now)
      && (step.SweepShard? ==> step.now == x.now)
  }

  function ShardAfter(x: ClockedShards, e: ShardEvent, lim: Limits): ClockedShards
    requires WellFormed(x.shards) && ShardAllowed(x, e, lim)
  {
    match e
    case ShardTick(dt) => x.(now := x.now + dt)
    case DoShard(step) =>
      ClockedShards(ShardApply(x.shards, step), x.now,
                    if step.Local? && step.step.Finish? then x.ends[x.shards.who[step.step.c].id := x.now] else x.ends)
  }

  ghost predicate ShardTimedRuns(x: ClockedShards, events: seq<ShardEvent>, lim: Limits)
    decreases |events|
  {
    events == [] ||
    (WellFormed(x.shards) && ShardAllowed(x, events[0], lim) && ShardTimedRuns(ShardAfter(x, events[0], lim), events[1..], lim))
  }

  function ShardSteps(events: seq<ShardEvent>): seq<ShardStep>
    decreases |events|
  {
    if events == [] then [] else (if events[0].DoShard? then [events[0].step] else []) + ShardSteps(events[1..])
  }

  lemma SweptShardIsYoung(x: ClockedShards, lim: Limits, i: nat, key: Key)
    requires WellFormed(x.shards) && TimedInv(Joined(x), lim) && lim.fn + lim.window <= SWEEP_AGE
    requires i < |x.shards.tables| && key in x.shards.tables[i] && x.shards.tables[i][key] < |x.shards.heap|
    ensures !Stale(ShardGroup(x.shards, i), key, x.now)
  {
    UnionLookup(x.shards.tables, |x.shards.tables|, key);
    NothingStale(Joined(x), lim, key);
  }

  lemma ShardEventKeepsTimed(x: ClockedShards, e: ShardEvent, lim: Limits)
    requires WellFormed(x.shards) && ShardAllowed(x, e, lim) && TimedInv(Joined(x), lim)
    requires lim.fn + lim.window <= SWEEP_AGE
    ensures WellFormed(ShardAfter(x, e, lim).shards) && TimedInv(Joined(ShardAfter(x, e, lim)), lim)
    ensures e.DoShard? ==> SweepInTime(x.shards, e.step)
  {
    match e
    case ShardTick(dt) => EventKeepsTimed(Joined(x), Tick(dt), lim);
    case DoShard(step) =>
      if step.Local? {
        LocalStepRefines(x.shards, step.step);
        EventKeepsTimed(Joined(x), Do(step.step), lim);
      } else {
        forall key | key in x.shards.tables[step.i] ensures !Stale(ShardGroup(x.shards, step.i), key, x.now) {
          SweptShardIsYoung(x, lim, step.i, key);
        }
        IdleSweep(ShardGroup(x.shards, step.i), x.now);
        assert x.shards.tables[step.i := x.shards.tables[step.i]] == x.shards.tables;
      }
  }

  /** Under the same limits no sweep of a shard meets an old entry either, so every such run of the sharded group is
      one that refines the unsharded group. */
  lemma {:induction false} ShardsPunctual(x: ClockedShards, events: seq<ShardEvent>, lim: Limits)
    requires WellFormed(x.shards) && TimedInv(Joined(x), lim) && lim.fn + lim.window <= SWEEP_AGE
    requires ShardTimedRuns(x, events, lim)
    ensures ShardRuns(x.shards, ShardSteps(events))
    ensures Runs(Abs(x.shards), LocalSteps(ShardSteps(events)))
    ensures Abs(ShardFinal(x.shards, ShardSteps(events))) == Final(Abs(x.shards), LocalSteps(ShardSteps(events)))
    ensures Inv(Abs(ShardFinal(x.shards, ShardSteps(events))))
    decreases |events|
  {
    ShardsInTime(x, events, lim);
    ShardedRefinesSingle(x.shards, ShardSteps(events));
    RunKeepsInv(Abs(x.shards), LocalSteps(ShardSteps(events)));
  }

  lemma {:induction false} ShardsInTime(x: ClockedShards, events: seq<ShardEvent>, lim: Limits)
    requires WellFormed(x.shards) && TimedInv(Joined(x), lim) && lim.fn + lim.window <= SWEEP_AGE
    requires ShardTimedRuns(x, events, lim)
    ensures ShardRuns(x.shards, ShardSteps(events))
    decreases |events|
  {
    if events != [] {
      ShardEventKeepsTimed(x, events[0], lim);
      ShardsInTime(ShardAfter(x, events[0], lim), events[1..], lim);
      if events[0].DoShard? {
        assert ShardSteps(events)[1..] == ShardSteps(events[1..]);
      } else {
        assert ShardSteps(events) == ShardSteps(events[1..]);
      }
    }
  }
}
