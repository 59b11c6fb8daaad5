/**
 Request coalescing as a step machine: one table of calls in flight, the goroutines inside `Do`, the
 window timers and the periodic sweep. Times are milliseconds.

 A call is created by its leader and stays in the heap after its table entry is gone, because joiners
 hold a pointer to it. Each execution of `Do` is one caller.
 */
module SingleFlight {
  import opened Prelude
  import opened MapSums

  const SWEEP_AGE := 10000

  type Key = string
  type Id = nat
  type Caller = nat

  /** What `Do` returns besides the count: the function's value or error, or the sweep's timeout. */
  datatype Outcome = Returned(value: int, failed: bool) | TimedOut

  /** Where the leader of a call is: inside fn, about to delete the entry itself, or gone with a timer left to delete it. */
  datatype Stage = Executing | Closing | Windowed | Removed

  /** `signals` counts the calls of wg.Done; a second one panics. */
  datatype Call = Call(key: Key, ts: int, count: nat, result: Option<Outcome>, signals: nat, stage: Stage)

  datatype Phase = Leads(id: Id) | Waits(id: Id) | Got(id: Id, outcome: Outcome)

  datatype Group = Group(calls: map<Key, Id>, heap: seq<Call>, who: map<Caller, Phase>)

  datatype Step =
    | Enter(c: Caller, key: Key, now: int)
    | Finish(c: Caller, outcome: Outcome, window: bool)
    | Close(c: Caller)
    | Fire(id: Id)
    | Wake(c: Caller)
    | Sweep(now: int)

  ghost predicate Enabled(g: Group, step: Step) {
    match step
    case Enter(c, key, now) => c !in g.who && (key in g.calls ==> g.calls[key] < |g.heap|)
    case Finish(c, outcome, window) =>
      c in g.who && g.who[c].Leads? && g.who[c].id < |g.heap| && g.heap[g.who[c].id].stage == Executing && outcome.Returned?
    case Close(c) =>
      c in g.who && g.who[c].Leads? && g.who[c].id < |g.heap|
      && g.heap[g.who[c].id].stage == Closing && g.heap[g.who[c].id].result.Some?
    case Fire(id) => id < |g.heap| && g.heap[id].stage == Windowed
    case Wake(c) =>
      c in g.who && g.who[c].Waits? && g.who[c].id < |g.heap|
      && g.heap[g.who[c].id].signals > 0 && g.heap[g.who[c].id].result.Some?
    case Sweep(now) => forall key :: key in g.calls ==> g.calls[key] < |g.heap|
  }

  /** A cached result is returned at once, a call in progress is joined, otherwise the caller leads a new call. */
  function EnterEffect(g: Group, c: Caller, key: Key, now: int): Group
    requires key in g.calls ==> g.calls[key] < |g.heap|
  {
    if key in g.calls then
      var id := g.calls[key];
      var call := g.heap[id];
      g.(heap := g.heap[id := call.(count := call.count + 1)],
         who := g.who[c := if call.stage != Executing && call.result.Some? then Got(id, call.result.value) else Waits(id)])
    else
      Group(g.calls[key := |g.heap|], g.heap + [Call(key, now, 1, None, 0, Executing)], g.who[c := Leads(|g.heap|)])
  }

  function FinishEffect(g: Group, c: Caller, outcome: Outcome, window: bool): Group
    requires c in g.who && g.who[c].id < |g.heap|
  {
    var id := g.who[c].id;
    var call := g.heap[id];
    g.(heap := g.heap[id := call.(result := Some(outcome), signals := call.signals + 1,
                                  stage := if window then Windowed else Closing)],
       who := if window then g.who[c := Got(id, outcome)] else g.who)
  }

  /** Deletion is by key, whichever call the key leads to by then. */
  function CloseEffect(g: Group, c: Caller): Group
    requires c in g.who && g.who[c].id < |g.heap| && g.heap[g.who[c].id].result.Some?
  {
    var id := g.who[c].id;
    Group(g.calls - {g.heap[id].key}, g.heap[id := g.heap[id].(stage := Removed)],
          g.who[c := Got(id, g.heap[id].result.value)])
  }

  function FireEffect(g: Group, id: Id): Group
    requires id < |g.heap|
  {
    g.(calls := g.calls - {g.heap[id].key}, heap := g.heap[id := g.heap[id].(stage := Removed)])
  }

  predicate Stale(g: Group, key: Key, now: int)
    requires key in g.calls && g.calls[key] < |g.heap|
  {
    now - g.heap[g.calls[key]].ts > SWEEP_AGE
  }

  predicate Swept(g: Group, id: Id, now: int)
    requires id < |g.heap|
  {
    g.heap[id].key in g.calls && g.calls[g.heap[id].key] == id && now - g.heap[id].ts > SWEEP_AGE
  }

  /** A call that is not finished is given the timeout error and signalled when its entry is swept. */
  function AfterSweep(call: Call, swept: bool): Call {
    if swept && call.stage == Executing then call.(result := Some(TimedOut), signals := call.signals + 1) else call
  }

  /** Old entries are deleted; one that is not finished is timed out. */
  function SweepEffect(g: Group, now: int): Group
    requires forall key :: key in g.calls ==> g.calls[key] < |g.heap|
  {
    Group(map key | key in g.calls && !Stale(g, key, now) :: g.calls[key],
          seq(|g.heap|, (id: nat) requires id < |g.heap| =>
            AfterSweep(g.heap[id], Swept(g, id, now))),
          g.who)
  }

  function Apply(g: Group, step: Step): Group
    requires Enabled(g, step)
  {
    match step
    case Enter(c, key, now) => EnterEffect(g, c, key, now)
    case Finish(c, outcome, window) => FinishEffect(g, c, outcome, window)
    case Close(c) => CloseEffect(g, c)
    case Fire(id) => FireEffect(g, id)
    case Wake(c) => g.(who := g.who[c := Got(g.who[c].id, g.heap[g.who[c].id].result.value)])
    case Sweep(now) => SweepEffect(g, now)
  }

  // ---------------------------------------------------------------------------------------------
  // The invariant
  // ---------------------------------------------------------------------------------------------

  ghost predicate GoodCall(g: Group, id: Id)
    requires id < |g.heap|
  {
    var call := g.heap[id];
    && (call.stage != Removed <==> call.key in g.calls && g.calls[call.key] == id)
    && (call.result.Some? <==> call.stage != Executing)
    && call.signals == (if call.stage == Executing then 0 else 1)
    && (call.result.Some? ==> call.result.value.Returned?)
    && call.count >= 1
  }

  ghost predicate GoodCaller(g: Group, c: Caller)
    requires c in g.who
  {
    && g.who[c].id < |g.heap|
    && (g.who[c].Leads? ==> g.heap[g.who[c].id].stage == Executing || g.heap[g.who[c].id].stage == Closing)
    && (g.who[c].Got? ==> g.heap[g.who[c].id].result == Some(g.who[c].outcome))
  }

  ghost predicate Indexed(g: Group) {
    forall key :: key in g.calls ==> g.calls[key] < |g.heap| && g.heap[g.calls[key]].key == key
  }

  /** Every entry is in the table exactly until its own deletion, is signalled exactly once, and has one leader. */
  ghost predicate Inv(g: Group) {
    && Indexed(g)
    && (forall id :: 0 <= id < |g.heap| ==> GoodCall(g, id))
    && (forall c :: c in g.who ==> GoodCaller(g, c))
    && (forall c, d :: c in g.who && d in g.who && g.who[c].Leads? && g.who[d].Leads? && g.who[c].id == g.who[d].id ==> c == d)
  }

  /** The sweep finds nothing old. Module TimedFlight derives this from how long functions and windows last. */
  ghost predicate InTime(g: Group, step: Step)
    requires Enabled(g, step)
  {
    step.Sweep? ==> forall key :: key in g.calls ==> !Stale(g, key, step.now)
  }

  lemma EnterKeepsInv(g: Group, c: Caller, key: Key, now: int)
    requires Inv(g) && Enabled(g, Enter(c, key, now))
    ensures Inv(EnterEffect(g, c, key, now))
  {
    var g' := EnterEffect(g, c, key, now);
    forall id | 0 <= id < |g'.heap| ensures GoodCall(g', id) {
      if id < |g.heap| { assert GoodCall(g, id); }
    }
    forall d | d in g'.who ensures GoodCaller(g', d) {
      if d != c { assert GoodCaller(g, d); }
    }
  }

  lemma FinishKeepsInv(g: Group, c: Caller, outcome: Outcome, window: bool)
    requires Inv(g) && Enabled(g, Finish(c, outcome, window))
    ensures Inv(FinishEffect(g, c, outcome, window))
  {
    var g' := FinishEffect(g, c, outcome, window);
    forall id | 0 <= id < |g'.heap| ensures GoodCall(g', id) {
      assert GoodCall(g, id);
    }
    forall d | d in g'.who ensures GoodCaller(g', d) {
      assert GoodCaller(g, d);
      assert GoodCall(g, g.who[c].id);
    }
  }

  /** Delete-by-key removes the deleter's own entry. */
  lemma DeleterOwnsEntry(g: Group, step: Step)
    requires Inv(g) && Enabled(g, step) && (step.Close? || step.Fire?)
    ensures var id := if step.Close? then g.who[step.c].id else step.id;
      g.heap[id].key in g.calls && g.calls[g.heap[id].key] == id
  {
    var id := if step.Close? then g.who[step.c].id else step.id;
    assert GoodCall(g, id);
  }

  lemma RemovalKeepsInv(g: Group, step: Step)
    requires Inv(g) && Enabled(g, step) && (step.Close? || step.Fire?)
    ensures Inv(Apply(g, step))
  {
    var g' := Apply(g, step);
    DeleterOwnsEntry(g, step);
    forall id | 0 <= id < |g'.heap| ensures GoodCall(g', id) {
      assert GoodCall(g, id);
    }
    forall d | d in g'.who ensures GoodCaller(g', d) {
      assert GoodCaller(g, d);
    }
  }

  lemma WakeKeepsInv(g: Group, c: Caller)
    requires Inv(g) && Enabled(g, Wake(c))
    ensures Inv(Apply(g, Wake(c)))
  {
    var g' := Apply(g, Wake(c));
    forall id | 0 <= id < |g'.heap| ensures GoodCall(g', id) {
      assert GoodCall(g, id);
    }
    forall d | d in g'.who ensures GoodCaller(g', d) {
      assert GoodCaller(g, d);
    }
  }

  lemma IdleSweep(g: Group, now: int)
    requires Enabled(g, Sweep(now)) && forall key :: key in g.calls ==> !Stale(g, key, now)
    ensures SweepEffect(g, now) == g
  {
  }

  lemma StepKeepsInv(g: Group, step: Step)
    requires Inv(g) && Enabled(g, step) && InTime(g, step)
    ensures Inv(Apply(g, step))
  {
    match step
    case Enter(c, key, now) => EnterKeepsInv(g, c, key, now);
    case Finish(c, outcome, window) => FinishKeepsInv(g, c, outcome, window);
    case Close(c) => RemovalKeepsInv(g, step);
    case Fire(id) => RemovalKeepsInv(g, step);
    case Wake(c) => WakeKeepsInv(g, c);
    case Sweep(now) => IdleSweep(g, now);
  }

  /** A sweep keeps the table in order exactly when no entry is older than ten seconds: every entry still has
      a deleter on its way, and a swept one loses its entry under it. */
  lemma SweepSafeExactly(g: Group, now: int)
    requires Inv(g)
    ensures Inv(SweepEffect(g, now)) <==> forall key :: key in g.calls ==> !Stale(g, key, now)
  {
    if forall key :: key in g.calls ==> !Stale(g, key, now) {
      IdleSweep(g, now);
    } else {
      var key :| key in g.calls && Stale(g, key, now);
      var id := g.calls[key];
      var g' := SweepEffect(g, now);
      assert GoodCall(g, id);
      assert g'.heap[id].stage != Removed && key !in g'.calls;
      assert !GoodCall(g', id);
    }
  }

  // ---------------------------------------------------------------------------------------------
  // What the invariant means
  // ---------------------------------------------------------------------------------------------

  /** At most one execution of fn per key is in progress. */
  lemma OneExecutionPerKey(g: Group, i: Id, j: Id)
    requires Inv(g) && i < |g.heap| && j < |g.heap|
    requires g.heap[i].stage == Executing && g.heap[j].stage == Executing && g.heap[i].key == g.heap[j].key
    ensures i == j
  {
    assert GoodCall(g, i) && GoodCall(g, j);
  }

  /** Everybody who has returned from the same call carries the same value and error, the one its leader left. */
  lemma JoinersAgree(g: Group, c: Caller, d: Caller)
    requires Inv(g) && c in g.who && d in g.who
    requires g.who[c].Got? && g.who[d].Got? && g.who[c].id == g.who[d].id
    ensures g.who[c].outcome == g.who[d].outcome && g.who[c].outcome.Returned?
  {
    assert GoodCaller(g, c) && GoodCaller(g, d) && GoodCall(g, g.who[c].id);
  }

  /** A caller enters a call that is in the table under its key at that moment, never one already removed. */
  lemma EntersLiveCall(g: Group, c: Caller, key: Key, now: int)
    requires Inv(g) && Enabled(g, Enter(c, key, now))
    ensures var g' := EnterEffect(g, c, key, now); var id := g'.who[c].id;
      && key in g'.calls && g'.calls[key] == id
      && g'.heap[id].key == key && g'.heap[id].stage != Removed
      && (id < |g.heap| ==> g.heap[id].stage != Removed)
  {
    if key in g.calls {
      assert GoodCall(g, g.calls[key]);
    }
  }

  ghost predicate Runs(g: Group, steps: seq<Step>)
    decreases |steps|
  {
    steps == [] || (Enabled(g, steps[0]) && InTime(g, steps[0]) && Runs(Apply(g, steps[0]), steps[1..]))
  }

  ghost function Final(g: Group, steps: seq<Step>): Group
    requires Runs(g, steps)
    decreases |steps|
  {
    if steps == [] then g else Final(Apply(g, steps[0]), steps[1..])
  }

  lemma {:induction false} RunKeepsInv(g: Group, steps: seq<Step>)
    requires Inv(g) && Runs(g, steps)
    ensures Inv(Final(g, steps))
    decreases |steps|
  {
    if steps != [] {
      StepKeepsInv(g, steps[0]);
      RunKeepsInv(Apply(g, steps[0]), steps[1..]);
    }
  }

  /** Calls keep their key and, once there, their result; callers keep the call they entered. */
  lemma StepKeepsCalls(g: Group, step: Step)
    requires Inv(g) && Enabled(g, step) && InTime(g, step)
    ensures var g' := Apply(g, step);
      && |g.heap| <= |g'.heap|
      && (forall id :: 0 <= id < |g.heap| ==> g'.heap[id].key == g.heap[id].key)
      && (forall id :: 0 <= id < |g.heap| && g.heap[id].result.Some? ==> g'.heap[id].result == g.heap[id].result)
      && (forall c :: c in g.who ==> c in g'.who && g'.who[c].id == g.who[c].id)
      && (forall c :: c in g.who && g.who[c].Got? ==> g'.who[c] == g.who[c])
  {
    match step
    case Enter(c, key, now) =>
    case Finish(c, outcome, window) => assert GoodCall(g, g.who[c].id);
    case Close(c) =>
    case Fire(id) =>
    case Wake(c) =>
    case Sweep(now) => IdleSweep(g, now);
  }

  /** From entering on, a caller is bound to its call: what it finally returns is that call's result, under its key. */
  lemma {:induction false} FateOfCaller(g: Group, steps: seq<Step>, c: Caller)
    requires Inv(g) && Runs(g, steps) && c in g.who
    ensures var f := Final(g, steps);
      && c in f.who && f.who[c].id == g.who[c].id < |f.heap|
      && g.who[c].id < |g.heap| && f.heap[f.who[c].id].key == g.heap[g.who[c].id].key
      && (f.who[c].Got? ==> f.heap[f.who[c].id].result == Some(f.who[c].outcome))
    decreases |steps|
  {
    assert GoodCaller(g, c);
    if steps != [] {
      StepKeepsInv(g, steps[0]);
      StepKeepsCalls(g, steps[0]);
      FateOfCaller(Apply(g, steps[0]), steps[1..], c);
    }
  }

  /** A caller gets the result of its key's call at once if it is there, waits for it if the call is in progress, and
      leads a new call if the key has none. */
  lemma EnterMeans(g: Group, c: Caller, key: Key, now: int)
    requires Inv(g) && Enabled(g, Enter(c, key, now))
    ensures var g' := Apply(g, Enter(c, key, now));
      && (key !in g.calls ==> g'.who[c] == Leads(|g.heap|) && g'.heap == g.heap + [Call(key, now, 1, None, 0, Executing)])
      && (key in g.calls && g.heap[g.calls[key]].result.None? ==> g'.who[c] == Waits(g.calls[key]))
      && (key in g.calls && g.heap[g.calls[key]].result.Some? ==>
            g'.who[c] == Got(g.calls[key], g.heap[g.calls[key]].result.value))
      && (key in g.calls ==> |g'.heap| == |g.heap| && g'.calls == g.calls)
  {
    if key in g.calls {
      assert GoodCall(g, g.calls[key]);
    }
  }

  /** When fn returns, its value and error become the result of its call, whatever they are; a leader that leaves
      the entry to a timer has got them too. */
  lemma FinishMeans(g: Group, c: Caller, outcome: Outcome, window: bool)
    requires Inv(g) && Enabled(g, Finish(c, outcome, window))
    ensures var g' := Apply(g, Finish(c, outcome, window)); var id := g.who[c].id;
      && g.heap[id].result == None && g'.heap[id].result == Some(outcome)
      && (window ==> g'.who[c] == Got(id, outcome))
      && forall other :: 0 <= other < |g.heap| && other != id ==> g'.heap[other] == g.heap[other]
  {
    assert GoodCaller(g, c) && GoodCall(g, g.who[c].id);
  }

  /** From then on that is the call's result, and what every caller of the call that returns has got. */
  lemma {:induction false} FinishDecides(g: Group, c: Caller, outcome: Outcome, window: bool, rest: seq<Step>, d: Caller)
    requires Inv(g) && Enabled(g, Finish(c, outcome, window)) && Runs(Apply(g, Finish(c, outcome, window)), rest)
    ensures var f := Final(Apply(g, Finish(c, outcome, window)), rest); var id := g.who[c].id;
      && id < |f.heap| && f.heap[id].result == Some(outcome)
      && (d in f.who && f.who[d].Got? && f.who[d].id == id ==> f.who[d].outcome == outcome)
  {
    var g' := Apply(g, Finish(c, outcome, window));
    FinishMeans(g, c, outcome, window);
    StepKeepsInv(g, Finish(c, outcome, window));
    ResultStays(g', rest, g.who[c].id);
    RunKeepsInv(g', rest);
    var f := Final(g', rest);
    if d in f.who {
      assert GoodCaller(f, d);
    }
  }

  lemma {:induction false} ResultStays(g: Group, steps: seq<Step>, id: Id)
    requires Inv(g) && Runs(g, steps) && id < |g.heap| && g.heap[id].result.Some?
    ensures id < |Final(g, steps).heap| && Final(g, steps).heap[id].result == g.heap[id].result
    decreases |steps|
  {
    if steps != [] {
      StepKeepsInv(g, steps[0]);
      StepKeepsCalls(g, steps[0]);
      ResultStays(Apply(g, steps[0]), steps[1..], id);
    }
  }

  /** In the course of these steps the leader of the call finishes with this outcome. */
  ghost predicate FinishedWith(g: Group, steps: seq<Step>, id: Id, outcome: Outcome)
    requires Runs(g, steps)
    decreases |steps|
  {
    steps != [] &&
    ((steps[0].Finish? && g.who[steps[0].c].id == id && steps[0].outcome == outcome)
     || FinishedWith(Apply(g, steps[0]), steps[1..], id, outcome))
  }

  lemma OnlyFinishGivesResult(g: Group, step: Step, id: Id)
    requires Inv(g) && Enabled(g, step) && InTime(g, step)
    requires id < |Apply(g, step).heap| && Apply(g, step).heap[id].result.Some?
    requires id < |g.heap| ==> g.heap[id].result.None?
    ensures step.Finish? && g.who[step.c].id == id && Apply(g, step).heap[id].result == Some(step.outcome)
  {
    if step.Sweep? {
      IdleSweep(g, step.now);
    }
  }

  /** Conversely nobody gets anything but what fn returned: a result that is there at the end and was not at the start
      is the outcome with which the call's leader finished. */
  lemma {:induction false} ResultsAreReturned(g: Group, steps: seq<Step>, id: Id)
    requires Inv(g) && Runs(g, steps) && (id < |g.heap| ==> g.heap[id].result.None?)
    requires id < |Final(g, steps).heap| && Final(g, steps).heap[id].result.Some?
    ensures FinishedWith(g, steps, id, Final(g, steps).heap[id].result.value)
    decreases |steps|
  {
    if steps != [] {
      var g' := Apply(g, steps[0]);
      StepKeepsInv(g, steps[0]);
      if id < |g'.heap| && g'.heap[id].result.Some? {
        OnlyFinishGivesResult(g, steps[0], id);
        ResultStays(g', steps[1..], id);
      } else {
        ResultsAreReturned(g', steps[1..], id);
      }
    }
  }

  /** What a sweep does: an old entry leaves the table, a call executing under it is timed out and signalled, and
      everything else stays. */
  lemma SweepMeans(g: Group, now: int, id: Id)
    requires Inv(g) && id < |g.heap|
    ensures var g' := SweepEffect(g, now);
      var call, aged := g.heap[id], g.heap[id].stage != Removed && now - g.heap[id].ts > SWEEP_AGE;
      && (call.stage != Removed ==> (call.key in g'.calls && g'.calls[call.key] == id <==> !aged))
      && g'.heap[id].key == call.key && g'.heap[id].stage == call.stage
      && g'.heap[id].result == (if aged && call.stage == Executing then Some(TimedOut) else call.result)
      && g'.heap[id].signals == call.signals + (if aged && call.stage == Executing then 1 else 0)
      && g'.who == g.who
  {
    assert GoodCall(g, id);
  }

  /** The callers of a call so far, its leader included. */
  function CallersOf(who: map<Caller, Phase>, id: Id): set<Caller> {
    set c | c in who && who[c].id == id
  }

  /** The count that `Do` returns is the number of callers of the call. */
  ghost predicate Counted(g: Group) {
    && (forall c :: c in g.who ==> g.who[c].id < |g.heap|)
    && (forall id :: 0 <= id < |g.heap| ==> g.heap[id].count == |CallersOf(g.who, id)|)
  }

  lemma OneMoreCaller(who: map<Caller, Phase>, c: Caller, phase: Phase, id: Id)
    requires c !in who
    ensures |CallersOf(who[c := phase], id)| == |CallersOf(who, id)| + if phase.id == id then 1 else 0
  {
    if phase.id == id {
      assert CallersOf(who[c := phase], id) == CallersOf(who, id) + {c};
    } else {
      assert CallersOf(who[c := phase], id) == CallersOf(who, id);
    }
  }

  lemma EnterKeepsCounted(g: Group, c: Caller, key: Key, now: int)
    requires Counted(g) && Enabled(g, Enter(c, key, now))
    ensures Counted(EnterEffect(g, c, key, now))
  {
    var g' := EnterEffect(g, c, key, now);
    forall id | 0 <= id < |g'.heap| ensures g'.heap[id].count == |CallersOf(g'.who, id)| {
      OneMoreCaller(g.who, c, g'.who[c], id);
      if id == |g.heap| {
        assert CallersOf(g.who, id) == {};
      }
    }
  }

  /** Every step keeps the count, whatever a sweep finds. */
  lemma StepKeepsCounted(g: Group, step: Step)
    requires Counted(g) && Enabled(g, step)
    ensures Counted(Apply(g, step))
  {
    if step.Enter? {
      EnterKeepsCounted(g, step.c, step.key, step.now);
    } else {
      var g' := Apply(g, step);
      forall id | 0 <= id < |g'.heap| ensures g'.heap[id].count == |CallersOf(g'.who, id)| {
        assert CallersOf(g'.who, id) == CallersOf(g.who, id);
      }
    }
  }

  lemma {:induction false} RunKeepsCounted(g: Group, steps: seq<Step>)
    requires Counted(g) && Runs(g, steps)
    ensures Counted(Final(g, steps))
    decreases |steps|
  {
    if steps != [] {
      StepKeepsCounted(g, steps[0]);
      RunKeepsCounted(Apply(g, steps[0]), steps[1..]);
    }
  }

  /** What goes wrong otherwise: once a sweep has removed a call that is still executing, the next caller
      executes fn for the same key a second time, and the first leader's finish signals a second time. */
  lemma StaleSweepSplits(g: Group, key: Key, now: int, c: Caller, leader: Caller, outcome: Outcome)
    requires Inv(g) && key in g.calls && Stale(g, key, now) && g.heap[g.calls[key]].stage == Executing
    requires c !in g.who && leader in g.who && g.who[leader] == Leads(g.calls[key]) && outcome.Returned?
    ensures Enabled(SweepEffect(g, now), Enter(c, key, now))
    ensures var id := g.calls[key]; var g' := EnterEffect(SweepEffect(g, now), c, key, now);
      && g'.who[c].Leads? && g'.who[c].id != id < |g'.heap|
      && g'.heap[g'.who[c].id].stage == Executing && g'.heap[id].stage == Executing
      && g'.heap[g'.who[c].id].key == g'.heap[id].key == key
      && Enabled(g', Finish(leader, outcome, false))
      && FinishEffect(g', leader, outcome, false).heap[id].signals == 2
  {
    var id := g.calls[key];
    assert GoodCall(g, id);
    assert Swept(g, id, now);
    assert key !in SweepEffect(g, now).calls;
  }

  // ---------------------------------------------------------------------------------------------
  // The group as an object
  // ---------------------------------------------------------------------------------------------

  /** `Do` locks the table on entry; a caller that has to wait returns through `AwaitResult`. When fn has returned,
      value, done flag and signal are written without the lock, and are assumed here to become visible together. */
  class CallGroup {
    var calls: map<Key, Id>
    var heap: seq<Call>
    var who: map<Caller, Phase>

    ghost function View(): Group
      reads this
    {
      Group(calls, heap, who)
    }

    constructor ()
      ensures View() == Group(map[], [], map[]) && Inv(View())
    {
      calls, heap, who := map[], [], map[];
    }

    method BeginDo(c: Caller, key: Key, now: int) returns (cached: Option<Outcome>, count: nat)
      requires Inv(View()) && Enabled(View(), Enter(c, key, now))
      modifies this
      ensures Inv(View()) && View() == EnterEffect(old(View()), c, key, now)
      ensures cached.Some? <==> who[c].Got?
      ensures cached.Some? ==> who[c] == Got(who[c].id, cached.value)
      ensures cached.Some? <==> key in old(calls) && old(heap)[old(calls)[key]].result.Some?
      ensures count == heap[who[c].id].count
    {
      EnterKeepsInv(View(), c, key, now);
      if key in calls {
        var id := calls[key];
        var call := heap[id];
        assert GoodCall(View(), id);
        heap := heap[id := call.(count := call.count + 1)];
        if call.stage != Executing && call.result.Some? {
          who := who[c := Got(id, call.result.value)];
          return call.result, call.count + 1;
        }
        who := who[c := Waits(id)];
        return None, call.count + 1;
      }
      var id := |heap|;
      heap := heap + [Call(key, now, 1, None, 0, Executing)];
      calls := calls[key := id];
      who := who[c := Leads(id)];
      return None, 1;
    }

    method AwaitResult(c: Caller) returns (outcome: Outcome, count: nat)
      requires Inv(View()) && Enabled(View(), Wake(c))
      modifies this`who
      ensures Inv(View()) && View() == Apply(old(View()), Wake(c))
      ensures heap[who[c].id].result == Some(outcome) && count == heap[who[c].id].count
    {
      WakeKeepsInv(View(), c);
      outcome, count := heap[who[c].id].result.value, heap[who[c].id].count;
      who := who[c := Got(who[c].id, outcome)];
    }

    /** fn has returned; with no merge window the entry is deleted at once, otherwise a timer will do it. */
    method EndDo(c: Caller, outcome: Outcome, mergeWindow: int) returns (count: nat)
      requires Inv(View()) && Enabled(View(), Finish(c, outcome, mergeWindow > 0))
      modifies this
      ensures Inv(View())
      ensures var finished := FinishEffect(old(View()), c, outcome, mergeWindow > 0);
        View() == if mergeWindow > 0 then finished else CloseEffect(finished, c)
      ensures count == heap[who[c].id].count
    {
      FinishKeepsInv(View(), c, outcome, mergeWindow > 0);
      var id := who[c].id;
      var call := heap[id];
      heap := heap[id := call.(result := Some(outcome), signals := call.signals + 1,
                               stage := if mergeWindow > 0 then Windowed else Closing)];
      if mergeWindow > 0 {
        who := who[c := Got(id, outcome)];
      } else {
        RemovalKeepsInv(View(), Close(c));
        calls := calls - {heap[id].key};
        heap := heap[id := heap[id].(stage := Removed)];
        who := who[c := Got(id, outcome)];
      }
      count := heap[id].count;
    }

    method WindowEnds(id: Id)
      requires Inv(View()) && Enabled(View(), Fire(id))
      modifies this`calls, this`heap
      ensures Inv(View()) && View() == FireEffect(old(View()), id)
    {
      RemovalKeepsInv(View(), Fire(id));
      calls := calls - {heap[id].key};
      heap := heap[id := heap[id].(stage := Removed)];
    }

    method VisitEntry(key: Key, id: Id, now: int)
      requires id < |heap|
      modifies this`calls, this`heap
      ensures calls == if now - old(heap)[id].ts > SWEEP_AGE then old(calls) - {key} else old(calls)
      ensures heap == if now - old(heap)[id].ts > SWEEP_AGE then old(heap)[id := AfterSweep(old(heap)[id], true)] else old(heap)
    {
      if now - heap[id].ts > SWEEP_AGE {
        if heap[id].stage == Executing {
          heap := heap[id := heap[id].(result := Some(TimedOut), signals := heap[id].signals + 1)];
        }
        calls := calls - {key};
      }
    }

    /** One sweep of the cleanup loop over the keys of the table. */
    method Cleanup(now: int)
      requires Indexed(View())
      modifies this`calls, this`heap
      ensures View() == SweepEffect(old(View()), now)
    {
      ghost var g := View();
      var rest := calls;
      SweepStarts(g, now);
      while rest != map[]
        invariant Sweeping(g, now, rest, calls, heap)
        decreases |rest|
      {
        var key := PickKey(rest);
        SweepContinues(g, now, rest, key, calls, heap);
        VisitEntry(key, rest[key], now);
        rest := rest - {key};
      }
      SweepEnds(g, now, calls, heap);
    }

    method Stats() returns (activeCalls: nat, totalWaited: int)
      requires Inv(View())
      ensures activeCalls == |calls| && totalWaited == WaitedBy(View())
    {
      ghost var g := View();
      activeCalls, totalWaited := |calls|, 0;
      var rest := calls;
      while rest != map[]
        invariant forall key :: key in rest ==> key in g.calls && rest[key] == g.calls[key]
        invariant totalWaited + Sum(rest, Extra(g)) == Sum(g.calls, Extra(g))
        decreases |rest|
      {
        var key := PickKey(rest);
        SumDrop(rest, Extra(g), key);
        totalWaited := totalWaited + (heap[rest[key]].count - 1);
        rest := rest - {key};
      }
    }
  }

  /** The table and the heap in the middle of a sweep, with the keys of `rest` still to be looked at. */
  ghost predicate Sweeping(g: Group, now: int, rest: map<Key, Id>, calls: map<Key, Id>, heap: seq<Call>) {
    && Enabled(g, Sweep(now))
    && (forall key :: key in rest ==> key in g.calls && rest[key] == g.calls[key])
    && TableSwept(g, now, rest, calls) && HeapSwept(g, now, rest, heap)
  }

  ghost predicate TableSwept(g: Group, now: int, rest: map<Key, Id>, calls: map<Key, Id>)
    requires Enabled(g, Sweep(now))
  {
    && (forall key :: key in calls <==> key in g.calls && (key in rest || !Stale(g, key, now)))
    && (forall key :: key in calls ==> calls[key] == g.calls[key])
  }

  ghost predicate HeapSwept(g: Group, now: int, rest: map<Key, Id>, heap: seq<Call>) {
    && |heap| == |g.heap|
    && forall id :: 0 <= id < |heap| ==>
         heap[id] == AfterSweep(g.heap[id], g.heap[id].key !in rest && Swept(g, id, now))
  }

  lemma TableContinues(g: Group, now: int, rest: map<Key, Id>, key: Key, calls: map<Key, Id>)
    requires Enabled(g, Sweep(now)) && TableSwept(g, now, rest, calls) && key in rest && key in g.calls
    ensures TableSwept(g, now, rest - {key}, if Stale(g, key, now) then calls - {key} else calls)
  {
  }

  lemma HeapContinues(g: Group, now: int, rest: map<Key, Id>, key: Key, heap: seq<Call>)
    requires Enabled(g, Sweep(now)) && Indexed(g) && HeapSwept(g, now, rest, heap) && key in rest && key in g.calls
    ensures var id := g.calls[key];
      heap[id] == g.heap[id] &&
      HeapSwept(g, now, rest - {key}, if Stale(g, key, now) then heap[id := AfterSweep(heap[id], true)] else heap)
  {
  }

  lemma SweepStarts(g: Group, now: int)
    requires Enabled(g, Sweep(now))
    ensures Sweeping(g, now, g.calls, g.calls, g.heap)
  {
  }

  lemma SweepContinues(g: Group, now: int, rest: map<Key, Id>, key: Key, calls: map<Key, Id>, heap: seq<Call>)
    requires Indexed(g) && Sweeping(g, now, rest, calls, heap) && key in rest
    ensures var id := rest[key];
      && id < |heap| && heap[id] == g.heap[id]
      && (if now - heap[id].ts > SWEEP_AGE
          then Sweeping(g, now, rest - {key}, calls - {key}, heap[id := AfterSweep(heap[id], true)])
          else Sweeping(g, now, rest - {key}, calls, heap))
  {
    TableContinues(g, now, rest, key, calls);
    HeapContinues(g, now, rest, key, heap);
  }

  lemma SweepEnds(g: Group, now: int, calls: map<Key, Id>, heap: seq<Call>)
    requires Sweeping(g, now, map[], calls, heap)
    ensures Group(calls, heap, g.who) == SweepEffect(g, now)
  {
  }

  method PickKey(m: map<Key, Id>) returns (key: Key)
    requires m != map[]
    ensures key in m
  {
    ghost var k := SomeKey(m);
    var keys := m.Keys;
    assert k in keys;
    key :| key in keys;
  }

  /** Callers of a call beyond its leader. */
  ghost function Extra(g: Group): Id -> int {
    (id: Id) => if id < |g.heap| then g.heap[id].count - 1 else 0
  }

  /** What is summed for a call is the number of its callers beyond the leader. */
  lemma ExtraCountsCallers(g: Group, id: Id)
    requires Counted(g) && id < |g.heap|
    ensures Extra(g)(id) + 1 == |CallersOf(g.who, id)|
  {
  }

  ghost function WaitedBy(g: Group): int {
    Sum(g.calls, Extra(g))
  }
}
