/** The pre-filled identifier buffer in front of a generator, and the order numbers made from it. */
module BufferedIds {
  import opened Prelude
  import opened Snowflake

  /** `held` is the identifier the filler waits to put into the channel, `stopped` that the buffer is closed, `ended`
      that the filler has noticed; `out` lists what callers received. */
  datatype Buffered = Buffered(sf: Gen, channel: seq<int>, held: Option<int>, stopped: bool, ended: bool,
                               out: seq<int>, capacity: nat)

  datatype Step =
    | Generate(readings: seq<int>)
    | Send
    | Receive
    | Fallback(readings: seq<int>)
    | Stop
    | Quit

  ghost predicate Enabled(b: Buffered, step: Step) {
    match step
    case Generate(readings) => b.held.None? && !b.ended && Enough(b.sf, readings) && SinceEpoch(readings)
    case Send => b.held.Some? && |b.channel| < b.capacity
    case Receive => b.channel != []
    case Fallback(readings) => b.channel == [] && Enough(b.sf, readings) && SinceEpoch(readings)
    case Stop => !b.stopped
    case Quit => b.stopped && b.held.Some?
  }

  function Listed(id: Option<int>): seq<int> {
    if id.Some? then [id.value] else []
  }

  /** A filler that waits with an identifier may still get rid of it after the buffer is closed, and then goes on;
      it ends, and drops the identifier, when it notices the closing instead. */
  function Apply(b: Buffered, step: Step): Buffered
    requires Enabled(b, step)
  {
    match step
    case Generate(readings) => var (sf, id) := Next(b.sf, readings); b.(sf := sf, held := id)
    case Send => b.(channel := b.channel + [b.held.value], held := None)
    case Receive => b.(channel := b.channel[1..], out := b.out + [b.channel[0]])
    case Fallback(readings) => var (sf, id) := Next(b.sf, readings); b.(sf := sf, out := b.out + Listed(id))
    case Stop => b.(stopped := true)
    case Quit => b.(ended := true, held := None)
  }

  /** Every identifier that is handed out, buffered or held by the filler. */
  function All(b: Buffered): multiset<int> {
    multiset(b.out) + multiset(b.channel) + multiset(Listed(b.held))
  }

  ghost predicate OnceUpTo(ids: multiset<int>, last: int) {
    forall id :: id in ids ==> ids[id] == 1 && 0 <= id <= last
  }

  ghost predicate Distinct(b: Buffered) {
    ValidGen(b.sf) && OnceUpTo(All(b), LastId(b.sf))
  }

  lemma OnceMore(ids: multiset<int>, last: int, id: int)
    requires OnceUpTo(ids, last) && id > last && id >= 0
    ensures OnceUpTo(ids + multiset{id}, id)
  {
  }

  lemma OnceLess(ids: multiset<int>, last: int, fewer: multiset<int>)
    requires OnceUpTo(ids, last) && fewer <= ids
    ensures OnceUpTo(fewer, last)
  {
  }

  lemma GeneratedKeepsDistinct(b: Buffered, readings: seq<int>, b': Buffered)
    requires Distinct(b) && Enough(b.sf, readings) && SinceEpoch(readings)
    requires b'.sf == Next(b.sf, readings).0
    requires All(b') == All(b) + multiset(Listed(Next(b.sf, readings).1))
    ensures Distinct(b')
  {
    NextIncreases(b.sf, readings);
    var id := Next(b.sf, readings).1;
    if id.Some? {
      OnceMore(All(b), LastId(b.sf), id.value);
      assert multiset(Listed(id)) == multiset{id.value};
    }
  }

  lemma MovesKeepAll(b: Buffered, step: Step)
    requires Enabled(b, step) && (step.Send? || step.Receive? || step.Stop?)
    ensures All(Apply(b, step)) == All(b) && Apply(b, step).sf == b.sf
  {
    if step.Receive? {
      assert b.channel == [b.channel[0]] + b.channel[1..];
    }
  }

  lemma GenerationAdds(b: Buffered, step: Step)
    requires Enabled(b, step) && (step.Generate? || step.Fallback?)
    ensures All(Apply(b, step)) == All(b) + multiset(Listed(Next(b.sf, step.readings).1))
    ensures Apply(b, step).sf == Next(b.sf, step.readings).0
  {
  }

  lemma StepKeepsDistinct(b: Buffered, step: Step)
    requires Distinct(b) && Enabled(b, step)
    ensures Distinct(Apply(b, step))
  {
    if step.Generate? || step.Fallback? {
      GenerationAdds(b, step);
      GeneratedKeepsDistinct(b, step.readings, Apply(b, step));
    } else if step.Quit? {
      OnceLess(All(b), LastId(b.sf), All(Apply(b, step)));
    } else {
      MovesKeepAll(b, step);
    }
  }

  ghost predicate Runs(b: Buffered, steps: seq<Step>)
    decreases |steps|
  {
    steps == [] || (Enabled(b, steps[0]) && Runs(Apply(b, steps[0]), steps[1..]))
  }

  ghost function Final(b: Buffered, steps: seq<Step>): Buffered
    requires Runs(b, steps)
    decreases |steps|
  {
    if steps == [] then b else Final(Apply(b, steps[0]), steps[1..])
  }

  lemma {:induction false} RunStaysDistinct(b: Buffered, steps: seq<Step>)
    requires Distinct(b) && Runs(b, steps)
    ensures Distinct(Final(b, steps))
    decreases |steps|
  {
    if steps != [] {
      StepKeepsDistinct(b, steps[0]);
      RunStaysDistinct(Apply(b, steps[0]), steps[1..]);
    }
  }

  /** Once the filler has ended, no run makes it hold or send another identifier; what is buffered can still be taken. */
  lemma {:induction false} EndIsFinal(b: Buffered, steps: seq<Step>)
    requires b.ended && b.held.None? && Runs(b, steps)
    ensures var f := Final(b, steps); f.ended && f.held.None? && |f.channel| <= |b.channel|
    decreases |steps|
  {
    if steps != [] {
      EndIsFinal(Apply(b, steps[0]), steps[1..]);
    }
  }

  /** Closing lets a waiting filler end, with the identifier it holds dropped. */
  lemma ClosingEnds(b: Buffered)
    requires Enabled(b, Stop) && b.held.Some?
    ensures var closed := Apply(b, Stop);
      && closed.out == b.out && closed.channel == b.channel && closed.held == b.held && !Enabled(closed, Stop)
      && Enabled(closed, Quit)
      && var ended := Apply(closed, Quit);
         ended.ended && ended.held.None? && ended.out == b.out && ended.channel == b.channel
  {
  }

  function New(worker: nat, capacity: nat): Buffered {
    Buffered(Gen(worker, 0, 0), [], None, false, false, [], capacity)
  }

  lemma {:induction false} OnceMeansDistinct(s: seq<int>, i: nat, j: nat)
    requires i < j < |s|
    requires multiset(s)[s[i]] == 1
    ensures s[i] != s[j]
  {
    assert s == s[..i] + [s[i]] + s[i + 1..];
    assert s[i + 1..] == s[i + 1..j] + [s[j]] + s[j + 1..];
    assert multiset(s) == multiset(s[..i]) + multiset{s[i]} + multiset(s[i + 1..j]) + multiset{s[j]} + multiset(s[j + 1..]);
  }

  lemma OutOnce(b: Buffered, i: nat)
    requires Distinct(b) && i < |b.out|
    ensures multiset(b.out)[b.out[i]] == 1 && b.out[i] >= 0
  {
    var id := b.out[i];
    assert id in multiset(b.out);
    assert All(b)[id] == multiset(b.out)[id] + multiset(b.channel)[id] + multiset(Listed(b.held))[id];
    assert id in All(b);
  }

  /** In every interleaving of filler, channel consumers and the empty-buffer fallback no identifier is handed
      out twice, and the order numbers made from them are pairwise distinct. */
  lemma {:induction false} NoIdTwice(worker: nat, capacity: nat, steps: seq<Step>, i: nat, j: nat)
    requires worker < WORKERS && Runs(New(worker, capacity), steps)
    requires i < j < |Final(New(worker, capacity), steps).out|
    ensures var out := Final(New(worker, capacity), steps).out;
      && out[i] != out[j] && out[i] >= 0 && out[j] >= 0
      && OrderNo(out[i]) != OrderNo(out[j])
  {
    var b := Final(New(worker, capacity), steps);
    RunStaysDistinct(New(worker, capacity), steps);
    OutOnce(b, i);
    OutOnce(b, j);
    OnceMeansDistinct(b.out, i, j);
    OrderNoInjective(b.out[i], b.out[j]);
  }

  // ---------------------------------------------------------------------------------------------
  // Order numbers
  // ---------------------------------------------------------------------------------------------

  function Digit(d: nat): char
    requires d < 10
  {
    "0123456789"[d]
  }

  function Decimal(n: nat): string {
    if n < 10 then [Digit(n)] else Decimal(n / 10) + [Digit(n % 10)]
  }

  function OrderNo(id: nat): string {
    "MS" + Decimal(id)
  }

  lemma {:induction false} DecimalInjective(a: nat, b: nat)
    requires Decimal(a) == Decimal(b)
    ensures a == b
  {
    DecimalEnd(a);
    DecimalEnd(b);
    if a >= 10 && b >= 10 {
      assert Decimal(a)[..|Decimal(a)| - 1] == Decimal(a / 10);
      assert Decimal(b)[..|Decimal(b)| - 1] == Decimal(b / 10);
      DecimalInjective(a / 10, b / 10);
    }
  }

  lemma {:induction false} DecimalEnd(a: nat)
    ensures |Decimal(a)| >= 1 && (|Decimal(a)| == 1 <==> a < 10)
    ensures Decimal(a)[|Decimal(a)| - 1] == Digit(a % 10)
  {
  }

  lemma OrderNoInjective(a: nat, b: nat)
    ensures OrderNo(a) == OrderNo(b) <==> a == b
  {
    if OrderNo(a) == OrderNo(b) {
      assert OrderNo(a)[2..] == Decimal(a) && OrderNo(b)[2..] == Decimal(b);
      DecimalInjective(a, b);
    }
  }

  // ---------------------------------------------------------------------------------------------
  // The buffer as an object
  // ---------------------------------------------------------------------------------------------

  class IdBuffer {
    const sf: Generator
    const capacity: nat
    var channel: seq<int>
    var held: Option<int>
    var stopped: bool
    var ended: bool
    ghost var out: seq<int>

    ghost function View(): Buffered
      reads this, sf
    {
      Buffered(sf.View(), channel, held, stopped, ended, out, capacity)
    }

    constructor (sf: Generator, capacity: nat)
      ensures this.sf == sf && View() == Buffered(sf.View(), [], None, false, false, [], capacity)
    {
      this.sf, this.capacity := sf, capacity;
      channel, held, stopped, ended, out := [], None, false, false, [];
    }

    /** One turn of the filler up to the point where it waits for room in the channel. */
    method FillOne(readings: seq<int>)
      requires ValidGen(sf.View()) && Enabled(View(), Generate(readings))
      modifies this`held, sf
      ensures View() == Apply(old(View()), Generate(readings)) && ValidGen(sf.View())
    {
      held := sf.NextID(readings);
    }

    method SendHeld()
      requires Enabled(View(), Send)
      modifies this`channel, this`held
      ensures View() == Apply(old(View()), Send)
    {
      channel, held := channel + [held.value], None;
    }

    /** Takes from the channel, or generates directly when the channel is empty. */
    method NextID(readings: seq<int>) returns (id: Option<int>)
      requires ValidGen(sf.View()) && Enough(sf.View(), readings) && SinceEpoch(readings)
      modifies this`channel, this`out, sf
      ensures ValidGen(sf.View())
      ensures View() == Apply(old(View()), if old(channel) != [] then Receive else Fallback(readings))
      ensures out == old(out) + Listed(id)
      ensures old(channel) != [] ==> id == Some(old(channel)[0])
    {
      if channel != [] {
        id := Some(channel[0]);
        channel := channel[1..];
      } else {
        id := sf.NextID(readings);
      }
      out := out + Listed(id);
    }

    method Close()
      requires Enabled(View(), Stop)
      modifies this`stopped
      ensures View() == Apply(old(View()), Stop)
    {
      stopped := true;
    }

    /** The waiting filler notices that the buffer is closed. */
    method EndFilling()
      requires Enabled(View(), Quit)
      modifies this`ended, this`held
      ensures View() == Apply(old(View()), Quit)
    {
      ended, held := true, None;
    }
  }
}
