/** Clock-driven 64-bit identifiers: 41 bits of time, 10 of worker, 12 of sequence. */
module Snowflake {
  import opened Prelude
  import opened Bits

  const EPOCH := 1704067200000
  const WORKERS := 1024
  const SEQUENCES := 4096
  const TIME_UNIT := 4194304
  const TIME_SPAN := 0x200_0000_0000
  const WORD := 0x1_0000_0000_0000_0000
  const SIGN := 0x8000_0000_0000_0000

  /** The generator's fields; `lastStamp` is zero before the first identifier. */
  datatype Gen = Gen(worker: nat, sequence: nat, lastStamp: int)

  ghost predicate ValidGen(g: Gen) {
    g.worker < WORKERS && g.sequence < SEQUENCES
  }

  // ---------------------------------------------------------------------------------------------
  // Packing
  // ---------------------------------------------------------------------------------------------

  /** The signed reading of a 64-bit pattern. */
  function Signed(pattern: nat): int {
    if pattern < SIGN then pattern else pattern - WORD
  }

  /** `t << 22 | worker << 12 | sequence` in 64-bit arithmetic. */
  function Pack(t: int, worker: nat, sequence: nat): int {
    Signed(BitOr(BitOr((t * TIME_UNIT) % WORD, worker * SEQUENCES), sequence))
  }

  lemma {:induction false} PackPattern(t: int, worker: nat, sequence: nat)
    requires worker < WORKERS && sequence < SEQUENCES
    ensures BitOr(BitOr((t * TIME_UNIT) % WORD, worker * SEQUENCES), sequence)
         == (t % (2 * TIME_SPAN)) * TIME_UNIT + worker * SEQUENCES + sequence
  {
    var u := t % (2 * TIME_SPAN);
    Remainder(t * TIME_UNIT, WORD, t / (2 * TIME_SPAN), u * TIME_UNIT);
    PackFields(u, worker, sequence);
  }

  lemma {:induction false} PackFields(u: nat, worker: nat, sequence: nat)
    requires worker < WORKERS && sequence < SEQUENCES
    ensures BitOr(BitOr(u * TIME_UNIT, worker * SEQUENCES), sequence) == u * TIME_UNIT + worker * SEQUENCES + sequence
  {
    assert Pow2(12) == SEQUENCES && Pow2(22) == TIME_UNIT;
    OrDisjoint(u, 22, worker * SEQUENCES);
    OrDisjoint(u * WORKERS + worker, 12, sequence);
    assert u * TIME_UNIT + worker * SEQUENCES == (u * WORKERS + worker) * SEQUENCES;
  }

  /** The fields do not overlap, and the identifier is the plain sum of the shifted fields exactly while the time
      from the epoch fits 41 bits and a sign; it is negative before the epoch. */
  lemma PackExactly(t: int, worker: nat, sequence: nat)
    requires worker < WORKERS && sequence < SEQUENCES
    ensures Pack(t, worker, sequence) == t * TIME_UNIT + worker * SEQUENCES + sequence <==> -TIME_SPAN <= t < TIME_SPAN
    ensures -TIME_SPAN <= t < TIME_SPAN ==> -SIGN <= Pack(t, worker, sequence) < SIGN
    ensures -TIME_SPAN <= t < TIME_SPAN ==> (0 <= Pack(t, worker, sequence) <==> 0 <= t)
  {
    PackPattern(t, worker, sequence);
    FieldsBound(t % (2 * TIME_SPAN), worker, sequence);
    if 0 <= t < TIME_SPAN {
      Remainder(t, 2 * TIME_SPAN, 0, t);
    } else if -TIME_SPAN <= t < 0 {
      Remainder(t, 2 * TIME_SPAN, -1, t + 2 * TIME_SPAN);
    }
  }

  lemma FieldsBound(u: nat, worker: nat, sequence: nat)
    requires u < 2 * TIME_SPAN && worker < WORKERS && sequence < SEQUENCES
    ensures 0 <= u * TIME_UNIT + worker * SEQUENCES + sequence < WORD
  {
  }

  function Decode(id: nat): (nat, nat, nat) {
    (id / TIME_UNIT, id / SEQUENCES % WORKERS, id % SEQUENCES)
  }

  lemma DecodePack(t: nat, worker: nat, sequence: nat)
    requires worker < WORKERS && sequence < SEQUENCES && t < TIME_SPAN
    ensures Pack(t, worker, sequence) >= 0
    ensures Decode(Pack(t, worker, sequence)) == (t, worker, sequence)
  {
    PackExactly(t, worker, sequence);
    var id := Pack(t, worker, sequence);
    Remainder(id, TIME_UNIT, t, worker * SEQUENCES + sequence);
    Remainder(id, SEQUENCES, t * WORKERS + worker, sequence);
    Remainder(t * WORKERS + worker, WORKERS, t, worker);
  }

  /** Generators with different worker ids never produce the same identifier. */
  lemma WorkersNeverCollide(t: nat, worker: nat, sequence: nat, t': nat, worker': nat, sequence': nat)
    requires worker < WORKERS && sequence < SEQUENCES && t < TIME_SPAN
    requires worker' < WORKERS && sequence' < SEQUENCES && t' < TIME_SPAN
    requires worker != worker'
    ensures Pack(t, worker, sequence) != Pack(t', worker', sequence')
  {
    DecodePack(t, worker, sequence);
    DecodePack(t', worker', sequence');
  }

  // ---------------------------------------------------------------------------------------------
  // One identifier
  // ---------------------------------------------------------------------------------------------

  /** The first clock reading past `stamp`. */
  function FirstPast(readings: seq<int>, stamp: int): Option<int> {
    if readings == [] then None
    else if readings[0] > stamp then Some(readings[0])
    else FirstPast(readings[1..], stamp)
  }

  /** The clock readings of one call, in order, long enough to end the wait for the next millisecond. */
  ghost predicate Enough(g: Gen, readings: seq<int>) {
    && readings != []
    && (readings[0] == g.lastStamp && g.sequence == SEQUENCES - 1 ==> FirstPast(readings[1..], g.lastStamp).Some?)
  }

  function Next(g: Gen, readings: seq<int>): (Gen, Option<int>)
    requires Enough(g, readings)
  {
    var first := readings[0];
    if first < g.lastStamp then (g, None)
    else
      var sequence := if first == g.lastStamp then BitAnd(g.sequence + 1, SEQUENCES - 1) else 0;
      FirstPastBound(readings, g.lastStamp);
      FirstPastBound(readings[1..], g.lastStamp);
      SequenceMask(g.sequence + 1);
      var now := if first == g.lastStamp && sequence == 0 && FirstPast(readings[1..], g.lastStamp).Some?
                 then FirstPast(readings[1..], g.lastStamp).value else first;
      (Gen(g.worker, sequence, now), Some(Pack(now - EPOCH, g.worker, sequence)))
  }

  lemma {:induction false} SequenceMask(x: nat)
    ensures BitAnd(x, SEQUENCES - 1) == x % SEQUENCES
  {
    assert Pow2(12) == SEQUENCES;
    AndMask(x, 12);
  }

  lemma {:induction false} FirstPastBound(readings: seq<int>, stamp: int)
    ensures var r := FirstPast(readings, stamp); r.Some? ==> r.value > stamp && r.value in readings
  {
    if readings != [] {
      FirstPastBound(readings[1..], stamp);
    }
  }

  class Generator {
    const workerID: nat
    var sequence: nat
    var lastStamp: int

    ghost function View(): Gen
      reads this
    {
      Gen(workerID, sequence, lastStamp)
    }

    constructor (workerID: nat)
      requires workerID < WORKERS
      ensures View() == Gen(workerID, 0, 0) && ValidGen(View())
    {
      this.workerID := workerID;
      sequence, lastStamp := 0, 0;
    }

    method NextID(readings: seq<int>) returns (id: Option<int>)
      requires ValidGen(View()) && Enough(View(), readings)
      modifies this
      ensures ValidGen(View())
      ensures (View(), id) == Next(old(View()), readings)
    {
      SequenceMask(sequence + 1);
      var now := readings[0];
      if now < lastStamp {
        return None;
      }
      if now == lastStamp {
        sequence := BitAnd(sequence + 1, SEQUENCES - 1);
        if sequence == 0 {
          var i := 1;
          while now <= lastStamp
            invariant 1 <= i <= |readings|
            invariant now <= lastStamp ==>
              FirstPast(readings[i..], lastStamp).Some? && FirstPast(readings[i..], lastStamp) == FirstPast(readings[1..], lastStamp)
            invariant now > lastStamp ==> Some(now) == FirstPast(readings[1..], lastStamp)
            decreases |readings| - i
          {
            assert readings[i..][1..] == readings[i + 1..];
            now := readings[i];
            i := i + 1;
          }
        }
      } else {
        sequence := 0;
      }
      lastStamp := now;
      return Some(Pack(now - EPOCH, workerID, sequence));
    }
  }

  /** A worker id outside the ten-bit range is refused. */
  method NewSnowflake(workerID: int) returns (g: Option<Generator>)
    ensures g.Some? <==> 0 <= workerID <= WORKERS - 1
    ensures g.Some? ==> fresh(g.value) && g.value.View() == Gen(workerID, 0, 0)
  {
    if workerID < 0 || workerID > WORKERS - 1 {
      return None;
    }
    var generator := new Generator(workerID);
    return Some(generator);
  }

  // ---------------------------------------------------------------------------------------------
  // Runs of one generator
  // ---------------------------------------------------------------------------------------------

  /** Every reading is within 41 bits of the epoch, on either side. */
  ghost predicate InRange(readings: seq<int>) {
    forall i :: 0 <= i < |readings| ==> EPOCH - TIME_SPAN <= readings[i] < EPOCH + TIME_SPAN
  }

  ghost predicate SinceEpoch(readings: seq<int>) {
    forall i :: 0 <= i < |readings| ==> EPOCH <= readings[i] < EPOCH + TIME_SPAN
  }

  /** The identifier last produced, as a number; negative before the first. */
  function LastId(g: Gen): int {
    (g.lastStamp - EPOCH) * TIME_UNIT + g.worker * SEQUENCES + g.sequence
  }

  /** A successful call produces the new last identifier, larger than the one before; a clock that has moved
      backward is refused without any change. */
  lemma NextIncreases(g: Gen, readings: seq<int>)
    requires ValidGen(g) && Enough(g, readings) && InRange(readings)
    ensures var (g', id) := Next(g, readings);
      && ValidGen(g') && g'.worker == g.worker
      && (id.None? <==> readings[0] < g.lastStamp)
      && (id.None? ==> g' == g)
      && (id.Some? ==> id.value == LastId(g') && LastId(g') > LastId(g) && -SIGN <= id.value < SIGN)
      && (id.Some? && SinceEpoch(readings) ==> id.value >= 0)
  {
    var (g', id) := Next(g, readings);
    SequenceMask(g.sequence + 1);
    FirstPastBound(readings[1..], g.lastStamp);
    if id.Some? {
      PackExactly(g'.lastStamp - EPOCH, g'.worker, g'.sequence);
    }
  }

  /** A success is stamped with the first reading, unless that is the last stamp again and its 4096 numbers are used
      up; then it is stamped with the first later reading. Within a millisecond numbers go up one by one, from zero. */
  lemma NextMeans(g: Gen, readings: seq<int>)
    requires ValidGen(g) && Enough(g, readings) && readings[0] >= g.lastStamp
    ensures var (g', id) := Next(g, readings);
      && (readings[0] > g.lastStamp ==> g'.lastStamp == readings[0] && g'.sequence == 0)
      && (readings[0] == g.lastStamp && g.sequence < SEQUENCES - 1 ==>
            g'.lastStamp == readings[0] && g'.sequence == g.sequence + 1)
      && (readings[0] == g.lastStamp && g.sequence == SEQUENCES - 1 ==> g'.sequence == 0 && FirstLater(readings, g.lastStamp, g'.lastStamp))
  {
    SequenceMask(g.sequence + 1);
    if readings[0] == g.lastStamp && g.sequence == SEQUENCES - 1 {
      FirstPastExactly(readings, g.lastStamp);
    }
  }

  /** The first reading after this stamp. */
  ghost predicate FirstLater(readings: seq<int>, stamp: int, now: int) {
    exists i :: 0 <= i < |readings| && readings[i] == now > stamp && forall j :: 0 <= j < i ==> readings[j] <= stamp
  }

  lemma {:induction false} FirstPastExactly(readings: seq<int>, stamp: int)
    requires FirstPast(readings, stamp).Some?
    ensures FirstLater(readings, stamp, FirstPast(readings, stamp).value)
  {
    if readings[0] > stamp {
      assert readings[0] == FirstPast(readings, stamp).value;
    } else {
      FirstPastExactly(readings[1..], stamp);
      var i :| 0 <= i < |readings[1..]| && readings[1..][i] == FirstPast(readings, stamp).value > stamp
               && forall j :: 0 <= j < i ==> readings[1..][j] <= stamp;
      forall j | 0 <= j < i + 1 ensures readings[j] <= stamp {
        if j > 0 {
          assert readings[j] == readings[1..][j - 1];
        }
      }
      assert readings[i + 1] == readings[1..][i];
    }
  }

  /** Read back, an identifier tells the time it was made at, its worker and its number within the millisecond. */
  lemma IdTellsTime(g: Gen, readings: seq<int>)
    requires ValidGen(g) && Enough(g, readings) && SinceEpoch(readings) && readings[0] >= g.lastStamp
    ensures var (g', id) := Next(g, readings);
      id.Some? && id.value >= 0 && Decode(id.value) == (g'.lastStamp - EPOCH, g.worker, g'.sequence)
  {
    var (g', id) := Next(g, readings);
    SequenceMask(g.sequence + 1);
    FirstPastBound(readings[1..], g.lastStamp);
    DecodePack(g'.lastStamp - EPOCH, g.worker, g'.sequence);
  }

  /** The clock readings of consecutive calls. */
  ghost predicate Clocked(g: Gen, calls: seq<seq<int>>)
    decreases |calls|
  {
    calls == [] ||
    (Enough(g, calls[0]) && InRange(calls[0]) && Clocked(Next(g, calls[0]).0, calls[1..]))
  }

  /** The identifiers handed out, failed calls left out. */
  ghost function Ids(g: Gen, calls: seq<seq<int>>): seq<int>
    requires Clocked(g, calls)
    decreases |calls|
  {
    if calls == [] then []
    else
      var (g', id) := Next(g, calls[0]);
      (if id.Some? then [id.value] else []) + Ids(g', calls[1..])
  }

  ghost predicate Ascending(above: int, ids: seq<int>) {
    && (forall i :: 0 <= i < |ids| ==> above < ids[i] && -SIGN <= ids[i] < SIGN)
    && (forall i, j :: 0 <= i < j < |ids| ==> ids[i] < ids[j])
  }

  lemma AscendingFrom(above: int, id: int, rest: seq<int>)
    requires above < id && -SIGN <= id < SIGN && Ascending(id, rest)
    ensures Ascending(above, [id] + rest)
  {
  }

  /** Whatever the clock does, within a millisecond, across a sequence wrap or after a refused step back,
      the identifiers of one generator strictly increase and stay below 2^63. */
  lemma {:induction false} IdsIncrease(g: Gen, calls: seq<seq<int>>)
    requires ValidGen(g) && Clocked(g, calls)
    ensures Ascending(LastId(g), Ids(g, calls))
    decreases |calls|
  {
    if calls != [] {
      NextIncreases(g, calls[0]);
      var (g', id) := Next(g, calls[0]);
      IdsIncrease(g', calls[1..]);
      if id.Some? {
        AscendingFrom(LastId(g), id.value, Ids(g', calls[1..]));
      } else {
        assert Ids(g, calls) == Ids(g', calls[1..]);
      }
    }
  }
}
