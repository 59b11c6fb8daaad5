/** The sharded group: a table per shard, chosen by hash, and its equivalence with one unsharded table. */
module ShardedFlight {
  import opened Prelude
  import opened Bits
  import opened MapSums
  import opened SingleFlight

  const DEFAULT_SHARDS := 256
  const FNV_OFFSET := 14695981039346656037
  const FNV_PRIME := 1099511628211
  const WORD := 0x1_0000_0000_0000_0000

  // ---------------------------------------------------------------------------------------------
  // Choosing the shard
  // ---------------------------------------------------------------------------------------------

  function Fnv(h: nat, s: string): nat
    decreases |s|
  {
    if s == [] then h else Fnv(BitXor(h, s[0] as int % 256) * FNV_PRIME % WORD, s[1..])
  }

  /** FNV-1a over the bytes of a key; keys are ASCII. */
  method Hash(s: string) returns (h: nat)
    ensures h == Fnv(FNV_OFFSET, s)
  {
    h := FNV_OFFSET;
    for i := 0 to |s|
      invariant Fnv(h, s[i..]) == Fnv(FNV_OFFSET, s)
    {
      assert s[i..][1..] == s[i + 1..];
      h := BitXor(h, s[i] as int % 256) * FNV_PRIME % WORD;
    }
  }

  lemma {:induction false} XorStep(a: nat, b: nat, half: nat)
    requires BitXor(a / 2, b / 2) == half
    ensures BitXor(a, b) == 2 * half + (if a % 2 != b % 2 then 1 else 0)
  {
    XorHalves(a, b);
  }

  lemma XorOfA()
    ensures BitXor(FNV_OFFSET, 97) == 0xcbf2_9ce4_8422_2344
  {
    XorZero(114812351869895750);
    XorStep(229624703739791500, 1, 114812351869895750);
    XorStep(459249407479583001, 3, 229624703739791501);
    XorStep(918498814959166002, 6, 459249407479583002);
    XorStep(1836997629918332004, 12, 918498814959166004);
    XorStep(3673995259836664009, 24, 1836997629918332008);
    XorStep(7347990519673328018, 48, 3673995259836664017);
    XorStep(14695981039346656037, 97, 7347990519673328034);
  }

  lemma {:induction false} FnvOne(h: nat, c: char, xored: nat)
    requires xored == BitXor(h, c as int % 256)
    ensures Fnv(h, [c]) == xored * FNV_PRIME % WORD
  {
    assert [c][1..] == [];
  }

  lemma {:induction false} XorOfLetter(h: nat, letter: nat)
    requires h == FNV_OFFSET && letter == 97
    ensures BitXor(h, letter) == 0xcbf2_9ce4_8422_2344
  {
    XorOfA();
  }

  lemma TimesPrime(x: nat)
    requires x == 0xcbf2_9ce4_8422_2344
    ensures x * FNV_PRIME % WORD == 0xaf63_dc4c_8601_ec8c
  {
  }

  /** The published value of 64-bit FNV-1a for the one-byte key "a". */
  lemma {:induction false} HashOfA(h: nat, key: Key)
    requires h == FNV_OFFSET && |key| == 1 && key[0] == 'a'
    ensures Fnv(h, key) == 0xaf63_dc4c_8601_ec8c
  {
    var letter := key[0] as int % 256;
    XorOfLetter(h, letter);
    var x := BitXor(h, letter);
    TimesPrime(x);
    FnvOne(h, key[0], x);
    assert key == [key[0]];
  }

  /** A shard count that is not a positive power of two is replaced by the default. */
  function ShardCount(numShards: int): nat {
    if numShards <= 0 || BitAnd(numShards, numShards - 1) != 0 then DEFAULT_SHARDS else numShards
  }

  function Route(key: Key, n: nat): nat
    requires n > 0
  {
    BitAnd(Fnv(FNV_OFFSET, key), n - 1)
  }

  lemma ShardCountIsPower(numShards: int)
    ensures ShardCount(numShards) > 0 && IsPowerOfTwo(ShardCount(numShards))
    ensures ShardCount(numShards) == numShards || ShardCount(numShards) == DEFAULT_SHARDS
    ensures numShards > 0 && IsPowerOfTwo(numShards) ==> ShardCount(numShards) == numShards
  {
    assert Pow2(8) == DEFAULT_SHARDS;
    if numShards > 0 {
      PowerOfTwoTest(numShards);
    }
  }

  /** Masking is the remainder, so the index is always inside the shard table. */
  lemma {:induction false} RouteInRange(key: Key, n: nat)
    requires n > 0 && IsPowerOfTwo(n)
    ensures Route(key, n) == Fnv(FNV_OFFSET, key) % n < n
  {
    var k: nat :| n == Pow2(k);
    AndMask(Fnv(FNV_OFFSET, key), k);
  }

  /** Where the sharded `Do` sends a key. */
  method PickShard(key: Key, n: nat) returns (index: nat)
    requires n > 0 && IsPowerOfTwo(n)
    ensures index == Route(key, n) < n
  {
    RouteInRange(key, n);
    var h := Hash(key);
    index := BitAnd(h, n - 1);
  }

  // ---------------------------------------------------------------------------------------------
  // The sharded state
  // ---------------------------------------------------------------------------------------------

  datatype Sharded = Sharded(tables: seq<map<Key, Id>>, heap: seq<Call>, who: map<Caller, Phase>)

  /** Steps reach one shard; each shard has its own sweep. */
  datatype ShardStep = Local(step: Step) | SweepShard(i: nat, now: int)

  ghost predicate Routed(tables: seq<map<Key, Id>>, n: nat) {
    && n > 0
    && (forall i, key :: 0 <= i < |tables| && key in tables[i] ==> Route(key, n) == i)
  }

  ghost predicate WellFormed(sh: Sharded) {
    |sh.tables| > 0 && IsPowerOfTwo(|sh.tables|) && Routed(sh.tables, |sh.tables|)
  }

  /** The union of the shard tables. */
  function Union(tables: seq<map<Key, Id>>): map<Key, Id> {
    if tables == [] then map[] else Union(tables[..|tables| - 1]) + tables[|tables| - 1]
  }

  ghost function Abs(sh: Sharded): Group {
    Group(Union(sh.tables), sh.heap, sh.who)
  }

  lemma {:induction false} UnionLookup(tables: seq<map<Key, Id>>, n: nat, key: Key)
    requires Routed(tables, n)
    ensures var r := Route(key, n);
      && (key in Union(tables) <==> r < |tables| && key in tables[r])
      && (r < |tables| && key in tables[r] ==> Union(tables)[key] == tables[r][key])
  {
    if tables != [] {
      UnionLookup(tables[..|tables| - 1], n, key);
    }
  }

  function Put(table: map<Key, Id>, key: Key, id: Id): map<Key, Id> {
    table[key := id]
  }

  /** Changing one shard at one of its keys changes the union at that key. */
  lemma UnionPut(tables: seq<map<Key, Id>>, key: Key, id: Id)
    requires Routed(tables, |tables|) && Route(key, |tables|) < |tables|
    ensures var r := Route(key, |tables|); var after := tables[r := Put(tables[r], key, id)];
      Routed(after, |tables|) && Union(after) == Union(tables)[key := id]
  {
    var r := Route(key, |tables|);
    var after := tables[r := Put(tables[r], key, id)];
    forall k ensures k in Union(after) <==> k in Union(tables)[key := id] {
      UnionLookup(tables, |tables|, k);
      UnionLookup(after, |tables|, k);
    }
    forall k | k in Union(after) ensures Union(after)[k] == Union(tables)[key := id][k] {
      UnionLookup(tables, |tables|, k);
      UnionLookup(after, |tables|, k);
    }
  }

  lemma UnionRemove(tables: seq<map<Key, Id>>, key: Key)
    requires Routed(tables, |tables|) && Route(key, |tables|) < |tables|
    ensures var r := Route(key, |tables|); var after := tables[r := tables[r] - {key}];
      Routed(after, |tables|) && Union(after) == Union(tables) - {key}
  {
    var r := Route(key, |tables|);
    var after := tables[r := tables[r] - {key}];
    forall k ensures k in Union(after) <==> k in Union(tables) - {key} {
      UnionLookup(tables, |tables|, k);
      UnionLookup(after, |tables|, k);
    }
    forall k | k in Union(after) ensures Union(after)[k] == (Union(tables) - {key})[k] {
      UnionLookup(tables, |tables|, k);
      UnionLookup(after, |tables|, k);
    }
  }

  /** The key whose shard a step works on. */
  function KeyOf(sh: Sharded, step: Step): Option<Key> {
    match step
    case Enter(_, key, _) => Some(key)
    case Close(c) => if c in sh.who && sh.who[c].id < |sh.heap| then Some(sh.heap[sh.who[c].id].key) else None
    case Fire(id) => if id < |sh.heap| then Some(sh.heap[id].key) else None
    case _ => None
  }

  /** What the group of one shard sees. */
  function ShardGroup(sh: Sharded, i: nat): Group
    requires i < |sh.tables|
  {
    Group(sh.tables[i], sh.heap, sh.who)
  }

  function ShardOf(sh: Sharded, step: Step): nat
    requires |sh.tables| > 0
  {
    var key := KeyOf(sh, step);
    if key.Some? then Route(key.value, |sh.tables|) else 0
  }

  ghost predicate ShardEnabled(sh: Sharded, s: ShardStep)
    requires WellFormed(sh)
  {
    match s
    case Local(step) => !step.Sweep? && ShardOf(sh, step) < |sh.tables| && Enabled(ShardGroup(sh, ShardOf(sh, step)), step)
    case SweepShard(i, now) => i < |sh.tables| && Enabled(ShardGroup(sh, i), Sweep(now))
  }

  function ShardApply(sh: Sharded, s: ShardStep): Sharded
    requires WellFormed(sh) && ShardEnabled(sh, s)
  {
    var i := if s.Local? then ShardOf(sh, s.step) else s.i;
    var g := Apply(ShardGroup(sh, i), if s.Local? then s.step else Sweep(s.now));
    Sharded(sh.tables[i := g.calls], g.heap, g.who)
  }

  // ---------------------------------------------------------------------------------------------
  // Refinement
  // ---------------------------------------------------------------------------------------------

  /** A step inside one shard is the same step of the unsharded group. */
  lemma LocalStepRefines(sh: Sharded, step: Step)
    requires WellFormed(sh) && ShardEnabled(sh, Local(step))
    ensures Enabled(Abs(sh), step)
    ensures WellFormed(ShardApply(sh, Local(step)))
    ensures Abs(ShardApply(sh, Local(step))) == Apply(Abs(sh), step)
  {
    var n := |sh.tables|;
    match step
    case Enter(c, key, now) =>
      UnionLookup(sh.tables, n, key);
      if key in Union(sh.tables) {
        assert sh.tables[Route(key, n) := sh.tables[Route(key, n)]] == sh.tables;
      } else {
        UnionPut(sh.tables, key, |sh.heap|);
      }
    case Close(c) =>
      UnionRemove(sh.tables, sh.heap[sh.who[c].id].key);
    case Fire(id) =>
      UnionRemove(sh.tables, sh.heap[id].key);
    case Finish(c, outcome, window) =>
      assert sh.tables[0 := sh.tables[0]] == sh.tables;
    case Wake(c) =>
      assert sh.tables[0 := sh.tables[0]] == sh.tables;
  }

  /** Conversely a shard is ready for whatever the unsharded group is ready for. */
  lemma EnabledTogether(sh: Sharded, step: Step)
    requires WellFormed(sh) && !step.Sweep? && Enabled(Abs(sh), step)
    ensures ShardEnabled(sh, Local(step))
  {
    var key := KeyOf(sh, step);
    if key.Some? {
      RouteInRange(key.value, |sh.tables|);
      UnionLookup(sh.tables, |sh.tables|, key.value);
    }
  }

  /** A run of shard steps in which no sweep meets an entry older than ten seconds. */
  ghost predicate ShardRuns(sh: Sharded, steps: seq<ShardStep>)
    decreases |steps|
  {
    steps == [] ||
    (WellFormed(sh) && ShardEnabled(sh, steps[0]) && SweepInTime(sh, steps[0]) && ShardRuns(ShardApply(sh, steps[0]), steps[1..]))
  }

  ghost predicate SweepInTime(sh: Sharded, s: ShardStep)
    requires WellFormed(sh) && ShardEnabled(sh, s)
  {
    s.SweepShard? ==> forall key :: key in sh.tables[s.i] ==> !Stale(ShardGroup(sh, s.i), key, s.now)
  }

  ghost function ShardFinal(sh: Sharded, steps: seq<ShardStep>): Sharded
    requires ShardRuns(sh, steps)
    decreases |steps|
  {
    if steps == [] then sh else ShardFinal(ShardApply(sh, steps[0]), steps[1..])
  }

  /** The steps without the sweeps. */
  function LocalSteps(steps: seq<ShardStep>): seq<Step>
    decreases |steps|
  {
    if steps == [] then []
    else (if steps[0].Local? then [steps[0].step] else []) + LocalSteps(steps[1..])
  }

  /** In every run the union of the shard tables is the table of one unsharded group that takes the same
      steps, with the same calls and the same results for every caller. */
  lemma {:induction false} ShardedRefinesSingle(sh: Sharded, steps: seq<ShardStep>)
    requires WellFormed(sh) && ShardRuns(sh, steps)
    ensures Runs(Abs(sh), LocalSteps(steps))
    ensures Abs(ShardFinal(sh, steps)) == Final(Abs(sh), LocalSteps(steps))
    ensures WellFormed(ShardFinal(sh, steps))
    decreases |steps|
  {
    if steps != [] {
      var next := ShardApply(sh, steps[0]);
      match steps[0] {
        case Local(step) =>
          LocalStepRefines(sh, step);
          ShardedRefinesSingle(next, steps[1..]);
          assert LocalSteps(steps)[1..] == LocalSteps(steps[1..]);
        case SweepShard(i, now) =>
          IdleSweep(ShardGroup(sh, i), now);
          assert next == sh by {
            assert sh.tables[i := sh.tables[i]] == sh.tables;
          }
          ShardedRefinesSingle(next, steps[1..]);
          assert LocalSteps(steps) == LocalSteps(steps[1..]);
      }
    }
  }

  // ---------------------------------------------------------------------------------------------
  // Sweeping all shards
  // ---------------------------------------------------------------------------------------------

  ghost predicate KnownIds(g: Group) {
    forall key :: key in g.calls ==> g.calls[key] < |g.heap|
  }

  /** The group after a sweep of the keys that are routed to shards lo to hi. */
  function SweepRange(g: Group, now: int, n: nat, lo: nat, hi: nat): Group
    requires n > 0 && KnownIds(g)
  {
    Group(map key | key in g.calls && !(lo <= Route(key, n) < hi && Stale(g, key, now)) :: g.calls[key],
          seq(|g.heap|, (id: nat) requires id < |g.heap| =>
            AfterSweep(g.heap[id], lo <= Route(g.heap[id].key, n) < hi && Swept(g, id, now))),
          g.who)
  }

  /** Table and heap of the sweep of one shard, seen from the union. */
  lemma ShardSweepCalls(sh: Sharded, i: nat, now: int)
    requires WellFormed(sh) && ShardEnabled(sh, SweepShard(i, now)) && KnownIds(Abs(sh))
    ensures var after := ShardApply(sh, SweepShard(i, now));
      WellFormed(after) && Union(after.tables) == SweepRange(Abs(sh), now, |sh.tables|, i, i + 1).calls
  {
    var n := |sh.tables|;
    var after := ShardApply(sh, SweepShard(i, now));
    var expected := SweepRange(Abs(sh), now, n, i, i + 1).calls;
    forall key
      ensures key in Union(after.tables) <==> key in expected
      ensures key in Union(after.tables) ==> Union(after.tables)[key] == expected[key]
    {
      UnionLookup(sh.tables, n, key);
      UnionLookup(after.tables, n, key);
    }
  }

  lemma ShardSweepHeap(sh: Sharded, i: nat, now: int)
    requires WellFormed(sh) && ShardEnabled(sh, SweepShard(i, now)) && KnownIds(Abs(sh))
    ensures ShardApply(sh, SweepShard(i, now)).heap == SweepRange(Abs(sh), now, |sh.tables|, i, i + 1).heap
  {
    var after := ShardApply(sh, SweepShard(i, now));
    var expected := SweepRange(Abs(sh), now, |sh.tables|, i, i + 1);
    forall id | 0 <= id < |sh.heap| ensures after.heap[id] == expected.heap[id] {
      UnionLookup(sh.tables, |sh.tables|, sh.heap[id].key);
    }
  }

  /** The sweep of one shard is the sweep of its keys, whatever it finds. */
  lemma ShardSweepRefines(sh: Sharded, i: nat, now: int)
    requires WellFormed(sh) && ShardEnabled(sh, SweepShard(i, now)) && KnownIds(Abs(sh))
    ensures var after := ShardApply(sh, SweepShard(i, now));
      && WellFormed(after) && |after.tables| == |sh.tables| && KnownIds(Abs(after))
      && Abs(after) == SweepRange(Abs(sh), now, |sh.tables|, i, i + 1)
  {
    ShardSweepCalls(sh, i, now);
    ShardSweepHeap(sh, i, now);
  }

  /** What a sweep leaves in the table, key by key. */
  lemma RangeKey(g: Group, now: int, n: nat, lo: nat, hi: nat, key: Key)
    requires n > 0 && KnownIds(g)
    ensures var after := SweepRange(g, now, n, lo, hi);
      && KnownIds(after)
      && (key in after.calls <==> key in g.calls && !(lo <= Route(key, n) < hi && Stale(g, key, now)))
      && (key in after.calls ==> after.calls[key] == g.calls[key])
  {
  }

  /** A call keeps its starting time, so an entry that survives is as old as before. */
  lemma RangeAge(g: Group, now: int, n: nat, k: nat, key: Key)
    requires n > 0 && KnownIds(g) && key in SweepRange(g, now, n, 0, k).calls
    ensures KnownIds(SweepRange(g, now, n, 0, k)) && key in g.calls
    ensures Stale(SweepRange(g, now, n, 0, k), key, now) <==> Stale(g, key, now)
  {
    RangeKey(g, now, n, 0, k, key);
  }

  lemma RangeCallsAt(g: Group, now: int, n: nat, k: nat, key: Key)
    requires n > 0 && KnownIds(g) && KnownIds(SweepRange(g, now, n, 0, k))
    ensures var twice, once := SweepRange(SweepRange(g, now, n, 0, k), now, n, k, k + 1), SweepRange(g, now, n, 0, k + 1);
      && (key in twice.calls <==> key in once.calls)
      && (key in twice.calls ==> twice.calls[key] == once.calls[key])
  {
    var mid := SweepRange(g, now, n, 0, k);
    RangeKey(g, now, n, 0, k, key);
    RangeKey(mid, now, n, k, k + 1, key);
    RangeKey(g, now, n, 0, k + 1, key);
    if key in mid.calls {
      RangeAge(g, now, n, k, key);
    }
  }

  lemma RangeCalls(g: Group, now: int, n: nat, k: nat)
    requires n > 0 && KnownIds(g)
    ensures var mid := SweepRange(g, now, n, 0, k);
      KnownIds(mid) && SweepRange(mid, now, n, k, k + 1).calls == SweepRange(g, now, n, 0, k + 1).calls
  {
    var mid := SweepRange(g, now, n, 0, k);
    forall key | key in mid.calls ensures mid.calls[key] < |mid.heap| {
      RangeKey(g, now, n, 0, k, key);
    }
    var twice, once := SweepRange(mid, now, n, k, k + 1).calls, SweepRange(g, now, n, 0, k + 1).calls;
    forall key
      ensures key in twice <==> key in once
      ensures key in twice ==> twice[key] == once[key]
    {
      RangeCallsAt(g, now, n, k, key);
    }
    assert twice.Keys == once.Keys;
  }

  lemma RangeHeap(g: Group, now: int, n: nat, k: nat, id: Id)
    requires n > 0 && KnownIds(g) && id < |g.heap|
    ensures var mid := SweepRange(g, now, n, 0, k);
      KnownIds(mid) && SweepRange(mid, now, n, k, k + 1).heap[id] == SweepRange(g, now, n, 0, k + 1).heap[id]
  {
    var mid := SweepRange(g, now, n, 0, k);
    if Route(g.heap[id].key, n) >= k {
      assert mid.heap[id] == g.heap[id];
      assert Swept(mid, id, now) <==> Swept(g, id, now);
    }
  }

  /** Sweeping one more shard extends the range. */
  lemma RangeExtends(g: Group, now: int, n: nat, k: nat)
    requires n > 0 && KnownIds(g)
    ensures KnownIds(SweepRange(g, now, n, 0, k))
    ensures SweepRange(SweepRange(g, now, n, 0, k), now, n, k, k + 1) == SweepRange(g, now, n, 0, k + 1)
  {
    RangeCalls(g, now, n, k);
    var after, expected := SweepRange(SweepRange(g, now, n, 0, k), now, n, k, k + 1), SweepRange(g, now, n, 0, k + 1);
    forall id | 0 <= id < |g.heap| ensures after.heap[id] == expected.heap[id] {
      RangeHeap(g, now, n, k, id);
    }
    assert after.heap == expected.heap;
  }

  lemma FullRange(g: Group, now: int, n: nat)
    requires n > 0 && IsPowerOfTwo(n) && KnownIds(g)
    ensures SweepRange(g, now, n, 0, n) == SweepEffect(g, now)
  {
    forall key ensures Route(key, n) < n { RouteInRange(key, n); }
    assert SweepRange(g, now, n, 0, n).calls == SweepEffect(g, now).calls;
    assert SweepRange(g, now, n, 0, n).heap == SweepEffect(g, now).heap;
  }

  lemma EmptyRange(g: Group, now: int, n: nat)
    requires n > 0 && KnownIds(g)
    ensures SweepRange(g, now, n, 0, 0) == g
  {
  }

  /** Sweeps of the shards 0, 1, ... one after the other at the same time: `trail[k]` is the state after k of them. */
  ghost predicate SweepTrail(trail: seq<Sharded>, now: int) {
    && trail != [] && (forall k :: 0 <= k < |trail| ==> WellFormed(trail[k]))
    && (forall k :: 0 <= k < |trail| - 1 ==> SweepLink(trail[k], k, now, trail[k + 1]))
  }

  ghost predicate SweepLink(before: Sharded, k: nat, now: int, after: Sharded)
    requires WellFormed(before)
  {
    ShardEnabled(before, SweepShard(k, now)) && after == ShardApply(before, SweepShard(k, now))
  }

  lemma {:induction false} TrailRange(trail: seq<Sharded>, now: int, k: nat)
    requires SweepTrail(trail, now) && k < |trail| && KnownIds(Abs(trail[0]))
    ensures |trail[k].tables| == |trail[0].tables| && KnownIds(Abs(trail[k]))
    ensures Abs(trail[k]) == SweepRange(Abs(trail[0]), now, |trail[0].tables|, 0, k)
    decreases k
  {
    if k == 0 {
      EmptyRange(Abs(trail[0]), now, |trail[0].tables|);
    } else {
      TrailRange(trail, now, k - 1);
      assert SweepLink(trail[k - 1], k - 1, now, trail[k]);
      ShardSweepRefines(trail[k - 1], k - 1, now);
      RangeExtends(Abs(trail[0]), now, |trail[0].tables|, k - 1);
    }
  }

  /** The sweeps of all shards together are the one sweep of an unsharded group, also when they find old entries. */
  lemma AllSweepsRefine(trail: seq<Sharded>, now: int)
    requires SweepTrail(trail, now) && KnownIds(Abs(trail[0])) && |trail| == |trail[0].tables| + 1
    ensures Abs(trail[|trail| - 1]) == SweepEffect(Abs(trail[0]), now)
  {
    TrailRange(trail, now, |trail| - 1);
    FullRange(Abs(trail[0]), now, |trail[0].tables|);
  }

  // ---------------------------------------------------------------------------------------------
  // Statistics
  // ---------------------------------------------------------------------------------------------

  function ActiveUpTo(tables: seq<map<Key, Id>>): nat {
    if tables == [] then 0 else ActiveUpTo(tables[..|tables| - 1]) + |tables[|tables| - 1]|
  }

  ghost function WaitedUpTo(tables: seq<map<Key, Id>>, w: Id -> int): int {
    if tables == [] then 0 else WaitedUpTo(tables[..|tables| - 1], w) + Sum(tables[|tables| - 1], w)
  }

  /** The summed statistics of the shards are those of the unsharded group. */
  lemma {:induction false} StatsAgree(tables: seq<map<Key, Id>>, n: nat, w: Id -> int)
    requires Routed(tables, n)
    ensures ActiveUpTo(tables) == |Union(tables)|
    ensures WaitedUpTo(tables, w) == Sum(Union(tables), w)
  {
    if tables != [] {
      var front, last := tables[..|tables| - 1], tables[|tables| - 1];
      StatsAgree(front, n, w);
      forall key | key in last ensures key !in Union(front) {
        UnionLookup(front, n, key);
      }
      SumUnion(Union(tables), Union(front), last, w);
      SizeUnion(Union(front), last);
    }
  }
}
