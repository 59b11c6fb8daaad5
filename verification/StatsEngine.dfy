/** The statistics engine behind the dashboard: per-second request counts, visitors of the day, and alarms. */
module StatsEngine {

  import opened Prelude

  type Time = int

  const HISTORY := 120
  const ALARM_MAX := 100
  const ALARM_DEDUP: Time := 30000000000
  const UV_MAX := 500000
  const AVERAGED := 5

  datatype Alarm = Alarm(level: string, message: string, source: string, time: Time)

  function Reversed<T>(s: seq<T>): (r: seq<T>)
    ensures |r| == |s|
  {
    seq(|s|, (k: nat) requires k < |s| => s[|s| - 1 - k])
  }

  lemma ReversedPrepend<T>(s: seq<T>, i: nat)
    requires i < |s|
    ensures Reversed(s[i..]) == Reversed(s[i + 1..]) + [s[i]]
  {
  }

  function Sum(s: seq<nat>): nat {
    if s == [] then 0 else Sum(s[..|s| - 1]) + s[|s| - 1]
  }

  function Distinct(visits: seq<string>): set<string> {
    set v | v in visits
  }

  /** Trimming after every append keeps the end of everything ever appended. */
  lemma LastAppend<T>(s: seq<T>, x: T, n: nat)
    requires n > 0
    ensures Last(Last(s, n) + [x], n) == Last(s + [x], n)
  {
  }

  lemma LastOfLast<T>(s: seq<T>, n: nat, m: nat)
    requires m <= n
    ensures Last(Last(s, n), m) == Last(s, m)
  {
  }

  // ---------------------------------------------------------------------------------------------
  // Alarm keys
  // ---------------------------------------------------------------------------------------------

  predicate IsSpace(c: char) {
    '\t' <= c <= '\r' || c == ' ' || c == '\U{0085}' || c == '\U{00A0}' || c == '\U{1680}'
    || '\U{2000}' <= c <= '\U{200A}' || c == '\U{2028}' || c == '\U{2029}' || c == '\U{202F}'
    || c == '\U{205F}' || c == '\U{3000}'
  }

  function TrimSpace(s: string): (t: string)
    ensures t != [] ==> !IsSpace(t[0]) && !IsSpace(t[|t| - 1])
  {
    if s == [] then s
    else if IsSpace(s[0]) then TrimSpace(s[1..])
    else if IsSpace(s[|s| - 1]) then TrimSpace(s[..|s| - 1])
    else s
  }

  function Joined(level: string, source: string, message: string): string {
    level + "|" + source + "|" + message
  }

  function Key(level: string, source: string, message: string): string {
    Joined(TrimSpace(level), TrimSpace(source), TrimSpace(message))
  }

  function KeyOf(a: Alarm): string {
    Key(a.level, a.source, a.message)
  }

  lemma SplitAtBar(a: string, b: string, c: string, d: string)
    requires '|' !in a && '|' !in c && a + "|" + b == c + "|" + d
    ensures a == c && b == d
  {
    var s, t := a + "|" + b, c + "|" + d;
    assert s[|a|] == '|' && t[|c|] == '|';
    assert forall i :: 0 <= i < |a| ==> s[i] == a[i];
    assert forall i :: 0 <= i < |c| ==> t[i] == c[i];
    assert |a| == |c|;
    assert a == s[..|a|] == t[..|c|] == c;
    assert b == s[|a| + 1..] && d == t[|c| + 1..];
  }

  lemma JoinedSplits(level: string, source: string, message: string)
    ensures Joined(level, source, message) == level + "|" + (source + "|" + message)
  {
  }

  lemma JoinedSeparates(l: string, s: string, m: string, l': string, s': string, m': string)
    requires '|' !in l && '|' !in l' && '|' !in s && '|' !in s'
    requires Joined(l, s, m) == Joined(l', s', m')
    ensures l == l' && s == s' && m == m'
  {
    JoinedSplits(l, s, m);
    JoinedSplits(l', s', m');
    SplitAtBar(l, s + "|" + m, l', s' + "|" + m');
    SplitAtBar(s, m, s', m');
  }

  /** A bar in the level or the source is not escaped. Without one, alarms share a key only if their trimmed
      level, source and message agree. */
  lemma KeysSeparate(a: Alarm, b: Alarm)
    requires '|' !in TrimSpace(a.level) && '|' !in TrimSpace(b.level)
    requires '|' !in TrimSpace(a.source) && '|' !in TrimSpace(b.source)
    ensures KeyOf(a) == KeyOf(b) <==>
      TrimSpace(a.level) == TrimSpace(b.level) && TrimSpace(a.source) == TrimSpace(b.source)
      && TrimSpace(a.message) == TrimSpace(b.message)
  {
    if KeyOf(a) == KeyOf(b) {
      JoinedSeparates(TrimSpace(a.level), TrimSpace(a.source), TrimSpace(a.message),
                      TrimSpace(b.level), TrimSpace(b.source), TrimSpace(b.message));
    }
  }

  // ---------------------------------------------------------------------------------------------
  // Accepted alarms
  // ---------------------------------------------------------------------------------------------

  /** Alarms with one key are at least thirty seconds apart, whichever two are compared. */
  ghost predicate Spaced(accepted: seq<Alarm>) {
    forall i, j :: 0 <= i < j < |accepted| && KeyOf(accepted[i]) == KeyOf(accepted[j]) ==>
      accepted[j].time - accepted[i].time >= ALARM_DEDUP
  }

  /** No accepted alarm with this key is younger than thirty seconds. */
  ghost predicate Quiet(accepted: seq<Alarm>, key: string, now: Time) {
    forall i :: 0 <= i < |accepted| && KeyOf(accepted[i]) == key ==> now - accepted[i].time >= ALARM_DEDUP
  }

  /** The remembered time of a key is that of the latest alarm accepted with it. */
  ghost predicate Remembers(accepted: seq<Alarm>, seenAt: map<string, Time>) {
    && (forall i :: 0 <= i < |accepted| ==>
          KeyOf(accepted[i]) in seenAt && accepted[i].time <= seenAt[KeyOf(accepted[i])])
    && (forall key :: key in seenAt ==>
          exists i :: 0 <= i < |accepted| && KeyOf(accepted[i]) == key && accepted[i].time == seenAt[key])
  }

  /** One remembered time per key decides as if every alarm ever accepted were compared. */
  lemma SeenAtDecides(accepted: seq<Alarm>, seenAt: map<string, Time>, key: string, now: Time)
    requires Remembers(accepted, seenAt)
    ensures (key in seenAt && now - seenAt[key] < ALARM_DEDUP) <==> !Quiet(accepted, key, now)
  {
  }

  /** The second of two equal alarms is accepted from the thirtieth second on. */
  lemma ThirtySeconds(a: Alarm, now: Time)
    ensures Quiet([a], KeyOf(a), now) <==> now >= a.time + 30_000_000_000
  {
    assert [a][0] == a;
  }

  lemma AcceptSpaced(accepted: seq<Alarm>, a: Alarm)
    requires Spaced(accepted) && Quiet(accepted, KeyOf(a), a.time)
    ensures Spaced(accepted + [a])
  {
  }

  lemma AcceptRemembers(accepted: seq<Alarm>, seenAt: map<string, Time>, a: Alarm, key: string)
    requires Remembers(accepted, seenAt) && Quiet(accepted, key, a.time) && key == KeyOf(a)
    ensures Remembers(accepted + [a], seenAt[key := a.time])
  {
    var after, seen := accepted + [a], seenAt[key := a.time];
    forall k | k in seen ensures exists i :: 0 <= i < |after| && KeyOf(after[i]) == k && after[i].time == seen[k] {
      if k == key {
        assert KeyOf(after[|accepted|]) == k;
      } else {
        var i :| 0 <= i < |accepted| && KeyOf(accepted[i]) == k && accepted[i].time == seenAt[k];
        assert after[i] == accepted[i];
      }
    }
    forall i | 0 <= i < |after| ensures KeyOf(after[i]) in seen && after[i].time <= seen[KeyOf(after[i])] {
      if i < |accepted| {
        assert after[i] == accepted[i];
      }
    }
  }

  /** The buffer is the end of everything accepted. */
  ghost predicate Alarmed(accepted: seq<Alarm>, alarms: seq<Alarm>, seenAt: map<string, Time>) {
    alarms == Last(accepted, ALARM_MAX) && Spaced(accepted) && Remembers(accepted, seenAt)
  }

  lemma AcceptKeeps(accepted: seq<Alarm>, alarms: seq<Alarm>, seenAt: map<string, Time>, a: Alarm, key: string)
    requires Alarmed(accepted, alarms, seenAt) && key == KeyOf(a) && Quiet(accepted, key, a.time)
    ensures Alarmed(accepted + [a], Last(alarms + [a], ALARM_MAX), seenAt[key := a.time])
  {
    LastAppend(accepted, a, ALARM_MAX);
    AcceptSpaced(accepted, a);
    AcceptRemembers(accepted, seenAt, a, key);
  }

  // ---------------------------------------------------------------------------------------------
  // Requests and visitors
  // ---------------------------------------------------------------------------------------------

  /** The windows are the ends of the full histories, and no request is lost between bucket and history. */
  ghost predicate Counted(series: seq<nat>, labels: seq<string>, values: seq<nat>, times: seq<string>,
                          bucket: nat, total: nat)
  {
    && |series| == |labels| && values == Last(series, HISTORY) && times == Last(labels, HISTORY)
    && Sum(series) + bucket == total
  }

  lemma TickKeeps(series: seq<nat>, labels: seq<string>, values: seq<nat>, times: seq<string>,
                  bucket: nat, total: nat, clock: string)
    requires Counted(series, labels, values, times, bucket, total)
    ensures Counted(series + [bucket], labels + [clock],
                    Last(values + [bucket], HISTORY), Last(times + [clock], HISTORY), 0, total)
  {
  }

  /** Visitors of the day are counted exactly while they fit the tracking set. */
  ghost predicate Visited(visits: seq<string>, tracked: set<string>, uv: nat, pv: nat) {
    && pv == |visits| && tracked <= Distinct(visits) && |tracked| <= UV_MAX && |tracked| <= uv <= pv
    && (|tracked| < UV_MAX ==> tracked == Distinct(visits))
    && (|Distinct(visits)| <= UV_MAX ==> tracked == Distinct(visits) && uv == |tracked|)
  }

  lemma SubsetSize(a: set<string>, b: set<string>)
    requires a <= b
    ensures |a| <= |b| && (|a| == |b| ==> a == b)
  {
    assert b == a + (b - a);
  }

  lemma VisitKeeps(visits: seq<string>, tracked: set<string>, uv: nat, pv: nat, visitor: string)
    requires Visited(visits, tracked, uv, pv)
    ensures visitor in tracked ==> Visited(visits + [visitor], tracked, uv, pv + 1)
    ensures visitor !in tracked ==>
      Visited(visits + [visitor], if |tracked| < UV_MAX then tracked + {visitor} else tracked, uv + 1, pv + 1)
  {
    var before, after := Distinct(visits), Distinct(visits + [visitor]);
    assert after == before + {visitor};
    SubsetSize(before, after);
    SubsetSize(tracked, before);
  }

  // ---------------------------------------------------------------------------------------------
  // The engine
  // ---------------------------------------------------------------------------------------------

  class Engine {
    var pv: nat
    var uv: nat
    var uvSet: set<string>
    var uvDate: string
    var reqThisSecond: nat
    var reqTotal: nat
    var qpsHistory: seq<nat>
    var qpsTimeRing: seq<string>
    var alarms: seq<Alarm>
    var alarmSeenAt: map<string, Time>
    ghost var series: seq<nat>
    ghost var labels: seq<string>
    ghost var visits: seq<string>
    ghost var accepted: seq<Alarm>

    ghost predicate Valid()
      reads this
    {
      && Counted(series, labels, qpsHistory, qpsTimeRing, reqThisSecond, reqTotal)
      && Visited(visits, uvSet, uv, pv)
      && Alarmed(accepted, alarms, alarmSeenAt)
    }

    constructor (today: string)
      ensures Valid() && uvDate == today && reqTotal == 0
      ensures series == [] && visits == [] && accepted == []
    {
      pv, uv, uvSet, uvDate := 0, 0, {}, today;
      reqThisSecond, reqTotal, qpsHistory, qpsTimeRing := 0, 0, [], [];
      alarms, alarmSeenAt := [], map[];
      series, labels, visits, accepted := [], [], [], [];
    }

    method RecordRequest()
      requires Valid()
      modifies this`reqThisSecond, this`reqTotal
      ensures Valid()
      ensures reqTotal == old(reqTotal) + 1
    {
      reqThisSecond := reqThisSecond + 1;
      reqTotal := reqTotal + 1;
    }

    /** Moves the bucket into the history; on a new day the visitors start over. */
    method TickStats(clock: string, today: string)
      requires Valid()
      modifies this`reqThisSecond, this`qpsHistory, this`qpsTimeRing, this`series, this`labels,
               this`pv, this`uv, this`uvSet, this`uvDate, this`visits
      ensures Valid()
      ensures series == old(series) + [old(reqThisSecond)] && labels == old(labels) + [clock] && reqThisSecond == 0
      ensures uvDate == today && visits == if today == old(uvDate) then old(visits) else []
    {
      RollSecond(clock);
      if today != uvDate {
        StartDay(today);
      }
    }

    method RollSecond(clock: string)
      requires Valid()
      modifies this`reqThisSecond, this`qpsHistory, this`qpsTimeRing, this`series, this`labels
      ensures Valid()
      ensures series == old(series) + [old(reqThisSecond)] && labels == old(labels) + [clock] && reqThisSecond == 0
    {
      var count := reqThisSecond;
      TickKeeps(series, labels, qpsHistory, qpsTimeRing, count, reqTotal, clock);
      var values, times := Last(qpsHistory + [count], HISTORY), Last(qpsTimeRing + [clock], HISTORY);
      reqThisSecond, qpsHistory, qpsTimeRing := 0, values, times;
      series, labels := series + [count], labels + [clock];
    }

    method StartDay(today: string)
      requires Valid()
      modifies this`pv, this`uv, this`uvSet, this`uvDate, this`visits
      ensures Valid()
      ensures uvDate == today && visits == []
    {
      uvDate := today;
      pv, uv, uvSet := 0, 0, {};
      visits := [];
    }

    /** A visitor is counted once as long as there is room to remember it. */
    method RecordVisit(visitor: string)
      requires Valid()
      modifies this`pv, this`uv, this`uvSet, this`visits
      ensures Valid()
      ensures visits == if visitor == "" then old(visits) else old(visits) + [visitor]
    {
      if visitor == "" {
        return;
      }
      VisitKeeps(visits, uvSet, uv, pv, visitor);
      pv := pv + 1;
      visits := visits + [visitor];
      if visitor !in uvSet {
        if |uvSet| < UV_MAX {
          uvSet := uvSet + {visitor};
        }
        uv := uv + 1;
      }
    }

    /** The mean of the last five entries of the full series, or of all of them while there are fewer. */
    method GetQPS() returns (qps: real)
      requires Valid()
      ensures qps == if series == [] then 0.0 else Sum(Last(series, 5)) as real / |Last(series, 5)| as real
    {
      LastOfLast(series, HISTORY, AVERAGED);
      qps := MeanOfLast(qpsHistory);
    }

    /** Times and values of the same seconds; a number of seconds that is not positive or too large means all. */
    method GetQPSHistorySeconds(seconds: int) returns (times: seq<string>, values: seq<nat>)
      requires Valid()
      ensures var k := if 0 < seconds < 120 then seconds else 120;
        times == Last(labels, k) && values == Last(series, k)
    {
      var n := |qpsHistory|;
      var wanted := if seconds <= 0 || seconds > n then n else seconds;
      times, values := [], [];
      var i := n - wanted;
      while i < n
        invariant n - wanted <= i <= n
        invariant times == qpsTimeRing[n - wanted..i] && values == qpsHistory[n - wanted..i]
      {
        times := times + [qpsTimeRing[i]];
        values := values + [qpsHistory[i]];
        i := i + 1;
      }
      assert times == Last(qpsTimeRing, wanted) && values == Last(qpsHistory, wanted);
      if wanted < n {
        LastOfLast(series, HISTORY, wanted);
        LastOfLast(labels, HISTORY, wanted);
      }
    }

    /** An alarm is accepted exactly if it says something and no alarm accepted with its key is younger than
        thirty seconds. */
    method RecordAlarm(level: string, source: string, message: string, now: Time)
      requires Valid()
      modifies this`alarms, this`alarmSeenAt, this`accepted
      ensures Valid()
      ensures accepted == if message != "" && Quiet(old(accepted), Key(level, source, message), now)
                          then old(accepted) + [Alarm(level, message, source, now)] else old(accepted)
    {
      if message == "" {
        return;
      }
      var key := Key(level, source, message);
      SeenAtDecides(accepted, alarmSeenAt, key, now);
      if key in alarmSeenAt && now - alarmSeenAt[key] < ALARM_DEDUP {
        return;
      }
      Accept(Alarm(level, message, source, now), key);
    }

    method Accept(alarm: Alarm, key: string)
      requires Valid() && key == KeyOf(alarm) && Quiet(accepted, key, alarm.time)
      modifies this`alarms, this`alarmSeenAt, this`accepted
      ensures Valid()
      ensures accepted == old(accepted) + [alarm]
    {
      AcceptKeeps(accepted, alarms, alarmSeenAt, alarm, key);
      alarmSeenAt := alarmSeenAt[key := alarm.time];
      alarms := Last(alarms + [alarm], ALARM_MAX);
      accepted := accepted + [alarm];
    }

    /** The newest accepted alarms first; a limit that is not positive or too large means all that are kept. */
    method GetStatsAlarms(limit: int) returns (result: seq<Alarm>)
      requires Valid()
      ensures result == Reversed(Last(accepted, if 0 < limit < 100 then limit else 100))
    {
      result := NewestFirst(alarms, limit);
      WindowOfWindow(accepted, limit);
    }
  }

  method MeanOfLast(history: seq<nat>) returns (qps: real)
    ensures qps == if history == [] then 0.0
                   else Sum(Last(history, AVERAGED)) as real / |Last(history, AVERAGED)| as real
  {
    var n := |history|;
    if n == 0 {
      return 0.0;
    }
    ghost var window := Last(history, AVERAGED);
    var sum := 0;
    var i := n - AVERAGED;
    while i < n
      invariant n - AVERAGED <= i <= n
      invariant sum == if i < n - |window| then 0 else Sum(window[..i - (n - |window|)])
    {
      if i >= 0 {
        var k := i - (n - |window|);
        assert window[..k + 1][..k] == window[..k];
        sum := sum + history[i];
      }
      i := i + 1;
    }
    assert window[..|window|] == window;
    if n < AVERAGED {
      return sum as real / n as real;
    }
    return sum as real / 5.0;
  }

  method NewestFirst(alarms: seq<Alarm>, limit: int) returns (result: seq<Alarm>)
    ensures result == Reversed(Last(alarms, if 0 < limit then limit else |alarms|))
  {
    var n := |alarms|;
    var wanted := if limit <= 0 || limit > n then n else limit;
    result := [];
    var i := n - 1;
    while i >= n - wanted && i >= 0
      invariant n - wanted - 1 <= i <= n - 1
      invariant result == Reversed(alarms[i + 1..])
    {
      ReversedPrepend(alarms, i);
      result := result + [alarms[i]];
      i := i - 1;
    }
    assert i + 1 == n - wanted;
  }

  /** Asking the buffer for more than it holds, or for no positive number, gives all of it. */
  lemma WindowOfWindow(accepted: seq<Alarm>, limit: int)
    ensures var kept := Last(accepted, ALARM_MAX);
      Last(kept, if 0 < limit then limit else |kept|)
      == Last(accepted, if 0 < limit < ALARM_MAX then limit else ALARM_MAX)
  {
  }
}
