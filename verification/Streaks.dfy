/**
  Daily streaks: the server's capped backward scan (services/pod_service.py)
  and the client's incremental count (lib/useFocusTimer.ts). Instants are whole
  seconds since the epoch, days are counted from the epoch, both in UTC.
*/
module Streaks {
  import opened Options

  const SECONDS_PER_DAY := 86_400
  const LOOKBACK_DAYS := 400

  datatype Streak = Streak(length: nat, activeToday: bool, lastActive: Option<int>)

  /** Flooring division: the day an instant falls on, before the epoch as after it. */
  function DayOf(at: int): int {
    at / SECONDS_PER_DAY
  }

  function Midnight(day: int): int {
    day * SECONDS_PER_DAY
  }

  function ActiveDays(timestamps: seq<int>): set<int> {
    set t | t in timestamps :: DayOf(t)
  }

  function Latest(timestamps: seq<int>): int
    requires timestamps != []
  {
    if |timestamps| == 1 then timestamps[0]
    else
      var rest := Latest(timestamps[1..]);
      if timestamps[0] >= rest then timestamps[0] else rest
  }

  /** The number of consecutive active days ending on `last`. */
  function RunLength(days: set<int>, last: int): nat
    decreases |days|
  {
    if last in days then 1 + RunLength(days - {last}, last - 1) else 0
  }

  /** A maximal run: the `n` days up to `last` are active and the one before them is not. */
  ghost predicate IsMaximalRun(days: set<int>, last: int, n: nat) {
    (forall d :: last - n < d <= last ==> d in days) && last - n !in days
  }

  function Min(a: nat, b: nat): nat {
    if a <= b then a else b
  }

  /** Today, or yesterday while today is still empty. */
  function Anchor(days: set<int>, asOf: int): int {
    if asOf in days then asOf else asOf - 1
  }

  function StreakOf(timestamps: seq<int>, asOf: int): Streak {
    var days := ActiveDays(timestamps);
    Streak(Min(RunLength(days, Anchor(days, asOf)), LOOKBACK_DAYS),
           asOf in days,
           if timestamps == [] then None else Some(Latest(timestamps)))
  }

  lemma {:induction false} RunLengthIsMaximal(days: set<int>, last: int)
    ensures IsMaximalRun(days, last, RunLength(days, last))
    decreases |days|
  {
    if last in days {
      var rest := days - {last};
      RunLengthIsMaximal(rest, last - 1);
      forall d | last - RunLength(days, last) < d <= last ensures d in days {
        assert d == last || d in rest;
      }
      assert last - RunLength(days, last) !in rest;
    }
  }

  lemma MaximalRunIsUnique(days: set<int>, last: int, n: nat)
    requires IsMaximalRun(days, last, n)
    ensures n == RunLength(days, last)
  {
    RunLengthIsMaximal(days, last);
  }

  lemma RunLengthAtLeast(days: set<int>, last: int, n: nat)
    requires forall d :: last - n < d <= last ==> d in days
    ensures RunLength(days, last) >= n
  {
    RunLengthIsMaximal(days, last);
  }

  /** `_streak_from_timestamps` */
  method StreakFromTimestamps(timestamps: seq<int>, asOf: int) returns (s: Streak)
    ensures s == StreakOf(timestamps, asOf)
  {
    if timestamps == [] {
      return Streak(0, false, None);
    }
    var activeDays := set t | t in timestamps :: DayOf(t);
    var activeToday := asOf in activeDays;
    var cursor := if activeToday then asOf else asOf - 1;
    ghost var last := cursor;
    var streak := 0;
    while cursor in activeDays && streak < LOOKBACK_DAYS
      invariant 0 <= streak <= LOOKBACK_DAYS && cursor == last - streak
      invariant forall d :: cursor < d <= last ==> d in activeDays
    {
      streak := streak + 1;
      cursor := cursor - 1;
    }
    RunLengthAtLeast(activeDays, last, streak);
    if cursor !in activeDays {
      MaximalRunIsUnique(activeDays, last, streak);
    }
    s := Streak(streak, activeToday, Some(Latest(timestamps)));
  }

  /** Active today means some timestamp from the midnight of `asOf` up to, not including, the next; the last activity is the latest of them all. */
  lemma ActiveTodayIff(timestamps: seq<int>, asOf: int)
    ensures StreakOf(timestamps, asOf).activeToday <==>
              exists t :: t in timestamps && 86_400 * asOf <= t < 86_400 * (asOf + 1)
    ensures var last := StreakOf(timestamps, asOf).lastActive;
            && (last.None? <==> timestamps == [])
            && (last.Some? ==> last.value in timestamps && forall t :: t in timestamps ==> t <= last.value)
  {
    forall t ensures DayOf(t) == asOf <==> 86_400 * asOf <= t < 86_400 * (asOf + 1) {
      DayBounds(t, asOf);
    }
    if timestamps != [] {
      LatestIsMaximum(timestamps);
    }
  }

  lemma DayBounds(t: int, day: int)
    ensures DayOf(t) == day <==> 86_400 * day <= t < 86_400 * (day + 1)
  {}

  /** The streak is the capped length of the maximal run ending today, or yesterday when today is empty. */
  lemma StreakIsCappedMaximalRun(timestamps: seq<int>, asOf: int, n: nat)
    requires IsMaximalRun(ActiveDays(timestamps), Anchor(ActiveDays(timestamps), asOf), n)
    ensures StreakOf(timestamps, asOf).length == Min(n, LOOKBACK_DAYS)
  {
    MaximalRunIsUnique(ActiveDays(timestamps), Anchor(ActiveDays(timestamps), asOf), n);
  }

  lemma ActiveDaysAppend(timestamps: seq<int>, t: int)
    ensures ActiveDays(timestamps + [t]) == ActiveDays(timestamps) + {DayOf(t)}
  {
    forall d ensures d in ActiveDays(timestamps + [t]) <==> d in ActiveDays(timestamps) + {DayOf(t)} {
      assert t in timestamps + [t];
    }
  }

  lemma {:induction false} LatestIsMaximum(timestamps: seq<int>)
    requires timestamps != []
    ensures Latest(timestamps) in timestamps
    ensures forall t :: t in timestamps ==> t <= Latest(timestamps)
  {
    if |timestamps| > 1 {
      LatestIsMaximum(timestamps[1..]);
      assert timestamps == [timestamps[0]] + timestamps[1..];
    }
  }

  lemma EmptyIffNoMember(timestamps: seq<int>)
    ensures timestamps == [] <==> forall t :: t !in timestamps
  {
    if timestamps != [] {
      var t := timestamps[0];
      assert t in timestamps;
    }
  }

  /** Neither the order of the timestamps nor repetitions matter. */
  lemma OrderAndRepetitionIrrelevant(a: seq<int>, b: seq<int>, asOf: int)
    requires forall t :: t in a <==> t in b
    ensures StreakOf(a, asOf) == StreakOf(b, asOf)
  {
    assert ActiveDays(a) == ActiveDays(b);
    EmptyIffNoMember(a);
    EmptyIffNoMember(b);
    if a != [] {
      LatestIsMaximum(a);
      LatestIsMaximum(b);
    }
  }

  // ----- the bounded query -----

  function Since(timestamps: seq<int>, from: int): seq<int> {
    if timestamps == [] then []
    else (if timestamps[0] >= from then [timestamps[0]] else []) + Since(timestamps[1..], from)
  }

  lemma {:induction false} SinceMembers(timestamps: seq<int>, from: int)
    ensures forall t :: t in Since(timestamps, from) <==> t in timestamps && t >= from
  {
    if timestamps != [] {
      SinceMembers(timestamps[1..], from);
      assert timestamps == [timestamps[0]] + timestamps[1..];
    }
  }

  lemma MidnightOrder(t: int, day: int)
    ensures t >= Midnight(day) <==> DayOf(t) >= day
  {}

  function WindowStart(asOf: int): int {
    Midnight(asOf - LOOKBACK_DAYS)
  }

  lemma RecentDays(timestamps: seq<int>, asOf: int)
    ensures forall d :: d >= asOf - LOOKBACK_DAYS ==>
              (d in ActiveDays(Since(timestamps, WindowStart(asOf))) <==> d in ActiveDays(timestamps))
    ensures forall d :: d in ActiveDays(Since(timestamps, WindowStart(asOf))) ==> d in ActiveDays(timestamps)
  {
    SinceMembers(timestamps, WindowStart(asOf));
    forall t | t in timestamps && DayOf(t) >= asOf - LOOKBACK_DAYS
      ensures t in Since(timestamps, WindowStart(asOf))
    {
      MidnightOrder(t, asOf - LOOKBACK_DAYS);
    }
  }

  lemma CappedRunsAgree(all: set<int>, recent: set<int>, last: int, from: int)
    requires from <= last - LOOKBACK_DAYS + 1
    requires forall d :: d in recent ==> d in all
    requires forall d :: d >= from && d in all ==> d in recent
    ensures Min(RunLength(recent, last), LOOKBACK_DAYS) == Min(RunLength(all, last), LOOKBACK_DAYS)
  {
    RunLengthIsMaximal(all, last);
    RunLengthIsMaximal(recent, last);
    RunLengthAtLeast(all, last, RunLength(recent, last));
    RunLengthAtLeast(recent, last, Min(RunLength(all, last), LOOKBACK_DAYS));
  }

  lemma LatestSince(timestamps: seq<int>, from: int)
    ensures var recent := Since(timestamps, from);
            && (recent == [] <==> (timestamps != [] ==> Latest(timestamps) < from))
            && (recent != [] ==> Latest(recent) == Latest(timestamps))
  {
    SinceMembers(timestamps, from);
    if timestamps != [] {
      LatestIsMaximum(timestamps);
      var recent := Since(timestamps, from);
      if recent != [] {
        LatestIsMaximum(recent);
      }
    }
  }

  /**
    The query's 400-day window loses nothing: streak and today's activity are
    those of the whole history. The last activity is too, unless it lies before
    the window, and then it is missing.
  */
  lemma WindowLosesNothing(history: seq<int>, asOf: int)
    ensures var windowed, full := StreakOf(Since(history, WindowStart(asOf)), asOf), StreakOf(history, asOf);
            && windowed.length == full.length
            && windowed.activeToday == full.activeToday
            && windowed.lastActive ==
                 if full.lastActive.Some? && full.lastActive.value >= WindowStart(asOf) then full.lastActive else None
  {
    var all, recent := ActiveDays(history), ActiveDays(Since(history, WindowStart(asOf)));
    RecentDays(history, asOf);
    assert asOf in recent <==> asOf in all;
    CappedRunsAgree(all, recent, Anchor(all, asOf), asOf - LOOKBACK_DAYS);
    LatestSince(history, WindowStart(asOf));
  }

  // ----- the client's incremental streak -----

  datatype Stats = Stats(completed: nat, lastDay: Option<int>, streakDays: nat)

  const NO_STATS := Stats(0, None, 0)

  /** The `setStats` updater run at each completed focus session. */
  function Complete(s: Stats, today: int): Stats {
    Stats(s.completed + 1,
          Some(today),
          if s.lastDay == Some(today) then s.streakDays
          else if s.lastDay == Some(today - 1) then s.streakDays + 1
          else 1)
  }

  /** The client's stats after sessions completed at these instants, oldest first. */
  function ClientStats(completions: seq<int>): Stats {
    if completions == [] then NO_STATS
    else Complete(ClientStats(completions[..|completions| - 1]), DayOf(completions[|completions| - 1]))
  }

  predicate DaysNeverGoBack(completions: seq<int>) {
    |completions| < 2 ||
    (DayOf(completions[|completions| - 2]) <= DayOf(completions[|completions| - 1])
     && DaysNeverGoBack(completions[..|completions| - 1]))
  }

  lemma {:induction false} ClientCountsMaximalRun(completions: seq<int>)
    requires completions != [] && DaysNeverGoBack(completions)
    ensures var last := DayOf(completions[|completions| - 1]);
            && ClientStats(completions).lastDay == Some(last)
            && ClientStats(completions).streakDays >= 1
            && IsMaximalRun(ActiveDays(completions), last, ClientStats(completions).streakDays)
            && forall d :: d in ActiveDays(completions) ==> d <= last
  {
    var p, x := completions[..|completions| - 1], completions[|completions| - 1];
    assert completions == p + [x];
    ActiveDaysAppend(p, x);
    if p != [] {
      ClientCountsMaximalRun(p);
      CompleteKeepsRun(ActiveDays(p), ClientStats(p), DayOf(x));
    }
  }

  /** One more completed session, on the latest day so far or a later one. */
  lemma CompleteKeepsRun(days: set<int>, s: Stats, today: int)
    requires s.lastDay.Some? && s.lastDay.value <= today && s.streakDays >= 1
    requires IsMaximalRun(days, s.lastDay.value, s.streakDays)
    requires forall d :: d in days ==> d <= s.lastDay.value
    ensures Complete(s, today).streakDays >= 1
    ensures IsMaximalRun(days + {today}, today, Complete(s, today).streakDays)
    ensures forall d :: d in days + {today} ==> d <= today
  {}

  lemma RunReachesBack(days: set<int>, last: int, n: nat, asOf: int)
    requires n >= 1 && last <= asOf && IsMaximalRun(days, last, n)
    requires forall d :: d in days ==> d <= last
    ensures RunLength(days, Anchor(days, asOf)) == if asOf <= last + 1 then n else 0
  {
    assert last in days;
    MaximalRunIsUnique(days, last, n);
    if asOf > last + 1 {
      MaximalRunIsUnique(days, asOf - 1, 0);
    }
  }

  /**
    The client refines the server: on the same completions, as of any day from
    the last completion on, the capped client count equals the server's streak
    exactly through the following day. From then on the server shows 0 and the
    client still shows its old count.
  */
  lemma ClientRefinesServer(completions: seq<int>, asOf: int)
    requires completions != [] && DaysNeverGoBack(completions)
    requires DayOf(completions[|completions| - 1]) <= asOf
    ensures Min(ClientStats(completions).streakDays, LOOKBACK_DAYS) == StreakOf(completions, asOf).length
            <==> asOf <= DayOf(completions[|completions| - 1]) + 1
  {
    ClientCountsMaximalRun(completions);
    RunReachesBack(ActiveDays(completions), DayOf(completions[|completions| - 1]),
                   ClientStats(completions).streakDays, asOf);
  }
}
