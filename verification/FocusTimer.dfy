/**
  The focus timer (lib/useFocusTimer.ts): its state cells, the handlers and the
  two effects that update them. Durations are whole seconds, at least one.
*/
module FocusTimer {
  import opened Options
  import Streaks

  const SESSIONS_BEFORE_LONG_BREAK := 4

  datatype Mode = Focus | ShortBreak | LongBreak

  datatype Durations = Durations(focus: int, shortBreak: int, longBreak: int) {
    predicate Valid() { focus >= 1 && shortBreak >= 1 && longBreak >= 1 }

    function For(m: Mode): int {
      match m
      case Focus => focus
      case ShortBreak => shortBreak
      case LongBreak => longBreak
    }
  }

  datatype Cells = Cells(
    durations: Durations,
    mode: Mode,
    secondsLeft: int,
    running: bool,
    completedInCycle: nat,
    stats: Streaks.Stats)

  datatype Event =
    | Tick
    | ZeroReached(at: int)
    | Start
    | Pause
    | Reset
    | ChangeMode(mode: Mode)
    | UpdateDurations(durations: Durations)

  function Mount(durations: Durations, stats: Streaks.Stats): Cells {
    Cells(durations, Focus, durations.focus, false, 0, stats)
  }

  function SwitchMode(c: Cells, mode: Mode): Cells {
    c.(mode := mode, secondsLeft := c.durations.For(mode), running := false)
  }

  function Handle(c: Cells, e: Event): Cells {
    match e
    case Tick => if !c.running then c else c.(secondsLeft := if c.secondsLeft <= 1 then 0 else c.secondsLeft - 1)
    case ZeroReached(at) =>
      if c.secondsLeft != 0 || !c.running then c
      else if c.mode != Focus then SwitchMode(c, Focus)
      else
        var count := c.completedInCycle + 1;
        SwitchMode(c.(completedInCycle := count % SESSIONS_BEFORE_LONG_BREAK,
                      stats := Streaks.Complete(c.stats, Streaks.DayOf(at))),
                   if count % SESSIONS_BEFORE_LONG_BREAK == 0 then LongBreak else ShortBreak)
    case Start => c.(running := true)
    case Pause => c.(running := false)
    case Reset => c.(running := false, secondsLeft := c.durations.For(c.mode))
    case ChangeMode(mode) => SwitchMode(c, mode)
    case UpdateDurations(d) => c.(durations := d, secondsLeft := d.For(c.mode), running := false)
  }

  /** The duration `onFocusSessionComplete` is called with, if this event completes a focus session. */
  function Reported(c: Cells, e: Event): Option<int> {
    if e.ZeroReached? && c.secondsLeft == 0 && c.running && c.mode == Focus then Some(c.durations.focus) else None
  }

  class Timer {
    var durations: Durations
    var mode: Mode
    var secondsLeft: int
    var running: bool
    var completedInCycle: nat
    var stats: Streaks.Stats

    function Value(): Cells
      reads this
    {
      Cells(durations, mode, secondsLeft, running, completedInCycle, stats)
    }

    constructor (durations: Durations, stats: Streaks.Stats)
      ensures Value() == Mount(durations, stats)
    {
      this.durations, mode, secondsLeft := durations, Focus, durations.focus;
      running, completedInCycle, this.stats := false, 0, stats;
    }

    method OnInterval()
      modifies this
      ensures Value() == Handle(old(Value()), Tick)
    {
      if running {
        secondsLeft := if secondsLeft <= 1 then 0 else secondsLeft - 1;
      }
    }

    method Switch(nextMode: Mode, autostart: bool)
      modifies this
      ensures Value() == SwitchMode(old(Value()), nextMode).(running := autostart)
    {
      mode := nextMode;
      secondsLeft := durations.For(nextMode);
      running := autostart;
    }

    /** The completion effect; returns the duration it reports, if any. */
    method OnZero(at: int) returns (reported: Option<int>)
      modifies this
      ensures Value() == Handle(old(Value()), ZeroReached(at))
      ensures reported == Reported(old(Value()), ZeroReached(at))
    {
      if secondsLeft != 0 || !running {
        return None;
      }
      running := false;
      if mode == Focus {
        var nextCount := completedInCycle + 1;
        completedInCycle := nextCount % SESSIONS_BEFORE_LONG_BREAK;
        stats := Streaks.Complete(stats, Streaks.DayOf(at));
        reported := Some(durations.focus);
        var isLongBreak := nextCount % SESSIONS_BEFORE_LONG_BREAK == 0;
        Switch(if isLongBreak then LongBreak else ShortBreak, false);
      } else {
        reported := None;
        Switch(Focus, false);
      }
    }

    method SetRunning(on: bool)
      modifies this
      ensures Value() == Handle(old(Value()), if on then Start else Pause)
    {
      running := on;
    }

    method ResetClock()
      modifies this
      ensures Value() == Handle(old(Value()), Reset)
    {
      running := false;
      secondsLeft := durations.For(mode);
    }

    method SetDurations(next: Durations)
      modifies this
      ensures Value() == Handle(old(Value()), UpdateDurations(next))
    {
      durations := next;
      secondsLeft := next.For(mode);
      running := false;
    }
  }

  // ----- runs -----

  /**
    History beside the cells: the ticks of a running clock since it was last
    set, one a second, the instants at which focus sessions completed, and for each of them
    what was reported and what had really been counted.
  */
  datatype Run = Run(cells: Cells, counted: int, completions: seq<int>, reports: seq<(int, int)>)

  predicate SetsClock(c: Cells, e: Event) {
    e.Reset? || e.ChangeMode? || e.UpdateDurations? || (e.ZeroReached? && c.secondsLeft == 0 && c.running)
  }

  /** One second of a timer that runs and has time left. */
  predicate CountsASecond(c: Cells, e: Event) {
    e.Tick? && c.running && c.secondsLeft > 0
  }

  function Next(r: Run, e: Event): Run {
    var c := Handle(r.cells, e);
    var reported := Reported(r.cells, e);
    Run(c,
        if SetsClock(r.cells, e) then 0 else r.counted + if CountsASecond(r.cells, e) then 1 else 0,
        if reported.Some? then r.completions + [e.at] else r.completions,
        if reported.Some? then r.reports + [(reported.value, r.counted)] else r.reports)
  }

  function After(durations: Durations, stats: Streaks.Stats, events: seq<Event>): Run {
    if events == [] then Run(Mount(durations, stats), 0, [], [])
    else Next(After(durations, stats, events[..|events| - 1]), events[|events| - 1])
  }

  predicate DurationsValid(durations: Durations, events: seq<Event>) {
    durations.Valid() && forall e | e in events :: e.UpdateDurations? ==> e.durations.Valid()
  }

  ghost predicate Inv(r: Run, stats: Streaks.Stats) {
    var c := r.cells;
    && c.durations.Valid()
    && 0 <= c.secondsLeft && 0 <= r.counted
    && r.counted + c.secondsLeft == c.durations.For(c.mode)
    && c.completedInCycle == |r.completions| % SESSIONS_BEFORE_LONG_BREAK
    && |r.reports| == |r.completions|
    && (forall i :: 0 <= i < |r.reports| ==> r.reports[i].0 == r.reports[i].1 >= 1)
    && c.stats.completed == stats.completed + |r.completions|
    && (stats == Streaks.NO_STATS ==> c.stats == Streaks.ClientStats(r.completions))
  }

  lemma NextInv(r: Run, e: Event, stats: Streaks.Stats)
    requires Inv(r, stats) && (e.UpdateDurations? ==> e.durations.Valid())
    ensures Inv(Next(r, e), stats)
  {
    if Reported(r.cells, e).Some? {
      assert (r.completions + [e.at])[..|r.completions|] == r.completions;
    }
  }

  /**
    Main result. In every run: the ticks of the running clock since it was last
    set plus the seconds left make the current mode's duration; every reported
    duration is the number of ticks really counted, across pauses; the cycle
    position is the number of completed sessions modulo four.
  */
  lemma {:induction false} TimeIsConserved(durations: Durations, stats: Streaks.Stats, events: seq<Event>)
    requires DurationsValid(durations, events)
    ensures Inv(After(durations, stats, events), stats)
  {
    if events != [] {
      TimeIsConserved(durations, stats, events[..|events| - 1]);
      NextInv(After(durations, stats, events[..|events| - 1]), events[|events| - 1], stats);
    }
  }

  /** A completed session leads to a long break exactly when it is a fourth one. */
  lemma LongBreakEveryFourth(durations: Durations, stats: Streaks.Stats, events: seq<Event>, at: int)
    requires DurationsValid(durations, events)
    requires Reported(After(durations, stats, events).cells, ZeroReached(at)).Some?
    ensures var r := Next(After(durations, stats, events), ZeroReached(at));
            && |r.completions| == |After(durations, stats, events).completions| + 1
            && (r.cells.mode == LongBreak <==> |r.completions| % 4 == 0)
            && (r.cells.mode == ShortBreak <==> |r.completions| % 4 != 0)
  {
    TimeIsConserved(durations, stats, events);
  }

  /**
    From a fresh profile, the streak the timer shows is the one the server
    computes from the same sessions, through the day after the last of them.
  */
  lemma TimerStreakIsServerStreak(durations: Durations, events: seq<Event>, asOf: int)
    requires DurationsValid(durations, events)
    requires var done := After(durations, Streaks.NO_STATS, events).completions;
             done != [] && Streaks.DaysNeverGoBack(done) && Streaks.DayOf(done[|done| - 1]) <= asOf
    ensures var r := After(durations, Streaks.NO_STATS, events);
            Streaks.Min(r.cells.stats.streakDays, Streaks.LOOKBACK_DAYS) == Streaks.StreakOf(r.completions, asOf).length
            <==> asOf <= Streaks.DayOf(r.completions[|r.completions| - 1]) + 1
  {
    TimeIsConserved(durations, Streaks.NO_STATS, events);
    Streaks.ClientRefinesServer(After(durations, Streaks.NO_STATS, events).completions, asOf);
  }

  // ----- what the handlers do for the user -----

  function HandleAll(c: Cells, events: seq<Event>): Cells {
    if events == [] then c else Handle(HandleAll(c, events[..|events| - 1]), events[|events| - 1])
  }

  function Ticks(n: nat): seq<Event> {
    if n == 0 then [] else Ticks(n - 1) + [Tick]
  }

  /** Once started, every tick takes one second off, down to zero, and nothing else. */
  lemma {:induction false} StartMakesTicksCount(c: Cells, n: nat)
    requires c.secondsLeft >= 0
    ensures HandleAll(Handle(c, Start), Ticks(n)) ==
              c.(running := true, secondsLeft := if n <= c.secondsLeft then c.secondsLeft - n else 0)
  {
    if n > 0 {
      StartMakesTicksCount(c, n - 1);
      assert Ticks(n)[..|Ticks(n)| - 1] == Ticks(n - 1);
    }
  }

  /** Nothing here starts the timer or sets its clock. */
  predicate OnlyTicksAndPauses(events: seq<Event>) {
    events == [] ||
    (OnlyTicksAndPauses(events[..|events| - 1])
     && (events[|events| - 1].Tick? || events[|events| - 1].Pause? || events[|events| - 1].ZeroReached?))
  }

  /** After a pause the clock stands still until the next start, however many ticks are still to come. */
  lemma {:induction false} PauseStopsTheClock(c: Cells, events: seq<Event>)
    requires OnlyTicksAndPauses(events)
    ensures HandleAll(Handle(c, Pause), events) == c.(running := false)
  {
    if events != [] {
      PauseStopsTheClock(c, events[..|events| - 1]);
    }
  }

  /** A finished break leads to a stopped focus timer with its full time, and counts for nothing. */
  lemma BreakLeadsToFocus(c: Cells, at: int)
    requires c.running && c.secondsLeft == 0 && c.mode != Focus
    ensures Handle(c, ZeroReached(at)) == c.(mode := Focus, secondsLeft := c.durations.focus, running := false)
    ensures Reported(c, ZeroReached(at)).None?
  {}

  /** A finished focus session leads to a stopped break with its full time, and counts once, today. */
  lemma FocusLeadsToBreak(c: Cells, at: int)
    requires c.running && c.secondsLeft == 0 && c.mode == Focus
    ensures var c' := Handle(c, ZeroReached(at));
            && !c'.running && c'.mode != Focus && c'.durations == c.durations
            && c'.secondsLeft == (if c'.mode == LongBreak then c.durations.longBreak else c.durations.shortBreak)
            && c'.stats.completed == c.stats.completed + 1 && c'.stats.lastDay == Some(Streaks.DayOf(at))
    ensures Reported(c, ZeroReached(at)) == Some(c.durations.focus)
  {}

  /** Resetting, changing the mode and changing the durations all stop the timer on the full time of its mode. */
  lemma SettingTheClockStops(c: Cells, e: Event)
    requires e.Reset? || e.ChangeMode? || e.UpdateDurations?
    ensures var c' := Handle(c, e);
            && !c'.running && c'.secondsLeft == c'.durations.For(c'.mode)
            && c'.mode == (if e.ChangeMode? then e.mode else c.mode)
            && c'.durations == (if e.UpdateDurations? then e.durations else c.durations)
            && c'.stats == c.stats && c'.completedInCycle == c.completedInCycle
  {}
}
