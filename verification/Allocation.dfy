/**
  Subject allocation (services/exam_prep_service.py): planned against actual
  study time per subject. Shares are exact reals.
*/
module Allocation {
  import opened Options

  datatype Code = Code(text: string)

  datatype Subject = Subject(code: Code, weight: real)

  /** A study session of the user; only some carry a subject. */
  datatype Session = Session(subject: Option<Code>, seconds: nat, occurredAt: int)

  datatype Row = Row(subject: Subject, planned: real, actualSeconds: nat, actual: real, delta: real)

  /** `occurred_at >= since AND subject_code IS NOT NULL` */
  predicate Counts(s: Session, since: int) {
    s.occurredAt >= since && s.subject.Some?
  }

  /** The grouped query: seconds per subject code. */
  function Totals(sessions: seq<Session>, since: int): map<Code, nat> {
    if sessions == [] then map[]
    else
      var rest, s := Totals(sessions[1..], since), sessions[0];
      if Counts(s, since) then rest[s.subject.value := TotalFor(rest, s.subject.value) + s.seconds] else rest
  }

  function TotalFor(totals: map<Code, nat>, code: Code): nat {
    if code in totals then totals[code] else 0
  }

  function Weight(subjects: seq<Subject>): real {
    if subjects == [] then 0.0 else Weight(subjects[..|subjects| - 1]) + subjects[|subjects| - 1].weight
  }

  function Seconds(subjects: seq<Subject>, totals: map<Code, nat>): nat {
    if subjects == [] then 0
    else Seconds(subjects[..|subjects| - 1], totals) + TotalFor(totals, subjects[|subjects| - 1].code)
  }

  function RowFor(s: Subject, totals: map<Code, nat>, weight: real, seconds: nat): Row {
    var planned := if weight != 0.0 then s.weight / weight else 0.0;
    var spent := TotalFor(totals, s.code);
    var actual := if seconds != 0 then spent as real / seconds as real else 0.0;
    Row(s, planned, spent, actual, actual - planned)
  }

  function Rows(subjects: seq<Subject>, totals: map<Code, nat>, weight: real, seconds: nat): seq<Row> {
    seq(|subjects|, i requires 0 <= i < |subjects| => RowFor(subjects[i], totals, weight, seconds))
  }

  function Allocate(subjects: seq<Subject>, totals: map<Code, nat>): seq<Row> {
    Rows(subjects, totals, Weight(subjects), Seconds(subjects, totals))
  }

  /** `get_subject_allocation` past its cache. */
  method ComputeAllocation(subjects: seq<Subject>, sessions: seq<Session>, since: int) returns (rows: seq<Row>)
    ensures rows == Allocate(subjects, Totals(sessions, since))
  {
    var totals := Totals(sessions, since);
    var weightTotal, secondsTotal := 0.0, 0;
    for i := 0 to |subjects|
      invariant weightTotal == Weight(subjects[..i]) && secondsTotal == Seconds(subjects[..i], totals)
    {
      assert subjects[..i + 1][..i] == subjects[..i];
      weightTotal := weightTotal + subjects[i].weight;
      secondsTotal := secondsTotal + TotalFor(totals, subjects[i].code);
    }
    assert subjects[..|subjects|] == subjects;
    rows := [];
    for i := 0 to |subjects|
      invariant rows == Allocate(subjects, totals)[..i]
    {
      var planned := if weightTotal != 0.0 then subjects[i].weight / weightTotal else 0.0;
      var actualSeconds := TotalFor(totals, subjects[i].code);
      var actual := if secondsTotal != 0 then actualSeconds as real / secondsTotal as real else 0.0;
      rows := rows + [Row(subjects[i], planned, actualSeconds, actual, actual - planned)];
    }
  }

  // ----- sums -----

  function SumSeconds(rows: seq<Row>): nat {
    if rows == [] then 0 else SumSeconds(rows[..|rows| - 1]) + rows[|rows| - 1].actualSeconds
  }

  function SumPlanned(rows: seq<Row>): real {
    if rows == [] then 0.0 else SumPlanned(rows[..|rows| - 1]) + rows[|rows| - 1].planned
  }

  function SumActual(rows: seq<Row>): real {
    if rows == [] then 0.0 else SumActual(rows[..|rows| - 1]) + rows[|rows| - 1].actual
  }

  function SumDelta(rows: seq<Row>): real {
    if rows == [] then 0.0 else SumDelta(rows[..|rows| - 1]) + rows[|rows| - 1].delta
  }

  function Codes(subjects: seq<Subject>): set<Code> {
    set s | s in subjects :: s.code
  }

  /** `exam_subjects.code` is unique. */
  predicate UniqueCodes(subjects: seq<Subject>) {
    subjects == [] ||
    (subjects[|subjects| - 1].code !in Codes(subjects[..|subjects| - 1]) && UniqueCodes(subjects[..|subjects| - 1]))
  }

  /** The time of in-window sessions tagged with one of the codes, straight from the sessions. */
  function TaggedTime(sessions: seq<Session>, since: int, codes: set<Code>): nat {
    if sessions == [] then 0
    else
      TaggedTime(sessions[1..], since, codes)
      + if Counts(sessions[0], since) && sessions[0].subject.value in codes then sessions[0].seconds else 0
  }

  lemma {:induction false} TotalIsTaggedTime(sessions: seq<Session>, since: int, code: Code)
    ensures TotalFor(Totals(sessions, since), code) == TaggedTime(sessions, since, {code})
  {
    if sessions != [] {
      TotalIsTaggedTime(sessions[1..], since, code);
    }
  }

  lemma {:induction false} TaggedTimeAdds(sessions: seq<Session>, since: int, codes: set<Code>, code: Code)
    requires code !in codes
    ensures TaggedTime(sessions, since, codes + {code}) ==
              TaggedTime(sessions, since, codes) + TaggedTime(sessions, since, {code})
  {
    if sessions != [] {
      TaggedTimeAdds(sessions[1..], since, codes, code);
    }
  }

  lemma {:induction false} NoCodesNoTime(sessions: seq<Session>, since: int)
    ensures TaggedTime(sessions, since, {}) == 0
  {
    if sessions != [] {
      NoCodesNoTime(sessions[1..], since);
    }
  }

  lemma {:induction false} SecondsAreTaggedTime(subjects: seq<Subject>, sessions: seq<Session>, since: int)
    requires UniqueCodes(subjects)
    ensures Seconds(subjects, Totals(sessions, since)) == TaggedTime(sessions, since, Codes(subjects))
  {
    if subjects == [] {
      NoCodesNoTime(sessions, since);
      assert Codes(subjects) == {};
    } else {
      var p, s := subjects[..|subjects| - 1], subjects[|subjects| - 1];
      SecondsAreTaggedTime(p, sessions, since);
      TotalIsTaggedTime(sessions, since, s.code);
      TaggedTimeAdds(sessions, since, Codes(p), s.code);
      assert Codes(subjects) == Codes(p) + {s.code} by {
        assert subjects == p + [s];
      }
    }
  }

  lemma SharesAdd(a: real, b: real, whole: real)
    requires whole != 0.0
    ensures (a + b) / whole == a / whole + b / whole
  {
    var x, y := a / whole, b / whole;
    assert (x + y) * whole == a + b;
  }

  lemma RowsSnoc(subjects: seq<Subject>, totals: map<Code, nat>, weight: real, seconds: nat)
    requires subjects != []
    ensures Rows(subjects, totals, weight, seconds) ==
              Rows(subjects[..|subjects| - 1], totals, weight, seconds)
              + [RowFor(subjects[|subjects| - 1], totals, weight, seconds)]
  {}

  lemma {:induction false} SumsOfRows(subjects: seq<Subject>, totals: map<Code, nat>, weight: real, seconds: nat)
    ensures var rows := Rows(subjects, totals, weight, seconds);
            SumSeconds(rows) == Seconds(subjects, totals) && SumDelta(rows) == SumActual(rows) - SumPlanned(rows)
  {
    if subjects != [] {
      var p := subjects[..|subjects| - 1];
      RowsSnoc(subjects, totals, weight, seconds);
      SumsOfRows(p, totals, weight, seconds);
      var rows := Rows(subjects, totals, weight, seconds);
      assert rows[..|rows| - 1] == Rows(p, totals, weight, seconds);
    }
  }

  lemma {:induction false} PlannedOfRows(subjects: seq<Subject>, totals: map<Code, nat>, weight: real, seconds: nat)
    requires weight != 0.0
    ensures SumPlanned(Rows(subjects, totals, weight, seconds)) == Weight(subjects) / weight
  {
    if subjects != [] {
      var p := subjects[..|subjects| - 1];
      PlannedOfRows(p, totals, weight, seconds);
      SharesAdd(Weight(p), subjects[|subjects| - 1].weight, weight);
      var rows := Rows(subjects, totals, weight, seconds);
      assert rows[..|rows| - 1] == Rows(p, totals, weight, seconds);
    }
  }

  lemma {:induction false} ActualOfRows(subjects: seq<Subject>, totals: map<Code, nat>, weight: real, seconds: nat)
    requires seconds != 0
    ensures SumActual(Rows(subjects, totals, weight, seconds)) == Seconds(subjects, totals) as real / seconds as real
  {
    if subjects != [] {
      var p := subjects[..|subjects| - 1];
      ActualOfRows(p, totals, weight, seconds);
      SharesAdd(Seconds(p, totals) as real, TotalFor(totals, subjects[|subjects| - 1].code) as real, seconds as real);
      var rows := Rows(subjects, totals, weight, seconds);
      assert rows[..|rows| - 1] == Rows(p, totals, weight, seconds);
    }
  }

  lemma {:induction false} ZeroShares(subjects: seq<Subject>, totals: map<Code, nat>, weight: real, seconds: nat)
    ensures weight == 0.0 ==> SumPlanned(Rows(subjects, totals, weight, seconds)) == 0.0
    ensures seconds == 0 ==> SumActual(Rows(subjects, totals, weight, seconds)) == 0.0
  {
    if subjects != [] {
      var p := subjects[..|subjects| - 1];
      ZeroShares(p, totals, weight, seconds);
      var rows := Rows(subjects, totals, weight, seconds);
      assert rows[..|rows| - 1] == Rows(p, totals, weight, seconds);
    }
  }

  lemma PlannedSharesSum(subjects: seq<Subject>, totals: map<Code, nat>, weight: real, seconds: nat)
    requires weight == Weight(subjects)
    ensures SumPlanned(Rows(subjects, totals, weight, seconds)) == if weight != 0.0 then 1.0 else 0.0
  {
    if weight == 0.0 {
      ZeroShares(subjects, totals, weight, seconds);
    } else {
      PlannedOfRows(subjects, totals, weight, seconds);
      Whole(weight);
    }
  }

  lemma ActualSharesSum(subjects: seq<Subject>, totals: map<Code, nat>, weight: real, seconds: nat)
    requires seconds == Seconds(subjects, totals)
    ensures SumActual(Rows(subjects, totals, weight, seconds)) == if seconds != 0 then 1.0 else 0.0
  {
    if seconds == 0 {
      ZeroShares(subjects, totals, weight, seconds);
    } else {
      ActualOfRows(subjects, totals, weight, seconds);
      Whole(seconds as real);
    }
  }

  lemma Whole(x: real)
    requires x != 0.0
    ensures x / x == 1.0
  {}

  /**
    Main result. The rows' seconds are exactly the in-window time tagged with a
    listed subject; planned shares sum to 1 unless all weight cancels, actual
    shares sum to 1 unless that time is zero, and the deltas to their difference.
  */
  lemma AllocationConserves(subjects: seq<Subject>, sessions: seq<Session>, since: int)
    requires UniqueCodes(subjects)
    ensures var rows := Allocate(subjects, Totals(sessions, since));
            var planned := if Weight(subjects) != 0.0 then 1.0 else 0.0;
            var actual := if TaggedTime(sessions, since, Codes(subjects)) != 0 then 1.0 else 0.0;
            && SumSeconds(rows) == TaggedTime(sessions, since, Codes(subjects))
            && SumPlanned(rows) == planned
            && SumActual(rows) == actual
            && SumDelta(rows) == actual - planned
  {
    var totals := Totals(sessions, since);
    var weight, seconds := Weight(subjects), Seconds(subjects, totals);
    SecondsAreTaggedTime(subjects, sessions, since);
    SumsOfRows(subjects, totals, weight, seconds);
    PlannedSharesSum(subjects, totals, weight, seconds);
    ActualSharesSum(subjects, totals, weight, seconds);
  }

  /**
    A row's planned share is in proportion to its weight, its actual share to its
    seconds, and its delta is their difference.
  */
  predicate InProportion(row: Row, weight: real, seconds: nat) {
    && (weight != 0.0 ==> row.planned * weight == row.subject.weight)
    && (seconds != 0 ==> row.actual * seconds as real == row.actualSeconds as real)
    && row.delta == row.actual - row.planned
  }

  /** Row by row: the subjects in their order, each in proportion, with the seconds tagged with it in the window. */
  lemma RowsAreProportional(subjects: seq<Subject>, sessions: seq<Session>, since: int, i: nat)
    requires i < |subjects|
    ensures var rows := Allocate(subjects, Totals(sessions, since));
            && |rows| == |subjects| && rows[i].subject == subjects[i]
            && rows[i].actualSeconds == TaggedTime(sessions, since, {subjects[i].code})
            && InProportion(rows[i], Weight(subjects), Seconds(subjects, Totals(sessions, since)))
  {
    var totals := Totals(sessions, since);
    TotalIsTaggedTime(sessions, since, subjects[i].code);
    RowInProportion(subjects[i], totals, Weight(subjects), Seconds(subjects, totals));
  }

  lemma RowInProportion(s: Subject, totals: map<Code, nat>, weight: real, seconds: nat)
    ensures InProportion(RowFor(s, totals, weight, seconds), weight, seconds)
  {
    if weight != 0.0 {
      Proportion(s.weight, weight);
    }
    if seconds != 0 {
      Proportion(TotalFor(totals, s.code) as real, seconds as real);
    }
  }

  lemma Proportion(part: real, whole: real)
    requires whole != 0.0
    ensures part / whole * whole == part
  {}

  /** Tagged time, in terms of the sessions: one more counts if it carries one of the codes and is not before the window. */
  lemma TaggedTimeCounts(s: Session, rest: seq<Session>, since: int, codes: set<Code>)
    ensures TaggedTime([s] + rest, since, codes) == TaggedTime(rest, since, codes)
              + if s.subject.Some? && s.subject.value in codes && s.occurredAt >= since then s.seconds else 0
  {
    assert ([s] + rest)[1..] == rest;
  }

  // ----- a sliding window -----

  /** Time tagged with `code` in sessions that a window opening at `since` still holds and one opening at `later` does not. */
  function AgedTime(sessions: seq<Session>, since: int, later: int, code: Code): nat {
    if sessions == [] then 0
    else
      AgedTime(sessions[1..], since, later, code)
      + if sessions[0].subject == Some(code) && since <= sessions[0].occurredAt < later then sessions[0].seconds else 0
  }

  /** The earlier window counts what the later one does, and exactly the aged time on top. */
  lemma {:induction false} AgedTimeIsTheDifference(sessions: seq<Session>, since: int, later: int, code: Code)
    requires since <= later
    ensures TotalFor(Totals(sessions, since), code) == TotalFor(Totals(sessions, later), code) + AgedTime(sessions, since, later, code)
  {
    if sessions != [] {
      AgedTimeIsTheDifference(sessions[1..], since, later, code);
    }
  }

  function Tagged(sessions: seq<Session>): seq<Session> {
    if sessions == [] then []
    else (if sessions[0].subject.Some? then [sessions[0]] else []) + Tagged(sessions[1..])
  }

  /** Untagged sessions never change a row. */
  lemma {:induction false} UntaggedChangeNothing(subjects: seq<Subject>, sessions: seq<Session>, since: int)
    ensures Totals(Tagged(sessions), since) == Totals(sessions, since)
    ensures Allocate(subjects, Totals(Tagged(sessions), since)) == Allocate(subjects, Totals(sessions, since))
  {
    if sessions != [] {
      UntaggedChangeNothing(subjects, sessions[1..], since);
      assert sessions[0].subject.Some? ==> Tagged(sessions)[1..] == Tagged(sessions[1..]);
      assert sessions[0].subject.None? ==> Tagged(sessions) == Tagged(sessions[1..]);
    }
  }
}
