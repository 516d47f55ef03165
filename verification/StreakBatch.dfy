/**
  The batched streak read behind the pod feed (services/pod_service.py and
  get_versions in core/cache.py): one MGET of versions for everybody, one MGET
  of entries, one query for the misses.
*/
module StreakBatch {
  import opened Options
  import opened Database
  import opened CacheProtocol
  import CacheKeys
  import Streaks
  import Contents

  // ----- versions -----

  /** What a counter key may hold: nothing, an integer, or something that is not one. */
  datatype Raw = Missing | Number(value: nat) | Garbage

  function AsVersion(raw: Raw): nat {
    if raw.Number? then raw.value else 0
  }

  function VersionsIn(redis: map<Counter, Raw>, scopes: seq<CacheKeys.Scope>, subject: Id): Versions {
    seq(|scopes|, j requires 0 <= j < |scopes| =>
      var c := Counter(scopes[j], subject); if c in redis then AsVersion(redis[c]) else 0)
  }

  /** `mget_json`; when Redis is down every key is a miss. */
  method MGet(redis: map<Counter, Raw>, keys: seq<Counter>, down: bool) returns (raws: seq<Raw>)
    ensures |raws| == |keys|
    ensures forall i :: 0 <= i < |keys| ==> raws[i] == if keys[i] in redis && !down then redis[keys[i]] else Missing
  {
    if down {
      return seq(|keys|, _ => Missing);
    }
    raws := [];
    for i := 0 to |keys|
      invariant |raws| == i
      invariant forall j :: 0 <= j < i ==> raws[j] == if keys[j] in redis then redis[keys[j]] else Missing
    {
      raws := raws + [if keys[i] in redis then redis[keys[i]] else Missing];
    }
  }

  function KeysOf(scopes: seq<CacheKeys.Scope>, subject: Id): seq<Counter> {
    seq(|scopes|, j requires 0 <= j < |scopes| => Counter(scopes[j], subject))
  }

  /** Subject by subject, and within each scope by scope. */
  function Flattened(scopes: seq<CacheKeys.Scope>, subjects: seq<Id>): seq<Counter> {
    if subjects == [] then []
    else Flattened(scopes, subjects[..|subjects| - 1]) + KeysOf(scopes, subjects[|subjects| - 1])
  }

  lemma {:induction false} FlattenedLength(scopes: seq<CacheKeys.Scope>, subjects: seq<Id>)
    ensures |Flattened(scopes, subjects)| == |subjects| * |scopes|
  {
    if subjects != [] {
      FlattenedLength(scopes, subjects[..|subjects| - 1]);
      assert |subjects| * |scopes| == (|subjects| - 1) * |scopes| + |scopes|;
    }
  }

  lemma {:induction false} FlattenedPrefix(scopes: seq<CacheKeys.Scope>, subjects: seq<Id>, i: nat)
    requires i <= |subjects|
    ensures Flattened(scopes, subjects[..i]) <= Flattened(scopes, subjects)
  {
    if i < |subjects| {
      var p := subjects[..|subjects| - 1];
      assert p[..i] == subjects[..i];
      FlattenedPrefix(scopes, p, i);
    } else {
      assert subjects[..i] == subjects;
    }
  }

  lemma SliceOfFlattened(scopes: seq<CacheKeys.Scope>, subjects: seq<Id>, i: nat)
    requires i < |subjects|
    ensures 0 <= i * |scopes| <= (i + 1) * |scopes| <= |Flattened(scopes, subjects)|
    ensures Flattened(scopes, subjects)[i * |scopes|..(i + 1) * |scopes|] == KeysOf(scopes, subjects[i])
  {
    var p, q := subjects[..i], subjects[..i + 1];
    assert q[..|q| - 1] == p;
    FlattenedLength(scopes, p);
    FlattenedLength(scopes, q);
    FlattenedPrefix(scopes, subjects, i + 1);
    var keys := Flattened(scopes, q);
    assert keys == Flattened(scopes, p) + KeysOf(scopes, subjects[i]);
    assert Flattened(scopes, subjects)[|Flattened(scopes, p)|..|keys|] == keys[|Flattened(scopes, p)|..];
  }

  /** `get_versions`: each subject gets back its own scopes' versions, in order. */
  method GetVersions(redis: map<Counter, Raw>, scopes: seq<CacheKeys.Scope>, subjects: seq<Id>, down: bool)
    returns (versions: map<Id, Versions>)
    ensures forall subject :: subject in versions <==> subject in subjects
    ensures forall subject :: subject in subjects ==>
              versions[subject] == VersionsIn(if down then map[] else redis, scopes, subject)
    ensures forall subject, j :: subject in subjects && 0 <= j < |scopes| ==>
              && |versions[subject]| == |scopes|
              && var c := Counter(scopes[j], subject);
                 versions[subject][j] == if !down && c in redis && redis[c].Number? then redis[c].value else 0
  {
    var keys := Flattened(scopes, subjects);
    var raws := MGet(redis, keys, down);
    ghost var seen := if down then map[] else redis;
    var width := |scopes|;
    versions := map[];
    for i := 0 to |subjects|
      invariant forall subject :: subject in versions <==> subject in subjects[..i]
      invariant forall subject :: subject in versions ==> versions[subject] == VersionsIn(seen, scopes, subject)
    {
      SliceOfFlattened(scopes, subjects, i);
      var slice := raws[i * width..(i + 1) * width];
      var tuple := seq(|slice|, j requires 0 <= j < |slice| => AsVersion(slice[j]));
      forall j | 0 <= j < width ensures tuple[j] == VersionsIn(seen, scopes, subjects[i])[j] {
        assert keys[i * width..(i + 1) * width][j] == KeysOf(scopes, subjects[i])[j];
      }
      assert |tuple| == width;
      versions := versions[subjects[i] := tuple];
      assert subjects[..i + 1] == subjects[..i] + [subjects[i]];
    }
  }

  // ----- activity -----

  /** One row of the activity query. */
  datatype ActivityRow = ActivityRow(user: Id, at: int)

  function InstantsOf(rows: seq<ActivityRow>, user: Id): seq<int> {
    if rows == [] then []
    else
      var before, r := InstantsOf(rows[..|rows| - 1], user), rows[|rows| - 1];
      if r.user == user then before + [r.at] else before
  }

  /** `_activity_timestamps` past its query: the rows by user, everybody asked for included. */
  method ActivityTimestamps(users: seq<Id>, rows: seq<ActivityRow>) returns (byUser: map<Id, seq<int>>)
    requires forall r :: r in rows ==> r.user in users
    ensures forall u :: u in byUser <==> u in users
    ensures forall u :: u in users ==> byUser[u] == InstantsOf(rows, u)
  {
    byUser := map u | u in users :: [];
    for i := 0 to |rows|
      invariant forall u :: u in byUser <==> u in users
      invariant forall u :: u in users ==> byUser[u] == InstantsOf(rows[..i], u)
    {
      var r := rows[i];
      assert r in rows;
      assert rows[..i + 1][..i] == rows[..i];
      byUser := byUser[r.user := byUser[r.user] + [r.at]];
    }
    assert rows[..|rows|] == rows;
  }

  lemma {:induction false} InstantsMembers(rows: seq<ActivityRow>, user: Id)
    ensures forall t :: t in InstantsOf(rows, user) <==> ActivityRow(user, t) in rows
  {
    if rows != [] {
      InstantsMembers(rows[..|rows| - 1], user);
      assert rows == rows[..|rows| - 1] + [rows[|rows| - 1]];
    }
  }

  /** The rows of the query for `users`, in any order: their activity since the window opened. */
  ghost predicate AnswersQuery(rows: seq<ActivityRow>, log: Log, users: seq<Id>, asOf: int) {
    forall r :: r in rows <==>
      r.user in users && r.at in ActivityOf(log, r.user) && r.at >= Streaks.WindowStart(asOf)
  }

  lemma ComputedIsExecuted(rows: seq<ActivityRow>, log: Log, users: seq<Id>, user: Id, asOf: int, now: int)
    requires AnswersQuery(rows, log, users, asOf) && user in users
    ensures StreakValue(Streaks.StreakOf(InstantsOf(rows, user), asOf)) == Execute(ComputeStreak(user, asOf), log, now)
  {
    InstantsMembers(rows, user);
    ListedMembers(ActivityOf(log, user));
    Streaks.SinceMembers(Listed(ActivityOf(log, user)), Streaks.WindowStart(asOf));
    Streaks.OrderAndRepetitionIrrelevant(
      InstantsOf(rows, user), Streaks.Since(Listed(ActivityOf(log, user)), Streaks.WindowStart(asOf)), asOf);
  }

  // ----- the batch -----

  const SCOPES := [CacheKeys.TasksScope, CacheKeys.StudyScope]

  /** Redis holds the counters of state `s`. */
  ghost predicate HoldsCounters(redis: map<Counter, Raw>, s: State) {
    forall c :: (if c in redis then AsVersion(redis[c]) else 0) == |BumpsOf(s.bumps, c)|
  }

  /** Some moment's streak, no older than the bumps that had landed in `s0`. */
  ghost predicate SoundFor(s0: State, s: State, user: Id, asOf: int, streak: Streaks.Streak) {
    exists seen, at ::
      && FromDatabase(s, ComputeStreak(user, asOf), StreakValue(streak), seen, at)
      && Covered(s.bumps, CountersFor(ComputeStreak(user, asOf)),
                 VersionsNow(s0.bumps, CountersFor(ComputeStreak(user, asOf))), seen)
  }

  lemma HitIsSound(s0: State, s1: State, s2: State, user: Id, asOf: int, versions: Versions)
    requires Inv(s1) && Extends(s1, s2)
    requires versions == VersionsNow(s0.bumps, CountersFor(ComputeStreak(user, asOf)))
    requires (ComputeStreak(user, asOf), versions) in s1.store
    ensures var value := s1.store[(ComputeStreak(user, asOf), versions)].value;
            value.StreakValue? && SoundFor(s0, s2, user, asOf, value.streak)
  {
    var e := s1.store[(ComputeStreak(user, asOf), versions)];
    assert EntryGood(s1, ComputeStreak(user, asOf), versions, e);
    GoodStaysGood(s1, s2, ComputeStreak(user, asOf), versions, e.value, e.seen, e.at);
  }

  lemma MissIsSound(s0: State, s2: State, rows: seq<ActivityRow>, users: seq<Id>, user: Id, asOf: int)
    requires BumpsGood(s0) && Extends(s0, s2)
    requires AnswersQuery(rows, s2.log, users, asOf) && user in users
    ensures SoundFor(s0, s2, user, asOf, Streaks.StreakOf(InstantsOf(rows, user), asOf))
  {
    var req := ComputeStreak(user, asOf);
    ComputedIsExecuted(rows, s2.log, users, user, asOf, s2.now);
    FreshVersionsCovered(s0, req);
    GoodStaysGood(s0, s2, req, VersionsNow(s0.bumps, CountersFor(req)), NotFound, |s0.log|, 0);
    assert s2.log[..|s2.log|] == s2.log;
    assert FromDatabase(s2, req, StreakValue(Streaks.StreakOf(InstantsOf(rows, user), asOf)), |s2.log|, s2.now);
  }

  lemma ScopesAreCounters(redis: map<Counter, Raw>, s: State, user: Id, asOf: int)
    requires HoldsCounters(redis, s)
    ensures VersionsIn(redis, SCOPES, user) == VersionsNow(s.bumps, CountersFor(ComputeStreak(user, asOf)))
  {}

  function KeyOf(user: Id, asOf: int, versions: map<Id, Versions>): (Request, Versions)
    requires user in versions
  {
    (ComputeStreak(user, asOf), versions[user])
  }

  /** The entries that answer, and the users left over. */
  method LookUp(users: seq<Id>, asOf: int, versions: map<Id, Versions>, store: map<(Request, Versions), Entry>, down: bool)
    returns (hits: map<Id, Streaks.Streak>, missing: seq<Id>)
    requires forall u :: u in users ==> u in versions
    requires forall u :: u in users && KeyOf(u, asOf, versions) in store ==>
               store[KeyOf(u, asOf, versions)].value.StreakValue?
    ensures forall u :: u in hits <==> u in users && !down && KeyOf(u, asOf, versions) in store
    ensures forall u :: u in hits ==> store[KeyOf(u, asOf, versions)].value == StreakValue(hits[u])
    ensures forall u :: u in missing <==> u in users && (down || KeyOf(u, asOf, versions) !in store)
  {
    hits, missing := map[], [];
    for i := 0 to |users|
      invariant forall u :: u in hits <==> u in users[..i] && !down && KeyOf(u, asOf, versions) in store
      invariant forall u :: u in hits ==> store[KeyOf(u, asOf, versions)].value == StreakValue(hits[u])
      invariant forall u :: u in missing <==> u in users[..i] && (down || KeyOf(u, asOf, versions) !in store)
    {
      var u := users[i];
      assert users[..i + 1] == users[..i] + [u];
      if !down && KeyOf(u, asOf, versions) in store {
        hits := hits[u := store[KeyOf(u, asOf, versions)].value.streak];
      } else {
        missing := missing + [u];
      }
    }
    assert users[..|users|] == users;
  }

  /** The streaks of the misses, and what goes back into the cache. */
  method Compute(missing: seq<Id>, asOf: int, versions: map<Id, Versions>, rows: seq<ActivityRow>)
    returns (computed: map<Id, Streaks.Streak>, toCache: map<(Request, Versions), Response>)
    requires forall u :: u in missing ==> u in versions
    requires forall r :: r in rows ==> r.user in missing
    ensures forall u :: u in computed <==> u in missing
    ensures forall u :: u in missing ==>
              && computed[u] == Streaks.StreakOf(InstantsOf(rows, u), asOf)
              && KeyOf(u, asOf, versions) in toCache
              && toCache[KeyOf(u, asOf, versions)] == StreakValue(computed[u])
    ensures forall key :: key in toCache ==> exists u :: u in missing && key == KeyOf(u, asOf, versions)
  {
    var activity := ActivityTimestamps(missing, rows);
    computed, toCache := map[], map[];
    var todo := activity.Keys;
    while todo != {}
      invariant todo <= activity.Keys
      invariant forall u :: u in computed <==> u in missing && u !in todo
      invariant forall u :: u in computed ==>
                  && computed[u] == Streaks.StreakOf(InstantsOf(rows, u), asOf)
                  && KeyOf(u, asOf, versions) in toCache
                  && toCache[KeyOf(u, asOf, versions)] == StreakValue(computed[u])
      invariant forall key :: key in toCache ==> exists u :: u in missing && key == KeyOf(u, asOf, versions)
      decreases todo
    {
      var u :| u in todo;
      var streak := Streaks.StreakFromTimestamps(activity[u], asOf);
      computed := computed[u := streak];
      toCache := toCache[KeyOf(u, asOf, versions) := StreakValue(streak)];
      todo := todo - {u};
    }
  }

  ghost predicate TakenIn(versions: map<Id, Versions>, s0: State, users: seq<Id>, asOf: int) {
    forall u :: u in users ==>
      u in versions && versions[u] == VersionsNow(s0.bumps, CountersFor(ComputeStreak(u, asOf)))
  }

  /** Under this key the batch may file this value: a requested user's, under the versions of `s0`, as queried in `s2`. */
  ghost predicate Files(key: (Request, Versions), value: Response, users: seq<Id>, asOf: int, s0: State, s2: State) {
    && key.0.ComputeStreak? && key.0.owner in users && key.0.asOf == asOf
    && key.1 == VersionsNow(s0.bumps, CountersFor(key.0))
    && value == Execute(key.0, s2.log, s2.now)
  }

  /**
    `compute_streaks`. Versions come from Redis in state `s0`, entries from `s1`
    unless that lookup fails, and the query runs in `s2`; anything may happen in
    between. Hits and misses together answer for exactly the users asked about;
    each answer is some moment's streak, no older than what had been bumped in
    `s0`; and what is written back is the misses and nothing else, as queried,
    under the versions taken first.
  */
  method ComputeStreaks(users: seq<Id>, asOf: int, redis: map<Counter, Raw>,
                        store: map<(Request, Versions), Entry>, lookupFails: bool,
                        fetch: seq<Id> -> seq<ActivityRow>, ghost s0: State, ghost s1: State, ghost s2: State)
    returns (result: map<Id, Streaks.Streak>, toCache: map<(Request, Versions), Response>)
    requires Inv(s0) && Inv(s1) && Extends(s0, s1) && Extends(s1, s2)
    requires HoldsCounters(redis, s0) && store == s1.store
    requires forall missing :: AnswersQuery(fetch(missing), s2.log, missing, asOf)
    ensures forall u :: u in result <==> u in users
    ensures forall u :: u in users ==> SoundFor(s0, s2, u, asOf, result[u])
    ensures forall u :: u in users ==>
              var key := (ComputeStreak(u, asOf), VersionsNow(s0.bumps, CountersFor(ComputeStreak(u, asOf))));
              if key in store && !lookupFails then key !in toCache && store[key].value == StreakValue(result[u])
              else key in toCache && toCache[key] == StreakValue(result[u]) == Execute(key.0, s2.log, s2.now)
    ensures forall key :: key in toCache ==> Files(key, toCache[key], users, asOf, s0, s2)
  {
    var versions := GetVersions(redis, SCOPES, users, false);
    assert TakenIn(versions, s0, users, asOf) by {
      forall u | u in users ensures versions[u] == VersionsNow(s0.bumps, CountersFor(ComputeStreak(u, asOf))) {
        ScopesAreCounters(redis, s0, u, asOf);
      }
    }
    HitsAreSound(s0, s1, s2, users, asOf, versions);
    var hits, missing := LookUp(users, asOf, versions, store, lookupFails);
    if missing == [] {
      return hits, map[];
    }
    var rows := fetch(missing);
    var computed;
    computed, toCache := Compute(missing, asOf, versions, rows);
    MissesAreSound(s0, s2, rows, missing, asOf);
    result := hits + computed;
  }

  /** The store once the write-back landed, in a later state. */
  function WithEntries(s: State, toCache: map<(Request, Versions), Response>, seen: nat, at: int): State {
    s.(store := s.store + map key | key in toCache :: Entry(toCache[key], seen, at))
  }

  /** Writing the batch back whenever it gets there breaks nothing: it is one more well-behaved set of stores. */
  lemma WriteBackKeepsInv(s0: State, s2: State, s3: State, toCache: map<(Request, Versions), Response>,
                          users: seq<Id>, asOf: int)
    requires BumpsGood(s0) && Extends(s0, s2) && Extends(s2, s3) && Inv(s3)
    requires forall key :: key in toCache ==> Files(key, toCache[key], users, asOf, s0, s2)
    ensures Inv(WithEntries(s3, toCache, |s2.log|, s2.now))
    ensures Extends(s3, WithEntries(s3, toCache, |s2.log|, s2.now))
  {
    var s' := WithEntries(s3, toCache, |s2.log|, s2.now);
    forall key | key in s'.store ensures EntryGood(s', key.0, key.1, s'.store[key]) {
      if key in toCache {
        FiledIsGood(s0, s2, s3, key, toCache[key], users, asOf);
      } else {
        assert EntryGood(s3, key.0, key.1, s3.store[key]);
      }
    }
    forall id | id in s'.readers ensures ReaderGood(s', s'.readers[id]) {
      ReaderStaysGood(s3, s', s3.readers[id]);
    }
  }

  lemma FiledIsGood(s0: State, s2: State, s3: State, key: (Request, Versions), value: Response, users: seq<Id>, asOf: int)
    requires BumpsGood(s0) && Extends(s0, s2) && Extends(s2, s3) && Files(key, value, users, asOf, s0, s2)
    ensures EntryGood(s3, key.0, key.1, Entry(value, |s2.log|, s2.now))
  {
    FreshVersionsCovered(s0, key.0);
    GoodStaysGood(s0, s2, key.0, key.1, NotFound, |s0.log|, 0);
    assert s2.log[..|s2.log|] == s2.log;
    GoodStaysGood(s2, s3, key.0, key.1, value, |s2.log|, s2.now);
  }

  lemma HitsAreSound(s0: State, s1: State, s2: State, users: seq<Id>, asOf: int, versions: map<Id, Versions>)
    requires Inv(s1) && Extends(s1, s2) && TakenIn(versions, s0, users, asOf)
    ensures forall u :: u in users && KeyOf(u, asOf, versions) in s1.store ==>
              var value := s1.store[KeyOf(u, asOf, versions)].value;
              value.StreakValue? && SoundFor(s0, s2, u, asOf, value.streak)
  {
    forall u | u in users && KeyOf(u, asOf, versions) in s1.store
      ensures var value := s1.store[KeyOf(u, asOf, versions)].value;
              value.StreakValue? && SoundFor(s0, s2, u, asOf, value.streak)
    {
      HitIsSound(s0, s1, s2, u, asOf, versions[u]);
    }
  }

  lemma MissesAreSound(s0: State, s2: State, rows: seq<ActivityRow>, missing: seq<Id>, asOf: int)
    requires BumpsGood(s0) && Extends(s0, s2) && AnswersQuery(rows, s2.log, missing, asOf)
    ensures forall u :: u in missing ==>
              var streak := Streaks.StreakOf(InstantsOf(rows, u), asOf);
              SoundFor(s0, s2, u, asOf, streak) && StreakValue(streak) == Execute(ComputeStreak(u, asOf), s2.log, s2.now)
  {
    forall u | u in missing
      ensures var streak := Streaks.StreakOf(InstantsOf(rows, u), asOf);
              SoundFor(s0, s2, u, asOf, streak) && StreakValue(streak) == Execute(ComputeStreak(u, asOf), s2.log, s2.now)
    {
      MissIsSound(s0, s2, rows, missing, u, asOf);
      ComputedIsExecuted(rows, s2.log, missing, u, asOf, s2.now);
    }
  }

  /**
    Main result. Once the user's task and study bumps have landed when the batch
    takes its versions, its answer is the uncached streak of the same day at some
    moment of the batch, whatever interleaves.
  */
  lemma SettledBatchIsDirect(s0: State, s2: State, user: Id, asOf: int, streak: Streaks.Streak) returns (n: nat)
    requires Inv(s0) && Extends(s0, s2) && SoundFor(s0, s2, user, asOf, streak)
    requires Settled(s0, CountersFor(ComputeStreak(user, asOf)))
    ensures |s0.log| <= n <= |s2.log|
    ensures StreakValue(streak) == Execute(ComputeStreak(user, asOf), s2.log[..n], s2.now)
  {
    var req := ComputeStreak(user, asOf);
    var seen, at :|
      && FromDatabase(s2, req, StreakValue(streak), seen, at)
      && Covered(s2.bumps, CountersFor(req), VersionsNow(s0.bumps, CountersFor(req)), seen);
    n := SettledAnswerIsDirect(s0, s2, req, StreakValue(streak), seen, at);
    OnlyWindowsReadTheClock(req, s2.log[..n], at, s2.now);
  }

  /**
    So a settled batch answers, from the commits of a moment of its own: today is
    active if anything happened today, and the length is that of the run of active
    days up to today, or yesterday, capped at 400.
  */
  lemma ServedStreakShowsCommits(s0: State, s2: State, user: Id, asOf: int, streak: Streaks.Streak) returns (n: nat, days: nat)
    requires Inv(s0) && Extends(s0, s2) && SoundFor(s0, s2, user, asOf, streak)
    requires Settled(s0, CountersFor(ComputeStreak(user, asOf)))
    ensures |s0.log| <= n <= |s2.log|
    ensures streak.activeToday <==> Contents.ActiveOn(s2.log[..n], user, asOf)
    ensures Contents.ActiveRun(s2.log[..n], user, if streak.activeToday then asOf else asOf - 1, days)
    ensures streak.length == if days <= 400 then days else 400
  {
    n := SettledBatchIsDirect(s0, s2, user, asOf, streak);
    var log := s2.log[..n];
    days := Contents.ActiveRunExists(log, user, if Contents.ActiveOn(log, user, asOf) then asOf else asOf - 1);
    Contents.StreakFromCommits(log, user, asOf, s2.now, days);
  }
}
