/**
  Time logs kept per key in insertion order: the shape shared by the request
  limiter's `_hits` and the login tracker's `_failed_attempts`, both an ordered
  dictionary of deques of clock readings.
*/
module TimeLogs {

  /** What a log is kept for: a client address, or a normalized email. */
  datatype Key = Key(text: string)

  /** An ordered dictionary: `order` lists its keys from oldest to newest. */
  datatype Tracker = Tracker(order: seq<Key>, logs: map<Key, seq<real>>) {

    ghost predicate Valid() {
      && Distinct(order)
      && (forall k :: k in order <==> k in logs)
    }
  }

  const EMPTY := Tracker([], map[])

  predicate Distinct(s: seq<Key>) {
    s == [] || (s[0] !in s[1..] && Distinct(s[1..]))
  }

  /** Clock readings never go back. */
  predicate Sorted(log: seq<real>) {
    |log| < 2 || (log[|log| - 2] <= log[|log| - 1] && Sorted(log[..|log| - 1]))
  }

  function Without(s: seq<Key>, k: Key): seq<Key> {
    if s == [] then []
    else if s[0] == k then Without(s[1..], k)
    else [s[0]] + Without(s[1..], k)
  }

  /** `del d[k]` */
  function Delete(t: Tracker, k: Key): Tracker {
    Tracker(Without(t.order, k), t.logs - {k})
  }

  /** `d.move_to_end(k)`, with `log` as the entry rewritten in place. */
  function MoveToEnd(t: Tracker, k: Key, log: seq<real>): Tracker {
    Tracker(Without(t.order, k) + [k], t.logs[k := log])
  }

  /** `d[k] = log` for a new key, then `popitem(last=False)` once over `cap`. */
  function InsertCapped(t: Tracker, k: Key, log: seq<real>, cap: nat): Tracker {
    var order := t.order + [k];
    if |order| > cap
    then Tracker(order[1..], t.logs[k := log] - {order[0]})
    else Tracker(order, t.logs[k := log])
  }

  /** The log once its stale head is gone. */
  function DropExpired(log: seq<real>, since: real): seq<real> {
    if log != [] && log[0] < since then DropExpired(log[1..], since) else log
  }

  /** The popleft loop both trackers run before looking at a log. */
  method PopExpired(log: seq<real>, since: real) returns (rest: seq<real>)
    ensures rest == DropExpired(log, since)
  {
    rest := log;
    while rest != [] && rest[0] < since
      invariant DropExpired(rest, since) == DropExpired(log, since)
    {
      rest := rest[1..];
    }
  }

  /** Number of readings of `log` in the closed interval from `lo` to `hi`. */
  function CountIn(log: seq<real>, lo: real, hi: real): nat {
    if log == [] then 0
    else CountIn(log[..|log| - 1], lo, hi) + if lo <= log[|log| - 1] <= hi then 1 else 0
  }

  // ----- keys -----

  lemma {:induction false} WithoutMembers(s: seq<Key>, k: Key)
    ensures forall x :: x in Without(s, k) <==> x in s && x != k
  {
    if s != [] {
      WithoutMembers(s[1..], k);
      assert s == [s[0]] + s[1..];
    }
  }

  lemma {:induction false} WithoutAbsent(s: seq<Key>, k: Key)
    requires k !in s
    ensures Without(s, k) == s
  {
    if s != [] {
      WithoutAbsent(s[1..], k);
    }
  }

  lemma {:induction false} WithoutAppend(s: seq<Key>, t: seq<Key>, k: Key)
    ensures Without(s + t, k) == Without(s, k) + Without(t, k)
  {
    if s == [] {
      assert s + t == t;
    } else {
      assert (s + t)[1..] == s[1..] + t;
      WithoutAppend(s[1..], t, k);
    }
  }

  lemma {:induction false} WithoutRemoves(s: seq<Key>, i: nat)
    requires Distinct(s) && i < |s|
    ensures Without(s, s[i]) == s[..i] + s[i + 1..]
  {
    if i == 0 {
      WithoutAbsent(s[1..], s[0]);
    } else {
      WithoutRemoves(s[1..], i - 1);
      assert s[1..][..i - 1] == s[1..i] && s[1..][i..] == s[i + 1..];
      assert [s[0]] + s[1..i] == s[..i];
    }
  }

  lemma {:induction false} WithoutDistinct(s: seq<Key>, k: Key)
    requires Distinct(s)
    ensures Distinct(Without(s, k))
    ensures |Without(s, k)| == if k in s then |s| - 1 else |s|
  {
    if s != [] {
      WithoutDistinct(s[1..], k);
      WithoutMembers(s[1..], k);
      if s[0] == k {
        WithoutAbsent(s[1..], k);
      } else {
        assert Without(s, k)[1..] == Without(s[1..], k);
      }
    }
  }

  lemma {:induction false} DistinctAppend(s: seq<Key>, t: seq<Key>)
    ensures Distinct(s + t) <==> Distinct(s) && Distinct(t) && forall x :: x in s ==> x !in t
  {
    if s == [] {
      assert s + t == t;
    } else {
      assert (s + t)[1..] == s[1..] + t;
      assert s == [s[0]] + s[1..];
      DistinctAppend(s[1..], t);
    }
  }

  // ----- logs -----

  lemma {:induction false} DropExpiredTwice(log: seq<real>, a: real, b: real)
    requires a <= b
    ensures DropExpired(DropExpired(log, a), b) == DropExpired(log, b)
  {
    if log != [] && log[0] < a {
      DropExpiredTwice(log[1..], a, b);
    }
  }

  lemma {:induction false} DropExpiredAppend(log: seq<real>, x: real, since: real)
    requires since <= x
    ensures DropExpired(log + [x], since) == DropExpired(log, since) + [x]
  {
    if log != [] && log[0] < since {
      assert (log + [x])[1..] == log[1..] + [x];
      DropExpiredAppend(log[1..], x, since);
    }
  }

  lemma {:induction false} DropExpiredSuffix(log: seq<real>, since: real)
    ensures var r := DropExpired(log, since);
            && |r| <= |log|
            && r == log[|log| - |r|..]
            && (r != [] ==> r[0] >= since)
  {
    if log != [] && log[0] < since {
      DropExpiredSuffix(log[1..], since);
    }
  }

  lemma {:induction false} SortedBounds(log: seq<real>, i: int, j: int)
    requires Sorted(log) && 0 <= i <= j < |log|
    ensures log[i] <= log[j]
  {
    if j < |log| - 1 {
      SortedBounds(log[..|log| - 1], i, j);
    } else if i < j {
      SortedBounds(log[..|log| - 1], i, j - 1);
    }
  }

  lemma {:induction false} SortedSuffix(log: seq<real>, i: nat)
    requires Sorted(log) && i <= |log|
    ensures Sorted(log[i..])
  {
    if |log| - i >= 2 {
      SortedSuffix(log[..|log| - 1], i);
      assert log[i..][..|log[i..]| - 1] == log[..|log| - 1][i..];
    }
  }

  lemma {:induction false} CountNone(log: seq<real>, lo: real, hi: real)
    requires Sorted(log) && (log != [] ==> log[|log| - 1] < lo)
    ensures CountIn(log, lo, hi) == 0
  {
    if log != [] {
      CountNone(log[..|log| - 1], lo, hi);
    }
  }

  lemma DropsAll(log: seq<real>, since: real)
    requires Sorted(log) && (log != [] ==> log[|log| - 1] < since)
    ensures DropExpired(log, since) == []
  {
    DropExpiredSuffix(log, since);
    var r := DropExpired(log, since);
    if r != [] {
      SortedBounds(log, |log| - |r|, |log| - 1);
    }
  }

  /** On a sorted log that ends by `hi`, what survives dropping is what lies in the window. */
  lemma {:induction false} DropExpiredCounts(log: seq<real>, since: real, hi: real)
    requires Sorted(log) && (log != [] ==> log[|log| - 1] <= hi)
    ensures |DropExpired(log, since)| == CountIn(log, since, hi)
  {
    if log != [] {
      var p, x := log[..|log| - 1], log[|log| - 1];
      assert log == p + [x];
      if since <= x {
        DropExpiredAppend(p, x, since);
        DropExpiredCounts(p, since, hi);
      } else {
        CountNone(log, since, hi);
        DropsAll(log, since);
      }
    }
  }

  lemma {:induction false} CountMonotone(log: seq<real>, lo: real, hi: real, lo': real, hi': real)
    requires lo' <= lo && hi <= hi'
    ensures CountIn(log, lo, hi) <= CountIn(log, lo', hi')
  {
    if log != [] {
      CountMonotone(log[..|log| - 1], lo, hi, lo', hi');
    }
  }

  lemma {:induction false} CountUpTo(log: seq<real>, lo: real, hi: real, now: real)
    requires Sorted(log) && now <= hi && (log != [] ==> log[|log| - 1] <= now)
    ensures CountIn(log, lo, hi) == CountIn(log, lo, now)
  {
    if log != [] {
      CountUpTo(log[..|log| - 1], lo, hi, now);
    }
  }
}
