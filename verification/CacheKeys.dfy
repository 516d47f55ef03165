/**
  The Redis keys of every service, as they are printed: version counters
  (core/cache.py) and versioned entries (note, task, exam-prep and pod
  services). Distinct inputs print to distinct keys.
*/
module CacheKeys {
  import opened Options
  import opened Calendar
  import Tasks

  datatype Scope = TasksScope | NotesScope | StudyScope | ExamRefScope

  datatype Window = Week | Month

  /** Owners, items, tracks and subjects appear in keys as plain text. */
  datatype Key =
    | Version(scope: Scope, subject: string)
    | NotesList(owner: string, version: nat)
    | NotesItem(owner: string, version: nat, note: string)
    | TasksList(owner: string, version: nat, status: Option<Tasks.Status>)
    | TasksItem(owner: string, version: nat, task: string)
    | ExamConfig(track: string, version: nat)
    | ExamSubjects(track: string, version: nat)
    | StudySessions(owner: string, version: nat, window: Window)
    | StudyAllocation(owner: string, track: string, study: nat, reference: nat, window: Window)
    | Streak(owner: string, asOf: Date, versions: seq<nat>)

  // ----- printing -----

  function Digit(d: nat): char
    requires d < 10
  {
    ('0' as int + d) as char
  }

  function Decimal(n: nat): string {
    if n < 10 then [Digit(n)] else Decimal(n / 10) + [Digit(n % 10)]
  }

  /** Zero-padded to a fixed width, as in an ISO date. */
  function Padded(n: nat, width: nat): string {
    if width == 0 then [] else Padded(n / 10, width - 1) + [Digit(n % 10)]
  }

  function IsoDate(d: Date): string {
    Padded(d.year, 4) + "-" + Padded(d.month, 2) + "-" + Padded(d.day, 2)
  }

  function Decimals(ns: seq<nat>): seq<string> {
    seq(|ns|, i requires 0 <= i < |ns| => Decimal(ns[i]))
  }

  function Join(parts: seq<string>, sep: char): string {
    if parts == [] then []
    else if |parts| == 1 then parts[0]
    else parts[0] + [sep] + Join(parts[1..], sep)
  }

  function ScopeText(s: Scope): string {
    match s
    case TasksScope => "tasks"
    case NotesScope => "notes"
    case StudyScope => "study"
    case ExamRefScope => "exam_ref"
  }

  function StatusText(s: Option<Tasks.Status>): string {
    match s
    case None => "all"
    case Some(Todo) => "todo"
    case Some(InProgress) => "in_progress"
    case Some(Done) => "done"
  }

  function WindowText(w: Window): string {
    match w
    case Week => "week"
    case Month => "month"
  }

  function VersionText(versions: seq<nat>): string {
    "v" + Join(Decimals(versions), '.')
  }

  /** The colon-separated pieces of a key. */
  function Parts(k: Key): seq<string> {
    match k
    case Version(scope, subject) => [ScopeText(scope), "version", subject]
    case NotesList(owner, v) => ["notes", "list", owner, VersionText([v])]
    case NotesItem(owner, v, note) => ["notes", "item", owner, VersionText([v]), note]
    case TasksList(owner, v, status) => ["tasks", "list", owner, VersionText([v]), StatusText(status)]
    case TasksItem(owner, v, task) => ["tasks", "item", owner, VersionText([v]), task]
    case ExamConfig(track, v) => ["exam", "config", track, VersionText([v])]
    case ExamSubjects(track, v) => ["exam", "subjects", track, VersionText([v])]
    case StudySessions(owner, v, window) => ["study", "sessions", owner, VersionText([v]), WindowText(window)]
    case StudyAllocation(owner, track, study, reference, window) =>
      ["study", "allocation", owner, track, VersionText([study, reference]), WindowText(window)]
    case Streak(owner, asOf, versions) => ["streak", owner, IsoDate(asOf), VersionText(versions)]
  }

  function Print(k: Key): string {
    Join(Parts(k), ':')
  }

  /** UUIDs and the supported tracks contain no colon; dates have four-digit years. */
  predicate Plain(s: string) {
    ':' !in s
  }

  predicate ValidKey(k: Key) {
    match k
    case Version(_, subject) => Plain(subject)
    case NotesList(owner, _) => Plain(owner)
    case NotesItem(owner, _, note) => Plain(owner) && Plain(note)
    case TasksList(owner, _, _) => Plain(owner)
    case TasksItem(owner, _, task) => Plain(owner) && Plain(task)
    case ExamConfig(track, _) => Plain(track)
    case ExamSubjects(track, _) => Plain(track)
    case StudySessions(owner, _, _) => Plain(owner)
    case StudyAllocation(owner, track, _, _, _) => Plain(owner) && Plain(track)
    case Streak(owner, asOf, versions) =>
      Plain(owner) && versions != [] && IsDate(asOf) && asOf.year < 10_000
  }

  // ----- printing is injective -----

  lemma DigitsAreDistinct(a: nat, b: nat)
    requires a < 10 && b < 10 && Digit(a) == Digit(b)
    ensures a == b
  {
    assert Digit(a) as int == '0' as int + a;
    assert Digit(b) as int == '0' as int + b;
  }

  lemma {:induction false} DecimalInjective(a: nat, b: nat)
    requires Decimal(a) == Decimal(b)
    ensures a == b
  {
    DecimalNonempty(a);
    DecimalNonempty(b);
    var s := Decimal(a);
    DigitsAreDistinct(if a < 10 then a else a % 10, if b < 10 then b else b % 10);
    if a >= 10 && b >= 10 {
      assert s[..|s| - 1] == Decimal(a / 10);
      assert s[..|s| - 1] == Decimal(b / 10);
      DecimalInjective(a / 10, b / 10);
    }
  }

  lemma {:induction false} DecimalNonempty(n: nat)
    ensures |Decimal(n)| >= 1
    ensures n >= 10 ==> |Decimal(n)| >= 2
    ensures Decimal(n)[|Decimal(n)| - 1] == Digit(n % 10)
  {
    if n >= 10 {
      DecimalNonempty(n / 10);
    }
  }

  predicate Free(s: string, c: char) {
    c !in s
  }

  lemma {:induction false} DecimalIsDigits(n: nat, c: char)
    requires c < '0' || c > '9'
    ensures Free(Decimal(n), c)
  {
    if n >= 10 {
      DecimalIsDigits(n / 10, c);
    }
  }

  lemma {:induction false} PaddedIsDigits(n: nat, width: nat, c: char)
    requires c < '0' || c > '9'
    ensures Free(Padded(n, width), c) && |Padded(n, width)| == width
  {
    if width > 0 {
      PaddedIsDigits(n / 10, width - 1, c);
    }
  }

  function PowerOfTen(width: nat): nat {
    if width == 0 then 1 else 10 * PowerOfTen(width - 1)
  }

  lemma {:induction false} PaddedInjective(a: nat, b: nat, width: nat)
    requires a < PowerOfTen(width) && b < PowerOfTen(width) && Padded(a, width) == Padded(b, width)
    ensures a == b
  {
    if width > 0 {
      var s := Padded(a, width);
      PaddedIsDigits(a / 10, width - 1, ':');
      PaddedIsDigits(b / 10, width - 1, ':');
      assert s[width - 1] == Digit(a % 10) && s[width - 1] == Digit(b % 10);
      DigitsAreDistinct(a % 10, b % 10);
      assert s[..width - 1] == Padded(a / 10, width - 1);
      assert s[..width - 1] == Padded(b / 10, width - 1);
      PaddedInjective(a / 10, b / 10, width - 1);
    }
  }

  /** Cutting at the first separator is unambiguous. */
  lemma CutAtSeparator(a: string, r: string, b: string, t: string, sep: char)
    requires Free(a, sep) && Free(b, sep) && a + [sep] + r == b + [sep] + t
    ensures a == b && r == t
  {
    var s := a + [sep] + r;
    assert s[|a|] == sep && s[|b|] == sep;
    assert a == s[..|a|] && b == s[..|b|];
    assert r == s[|a| + 1..] && t == s[|b| + 1..];
  }

  predicate AllFree(parts: seq<string>, sep: char) {
    forall i :: 0 <= i < |parts| ==> Free(parts[i], sep)
  }

  lemma {:induction false} JoinInjective(a: seq<string>, b: seq<string>, sep: char)
    requires a != [] && b != [] && AllFree(a, sep) && AllFree(b, sep) && Join(a, sep) == Join(b, sep)
    ensures a == b
  {
    if |a| == 1 && |b| == 1 {
      assert a == [a[0]] && b == [b[0]];
    } else if |a| == 1 || |b| == 1 {
      assert false;
    } else {
      CutAtSeparator(a[0], Join(a[1..], sep), b[0], Join(b[1..], sep), sep);
      JoinInjective(a[1..], b[1..], sep);
      assert a == [a[0]] + a[1..] && b == [b[0]] + b[1..];
    }
  }

  lemma {:induction false} JoinFree(parts: seq<string>, sep: char, c: char)
    requires AllFree(parts, c) && c != sep
    ensures Free(Join(parts, sep), c)
  {
    if |parts| > 1 {
      JoinFree(parts[1..], sep, c);
    }
  }

  lemma {:induction false} DecimalsFree(ns: seq<nat>, c: char)
    requires c < '0' || c > '9'
    ensures AllFree(Decimals(ns), c)
  {
    if ns != [] {
      DecimalIsDigits(ns[0], c);
      DecimalsFree(ns[1..], c);
      assert Decimals(ns) == [Decimal(ns[0])] + Decimals(ns[1..]);
    }
  }

  lemma VersionTextPlain(versions: seq<nat>)
    ensures Free(VersionText(versions), ':')
  {
    DecimalsFree(versions, ':');
    JoinFree(Decimals(versions), '.', ':');
  }

  lemma VersionTextInjective(a: seq<nat>, b: seq<nat>)
    requires a != [] && b != [] && VersionText(a) == VersionText(b)
    ensures a == b
  {
    DecimalsFree(a, '.');
    DecimalsFree(b, '.');
    assert VersionText(a)[1..] == Join(Decimals(a), '.');
    assert VersionText(b)[1..] == Join(Decimals(b), '.');
    JoinInjective(Decimals(a), Decimals(b), '.');
    assert |a| == |Decimals(a)| == |b|;
    forall i | 0 <= i < |a| ensures a[i] == b[i] {
      assert Decimals(a)[i] == Decimals(b)[i];
      DecimalInjective(a[i], b[i]);
    }
  }

  lemma IsoDatePlain(d: Date)
    ensures Free(IsoDate(d), ':')
  {
    PaddedIsDigits(d.year, 4, ':');
    PaddedIsDigits(d.month, 2, ':');
    PaddedIsDigits(d.day, 2, ':');
  }

  lemma IsoDateInjective(a: Date, b: Date)
    requires IsDate(a) && IsDate(b) && a.year < 10_000 && b.year < 10_000
    requires IsoDate(a) == IsoDate(b)
    ensures a == b
  {
    IsoDatePieces(a);
    IsoDatePieces(b);
    assert PowerOfTen(2) == 100 && PowerOfTen(4) == 10_000;
    PaddedInjective(a.year, b.year, 4);
    PaddedInjective(a.month, b.month, 2);
    PaddedInjective(a.day, b.day, 2);
  }

  lemma IsoDatePieces(d: Date)
    ensures var s := IsoDate(d);
            && |s| == 10
            && s[..4] == Padded(d.year, 4) && s[5..7] == Padded(d.month, 2) && s[8..] == Padded(d.day, 2)
  {
    PaddedIsDigits(d.year, 4, ':');
    PaddedIsDigits(d.month, 2, ':');
    PaddedIsDigits(d.day, 2, ':');
  }

  /** Which service's key this is, read off its first two pieces. */
  function Kind(parts: seq<string>): nat
    requires |parts| >= 2
  {
    var a, b := parts[0], parts[1];
    if a == "streak" then 9
    else if b == "version" then 0
    else if a == "notes" then (if b == "list" then 1 else 2)
    else if a == "tasks" then (if b == "list" then 3 else 4)
    else if a == "exam" then (if b == "config" then 5 else 6)
    else if b == "sessions" then 7
    else 8
  }

  lemma KindOfKey(k: Key)
    ensures Kind(Parts(k)) ==
              match k {
                case Version(_, _) => 0
                case NotesList(_, _) => 1
                case NotesItem(_, _, _) => 2
                case TasksList(_, _, _) => 3
                case TasksItem(_, _, _) => 4
                case ExamConfig(_, _) => 5
                case ExamSubjects(_, _) => 6
                case StudySessions(_, _, _) => 7
                case StudyAllocation(_, _, _, _, _) => 8
                case Streak(_, _, _) => 9
              }
  {}

  lemma PartsPlain(k: Key)
    requires ValidKey(k)
    ensures AllFree(Parts(k), ':')
  {
    match k {
      case Version(_, _) =>
      case NotesList(_, v) => VersionTextPlain([v]);
      case NotesItem(_, v, _) => VersionTextPlain([v]);
      case TasksList(_, _, _) => TasksPartsPlain(k);
      case TasksItem(_, _, _) => TasksPartsPlain(k);
      case ExamConfig(_, v) => VersionTextPlain([v]);
      case ExamSubjects(_, v) => VersionTextPlain([v]);
      case StudySessions(_, _, _) => StudyPartsPlain(k);
      case StudyAllocation(_, _, _, _, _) => StudyPartsPlain(k);
      case Streak(_, d, vs) => IsoDatePlain(d); VersionTextPlain(vs);
    }
  }

  lemma TasksPartsPlain(k: Key)
    requires ValidKey(k) && (k.TasksList? || k.TasksItem?)
    ensures AllFree(Parts(k), ':')
  {
    VersionTextPlain([k.version]);
  }

  lemma StudyPartsPlain(k: Key)
    requires ValidKey(k) && (k.StudySessions? || k.StudyAllocation?)
    ensures AllFree(Parts(k), ':')
  {
    if k.StudySessions? {
      VersionTextPlain([k.version]);
    } else {
      VersionTextPlain([k.study, k.reference]);
    }
  }

  lemma PartsInjective(k: Key, l: Key)
    requires ValidKey(k) && ValidKey(l) && Parts(k) == Parts(l)
    ensures k == l
  {
    KindOfKey(k);
    KindOfKey(l);
    match k {
      case Version(_, _) =>
      case NotesList(_, v) => VersionTextInjective([v], [l.version]);
      case NotesItem(_, v, _) => VersionTextInjective([v], [l.version]);
      case TasksList(_, v, _) => VersionTextInjective([v], [l.version]);
      case TasksItem(_, v, _) => VersionTextInjective([v], [l.version]);
      case ExamConfig(_, v) => VersionTextInjective([v], [l.version]);
      case ExamSubjects(_, v) => VersionTextInjective([v], [l.version]);
      case StudySessions(_, v, _) => VersionTextInjective([v], [l.version]);
      case StudyAllocation(_, _, s, r, _) => VersionTextInjective([s, r], [l.study, l.reference]);
      case Streak(_, d, vs) =>
        IsoDateInjective(d, l.asOf);
        VersionTextInjective(vs, l.versions);
    }
  }

  /**
    Main result. Two valid keys print alike only if they are the same key: no
    two services, owners, items, filters, dates or versions collide, and no
    entry is ever stored under the name of a version counter.
  */
  lemma KeysAreInjective(k: Key, l: Key)
    requires ValidKey(k) && ValidKey(l)
    ensures Print(k) == Print(l) <==> k == l
  {
    if Print(k) == Print(l) {
      PartsPlain(k);
      PartsPlain(l);
      JoinInjective(Parts(k), Parts(l), ':');
      PartsInjective(k, l);
    }
  }
}
