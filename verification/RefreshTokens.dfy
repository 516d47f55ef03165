/**
  Refresh-token rotation with reuse detection (services/auth_service.py,
  core/security.py), after section 5.2.2.3 of RFC 6819. Every request is one
  atomic step. A token's hash is its index in the table: hashing is injective
  and every minted token carries a fresh identifier.
*/
module RefreshTokens {
  import opened Options

  const LIFETIME_SECONDS := 30 * 86_400
  const LEEWAY_SECONDS := 60

  /** A row of `refresh_tokens`. */
  datatype Row = Row(user: nat, expiresAt: int, revoked: bool)

  datatype Origin = FromLogin | RotatedFrom(parent: nat)

  /** The claims inside refresh token number `i`, and (as history) where it came from. */
  datatype Minted = Minted(user: nat, iat: int, exp: int, origin: Origin)

  datatype Store = Store(users: set<nat>, rows: seq<Row>, minted: seq<Minted>)

  const EMPTY := Store({}, [], [])

  /** What a client may hand in: something that does not verify, an access token, or a refresh token. */
  datatype Jwt = Forged | Access(exp: int) | Refresh(id: nat)

  /** `decode_token` accepts a signed token until `exp` plus the leeway (RFC 7519, section 4.1.4). */
  predicate Decodes(s: Store, jwt: Jwt, now: int) {
    match jwt
    case Forged => false
    case Access(exp) => exp > now - LEEWAY_SECONDS
    case Refresh(id) =>
      id < |s.minted| && s.minted[id].exp > now - LEEWAY_SECONDS && s.minted[id].iat <= now + LEEWAY_SECONDS
  }

  function Issue(s: Store, user: nat, now: int, origin: Origin): Store {
    Store(s.users,
          s.rows + [Row(user, now + LIFETIME_SECONDS, false)],
          s.minted + [Minted(user, now, now + LIFETIME_SECONDS, origin)])
  }

  function RevokeOne(rows: seq<Row>, id: nat): seq<Row> {
    if id < |rows| then rows[id := rows[id].(revoked := true)] else rows
  }

  function RevokeAll(rows: seq<Row>, user: nat): seq<Row> {
    seq(|rows|, i requires 0 <= i < |rows| =>
      if rows[i].user == user then rows[i].(revoked := true) else rows[i])
  }

  /** `refresh_access_token`: the new store, and the new token's number when the request succeeds. */
  function Rotate(s: Store, jwt: Jwt, now: int): (Store, Option<nat>) {
    if !Decodes(s, jwt, now) || !jwt.Refresh? || jwt.id >= |s.rows| then (s, None)
    else
      var stored := s.rows[jwt.id];
      if stored.revoked then (s.(rows := RevokeAll(s.rows, stored.user)), None)
      else if stored.expiresAt < now || stored.user !in s.users then (s, None)
      else (Issue(s.(rows := RevokeOne(s.rows, jwt.id)), stored.user, now, RotatedFrom(jwt.id)), Some(|s.rows|))
  }

  class AuthService {
    var users: set<nat>
    var rows: seq<Row>
    var minted: seq<Minted>

    function Value(): Store
      reads this
    {
      Store(users, rows, minted)
    }

    constructor ()
      ensures Value() == EMPTY
    {
      users, rows, minted := {}, [], [];
    }

    method IssueTokens(user: nat, now: int, origin: Origin) returns (id: nat)
      modifies this
      ensures Value() == Issue(old(Value()), user, now, origin) && id == |old(rows)|
    {
      id := |rows|;
      rows := rows + [Row(user, now + LIFETIME_SECONDS, false)];
      minted := minted + [Minted(user, now, now + LIFETIME_SECONDS, origin)];
    }

    method RevokeAllRefreshTokens(user: nat)
      modifies this`rows
      ensures rows == RevokeAll(old(rows), user)
    {
      var i := 0;
      while i < |rows|
        invariant 0 <= i <= |rows| == |old(rows)|
        invariant rows[..i] == RevokeAll(old(rows), user)[..i]
        invariant rows[i..] == old(rows)[i..]
      {
        if rows[i].user == user && !rows[i].revoked {
          rows := rows[i := rows[i].(revoked := true)];
        }
        i := i + 1;
      }
    }

    method RefreshAccessToken(jwt: Jwt, now: int) returns (issued: Option<nat>)
      modifies this
      ensures Value() == Rotate(old(Value()), jwt, now).0
      ensures issued == Rotate(old(Value()), jwt, now).1
    {
      if !Decodes(Value(), jwt, now) || !jwt.Refresh? || jwt.id >= |rows| {
        return None;
      }
      var stored := rows[jwt.id];
      if stored.revoked {
        RevokeAllRefreshTokens(stored.user);
        return None;
      }
      if stored.expiresAt < now || stored.user !in users {
        return None;
      }
      rows := rows[jwt.id := stored.(revoked := true)];
      var id := IssueTokens(stored.user, now, RotatedFrom(jwt.id));
      issued := Some(id);
    }

    /** Logout never decodes the token; it only looks its hash up. */
    method RevokeRefreshToken(jwt: Jwt)
      modifies this`rows
      ensures rows == if jwt.Refresh? then RevokeOne(old(rows), jwt.id) else old(rows)
    {
      if jwt.Refresh? && jwt.id < |rows| {
        rows := rows[jwt.id := rows[jwt.id].(revoked := true)];
      }
    }
  }

  // ----- runs -----

  datatype Event =
    | SignUp(user: nat)
    | Login(user: nat, at: int)
    | Present(jwt: Jwt, at: int)
    | Logout(jwt: Jwt)
    | LogoutAll(user: nat)

  function Step(s: Store, e: Event): Store {
    match e
    case SignUp(user) => s.(users := s.users + {user})
    case Login(user, at) => if user in s.users then Issue(s, user, at, FromLogin) else s
    case Present(jwt, at) => Rotate(s, jwt, at).0
    case Logout(jwt) => if jwt.Refresh? then s.(rows := RevokeOne(s.rows, jwt.id)) else s
    case LogoutAll(user) => s.(rows := RevokeAll(s.rows, user))
  }

  function Run(s: Store, events: seq<Event>): Store {
    if events == [] then s else Step(Run(s, events[..|events| - 1]), events[|events| - 1])
  }

  /** Rows agree with the claims; a rotated token is spent, has one successor, and stays in its user's hands. */
  ghost predicate Inv(s: Store) {
    && |s.rows| == |s.minted|
    && (forall i :: 0 <= i < |s.rows| ==>
          s.rows[i].user == s.minted[i].user && s.rows[i].expiresAt == s.minted[i].exp)
    && (forall i :: 0 <= i < |s.minted| && s.minted[i].origin.RotatedFrom? ==> ProperParent(s, i))
    && (forall i, j :: 0 <= i < j < |s.minted| && s.minted[i].origin.RotatedFrom? ==>
          s.minted[i].origin != s.minted[j].origin)
  }

  ghost predicate ProperParent(s: Store, i: nat)
    requires i < |s.minted| == |s.rows| && s.minted[i].origin.RotatedFrom?
  {
    var p := s.minted[i].origin.parent;
    p < i && s.rows[p].revoked && s.minted[p].user == s.minted[i].user
  }

  lemma {:induction false} RunInv(s: Store, events: seq<Event>)
    requires Inv(s)
    ensures Inv(Run(s, events))
  {
    if events != [] {
      RunInv(s, events[..|events| - 1]);
      StepInv(Run(s, events[..|events| - 1]), events[|events| - 1]);
    }
  }

  lemma StepInv(s: Store, e: Event)
    requires Inv(s)
    ensures Inv(Step(s, e))
  {
    match e {
      case SignUp(_) =>
      case Login(user, at) =>
        if user in s.users { IssueInv(s, user, at, FromLogin); }
      case Present(jwt, at) =>
        if Rotate(s, jwt, at).1.Some? {
          var spent := s.(rows := RevokeOne(s.rows, jwt.id));
          assert forall i :: 0 <= i < |s.minted| && s.minted[i].origin.RotatedFrom? ==> ProperParent(s, i);
          IssueInv(spent, s.rows[jwt.id].user, at, RotatedFrom(jwt.id));
        } else if Rotate(s, jwt, at).0 != s {
          RevokedInv(s, RevokeAll(s.rows, s.rows[jwt.id].user));
        }
      case Logout(jwt) =>
        if jwt.Refresh? { RevokedInv(s, RevokeOne(s.rows, jwt.id)); }
      case LogoutAll(user) =>
        RevokedInv(s, RevokeAll(s.rows, user));
    }
  }

  lemma RevokedInv(s: Store, rows: seq<Row>)
    requires Inv(s) && OnlyRevokes(s.rows, rows) && |rows| == |s.rows|
    ensures Inv(s.(rows := rows))
  {
    forall i | 0 <= i < |s.minted| && s.minted[i].origin.RotatedFrom?
      ensures ProperParent(s.(rows := rows), i)
    {
      assert ProperParent(s, i);
    }
  }

  lemma IssueInv(s: Store, user: nat, now: int, origin: Origin)
    requires Inv(s)
    requires origin.RotatedFrom? ==>
               && origin.parent < |s.rows| && s.rows[origin.parent].revoked && s.rows[origin.parent].user == user
               && forall i :: 0 <= i < |s.minted| ==> s.minted[i].origin != origin
    ensures Inv(Issue(s, user, now, origin))
  {
    var s' := Issue(s, user, now, origin);
    forall i | 0 <= i < |s'.minted| && s'.minted[i].origin.RotatedFrom?
      ensures ProperParent(s', i)
    {
      if i < |s.minted| { assert ProperParent(s, i); }
    }
  }

  // ----- linear chains -----

  function Root(s: Store, i: nat): nat
    requires Inv(s) && i < |s.minted|
  {
    if s.minted[i].origin.FromLogin? then i
    else
      assert ProperParent(s, i);
      Root(s, s.minted[i].origin.parent)
  }

  /** Of two tokens from one login, the earlier was rotated, by a token no later than the other. */
  lemma {:induction false} EarlierWasRotated(s: Store, i: nat, j: nat) returns (child: nat)
    requires Inv(s) && i < j < |s.minted| && Root(s, i) == Root(s, j)
    ensures i < child <= j && s.minted[child].origin == RotatedFrom(i)
    decreases j
  {
    RootAtMost(s, i);
    assert s.minted[j].origin.RotatedFrom?;
    assert ProperParent(s, j);
    var p := s.minted[j].origin.parent;
    if p == i {
      child := j;
    } else if i < p {
      child := EarlierWasRotated(s, i, p);
    } else {
      var c := EarlierWasRotated(s, p, i);
      assert false;
    }
  }

  lemma {:induction false} RootAtMost(s: Store, i: nat)
    requires Inv(s) && i < |s.minted|
    ensures Root(s, i) <= i
  {
    if s.minted[i].origin.RotatedFrom? {
      assert ProperParent(s, i);
      RootAtMost(s, s.minted[i].origin.parent);
    }
  }

  /** In every reachable store the tokens of one login form a line, and only its newest may be live. */
  lemma OneLiveTokenPerLogin(events: seq<Event>, i: nat, j: nat)
    ensures Inv(Run(EMPTY, events))
    ensures var s := Run(EMPTY, events);
            i < j < |s.rows| && Root(s, i) == Root(s, j) ==> s.rows[i].revoked
  {
    RunInv(EMPTY, events);
    var s := Run(EMPTY, events);
    if i < j < |s.rows| && Root(s, i) == Root(s, j) {
      var child := EarlierWasRotated(s, i, j);
      assert ProperParent(s, child);
    }
  }

  // ----- revocation is final -----

  /** `later` extends `rows`, changing existing rows only by revoking them. */
  ghost predicate OnlyRevokes(rows: seq<Row>, later: seq<Row>) {
    && |rows| <= |later|
    && forall i :: 0 <= i < |rows| ==>
         later[i] == rows[i] || later[i] == rows[i].(revoked := true)
  }

  /** Over any run, rows are never removed, un-revoked or otherwise rewritten. */
  lemma {:induction false} RevocationIsFinal(s: Store, events: seq<Event>)
    ensures OnlyRevokes(s.rows, Run(s, events).rows)
    ensures s.minted <= Run(s, events).minted
  {
    if events != [] {
      RevocationIsFinal(s, events[..|events| - 1]);
      StepOnlyRevokes(Run(s, events[..|events| - 1]), events[|events| - 1]);
    }
  }

  lemma StepOnlyRevokes(s: Store, e: Event)
    ensures OnlyRevokes(s.rows, Step(s, e).rows) && s.minted <= Step(s, e).minted
  {}

  /** Exactly when a refresh goes through. The decoding leeway never extends a token's life. */
  lemma AcceptedIff(events: seq<Event>, jwt: Jwt, now: int)
    ensures Inv(Run(EMPTY, events))
    ensures var s := Run(EMPTY, events);
            Rotate(s, jwt, now).1.Some? <==>
              && jwt.Refresh? && jwt.id < |s.rows|
              && s.minted[jwt.id].iat - LEEWAY_SECONDS <= now <= s.rows[jwt.id].expiresAt
              && !s.rows[jwt.id].revoked && s.rows[jwt.id].user in s.users
  {
    RunInv(EMPTY, events);
  }

  lemma {:induction false} SplitRun(s: Store, a: seq<Event>, b: seq<Event>)
    ensures Run(s, a + b) == Run(Run(s, a), b)
  {
    if b == [] {
      assert a + b == a;
    } else {
      assert (a + b)[..|a + b| - 1] == a + b[..|b| - 1];
      SplitRun(s, a, b[..|b| - 1]);
    }
  }

  /** A login's token is good from its clock's leeway before to its expiry, and no other token notices. */
  lemma LoginAddsOneSession(events: seq<Event>, user: nat, at: int, other: Jwt, now: int)
    requires user in Run(EMPTY, events).users
    ensures var s := Run(EMPTY, events);
            var s' := Step(s, Login(user, at));
            && (Rotate(s', Refresh(|s.rows|), now).1.Some? <==> at - LEEWAY_SECONDS <= now <= at + LIFETIME_SECONDS)
            && (other != Refresh(|s.rows|) ==> (Rotate(s', other, now).1.Some? <==> Rotate(s, other, now).1.Some?))
  {
    RunInv(EMPTY, events);
  }

  /**
    A successful refresh hands over: its new token is good exactly as a login's
    would be, the one presented no longer, and no other token notices.
  */
  lemma RefreshHandsOver(events: seq<Event>, jwt: Jwt, at: int, other: Jwt, now: int)
    requires Rotate(Run(EMPTY, events), jwt, at).1.Some?
    ensures var s := Run(EMPTY, events);
            var (s', issued) := Rotate(s, jwt, at);
            var id := issued.value;
            && (Rotate(s', Refresh(id), now).1.Some? <==> at - 60 <= now <= at + 30 * 86_400)
            && Rotate(s', jwt, now).1.None?
            && (other != jwt && other != Refresh(id) ==> (Rotate(s', other, now).1.Some? <==> Rotate(s, other, now).1.Some?))
  {
    RunInv(EMPTY, events);
  }

  /** A refresh that fails changes nothing at all, unless it replays a revoked token that still decodes. */
  lemma FailedRefreshChangesNothing(s: Store, jwt: Jwt, at: int)
    requires Rotate(s, jwt, at).1.None?
    requires !(Decodes(s, jwt, at) && jwt.Refresh? && jwt.id < |s.rows| && s.rows[jwt.id].revoked)
    ensures Rotate(s, jwt, at).0 == s
  {}

  /** A logout ends the session it names for good, and no other. */
  lemma LogoutEndsOneSession(before: seq<Event>, id: nat, after: seq<Event>, other: Jwt, now: int)
    requires id < |Run(EMPTY, before).rows|
    ensures var s, s' := Run(EMPTY, before), Step(Run(EMPTY, before), Logout(Refresh(id)));
            && Rotate(Run(s', after), Refresh(id), now).1.None?
            && (other != Refresh(id) ==> (Rotate(s', other, now).1.Some? <==> Rotate(s, other, now).1.Some?))
  {
    var s' := Step(Run(EMPTY, before), Logout(Refresh(id)));
    RevocationIsFinal(s', after);
    assert s'.rows[id].revoked;
  }

  /** Once a refresh with a token succeeds, no refresh with it ever succeeds again. */
  lemma RefreshedAtMostOnce(s: Store, jwt: Jwt, at: int, between: seq<Event>, later: int)
    requires Rotate(s, jwt, at).1.Some?
    ensures Rotate(Run(Rotate(s, jwt, at).0, between), jwt, later).1.None?
  {
    var s' := Rotate(s, jwt, at).0;
    RevocationIsFinal(s', between);
    assert s'.rows[jwt.id].revoked;
  }

  /**
    Main result. Handing in a revoked token that still decodes ends every
    session its user has: none of the existing tokens is accepted again in any
    continuation. Other users' rows stay as they are.
  */
  lemma ReplayEndsEverySession(before: seq<Event>, jwt: Jwt, at: int, after: seq<Event>, id: nat, later: int)
    requires var s := Run(EMPTY, before);
             jwt.Refresh? && jwt.id < |s.rows| && s.rows[jwt.id].revoked && Decodes(s, jwt, at)
    ensures var s := Run(EMPTY, before);
            var s' := Run(EMPTY, before + [Present(jwt, at)]);
            && |s'.rows| == |s.rows| && s'.minted == s.minted
            && (forall i :: 0 <= i < |s.rows| && s.rows[i].user != s.rows[jwt.id].user ==> s'.rows[i] == s.rows[i])
            && (id < |s.rows| && s.rows[id].user == s.rows[jwt.id].user ==>
                  Rotate(Run(EMPTY, before + [Present(jwt, at)] + after), Refresh(id), later).1.None?)
  {
    var s := Run(EMPTY, before);
    SplitRun(EMPTY, before, [Present(jwt, at)]);
    assert [Present(jwt, at)][..0] == [];
    var s' := Step(s, Present(jwt, at));
    assert Run(s, [Present(jwt, at)]) == s';
    SplitRun(EMPTY, before + [Present(jwt, at)], after);
    RevocationIsFinal(s', after);
    if id < |s.rows| && s.rows[id].user == s.rows[jwt.id].user {
      assert s'.rows[id].revoked;
    }
  }
}
