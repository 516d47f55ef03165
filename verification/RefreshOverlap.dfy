/**
  Refresh requests that overlap in the database (services/auth_service.py). A
  request reads its token's row and decides; it revokes that row and adds the new
  one only when it commits. No row lock is taken in between, and the UPDATE does
  not look at the row again.
*/
module RefreshOverlap {
  import opened Options
  import R = RefreshTokens

  /** A request that found its token good and has not committed yet. */
  datatype Refreshing = Refreshing(token: nat, user: nat)

  datatype State = State(store: R.Store, pending: map<nat, Refreshing>)

  const START := State(R.EMPTY, map[])

  datatype Event =
    | Whole(event: R.Event)
    | Reads(request: nat, jwt: R.Jwt, at: int)
    | Commits(request: nat, at: int)

  function Successor(s: R.Store, p: Refreshing, at: int): R.Store {
    R.Issue(s.(rows := R.RevokeOne(s.rows, p.token)), p.user, at, R.RotatedFrom(p.token))
  }

  function Step(s: State, e: Event): State {
    match e
    case Whole(event) => s.(store := R.Step(s.store, event))
    case Reads(request, jwt, at) =>
      if request in s.pending then s
      else if R.Rotate(s.store, jwt, at).1.None? then s.(store := R.Rotate(s.store, jwt, at).0)
      else s.(pending := s.pending[request := Refreshing(jwt.id, s.store.rows[jwt.id].user)])
    case Commits(request, at) =>
      if request !in s.pending then s
      else State(Successor(s.store, s.pending[request], at), s.pending - {request})
  }

  function Run(events: seq<Event>): State {
    if events == [] then START else Step(Run(events[..|events| - 1]), events[|events| - 1])
  }

  lemma RunAppend(events: seq<Event>, e: Event)
    ensures Run(events + [e]) == Step(Run(events), e)
  {
    assert (events + [e])[..|events|] == events;
  }

  lemma RunOnwards(events: seq<Event>, rest: seq<Event>)
    requires rest != []
    ensures Run(events + rest) == Step(Run(events + rest[..|rest| - 1]), rest[|rest| - 1])
  {
    assert (events + rest)[..|events + rest| - 1] == events + rest[..|rest| - 1];
  }

  /** With nothing in between, reading and committing are the one step of the atomic model. */
  lemma ReadThenCommit(s: State, request: nat, jwt: R.Jwt, at: int)
    requires request !in s.pending
    ensures Step(Step(s, Reads(request, jwt, at)), Commits(request, at)) == Step(s, Whole(R.Present(jwt, at)))
  {
    var read := Step(s, Reads(request, jwt, at));
    if request in read.pending {
      assert read.pending - {request} == s.pending;
    }
  }

  function Successors(minted: seq<R.Minted>, token: nat): nat {
    if minted == [] then 0
    else Successors(minted[..|minted| - 1], token)
         + if minted[|minted| - 1].origin == R.RotatedFrom(token) then 1 else 0
  }

  lemma {:induction false} SuccessorAt(minted: seq<R.Minted>, token: nat)
    requires Successors(minted, token) > 0
    ensures exists i :: 0 <= i < |minted| && minted[i].origin == R.RotatedFrom(token)
  {
    var n := |minted| - 1;
    if minted[n].origin != R.RotatedFrom(token) {
      SuccessorAt(minted[..n], token);
    }
  }

  lemma SuccessorsAppend(minted: seq<R.Minted>, m: R.Minted, token: nat)
    ensures Successors(minted + [m], token) == Successors(minted, token) + if m.origin == R.RotatedFrom(token) then 1 else 0
  {
    assert (minted + [m])[..|minted|] == minted;
  }

  // ----- what every run keeps -----

  /** A token with a successor is revoked, and requests in flight know their token and its user. */
  ghost predicate Inv(s: State) {
    && |s.store.rows| == |s.store.minted|
    && (forall i :: 0 <= i < |s.store.minted| && s.store.minted[i].origin.RotatedFrom? ==>
          s.store.minted[i].origin.parent < i && s.store.rows[s.store.minted[i].origin.parent].revoked)
    && (forall r :: r in s.pending ==> PendingGood(s, r))
  }

  ghost predicate PendingGood(s: State, r: nat)
    requires r in s.pending
  {
    s.pending[r].token < |s.store.rows| && s.store.rows[s.pending[r].token].user == s.pending[r].user
  }

  lemma StepInv(s: State, e: Event)
    requires Inv(s)
    ensures Inv(Step(s, e)) && R.OnlyRevokes(s.store.rows, Step(s, e).store.rows)
  {
    var s' := Step(s, e);
    StepOnlyRevokes(s, e);
    forall r | r in s'.pending ensures PendingGood(s', r) {
      if r in s.pending {
        assert PendingGood(s, r);
      }
    }
    if e.Commits? && e.request in s.pending {
      assert PendingGood(s, e.request);
    }
  }

  lemma StepOnlyRevokes(s: State, e: Event)
    ensures R.OnlyRevokes(s.store.rows, Step(s, e).store.rows)
  {
    if e.Whole? {
      R.StepOnlyRevokes(s.store, e.event);
    } else if e.Reads? {
      R.StepOnlyRevokes(s.store, R.Present(e.jwt, e.at));
    }
  }

  lemma {:induction false} RunInv(events: seq<Event>)
    ensures Inv(Run(events))
  {
    if events != [] {
      RunInv(events[..|events| - 1]);
      StepInv(Run(events[..|events| - 1]), events[|events| - 1]);
    }
  }

  // ----- exactly when a token is rotated twice -----

  /** The token is spent, and no request holds it from before. */
  ghost predicate Spent(s: State, token: nat) {
    && token < |s.store.rows| && s.store.rows[token].revoked
    && forall r :: r in s.pending ==> s.pending[r].token != token
  }

  lemma StaysSpent(s: State, e: Event, token: nat)
    requires Inv(s) && Spent(s, token)
    ensures Spent(Step(s, e), token)
    ensures Successors(Step(s, e).store.minted, token) == Successors(s.store.minted, token)
  {
    StepOnlyRevokes(s, e);
    MintsAtMostOne(s, e);
    var minted, minted' := s.store.minted, Step(s, e).store.minted;
    if minted' != minted {
      SuccessorsAppend(minted, minted'[|minted|], token);
    }
  }

  /** A step mints no token, or one; and one rotated from a spent token only for a request in flight that holds it. */
  lemma MintsAtMostOne(s: State, e: Event)
    requires |s.store.rows| == |s.store.minted|
    ensures var minted, minted' := s.store.minted, Step(s, e).store.minted;
            minted' != minted ==>
              && |minted'| == |minted| + 1 && minted' == minted + [minted'[|minted|]]
              && (minted'[|minted|].origin.RotatedFrom? ==>
                    var parent := minted'[|minted|].origin.parent;
                    || (exists r :: r in s.pending && s.pending[r].token == parent)
                    || (parent < |s.store.rows| && !s.store.rows[parent].revoked))
  {}

  lemma {:induction false} SpentForGood(events: seq<Event>, rest: seq<Event>, token: nat)
    requires Spent(Run(events), token)
    ensures Spent(Run(events + rest), token)
    ensures Successors(Run(events + rest).store.minted, token) == Successors(Run(events).store.minted, token)
  {
    if rest == [] {
      assert events + rest == events;
    } else {
      var p := rest[..|rest| - 1];
      SpentForGood(events, p, token);
      RunOnwards(events, rest);
      RunInv(events + p);
      StaysSpent(Run(events + p), rest[|rest| - 1], token);
    }
  }

  ghost predicate CanBeRotatedAgain(events: seq<Event>, token: nat) {
    exists rest :: Successors(Run(events + rest).store.minted, token) > Successors(Run(events).store.minted, token)
  }

  /**
    Main result. After any run, a token that has been rotated can be rotated once
    more exactly when another request still in flight read it before.
  */
  lemma RotatedAgainIff(events: seq<Event>, token: nat)
    requires Successors(Run(events).store.minted, token) > 0
    ensures CanBeRotatedAgain(events, token) <==>
              exists r :: r in Run(events).pending && Run(events).pending[r].token == token
  {
    var s := Run(events);
    RunInv(events);
    SuccessorAt(s.store.minted, token);
    if r :| r in s.pending && s.pending[r].token == token {
      RunAppend(events, Commits(r, 0));
      SuccessorsAppend(s.store.minted, Successor(s.store, s.pending[r], 0).minted[|s.store.minted|], token);
      assert Successors(Run(events + [Commits(r, 0)]).store.minted, token) > Successors(s.store.minted, token);
    } else {
      forall rest ensures Successors(Run(events + rest).store.minted, token) == Successors(s.store.minted, token) {
        SpentForGood(events, rest, token);
      }
    }
  }

  /** One user logs in; two requests read the one token; both commit. */
  function TwiceRefreshed(): seq<Event> {
    [] + [Whole(R.SignUp(7))] + [Whole(R.Login(7, 0))] + [Reads(0, R.Refresh(0), 10)] + [Reads(1, R.Refresh(0), 10)]
    + [Commits(0, 10)] + [Commits(1, 10)]
  }

  lemma TwoReads()
    ensures Run([] + [Whole(R.SignUp(7))] + [Whole(R.Login(7, 0))] + [Reads(0, R.Refresh(0), 10)] + [Reads(1, R.Refresh(0), 10)]) ==
              State(R.Issue(R.Store({7}, [], []), 7, 0, R.FromLogin), map[0 := Refreshing(0, 7), 1 := Refreshing(0, 7)])
  {
    var e0, e1, e2, e3 := Whole(R.SignUp(7)), Whole(R.Login(7, 0)), Reads(0, R.Refresh(0), 10), Reads(1, R.Refresh(0), 10);
    RunAppend([], e0);
    RunAppend([] + [e0], e1);
    assert {} + {7} == {7};
    var s := R.Issue(R.Store({7}, [], []), 7, 0, R.FromLogin);
    assert s.rows == [R.Row(7, R.LIFETIME_SECONDS, false)] && s.minted == [R.Minted(7, 0, R.LIFETIME_SECONDS, R.FromLogin)];
    RunAppend([] + [e0] + [e1], e2);
    RunAppend([] + [e0] + [e1] + [e2], e3);
    assert map[0 := Refreshing(0, 7)][1 := Refreshing(0, 7)] == map[0 := Refreshing(0, 7), 1 := Refreshing(0, 7)];
  }

  /** Two live tokens descend from one: rotation is not linear when requests overlap. */
  lemma OverlapForksTheChain()
    ensures var s := Run(TwiceRefreshed()).store;
            && |s.rows| == |s.minted| == 3
            && s.minted[1].origin == s.minted[2].origin == R.RotatedFrom(0)
            && s.rows[0].revoked && !s.rows[1].revoked && !s.rows[2].revoked
  {
    var before := [] + [Whole(R.SignUp(7))] + [Whole(R.Login(7, 0))] + [Reads(0, R.Refresh(0), 10)] + [Reads(1, R.Refresh(0), 10)];
    TwoReads();
    RunAppend(before, Commits(0, 10));
    RunAppend(before + [Commits(0, 10)], Commits(1, 10));
  }

  // ----- otherwise the chains are linear -----

  /** Every request finds its token unrevoked when it commits. */
  predicate CommitsFindTokensLive(events: seq<Event>) {
    events == [] ||
    (CommitsFindTokensLive(events[..|events| - 1])
     && (var s, e := Run(events[..|events| - 1]), events[|events| - 1];
         e.Commits? && e.request in s.pending && s.pending[e.request].token < |s.store.rows| ==>
           !s.store.rows[s.pending[e.request].token].revoked))
  }

  lemma CommitKeepsChains(s: State, r: nat, at: int)
    requires R.Inv(s.store) && r in s.pending && PendingGood(s, r) && !s.store.rows[s.pending[r].token].revoked
    ensures R.Inv(Successor(s.store, s.pending[r], at))
  {
    var p := s.pending[r];
    var spent := s.store.(rows := R.RevokeOne(s.store.rows, p.token));
    assert forall i :: 0 <= i < |s.store.minted| && s.store.minted[i].origin.RotatedFrom? ==> R.ProperParent(s.store, i);
    R.RevokedInv(s.store, spent.rows);
    R.IssueInv(spent, p.user, at, R.RotatedFrom(p.token));
  }

  /** Then overlapping requests do no harm: in every such run each login has at most one live token, its newest. */
  lemma {:induction false} ChainsStayLinear(events: seq<Event>, i: nat, j: nat)
    requires CommitsFindTokensLive(events)
    ensures R.Inv(Run(events).store)
    ensures var s := Run(events).store;
            i < j < |s.rows| && R.Root(s, i) == R.Root(s, j) ==> s.rows[i].revoked
  {
    if events != [] {
      var p, e := events[..|events| - 1], events[|events| - 1];
      ChainsStayLinear(p, i, j);
      RunInv(p);
      StepKeepsChains(Run(p), e);
    }
    var s := Run(events).store;
    if i < j < |s.rows| && R.Root(s, i) == R.Root(s, j) {
      var child := R.EarlierWasRotated(s, i, j);
      assert R.ProperParent(s, child);
    }
  }

  lemma StepKeepsChains(s: State, e: Event)
    requires Inv(s) && R.Inv(s.store)
    requires e.Commits? && e.request in s.pending && s.pending[e.request].token < |s.store.rows| ==>
               !s.store.rows[s.pending[e.request].token].revoked
    ensures R.Inv(Step(s, e).store)
  {
    match e {
      case Whole(event) => R.StepInv(s.store, event);
      case Reads(_, jwt, at) => R.StepInv(s.store, R.Present(jwt, at));
      case Commits(r, at) =>
        if r in s.pending {
          assert PendingGood(s, r);
          CommitKeepsChains(s, r, at);
        }
    }
  }

  // ----- exactly when a session outlives signing out everywhere -----

  predicate NoLogin(rest: seq<Event>, user: nat) {
    rest == [] ||
    (NoLogin(rest[..|rest| - 1], user)
     && !(rest[|rest| - 1].Whole? && rest[|rest| - 1].event.Login? && rest[|rest| - 1].event.user == user))
  }

  predicate HasLiveToken(s: State, user: nat) {
    exists i | 0 <= i < |s.store.rows| :: s.store.rows[i].user == user && !s.store.rows[i].revoked
  }

  ghost predicate SignedOut(s: State, user: nat) {
    !HasLiveToken(s, user) && forall r :: r in s.pending ==> s.pending[r].user != user
  }

  lemma StaysSignedOut(s: State, e: Event, user: nat)
    requires Inv(s) && SignedOut(s, user) && !(e.Whole? && e.event.Login? && e.event.user == user)
    ensures SignedOut(Step(s, e), user)
  {
    var s' := Step(s, e);
    StepOnlyRevokes(s, e);
    forall i | 0 <= i < |s'.store.rows| && s'.store.rows[i].user == user ensures s'.store.rows[i].revoked {
      if i < |s.store.rows| {
        assert s.store.rows[i].user == user ==> s.store.rows[i].revoked;
      }
    }
  }

  lemma {:induction false} SignedOutForGood(events: seq<Event>, rest: seq<Event>, user: nat)
    requires SignedOut(Run(events), user) && NoLogin(rest, user)
    ensures SignedOut(Run(events + rest), user)
  {
    if rest == [] {
      assert events + rest == events;
    } else {
      var p := rest[..|rest| - 1];
      SignedOutForGood(events, p, user);
      RunOnwards(events, rest);
      RunInv(events + p);
      StaysSignedOut(Run(events + p), rest[|rest| - 1], user);
    }
  }

  /**
    Main result. After signing a user out everywhere, a live token of theirs can
    come back without a new login exactly when a request of theirs is in flight.
  */
  lemma SignOutEscapedIff(events: seq<Event>, user: nat)
    ensures var out := events + [Whole(R.LogoutAll(user))];
            (exists rest :: NoLogin(rest, user) && HasLiveToken(Run(out + rest), user)) <==>
            (exists r :: r in Run(events).pending && Run(events).pending[r].user == user)
  {
    var out := events + [Whole(R.LogoutAll(user))];
    RunAppend(events, Whole(R.LogoutAll(user)));
    var s := Run(out);
    if r :| r in Run(events).pending && Run(events).pending[r].user == user {
      RunAppend(out, Commits(r, 0));
      var rows := Run(out + [Commits(r, 0)]).store.rows;
      assert rows[|rows| - 1].user == user && !rows[|rows| - 1].revoked;
      assert [Commits(r, 0)][..0] == [];
      assert NoLogin([Commits(r, 0)], user);
    } else {
      assert SignedOut(s, user);
      forall rest | NoLogin(rest, user) ensures !HasLiveToken(Run(out + rest), user) {
        SignedOutForGood(out, rest, user);
      }
    }
  }
}
