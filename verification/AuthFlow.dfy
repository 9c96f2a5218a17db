/**
 * The sign-in flow of app/handlers/auth.go over one browser session: LoginStart
 * and RegisterStart, AuthCallback and Logout. The flow follows section 4.1 of
 * RFC 6749 (state), section 4 of RFC 7636 (verifier) and section 3.1.3.7 of
 * OpenID Connect Core 1.0 (nonce).
 *
 * A session is the cookie the browser holds between requests. A request works
 * on a copy and only a save writes the copy back.
 */
module AuthFlow {
  import opened Prelude
  import NextRequest
  import Redirects
  import ReturnPath
  import ReturnTrip

  const TOKEN := "token"
  const STATE := "oidc_state"
  const NONCE := "oidc_nonce"
  const VERIFIER := "oidc_verifier"
  const RETURN_TO := "oidc_return_to"
  const PLAN := "oidc_plan"
  const USER := "user"

  type Session = map<string, Bytes>

  type PrincipalId = nat

  // What one start writes into the session.
  datatype Attempt = Attempt(state: Bytes, nonce: Bytes, verifier: Bytes, returnTo: Bytes)

  // A callback request, what the identity provider and the login service
  // answer, and whether the new user is known to watch nothing.
  datatype Return = Return(
    error: Bytes,
    state: Bytes,
    code: Bytes,
    exchange: (Bytes, Bytes, Bytes) -> Option<PrincipalId>,
    login: PrincipalId -> Option<Bytes>,
    noWatches: bool)

  // `url` is what the handler gives to http.Redirect.
  datatype Response =
    | ToProvider(state: Bytes, nonce: Bytes, verifier: Bytes)
    | Expired
    | BadGateway
    | ServerError
    | SaveFailed
    | Redirect(url: Bytes)
    | SignedIn(token: Bytes, url: Bytes)

  function Read(s: Session, key: string): Bytes {
    if key in s then s[key] else []
  }

  function FlowKeys(): set<string> {
    {STATE, NONCE, VERIFIER, RETURN_TO, PLAN}
  }

  // The entries under other keys are the same.
  predicate KeptOutside(s: Session, t: Session, keys: set<string>) {
    t.Keys - keys == s.Keys - keys && forall k | k in s.Keys - keys :: t[k] == s[k]
  }

  function Written(s: Session, a: Attempt): Session {
    s[STATE := a.state][NONCE := a.nonce][VERIFIER := a.verifier][RETURN_TO := a.returnTo]
  }

  // The attempt that a start makes of its random values and its query string.
  function MakeAttempt(state: Bytes, nonce: Bytes, verifier: Bytes, query: Bytes): Attempt {
    Attempt(state, nonce, verifier, ReturnPath.StoredReturn(query))
  }

  const PRO: Bytes := "pro"
  const PLAN_PARAMETER: Bytes := "plan"
  const ROOT: Bytes := "/"

  function WithPlan(s: Session, query: Bytes): Session {
    if ReturnPath.Get(ReturnPath.ParseQuery(query), PLAN_PARAMETER) == PRO then s[PLAN := PRO] else s
  }

  // ---- Handlers ----

  class Browser {
    var saved: Session

    constructor ()
      ensures saved == map[]
    {
      saved := map[];
    }

    // startAuthFlow; `state`, `nonce` and `verifier` are the random values.
    method Start(state: Bytes, nonce: Bytes, verifier: Bytes, query: Bytes, saves: bool) returns (r: Response)
      modifies this`saved
      ensures (saved, r) == Next(old(saved), Begin(state, nonce, verifier, query, saves))
      ensures !saves ==> saved == old(saved) && r == SaveFailed
      ensures saves ==> r == ToProvider(state, nonce, verifier)
      ensures saves ==> FlowKeys() - {PLAN} <= saved.Keys && saved[STATE] == state && saved[NONCE] == nonce
      ensures saves ==> saved[VERIFIER] == verifier && saved[RETURN_TO] == ReturnPath.StoredReturn(query)
      ensures KeptOutside(old(saved), saved, FlowKeys())
    {
      var s := saved;
      s := s[STATE := state];
      s := s[NONCE := nonce];
      s := s[VERIFIER := verifier];
      s := s[RETURN_TO := ReturnPath.StoredReturn(query)];
      s := WithPlan(s, query);
      if !saves {
        return SaveFailed;
      }
      saved := s;
      return ToProvider(state, nonce, verifier);
    }

    // AuthCallback
    method Callback(q: Return, saves: bool) returns (r: Response)
      modifies this`saved
      ensures (saved, r) == Next(old(saved), Finish(q, saves))
      ensures r.SignedIn? ==> TOKEN in saved && saved[TOKEN] == r.token && saved.Keys !! FlowKeys()
      ensures q.error != [] && saves ==> r == Redirect("/") && saved == old(saved) - FlowKeys()
      ensures !r.SignedIn? && !(q.error != [] && saves) ==> saved == old(saved)
      ensures KeptOutside(old(saved), saved, FlowKeys() + {TOKEN})
    {
      var s := saved;
      var state, nonce, verifier := Read(s, STATE), Read(s, NONCE), Read(s, VERIFIER);
      var returnTo, pendingPlan := Read(s, RETURN_TO), Read(s, PLAN);
      s := s - {PLAN};
      s := s - {STATE};
      s := s - {NONCE};
      s := s - {VERIFIER};
      s := s - {RETURN_TO};
      assert s == saved - FlowKeys();
      if q.error != [] {
        if !saves {
          return SaveFailed;
        }
        saved := s;
        return Redirect(ROOT);
      }
      if state == [] || verifier == [] || q.state != state || q.code == [] {
        return Expired;
      }
      var principal := q.exchange(q.code, verifier, nonce);
      if principal == None {
        return BadGateway;
      }
      var token := q.login(principal.value);
      if token == None {
        return ServerError;
      }
      s := s[TOKEN := token.value];
      if !saves {
        return SaveFailed;
      }
      saved := s;
      if pendingPlan != [] {
        returnTo := ReturnPath.WELCOME + "?plan=" + pendingPlan;
      } else if returnTo == [] {
        returnTo := if q.noWatches then ReturnPath.WELCOME else ReturnPath.DASHBOARD;
      }
      return SignedIn(token.value, returnTo);
    }

    // Logout expires the cookie, and with it everything the session held, after
    // the service has been told which session token to delete.
    method Logout(saves: bool) returns (revoked: Option<Bytes>)
      modifies this`saved
      ensures saved == Next(old(saved), SignOut(saves)).0
      ensures saved == if saves then map[] else old(saved)
      ensures revoked == None <==> TOKEN !in old(saved)
      ensures revoked.Some? ==> revoked.value == old(saved)[TOKEN]
    {
      var s := saved;
      revoked := if TOKEN in s then Some(s[TOKEN]) else None;
      s := s - {TOKEN};
      s := s - {USER};
      if saves {
        s := map[];
        saved := s;
      }
    }
  }

  // ---- Runs over one session ----

  datatype Event =
    | Begin(state: Bytes, nonce: Bytes, verifier: Bytes, query: Bytes, saves: bool)
    | Finish(return_: Return, saves: bool)
    | SignOut(saves: bool)

  // The session after a request, and the response.
  function Next(s: Session, e: Event): (Session, Response) {
    match e
    case Begin(state, nonce, verifier, query, saves) =>
      var a := MakeAttempt(state, nonce, verifier, query);
      if saves then (WithPlan(Written(s, a), query), ToProvider(a.state, a.nonce, a.verifier)) else (s, SaveFailed)
    case Finish(q, saves) =>
      CallbackResult(s, q, saves)
    case SignOut(saves) =>
      (if saves then map[] else s, Redirect(ROOT))
  }

  function CallbackResult(s: Session, q: Return, saves: bool): (Session, Response) {
    if q.error != [] then
      if saves then (s - FlowKeys(), Redirect(ROOT)) else (s, SaveFailed)
    else if Read(s, STATE) == [] || Read(s, VERIFIER) == [] || q.state != Read(s, STATE) || q.code == [] then
      (s, Expired)
    else
      match q.exchange(q.code, Read(s, VERIFIER), Read(s, NONCE))
      case None => (s, BadGateway)
      case Some(principal) =>
        match q.login(principal)
        case None => (s, ServerError)
        case Some(token) =>
          if saves then
            ((s - FlowKeys())[TOKEN := token],
             SignedIn(token, ReturnPath.Destination(Read(s, PLAN), Read(s, RETURN_TO), q.noWatches)))
          else
            (s, SaveFailed)
  }

  function Run(s: Session, events: seq<Event>): Session {
    if events == [] then s else Next(Run(s, events[..|events| - 1]), events[|events| - 1]).0
  }

  // The attempt that is open after a request on session s: the last one started
  // and saved, unless the flow has been cleared since.
  function NextOpen(s: Session, open: Option<Attempt>, e: Event): Option<Attempt> {
    match e
    case Begin(state, nonce, verifier, query, saves) =>
      if saves then Some(MakeAttempt(state, nonce, verifier, query)) else open
    case SignOut(saves) => if saves then None else open
    case Finish(q, saves) => if Clears(s, q, saves) then None else open
  }

  function Open(events: seq<Event>): Option<Attempt> {
    if events == [] then None
    else
      var init := events[..|events| - 1];
      NextOpen(Run(map[], init), Open(init), events[|events| - 1])
  }

  predicate Clears(s: Session, q: Return, saves: bool) {
    saves && (q.error != [] || CallbackResult(s, q, saves).1.SignedIn?)
  }

  // The four values in the session all stem from one attempt, or are absent.
  ghost predicate Holds(s: Session, open: Option<Attempt>) {
    match open
    case None => s.Keys !! {STATE, NONCE, VERIFIER, RETURN_TO}
    case Some(a) =>
      && {STATE, NONCE, VERIFIER, RETURN_TO} <= s.Keys
      && s[STATE] == a.state && s[NONCE] == a.nonce && s[VERIFIER] == a.verifier && s[RETURN_TO] == a.returnTo
  }

  lemma NextHolds(s: Session, open: Option<Attempt>, e: Event)
    requires Holds(s, open)
    ensures Holds(Next(s, e).0, NextOpen(s, open, e))
  {
  }

  lemma {:induction false} SessionHoldsOpenAttempt(events: seq<Event>)
    ensures Holds(Run(map[], events), Open(events))
  {
    if events != [] {
      var init := events[..|events| - 1];
      SessionHoldsOpenAttempt(init);
      NextHolds(Run(map[], init), Open(init), events[|events| - 1]);
    }
  }

  // The callback q answers the attempt: same state, and the code exchanges with
  // the verifier and the nonce of that attempt for a principal who may log in.
  ghost predicate Answers(q: Return, a: Attempt) {
    && q.error == [] && q.code != [] && q.state == a.state
    && a.state != [] && a.verifier != []
    && q.exchange(q.code, a.verifier, a.nonce).Some?
    && q.login(q.exchange(q.code, a.verifier, a.nonce).value).Some?
  }

  lemma ResultOfHeld(s: Session, open: Option<Attempt>, q: Return, saves: bool)
    requires Holds(s, open)
    ensures var r := CallbackResult(s, q, saves).1;
            && (r.SignedIn? <==> saves && open.Some? && Answers(q, open.value))
            && (r.SignedIn? ==> r.url == ReturnPath.Destination(Read(s, PLAN), open.value.returnTo, q.noWatches))
            && (r.SignedIn? ==> Some(r.token) == q.login(q.exchange(q.code, open.value.verifier, open.value.nonce).value))
            && (open == None && q.error == [] ==> r == Expired)
  {
    match open
    case None =>
      assert Read(s, STATE) == [];
    case Some(a) =>
      assert Read(s, STATE) == a.state && Read(s, NONCE) == a.nonce && Read(s, VERIFIER) == a.verifier;
  }

  // In every run, a callback signs in exactly when it answers the one attempt
  // that is still open; state, nonce and verifier all stem from that attempt,
  // and so does the path it redirects to.
  lemma SignsInIff(events: seq<Event>, q: Return, saves: bool)
    ensures var s := Run(map[], events);
            var r := Next(s, Finish(q, saves)).1;
            && (r.SignedIn? <==> saves && Open(events).Some? && Answers(q, Open(events).value))
            && (r.SignedIn? ==>
                  r.url == ReturnPath.Destination(Read(s, PLAN), Open(events).value.returnTo, q.noWatches))
  {
    SessionHoldsOpenAttempt(events);
    ResultOfHeld(Run(map[], events), Open(events), q, saves);
  }

  predicate Starts(e: Event) {
    e.Begin?
  }

  lemma {:induction false} ClosedStaysClosed(events: seq<Event>, more: seq<Event>)
    requires Open(events) == None && forall i | 0 <= i < |more| :: !Starts(more[i])
    ensures Open(events + more) == None
  {
    if more == [] {
      assert events + more == events;
    } else {
      var init := more[..|more| - 1];
      ClosedStaysClosed(events, init);
      assert (events + more)[..|events + more| - 1] == events + init;
      assert !Starts(more[|more| - 1]);
    }
  }

  lemma Snoc(events: seq<Event>, e: Event)
    ensures Run(map[], events + [e]) == Next(Run(map[], events), e).0
    ensures Open(events + [e]) == NextOpen(Run(map[], events), Open(events), e)
  {
    assert (events + [e])[..|events|] == events;
  }

  lemma SignInClears(s: Session, q: Return)
    requires CallbackResult(s, q, true).1.SignedIn?
    ensures Clears(s, q, true) && CallbackResult(s, q, true).0.Keys !! FlowKeys()
  {
    assert TOKEN !in FlowKeys();
  }

  // After a successful callback the session holds no flow values, and until the
  // next start every callback is refused as expired or as a provider error.
  lemma CallbackIsSingleUse(events: seq<Event>, q: Return, more: seq<Event>, again: Return, saves: bool)
    requires Next(Run(map[], events), Finish(q, true)).1.SignedIn?
    requires forall i | 0 <= i < |more| :: !Starts(more[i])
    ensures Run(map[], events + [Finish(q, true)]).Keys !! FlowKeys()
    ensures again.error == [] ==>
              Next(Run(map[], events + [Finish(q, true)] + more), Finish(again, saves)).1 == Expired
  {
    var done := events + [Finish(q, true)];
    Snoc(events, Finish(q, true));
    SignInClears(Run(map[], events), q);
    ClosedStaysClosed(done, more);
    SessionHoldsOpenAttempt(done + more);
    ResultOfHeld(Run(map[], done + more), None, again, saves);
  }

  // ---- Who is signed in, and what plan is pending ----

  // What a successful callback leaves: the token it answers with, which the login
  // gave for the exchanged principal, no flow values, and everything else as it was.
  lemma SignInStores(s: Session, q: Return, saves: bool)
    requires CallbackResult(s, q, saves).1.SignedIn?
    ensures var (t, r) := CallbackResult(s, q, saves);
            && TOKEN in t && t[TOKEN] == r.token
            && q.exchange(q.code, Read(s, VERIFIER), Read(s, NONCE)).Some?
            && q.login(q.exchange(q.code, Read(s, VERIFIER), Read(s, NONCE)).value) == Some(r.token)
            && t.Keys !! FlowKeys() && KeptOutside(s, t, FlowKeys() + {TOKEN})
  {
    assert TOKEN !in FlowKeys();
  }

  // The token of the last successful callback, unless a saved logout came later.
  function LastSignIn(events: seq<Event>): Option<Bytes> {
    if events == [] then None
    else
      var init, e := events[..|events| - 1], events[|events| - 1];
      match e
      case Begin(_, _, _, _, _) => LastSignIn(init)
      case Finish(_, _) =>
        var r := Next(Run(map[], init), e).1;
        if r.SignedIn? then Some(r.token) else LastSignIn(init)
      case SignOut(saves) => if saves then None else LastSignIn(init)
  }

  // In every run the session holds exactly the token of the last sign-in.
  lemma {:induction false} SessionHoldsLastToken(events: seq<Event>)
    ensures var s := Run(map[], events);
            if TOKEN in s then LastSignIn(events) == Some(s[TOKEN]) else LastSignIn(events) == None
  {
    if events != [] {
      var init, e := events[..|events| - 1], events[|events| - 1];
      SessionHoldsLastToken(init);
      TokenStep(Run(map[], init), e);
    }
  }

  lemma TokenStep(s: Session, e: Event)
    ensures var (t, r) := Next(s, e);
            if e.SignOut? && e.saves then TOKEN !in t
            else if r.SignedIn? then TOKEN in t && t[TOKEN] == r.token
            else KeptOutside(s, t, FlowKeys())
  {
    assert TOKEN !in FlowKeys();
    if e.Finish? && Next(s, e).1.SignedIn? {
      SignInStores(s, e.return_, e.saves);
    }
  }

  // Some saved start asked for the plan pro, and the flow has not been cleared since.
  function PlanAsked(events: seq<Event>): bool {
    if events == [] then false
    else
      var init, e := events[..|events| - 1], events[|events| - 1];
      match e
      case Begin(_, _, _, query, saves) =>
        PlanAsked(init) || (saves && ReturnPath.Get(ReturnPath.ParseQuery(query), "plan") == "pro")
      case Finish(q, saves) =>
        PlanAsked(init) && !(saves && (q.error != [] || Next(Run(map[], init), e).1.SignedIn?))
      case SignOut(saves) => PlanAsked(init) && !saves
  }

  lemma {:induction false} SessionHoldsPlanAsked(events: seq<Event>)
    ensures var s := Run(map[], events); (PLAN in s <==> PlanAsked(events)) && (PLAN in s ==> s[PLAN] == "pro")
  {
    if events != [] {
      SessionHoldsPlanAsked(events[..|events| - 1]);
    }
  }

  // Why a callback does not sign in: it answers no open attempt, the provider
  // does not exchange its code, the login fails, or the session is not saved.
  lemma RefusalIs(events: seq<Event>, q: Return, saves: bool)
    requires q.error == []
    ensures var r, open := Next(Run(map[], events), Finish(q, saves)).1, Open(events);
            var answered := open.Some? && open.value.state != [] && open.value.verifier != []
                            && q.state == open.value.state && q.code != [];
            && (!answered ==> r == Expired)
            && (answered ==>
                  var principal := q.exchange(q.code, open.value.verifier, open.value.nonce);
                  && (principal == None ==> r == BadGateway)
                  && (principal.Some? && q.login(principal.value) == None ==> r == ServerError)
                  && (principal.Some? && q.login(principal.value).Some? ==> if saves then r.SignedIn? else r == SaveFailed))
  {
    SessionHoldsOpenAttempt(events);
    var s := Run(map[], events);
    if Open(events) == None {
      assert Read(s, STATE) == [];
    } else {
      var a := Open(events).value;
      assert Read(s, STATE) == a.state && Read(s, NONCE) == a.nonce && Read(s, VERIFIER) == a.verifier;
    }
  }

  // Where every successful callback redirects: to the offer of the plan that was
  // asked for, else back to where the open attempt started, else to the page for
  // users who watch nothing yet or the dashboard.
  lemma SignInLeadsTo(events: seq<Event>, q: Return, saves: bool)
    requires Next(Run(map[], events), Finish(q, saves)).1.SignedIn?
    ensures Open(events).Some?
    ensures var url, back := Next(Run(map[], events), Finish(q, saves)).1.url, Open(events).value.returnTo;
            && (PlanAsked(events) ==> url == "/welcome?plan=pro")
            && (!PlanAsked(events) && back != [] ==> url == back)
            && (!PlanAsked(events) && back == [] && q.noWatches ==> url == "/welcome")
            && (!PlanAsked(events) && back == [] && !q.noWatches ==> url == "/dashboard")
  {
    SignsInIff(events, q, saves);
    SessionHoldsPlanAsked(events);
    DestinationIs(Read(Run(map[], events), PLAN), Open(events).value.returnTo, q.noWatches);
  }

  lemma DestinationIs(plan: Bytes, back: Bytes, noWatches: bool)
    requires plan == [] || plan == "pro"
    ensures var url := ReturnPath.Destination(plan, back, noWatches);
            && (plan != [] ==> url == "/welcome?plan=pro")
            && (plan == [] && back != [] ==> url == back)
            && (plan == [] && back == [] ==> url == if noWatches then "/welcome" else "/dashboard")
  {
    assert ReturnPath.WELCOME + "?plan=" + "pro" == "/welcome?plan=pro";
  }

  // ---- From RequireAuth to the final redirect ----

  lemma LoginQueryHasNoPlan(s: Session, target: Bytes)
    ensures WithPlan(s, ReturnPath.LoginQuery(target)) == s
  {
    ReturnPath.Constants();
    ReturnPath.PrintedAlone(ReturnPath.RETURN_TO, target);
    assert ReturnPath.RETURN_TO[0] != PLAN_PARAMETER[0];
    assert ReturnPath.Get([(ReturnPath.RETURN_TO, target)], PLAN_PARAMETER) == [];
  }

  // A visitor whose request is turned away, who starts to sign in there and comes
  // back with the matching state: the browser then repeats that request, byte
  // for byte, exactly when it is repeatable.
  lemma ReturnsWhereItStarted(
    events: seq<Event>, rawPath: Bytes, path: Bytes, query: Bytes, state: Bytes, nonce: Bytes, verifier: Bytes, q: Return)
    requires PLAN !in Run(map[], events) && Redirects.PathUnescape(rawPath) == Some(path)
    ensures var login := ReturnPath.LoginQuery(NextRequest.Target(path, query));
            var r := Next(Run(map[], events + [Begin(state, nonce, verifier, login, true)]), Finish(q, true)).1;
            r.SignedIn? ==>
              && Redirects.Rooted(r.url)
              && (Redirects.RequestFor(Redirects.Location(r.url)) == Some((rawPath, query)) <==>
                  NextRequest.Repeatable(rawPath, path, query))
  {
    var target := NextRequest.Target(path, query);
    var start := Begin(state, nonce, verifier, ReturnPath.LoginQuery(target), true);
    Snoc(events, start);
    AfterStart(Run(map[], events), Open(events), target, state, nonce, verifier);
    SignsInIff(events + [start], q, true);
    NextRequest.RepeatsRequestIff(rawPath, path, query, q.noWatches);
  }

  lemma AfterStart(s: Session, open: Option<Attempt>, target: Bytes, state: Bytes, nonce: Bytes, verifier: Bytes)
    requires PLAN !in s
    ensures var start := Begin(state, nonce, verifier, ReturnPath.LoginQuery(target), true);
            && Read(Next(s, start).0, PLAN) == []
            && NextOpen(s, open, start).Some?
            && NextOpen(s, open, start).value.returnTo == ReturnPath.StoredReturn(ReturnPath.LoginQuery(target))
  {
    LoginQueryHasNoPlan(Written(s, MakeAttempt(state, nonce, verifier, ReturnPath.LoginQuery(target))), target);
  }

  // ---- Where a sign-in can lead ----

  // The session holds a safe path or none, and no plan but pro.
  ghost predicate Trusted(s: Session) {
    && (RETURN_TO in s ==> s[RETURN_TO] == [] || ReturnPath.Safe(s[RETURN_TO]))
    && (PLAN in s ==> s[PLAN] == PRO)
  }

  lemma StoredIsSafe(query: Bytes)
    ensures ReturnPath.StoredReturn(query) == [] || ReturnPath.Safe(ReturnPath.StoredReturn(query))
  {
    ReturnPath.SafeReturnPathIs(ReturnPath.Get(ReturnPath.ParseQuery(query), ReturnPath.RETURN_TO));
  }

  lemma NextTrusted(s: Session, e: Event)
    requires Trusted(s)
    ensures Trusted(Next(s, e).0)
  {
    if e.Begin? {
      StoredIsSafe(e.query);
    }
  }

  lemma {:induction false} RunTrusted(events: seq<Event>)
    ensures Trusted(Run(map[], events))
  {
    if events != [] {
      RunTrusted(events[..|events| - 1]);
      NextTrusted(Run(map[], events[..|events| - 1]), events[|events| - 1]);
    }
  }

  // No plan is pending and the stored return path reads as another host.
  predicate ReturnsElsewhere(plan: Bytes, returnTo: Bytes) {
    plan == [] && Redirects.Rooted(returnTo) && NextRequest.ReadsAsHost(returnTo)
  }

  // In every run, a successful callback redirects to a rooted path, and the
  // browser goes to another host exactly when the session says so.
  lemma SignInLeavesSiteIff(events: seq<Event>, q: Return, saves: bool)
    requires Next(Run(map[], events), Finish(q, saves)).1.SignedIn?
    ensures var s := Run(map[], events);
            var url := Next(s, Finish(q, saves)).1.url;
            && Redirects.Rooted(url)
            && (Redirects.LeavesSite(Redirects.Location(url)) <==> ReturnsElsewhere(Read(s, PLAN), Read(s, RETURN_TO)))
  {
    RunTrusted(events);
    SignInUrl(Run(map[], events), q, saves);
    DestinationLeavesIff(Read(Run(map[], events), PLAN), Read(Run(map[], events), RETURN_TO), q.noWatches);
  }

  lemma SignInUrl(s: Session, q: Return, saves: bool)
    requires CallbackResult(s, q, saves).1.SignedIn?
    ensures CallbackResult(s, q, saves).1.url == ReturnPath.Destination(Read(s, PLAN), Read(s, RETURN_TO), q.noWatches)
  {
  }

  lemma DestinationLeavesIff(plan: Bytes, returnTo: Bytes, noWatches: bool)
    requires (plan == [] || plan == PRO) && (returnTo == [] || ReturnPath.Safe(returnTo))
    ensures var url := ReturnPath.Destination(plan, returnTo, noWatches);
            && Redirects.Rooted(url)
            && (Redirects.LeavesSite(Redirects.Location(url)) <==> ReturnsElsewhere(plan, returnTo))
  {
    var url := ReturnPath.Destination(plan, returnTo, noWatches);
    if plan == [] && returnTo != [] {
      NextRequest.LeavesSiteIs(url);
      NextRequest.RedirectedSlash(url);
    } else {
      FixedPages(url);
      NextRequest.WithoutTabsStays(url);
    }
  }

  lemma FixedPages(url: Bytes)
    requires url in {ReturnPath.DASHBOARD, ReturnPath.WELCOME, ReturnPath.WELCOME + "?plan=" + PRO}
    ensures Redirects.Rooted(url) && Redirects.TAB !in url
  {
  }
}
