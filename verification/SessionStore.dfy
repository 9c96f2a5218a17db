/**
 * Session and token keys in Redis: CreateSession, StoreOIDCToken, LoadOIDCToken,
 * Logout and UserFromSessionToken of app/repository/auth.go, and
 * CompleteOIDCLogin and APIAccessToken of app/services/auth.go.
 *
 * Every Redis command is one atomic step; logins, token refreshes, logouts and
 * key expiry interleave in any way. Session tokens are fresh when they are made.
 */
module SessionStore {
  import opened Prelude

  type UserId = nat

  const OIDC_TOKEN_PREFIX := "oidc_token:"
  const TOKEN_LENGTH: nat := 64

  // A value is a user id under a session key or a token set under an OIDC key.
  datatype Value = User(id: UserId) | Tokens(access: string)

  type Keys = map<string, Value>

  // Thirty-two random bytes in lower-case hexadecimal.
  ghost predicate IsToken(s: string) {
    |s| == TOKEN_LENGTH && forall i | 0 <= i < |s| :: '0' <= s[i] <= '9' || 'a' <= s[i] <= 'f'
  }

  function OidcKey(token: string): string {
    OIDC_TOKEN_PREFIX + token
  }

  // The two key spaces never meet.
  lemma KeySpacesDisjoint(s: string, t: string)
    ensures IsToken(s) ==> s != OidcKey(t)
    ensures OidcKey(s) == OidcKey(t) ==> s == t
  {
    assert OidcKey(t)[0] == 'o';
    assert OidcKey(s)[|OIDC_TOKEN_PREFIX|..] == s && OidcKey(t)[|OIDC_TOKEN_PREFIX|..] == t;
  }

  // ---- Concurrent calls ----

  type Thread = nat

  // A call between two of its Redis commands: a login about to store its first
  // token set, a refresh that has read one, and a refresh about to store a new one.
  datatype Call =
    | Storing(token: string, tokens: Value)
    | Loaded(token: string, tokens: Value)
    | Resaving(token: string, tokens: Value)

  // `owner` maps each token ever made to the user it was made for, `issued`
  // holds those that a completed login handed to a browser.
  datatype State = State(
    keys: Keys,
    calls: map<Thread, Call>,
    owner: map<string, UserId>,
    issued: set<string>,
    loggedOut: set<string>)

  datatype Event =
    | CreateSession(thread: Thread, token: string, user: UserId, access: string)
    | StoreFirst(thread: Thread)
    | Load(thread: Thread, token: string)
    | Refresh(thread: Thread, access: string)
    | Resave(thread: Thread)
    | Fail(thread: Thread)
    | Logout(token: string)
    | Expire(key: string)

  // Events that cannot happen leave the state as it is.
  ghost function Next(s: State, e: Event): State {
    match e
    case CreateSession(x, token, user, access) =>
      if x in s.calls || token in s.owner || !IsToken(token) then s
      else s.(keys := s.keys[token := User(user)],
              owner := s.owner[token := user],
              calls := s.calls[x := Storing(token, Tokens(access))])
    case StoreFirst(x) =>
      if x !in s.calls || !s.calls[x].Storing? then s
      else
        var token := s.calls[x].token;
        s.(keys := s.keys[OidcKey(token) := s.calls[x].tokens],
           issued := s.issued + {token},
           calls := s.calls - {x})
    case Load(x, token) =>
      if x in s.calls || token !in s.issued || OidcKey(token) !in s.keys then s
      else s.(calls := s.calls[x := Loaded(token, s.keys[OidcKey(token)])])
    case Refresh(x, access) =>
      if x !in s.calls || !s.calls[x].Loaded? then s
      else if Tokens(access) == s.calls[x].tokens then s.(calls := s.calls - {x})
      else s.(calls := s.calls[x := Resaving(s.calls[x].token, Tokens(access))])
    case Resave(x) =>
      if x !in s.calls || !s.calls[x].Resaving? then s
      else s.(keys := s.keys[OidcKey(s.calls[x].token) := s.calls[x].tokens], calls := s.calls - {x})
    case Fail(x) =>
      s.(calls := s.calls - {x})
    case Logout(token) =>
      if token !in s.issued then s
      else s.(keys := s.keys - {token, OidcKey(token)}, loggedOut := s.loggedOut + {token})
    case Expire(key) =>
      s.(keys := s.keys - {key})
  }

  ghost function Run(s: State, events: seq<Event>): State {
    if events == [] then s else Next(Run(s, events[..|events| - 1]), events[|events| - 1])
  }

  // Every key is a session key with the user it was made for, or the OIDC key
  // of a token made before; only unissued tokens await their first token set.
  ghost predicate Invariant(s: State) {
    && (forall t | t in s.owner :: IsToken(t))
    && s.loggedOut <= s.issued <= s.owner.Keys
    && (forall k | k in s.keys ::
          || (k in s.owner && s.keys[k] == User(s.owner[k]))
          || (IsOidcKey(s, k) && s.keys[k].Tokens?))
    && (forall t | t in s.loggedOut :: t !in s.keys)
    && (forall x | x in s.calls ::
          && s.calls[x].token in s.owner && s.calls[x].tokens.Tokens?
          && (s.calls[x].Storing? <==> s.calls[x].token !in s.issued))
    && (forall x, y | x in s.calls && y in s.calls && s.calls[x].token == s.calls[y].token ::
          s.calls[x].Storing? ==> x == y)
  }

  ghost predicate IsOidcKey(s: State, k: string) {
    exists t | t in s.owner :: k == OidcKey(t)
  }

  const EMPTY := State(map[], map[], map[], {}, {})

  // What never changes from one state to a later one.
  ghost predicate Later(s: State, s': State) {
    && s.issued <= s'.issued && s.loggedOut <= s'.loggedOut
    && (forall t | t in s.owner :: t in s'.owner && s'.owner[t] == s.owner[t])
    && (forall t | t in s.owner :: t in s'.keys ==> t in s.keys)
  }

  lemma WriteOidcKey(s: State, token: string, tokens: Value)
    requires Invariant(s) && token in s.owner && tokens.Tokens?
    ensures Invariant(s.(keys := s.keys[OidcKey(token) := tokens]))
    ensures Later(s, s.(keys := s.keys[OidcKey(token) := tokens]))
  {
    forall t | t in s.owner
      ensures t != OidcKey(token)
    {
      KeySpacesDisjoint(t, token);
    }
    var s' := s.(keys := s.keys[OidcKey(token) := tokens]);
    assert IsOidcKey(s', OidcKey(token));
    forall k | k in s.keys && IsOidcKey(s, k)
      ensures IsOidcKey(s', k)
    {
      var t :| t in s.owner && k == OidcKey(t);
      assert t in s'.owner;
    }
  }

  lemma NewSession(s: State, x: Thread, token: string, user: UserId, access: string)
    requires Invariant(s) && x !in s.calls && token !in s.owner && IsToken(token)
    ensures var s' := Next(s, CreateSession(x, token, user, access)); Invariant(s') && Later(s, s')
  {
    var s' := Next(s, CreateSession(x, token, user, access));
    forall k | k in s.keys && IsOidcKey(s, k)
      ensures IsOidcKey(s', k) && k != token
    {
      var t :| t in s.owner && k == OidcKey(t);
      assert t in s'.owner;
      KeySpacesDisjoint(token, t);
    }
  }

  lemma NextKeeps(s: State, e: Event)
    requires Invariant(s)
    ensures Invariant(Next(s, e)) && Later(s, Next(s, e))
  {
    match e
    case CreateSession(x, token, user, access) =>
      if x !in s.calls && token !in s.owner && IsToken(token) {
        NewSession(s, x, token, user, access);
      }
    case StoreFirst(x) =>
      if x in s.calls && s.calls[x].Storing? {
        WriteOidcKey(s, s.calls[x].token, s.calls[x].tokens);
        KeptKeys(s.(keys := s.keys[OidcKey(s.calls[x].token) := s.calls[x].tokens]), Next(s, e));
      }
    case Resave(x) =>
      if x in s.calls && s.calls[x].Resaving? {
        WriteOidcKey(s, s.calls[x].token, s.calls[x].tokens);
        KeptKeys(s.(keys := s.keys[OidcKey(s.calls[x].token) := s.calls[x].tokens]), Next(s, e));
      }
    case Logout(token) => DeletingKeeps(s, e);
    case Expire(key) => DeletingKeeps(s, e);
    case _ => CallKeeps(s, e);
  }

  lemma DeletingKeeps(s: State, e: Event)
    requires Invariant(s) && (e.Logout? || e.Expire?)
    ensures Invariant(Next(s, e)) && Later(s, Next(s, e))
  {
    KeptKeys(s, Next(s, e));
  }

  lemma CallKeeps(s: State, e: Event)
    requires Invariant(s) && (e.Load? || e.Refresh? || e.Fail?)
    ensures Invariant(Next(s, e)) && Later(s, Next(s, e))
  {
    LoadedIsTokens(s, e);
    KeptKeys(s, Next(s, e));
  }

  lemma KeptKeys(s: State, s': State)
    requires s'.owner == s.owner
    ensures forall k | IsOidcKey(s, k) :: IsOidcKey(s', k)
  {
  }

  lemma LoadedIsTokens(s: State, e: Event)
    requires Invariant(s)
    ensures e.Load? && OidcKey(e.token) in s.keys ==> s.keys[OidcKey(e.token)].Tokens?
  {
    if e.Load? {
      forall t | t in s.owner
        ensures t != OidcKey(e.token)
      {
        KeySpacesDisjoint(t, e.token);
      }
    }
  }

  lemma {:induction false} RunKeeps(s: State, events: seq<Event>)
    requires Invariant(s)
    ensures Invariant(Run(s, events)) && Later(s, Run(s, events))
  {
    if events != [] {
      RunKeeps(s, events[..|events| - 1]);
      NextKeeps(Run(s, events[..|events| - 1]), events[|events| - 1]);
    }
  }

  // A session token names the user it was made for as long as its key exists;
  // once the key is gone, by logout or expiry, no run brings it back.
  lemma SessionKeys(s: State, events: seq<Event>, token: string)
    requires Invariant(s) && token in s.owner
    ensures token in Run(s, events).keys ==> Run(s, events).keys[token] == User(s.owner[token])
    ensures token in s.loggedOut || token !in s.keys ==> token !in Run(s, events).keys
  {
    RunKeeps(s, events);
    var end := Run(s, events);
    forall t | t in end.owner
      ensures token != OidcKey(t)
    {
      KeySpacesDisjoint(token, t);
    }
  }

  // ---- Which keys a step changes ----

  function At(keys: Keys, key: string): Option<Value> {
    if key in keys then Some(keys[key]) else None
  }

  // The changed key and its new value are those that the event names: nobody but
  // a call of a session writes its token set, and nothing writes a session key
  // again.
  lemma KeysChange(s: State, e: Event, key: string)
    requires At(Next(s, e).keys, key) != At(s.keys, key)
    ensures var value := At(Next(s, e).keys, key);
            match e
            case CreateSession(_, token, user, _) => token !in s.owner && key == token && value == Some(User(user))
            case StoreFirst(x) =>
              x in s.calls && s.calls[x].Storing?
              && key == "oidc_token:" + s.calls[x].token && value == Some(s.calls[x].tokens)
            case Resave(x) =>
              x in s.calls && s.calls[x].Resaving?
              && key == "oidc_token:" + s.calls[x].token && value == Some(s.calls[x].tokens)
            case Logout(token) => token in s.issued && (key == token || key == "oidc_token:" + token) && value == None
            case Expire(gone) => key == gone && value == None
            case _ => false
  {
  }

  // And those steps do change them.
  lemma WritesHappen(s: State, e: Event)
    ensures var keys := Next(s, e).keys;
            match e
            case CreateSession(x, token, user, _) =>
              x !in s.calls && token !in s.owner && IsToken(token) ==> At(keys, token) == Some(User(user))
            case StoreFirst(x) =>
              x in s.calls && s.calls[x].Storing? ==> At(keys, "oidc_token:" + s.calls[x].token) == Some(s.calls[x].tokens)
            case Resave(x) =>
              x in s.calls && s.calls[x].Resaving? ==> At(keys, "oidc_token:" + s.calls[x].token) == Some(s.calls[x].tokens)
            case Logout(token) =>
              token in s.issued ==> At(keys, token) == None && At(keys, "oidc_token:" + token) == None
            case Expire(key) => At(keys, key) == None
            case _ => true
  {
  }

  // A call carries the token set it was started with, read for its own session,
  // or got from the provider.
  lemma CallsChange(s: State, e: Event, x: Thread)
    requires x in Next(s, e).calls && (x !in s.calls || Next(s, e).calls[x] != s.calls[x])
    ensures var call := Next(s, e).calls[x];
            || (exists user, access ::
                  e == CreateSession(x, call.token, user, access) && call == Storing(call.token, Tokens(access)))
            || (e == Load(x, call.token) && call.token in s.issued
                && call.Loaded? && At(s.keys, "oidc_token:" + call.token) == Some(call.tokens))
            || (x in s.calls && s.calls[x].Loaded? && call.token == s.calls[x].token
                && call.Resaving? && call.tokens.Tokens? && e == Refresh(x, call.tokens.access))
  {
    assert e.CreateSession? ==> e == CreateSession(x, e.token, e.user, e.access);
  }

  // Some call read or is about to write the token set of the session.
  ghost predicate InFlight(s: State, token: string) {
    exists x | x in s.calls :: s.calls[x].token == token
  }

  predicate Concerns(e: Event, token: string) {
    || (e.Load? && e.token == token)
    || (e.Logout? && e.token == token)
    || (e.Expire? && (e.key == token || e.key == OidcKey(token)))
  }

  ghost predicate SameKeys(s: State, s': State, token: string) {
    At(s'.keys, token) == At(s.keys, token) && At(s'.keys, OidcKey(token)) == At(s.keys, OidcKey(token))
  }

  lemma ForeignStep(s: State, e: Event, token: string)
    requires Invariant(s) && token in s.owner && !InFlight(s, token) && !Concerns(e, token)
    ensures SameKeys(s, Next(s, e), token) && !InFlight(Next(s, e), token)
  {
    forall t
      ensures (OidcKey(t) == OidcKey(token) ==> t == token) && token != OidcKey(t)
      ensures t in s.owner || IsToken(t) ==> t != OidcKey(token)
    {
      KeySpacesDisjoint(token, t);
      KeySpacesDisjoint(t, token);
    }
    if At(Next(s, e).keys, token) != At(s.keys, token) {
      KeysChange(s, e, token);
    }
    if At(Next(s, e).keys, OidcKey(token)) != At(s.keys, OidcKey(token)) {
      KeysChange(s, e, OidcKey(token));
    }
    ForeignCalls(s, e, token);
  }

  lemma ForeignCalls(s: State, e: Event, token: string)
    requires token in s.owner && !InFlight(s, token) && !Concerns(e, token)
    ensures !InFlight(Next(s, e), token)
  {
    var calls := Next(s, e).calls;
    forall x | x in calls
      ensures calls[x].token != token
    {
      assert x in s.calls ==> s.calls[x].token != token;
    }
  }

  // In every run the two keys of a session change only by what concerns it: its
  // own calls, its logout and its expiry.
  lemma {:induction false} OthersLeaveItAlone(s: State, events: seq<Event>, token: string)
    requires Invariant(s) && token in s.owner && !InFlight(s, token)
    requires forall i | 0 <= i < |events| :: !Concerns(events[i], token)
    ensures SameKeys(s, Run(s, events), token) && !InFlight(Run(s, events), token)
  {
    if events != [] {
      var init := events[..|events| - 1];
      assert forall i | 0 <= i < |init| :: init[i] == events[i];
      OthersLeaveItAlone(s, init, token);
      RunKeeps(s, init);
      ForeignStep(Run(s, init), events[|events| - 1], token);
    }
  }

  // ---- Token sets after logout ----

  ghost predicate CanReappear(s: State, token: string) {
    exists events :: OidcKey(token) in Run(s, events).keys
  }

  lemma QuietStep(s: State, e: Event, token: string)
    requires Invariant(s) && token in s.owner && OidcKey(token) !in s.keys && !InFlight(s, token)
    ensures OidcKey(token) !in Next(s, e).keys && !InFlight(Next(s, e), token)
  {
    QuietKeys(s, e, token);
    QuietCalls(s, e, token);
  }

  // Only a call of the session writes its OIDC key.
  lemma QuietKeys(s: State, e: Event, token: string)
    requires Invariant(s) && OidcKey(token) !in s.keys && !InFlight(s, token)
    ensures OidcKey(token) !in Next(s, e).keys
  {
    if e.CreateSession? {
      KeySpacesDisjoint(e.token, token);
    }
    forall x | x in s.calls
      ensures OidcKey(s.calls[x].token) != OidcKey(token)
    {
      KeySpacesDisjoint(s.calls[x].token, token);
    }
  }

  // No call of the session can start without the key.
  lemma QuietCalls(s: State, e: Event, token: string)
    requires token in s.owner && OidcKey(token) !in s.keys && !InFlight(s, token)
    ensures !InFlight(Next(s, e), token)
  {
    var calls := Next(s, e).calls;
    forall x | x in calls
      ensures calls[x].token != token
    {
      assert x in s.calls ==> s.calls[x].token != token;
    }
  }

  lemma {:induction false} QuietRun(s: State, events: seq<Event>, token: string)
    requires Invariant(s) && token in s.owner && OidcKey(token) !in s.keys && !InFlight(s, token)
    ensures OidcKey(token) !in Run(s, events).keys && !InFlight(Run(s, events), token)
  {
    if events != [] {
      var init := events[..|events| - 1];
      QuietRun(s, init, token);
      RunKeeps(s, init);
      QuietStep(Run(s, init), events[|events| - 1], token);
    }
  }

  // A token set deleted by logout comes back in some continuation exactly when
  // an APIAccessToken call for the session is in flight at that moment.
  lemma ReappearsIffStraddled(s: State, token: string)
    requires Invariant(s) && token in s.loggedOut && OidcKey(token) !in s.keys
    ensures CanReappear(s, token) <==> InFlight(s, token)
  {
    if InFlight(s, token) {
      var x :| x in s.calls && s.calls[x].token == token;
      var access := s.calls[x].tokens.access + "*";
      Longer(s.calls[x].tokens.access);
      RunTwo(s, Refresh(x, access), Resave(x));
      var finish := [Refresh(x, access), Resave(x)];
      assert OidcKey(token) in Run(s, finish).keys;
    } else {
      forall events
        ensures OidcKey(token) !in Run(s, events).keys
      {
        QuietRun(s, events, token);
      }
    }
  }

  // A refresh that reads the token set before a logout and stores the renewed
  // one after it: the logged-out session's token set is there again.
  lemma LogoutIsUndone(login: Thread, refresh: Thread, token: string, user: UserId, access: string, renewed: string)
    returns (events: seq<Event>)
    requires IsToken(token) && access != renewed
    ensures var s := Run(EMPTY, events);
            token in s.loggedOut && token !in s.keys
            && OidcKey(token) in s.keys && s.keys[OidcKey(token)] == Tokens(renewed)
  {
    KeySpacesDisjoint(token, token);
    events := LoginThenLoad(login, refresh, token, user, access);
    var s := Run(EMPTY, events);
    RunSnoc(EMPTY, events, Logout(token));
    RunSnoc(EMPTY, events + [Logout(token)], Refresh(refresh, renewed));
    RunSnoc(EMPTY, events + [Logout(token)] + [Refresh(refresh, renewed)], Resave(refresh));
    events := events + [Logout(token)] + [Refresh(refresh, renewed)] + [Resave(refresh)];
  }

  lemma LoginThenLoad(login: Thread, refresh: Thread, token: string, user: UserId, access: string)
    returns (events: seq<Event>)
    requires IsToken(token)
    ensures var s := Run(EMPTY, events);
            token in s.issued && s.calls == map[refresh := Loaded(token, Tokens(access))]
  {
    events := [];
    RunSnoc(EMPTY, events, CreateSession(login, token, user, access));
    events := events + [CreateSession(login, token, user, access)];
    RunSnoc(EMPTY, events, StoreFirst(login));
    events := events + [StoreFirst(login)];
    assert Run(EMPTY, events).calls == map[];
    RunSnoc(EMPTY, events, Load(refresh, token));
    events := events + [Load(refresh, token)];
  }

  lemma RunSnoc(s: State, events: seq<Event>, e: Event)
    ensures Run(s, events + [e]) == Next(Run(s, events), e)
  {
    assert (events + [e])[..|events|] == events;
  }

  lemma RunTwo(s: State, a: Event, b: Event)
    ensures Run(s, [a, b]) == Next(Next(s, a), b)
  {
    assert [a, b][..1] == [a] && [a][..0] == [];
    assert Run(s, [a]) == Next(Run(s, []), a);
  }

  lemma Longer(s: string)
    ensures s + "*" != s
  {
    assert |s + "*"| == |s| + 1;
  }

  // In every reachable state, the same after the logout step itself.
  lemma LogoutRemovesBothKeys(events: seq<Event>, token: string)
    requires token in Run(EMPTY, events).issued
    ensures var s := Next(Run(EMPTY, events), Logout(token));
            && token !in s.keys && OidcKey(token) !in s.keys
            && (CanReappear(s, token) <==> InFlight(Run(EMPTY, events), token))
            && forall more :: token !in Run(s, more).keys
  {
    RunKeeps(EMPTY, events);
    NextKeeps(Run(EMPTY, events), Logout(token));
    var s := Next(Run(EMPTY, events), Logout(token));
    ReappearsIffStraddled(s, token);
    forall more
      ensures token !in Run(s, more).keys
    {
      SessionKeys(s, more, token);
    }
  }

  // ---- The calls as methods, with no other call in between ----

  // `s` is the state of the machine above that the keys belong to; each call is
  // tied to the steps that it takes there.
  class RedisSessions {
    var keys: Keys

    constructor ()
      ensures keys == map[]
    {
      keys := map[];
    }

    method CreateSession(token: string, user: UserId)
      modifies this`keys
      ensures keys == old(keys)[token := User(user)]
    {
      keys := keys[token := User(user)];
    }

    method StoreOidcToken(token: string, tokens: Value)
      modifies this`keys
      ensures keys == old(keys)[OidcKey(token) := tokens]
    {
      keys := keys[OidcKey(token) := tokens];
    }

    method LoadOidcToken(token: string) returns (tokens: Option<Value>)
      ensures tokens == if OidcKey(token) in keys then Some(keys[OidcKey(token)]) else None
    {
      tokens := if OidcKey(token) in keys then Some(keys[OidcKey(token)]) else None;
    }

    // CompleteOIDCLogin once the user row is known.
    method CompleteLogin(token: string, user: UserId, access: string, ghost s: State, ghost x: Thread)
      requires keys == s.keys && IsToken(token) && token !in s.owner && x !in s.calls
      modifies this`keys
      ensures keys == Next(Next(s, Event.CreateSession(x, token, user, access)), StoreFirst(x)).keys
      ensures token in keys && keys[token] == User(user)
      ensures OidcKey(token) in keys && keys[OidcKey(token)] == Tokens(access)
      ensures forall key | key != token && key != OidcKey(token) :: At(keys, key) == At(old(keys), key)
    {
      CreateSession(token, user);
      KeySpacesDisjoint(token, token);
      StoreOidcToken(token, Tokens(access));
    }

    // APIAccessToken. `renewed` is what the provider returns for the stored token
    // set, if it answers; without a provider the stored token is used while valid.
    method ApiAccessToken(
      token: string, provider: bool, valid: bool, renewed: Option<string>, ghost s: State, ghost x: Thread)
      returns (access: Option<string>)
      requires keys == s.keys && Invariant(s) && token in s.issued && x !in s.calls
      modifies this`keys
      ensures access.Some? <==> OidcKey(token) in old(keys) && if provider then renewed.Some? else valid
      ensures access.Some? ==> OidcKey(token) in keys && keys[OidcKey(token)] == Tokens(access.value)
      ensures access.Some? && provider ==> access == renewed && keys == AfterRefresh(s, token, x, access.value).keys
      ensures access.None? || !provider ==> keys == old(keys)
      ensures forall key | key != OidcKey(token) :: At(keys, key) == At(old(keys), key)
    {
      LoadedIsTokens(s, Load(x, token));
      var tokens := LoadOidcToken(token);
      if tokens == None {
        return None;
      }
      if !provider {
        return if valid then Some(tokens.value.access) else None;
      }
      if renewed == None {
        return None;
      }
      if renewed.value != tokens.value.access {
        StoreOidcToken(token, Tokens(renewed.value));
      }
      return renewed;
    }

    // Both keys are gone, and the keys of other sessions are left alone.
    method Logout(token: string, ghost s: State)
      requires keys == s.keys && Invariant(s) && token in s.issued
      modifies this`keys
      ensures keys == Next(s, Event.Logout(token)).keys
      ensures token !in keys && OidcKey(token) !in keys
      ensures forall t | t in s.owner && t != token ::
                At(keys, t) == At(old(keys), t) && At(keys, OidcKey(t)) == At(old(keys), OidcKey(t))
    {
      keys := keys - {token, OidcKey(token)};
      forall t | t in s.owner && t != token
        ensures t != OidcKey(token) && OidcKey(t) != token && OidcKey(t) != OidcKey(token)
      {
        KeySpacesDisjoint(t, token);
        KeySpacesDisjoint(token, t);
      }
    }

    // The key lookup of UserFromSessionToken: it names the user for whom the
    // session was created, and nobody once the session is logged out.
    method UserFromSessionToken(token: string, ghost s: State) returns (user: Option<UserId>)
      requires keys == s.keys && Invariant(s) && IsToken(token)
      ensures user.Some? ==> token in s.owner && user.value == s.owner[token]
      ensures user == None <==> token !in keys
      ensures token in s.loggedOut ==> user == None
    {
      TokenNamesUser(s, token);
      user := if token in keys then Some(keys[token].id) else None;
    }
  }

  lemma TokenNamesUser(s: State, token: string)
    requires Invariant(s) && IsToken(token)
    ensures token in s.keys ==> token in s.owner && s.keys[token] == User(s.owner[token])
  {
    forall t | t in s.owner
      ensures token != OidcKey(t)
    {
      KeySpacesDisjoint(token, t);
    }
  }

  // A refresh with no other step in between.
  ghost function AfterRefresh(s: State, token: string, x: Thread, access: string): State {
    Next(Next(Next(s, Load(x, token)), Refresh(x, access)), Resave(x))
  }
}
