/**
 * Linking OpenID Connect identities to user rows (UpsertOIDCUser,
 * insertOIDCUser and lookupByIdentity of app/repository/auth.go) under the
 * uniqueness constraints of db/migrations/2_user.sql and 7_oidc.sql.
 *
 * Each SQL statement is one atomic step; any number of logins interleave.
 */
module UserTable {
  import opened Prelude
  import Username

  type UserId = nat

  datatype Identity = Identity(issuer: string, subject: string)

  datatype Principal = Principal(identity: Identity, email: string, verified: bool, name: string, picture: string)

  datatype Row = Row(username: string, email: string, identity: Option<Identity>, image: string)

  type Table = map<UserId, Row>

  // The part of identitySuffix that hashes the identity and the attempt.
  type Suffix = (Identity, nat) -> string

  const ATTEMPTS: nat := 5

  // The key under which the citext columns compare, and strings.ToLower.
  function Fold(s: string): string {
    seq(|s|, i requires 0 <= i < |s| => Username.Lower(s[i]))
  }

  // Position by position, capitals become small letters and the rest of ASCII stays.
  lemma FoldIs(s: string, k: nat)
    requires k < |s|
    ensures |Fold(s)| == |s|
    ensures 'A' <= s[k] <= 'Z' ==> 'a' <= Fold(s)[k] <= 'z' && Fold(s)[k] as int - 'a' as int == s[k] as int - 'A' as int
    ensures s[k] < '\U{0080}' && !('A' <= s[k] <= 'Z') ==> Fold(s)[k] == s[k]
  {
  }

  lemma FoldTwice(s: string)
    ensures Fold(Fold(s)) == Fold(s)
  {
  }

  // Some other row has a value that must be unique.
  predicate Clash(t: Table, u: UserId, row: Row) {
    exists v | v in t :: v != u && Conflict(t[v], row)
  }

  predicate Conflict(a: Row, b: Row) {
    || Fold(a.username) == Fold(b.username)
    || Fold(a.email) == Fold(b.email)
    || (a.identity.Some? && a.identity == b.identity)
  }

  ghost predicate Constraints(t: Table) {
    forall u | u in t :: !Clash(t, u, t[u])
  }

  // Over two rows: user names and addresses differ in more than the case of
  // letters, and so do identities.
  lemma ConstraintsAre(t: Table)
    ensures Constraints(t) <==>
            forall u, v | u in t && v in t && u != v ::
              && Fold(t[u].username) != Fold(t[v].username) && Fold(t[u].email) != Fold(t[v].email)
              && (t[u].identity.Some? ==> t[u].identity != t[v].identity)
  {
    if Constraints(t) {
      forall u, v | u in t && v in t && u != v
        ensures !Conflict(t[v], t[u])
      {
        assert !Clash(t, u, t[u]);
      }
    }
  }

  predicate Bound(t: Table, i: Identity, u: UserId) {
    u in t && t[u].identity == Some(i)
  }

  lemma SetKeepsConstraints(t: Table, u: UserId, row: Row)
    requires Constraints(t) && !Clash(t, u, row)
    ensures Constraints(t[u := row])
  {
    var t' := t[u := row];
    forall v, w | v in t' && w in t' && w != v
      ensures !Conflict(t'[w], t'[v])
    {
      assert v != u && w != u ==> !Clash(t, v, t[v]);
    }
  }

  // ---- The statements ----

  // The row after a sign-in: empty values leave the columns as they are.
  function Refreshed(row: Row, p: Principal): Row {
    row.(email := if p.email == "" then row.email else Fold(p.email),
         image := if p.picture == "" then row.image else p.picture)
  }

  function Adopted(row: Row, p: Principal): Row {
    row.(identity := Some(p.identity), image := if p.picture == "" then row.image else p.picture)
  }

  function Fresh(p: Principal, username: string): Row {
    Row(username, Fold(p.email), Some(p.identity), p.picture)
  }

  predicate Adoptable(t: Table, p: Principal, u: UserId) {
    u in t && Fold(t[u].email) == Fold(p.email) && t[u].identity == None
  }

  function UsernameFor(p: Principal, suffix: Suffix, attempt: nat): string {
    var base := Username.CandidateFor(p.name, p.email);
    if attempt == 0 then base else base + "-" + suffix(p.identity, attempt)
  }

  lemma FoldConcat(a: string, b: string)
    ensures Fold(a + b) == Fold(a) + Fold(b)
  {
  }

  // The first attempt takes the derived name and every later one adds a hyphen
  // and its suffix, so that two attempts try the same name, in the sense of the
  // unique column, exactly when both have a suffix and the suffixes agree.
  lemma AttemptsDiffer(p: Principal, suffix: Suffix, j: nat, k: nat)
    requires j < k
    ensures UsernameFor(p, suffix, 0) == Username.CandidateFor(p.name, p.email)
    ensures UsernameFor(p, suffix, k) == Username.CandidateFor(p.name, p.email) + "-" + suffix(p.identity, k)
    ensures Fold(UsernameFor(p, suffix, j)) == Fold(UsernameFor(p, suffix, k)) <==>
            j > 0 && Fold(suffix(p.identity, j)) == Fold(suffix(p.identity, k))
  {
    var base := Username.CandidateFor(p.name, p.email);
    FoldConcat(base + "-", suffix(p.identity, k));
    if j > 0 {
      FoldConcat(base + "-", suffix(p.identity, j));
      SameTail(Fold(base + "-"), Fold(suffix(p.identity, j)), Fold(suffix(p.identity, k)));
    }
  }

  lemma SameTail(a: string, b: string, c: string)
    ensures a + b == a + c <==> b == c
  {
    assert (a + b)[|a|..] == b && (a + c)[|a|..] == c;
  }

  // ---- One login as a program counter over the table ----

  datatype Error = Internal | NoEmail | NoUsername

  datatype Pc = Update | Adopt | Insert(attempt: nat) | Recheck(attempt: nat) | SignedIn(user: UserId) | Refused(error: Error)

  datatype Login = Login(principal: Principal, pc: Pc, inserts: nat, added: nat)

  // Where a login goes once no existing row took the identity.
  function InsertOrRefuse(p: Principal): Pc {
    if p.email == "" then Refused(NoEmail) else Insert(0)
  }

  // update ... where oidc_issuer = $1 and oidc_subject = $2, on row `id`
  ghost function UpdateRow(t: Table, l: Login, id: UserId): (Table, Login) {
    var p := l.principal;
    if Bound(t, p.identity, id) then
      if Clash(t, id, Refreshed(t[id], p)) then (t, l.(pc := Refused(Internal)))
      else (t[id := Refreshed(t[id], p)], l.(pc := SignedIn(id)))
    else if exists u :: Bound(t, p.identity, u) then (t, l)
    else (t, l.(pc := if p.verified && p.email != "" then Adopt else InsertOrRefuse(p)))
  }

  // update ... where email = $3 and oidc_issuer is null, on row `id`
  ghost function AdoptRow(t: Table, l: Login, id: UserId): (Table, Login) {
    var p := l.principal;
    if Adoptable(t, p, id) then
      if Clash(t, id, Adopted(t[id], p)) then (t, l.(pc := Refused(Internal)))
      else (t[id := Adopted(t[id], p)], l.(pc := SignedIn(id)))
    else if exists u :: Adoptable(t, p, u) then (t, l)
    else (t, l.(pc := InsertOrRefuse(p)))
  }

  // insert into "user" ... with the generated key `id`
  ghost function InsertRow(t: Table, l: Login, suffix: Suffix, k: nat, id: UserId): (Table, Login) {
    var row := Fresh(l.principal, UsernameFor(l.principal, suffix, k));
    if id in t then (t, l)
    else if Clash(t, id, row) then (t, l.(pc := Recheck(k), inserts := l.inserts + 1))
    else (t[id := row], l.(pc := SignedIn(id), inserts := l.inserts + 1, added := l.added + 1))
  }

  // lookupByIdentity after a unique violation
  ghost function LookUp(t: Table, l: Login, k: nat, id: UserId): Login {
    if Bound(t, l.principal.identity, id) then l.(pc := SignedIn(id))
    else if exists u :: Bound(t, l.principal.identity, u) then l
    else l.(pc := NextAttempt(k))
  }

  // The next statement of a login. `id` is the row that the statement selects
  // or creates; with any other `id` the statement has not run yet.
  ghost function Statement(t: Table, l: Login, suffix: Suffix, id: UserId): (Table, Login) {
    match l.pc
    case Update => UpdateRow(t, l, id)
    case Adopt => AdoptRow(t, l, id)
    case Insert(k) => InsertRow(t, l, suffix, k, id)
    case Recheck(k) => (t, LookUp(t, l, k, id))
    case SignedIn(_) => (t, l)
    case Refused(_) => (t, l)
  }

  function NextAttempt(k: nat): Pc {
    if k + 1 < ATTEMPTS then Insert(k + 1) else Refused(NoUsername)
  }

  // A statement whose outcome never reached the server: it may have taken
  // effect. A failed re-check counts as a miss, every other failure ends the login.
  ghost function Interrupted(t: Table, l: Login, suffix: Suffix, id: UserId, effect: bool): (Table, Login) {
    var (t', l') := Statement(t, l, suffix, id);
    match l.pc
    case SignedIn(_) => (t, l)
    case Refused(_) => (t, l)
    case Recheck(k) => (t, l.(pc := NextAttempt(k)))
    case _ =>
      if effect then (t', l'.(pc := Refused(Internal)))
      else (t, l'.(pc := Refused(Internal), added := l.added))
  }

  // ---- Runs ----

  type Thread = nat

  datatype State = State(table: Table, logins: map<Thread, Login>)

  datatype Event =
    | Begin(thread: Thread, principal: Principal)
    | Step(thread: Thread, id: UserId)
    | Fault(thread: Thread, id: UserId, effect: bool)

  ghost function Next(s: State, e: Event, suffix: Suffix): State {
    match e
    case Begin(x, p) =>
      if x in s.logins || p.identity.issuer == "" || p.identity.subject == "" then s
      else s.(logins := s.logins[x := Login(p, Update, 0, 0)])
    case Step(x, id) =>
      if x !in s.logins then s
      else
        var (t, l) := Statement(s.table, s.logins[x], suffix, id);
        State(t, s.logins[x := l])
    case Fault(x, id, effect) =>
      if x !in s.logins then s
      else
        var (t, l) := Interrupted(s.table, s.logins[x], suffix, id, effect);
        State(t, s.logins[x := l])
  }

  ghost function Run(s: State, events: seq<Event>, suffix: Suffix): State {
    if events == [] then s else Next(Run(s, events[..|events| - 1], suffix), events[|events| - 1], suffix)
  }

  // No row disappears, none changes its user name, and none loses or changes an
  // identity it has.
  ghost predicate Preserves(t: Table, t': Table) {
    forall u | u in t ::
      u in t' && t'[u].username == t[u].username && (t[u].identity.Some? ==> t'[u].identity == t[u].identity)
  }

  // What a login may do to a row: the one that has its identity gets the email
  // address and the picture it brings, and one without an identity gets that
  // identity if the login brings its address, verified.
  predicate MayBecome(row: Row, row': Row, p: Principal) {
    && row'.username == row.username
    && (row' != row ==> row'.identity == Some(p.identity))
    && (row'.email == row.email || (row.identity == Some(p.identity) && p.email != "" && row'.email == Fold(p.email)))
    && (row'.image == row.image || (p.picture != "" && row'.image == p.picture))
    && (row'.identity != row.identity ==>
          row.identity == None && p.verified && p.email != "" && Fold(row.email) == Fold(p.email))
  }

  // A row that a login adds: its identity under its address, with the derived
  // user name or one of four others.
  ghost predicate MayAdd(row: Row, p: Principal, suffix: Suffix) {
    && p.email != "" && row.email == Fold(p.email) && row.identity == Some(p.identity) && row.image == p.picture
    && exists k: nat | k < 5 :: row.username == UsernameFor(p, suffix, k)
  }

  ghost predicate OwnChanges(t: Table, t': Table, p: Principal, suffix: Suffix) {
    && (forall u | u in t && u in t' :: MayBecome(t[u], t'[u], p))
    && (forall u | u in t' && u !in t :: MayAdd(t'[u], p, suffix))
  }

  // The attempt counters agree with the program counter.
  predicate Counted(l: Login) {
    && l.added <= 1 && l.inserts <= ATTEMPTS
    && match l.pc
       case Update => l.inserts == 0 && l.added == 0
       case Adopt => l.inserts == 0 && l.added == 0
       case Insert(k) => l.inserts == k < ATTEMPTS && l.added == 0
       case Recheck(k) => l.inserts == k + 1 && l.added == 0
       case _ => true
  }

  // A login gets to a statement only with the address that it needs.
  predicate Entitled(l: Login) {
    && (l.pc.Adopt? ==> l.principal.verified)
    && (l.pc.Adopt? || l.pc.Insert? || l.pc.Recheck? ==> l.principal.email != "")
  }

  ghost predicate Linked(t: Table, l: Login) {
    Counted(l) && Entitled(l) && (l.pc.SignedIn? ==> Bound(t, l.principal.identity, l.pc.user))
  }

  ghost predicate Invariant(s: State) {
    Constraints(s.table) && forall x | x in s.logins :: Linked(s.table, s.logins[x])
  }

  // What one step of a login may do: keep the constraints and the bindings,
  // and count a row exactly when one is added.
  ghost predicate Allowed(t: Table, l: Login, t': Table, l': Login, suffix: Suffix) {
    && Constraints(t') && Preserves(t, t') && OwnChanges(t, t', l.principal, suffix) && Linked(t', l')
    && l'.principal == l.principal
    && (l.pc.SignedIn? ==> l' == l)
    && l'.added - l.added == |t'| - |t|
  }

  lemma ReplaceAllowed(t: Table, l: Login, suffix: Suffix, id: UserId, row: Row)
    requires Linked(t, l) && (l.pc.Update? || l.pc.Adopt?) && id in t
    requires Constraints(t[id := row]) && MayBecome(t[id], row, l.principal)
    requires row.identity == Some(l.principal.identity)
    ensures Allowed(t, l, t[id := row], l.(pc := SignedIn(id)), suffix)
  {
  }

  lemma StayAllowed(t: Table, l: Login, suffix: Suffix, pc: Pc)
    requires Constraints(t) && Linked(t, l) && (l.pc.Update? || l.pc.Adopt?)
    requires pc.Refused? || pc == l.pc || (l.pc.Update? && pc.Adopt?) || pc == Insert(0)
    requires Entitled(l.(pc := pc))
    ensures Allowed(t, l, t, l.(pc := pc), suffix)
  {
  }

  lemma UpdateAllowed(t: Table, l: Login, suffix: Suffix, id: UserId)
    requires Constraints(t) && Linked(t, l) && l.pc.Update?
    ensures var (t', l') := UpdateRow(t, l, id); Allowed(t, l, t', l', suffix)
  {
    if Bound(t, l.principal.identity, id) && !Clash(t, id, Refreshed(t[id], l.principal)) {
      SetKeepsConstraints(t, id, Refreshed(t[id], l.principal));
      ReplaceAllowed(t, l, suffix, id, Refreshed(t[id], l.principal));
    } else {
      StayAllowed(t, l, suffix, UpdateRow(t, l, id).1.pc);
    }
  }

  lemma AdoptAllowed(t: Table, l: Login, suffix: Suffix, id: UserId)
    requires Constraints(t) && Linked(t, l) && l.pc.Adopt?
    ensures var (t', l') := AdoptRow(t, l, id); Allowed(t, l, t', l', suffix)
  {
    if Adoptable(t, l.principal, id) && !Clash(t, id, Adopted(t[id], l.principal)) {
      SetKeepsConstraints(t, id, Adopted(t[id], l.principal));
      ReplaceAllowed(t, l, suffix, id, Adopted(t[id], l.principal));
    } else {
      StayAllowed(t, l, suffix, AdoptRow(t, l, id).1.pc);
    }
  }

  lemma FreshMayBeAdded(p: Principal, suffix: Suffix, k: nat)
    requires p.email != "" && k < ATTEMPTS
    ensures MayAdd(Fresh(p, UsernameFor(p, suffix, k)), p, suffix)
  {
  }

  lemma AddAllowed(t: Table, l: Login, suffix: Suffix, id: UserId, row: Row)
    requires Linked(t, l) && l.pc.Insert? && id !in t
    requires Constraints(t[id := row]) && MayAdd(row, l.principal, suffix) && Bound(t[id := row], l.principal.identity, id)
    ensures Allowed(t, l, t[id := row], l.(pc := SignedIn(id), inserts := l.inserts + 1, added := l.added + 1), suffix)
  {
  }

  lemma InsertAllowed(t: Table, l: Login, suffix: Suffix, id: UserId)
    requires Constraints(t) && Linked(t, l) && l.pc.Insert?
    ensures var (t', l') := InsertRow(t, l, suffix, l.pc.attempt, id); Allowed(t, l, t', l', suffix)
  {
    var row := Fresh(l.principal, UsernameFor(l.principal, suffix, l.pc.attempt));
    if id !in t && !Clash(t, id, row) {
      SetKeepsConstraints(t, id, row);
      FreshMayBeAdded(l.principal, suffix, l.pc.attempt);
      AddAllowed(t, l, suffix, id, row);
    }
  }

  lemma StatementAllowed(t: Table, l: Login, suffix: Suffix, id: UserId)
    requires Constraints(t) && Linked(t, l)
    ensures var (t', l') := Statement(t, l, suffix, id); Allowed(t, l, t', l', suffix)
  {
    match l.pc
    case Update => UpdateAllowed(t, l, suffix, id);
    case Adopt => AdoptAllowed(t, l, suffix, id);
    case Insert(_) => InsertAllowed(t, l, suffix, id);
    case _ =>
  }

  lemma InterruptedAllowed(t: Table, l: Login, suffix: Suffix, id: UserId, effect: bool)
    requires Constraints(t) && Linked(t, l)
    ensures var (t', l') := Interrupted(t, l, suffix, id, effect); Allowed(t, l, t', l', suffix)
  {
    StatementAllowed(t, l, suffix, id);
  }

  // Over one or more steps: bindings stay, and finished logins stay finished.
  ghost predicate Later(s: State, s': State) {
    && Preserves(s.table, s'.table)
    && forall x | x in s.logins ::
         && x in s'.logins
         && s'.logins[x].principal == s.logins[x].principal
         && (s.logins[x].pc.SignedIn? ==> s'.logins[x] == s.logins[x])
  }

  lemma NextKeeps(s: State, e: Event, suffix: Suffix)
    requires Invariant(s)
    ensures Invariant(Next(s, e, suffix)) && Later(s, Next(s, e, suffix))
  {
    match e
    case Begin(_, _) =>
    case Step(x, id) =>
      if x in s.logins {
        StatementAllowed(s.table, s.logins[x], suffix, id);
        ReplaceLogin(s, x, Statement(s.table, s.logins[x], suffix, id).0, Statement(s.table, s.logins[x], suffix, id).1, suffix);
      }
    case Fault(x, id, effect) =>
      if x in s.logins {
        InterruptedAllowed(s.table, s.logins[x], suffix, id, effect);
        ReplaceLogin(s, x, Interrupted(s.table, s.logins[x], suffix, id, effect).0,
                     Interrupted(s.table, s.logins[x], suffix, id, effect).1, suffix);
      }
  }

  lemma ReplaceLogin(s: State, x: Thread, t: Table, l: Login, suffix: Suffix)
    requires Invariant(s) && x in s.logins && Allowed(s.table, s.logins[x], t, l, suffix)
    ensures Invariant(State(t, s.logins[x := l])) && Later(s, State(t, s.logins[x := l]))
  {
    forall y | y in s.logins && y != x
      ensures Linked(t, s.logins[y])
    {
    }
  }

  lemma {:induction false} RunKeeps(s: State, events: seq<Event>, suffix: Suffix)
    requires Invariant(s)
    ensures Invariant(Run(s, events, suffix)) && Later(s, Run(s, events, suffix))
  {
    if events != [] {
      var init := events[..|events| - 1];
      RunKeeps(s, init, suffix);
      NextKeeps(Run(s, init, suffix), events[|events| - 1], suffix);
    }
  }

  // Some login of the run presented that identity with that address, verified.
  ghost predicate Presented(s: State, i: Identity, email: string) {
    exists x | x in s.logins :: Presents(s.logins[x].principal, i, email)
  }

  predicate Presents(p: Principal, i: Identity, email: string) {
    p.identity == i && p.verified && Fold(p.email) == Fold(email)
  }

  // The row as it was found, or taken over by a login that was entitled to it.
  ghost predicate FoundOrClaimed(s: State, u: UserId, row: Row) {
    && u in s.table && s.table[u].username == row.username
    && if s.table[u].identity == None then s.table[u] == row
       else Presented(s, s.table[u].identity.value, row.email)
  }

  lemma PresentedStays(s: State, e: Event, suffix: Suffix, i: Identity, email: string)
    requires Invariant(s) && Presented(s, i, email)
    ensures Presented(Next(s, e, suffix), i, email)
  {
    NextKeeps(s, e, suffix);
    var x :| x in s.logins && Presents(s.logins[x].principal, i, email);
    assert Presents(Next(s, e, suffix).logins[x].principal, i, email);
  }

  // Only an entitled login changes it.
  lemma TakeoverStep(s: State, e: Event, suffix: Suffix, u: UserId)
    requires Invariant(s) && u in s.table && s.table[u].identity == None
    ensures FoundOrClaimed(Next(s, e, suffix), u, s.table[u])
  {
    match e
    case Begin(_, _) =>
    case Step(x, id) =>
      if x in s.logins {
        StatementAllowed(s.table, s.logins[x], suffix, id);
        assert MayBecome(s.table[u], Next(s, e, suffix).table[u], s.logins[x].principal);
        PresentsOwn(s, Next(s, e, suffix), x, u);
      }
    case Fault(x, id, effect) =>
      if x in s.logins {
        InterruptedAllowed(s.table, s.logins[x], suffix, id, effect);
        assert MayBecome(s.table[u], Next(s, e, suffix).table[u], s.logins[x].principal);
        PresentsOwn(s, Next(s, e, suffix), x, u);
      }
  }

  lemma PresentsOwn(s: State, s': State, x: Thread, u: UserId)
    requires x in s.logins && x in s'.logins && s'.logins[x].principal == s.logins[x].principal
    requires u in s.table && s.table[u].identity == None && u in s'.table
    requires MayBecome(s.table[u], s'.table[u], s.logins[x].principal)
    ensures FoundOrClaimed(s', u, s.table[u])
  {
    if s'.table[u].identity.Some? {
      assert Presents(s'.logins[x].principal, s'.table[u].identity.value, s.table[u].email);
    }
  }

  // In every run a row without an identity stays as it is until a login brings
  // its email address, verified; no other login can take it over.
  lemma {:induction false} OnlyVerifiedEmailTakesOver(s: State, events: seq<Event>, suffix: Suffix, u: UserId)
    requires Invariant(s) && u in s.table && s.table[u].identity == None
    ensures FoundOrClaimed(Run(s, events, suffix), u, s.table[u])
  {
    if events != [] {
      var init, e, row := events[..|events| - 1], events[|events| - 1], s.table[u];
      OnlyVerifiedEmailTakesOver(s, init, suffix, u);
      RunKeeps(s, init, suffix);
      var before := Run(s, init, suffix);
      NextKeeps(before, e, suffix);
      if before.table[u].identity == None {
        TakeoverStep(before, e, suffix, u);
      } else {
        PresentedStays(before, e, suffix, before.table[u].identity.value, row.email);
      }
    }
  }

  // Once bound, an identity resolves to its row and to no other, whatever
  // logins run in whatever order afterwards.
  lemma BindingIsPermanent(s: State, events: seq<Event>, suffix: Suffix, i: Identity, u: UserId)
    requires Invariant(s) && Bound(s.table, i, u)
    ensures forall v :: Bound(Run(s, events, suffix).table, i, v) <==> v == u
  {
    RunKeeps(s, events, suffix);
    var t := Run(s, events, suffix).table;
    assert !Clash(t, u, t[u]);
  }

  // Two logins that succeed anywhere in a run are signed in as the same user
  // exactly when they present the same identity.
  lemma SameUserIffSameIdentity(s: State, events: seq<Event>, suffix: Suffix, x: Thread, y: Thread)
    requires Invariant(s)
    requires var logins := Run(s, events, suffix).logins;
             x in logins && y in logins && logins[x].pc.SignedIn? && logins[y].pc.SignedIn?
    ensures var logins := Run(s, events, suffix).logins;
            logins[x].pc.user == logins[y].pc.user <==> logins[x].principal.identity == logins[y].principal.identity
  {
    RunKeeps(s, events, suffix);
    var end := Run(s, events, suffix);
    assert !Clash(end.table, end.logins[x].pc.user, end.table[end.logins[x].pc.user]);
  }

  // A login makes at most five inserts and adds at most one row.
  lemma BoundedAttempts(table: Table, events: seq<Event>, suffix: Suffix, x: Thread)
    requires Constraints(table) && x in Run(State(table, map[]), events, suffix).logins
    ensures var l := Run(State(table, map[]), events, suffix).logins[x];
            l.inserts <= 5 && l.added <= 1
  {
    RunKeeps(State(table, map[]), events, suffix);
  }
}
