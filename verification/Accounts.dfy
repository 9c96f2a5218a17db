/**
 * UpsertOIDCUser and insertOIDCUser of app/repository/auth.go as the methods
 * they are, on a table that no other login touches meanwhile. UserTable covers
 * the interleavings; here the point is when a sign-in succeeds.
 */
module Accounts {
  import opened Prelude
  import opened UserTable

  datatype Outcome = Ok(user: UserId) | Failed(error: Error) | NoIdentity

  datatype Reply = One(user: UserId) | NoRows | UniqueViolation

  predicate EmailTaken(t: Table, email: string, owner: Option<UserId>) {
    exists v | v in t :: Some(v) != owner && Fold(t[v].email) == Fold(email)
  }

  predicate UsernameTaken(t: Table, username: string) {
    exists v | v in t :: Fold(t[v].username) == Fold(username)
  }

  ghost predicate SomeUsernameFree(t: Table, p: Principal, suffix: Suffix) {
    exists k: nat | k < ATTEMPTS :: !UsernameTaken(t, UsernameFor(p, suffix, k))
  }

  ghost predicate Known(t: Table, i: Identity) {
    exists u :: Bound(t, i, u)
  }

  // A pre-existing account that a verified email address hands over.
  ghost predicate Handover(t: Table, p: Principal) {
    p.verified && p.email != "" && exists u :: Adoptable(t, p, u)
  }

  // When a sign-in succeeds, read off the table and the principal beforehand:
  // a known identity needs its email to be its own, an unlinked account needs a
  // verified email, and a new one needs a free email and one free user name.
  ghost predicate CanSignIn(t: Table, p: Principal, suffix: Suffix) {
    && p.identity.issuer != "" && p.identity.subject != ""
    && if Known(t, p.identity) then
         p.email == "" || forall u | Bound(t, p.identity, u) :: !EmailTaken(t, p.email, Some(u))
       else
         || Handover(t, p)
         || (p.email != "" && !EmailTaken(t, p.email, None) && SomeUsernameFree(t, p, suffix))
  }

  lemma RefreshedClash(t: Table, u: UserId, p: Principal)
    requires Constraints(t) && u in t
    ensures Clash(t, u, Refreshed(t[u], p)) <==> p.email != "" && EmailTaken(t, p.email, Some(u))
  {
    FoldTwice(p.email);
    assert !Clash(t, u, t[u]);
    if p.email != "" && EmailTaken(t, p.email, Some(u)) {
      var v :| v in t && Some(v) != Some(u) && Fold(t[v].email) == Fold(p.email);
      assert v != u && Conflict(t[v], Refreshed(t[u], p));
    }
  }

  lemma AdoptedNeverClashes(t: Table, u: UserId, p: Principal)
    requires Constraints(t) && u in t && !Known(t, p.identity)
    ensures !Clash(t, u, Adopted(t[u], p))
  {
    assert !Clash(t, u, t[u]);
    forall v | v in t && v != u
      ensures !Conflict(t[v], Adopted(t[u], p))
    {
      assert !Bound(t, p.identity, v);
    }
  }

  lemma FreshClash(t: Table, id: UserId, p: Principal, username: string)
    requires id !in t
    ensures Clash(t, id, Fresh(p, username)) <==>
            UsernameTaken(t, username) || EmailTaken(t, p.email, None) || Known(t, p.identity)
  {
    var row := Fresh(p, username);
    FoldTwice(p.email);
    if UsernameTaken(t, username) {
      var v :| v in t && Fold(t[v].username) == Fold(username);
      assert v != id && Conflict(t[v], row);
    }
    if EmailTaken(t, p.email, None) {
      var v :| v in t && Fold(t[v].email) == Fold(p.email);
      assert v != id && Conflict(t[v], row);
    }
    if Known(t, p.identity) {
      var v :| Bound(t, p.identity, v);
      assert v != id && Conflict(t[v], row);
    }
    if v :| v in t && v != id && Conflict(t[v], row) && t[v].identity == row.identity {
      assert Bound(t, p.identity, v);
    }
  }

  // The row after a sign-in with its own identity: the address and the picture are
  // those of the principal, as far as it brings any.
  predicate IsRefreshed(row: Row, row': Row, p: Principal) {
    && row'.identity == Some(p.identity) && row'.username == row.username
    && row'.email == (if p.email == "" then row.email else Fold(p.email))
    && row'.image == (if p.picture == "" then row.image else p.picture)
  }

  // The row that an identity takes over under its own address.
  predicate IsAdopted(row: Row, row': Row, p: Principal) {
    && row.identity == None && Fold(row.email) == Fold(p.email)
    && row'.identity == Some(p.identity) && row'.username == row.username && row'.email == row.email
    && row'.image == (if p.picture == "" then row.image else p.picture)
  }

  // A new row has the first of the five names that nobody has.
  ghost predicate FirstFree(t: Table, row: Row, p: Principal, suffix: Suffix) {
    && row.email == Fold(p.email) && row.identity == Some(p.identity) && row.image == p.picture
    && exists k: nat | k < 5 :: row.username == UsernameFor(p, suffix, k) && NoneBefore(t, p, suffix, k)
  }

  ghost predicate NoneBefore(t: Table, p: Principal, suffix: Suffix, k: nat) {
    !UsernameTaken(t, UsernameFor(p, suffix, k)) && AllTaken(t, p, suffix, k)
  }

  ghost predicate AllTaken(t: Table, p: Principal, suffix: Suffix, k: nat) {
    forall j: nat | j < k :: UsernameTaken(t, UsernameFor(p, suffix, j))
  }

  lemma MoreTaken(t: Table, p: Principal, suffix: Suffix, k: nat)
    requires AllTaken(t, p, suffix, k)
    ensures UsernameTaken(t, UsernameFor(p, suffix, k)) ==> AllTaken(t, p, suffix, k + 1)
  {
  }

  lemma NoneFree(t: Table, p: Principal, suffix: Suffix)
    ensures AllTaken(t, p, suffix, ATTEMPTS) <==> !SomeUsernameFree(t, p, suffix)
  {
  }

  lemma FirstIsFree(t: Table, p: Principal, suffix: Suffix, k: nat, row: Row)
    requires k < ATTEMPTS && NoneBefore(t, p, suffix, k)
    requires row == Row(UsernameFor(p, suffix, k), Fold(p.email), Some(p.identity), p.picture)
    ensures FirstFree(t, row, p, suffix) && SomeUsernameFree(t, p, suffix)
  {
  }

  // ---- The statements as steps of UserTable ----

  function At(p: Principal, pc: Pc, inserts: nat, added: nat): Login {
    Login(p, pc, inserts, added)
  }

  // A login that runs alone: one statement after the other, each on the row named.
  ghost function Stepped(t: Table, l: Login, suffix: Suffix, ids: seq<UserId>): (Table, Login) {
    if ids == [] then (t, l)
    else
      var (t', l') := Stepped(t, l, suffix, ids[..|ids| - 1]);
      Statement(t', l', suffix, ids[|ids| - 1])
  }

  lemma SteppedSnoc(t: Table, l: Login, suffix: Suffix, ids: seq<UserId>, id: UserId)
    ensures Stepped(t, l, suffix, ids + [id]) ==
            Statement(Stepped(t, l, suffix, ids).0, Stepped(t, l, suffix, ids).1, suffix, id)
  {
    assert (ids + [id])[..|ids|] == ids;
  }

  function AfterUpdate(p: Principal, reply: Reply): Pc {
    match reply
    case One(u) => SignedIn(u)
    case UniqueViolation => Refused(Internal)
    case NoRows => if p.verified && p.email != "" then Adopt else InsertOrRefuse(p)
  }

  function AfterAdopt(p: Principal, reply: Reply): Pc {
    match reply
    case One(u) => SignedIn(u)
    case UniqueViolation => Refused(Internal)
    case NoRows => InsertOrRefuse(p)
  }

  // The outcome as the end of a login.
  predicate Ends(pc: Pc, outcome: Outcome) {
    match outcome
    case Ok(u) => pc == SignedIn(u)
    case Failed(error) => pc == Refused(error)
    case NoIdentity => false
  }

  // The login has made k inserts in vain, and nothing has changed.
  ghost predicate Trying(t: Table, p: Principal, suffix: Suffix, ids: seq<UserId>, k: nat) {
    Stepped(t, At(p, Insert(0), 0, 0), suffix, ids) ==
    (t, At(p, if k < ATTEMPTS then Insert(k) else Refused(NoUsername), k, 0))
  }

  // The turn with k inserts before it: a user, or the next turn.
  ghost predicate Tried(
    t: Table, t': Table, p: Principal, suffix: Suffix, k: nat, ids: seq<UserId>, user: Option<UserId>)
  {
    var end := Stepped(t, At(p, Insert(k), k, 0), suffix, ids);
    end.0 == t' && if user.Some? then end.1.pc == SignedIn(user.value) else end.1 == At(p, NextAttempt(k), k + 1, 0)
  }

  lemma TriedMore(
    t: Table, t': Table, p: Principal, suffix: Suffix, ids: seq<UserId>, k: nat, step: seq<UserId>, user: Option<UserId>)
    requires k < ATTEMPTS && Trying(t, p, suffix, ids, k) && Tried(t, t', p, suffix, k, step, user)
    ensures user.Some? ==> Tried(t, t', p, suffix, 0, ids + step, user)
    ensures user == None && t' == t ==> Trying(t, p, suffix, ids + step, k + 1)
  {
    SteppedConcat(t, At(p, Insert(0), 0, 0), suffix, ids, step);
  }

  // A violation and the look-up after it.
  lemma ViolationStep(t: Table, p: Principal, suffix: Suffix, k: nat, id: UserId, row: UserId)
    requires id !in t && Clash(t, id, Fresh(p, UsernameFor(p, suffix, k)))
    requires Bound(t, p.identity, row) || !Known(t, p.identity)
    ensures Stepped(t, At(p, Insert(k), k, 0), suffix, [id] + [row]) ==
            (t, At(p, if Bound(t, p.identity, row) then SignedIn(row) else NextAttempt(k), k + 1, 0))
  {
    var start := At(p, Insert(k), k, 0);
    OneStep(t, start, suffix, id);
    SteppedSnoc(t, start, suffix, [id], row);
  }

  lemma OneStep(t: Table, l: Login, suffix: Suffix, id: UserId)
    ensures Stepped(t, l, suffix, [id]) == Statement(t, l, suffix, id)
  {
    SteppedSnoc(t, l, suffix, [], id);
    assert [] + [id] == [id];
  }

  class AccountRepository {
    var users: Table

    constructor (users: Table)
      ensures this.users == users
    {
      this.users := users;
    }

    // The constraints hold and only the row of `u` may differ from t.
    ghost predicate Touched(t: Table, u: UserId)
      reads this
    {
      Constraints(users) && Preserves(t, users) && u in users && users == t[u := users[u]]
    }

    // `row` is the row that the statement works on.
    method UpdateByIdentity(p: Principal) returns (reply: Reply, ghost row: UserId)
      requires Constraints(users)
      modifies this`users
      ensures reply.NoRows? <==> !Known(old(users), p.identity)
      ensures reply.One? ==> Bound(old(users), p.identity, reply.user) && Touched(old(users), reply.user)
      ensures reply.One? ==> IsRefreshed(old(users)[reply.user], users[reply.user], p)
      ensures !reply.One? ==> users == old(users)
      ensures Known(old(users), p.identity) ==>
              (reply.One? <==>
               (p.email == "" || forall u | Bound(old(users), p.identity, u) :: !EmailTaken(old(users), p.email, Some(u))))
      ensures UpdateRow(old(users), At(p, Update, 0, 0), row) == (users, At(p, AfterUpdate(p, reply), 0, 0))
    {
      row := 0;
      if u :| u in users && Bound(users, p.identity, u) {
        var refreshed := Refreshed(users[u], p);
        row := u;
        RefreshedClash(users, u, p);
        assert !Clash(users, u, users[u]);
        if Clash(users, u, refreshed) {
          return UniqueViolation, u;
        }
        SetKeepsConstraints(users, u, refreshed);
        users := users[u := refreshed];
        return One(u), u;
      }
      return NoRows, 0;
    }

    method AdoptByEmail(p: Principal) returns (reply: Reply, ghost row: UserId)
      requires Constraints(users) && !Known(users, p.identity)
      modifies this`users
      ensures reply == NoRows <==> !exists u :: Adoptable(old(users), p, u)
      ensures reply == NoRows <==>
              forall u | u in old(users) && old(users)[u].identity == None :: Fold(old(users)[u].email) != Fold(p.email)
      ensures reply == NoRows ==> users == old(users)
      ensures reply != NoRows ==> reply.One? && Adoptable(old(users), p, reply.user)
      ensures reply.One? ==> Touched(old(users), reply.user)
      ensures reply.One? ==> IsAdopted(old(users)[reply.user], users[reply.user], p)
      ensures AdoptRow(old(users), At(p, Adopt, 0, 0), row) == (users, At(p, AfterAdopt(p, reply), 0, 0))
    {
      if u :| u in users && Adoptable(users, p, u) {
        AdoptedNeverClashes(users, u, p);
        SetKeepsConstraints(users, u, Adopted(users[u], p));
        users := users[u := Adopted(users[u], p)];
        return One(u), u;
      }
      return NoRows, 0;
    }

    method InsertUser(p: Principal, username: string, id: UserId) returns (reply: Reply)
      requires Constraints(users) && id !in users
      modifies this`users
      ensures reply == if UsernameTaken(old(users), username) || EmailTaken(old(users), p.email, None)
                          || Known(old(users), p.identity)
                       then UniqueViolation else One(id)
      ensures reply == UniqueViolation <==> Clash(old(users), id, Fresh(p, username))
      ensures reply == UniqueViolation ==> users == old(users)
      ensures reply == One(id) ==> users == old(users)[id := Fresh(p, username)] && Touched(old(users), id)
      ensures reply == One(id) ==> users[id] == Row(username, Fold(p.email), Some(p.identity), p.picture)
    {
      FreshClash(users, id, p, username);
      if Clash(users, id, Fresh(p, username)) {
        return UniqueViolation;
      }
      SetKeepsConstraints(users, id, Fresh(p, username));
      users := users[id := Fresh(p, username)];
      return One(id);
    }

    method LookupByIdentity(i: Identity) returns (found: Option<UserId>)
      ensures found == None <==> !Known(users, i)
      ensures found.Some? ==> Bound(users, i, found.value)
    {
      if u :| u in users && Bound(users, i, u) {
        return Some(u);
      }
      return None;
    }

    // One turn of the loop. A violation may mean that the identity exists by now,
    // so it is looked up before the next attempt.
    method Attempt(p: Principal, suffix: Suffix, k: nat, id: UserId) returns (user: Option<UserId>, ghost ids: seq<UserId>)
      requires Constraints(users) && id !in users
      modifies this`users
      ensures user == None <==>
              !Known(old(users), p.identity) &&
              (EmailTaken(old(users), p.email, None) || UsernameTaken(old(users), UsernameFor(p, suffix, k)))
      ensures user.Some? ==> Bound(users, p.identity, user.value)
      ensures user.Some? && !Known(old(users), p.identity) ==> user.value == id && Touched(old(users), id)
      ensures user.Some? && !Known(old(users), p.identity) ==>
                users[id] == Row(UsernameFor(p, suffix, k), Fold(p.email), Some(p.identity), p.picture)
      ensures user == None || Known(old(users), p.identity) ==> users == old(users)
      ensures Tried(old(users), users, p, suffix, k, ids, user)
    {
      OneStep(users, At(p, Insert(k), k, 0), suffix, id);
      var reply := InsertUser(p, UsernameFor(p, suffix, k), id);
      if reply.One? {
        return Some(reply.user), [id];
      }
      user := LookupByIdentity(p.identity);
      ghost var row := if user.Some? then user.value else 0;
      ViolationStep(users, p, suffix, k, id, row);
      ids := [id] + [row];
    }

    // The loop of insertOIDCUser.
    method TryUsernames(p: Principal, suffix: Suffix, id: UserId) returns (user: Option<UserId>, ghost ids: seq<UserId>)
      requires Constraints(users) && id !in users
      modifies this`users
      ensures user.Some? <==>
              Known(old(users), p.identity) || (!EmailTaken(old(users), p.email, None) && SomeUsernameFree(old(users), p, suffix))
      ensures user.Some? ==> Bound(users, p.identity, user.value)
      ensures user.Some? && !Known(old(users), p.identity) ==>
                user.value == id && Touched(old(users), id) && FirstFree(old(users), users[id], p, suffix)
      ensures user == None || Known(old(users), p.identity) ==> users == old(users)
      ensures if user.Some? then Tried(old(users), users, p, suffix, 0, ids, user)
              else Trying(old(users), p, suffix, ids, ATTEMPTS)
    {
      ids := [];
      for attempt := 0 to ATTEMPTS
        invariant users == old(users)
        invariant attempt > 0 ==> !Known(users, p.identity)
        invariant EmailTaken(users, p.email, None) || AllTaken(users, p, suffix, attempt)
        invariant Trying(old(users), p, suffix, ids, attempt)
      {
        ghost var step;
        user, step := Attempt(p, suffix, attempt, id);
        TriedMore(old(users), users, p, suffix, ids, attempt, step, user);
        ids := ids + step;
        if user.Some? {
          if !Known(old(users), p.identity) {
            FirstIsFree(old(users), p, suffix, attempt, users[id]);
          }
          return;
        }
        if !EmailTaken(users, p.email, None) {
          MoreTaken(users, p, suffix, attempt);
        }
      }
      NoneFree(users, p, suffix);
      user := None;
    }

    // `ids` are the rows of the statements issued.
    method InsertOidcUser(p: Principal, suffix: Suffix, id: UserId) returns (outcome: Outcome, ghost ids: seq<UserId>)
      requires Constraints(users) && id !in users
      modifies this`users
      ensures outcome.Ok? <==>
              p.email != "" && (Known(old(users), p.identity) ||
                                (!EmailTaken(old(users), p.email, None) && SomeUsernameFree(old(users), p, suffix)))
      ensures outcome.Ok? ==> Bound(users, p.identity, outcome.user)
      ensures outcome.Ok? && !Known(old(users), p.identity) ==>
                outcome.user == id && Touched(old(users), id) && FirstFree(old(users), users[id], p, suffix)
      ensures !outcome.Ok? || Known(old(users), p.identity) ==> users == old(users)
      ensures !outcome.Ok? ==> outcome == Failed(if p.email == "" then NoEmail else NoUsername)
      ensures var end := Stepped(old(users), At(p, InsertOrRefuse(p), 0, 0), suffix, ids);
              end.0 == users && Ends(end.1.pc, outcome)
    {
      if p.email == "" {
        return Failed(NoEmail), [];
      }
      var user;
      user, ids := TryUsernames(p, suffix, id);
      outcome := if user.Some? then Ok(user.value) else Failed(NoUsername);
    }

    // The call is the run of one login in UserTable, ended as the outcome says.
    method UpsertOidcUser(p: Principal, suffix: Suffix, id: UserId) returns (outcome: Outcome, ghost ids: seq<UserId>)
      requires Constraints(users) && id !in users
      modifies this`users
      ensures outcome.Ok? <==> CanSignIn(old(users), p, suffix)
      ensures outcome.Ok? ==> Bound(users, p.identity, outcome.user) && Touched(old(users), outcome.user)
      ensures outcome.Ok? && Known(old(users), p.identity) ==>
                Bound(old(users), p.identity, outcome.user) && IsRefreshed(old(users)[outcome.user], users[outcome.user], p)
      ensures outcome.Ok? && !Known(old(users), p.identity) && Handover(old(users), p) ==>
                p.verified && Adoptable(old(users), p, outcome.user)
                && IsAdopted(old(users)[outcome.user], users[outcome.user], p)
      ensures outcome.Ok? && !Known(old(users), p.identity) && !Handover(old(users), p) ==>
                outcome.user == id && FirstFree(old(users), users[id], p, suffix)
      ensures !outcome.Ok? ==> users == old(users)
      ensures outcome != NoIdentity ==>
                var end := Stepped(old(users), At(p, Update, 0, 0), suffix, ids);
                end.0 == users && Ends(end.1.pc, outcome)
    {
      ids := [];
      if p.identity.issuer == "" || p.identity.subject == "" {
        return NoIdentity, [];
      }
      ghost var start, row := At(p, Update, 0, 0), 0;
      var reply;
      SteppedNone(users, start, suffix);
      reply, row := UpdateByIdentity(p);
      SteppedSnoc(old(users), start, suffix, ids, row);
      ids := ids + [row];
      if reply.One? {
        return Ok(reply.user), ids;
      }
      if reply.UniqueViolation? {
        return Failed(Internal), ids;
      }
      if p.verified && p.email != "" {
        reply, row := AdoptByEmail(p);
        SteppedSnoc(old(users), start, suffix, ids, row);
        ids := ids + [row];
        if reply.One? {
          return Ok(reply.user), ids;
        }
        if reply.UniqueViolation? {
          return Failed(Internal), ids;
        }
      }
      ghost var rest;
      outcome, rest := InsertOidcUser(p, suffix, id);
      SteppedConcat(old(users), start, suffix, ids, rest);
      ids := ids + rest;
    }
  }

  lemma SteppedNone(t: Table, l: Login, suffix: Suffix)
    ensures Stepped(t, l, suffix, []) == (t, l)
  {
  }

  lemma {:induction false} SteppedConcat(t: Table, l: Login, suffix: Suffix, a: seq<UserId>, b: seq<UserId>)
    ensures Stepped(t, l, suffix, a + b) ==
            Stepped(Stepped(t, l, suffix, a).0, Stepped(t, l, suffix, a).1, suffix, b)
  {
    if b == [] {
      assert a + b == a;
    } else {
      SteppedConcat(t, l, suffix, a, b[..|b| - 1]);
      assert (a + b)[..|a + b| - 1] == a + b[..|b| - 1];
    }
  }
}
