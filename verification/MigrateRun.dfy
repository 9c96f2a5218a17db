/**
 * One Migrate call of db/db.go from listing the directory to the last file,
 * while no other run is inside: the files in name order, the drift check and
 * the per-file transactions. Migrations covers concurrent runs.
 */
module MigrateRun {
  import opened Prelude
  import opened Migrations

  datatype Entry = Entry(name: string, folder: bool, hash: string)

  // ---- sort.Strings ----

  predicate Less(a: string, b: string) {
    b != "" && (a == "" || a[0] < b[0] || (a[0] == b[0] && Less(a[1..], b[1..])))
  }

  lemma {:induction false} LessTotal(a: string, b: string)
    ensures a == b || Less(a, b) || Less(b, a)
    ensures !(Less(a, b) && Less(b, a)) && !Less(a, a)
  {
    if a != "" && b != "" {
      LessTotal(a[1..], b[1..]);
      assert a == [a[0]] + a[1..] && b == [b[0]] + b[1..];
    }
    if a != "" {
      LessTotal(a[1..], a[1..]);
    }
  }

  lemma {:induction false} LessTransitive(a: string, b: string, c: string)
    requires Less(a, b) && Less(b, c)
    ensures Less(a, c)
  {
    if a != "" && a[0] == b[0] && b[0] == c[0] {
      LessTransitive(a[1..], b[1..], c[1..]);
    }
  }

  // Strings in rising order: a proper prefix comes first, and otherwise the first
  // position where they differ decides, by the smaller letter.
  ghost predicate Before(a: string, b: string) {
    exists k: nat :: DiffersAt(a, b, k)
  }

  lemma {:induction false} LessIsBefore(a: string, b: string)
    ensures Less(a, b) <==> Before(a, b)
  {
    if a != "" && b != "" && a[0] == b[0] {
      LessIsBefore(a[1..], b[1..]);
      BeforeTails(a, b);
    } else if b != "" {
      if Less(a, b) {
        assert DiffersAt(a, b, 0);
      } else {
        NotBefore(a, b);
      }
    }
  }

  lemma NotBefore(a: string, b: string)
    requires a != "" && b != "" && b[0] < a[0]
    ensures !Before(a, b)
  {
    forall k: nat
      ensures !DiffersAt(a, b, k)
    {
      assert k > 0 && k <= |a| && k < |b| ==> a[..k][0] == a[0] && b[..k][0] == b[0];
    }
  }

  lemma TailsAgree(a: string, b: string, k: nat)
    requires a != "" && b != "" && a[0] == b[0] && k < |a| && k < |b|
    ensures a[1..][..k] == b[1..][..k] <==> a[..k + 1] == b[..k + 1]
  {
    assert a[..k + 1] == [a[0]] + a[1..][..k] && b[..k + 1] == [b[0]] + b[1..][..k];
    assert a[..k + 1][1..] == a[1..][..k] && b[..k + 1][1..] == b[1..][..k];
  }

  // The first difference is at position k.
  predicate DiffersAt(a: string, b: string, k: nat) {
    k <= |a| && k < |b| && a[..k] == b[..k] && (k == |a| || a[k] < b[k])
  }

  lemma BeforeTails(a: string, b: string)
    requires a != "" && b != "" && a[0] == b[0]
    ensures Before(a, b) <==> Before(a[1..], b[1..])
  {
    if Before(a, b) {
      var k: nat :| DiffersAt(a, b, k);
      TailsAgree(a, b, k - 1);
      assert DiffersAt(a[1..], b[1..], k - 1);
    }
    if Before(a[1..], b[1..]) {
      var k: nat :| DiffersAt(a[1..], b[1..], k);
      TailsAgree(a, b, k);
      assert DiffersAt(a, b, k + 1);
    }
  }

  ghost predicate Ordered(files: seq<File>) {
    forall i, j | 0 <= i < j < |files| :: Less(files[i].name, files[j].name)
  }

  // The names rise from file to file.
  ghost predicate Rising(files: seq<File>) {
    forall i, j | 0 <= i < j < |files| :: Before(files[i].name, files[j].name)
  }

  // Exactly the files of the directory, in rising order of their names.
  ghost predicate IsListing(entries: seq<Entry>, files: seq<File>) {
    Rising(files) && forall f :: f in files <==> Entry(f.name, false, f.hash) in entries
  }

  // The files of the directory, in the order of their names.
  function Listed(entries: seq<Entry>): seq<File> {
    if entries == [] then []
    else
      var rest := Listed(entries[1..]);
      if entries[0].folder then rest else Place(File(entries[0].name, entries[0].hash), rest)
  }

  function Place(f: File, files: seq<File>): seq<File> {
    if files == [] || Less(f.name, files[0].name) then [f] + files else [files[0]] + Place(f, files[1..])
  }

  lemma {:induction false} PlaceKeeps(f: File, files: seq<File>)
    ensures forall g :: g in Place(f, files) <==> g == f || g in files
    ensures Ordered(files) && (forall g | g in files :: g.name != f.name) ==> Ordered(Place(f, files))
    decreases files
  {
    if files != [] {
      assert files == [files[0]] + files[1..];
      PlaceKeeps(f, files[1..]);
      var r := Place(f, files);
      if Ordered(files) && forall g | g in files :: g.name != f.name {
        LessTotal(f.name, files[0].name);
        assert files[0] in files;
        assert Ordered(files[1..]);
        forall i, j | 0 <= i < j < |r|
          ensures Less(r[i].name, r[j].name)
        {
          if i == 0 {
            if Less(f.name, files[0].name) && j > 1 {
              LessTransitive(f.name, files[0].name, r[j].name);
            } else if !Less(f.name, files[0].name) {
              assert r[j] in Place(f, files[1..]);
            }
          }
        }
      }
    }
  }

  ghost predicate UniqueNames(entries: seq<Entry>) {
    forall i, j | 0 <= i < j < |entries| :: entries[i].name != entries[j].name
  }

  // The listing has exactly the files of the directory, in strictly rising order.
  lemma {:induction false} ListedIsOrdered(entries: seq<Entry>)
    requires UniqueNames(entries)
    ensures Ordered(Listed(entries)) && DistinctNames(Listed(entries))
    ensures forall f :: f in Listed(entries) <==> Entry(f.name, false, f.hash) in entries
  {
    if entries != [] {
      var e, rest := entries[0], Listed(entries[1..]);
      assert entries == [e] + entries[1..];
      ListedIsOrdered(entries[1..]);
      forall g | g in rest
        ensures g.name != e.name
      {
        assert Entry(g.name, false, g.hash) in entries[1..];
      }
      PlaceKeeps(File(e.name, e.hash), rest);
    }
    OrderedIsDistinct(Listed(entries));
  }

  lemma ListedIsSorted(entries: seq<Entry>)
    requires UniqueNames(entries)
    ensures IsListing(entries, Listed(entries))
  {
    ListedIsOrdered(entries);
    var files := Listed(entries);
    forall i, j | 0 <= i < j < |files|
      ensures Before(files[i].name, files[j].name)
    {
      LessIsBefore(files[i].name, files[j].name);
    }
  }

  lemma ListedIsDistinct(entries: seq<Entry>)
    requires UniqueNames(entries)
    ensures DistinctNames(Listed(entries))
  {
    ListedIsOrdered(entries);
  }

  lemma OrderedIsDistinct(files: seq<File>)
    requires Ordered(files)
    ensures DistinctNames(files)
  {
    forall i, j | 0 <= i < j < |files|
      ensures files[i].name != files[j].name
    {
      LessTotal(files[i].name, files[j].name);
    }
  }

  // ---- The run ----

  datatype Result = Success(applied: nat, skipped: nat) | Drift(name: string) | Broken(name: string)

  // The files among files[..n] that have no row yet, in order.
  function Pending(files: seq<File>, rows: Rows): seq<File> {
    if files == [] then []
    else
      var init, f := files[..|files| - 1], files[|files| - 1];
      Pending(init, rows) + if f.name in rows then [] else [f]
  }

  function WithRows(rows: Rows, files: seq<File>): Rows {
    if files == [] then rows
    else
      var f := files[|files| - 1];
      WithRows(rows, files[..|files| - 1])[f.name := f.hash]
  }

  // What makes a run stop at a file: changed contents of a recorded file, or a
  // transaction of an unrecorded file that fails.
  predicate Stops(f: File, rows: Rows, fails: set<string>) {
    if f.name in rows then rows[f.name] != f.hash else f.name in fails
  }

  lemma {:induction false} WithRowsKeys(rows: Rows, files: seq<File>, n: string)
    ensures n in WithRows(rows, files) <==> n in rows || exists i | 0 <= i < |files| :: files[i].name == n
  {
    if files != [] {
      WithRowsKeys(rows, files[..|files| - 1], n);
      assert forall i | 0 <= i < |files| - 1 :: files[..|files| - 1][i] == files[i];
    }
  }

  lemma {:induction false} PendingNames(files: seq<File>, rows: Rows)
    ensures forall f :: f in Pending(files, rows) <==> f in files && f.name !in rows
  {
    if files != [] {
      PendingNames(files[..|files| - 1], rows);
      assert files == files[..|files| - 1] + [files[|files| - 1]];
    }
  }

  lemma AddedLast(base: seq<File>, done: seq<File>, f: File)
    ensures base + done + [f] == base + (done + [f])
  {
  }

  class Database {
    var rows: Rows
    var executed: seq<File>

    // The transaction of one file: its SQL and its row, or nothing.
    method Apply(f: File, fails: set<string>) returns (ok: bool)
      requires f.name !in rows
      modifies this
      ensures ok <==> f.name !in fails
      ensures ok ==> rows == old(rows)[f.name := f.hash] && executed == old(executed) + [f]
      ensures !ok ==> rows == old(rows) && executed == old(executed)
    {
      if f.name in fails {
        return false;
      }
      rows := rows[f.name := f.hash];
      executed := executed + [f];
      return true;
    }

    // Migrate, while no other run is inside. Transactions of the files named in
    // `fails` fail. The run treats the files before index `stop` and executes those
    // that had no row; `events` are the steps of run r in the machine of Migrations.
    method Migrate(entries: seq<Entry>, fails: set<string>, ghost s: State, ghost r: RunId, ghost pool: Pool)
      returns (result: Result, ghost stop: nat, ghost events: seq<Event>)
      requires UniqueNames(entries) && CanEnter(s, r, pool) && s.rows == rows
      modifies this
      ensures StopsAt(Listed(entries), old(rows), fails, stop)
      ensures var done := Pending(Listed(entries)[..stop], old(rows));
              && executed == old(executed) + done && rows == WithRows(old(rows), done)
              && Completed(ExecFrom(s, events, pool), s, r, rows, done, result, pool)
      ensures ResultAt(Listed(entries), old(rows), stop, result)
      ensures IsListing(entries, Listed(entries))
    {
      ListedIsDistinct(entries);
      ListedIsSorted(entries);
      ghost var enter := EnterEvents(s, r, Listed(entries), pool);
      ghost var inside := ExecFrom(s, enter, pool);
      result, stop, events := RunFiles(Listed(entries), fails, inside, r, pool);
      events := LeaveEvents(s, enter, events, r, rows, Pending(Listed(entries)[..stop], old(rows)), result, pool);
    }

    // One turn of the loop. `base` is what had been executed before the run.
    method TreatFile(
      files: seq<File>, seen: Rows, fails: set<string>, i: nat, applied: nat, skipped: nat,
      ghost base: seq<File>, ghost done: seq<File>,
      ghost s: State, ghost events: seq<Event>, ghost pool: Pool, ghost r: RunId)
      returns (verdict: Option<Result>, applied': nat, skipped': nat, ghost done': seq<File>, ghost events': seq<Event>)
      requires i < |files| && DistinctNames(files) && executed == base + done
      requires Looping(s, events, pool, r, files, seen, fails, i, done, applied, skipped, rows)
      modifies this
      ensures executed == base + done'
      ensures verdict == None ==> Looping(s, events', pool, r, files, seen, fails, i + 1, done', applied', skipped', rows)
      ensures verdict.Some? ==> Ended(s, events', pool, r, files, seen, fails, i, done', verdict.value, rows)
    {
      var f := files[i];
      verdict, applied', skipped', done' := None, applied, skipped, done;
      if f.name in seen {
        if seen[f.name] != f.hash {
          events' := DriftStep(s, events, pool, r, files, seen, fails, i, done, applied, skipped, rows);
          verdict := Some(Drift(f.name));
          return;
        }
        events' := SkipStep(s, events, pool, r, files, seen, fails, i, done, applied, skipped, rows);
        skipped' := skipped + 1;
        return;
      }
      ghost var before := rows;
      NotYetRecorded(files, i, seen);
      var ok := Apply(f, fails);
      if !ok {
        events' := FailStep(s, events, pool, r, files, seen, fails, i, done, applied, skipped, rows);
        verdict := Some(Broken(f.name));
        return;
      }
      events' := ApplyStep(s, events, pool, r, files, seen, fails, i, done, applied, skipped, before);
      applied', done' := applied + 1, done + [f];
      AddedLast(base, done, f);
    }

    method RunFiles(files: seq<File>, fails: set<string>, ghost s: State, ghost r: RunId, ghost pool: Pool)
      returns (result: Result, ghost stop: nat, ghost events: seq<Event>)
      requires DistinctNames(files) && InLoop(s, r, files, rows, 0, 0, 0) && s.rows == rows
      modifies this
      ensures stop <= |files| && executed == old(executed) + Pending(files[..stop], old(rows))
      ensures Ended(s, events, pool, r, files, old(rows), fails, stop, Pending(files[..stop], old(rows)), result, rows)
    {
      var seen := rows;
      var applied, skipped: nat := 0, 0;
      ghost var done: seq<File> := [];
      events := [];
      for i := 0 to |files|
        invariant executed == old(executed) + done
        invariant Looping(s, events, pool, r, files, seen, fails, i, done, applied, skipped, rows)
      {
        var verdict;
        verdict, applied, skipped, done, events :=
          TreatFile(files, seen, fails, i, applied, skipped, old(executed), done, s, events, pool, r);
        if verdict.Some? {
          return verdict.value, i, events;
        }
      }
      stop := |files|;
      events := EndStep(s, events, pool, r, files, seen, fails, done, applied, skipped, rows);
      result := Success(applied, skipped);
    }
  }

  // ---- The run as steps of Migrations ----

  ghost function ExecFrom(s: State, events: seq<Event>, pool: Pool): State {
    if events == [] then s else Next(ExecFrom(s, events[..|events| - 1], pool), events[|events| - 1], pool)
  }

  lemma ExecFromSnoc(s: State, events: seq<Event>, e: Event, pool: Pool)
    ensures ExecFrom(s, events + [e], pool) == Next(ExecFrom(s, events, pool), e, pool)
  {
    assert (events + [e])[..|events|] == events;
  }

  // The run is about to treat the file at index `next`, and no other run has an
  // open insert.
  ghost predicate InLoop(s: State, r: RunId, files: seq<File>, seen: Rows, next: nat, applied: nat, skipped: nat) {
    && r in s.runs && s.runs[r] == Run(files, Loop, seen, next, applied, skipped)
    && forall q | q in s.runs && q != r :: s.runs[q].pc != Inserted
  }

  function CommittedFiles(log: seq<Commit>): seq<File> {
    if log == [] then [] else CommittedFiles(log[..|log| - 1]) + [log[|log| - 1].file]
  }

  lemma CommittedFilesSnoc(log: seq<Commit>, c: Commit)
    ensures CommittedFiles(log + [c]) == CommittedFiles(log) + [c.file]
  {
    assert (log + [c])[..|log|] == log;
  }

  // From state s, the run has come to index i and has committed `done`.
  ghost predicate Reached(
    t: State, s: State, r: RunId, files: seq<File>, seen: Rows, i: nat, done: seq<File>, applied: nat, skipped: nat, rows: Rows)
  {
    && InLoop(t, r, files, seen, i, applied, skipped)
    && t.rows == rows && t.lock == s.lock && CommittedFiles(t.log) == CommittedFiles(s.log) + done
  }

  // It has left the loop, and it reports what the result says.
  ghost predicate Finished(t: State, s: State, r: RunId, rows: Rows, done: seq<File>, result: Result) {
    && r in t.runs && t.runs[r].pc == Unlocking(result.Success?)
    && t.rows == rows && t.lock == s.lock && CommittedFiles(t.log) == CommittedFiles(s.log) + done
    && (result.Success? ==> t.runs[r].applied == result.applied && t.runs[r].skipped == result.skipped)
  }

  // Nobody else is inside, and the run's session is there to take the lock.
  ghost predicate CanEnter(s: State, r: RunId, pool: Pool) {
    && r !in s.runs && s.lock == None && pool.lockSession(r) !in s.ended
    && forall q | q in s.runs :: s.runs[q].pc != Inserted
  }

  // It is over, with the outcome that the result says, and has freed the lock if
  // it released it in the session that took it.
  ghost predicate Completed(t: State, s: State, r: RunId, rows: Rows, done: seq<File>, result: Result, pool: Pool) {
    && r in t.runs && t.runs[r].pc == Done(result.Success?)
    && t.rows == rows && CommittedFiles(t.log) == CommittedFiles(s.log) + done
    && (result.Success? ==> t.runs[r].applied == result.applied && t.runs[r].skipped == result.skipped)
    && (t.lock == None <==> pool.unlockSession(r) == pool.lockSession(r))
  }

  // Lock and table read: the run sees the rows that are there.
  lemma EnterEvents(s: State, r: RunId, files: seq<File>, pool: Pool) returns (events: seq<Event>)
    requires CanEnter(s, r, pool) && DistinctNames(files)
    ensures var t := ExecFrom(s, events, pool);
            && InLoop(t, r, files, s.rows, 0, 0, 0) && t.rows == s.rows && t.log == s.log
            && t.lock == Some(Held(pool.lockSession(r), 1))
  {
    var s1 := Next(s, Launch(r, files), pool);
    var s2 := Next(s1, Lock(r), pool);
    assert s2.runs == s.runs[r := Run(files, Locked, map[], 0, 0, 0)] && s2.rows == s.rows && s2.log == s.log;
    ExecFromCons(s2, Read(r), [], pool);
    ExecFromCons(s1, Lock(r), [Read(r)] + [], pool);
    ExecFromCons(s, Launch(r, files), [Lock(r)] + ([Read(r)] + []), pool);
    events := [Launch(r, files)] + ([Lock(r)] + ([Read(r)] + []));
  }

  lemma ExecFromCons(s: State, e: Event, rest: seq<Event>, pool: Pool)
    ensures ExecFrom(s, [e] + rest, pool) == ExecFrom(Next(s, e, pool), rest, pool)
  {
    ExecFromSnoc(s, [], e, pool);
    assert [] + [e] == [e];
    ExecFromConcat(s, [e], rest, pool);
  }

  lemma LeaveEvents(
    s: State, enter: seq<Event>, loop: seq<Event>, r: RunId, rows: Rows, done: seq<File>, result: Result, pool: Pool)
    returns (events: seq<Event>)
    requires var t := ExecFrom(s, enter, pool);
             && t.lock == Some(Held(pool.lockSession(r), 1)) && t.log == s.log
             && Finished(ExecFrom(t, loop, pool), t, r, rows, done, result)
    ensures Completed(ExecFrom(s, events, pool), s, r, rows, done, result, pool)
  {
    ExecFromConcat(s, enter, loop, pool);
    ExecFromSnoc(s, enter + loop, Unlock(r), pool);
    events := enter + loop + [Unlock(r)];
  }

  lemma {:induction false} ExecFromConcat(s: State, a: seq<Event>, b: seq<Event>, pool: Pool)
    ensures ExecFrom(s, a + b, pool) == ExecFrom(ExecFrom(s, a, pool), b, pool)
  {
    if b == [] {
      assert a + b == a;
    } else {
      ExecFromConcat(s, a, b[..|b| - 1], pool);
      assert (a + b)[..|a + b| - 1] == a + b[..|b| - 1];
    }
  }

  // The top of the loop body for a recorded file, or at the end of the list.
  lemma TreatEvents(
    s: State, r: RunId, files: seq<File>, seen: Rows, i: nat, done: seq<File>, applied: nat, skipped: nat, rows: Rows,
    events: seq<Event>, pool: Pool)
    returns (more: seq<Event>)
    requires Reached(ExecFrom(s, events, pool), s, r, files, seen, i, done, applied, skipped, rows)
    requires i == |files| || (i < |files| && files[i].name in seen)
    ensures i < |files| && HasRow(seen, files[i]) ==>
              Reached(ExecFrom(s, more, pool), s, r, files, seen, i + 1, done, applied, skipped + 1, rows)
    ensures i < |files| && !HasRow(seen, files[i]) ==>
              Finished(ExecFrom(s, more, pool), s, r, rows, done, Drift(files[i].name))
    ensures i == |files| ==> Finished(ExecFrom(s, more, pool), s, r, rows, done, Success(applied, skipped))
  {
    ExecFromSnoc(s, events, Treat(r), pool);
    more := events + [Treat(r)];
  }

  // A transaction that fails.
  lemma FailEvents(
    s: State, r: RunId, files: seq<File>, seen: Rows, i: nat, done: seq<File>, applied: nat, skipped: nat, rows: Rows,
    events: seq<Event>, pool: Pool)
    returns (more: seq<Event>)
    requires Reached(ExecFrom(s, events, pool), s, r, files, seen, i, done, applied, skipped, rows)
    requires i < |files| && files[i].name !in seen
    ensures Finished(ExecFrom(s, more, pool), s, r, rows, done, Broken(files[i].name))
  {
    ExecFromSnoc(s, events, Treat(r), pool);
    ExecFromSnoc(s, events + [Treat(r)], Fail(r), pool);
    more := events + [Treat(r)] + [Fail(r)];
  }

  // A transaction that commits.
  lemma ApplyEvents(
    s: State, r: RunId, files: seq<File>, seen: Rows, i: nat, done: seq<File>, applied: nat, skipped: nat, rows: Rows,
    events: seq<Event>, pool: Pool)
    returns (more: seq<Event>)
    requires Reached(ExecFrom(s, events, pool), s, r, files, seen, i, done, applied, skipped, rows)
    requires i < |files| && files[i].name !in seen && files[i].name !in rows
    ensures Reached(ExecFrom(s, more, pool), s, r, files, seen, i + 1, done + [files[i]], applied + 1, skipped,
                    rows[files[i].name := files[i].hash])
  {
    var t := ExecFrom(s, events, pool);
    ExecFromSnoc(s, events, Treat(r), pool);
    ExecFromSnoc(s, events + [Treat(r)], Insert(r), pool);
    ExecFromSnoc(s, events + [Treat(r)] + [Insert(r)], Commits(r, true), pool);
    more := events + [Treat(r)] + [Insert(r)] + [Commits(r, true)];
    InsertAlone(t, r, files, seen, i, applied, skipped, pool);
    CommittedFilesSnoc(t.log, Commit(r, i, files[i]));
  }

  lemma InsertAlone(
    t: State, r: RunId, files: seq<File>, seen: Rows, i: nat, applied: nat, skipped: nat, pool: Pool)
    requires InLoop(t, r, files, seen, i, applied, skipped)
    requires i < |files| && files[i].name !in seen && files[i].name !in t.rows
    ensures var u := Next(Next(t, Treat(r), pool), Insert(r), pool);
            && u.runs == t.runs[r := Run(files, Inserted, seen, i, applied, skipped)]
            && u.rows == t.rows && u.log == t.log && u.lock == t.lock
  {
    var v := Next(t, Treat(r), pool);
    assert v.runs == t.runs[r := Run(files, Executed, seen, i, applied, skipped)];
    assert !Waits(v, r, files[i].name);
  }

  // `stop` is the first file that stops the run, or the end of the list.
  ghost predicate StopsAt(files: seq<File>, rows: Rows, fails: set<string>, stop: nat) {
    && stop <= |files|
    && (forall j | 0 <= j < stop :: !Stops(files[j], rows, fails))
    && (stop < |files| ==> Stops(files[stop], rows, fails))
  }

  // What a run reports that stopped there.
  ghost predicate ResultAt(files: seq<File>, rows: Rows, stop: nat, result: Result)
    requires stop <= |files|
  {
    if stop == |files| then
      result.Success? && result.applied == |Pending(files, rows)| && result.applied + result.skipped == |files|
    else
      result == if files[stop].name in rows then Drift(files[stop].name) else Broken(files[stop].name)
  }

  // The loop state before file i, where `done` has been executed.
  ghost predicate SoFar(
    files: seq<File>, seen: Rows, fails: set<string>, i: nat, done: seq<File>, applied: nat, skipped: nat)
  {
    && i <= |files|
    && (forall j | 0 <= j < i :: !Stops(files[j], seen, fails))
    && done == Pending(files[..i], seen)
    && applied == |done| && applied + skipped == i
  }

  // The state of the loop before file i, here and in the machine.
  ghost predicate Looping(
    s: State, events: seq<Event>, pool: Pool, r: RunId,
    files: seq<File>, seen: Rows, fails: set<string>, i: nat, done: seq<File>, applied: nat, skipped: nat, rows: Rows)
  {
    && SoFar(files, seen, fails, i, done, applied, skipped)
    && rows == WithRows(seen, done)
    && Reached(ExecFrom(s, events, pool), s, r, files, seen, i, done, applied, skipped, rows)
  }

  // The run has ended at index `stop`, here and in the machine.
  ghost predicate Ended(
    s: State, events: seq<Event>, pool: Pool, r: RunId,
    files: seq<File>, seen: Rows, fails: set<string>, stop: nat, done: seq<File>, result: Result, rows: Rows)
  {
    && StopsAt(files, seen, fails, stop) && ResultAt(files, seen, stop, result)
    && done == Pending(files[..stop], seen) && rows == WithRows(seen, done)
    && Finished(ExecFrom(s, events, pool), s, r, rows, done, result)
  }

  lemma DriftStep(
    s: State, events: seq<Event>, pool: Pool, r: RunId,
    files: seq<File>, seen: Rows, fails: set<string>, i: nat, done: seq<File>, applied: nat, skipped: nat, rows: Rows)
    returns (more: seq<Event>)
    requires Looping(s, events, pool, r, files, seen, fails, i, done, applied, skipped, rows)
    requires i < |files| && files[i].name in seen && seen[files[i].name] != files[i].hash
    ensures Ended(s, more, pool, r, files, seen, fails, i, done, Drift(files[i].name), rows)
  {
    more := TreatEvents(s, r, files, seen, i, done, applied, skipped, rows, events, pool);
  }

  lemma FailStep(
    s: State, events: seq<Event>, pool: Pool, r: RunId,
    files: seq<File>, seen: Rows, fails: set<string>, i: nat, done: seq<File>, applied: nat, skipped: nat, rows: Rows)
    returns (more: seq<Event>)
    requires Looping(s, events, pool, r, files, seen, fails, i, done, applied, skipped, rows)
    requires i < |files| && files[i].name !in seen && files[i].name in fails
    ensures Ended(s, more, pool, r, files, seen, fails, i, done, Broken(files[i].name), rows)
  {
    more := FailEvents(s, r, files, seen, i, done, applied, skipped, rows, events, pool);
  }

  lemma EndStep(
    s: State, events: seq<Event>, pool: Pool, r: RunId,
    files: seq<File>, seen: Rows, fails: set<string>, done: seq<File>, applied: nat, skipped: nat, rows: Rows)
    returns (more: seq<Event>)
    requires Looping(s, events, pool, r, files, seen, fails, |files|, done, applied, skipped, rows)
    ensures Ended(s, more, pool, r, files, seen, fails, |files|, done, Success(applied, skipped), rows)
  {
    assert files[..|files|] == files;
    more := TreatEvents(s, r, files, seen, |files|, done, applied, skipped, rows, events, pool);
  }

  lemma SkipStep(
    s: State, events: seq<Event>, pool: Pool, r: RunId,
    files: seq<File>, seen: Rows, fails: set<string>, i: nat, done: seq<File>, applied: nat, skipped: nat, rows: Rows)
    returns (more: seq<Event>)
    requires Looping(s, events, pool, r, files, seen, fails, i, done, applied, skipped, rows)
    requires i < |files| && HasRow(seen, files[i])
    ensures Looping(s, more, pool, r, files, seen, fails, i + 1, done, applied, skipped + 1, rows)
  {
    PendingSnoc(files, seen, i);
    more := TreatEvents(s, r, files, seen, i, done, applied, skipped, rows, events, pool);
  }

  lemma ApplyStep(
    s: State, events: seq<Event>, pool: Pool, r: RunId,
    files: seq<File>, seen: Rows, fails: set<string>, i: nat, done: seq<File>, applied: nat, skipped: nat, rows: Rows)
    returns (more: seq<Event>)
    requires Looping(s, events, pool, r, files, seen, fails, i, done, applied, skipped, rows)
    requires i < |files| && files[i].name !in seen && files[i].name !in fails && files[i].name !in rows
    ensures Looping(s, more, pool, r, files, seen, fails, i + 1, done + [files[i]], applied + 1, skipped,
                    rows[files[i].name := files[i].hash])
  {
    PendingSnoc(files, seen, i);
    assert (done + [files[i]])[..|done|] == done;
    more := ApplyEvents(s, r, files, seen, i, done, applied, skipped, rows, events, pool);
  }

  lemma NotYetRecorded(files: seq<File>, i: nat, rows: Rows)
    requires DistinctNames(files) && i < |files| && files[i].name !in rows
    ensures files[i].name !in WithRows(rows, Pending(files[..i], rows))
  {
    var pending := Pending(files[..i], rows);
    WithRowsKeys(rows, pending, files[i].name);
    PendingNames(files[..i], rows);
    forall k | 0 <= k < |pending|
      ensures pending[k].name != files[i].name
    {
      assert pending[k] in files[..i];
      var j :| 0 <= j < i && files[j] == pending[k];
    }
  }

  // ---- Reruns ----

  // From a recorded prefix of unchanged files, a run that stops early leaves a
  // longer prefix, and what it executed is exactly the stretch in between.
  lemma PendingSnoc(files: seq<File>, rows: Rows, n: nat)
    requires n < |files|
    ensures Pending(files[..n + 1], rows) ==
            if files[n].name in rows then Pending(files[..n], rows) else Pending(files[..n], rows) + [files[n]]
  {
    assert files[..n + 1][..n] == files[..n];
  }

  lemma {:induction false} PendingOfPrefix(files: seq<File>, rows: Rows, k: nat, stop: nat)
    requires PrefixRecorded(rows, files, k) && stop <= |files|
    ensures Pending(files[..stop], rows) == if stop <= k then [] else files[k..stop]
  {
    if stop > 0 {
      var n := stop - 1;
      PendingOfPrefix(files, rows, k, n);
      PendingSnoc(files, rows, n);
      assert files[n].name in rows <==> n < k;
      if k <= n {
        SliceSnoc(files, k, n);
      }
    }
  }

  lemma SliceSnoc(files: seq<File>, k: nat, n: nat)
    requires k <= n < |files|
    ensures files[k..n + 1] == files[k..n] + [files[n]] && files[k..k] == []
  {
  }

  lemma {:induction false} StretchRecorded(files: seq<File>, rows: Rows, k: nat, stop: nat)
    requires DistinctNames(files) && PrefixRecorded(rows, files, k) && k <= stop <= |files|
    ensures PrefixRecorded(WithRows(rows, files[k..stop]), files, stop)
    decreases stop
  {
    if stop > k {
      StretchRecorded(files, rows, k, stop - 1);
      assert files[k..stop][..stop - 1 - k] == files[k..stop - 1];
      PrefixGrows(WithRows(rows, files[k..stop - 1]), files, stop - 1);
    } else {
      assert files[k..stop] == [];
    }
  }

  // A run over a recorded, unchanged prefix, whatever fails in it: it stops at
  // or after the end of the prefix, executes the files from there to where it
  // stopped, and leaves the longer prefix recorded.
  lemma RunExtendsPrefix(files: seq<File>, rows: Rows, k: nat, fails: set<string>, stop: nat)
    requires DistinctNames(files) && PrefixRecorded(rows, files, k)
    requires forall j | 0 <= j < k :: HasRow(rows, files[j])
    requires StopsAt(files, rows, fails, stop)
    ensures k <= stop
    ensures Pending(files[..stop], rows) == files[k..stop]
    ensures PrefixRecorded(WithRows(rows, Pending(files[..stop], rows)), files, stop)
  {
    assert stop < k ==> HasRow(rows, files[stop]);
    PendingOfPrefix(files, rows, k, stop);
    StretchRecorded(files, rows, k, stop);
  }
}
