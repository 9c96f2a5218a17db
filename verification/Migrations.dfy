/**
 * Any number of concurrent Migrate runs of db/db.go against one database.
 *
 * Every statement is one atomic step and a run may fail or crash after any of
 * them. A transaction commits its SQL together with its row in _migrations,
 * whose primary key makes a second insert of the same name wait for the first
 * and then fail. The advisory lock belongs to a session (PostgreSQL, section
 * 13.3.5); the pool decides in which session a run takes it and in which one it
 * releases it. Sessions may end at any time, and what they hold is freed.
 */
module Migrations {
  import opened Prelude

  datatype File = File(name: string, hash: string)

  type Rows = map<string, string>

  type RunId = nat

  type Session = nat

  datatype Pc =
    | Start
    | Locked
    | Loop
    | Executed
    | Inserted
    | Unlocking(ok: bool)
    | Done(ok: bool)
    | Crashed

  // A run is about to treat files[next]; `seen` is what it read from the table.
  datatype Run = Run(files: seq<File>, pc: Pc, seen: Rows, next: nat, applied: nat, skipped: nat)

  datatype Commit = Commit(run: RunId, index: nat, file: File)

  datatype Held = Held(session: Session, depth: nat)

  // `ended` holds the sessions that are gone; a session never comes back.
  datatype State = State(rows: Rows, log: seq<Commit>, lock: Option<Held>, runs: map<RunId, Run>, ended: set<Session>)

  // The session in which each run takes the lock, and the one in which it
  // releases it.
  datatype Pool = Pool(lockSession: RunId -> Session, unlockSession: RunId -> Session)

  datatype Event =
    | Launch(run: RunId, files: seq<File>)
    | Lock(run: RunId)
    | Read(run: RunId)
    | Treat(run: RunId)
    | Insert(run: RunId)
    | Commits(run: RunId, acknowledged: bool)
    | Fail(run: RunId)
    | Unlock(run: RunId)
    | Crash(run: RunId)
    | EndSession(session: Session)

  ghost predicate DistinctNames(files: seq<File>) {
    forall i, j | 0 <= i < j < |files| :: files[i].name != files[j].name
  }

  function Acquire(lock: Option<Held>, session: Session): Option<Held>
    requires Grants(lock, session)
  {
    match lock
    case None => Some(Held(session, 1))
    case Some(h) => Some(Held(session, h.depth + 1))
  }

  // A session gets the lock when nobody has it or when it already has it.
  predicate Grants(lock: Option<Held>, session: Session) {
    lock == None || lock.value.session == session
  }

  // pg_advisory_unlock: of no effect in a session that does not hold the lock.
  function Release(lock: Option<Held>, session: Session): Option<Held> {
    if lock == None || lock.value.session != session then lock
    else if lock.value.depth <= 1 then None
    else Some(Held(session, lock.value.depth - 1))
  }

  // An open transaction of another run has inserted the same name.
  ghost predicate Waits(s: State, r: RunId, name: string) {
    exists q | q in s.runs :: q != r && Reserves(s.runs[q], name)
  }

  predicate Reserves(run: Run, name: string) {
    run.pc == Inserted && run.next < |run.files| && run.files[run.next].name == name
  }

  // The top of the loop body: skip, stop on drift, or run the file's SQL.
  function Treated(run: Run): Run {
    if run.next >= |run.files| then run.(pc := Unlocking(true))
    else
      var f := run.files[run.next];
      if f.name !in run.seen then run.(pc := Executed)
      else if run.seen[f.name] != f.hash then run.(pc := Unlocking(false))
      else run.(next := run.next + 1, skipped := run.skipped + 1)
  }

  // Where a statement error takes a run. Before the lock is held nothing is deferred.
  function Failed(run: Run): Run {
    match run.pc
    case Start => run.(pc := Done(false))
    case Locked => run.(pc := Unlocking(false))
    case Loop => run.(pc := Unlocking(false))
    case Executed => run.(pc := Unlocking(false))
    case Inserted => run.(pc := Unlocking(false))
    case _ => run
  }

  // A commit whose acknowledgement is lost counts as a failure for the run.
  function PastCommit(run: Run, acknowledged: bool): Run {
    if acknowledged then run.(pc := Loop, next := run.next + 1, applied := run.applied + 1)
    else run.(pc := Unlocking(false), next := run.next + 1)
  }

  // The server frees what an ended session holds.
  function WithoutSession(lock: Option<Held>, session: Session): Option<Held> {
    if lock.Some? && lock.value.session == session then None else lock
  }

  // Events that cannot happen leave the state as it is.
  ghost function Next(s: State, e: Event, pool: Pool): State {
    if e.EndSession? then s.(lock := WithoutSession(s.lock, e.session), ended := s.ended + {e.session})
    else if e.Launch? then
      if e.run in s.runs || !DistinctNames(e.files) then s
      else s.(runs := s.runs[e.run := Run(e.files, Start, map[], 0, 0, 0)])
    else if e.run !in s.runs then s
    else NextOf(s, e, e.run, s.runs[e.run], pool)
  }

  ghost function NextOf(s: State, e: Event, r: RunId, run: Run, pool: Pool): State
    requires !e.Launch? && !e.EndSession?
  {
    match e
    case Lock(_) =>
      if run.pc != Start || pool.lockSession(r) in s.ended || !Grants(s.lock, pool.lockSession(r)) then s
      else s.(lock := Acquire(s.lock, pool.lockSession(r)), runs := s.runs[r := run.(pc := Locked)])
    case Read(_) =>
      if run.pc != Locked then s else s.(runs := s.runs[r := run.(pc := Loop, seen := s.rows)])
    case Treat(_) =>
      if run.pc != Loop then s else s.(runs := s.runs[r := Treated(run)])
    case Insert(_) =>
      if run.pc != Executed || run.next >= |run.files| || Waits(s, r, run.files[run.next].name) then s
      else if run.files[run.next].name in s.rows then s.(runs := s.runs[r := run.(pc := Unlocking(false))])
      else s.(runs := s.runs[r := run.(pc := Inserted)])
    case Commits(_, acknowledged) =>
      if run.pc != Inserted || run.next >= |run.files| then s
      else
        var f := run.files[run.next];
        s.(rows := s.rows[f.name := f.hash],
           log := s.log + [Commit(r, run.next, f)],
           runs := s.runs[r := PastCommit(run, acknowledged)])
    case Fail(_) =>
      s.(runs := s.runs[r := Failed(run)])
    case Unlock(_) =>
      if !run.pc.Unlocking? then s
      else s.(lock := Release(s.lock, pool.unlockSession(r)), runs := s.runs[r := run.(pc := Done(run.pc.ok))])
    case Crash(_) =>
      if run.pc.Done? then s
      else s.(lock := WithoutSession(s.lock, pool.lockSession(r)), runs := s.runs[r := run.(pc := Crashed)])
  }

  function Initial(rows: Rows): State {
    State(rows, [], None, map[], {})
  }

  ghost function Exec(rows: Rows, events: seq<Event>, pool: Pool): State {
    if events == [] then Initial(rows)
    else Next(Exec(rows, events[..|events| - 1], pool), events[|events| - 1], pool)
  }

  // ---- At most once, without the lock ----

  ghost predicate Committed(log: seq<Commit>, name: string) {
    exists k | 0 <= k < |log| :: log[k].file.name == name
  }

  // The rows are those found at first plus one per commit; no name commits twice.
  ghost predicate Recorded(rows: Rows, log: seq<Commit>, first: Rows) {
    && (forall n | n in first :: n in rows && rows[n] == first[n])
    && (forall n | n in rows && n !in first :: Committed(log, n))
    && (forall k | 0 <= k < |log| :: log[k].file.name !in first && HasRow(rows, log[k].file))
    && AtMostOnce(log)
  }

  ghost predicate AtMostOnce(log: seq<Commit>) {
    forall j, k | 0 <= j < k < |log| :: log[j].file.name != log[k].file.name
  }

  predicate HasRow(rows: Rows, f: File) {
    f.name in rows && rows[f.name] == f.hash
  }

  ghost predicate Sound(rows: Rows, run: Run) {
    && DistinctNames(run.files)
    && run.next <= |run.files|
    && (forall n | n in run.seen :: n in rows && rows[n] == run.seen[n])
    && (forall j | 0 <= j < run.next :: HasRow(rows, run.files[j]))
    && (run.pc in {Executed, Inserted} ==> run.next < |run.files|)
    && (run.pc == Inserted ==> run.files[run.next].name !in rows)
    && (run.pc in {Unlocking(true), Done(true)} ==> run.next == |run.files|)
    && (run.pc in {Start, Locked, Loop, Executed, Inserted, Unlocking(true), Done(true)} ==>
          run.applied + run.skipped == run.next)
    && (run.pc in {Start, Locked} ==> run.next == 0)
  }

  ghost predicate AllSound(rows: Rows, runs: map<RunId, Run>) {
    forall r | r in runs :: Sound(rows, runs[r])
  }

  // No two open transactions have inserted the same name.
  ghost predicate NoSharedInsert(runs: map<RunId, Run>) {
    forall q, r, name | q in runs && r in runs && q != r :: !(Reserves(runs[q], name) && Reserves(runs[r], name))
  }

  // A commit belongs to a run that has treated the file.
  predicate Logged(runs: map<RunId, Run>, c: Commit) {
    c.run in runs && c.index < runs[c.run].next <= |runs[c.run].files| && runs[c.run].files[c.index] == c.file
  }

  ghost predicate AllLogged(runs: map<RunId, Run>, log: seq<Commit>) {
    forall k | 0 <= k < |log| :: Logged(runs, log[k])
  }

  ghost predicate Invariant(s: State, first: Rows) {
    && Recorded(s.rows, s.log, first)
    && AllSound(s.rows, s.runs)
    && NoSharedInsert(s.runs)
    && AllLogged(s.runs, s.log)
  }

  lemma SetRun(s: State, first: Rows, r: RunId, run: Run, lock: Option<Held>)
    requires Invariant(s, first) && r in s.runs && Sound(s.rows, run)
    requires run.files == s.runs[r].files && run.next >= s.runs[r].next
    requires run.pc == Inserted ==> !Waits(s, r, run.files[run.next].name)
    ensures Invariant(s.(lock := lock, runs := s.runs[r := run]), first)
  {
    var runs := s.runs[r := run];
    forall q, p, name | q in runs && p in runs && q != p
      ensures !(Reserves(runs[q], name) && Reserves(runs[p], name))
    {
      if q != r && p != r {
        assert !(Reserves(s.runs[q], name) && Reserves(s.runs[p], name));
      }
    }
    forall k | 0 <= k < |s.log|
      ensures Logged(runs, s.log[k])
    {
      assert Logged(s.runs, s.log[k]);
    }
  }

  lemma CommitRecords(rows: Rows, log: seq<Commit>, first: Rows, c: Commit)
    requires Recorded(rows, log, first) && c.file.name !in rows
    ensures Recorded(rows[c.file.name := c.file.hash], log + [c], first)
  {
    var rows', log' := rows[c.file.name := c.file.hash], log + [c];
    assert log'[|log|] == c;
    forall n | n in rows' && n !in first
      ensures Committed(log', n)
    {
      if n != c.file.name {
        var k :| 0 <= k < |log| && log[k].file.name == n;
        assert log'[k] == log[k];
      }
    }
    forall k | 0 <= k < |log'|
      ensures log'[k].file.name !in first && HasRow(rows', log'[k].file)
    {
      if k < |log| {
        assert HasRow(rows, log[k].file);
      }
    }
  }

  lemma SoundAfterCommit(rows: Rows, f: File, run: Run)
    requires Sound(rows, run) && f.name !in rows
    requires !Reserves(run, f.name)
    ensures Sound(rows[f.name := f.hash], run)
  {
  }

  // The committing run itself moves past the file.
  lemma SoundPastCommit(rows: Rows, run: Run, acknowledged: bool)
    requires Sound(rows, run) && run.pc == Inserted
    ensures var f := run.files[run.next];
            Sound(rows[f.name := f.hash], PastCommit(run, acknowledged))
  {
  }

  lemma AllSoundPastCommit(rows: Rows, runs: map<RunId, Run>, r: RunId, acknowledged: bool)
    requires AllSound(rows, runs) && NoSharedInsert(runs) && r in runs && runs[r].pc == Inserted
    ensures var f := runs[r].files[runs[r].next];
            AllSound(rows[f.name := f.hash], runs[r := PastCommit(runs[r], acknowledged)])
  {
    assert Sound(rows, runs[r]);
    var f := runs[r].files[runs[r].next];
    assert Reserves(runs[r], f.name);
    SoundPastCommit(rows, runs[r], acknowledged);
    forall q | q in runs && q != r
      ensures Sound(rows[f.name := f.hash], runs[q])
    {
      SoundAfterCommit(rows, f, runs[q]);
    }
  }

  lemma NoSharedInsertPastCommit(runs: map<RunId, Run>, r: RunId, acknowledged: bool)
    requires NoSharedInsert(runs) && r in runs
    ensures NoSharedInsert(runs[r := PastCommit(runs[r], acknowledged)])
  {
    var runs' := runs[r := PastCommit(runs[r], acknowledged)];
    forall q, p, name | q in runs' && p in runs' && q != p
      ensures !(Reserves(runs'[q], name) && Reserves(runs'[p], name))
    {
      if q != r && p != r {
        assert !(Reserves(runs[q], name) && Reserves(runs[p], name));
      }
    }
  }

  lemma CommitKeeps(s: State, first: Rows, r: RunId, acknowledged: bool, pool: Pool)
    requires Invariant(s, first) && r in s.runs && s.runs[r].pc == Inserted
    ensures Invariant(Next(s, Commits(r, acknowledged), pool), first)
  {
    var run := s.runs[r];
    assert Sound(s.rows, run);
    CommitRecords(s.rows, s.log, first, Commit(r, run.next, run.files[run.next]));
    AllSoundPastCommit(s.rows, s.runs, r, acknowledged);
    NoSharedInsertPastCommit(s.runs, r, acknowledged);
    LoggedPastCommit(s.runs, s.log, r, acknowledged);
    CommitIs(s, r, acknowledged, pool);
  }

  lemma CommitIs(s: State, r: RunId, acknowledged: bool, pool: Pool)
    requires r in s.runs && s.runs[r].pc == Inserted && s.runs[r].next < |s.runs[r].files|
    ensures var run, s' := s.runs[r], Next(s, Commits(r, acknowledged), pool);
            var f := run.files[run.next];
            && s'.rows == s.rows[f.name := f.hash] && s'.log == s.log + [Commit(r, run.next, f)]
            && s'.runs == s.runs[r := PastCommit(run, acknowledged)]
  {
  }

  lemma LoggedPastCommit(runs: map<RunId, Run>, log: seq<Commit>, r: RunId, acknowledged: bool)
    requires AllLogged(runs, log) && r in runs && runs[r].next < |runs[r].files|
    ensures var run := runs[r];
            AllLogged(runs[r := PastCommit(run, acknowledged)], log + [Commit(r, run.next, run.files[run.next])])
  {
    forall k | 0 <= k < |log|
      ensures Logged(runs[r := PastCommit(runs[r], acknowledged)], log[k])
    {
      assert Logged(runs, log[k]);
    }
  }

  lemma TreatedSound(rows: Rows, run: Run)
    requires Sound(rows, run) && run.pc == Loop
    ensures Sound(rows, Treated(run))
  {
  }

  lemma TreatKeeps(s: State, first: Rows, r: RunId, pool: Pool)
    requires Invariant(s, first) && r in s.runs
    ensures Invariant(Next(s, Treat(r), pool), first)
  {
    if s.runs[r].pc == Loop {
      TreatedSound(s.rows, s.runs[r]);
      SetRun(s, first, r, Treated(s.runs[r]), s.lock);
    }
  }

  lemma InsertKeeps(s: State, first: Rows, r: RunId, pool: Pool)
    requires Invariant(s, first) && r in s.runs
    ensures Invariant(Next(s, Insert(r), pool), first)
  {
    var run := s.runs[r];
    assert Sound(s.rows, run);
    if run.pc == Executed && !Waits(s, r, run.files[run.next].name) {
      SetRun(s, first, r, Next(s, Insert(r), pool).runs[r], s.lock);
    }
  }

  lemma LaunchKeeps(s: State, first: Rows, r: RunId, files: seq<File>, pool: Pool)
    requires Invariant(s, first)
    ensures Invariant(Next(s, Launch(r, files), pool), first)
  {
    forall k | 0 <= k < |s.log|
      ensures Logged(Next(s, Launch(r, files), pool).runs, s.log[k])
    {
      assert Logged(s.runs, s.log[k]);
    }
  }

  lemma NextKeeps(s: State, first: Rows, e: Event, pool: Pool)
    requires Invariant(s, first)
    ensures Invariant(Next(s, e, pool), first)
  {
    if e.EndSession? {
    } else if e.Launch? {
      LaunchKeeps(s, first, e.run, e.files, pool);
    } else if e.run in s.runs {
      var r, run := e.run, s.runs[e.run];
      match e
      case Commits(_, acknowledged) =>
        if run.pc == Inserted {
          CommitKeeps(s, first, r, acknowledged, pool);
        }
      case Treat(_) =>
        TreatKeeps(s, first, r, pool);
      case Lock(_) =>
        if run.pc == Start && pool.lockSession(r) !in s.ended && Grants(s.lock, pool.lockSession(r)) {
          SetRun(s, first, r, run.(pc := Locked), Acquire(s.lock, pool.lockSession(r)));
        }
      case Read(_) =>
        if run.pc == Locked {
          SetRun(s, first, r, run.(pc := Loop, seen := s.rows), s.lock);
        }
      case Insert(_) =>
        InsertKeeps(s, first, r, pool);
      case Fail(_) =>
        SetRun(s, first, r, Failed(run), s.lock);
      case Unlock(_) =>
        if run.pc.Unlocking? {
          SetRun(s, first, r, run.(pc := Done(run.pc.ok)), Release(s.lock, pool.unlockSession(r)));
        }
      case Crash(_) =>
        if !run.pc.Done? {
          SetRun(s, first, r, run.(pc := Crashed), Next(s, e, pool).lock);
        }
    }
  }

  lemma {:induction false} ExecKeeps(first: Rows, events: seq<Event>, pool: Pool)
    ensures Invariant(Exec(first, events, pool), first)
  {
    if events != [] {
      var init := events[..|events| - 1];
      ExecKeeps(first, init, pool);
      NextKeeps(Exec(first, init, pool), first, events[|events| - 1], pool);
    }
  }

  // In every state of every run of the system, crashes included and whatever
  // the lock does: each name commits at most once, and a name that was not
  // there at first has a row exactly when it committed, with the hash of the
  // contents that committed.
  lemma CommitsAtMostOnce(first: Rows, events: seq<Event>, pool: Pool)
    ensures var s := Exec(first, events, pool);
            && AtMostOnce(s.log)
            && (forall n | n !in first :: n in s.rows <==> Committed(s.log, n))
            && (forall k | 0 <= k < |s.log| :: HasRow(s.rows, s.log[k].file))
  {
    ExecKeeps(first, events, pool);
  }

  // A run that reports success has every file recorded with its own hash, and
  // its counters add up.
  lemma SuccessRecordsAll(first: Rows, events: seq<Event>, pool: Pool, r: RunId)
    requires var s := Exec(first, events, pool); r in s.runs && s.runs[r].pc == Done(true)
    ensures var s := Exec(first, events, pool);
            var run := s.runs[r];
            && (forall j | 0 <= j < |run.files| :: HasRow(s.rows, run.files[j]))
            && run.applied + run.skipped == |run.files|
  {
    ExecKeeps(first, events, pool);
  }

  // A file whose name has a row with another hash, put there before or by some
  // run: no run has executed that file or one after it, nor succeeds.
  lemma DriftStops(first: Rows, events: seq<Event>, pool: Pool, r: RunId, d: nat)
    requires var s := Exec(first, events, pool);
             && r in s.runs && d < |s.runs[r].files|
             && s.runs[r].files[d].name in s.rows
             && s.rows[s.runs[r].files[d].name] != s.runs[r].files[d].hash
    ensures var s := Exec(first, events, pool);
            && s.runs[r].next <= d && s.runs[r].pc != Done(true)
            && forall k | 0 <= k < |s.log| && s.log[k].run == r :: s.log[k].index < d
  {
    ExecKeeps(first, events, pool);
    var s := Exec(first, events, pool);
    assert Sound(s.rows, s.runs[r]);
    assert !HasRow(s.rows, s.runs[r].files[d]);
    forall k | 0 <= k < |s.log| && s.log[k].run == r
      ensures s.log[k].index < d
    {
      assert Logged(s.runs, s.log[k]);
    }
  }

  // ---- The log is the next stretch of the file list ----

  // Every run was launched with the same files.
  ghost predicate Uniform(events: seq<Event>, files: seq<File>) {
    forall i | 0 <= i < |events| && events[i].Launch? :: events[i].files == files
  }

  // Exactly the first k files have a row.
  ghost predicate PrefixRecorded(rows: Rows, files: seq<File>, k: nat) {
    k <= |files| && forall j | 0 <= j < |files| :: files[j].name in rows <==> j < k
  }

  ghost predicate LogIsStretch(s: State, files: seq<File>, k: nat) {
    && k + |s.log| <= |files|
    && PrefixRecorded(s.rows, files, k + |s.log|)
    && (forall r | r in s.runs :: s.runs[r].files == files)
    && forall j | 0 <= j < |s.log| :: s.log[j].file == files[k + j]
  }

  // The file of an open insert is the first one without a row.
  lemma InsertIsNext(rows: Rows, run: Run, m: nat)
    requires Sound(rows, run) && run.pc == Inserted && PrefixRecorded(rows, run.files, m)
    ensures run.next == m
  {
    assert m < |run.files| ==> !HasRow(rows, run.files[m]);
    assert run.files[run.next].name !in rows;
  }

  lemma PrefixGrows(rows: Rows, files: seq<File>, m: nat)
    requires DistinctNames(files) && PrefixRecorded(rows, files, m) && m < |files|
    ensures PrefixRecorded(rows[files[m].name := files[m].hash], files, m + 1)
  {
  }

  lemma FilesKept(s: State, e: Event, pool: Pool)
    ensures forall r | r in Next(s, e, pool).runs ::
              Next(s, e, pool).runs[r].files ==
              (if e.Launch? && r !in s.runs then e.files else if r in s.runs then s.runs[r].files else [])
    ensures (e.Commits? && e.run in s.runs && s.runs[e.run].pc == Inserted)
            || (Next(s, e, pool).rows == s.rows && Next(s, e, pool).log == s.log)
  {
  }

  lemma StretchCommit(s: State, first: Rows, files: seq<File>, k: nat, r: RunId, acknowledged: bool, pool: Pool)
    requires Invariant(s, first) && LogIsStretch(s, files, k)
    requires r in s.runs && s.runs[r].pc == Inserted
    ensures LogIsStretch(Next(s, Commits(r, acknowledged), pool), files, k)
  {
    var run, m := s.runs[r], k + |s.log|;
    assert Sound(s.rows, run);
    InsertIsNext(s.rows, run, m);
    PrefixGrows(s.rows, files, m);
    StretchGrows(s, files, k, r, PastCommit(run, acknowledged));
  }

  lemma StretchGrows(s: State, files: seq<File>, k: nat, r: RunId, run: Run)
    requires LogIsStretch(s, files, k) && k + |s.log| < |files| && run.files == files
    requires var f := files[k + |s.log|]; PrefixRecorded(s.rows[f.name := f.hash], files, k + |s.log| + 1)
    ensures var f := files[k + |s.log|];
            LogIsStretch(
              s.(rows := s.rows[f.name := f.hash], log := s.log + [Commit(r, k + |s.log|, f)], runs := s.runs[r := run]),
              files, k)
  {
  }

  lemma StretchStep(s: State, first: Rows, files: seq<File>, k: nat, e: Event, pool: Pool)
    requires Invariant(s, first) && LogIsStretch(s, files, k)
    requires e.Launch? ==> e.files == files
    ensures LogIsStretch(Next(s, e, pool), files, k)
  {
    if e.Commits? && e.run in s.runs && s.runs[e.run].pc == Inserted {
      StretchCommit(s, first, files, k, e.run, e.acknowledged, pool);
    } else {
      FilesKept(s, e, pool);
    }
  }

  // If the files recorded at first are a prefix of the sorted list, then under
  // every interleaving, failure and crash the committed files are the next
  // files of the list, in order, without gaps or repeats.
  lemma {:induction false} LogFollowsFileOrder(first: Rows, files: seq<File>, k: nat, events: seq<Event>, pool: Pool)
    requires DistinctNames(files) && PrefixRecorded(first, files, k) && Uniform(events, files)
    ensures LogIsStretch(Exec(first, events, pool), files, k)
  {
    if events != [] {
      var init := events[..|events| - 1];
      assert Uniform(init, files) by {
        assert forall i | 0 <= i < |init| :: init[i] == events[i];
      }
      LogFollowsFileOrder(first, files, k, init, pool);
      ExecKeeps(first, init, pool);
      StretchStep(Exec(first, init, pool), first, files, k, events[|events| - 1], pool);
    }
  }

  // Once a run has succeeded, exactly the remaining files have been executed.
  lemma SuccessExecutesTheRest(first: Rows, files: seq<File>, k: nat, events: seq<Event>, pool: Pool, r: RunId)
    requires DistinctNames(files) && PrefixRecorded(first, files, k) && Uniform(events, files)
    requires var s := Exec(first, events, pool); r in s.runs && s.runs[r].pc == Done(true)
    ensures var s := Exec(first, events, pool);
            |s.log| == |files| - k && forall j | 0 <= j < |s.log| :: s.log[j].file == files[k + j]
  {
    LogFollowsFileOrder(first, files, k, events, pool);
    SuccessRecordsAll(first, events, pool, r);
    var s := Exec(first, events, pool);
    assert k + |s.log| < |files| ==> !HasRow(s.rows, files[k + |s.log|]);
  }

  // ---- What the advisory lock adds ----

  predicate Critical(run: Run) {
    run.pc in {Locked, Loop, Executed, Inserted} || run.pc.Unlocking?
  }

  // At most one run at a time between taking and releasing the lock.
  ghost predicate Exclusive(s: State) {
    forall q, r | q in s.runs && r in s.runs && Critical(s.runs[q]) && Critical(s.runs[r]) :: q == r
  }

  ghost predicate OwnSessions(pool: Pool) {
    forall q: RunId, r: RunId | q != r :: pool.lockSession(q) != pool.lockSession(r)
  }

  // Who is inside holds the lock in its own session, and the lock is held at
  // most once, by a session that took it.
  ghost predicate LockHeld(s: State, pool: Pool) {
    && (forall r | r in s.runs && Critical(s.runs[r]) :: s.lock == Some(Held(pool.lockSession(r), 1)))
    && (s.lock.Some? ==> s.lock.value.depth == 1 && Taken(s, pool))
  }

  ghost predicate Taken(s: State, pool: Pool)
    requires s.lock.Some?
  {
    exists r | r in s.runs :: s.runs[r].pc != Start && pool.lockSession(r) == s.lock.value.session
  }

  lemma TakenKept(s: State, e: Event, pool: Pool)
    requires s.lock.Some? && Taken(s, pool) && Next(s, e, pool).lock == s.lock
    ensures Taken(Next(s, e, pool), pool)
  {
    var r :| r in s.runs && s.runs[r].pc != Start && pool.lockSession(r) == s.lock.value.session;
    var runs := Next(s, e, pool).runs;
    assert r in runs && runs[r].pc != Start;
  }

  // No run that is inside took the lock in that session.
  ghost predicate Unused(s: State, session: Session, pool: Pool) {
    forall r | r in s.runs && Critical(s.runs[r]) :: pool.lockSession(r) != session
  }

  lemma LockHeldStep(s: State, e: Event, pool: Pool)
    requires OwnSessions(pool) && LockHeld(s, pool)
    requires e.EndSession? ==> Unused(s, e.session, pool)
    ensures LockHeld(Next(s, e, pool), pool)
  {
    if e.EndSession? {
      EndingStep(s, e.session, pool);
    } else if e.Launch? || e.run !in s.runs {
      if s.lock.Some? {
        TakenKept(s, e, pool);
      }
    } else if e.Lock? {
      TakingStep(s, e.run, pool);
    } else if e.Unlock? || e.Crash? {
      LeavingStep(s, e, pool);
    } else {
      InsideStep(s, e, pool);
    }
  }

  lemma EndingStep(s: State, session: Session, pool: Pool)
    requires LockHeld(s, pool) && Unused(s, session, pool)
    ensures LockHeld(Next(s, EndSession(session), pool), pool)
  {
    if Next(s, EndSession(session), pool).lock.Some? {
      TakenKept(s, EndSession(session), pool);
    }
  }

  lemma TakingStep(s: State, r: RunId, pool: Pool)
    requires OwnSessions(pool) && LockHeld(s, pool) && r in s.runs
    ensures LockHeld(Next(s, Lock(r), pool), pool)
  {
    var s' := Next(s, Lock(r), pool);
    if s.runs[r].pc == Start && pool.lockSession(r) !in s.ended && Grants(s.lock, pool.lockSession(r)) {
      assert s.lock == None;
      assert s'.runs[r].pc == Locked;
    } else {
      assert s' == s;
    }
  }

  lemma LeavingStep(s: State, e: Event, pool: Pool)
    requires OwnSessions(pool) && LockHeld(s, pool) && (e.Unlock? || e.Crash?) && e.run in s.runs
    ensures LockHeld(Next(s, e, pool), pool)
  {
    var s' := Next(s, e, pool);
    assert forall q | q in s'.runs && Critical(s'.runs[q]) :: Critical(s.runs[q]);
    if s'.lock.Some? {
      TakenKept(s, e, pool);
    }
  }

  lemma InsideStep(s: State, e: Event, pool: Pool)
    requires LockHeld(s, pool) && !e.Launch? && !e.Lock? && !e.Unlock? && !e.Crash? && !e.EndSession?
    requires e.run in s.runs
    ensures LockHeld(Next(s, e, pool), pool)
  {
    var s' := Next(s, e, pool);
    assert s'.lock == s.lock;
    assert forall q | q in s'.runs && Critical(s'.runs[q]) :: Critical(s.runs[q]);
    if s.lock.Some? {
      TakenKept(s, e, pool);
    }
  }

  // The session in which a run took the lock outlives the run's stay inside.
  ghost predicate Outlives(first: Rows, events: seq<Event>, pool: Pool) {
    events != [] ==>
      var init, e := events[..|events| - 1], events[|events| - 1];
      Outlives(first, init, pool) && (e.EndSession? ==> Unused(Exec(first, init, pool), e.session, pool))
  }

  lemma {:induction false} LockHeldAlways(first: Rows, events: seq<Event>, pool: Pool)
    requires OwnSessions(pool) && Outlives(first, events, pool)
    ensures LockHeld(Exec(first, events, pool), pool)
  {
    if events != [] {
      var init := events[..|events| - 1];
      LockHeldAlways(first, init, pool);
      LockHeldStep(Exec(first, init, pool), events[|events| - 1], pool);
    }
  }

  lemma Snoc(first: Rows, events: seq<Event>, e: Event, pool: Pool)
    ensures Exec(first, events + [e], pool) == Next(Exec(first, events, pool), e, pool)
    ensures !e.EndSession? && Outlives(first, events, pool) ==> Outlives(first, events + [e], pool)
  {
    assert (events + [e])[..|events|] == events;
  }

  // Two runs arrive and the first takes the lock.
  lemma FirstTakesLock(first: Rows, pool: Pool, q: RunId, r: RunId) returns (events: seq<Event>)
    requires q != r
    ensures Outlives(first, events, pool)
    ensures var s := Exec(first, events, pool);
            && s.runs.Keys == {q, r} && s.runs[q].pc == Locked && s.runs[r].pc == Start
            && s.lock == Some(Held(pool.lockSession(q), 1)) && s.ended == {}
  {
    events := [];
    Snoc(first, events, Launch(q, []), pool);
    events := events + [Launch(q, [])];
    Snoc(first, events, Launch(r, []), pool);
    events := events + [Launch(r, [])];
    Snoc(first, events, Lock(q), pool);
    events := events + [Lock(q)];
  }

  // Two runs that share a session both get in.
  lemma SharedSessionLetsBothIn(first: Rows, pool: Pool, q: RunId, r: RunId) returns (events: seq<Event>)
    requires q != r && pool.lockSession(q) == pool.lockSession(r)
    ensures Outlives(first, events, pool) && !Exclusive(Exec(first, events, pool))
  {
    events := FirstTakesLock(first, pool, q, r);
    Snoc(first, events, Lock(r), pool);
    events := events + [Lock(r)];
    var s := Exec(first, events, pool);
    assert Critical(s.runs[q]) && Critical(s.runs[r]);
  }

  // So do two runs with sessions of their own when the first loses the session
  // in which it took the lock, and goes on in others.
  lemma LostSessionLetsBothIn(first: Rows, pool: Pool, q: RunId, r: RunId) returns (events: seq<Event>)
    requires q != r && pool.lockSession(q) != pool.lockSession(r)
    ensures !Outlives(first, events, pool) && !Exclusive(Exec(first, events, pool))
  {
    var before := FirstTakesLock(first, pool, q, r);
    var lost := EndSession(pool.lockSession(q));
    Snoc(first, before, lost, pool);
    assert Critical(Exec(first, before, pool).runs[q]);
    assert (before + [lost])[..|before|] == before;
    Snoc(first, before + [lost], Lock(r), pool);
    events := before + [lost] + [Lock(r)];
    assert events[..|events| - 1] == before + [lost];
    var s := Exec(first, events, pool);
    assert Critical(s.runs[q]) && Critical(s.runs[r]);
  }

  // As long as locking sessions outlive the runs, the lock serialises every
  // system of runs exactly when no two runs take it in the same session. In
  // which session they release it does not matter.
  lemma ExclusiveIffOwnSessions(first: Rows, pool: Pool)
    ensures (forall events | Outlives(first, events, pool) :: Exclusive(Exec(first, events, pool))) <==> OwnSessions(pool)
  {
    if OwnSessions(pool) {
      forall events | Outlives(first, events, pool)
        ensures Exclusive(Exec(first, events, pool))
      {
        LockHeldAlways(first, events, pool);
      }
    } else {
      var q: RunId, r: RunId :| q != r && pool.lockSession(q) == pool.lockSession(r);
      var events := SharedSessionLetsBothIn(first, pool, q, r);
    }
  }

  // A run that crashes inside leaves the lock free: its session dies with it.
  lemma CrashFrees(first: Rows, events: seq<Event>, pool: Pool, r: RunId)
    requires OwnSessions(pool) && Outlives(first, events, pool)
    requires var s := Exec(first, events, pool); r in s.runs && Critical(s.runs[r])
    ensures var s := Next(Exec(first, events, pool), Crash(r), pool);
            s.lock == None && s.runs[r].pc == Crashed && s.rows == Exec(first, events, pool).rows
  {
    LockHeldAlways(first, events, pool);
  }

  // A finishing run leaves the lock free for the others exactly when it
  // releases it in the session that took it, or when that session has ended.
  lemma FreedIffSameSession(first: Rows, events: seq<Event>, pool: Pool, r: RunId, lost: bool)
    requires OwnSessions(pool) && Outlives(first, events, pool)
    requires var s := Exec(first, events, pool); r in s.runs && s.runs[r].pc.Unlocking?
    ensures var s := Exec(first, events, pool);
            var s' := if lost then Next(s, EndSession(pool.lockSession(r)), pool) else s;
            Next(s', Unlock(r), pool).lock == None <==> lost || pool.unlockSession(r) == pool.lockSession(r)
  {
    LockHeldAlways(first, events, pool);
  }
}
