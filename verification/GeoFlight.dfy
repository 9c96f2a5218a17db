/**
 * Concurrent calls of the airport coordinate cache in app/services/geo.go.
 *
 * Goroutines interleave at the lock operations, the three assignments of the
 * swap, the reads of a batch, the start and the end of a singleflight call and
 * the answer of the source. A table field is named by the rows it indexes;
 * GeoIndex proves what an index of given rows answers.
 */
module GeoFlight {
  import opened Prelude
  import opened GeoIndex

  type Thread = nat

  type Rows = seq<Coord>

  datatype Table = Table(iata: Rows, icao: Rows, loadedAt: Option<int>)

  datatype Response = Response(rows: Rows, at: int)

  // Lookup and LookupICAO ask for one code, Resolve for several, Warm for none. A
  // Resolve of no codes and a lookup of a blank one return before they get here.
  datatype Query = Query(kind: Kind, codes: seq<string>)

  // What ensureLoaded read, how many responses had been stored by then, and
  // whether the call could still join a flight that had stored its response
  // before. Warm makes no check and gets no promise.
  datatype Check = Check(at: int, seen: Option<int>, version: nat, lingering: bool)

  datatype Outcome = FoundFresh | Refreshed | RefreshFailed

  datatype Call =
    | Asking(query: Query)
    | Wanting(query: Query, check: Check)
    | Fetching(query: Query, check: Check)
    | Built(query: Query, check: Check, rows: Rows)
    | Writing(query: Query, check: Check, rows: Rows, stage: nat)
    | Landing(query: Query, check: Check, ok: bool)
    | Joined(query: Query, check: Check)
    | Ready(query: Query, check: Check, outcome: Outcome)
    | Reading(query: Query, check: Check, outcome: Outcome, version: nat, answers: seq<Option<Coord>>)
    | Done(query: Query, check: Check, outcome: Outcome, version: nat, answers: seq<Option<Coord>>)

  datatype Config = Config(ttl: int, hasSource: bool)

  datatype State = State(
    now: int,
    table: Table,
    writer: Option<Thread>,
    readers: set<Thread>,
    flight: Option<Thread>,
    calls: map<Thread, Call>,
    stored: seq<Response>)

  datatype Event =
    | Tick(elapsed: nat)
    | Warm(thread: Thread)
    | Ask(thread: Thread, query: Query)
    | CheckAge(thread: Thread)
    | Join(thread: Thread)
    | SourceAnswers(thread: Thread, rows: Rows)
    | SourceFails(thread: Thread)
    | LockWrite(thread: Thread)
    | Write(thread: Thread)
    | Land(thread: Thread)
    | LockRead(thread: Thread)
    | ReadOne(thread: Thread)
    | UnlockRead(thread: Thread)

  predicate Stale(seen: Option<int>, now: int, ttl: int) {
    seen == None || now - seen.value >= ttl
  }

  // The flight has stored its response but is still registered.
  predicate Swapped(s: State) {
    s.flight.Some? && s.flight.value in s.calls
    && match s.calls[s.flight.value]
       case Writing(_, _, _, stage) => stage == 3
       case Landing(_, _, ok) => ok
       case _ => false
  }

  // The next call would find the table too old and still join that flight.
  predicate Lingers(s: State, cfg: Config) {
    Swapped(s) && Stale(s.table.loadedAt, s.now, cfg.ttl) && cfg.hasSource
  }

  function CheckNow(s: State, cfg: Config): Check {
    Check(s.now, s.table.loadedAt, |s.stored|, Lingers(s, cfg))
  }

  function Set(s: State, t: Thread, c: Call): State {
    s.(calls := s.calls[t := c])
  }

  // Events that cannot happen leave the state as it is.
  function Next(s: State, e: Event, cfg: Config): State {
    match e
    case Tick(elapsed) => s.(now := s.now + elapsed)
    case Warm(t) =>
      if t in s.calls then s else Set(s, t, Wanting(Query(Iata, []), CheckNow(s, cfg).(lingering := true)))
    case Ask(t, q) =>
      if t in s.calls || q.codes == [] then s else Set(s, t, Asking(q))
    case _ => if e.thread in s.calls then Step(s, e, e.thread, s.calls[e.thread], cfg) else s
  }

  function Step(s: State, e: Event, t: Thread, c: Call, cfg: Config): State
    requires !e.Tick? && !e.Warm? && !e.Ask?
  {
    match e
    case CheckAge(_) =>
      if !c.Asking? || s.writer.Some? then s
      else if Stale(s.table.loadedAt, s.now, cfg.ttl) then Set(s, t, Wanting(c.query, CheckNow(s, cfg)))
      else Set(s, t, Ready(c.query, CheckNow(s, cfg), FoundFresh))
    case Join(_) =>
      if !c.Wanting? then s
      else if !cfg.hasSource then Set(s, t, Ready(c.query, c.check, RefreshFailed))
      else if s.flight.Some? then Set(s, t, Joined(c.query, c.check))
      else Set(s, t, Fetching(c.query, c.check)).(flight := Some(t))
    case SourceAnswers(_, rows) =>
      if !c.Fetching? then s else Set(s, t, Built(c.query, c.check, rows))
    case SourceFails(_) =>
      if !c.Fetching? then s else Set(s, t, Landing(c.query, c.check, false))
    case LockWrite(_) =>
      if !c.Built? || s.writer.Some? || s.readers != {} then s
      else Set(s, t, Writing(c.query, c.check, c.rows, 0)).(writer := Some(t))
    case Write(_) =>
      if !c.Writing? then s else WriteStage(s, t, c)
    case Land(_) =>
      if !c.Landing? then s else s.(flight := None, calls := Landed(s.calls, t, if c.ok then Refreshed else RefreshFailed))
    case LockRead(_) =>
      if !c.Ready? || s.writer.Some? then s
      else Set(s, t, Reading(c.query, c.check, c.outcome, |s.stored|, [])).(readers := s.readers + {t})
    case ReadOne(_) =>
      if !c.Reading? || |c.answers| >= |c.query.codes| then s
      else
        var answers := c.answers + [Answer(s.table, c.query, |c.answers|)];
        Set(s, t, Reading(c.query, c.check, c.outcome, c.version, answers))
    case UnlockRead(_) =>
      if !c.Reading? || |c.answers| < |c.query.codes| then s
      else Set(s, t, Done(c.query, c.check, c.outcome, c.version, c.answers)).(readers := s.readers - {t})
    case _ => s
  }

  // The swap: three assignments under the write lock, then the unlock.
  function WriteStage(s: State, t: Thread, c: Call): State
    requires c.Writing?
  {
    var s' := Set(s, t, c.(stage := c.stage + 1));
    if c.stage == 0 then s'.(table := s.table.(iata := c.rows))
    else if c.stage == 1 then s'.(table := s.table.(icao := c.rows))
    else if c.stage == 2 then
      s'.(table := s.table.(loadedAt := Some(s.now)), stored := s.stored + [Response(c.rows, s.now)])
    else Set(s, t, Landing(c.query, c.check, true)).(writer := None)
  }

  // The flight is removed and everyone who waited for it gets its outcome.
  function Landed(calls: map<Thread, Call>, leader: Thread, outcome: Outcome): map<Thread, Call> {
    map t | t in calls ::
      if (t == leader && calls[t].Landing?) || calls[t].Joined?
      then Ready(calls[t].query, calls[t].check, outcome) else calls[t]
  }

  function Answer(table: Table, q: Query, i: nat): Option<Coord>
    requires i < |q.codes|
  {
    var code := NormalizeCode(q.codes[i]);
    if code == "" then None
    else Scan(match q.kind case Iata => table.iata case Icao => table.icao, q.kind, code)
  }

  function Initial(now: int): State {
    State(now, Table([], [], None), None, {}, None, map[], [])
  }

  function Exec(s: State, events: seq<Event>, cfg: Config): State {
    if events == [] then s else Next(Exec(s, events[..|events| - 1], cfg), events[|events| - 1], cfg)
  }

  // ---- What every reachable state satisfies ----

  // The table after the first v responses.
  function TableAt(stored: seq<Response>, v: nat): Table
    requires v <= |stored|
  {
    if v == 0 then Table([], [], None) else Table(stored[v - 1].rows, stored[v - 1].rows, Some(stored[v - 1].at))
  }

  predicate Leads(c: Call) {
    c.Fetching? || c.Built? || c.Writing? || c.Landing?
  }

  // One leader, registered; whoever waits, waits for it.
  ghost predicate FlightOk(s: State, cfg: Config) {
    && (forall t | t in s.calls :: Leads(s.calls[t]) <==> s.flight == Some(t))
    && (s.flight.Some? ==> s.flight.value in s.calls && cfg.hasSource)
    && (forall t | t in s.calls && s.calls[t].Joined? :: s.flight.Some?)
  }

  ghost predicate LocksOk(s: State) {
    && (forall t | t in s.calls :: s.calls[t].Writing? <==> s.writer == Some(t))
    && (s.writer.Some? ==> s.writer.value in s.calls && s.readers == {})
    && (forall t :: t in s.readers <==> t in s.calls && s.calls[t].Reading?)
  }

  // Unlocked, the table is that of the last response; a writer is part of the
  // way from there to its own.
  ghost predicate TableOk(s: State) {
    var last := TableAt(s.stored, |s.stored|);
    if s.writer.Some? && s.writer.value in s.calls && s.calls[s.writer.value].Writing? then
      var c := s.calls[s.writer.value];
      && c.stage <= 3
      && (c.stage == 3 ==> s.table == last && s.stored != [] && s.stored[|s.stored| - 1].rows == c.rows)
      && (c.stage < 3 ==>
            && s.table.iata == (if c.stage > 0 then c.rows else last.iata)
            && s.table.icao == (if c.stage > 1 then c.rows else last.icao)
            && s.table.loadedAt == last.loadedAt)
    else s.table == last
  }

  ghost predicate TimesOk(s: State) {
    && (forall i, j | 0 <= i < j < |s.stored| :: s.stored[i].at <= s.stored[j].at)
    && (forall i | 0 <= i < |s.stored| :: s.stored[i].at <= s.now)
    && s.table.loadedAt == TableAt(s.stored, |s.stored|).loadedAt
  }

  predicate HasCheck(c: Call) {
    !c.Asking?
  }

  ghost predicate CheckOk(stored: seq<Response>, now: int, check: Check) {
    check.version <= |stored| && check.at <= now && check.seen == TableAt(stored, check.version).loadedAt
  }

  // The check found the table young enough.
  predicate Young(check: Check, cfg: Config) {
    !Stale(check.seen, check.at, cfg.ttl)
  }

  // With the outcome known, the table of `version` responses is good enough.
  predicate Good(check: Check, outcome: Outcome, version: nat, cfg: Config) {
    Young(check, cfg) || version > check.version || outcome == RefreshFailed
  }

  ghost predicate AnswersOk(stored: seq<Response>, c: Call)
    requires c.Reading? || c.Done?
  {
    && c.check.version <= c.version <= |stored|
    && |c.answers| <= |c.query.codes|
    && forall i | 0 <= i < |c.answers| :: c.answers[i] == Answer(TableAt(stored, c.version), c.query, i)
  }

  ghost predicate CallOk(s: State, c: Call, cfg: Config) {
    && (HasCheck(c) ==> CheckOk(s.stored, s.now, c.check))
    && (c.Wanting? || c.Joined? ==> c.check.lingering || !Swapped(s) || |s.stored| > c.check.version)
    && ((c.Landing? && c.ok) || (c.Writing? && c.stage == 3) ==> |s.stored| > c.check.version)
    && (c.Ready? ==> c.check.lingering || Good(c.check, c.outcome, |s.stored|, cfg))
    && (c.Reading? ==> c.version == |s.stored|)
    && (c.Reading? || c.Done? ==> AnswersOk(s.stored, c) && (c.check.lingering || Good(c.check, c.outcome, c.version, cfg)))
    && (c.Done? ==> |c.answers| == |c.query.codes|)
  }

  ghost predicate Invariant(s: State, cfg: Config) {
    && FlightOk(s, cfg) && LocksOk(s) && TableOk(s) && TimesOk(s)
    && forall t | t in s.calls :: CallOk(s, s.calls[t], cfg)
  }

  // ---- Every step keeps the invariant ----

  lemma StoredGrows(s: State, e: Event, cfg: Config)
    ensures |s.stored| <= |Next(s, e, cfg).stored| && s.now <= Next(s, e, cfg).now
    ensures forall v | 0 <= v <= |s.stored| :: TableAt(Next(s, e, cfg).stored, v) == TableAt(s.stored, v)
  {
  }

  lemma FlightStep(s: State, e: Event, cfg: Config)
    requires FlightOk(s, cfg)
    ensures FlightOk(Next(s, e, cfg), cfg)
  {
  }

  lemma LocksStep(s: State, e: Event, cfg: Config)
    requires LocksOk(s)
    ensures LocksOk(Next(s, e, cfg))
  {
  }

  lemma TableStep(s: State, e: Event, cfg: Config)
    requires LocksOk(s) && TableOk(s)
    ensures TableOk(Next(s, e, cfg))
  {
    if e.Write? && e.thread in s.calls && s.calls[e.thread].Writing? {
      TableAfterWrite(s, e.thread);
    } else {
      TableUntouched(s, e, cfg);
    }
  }

  lemma TableAfterWrite(s: State, t: Thread)
    requires LocksOk(s) && TableOk(s) && t in s.calls && s.calls[t].Writing?
    ensures TableOk(WriteStage(s, t, s.calls[t]))
  {
  }

  lemma TableUntouched(s: State, e: Event, cfg: Config)
    requires LocksOk(s) && TableOk(s)
    requires e.Write? && e.thread in s.calls ==> !s.calls[e.thread].Writing?
    ensures TableOk(Next(s, e, cfg))
  {
    var s' := Next(s, e, cfg);
    assert s'.table == s.table && s'.stored == s.stored;
  }

  lemma TimesStep(s: State, e: Event, cfg: Config)
    requires TimesOk(s) && TableOk(s)
    ensures TimesOk(Next(s, e, cfg))
  {
    var s' := Next(s, e, cfg);
    if e.Write? && e.thread in s.calls && s.calls[e.thread].Writing? {
      TimesAfterWrite(s, e.thread);
    } else {
      assert s'.stored == s.stored && s'.table == s.table && s.now <= s'.now;
    }
  }

  lemma TimesAfterWrite(s: State, t: Thread)
    requires TimesOk(s) && t in s.calls && s.calls[t].Writing?
    ensures TimesOk(WriteStage(s, t, s.calls[t]))
  {
  }

  // A flight becomes lingering only by storing its response, and a response is
  // stored only while nobody reads.
  lemma SwapStep(s: State, e: Event, cfg: Config)
    requires FlightOk(s, cfg) && LocksOk(s) && TableOk(s)
    ensures var s' := Next(s, e, cfg);
            && (Swapped(s') ==> Swapped(s) || |s'.stored| > |s.stored|)
            && (|s'.stored| > |s.stored| ==> s.readers == {})
  {
  }

  // A call that a step of another call does not touch.
  lemma OtherCallOk(s: State, s': State, c: Call, cfg: Config)
    requires CallOk(s, c, cfg) && |s.stored| <= |s'.stored| && s.now <= s'.now
    requires forall v | 0 <= v <= |s.stored| :: TableAt(s'.stored, v) == TableAt(s.stored, v)
    requires Swapped(s') ==> Swapped(s) || |s'.stored| > |s.stored|
    requires c.Reading? ==> |s'.stored| == |s.stored|
    ensures CallOk(s', c, cfg)
  {
  }

  // Those that a landing flight releases.
  lemma ReleasedCallOk(s: State, e: Event, t: Thread, cfg: Config)
    requires Invariant(s, cfg) && e.Land? && t in s.calls
    requires Next(s, e, cfg).calls[t] != s.calls[t]
    ensures CallOk(Next(s, e, cfg), Next(s, e, cfg).calls[t], cfg)
  {
    assert CallOk(s, s.calls[t], cfg);
    assert s.flight == Some(e.thread) && e.thread in s.calls;
    assert CallOk(s, s.calls[e.thread], cfg);
  }

  // The call that makes the step: up to joining a flight, ...
  lemma CheckedCallOk(s: State, e: Event, cfg: Config)
    requires Invariant(s, cfg) && (e.Warm? || e.Ask? || e.CheckAge? || e.Join?)
    requires var s' := Next(s, e, cfg);
             e.thread in s'.calls && (e.thread !in s.calls || s'.calls[e.thread] != s.calls[e.thread])
    ensures CallOk(Next(s, e, cfg), Next(s, e, cfg).calls[e.thread], cfg)
  {
    if e.thread in s.calls {
      assert CallOk(s, s.calls[e.thread], cfg);
    }
  }

  // ... leading it, ...
  lemma LeadingCallOk(s: State, e: Event, cfg: Config)
    requires Invariant(s, cfg) && (e.SourceAnswers? || e.SourceFails? || e.LockWrite? || e.Write?)
    requires e.thread in s.calls
    ensures CallOk(Next(s, e, cfg), Next(s, e, cfg).calls[e.thread], cfg)
  {
    assert CallOk(s, s.calls[e.thread], cfg);
    SwapStep(s, e, cfg);
    StoredGrows(s, e, cfg);
  }

  // ... and reading.
  lemma ReadingCallOk(s: State, e: Event, cfg: Config)
    requires Invariant(s, cfg) && (e.LockRead? || e.ReadOne? || e.UnlockRead?)
    requires e.thread in s.calls
    ensures CallOk(Next(s, e, cfg), Next(s, e, cfg).calls[e.thread], cfg)
  {
    assert CallOk(s, s.calls[e.thread], cfg);
    if e.ReadOne? && s.calls[e.thread].Reading? {
      assert e.thread in s.readers && s.writer == None;
      if |s.calls[e.thread].answers| < |s.calls[e.thread].query.codes| {
        AnswersGrow(s.stored, s.calls[e.thread]);
      }
    }
  }

  function WithAnswer(stored: seq<Response>, c: Call): (d: Call)
    requires c.Reading? && c.version <= |stored| && |c.answers| < |c.query.codes|
    ensures d.Reading?
  {
    var answer := Answer(TableAt(stored, c.version), c.query, |c.answers|);
    Reading(c.query, c.check, c.outcome, c.version, c.answers + [answer])
  }

  lemma AnswersGrow(stored: seq<Response>, c: Call)
    requires c.Reading? && AnswersOk(stored, c) && |c.answers| < |c.query.codes|
    ensures AnswersOk(stored, WithAnswer(stored, c))
  {
    var d := WithAnswer(stored, c);
    forall i | 0 <= i < |d.answers|
      ensures d.answers[i] == Answer(TableAt(stored, d.version), d.query, i)
    {
      assert i < |c.answers| ==> d.answers[i] == c.answers[i];
    }
  }

  lemma OnlyOwnCallMoves(s: State, e: Event, t: Thread, cfg: Config)
    requires t in Next(s, e, cfg).calls && !e.Land?
    requires t !in s.calls || Next(s, e, cfg).calls[t] != s.calls[t]
    ensures !e.Tick? && e.thread == t && (e.Warm? || e.Ask? || t in s.calls)
  {
  }

  lemma MovedCallOk(s: State, e: Event, t: Thread, cfg: Config)
    requires Invariant(s, cfg) && t in Next(s, e, cfg).calls && !e.Land?
    requires t !in s.calls || Next(s, e, cfg).calls[t] != s.calls[t]
    ensures CallOk(Next(s, e, cfg), Next(s, e, cfg).calls[t], cfg)
  {
    OnlyOwnCallMoves(s, e, t, cfg);
    if e.Warm? || e.Ask? || e.CheckAge? || e.Join? {
      CheckedCallOk(s, e, cfg);
    } else if e.LockRead? || e.ReadOne? || e.UnlockRead? {
      ReadingCallOk(s, e, cfg);
    } else {
      LeadingCallOk(s, e, cfg);
    }
  }

  lemma CallsStep(s: State, e: Event, t: Thread, cfg: Config)
    requires Invariant(s, cfg) && t in Next(s, e, cfg).calls
    ensures CallOk(Next(s, e, cfg), Next(s, e, cfg).calls[t], cfg)
  {
    if t in s.calls && Next(s, e, cfg).calls[t] == s.calls[t] {
      StoredGrows(s, e, cfg);
      SwapStep(s, e, cfg);
      OtherCallOk(s, Next(s, e, cfg), s.calls[t], cfg);
    } else if e.Land? {
      ReleasedCallOk(s, e, t, cfg);
    } else {
      MovedCallOk(s, e, t, cfg);
    }
  }

  lemma NextKeeps(s: State, e: Event, cfg: Config)
    requires Invariant(s, cfg)
    ensures Invariant(Next(s, e, cfg), cfg)
  {
    FlightStep(s, e, cfg);
    LocksStep(s, e, cfg);
    TableStep(s, e, cfg);
    TimesStep(s, e, cfg);
    forall t | t in Next(s, e, cfg).calls
      ensures CallOk(Next(s, e, cfg), Next(s, e, cfg).calls[t], cfg)
    {
      CallsStep(s, e, t, cfg);
    }
  }

  lemma {:induction false} ExecKeeps(s: State, events: seq<Event>, cfg: Config)
    requires Invariant(s, cfg)
    ensures Invariant(Exec(s, events, cfg), cfg)
  {
    if events != [] {
      ExecKeeps(s, events[..|events| - 1], cfg);
      NextKeeps(Exec(s, events[..|events| - 1], cfg), events[|events| - 1], cfg);
    }
  }

  function Reached(now: int, events: seq<Event>, cfg: Config): State {
    Exec(Initial(now), events, cfg)
  }

  // At most one call to the source is under way.
  lemma OneSourceCall(now: int, events: seq<Event>, cfg: Config, t: Thread, u: Thread)
    requires var s := Reached(now, events, cfg);
             t in s.calls && u in s.calls && s.calls[t].Fetching? && s.calls[u].Fetching?
    ensures t == u
  {
    ExecKeeps(Initial(now), events, cfg);
  }

  // Whoever can take the lock finds both tables and the time of one response,
  // the last one stored, or the initial empty tables.
  lemma TablesAgree(now: int, events: seq<Event>, cfg: Config)
    ensures var s := Reached(now, events, cfg);
            s.writer == None ==> s.table == TableAt(s.stored, |s.stored|)
  {
    ExecKeeps(Initial(now), events, cfg);
  }

  // The rows of the last of the first v responses.
  function RowsAt(stored: seq<Response>, v: nat): Rows
    requires v <= |stored|
  {
    if v == 0 then [] else stored[v - 1].rows
  }

  // Every code of the query is answered from these rows.
  ghost predicate AllFrom(rows: Rows, q: Query, answers: seq<Option<Coord>>) {
    |answers| == |q.codes|
    && forall i | 0 <= i < |q.codes| :: IsAnswer(rows, q.kind, NormalizeCode(q.codes[i]), answers[i])
  }

  lemma AnswerFrom(table: Table, rows: Rows, q: Query, i: nat)
    requires i < |q.codes| && table.iata == rows && table.icao == rows
    ensures IsAnswer(rows, q.kind, NormalizeCode(q.codes[i]), Answer(table, q, i))
  {
    AnswerIs(rows, q.kind, NormalizeCode(q.codes[i]), Answer(table, q, i));
  }

  // All answers of a call come from the table of one response, which was
  // current at some moment of the call; a call whose check met no lingering
  // flight used a table that was young when checked or newer than the check,
  // or its refresh failed.
  lemma AnswersAreCurrent(now: int, events: seq<Event>, cfg: Config, t: Thread)
    requires var s := Reached(now, events, cfg); t in s.calls && s.calls[t].Done?
    ensures var s := Reached(now, events, cfg);
            var c := s.calls[t];
            && c.check.version <= c.version <= |s.stored|
            && AllFrom(RowsAt(s.stored, c.version), c.query, c.answers)
            && (|| c.check.lingering
                || c.version > c.check.version
                || c.outcome == RefreshFailed
                || (c.version > 0 && c.check.at - s.stored[c.version - 1].at < cfg.ttl))
  {
    ExecKeeps(Initial(now), events, cfg);
    var s := Reached(now, events, cfg);
    assert CallOk(s, s.calls[t], cfg);
    DoneIsAnswered(s.stored, s.calls[t]);
  }

  lemma DoneIsAnswered(stored: seq<Response>, c: Call)
    requires c.Done? && AnswersOk(stored, c) && |c.answers| == |c.query.codes|
    ensures AllFrom(RowsAt(stored, c.version), c.query, c.answers)
  {
    forall i | 0 <= i < |c.query.codes|
      ensures IsAnswer(RowsAt(stored, c.version), c.query.kind, NormalizeCode(c.query.codes[i]), c.answers[i])
    {
      AnswerFrom(TableAt(stored, c.version), RowsAt(stored, c.version), c.query, i);
    }
  }

  // A failed source call changes no table, and the load time never goes back.
  lemma LoadTimesNeverDecrease(s: State, e: Event, cfg: Config)
    requires Invariant(s, cfg)
    ensures var s' := Next(s, e, cfg);
            && (e.SourceFails? || e.Land? ==> s'.table == s.table)
            && (s.table.loadedAt.Some? ==>
                  s'.table.loadedAt.Some? && s.table.loadedAt.value <= s'.table.loadedAt.value)
  {
    assert s.stored != [] ==> s.stored[|s.stored| - 1].at <= s.now;
  }

  // ---- Where the tables and the outcomes come from ----

  ghost predicate Given(events: seq<Event>, rows: Rows) {
    exists i | 0 <= i < |events| :: events[i].SourceAnswers? && events[i].rows == rows
  }

  ghost predicate SomeFailure(events: seq<Event>) {
    exists i | 0 <= i < |events| :: events[i].SourceFails?
  }

  predicate Failing(c: Call) {
    (c.Landing? && !c.ok) || ((c.Ready? || c.Reading? || c.Done?) && c.outcome == RefreshFailed)
  }

  ghost predicate CallSourced(events: seq<Event>, c: Call, cfg: Config) {
    && (c.Built? || c.Writing? ==> Given(events, c.rows))
    && (Failing(c) ==> SomeFailure(events) || !cfg.hasSource)
  }

  ghost predicate AllSourced(events: seq<Event>, s: State, cfg: Config) {
    && (forall t | t in s.calls :: CallSourced(events, s.calls[t], cfg))
    && (forall k | 0 <= k < |s.stored| :: Given(events, s.stored[k].rows))
  }

  lemma GivenMore(events: seq<Event>, e: Event, rows: Rows)
    ensures Given(events, rows) ==> Given(events + [e], rows)
    ensures e.SourceAnswers? && e.rows == rows ==> Given(events + [e], rows)
    ensures SomeFailure(events) || e.SourceFails? ==> SomeFailure(events + [e])
  {
    var more := events + [e];
    assert more[|events|] == e && forall i | 0 <= i < |events| :: more[i] == events[i];
  }

  lemma CallStaysSourced(events: seq<Event>, e: Event, c: Call, cfg: Config)
    requires CallSourced(events, c, cfg)
    ensures CallSourced(events + [e], c, cfg)
  {
    GivenMore(events, e, if c.Built? || c.Writing? then c.rows else []);
  }

  lemma OwnCallSourced(events: seq<Event>, s: State, e: Event, cfg: Config)
    requires AllSourced(events, s, cfg) && !e.Tick? && !e.Land? && e.thread in Next(s, e, cfg).calls
    ensures CallSourced(events + [e], Next(s, e, cfg).calls[e.thread], cfg)
  {
    if e.thread in s.calls {
      CallStaysSourced(events, e, s.calls[e.thread], cfg);
    }
    GivenMore(events, e, if e.SourceAnswers? then e.rows else []);
  }

  lemma LandedSourced(events: seq<Event>, s: State, e: Event, t: Thread, cfg: Config)
    requires AllSourced(events, s, cfg) && e.Land? && t in s.calls
    ensures CallSourced(events + [e], Next(s, e, cfg).calls[t], cfg)
  {
    CallStaysSourced(events, e, s.calls[t], cfg);
    if e.thread in s.calls {
      CallStaysSourced(events, e, s.calls[e.thread], cfg);
    }
  }

  lemma SourcedStep(events: seq<Event>, s: State, e: Event, cfg: Config)
    requires AllSourced(events, s, cfg)
    ensures AllSourced(events + [e], Next(s, e, cfg), cfg)
  {
    var s' := Next(s, e, cfg);
    forall t | t in s'.calls
      ensures CallSourced(events + [e], s'.calls[t], cfg)
    {
      if t in s.calls && s'.calls[t] == s.calls[t] {
        CallStaysSourced(events, e, s.calls[t], cfg);
      } else if e.Land? {
        LandedSourced(events, s, e, t, cfg);
      } else {
        OnlyOwnCallMoves(s, e, t, cfg);
        OwnCallSourced(events, s, e, cfg);
      }
    }
    StoringStep(s, e, cfg);
    forall k | 0 <= k < |s'.stored|
      ensures Given(events + [e], s'.stored[k].rows)
    {
      assert k == |s.stored| ==> CallSourced(events, s.calls[e.thread], cfg);
      GivenMore(events, e, s'.stored[k].rows);
    }
  }

  // Responses are only added, one at a time, by the call that writes it and with
  // the time of the step.
  lemma StoringStep(s: State, e: Event, cfg: Config)
    ensures var s' := Next(s, e, cfg);
            s'.stored != s.stored ==>
              && e.Write? && e.thread in s.calls && s.calls[e.thread].Writing?
              && s'.stored == s.stored + [Response(s.calls[e.thread].rows, s.now)]
              && s'.table.loadedAt == Some(s.now)
  {
  }

  // Every stored response is one that the source gave, and a refresh is reported
  // as failed only when the source failed or there is none.
  lemma {:induction false} ResponsesAreTheSources(now: int, events: seq<Event>, cfg: Config)
    ensures AllSourced(events, Reached(now, events, cfg), cfg)
  {
    if events != [] {
      var init := events[..|events| - 1];
      ResponsesAreTheSources(now, init, cfg);
      SourcedStep(init, Reached(now, init, cfg), events[|events| - 1], cfg);
      assert init + [events[|events| - 1]] == events;
    }
  }

  // The check of a call was made in the state after some of the events: its time,
  // the load time it saw and the number of responses stored are those of then.
  ghost predicate CheckedAt(now: int, events: seq<Event>, cfg: Config, k: nat, check: Check)
    requires k <= |events|
  {
    var s := Reached(now, events[..k], cfg);
    check.at == s.now && check.seen == s.table.loadedAt && check.version == |s.stored|
  }

  lemma {:induction false} CheckWasMade(now: int, events: seq<Event>, cfg: Config, t: Thread) returns (k: nat)
    requires var s := Reached(now, events, cfg); t in s.calls && HasCheck(s.calls[t])
    ensures k < |events| && (events[k] == CheckAge(t) || events[k] == Warm(t))
    ensures CheckedAt(now, events, cfg, k, Reached(now, events, cfg).calls[t].check)
  {
    var n := |events| - 1;
    var before := Reached(now, events[..n], cfg);
    if t in before.calls && HasCheck(before.calls[t]) {
      CheckKept(before, events[n], t, cfg);
      k := CheckWasMade(now, events[..n], cfg, t);
      assert events[..n][..k] == events[..k];
    } else {
      k := n;
      FirstCheck(before, events[n], t, cfg);
    }
  }

  lemma FirstCheck(s: State, e: Event, t: Thread, cfg: Config)
    requires t !in s.calls || !HasCheck(s.calls[t])
    requires t in Next(s, e, cfg).calls && HasCheck(Next(s, e, cfg).calls[t])
    ensures e == CheckAge(t) || e == Warm(t)
    ensures var check := Next(s, e, cfg).calls[t].check;
            check.at == s.now && check.seen == s.table.loadedAt && check.version == |s.stored|
  {
  }

  // ---- When a refresh can succeed and still serve an old table ----

  lemma CheckKept(s: State, e: Event, t: Thread, cfg: Config)
    requires t in s.calls && HasCheck(s.calls[t])
    ensures var calls := Next(s, e, cfg).calls; t in calls && HasCheck(calls[t]) && calls[t].check == s.calls[t].check
  {
  }

  lemma {:induction false} CheckKeptAlways(s: State, events: seq<Event>, t: Thread, cfg: Config)
    requires t in s.calls && HasCheck(s.calls[t])
    ensures var calls := Exec(s, events, cfg).calls; t in calls && HasCheck(calls[t]) && calls[t].check == s.calls[t].check
  {
    if events != [] {
      CheckKeptAlways(s, events[..|events| - 1], t, cfg);
      CheckKept(Exec(s, events[..|events| - 1], cfg), events[|events| - 1], t, cfg);
    }
  }

  // The call is finished with a table that was too old when it checked, although
  // nothing newer was refused to it.
  predicate Outdated(s: State, t: Thread, cfg: Config) {
    t in s.calls && s.calls[t].Done? && !Good(s.calls[t].check, s.calls[t].outcome, s.calls[t].version, cfg)
  }

  ghost predicate CanEndOutdated(s: State, t: Thread, cfg: Config) {
    exists more :: Outdated(Exec(s, more, cfg), t, cfg)
  }

  function AfterCheck(s: State, t: Thread, q: Query, cfg: Config): State {
    Next(Next(s, Ask(t, q), cfg), CheckAge(t), cfg)
  }

  lemma ExecSnoc(s: State, events: seq<Event>, e: Event, cfg: Config)
    ensures Exec(s, events + [e], cfg) == Next(Exec(s, events, cfg), e, cfg)
  {
    assert (events + [e])[..|events|] == events;
  }

  lemma JoinAndLand(s: State, t: Thread, q: Query, cfg: Config) returns (more: seq<Event>)
    requires Invariant(s, cfg) && t !in s.calls && q.codes != [] && s.writer == None && Lingers(s, cfg)
    ensures var a := Exec(AfterCheck(s, t, q, cfg), more, cfg);
            t in a.calls && a.calls[t] == Ready(q, CheckNow(s, cfg), Refreshed)
            && a.writer == None && a.stored == s.stored
  {
    var a := AfterCheck(s, t, q, cfg);
    ExecSnoc(a, [], Join(t), cfg);
    ExecSnoc(a, [Join(t)], Land(s.flight.value), cfg);
    more := [Join(t)] + [Land(s.flight.value)];
    assert [] + [Join(t)] == [Join(t)];
  }

  lemma {:induction false} ExecConcat(s: State, a: seq<Event>, b: seq<Event>, cfg: Config)
    ensures Exec(s, a + b, cfg) == Exec(Exec(s, a, cfg), b, cfg)
  {
    if b == [] {
      assert a + b == a;
    } else {
      var init := b[..|b| - 1];
      ExecConcat(s, a, init, cfg);
      assert (a + b)[..|a + b| - 1] == a + init;
    }
  }

  lemma ExecCons(s: State, e: Event, rest: seq<Event>, cfg: Config)
    ensures Exec(s, [e] + rest, cfg) == Exec(Next(s, e, cfg), rest, cfg)
  {
    ExecSnoc(s, [], e, cfg);
    assert [] + [e] == [e];
    ExecConcat(s, [e], rest, cfg);
  }

  ghost predicate EndsLike(s: State, t: Thread, q: Query, check: Check, outcome: Outcome, version: nat) {
    && t in s.calls && s.calls[t].Done?
    && s.calls[t].query == q && s.calls[t].check == check
    && s.calls[t].outcome == outcome && s.calls[t].version == version
  }

  ghost predicate ReadsLike(
    s: State, t: Thread, q: Query, check: Check, outcome: Outcome, version: nat, k: nat)
  {
    && t in s.calls && s.calls[t].Reading? && |s.calls[t].answers| == k
    && s.calls[t].query == q && s.calls[t].check == check
    && s.calls[t].outcome == outcome && s.calls[t].version == version
  }

  lemma ReadStep(s: State, t: Thread, q: Query, check: Check, outcome: Outcome, version: nat, k: nat, cfg: Config)
    requires ReadsLike(s, t, q, check, outcome, version, k)
    ensures k < |q.codes| ==> ReadsLike(Next(s, ReadOne(t), cfg), t, q, check, outcome, version, k + 1)
    ensures k >= |q.codes| ==> EndsLike(Next(s, UnlockRead(t), cfg), t, q, check, outcome, version)
  {
  }

  // After k answers: the reads that remain, and the end of the call.
  lemma {:induction false} ReadRest(
    s: State, t: Thread, q: Query, check: Check, outcome: Outcome, version: nat, k: nat, cfg: Config)
    returns (more: seq<Event>)
    requires ReadsLike(s, t, q, check, outcome, version, k) && k <= |q.codes|
    ensures EndsLike(Exec(s, more, cfg), t, q, check, outcome, version)
    decreases |q.codes| - k
  {
    ReadStep(s, t, q, check, outcome, version, k, cfg);
    if k < |q.codes| {
      var rest := ReadRest(Next(s, ReadOne(t), cfg), t, q, check, outcome, version, k + 1, cfg);
      ExecCons(s, ReadOne(t), rest, cfg);
      more := [ReadOne(t)] + rest;
    } else {
      ExecCons(s, UnlockRead(t), [], cfg);
      more := [UnlockRead(t)] + [];
    }
  }

  // With the lock free, a call that is ready reads all its codes and ends.
  lemma ReadToEnd(s: State, t: Thread, cfg: Config) returns (more: seq<Event>)
    requires s.writer == None && t in s.calls && s.calls[t].Ready?
    ensures var c := s.calls[t]; EndsLike(Exec(s, more, cfg), t, c.query, c.check, c.outcome, |s.stored|)
  {
    var c, reading := s.calls[t], Next(s, LockRead(t), cfg);
    var rest := ReadRest(reading, t, c.query, c.check, c.outcome, |s.stored|, 0, cfg);
    ExecCons(s, LockRead(t), rest, cfg);
    more := [LockRead(t)] + rest;
  }

  lemma LingeringServesOld(s: State, t: Thread, q: Query, cfg: Config)
    requires Invariant(s, cfg) && t !in s.calls && q.codes != [] && s.writer == None && Lingers(s, cfg)
    ensures CanEndOutdated(AfterCheck(s, t, q, cfg), t, cfg)
  {
    var a := AfterCheck(s, t, q, cfg);
    var first := JoinAndLand(s, t, q, cfg);
    var rest := ReadToEnd(Exec(a, first, cfg), t, cfg);
    ExecConcat(a, first, rest, cfg);
    assert Outdated(Exec(a, first + rest, cfg), t, cfg);
  }

  // A leader that has stored its response and waits one TTL lingers.
  lemma LingeringHappens(now: int, rows: Rows, cfg: Config) returns (events: seq<Event>)
    requires cfg.hasSource && cfg.ttl >= 0
    ensures var s := Reached(now, events, cfg); Lingers(s, cfg) && s.writer == None && s.calls.Keys == {0}
  {
    events := [];
    for i := 0 to 10
      invariant ScriptState(Reached(now, events, cfg), now, rows, cfg, i)
    {
      ExecSnoc(Initial(now), events, Script(rows, cfg, i), cfg);
      ScriptStep(Reached(now, events, cfg), now, rows, cfg, i);
      events := events + [Script(rows, cfg, i)];
    }
  }

  function Script(rows: Rows, cfg: Config, i: nat): Event
    requires i < 10 && cfg.ttl >= 0
  {
    match i
    case 0 => Ask(0, Query(Iata, ["LIS"]))
    case 1 => CheckAge(0)
    case 2 => Join(0)
    case 3 => SourceAnswers(0, rows)
    case 4 => LockWrite(0)
    case 9 => Tick(cfg.ttl)
    case _ => Write(0)
  }

  lemma ScriptStep(s: State, now: int, rows: Rows, cfg: Config, i: nat)
    requires cfg.hasSource && cfg.ttl >= 0 && i < 10 && ScriptState(s, now, rows, cfg, i)
    ensures ScriptState(Next(s, Script(rows, cfg, i), cfg), now, rows, cfg, i + 1)
  {
  }

  // The state after i steps of that script.
  ghost predicate ScriptState(s: State, now: int, rows: Rows, cfg: Config, i: nat) {
    var q := Query(Iata, ["LIS"]);
    var c := Check(now, None, 0, false);
    var calls: map<Thread, Call> :=
      if i == 0 then map[]
      else if i == 1 then map[0 := Asking(q)]
      else if i == 2 then map[0 := Wanting(q, c)]
      else if i == 3 then map[0 := Fetching(q, c)]
      else if i == 4 then map[0 := Built(q, c, rows)]
      else if i <= 8 then map[0 := Writing(q, c, rows, i - 5)]
      else map[0 := Landing(q, c, true)];
    && s.calls == calls && s.readers == {}
    && s.writer == (if 5 <= i <= 8 then Some(0) else None)
    && s.flight == (if i >= 3 then Some(0) else None)
    && s.now == (if i == 10 then now + cfg.ttl else now)
    && s.table.loadedAt == (if i >= 8 then Some(now) else None)
    && (i < 8 ==> s.stored == [])
  }

  // A call that checks in a reachable state, for any number of codes, can finish
  // with an outdated table and no failed refresh exactly when a flight lingers in
  // that state: it has stored its response at least one TTL ago and is still
  // registered.
  lemma OutdatedIffLingering(now: int, events: seq<Event>, t: Thread, q: Query, cfg: Config)
    requires t !in Reached(now, events, cfg).calls && Reached(now, events, cfg).writer == None && q.codes != []
    ensures var s := Reached(now, events, cfg);
            CanEndOutdated(AfterCheck(s, t, q, cfg), t, cfg) <==> Lingers(s, cfg)
  {
    var s := Reached(now, events, cfg);
    ExecKeeps(Initial(now), events, cfg);
    if Lingers(s, cfg) {
      LingeringServesOld(s, t, q, cfg);
    } else {
      forall more
        ensures !Outdated(Exec(AfterCheck(s, t, q, cfg), more, cfg), t, cfg)
      {
        OthersServeCurrent(s, t, q, more, cfg);
      }
    }
  }

  lemma CheckMeetsNoFlight(s: State, t: Thread, q: Query, cfg: Config)
    requires Invariant(s, cfg) && t !in s.calls && q.codes != [] && s.writer == None && !Lingers(s, cfg)
    ensures var a := AfterCheck(s, t, q, cfg);
            Invariant(a, cfg) && t in a.calls && HasCheck(a.calls[t]) && !a.calls[t].check.lingering
  {
    var asked := Next(s, Ask(t, q), cfg);
    NextKeeps(s, Ask(t, q), cfg);
    NextKeeps(asked, CheckAge(t), cfg);
    assert !Lingers(asked, cfg);
  }

  lemma OthersServeCurrent(s: State, t: Thread, q: Query, more: seq<Event>, cfg: Config)
    requires Invariant(s, cfg) && t !in s.calls && q.codes != [] && s.writer == None && !Lingers(s, cfg)
    ensures !Outdated(Exec(AfterCheck(s, t, q, cfg), more, cfg), t, cfg)
  {
    CheckMeetsNoFlight(s, t, q, cfg);
    KeepsGood(AfterCheck(s, t, q, cfg), t, more, cfg);
  }

  lemma KeepsGood(a: State, t: Thread, more: seq<Event>, cfg: Config)
    requires Invariant(a, cfg) && t in a.calls && HasCheck(a.calls[t]) && !a.calls[t].check.lingering
    ensures !Outdated(Exec(a, more, cfg), t, cfg)
  {
    ExecKeeps(a, more, cfg);
    CheckKeptAlways(a, more, t, cfg);
    var end := Exec(a, more, cfg);
    assert CallOk(end, end.calls[t], cfg);
  }

  // ---- A call that runs alone ----

  // Nobody holds the lock and no flight is up.
  predicate Idle(s: State) {
    s.writer == None && s.readers == {} && s.flight == None
  }

  ghost predicate AfterFlight(s: State, end: State, t: Thread, q: Query, check: Check, answer: Option<Rows>) {
    && Idle(end) && end.now == s.now && t in end.calls
    && match answer
       case None =>
         end.calls[t] == Ready(q, check, RefreshFailed) && end.table == s.table && end.stored == s.stored
       case Some(rows) =>
         && end.calls[t] == Ready(q, check, Refreshed) && end.table == Table(rows, rows, Some(s.now))
         && end.stored == s.stored + [Response(rows, s.now)]
  }

  // The second half of the swap: the load time, and the unlock.
  lemma SwapEnds(s: State, t: Thread, q: Query, check: Check, rows: Rows, cfg: Config) returns (more: seq<Event>)
    requires t in s.calls && s.calls[t] == Writing(q, check, rows, 2) && s.table.iata == rows && s.table.icao == rows
    ensures var end := Exec(s, more, cfg);
            && end.calls == s.calls[t := Landing(q, check, true)] && end.writer == None && end.readers == s.readers
            && end.now == s.now && end.flight == s.flight
            && end.table == Table(rows, rows, Some(s.now)) && end.stored == s.stored + [Response(rows, s.now)]
  {
    var s4 := Next(s, Write(t), cfg);
    assert s4.calls == s.calls[t := Writing(q, check, rows, 3)];
    ExecCons(s4, Write(t), [], cfg);
    ExecCons(s, Write(t), [Write(t)] + [], cfg);
    more := [Write(t)] + ([Write(t)] + []);
  }

  lemma SwapAlone(s: State, t: Thread, q: Query, check: Check, rows: Rows, cfg: Config) returns (more: seq<Event>)
    requires s.writer == None && s.readers == {} && t in s.calls && s.calls[t] == Built(q, check, rows)
    ensures var end := Exec(s, more, cfg);
            && end.calls == s.calls[t := Landing(q, check, true)] && end.writer == None && end.readers == {}
            && end.now == s.now && end.flight == s.flight
            && end.table == Table(rows, rows, Some(s.now)) && end.stored == s.stored + [Response(rows, s.now)]
  {
    var s1 := Next(s, LockWrite(t), cfg);
    var s2 := Next(s1, Write(t), cfg);
    var s3 := Next(s2, Write(t), cfg);
    assert s3.calls == s.calls[t := Writing(q, check, rows, 2)];
    var rest := SwapEnds(s3, t, q, check, rows, cfg);
    ExecCons(s2, Write(t), rest, cfg);
    ExecCons(s1, Write(t), [Write(t)] + rest, cfg);
    ExecCons(s, LockWrite(t), [Write(t)] + ([Write(t)] + rest), cfg);
    more := [LockWrite(t)] + ([Write(t)] + ([Write(t)] + rest));
  }

  lemma FlyAlone(s: State, t: Thread, q: Query, check: Check, answer: Option<Rows>, cfg: Config) returns (more: seq<Event>)
    requires Idle(s) && cfg.hasSource && t in s.calls && s.calls[t] == Wanting(q, check)
    ensures AfterFlight(s, Exec(s, more, cfg), t, q, check, answer)
  {
    var s1 := Next(s, Join(t), cfg);
    match answer
    case None =>
      var s2 := Next(s1, SourceFails(t), cfg);
      ExecCons(s2, Land(t), [], cfg);
      ExecCons(s1, SourceFails(t), [Land(t)] + [], cfg);
      ExecCons(s, Join(t), [SourceFails(t)] + ([Land(t)] + []), cfg);
      more := [Join(t)] + ([SourceFails(t)] + ([Land(t)] + []));
    case Some(rows) =>
      var s2 := Next(s1, SourceAnswers(t, rows), cfg);
      var swap := SwapAlone(s2, t, q, check, rows, cfg);
      var s3 := Exec(s2, swap, cfg);
      ExecCons(s3, Land(t), [], cfg);
      ExecConcat(s2, swap, [Land(t)] + [], cfg);
      ExecCons(s1, SourceAnswers(t, rows), swap + ([Land(t)] + []), cfg);
      ExecCons(s, Join(t), [SourceAnswers(t, rows)] + (swap + ([Land(t)] + [])), cfg);
      more := [Join(t)] + ([SourceAnswers(t, rows)] + (swap + ([Land(t)] + [])));
  }

  // The rows that answer a call at this moment when the source would give
  // `answer`, as GeoResolver.Current says it for the sequential resolver.
  function CurrentRows(s: State, answer: Option<Rows>, cfg: Config): Rows {
    if Stale(s.table.loadedAt, s.now, cfg.ttl) && cfg.hasSource && answer.Some? then answer.value else s.table.iata
  }

  lemma {:induction false} StoredStays(s: State, events: seq<Event>, v: nat, cfg: Config)
    requires v <= |s.stored|
    ensures var end := Exec(s, events, cfg); v <= |end.stored| && TableAt(end.stored, v) == TableAt(s.stored, v)
  {
    if events != [] {
      var init := events[..|events| - 1];
      StoredStays(s, init, v, cfg);
      StoredGrows(Exec(s, init, cfg), events[|events| - 1], cfg);
    }
  }

  // The table that the call is going to read has those rows.
  ghost predicate ReadyFor(s: State, t: Thread, q: Query, rows: Rows) {
    && t in s.calls && s.calls[t].Ready? && s.calls[t].query == q && s.writer == None
    && s.table.iata == rows && s.table.icao == rows
  }

  lemma ReadyAlone(s: State, t: Thread, q: Query, answer: Option<Rows>, cfg: Config) returns (events: seq<Event>)
    requires TableOk(s) && Idle(s) && t !in s.calls && q.codes != []
    ensures ReadyFor(Exec(AfterCheck(s, t, q, cfg), events, cfg), t, q, CurrentRows(s, answer, cfg))
  {
    var a := AfterCheck(s, t, q, cfg);
    events := [];
    if Stale(s.table.loadedAt, s.now, cfg.ttl) {
      assert a.calls[t] == Wanting(q, CheckNow(s, cfg)) && a.table == s.table;
      if cfg.hasSource {
        events := FlyAlone(a, t, q, CheckNow(s, cfg), answer, cfg);
      } else {
        events := [Join(t)] + [];
        ExecCons(a, Join(t), [], cfg);
      }
    }
  }

  // A call that runs alone ends with the answers of the rows that the source
  // gives, if the table is missing or one TTL old and the source has an answer,
  // and of the rows of the table otherwise: what GeoResolver returns.
  lemma AloneLikeResolver(s: State, t: Thread, q: Query, answer: Option<Rows>, cfg: Config) returns (events: seq<Event>)
    requires Invariant(s, cfg) && Idle(s) && t !in s.calls && q.codes != []
    ensures var expired := s.table.loadedAt == None || s.now - s.table.loadedAt.value >= cfg.ttl;
            var rows := if expired && cfg.hasSource && answer.Some? then answer.value else s.table.iata;
            AnswersFrom(Exec(s, events, cfg), t, q, rows)
  {
    var a := AfterCheck(s, t, q, cfg);
    var fly := ReadyAlone(s, t, q, answer, cfg);
    var ready := Exec(a, fly, cfg);
    var rest := ReadToEnd(ready, t, cfg);
    ExecConcat(a, fly, rest, cfg);
    ExecCons(Next(s, Ask(t, q), cfg), CheckAge(t), fly + rest, cfg);
    ExecCons(s, Ask(t, q), [CheckAge(t)] + (fly + rest), cfg);
    events := [Ask(t, q)] + ([CheckAge(t)] + (fly + rest));
    NextKeeps(s, Ask(t, q), cfg);
    NextKeeps(Next(s, Ask(t, q), cfg), CheckAge(t), cfg);
    ExecKeeps(a, fly, cfg);
    ReadsThose(ready, rest, t, q, CurrentRows(s, answer, cfg), cfg);
  }

  // Warm asks the source however young the table is, and stores its answer.
  lemma WarmLoads(s: State, t: Thread, rows: Rows, cfg: Config) returns (more: seq<Event>)
    requires Idle(s) && t !in s.calls && cfg.hasSource
    ensures var end := Exec(s, [Warm(t)] + more, cfg);
            Idle(end) && end.table == Table(rows, rows, Some(s.now)) && end.stored == s.stored + [Response(rows, s.now)]
  {
    var a := Next(s, Warm(t), cfg);
    more := FlyAlone(a, t, Query(Iata, []), a.calls[t].check, Some(rows), cfg);
    ExecCons(s, Warm(t), more, cfg);
  }

  ghost predicate AnswersFrom(s: State, t: Thread, q: Query, rows: Rows) {
    t in s.calls && s.calls[t].Done? && s.calls[t].query == q && AllFrom(rows, q, s.calls[t].answers)
  }

  lemma ReadsThose(s: State, events: seq<Event>, t: Thread, q: Query, rows: Rows, cfg: Config)
    requires Invariant(s, cfg) && ReadyFor(s, t, q, rows)
    requires EndsLike(Exec(s, events, cfg), t, q, s.calls[t].check, s.calls[t].outcome, |s.stored|)
    ensures AnswersFrom(Exec(s, events, cfg), t, q, rows)
  {
    var end := Exec(s, events, cfg);
    ExecKeeps(s, events, cfg);
    StoredStays(s, events, |s.stored|, cfg);
    assert CallOk(end, end.calls[t], cfg);
    var table := TableAt(s.stored, |s.stored|);
    assert table.iata == rows && table.icao == rows;
    forall i | 0 <= i < |q.codes|
      ensures IsAnswer(rows, q.kind, NormalizeCode(q.codes[i]), end.calls[t].answers[i])
    {
      AnswerFrom(table, rows, q, i);
    }
  }
}
