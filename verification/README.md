# Skyvisor: a verified model of its protocols

This project models the stateful core of the Skyvisor web application in Dafny
and proves what that core promises: the shared live-event connection of the
browser, the airport coordinate cache, the schema migration runner, the sign-in
and session protocol, the splitting of great-circle routes at the antimeridian,
and the proxy loop for server-sent events. `dafny verify dfyconfig.toml` checks
all of it.

Code that works in place is modelled in place: a class with the source's fields
and methods, loops with invariants, each method tied to a specification
function, and lemmas about that function. Concurrent code is modelled as a state
machine whose steps interleave in any order; its theorems speak about every
finite run.

| file | models |
|---|---|
| `Prelude.dfy` | options, octets and byte strings |
| `LiveRoster.dfy` | the subscriber sets of `app/assets/core/live.js` after any sequence of subscribe, release, fatal error and resume |
| `LiveConnection.dfy` | the `EventSource`, its native listeners, the reference count and the offline latch |
| `LiveRefresh.dfy` | elements that re-fetch themselves: the debounce timer and the release hook |
| `GeoIndex.dfy` | the coordinate tables of `app/services/geo.go`: how they are built and read |
| `GeoFlight.dfy` | concurrent calls of that cache: age check, shared flight, swap, reads |
| `Migrations.dfy` | concurrent `Migrate` runs of `db/db.go`, failing or crashing anywhere |
| `MigrateRun.dfy` | one `Migrate` run: name order, drift check, per-file transaction, reruns |
| `UserTable.dfy` | concurrent logins against the `"user"` table and its unique columns |
| `Accounts.dfy` | `UpsertOIDCUser` and the statements it issues, as methods |
| `Username.dfy` | `slugify` and `usernameCandidate` |
| `SessionStore.dfy` | session and token keys in Redis |
| `AuthFlow.dfy` | the sign-in flow over one browser session |
| `ReturnPath.dfy` | `return_to`: query escaping, query parsing, `safeReturnPath` |
| `Redirects.dfy` | what `http.Redirect`, the header writer and the browser make of a path |
| `ReturnTrip.dfy` | when the final redirect is the target that `RequireAuth` wrote |
| `NextRequest.dfy` | when the browser repeats the request that was turned away, and when it leaves the site |
| `GreatCircle.dfy` | `GreatCircle.Arc` and `Arc.json` |
| `EventStream.dfy` | the copy loop of `EventsStream` |

## Where the code does less than it seems to

Each of these is proved with a concrete run that shows it and with the exact
condition under which the promise holds.

- A refresh of the coordinate cache can succeed and the call still answer from
  the outdated table: it joined a flight that had stored its response a full TTL
  earlier and had not been removed yet (`GeoFlight.LingeringHappens`,
  `GeoFlight.OutdatedIffLingering`).
- Two subscriptions that share a function and an event name share one entry in
  the subscriber set: releasing one silences the other
  (`LiveRoster.SharedFunctionGoesSilent`, `LiveRoster.ReleaseServesOthersIff`).
- `db/db.go` says that concurrent callers are serialized by the advisory lock.
  The lock belongs to a database session and is taken through a pool. While the
  locking sessions outlive the runs, this holds exactly when no two runs take it
  in the same session (`Migrations.ExclusiveIffOwnSessions`); when such a session
  ends, a second run gets in (`Migrations.LostSessionLetsBothIn`); and a run frees
  the lock exactly when it releases it in the session that took it or that session
  has ended (`Migrations.FreedIffSameSession`). That every file commits at most
  once does not depend on the lock (`Migrations.CommitsAtMostOnce`).
- The event proxy says that it flushes each frame. An event that a CR or CR LF
  line ends is copied but not flushed (`EventStream.PromptIffNoCrEndsEvent`).
- A token set deleted by a logout comes back exactly when an `APIAccessToken`
  call was in flight (`SessionStore.ReappearsIffStraddled`,
  `SessionStore.LogoutIsUndone`).
- `safeReturnPath` says that the callback can never redirect off-site. What it
  lets pass is cleaned by `http.Redirect` and read by the browser, which drops
  tabs; it then leaves the site exactly under a condition on the parameter, which
  takes a tab (`NextRequest.LeavesSiteIff`, `NextRequest.WithoutTabsStays`,
  `NextRequest.TabOpensHost`, `NextRequest.CleaningOpensHost`).
- A safe target is not always returned to: `http.Redirect` cleans its path and
  `RequireAuth` writes the decoded one (`NextRequest.RepeatsRequestIff`,
  `NextRequest.DoubledSlashIsLost`).
- `slugify` is not idempotent: it truncates after trimming
  (`Username.SlugIdempotent`).

## Assumptions

- The columns `username`, `email` and the pair of issuer and subject are unique
  and the first two compare without case, as `db/migrations/2_user.sql` and
  `db/migrations/7_oidc.sql` declare; a statement is atomic.
- `name` is the primary key of `_migrations`; a transaction commits its SQL and
  its row together; an insert waits for an open transaction that has inserted
  the same name; an advisory lock belongs to a session (section 13.3.5 of the
  PostgreSQL manual).
- A Redis command is atomic. A session token is 64 lower-case hexadecimal digits
  and was never used before.
- `time.Now` never goes back. A browser timer may fire late but never early.
- The longitudes of `interpolate` lie in [-180, 180].
- Go's `url.QueryEscape`, `url.ParseQuery`, `url.Parse`, `path.Clean` and
  `http.Redirect` do what their packages document; a browser reads a location by
  the WHATWG URL standard.

## Model

| member | source | states |
|---|---|---|
| `LiveRoster.DeliveryIsExact` | app/assets/core/live.js:17-113 | in every run in which each subscription passes its own function, a named event on the open connection calls exactly the functions of the unreleased subscriptions that list the name, once each, in order of subscription |
| `LiveRoster.ExpectedMember` | app/assets/core/live.js:79-95 | a function is on the reference list of a name exactly when an unreleased subscription passes it and lists the name |
| `LiveRoster.ExpectedInOrder` | app/assets/core/live.js:79-95 | two functions on the reference list stand in the order in which their subscriptions were made |
| `LiveRoster.SilentUntilResumed` | app/assets/core/live.js:55-113 | after a fatal error no event reaches anybody, whoever subscribes or releases, until the page resumes |
| `LiveRoster.SubscribeFaithful` | app/assets/core/live.js:76-86 | a subscription keeps the subscriber sets equal to the reference list, for every name |
| `LiveRoster.ReleaseFaithful` | app/assets/core/live.js:88-107 | a first release keeps the subscriber sets equal to the reference list, and no empty set stays behind |
| `LiveRoster.ExpectedAfterRelease` | app/assets/core/live.js:92-95 | deleting the function from a set removes the released subscription and no other when the function is its own |
| `LiveRoster.AddNamesAt` | app/assets/core/live.js:79-82 | the loop of subscribe adds the function once to the set of each listed name and touches no other name |
| `LiveRoster.RemoveNamesAt` | app/assets/core/live.js:92-101 | the release loop removes the function from the sets of the listed names, drops exactly the names whose set becomes empty, and touches no other name |
| `LiveRoster.ReleaseServesOthersIff` | app/assets/core/live.js:92-101 | when everybody is served, a release keeps everybody else served if and only if no other unreleased subscription shares the function and a name |
| `LiveRoster.SharedFunctionGoesSilent` | app/assets/core/live.js:92-101 | with two subscriptions of one function to one event, releasing the first leaves the second unreleased and silent |
| `LiveRoster.ReleaseOrderIrrelevant` | app/assets/core/live.js:88-107 | releases in any order, repeated any number of times, lead to the same state |
| `LiveRoster.ReleaseAllIs` | app/assets/core/live.js:88-91 | after any list of releases exactly the named handles are released and the sets are still exact |
| `LiveRoster.OthersKeepReceiving` | app/assets/core/live.js:55-113 | who is not released keeps receiving, also across a fatal error, releases while offline, and a resume |
| `LiveConnection.LiveConnection.Bind` | app/assets/core/live.js:39-44 | the name becomes bound with one native listener if there is a connection; nothing happens if there is none, and a name already bound keeps its listener |
| `LiveConnection.LiveConnection.Teardown` | app/assets/core/live.js:46-53 | the connection ends closed and without listeners, and nothing stays bound |
| `LiveConnection.LiveConnection.OnError` | app/assets/core/live.js:55-65 | page notified if and only if the connection is closed by the browser; then it is torn down and latched offline, else nothing changes |
| `LiveConnection.LiveConnection.NativeError` | app/assets/core/live.js:55-65 | an error on the open connection keeps the invariant and is a fatal step exactly when the browser gave up |
| `LiveConnection.LiveConnection.Open` | app/assets/core/live.js:67-72 | a connection is opened only if there is none, the latch is off and EventSource exists; a new one has exactly the names with subscribers bound |
| `LiveConnection.LiveConnection.AddHandlers` | app/assets/core/live.js:79-82 | the loop of subscribe computes the new subscriber sets |
| `LiveConnection.LiveConnection.DropEach` | app/assets/core/live.js:92-101 | the release loop computes the new subscriber sets and unbinds exactly the names it drops |
| `LiveConnection.LiveConnection.Subscribe` | app/assets/core/live.js:76-88 | keeps the invariant: open if and only if somebody is subscribed and not offline, bound names are the names with subscribers, the count is that of unreleased handles, every other EventSource is closed and silent |
| `LiveConnection.LiveConnection.Release` | app/assets/core/live.js:88-107 | keeps the same invariant; a first release lowers the count by exactly one, so the clamp never acts, and a later one does nothing |
| `LiveConnection.LiveConnection.ResumeLive` | app/assets/core/live.js:110-113 | keeps the invariant, clears the latch and reopens if anybody is subscribed |
| `LiveConnection.LiveConnection.Dispatch` | app/assets/core/live.js:17-37 | every subscriber of the name is called in order, also after one that throws |
| `LiveConnection.LiveConnection.Arrive` | app/assets/core/live.js:17-44 | an event on any EventSource ever created calls the current subscribers of its name if it is the current one, and nobody otherwise |
| `LiveConnection.RunScript` | app/assets/core/live.js:10-113 | with or without EventSource, every sequence of operations, messages and errors, whether the browser retries or gives up, keeps the invariant and makes exactly the calls that the reference replay names; a connection is open exactly while somebody is subscribed and the latch is off, and every other EventSource ever created is closed |
| `LiveConnection.PlayIsReplay` | app/assets/core/live.js:17-37 | messages change no subscriber |
| `LiveConnection.MessageReachesUnreleased` | app/assets/core/live.js:17-113 | a message after any such sequence reaches exactly the unreleased subscriptions that list its name if the connection is open, and nobody otherwise |
| `LiveRefresh.RunKeeps` | app/assets/core/live.js:143-177 | the page invariant holds in every timed run: subscriptions, timers and log agree |
| `LiveRefresh.ArriveReaches` | app/assets/core/live.js:30-36 | in every run, an event reaches exactly the wired elements whose subscription lists its name if the connection is open, and nobody otherwise: the log gains one delivery for each, each has then exactly one pending timer, due in 450 ms, and the timers of all others stay |
| `LiveRefresh.InitWires` | app/assets/core/live.js:146-167 | wiring an element subscribes it to the names given and sets no timer; an element is wired once |
| `LiveRefresh.FireFires` | app/assets/core/live.js:153-160 | a timer that is due fires once and is gone, and asks for the fragment exactly if the element is still attached; no other timer is touched |
| `LiveRefresh.ReleaseEnds` | app/assets/core/live.js:163-177 | in every run, a release ends the subscription of the element and clears its timer, leaves the timers and subscriptions of all others, and a second one does nothing |
| `LiveRefresh.OnePendingTimer` | app/assets/core/live.js:150-162 | at most one timer is pending for an element |
| `LiveRefresh.EveryRequestHasItsEvent` | app/assets/core/live.js:151-160 | each timer that fires answers a delivery exactly 450 ms before it was due, with nothing about the element in between, and never fires early |
| `LiveRefresh.SilentAfterRelease` | app/assets/core/live.js:164-177 | after its release an element is delivered no event and issues no request |
| `LiveRefresh.BurstFiresOnce` | app/assets/core/live.js:151-161 | a burst of deliveries less than 450 ms apart, followed by quiet, fires exactly one timer |
| `LiveRefresh.BurstSoFar` | app/assets/core/live.js:151-161 | during a burst no timer fires before the last delivery is 450 ms old |
| `LiveRefresh.LiveElement.Refresh` | app/assets/core/live.js:151-161 | the closure replaces its pending timer as the page model says |
| `LiveRefresh.LiveElement.constructor` | app/assets/core/live.js:146-167 | wiring an element subscribes its closure on the shared connection as the page model says, which keeps the connection's invariant |
| `LiveRefresh.LiveElement.Release` | app/assets/core/live.js:163-177 | the hook clears the timer and releases the subscription on the shared connection, once, and both end in the state of the page model |
| `GeoIndex.BuildIndex` | app/services/geo.go:73-84 | both maps answer every non-empty code as a scan for the last row with that normalised code, and hold no empty code |
| `GeoIndex.ScanIsLastMatch` | app/services/geo.go:75-84 | the scan returns the last matching row, with its codes normalised, or nothing if there is none |
| `GeoIndex.LastMatchIs` | app/services/geo.go:75-84 | that row matches and no later row does |
| `GeoIndex.AnswerIs` | app/services/geo.go:75-84 | there is one answer for a code, and it is that of the scan: nothing for a blank code or one without a row, else the last row with the code, with its own latitude, longitude and name and its codes normalised |
| `GeoIndex.NormalizeCodeIs` | app/services/geo.go:51-53 | the normal form of a text is the stretch between its outer blanks, with a to z turned position by position into A to Z and every other ASCII letter as it is; no other text is |
| `GeoIndex.SpellingsAgree` | app/services/geo.go:51-53 | letter case and surrounding space do not change a code |
| `GeoIndex.GeoResolver.Load` | app/services/geo.go:62-101 | a successful load replaces both tables and the load time together; a failed one changes nothing |
| `GeoIndex.GeoResolver.EnsureLoaded` | app/services/geo.go:105-119 | a table younger than the TTL is kept, one that is missing or at least one TTL old is refreshed, and a failed refresh keeps the previous table |
| `GeoIndex.GeoResolver.Lookup` | app/services/geo.go:123-134 | answers from the current rows: the last row with the IATA code, with its own latitude, longitude and name, or nothing if there is none; a blank code is unknown and loads nothing |
| `GeoIndex.GeoResolver.LookupIcao` | app/services/geo.go:136-147 | the same by ICAO code |
| `GeoIndex.GeoResolver.Resolve` | app/services/geo.go:152-181 | the batch answers all its codes from one table, each with the position and name of its last row, and lists the others once each in order of first occurrence; an empty batch loads nothing |
| `GeoIndex.ResolveIn` | app/services/geo.go:164-180 | the loop returns the found codes with their scans and the missing ones in order |
| `GeoIndex.ResolveSplits` | app/services/geo.go:149-181 | every non-blank code asked for is in exactly one of the two results, resolved with the position and name of its last row, or unresolved because it has none; the unresolved codes come once each in order of first occurrence |
| `GeoIndex.WantedIs` | app/services/geo.go:164-172 | the codes are treated without repeats and in order of first occurrence |
| `GeoIndex.MissingIs` | app/services/geo.go:174-178 | the unresolved codes are exactly the wanted ones without a row |
| `GeoIndex.MissingInOrder` | app/services/geo.go:174-178 | and they stay in the order in which they were wanted |
| `GeoFlight.ExecKeeps` | app/services/geo.go:55-181 | the invariant of the concurrent cache holds in every interleaving |
| `GeoFlight.OneSourceCall` | app/services/geo.go:67-71 | at most one call to the source is under way |
| `GeoFlight.TablesAgree` | app/services/geo.go:86-92 | whoever can take the lock finds both tables and the load time of one response, or all initial |
| `GeoFlight.AnswersAreCurrent` | app/services/geo.go:105-181 | all answers of a call come from the rows of one response that was current during the call, each the last row with its code, with that row's position and name; unless the check met a lingering flight, that response was less than one TTL old when checked, was stored since, or the refresh failed |
| `GeoFlight.ResponsesAreTheSources` | app/services/geo.go:67-95 | every stored response is one that the source gave, and a refresh counts as failed only if the source failed or there is none |
| `GeoFlight.StoringStep` | app/services/geo.go:86-92 | responses are only added, one at a time, by the call that writes, with the time of the step as load time |
| `GeoFlight.CheckWasMade` | app/services/geo.go:105-112 | what a call knows of the table is what its age check found: the time, the load time and the number of responses stored at that moment of the run |
| `GeoFlight.LoadTimesNeverDecrease` | app/services/geo.go:73-95 | a failed source call and the end of a flight change no table, and the load time never decreases |
| `GeoFlight.OutdatedIffLingering` | app/services/geo.go:67-181 | a call for one or more codes that checks in a reachable state can end with an outdated table and no failed refresh if and only if a flight lingers there |
| `GeoFlight.LingeringServesOld` | app/services/geo.go:67-181 | from a lingering flight, joining it, landing and reading all codes ends outdated |
| `GeoFlight.LingeringHappens` | app/services/geo.go:67-98 | a reachable run with a lingering flight |
| `GeoFlight.AloneLikeResolver` | app/services/geo.go:105-181 | a call that runs alone answers every code from the source's rows if the table is missing or one TTL old and the source has an answer, and from the table otherwise |
| `GeoFlight.WarmLoads` | app/services/geo.go:57-60 | a warm-up that runs alone stores the source's rows with the present time, however young the table is |
| `Migrations.CommitsAtMostOnce` | db/db.go:61-145 | over any runs, interleavings, failures and crashes, whatever the lock does: each name commits at most once, and has a new row exactly when it committed, with the hash of the committed contents |
| `Migrations.ExecKeeps` | db/db.go:61-145 | the invariant behind it: rows, committed log and every run's progress agree in every reachable state |
| `Migrations.SuccessRecordsAll` | db/db.go:109-147 | a run that succeeds has every file recorded with its current hash, and applied plus skipped is the total |
| `Migrations.DriftStops` | db/db.go:118-128 | no run has executed a file at or after one whose row, whoever put it there, has another hash, nor succeeded |
| `Migrations.LogFollowsFileOrder` | db/db.go:95-145 | from a recorded prefix, the committed files are the next files of the list in order, without gaps or repeats |
| `Migrations.SuccessExecutesTheRest` | db/db.go:95-147 | once a run has succeeded, exactly the remaining files have been executed |
| `Migrations.ExclusiveIffOwnSessions` | db/db.go:61-70 | as long as every locking session outlives the run's stay inside, the lock serialises every system of runs if and only if no two runs take it in the same session |
| `Migrations.SharedSessionLetsBothIn` | db/db.go:61-70 | two runs that share a session are inside together |
| `Migrations.LostSessionLetsBothIn` | db/db.go:61-70 | two runs with sessions of their own are inside together once the first has lost its locking session |
| `Migrations.CrashFrees` | db/db.go:61-70 | a run that crashes inside leaves the lock free and the rows as they are |
| `Migrations.FreedIffSameSession` | db/db.go:63-70 | a finishing run leaves the lock free if and only if it releases it in the session that took it or that session has ended |
| `MigrateRun.Database.Migrate` | db/db.go:72-147 | executes exactly the unrecorded files before the first one that stops the run, in rising order of their names, records them, reports success, drift or failure accordingly, and is a run of the concurrent machine, from the launch over the lock and the read of the table to the unlock, that commits those files |
| `MigrateRun.Database.RunFiles` | db/db.go:109-147 | the same for the loop over the sorted list |
| `MigrateRun.ListedIsSorted` | db/db.go:72-83 | the list holds exactly the files of the directory, and of any two names the earlier is a proper prefix of the later or has the smaller letter where they first differ |
| `MigrateRun.LessIsBefore` | db/db.go:83 | a name comes before another if and only if it is a proper prefix of it or has the smaller letter where they first differ |
| `MigrateRun.LessTotal` | db/db.go:83 | the string order of the sort is total and strict |
| `MigrateRun.LessTransitive` | db/db.go:83 | and transitive |
| `MigrateRun.RunExtendsPrefix` | db/db.go:109-147 | over a recorded, unchanged prefix any run, failing or not, executes exactly the stretch from its end to where it stopped and leaves that longer prefix recorded |
| `UserTable.RunKeeps` | app/repository/auth.go:78-184 | over any concurrent logins, with failing statements whose effect is unknown: the unique columns stay unique, no row disappears, and no user name and no identity of a row is rewritten |
| `UserTable.StatementAllowed` | app/repository/auth.go:83-167 | the same for each single statement, which adds at most one row, changes only the row that has or gets the login's identity, and takes over a row only without identity and with the same address, verified |
| `UserTable.OnlyVerifiedEmailTakesOver` | app/repository/auth.go:104-126 | in every run a row without an identity stays exactly as it is until a login presents its address, verified; it then belongs to the identity of such a login |
| `UserTable.ConstraintsAre` | app/repository/auth.go:83-167 | unique columns mean that two rows differ in user name and address by more than the case of letters, and in identity |
| `UserTable.AttemptsDiffer` | app/repository/auth.go:135-140 | the first attempt tries the derived name, every later one that name with a hyphen and its suffix, and two attempts try the same name if and only if both have a suffix and the suffixes agree |
| `UserTable.BindingIsPermanent` | app/repository/auth.go:78-184 | an identity once bound to a row resolves to that row and no other, for ever |
| `UserTable.SameUserIffSameIdentity` | app/repository/auth.go:78-184 | two successful logins are signed in as the same user if and only if they present the same identity |
| `UserTable.BoundedAttempts` | app/repository/auth.go:136-167 | a login makes at most five inserts and adds at most one row |
| `Accounts.AccountRepository.UpsertOidcUser` | app/repository/auth.go:75-129 | signs in if and only if a condition on the table and the principal holds beforehand; the user is the known one with address and picture brought up to date, else an adopted one whose address the principal has verified, else a new one under the first of five names that is free; only that row changes and a failure changes nothing; the call is a run of one login of the concurrent machine with the same table and outcome |
| `Accounts.AccountRepository.InsertOidcUser` | app/repository/auth.go:131-168 | succeeds if and only if there is an email and either the identity exists or the email and one of the five user names are free |
| `Accounts.AccountRepository.TryUsernames` | app/repository/auth.go:135-167 | the loop finds a user if and only if the identity exists or the email and one of the five user names are free, takes the first free one, and works by statements of the concurrent machine |
| `Accounts.AccountRepository.UpdateByIdentity` | app/repository/auth.go:83-102 | finds the row of the identity if and only if there is one and writes the address and picture that the principal brings; refuses exactly when the new email belongs to another row |
| `Accounts.AccountRepository.AdoptByEmail` | app/repository/auth.go:104-126 | gives the identity to a row without one that has the same address but for the case of letters, if and only if there is one, and changes nothing else but the picture |
| `Accounts.AccountRepository.InsertUser` | app/repository/auth.go:141-157 | is refused exactly when user name, email or identity is taken |
| `Accounts.AccountRepository.LookupByIdentity` | app/repository/auth.go:170-184 | finds the row of the identity if and only if there is one |
| `Accounts.RefreshedClash` | app/repository/auth.go:83-88 | refreshing a row violates a unique column if and only if the new email belongs to another row |
| `Accounts.AdoptedNeverClashes` | app/repository/auth.go:105-112 | adopting a row for an unknown identity never violates one |
| `Accounts.FreshClash` | app/repository/auth.go:141-145 | inserting violates one if and only if user name, email or identity is taken |
| `Username.Slugify` | app/repository/auth.go:272-287 | the builder loop computes the trimmed, lowered and hyphenated name cut to 32 bytes |
| `Username.TextIs` | app/repository/auth.go:272-282 | the slug before its cut is the name, hyphenated rune by rune, without its outer hyphens; outer space makes no difference |
| `Username.HyphenatedConcat` | app/repository/auth.go:274-281 | every rune contributes for itself |
| `Username.RuneContributes` | app/repository/auth.go:274-281 | A to Z give a to z, small letters and digits themselves, blank, dot, hyphen and underscore a hyphen, and the rest nothing |
| `Username.SlugShape` | app/repository/auth.go:272-287 | a slug has at most 32 characters out of a-z, 0-9 and hyphen and never starts with a hyphen |
| `Username.SlugNonEmpty` | app/repository/auth.go:272-287 | a name gives a slug if and only if it has a letter or digit to keep |
| `Username.SlugIdempotent` | app/repository/auth.go:282-286 | a second application changes nothing if and only if the truncation did not cut right behind a hyphen |
| `Username.SlugTwiceIsFixed` | app/repository/auth.go:272-287 | a third application never changes anything |
| `Username.LongNameKeepsHyphen` | app/repository/auth.go:282-286 | a family of names whose slug ends in a hyphen |
| `Username.TrimIs` | app/repository/auth.go:274-282 | trimming removes both ends up to the first and last rune that stays |
| `Username.Candidate` | app/repository/auth.go:258-265 | the loop takes the slug of the name if it has a letter or digit to keep, else that of the local part if that has one, else traveler |
| `Username.LocalPartIs` | app/repository/auth.go:267-270 | the local part of an address is what stands in front of its first at sign, or all of it |
| `Username.CandidateShape` | app/repository/auth.go:258-270 | every sign-in gets a non-empty user name of slug shape |
| `SessionStore.KeySpacesDisjoint` | app/repository/auth.go:27-32 | no session token is a token-set key, and token-set keys of different sessions differ |
| `SessionStore.RunKeeps` | app/repository/auth.go:187-229 | in every interleaving of logins, refreshes, logouts and expiries each key belongs to the session it was made for |
| `SessionStore.KeysChange` | app/repository/auth.go:187-229 | a step changes no key but those its event names, to the value it names: a new session key to its user, the token-set key of the calling session to the tokens of the call, and the two keys of a logout or an expired key to nothing |
| `SessionStore.WritesHappen` | app/repository/auth.go:187-229 | and it does change those |
| `SessionStore.CallsChange` | app/services/auth.go:18-58 | the token set that a call carries is the one it was started with, the one read for its own session, or the one the provider gave for it |
| `SessionStore.OthersLeaveItAlone` | app/services/auth.go:18-62 | in every run the two keys of a session with no call in flight keep their values while no event loads, logs out or expires them, whatever other sessions do |
| `SessionStore.SessionKeys` | app/repository/auth.go:67-73 | a session key maps to the user it was created for, and once deleted it never reappears |
| `SessionStore.LogoutRemovesBothKeys` | app/repository/auth.go:67-73 | after a logout in any reachable state both keys are gone, the session key for ever |
| `SessionStore.ReappearsIffStraddled` | app/services/auth.go:37-58 | a token set deleted by a logout can come back if and only if a refresh of that session is in flight |
| `SessionStore.LogoutIsUndone` | app/services/auth.go:37-58 | a run from an empty store in which a refresh that straddles a logout brings the token set back |
| `SessionStore.QuietRun` | app/services/auth.go:37-58 | with no call in flight it stays gone in every run |
| `SessionStore.RedisSessions.CompleteLogin` | app/services/auth.go:18-28 | leaves the session key with the user and the token set under its own key, as the two steps of the concurrent machine do, and no other key changes |
| `SessionStore.RedisSessions.ApiAccessToken` | app/services/auth.go:37-58 | succeeds if and only if a token set is stored and renewal or validity allows; the token returned equals the one stored afterwards; the keys are those after the load, refresh and resave steps, and no key but the token set of the session changes |
| `SessionStore.RedisSessions.Logout` | app/repository/auth.go:67-73 | both keys of the session are gone and the keys of every other session are left alone |
| `SessionStore.RedisSessions.UserFromSessionToken` | app/repository/auth.go:231-240 | the key names the user for whom the session was created, and nobody after a logout or once it has expired |
| `AuthFlow.Browser.Start` | app/handlers/auth.go:35-75 | writes the state, nonce, verifier and return path of one attempt, and the plan, and answers with those values, or nothing if the save fails; nothing else in the session changes |
| `AuthFlow.Browser.Callback` | app/handlers/auth.go:79-147 | answers and changes the session as the machine of the run theorems does; a sign-in leaves the session token it answers with and no flow value, a refusal leaves everything, and nothing else changes |
| `AuthFlow.Browser.Logout` | app/handlers/auth.go:151-165 | hands the session token, if there is one, to the service for deletion, and expires the whole session if the save succeeds |
| `AuthFlow.SessionHoldsOpenAttempt` | app/handlers/auth.go:50-90 | in every run the four flow values all stem from the last saved start, or are all absent |
| `AuthFlow.SignsInIff` | app/handlers/auth.go:84-130 | a callback signs in if and only if it answers the attempt still open, with that attempt's state, nonce, verifier and return path |
| `AuthFlow.RefusalIs` | app/handlers/auth.go:97-130 | in every run, which of the four refusals a callback without provider error gets, by the first thing that goes wrong |
| `AuthFlow.SignInStores` | app/handlers/auth.go:113-130 | a successful callback stores the token it answers with, which the login gave for the principal that the code was exchanged for; the flow values are gone and everything else is as it was |
| `AuthFlow.SessionHoldsLastToken` | app/handlers/auth.go:113-165 | in every run the session holds exactly the token of the last successful callback, until a saved logout |
| `AuthFlow.SessionHoldsPlanAsked` | app/handlers/auth.go:55-90 | in every run a plan is pending, and it is pro, exactly when a saved start asked for pro and no sign-in, provider error or logout came since |
| `AuthFlow.SignInLeadsTo` | app/handlers/auth.go:132-146 | in every run, a sign-in goes to /welcome?plan=pro if that plan is pending, else back to where the open attempt started, else to /welcome for a user known to watch nothing and to /dashboard otherwise |
| `AuthFlow.CallbackIsSingleUse` | app/handlers/auth.go:84-130 | after a successful callback the session holds no flow values, and until the next start every further callback is refused |
| `AuthFlow.ReturnsWhereItStarted` | app/handlers/auth.go:50-147 | a visitor whose request is turned away and who completes the flow with no plan pending: the browser then repeats that request byte for byte if and only if it is repeatable |
| `AuthFlow.SignInLeavesSiteIff` | app/handlers/auth.go:50-147 | in every run, a successful callback sends the browser to another host if and only if no plan is pending and the stored return path reads as one |
| `ReturnPath.UnescapeEscape` | app/repository/middleware.go:61 | query parsing undoes query escaping on every byte string |
| `ReturnPath.EscapeOctetIs` | app/repository/middleware.go:61 | letters, digits and four marks stand for themselves, a blank is a plus sign, every other byte a percent sign and two capital digits |
| `ReturnPath.BadSegmentIsSkipped` | app/handlers/auth.go:54 | a query segment that is empty, has a semicolon or a malformed escape is as good as absent |
| `ReturnPath.GetPrinted` | app/handlers/auth.go:54 | a printed pair is read back whatever follows it in the query |
| `ReturnPath.HandsOnTarget` | app/repository/middleware.go:57-61 | the target that RequireAuth writes is what the callback hands to http.Redirect if and only if it is safe |
| `Redirects.CleanedIs` | app/handlers/auth.go:146 | path cleaning never lengthens a path and changes exactly those with an empty or dot segment before the last one |
| `NextRequest.ParentIsTaken` | app/handlers/auth.go:146 | a double dot takes the segment before it along and a single dot only itself, for net/http and for the browser alike |
| `ReturnTrip.LocationUnchanged` | app/handlers/auth.go:146 | the Location header is the path handed to http.Redirect if and only if it is ASCII, on one line, without blanks at the end, and clean if it parses |
| `ReturnTrip.ReturnsToTarget` | app/repository/middleware.go:57-61 | the Location after the login is the very target that RequireAuth wrote if and only if it is safe and sent unchanged |
| `NextRequest.RepeatsRequestIff` | app/repository/middleware.go:57-61 | the browser repeats the request that RequireAuth turned away, byte for byte, if and only if a condition on its path and query holds |
| `NextRequest.SpelledIs` | app/repository/middleware.go:57-61 | how each byte of a path comes back: beyond ASCII as an escape in small digits, blanks, control bytes and seven marks in capitals, others as themselves |
| `NextRequest.PlainRequestIsRepeated` | app/repository/middleware.go:57-61 | a path of two plain segments with a query of plain bytes, escapes and separators is repeated |
| `NextRequest.DoubledSlashIsLost` | app/repository/middleware.go:57-61 | a family of safe targets that are not returned to |
| `NextRequest.LeavesSiteIff` | app/handlers/auth.go:132-146 | for every query string, the redirect after the login leaves the site if and only if the return_to parameter passes safeReturnPath and still reads as another host |
| `NextRequest.WithoutTabsStays` | app/handlers/auth.go:175-182 | a path with one leading slash, no backslash and no tab never leaves the site |
| `NextRequest.TabOpensHost` | app/handlers/auth.go:175-182 | a family of parameters that pass safeReturnPath and leave the site because they do not parse |
| `NextRequest.CleaningOpensHost` | app/handlers/auth.go:175-182 | a family of parameters that do so because path cleaning removes what stands before a tab |
| `GreatCircle.Bisect` | app/static/js/arc.js:1 | fifty halvings keep every crossing in the interval, with its lower end before and its upper end behind it, and the width ends as the initial one divided by 2^50 |
| `GreatCircle.DirectedRouteCrosses` | app/static/js/arc.js:1 | a route that keeps its direction, east or west, between two samples found apart has such a crossing, whichever side its antimeridian point counts to |
| `GreatCircle.EastboundCrosses` | app/static/js/arc.js:1 | an eastbound route whose antimeridian point has longitude 180 has one |
| `GreatCircle.Arc` | app/static/js/arc.js:1 | for more than two points: the route starts at fraction 0 and ends at fraction 1 of the great circle and its samples are 1/(n-1) apart; no segment of a part spans more than 180 degrees, there is one part more than there are jumps, each cut stands in front of the sample that jumps, parts meet at opposite ends at equal latitude, removing the inserted ends gives back the samples, and each inserted end lies within half the final interval of any crossing; else the two end points |
| `GreatCircle.Split` | app/static/js/arc.js:1 | the splitting loop keeps that shape for the samples treated so far |
| `GreatCircle.CloseAt` | app/static/js/arc.js:1 | a part is closed on the side on which the route leaves, at the latitude of the bisected place |
| `GreatCircle.Divide` | app/static/js/arc.js:1 | cutting at a jump keeps all parts tame, chained and restorable |
| `GreatCircle.OneLineIffNoJump` | app/static/js/arc.js:1 | the output is one line if and only if the samples have no jump, and then it is the sampled route |
| `EventStream.CopyEvents` | app/handlers/stream.go:49-64 | the bytes written are a prefix of the bytes read, all of them if and only if no write fails, and the flushes are those of the specification |
| `EventStream.EventIsDispatched` | app/handlers/stream.go:49 | the byte-wise parser completes an event exactly when the lines of the stream dispatch one, as sections 9.2.5 and 9.2.6 of the WHATWG HTML standard say |
| `EventStream.PromptIffNoCrEndsEvent` | app/handlers/stream.go:49-64 | after every iteration the unflushed bytes hold no complete event if and only if no event of the stream is ended by a CR, so LF-terminated streams are always prompt |
| `EventStream.FrameIsEvent` | app/handlers/stream.go:49-64 | a line followed by a blank line is an event if and only if it is "data" or starts with "data:" |
| `EventStream.FrameIsFlushedIff` | app/handlers/stream.go:57-59 | such a frame has been flushed when it has been copied if its lines end in LF, and never is if they end in CR LF |
| `EventStream.CrLfEventIsNotFlushed` | app/handlers/stream.go:57-59 | every event of one data line whose lines end in CR LF is copied and never flushed |

## Left out

- Subscribing or releasing from inside a subscriber while an event is dispatched, and messages that arrive between two statements of an operation.
- Parsing of event payloads as JSON, and the payload argument of subscribers; which subscribers throw is an input of `Dispatch`.
- `refreshEventsFor`, the htmx request itself and the DOM; a timer that fires records whether the element was still attached.
- `LiveRefresh.LiveElement` works on one element at a time; the page model has them all.
- The writer preference of Go's read-write mutex, contexts and timeouts: a source call may fail at any time, and a waiting goroutine may wait for ever.
- A lookup of a blank code and a batch of no codes return before they look at the cache; they are calls of `GeoResolver` and not of `GeoFlight`.
- The moment between reading `loadedAt` and reading the clock in `ensureLoaded`: the age check is one step of `GeoFlight`.
- `Stats`, `Geo` and `CoordLookup` of the coordinate cache: plain reads.
- GeoIndex.SpellingsAgree: does not identify the cases of letters whose upper case lies outside ASCII, because the model leaves such letters as they are.
- Case mappings of letters outside ASCII to letters outside ASCII: the upper-case function of `GeoIndex` and the lower-case function of `Username` are exact where the result is ASCII; strings that are not valid UTF-8. The comparison of `citext` columns folds case in the same way.
- `Username.Slugify`: cuts after 32 characters, which are 32 bytes because a slug is ASCII.
- MD5 and SHA-256: a file carries its hash, and the suffix of a user name is any function of identity and attempt. Random values are parameters.
- The text of the migrations, `create table if not exists`, reading the embedded files, and logging. A failing statement stands for each of them.
- `WaitForDB`, `Init`, `InitRedis` and the connection pool, apart from the choice of session for the two lock calls.
- `sort.Strings`: the list is specified by insertion in name order, not by the algorithm of the library.
- JSON encoding of token sets, the lifetime of a key other than as an expiry at any moment, and Redis commands that fail other than by ending their call.
- Sessions of the pool other than as the holder of the advisory lock; a statement that fails because its session ends is a failing statement.
- Of the way back after a login: HTTP/2, in which a header with control characters is not sent, browsers that refuse such a header, and `http.Redirect` of URLs that do not start with one slash, which the callback never has.
- The identity provider, ID-token verification and cookie signing: `exchange` and `login` are arbitrary functions of the request.
- A server without an identity provider, which refuses to start a sign-in, the sign-up hint of `RegisterStart`, and the header that replaces a redirect for htmx requests.
- Two requests of one browser session at the same time: each request reads and writes the session cookie as a whole.
- The row that `UserFromSessionToken` reads after the key; the key lookup is modelled.
- The constructor checks of `GreatCircle`, the trigonometry of `interpolate`, floating-point arithmetic, rounding to six digits, `wkt`, and numbers of points that are not whole.
- A byte order mark at the start of an event stream, and the responses of `EventsStream` before the copy loop.
- The handlers, queries and pages for airlines, airports, flights and locations, the map and motion code, the generated API client and the import jobs: listing and presentation without state of their own.
