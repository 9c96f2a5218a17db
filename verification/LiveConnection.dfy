/**
 * The shared server-sent-event connection of app/assets/core/live.js: one
 * EventSource, its native listeners, the subscriber sets, the reference count
 * and the offline latch. LiveRoster says what the subscriber sets mean.
 */
module LiveConnection {
  import opened LiveRoster

  // A native listener: onError (Watch), or the closure that bind made for a name.
  datatype Listener = Watch | Forward(name: string, serial: nat)

  const ERROR := "error"

  // The browser object, as far as the module uses it.
  class EventSource {
    var closed: bool
    var listeners: set<(string, Listener)>

    constructor ()
      ensures !closed && listeners == {}
    {
      closed := false;
      listeners := {};
    }
  }

  // What subscribe returns: the release closure with its captured variables.
  // `index` numbers the handles in the order in which they were given out.
  class Handle {
    ghost const index: nat
    const names: seq<string>
    const fn: Fn
    var released: bool

    constructor (names: seq<string>, fn: Fn, ghost index: nat)
      ensures this.names == names && this.fn == fn && this.index == index && !released
    {
      this.names, this.fn, this.index, released := names, fn, index, false;
    }

    // The handle of subscription s, the k-th of the page.
    ghost predicate Of(s: Sub, k: nat)
      reads this`released
    {
      s == Sub(names, fn, released) && index == k
    }
  }

  function Registered(bound: map<string, Listener>): set<(string, Listener)> {
    {(ERROR, Watch)} + (set n | n in bound :: (n, bound[n]))
  }

  function Bindings(bound: map<string, Listener>): bool {
    forall n | n in bound :: bound[n].Forward? && bound[n].name == n
  }

  lemma RegisteredAdd(bound: map<string, Listener>, n: string, l: Listener)
    requires n !in bound
    ensures Registered(bound[n := l]) == Registered(bound) + {(n, l)}
  {
    var b := bound[n := l];
    forall p
      ensures p in Registered(b) <==> p in Registered(bound) + {(n, l)}
    {
      if p in Registered(bound) && p != (ERROR, Watch) {
        assert p.0 in b && b[p.0] == p.1;
      }
      if p == (n, l) {
        assert n in b;
      }
    }
  }

  lemma RegisteredRemove(bound: map<string, Listener>, n: string)
    requires Bindings(bound) && n in bound
    ensures Registered(bound - {n}) == Registered(bound) - {(n, bound[n])}
  {
    var b := bound - {n};
    forall p
      ensures p in Registered(b) <==> p in Registered(bound) && p != (n, bound[n])
    {
      if p in Registered(bound) && p != (ERROR, Watch) && p.0 != n {
        assert p.0 in b && b[p.0] == p.1;
      }
    }
  }

  // The module's variables say what the roster says.
  ghost predicate Agrees(handlers: Handlers, offline: bool, refs: int, roster: Roster) {
    && handlers == roster.handlers && offline == roster.offline && refs == Refs(roster.subs)
    && Tidy(handlers)
  }

  class LiveConnection {
    const available: bool
    var source: EventSource?
    var refs: int
    var offline: bool
    var handlers: Handlers
    var bound: map<string, Listener>
    var serial: nat
    ghost var created: set<EventSource>
    ghost var roster: Roster

    ghost function Current(): set<EventSource>
      reads this`source
    {
      if source == null then {} else {source}
    }

    // The current EventSource carries exactly the registered listeners.
    ghost predicate Attached()
      reads this`bound, this`source, source
    {
      && Bindings(bound)
      && (source == null ==> bound == map[])
      && (source != null ==> source.listeners == Registered(bound))
    }

    // Every other EventSource ever created is closed and silent.
    ghost predicate OthersSilent()
      reads this`source, this`created, created
    {
      && (source != null ==> source in created)
      && (forall e | e in created :: e != source ==> e.closed && e.listeners == {})
    }

    ghost predicate Wired()
      reads this`bound, this`source, this`created, source, created
    {
      Attached() && OthersSilent()
    }

    // The bookkeeping that does not concern the connection.
    ghost predicate Counted()
      reads this`handlers, this`offline, this`refs, this`roster
    {
      Agrees(handlers, offline, refs, roster)
    }

    // The connection is open exactly while somebody is subscribed and the latch
    // is off, and then exactly the names with subscribers are bound.
    ghost predicate Valid()
      reads this, source, created
    {
      Wired() && Counted() && Tuned(refs > 0)
    }

    ghost predicate Tuned(wanted: bool)
      reads this`source, this`offline, this`bound, this`handlers, source
    {
      && (source != null <==> available && wanted && !offline)
      && (source != null ==> !source.closed && bound.Keys == handlers.Keys)
    }

    constructor (available: bool)
      ensures Valid() && roster == EMPTY && created == {} && this.available == available
    {
      this.available := available;
      source, refs, offline, handlers, bound, serial := null, 0, false, map[], map[], 0;
      created, roster := {}, EMPTY;
    }

    method Bind(name: string)
      requires Attached()
      modifies this`bound, this`serial, Current()`listeners
      ensures Attached()
      ensures bound.Keys == if source == null then old(bound.Keys) else old(bound.Keys) + {name}
      ensures forall n | n in old(bound) :: n in bound && bound[n] == old(bound[n])
    {
      if source == null || name in bound {
        return;
      }
      var listener := Forward(name, serial);
      RegisteredAdd(bound, name, listener);
      serial := serial + 1;
      bound := bound[name := listener];
      source.listeners := source.listeners + {(name, listener)};
    }

    // removeEventListener for the listener of the name, if it is bound.
    method Unbind(name: string)
      requires Attached()
      modifies this`bound, Current()`listeners
      ensures Attached()
      ensures bound.Keys == old(bound.Keys) - {name}
    {
      if name in bound {
        RegisteredRemove(bound, name);
        source.listeners := source.listeners - {(name, bound[name])};
      }
      assert name !in bound ==> bound - {name} == bound;
      bound := bound - {name};
    }

    method Teardown()
      requires Wired()
      modifies this`source, this`bound, source
      ensures Wired() && source == null
      ensures old(source) != null ==> old(source).closed && old(source).listeners == {}
    {
      if source == null {
        return;
      }
      while bound != map[]
        invariant Attached() && source == old(source)
        decreases |bound|
      {
        var name :| name in bound;
        Unbind(name);
      }
      assert source.listeners == {(ERROR, Watch)};
      source.listeners := source.listeners - {(ERROR, Watch)};
      source.closed := true;
      source := null;
    }

    method Connect()
      requires Wired() && source == null
      modifies this`source, this`created
      ensures Wired() && source != null && !source.closed && fresh(source) && created == old(created) + {source}
    {
      source := new EventSource();
      created := created + {source};
      source.listeners := source.listeners + {(ERROR, Watch)};
      assert source.listeners == Registered(map[]);
    }

    // A fresh connection gets a listener for every name with subscribers.
    method BindAll()
      requires Attached() && source != null && bound == map[]
      modifies this`bound, this`serial, Current()`listeners
      ensures Attached() && bound.Keys == handlers.Keys
    {
      var names := Keys(handlers);
      BindEach(names);
    }

    method Open()
      requires Wired()
      modifies this`source, this`bound, this`serial, this`created
      ensures Wired() && fresh(created - old(created))
      ensures source == null <==> old(source) == null && (offline || !available)
      ensures old(source) != null ==> source == old(source) && bound == old(bound)
      ensures old(source) == null && source != null ==> fresh(source) && !source.closed && bound.Keys == handlers.Keys
    {
      if source != null || offline || !available {
        return;
      }
      Connect();
      BindAll();
    }

    // names.forEach(bind)
    method BindEach(names: seq<string>)
      requires Attached()
      modifies this`bound, this`serial, Current()`listeners
      ensures Attached()
      ensures bound.Keys == if source == null then old(bound.Keys) else old(bound.Keys) + set n | n in names
    {
      for i := 0 to |names|
        invariant Attached()
        invariant bound.Keys == if source == null then old(bound.Keys) else old(bound.Keys) + set n | n in names[..i]
      {
        assert names[..i + 1] == names[..i] + [names[i]];
        Bind(names[i]);
      }
      assert names[..|names|] == names;
    }

    // The first loop of subscribe.
    method AddHandlers(names: seq<string>, fn: Fn)
      modifies this`handlers
      ensures handlers == AddNames(old(handlers), names, fn)
      ensures handlers.Keys == old(handlers.Keys) + set n | n in names
    {
      for i := 0 to |names|
        invariant handlers == AddNames(old(handlers), names[..i], fn)
        invariant handlers.Keys == old(handlers.Keys) + set n | n in names[..i]
      {
        assert names[..i + 1] == names[..i] + [names[i]] && names[..i + 1][..i] == names[..i];
        var name := names[i];
        if name !in handlers {
          handlers := handlers[name := []];
        }
        handlers := handlers[name := Add(handlers[name], fn)];
      }
      assert names[..|names|] == names;
    }

    // The bookkeeping of subscribe, before it touches the connection.
    method Enlist(names: seq<string>, fn: Fn)
      requires Counted()
      modifies this`refs, this`handlers, this`roster
      ensures Counted() && roster == Apply(old(roster), LiveRoster.Subscribe(names, fn))
      ensures handlers.Keys == old(handlers.Keys) + (set n | n in names) && refs > 0
    {
      RefsSnoc(roster.subs, Sub(names, fn, false));
      TidyAfterAdd(handlers, names, fn);
      AddHandlers(names, fn);
      refs := refs + 1;
      roster := Apply(roster, LiveRoster.Subscribe(names, fn));
    }

    // The body of subscribe up to the returned handle.
    method Join(names: seq<string>, fn: Fn)
      requires Valid()
      modifies this`source, this`refs, this`handlers, this`bound, this`serial, this`created, this`roster
      modifies Current()`listeners
      ensures Valid() && fresh(created - old(created))
      ensures roster == Apply(old(roster), LiveRoster.Subscribe(names, fn))
    {
      Enlist(names, fn);
      Attach(names);
    }

    method Subscribe(names: seq<string>, fn: Fn) returns (handle: Handle)
      requires Valid()
      modifies this`source, this`refs, this`handlers, this`bound, this`serial, this`created, this`roster
      modifies Current()`listeners
      ensures Valid() && fresh(created - old(created))
      ensures roster == Apply(old(roster), LiveRoster.Subscribe(names, fn))
      ensures fresh(handle) && handle.Of(Sub(names, fn, false), old(|roster.subs|))
    {
      handle := new Handle(names, fn, |roster.subs|);
      Join(names, fn);
    }

    // The end of subscribe: connect if need be, then bind the names given.
    method Attach(names: seq<string>)
      requires Wired()
      requires forall n | n in names :: n in handlers
      requires source != null ==> available && !offline
      requires source != null ==> !source.closed && handlers.Keys == bound.Keys + set n | n in names
      modifies this`source, this`bound, this`serial, this`created, Current()`listeners
      ensures Wired() && fresh(created - old(created))
      ensures Tuned(true)
    {
      Open();
      BindEach(names);
    }

    // One name of the release loop.
    method Drop(name: string, fn: Fn)
      requires Attached() && (source != null ==> bound.Keys == handlers.Keys)
      modifies this`handlers, this`bound, Current()`listeners
      ensures Attached() && (source != null ==> bound.Keys == handlers.Keys)
      ensures handlers == RemoveName(old(handlers), name, fn)
    {
      if name !in handlers {
        return;
      }
      var subscribers := Remove(handlers[name], fn);
      handlers := handlers[name := subscribers];
      if subscribers != [] {
        return;
      }
      handlers := handlers - {name};
      Unbind(name);
    }

    // The release loop.
    method DropEach(names: seq<string>, fn: Fn)
      requires Attached() && (source != null ==> bound.Keys == handlers.Keys)
      modifies this`handlers, this`bound, Current()`listeners
      ensures Attached() && (source != null ==> bound.Keys == handlers.Keys)
      ensures handlers == RemoveNames(old(handlers), names, fn)
    {
      for i := 0 to |names|
        invariant Attached() && (source != null ==> bound.Keys == handlers.Keys)
        invariant handlers == RemoveNames(old(handlers), names[..i], fn)
      {
        assert names[..i + 1][..i] == names[..i];
        Drop(names[i], fn);
      }
      assert names[..|names|] == names;
    }

    // The bookkeeping of a first release.
    method Delist(names: seq<string>, fn: Fn, ghost k: nat)
      requires k < |roster.subs| && roster.subs[k] == Sub(names, fn, false) && Counted()
      requires Attached() && (source != null ==> bound.Keys == handlers.Keys)
      modifies this`refs, this`handlers, this`bound, this`roster, Current()`listeners
      ensures Counted() && roster == Apply(old(roster), LiveRoster.Release(k))
      ensures Attached() && (source != null ==> bound.Keys == handlers.Keys)
      ensures refs == old(refs) - 1
    {
      RefsPositive(roster.subs, k);
      RefsRelease(roster.subs, k);
      TidyAfterRemove(handlers, names, fn);
      DropEach(names, fn);
      refs := if refs - 1 > 0 then refs - 1 else 0;
      roster := Apply(roster, LiveRoster.Release(k));
    }

    // The release closure of subscription k.
    method Release(handle: Handle, ghost k: nat)
      requires Valid() && k < |roster.subs| && handle.Of(roster.subs[k], k)
      modifies this`source, this`refs, this`handlers, this`bound, this`roster, created, handle`released
      ensures Valid() && created == old(created)
      ensures roster == Apply(old(roster), LiveRoster.Release(k)) && handle.Of(roster.subs[k], k)
      ensures handle.released && refs == old(refs) - if old(handle.released) then 0 else 1
    {
      if handle.released {
        return;
      }
      handle.released := true;
      Delist(handle.names, handle.fn, k);
      if refs == 0 {
        Teardown();
      }
    }

    // onError, which listens to the native 'error' event.
    method OnError() returns (notified: bool)
      requires Wired()
      modifies this`source, this`bound, this`offline, source
      ensures Wired()
      ensures notified <==> old(source != null && source.closed)
      ensures notified ==> source == null && offline
      ensures !notified ==> source == old(source) && bound == old(bound) && offline == old(offline)
      ensures !notified && source != null ==> source.closed == old(source.closed)
    {
      if source == null || !source.closed {
        return false;
      }
      Teardown();
      offline := true;
      return true;
    }

    // The browser reports an error on the open connection: it retries by itself,
    // or it has given up and closed the EventSource.
    method NativeError(gaveUp: bool) returns (notified: bool)
      requires Valid() && source != null
      modifies this`source, this`bound, this`offline, this`roster, source
      ensures Valid() && notified == gaveUp
      ensures roster == if gaveUp then Apply(old(roster), Fatal) else old(roster)
      ensures !gaveUp ==> source == old(source) && bound == old(bound)
    {
      if gaveUp {
        source.closed := true;
      }
      notified := OnError();
      if gaveUp {
        roster := Apply(roster, Fatal);
      }
    }

    method ResumeLive()
      requires Valid()
      modifies this`source, this`bound, this`serial, this`created, this`offline, this`roster
      ensures Valid() && fresh(created - old(created))
      ensures roster == Apply(old(roster), Resume)
    {
      offline := false;
      roster := Apply(roster, Resume);
      if refs > 0 {
        Open();
      }
    }

    // dispatch: every subscriber is called, also after one that throws.
    method Dispatch(name: string, throws: set<Fn>) returns (calls: seq<Fn>, failures: seq<Fn>)
      ensures calls == Members(handlers, name)
      ensures forall fn :: fn in failures <==> fn in calls && fn in throws
    {
      calls, failures := [], [];
      if name !in handlers {
        return;
      }
      var subscribers := handlers[name];
      for i := 0 to |subscribers|
        invariant calls == subscribers[..i]
        invariant forall fn :: fn in failures <==> fn in calls && fn in throws
      {
        calls := calls + [subscribers[i]];
        if subscribers[i] in throws {
          failures := failures + [subscribers[i]];
        }
      }
    }

    // An event of the given name arrives at an EventSource the module created:
    // its native listeners for the name run, and onError has nothing to do.
    method Arrive(e: EventSource, name: string, throws: set<Fn>) returns (calls: seq<Fn>, failures: seq<Fn>)
      requires Valid() && e in created
      ensures calls == if e == source then Delivered(roster, name) else []
      ensures forall fn :: fn in failures <==> fn in calls && fn in throws
    {
      calls, failures := [], [];
      var rest := set p | p in e.listeners && p.0 == name;
      if e != source || name !in bound {
        assert forall p | p in rest :: p == (ERROR, Watch);
        return;
      }
      var mine := (name, bound[name]);
      assert mine in Registered(bound);
      assert forall p | p in rest :: p == (ERROR, Watch) || p == mine;
      while rest != {}
        invariant forall p | p in rest :: p == (ERROR, Watch) || p == mine
        invariant calls == if mine in rest then [] else Members(handlers, name)
        invariant forall fn :: fn in failures <==> fn in calls && fn in throws
        decreases |rest|
      {
        var p :| p in rest;
        rest := rest - {p};
        if p.1.Forward? {
          calls, failures := Dispatch(p.1.name, throws);
        }
      }
    }
  }

  // ---- Whole runs ----

  // What happens to a page: an operation, an event of some name, or an error
  // after which the browser retries by itself.
  datatype Command = Do(op: Op) | Message(name: string) | Retrying

  // The roster after a command, and what a message calls. Without EventSource
  // there is no connection that could fail.
  function Effect(available: bool, r: Roster, c: Command): Roster {
    match c
    case Do(op) => if available || !op.Fatal? then Apply(r, op) else r
    case Message(_) => r
    case Retrying => r
  }

  function Reply(available: bool, r: Roster, c: Command): seq<seq<Fn>> {
    match c
    case Do(_) => []
    case Message(name) => [if available then Delivered(r, name) else []]
    case Retrying => []
  }

  function Play(available: bool, commands: seq<Command>): (Roster, seq<seq<Fn>>) {
    if commands == [] then (EMPTY, [])
    else
      var (r, log) := Play(available, commands[..|commands| - 1]);
      var c := commands[|commands| - 1];
      (Effect(available, r, c), log + Reply(available, r, c))
  }

  function Ops(commands: seq<Command>): seq<Op> {
    if commands == [] then []
    else
      Ops(commands[..|commands| - 1]) +
      match commands[|commands| - 1] case Do(op) => [op] case Message(_) => [] case Retrying => []
  }

  lemma {:induction false} PlayIsReplay(commands: seq<Command>)
    ensures Play(true, commands).0 == Replay(Ops(commands))
  {
    if commands != [] {
      var init, c := commands[..|commands| - 1], commands[|commands| - 1];
      PlayIsReplay(init);
      match c
      case Do(op) =>
        assert Ops(commands) == Ops(init) + [op];
        ReplaySnoc(Ops(init), op);
      case _ =>
        assert Ops(commands) == Ops(init);
    }
  }

  // A message at the end of any run in which every subscription passes its own
  // function reaches exactly the unreleased subscriptions that list its name,
  // once each and in order, if the connection is open, and nobody otherwise.
  lemma MessageReachesUnreleased(commands: seq<Command>, name: string)
    requires OwnRun(Ops(commands))
    ensures var r := Replay(Ops(commands));
            Play(true, commands + [Message(name)]).1 ==
            Play(true, commands).1 + [if Online(r) then Expected(r.subs, name) else []]
  {
    PlayIsReplay(commands);
    DeliveryIsExact(Ops(commands));
    assert (commands + [Message(name)])[..|commands|] == commands;
  }

  // The callers hold one handle per subscription.
  ghost predicate Held(handles: seq<Handle>, subs: seq<Sub>)
    reads handles
  {
    |handles| == |subs| && forall i | 0 <= i < |handles| :: handles[i].Of(subs[i], i)
  }

  // One operation on the connection. A fatal error needs an open connection.
  method Perform(live: LiveConnection, handles: seq<Handle>, op: Op) returns (handles': seq<Handle>)
    requires live.Valid() && Held(handles, live.roster.subs)
    modifies live, live.created, handles
    ensures live.Valid() && Held(handles', live.roster.subs)
    ensures live.roster == Effect(live.available, old(live.roster), Do(op))
    ensures fresh(live.created - old(live.created))
    ensures handles' == handles || exists h :: fresh(h) && handles' == handles + [h]
  {
    handles' := handles;
    match op
    case Subscribe(names, fn) =>
      var handle := live.Subscribe(names, fn);
      handles' := handles + [handle];
    case Release(k) =>
      if k < |handles| {
        live.Release(handles[k], k);
      }
    case Fatal =>
      if live.source != null {
        var notified := live.NativeError(true);
      }
    case Resume =>
      live.ResumeLive();
  }

  // Any sequence of subscriptions, releases, errors, resumes and messages, with
  // or without EventSource, leaves the connection in the state that the replay
  // describes, and each message has called exactly the functions it names.
  method RunScript(available: bool, commands: seq<Command>)
    returns (live: LiveConnection, handles: seq<Handle>, log: seq<seq<Fn>>)
    ensures live.Valid() && live.available == available && Held(handles, live.roster.subs)
    ensures fresh(live) && fresh(live.created) && fresh(handles)
    ensures live.roster == Play(available, commands).0 && log == Play(available, commands).1
    ensures live.source != null <==> available && Refs(live.roster.subs) > 0 && !live.roster.offline
    ensures forall e | e in live.created :: e.closed <==> e != live.source
  {
    if commands == [] {
      live := new LiveConnection(available);
      handles, log := [], [];
      return;
    }
    live, handles, log := RunScript(available, commands[..|commands| - 1]);
    match commands[|commands| - 1]
    case Do(op) =>
      handles := Perform(live, handles, op);
    case Message(name) =>
      var calls, failures := [], [];
      if live.source != null {
        calls, failures := live.Arrive(live.source, name, {});
      }
      log := log + [calls];
    case Retrying =>
      if live.source != null {
        var notified := live.NativeError(false);
      }
  }

  lemma RefsRelease(subs: seq<Sub>, k: nat)
    requires k < |subs| && !subs[k].released
    ensures Refs(subs[k := subs[k].(released := true)]) == Refs(subs) - 1
  {
    var subs' := subs[k := subs[k].(released := true)];
    var last := |subs| - 1;
    if k == last {
      assert subs'[..last] == subs[..last];
    } else {
      RefsRelease(subs[..last], k);
      assert subs'[..last] == subs[..last][k := subs[k].(released := true)];
    }
  }

  // The keys of a Map, in some order.
  method Keys(h: Handlers) returns (names: seq<string>)
    ensures (set n | n in names) == h.Keys
  {
    names := [];
    var rest := h.Keys;
    while rest != {}
      invariant rest <= h.Keys && forall n :: n in names <==> n in h && n !in rest
      decreases |rest|
    {
      var name :| name in rest;
      ghost var before := names;
      names := names + [name];
      assert forall n :: n in names <==> n in before || n == name;
      rest := rest - {name};
    }
  }
}
