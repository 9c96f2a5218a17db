/**
 * Elements that re-fetch themselves when live data moves: initLiveRefresh with
 * its debounce timer and releaseLiveElement of app/assets/core/live.js.
 *
 * Time is in milliseconds. A timer may fire late but never early. The refresh
 * closure of an element is known by the element, so the subscriber identities
 * of LiveRoster are the elements.
 */
module LiveRefresh {
  import opened Prelude
  import opened LiveRoster
  import opened LiveConnection

  const REFRESH_DEBOUNCE_MS: nat := 450

  type Element = Fn

  type TimerId = nat

  datatype Timer = Timer(element: Element, due: int)

  type Queue = map<TimerId, Timer>

  // window.clearTimeout: unknown and finished timers are ignored.
  function Cleared(queue: Queue, timer: Option<TimerId>): Queue {
    match timer
    case None => queue
    case Some(id) => queue - {id}
  }

  // ---- The page ----

  // The subscription handle, the `timer` variable of the closure, and whether
  // the release hook has been used.
  datatype Wired = Wired(handle: nat, timer: Option<TimerId>, released: bool)

  datatype Entry =
    | Delivered(element: Element, at: int)
    | Fired(element: Element, at: int, due: int, requested: bool)
    | Released(element: Element, at: int)

  datatype Page = Page(
    roster: Roster, elements: map<Element, Wired>, queue: Queue, next: TimerId, now: int, log: seq<Entry>)

  datatype Event =
    | Init(element: Element, names: seq<string>)
    | Pass(elapsed: nat)
    | Arrive(name: string)
    | Fire(timer: TimerId, attached: bool)
    | ReleaseElement(element: Element)
    | Lose
    | Reconnect

  // refresh(): the pending timer is replaced by a new one.
  function Rearmed(p: Page, e: Element): Page {
    if e !in p.elements then p
    else
      p.(queue := Cleared(p.queue, p.elements[e].timer)[p.next := Timer(e, p.now + REFRESH_DEBOUNCE_MS)],
         elements := p.elements[e := p.elements[e].(timer := Some(p.next))],
         next := p.next + 1,
         log := p.log + [Entry.Delivered(e, p.now)])
  }

  function RearmedAll(p: Page, es: seq<Element>): Page {
    if es == [] then p else Rearmed(RearmedAll(p, es[..|es| - 1]), es[|es| - 1])
  }

  // Events that cannot happen leave the page as it is.
  function Next(p: Page, e: Event): Page {
    match e
    case Init(x, names) =>
      if x in p.elements then p
      else
        p.(roster := Apply(p.roster, Subscribe(names, x)),
           elements := p.elements[x := Wired(|p.roster.subs|, None, false)])
    case Pass(elapsed) =>
      p.(now := p.now + elapsed)
    case Arrive(name) =>
      RearmedAll(p, LiveRoster.Delivered(p.roster, name))
    case Fire(id, attached) =>
      if id !in p.queue || p.now < p.queue[id].due then p
      else
        p.(queue := p.queue - {id},
           log := p.log + [Fired(p.queue[id].element, p.now, p.queue[id].due, attached)])
    case ReleaseElement(x) =>
      if x !in p.elements || p.elements[x].released then p
      else
        p.(queue := Cleared(p.queue, p.elements[x].timer),
           roster := Apply(p.roster, Release(p.elements[x].handle)),
           elements := p.elements[x := p.elements[x].(released := true)],
           log := p.log + [Released(x, p.now)])
    case Lose =>
      p.(roster := Apply(p.roster, Fatal))
    case Reconnect =>
      p.(roster := Apply(p.roster, Resume))
  }

  function Run(start: int, events: seq<Event>): Page {
    if events == [] then Page(EMPTY, map[], map[], 0, start, [])
    else Next(Run(start, events[..|events| - 1]), events[|events| - 1])
  }

  // ---- Histories of one element ----

  // The last entry about an element.
  function Last(log: seq<Entry>, e: Element): Option<Entry> {
    if log == [] then None
    else if log[|log| - 1].element == e then Some(log[|log| - 1])
    else Last(log[..|log| - 1], e)
  }

  // An entry that may follow the log: time goes on, a released element is never
  // heard of again, and a timer fires no earlier than it is due, 450 ms after
  // a delivery with nothing about the element in between.
  ghost predicate MayFollow(log: seq<Entry>, x: Entry) {
    var last := Last(log, x.element);
    && (log != [] ==> log[|log| - 1].at <= x.at)
    && !(last.Some? && last.value.Released?)
    && (x.Fired? ==> x.at >= x.due && last == Some(Entry.Delivered(x.element, x.due - REFRESH_DEBOUNCE_MS)))
  }

  ghost predicate WellTimed(log: seq<Entry>) {
    forall i | 0 <= i < |log| :: MayFollow(log[..i], log[i])
  }

  // ---- The invariant of the page ----

  // Every subscription is that of one element.
  ghost predicate Subscribed(p: Page) {
    && Faithful(p.roster)
    && (forall x | x in p.elements ::
          && p.elements[x].handle < |p.roster.subs|
          && p.roster.subs[p.elements[x].handle].fn == x
          && p.roster.subs[p.elements[x].handle].released == p.elements[x].released)
    && (forall k | 0 <= k < |p.roster.subs| ::
          p.roster.subs[k].fn in p.elements && p.elements[p.roster.subs[k].fn].handle == k)
  }

  // A pending timer is the current one of its element and belongs to the last
  // delivery to it.
  ghost predicate TimerOk(p: Page, id: TimerId, t: Timer) {
    && t.element in p.elements && p.elements[t.element].timer == Some(id)
    && Last(p.log, t.element) == Some(Entry.Delivered(t.element, t.due - REFRESH_DEBOUNCE_MS))
  }

  ghost predicate TimersOk(p: Page) {
    && (forall id | id in p.queue :: TimerOk(p, id, p.queue[id]))
    && (forall x | x in p.elements && p.elements[x].timer.Some? :: p.elements[x].timer.value < p.next)
    && (forall x, y | x in p.elements && y in p.elements && x != y ::
          p.elements[x].timer.Some? ==> p.elements[x].timer != p.elements[y].timer)
  }

  ghost predicate Pending(p: Page, e: Element, due: int) {
    exists id | id in p.queue :: p.queue[id] == Timer(e, due)
  }

  // The log tells which elements are released and which have a pending timer.
  ghost predicate LogOk(p: Page) {
    && WellTimed(p.log)
    && (p.log != [] ==> p.log[|p.log| - 1].at <= p.now)
    && (forall x :: IsReleased(p, x) <==> LastReleased(p.log, x))
    && (forall x, at | Last(p.log, x) == Some(Entry.Delivered(x, at)) :: Pending(p, x, at + REFRESH_DEBOUNCE_MS))
  }

  predicate IsReleased(p: Page, x: Element) {
    x in p.elements && p.elements[x].released
  }

  ghost predicate LastReleased(log: seq<Entry>, x: Element) {
    Last(log, x).Some? && Last(log, x).value.Released?
  }

  ghost predicate Invariant(p: Page) {
    Subscribed(p) && TimersOk(p) && LogOk(p)
  }

  lemma LastSnoc(log: seq<Entry>, x: Entry)
    ensures forall e :: Last(log + [x], e) == if x.element == e then Some(x) else Last(log, e)
  {
    assert (log + [x])[..|log|] == log;
  }

  lemma WellTimedSnoc(log: seq<Entry>, x: Entry)
    requires WellTimed(log) && MayFollow(log, x)
    ensures WellTimed(log + [x])
  {
    var log' := log + [x];
    forall i | 0 <= i < |log'|
      ensures MayFollow(log'[..i], log'[i])
    {
      if i < |log| {
        assert log'[..i] == log[..i];
        assert MayFollow(log[..i], log[i]);
      } else {
        assert log'[..i] == log;
      }
    }
  }

  // ---- Every step keeps the invariant ----

  lemma InitSubscribed(p: Page, x: Element, names: seq<string>)
    requires Subscribed(p) && x !in p.elements
    ensures Subscribed(Next(p, Init(x, names)))
  {
    assert Own(p.roster, names, x);
    SubscribeFaithful(p.roster, names, x);
    var subs, subs' := p.roster.subs, Next(p, Init(x, names)).roster.subs;
    assert forall k | 0 <= k < |subs| :: subs'[k] == subs[k];
  }

  lemma InitKeeps(p: Page, x: Element, names: seq<string>)
    requires Invariant(p) && x !in p.elements
    ensures Invariant(Next(p, Init(x, names)))
  {
    InitSubscribed(p, x, names);
    var p' := Next(p, Init(x, names));
    forall id | id in p'.queue
      ensures TimerOk(p', id, p'.queue[id])
    {
      assert TimerOk(p, id, p.queue[id]);
    }
    forall y
      ensures IsReleased(p', y) <==> LastReleased(p'.log, y)
    {
      assert IsReleased(p, y) <==> LastReleased(p.log, y);
    }
    forall y, at | Last(p'.log, y) == Some(Entry.Delivered(y, at))
      ensures Pending(p', y, at + REFRESH_DEBOUNCE_MS)
    {
      assert Pending(p, y, at + REFRESH_DEBOUNCE_MS);
    }
  }

  lemma RefreshTimers(p: Page, e: Element)
    requires TimersOk(p) && e in p.elements
    ensures TimersOk(Rearmed(p, e))
  {
    LastSnoc(p.log, Entry.Delivered(e, p.now));
    var p' := Rearmed(p, e);
    forall id | id in p'.queue
      ensures TimerOk(p', id, p'.queue[id])
    {
      if id != p.next {
        assert TimerOk(p, id, p.queue[id]) && p'.queue[id] == p.queue[id];
        assert p.queue[id].element != e;
      }
    }
  }

  // Clearing the timer of one element leaves the timers of the others.
  lemma OthersStayPending(p: Page, e: Element, x: Element, due: int)
    requires TimersOk(p) && e in p.elements && x != e && Pending(p, x, due)
    ensures exists id :: id in Cleared(p.queue, p.elements[e].timer) && p.queue[id] == Timer(x, due) && id < p.next
  {
    var id :| id in p.queue && p.queue[id] == Timer(x, due);
    assert TimerOk(p, id, p.queue[id]);
    assert id in Cleared(p.queue, p.elements[e].timer);
  }

  // One more entry: the timers of other elements stay, a delivery leaves a
  // pending timer, and only a release entry releases.
  lemma LogStep(p: Page, p': Page, x: Entry)
    requires LogOk(p) && MayFollow(p.log, x) && p'.log == p.log + [x] && x.at <= p'.now
    requires forall y, due | y != x.element && Pending(p, y, due) :: Pending(p', y, due)
    requires x.Delivered? ==> Pending(p', x.element, x.at + REFRESH_DEBOUNCE_MS)
    requires forall y :: IsReleased(p', y) <==> if y == x.element then x.Released? else IsReleased(p, y)
    ensures LogOk(p')
  {
    LastSnoc(p.log, x);
    WellTimedSnoc(p.log, x);
    forall y
      ensures IsReleased(p', y) <==> LastReleased(p'.log, y)
    {
      assert IsReleased(p, y) <==> LastReleased(p.log, y);
    }
  }

  lemma RefreshKeeps(p: Page, e: Element)
    requires Invariant(p) && Live(p, e)
    ensures Invariant(Rearmed(p, e))
  {
    RefreshTimers(p, e);
    RefreshLog(p, e);
  }

  lemma RefreshLog(p: Page, e: Element)
    requires TimersOk(p) && LogOk(p) && Live(p, e)
    ensures LogOk(Rearmed(p, e))
  {
    var p', x := Rearmed(p, e), Entry.Delivered(e, p.now);
    assert !IsReleased(p, e);
    forall y, due | y != e && Pending(p, y, due)
      ensures Pending(p', y, due)
    {
      OthersStayPending(p, e, y, due);
      var id :| id in Cleared(p.queue, p.elements[e].timer) && p.queue[id] == Timer(y, due) && id < p.next;
      assert p'.queue[id] == p.queue[id];
    }
    assert p'.queue[p.next] == Timer(e, p.now + REFRESH_DEBOUNCE_MS);
    LogStep(p, p', x);
  }

  // The same elements, released or not as before.
  ghost predicate SameElements(p: Page, q: Page) {
    p.elements.Keys == q.elements.Keys && forall x | x in p.elements :: q.elements[x].released == p.elements[x].released
  }

  predicate Live(p: Page, e: Element) {
    e in p.elements && !p.elements[e].released
  }

  lemma RefreshSame(p: Page, q: Page, e: Element)
    requires SameElements(p, q) && Live(p, e)
    ensures Live(q, e) && SameElements(p, Rearmed(q, e))
  {
    assert q.elements[e].released == p.elements[e].released;
  }

  lemma {:induction false} RefreshAllKeeps(p: Page, es: seq<Element>)
    requires Invariant(p) && forall e | e in es :: Live(p, e)
    ensures Invariant(RearmedAll(p, es)) && SameElements(p, RearmedAll(p, es))
  {
    if es != [] {
      var init, last := es[..|es| - 1], es[|es| - 1];
      RefreshAllKeeps(p, init);
      RefreshSame(p, RearmedAll(p, init), last);
      RefreshKeeps(RearmedAll(p, init), last);
    }
  }

  // Only elements that are not released receive an event.
  lemma ReceiversAreLive(p: Page, name: string)
    requires Subscribed(p)
    ensures forall e | e in LiveRoster.Delivered(p.roster, name) :: Live(p, e)
  {
    var es := LiveRoster.Delivered(p.roster, name);
    assert Members(p.roster.handlers, name) == Expected(p.roster.subs, name);
    forall e | e in es
      ensures Live(p, e)
    {
      ExpectedMember(p.roster.subs, name, e);
      var k: nat :| Active(p.roster.subs, k, name) && p.roster.subs[k].fn == e;
    }
  }

  lemma FireTimers(p: Page, id: TimerId, attached: bool)
    requires TimersOk(p) && id in p.queue && p.now >= p.queue[id].due
    ensures TimersOk(Next(p, Fire(id, attached)))
  {
    var p', t := Next(p, Fire(id, attached)), p.queue[id];
    assert TimerOk(p, id, t);
    LastSnoc(p.log, Fired(t.element, p.now, t.due, attached));
    forall i | i in p'.queue
      ensures TimerOk(p', i, p'.queue[i])
    {
      assert TimerOk(p, i, p.queue[i]);
    }
  }

  lemma FireKeeps(p: Page, id: TimerId, attached: bool)
    requires Invariant(p) && id in p.queue && p.now >= p.queue[id].due
    ensures Invariant(Next(p, Fire(id, attached)))
  {
    var p', t := Next(p, Fire(id, attached)), p.queue[id];
    FireTimers(p, id, attached);
    assert TimerOk(p, id, t);
    assert !LastReleased(p.log, t.element) && !IsReleased(p, t.element);
    forall y, due | y != t.element && Pending(p, y, due)
      ensures Pending(p', y, due)
    {
      var i :| i in p.queue && p.queue[i] == Timer(y, due);
      assert i in p'.queue;
    }
    LogStep(p, p', Fired(t.element, p.now, t.due, attached));
  }

  lemma ReleaseSubscribed(p: Page, x: Element)
    requires Subscribed(p) && x in p.elements && !p.elements[x].released
    ensures Subscribed(Next(p, ReleaseElement(x)))
  {
    ReleaseFaithful(p.roster, p.elements[x].handle);
    var k := p.elements[x].handle;
    var subs, subs' := p.roster.subs, Next(p, ReleaseElement(x)).roster.subs;
    assert forall j | 0 <= j < |subs| && j != k :: subs'[j] == subs[j];
  }

  lemma ReleaseTimers(p: Page, x: Element)
    requires TimersOk(p) && x in p.elements && !p.elements[x].released
    ensures TimersOk(Next(p, ReleaseElement(x)))
  {
    var p' := Next(p, ReleaseElement(x));
    LastSnoc(p.log, Released(x, p.now));
    forall id | id in p'.queue
      ensures TimerOk(p', id, p'.queue[id])
    {
      assert TimerOk(p, id, p.queue[id]);
    }
  }

  lemma ReleaseKeeps(p: Page, x: Element)
    requires Invariant(p) && x in p.elements && !p.elements[x].released
    ensures Invariant(Next(p, ReleaseElement(x)))
  {
    var p' := Next(p, ReleaseElement(x));
    ReleaseSubscribed(p, x);
    ReleaseTimers(p, x);
    assert !IsReleased(p, x);
    forall y, due | y != x && Pending(p, y, due)
      ensures Pending(p', y, due)
    {
      OthersStayPending(p, x, y, due);
    }
    LogStep(p, p', Released(x, p.now));
  }

  lemma NextKeeps(p: Page, e: Event)
    requires Invariant(p)
    ensures Invariant(Next(p, e))
  {
    match e
    case Init(x, names) =>
      if x !in p.elements {
        InitKeeps(p, x, names);
      }
    case Arrive(name) =>
      ReceiversAreLive(p, name);
      RefreshAllKeeps(p, LiveRoster.Delivered(p.roster, name));
    case Fire(id, attached) =>
      if id in p.queue && p.now >= p.queue[id].due {
        FireKeeps(p, id, attached);
      }
    case ReleaseElement(x) =>
      if x in p.elements && !p.elements[x].released {
        ReleaseKeeps(p, x);
      }
    case _ => QuietKeeps(p, e);
  }

  lemma QuietKeeps(p: Page, e: Event)
    requires Invariant(p) && (e.Pass? || e.Lose? || e.Reconnect?)
    ensures Invariant(Next(p, e))
  {
    var p' := Next(p, e);
    assert p'.log == p.log && p'.queue == p.queue && p'.elements == p.elements;
    assert TimersOk(p');
    forall y, at | Last(p'.log, y) == Some(Entry.Delivered(y, at))
      ensures Pending(p', y, at + REFRESH_DEBOUNCE_MS)
    {
      assert Pending(p, y, at + REFRESH_DEBOUNCE_MS);
    }
  }

  lemma {:induction false} RunKeeps(start: int, events: seq<Event>)
    ensures Invariant(Run(start, events))
  {
    if events != [] {
      RunKeeps(start, events[..|events| - 1]);
      NextKeeps(Run(start, events[..|events| - 1]), events[|events| - 1]);
    }
  }

  // ---- What every run shows ----

  // No two pending timers belong to the same element.
  lemma OnePendingTimer(start: int, events: seq<Event>, a: TimerId, b: TimerId)
    requires var q := Run(start, events).queue; a in q && b in q && q[a].element == q[b].element
    ensures a == b
  {
    RunKeeps(start, events);
    var p := Run(start, events);
    assert TimerOk(p, a, p.queue[a]) && TimerOk(p, b, p.queue[b]);
  }

  lemma {:induction false} LastIs(log: seq<Entry>, e: Element) returns (j: int)
    ensures -1 <= j < |log| && (j == -1 <==> Last(log, e) == None)
    ensures j >= 0 ==> Last(log, e) == Some(log[j]) && log[j].element == e
    ensures forall k | j < k < |log| :: log[k].element != e
  {
    j := |log| - 1;
    if log != [] && log[j].element != e {
      var init := log[..j];
      j := LastIs(init, e);
      assert forall k | 0 <= k < |init| :: init[k] == log[k];
    }
  }

  // Every timer that fires, and so every request, answers a delivery made
  // exactly 450 ms before it was due, with nothing about the element between.
  // A timer that fires on time fires 450 ms after the event.
  lemma EveryRequestHasItsEvent(start: int, events: seq<Event>, i: nat) returns (j: nat)
    requires i < |Run(start, events).log| && Run(start, events).log[i].Fired?
    ensures var log := Run(start, events).log;
            && j < i && log[j] == Entry.Delivered(log[i].element, log[i].due - 450)
            && (forall k | j < k < i :: log[k].element != log[i].element)
            && log[i].at >= log[i].due
  {
    RunKeeps(start, events);
    var log := Run(start, events).log;
    assert MayFollow(log[..i], log[i]);
    var n := LastIs(log[..i], log[i].element);
    j := n;
    forall k | j < k < i
      ensures log[k].element != log[i].element
    {
      assert log[..i][k] == log[k];
    }
  }

  // A released element never receives an event nor issues a request again.
  lemma SilentAfterRelease(start: int, events: seq<Event>, i: nat, k: nat)
    requires i < k < |Run(start, events).log| && Run(start, events).log[i].Released?
    ensures Run(start, events).log[k].element != Run(start, events).log[i].element
  {
    RunKeeps(start, events);
    var log := Run(start, events).log;
    ReleaseSeals(log, i, k);
  }

  lemma {:induction false} ReleaseSeals(log: seq<Entry>, i: nat, k: nat)
    requires WellTimed(log) && i < k < |log| && log[i].Released?
    ensures log[k].element != log[i].element
    decreases k
  {
    forall m | i < m < k
      ensures log[m].element != log[i].element
    {
      ReleaseSeals(log, i, m);
    }
    assert MayFollow(log[..k], log[k]);
    var j := LastIs(log[..k], log[i].element);
    assert log[..k][i] == log[i];
    assert j == i;
  }

  // ---- Bursts ----

  // The time of the last delivery to the element.
  function LastDelivery(log: seq<Entry>, e: Element): Option<int> {
    if log == [] then None
    else if log[|log| - 1].element == e && log[|log| - 1].Delivered? then Some(log[|log| - 1].at)
    else LastDelivery(log[..|log| - 1], e)
  }

  // How often a timer of the element fires in log[m..].
  function Firings(log: seq<Entry>, e: Element, m: nat): nat
    requires m <= |log|
  {
    if |log| == m then 0
    else
      var x := log[|log| - 1];
      Firings(log[..|log| - 1], e, m) + if x.element == e && x.Fired? then 1 else 0
  }

  // From index m on the element is never released, and each delivery comes less
  // than 450 ms after the one before.
  ghost predicate Burst(log: seq<Entry>, e: Element, m: nat) {
    && m < |log| && log[m].element == e && log[m].Delivered?
    && forall i | m < i < |log| && log[i].element == e ::
         && !log[i].Released?
         && (log[i].Delivered? ==> LastDelivery(log[..i], e).Some? &&
                                   log[i].at < LastDelivery(log[..i], e).value + 450)
  }

  // The timer has fired once, after the last delivery, or not yet.
  ghost predicate BurstState(log: seq<Entry>, e: Element, m: nat) {
    && m < |log| && LastDelivery(log, e).Some?
    && var d := LastDelivery(log, e).value;
       if Last(log, e) == Some(Entry.Delivered(e, d)) then Firings(log, e, m) == 0
       else Firings(log, e, m) == 1 && d + REFRESH_DEBOUNCE_MS <= log[|log| - 1].at
  }

  lemma BurstStep(log: seq<Entry>, x: Entry, e: Element, m: nat)
    requires BurstState(log, e, m) && MayFollow(log, x)
    requires x.element == e ==> !x.Released? && (x.Delivered? ==> x.at < LastDelivery(log, e).value + REFRESH_DEBOUNCE_MS)
    ensures BurstState(log + [x], e, m)
  {
    LastSnoc(log, x);
    LastIsDelivery(log, e);
    assert (log + [x])[..|log|] == log;
  }

  lemma {:induction false} LastIsDelivery(log: seq<Entry>, e: Element)
    ensures Last(log, e).Some? && Last(log, e).value.Delivered? ==> LastDelivery(log, e) == Some(Last(log, e).value.at)
  {
    if log != [] {
      LastIsDelivery(log[..|log| - 1], e);
    }
  }

  lemma {:induction false} BurstSoFar(log: seq<Entry>, e: Element, m: nat)
    requires WellTimed(log) && Burst(log, e, m)
    ensures BurstState(log, e, m)
    decreases |log|
  {
    var n := |log| - 1;
    if n == m {
      assert Firings(log[..n], e, m) == 0;
    } else {
      PrefixOfBurst(log, e, m);
      BurstSoFar(log[..n], e, m);
      BurstExtends(log, e, m);
    }
  }

  lemma BurstExtends(log: seq<Entry>, e: Element, m: nat)
    requires WellTimed(log) && Burst(log, e, m) && m < |log| - 1 && BurstState(log[..|log| - 1], e, m)
    ensures BurstState(log, e, m)
  {
    var n := |log| - 1;
    assert log[..n] + [log[n]] == log;
    assert MayFollow(log[..n], log[n]);
    BurstStep(log[..n], log[n], e, m);
  }

  lemma PrefixOfBurst(log: seq<Entry>, e: Element, m: nat)
    requires WellTimed(log) && Burst(log, e, m) && m < |log| - 1
    ensures WellTimed(log[..|log| - 1]) && Burst(log[..|log| - 1], e, m)
  {
    var init := log[..|log| - 1];
    forall i | 0 <= i < |init|
      ensures init[..i] == log[..i] && init[i] == log[i] && MayFollow(init[..i], init[i])
    {
      assert MayFollow(log[..i], log[i]);
    }
  }

  // A burst followed by quiet fires exactly once: at the end of any run without
  // a pending timer for the element, its last burst has fired one timer.
  lemma BurstFiresOnce(start: int, events: seq<Event>, e: Element, m: nat)
    requires var p := Run(start, events); Burst(p.log, e, m) && forall due :: !Pending(p, e, due)
    ensures Firings(Run(start, events).log, e, m) == 1
  {
    RunKeeps(start, events);
    var p := Run(start, events);
    BurstSoFar(p.log, e, m);
    var at := LastDelivery(p.log, e).value;
    assert !Pending(p, e, at + REFRESH_DEBOUNCE_MS);
  }

  // ---- What each event does ----

  // The pending timers of one element.
  function TimersOf(p: Page, x: Element): Queue {
    map id | id in p.queue && p.queue[id].element == x :: p.queue[id]
  }

  // The element has one pending timer, due then.
  ghost predicate Armed(p: Page, x: Element, due: int) {
    exists id :: TimersOf(p, x) == map[id := Timer(x, due)]
  }

  function Deliveries(es: seq<Element>, now: int): seq<Entry> {
    seq(|es|, i requires 0 <= i < |es| => Entry.Delivered(es[i], now))
  }

  // The events of the page that concern neither the roster nor the clock.
  predicate SameFrame(p: Page, q: Page) {
    && q.roster == p.roster && q.now == p.now && q.elements.Keys == p.elements.Keys
    && forall x | x in p.elements ::
         q.elements[x].handle == p.elements[x].handle && q.elements[x].released == p.elements[x].released
  }

  // What the closures of these elements have done.
  ghost predicate Refreshed(p: Page, q: Page, es: seq<Element>) {
    && q.log == p.log + Deliveries(es, p.now)
    && (forall e | e in es :: Armed(q, e, p.now + 450))
    && (forall x | x !in es :: TimersOf(q, x) == TimersOf(p, x))
    && SameFrame(p, q)
  }

  lemma RearmedTimers(p: Page, e: Element)
    requires TimersOk(p) && e in p.elements
    ensures Armed(Rearmed(p, e), e, p.now + 450)
    ensures forall x | x != e :: TimersOf(Rearmed(p, e), x) == TimersOf(p, x)
  {
    forall id | id in p.queue
      ensures p.queue[id].element == e <==> p.elements[e].timer == Some(id)
      ensures id < p.next
    {
      assert TimerOk(p, id, p.queue[id]);
    }
    OwnTimer(p.queue, p.elements[e].timer, p.next, Timer(e, p.now + REFRESH_DEBOUNCE_MS));
    forall x | x != e
      ensures TimersOf(Rearmed(p, e), x) == TimersOf(p, x)
    {
      OtherTimers(p.queue, p.elements[e].timer, p.next, Timer(e, p.now + REFRESH_DEBOUNCE_MS), x);
    }
  }

  lemma OwnTimer(queue: Queue, timer: Option<TimerId>, next: TimerId, t: Timer)
    requires forall id | id in queue :: queue[id].element == t.element ==> timer == Some(id)
    ensures var after := Cleared(queue, timer)[next := t];
            (map id | id in after && after[id].element == t.element :: after[id]) == map[next := t]
  {
  }

  // Replacing a timer of one element leaves those of another.
  lemma OtherTimers(queue: Queue, timer: Option<TimerId>, next: TimerId, t: Timer, x: Element)
    requires t.element != x && next !in queue
    requires timer.Some? && timer.value in queue ==> queue[timer.value].element != x
    ensures var after := Cleared(queue, timer)[next := t];
            (map id | id in after && after[id].element == x :: after[id]) ==
            (map id | id in queue && queue[id].element == x :: queue[id])
  {
  }

  lemma RefreshedStep(p: Page, q: Page, es: seq<Element>, e: Element)
    requires Refreshed(p, q, es) && TimersOk(q) && e in q.elements && e !in es
    ensures Refreshed(p, Rearmed(q, e), es + [e])
  {
    RearmedTimers(q, e);
    assert Deliveries(es + [e], p.now) == Deliveries(es, p.now) + [Entry.Delivered(e, p.now)];
    var r := Rearmed(q, e);
    forall x | x in es + [e]
      ensures Armed(r, x, p.now + 450)
    {
      if x != e {
        assert Armed(q, x, p.now + 450) && TimersOf(r, x) == TimersOf(q, x);
      }
    }
  }

  lemma RefreshedLast(p: Page, q: Page, es: seq<Element>)
    requires es != [] && NoRepeats(es) && es[|es| - 1] in p.elements
    requires Refreshed(p, q, es[..|es| - 1]) && TimersOk(q)
    ensures Refreshed(p, Rearmed(q, es[|es| - 1]), es) && TimersOk(Rearmed(q, es[|es| - 1]))
  {
    var init, last := es[..|es| - 1], es[|es| - 1];
    assert last !in init;
    RefreshedStep(p, q, init, last);
    RefreshTimers(q, last);
    assert init + [last] == es;
  }

  lemma {:induction false} RefreshedAll(p: Page, es: seq<Element>)
    requires TimersOk(p) && (forall e | e in es :: e in p.elements) && NoRepeats(es)
    ensures Refreshed(p, RearmedAll(p, es), es) && TimersOk(RearmedAll(p, es))
  {
    if es == [] {
      assert p.log + Deliveries(es, p.now) == p.log;
    } else {
      RefreshedAll(p, es[..|es| - 1]);
      RefreshedLast(p, RearmedAll(p, es[..|es| - 1]), es);
    }
  }

  // An event reaches exactly the elements whose subscription lists its name, if
  // the connection is open: each is delivered it once, and has then one pending
  // timer, due in 450 ms; the timers of the others stay.
  lemma ArriveReaches(start: int, events: seq<Event>, name: string)
    ensures var p := Run(start, events);
            var es := if Online(p.roster) then Expected(p.roster.subs, name) else [];
            NoRepeats(es) && Refreshed(p, Next(p, Arrive(name)), es)
  {
    RunKeeps(start, events);
    var p := Run(start, events);
    ReceiversAreLive(p, name);
    ExpectedOnce(p.roster.subs, name);
    assert Members(p.roster.handlers, name) == Expected(p.roster.subs, name);
    RefreshedAll(p, LiveRoster.Delivered(p.roster, name));
  }

  // Wiring an element subscribes it to the names given and sets no timer; an
  // element is wired once.
  lemma InitWires(start: int, events: seq<Event>, x: Element, names: seq<string>)
    ensures var p := Run(start, events);
            var q := Next(p, Init(x, names));
            && (x in p.elements ==> q == p)
            && (x !in p.elements ==>
                  && q.roster.subs == p.roster.subs + [Sub(names, x, false)] && q.roster.offline == p.roster.offline
                  && q.elements == p.elements[x := Wired(|p.roster.subs|, None, false)] && TimersOf(q, x) == map[]
                  && q.queue == p.queue && q.log == p.log && q.now == p.now
                  && forall name | name in names :: x in Expected(q.roster.subs, name))
  {
    RunKeeps(start, events);
    var p := Run(start, events);
    if x !in p.elements {
      forall id | id in p.queue
        ensures p.queue[id].element != x
      {
        assert TimerOk(p, id, p.queue[id]);
      }
      forall name | name in names
        ensures x in Expected(p.roster.subs + [Sub(names, x, false)], name)
      {
        ExpectedSnoc(p.roster.subs, Sub(names, x, false), name);
      }
    }
  }

  // A timer that is due fires once: it is gone, and a request is made if the
  // element is still attached. No other timer fires.
  lemma FireFires(p: Page, id: TimerId, attached: bool)
    ensures var q := Next(p, Fire(id, attached));
            if id in p.queue && p.queue[id].due <= p.now then
              && q.log == p.log + [Fired(p.queue[id].element, p.now, p.queue[id].due, attached)]
              && q.queue == p.queue - {id} && q.elements == p.elements && SameFrame(p, q)
            else q == p
  {
  }

  // Releasing an element ends its subscription and clears its timer; the timers
  // and subscriptions of the others stay. A second release does nothing.
  lemma ReleaseEnds(start: int, events: seq<Event>, x: Element)
    ensures var p := Run(start, events);
            var q := Next(p, ReleaseElement(x));
            && (!Live(p, x) ==> q == p)
            && (Live(p, x) ==>
                  && q.log == p.log + [Released(x, p.now)] && TimersOf(q, x) == map[]
                  && (forall y | y != x :: TimersOf(q, y) == TimersOf(p, y))
                  && (forall name :: x !in Expected(q.roster.subs, name))
                  && (forall name, y | y != x :: y in Expected(q.roster.subs, name) <==> y in Expected(p.roster.subs, name))
                  && IsReleased(q, x) && q.now == p.now)
  {
    RunKeeps(start, events);
    var p := Run(start, events);
    if Live(p, x) {
      ReleaseClears(p, x);
      ReleaseUnsubscribes(p, x);
    }
  }

  lemma ReleaseClears(p: Page, x: Element)
    requires TimersOk(p) && Live(p, x)
    ensures var q := Next(p, ReleaseElement(x));
            TimersOf(q, x) == map[] && forall y | y != x :: TimersOf(q, y) == TimersOf(p, y)
  {
    var q := Next(p, ReleaseElement(x));
    forall id | id in p.queue
      ensures p.queue[id].element == x ==> id !in q.queue
      ensures p.queue[id].element != x ==> id in q.queue
    {
      assert TimerOk(p, id, p.queue[id]);
    }
  }

  lemma ReleaseUnsubscribes(p: Page, x: Element)
    requires Subscribed(p) && Live(p, x)
    ensures var subs := Next(p, ReleaseElement(x)).roster.subs;
            && (forall name :: x !in Expected(subs, name))
            && forall name, y | y != x :: y in Expected(subs, name) <==> y in Expected(p.roster.subs, name)
  {
    forall name, y
      ensures y in Expected(Next(p, ReleaseElement(x)).roster.subs, name) <==>
              y in Expected(p.roster.subs, name) && y != x
    {
      ReleaseUnlists(p.roster.subs, p.elements[x].handle, name, y);
      if x in Expected(p.roster.subs, name) {
        OnlyHandle(p, x, name);
      }
    }
  }

  lemma ReleaseUnlists(subs: seq<Sub>, k: nat, name: string, y: Element)
    requires OwnFunctions(subs) && k < |subs| && !subs[k].released
    ensures y in Expected(subs[k := subs[k].(released := true)], name) <==>
            y in Expected(subs, name) && (y == subs[k].fn ==> name !in subs[k].names)
  {
    ExpectedAfterRelease(subs, k, name);
    RemoveIs(Expected(subs, name), subs[k].fn);
  }

  // An element listens through its own handle alone.
  lemma OnlyHandle(p: Page, x: Element, name: string)
    requires Subscribed(p) && x in p.elements && x in Expected(p.roster.subs, name)
    ensures name in p.roster.subs[p.elements[x].handle].names
  {
    ExpectedMember(p.roster.subs, name, x);
    var j: nat :| Active(p.roster.subs, j, name) && p.roster.subs[j].fn == x;
  }

  // The clock and the latch.
  lemma QuietEvents(p: Page, elapsed: nat)
    ensures Next(p, Pass(elapsed)) == p.(now := p.now + elapsed)
    ensures var q := Next(p, Lose);
            q.roster.subs == p.roster.subs && q.roster.handlers == p.roster.handlers && q.queue == p.queue
            && (Refs(p.roster.subs) > 0 ==> q.roster.offline)
    ensures var q := Next(p, Reconnect);
            q.roster.subs == p.roster.subs && q.roster.handlers == p.roster.handlers && q.queue == p.queue
            && !q.roster.offline
  {
  }

  // ---- The closure as the objects it works on ----

  class Window {
    var queue: Queue
    var next: TimerId

    constructor ()
      ensures queue == map[] && next == 0
    {
      queue, next := map[], 0;
    }

    method ClearTimeout(timer: Option<TimerId>)
      modifies this`queue
      ensures queue == Cleared(old(queue), timer)
    {
      if timer.Some? {
        queue := queue - {timer.value};
      }
    }

    method SetTimeout(t: Timer) returns (id: TimerId)
      modifies this
      ensures id == old(next) && next == id + 1 && queue == old(queue)[id := t]
    {
      id := next;
      queue := queue[id := t];
      next := next + 1;
    }
  }

  // One element with its closure: the timer, and the hook that holds the
  // subscription.
  class LiveElement {
    const element: Element
    const handle: Handle
    var timer: Option<TimerId>
    var released: bool

    // The turn of initLiveRefresh for one element that is not wired yet.
    constructor (live: LiveConnection, element: Element, names: seq<string>, ghost p: Page)
      requires live.Valid() && live.roster == p.roster && element !in p.elements
      modifies live, live.created
      ensures var q := Next(p, Init(element, names));
              && live.Valid() && live.roster == q.roster && fresh(live.created - old(live.created))
              && this.element == element && ShowsElement(q) && Holds(q) && fresh(handle)
    {
      var release := live.Subscribe(names, element);
      this.element, handle, timer, released := element, release, None, false;
    }

    // The state of this element on the page, and of the page's timers.
    ghost predicate ShowsElement(p: Page)
      reads this`timer, this`released
    {
      element in p.elements && p.elements[element].timer == timer && p.elements[element].released == released
    }

    ghost predicate Shows(p: Page, w: Window)
      reads this`timer, this`released, w
    {
      w.queue == p.queue && w.next == p.next && ShowsElement(p)
    }

    // The hook releases the subscription of this element.
    ghost predicate Holds(p: Page)
      reads handle`released
    {
      && element in p.elements && p.elements[element].handle < |p.roster.subs|
      && handle.Of(p.roster.subs[p.elements[element].handle], p.elements[element].handle)
    }

    method Refresh(w: Window, now: int, ghost p: Page)
      requires Shows(p, w) && p.now == now
      modifies this`timer, w
      ensures Shows(Rearmed(p, element), w)
    {
      w.ClearTimeout(timer);
      var id := w.SetTimeout(Timer(element, now + REFRESH_DEBOUNCE_MS));
      timer := Some(id);
    }

    // releaseLiveElement: the hook is used once, clears the timer and releases
    // the subscription.
    method Release(live: LiveConnection, w: Window, ghost p: Page)
      requires Invariant(p) && Shows(p, w) && Holds(p)
      requires live.Valid() && live.roster == p.roster
      modifies this`released, w`queue, handle`released, live, live.created
      ensures var q := Next(p, ReleaseElement(element));
              && Shows(q, w) && Holds(q)
              && live.Valid() && live.roster == q.roster && live.created == old(live.created)
    {
      if released {
        return;
      }
      w.ClearTimeout(timer);
      live.Release(handle, p.elements[element].handle);
      released := true;
    }
  }
}
