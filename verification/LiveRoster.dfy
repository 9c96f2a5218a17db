/**
 * Who receives what: the subscriber sets of app/assets/core/live.js after any
 * sequence of subscribe, release, fatal error and resume.
 *
 * A subscriber function is known by its identity. A JavaScript Set keeps its
 * members in insertion order, so a subscriber set is a sequence without repeats.
 */
module LiveRoster {

  type Fn = nat

  type Handlers = map<string, seq<Fn>>

  // One call of subscribe and the state of the handle it returned.
  datatype Sub = Sub(names: seq<string>, fn: Fn, released: bool)

  datatype Roster = Roster(handlers: Handlers, subs: seq<Sub>, offline: bool)

  const EMPTY := Roster(map[], [], false)

  datatype Op =
    | Subscribe(names: seq<string>, fn: Fn)
    | Release(handle: nat)
    | Fatal
    | Resume

  // Set.add and Set.delete.
  function Add(s: seq<Fn>, fn: Fn): seq<Fn> {
    if fn in s then s else s + [fn]
  }

  function Remove(s: seq<Fn>, fn: Fn): seq<Fn> {
    if s == [] then []
    else Remove(s[..|s| - 1], fn) + if s[|s| - 1] == fn then [] else [s[|s| - 1]]
  }

  function Members(h: Handlers, name: string): seq<Fn> {
    if name in h then h[name] else []
  }

  function AddName(h: Handlers, name: string, fn: Fn): Handlers {
    h[name := Add(Members(h, name), fn)]
  }

  // A name whose set becomes empty is dropped.
  function RemoveName(h: Handlers, name: string, fn: Fn): Handlers {
    if name !in h then h
    else if Remove(h[name], fn) == [] then h - {name}
    else h[name := Remove(h[name], fn)]
  }

  // The loops of subscribe and of the release closure.
  function AddNames(h: Handlers, names: seq<string>, fn: Fn): Handlers {
    if names == [] then h else AddName(AddNames(h, names[..|names| - 1], fn), names[|names| - 1], fn)
  }

  function RemoveNames(h: Handlers, names: seq<string>, fn: Fn): Handlers {
    if names == [] then h else RemoveName(RemoveNames(h, names[..|names| - 1], fn), names[|names| - 1], fn)
  }

  function Refs(subs: seq<Sub>): nat {
    if subs == [] then 0 else Refs(subs[..|subs| - 1]) + if subs[|subs| - 1].released then 0 else 1
  }

  function Apply(r: Roster, op: Op): Roster {
    match op
    case Subscribe(names, fn) =>
      r.(handlers := AddNames(r.handlers, names, fn), subs := r.subs + [Sub(names, fn, false)])
    case Release(k) =>
      if k >= |r.subs| || r.subs[k].released then r
      else
        r.(handlers := RemoveNames(r.handlers, r.subs[k].names, r.subs[k].fn),
           subs := r.subs[k := r.subs[k].(released := true)])
    case Fatal =>
      if Refs(r.subs) > 0 then r.(offline := true) else r
    case Resume =>
      r.(offline := false)
  }

  function Replay(ops: seq<Op>): Roster {
    if ops == [] then EMPTY else Apply(Replay(ops[..|ops| - 1]), ops[|ops| - 1])
  }

  predicate Online(r: Roster) {
    Refs(r.subs) > 0 && !r.offline
  }

  // The functions that a named event calls, in order.
  function Delivered(r: Roster, name: string): seq<Fn> {
    if Online(r) then Members(r.handlers, name) else []
  }

  // ---- The reference: unreleased subscriptions that list the name, in order ----

  function Expected(subs: seq<Sub>, name: string): seq<Fn> {
    if subs == [] then []
    else
      var s := subs[|subs| - 1];
      Expected(subs[..|subs| - 1], name) + if !s.released && name in s.names then [s.fn] else []
  }

  predicate Active(subs: seq<Sub>, k: nat, name: string) {
    k < |subs| && !subs[k].released && name in subs[k].names
  }

  // No two unreleased subscriptions share a function and a name.
  ghost predicate OwnFunctions(subs: seq<Sub>) {
    forall j: nat, k: nat, name | j < k && Active(subs, j, name) && Active(subs, k, name) :: subs[j].fn != subs[k].fn
  }

  ghost predicate Faithful(r: Roster) {
    && OwnFunctions(r.subs)
    && (forall name :: Members(r.handlers, name) == Expected(r.subs, name))
    && Tidy(r.handlers)
  }

  // No name keeps an empty set.
  ghost predicate Tidy(h: Handlers) {
    forall name | name in h :: h[name] != []
  }

  // The subscription passes a function of its own.
  ghost predicate Own(r: Roster, names: seq<string>, fn: Fn) {
    forall k: nat, name | Active(r.subs, k, name) && name in names :: r.subs[k].fn != fn
  }

  lemma ExpectedSnoc(subs: seq<Sub>, s: Sub, name: string)
    ensures Expected(subs + [s], name) ==
            if !s.released && name in s.names then Expected(subs, name) + [s.fn] else Expected(subs, name)
  {
    assert (subs + [s])[..|subs|] == subs;
  }

  // Some unreleased subscription passes the function and lists the name.
  ghost predicate Listens(subs: seq<Sub>, name: string, fn: Fn) {
    exists k: nat :: Active(subs, k, name) && subs[k].fn == fn
  }

  lemma ListensSnoc(subs: seq<Sub>, s: Sub, name: string, fn: Fn)
    ensures Listens(subs + [s], name, fn) <==> Listens(subs, name, fn) || (!s.released && name in s.names && s.fn == fn)
  {
    var more := subs + [s];
    if Listens(subs, name, fn) {
      var k: nat :| Active(subs, k, name) && subs[k].fn == fn;
      assert Active(more, k, name) && more[k].fn == fn;
    } else if !s.released && name in s.names && s.fn == fn {
      assert Active(more, |subs|, name) && more[|subs|].fn == fn;
    } else {
      forall k: nat | Active(more, k, name)
        ensures more[k].fn != fn
      {
        assert k < |subs| ==> Active(subs, k, name) && more[k] == subs[k];
      }
    }
  }

  lemma {:induction false} ExpectedMember(subs: seq<Sub>, name: string, fn: Fn)
    ensures fn in Expected(subs, name) <==> Listens(subs, name, fn)
  {
    if subs != [] {
      var init, last := subs[..|subs| - 1], subs[|subs| - 1];
      assert subs == init + [last];
      ExpectedMember(init, name, fn);
      ExpectedSnoc(init, last, name);
      ListensSnoc(init, last, name, fn);
    }
  }

  lemma {:induction false} RemoveIs(s: seq<Fn>, fn: Fn)
    ensures forall x :: x in Remove(s, fn) <==> x in s && x != fn
    ensures fn !in s ==> Remove(s, fn) == s
  {
    if s != [] {
      var init := s[..|s| - 1];
      assert s == init + [s[|s| - 1]];
      RemoveIs(init, fn);
    }
  }

  lemma RemoveTwice(s: seq<Fn>, fn: Fn)
    ensures Remove(Remove(s, fn), fn) == Remove(s, fn)
  {
    RemoveIs(s, fn);
    RemoveIs(Remove(s, fn), fn);
  }

  lemma {:induction false} AddNamesAt(h: Handlers, names: seq<string>, fn: Fn, n: string)
    ensures n in AddNames(h, names, fn) <==> n in h || n in names
    ensures Members(AddNames(h, names, fn), n) == if n in names then Add(Members(h, n), fn) else Members(h, n)
  {
    if names != [] {
      var init, last := names[..|names| - 1], names[|names| - 1];
      assert names == init + [last];
      AddNamesAt(h, init, fn, n);
    }
  }

  // What the loop leaves of a set once it has met the name.
  lemma RemoveNameAt(h: Handlers, name: string, fn: Fn, n: string)
    ensures Members(RemoveName(h, name, fn), n) == if n == name then Remove(Members(h, n), fn) else Members(h, n)
    ensures n in RemoveName(h, name, fn) <==> n in h && (n == name ==> Remove(Members(h, n), fn) != [])
  {
  }

  lemma {:induction false} RemoveNamesAt(h: Handlers, names: seq<string>, fn: Fn, n: string)
    ensures Members(RemoveNames(h, names, fn), n) == if n in names then Remove(Members(h, n), fn) else Members(h, n)
    ensures n in RemoveNames(h, names, fn) <==> n in h && (n in names ==> Remove(Members(h, n), fn) != [])
  {
    if names != [] {
      var init, last := names[..|names| - 1], names[|names| - 1];
      InPrefixOrLast(names, n);
      RemoveNamesAt(h, init, fn, n);
      RemoveNameAt(RemoveNames(h, init, fn), last, fn, n);
      RemoveTwice(Members(h, n), fn);
    }
  }

  lemma InPrefixOrLast(names: seq<string>, n: string)
    requires names != []
    ensures n in names <==> n in names[..|names| - 1] || n == names[|names| - 1]
  {
    assert names == names[..|names| - 1] + [names[|names| - 1]];
  }

  lemma TidyAfterAdd(h: Handlers, names: seq<string>, fn: Fn)
    requires Tidy(h)
    ensures Tidy(AddNames(h, names, fn))
  {
    forall n | n in AddNames(h, names, fn)
      ensures Members(AddNames(h, names, fn), n) != []
    {
      AddNamesAt(h, names, fn, n);
    }
  }

  lemma TidyAfterRemove(h: Handlers, names: seq<string>, fn: Fn)
    requires Tidy(h)
    ensures Tidy(RemoveNames(h, names, fn))
  {
    forall n | n in RemoveNames(h, names, fn)
      ensures Members(RemoveNames(h, names, fn), n) != []
    {
      RemoveNamesAt(h, names, fn, n);
    }
  }

  // Releasing one subscription removes its function from the reference, and
  // nothing else, when the function is its own.
  lemma {:induction false} ExpectedAfterRelease(subs: seq<Sub>, k: nat, name: string)
    requires k < |subs| && !subs[k].released && OwnFunctions(subs)
    ensures Expected(subs[k := subs[k].(released := true)], name) ==
            if name in subs[k].names then Remove(Expected(subs, name), subs[k].fn) else Expected(subs, name)
  {
    var last := |subs| - 1;
    var init, gone := subs[..last], subs[k].(released := true);
    OwnPrefix(subs);
    assert subs == init + [subs[last]];
    ExpectedSnoc(init, subs[last], name);
    if k == last {
      assert subs[k := gone] == init + [gone];
      ExpectedSnoc(init, gone, name);
      if name in subs[k].names {
        NotInPrefix(subs, name);
        RemoveIs(Expected(init, name), subs[k].fn);
        RemoveSnoc(Expected(init, name), subs[k].fn, subs[k].fn);
      }
    } else {
      assert subs[k := gone] == init[k := gone] + [subs[last]];
      ExpectedSnoc(init[k := gone], subs[last], name);
      ExpectedAfterRelease(init, k, name);
      if Active(subs, last, name) && Active(subs, k, name) {
        RemoveSnoc(Expected(init, name), subs[last].fn, subs[k].fn);
      }
    }
  }

  lemma RemoveSnoc(s: seq<Fn>, x: Fn, fn: Fn)
    ensures Remove(s + [x], fn) == if x == fn then Remove(s, fn) else Remove(s, fn) + [x]
  {
    assert (s + [x])[..|s|] == s;
  }

  lemma OwnPrefix(subs: seq<Sub>)
    requires subs != [] && OwnFunctions(subs)
    ensures OwnFunctions(subs[..|subs| - 1])
  {
    var init := subs[..|subs| - 1];
    forall j: nat, k: nat, name | j < k && Active(init, j, name) && Active(init, k, name)
      ensures init[j].fn != init[k].fn
    {
      assert Active(subs, j, name) && Active(subs, k, name);
    }
  }

  lemma NotInPrefix(subs: seq<Sub>, name: string)
    requires subs != [] && OwnFunctions(subs) && Active(subs, |subs| - 1, name)
    ensures subs[|subs| - 1].fn !in Expected(subs[..|subs| - 1], name)
  {
    var last := |subs| - 1;
    var init := subs[..last];
    ExpectedMember(init, name, subs[last].fn);
    if k: nat :| Active(init, k, name) && init[k].fn == subs[last].fn {
      assert Active(subs, k, name);
      assert false;
    }
  }

  predicate NoRepeats(fns: seq<Fn>) {
    forall i, j | 0 <= i < j < |fns| :: fns[i] != fns[j]
  }

  lemma {:induction false} ExpectedOnce(subs: seq<Sub>, name: string)
    requires OwnFunctions(subs)
    ensures NoRepeats(Expected(subs, name))
  {
    if subs != [] {
      var init, last := subs[..|subs| - 1], subs[|subs| - 1];
      OwnPrefix(subs);
      ExpectedOnce(init, name);
      assert subs == init + [last];
      ExpectedSnoc(init, last, name);
      if Active(subs, |subs| - 1, name) {
        NotInPrefix(subs, name);
      }
    }
  }

  // fn and gn are the functions of two unreleased subscriptions that list the
  // name, in this order.
  ghost predicate Earlier(subs: seq<Sub>, name: string, fn: Fn, gn: Fn) {
    exists k: nat, l: nat | k < l ::
      Active(subs, k, name) && Active(subs, l, name) && subs[k].fn == fn && subs[l].fn == gn
  }

  ghost predicate InOrder(subs: seq<Sub>, name: string, fns: seq<Fn>) {
    forall i, j | 0 <= i < j < |fns| :: Earlier(subs, name, fns[i], fns[j])
  }

  lemma EarlierSnoc(subs: seq<Sub>, s: Sub, name: string, fn: Fn, gn: Fn)
    ensures Earlier(subs, name, fn, gn) ==> Earlier(subs + [s], name, fn, gn)
    ensures Listens(subs, name, fn) && !s.released && name in s.names && s.fn == gn ==> Earlier(subs + [s], name, fn, gn)
  {
    var more := subs + [s];
    if Earlier(subs, name, fn, gn) {
      var k: nat, l: nat :| k < l && Active(subs, k, name) && Active(subs, l, name) && subs[k].fn == fn && subs[l].fn == gn;
      assert Active(more, k, name) && Active(more, l, name);
    }
    if Listens(subs, name, fn) && !s.released && name in s.names && s.fn == gn {
      var k: nat :| Active(subs, k, name) && subs[k].fn == fn;
      assert Active(more, k, name) && Active(more, |subs|, name);
    }
  }

  lemma {:induction false} ExpectedInOrder(subs: seq<Sub>, name: string)
    ensures InOrder(subs, name, Expected(subs, name))
  {
    if subs != [] {
      var init, last := subs[..|subs| - 1], subs[|subs| - 1];
      assert subs == init + [last];
      ExpectedInOrder(init, name);
      ExpectedSnoc(init, last, name);
      var before, fns := Expected(init, name), Expected(subs, name);
      forall i, j | 0 <= i < j < |fns|
        ensures Earlier(subs, name, fns[i], fns[j])
      {
        assert fns[i] == before[i] && before[i] in before;
        ExpectedMember(init, name, before[i]);
        EarlierSnoc(init, last, name, fns[i], fns[j]);
      }
    }
  }

  // ---- One step ----

  lemma OwnAfterSubscribe(r: Roster, names: seq<string>, fn: Fn)
    requires OwnFunctions(r.subs) && Own(r, names, fn)
    ensures OwnFunctions(r.subs + [Sub(names, fn, false)])
  {
    var subs := r.subs + [Sub(names, fn, false)];
    forall j: nat, k: nat, name | j < k && Active(subs, j, name) && Active(subs, k, name)
      ensures subs[j].fn != subs[k].fn
    {
      assert Active(r.subs, j, name);
      assert k < |r.subs| ==> Active(r.subs, k, name);
    }
  }

  lemma SubscribeFaithful(r: Roster, names: seq<string>, fn: Fn)
    requires Faithful(r) && Own(r, names, fn)
    ensures Faithful(Apply(r, Subscribe(names, fn)))
  {
    var r' := Apply(r, Subscribe(names, fn));
    OwnAfterSubscribe(r, names, fn);
    TidyAfterAdd(r.handlers, names, fn);
    forall name
      ensures Members(r'.handlers, name) == Expected(r'.subs, name)
    {
      assert Members(r.handlers, name) == Expected(r.subs, name);
      ExpectedSnoc(r.subs, Sub(names, fn, false), name);
      AddNamesAt(r.handlers, names, fn, name);
      if name in names {
        ExpectedMember(r.subs, name, fn);
      }
    }
  }

  lemma ReleaseFaithful(r: Roster, k: nat)
    requires Faithful(r) && k < |r.subs| && !r.subs[k].released
    ensures Faithful(Apply(r, Release(k)))
  {
    var r' := Apply(r, Release(k));
    assert forall j: nat, name :: Active(r'.subs, j, name) ==> Active(r.subs, j, name) && r'.subs[j] == r.subs[j];
    TidyAfterRemove(r.handlers, r.subs[k].names, r.subs[k].fn);
    forall name
      ensures Members(r'.handlers, name) == Expected(r'.subs, name)
    {
      assert Members(r.handlers, name) == Expected(r.subs, name);
      ExpectedAfterRelease(r.subs, k, name);
      RemoveNamesAt(r.handlers, r.subs[k].names, r.subs[k].fn, name);
    }
  }

  // Every subscription of the run passes a function of its own.
  ghost predicate OwnRun(ops: seq<Op>) {
    ops != [] ==>
      var init, op := ops[..|ops| - 1], ops[|ops| - 1];
      OwnRun(init) && (op.Subscribe? ==> Own(Replay(init), op.names, op.fn))
  }

  // In every run, a named event on the open connection calls exactly the
  // functions of the unreleased subscriptions that list it, each once, in the
  // order in which they subscribed.
  lemma {:induction false} DeliveryIsExact(ops: seq<Op>)
    requires OwnRun(ops)
    ensures Faithful(Replay(ops))
    ensures forall name :: Delivered(Replay(ops), name) ==
                           if Online(Replay(ops)) then Expected(Replay(ops).subs, name) else []
    ensures forall name :: NoRepeats(Delivered(Replay(ops), name))
    ensures forall name :: InOrder(Replay(ops).subs, name, Delivered(Replay(ops), name))
  {
    forall name
      ensures OwnFunctions(Replay(ops).subs) ==> NoRepeats(Expected(Replay(ops).subs, name))
      ensures InOrder(Replay(ops).subs, name, Expected(Replay(ops).subs, name))
    {
      ExpectedInOrder(Replay(ops).subs, name);
      if OwnFunctions(Replay(ops).subs) {
        ExpectedOnce(Replay(ops).subs, name);
      }
    }
    if ops != [] {
      var init, op := ops[..|ops| - 1], ops[|ops| - 1];
      DeliveryIsExact(init);
      var r := Replay(init);
      match op
      case Subscribe(names, fn) => SubscribeFaithful(r, names, fn);
      case Release(k) =>
        if k < |r.subs| && !r.subs[k].released {
          ReleaseFaithful(r, k);
        }
      case _ =>
    }
  }

  // After a fatal error nobody receives anything, whoever subscribes or releases,
  // until the page resumes.
  lemma {:induction false} SilentUntilResumed(ops: seq<Op>, more: seq<Op>, name: string)
    requires Refs(Replay(ops).subs) > 0 && forall i | 0 <= i < |more| :: more[i] != Resume
    ensures Replay(ops + [Fatal] + more).offline && Delivered(Replay(ops + [Fatal] + more), name) == []
  {
    ReplaySnoc(ops, Fatal);
    if more == [] {
      assert ops + [Fatal] + more == ops + [Fatal];
    } else {
      var init, last := more[..|more| - 1], more[|more| - 1];
      assert ops + [Fatal] + more == ops + [Fatal] + init + [last];
      SilentUntilResumed(ops, init, name);
      ReplaySnoc(ops + [Fatal] + init, last);
    }
  }

  // ---- Shared functions ----

  ghost predicate AllServed(r: Roster) {
    forall k: nat, name | Active(r.subs, k, name) :: r.subs[k].fn in Members(r.handlers, name)
  }

  ghost predicate Shares(subs: seq<Sub>, k: nat)
    requires k < |subs|
  {
    exists j: nat, name :: j != k && Active(subs, j, name) && Active(subs, k, name) && subs[j].fn == subs[k].fn
  }

  // When everyone is served, a release keeps everyone else served exactly when
  // no other unreleased subscription shares the function and a name with it.
  lemma ReleaseServesOthersIff(r: Roster, k: nat)
    requires AllServed(r) && k < |r.subs| && !r.subs[k].released
    ensures AllServed(Apply(r, Release(k))) <==> !Shares(r.subs, k)
  {
    var r' := Apply(r, Release(k));
    forall j: nat, name | Active(r.subs, j, name) && j != k
      ensures Active(r'.subs, j, name) && r'.subs[j] == r.subs[j]
      ensures r.subs[j].fn in Members(r'.handlers, name) <==>
              !(Active(r.subs, k, name) && r.subs[j].fn == r.subs[k].fn)
    {
      RemoveIs(Members(r.handlers, name), r.subs[k].fn);
      RemoveNamesAt(r.handlers, r.subs[k].names, r.subs[k].fn, name);
    }
    assert forall j: nat, name | Active(r'.subs, j, name) :: j != k && Active(r.subs, j, name);
  }

  // Two subscriptions of one function to one event: releasing the first
  // silences the second, which is still unreleased.
  lemma SharedFunctionGoesSilent(fn: Fn)
    ensures var r := Replay([Subscribe(["a"], fn), Subscribe(["a"], fn), Release(0)]);
            Online(r) && Expected(r.subs, "a") == [fn] && Delivered(r, "a") == []
  {
    var op, s := Subscribe(["a"], fn), Sub(["a"], fn, false);
    var r2 := TwoSubscriptions(fn);
    var gone := s.(released := true);
    ReplaySnoc([op, op], Release(0));
    assert [op, op] + [Release(0)] == [op, op, Release(0)];
    var r3 := Apply(r2, Release(0));
    assert [s, s][0 := gone] == [gone] + [s];
    RemoveSnoc([], fn, fn);
    assert [] + [fn] == [fn];
    AddOneName(r2.handlers, "a", fn);
    assert "a" !in r3.handlers;
    assert [] + [gone] == [gone];
    ExpectedSnoc([], gone, "a");
    ExpectedSnoc([gone], s, "a");
    RefsSnoc([gone], s);
  }

  lemma TwoSubscriptions(fn: Fn) returns (r: Roster)
    ensures r == Replay([Subscribe(["a"], fn), Subscribe(["a"], fn)])
    ensures r.subs == [Sub(["a"], fn, false), Sub(["a"], fn, false)] && !r.offline
    ensures r.handlers.Keys == {"a"} && r.handlers["a"] == [fn]
  {
    var op := Subscribe(["a"], fn);
    ReplaySnoc([], op);
    ReplaySnoc([op], op);
    assert [] + [op] == [op] && [op] + [op] == [op, op];
    var r1 := Apply(EMPTY, op);
    AddOneName(map[], "a", fn);
    assert r1.handlers["a"] == [fn] && r1.handlers.Keys == {"a"} && r1.subs == [Sub(["a"], fn, false)];
    r := Apply(r1, op);
    AddOneName(r1.handlers, "a", fn);
  }

  lemma AddOneName(h: Handlers, name: string, fn: Fn)
    ensures AddNames(h, [name], fn) == AddName(h, name, fn)
    ensures RemoveNames(h, [name], fn) == RemoveName(h, name, fn)
  {
    assert [name][..0] == [];
  }

  lemma ReplaySnoc(ops: seq<Op>, op: Op)
    ensures Replay(ops + [op]) == Apply(Replay(ops), op)
  {
    assert (ops + [op])[..|ops|] == ops;
  }

  lemma RefsSnoc(subs: seq<Sub>, s: Sub)
    ensures Refs(subs + [s]) == Refs(subs) + if s.released then 0 else 1
  {
    assert (subs + [s])[..|subs|] == subs;
  }

  // ---- Releases in any order, any number of times ----

  function ReleaseAll(r: Roster, ks: seq<nat>): Roster {
    if ks == [] then r else Apply(ReleaseAll(r, ks[..|ks| - 1]), Release(ks[|ks| - 1]))
  }

  lemma {:induction false} ReleaseAllIs(r: Roster, ks: seq<nat>)
    requires Faithful(r)
    ensures Faithful(ReleaseAll(r, ks)) && ReleaseAll(r, ks).offline == r.offline
    ensures |ReleaseAll(r, ks).subs| == |r.subs|
    ensures forall j | 0 <= j < |r.subs| ::
              ReleaseAll(r, ks).subs[j] == if j in ks then r.subs[j].(released := true) else r.subs[j]
  {
    if ks != [] {
      var init, k := ks[..|ks| - 1], ks[|ks| - 1];
      assert ks == init + [k];
      ReleaseAllIs(r, init);
      var s := ReleaseAll(r, init);
      if k < |s.subs| && !s.subs[k].released {
        ReleaseFaithful(s, k);
      }
    }
  }

  lemma FaithfulIsDetermined(r: Roster, s: Roster)
    requires Faithful(r) && Faithful(s) && r.subs == s.subs
    ensures r.handlers == s.handlers
  {
    forall name
      ensures Members(r.handlers, name) == Members(s.handlers, name)
      ensures name in r.handlers <==> name in s.handlers
    {
      assert Members(r.handlers, name) == Expected(r.subs, name) == Members(s.handlers, name);
    }
  }

  // The order and the repetition of releases do not matter.
  lemma ReleaseOrderIrrelevant(r: Roster, ks: seq<nat>, ls: seq<nat>)
    requires Faithful(r) && forall k :: k in ks <==> k in ls
    ensures ReleaseAll(r, ks) == ReleaseAll(r, ls)
  {
    ReleaseAllIs(r, ks);
    ReleaseAllIs(r, ls);
    assert ReleaseAll(r, ks).subs == ReleaseAll(r, ls).subs;
    FaithfulIsDetermined(ReleaseAll(r, ks), ReleaseAll(r, ls));
  }

  // Whoever is not among the released keeps receiving, also when the connection
  // fails before the releases and is resumed after them.
  lemma OthersKeepReceiving(r: Roster, ks: seq<nat>, j: nat, name: string)
    requires Faithful(r) && Active(r.subs, j, name) && j !in ks
    ensures r.subs[j].fn in Delivered(Apply(ReleaseAll(Apply(r, Fatal), ks), Resume), name)
    ensures !r.offline ==> r.subs[j].fn in Delivered(ReleaseAll(r, ks), name)
  {
    ReceivesWhenOnline(r, ks, j, name);
    ReceivesWhenOnline(Apply(r, Fatal), ks, j, name);
  }

  lemma ReceivesWhenOnline(r: Roster, ks: seq<nat>, j: nat, name: string)
    requires Faithful(r) && Active(r.subs, j, name) && j !in ks
    ensures var s := ReleaseAll(r, ks); s.offline == r.offline && Refs(s.subs) > 0 && r.subs[j].fn in Members(s.handlers, name)
  {
    ReleaseAllIs(r, ks);
    var s := ReleaseAll(r, ks);
    assert s.subs[j] == r.subs[j] && Active(s.subs, j, name);
    ExpectedMember(s.subs, name, r.subs[j].fn);
    assert Members(s.handlers, name) == Expected(s.subs, name);
    RefsPositive(s.subs, j);
  }

  lemma {:induction false} RefsPositive(subs: seq<Sub>, j: nat)
    requires j < |subs| && !subs[j].released
    ensures Refs(subs) > 0
  {
    if j < |subs| - 1 {
      RefsPositive(subs[..|subs| - 1], j);
    }
  }
}
