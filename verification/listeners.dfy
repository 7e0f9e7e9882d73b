// The desktop client's listener registry: torrentSocket.on and off over the
// event emitter of the window's message channel.
module Listeners {
  // A listening function, by identity.
  type Func = nat

  // The closure `on` registers with the emitter: it keeps calling its function
  // whether or not the registry still knows it.
  datatype Registration = Registration(id: string, func: Func)

  datatype State = State(
    listeners: map<string, Func>,
    eventIds: map<Func, string>,
    emitter: map<string, seq<Registration>>)

  const START := State(map[], map[], map[])

  datatype Event = On(name: string, func: Func, id: string) | Off(name: string, func: Func) | OffAll(name: string)

  function Registered(s: State, name: string): seq<Registration> {
    if name in s.emitter then s.emitter[name] else []
  }

  // removeListener: at most one registration goes.
  function WithoutId(rs: seq<Registration>, id: string): seq<Registration> {
    if rs == [] then []
    else if rs[|rs| - 1].id == id then rs[..|rs| - 1]
    else WithoutId(rs[..|rs| - 1], id) + [rs[|rs| - 1]]
  }

  // The registry entry `off` finds for a function.
  predicate Known(s: State, f: Func) {
    f in s.eventIds && s.eventIds[f] in s.listeners
  }

  function Step(s: State, e: Event): State {
    match e
    case On(name, f, id) =>
      State(s.listeners[id := f], s.eventIds[f := id],
            s.emitter[name := Registered(s, name) + [Registration(id, f)]])
    case OffAll(name) =>
      s.(emitter := s.emitter[name := []])
    case Off(name, f) =>
      if Known(s, f) then
        var id := s.eventIds[f];
        State(s.listeners - {id}, s.eventIds - {f}, s.emitter[name := WithoutId(Registered(s, name), id)])
      else s.(eventIds := s.eventIds - {f})
  }

  // ----- Which registrations are live ---------------------------------------

  predicate Live(s: State, name: string, r: Registration) {
    r in Registered(s, name)
  }

  // Every live registration has its entry.
  ghost predicate AllListed(s: State) {
    forall name, r | Live(s, name, r) :: r.id in s.listeners && s.listeners[r.id] == r.func
  }

  // An id that is still listed is listed under the function registered with it.
  ghost predicate OwnersAgree(s: State) {
    forall name, r | Live(s, name, r) && r.id in s.listeners :: s.listeners[r.id] == r.func
  }

  // Ids are unique among the live registrations, and an entry belongs to the
  // function that carries its id.
  ghost predicate IdsUnique(s: State) {
    && (forall name | name in s.emitter :: UniqueIn(s.emitter[name]))
    && (forall n, m, r, q | Live(s, n, r) && Live(s, m, q) && r.id == q.id :: n == m)
    && (forall f | f in s.eventIds && s.eventIds[f] in s.listeners :: s.listeners[s.eventIds[f]] == f)
  }

  ghost predicate UniqueIn(rs: seq<Registration>) {
    forall i, j | 0 <= i < j < |rs| :: rs[i].id != rs[j].id
  }

  // The registration that goes, if any, stands at k.
  lemma {:induction false} WithoutIdDrops(rs: seq<Registration>, id: string) returns (k: nat)
    ensures k < |rs| ==> rs[k].id == id && WithoutId(rs, id) == rs[..k] + rs[k + 1..]
    ensures k >= |rs| ==> WithoutId(rs, id) == rs && forall i | 0 <= i < |rs| :: rs[i].id != id
  {
    if rs == [] {
      k := 0;
    } else if rs[|rs| - 1].id == id {
      k := |rs| - 1;
      assert rs[..k] + rs[k + 1..] == rs[..k];
    } else {
      var init, last := rs[..|rs| - 1], rs[|rs| - 1];
      assert rs == init + [last];
      k := WithoutIdDrops(init, id);
      if k < |init| {
        assert (init[..k] + init[k + 1..]) + [last] == rs[..k] + rs[k + 1..];
      } else {
        k := |rs|;
      }
    }
  }

  lemma WithoutIdMembers(rs: seq<Registration>, id: string)
    requires UniqueIn(rs)
    ensures forall r :: r in WithoutId(rs, id) <==> r in rs && r.id != id
    ensures UniqueIn(WithoutId(rs, id))
  {
    hide WithoutId;
    var k := WithoutIdDrops(rs, id);
    if k < |rs| {
      var left := rs[..k] + rs[k + 1..];
      assert forall i | 0 <= i < |left| :: left[i] == rs[if i < k then i else i + 1];
      forall r | r in rs && r.id != id ensures r in left {
        var i :| 0 <= i < |rs| && rs[i] == r;
        assert left[if i < k then i else i - 1] == r;
      }
    }
  }

  // The id of an `on` was never drawn before.
  predicate FreshId(s: State, id: string) {
    && id !in s.listeners
    && (forall f | f in s.eventIds :: s.eventIds[f] != id)
    && (forall name | name in s.emitter :: forall r | r in s.emitter[name] :: r.id != id)
  }

  // `off` names the event the function's known registration is on, if it is live.
  ghost predicate NamesItsEvent(s: State, name: string, f: Func) {
    Known(s, f) ==> forall n, r | Live(s, n, r) && r.id == s.eventIds[f] :: n == name
  }

  ghost predicate GoodEvent(s: State, e: Event) {
    match e
    case On(_, _, id) => FreshId(s, id)
    case OffAll(_) => true
    case Off(name, f) => NamesItsEvent(s, name, f)
  }

  // ----- What one event does to the live registrations ----------------------

  lemma LiveAfter(s: State, e: Event, n: string, r: Registration)
    requires IdsUnique(s)
    ensures Live(Step(s, e), n, r)
            <==> match e
                 case On(name, f, id) => Live(s, n, r) || (n == name && r == Registration(id, f))
                 case OffAll(name) => Live(s, n, r) && n != name
                 case Off(name, f) => Live(s, n, r) && !(n == name && Known(s, f) && r.id == s.eventIds[f])
  {
    hide UniqueIn;
    if e.Off? && Known(s, e.func) {
      assert UniqueIn(Registered(s, e.name)) by { EmptyUnique(); }
      WithoutIdMembers(Registered(s, e.name), s.eventIds[e.func]);
      hide WithoutId;
    }
  }

  lemma EmptyUnique()
    ensures UniqueIn([])
  {
  }

  lemma StepKeepsUnique(s: State, e: Event)
    requires IdsUnique(s) && (e.On? ==> FreshId(s, e.id))
    ensures IdsUnique(Step(s, e))
  {
    var after := Step(s, e);
    forall name | name in after.emitter ensures UniqueIn(after.emitter[name]) { EmitterStaysUnique(s, e, name); }
    hide WithoutId, UniqueIn;
    forall n, m, r, q | Live(after, n, r) && Live(after, m, q) && r.id == q.id ensures n == m {
      LiveAfter(s, e, n, r);
      LiveAfter(s, e, m, q);
      LiveInEmitter(s, n, r);
      LiveInEmitter(s, m, q);
    }
  }

  lemma LiveInEmitter(s: State, n: string, r: Registration)
    ensures Live(s, n, r) <==> n in s.emitter && r in s.emitter[n]
  {
  }

  lemma EmitterStaysUnique(s: State, e: Event, name: string)
    requires IdsUnique(s) && (e.On? ==> FreshId(s, e.id)) && name in Step(s, e).emitter
    ensures UniqueIn(Step(s, e).emitter[name])
  {
    if e.Off? && Known(s, e.func) && e.name == name {
      WithoutIdMembers(Registered(s, name), s.eventIds[e.func]);
    }
  }

  // `off` keeps every live registration listed exactly when it names the event
  // its function was registered on.
  lemma OffKeepsListedIff(s: State, name: string, f: Func)
    requires IdsUnique(s) && AllListed(s)
    ensures AllListed(Step(s, Off(name, f))) <==> NamesItsEvent(s, name, f)
  {
    var after := Step(s, Off(name, f));
    forall n, r ensures Live(after, n, r) <==> Live(s, n, r) && !(n == name && Known(s, f) && r.id == s.eventIds[f]) {
      LiveAfter(s, Off(name, f), n, r);
    }
    hide Live, IdsUnique, WithoutId;
    if Known(s, f) && !NamesItsEvent(s, name, f) {
      var n, r :| Live(s, n, r) && r.id == s.eventIds[f] && n != name;
      assert Live(after, n, r) && r.id !in after.listeners;
    }
  }

  lemma StepKeepsListed(s: State, e: Event)
    requires IdsUnique(s) && AllListed(s) && GoodEvent(s, e)
    ensures AllListed(Step(s, e))
  {
    if e.Off? {
      OffKeepsListedIff(s, e.name, e.func);
    } else {
      var after := Step(s, e);
      forall n, r | Live(after, n, r) ensures r.id in after.listeners && after.listeners[r.id] == r.func {
        LiveAfter(s, e, n, r);
        LiveInEmitter(s, n, r);
      }
    }
  }

  // Whatever `off` names.
  lemma StepKeepsOwners(s: State, e: Event)
    requires IdsUnique(s) && OwnersAgree(s) && (e.On? ==> FreshId(s, e.id))
    ensures OwnersAgree(Step(s, e))
  {
    var after := Step(s, e);
    forall n, r | Live(after, n, r) && r.id in after.listeners ensures after.listeners[r.id] == r.func {
      LiveAfter(s, e, n, r);
      LiveInEmitter(s, n, r);
    }
  }

  function Run(s: State, events: seq<Event>): State
    decreases |events|
  {
    if events == [] then s else Run(Step(s, events[0]), events[1..])
  }

  ghost predicate GoodRun(s: State, events: seq<Event>)
    decreases |events|
  {
    events == [] || (GoodEvent(s, events[0]) && GoodRun(Step(s, events[0]), events[1..]))
  }

  // Every id is new when drawn; nothing is asked of `off`.
  ghost predicate FreshRun(s: State, events: seq<Event>)
    decreases |events|
  {
    events == [] || ((events[0].On? ==> FreshId(s, events[0].id)) && FreshRun(Step(s, events[0]), events[1..]))
  }

  // A run of good events keeps every live listener in the registry.
  lemma {:induction false} RunKeepsListed(s: State, events: seq<Event>)
    requires IdsUnique(s) && AllListed(s) && GoodRun(s, events)
    ensures IdsUnique(Run(s, events)) && AllListed(Run(s, events))
    decreases |events|
  {
    hide IdsUnique, AllListed, Step, FreshId, NamesItsEvent;
    if events != [] {
      StepKeepsUnique(s, events[0]);
      StepKeepsListed(s, events[0]);
      RunKeepsListed(Step(s, events[0]), events[1..]);
    }
  }

  // A run with fresh ids keeps ids unique and owners right.
  lemma {:induction false} RunKeepsOwners(s: State, events: seq<Event>)
    requires IdsUnique(s) && OwnersAgree(s) && FreshRun(s, events)
    ensures IdsUnique(Run(s, events)) && OwnersAgree(Run(s, events))
    decreases |events|
  {
    hide IdsUnique, OwnersAgree, Step, FreshId;
    if events != [] {
      StepKeepsUnique(s, events[0]);
      StepKeepsOwners(s, events[0]);
      RunKeepsOwners(Step(s, events[0]), events[1..]);
    }
  }

  lemma StartListed()
    ensures IdsUnique(START) && AllListed(START) && OwnersAgree(START)
  {
  }

  // In every state reached by good events every live listener has its entry.
  lemma ReachableListed(events: seq<Event>)
    requires GoodRun(START, events)
    ensures AllListed(Run(START, events))
  {
    hide IdsUnique, AllListed, GoodRun, Run;
    StartListed();
    RunKeepsListed(START, events);
  }

  // ----- What `off` silences ------------------------------------------------

  // No event reaches f.
  ghost predicate Silent(s: State, f: Func) {
    forall n, r | Live(s, n, r) :: r.func != f
  }

  // `off` silences its function exactly when the one registration it can find is
  // the only live one, on the named event.
  lemma OffSilencesIff(s: State, name: string, f: Func)
    requires IdsUnique(s)
    ensures Silent(Step(s, Off(name, f)), f) <==> OnlyFound(s, name, f)
  {
    var after := Step(s, Off(name, f));
    forall n, r ensures Live(after, n, r) <==> Live(s, n, r) && !(n == name && Known(s, f) && r.id == s.eventIds[f]) {
      LiveAfter(s, Off(name, f), n, r);
    }
    hide Live, IdsUnique, Step;
    if n, r :| Live(s, n, r) && r.func == f && !(n == name && Known(s, f) && r.id == s.eventIds[f]) {
      assert Live(after, n, r);
    }
  }

  ghost predicate OnlyFound(s: State, name: string, f: Func) {
    forall n, r | Live(s, n, r) && r.func == f :: n == name && Known(s, f) && r.id == s.eventIds[f]
  }

  // The registrations of the other functions, in delivery order.
  function Others(rs: seq<Registration>, f: Func): seq<Registration> {
    if rs == [] then []
    else Others(rs[..|rs| - 1], f) + if rs[|rs| - 1].func == f then [] else [rs[|rs| - 1]]
  }

  lemma {:induction false} WithoutIdKeepsOthers(rs: seq<Registration>, id: string, f: Func)
    requires forall r | r in rs && r.id == id :: r.func == f
    ensures Others(WithoutId(rs, id), f) == Others(rs, f)
  {
    if rs != [] {
      var init, last := rs[..|rs| - 1], rs[|rs| - 1];
      assert last in rs;
      if last.id != id {
        WithoutIdKeepsOthers(init, id, f);
        assert (WithoutId(init, id) + [last])[..|WithoutId(init, id)|] == WithoutId(init, id);
      }
    }
  }

  // Every other listener of every event still gets it, in the same order.
  lemma OffKeepsOthers(s: State, name: string, f: Func, n: string)
    requires IdsUnique(s) && OwnersAgree(s)
    ensures Others(Registered(Step(s, Off(name, f)), n), f) == Others(Registered(s, n), f)
  {
    hide Others, WithoutId, UniqueIn;
    if n == name && Known(s, f) {
      forall r | r in Registered(s, n) && r.id == s.eventIds[f] ensures r.func == f { assert Live(s, n, r); }
      WithoutIdKeepsOthers(Registered(s, n), s.eventIds[f], f);
    }
  }

  // After any run with fresh ids, also one in which `off` named wrong events.
  lemma OffAfterAnyRun(events: seq<Event>, name: string, f: Func)
    requires FreshRun(START, events)
    ensures var s := Run(START, events); var after := Step(s, Off(name, f));
            && (Silent(after, f) <==> OnlyFound(s, name, f))
            && forall n :: Others(Registered(after, n), f) == Others(Registered(s, n), f)
  {
    hide *;
    StartListed();
    RunKeepsOwners(START, events);
    var s := Run(START, events);
    OffSilencesIff(s, name, f);
    forall n ensures Others(Registered(Step(s, Off(name, f)), n), f) == Others(Registered(s, n), f) {
      OffKeepsOthers(s, name, f, n);
    }
  }

  // A silenced function stays silent until it is registered again.
  lemma {:induction false} StaysSilent(s: State, events: seq<Event>, f: Func)
    requires IdsUnique(s) && Silent(s, f) && FreshRun(s, events)
    requires forall e | e in events :: !(e.On? && e.func == f)
    ensures Silent(Run(s, events), f)
    decreases |events|
  {
    hide IdsUnique, Step, FreshId, Live;
    if events != [] {
      var next := Step(s, events[0]);
      StepKeepsUnique(s, events[0]);
      forall n, r | Live(next, n, r) ensures r.func != f { LiveAfter(s, events[0], n, r); }
      StaysSilent(next, events[1..], f);
    }
  }

  // f's only live registration is the one with this id, and `off` can find it.
  ghost predicate OnlyRegistered(s: State, name: string, f: Func, id: string) {
    && f in s.eventIds && s.eventIds[f] == id && id in s.listeners && s.listeners[id] == f
    && forall n, r | Live(s, n, r) && r.func == f :: n == name && r.id == id
  }

  lemma StepKeepsOnlyRegistered(s: State, e: Event, name: string, f: Func, id: string)
    requires IdsUnique(s) && OnlyRegistered(s, name, f, id)
    requires e.On? ==> FreshId(s, e.id) && e.func != f
    requires e.Off? ==> e.func != f
    ensures OnlyRegistered(Step(s, e), name, f, id)
  {
    forall n, r ensures Live(Step(s, e), n, r) ==> Live(s, n, r) || r.func != f {
      LiveAfter(s, e, n, r);
    }
    hide Live, WithoutId, UniqueIn;
  }

  // A silent function that is registered once and then, after whatever happens to
  // other functions, taken off the event it was registered on is silent again.
  lemma OnThenOffSilences(s: State, name: string, f: Func, id: string, events: seq<Event>)
    requires IdsUnique(s) && Silent(s, f) && FreshId(s, id)
    requires FreshRun(Step(s, On(name, f, id)), events)
    requires forall e | e in events :: (e.On? || e.Off?) ==> e.func != f
    ensures Silent(Step(Run(Step(s, On(name, f, id)), events), Off(name, f)), f)
  {
    var registered := Step(s, On(name, f, id));
    StepKeepsUnique(s, On(name, f, id));
    assert OnlyRegistered(registered, name, f, id) by {
      forall n, r | Live(registered, n, r) && r.func == f ensures n == name && r.id == id {
        LiveAfter(s, On(name, f, id), n, r);
      }
    }
    RunKeepsOnlyRegistered(registered, events, name, f, id);
    OffSilencesIff(Run(registered, events), name, f);
  }

  lemma {:induction false} RunKeepsOnlyRegistered(s: State, events: seq<Event>, name: string, f: Func, id: string)
    requires IdsUnique(s) && OnlyRegistered(s, name, f, id) && FreshRun(s, events)
    requires forall e | e in events :: (e.On? || e.Off?) ==> e.func != f
    ensures IdsUnique(Run(s, events)) && OnlyRegistered(Run(s, events), name, f, id)
    decreases |events|
  {
    hide IdsUnique, OnlyRegistered, Step, FreshId;
    if events != [] {
      StepKeepsUnique(s, events[0]);
      StepKeepsOnlyRegistered(s, events[0], name, f, id);
      RunKeepsOnlyRegistered(Step(s, events[0]), events[1..], name, f, id);
    }
  }

  // ----- Delivery order -----------------------------------------------------

  // rs were registered by these events, in this order.
  ghost predicate RegisteredAt(events: seq<Event>, name: string, rs: seq<Registration>, at: seq<nat>) {
    && |at| == |rs|
    && (forall i | 0 <= i < |rs| :: at[i] < |events| && events[at[i]] == On(name, rs[i].func, rs[i].id))
    && (forall i, j | 0 <= i < j < |at| :: at[i] < at[j])
  }

  lemma {:induction false} RunSnoc(s: State, events: seq<Event>, e: Event)
    ensures Run(s, events + [e]) == Step(Run(s, events), e)
    decreases |events|
  {
    hide Step;
    if events == [] {
      assert Run(Step(s, e), []) == Step(s, e);
      assert [e][1..] == [];
    } else {
      assert (events + [e])[0] == events[0] && (events + [e])[1..] == events[1..] + [e];
      RunSnoc(Step(s, events[0]), events[1..], e);
    }
  }

  // An event reaches the functions registered on it in the order in which they
  // were registered.
  lemma {:induction false} DeliveredInOrder(events: seq<Event>, name: string) returns (at: seq<nat>)
    ensures RegisteredAt(events, name, Registered(Run(START, events), name), at)
  {
    if events == [] {
      at := [];
    } else {
      var n := |events| - 1;
      var init, e := events[..n], events[n];
      assert events == init + [e];
      RunSnoc(START, init, e);
      var was := DeliveredInOrder(init, name);
      at := OrderAfter(init, Run(START, init), e, name, was);
    }
  }

  lemma OrderAfter(init: seq<Event>, s: State, e: Event, name: string, was: seq<nat>) returns (at: seq<nat>)
    requires RegisteredAt(init, name, Registered(s, name), was)
    ensures RegisteredAt(init + [e], name, Registered(Step(s, e), name), at)
  {
    hide WithoutId, RegisteredAt;
    var rs := Registered(s, name);
    MoreEvents(init, e, name, rs, was);
    at := was;
    match e {
      case On(other, f, id) =>
        if other == name {
          at := was + [|init|];
          AppendAt(init, name, rs, was, Registration(id, f));
        }
      case OffAll(other) =>
        if other == name {
          at := [];
          NoneAt(init + [e], name);
        }
      case Off(other, f) =>
        if other == name && Known(s, f) {
          var k := WithoutIdDrops(rs, s.eventIds[f]);
          if k < |rs| { at := DropAt(init + [e], name, rs, was, k); }
        }
    }
  }

  lemma MoreEvents(events: seq<Event>, e: Event, name: string, rs: seq<Registration>, at: seq<nat>)
    requires RegisteredAt(events, name, rs, at)
    ensures RegisteredAt(events + [e], name, rs, at)
  {
  }

  lemma AppendAt(events: seq<Event>, name: string, rs: seq<Registration>, at: seq<nat>, r: Registration)
    requires RegisteredAt(events, name, rs, at)
    ensures RegisteredAt(events + [On(name, r.func, r.id)], name, rs + [r], at + [|events|])
  {
  }

  lemma NoneAt(events: seq<Event>, name: string)
    ensures RegisteredAt(events, name, [], [])
  {
  }

  lemma DropAt(events: seq<Event>, name: string, rs: seq<Registration>, at: seq<nat>, k: nat) returns (left: seq<nat>)
    requires RegisteredAt(events, name, rs, at) && k < |rs|
    ensures RegisteredAt(events, name, rs[..k] + rs[k + 1..], left)
  {
    left := at[..k] + at[k + 1..];
  }

  // ----- Registered twice ---------------------------------------------------

  // A function registered twice cannot be silenced by one `off`, and no further
  // `off` finds its older registration.
  lemma RegisteredTwiceStaysLive(name: string, f: Func, first: string, second: string)
    requires first != second
    ensures var s := Run(START, [On(name, f, first), On(name, f, second), Off(name, f), Off(name, f)]);
            Registered(s, name) == [Registration(first, f)] && !Known(s, f)
  {
    var e1, e2, e3 := On(name, f, first), On(name, f, second), Off(name, f);
    var a, b := Registration(first, f), Registration(second, f);
    var s2 := Step(Step(START, e1), e2);
    assert Registered(s2, name) == [a, b];
    assert WithoutId([a, b], second) == [a];
    var s3 := Step(s2, e3);
    assert Registered(s3, name) == [a];
    RunFour(START, e1, e2, e3, e3);
  }

  lemma RunFour(s: State, a: Event, b: Event, c: Event, d: Event)
    ensures Run(s, [a, b, c, d]) == Step(Step(Step(Step(s, a), b), c), d)
  {
    hide Step;
    var s1 := Step(s, a);
    var s2 := Step(s1, b);
    var s3 := Step(s2, c);
    assert [a, b, c, d][1..] == [b, c, d] && [b, c, d][1..] == [c, d] && [c, d][1..] == [d] && [d][1..] == [];
    assert Run(s3, [d]) == Step(s3, d);
    assert Run(s2, [c, d]) == Run(s3, [d]);
    assert Run(s1, [b, c, d]) == Run(s2, [c, d]);
  }

  // ----- The registry object ------------------------------------------------

  class Registry {
    var listeners: map<string, Func>
    var eventIds: map<Func, string>
    var emitter: map<string, seq<Registration>>

    ghost function Now(): State
      reads this
    {
      State(listeners, eventIds, emitter)
    }

    constructor ()
      ensures Now() == START
    {
      listeners, eventIds, emitter := map[], map[], map[];
    }

    // torrentSocket.on; id is the random id it draws.
    method Add(name: string, f: Func, id: string)
      modifies this
      ensures Now() == Step(old(Now()), On(name, f, id))
    {
      listeners := listeners[id := f];
      eventIds := eventIds[f := id];
      emitter := emitter[name := (if name in emitter then emitter[name] else []) + [Registration(id, f)]];
    }

    // torrentSocket.off without a function
    method RemoveAll(name: string)
      modifies this
      ensures Now() == Step(old(Now()), OffAll(name))
    {
      emitter := emitter[name := []];
    }

    // torrentSocket.off with a function
    method Remove(name: string, f: Func)
      modifies this
      ensures Now() == Step(old(Now()), Off(name, f))
    {
      if f in eventIds && eventIds[f] in listeners {
        var id := eventIds[f];
        emitter := emitter[name := WithoutId(if name in emitter then emitter[name] else [], id)];
        listeners := listeners - {id};
      }
      eventIds := eventIds - {f};
    }
  }
}
