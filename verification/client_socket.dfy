// The desktop client's request/reply channel and its count of running loaders.
module ClientSocket {
  import opened Json

  // A callback handed to emit: a plain function, or the k-th wrapper made by
  // customLoader.
  datatype Callback = Plain(tag: nat) | Loader(k: nat)

  // What client code can do, at top level or inside a callback. The id of an
  // emit is the random id it draws; it only matters when there is a callback.
  datatype Action =
    | Emit(id: string, callback: Option<Callback>)
    | CustomLoader(k: nat)
    | Mount
    | Unmount

  // What the event loop runs: client code, or a 'callback' message for an id,
  // with whatever the callback then does.
  datatype Event = Do(action: Action) | Reply(id: string, body: seq<Action>)

  // What has happened so far.
  datatype History = History(
    emitted: map<string, Callback>,
    answered: set<string>,
    called: seq<(string, Callback)>,
    made: set<nat>,
    handed: set<nat>,
    finished: set<nat>)

  datatype State = State(callbacks: map<string, Callback>, loadersCount: int, appReady: bool, past: History)

  const START := State(map[], 0, false, History(map[], {}, [], {}, {}, {}))

  function Perform(s: State, a: Action): State {
    match a
    case Emit(id, None) => s
    case Emit(id, Some(f)) =>
      s.(callbacks := s.callbacks[id := f],
         past := s.past.(emitted := s.past.emitted[id := f],
                         handed := if f.Loader? then s.past.handed + {f.k} else s.past.handed))
    case CustomLoader(k) =>
      s.(loadersCount := s.loadersCount + 1, past := s.past.(made := s.past.made + {k}))
    case Mount => s.(appReady := true)
    case Unmount => s.(appReady := false)
  }

  function PerformAll(s: State, actions: seq<Action>): State {
    if actions == [] then s
    else Perform(PerformAll(s, actions[..|actions| - 1]), actions[|actions| - 1])
  }

  function Call(s: State, id: string, f: Callback): State {
    s.(past := s.past.(called := s.past.called + [(id, f)]))
  }

  // The end of a callback: a loader's wrapper counts itself down last.
  function Return(s: State, f: Callback): State {
    if f.Loader?
    then s.(loadersCount := s.loadersCount - 1, past := s.past.(finished := s.past.finished + {f.k}))
    else s
  }

  function Forget(s: State, id: string): State {
    s.(callbacks := s.callbacks - {id},
       past := s.past.(answered := if id in s.past.emitted then s.past.answered + {id} else s.past.answered))
  }

  function Step(s: State, e: Event): State {
    match e
    case Do(a) => Perform(s, a)
    case Reply(id, body) =>
      if id in s.callbacks
      then Forget(Return(PerformAll(Call(s, id, s.callbacks[id]), body), s.callbacks[id]), id)
      else Forget(s, id)
  }

  function Run(events: seq<Event>): State {
    if events == [] then START else Step(Run(events[..|events| - 1]), events[|events| - 1])
  }

  // ----- What is assumed of client code -------------------------------------

  // Each demands more than the one before it: random ids are new when drawn;
  // loaders are new too, and only wrappers that were made are handed to emit; no
  // wrapper is handed to two emits.
  datatype Discipline = FreshIds | RealLoaders | HandedOnce

  predicate Obeys(d: Discipline, s: State, a: Action) {
    match a
    case Emit(id, Some(f)) =>
      && id !in s.past.emitted
      && (f.Loader? && d != FreshIds ==> f.k in s.past.made)
      && (f.Loader? && d == HandedOnce ==> f.k !in s.past.handed)
    case CustomLoader(k) => d != FreshIds ==> k !in s.past.made
    case _ => true
  }

  predicate ObeyedActions(d: Discipline, s: State, actions: seq<Action>) {
    actions == [] ||
    (ObeyedActions(d, s, actions[..|actions| - 1])
     && Obeys(d, PerformAll(s, actions[..|actions| - 1]), actions[|actions| - 1]))
  }

  predicate ObeyedEvent(d: Discipline, s: State, e: Event) {
    match e
    case Do(a) => Obeys(d, s, a)
    case Reply(id, body) => id in s.callbacks ==> ObeyedActions(d, Call(s, id, s.callbacks[id]), body)
  }

  predicate Obeyed(d: Discipline, events: seq<Event>) {
    events == [] ||
    (Obeyed(d, events[..|events| - 1]) && ObeyedEvent(d, Run(events[..|events| - 1]), events[|events| - 1]))
  }

  // ----- What every run keeps -----------------------------------------------

  ghost predicate WasCalled(past: History, id: string) {
    exists c | c in past.called :: c.0 == id
  }

  // Each callback was called at most once, for the id it was emitted under; the
  // called ids are the answered ones, and the one being served.
  ghost predicate CallsRight(past: History, serving: Option<string>) {
    && (forall i, j | 0 <= i < j < |past.called| :: past.called[i].0 != past.called[j].0)
    && (forall c | c in past.called :: c.0 in past.emitted && past.emitted[c.0] == c.1)
    && (forall id :: WasCalled(past, id) <==> id in past.answered || serving == Some(id))
    && (serving.Some? ==> serving.value !in past.answered)
  }

  // The table holds what was emitted and not yet answered.
  ghost predicate TableRight(s: State) {
    && s.past.answered <= s.past.emitted.Keys
    && s.callbacks == s.past.emitted - s.past.answered
  }

  // How often wrappers of loaders were called.
  function LoaderCalls(called: seq<(string, Callback)>): nat {
    if called == [] then 0
    else LoaderCalls(called[..|called| - 1]) + if called[|called| - 1].1.Loader? then 1 else 0
  }

  // The loaders whose wrappers were called.
  function LoadersIn(called: seq<(string, Callback)>): set<nat> {
    if called == [] then {}
    else LoadersIn(called[..|called| - 1]) + if called[|called| - 1].1.Loader? then {called[|called| - 1].1.k} else {}
  }

  // The loader whose wrapper is being run.
  function Served(s: State, serving: Option<string>): set<nat> {
    if serving.Some? && serving.value in s.callbacks && s.callbacks[serving.value].Loader?
    then {s.callbacks[serving.value].k} else {}
  }

  // The counter went up for every loader made and down for every wrapper that
  // returned.
  ghost predicate CountRight(s: State, serving: Option<string>) {
    && s.loadersCount == |s.past.made| - LoaderCalls(s.past.called) + |Served(s, serving)|
    && s.past.finished + Served(s, serving) == LoadersIn(s.past.called)
    && (forall id | id in s.past.emitted && s.past.emitted[id].Loader? :: s.past.emitted[id].k in s.past.made)
  }

  // Every wrapper was emitted under one id at most.
  ghost predicate HandedRight(past: History) {
    && (forall id | id in past.emitted && past.emitted[id].Loader? :: past.emitted[id].k in past.handed)
    && (forall i, j | i in past.emitted && j in past.emitted && past.emitted[i].Loader? && i != j ::
          past.emitted[i] != past.emitted[j])
  }

  ghost predicate Invariant(d: Discipline, s: State, serving: Option<string>) {
    && CallsRight(s.past, serving) && TableRight(s)
    && (serving.Some? ==> serving.value in s.callbacks)
    && (d != FreshIds ==> CountRight(s, serving))
    && (d == HandedOnce ==> HandedRight(s.past))
  }

  lemma PerformKeeps(d: Discipline, s: State, a: Action, serving: Option<string>)
    requires Invariant(d, s, serving) && Obeys(d, s, a)
    ensures Invariant(d, Perform(s, a), serving)
    ensures forall id | id in s.callbacks ::
              id in Perform(s, a).callbacks && Perform(s, a).callbacks[id] == s.callbacks[id]
  {
    hide CallsRight, CountRight, HandedRight;
    PerformKeepsTable(s, a, serving);
    if d != FreshIds { PerformKeepsCount(s, a, serving); }
    if d == HandedOnce { PerformKeepsHanded(s, a); }
  }

  lemma PerformKeepsTable(s: State, a: Action, serving: Option<string>)
    requires CallsRight(s.past, serving) && TableRight(s) && Obeys(FreshIds, s, a)
    ensures CallsRight(Perform(s, a).past, serving) && TableRight(Perform(s, a))
  {
    assert forall id :: WasCalled(Perform(s, a).past, id) <==> WasCalled(s.past, id);
  }

  lemma PerformKeepsCount(s: State, a: Action, serving: Option<string>)
    requires CountRight(s, serving) && TableRight(s) && Obeys(RealLoaders, s, a)
    requires serving.Some? ==> serving.value in s.callbacks
    ensures CountRight(Perform(s, a), serving)
  {
    hide LoaderCalls, LoadersIn, Served;
    PerformKeepsServed(s, a, serving);
    if a.CustomLoader? { assert |s.past.made + {a.k}| == |s.past.made| + 1; }
  }

  lemma PerformKeepsServed(s: State, a: Action, serving: Option<string>)
    requires TableRight(s) && Obeys(FreshIds, s, a) && (serving.Some? ==> serving.value in s.callbacks)
    ensures Served(Perform(s, a), serving) == Served(s, serving)
  {
  }

  lemma PerformKeepsHanded(s: State, a: Action)
    requires HandedRight(s.past) && Obeys(HandedOnce, s, a)
    ensures HandedRight(Perform(s, a).past)
  {
  }

  lemma {:induction false} PerformAllKeeps(d: Discipline, s: State, actions: seq<Action>, serving: Option<string>)
    requires Invariant(d, s, serving) && ObeyedActions(d, s, actions)
    ensures Invariant(d, PerformAll(s, actions), serving)
    ensures forall id | id in s.callbacks ::
              id in PerformAll(s, actions).callbacks && PerformAll(s, actions).callbacks[id] == s.callbacks[id]
  {
    hide Invariant, Perform, Obeys;
    if actions != [] {
      PerformAllKeeps(d, s, actions[..|actions| - 1], serving);
      PerformKeeps(d, PerformAll(s, actions[..|actions| - 1]), actions[|actions| - 1], serving);
    }
  }

  lemma CallKeeps(d: Discipline, s: State, id: string)
    requires Invariant(d, s, None) && id in s.callbacks
    ensures Invariant(d, Call(s, id, s.callbacks[id]), Some(id))
  {
    hide CallsRight, CountRight, HandedRight;
    CallKeepsCalls(s, id);
    if d != FreshIds { CallKeepsCount(s, id); }
    if d == HandedOnce { HandedIgnoresRest(s.past, Call(s, id, s.callbacks[id]).past); }
  }

  lemma CallKeepsCalls(s: State, id: string)
    requires CallsRight(s.past, None) && TableRight(s) && id in s.callbacks
    ensures CallsRight(Call(s, id, s.callbacks[id]).past, Some(id))
  {
    var after := Call(s, id, s.callbacks[id]);
    assert forall c :: c in after.past.called <==> c in s.past.called || c == (id, s.callbacks[id]);
    forall x ensures WasCalled(after.past, x) <==> WasCalled(s.past, x) || x == id {
      assert (id, s.callbacks[id]) in after.past.called;
    }
    assert !WasCalled(s.past, id);
    forall i | 0 <= i < |s.past.called| ensures s.past.called[i].0 != id { assert s.past.called[i] in s.past.called; }
  }

  lemma CallKeepsCount(s: State, id: string)
    requires CountRight(s, None) && id in s.callbacks
    ensures CountRight(Call(s, id, s.callbacks[id]), Some(id))
  {
    var after := Call(s, id, s.callbacks[id]);
    assert after.past.called[..|s.past.called|] == s.past.called;
  }

  lemma HandedIgnoresRest(past: History, after: History)
    requires HandedRight(past) && after.emitted == past.emitted && after.handed == past.handed
    ensures HandedRight(after)
  {
  }

  lemma ReturnAndForgetKeep(d: Discipline, s: State, id: string)
    requires Invariant(d, s, Some(id))
    ensures Invariant(d, Forget(Return(s, s.callbacks[id]), id), None)
  {
    hide CallsRight, CountRight, HandedRight;
    var after := Forget(Return(s, s.callbacks[id]), id);
    AnsweredKeepsCalls(s, after, id);
    if d != FreshIds { ReturnKeepsCount(s, id); }
    if d == HandedOnce { HandedIgnoresRest(s.past, after.past); }
  }

  lemma AnsweredKeepsCalls(s: State, after: State, id: string)
    requires CallsRight(s.past, Some(id))
    requires after.past.called == s.past.called && after.past.emitted == s.past.emitted
    requires after.past.answered == s.past.answered + {id}
    ensures CallsRight(after.past, None)
  {
    forall x ensures WasCalled(after.past, x) <==> WasCalled(s.past, x) {}
  }

  lemma ReturnKeepsCount(s: State, id: string)
    requires CountRight(s, Some(id)) && id in s.callbacks
    ensures CountRight(Forget(Return(s, s.callbacks[id]), id), None)
  {
    hide LoaderCalls, LoadersIn;
  }

  lemma UnknownReplyKeeps(d: Discipline, s: State, id: string)
    requires Invariant(d, s, None) && id !in s.callbacks
    ensures Forget(s, id) == s
  {
    hide CountRight, HandedRight;
    assert s.callbacks - {id} == s.callbacks;
    if id in s.past.emitted { assert s.past.answered + {id} == s.past.answered; }
  }

  lemma StepKeeps(d: Discipline, s: State, e: Event)
    requires Invariant(d, s, None) && ObeyedEvent(d, s, e)
    ensures Invariant(d, Step(s, e), None)
  {
    hide Invariant, Perform, Obeys;
    match e {
      case Do(a) => PerformKeeps(d, s, a, None);
      case Reply(id, body) =>
        if id in s.callbacks {
          var called := Call(s, id, s.callbacks[id]);
          CallKeeps(d, s, id);
          PerformAllKeeps(d, called, body, Some(id));
          ReturnAndForgetKeep(d, PerformAll(called, body), id);
        } else {
          UnknownReplyKeeps(d, s, id);
        }
    }
  }

  // Over every run of emits, replies (duplicate, unknown or late ones included)
  // and emits from inside callbacks.
  lemma {:induction false} RunKeeps(d: Discipline, events: seq<Event>)
    requires Obeyed(d, events)
    ensures Invariant(d, Run(events), None)
  {
    hide Invariant, Step, ObeyedEvent;
    if events == [] {
      StartRight(d);
    } else {
      RunKeeps(d, events[..|events| - 1]);
      StepKeeps(d, Run(events[..|events| - 1]), events[|events| - 1]);
    }
  }

  lemma StartRight(d: Discipline)
    ensures Invariant(d, START, None)
  {
  }

  // Whatever is done with loaders: no callback is called twice or for another
  // id's reply, exactly the answered ids were called, and the table holds exactly
  // the ids emitted with a function and not yet answered.
  lemma CallbacksRunOnce(events: seq<Event>)
    requires Obeyed(FreshIds, events)
    ensures var s := Run(events);
            && (forall i, j | 0 <= i < j < |s.past.called| :: s.past.called[i].0 != s.past.called[j].0)
            && (forall c | c in s.past.called :: c.0 in s.past.emitted && s.past.emitted[c.0] == c.1)
            && (forall id :: id in s.past.answered <==> WasCalled(s.past, id))
            && s.callbacks == s.past.emitted - s.past.answered
  {
    RunKeeps(FreshIds, events);
  }

  // ----- The history, read off the events -----------------------------------

  // What the client did: top-level actions, and the bodies of the replies that
  // found a callback.
  function DoneBy(events: seq<Event>, j: nat): seq<Action>
    requires j < |events|
  {
    match events[j]
    case Do(a) => [a]
    case Reply(id, body) => if id in Run(events[..j]).callbacks then body else []
  }

  ghost predicate EmittedAt(events: seq<Event>, j: nat, id: string, f: Callback) {
    j < |events| && Emit(id, Some(f)) in DoneBy(events, j)
  }

  ghost predicate AnsweredAfter(events: seq<Event>, j: nat, id: string) {
    exists k | j < k < |events| :: events[k].Reply? && events[k].id == id
  }

  ghost predicate EmittedBy(events: seq<Event>, id: string, f: Callback) {
    exists j: nat :: EmittedAt(events, j, id, f)
  }

  ghost predicate ServedBy(events: seq<Event>, id: string, f: Callback) {
    exists j: nat :: EmittedAt(events, j, id, f) && AnsweredAfter(events, j, id)
  }

  ghost predicate Holds(m: map<string, Callback>, id: string, f: Callback) {
    id in m && m[id] == f
  }

  lemma DoneByPrefix(events: seq<Event>, e: Event, j: nat)
    requires j < |events|
    ensures DoneBy(events + [e], j) == DoneBy(events, j)
  {
    hide Run;
    assert (events + [e])[..j] == events[..j];
  }

  lemma EmittedBySnoc(events: seq<Event>, e: Event, id: string, f: Callback)
    ensures EmittedBy(events + [e], id, f)
            <==> EmittedBy(events, id, f) || Emit(id, Some(f)) in DoneBy(events + [e], |events|)
    ensures ServedBy(events + [e], id, f)
            <==> ServedBy(events, id, f) || (EmittedBy(events, id, f) && e.Reply? && e.id == id)
  {
    hide DoneBy;
    var more := events + [e];
    forall j: nat | j < |events| ensures EmittedAt(more, j, id, f) <==> EmittedAt(events, j, id, f) {
      DoneByPrefix(events, e, j);
    }
    forall j: nat | j < |events|
      ensures AnsweredAfter(more, j, id) <==> AnsweredAfter(events, j, id) || (e.Reply? && e.id == id)
    {
      AnsweredSnoc(events, e, j, id);
    }
    assert !AnsweredAfter(more, |events|, id);
    hide AnsweredAfter;
    if j: nat :| EmittedAt(more, j, id, f) && AnsweredAfter(more, j, id) {
      assert j < |events| && EmittedAt(events, j, id, f);
    }
    if j: nat :| EmittedAt(events, j, id, f) {
      assert EmittedAt(more, j, id, f);
      if e.Reply? && e.id == id { assert AnsweredAfter(more, j, id); }
    }
    if j: nat :| EmittedAt(events, j, id, f) && AnsweredAfter(events, j, id) {
      assert EmittedAt(more, j, id, f) && AnsweredAfter(more, j, id);
    }
    if Emit(id, Some(f)) in DoneBy(more, |events|) { assert EmittedAt(more, |events|, id, f); }
  }

  lemma AnsweredSnoc(events: seq<Event>, e: Event, j: nat, id: string)
    requires j < |events|
    ensures AnsweredAfter(events + [e], j, id) <==> AnsweredAfter(events, j, id) || (e.Reply? && e.id == id)
  {
    var more := events + [e];
    if k :| j < k < |events| && events[k].Reply? && events[k].id == id { assert more[k] == events[k]; }
    if e.Reply? && e.id == id { assert more[|events|] == e; }
  }

  lemma {:induction false} ActionsEmit(s: State, actions: seq<Action>, id: string, f: Callback)
    requires ObeyedActions(FreshIds, s, actions)
    ensures var after := PerformAll(s, actions).past;
            && after.answered == s.past.answered
            && (Holds(after.emitted, id, f) <==> Holds(s.past.emitted, id, f) || Emit(id, Some(f)) in actions)
  {
    if actions != [] {
      var init, last := actions[..|actions| - 1], actions[|actions| - 1];
      ActionsEmit(s, init, id, f);
      assert actions == init + [last];
    }
  }

  // Of any run with fresh ids: what was emitted is what some event emitted, and
  // what was answered is what a later reply named.
  lemma {:induction false} HistoryIs(events: seq<Event>, id: string, f: Callback)
    requires Obeyed(FreshIds, events)
    ensures Holds(Run(events).past.emitted, id, f) <==> EmittedBy(events, id, f)
    ensures Holds(Run(events).past.emitted, id, f) && id in Run(events).past.answered <==> ServedBy(events, id, f)
  {
    hide EmittedBy, ServedBy, DoneBy;
    if events == [] {
      NoEvents(id, f);
    } else {
      var init, e := events[..|events| - 1], events[|events| - 1];
      assert events == init + [e];
      HistoryIs(init, id, f);
      EmittedBySnoc(init, e, id, f);
      RunKeeps(FreshIds, init);
      assert DoneBy(events, |init|) == match e case Do(a) => [a]
                                              case Reply(r, body) => if r in Run(init).callbacks then body else [] by {
        LastDone(init, e);
      }
      StepHistory(Run(init), e, id, f);
      hide Run, Step;
    }
  }

  lemma LastDone(init: seq<Event>, e: Event)
    ensures DoneBy(init + [e], |init|) == match e case Do(a) => [a]
                                                case Reply(r, body) => if r in Run(init).callbacks then body else []
  {
    hide Run;
    assert (init + [e])[..|init|] == init;
  }

  lemma StepHistory(s: State, e: Event, id: string, f: Callback)
    requires Invariant(FreshIds, s, None) && ObeyedEvent(FreshIds, s, e)
    ensures var done := match e case Do(a) => [a]
                                case Reply(r, body) => if r in s.callbacks then body else [];
            var after := Step(s, e).past;
            && (Holds(after.emitted, id, f) <==> Holds(s.past.emitted, id, f) || Emit(id, Some(f)) in done)
            && (Holds(after.emitted, id, f) && id in after.answered
                <==> Holds(s.past.emitted, id, f) && (id in s.past.answered || (e.Reply? && e.id == id)))
  {
    match e {
      case Do(a) =>
        assert PerformAll(s, [a]) == Perform(s, a) by { assert [a][..0] == [] && PerformAll(s, []) == s; }
        assert s.past.answered <= s.past.emitted.Keys;
      case Reply(r, body) =>
        hide PerformAll;
        if r in s.callbacks {
          ActionsEmit(Call(s, r, s.callbacks[r]), body, id, f);
          ActionsKeepEmitted(Call(s, r, s.callbacks[r]), body, r);
          if id in s.past.emitted { ActionsKeepEmitted(Call(s, r, s.callbacks[r]), body, id); }
        } else {
          UnknownReplyKeeps(FreshIds, s, r);
        }
    }
  }

  // An id that was drawn keeps its callback, so no later emit names it.
  lemma {:induction false} ActionsKeepEmitted(s: State, actions: seq<Action>, id: string)
    requires ObeyedActions(FreshIds, s, actions) && id in s.past.emitted
    ensures id in PerformAll(s, actions).past.emitted
    ensures PerformAll(s, actions).past.emitted[id] == s.past.emitted[id]
  {
    if actions != [] { ActionsKeepEmitted(s, actions[..|actions| - 1], id); }
  }

  lemma NoEvents(id: string, f: Callback)
    ensures !EmittedBy([], id, f) && !ServedBy([], id, f)
  {
  }

  // Every callback that was handed to an emit, at top level or in the body of a
  // reply that was served, is in the table until a reply names its id, and has
  // been called from then on; nothing else is in the table or was called.
  lemma EmitsAreServed(events: seq<Event>, id: string, f: Callback)
    requires Obeyed(FreshIds, events)
    ensures var s := Run(events);
            && (id in s.callbacks && s.callbacks[id] == f
                <==> EmittedBy(events, id, f) && !ServedBy(events, id, f))
            && ((id, f) in s.past.called <==> ServedBy(events, id, f))
  {
    hide EmittedBy, ServedBy;
    HistoryIs(events, id, f);
    RunKeeps(FreshIds, events);
    var s := Run(events);
    hide Run;
    if id in s.past.answered {
      assert WasCalled(s.past, id);
      var c :| c in s.past.called && c.0 == id;
      assert c == (id, s.past.emitted[id]);
    }
    if (id, f) in s.past.called { assert WasCalled(s.past, id); }
  }

  // Loaders are made and the client is mounted by what the events do.
  lemma {:induction false} ActionsMake(s: State, actions: seq<Action>, k: nat)
    ensures k in PerformAll(s, actions).past.made <==> k in s.past.made || CustomLoader(k) in actions
    ensures PerformAll(s, actions).appReady == MountedBy(s.appReady, actions)
  {
    if actions != [] {
      var init, last := actions[..|actions| - 1], actions[|actions| - 1];
      ActionsMake(s, init, k);
      assert actions == init + [last];
      MountedSnoc(s.appReady, init, last);
      hide MountedBy;
    }
  }

  // Whether the client is mounted: the last word of these actions on it, if any.
  ghost predicate MountedBy(before: bool, actions: seq<Action>) {
    || (exists i :: LastWord(actions, i) && actions[i] == Mount)
    || (before && forall i :: !LastWord(actions, i))
  }

  ghost predicate LastWord(actions: seq<Action>, i: int) {
    && 0 <= i < |actions| && actions[i] in {Mount, Unmount}
    && forall j | i < j < |actions| :: actions[j] !in {Mount, Unmount}
  }

  lemma MountedSnoc(before: bool, actions: seq<Action>, a: Action)
    ensures MountedBy(before, actions + [a])
            <==> if a == Mount then true else if a == Unmount then false else MountedBy(before, actions)
  {
    var more := actions + [a];
    if a in {Mount, Unmount} {
      assert LastWord(more, |actions|);
      forall i | 0 <= i < |actions| ensures !LastWord(more, i) { assert more[|actions|] == a; }
    } else {
      forall i ensures LastWord(more, i) <==> LastWord(actions, i) {
        assert i == |actions| ==> more[i] == a;
        assert 0 <= i < |actions| ==> more[i] == actions[i];
        if LastWord(more, i) { assert forall j | i < j < |actions| :: more[j] == actions[j]; }
      }
    }
  }

  lemma {:induction false} MountedConcat(before: bool, a: seq<Action>, b: seq<Action>)
    ensures MountedBy(before, a + b) == MountedBy(MountedBy(before, a), b)
  {
    if b == [] {
      assert a + b == a;
      assert forall i :: !LastWord(b, i);
    } else {
      var init, last := b[..|b| - 1], b[|b| - 1];
      assert a + b == (a + init) + [last] && b == init + [last];
      MountedConcat(before, a, init);
      MountedSnoc(before, a + init, last);
      MountedSnoc(MountedBy(before, a), init, last);
      hide MountedBy;
    }
  }

  // Everything a run did, in order.
  function Trace(events: seq<Event>): seq<Action> {
    if events == [] then []
    else Trace(events[..|events| - 1]) + DoneBy(events, |events| - 1)
  }

  lemma {:induction false} TraceMakes(events: seq<Event>, k: nat)
    ensures k in Run(events).past.made <==> CustomLoader(k) in Trace(events)
    ensures Run(events).appReady == MountedBy(false, Trace(events))
  {
    hide MountedBy;
    if events == [] {
      NeverMounted();
    } else {
      var init, e := events[..|events| - 1], events[|events| - 1];
      assert events == init + [e];
      TraceMakes(init, k);
      LastDone(init, e);
      StepMakes(Run(init), e, k);
      MountedConcat(false, Trace(init), DoneBy(events, |init|));
      hide DoneBy, Step;
    }
  }

  lemma NeverMounted()
    ensures !MountedBy(false, [])
  {
  }

  lemma StepMakes(s: State, e: Event, k: nat)
    ensures var done := match e case Do(a) => [a]
                                case Reply(r, body) => if r in s.callbacks then body else [];
            && (k in Step(s, e).past.made <==> k in s.past.made || CustomLoader(k) in done)
            && Step(s, e).appReady == MountedBy(s.appReady, done)
  {
    hide MountedBy;
    match e {
      case Do(a) =>
        ActionsMake(s, [a], k);
        assert PerformAll(s, [a]) == Perform(s, a) by { assert [a][..0] == [] && PerformAll(s, []) == s; }
      case Reply(r, body) =>
        ActionsMake(s, [], k);
        if r in s.callbacks { ActionsMake(Call(s, r, s.callbacks[r]), body, k); }
        hide PerformAll;
    }
  }

  // ----- The count of loaders -----------------------------------------------

  predicate Ready(s: State) {
    s.appReady && s.loadersCount == 0
  }

  function Outstanding(s: State): set<nat> {
    s.past.made - s.past.finished
  }

  // No wrapper was called under two ids.
  ghost predicate WrappersCalledOnce(called: seq<(string, Callback)>) {
    forall i, j | 0 <= i < j < |called| && called[i].1.Loader? :: called[i].1 != called[j].1
  }

  lemma {:induction false} LoadersInMeans(called: seq<(string, Callback)>, k: nat)
    ensures k in LoadersIn(called) <==> exists c | c in called :: c.1 == Loader(k)
  {
    if called != [] {
      var init, last := called[..|called| - 1], called[|called| - 1];
      assert called == init + [last];
      LoadersInMeans(init, k);
    }
  }

  // Calls outnumber the loaders called exactly when some wrapper was called twice.
  lemma {:induction false} CallsOfLoaders(called: seq<(string, Callback)>)
    ensures |LoadersIn(called)| <= LoaderCalls(called)
    ensures |LoadersIn(called)| == LoaderCalls(called) <==> WrappersCalledOnce(called)
  {
    if called != [] {
      var init, last := called[..|called| - 1], called[|called| - 1];
      CallsOfLoaders(init);
      CalledOnceSnoc(init, last);
      assert called == init + [last];
      hide WrappersCalledOnce;
    }
  }

  lemma CalledOnceSnoc(init: seq<(string, Callback)>, last: (string, Callback))
    ensures WrappersCalledOnce(init + [last])
            <==> WrappersCalledOnce(init) && (last.1.Loader? ==> last.1.k !in LoadersIn(init))
  {
    hide LoadersIn;
    var called := init + [last];
    assert forall i | 0 <= i < |init| :: called[i] == init[i];
    if last.1.Loader? {
      LoadersInMeans(init, last.1.k);
      if c :| c in init && c.1 == last.1 {
        var i :| 0 <= i < |init| && init[i] == c;
        assert called[i].1 == called[|init|].1;
      }
    }
  }

  // The counter is the number of loaders made less the number of wrapper calls,
  // so it never exceeds the outstanding loaders, and equals them exactly as long
  // as no wrapper was called under two ids.
  lemma LoaderCountExact(events: seq<Event>)
    requires Obeyed(RealLoaders, events)
    ensures var s := Run(events);
            && (forall k :: k in s.past.made <==> CustomLoader(k) in Trace(events))
            && (forall k :: k in s.past.finished <==> exists c | c in s.past.called :: c.1 == Loader(k))
            && s.past.finished <= s.past.made
            && s.loadersCount == |s.past.made| - LoaderCalls(s.past.called) <= |Outstanding(s)|
            && (s.loadersCount == |Outstanding(s)| <==> WrappersCalledOnce(s.past.called))
  {
    RunKeeps(RealLoaders, events);
    var s := Run(events);
    CallsOfLoaders(s.past.called);
    FinishedWereMade(s);
    LoaderSets(events);
    hide Run, Trace, LoadersIn, LoaderCalls, WrappersCalledOnce;
    assert |Outstanding(s)| == |s.past.made| - |s.past.finished|;
  }

  lemma LoaderSets(events: seq<Event>)
    requires Run(events).past.finished == LoadersIn(Run(events).past.called)
    ensures forall k :: k in Run(events).past.made <==> CustomLoader(k) in Trace(events)
    ensures forall k :: k in Run(events).past.finished <==> exists c | c in Run(events).past.called :: c.1 == Loader(k)
  {
    hide *;
    forall k: nat
      ensures k in Run(events).past.made <==> CustomLoader(k) in Trace(events)
      ensures k in Run(events).past.finished <==> exists c | c in Run(events).past.called :: c.1 == Loader(k)
    {
      TraceMakes(events, k);
      LoadersInMeans(Run(events).past.called, k);
    }
  }

  lemma FinishedWereMade(s: State)
    requires Invariant(RealLoaders, s, None)
    ensures s.past.finished == LoadersIn(s.past.called) && s.past.finished <= s.past.made
  {
    forall k | k in s.past.finished ensures k in s.past.made {
      LoadersInMeans(s.past.called, k);
    }
  }

  // What breaks a right count is a reply for a wrapper that was called before.
  lemma ReplyKeepsCountIff(events: seq<Event>, id: string, body: seq<Action>)
    requires Obeyed(RealLoaders, events + [Reply(id, body)])
    requires var s := Run(events); s.loadersCount == |Outstanding(s)|
    ensures var s, after := Run(events), Run(events + [Reply(id, body)]);
            after.loadersCount == |Outstanding(after)|
            <==> !(id in s.callbacks && s.callbacks[id].Loader? && s.callbacks[id].k in s.past.finished)
  {
    hide Run, Step, ObeyedEvent, LoaderCalls, LoadersIn, WrappersCalledOnce;
    var s := Run(events);
    RunSnoc(events, Reply(id, body));
    LoaderCountExact(events);
    LoaderCountExact(events + [Reply(id, body)]);
    RunKeeps(RealLoaders, events);
    FinishedWereMade(s);
    ReplyCalls(s, id, body);
    if id in s.callbacks {
      CalledOnceSnoc(s.past.called, (id, s.callbacks[id]));
    } else {
      assert s.past.called + [] == s.past.called;
    }
  }

  lemma ReplyCalls(s: State, id: string, body: seq<Action>)
    ensures Step(s, Reply(id, body)).past.called
            == s.past.called + if id in s.callbacks then [(id, s.callbacks[id])] else []
  {
    hide PerformAll;
    if id in s.callbacks { ActionsCallNothing(Call(s, id, s.callbacks[id]), body); }
  }

  lemma {:induction false} ActionsCallNothing(s: State, actions: seq<Action>)
    ensures PerformAll(s, actions).past.called == s.past.called
  {
    if actions != [] { ActionsCallNothing(s, actions[..|actions| - 1]); }
  }

  lemma {:induction false} HandedOnceIsReal(events: seq<Event>)
    requires Obeyed(HandedOnce, events)
    ensures Obeyed(RealLoaders, events)
  {
    hide Run;
    if events != [] {
      HandedOnceIsReal(events[..|events| - 1]);
      var s, e := Run(events[..|events| - 1]), events[|events| - 1];
      if e.Reply? && e.id in s.callbacks { HandedOnceActions(Call(s, e.id, s.callbacks[e.id]), e.body); }
    }
  }

  lemma {:induction false} HandedOnceActions(s: State, actions: seq<Action>)
    requires ObeyedActions(HandedOnce, s, actions)
    ensures ObeyedActions(RealLoaders, s, actions)
  {
    hide PerformAll;
    if actions != [] { HandedOnceActions(s, actions[..|actions| - 1]); }
  }

  // When each wrapper is handed to one emit, the counter is the number of loaders
  // made and not finished between any two handlers, so the client is ready exactly
  // when it is mounted and none is outstanding.
  lemma LoadersCounted(events: seq<Event>)
    requires Obeyed(HandedOnce, events)
    ensures var s := Run(events);
            && s.loadersCount == |Outstanding(s)| >= 0
            && (Ready(s) <==> MountedBy(false, Trace(events)) && s.past.made == s.past.finished)
  {
    HandedOnceIsReal(events);
    LoaderCountExact(events);
    RunKeeps(HandedOnce, events);
    TraceMakes(events, 0);
    hide MountedBy, Trace;
    var s := Run(events);
    forall i, j | 0 <= i < j < |s.past.called| && s.past.called[i].1.Loader?
      ensures s.past.called[i].1 != s.past.called[j].1
    {
      assert s.past.called[i] in s.past.called && s.past.called[j] in s.past.called;
    }
    assert Outstanding(s) == {} ==> s.past.made == s.past.finished;
  }

  // Handing one wrapper to two emits and answering both: the counter goes below
  // zero.
  lemma WrapperHandedTwice()
    ensures var events := [Do(CustomLoader(0)), Do(Emit("a", Some(Loader(0)))), Do(Emit("b", Some(Loader(0)))),
                           Reply("a", []), Reply("b", [])];
            Obeyed(RealLoaders, events) && Run(events).loadersCount == -1
  {
    var e1, e2, e3 := Do(CustomLoader(0)), Do(Emit("a", Some(Loader(0)))), Do(Emit("b", Some(Loader(0))));
    var e4, e5 := Reply("a", []), Reply("b", []);
    RunSnoc([], e1);
    RunSnoc([e1], e2);
    RunSnoc([e1, e2], e3);
    RunSnoc([e1, e2, e3], e4);
    RunSnoc([e1, e2, e3, e4], e5);
    assert [e1, e2, e3, e4, e5] == [] + [e1] + [e2] + [e3] + [e4] + [e5];
    assert "a" != "b";
  }

  lemma RunSnoc(events: seq<Event>, e: Event)
    ensures Run(events + [e]) == Step(Run(events), e)
    ensures Obeyed(RealLoaders, events + [e])
            <==> Obeyed(RealLoaders, events) && ObeyedEvent(RealLoaders, Run(events), e)
  {
    assert (events + [e])[..|events|] == events;
  }

  // ----- The client object --------------------------------------------------

  class Client {
    var callbacks: map<string, Callback>
    var loadersCount: int
    var appReady: bool
    ghost var past: History

    ghost function Now(): State
      reads this
    {
      State(callbacks, loadersCount, appReady, past)
    }

    constructor ()
      ensures Now() == START
    {
      callbacks, loadersCount, appReady := map[], 0, false;
      past := START.past;
    }

    // torrentSocket.emit: a callback in last place is kept under the drawn id.
    method EmitTo(id: string, callback: Option<Callback>) returns (sent: Option<string>)
      modifies this
      ensures Now() == Perform(old(Now()), Emit(id, callback))
      ensures sent == if callback.Some? then Some(id) else None
    {
      sent := None;
      if callback.Some? {
        sent := Some(id);
        callbacks := callbacks[id := callback.value];
        past := Perform(old(Now()), Emit(id, callback)).past;
      }
    }

    // customLoader, up to the wrapper it returns.
    method MakeLoader(k: nat) returns (wrapper: Callback)
      modifies this
      ensures Now() == Perform(old(Now()), CustomLoader(k))
      ensures wrapper == Loader(k)
    {
      loadersCount := loadersCount + 1;
      wrapper := Loader(k);
      past := past.(made := past.made + {k});
    }

    method Act(a: Action)
      modifies this
      ensures Now() == Perform(old(Now()), a)
    {
      match a {
        case Emit(id, callback) => var _ := EmitTo(id, callback);
        case CustomLoader(k) => var _ := MakeLoader(k);
        case Mount => appReady := true;
        case Unmount => appReady := false;
      }
    }

    // The handler of a 'callback' message; body is what the callback does.
    method OnCallback(id: string, body: seq<Action>)
      modifies this
      ensures Now() == Step(old(Now()), Reply(id, body))
    {
      hide Perform;
      if id in callbacks {
        var callback := callbacks[id];
        past := Call(Now(), id, callback).past;
        ghost var start := Now();
        assert body[..0] == [];
        for i := 0 to |body|
          invariant Now() == PerformAll(start, body[..i])
        {
          Act(body[i]);
          assert body[..i + 1][..i] == body[..i];
        }
        assert body[..|body|] == body;
        if callback.Loader? {
          past := Return(Now(), callback).past;
          loadersCount := loadersCount - 1;
        }
      }
      past := Forget(Now(), id).past;
      callbacks := callbacks - {id};
    }

    method IsReady() returns (ready: bool)
      ensures ready == Ready(Now())
    {
      ready := appReady && loadersCount == 0;
    }
  }
}
