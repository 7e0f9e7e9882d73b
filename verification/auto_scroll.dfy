// When the infinite-scroll page asks for more content.
module AutoScroll {

  // One scroll event: the document height, and how far down the window's lower
  // edge is.
  datatype Event = Event(height: real, bottom: real)

  // The closure's two variables.
  datatype State = State(prevHeight: real, fireStart: real)

  const START := State(0.0, 0.0)

  function OnScroll(s: State, e: Event): (State, bool) {
    var armed := if s.prevHeight != e.height then State(e.height, e.height / 6.0) else s;
    if e.bottom >= e.height - armed.fireStart then (armed.(fireStart := -1.0), true) else (armed, false)
  }

  function After(events: seq<Event>, n: nat): State
    requires n <= |events|
  {
    if n == 0 then START else OnScroll(After(events, n - 1), events[n - 1]).0
  }

  predicate FiresAt(events: seq<Event>, i: nat)
    requires i < |events|
  {
    OnScroll(After(events, i), events[i]).1
  }

  // ----- The rule the closure implements ------------------------------------

  // Within the last sixth of the document.
  predicate Near(e: Event) {
    6.0 * e.bottom >= 5.0 * e.height
  }

  // The document height did not change from event j to event i.
  ghost predicate SameStretch(events: seq<Event>, j: nat, i: nat)
    requires j <= i < |events|
  {
    forall k | j <= k <= i :: events[k].height == events[i].height
  }

  ghost predicate NearSince(events: seq<Event>, i: nat)
    requires i < |events|
  {
    exists j: nat | j <= i :: SameStretch(events, j, i) && Near(events[j])
  }

  lemma NearSinceNext(events: seq<Event>, i: nat)
    requires 0 < i < |events|
    ensures NearSince(events, i)
            <==> Near(events[i]) || (events[i - 1].height == events[i].height && NearSince(events, i - 1))
  {
    hide Near;
    if NearSince(events, i) && !Near(events[i]) {
      var j: nat :| j <= i && SameStretch(events, j, i) && Near(events[j]);
      assert j < i && SameStretch(events, j, i - 1);
    }
    if events[i - 1].height == events[i].height && NearSince(events, i - 1) {
      var j: nat :| j <= i - 1 && SameStretch(events, j, i - 1) && Near(events[j]);
      assert SameStretch(events, j, i);
    }
    if Near(events[i]) { assert SameStretch(events, i, i); }
  }

  // After event i the closure is spent exactly when the current stretch has seen
  // a near event, and armed at a sixth of the height otherwise.
  lemma {:induction false} StateMeans(events: seq<Event>, i: nat)
    requires i < |events|
    ensures After(events, i + 1)
            == State(events[i].height, if NearSince(events, i) then -1.0 else events[i].height / 6.0)
  {
    hide NearSince;
    if i == 0 {
      assert NearSince(events, 0) <==> Near(events[0]) by { FirstNear(events); }
    } else {
      StateMeans(events, i - 1);
      NearSinceNext(events, i);
    }
  }

  lemma FirstNear(events: seq<Event>)
    requires events != []
    ensures NearSince(events, 0) <==> Near(events[0])
  {
    hide Near;
    assert SameStretch(events, 0, 0);
  }

  // The stretch had a near event before event i.
  ghost predicate NearBefore(events: seq<Event>, i: nat)
    requires i < |events|
  {
    exists j: nat | j < i :: SameStretch(events, j, i) && Near(events[j])
  }

  // In every run: the first near event since the document height last changed
  // fires, and after it, at that height, exactly the events whose window ends a
  // whole pixel below the document.
  lemma FiresExactly(events: seq<Event>, i: nat)
    requires i < |events|
    ensures FiresAt(events, i)
            <==> if NearBefore(events, i) then events[i].bottom >= events[i].height + 1.0 else Near(events[i])
  {
    hide NearSince, NearBefore;
    if i > 0 {
      StateMeans(events, i - 1);
      EarlierNear(events, i);
    } else {
      NoneBefore(events);
    }
  }

  lemma NoneBefore(events: seq<Event>)
    requires events != []
    ensures !NearBefore(events, 0)
  {
  }

  lemma EarlierNear(events: seq<Event>, i: nat)
    requires 0 < i < |events|
    ensures NearBefore(events, i)
            <==> events[i - 1].height == events[i].height && NearSince(events, i - 1)
  {
    hide Near;
    if j: nat :| j < i && SameStretch(events, j, i) && Near(events[j]) {
      assert SameStretch(events, j, i - 1);
    }
    if events[i - 1].height == events[i].height && NearSince(events, i - 1) {
      var j: nat :| j <= i - 1 && SameStretch(events, j, i - 1) && Near(events[j]);
      assert SameStretch(events, j, i);
    }
  }

  function Firings(events: seq<Event>, n: nat): nat
    requires n <= |events|
  {
    if n == 0 then 0 else Firings(events, n - 1) + if FiresAt(events, n - 1) then 1 else 0
  }

  function HeightChanges(events: seq<Event>, n: nat): nat
    requires n <= |events|
  {
    if n <= 1 then 0 else HeightChanges(events, n - 1) + if events[n - 1].height != events[n - 2].height then 1 else 0
  }

  // The events whose window ends a whole pixel below the document.
  function BelowDocument(events: seq<Event>, n: nat): nat
    requires n <= |events|
  {
    if n == 0 then 0
    else BelowDocument(events, n - 1) + if events[n - 1].bottom >= events[n - 1].height + 1.0 then 1 else 0
  }

  lemma {:induction false} FiringsBounded(events: seq<Event>, i: nat)
    requires i < |events|
    ensures Firings(events, i + 1)
            <= HeightChanges(events, i + 1) + BelowDocument(events, i + 1) + if NearSince(events, i) then 1 else 0
  {
    hide NearSince, Near, After, OnScroll;
    FiresMeans(events, i);
    if i > 0 {
      FiringsBounded(events, i - 1);
      NearSinceNext(events, i);
    }
  }

  lemma FiresMeans(events: seq<Event>, i: nat)
    requires i < |events|
    ensures FiresAt(events, i)
            <==> if i > 0 && events[i - 1].height == events[i].height && NearSince(events, i - 1)
                 then events[i].bottom >= events[i].height + 1.0 else Near(events[i])
    ensures i == 0 && FiresAt(events, i) ==> NearSince(events, i)
    ensures Firings(events, 0) == BelowDocument(events, 0) == 0
  {
    FiresExactly(events, i);
    FirstNear(events);
    if i > 0 { EarlierNear(events, i); } else { NoneBefore(events); }
    hide NearSince, NearBefore;
  }

  // Over any run the page asks for more at most once more often than the height
  // changed, besides the events that end a whole pixel below the document.
  lemma FiringsPerHeight(events: seq<Event>)
    ensures Firings(events, |events|) <= HeightChanges(events, |events|) + 1 + BelowDocument(events, |events|)
  {
    if events != [] { FiringsBounded(events, |events| - 1); }
  }

  // Two firings at one height, with the window a whole pixel below the document.
  lemma RefiresBelowDocument()
    ensures var events := [Event(600.0, 601.0), Event(600.0, 601.0)];
            FiresAt(events, 0) && FiresAt(events, 1) && Firings(events, 2) > HeightChanges(events, 2) + 1
  {
    var events := [Event(600.0, 601.0), Event(600.0, 601.0)];
    assert SameStretch(events, 0, 1) && Near(events[0]);
    FiresExactly(events, 0);
    FiresExactly(events, 1);
    NoneBefore(events);
    hide FiresAt, SameStretch;
    assert Firings(events, 1) == 1;
  }

  class Scrollable {
    var prevScrollValue: real
    var outFireStart: real

    function Now(): State
      reads this
    {
      State(prevScrollValue, outFireStart)
    }

    constructor ()
      ensures Now() == START
    {
      prevScrollValue, outFireStart := 0.0, 0.0;
    }

    // The scroll listener; fired tells whether it called onBottomScroll.
    method Scroll(scrollHeight: real, bottom: real) returns (fired: bool)
      modifies this
      ensures (Now(), fired) == OnScroll(old(Now()), Event(scrollHeight, bottom))
    {
      if prevScrollValue != scrollHeight {
        prevScrollValue := scrollHeight;
        outFireStart := scrollHeight / 6.0;
      }
      fired := false;
      if bottom >= scrollHeight - outFireStart {
        outFireStart := -1.0;
        fired := true;
      }
    }
  }
}
