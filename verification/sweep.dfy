// Sweeping the index page by page while deleting from it.
module Sweep {
  import opened Text
  import opened GroongaIndex

  // The records that pass, in order.
  function Kept(passes: Entry -> bool, es: seq<Entry>): seq<Entry> {
    if es == [] then []
    else
      var last := es[|es| - 1];
      Kept(passes, es[..|es| - 1]) + (if passes(last) then [last] else [])
  }

  function RejectedCount(passes: Entry -> bool, es: seq<Entry>): nat {
    if es == [] then 0
    else RejectedCount(passes, es[..|es| - 1]) + (if passes(es[|es| - 1]) then 0 else 1)
  }

  lemma {:induction false} KeptMembers(passes: Entry -> bool, es: seq<Entry>)
    ensures forall e :: e in Kept(passes, es) <==> e in es && passes(e)
    ensures |Kept(passes, es)| + RejectedCount(passes, es) == |es|
  {
    if es != [] {
      KeptMembers(passes, es[..|es| - 1]);
      assert es == es[..|es| - 1] + [es[|es| - 1]];
    }
  }

  lemma {:induction false} KeptWellFormed(passes: Entry -> bool, es: seq<Entry>)
    requires WellFormed(es)
    ensures WellFormed(Kept(passes, es))
  {
    if es != [] {
      var init, last := es[..|es| - 1], es[|es| - 1];
      KeptWellFormed(passes, init);
      KeptMembers(passes, init);
      var kept := Kept(passes, init);
      forall i | 0 <= i < |kept| ensures kept[i].id < last.id && kept[i].key != last.key {
        assert kept[i] in init;
      }
      hide Kept, IsLower;
      AppendWellFormed(kept, last);
    }
  }

  lemma AppendWellFormed(es: seq<Entry>, e: Entry)
    requires WellFormed(es) && e.id > 0 && IsLower(e.key)
    requires forall i | 0 <= i < |es| :: es[i].id < e.id && es[i].key != e.key
    ensures WellFormed(es + [e]) && WellFormed(es + [])
  {
    hide IsLower;
    assert es + [] == es;
  }

  lemma KeptTable(passes: Entry -> bool, es: seq<Entry>)
    requires WellFormed(es)
    ensures WellFormed(Kept(passes, es))
    ensures forall key :: key in Table(Kept(passes, es)) <==> exists e | e in es :: e.key == key && passes(e)
    ensures forall key | key in Table(Kept(passes, es)) ::
              key in Table(es) && Table(Kept(passes, es))[key] == Table(es)[key]
  {
    KeptWellFormed(passes, es);
    KeptMembers(passes, es);
    var kept := Kept(passes, es);
    assert DistinctKeys(es) && DistinctKeys(kept);
    hide Kept, WellFormed, DistinctKeys;
    forall key | key in Table(kept) ensures key in Table(es) && Table(kept)[key] == Table(es)[key] {
      var e :| e in kept && e.key == key;
      assert e in es;
    }
  }

  lemma {:induction false} KeptWhenAllPass(passes: Entry -> bool, es: seq<Entry>)
    requires forall e | e in es :: passes(e)
    ensures Kept(passes, es) == es && RejectedCount(passes, es) == 0
  {
    if es != [] {
      var init := es[..|es| - 1];
      assert forall e | e in init :: e in es;
      KeptWhenAllPass(passes, init);
      assert es[|es| - 1] in es;
      assert es == init + [es[|es| - 1]];
    }
  }

  // A second sweep finds nothing to remove.
  lemma KeptTwice(passes: Entry -> bool, es: seq<Entry>)
    ensures Kept(passes, Kept(passes, es)) == Kept(passes, es)
    ensures RejectedCount(passes, Kept(passes, es)) == 0
  {
    KeptMembers(passes, es);
    KeptWhenAllPass(passes, Kept(passes, es));
  }

  // What a sweep that has seen k records has rejected.
  ghost function RejectedSoFar(passes: Entry -> bool, before: seq<Entry>, k: nat): nat
    requires k <= |before|
  {
    RejectedCount(passes, before[..k])
  }

  // The index after the first k records of a sweep.
  ghost function SoFar(passes: Entry -> bool, before: seq<Entry>, k: nat, dryRun: bool): seq<Entry>
    requires k <= |before|
  {
    if dryRun then before else Kept(passes, before[..k]) + before[k..]
  }

  // The id a sweep that has seen k records continues after.
  ghost function Cursor(before: seq<Entry>, k: nat): int
    requires k <= |before|
  {
    if k == 0 then 0 else before[k - 1].id
  }

  lemma CursorSplits(before: seq<Entry>, k: nat)
    requires WellFormed(before) && k <= |before|
    ensures forall e | e in before[..k] :: e.id <= Cursor(before, k)
    ensures forall e | e in before[k..] :: e.id > Cursor(before, k)
  {
  }

  // Whatever was removed so far, the page filter selects exactly the records the
  // sweep has not come to yet.
  lemma UnseenAfterCursor(passes: Entry -> bool, before: seq<Entry>, k: nat, dryRun: bool)
    requires WellFormed(before) && k <= |before|
    ensures After(SoFar(passes, before, k, dryRun), Cursor(before, k)) == before[k..]
  {
    CursorSplits(before, k);
    KeptMembers(passes, before[..k]);
    var low := if dryRun then before[..k] else Kept(passes, before[..k]);
    assert SoFar(passes, before, k, dryRun) == low + before[k..] by {
      assert before == before[..k] + before[k..];
    }
    hide WellFormed, Kept, SoFar, Cursor, After;
    AfterSplit(low, before[k..], Cursor(before, k));
  }

  lemma NextPage(passes: Entry -> bool, before: seq<Entry>, k: nat, dryRun: bool, limit: nat)
    requires WellFormed(before) && k <= |before|
    ensures Limit(After(SoFar(passes, before, k, dryRun), Cursor(before, k)), limit)
            == before[k..if |before| - k <= limit then |before| else k + limit]
  {
    UnseenAfterCursor(passes, before, k, dryRun);
    hide WellFormed, SoFar, Cursor, After;
  }

  lemma SweepEnds(passes: Entry -> bool, before: seq<Entry>, dryRun: bool)
    ensures Cursor(before, 0) == 0 && SoFar(passes, before, 0, dryRun) == before
    ensures RejectedSoFar(passes, before, 0) == 0
    ensures SoFar(passes, before, |before|, dryRun) == if dryRun then before else Kept(passes, before)
    ensures RejectedSoFar(passes, before, |before|) == RejectedCount(passes, before)
  {
    assert before[..|before|] == before && before[0..] == before;
  }

  lemma SweepStep(passes: Entry -> bool, before: seq<Entry>, k: nat, dryRun: bool)
    requires WellFormed(before) && k < |before|
    ensures var now := SoFar(passes, before, k, dryRun);
            SoFar(passes, before, k + 1, dryRun)
            == if dryRun || passes(before[k]) then now else Without(now, before[k].key)
    ensures RejectedSoFar(passes, before, k + 1)
            == RejectedSoFar(passes, before, k) + if passes(before[k]) then 0 else 1
  {
    hide WellFormed, Without, Kept, RejectedCount;
    var e, kept, rest := before[k], Kept(passes, before[..k]), before[k + 1..];
    OneMoreRecord(passes, before, k);
    assert before[k..] == [e] + rest;
    if passes(e) {
      assert (kept + [e]) + rest == kept + ([e] + rest);
    } else {
      OthersDiffer(before, k);
      KeptMembers(passes, before[..k]);
      DropRejected(kept, e, rest);
    }
  }

  lemma OneMoreRecord(passes: Entry -> bool, before: seq<Entry>, k: nat)
    requires k < |before|
    ensures Kept(passes, before[..k + 1])
            == if passes(before[k]) then Kept(passes, before[..k]) + [before[k]] else Kept(passes, before[..k])
    ensures RejectedCount(passes, before[..k + 1])
            == RejectedCount(passes, before[..k]) + if passes(before[k]) then 0 else 1
  {
    assert before[..k + 1][..k] == before[..k];
  }

  lemma OthersDiffer(before: seq<Entry>, k: nat)
    requires WellFormed(before) && k < |before|
    ensures forall x | x in before[..k] || x in before[k + 1..] :: x.key != before[k].key
  {
  }

  lemma DropRejected(seen: seq<Entry>, e: Entry, unseen: seq<Entry>)
    requires forall x | x in seen || x in unseen :: x.key != e.key
    ensures Without(seen + ([e] + unseen), e.key) == seen + unseen
  {
    WithoutHead(e, unseen);
    hide Without;
    WithoutAbsent(seen, e.key);
    WithoutAbsent(unseen, e.key);
    WithoutConcat(seen, [e] + unseen, e.key);
  }

  lemma WithoutHead(e: Entry, es: seq<Entry>)
    ensures Without([e] + es, e.key) == Without(es, e.key)
  {
    assert ([e] + es)[1..] == es;
  }
}
