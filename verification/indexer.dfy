// The live indexer: admitting discovered torrents and pruning the index back to
// its configured size in batches.
module Indexer {
  import opened Json
  import opened Text
  import opened Torrents
  import opened FilterPolicy
  import opened IndexRow
  import opened GroongaIndex

  const BATCH_CAP := 500

  // A discovered torrent (already classified), or the queued prune task with the
  // keys that the lowest-value query answers it.
  datatype Event = Discover(t: Torrent) | PruneBatch(victims: seq<string>)

  // A prune task is queued exactly while pruneInFlight is set.
  datatype State = State(table: map<string, Row>, recordCount: int, pruneInFlight: bool)

  function Max(a: int, b: int): int {
    if a < b then b else a
  }

  function Min(a: int, b: int): int {
    if a < b then a else b
  }

  function Slack(cap: int): int {
    Max(if cap < 0 then 0 else cap / 50, 100)
  }

  function BatchLimit(cap: int, recordCount: int): nat {
    Min(Max(recordCount - cap, 0), BATCH_CAP)
  }

  // Whether one more record starts a prune.
  predicate StartsPrune(cap: int, recordCount: int, pruneInFlight: bool) {
    cap > 0 && !pruneInFlight && recordCount > cap + Slack(cap)
  }

  ghost function Step(text: JsonText, reasons: Reasons, cap: int, s: State, e: Event): State {
    match e
    case Discover(t) =>
      if reasons(t) != "" || !IsInfoHash(t.hash) then s
      else
        var after := Apply(text, Upsert(t), s.table);
        if ToLower(t.hash) in s.table then s.(table := after)
        else State(after, s.recordCount + 1, s.pruneInFlight || StartsPrune(cap, s.recordCount + 1, s.pruneInFlight))
    case PruneBatch(victims) =>
      if BatchLimit(cap, s.recordCount) == 0 then s.(pruneInFlight := false)
      else
        var left := s.recordCount - |victims|;
        State(s.table - (set h | h in victims), left, left > cap && |victims| > 0)
  }

  // A prune task only runs when queued, on keys that the query may answer.
  ghost predicate Allowed(cap: int, s: State, e: Event) {
    e.PruneBatch? ==> s.pruneInFlight && LowestValue(s.table, e.victims, BatchLimit(cap, s.recordCount))
  }

  // The counter is the number of records, and only a limit queues prunes.
  ghost predicate Counted(cap: int, s: State) {
    s.recordCount == |s.table| && (cap <= 0 ==> !s.pruneInFlight)
  }

  // More than a hundred records and more than a fiftieth of the limit over it.
  predicate Oversized(cap: int, n: int) {
    n > cap + 100 && 50 * (n - cap) > cap
  }

  // While no prune is queued the index is within its limit and slack.
  predicate WithinLimit(cap: int, s: State) {
    cap > 0 && !s.pruneInFlight ==> !Oversized(cap, s.recordCount)
  }

  // Where an indexer starts, whatever the index holds.
  function Opened(table: map<string, Row>): State {
    State(table, |table|, false)
  }

  // The event adds a record.
  predicate AdmitsNew(reasons: Reasons, s: State, e: Event) {
    e.Discover? && reasons(e.t) == "" && IsInfoHash(e.t.hash) && ToLower(e.t.hash) !in s.table
  }

  lemma {:induction false} DistinctCount(hashes: seq<string>)
    requires DistinctHashes(hashes)
    ensures |set h | h in hashes| == |hashes|
  {
    if hashes != [] {
      var init, last := hashes[..|hashes| - 1], hashes[|hashes| - 1];
      DistinctCount(init);
      assert hashes == init + [last];
      assert (set h | h in hashes) == (set h | h in init) + {last};
    }
  }

  lemma SizeWithout(table: map<string, Row>, hashes: seq<string>)
    requires DistinctHashes(hashes) && forall h | h in hashes :: h in table
    ensures |table - (set h | h in hashes)| == |table| - |hashes|
  {
    DistinctCount(hashes);
    var gone := set h | h in hashes;
    assert (table - gone).Keys == table.Keys - gone && gone <= table.Keys;
    assert |table.Keys - gone| == |table.Keys| - |gone|;
  }

  // The query answers as many keys as it was asked for.
  lemma BatchIsFull(cap: int, s: State, victims: seq<string>)
    requires cap >= 0 && s.recordCount == |s.table|
    requires LowestValue(s.table, victims, BatchLimit(cap, s.recordCount))
    ensures |victims| == BatchLimit(cap, s.recordCount)
  {
    DistinctCount(victims);
    var gone := set h | h in victims;
    if |victims| < BatchLimit(cap, s.recordCount) {
      assert s.table.Keys <= gone;
      SubsetSize(s.table.Keys, gone);
    }
  }

  lemma {:induction false} SubsetSize(a: set<string>, b: set<string>)
    requires a <= b
    ensures |a| <= |b|
  {
    if a != {} {
      var x :| x in a;
      SubsetSize(a - {x}, b - {x});
    }
  }

  lemma StepKeepsCounted(text: JsonText, reasons: Reasons, cap: int, s: State, e: Event)
    requires Counted(cap, s) && Allowed(cap, s, e)
    ensures var after := Step(text, reasons, cap, s, e);
            && Counted(cap, after)
            && (WithinLimit(cap, after) <==> WithinLimit(cap, s) || AdmitsNew(reasons, s, e))
            && (e.Discover? ==>
                  && after.recordCount == s.recordCount + (if AdmitsNew(reasons, s, e) then 1 else 0)
                  && (after.pruneInFlight
                      <==> || s.pruneInFlight
                           || (cap > 0 && AdmitsNew(reasons, s, e) && Oversized(cap, s.recordCount + 1))))
            && (e.PruneBatch? ==> after.recordCount == s.recordCount - BatchLimit(cap, s.recordCount))
  {
    hide Apply, LowestValue, IsInfoHash;
    match e {
      case Discover(t) => if IsInfoHash(t.hash) { UpsertSize(text, t, s.table); }
      case PruneBatch(victims) => PruneKeepsCounted(text, reasons, cap, s, victims);
    }
  }

  lemma PruneKeepsCounted(text: JsonText, reasons: Reasons, cap: int, s: State, victims: seq<string>)
    requires Counted(cap, s) && Allowed(cap, s, PruneBatch(victims))
    ensures var after := Step(text, reasons, cap, s, PruneBatch(victims));
            && Counted(cap, after) && WithinLimit(cap, after) && WithinLimit(cap, s)
            && after.recordCount == s.recordCount - BatchLimit(cap, s.recordCount)
  {
    hide LowestValue;
    BatchFacts(cap, s, victims);
  }

  lemma UpsertSize(text: JsonText, t: Torrent, table: map<string, Row>)
    requires IsInfoHash(t.hash)
    ensures |Apply(text, Upsert(t), table)| == if ToLower(t.hash) in table then |table| else |table| + 1
  {
    hide WriteTorrent, IsInfoHash;
    var after := Apply(text, Upsert(t), table);
    assert after.Keys == table.Keys + {ToLower(t.hash)};
  }

  lemma BatchFacts(cap: int, s: State, victims: seq<string>)
    requires cap >= 0 && s.recordCount == |s.table|
    requires LowestValue(s.table, victims, BatchLimit(cap, s.recordCount))
    ensures |victims| == BatchLimit(cap, s.recordCount)
    ensures |s.table - (set h | h in victims)| == |s.table| - |victims|
  {
    BatchIsFull(cap, s, victims);
    SizeWithout(s.table, victims);
  }

  ghost function Run(text: JsonText, reasons: Reasons, cap: int, s: State, events: seq<Event>): State {
    if events == [] then s
    else Step(text, reasons, cap, Run(text, reasons, cap, s, events[..|events| - 1]), events[|events| - 1])
  }

  ghost predicate AllowedRun(text: JsonText, reasons: Reasons, cap: int, s: State, events: seq<Event>) {
    events == [] ||
    (&& AllowedRun(text, reasons, cap, s, events[..|events| - 1])
     && Allowed(cap, Run(text, reasons, cap, s, events[..|events| - 1]), events[|events| - 1]))
  }

  // Some event of the run adds a record.
  ghost predicate AdmitsSome(text: JsonText, reasons: Reasons, cap: int, s: State, events: seq<Event>) {
    exists i | 0 <= i < |events| :: AdmitsNew(reasons, Run(text, reasons, cap, s, events[..i]), events[i])
  }

  lemma AdmitsSomeSnoc(text: JsonText, reasons: Reasons, cap: int, s: State, events: seq<Event>)
    requires events != []
    ensures var init := events[..|events| - 1];
            AdmitsSome(text, reasons, cap, s, events)
            <==> || AdmitsSome(text, reasons, cap, s, init)
                 || AdmitsNew(reasons, Run(text, reasons, cap, s, init), events[|events| - 1])
  {
    hide Run, AdmitsNew;
    var init := events[..|events| - 1];
    assert forall i | 0 <= i <= |init| :: events[..i] == init[..i];
    assert init[..|init|] == init;
    if i :| 0 <= i < |init| && AdmitsNew(reasons, Run(text, reasons, cap, s, init[..i]), init[i]) {
      assert AdmitsNew(reasons, Run(text, reasons, cap, s, events[..i]), events[i]);
    }
  }

  // In every interleaving of discoveries and prune tasks the counter stays right,
  // and the index is within its limit exactly when it began so or a record was
  // added since: pruning is only started by an addition.
  lemma {:induction false} RunKeepsBounded(text: JsonText, reasons: Reasons, cap: int, s: State, events: seq<Event>)
    requires Counted(cap, s) && AllowedRun(text, reasons, cap, s, events)
    ensures Counted(cap, Run(text, reasons, cap, s, events))
    ensures WithinLimit(cap, Run(text, reasons, cap, s, events))
            <==> WithinLimit(cap, s) || AdmitsSome(text, reasons, cap, s, events)
  {
    hide Counted, WithinLimit, Step, Allowed, AdmitsNew, AdmitsSome;
    if events != [] {
      var init := events[..|events| - 1];
      RunKeepsBounded(text, reasons, cap, s, init);
      StepKeepsCounted(text, reasons, cap, Run(text, reasons, cap, s, init), events[|events| - 1]);
      AdmitsSomeSnoc(text, reasons, cap, s, events);
    } else {
      NothingAdmitted(text, reasons, cap, s);
    }
  }

  lemma NothingAdmitted(text: JsonText, reasons: Reasons, cap: int, s: State)
    ensures !AdmitsSome(text, reasons, cap, s, [])
  {
  }

  // From the moment the indexer is made, over an index of any size.
  lemma OpenedIsBoundedIff(text: JsonText, reasons: Reasons, cap: int, table: map<string, Row>, events: seq<Event>)
    requires AllowedRun(text, reasons, cap, Opened(table), events)
    ensures var end := Run(text, reasons, cap, Opened(table), events);
            && end.recordCount == |end.table|
            && (WithinLimit(cap, end)
                <==> || cap <= 0 || !Oversized(cap, |table|)
                     || AdmitsSome(text, reasons, cap, Opened(table), events))
  {
    hide Run, AllowedRun, AdmitsSome;
    RunKeepsBounded(text, reasons, cap, Opened(table), events);
  }

  // An index opened over its limit and slack stays there, and no prune is queued,
  // when the torrent that is discovered is rejected.
  lemma OversizedOpeningStays(text: JsonText, reasons: Reasons, cap: int, table: map<string, Row>, t: Torrent)
    requires cap > 0 && Oversized(cap, |table|) && reasons(t) != ""
    ensures AllowedRun(text, reasons, cap, Opened(table), [Discover(t)])
    ensures Run(text, reasons, cap, Opened(table), [Discover(t)]) == Opened(table)
    ensures !WithinLimit(cap, Run(text, reasons, cap, Opened(table), [Discover(t)]))
  {
    var s, events := Opened(table), [Discover(t)];
    assert events[..|events| - 1] == [] && events[|events| - 1] == Discover(t);
    assert Run(text, reasons, cap, s, []) == s && AllowedRun(text, reasons, cap, s, []);
    assert Step(text, reasons, cap, s, Discover(t)) == s && Allowed(cap, s, Discover(t));
    hide Step, Allowed;
  }

  // ----- Pruning against inflow ---------------------------------------------

  function Prunes(events: seq<Event>): nat {
    if events == [] then 0
    else Prunes(events[..|events| - 1]) + if events[|events| - 1].PruneBatch? then 1 else 0
  }

  ghost function Admissions(text: JsonText, reasons: Reasons, cap: int, s: State, events: seq<Event>): nat {
    if events == [] then 0
    else
      var init := events[..|events| - 1];
      Admissions(text, reasons, cap, s, init)
      + if AdmitsNew(reasons, Run(text, reasons, cap, s, init), events[|events| - 1]) then 1 else 0
  }

  // However discoveries and prune tasks are interleaved, n tasks bring the index
  // down by 500 records each towards the limit, give or take what was added, and
  // never below the limit or where it began.
  lemma {:induction false} ConvergesUnderInflow(text: JsonText, reasons: Reasons, cap: int, s: State,
                                                events: seq<Event>)
    requires Counted(cap, s) && AllowedRun(text, reasons, cap, s, events)
    ensures var end, added := Run(text, reasons, cap, s, events), Admissions(text, reasons, cap, s, events);
            var pruned := s.recordCount - 500 * Prunes(events);
            && end.recordCount == |end.table| <= (if pruned < cap then cap else pruned) + added
            && (end.recordCount >= cap || end.recordCount >= s.recordCount)
  {
    hide WithinLimit, Step, Allowed, AdmitsNew, AdmitsSome;
    RunKeepsBounded(text, reasons, cap, s, events);
    if events != [] {
      var init, last := events[..|events| - 1], events[|events| - 1];
      ConvergesUnderInflow(text, reasons, cap, s, init);
      RunKeepsBounded(text, reasons, cap, s, init);
      StepKeepsCounted(text, reasons, cap, Run(text, reasons, cap, s, init), last);
      OnlyDiscoveriesAdmit(reasons, Run(text, reasons, cap, s, init), last);
    }
  }

  lemma OnlyDiscoveriesAdmit(reasons: Reasons, s: State, e: Event)
    ensures AdmitsNew(reasons, s, e) ==> e.Discover?
  {
  }

  // What a batch removes is worth no more than anything it keeps, and no kept
  // record changes.
  lemma PruneDropsLowest(text: JsonText, reasons: Reasons, cap: int, s: State, victims: seq<string>, gone: string,
                         kept: string)
    requires Allowed(cap, s, PruneBatch(victims))
    requires gone in s.table && gone !in Step(text, reasons, cap, s, PruneBatch(victims)).table
    requires kept in Step(text, reasons, cap, s, PruneBatch(victims)).table
    ensures kept in s.table && Step(text, reasons, cap, s, PruneBatch(victims)).table[kept] == s.table[kept]
    ensures || s.table[gone].seeders < s.table[kept].seeders
            || (s.table[gone].seeders == s.table[kept].seeders && s.table[gone].added <= s.table[kept].added)
  {
    assert gone in victims && kept !in victims;
  }

  // In any run, from any start: a record that is gone after an event was worth no
  // more than any that is left, and the event was a prune task.
  lemma RunPrunesLowest(text: JsonText, reasons: Reasons, cap: int, s: State, events: seq<Event>, k: nat,
                        gone: string, kept: string)
    requires AllowedRun(text, reasons, cap, s, events) && k < |events|
    requires var before, after := Run(text, reasons, cap, s, events[..k]), Run(text, reasons, cap, s, events[..k + 1]);
             gone in before.table && gone !in after.table && kept in after.table
    ensures var before, after := Run(text, reasons, cap, s, events[..k]), Run(text, reasons, cap, s, events[..k + 1]);
            && events[k].PruneBatch?
            && kept in before.table && after.table[kept] == before.table[kept]
            && (|| before.table[gone].seeders < before.table[kept].seeders
                || (&& before.table[gone].seeders == before.table[kept].seeders
                    && before.table[gone].added <= before.table[kept].added))
  {
    hide Step, Allowed;
    AllowedAt(text, reasons, cap, s, events, k);
    var before := Run(text, reasons, cap, s, events[..k]);
    assert events[..k + 1][..k] == events[..k] && events[..k + 1][k] == events[k];
    if events[k].Discover? {
      DiscoveryKeeps(text, reasons, cap, before, events[k].t, gone);
    } else {
      assert events[k] == PruneBatch(events[k].victims);
      PruneDropsLowest(text, reasons, cap, before, events[k].victims, gone, kept);
    }
  }

  lemma {:induction false} AllowedAt(text: JsonText, reasons: Reasons, cap: int, s: State, events: seq<Event>, k: nat)
    requires AllowedRun(text, reasons, cap, s, events) && k < |events|
    ensures Allowed(cap, Run(text, reasons, cap, s, events[..k]), events[k])
  {
    hide Run, Allowed;
    var init := events[..|events| - 1];
    if k < |init| {
      assert init[..k] == events[..k];
      AllowedAt(text, reasons, cap, s, init, k);
    }
  }

  lemma DiscoveryKeeps(text: JsonText, reasons: Reasons, cap: int, s: State, t: Torrent, key: string)
    requires key in s.table
    ensures key in Step(text, reasons, cap, s, Discover(t)).table
  {
    hide WriteTorrent, IsInfoHash, ToLower;
  }

  // A discovery that is admitted is what the index then holds under its hash, as
  // an upsert writes it; one that is not changes nothing.
  lemma DiscoveryIsUpsert(text: JsonText, reasons: Reasons, cap: int, s: State, t: Torrent)
    requires Faithful(text)
    ensures reasons(t) != "" || !IsInfoHash(t.hash) ==> Step(text, reasons, cap, s, Discover(t)) == s
    ensures reasons(t) == "" && IsInfoHash(t.hash) ==>
              var key, after := ToLower(t.hash), Step(text, reasons, cap, s, Discover(t));
              && key in after.table
              && (key !in s.table ==> ReadRow(text, key, after.table[key]) == Stored(t))
              && (key in s.table ==> after.table[key] == WriteTorrent(text, t, s.table[key]))
              && after.table - {key} == s.table - {key}
  {
    hide WriteTorrent, ReadRow, Stored, IsInfoHash, ToLower;
    UpsertReadsBack(text, t, s.table);
    assert s.table[ToLower(t.hash) := WriteTorrent(text, t, RowAt(s.table, ToLower(t.hash)))] - {ToLower(t.hash)}
        == s.table - {ToLower(t.hash)};
  }

  ghost predicate OnlyPrunes(events: seq<Event>) {
    forall e | e in events :: e.PruneBatch?
  }

  // Left alone, n prune tasks bring an index that is over its limit down by 500
  // records each until it holds exactly the limit, and then no task is queued.
  lemma {:induction false} PruningConverges(text: JsonText, reasons: Reasons, cap: int, s: State, events: seq<Event>)
    requires cap > 0 && Counted(cap, s) && s.pruneInFlight && s.recordCount > cap
    requires events != [] && OnlyPrunes(events) && AllowedRun(text, reasons, cap, s, events)
    ensures var end := Run(text, reasons, cap, s, events);
            && end.recordCount == |end.table|
            && end.recordCount == (if s.recordCount - 500 * |events| < cap then cap else s.recordCount - 500 * |events|)
            && (end.pruneInFlight <==> end.recordCount > cap)
  {
    hide Counted, Step, Allowed;
    var n := |events| - 1;
    var before := Run(text, reasons, cap, s, events[..n]);
    var last := events[n];
    assert last in events && forall e | e in events[..n] :: e in events;
    RunKeepsBounded(text, reasons, cap, s, events[..n]);
    assert last == PruneBatch(last.victims);
    OnePrune(text, reasons, cap, before, last.victims);
    if n > 0 {
      PruningConverges(text, reasons, cap, s, events[..n]);
    }
  }

  lemma OnePrune(text: JsonText, reasons: Reasons, cap: int, s: State, victims: seq<string>)
    requires cap > 0 && Counted(cap, s) && Allowed(cap, s, PruneBatch(victims))
    ensures var end := Step(text, reasons, cap, s, PruneBatch(victims));
            && s.pruneInFlight
            && (s.recordCount > cap ==>
                  && end.recordCount == |end.table|
                  && end.recordCount == if s.recordCount - 500 < cap then cap else s.recordCount - 500)
            && (end.pruneInFlight <==> end.recordCount > cap)
  {
    hide LowestValue;
    BatchFacts(cap, s, victims);
  }

  // ----- The indexer object -------------------------------------------------

  class LiveIndexer {
    const index: Index
    const reasons: Reasons
    const cap: int
    var recordCount: int
    var pruneInFlight: bool

    ghost function Now(): State
      requires index.Valid()
      reads this, index
    {
      State(index.Content(), recordCount, pruneInFlight)
    }

    // The counter starts at the number of records, and no prune is queued.
    constructor (index: Index, reasons: Reasons, cap: int)
      requires index.Valid()
      ensures this.index == index && this.reasons == reasons && this.cap == cap
      ensures Now() == Opened(index.Content())
    {
      TableSize(index.entries);
      this.index, this.reasons, this.cap := index, reasons, cap;
      recordCount, pruneInFlight := |index.entries|, false;
    }

    // handleDiscovered, after classification; true for a record that is new.
    method HandleDiscovered(t: Torrent) returns (added: bool)
      requires index.Valid()
      modifies this, index
      ensures index.Valid()
      ensures Now() == Step(index.text, reasons, cap, old(Now()), Discover(t))
      ensures added == (reasons(t) == "" && IsInfoHash(t.hash) && ToLower(t.hash) !in old(index.Content()))
    {
      if reasons(t) != "" {
        return false;
      }
      var i := index.Find(ToLower(t.hash));
      var existedBefore := i < |index.entries|;
      var ok := index.Upsert(t);
      if !ok || existedBefore {
        return false;
      }
      recordCount := recordCount + 1;
      if StartsPrune(cap, recordCount, pruneInFlight) {
        pruneInFlight := true;
      }
      added := true;
    }

    // One prune task.
    method RunPruneBatch() returns (ghost victims: seq<string>)
      requires index.Valid()
      modifies this, index
      ensures index.Valid()
      ensures LowestValue(old(index.Content()), victims, BatchLimit(cap, old(recordCount)))
      ensures Now() == Step(index.text, reasons, cap, old(Now()), PruneBatch(victims))
    {
      hide Index.Valid, Index.Content, LowestValue;
      var limit := BatchLimit(cap, recordCount);
      ghost var table := index.Content();
      if limit == 0 {
        victims := [];
        NoVictims(table);
        pruneInFlight := false;
        return;
      }
      var hashes := index.LowestValueHashes(limit);
      victims := hashes;
      VictimsAreKeys(index, hashes, limit);
      var removed := 0;
      for i := 0 to |hashes|
        invariant index.Valid() && removed == i && recordCount == old(recordCount)
        invariant index.Content() == table - FirstOf(hashes, i)
      {
        index.Remove(hashes[i]);
        removed := removed + 1;
      }
      recordCount := recordCount - removed;
      pruneInFlight := recordCount > cap && removed > 0;
    }
  }

  lemma TableSize(es: seq<Entry>)
    requires WellFormed(es)
    ensures |Table(es)| == |es|
  {
    var keys := seq(|es|, i requires 0 <= i < |es| => es[i].key);
    DistinctCount(keys);
    TableRows(es);
    forall k ensures k in Table(es) <==> k in keys {
      if k in Table(es) {
        var e :| e in es && e.key == k;
        var i :| 0 <= i < |es| && es[i] == e;
        assert keys[i] == k;
      }
      if k in keys {
        var i :| 0 <= i < |keys| && keys[i] == k;
        assert es[i] in es;
      }
    }
    assert Table(es).Keys == set k | k in keys;
  }

  ghost function FirstOf(hashes: seq<string>, n: nat): set<string>
    requires n <= |hashes|
  {
    set j | 0 <= j < n :: hashes[j]
  }

  lemma NoVictims(table: map<string, Row>)
    ensures LowestValue(table, [], 0)
  {
  }

  lemma VictimsAreKeys(index: Index, hashes: seq<string>, limit: nat)
    requires index.Valid() && LowestValue(index.Content(), hashes, limit)
    ensures forall i | 0 <= i < |hashes| :: ToLower(hashes[i]) == hashes[i]
    ensures FirstOf(hashes, |hashes|) == set h | h in hashes
  {
    forall i | 0 <= i < |hashes| ensures ToLower(hashes[i]) == hashes[i] {
      assert hashes[i] in hashes;
    }
  }
}
