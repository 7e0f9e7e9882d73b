// `ratsn cleanup`: re-applying the filter policy to the whole index.
module Cleanup {
  import opened Json
  import opened Text
  import opened FilterPolicy
  import opened IndexRow
  import opened GroongaIndex
  import opened Sweep

  // The records the policy accepts.
  function Passing(text: JsonText, reasons: Reasons): Entry -> bool {
    e => reasons(View(text, e)) == ""
  }

  // Cleaning up keeps exactly the accepted records, untouched.
  lemma CleanupKeepsAccepted(text: JsonText, reasons: Reasons, es: seq<Entry>)
    requires WellFormed(es)
    ensures WellFormed(Kept(Passing(text, reasons), es))
    ensures var before, after := Table(es), Table(Kept(Passing(text, reasons), es));
            && (forall key :: key in after <==> key in before && reasons(ReadRow(text, key, before[key])) == "")
            && (forall key | key in after :: after[key] == before[key])
  {
    hide Kept, WellFormed, DistinctKeys, ReadRow, Table;
    var passes := Passing(text, reasons);
    KeptTable(passes, es);
    KeysDistinct(es);
    KeysDistinct(Kept(passes, es));
    TableRows(es);
    forall e | e in es ensures passes(e) <==> reasons(ReadRow(text, e.key, Table(es)[e.key])) == "" {
      assert View(text, e) == ReadRow(text, e.key, e.row);
    }
  }

  // With the policy of a configuration: what is left is what breaks no rule.
  lemma CleanupKeepsUnbroken(text: JsonText, settings: FilterSettings, pcre: Pcre, es: seq<Entry>)
    requires WellFormed(es)
    ensures WellFormed(Kept(Passing(text, ReasonsOf(settings, pcre)), es))
    ensures var before, after := Table(es), Table(Kept(Passing(text, ReasonsOf(settings, pcre)), es));
            && (forall key :: key in after
                              <==> && key in before
                                   && forall r: Rule :: !Breaks(settings, pcre, ReadRow(text, key, before[key]), r))
            && (forall key | key in after :: after[key] == before[key])
  {
    hide Kept, WellFormed, DistinctKeys, ReadRow, Table, ReasonsOf, Breaks, Passing;
    CleanupKeepsAccepted(text, ReasonsOf(settings, pcre), es);
    KeysDistinct(es);
    forall key | key in Table(es)
      ensures ReasonsOf(settings, pcre)(ReadRow(text, key, Table(es)[key])) == ""
              <==> forall r: Rule :: !Breaks(settings, pcre, ReadRow(text, key, Table(es)[key]), r)
    {
      RejectionNamesFirstBrokenRule(settings, pcre, ReadRow(text, key, Table(es)[key]));
    }
  }

  // page is the part of es that starts at k.
  ghost predicate PageAt(text: JsonText, es: seq<Entry>, k: nat, page: seq<IdTorrent>) {
    k + |page| <= |es| && page == Views(text, es[k..k + |page|])
  }

  // What the loop bodies see of a record on a page.
  lemma PageRow(text: JsonText, reasons: Reasons, before: seq<Entry>, k: nat, page: seq<IdTorrent>, i: nat)
    requires WellFormed(before) && PageAt(text, before, k, page) && i < |page|
    ensures var item, e := page[i], before[k + i];
            && item.id == Cursor(before, k + i + 1)
            && item.torrent == View(text, e)
            && (reasons(item.torrent) == "" <==> Passing(text, reasons)(e))
            && ToLower(item.torrent.hash) == e.key
  {
  }

  // The page a sweep that has seen k records reads next.
  lemma NextPageAt(text: JsonText, reasons: Reasons, before: seq<Entry>, k: nat, dryRun: bool, limit: nat,
                   page: seq<IdTorrent>)
    requires WellFormed(before) && k <= |before| && limit > 0
    requires var left := SoFar(Passing(text, reasons), before, k, dryRun);
             page == Views(text, Limit(After(left, Cursor(before, k)), limit))
    ensures k + |page| <= |before| && PageAt(text, before, k, page)
    ensures page == [] ==> k == |before|
    ensures page != [] ==> page[|page| - 1].id == Cursor(before, k + |page|)
  {
    hide Passing, SoFar, After, Limit, ReadRow;
    NextPage(Passing(text, reasons), before, k, dryRun, limit);
    if page != [] { PageRow(text, reasons, before, k, page, |page| - 1); }
  }

  // ----- Cleanup ------------------------------------------------------------

  datatype CleanupReport = InvalidRegExp | Swept(scanned: nat, matched: nat, removed: nat)

  // The sweep of `ratsn cleanup`, for any policy and any page size.
  method SweepIndex(index: Index, reasons: Reasons, dryRun: bool, batchSize: nat) returns (scanned: nat, matched: nat)
    requires index.Valid() && batchSize > 0
    modifies index
    ensures index.Valid()
    ensures scanned == |old(index.entries)|
    ensures matched == RejectedCount(Passing(index.text, reasons), old(index.entries))
    ensures index.entries
              == if dryRun then old(index.entries) else Kept(Passing(index.text, reasons), old(index.entries))
  {
    hide *;
    ValidIndex(index);
    var afterId := 0;
    scanned, matched := 0, 0;
    ghost var before, passes := index.entries, Passing(index.text, reasons);
    SweepEnds(passes, before, dryRun);
    while true
      invariant index.Valid() && scanned <= |before|
      invariant afterId == Cursor(before, scanned)
      invariant matched == RejectedSoFar(passes, before, scanned)
      invariant index.entries == SoFar(passes, before, scanned, dryRun)
      decreases |before| - scanned
    {
      var batch := index.PageAfterId(afterId, batchSize);
      NextPageAt(index.text, reasons, before, scanned, dryRun, batchSize, batch);
      if batch == [] {
        break;
      }
      afterId := batch[|batch| - 1].id;
      ghost var start := scanned;
      for i := 0 to |batch|
        invariant index.Valid() && scanned == start + i
        invariant matched == RejectedSoFar(passes, before, scanned)
        invariant index.entries == SoFar(passes, before, scanned, dryRun)
      {
        PageRow(index.text, reasons, before, start, batch, i);
        SweepStep(passes, before, scanned, dryRun);
        scanned := scanned + 1;
        if reasons(batch[i].torrent) != "" {
          matched := matched + 1;
          if !dryRun {
            index.Remove(batch[i].torrent.hash);
          }
        }
      }
    }
  }

  // `ratsn cleanup [--dry-run]`; the program uses pages of 500.
  method CmdCleanup(index: Index, settings: FilterSettings, pcre: Pcre, dryRun: bool) returns (report: CleanupReport)
    requires index.Valid()
    modifies index
    ensures index.Valid()
    ensures report == InvalidRegExp <==> settings.namingRegExp != "" && pcre(settings.namingRegExp).None?
    ensures report == InvalidRegExp ==> index.entries == old(index.entries)
    ensures report != InvalidRegExp ==>
              var passes := Passing(index.text, ReasonsOf(settings, pcre));
              var matched := RejectedCount(passes, old(index.entries));
              && report == Swept(|old(index.entries)|, matched, if dryRun then 0 else matched)
              && index.entries == if dryRun then old(index.entries) else Kept(passes, old(index.entries))
  {
    if !IsValidNamingRegExp(settings.namingRegExp, pcre) {
      return InvalidRegExp;
    }
    var scanned, matched := SweepIndex(index, ReasonsOf(settings, pcre), dryRun, 500);
    report := Swept(scanned, matched, if dryRun then 0 else matched);
  }
}
