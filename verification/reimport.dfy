// What import does to an index, and why importing an export is a cleanup.
module Reimport {
  import opened Json
  import opened Text
  import opened Torrents
  import opened TorrentCodec
  import opened FilterPolicy
  import opened IndexRow
  import opened GroongaIndex
  import opened Sums
  import opened Sweep
  import opened Transfer
  import Cleanup

  // ----- Import over any index ----------------------------------------------

  // Line k (counted from 0) puts a torrent under key.
  ghost predicate Writes(text: JsonText, reasons: Option<Reasons>, clock: nat -> int, lines: seq<string>, k: nat,
                         key: string)
    requires k < |lines|
  {
    var fate := FateOf(text, reasons, lines[k], clock(k + 1));
    fate.Imported? && ToLower(fate.t.hash) == key
  }

  lemma LastLineElsewhere(text: JsonText, reasons: Option<Reasons>, clock: nat -> int,
                          table: map<string, Row>, lines: seq<string>, key: string)
    requires lines != [] && !Writes(text, reasons, clock, lines, |lines| - 1, key)
    ensures var before := ImportLines(text, reasons, clock, table, lines[..|lines| - 1]).table;
            var end := ImportLines(text, reasons, clock, table, lines).table;
            (key in end <==> key in before) && RowAt(end, key) == RowAt(before, key)
  {
    hide FateOf, WriteTorrent;
  }

  // Records under other keys are not touched.
  lemma {:induction false} ImportLeavesOthers(text: JsonText, reasons: Option<Reasons>, clock: nat -> int,
                                              table: map<string, Row>, lines: seq<string>, key: string)
    requires forall k: nat | k < |lines| :: !Writes(text, reasons, clock, lines, k, key)
    ensures var end := ImportLines(text, reasons, clock, table, lines).table;
            (key in end <==> key in table) && RowAt(end, key) == RowAt(table, key)
  {
    hide FateOf, Apply;
    if lines != [] {
      var n := |lines| - 1;
      forall k: nat | k < n ensures !Writes(text, reasons, clock, lines[..n], k, key) {
        assert !Writes(text, reasons, clock, lines, k, key);
      }
      ImportLeavesOthers(text, reasons, clock, table, lines[..n], key);
      LastLineElsewhere(text, reasons, clock, table, lines, key);
    }
  }

  // The last accepted record of a hash decides its row: it is that record
  // written over whatever the row held when its line was read.
  lemma {:induction false} LastRecordWins(text: JsonText, reasons: Option<Reasons>, clock: nat -> int,
                                          table: map<string, Row>, lines: seq<string>, k: nat, key: string)
    requires k < |lines| && Writes(text, reasons, clock, lines, k, key)
    requires forall j: nat | k < j < |lines| :: !Writes(text, reasons, clock, lines, j, key)
    ensures var end := ImportLines(text, reasons, clock, table, lines).table;
            var before := ImportLines(text, reasons, clock, table, lines[..k]).table;
            var t := FateOf(text, reasons, lines[k], clock(k + 1)).t;
            key in end && end[key] == WriteTorrent(text, t, RowAt(before, key))
  {
    hide WriteTorrent;
    var n := |lines| - 1;
    if k == n {
      ImportedIsValid(text, reasons, lines[n], clock(n + 1));
      hide FateOf;
    } else {
      forall j: nat | k < j < n ensures !Writes(text, reasons, clock, lines[..n], j, key) {
        assert !Writes(text, reasons, clock, lines, j, key);
      }
      PrefixFacts(text, reasons, clock, lines, k, key);
      hide FateOf, ImportLines, Writes;
      LastRecordWins(text, reasons, clock, table, lines[..n], k, key);
      LastLineElsewhere(text, reasons, clock, table, lines, key);
    }
  }

  lemma PrefixFacts(text: JsonText, reasons: Option<Reasons>, clock: nat -> int, lines: seq<string>, k: nat,
                    key: string)
    requires k < |lines| - 1
    ensures lines[..|lines| - 1][..k] == lines[..k] && lines[..|lines| - 1][k] == lines[k]
    ensures Writes(text, reasons, clock, lines[..|lines| - 1], k, key) <==> Writes(text, reasons, clock, lines, k, key)
  {
    hide FateOf;
  }

  lemma ImportedIsValid(text: JsonText, reasons: Option<Reasons>, line: string, now: int)
    ensures var fate := FateOf(text, reasons, line, now); fate.Imported? ==> IsInfoHash(fate.t.hash)
  {
    hide FromJson, ReasonCategory;
  }

  // ----- Importing an export ------------------------------------------------

  function Admitting(text: JsonText, reasons: Option<Reasons>): Entry -> bool {
    match reasons
    case None => e => true
    case Some(r) => Cleanup.Passing(text, r)
  }

  lemma AdmittingIs(text: JsonText, reasons: Option<Reasons>, e: Entry)
    ensures Admitting(text, reasons)(e) <==> Admits(reasons, View(text, e))
  {
    hide View;
  }

  lemma ViewShape(text: JsonText, e: Entry)
    ensures var v := View(text, e);
            && v.hash == e.key
            && v.trackersChecked >= 0
            && (v.files == 0 ==> v.fileList == [])
            && (v.info == Null ==> v.fileList == [])
            && (v.info == Null || (v.info.Obj? && "filesList" !in v.info.members))
  {
  }

  // A record changes nothing the policy looks at by going through the stream.
  lemma ReceivedSameForPolicy(text: JsonText, e: Entry, includeFiles: bool, now: int)
    ensures SameForPolicy(View(text, e), Received(View(text, e), includeFiles, now))
  {
    ViewShape(text, e);
    hide View;
  }

  lemma ExportLineFate(text: JsonText, reasons: Option<Reasons>, e: Entry, includeFiles: bool, now: int)
    requires Faithful(text) && IsLower(e.key) && IsInfoHash(e.key)
    requires reasons.Some? ==> LooksOnlyAtRules(reasons.value)
    ensures var v := View(text, e);
            FateOf(text, reasons, ExportLine(text, e, includeFiles), now)
            == if Admits(reasons, v) then Imported(Received(v, includeFiles, now))
               else Rejected(ReasonCategory(reasons.value(v)))
  {
    var v := View(text, e);
    var j := ToJson(v, includeFiles);
    assert text.parse(text.dump(j)) == Some(j) && text.dump(j) != "";
    ViewShape(text, e);
    WireIsReceived(v, includeFiles, now);
    ReceivedSameForPolicy(text, e, includeFiles, now);
    hide ToJson, FromJson, View, SameForPolicy, ReasonCategory;
  }

  // What a torrent read from the index is once it has been exported and
  // imported into an empty index.
  function Carried(v: Torrent, includeFiles: bool, now: int): Torrent {
    Stored(Received(v, includeFiles, now))
  }

  // The torrents that come out as they went in: stamped with a time, exported
  // with their files, and not an empty extras object without files.
  predicate Portable(v: Torrent, includeFiles: bool) {
    && v.added > 0
    && (v.fileList != [] ==> includeFiles)
    && !(v.info == Obj(map[]) && v.fileList == [])
  }

  lemma CarriedUnchanged(text: JsonText, e: Entry, includeFiles: bool, now: int)
    requires IsLower(e.key) && now > 0
    ensures Carried(View(text, e), includeFiles, now) == View(text, e) <==> Portable(View(text, e), includeFiles)
  {
    var v := View(text, e);
    ViewShape(text, e);
    hide View;
    var c := Carried(v, includeFiles, now);
    if v.info.Obj? {
      assert v.info.members - {"filesList"} == v.info.members;
      assert v.fileList != [] && includeFiles ==>
          v.info.members["filesList" := FilesToJson(v.fileList)] - {"filesList"} == v.info.members;
    }
  }

  // A torrent without a time stamp comes back stamped with the time of import.
  lemma UnstampedIsStamped(text: JsonText, key: string, now: int)
    requires IsLower(key) && now > 0
    ensures var v := View(text, Entry(1, key, BLANK)); v.added == 0 && Carried(v, true, now).added == now
  {
    assert LlRound(0.0 * 1000.0) == 0;
  }

  // The setting of the main results: a faithful JSON printer, a well-formed
  // index of info-hashes, and a policy that looks only at what its rules name.
  ghost predicate Setting(text: JsonText, reasons: Option<Reasons>, es: seq<Entry>) {
    && Faithful(text) && WellFormed(es) && (forall e | e in es :: IsInfoHash(e.key))
    && (reasons.Some? ==> LooksOnlyAtRules(reasons.value))
  }

  // Importing the export of es into an empty index.
  ghost function Reimported(text: JsonText, reasons: Option<Reasons>, clock: nat -> int, es: seq<Entry>,
                            includeFiles: bool): Progress {
    ImportLines(text, reasons, clock, map[], Lines(Unlines(ExportLines(text, es, includeFiles))))
  }

  lemma StreamRoundTrip(text: JsonText, es: seq<Entry>, includeFiles: bool)
    requires Faithful(text)
    ensures Lines(Unlines(ExportLines(text, es, includeFiles))) == ExportLines(text, es, includeFiles)
  {
    hide View, ToJson;
    LinesOfUnlines(ExportLines(text, es, includeFiles));
  }

  lemma ExportWrites(text: JsonText, reasons: Option<Reasons>, clock: nat -> int, es: seq<Entry>, includeFiles: bool,
                     i: nat, key: string)
    requires Setting(text, reasons, es) && i < |es|
    ensures Writes(text, reasons, clock, ExportLines(text, es, includeFiles), i, key)
            <==> Admits(reasons, View(text, es[i])) && es[i].key == key
  {
    hide FateOf, ExportLine, View, ReasonCategory, LooksOnlyAtRules, Faithful, IsInfoHash;
    assert es[i] in es;
    ExportLineFate(text, reasons, es[i], includeFiles, clock(i + 1));
    ViewShape(text, es[i]);
  }

  lemma ReimportedRow(text: JsonText, reasons: Option<Reasons>, clock: nat -> int, es: seq<Entry>, includeFiles: bool,
                      i: nat)
    requires Setting(text, reasons, es) && i < |es| && Admits(reasons, View(text, es[i]))
    ensures var end, e := Reimported(text, reasons, clock, es, includeFiles).table, es[i];
            e.key in end && end[e.key] == WriteTorrent(text, Received(View(text, e), includeFiles, clock(i + 1)), BLANK)
  {
    hide *;
    var lines, key := ExportLines(text, es, includeFiles), es[i].key;
    FaithfulIn(text, reasons, es);
    StreamRoundTrip(text, es, includeFiles);
    ReimportedIs(text, reasons, clock, es, includeFiles);
    OnlyWriter(text, reasons, clock, es, includeFiles, i);
    LastRecordWins(text, reasons, clock, map[], lines, i, key);
    ImportLeavesOthers(text, reasons, clock, map[], lines[..i], key);
    NoRow(key);
  }

  lemma NoRow(key: string)
    ensures RowAt(map[], key) == BLANK
  {
  }

  // The i-th line, and no other, writes the i-th record.
  lemma OnlyWriter(text: JsonText, reasons: Option<Reasons>, clock: nat -> int, es: seq<Entry>, includeFiles: bool,
                   i: nat)
    requires Setting(text, reasons, es) && i < |es| && Admits(reasons, View(text, es[i]))
    ensures var lines, key := ExportLines(text, es, includeFiles), es[i].key;
            && (forall j: nat | j < |es| :: Writes(text, reasons, clock, lines, j, key) <==> j == i)
            && (forall k: nat | k < i :: !Writes(text, reasons, clock, lines[..i], k, key))
            && FateOf(text, reasons, lines[i], clock(i + 1))
               == Imported(Received(View(text, es[i]), includeFiles, clock(i + 1)))
  {
    hide Received, FateOf, View, ExportLine, LooksOnlyAtRules, Faithful, IsInfoHash, IsLower;
    var lines, key := ExportLines(text, es, includeFiles), es[i].key;
    forall j: nat | j < |es| ensures Writes(text, reasons, clock, lines, j, key) <==> j == i {
      ExportWrites(text, reasons, clock, es, includeFiles, j, key);
      OnlyOneKey(es, i, j);
    }
    assert es[i] in es;
    ExportLineFate(text, reasons, es[i], includeFiles, clock(i + 1));
    forall k: nat | k < i ensures !Writes(text, reasons, clock, lines[..i], k, key) {
      assert lines[..i][k] == lines[k];
      assert !Writes(text, reasons, clock, lines, k, key);
    }
  }

  lemma OnlyOneKey(es: seq<Entry>, i: nat, j: nat)
    requires WellFormed(es) && i < |es| && j < |es|
    ensures es[i].key == es[j].key <==> i == j
  {
  }

  lemma ReimportedKeys(text: JsonText, reasons: Option<Reasons>, clock: nat -> int, es: seq<Entry>,
                       includeFiles: bool, key: string)
    requires Setting(text, reasons, es)
    requires key in Reimported(text, reasons, clock, es, includeFiles).table
    ensures exists e | e in es :: e.key == key && Admits(reasons, View(text, e))
  {
    var lines := ExportLines(text, es, includeFiles);
    StreamRoundTrip(text, es, includeFiles);
    if forall k: nat | k < |lines| :: !Writes(text, reasons, clock, lines, k, key) {
      ImportLeavesOthers(text, reasons, clock, map[], lines, key);
    } else {
      var k: nat :| k < |lines| && Writes(text, reasons, clock, lines, k, key);
      ExportWrites(text, reasons, clock, es, includeFiles, k, key);
      assert es[k] in es;
    }
  }

  // Cleaning the index up in place.
  ghost function Cleaned(text: JsonText, reasons: Option<Reasons>, es: seq<Entry>): map<string, Row>
    requires WellFormed(es)
  {
    KeptWellFormed(Admitting(text, reasons), es);
    Table(Kept(Admitting(text, reasons), es))
  }

  // Both tables hold the same torrents, as a reader of the index sees them.
  ghost predicate SameTorrents(text: JsonText, a: map<string, Row>, b: map<string, Row>) {
    a.Keys == b.Keys && forall key | key in a :: ReadRow(text, key, a[key]) == ReadRow(text, key, b[key])
  }

  ghost predicate AllPortable(text: JsonText, table: map<string, Row>, includeFiles: bool) {
    forall key | key in table :: Portable(ReadRow(text, key, table[key]), includeFiles)
  }

  // The row of a kept record, on both sides.
  lemma KeptRecord(text: JsonText, reasons: Option<Reasons>, clock: nat -> int, es: seq<Entry>, includeFiles: bool,
                   key: string)
    returns (i: nat)
    requires Setting(text, reasons, es) && (forall n: nat :: clock(n) > 0)
    requires key in Cleaned(text, reasons, es)
    ensures i < |es| && es[i].key == key && Cleaned(text, reasons, es)[key] == es[i].row
    ensures Admits(reasons, View(text, es[i]))
    ensures var again, cleaned := Reimported(text, reasons, clock, es, includeFiles).table, Cleaned(text, reasons, es);
            && key in again
            && ReadRow(text, key, again[key]) == Carried(View(text, es[i]), includeFiles, clock(i + 1))
            && (ReadRow(text, key, again[key]) == ReadRow(text, key, cleaned[key])
                <==> Portable(ReadRow(text, key, cleaned[key]), includeFiles))
  {
    i := KeptEntry(text, reasons, es, key);
    RecordFate(text, reasons, clock, es, includeFiles, i);
    hide Setting, Reimported, Cleaned, ReadRow, Carried, Portable;
    assert ReadRow(text, key, Cleaned(text, reasons, es)[key]) == View(text, es[i]);
  }

  lemma KeptEntry(text: JsonText, reasons: Option<Reasons>, es: seq<Entry>, key: string) returns (i: nat)
    requires WellFormed(es) && key in Cleaned(text, reasons, es)
    ensures i < |es| && es[i].key == key && Admits(reasons, View(text, es[i]))
    ensures Cleaned(text, reasons, es)[key] == es[i].row
  {
    var passes := Admitting(text, reasons);
    KeptTable(passes, es);
    assert DistinctKeys(es) && DistinctKeys(Kept(passes, es));
    hide View, WellFormed, DistinctKeys, Kept, Admitting;
    var e :| e in es && e.key == key && passes(e);
    i :| i < |es| && es[i] == e;
    AdmittingIs(text, reasons, e);
  }

  lemma RecordFate(text: JsonText, reasons: Option<Reasons>, clock: nat -> int, es: seq<Entry>, includeFiles: bool,
                   i: nat)
    requires Setting(text, reasons, es) && i < |es| && clock(i + 1) > 0 && Admits(reasons, View(text, es[i]))
    ensures var again, key, v := Reimported(text, reasons, clock, es, includeFiles).table, es[i].key, View(text, es[i]);
            && key in again
            && ReadRow(text, key, again[key]) == Carried(v, includeFiles, clock(i + 1))
            && (ReadRow(text, key, again[key]) == v <==> Portable(v, includeFiles))
  {
    var e, now := es[i], clock(i + 1);
    var v := View(text, e);
    ReimportedRow(text, reasons, clock, es, includeFiles, i);
    ViewShape(text, e);
    InsertThenRead(text, Received(v, includeFiles, now));
    CarriedUnchanged(text, e, includeFiles, now);
    assert ToLower(Received(v, includeFiles, now).hash) == e.key;
    hide Reimported, Received, Stored, WriteTorrent, Portable, ReadRow, View, Setting;
  }

  lemma SameKeys(text: JsonText, reasons: Option<Reasons>, clock: nat -> int, es: seq<Entry>, includeFiles: bool,
                 key: string)
    requires Setting(text, reasons, es) && (forall n: nat :: clock(n) > 0)
    ensures key in Reimported(text, reasons, clock, es, includeFiles).table <==> key in Cleaned(text, reasons, es)
  {
    hide Faithful, LooksOnlyAtRules, View;
    KeptTable(Admitting(text, reasons), es);
    if key in Reimported(text, reasons, clock, es, includeFiles).table {
      ReimportedKeys(text, reasons, clock, es, includeFiles, key);
      var e :| e in es && e.key == key && Admits(reasons, View(text, e));
      AdmittingIs(text, reasons, e);
    }
    if key in Cleaned(text, reasons, es) {
      var _ := KeptRecord(text, reasons, clock, es, includeFiles, key);
    }
  }

  // Exporting an index and importing the stream into an empty one under a policy
  // leaves the same hashes as cleaning the index up in place; under each of them
  // stands the torrent the stream carried; and the two indexes hold the same
  // torrents exactly when every torrent that was kept is portable.
  lemma ReimportIsCleanup(text: JsonText, reasons: Option<Reasons>, clock: nat -> int, es: seq<Entry>,
                          includeFiles: bool)
    requires Setting(text, reasons, es) && (forall n: nat :: clock(n) > 0)
    ensures var again, cleaned := Reimported(text, reasons, clock, es, includeFiles).table, Cleaned(text, reasons, es);
            && again.Keys == cleaned.Keys
            && (forall i | 0 <= i < |es| && es[i].key in cleaned ::
                  ReadRow(text, es[i].key, again[es[i].key]) == Carried(View(text, es[i]), includeFiles, clock(i + 1)))
            && (SameTorrents(text, again, cleaned) <==> AllPortable(text, cleaned, includeFiles))
  {
    assert WellFormed(es);
    hide Setting, Reimported, Cleaned, Carried, Portable, ReadRow, WellFormed, View;
    var again, cleaned := Reimported(text, reasons, clock, es, includeFiles).table, Cleaned(text, reasons, es);
    forall key ensures key in again <==> key in cleaned {
      SameKeys(text, reasons, clock, es, includeFiles, key);
    }
    forall key | key in cleaned
      ensures ReadRow(text, key, again[key]) == ReadRow(text, key, cleaned[key])
              <==> Portable(ReadRow(text, key, cleaned[key]), includeFiles)
    {
      var _ := KeptRecord(text, reasons, clock, es, includeFiles, key);
    }
    forall i | 0 <= i < |es| && es[i].key in cleaned
      ensures ReadRow(text, es[i].key, again[es[i].key]) == Carried(View(text, es[i]), includeFiles, clock(i + 1))
    {
      KeptIsCarried(text, reasons, clock, es, includeFiles, i);
    }
  }

  lemma SettingWellFormed(text: JsonText, reasons: Option<Reasons>, es: seq<Entry>)
    requires Setting(text, reasons, es)
    ensures WellFormed(es)
  {
  }

  lemma KeptIsCarried(text: JsonText, reasons: Option<Reasons>, clock: nat -> int, es: seq<Entry>, includeFiles: bool,
                      i: nat)
    requires Setting(text, reasons, es) && (forall n: nat :: clock(n) > 0)
    requires i < |es| && es[i].key in Cleaned(text, reasons, es)
    ensures var again := Reimported(text, reasons, clock, es, includeFiles).table;
            && es[i].key in again
            && ReadRow(text, es[i].key, again[es[i].key]) == Carried(View(text, es[i]), includeFiles, clock(i + 1))
  {
    hide *;
    SettingWellFormed(text, reasons, es);
    var k := KeptRecord(text, reasons, clock, es, includeFiles, es[i].key);
    OnlyOneKey(es, i, k);
  }

  // The searchable tracker names of a reimported record always agree with its
  // extras, so they are the old ones exactly when those did.
  lemma ReimportSyncsTrackers(text: JsonText, reasons: Option<Reasons>, clock: nat -> int, es: seq<Entry>,
                              includeFiles: bool)
    requires Setting(text, reasons, es) && (forall n: nat :: clock(n) > 0)
    ensures var again, cleaned := Reimported(text, reasons, clock, es, includeFiles).table, Cleaned(text, reasons, es);
            && again.Keys == cleaned.Keys
            && (forall key | key in again :: TrackersInSync(text, again[key]))
            && (forall key | key in cleaned :: again[key].trackers == cleaned[key].trackers
                                               <==> TrackersInSync(text, cleaned[key]))
  {
    ReimportIsCleanup(text, reasons, clock, es, includeFiles);
    hide Setting, Reimported, Cleaned, ReadRow, View, WriteTorrent, TrackersInSync;
    var again, cleaned := Reimported(text, reasons, clock, es, includeFiles).table, Cleaned(text, reasons, es);
    forall key | key in cleaned
      ensures TrackersInSync(text, again[key])
      ensures again[key].trackers == cleaned[key].trackers <==> TrackersInSync(text, cleaned[key])
    {
      var i := KeptRecord(text, reasons, clock, es, includeFiles, key);
      ReimportedRow(text, reasons, clock, es, includeFiles, i);
      FaithfulIn(text, reasons, es);
      ReceivedTrackers(text, es[i], includeFiles, clock(i + 1));
    }
  }

  lemma FaithfulIn(text: JsonText, reasons: Option<Reasons>, es: seq<Entry>)
    requires Setting(text, reasons, es)
    ensures Faithful(text)
  {
  }

  lemma ReceivedTrackers(text: JsonText, e: Entry, includeFiles: bool, now: int)
    requires Faithful(text)
    ensures var row := WriteTorrent(text, Received(View(text, e), includeFiles, now), BLANK);
            TrackersInSync(text, row) && (row.trackers == e.row.trackers <==> TrackersInSync(text, e.row))
  {
    var t := Received(View(text, e), includeFiles, now);
    ReceivedSameForPolicy(text, e, includeFiles, now);
    assert TrackerNames(t.info) == TrackerNames(ReadExtras(StoredInfo(text, e.row.info))) by {
      hide TrackerNames, Received;
    }
    TrackersOfInfoOut(t);
    UpsertTrackersInSync(text, t, BLANK);
    hide TrackerNames, HasTrackers, Received, View, StoredInfo, InfoOut;
    assert BLANK.trackers == [];
  }

  // With --no-filter nothing is left out.
  lemma UnfilteredReimportIsIdentity(text: JsonText, clock: nat -> int, es: seq<Entry>, includeFiles: bool)
    requires Setting(text, None, es) && (forall n: nat :: clock(n) > 0)
    ensures var again := Reimported(text, None, clock, es, includeFiles).table;
            && again.Keys == Table(es).Keys
            && (SameTorrents(text, again, Table(es)) <==> AllPortable(text, Table(es), includeFiles))
  {
    hide ReadRow, Portable, Setting, Reimported;
    KeptWhenAllPass(Admitting(text, None), es);
    ReimportIsCleanup(text, None, clock, es, includeFiles);
  }

  // The counters of that import are the counters of the cleanup.
  lemma ReimportCounts(text: JsonText, reasons: Option<Reasons>, clock: nat -> int, es: seq<Entry>, includeFiles: bool)
    requires Setting(text, reasons, es)
    ensures var end, passes := Reimported(text, reasons, clock, es, includeFiles), Admitting(text, reasons);
            && end.imported == |Kept(passes, es)|
            && SumOf(end.rejects) == RejectedCount(passes, es)
            && end.malformed == 0
  {
    StreamRoundTrip(text, es, includeFiles);
    ExportCounts(text, reasons, clock, es, includeFiles);
  }

  lemma {:induction false} ExportCounts(text: JsonText, reasons: Option<Reasons>, clock: nat -> int, es: seq<Entry>,
                                        includeFiles: bool)
    requires Setting(text, reasons, es)
    ensures var end := ImportLines(text, reasons, clock, map[], ExportLines(text, es, includeFiles));
            var passes := Admitting(text, reasons);
            && end.imported == |Kept(passes, es)|
            && SumOf(end.rejects) == RejectedCount(passes, es)
            && end.malformed == 0
  {
    if es != [] {
      hide View, ExportLine, FateOf, Faithful, LooksOnlyAtRules, Apply, Admitting;
      PrefixSetting(text, reasons, es);
      ExportCounts(text, reasons, clock, es[..|es| - 1], includeFiles);
      LastExportedLine(text, reasons, clock, es, includeFiles);
    }
  }

  lemma LastExportedLine(text: JsonText, reasons: Option<Reasons>, clock: nat -> int, es: seq<Entry>,
                         includeFiles: bool)
    requires Setting(text, reasons, es) && es != []
    ensures var before := ImportLines(text, reasons, clock, map[], ExportLines(text, es[..|es| - 1], includeFiles));
            var end := ImportLines(text, reasons, clock, map[], ExportLines(text, es, includeFiles));
            var passes := if Admitting(text, reasons)(es[|es| - 1]) then 1 else 0;
            && end.imported == before.imported + passes
            && SumOf(end.rejects) == SumOf(before.rejects) + 1 - passes
            && end.malformed == before.malformed
  {
    var n, last := |es| - 1, es[|es| - 1];
    var init := ExportLines(text, es[..n], includeFiles);
    assert ExportLines(text, es, includeFiles) == init + [ExportLine(text, last, includeFiles)] by { hide ExportLine; }
    PrefixSetting(text, reasons, es);
    ExportLineFate(text, reasons, last, includeFiles, clock(n + 1));
    AdmittingIs(text, reasons, last);
    hide *;
    ImportSnoc(text, reasons, clock, map[], init, ExportLine(text, last, includeFiles));
    AccountCounts(text, ImportLines(text, reasons, clock, map[], init),
                  FateOf(text, reasons, ExportLine(text, last, includeFiles), clock(n + 1)));
  }

  lemma ImportSnoc(text: JsonText, reasons: Option<Reasons>, clock: nat -> int, table: map<string, Row>,
                   lines: seq<string>, line: string)
    ensures ImportLines(text, reasons, clock, table, lines + [line])
            == Account(text, ImportLines(text, reasons, clock, table, lines),
                       FateOf(text, reasons, line, clock(|lines| + 1)))
  {
    hide Account, FateOf;
    assert (lines + [line])[..|lines|] == lines;
  }

  lemma AccountCounts(text: JsonText, before: Progress, fate: Fate)
    requires fate.Imported? || fate.Rejected?
    ensures var end, passes := Account(text, before, fate), if fate.Imported? then 1 else 0;
            && end.imported == before.imported + passes
            && SumOf(end.rejects) == SumOf(before.rejects) + 1 - passes
            && end.malformed == before.malformed
  {
    hide Apply, SumOf, Bump;
    if fate.Rejected? { SumOfBump(before.rejects, fate.category); }
  }

  lemma PrefixSetting(text: JsonText, reasons: Option<Reasons>, es: seq<Entry>)
    requires Setting(text, reasons, es) && es != []
    ensures Setting(text, reasons, es[..|es| - 1])
    ensures IsLower(es[|es| - 1].key) && IsInfoHash(es[|es| - 1].key)
  {
    assert es[|es| - 1] in es && forall e | e in es[..|es| - 1] :: e in es;
  }

  // The bucket of a rule counts the index records that break it first.
  lemma ReimportBuckets(text: JsonText, settings: FilterSettings, pcre: Pcre, clock: nat -> int, es: seq<Entry>,
                        includeFiles: bool, i: nat)
    requires Faithful(text) && WellFormed(es) && (forall e | e in es :: IsInfoHash(e.key)) && i < |RULES|
    ensures var rejects := Reimported(text, Some(ReasonsOf(settings, pcre)), clock, es, includeFiles).rejects;
            var first := set k | 0 <= k < |es| && FirstBroken(settings, pcre, View(text, es[k]), RULES, i);
            && i < |LABELS|
            && (LABELS[i] in rejects <==> first != {})
            && (LABELS[i] in rejects ==> rejects[LABELS[i]] == |first|)
  {
    hide *;
    var reasons, lines := Some(ReasonsOf(settings, pcre)), ExportLines(text, es, includeFiles);
    LabelsOfRules();
    StreamRoundTrip(text, es, includeFiles);
    ReimportedIs(text, reasons, clock, es, includeFiles);
    ImportTallies(text, reasons, clock, map[], lines, LABELS[i]);
    var fates := Fates(text, reasons, clock, lines);
    forall k | 0 <= k < |es|
      ensures fates[k] == Rejected(LABELS[i]) <==> FirstBroken(settings, pcre, View(text, es[k]), RULES, i)
    {
      RecordBucket(text, settings, pcre, es, includeFiles, k, clock(k + 1), i);
    }
    SameCount(fates, LABELS[i], set k | 0 <= k < |es| && FirstBroken(settings, pcre, View(text, es[k]), RULES, i));
  }

  lemma ReimportedIs(text: JsonText, reasons: Option<Reasons>, clock: nat -> int, es: seq<Entry>, includeFiles: bool)
    ensures Reimported(text, reasons, clock, es, includeFiles)
            == ImportLines(text, reasons, clock, map[], Lines(Unlines(ExportLines(text, es, includeFiles))))
  {
  }

  lemma RecordBucket(text: JsonText, settings: FilterSettings, pcre: Pcre, es: seq<Entry>, includeFiles: bool,
                     k: nat, now: int, i: nat)
    requires Faithful(text) && WellFormed(es) && (forall e | e in es :: IsInfoHash(e.key)) && i < |RULES|
    requires k < |es|
    ensures i < |LABELS|
    ensures FateOf(text, Some(ReasonsOf(settings, pcre)), ExportLine(text, es[k], includeFiles), now)
            == Rejected(LABELS[i])
            <==> FirstBroken(settings, pcre, View(text, es[k]), RULES, i)
  {
    hide FateOf, ExportLine, View, ReasonsOf, LABELS, RULES, FirstBroken, ReasonCategory, LooksOnlyAtRules, IsInfoHash,
         Faithful;
    var reasons := ReasonsOf(settings, pcre);
    LabelsOfRules();
    PolicyLooksOnlyAtRules(settings, pcre);
    assert es[k] in es;
    ExportLineFate(text, Some(reasons), es[k], includeFiles, now);
    BucketOfRule(settings, pcre, View(text, es[k]), i);
  }

  lemma SameCount(fates: seq<Fate>, category: string, positions: set<int>)
    requires forall k :: k in positions <==> 0 <= k < |fates| && fates[k] == Rejected(category)
    ensures CountOf(fates, (f: Fate) => f == Rejected(category)) == |positions|
    ensures Rejected(category) in fates <==> positions != {}
  {
    var wanted := (f: Fate) => f == Rejected(category);
    assert (set k | 0 <= k < |fates| && wanted(fates[k])) == positions;
    if Rejected(category) in fates {
      var k :| 0 <= k < |fates| && fates[k] == Rejected(category);
      assert k in positions;
    }
  }

  // The results above hold for the policy of any configuration and for every
  // index whose keys are info-hashes.
  lemma ConfiguredSetting(text: JsonText, settings: FilterSettings, pcre: Pcre, es: seq<Entry>)
    requires Faithful(text) && WellFormed(es) && KeysAreHashes(Table(es))
    ensures Setting(text, Some(ReasonsOf(settings, pcre)), es) && Setting(text, None, es)
  {
    PolicyLooksOnlyAtRules(settings, pcre);
    HashKeys(es);
    hide ReasonsOf, LooksOnlyAtRules, IsInfoHash, WellFormed, Table, KeysAreHashes, Faithful;
  }

  lemma HashKeys(es: seq<Entry>)
    requires WellFormed(es) && KeysAreHashes(Table(es))
    ensures forall e | e in es :: IsInfoHash(e.key)
  {
    hide IsInfoHash, Proper, Ascending, IsLower;
    KeysDistinct(es);
    TableRows(es);
    hide Table, DistinctKeys;
    forall e | e in es ensures IsInfoHash(e.key) { HashKeyIs(e.key); }
  }
}
