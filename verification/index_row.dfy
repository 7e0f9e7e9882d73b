// One record of the index: how upsert writes a torrent into its columns and how a
// select reads it back.
module IndexRow {
  import opened Json
  import opened Text
  import opened Torrents
  import opened TorrentCodec

  // One record of the Torrents table. Times are seconds, as Groonga keeps them;
  // info is the printed JSON of the Text column, "" when it was never written.
  datatype Row = Row(
    name: string,
    size: int,
    files: int,
    pieceLength: int,
    added: real,
    contentType: int,
    contentCategory: int,
    seeders: int,
    leechers: int,
    completed: int,
    good: int,
    bad: int,
    trackersChecked: real,
    info: string,
    trackers: seq<string>)

  // A record whose columns were never written.
  const BLANK := Row("", 0, 0, 0, 0.0, 0, 0, 0, 0, 0, 0, 0, 0.0, "", [])

  // ----- A torrent into columns and back ------------------------------------

  function LlRound(x: real): int {
    if x >= 0.0 then (x + 0.5).Floor else -((-x + 0.5).Floor)
  }

  // The object stored in the info column: the scraped extras plus the file list.
  function InfoOut(t: Torrent): map<string, Json> {
    var extras := if t.info.Obj? then t.info.members else map[];
    if t.fileList == [] then extras else extras["filesList" := FilesToJson(t.fileList)]
  }

  // The record upsert loads: columns it leaves out keep what they held.
  function WriteTorrent(text: JsonText, t: Torrent, row: Row): Row {
    Row(t.name, t.size, t.files, t.pieceLength,
        t.added as real / 1000.0,
        TypeId(t.contentType), CategoryId(t.contentCategory),
        t.seeders, t.leechers, t.completed, t.good, t.bad,
        if t.trackersChecked > 0 then t.trackersChecked as real / 1000.0 else row.trackersChecked,
        if InfoOut(t) == map[] then row.info else text.dump(Obj(InfoOut(t))),
        if HasTrackers(t.info) then TrackerNames(t.info) else row.trackers)
  }

  // The object the info column holds, if it holds one.
  function StoredInfo(text: JsonText, info: string): Option<map<string, Json>> {
    if info == "" then None else
    match text.parse(info)
    case Some(Obj(members)) => Some(members)
    case _ => None
  }

  function ReadExtras(stored: Option<map<string, Json>>): Json {
    if stored.None? then Null else Obj(stored.value - {"filesList"})
  }

  function ReadFiles(stored: Option<map<string, Json>>): seq<File> {
    if stored.Some? && "filesList" in stored.value then FilesFromJson(stored.value["filesList"]) else []
  }

  // GroongaIndex::rowToTorrent
  function ReadRow(text: JsonText, key: string, row: Row): Torrent {
    var stored := StoredInfo(text, row.info);
    var list := ReadFiles(stored);
    Torrent(key, row.name, row.size,
            if row.files == 0 && list != [] then |list| else row.files,
            row.pieceLength,
            LlRound(row.added * 1000.0),
            TypeFromId(row.contentType), CategoryFromId(row.contentCategory),
            row.seeders, row.leechers, row.completed,
            if row.trackersChecked > 0.0 then LlRound(row.trackersChecked * 1000.0) else 0,
            row.good, row.bad,
            ReadExtras(stored), list)
  }

  // What reading a torrent back from a new record gives.
  function Stored(t: Torrent): Torrent {
    t.(hash := ToLower(t.hash),
       files := if t.files == 0 && StoredFiles(t) != [] then |StoredFiles(t)| else t.files,
       trackersChecked := if t.trackersChecked > 0 then t.trackersChecked else 0,
       info := if InfoOut(t) == map[] then Null else Obj(InfoOut(t) - {"filesList"}),
       fileList := StoredFiles(t))
  }

  // A file list hidden under the extras' own "filesList" is read as the list.
  function StoredFiles(t: Torrent): seq<File> {
    if t.fileList == [] && t.info.Obj? && "filesList" in t.info.members
    then FilesFromJson(t.info.members["filesList"]) else t.fileList
  }

  // std::llround: the nearest whole number, ties away from zero.
  lemma RoundsToNearest(x: real)
    ensures var r := LlRound(x) as real;
            && x - 0.5 <= r <= x + 0.5
            && (r == x - 0.5 ==> x < 0.0) && (r == x + 0.5 ==> x > 0.0)
  {
  }

  lemma MillisecondsRoundTrip(ms: int)
    ensures LlRound(ms as real / 1000.0 * 1000.0) == ms
  {
    assert ms as real / 1000.0 * 1000.0 == ms as real;
  }

  lemma IdRoundTrips(t: Torrent)
    ensures TypeFromId(TypeId(t.contentType)) == t.contentType
    ensures CategoryFromId(CategoryId(t.contentCategory)) == t.contentCategory
  {
  }

  lemma WrittenInfo(text: JsonText, t: Torrent, row: Row)
    requires Faithful(text)
    ensures StoredInfo(text, WriteTorrent(text, t, row).info)
            == if InfoOut(t) == map[] then StoredInfo(text, row.info) else Some(InfoOut(t))
  {
    assert text.parse(text.dump(Obj(InfoOut(t)))) == Some(Obj(InfoOut(t)));
  }

  lemma WrittenFiles(t: Torrent)
    ensures InfoOut(t) != map[] ==> ReadFiles(Some(InfoOut(t))) == StoredFiles(t)
    ensures InfoOut(t) == map[] ==> StoredFiles(t) == []
  {
    FilesRoundTrip(t.fileList);
    if t.fileList != [] {
      assert "filesList" in InfoOut(t);
    }
  }

  // A reader finds each of these columns in the member of its name, and nowhere
  // else; times are stored in seconds and read in milliseconds.
  lemma ColumnsAreMembers(text: JsonText, key: string, row: Row, name: string, size: int, files: int,
                          pieceLength: int, seconds: int)
    requires row.files != 0 && files != 0
    ensures ReadRow(text, key, row.(name := name, size := size, files := files, pieceLength := pieceLength,
                                    added := seconds as real))
            == ReadRow(text, key, row).(name := name, size := size, files := files, pieceLength := pieceLength,
                                        added := 1000 * seconds)
  {
    assert seconds as real * 1000.0 == (1000 * seconds) as real;
    hide StoredInfo, ReadFiles, ReadExtras;
  }

  // The info column: a text that holds no object reads as no extras and no files;
  // of an object, filesList is the file list and the other members are the extras.
  // A missing file count is the length of that list.
  lemma InfoColumnRead(text: JsonText, key: string, row: Row)
    ensures var t, parsed := ReadRow(text, key, row), text.parse(row.info);
            && (row.info == "" || parsed.None? || !parsed.value.Obj? ==> t.info == Null && t.fileList == [])
            && (row.info != "" && parsed.Some? && parsed.value.Obj? ==>
                  && t.info.Obj?
                  && (forall k :: k in t.info.members <==> k in parsed.value.members && k != "filesList")
                  && (forall k | k in t.info.members :: t.info.members[k] == parsed.value.members[k])
                  && t.fileList == match parsed.value.Find("filesList")
                                   case Some(list) => FilesFromJson(list)
                                   case None => [])
            && t.files == if row.files == 0 then |t.fileList| else row.files
  {
    hide LlRound, FilesFromJson;
  }

  lemma InsertThenRead(text: JsonText, t: Torrent)
    requires Faithful(text)
    ensures ReadRow(text, ToLower(t.hash), WriteTorrent(text, t, BLANK)) == Stored(t)
  {
    MillisecondsRoundTrip(t.added);
    MillisecondsRoundTrip(t.trackersChecked);
    IdRoundTrips(t);
    WrittenInfo(text, t, BLANK);
    WrittenFiles(t);
    var back := ReadRow(text, ToLower(t.hash), WriteTorrent(text, t, BLANK));
    assert back.trackersChecked == Stored(t).trackersChecked;
  }

  // Upserting over an existing record replaces every column exactly when the
  // new torrent carries the columns that upsert leaves out, or the record never
  // had them.
  lemma UpsertReplaces(text: JsonText, t: Torrent, row: Row)
    requires Faithful(text)
    ensures var key := ToLower(t.hash); var before := ReadRow(text, key, row);
            ReadRow(text, key, WriteTorrent(text, t, row)) == Stored(t)
            <==> && (t.trackersChecked > 0 || before.trackersChecked == 0)
                 && (InfoOut(t) != map[] || before.info == Null)
  {
    MillisecondsRoundTrip(t.added);
    MillisecondsRoundTrip(t.trackersChecked);
    IdRoundTrips(t);
    WrittenInfo(text, t, row);
    WrittenFiles(t);
    var back := ReadRow(text, ToLower(t.hash), WriteTorrent(text, t, row));
    var before := ReadRow(text, ToLower(t.hash), row);
    assert back.trackersChecked == Stored(t).trackersChecked <==> t.trackersChecked > 0 || before.trackersChecked == 0;
    assert back.info == Stored(t).info && back.fileList == Stored(t).fileList
      <==> InfoOut(t) != map[] || before.info == Null;
  }

  // A torrent never checked at a tracker, loaded over one that was, keeps the old
  // check time: the update does not reach every column.
  lemma StaleCheckSurvives(text: JsonText, t: Torrent)
    requires Faithful(text) && t.trackersChecked == 0
    ensures var back := ReadRow(text, ToLower(t.hash), WriteTorrent(text, t, BLANK.(trackersChecked := 5.0)));
            back.trackersChecked == 5000 && back != Stored(t)
  {
    hide InfoOut, ReadFiles, ReadExtras, StoredInfo;
    assert LlRound(5.0 * 1000.0) == 5000;
  }

  // The tracker column search filters on agrees with the info column.
  predicate TrackersInSync(text: JsonText, row: Row) {
    row.trackers == TrackerNames(ReadExtras(StoredInfo(text, row.info)))
  }

  lemma UpsertTrackersInSync(text: JsonText, t: Torrent, row: Row)
    requires Faithful(text)
    ensures TrackersInSync(text, WriteTorrent(text, t, row))
            <==> if HasTrackers(t.info) then true
                 else if InfoOut(t) == map[] then TrackersInSync(text, row)
                 else row.trackers == []
  {
    hide TrackerNames;
    WrittenInfo(text, t, row);
    TrackersOfInfoOut(t);
  }

  // New extras without tracker names leave the old names in the search column.
  lemma StaleTrackersSurvive(text: JsonText, t: Torrent)
    requires Faithful(text) && t.info == Obj(map["poster" := Null])
    ensures !TrackersInSync(text, WriteTorrent(text, t, BLANK.(trackers := ["nyaa"])))
  {
    UpsertTrackersInSync(text, t, BLANK.(trackers := ["nyaa"]));
    assert "poster" in InfoOut(t);
    assert "trackers" != "poster";
  }

  lemma TrackersOfInfoOut(t: Torrent)
    ensures TrackerNames(Obj(InfoOut(t) - {"filesList"})) == TrackerNames(t.info)
    ensures !HasTrackers(t.info) ==> TrackerNames(t.info) == []
    ensures HasTrackers(t.info) ==> InfoOut(t) != map[]
    ensures TrackerNames(Null) == []
  {
    hide LowerStrings;
    var kept := InfoOut(t) - {"filesList"};
    assert "trackers" in kept <==> t.info.Obj? && "trackers" in t.info.members;
    assert HasTrackers(t.info) ==> "trackers" in InfoOut(t);
  }
}
