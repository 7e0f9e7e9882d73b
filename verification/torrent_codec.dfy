// The wire codec: a torrent as a JSON object and back.
module TorrentCodec {
  import opened Json
  import opened Text
  import opened Torrents

  function FileToJson(f: File): Json {
    Obj(map["path" := Str(f.path), "size" := Int(f.size)])
  }

  function FileFromJson(j: Json): File {
    File(j.Text("path", ""), j.Whole("size", 0))
  }

  function FilesToJson(files: seq<File>): Json {
    Arr(seq(|files|, i requires 0 <= i < |files| => FileToJson(files[i])))
  }

  function FilesFromJson(j: Json): seq<File> {
    if !j.Arr? then [] else seq(|j.items|, i requires 0 <= i < |j.items| => FileFromJson(j.items[i]))
  }

  // A file is read from the members path and size, either of which may be missing.
  lemma FileMembers(members: map<string, Json>, path: string, size: int)
    ensures "path" !in members && "size" !in members ==> FileFromJson(Obj(members)) == File("", 0)
    ensures FileFromJson(Obj(members["path" := Str(path)]["size" := Int(size)])) == File(path, size)
  {
  }

  lemma FilesRoundTrip(files: seq<File>)
    ensures FilesFromJson(FilesToJson(files)) == files
  {
  }

  // codec::toJson with ToJsonOptions{includeFiles, includeInfo = true}.
  function ToJson(t: Torrent, includeFiles: bool): (j: Json)
    ensures j.Obj?
  {
    var core := map[
      "hash" := Str(t.hash),
      "name" := Str(t.name),
      "size" := Int(t.size),
      "files" := Int(t.files),
      "pieceLength" := Int(t.pieceLength),
      "added" := Int(t.added),
      "contentType" := Str(TypeName(t.contentType)),
      "contentCategory" := Str(CategoryName(t.contentCategory)),
      "seeders" := Int(t.seeders),
      "leechers" := Int(t.leechers),
      "completed" := Int(t.completed),
      "trackersChecked" := Int(t.trackersChecked),
      "good" := Int(t.good),
      "bad" := Int(t.bad)];
    var withInfo := if t.info.Empty() then core else core["info" := t.info];
    Obj(if includeFiles then withInfo["files_list" := FilesToJson(t.fileList)] else withInfo)
  }

  // The hash, under its current or its older name.
  function HashOf(j: Json): string {
    var hash := ToLower(j.Text("hash", ""));
    if hash == "" then ToLower(j.Text("info_hash", "")) else hash
  }

  // The file list, under its current or its older name.
  function ListOf(j: Json): seq<File>
    requires j.Obj?
  {
    if "files_list" in j.members then FilesFromJson(j.members["files_list"])
    else if "filesList" in j.members then FilesFromJson(j.members["filesList"])
    else []
  }

  // codec::torrentFromJson; now is the clock it stamps a missing `added` with.
  function FromJson(j: Json, now: int): Torrent
    requires j.Obj?
  {
    var list := ListOf(j);
    var files := j.Whole("files", 0);
    var added := j.Whole("added", 0);
    Torrent(
      HashOf(j),
      j.Text("name", ""),
      j.Whole("size", 0),
      if files == 0 && list != [] then |list| else files,
      j.Whole("pieceLength", 0),
      if added > 0 then added else now,
      TypeFromName(j.Text("contentType", "")),
      CategoryFromName(j.Text("contentCategory", "")),
      j.Whole("seeders", 0),
      j.Whole("leechers", 0),
      j.Whole("completed", 0),
      j.Whole("trackersChecked", 0),
      j.Whole("good", 0),
      j.Whole("bad", 0),
      if "info" in j.members then j.members["info"] else Null,
      list)
  }

  // What a torrent becomes on the far side of the wire.
  function Received(t: Torrent, includeFiles: bool, now: int): Torrent {
    var list := if includeFiles then t.fileList else [];
    t.(hash := ToLower(t.hash),
       added := if t.added > 0 then t.added else now,
       files := if t.files == 0 && list != [] then |list| else t.files,
       info := if t.info.Empty() then Null else t.info,
       fileList := list)
  }

  lemma WireIsReceived(t: Torrent, includeFiles: bool, now: int)
    ensures FromJson(ToJson(t, includeFiles), now) == Received(t, includeFiles, now)
  {
    TextMembers(t, includeFiles);
    WholeMembers(t, includeFiles);
    CounterMembers(t, includeFiles);
    OptionalMembers(t, includeFiles);
    hide ToJson;
    TypeNameRoundTrip(t.contentType);
    CategoryNameRoundTrip(t.contentCategory);
    FilesRoundTrip(t.fileList);
  }

  lemma TextMembers(t: Torrent, includeFiles: bool)
    ensures var j := ToJson(t, includeFiles);
            && j.Text("hash", "") == t.hash
            && j.Text("info_hash", "") == ""
            && j.Text("name", "") == t.name
            && j.Text("contentType", "") == TypeName(t.contentType)
            && j.Text("contentCategory", "") == CategoryName(t.contentCategory)
  {
  }

  lemma WholeMembers(t: Torrent, includeFiles: bool)
    ensures var j := ToJson(t, includeFiles);
            && j.Whole("size", 0) == t.size
            && j.Whole("files", 0) == t.files
            && j.Whole("pieceLength", 0) == t.pieceLength
            && j.Whole("added", 0) == t.added
            && j.Whole("trackersChecked", 0) == t.trackersChecked
  {
  }

  lemma CounterMembers(t: Torrent, includeFiles: bool)
    ensures var j := ToJson(t, includeFiles);
            && j.Whole("seeders", 0) == t.seeders
            && j.Whole("leechers", 0) == t.leechers
            && j.Whole("completed", 0) == t.completed
            && j.Whole("good", 0) == t.good
            && j.Whole("bad", 0) == t.bad
  {
  }

  lemma OptionalMembers(t: Torrent, includeFiles: bool)
    ensures var j := ToJson(t, includeFiles);
            && j.Find("info") == (if t.info.Empty() then None else Some(t.info))
            && j.Find("files_list") == (if includeFiles then Some(FilesToJson(t.fileList)) else None)
            && j.Find("filesList") == None
  {
  }

  // An object that says nothing is a torrent with nothing known about it, added
  // now.
  lemma BareObject(now: int)
    ensures FromJson(Obj(map[]), now)
            == Torrent("", "", 0, 0, 0, now, UnknownType, UnknownCategory, 0, 0, 0, 0, 0, 0, Null, [])
  {
  }

  // The older member names info_hash and filesList are read when the current ones
  // are missing, and only then.
  lemma OlderNamesRead(t: Torrent, now: int, x: Json, y: Json)
    requires t.hash != ""
    ensures var wire := ToJson(t, true).members;
            && "hash" in wire && "files_list" in wire
            && FromJson(Obj(WithOlderNames(wire)), now) == Received(t, true, now)
            && FromJson(Obj(wire["info_hash" := x]["filesList" := y]), now) == Received(t, true, now)
  {
    hide ToJson, FromJson, Received;
    WireIsReceived(t, true, now);
    OptionalMembers(t, true);
    TextMembers(t, true);
    hide WithOlderNames;
    OlderNameRead(ToJson(t, true).members, now);
    NewerNameWins(ToJson(t, true).members, x, y, now);
  }

  function WithOlderNames(wire: map<string, Json>): map<string, Json>
    requires "hash" in wire && "files_list" in wire
  {
    (wire - {"hash", "files_list"})["info_hash" := wire["hash"]]["filesList" := wire["files_list"]]
  }

  // The hash, the file list and the members under other names decide what is read.
  lemma ReadAlike(a: map<string, Json>, b: map<string, Json>, now: int)
    requires HashOf(Obj(a)) == HashOf(Obj(b)) && ListOf(Obj(a)) == ListOf(Obj(b))
    requires forall k | k !in {"hash", "info_hash", "files_list", "filesList"} ::
               (k in a <==> k in b) && (k in a ==> a[k] == b[k])
    ensures FromJson(Obj(a), now) == FromJson(Obj(b), now)
  {
    hide HashOf, ListOf, TypeFromName, CategoryFromName;
  }

  lemma OlderNameRead(wire: map<string, Json>, now: int)
    requires "hash" in wire && wire["hash"].Str? && wire["hash"].s != "" && "files_list" in wire
    ensures FromJson(Obj(WithOlderNames(wire)), now) == FromJson(Obj(wire), now)
  {
    hide FromJson, FilesFromJson;
    LowerNotEmpty("");
    LowerNotEmpty(wire["hash"].s);
    ReadAlike(WithOlderNames(wire), wire, now);
  }

  lemma LowerNotEmpty(s: string)
    ensures ToLower(s) == "" <==> s == ""
  {
  }

  lemma NewerNameWins(wire: map<string, Json>, x: Json, y: Json, now: int)
    requires "hash" in wire && wire["hash"].Str? && wire["hash"].s != "" && "files_list" in wire
    ensures FromJson(Obj(wire["info_hash" := x]["filesList" := y]), now) == FromJson(Obj(wire), now)
  {
    hide FromJson, FilesFromJson;
    LowerNotEmpty(wire["hash"].s);
    ReadAlike(wire["info_hash" := x]["filesList" := y], wire, now);
  }

  // Exactly the torrents that survive the wire unchanged.
  predicate SurvivesWire(t: Torrent, includeFiles: bool) {
    && IsLower(t.hash)
    && t.added > 0
    && t.info != Arr([]) && t.info != Obj(map[])
    && (t.fileList != [] ==> includeFiles && t.files != 0)
  }

  lemma WireRoundTrip(t: Torrent, includeFiles: bool, now: int)
    requires now > 0
    ensures FromJson(ToJson(t, includeFiles), now) == t <==> SurvivesWire(t, includeFiles)
  {
    WireIsReceived(t, includeFiles, now);
  }
}
