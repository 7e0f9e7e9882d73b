// A torrent as the native index stores and exchanges it.
module Torrents {
  import opened Json
  import opened Text

  datatype ContentType = UnknownType | Video | Audio | Books | Pictures | Software | Games | Archive | Bad

  datatype ContentCategory =
    | UnknownCategory | Movie | Series | Documentary | Anime | Music | Ebook | Comics | SoftwareItem | Game | XXX

  datatype File = File(path: string, size: int)

  // added and trackersChecked are milliseconds since the Unix epoch.
  datatype Torrent = Torrent(
    hash: string,
    name: string,
    size: int,
    files: int,
    pieceLength: int,
    added: int,
    contentType: ContentType,
    contentCategory: ContentCategory,
    seeders: int,
    leechers: int,
    completed: int,
    trackersChecked: int,
    good: int,
    bad: int,
    info: Json,
    fileList: seq<File>)

  predicate IsHexDigit(c: char) {
    '0' <= c <= '9' || 'a' <= c <= 'f' || 'A' <= c <= 'F'
  }

  // Torrent::isValid
  predicate IsInfoHash(hash: string) {
    |hash| == 40 && forall c | c in hash :: IsHexDigit(c)
  }

  // Forty hexadecimal digits of either case.
  lemma InfoHashIs(hash: string)
    ensures IsInfoHash(hash) <==> |hash| == 40 && forall i | 0 <= i < 40 :: hash[i] in "0123456789abcdefABCDEF"
  {
    forall c: char ensures IsHexDigit(c) <==> c in "0123456789abcdefABCDEF" { HexDigitIs(c); }
    hide IsHexDigit;
  }

  lemma HexDigitIs(c: char)
    ensures IsHexDigit(c) <==> c in "0123456789abcdefABCDEF"
  {
    var all := "0123456789abcdefABCDEF";
    if '0' <= c <= '9' { assert all[c as int - '0' as int] == c; }
    if 'a' <= c <= 'f' { assert all[c as int - 'a' as int + 10] == c; }
    if 'A' <= c <= 'F' { assert all[c as int - 'A' as int + 16] == c; }
  }

  lemma ToLowerInfoHash(hash: string)
    ensures IsInfoHash(ToLower(hash)) == IsInfoHash(hash)
  {
    assert forall i | 0 <= i < |hash| :: ToLower(hash)[i] == LowerChar(hash[i]);
    forall i | 0 <= i < |hash| ensures IsHexDigit(ToLower(hash)[i]) == IsHexDigit(hash[i]) {}
  }

  // The lower-cased names in info["trackers"].
  function TrackerNames(info: Json): seq<string> {
    if HasTrackers(info) then LowerStrings(info.members["trackers"].items) else []
  }

  predicate HasTrackers(info: Json) {
    info.Obj? && "trackers" in info.members && info.members["trackers"].Arr?
  }

  function LowerStrings(items: seq<Json>): seq<string> {
    if items == [] then []
    else (if items[0].Str? then [ToLower(items[0].s)] else []) + LowerStrings(items[1..])
  }

  // The names are the lower-cased texts of the list, whatever else is in it.
  lemma {:induction false} LowerStringsAre(items: seq<Json>, name: string)
    ensures name in LowerStrings(items) <==> exists j | j in items :: j.Str? && ToLower(j.s) == name
  {
    hide ToLower;
    if items != [] {
      LowerStringsAre(items[1..], name);
      assert forall j :: j in items <==> j == items[0] || j in items[1..];
    }
  }

  lemma TrackerNamesAre(info: Json, name: string)
    ensures name in TrackerNames(info)
            <==> && info.Obj? && "trackers" in info.members && info.members["trackers"].Arr?
                 && exists j | j in info.members["trackers"].items :: j.Str? && ToLower(j.s) == name
  {
    hide ToLower, LowerStrings;
    if HasTrackers(info) { LowerStringsAre(info.members["trackers"].items, name); }
  }

  // They keep the order of the list.
  lemma {:induction false} LowerStringsInOrder(items: seq<Json>, more: seq<Json>)
    ensures LowerStrings(items + more) == LowerStrings(items) + LowerStrings(more)
  {
    hide ToLower;
    if items == [] {
      assert items + more == more;
    } else {
      assert (items + more)[0] == items[0] && (items + more)[1..] == items[1..] + more;
      LowerStringsInOrder(items[1..], more);
    }
  }

  function TypeId(t: ContentType): int {
    match t
    case UnknownType => 0
    case Video => 1
    case Audio => 2
    case Books => 3
    case Pictures => 4
    case Software => 5
    case Games => 6
    case Archive => 7
    case Bad => 100
  }

  function TypeFromId(id: int): ContentType {
    match id
    case 1 => Video
    case 2 => Audio
    case 3 => Books
    case 4 => Pictures
    case 5 => Software
    case 6 => Games
    case 7 => Archive
    case 100 => Bad
    case _ => UnknownType
  }

  function CategoryId(c: ContentCategory): int {
    match c
    case UnknownCategory => 0
    case Movie => 1
    case Series => 2
    case Documentary => 3
    case Anime => 4
    case Music => 5
    case Ebook => 6
    case Comics => 7
    case SoftwareItem => 8
    case Game => 9
    case XXX => 100
  }

  function CategoryFromId(id: int): ContentCategory {
    match id
    case 1 => Movie
    case 2 => Series
    case 3 => Documentary
    case 4 => Anime
    case 5 => Music
    case 6 => Ebook
    case 7 => Comics
    case 8 => SoftwareItem
    case 9 => Game
    case 100 => XXX
    case _ => UnknownCategory
  }

  function TypeName(t: ContentType): string {
    match t
    case UnknownType => ""
    case Video => "video"
    case Audio => "audio"
    case Books => "books"
    case Pictures => "pictures"
    case Software => "software"
    case Games => "games"
    case Archive => "archive"
    case Bad => "bad"
  }

  function TypeFromName(name: string): ContentType {
    var v := ToLower(name);
    if v == "video" then Video
    else if v == "audio" then Audio
    else if v == "books" then Books
    else if v == "pictures" then Pictures
    else if v == "software" then Software
    else if v == "games" then Games
    else if v == "archive" then Archive
    else if v == "bad" then Bad
    else UnknownType
  }

  function CategoryName(c: ContentCategory): string {
    match c
    case UnknownCategory => ""
    case Movie => "movie"
    case Series => "series"
    case Documentary => "documentary"
    case Anime => "anime"
    case Music => "music"
    case Ebook => "ebook"
    case Comics => "comics"
    case SoftwareItem => "software"
    case Game => "game"
    case XXX => "xxx"
  }

  function CategoryFromName(name: string): ContentCategory {
    var v := ToLower(name);
    if v == "movie" then Movie
    else if v == "series" then Series
    else if v == "documentary" then Documentary
    else if v == "anime" then Anime
    else if v == "music" then Music
    else if v == "ebook" then Ebook
    else if v == "comics" then Comics
    else if v == "software" then SoftwareItem
    else if v == "game" then Game
    else if v == "xxx" then XXX
    else UnknownCategory
  }

  lemma TypeNameRoundTrip(t: ContentType)
    ensures TypeFromName(TypeName(t)) == t
  {
    assert ToLower(TypeName(t)) == TypeName(t);
  }

  lemma CategoryNameRoundTrip(c: ContentCategory)
    ensures CategoryFromName(CategoryName(c)) == c
  {
    assert ToLower(CategoryName(c)) == CategoryName(c);
  }

  // A type or category is read only from its own name, in any case, and from its
  // own id; everything else is unknown.
  lemma ReadFromOwnName(name: string, t: ContentType, c: ContentCategory)
    requires t != UnknownType && c != UnknownCategory
    ensures TypeFromName(name) == t <==> ToLower(name) == TypeName(t)
    ensures CategoryFromName(name) == c <==> ToLower(name) == CategoryName(c)
  {
    TypeNameRoundTrip(t);
    CategoryNameRoundTrip(c);
    assert ToLower(TypeName(t)) == TypeName(t) && ToLower(CategoryName(c)) == CategoryName(c);
    hide ToLower;
  }

  lemma ReadFromOwnId(id: int, t: ContentType, c: ContentCategory)
    requires t != UnknownType && c != UnknownCategory
    ensures TypeFromId(id) == t <==> id == TypeId(t)
    ensures CategoryFromId(id) == c <==> id == CategoryId(c)
  {
  }

  // The names of the wire format and the ids of the index.
  lemma WireNames()
    ensures var types := [Video, Audio, Books, Pictures, Software, Games, Archive, Bad];
            var names := ["video", "audio", "books", "pictures", "software", "games", "archive", "bad"];
            forall i | 0 <= i < 8 :: TypeName(types[i]) == names[i] && TypeId(types[i]) == if i < 7 then i + 1 else 100
    ensures var categories := [Movie, Series, Documentary, Anime, Music, Ebook, Comics, SoftwareItem, Game, XXX];
            var names := ["movie", "series", "documentary", "anime", "music",
                          "ebook", "comics", "software", "game", "xxx"];
            forall i | 0 <= i < 10 ::
              CategoryName(categories[i]) == names[i] && CategoryId(categories[i]) == if i < 9 then i + 1 else 100
  {
  }
}
