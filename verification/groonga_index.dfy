// The index as a table of records: the commands that write it and the keyset
// pages the administrative sweeps read.
module GroongaIndex {
  import opened Json
  import opened Text
  import opened Torrents
  import opened IndexRow

  // A record with the internal id Groonga gave it.
  datatype Entry = Entry(id: int, key: string, row: Row)

  datatype IdTorrent = IdTorrent(id: int, torrent: Torrent)

  ghost predicate DistinctKeys(es: seq<Entry>) {
    forall i, j | 0 <= i < j < |es| :: es[i].key != es[j].key
  }

  ghost predicate Ascending(es: seq<Entry>) {
    forall i, j | 0 <= i < j < |es| :: es[i].id < es[j].id
  }

  ghost predicate Proper(es: seq<Entry>) {
    forall i | 0 <= i < |es| :: es[i].id > 0 && IsLower(es[i].key)
  }

  // Ascending positive ids and distinct lower-case keys.
  ghost predicate WellFormed(es: seq<Entry>) {
    Proper(es) && Ascending(es) && DistinctKeys(es)
  }

  // The index as a dictionary.
  ghost function Table(es: seq<Entry>): map<string, Row>
    requires DistinctKeys(es)
  {
    map e | e in es :: e.key := e.row
  }

  ghost function RowAt(table: map<string, Row>, key: string): Row {
    if key in table then table[key] else BLANK
  }

  lemma TableRows(es: seq<Entry>)
    requires DistinctKeys(es)
    ensures forall e | e in es :: e.key in Table(es) && Table(es)[e.key] == e.row
    ensures forall key | key in Table(es) :: exists e | e in es :: e.key == key
  {
  }

  // ----- The write commands, on the dictionary ------------------------------

  datatype Op =
    | Upsert(t: Torrent)
    | Remove(hash: string)
    | UpdateStats(hash: string, seeders: int, leechers: int, completed: int, nowSecs: int)
    | UpdateVotes(hash: string, good: int, bad: int)
    | MergeInfo(hash: string, info: Json)

  function Merged(stored: Option<map<string, Json>>, info: Json): map<string, Json> {
    (if stored.Some? then stored.value else map[]) + (if info.Obj? then info.members else map[])
  }

  function WriteStats(row: Row, seeders: int, leechers: int, completed: int, nowSecs: int): Row {
    row.(seeders := seeders, leechers := leechers, completed := completed, trackersChecked := nowSecs as real)
  }

  function WriteVotes(row: Row, good: int, bad: int): Row {
    row.(good := good, bad := bad)
  }

  function WriteMerged(text: JsonText, row: Row, info: Json): Row {
    var merged := Obj(Merged(StoredInfo(text, row.info), info));
    row.(info := text.dump(merged),
         trackers := if HasTrackers(merged) then TrackerNames(merged) else row.trackers)
  }

  ghost function Apply(text: JsonText, op: Op, table: map<string, Row>): map<string, Row> {
    match op
    case Upsert(t) =>
      var key := ToLower(t.hash);
      if IsInfoHash(t.hash) then table[key := WriteTorrent(text, t, RowAt(table, key))] else table
    case Remove(hash) => table - {ToLower(hash)}
    case UpdateStats(hash, s, l, c, now) =>
      var key := ToLower(hash);
      if key in table then table[key := WriteStats(table[key], s, l, c, now)] else table
    case UpdateVotes(hash, g, b) =>
      var key := ToLower(hash);
      table[key := WriteVotes(RowAt(table, key), g, b)]
    case MergeInfo(hash, info) =>
      var key := ToLower(hash);
      if key in table then table[key := WriteMerged(text, table[key], info)] else table
  }

  ghost function Run(text: JsonText, ops: seq<Op>, table: map<string, Row>): map<string, Row> {
    if ops == [] then table else Run(text, ops[1..], Apply(text, ops[0], table))
  }

  // ----- What a reader sees of a command ------------------------------------

  function Target(op: Op): string {
    ToLower(if op.Upsert? then op.t.hash else op.hash)
  }

  // A command touches the record of its hash only.
  lemma OthersUntouched(text: JsonText, op: Op, table: map<string, Row>, key: string)
    requires key != Target(op)
    ensures var after := Apply(text, op, table);
            (key in after <==> key in table) && RowAt(after, key) == RowAt(table, key)
  {
    hide WriteTorrent, WriteStats, WriteVotes, WriteMerged, ToLower;
  }

  // A torrent that is no info-hash is refused. Otherwise it is what a reader then
  // sees, exactly when it carries the check time and extras, or the record had
  // none; a new record has none.
  lemma UpsertReadsBack(text: JsonText, t: Torrent, table: map<string, Row>)
    requires Faithful(text)
    ensures !IsInfoHash(t.hash) ==> Apply(text, Upsert(t), table) == table
    ensures var key, after := ToLower(t.hash), Apply(text, Upsert(t), table);
            IsInfoHash(t.hash) ==>
              && key in after
              && (key !in table ==> ReadRow(text, key, after[key]) == Stored(t))
              && (key in table ==>
                    (ReadRow(text, key, after[key]) == Stored(t)
                     <==> && (t.trackersChecked > 0 || ReadRow(text, key, table[key]).trackersChecked == 0)
                          && (InfoOut(t) != map[] || ReadRow(text, key, table[key]).info == Null)))
  {
    hide WriteTorrent, ReadRow, Stored, InfoOut;
    InsertThenRead(text, t);
    UpsertReplaces(text, t, RowAt(table, ToLower(t.hash)));
  }

  lemma RemoveForgets(text: JsonText, hash: string, table: map<string, Row>)
    ensures ToLower(hash) !in Apply(text, Op.Remove(hash), table)
  {
  }

  // A scrape result changes the counters and the check time, and nothing else.
  lemma StatsReadBack(text: JsonText, hash: string, seeders: int, leechers: int, completed: int, nowSecs: int,
                      table: map<string, Row>)
    requires nowSecs > 0 && ToLower(hash) in table
    ensures var key := ToLower(hash);
            var after := Apply(text, UpdateStats(hash, seeders, leechers, completed, nowSecs), table);
            && key in after
            && ReadRow(text, key, after[key])
               == ReadRow(text, key, table[key]).(seeders := seeders, leechers := leechers, completed := completed,
                                                  trackersChecked := nowSecs * 1000)
  {
    hide StoredInfo, ReadFiles, ReadExtras, ToLower;
    assert nowSecs as real * 1000.0 == (nowSecs * 1000) as real;
  }

  // A vote changes the votes, and nothing else; without a record it makes one.
  lemma VotesReadBack(text: JsonText, hash: string, good: int, bad: int, table: map<string, Row>)
    ensures var key, after := ToLower(hash), Apply(text, UpdateVotes(hash, good, bad), table);
            && key in after
            && (key in table ==>
                  ReadRow(text, key, after[key]) == ReadRow(text, key, table[key]).(good := good, bad := bad))
            && (key !in table ==>
                  ReadRow(text, key, after[key])
                  == Torrent(key, "", 0, 0, 0, 0, UnknownType, UnknownCategory, 0, 0, 0, 0, good, bad, Null, []))
  {
    hide ReadFiles, ReadExtras, ToLower, StoredInfo;
    assert StoredInfo(text, "") == None && ReadFiles(None) == [] && ReadExtras(None) == Null by { NothingStored(text); }
    assert LlRound(0.0 * 1000.0) == 0;
    hide LlRound;
  }

  lemma NothingStored(text: JsonText)
    ensures StoredInfo(text, "") == None && ReadFiles(None) == [] && ReadExtras(None) == Null
  {
  }

  // Merging is shallow: each member of the new extras replaces its namesake, the
  // other members and all other columns stay. Search then sees the trackers of
  // the merged extras, or as long as these have no list of them, the ones from
  // before.
  lemma MergeReadsBack(text: JsonText, hash: string, info: Json, table: map<string, Row>, member: string)
    requires Faithful(text) && ToLower(hash) in table && member != "filesList"
    ensures var key, end := ToLower(hash), Apply(text, MergeInfo(hash, info), table);
            && key in end
            && var before, after := ReadRow(text, key, table[key]), ReadRow(text, key, end[key]);
               && after.info.Obj?
               && after.info.Find(member)
                  == (if info.Obj? && member in info.members then info.Find(member) else before.info.Find(member))
               && (info.Find("filesList") == None ==> after.(info := before.info) == before)
               && end[key].trackers
                  == if HasTrackers(after.info) then TrackerNames(after.info) else table[key].trackers
  {
    hide LlRound, LowerStrings, ToLower;
    var row := table[ToLower(hash)];
    var stored := StoredInfo(text, row.info);
    var merged := Merged(stored, info);
    assert text.parse(text.dump(Obj(merged))) == Some(Obj(merged)) && text.dump(Obj(merged)) != "";
    assert StoredInfo(text, WriteMerged(text, row, info).info) == Some(merged);
    assert info.Find("filesList") == None ==> ReadFiles(Some(merged)) == ReadFiles(stored);
    assert "trackers" in merged <==> "trackers" in merged - {"filesList"};
    hide StoredInfo, ReadFiles;
  }

  ghost predicate KeysAreHashes(table: map<string, Row>) {
    forall key | key in table :: |key| == 40 && forall i | 0 <= i < 40 :: key[i] in "0123456789abcdef"
  }

  lemma HashKeyIs(key: string)
    ensures IsInfoHash(key) && IsLower(key) <==> |key| == 40 && forall i | 0 <= i < 40 :: key[i] in "0123456789abcdef"
  {
    InfoHashIs(key);
    hide IsInfoHash;
    if |key| == 40 {
      forall i | 0 <= i < 40 ensures key[i] in "0123456789abcdef"
                                     <==> key[i] in "0123456789abcdefABCDEF" && LowerChar(key[i]) == key[i] {
        LowerHexDigit(key[i]);
      }
      LowerEverywhere(key);
    }
  }

  lemma LowerEverywhere(s: string)
    ensures IsLower(s) <==> forall i | 0 <= i < |s| :: LowerChar(s[i]) == s[i]
  {
  }

  lemma LowerHexDigit(c: char)
    ensures c in "0123456789abcdef" <==> c in "0123456789abcdefABCDEF" && LowerChar(c) == c
  {
    assert "0123456789abcdefABCDEF" == "0123456789abcdef" + "ABCDEF";
    assert c in "ABCDEF" ==> 'A' <= c <= 'F';
  }

  // A vote that creates a record under something that is not an info-hash.
  predicate StrayVote(op: Op, table: map<string, Row>) {
    op.UpdateVotes? && ToLower(op.hash) !in table && !IsInfoHash(op.hash)
  }

  // Only a stray vote spoils the keys.
  lemma StepKeepsHashKeysIff(text: JsonText, op: Op, table: map<string, Row>)
    requires KeysAreHashes(table)
    ensures KeysAreHashes(Apply(text, op, table)) <==> !StrayVote(op, table)
  {
    var key := Target(op);
    if op.Upsert? {
      ToLowerInfoHash(op.t.hash);
      ToLowerIsLower(op.t.hash);
    }
    if op.UpdateVotes? {
      ToLowerInfoHash(op.hash);
      ToLowerIsLower(op.hash);
      assert key in Apply(text, op, table);
    }
    HashKeyIs(key);
    hide IsInfoHash, IsLower, ToLower, WriteTorrent, WriteVotes, WriteStats, WriteMerged;
  }

  ghost predicate NoStrayVotes(text: JsonText, ops: seq<Op>, table: map<string, Row>) {
    ops == [] || (!StrayVote(ops[0], table) && NoStrayVotes(text, ops[1..], Apply(text, ops[0], table)))
  }

  // Over any run of write commands the keys stay lower-case info-hashes.
  lemma {:induction false} RunKeepsHashKeys(text: JsonText, ops: seq<Op>, table: map<string, Row>)
    requires KeysAreHashes(table) && NoStrayVotes(text, ops, table)
    ensures KeysAreHashes(Run(text, ops, table))
  {
    hide KeysAreHashes, StrayVote, Apply;
    if ops != [] {
      StepKeepsHashKeysIff(text, ops[0], table);
      RunKeepsHashKeys(text, ops[1..], Apply(text, ops[0], table));
    }
  }

  // Only an upsert or a vote can create a record; a scrape result that arrives
  // after its torrent was pruned changes nothing.
  lemma CreatedBy(text: JsonText, op: Op, table: map<string, Row>, key: string)
    requires key !in table
    ensures key in Apply(text, op, table)
            <==> (op.Upsert? && IsInfoHash(op.t.hash) && ToLower(op.t.hash) == key)
                 || (op.UpdateVotes? && ToLower(op.hash) == key)
  {
  }

  // ----- Pages --------------------------------------------------------------

  // The records a `_id > afterId` filter selects.
  function After(es: seq<Entry>, afterId: int): seq<Entry> {
    if es == [] then []
    else (if es[0].id > afterId then [es[0]] else []) + After(es[1..], afterId)
  }

  function Limit(es: seq<Entry>, limit: nat): seq<Entry> {
    if |es| <= limit then es else es[..limit]
  }

  function View(text: JsonText, e: Entry): Torrent {
    ReadRow(text, e.key, e.row)
  }

  function Views(text: JsonText, es: seq<Entry>): (r: seq<IdTorrent>)
    ensures |r| == |es|
  {
    seq(|es|, i requires 0 <= i < |es| => IdTorrent(es[i].id, View(text, es[i])))
  }

  lemma {:induction false} AfterSplit(low: seq<Entry>, high: seq<Entry>, id: int)
    requires forall e | e in low :: e.id <= id
    requires forall e | e in high :: e.id > id
    ensures After(low + high, id) == high
  {
    if low != [] {
      assert (low + high)[0] == low[0] && (low + high)[1..] == low[1..] + high;
      AfterSplit(low[1..], high, id);
      assert [] + high == high;
    } else {
      assert low + high == high;
      AfterAll(high, id);
    }
  }

  lemma {:induction false} AfterAll(es: seq<Entry>, id: int)
    requires forall e | e in es :: e.id > id
    ensures After(es, id) == es
  {
    if es != [] { AfterAll(es[1..], id); }
  }

  function Without(es: seq<Entry>, key: string): seq<Entry> {
    if es == [] then []
    else (if es[0].key == key then [] else [es[0]]) + Without(es[1..], key)
  }

  lemma {:induction false} WithoutMembers(es: seq<Entry>, key: string)
    ensures forall e :: e in Without(es, key) <==> e in es && e.key != key
  {
    if es != [] {
      WithoutMembers(es[1..], key);
      assert forall e :: e in es <==> e == es[0] || e in es[1..];
    }
  }

  lemma {:induction false} WithoutWellFormed(es: seq<Entry>, key: string)
    requires WellFormed(es)
    ensures WellFormed(Without(es, key))
  {
    hide IsLower, Without;
    if es != [] {
      var rest := Without(es[1..], key);
      WithoutWellFormed(es[1..], key);
      WithoutMembers(es[1..], key);
      forall i | 0 <= i < |rest| ensures es[0].id < rest[i].id && es[0].key != rest[i].key {
        assert rest[i] in es[1..];
      }
      PrependWellFormed(es[0], rest);
      WithoutUnfold(es, key);
    } else {
      WithoutUnfold(es, key);
    }
  }

  lemma WithoutUnfold(es: seq<Entry>, key: string)
    ensures es == [] ==> Without(es, key) == []
    ensures es != [] ==>
              Without(es, key) == if es[0].key == key then Without(es[1..], key) else [es[0]] + Without(es[1..], key)
  {
    if es != [] { assert [] + Without(es[1..], key) == Without(es[1..], key); }
  }

  lemma PrependWellFormed(e: Entry, es: seq<Entry>)
    requires WellFormed(es) && e.id > 0 && IsLower(e.key)
    requires forall i | 0 <= i < |es| :: e.id < es[i].id && e.key != es[i].key
    ensures WellFormed([e] + es)
  {
    hide IsLower;
  }

  lemma {:induction false} WithoutAbsent(es: seq<Entry>, key: string)
    requires forall e | e in es :: e.key != key
    ensures Without(es, key) == es
  {
    if es != [] { WithoutAbsent(es[1..], key); }
  }

  lemma {:induction false} WithoutConcat(a: seq<Entry>, b: seq<Entry>, key: string)
    ensures Without(a + b, key) == Without(a, key) + Without(b, key)
  {
    if a == [] {
      assert a + b == b;
    } else {
      assert (a + b)[0] == a[0] && (a + b)[1..] == a[1..] + b;
      WithoutConcat(a[1..], b, key);
    }
  }

  // ----- Least valuable records ---------------------------------------------

  // The sort order `seeders,added`.
  predicate NotWorthMore(a: Row, b: Row) {
    a.seeders < b.seeders || (a.seeders == b.seeders && a.added <= b.added)
  }

  ghost predicate DistinctHashes(hashes: seq<string>) {
    forall i, j | 0 <= i < j < |hashes| :: hashes[i] != hashes[j]
  }

  // Up to limit keys: one that is listed has fewer seeders than one left out, or
  // as many and was added no later.
  ghost predicate LowestValue(table: map<string, Row>, hashes: seq<string>, limit: nat) {
    && |hashes| <= limit && DistinctHashes(hashes)
    && (forall h | h in hashes :: h in table)
    && (|hashes| < limit ==> forall key | key in table :: key in hashes)
    && (forall h, key | h in hashes && key in table && key !in hashes ::
          || table[h].seeders < table[key].seeders
          || (table[h].seeders == table[key].seeders && table[h].added <= table[key].added))
  }

  // ----- The index object ---------------------------------------------------

  class Index {
    const text: JsonText
    var entries: seq<Entry>

    ghost predicate Valid()
      reads this
    {
      WellFormed(entries)
    }

    ghost function Content(): map<string, Row>
      requires Valid()
      reads this
    {
      Table(entries)
    }

    constructor (text: JsonText)
      ensures Valid() && this.text == text && entries == []
    {
      this.text := text;
      entries := [];
    }

    // The position of a key, or |entries|.
    method Find(key: string) returns (i: nat)
      requires Valid()
      ensures i <= |entries|
      ensures i < |entries| ==> entries[i].key == key
      ensures i == |entries| ==> key !in Content()
      ensures i < |entries| ==> key in Content() && Content()[key] == entries[i].row
    {
      i := 0;
      while i < |entries| && entries[i].key != key
        invariant i <= |entries|
        invariant forall j | 0 <= j < i :: entries[j].key != key
      {
        i := i + 1;
      }
    }

    // Some positive id that no record has.
    method FreeId() returns (id: int)
      requires Valid()
      ensures id > 0 && forall e | e in entries :: e.id != id
    {
      id := if entries == [] then 1 else entries[|entries| - 1].id + 1;
      assert forall i | 0 <= i < |entries| - 1 :: entries[i].id < entries[|entries| - 1].id;
    }

    // The `load` command: rewrites some columns of the record under key, which
    // it creates if it has to.
    method Load(key: string, patch: Row -> Row)
      requires Valid() && IsLower(key)
      modifies this
      ensures Valid()
      ensures Content() == old(Content())[key := patch(RowAt(old(Content()), key))]
    {
      var i := Find(key);
      if i < |entries| {
        var e := entries[i].(row := patch(entries[i].row));
        TableUpdate(entries, i, e);
        entries := entries[i := e];
      } else {
        var id := FreeId();
        var p := 0;
        while p < |entries| && entries[p].id < id
          invariant p <= |entries|
          invariant forall j | 0 <= j < p :: entries[j].id < id
        {
          p := p + 1;
        }
        var e := Entry(id, key, patch(BLANK));
        TableInsert(entries, p, e);
        entries := Inserted(entries, p, e);
      }
    }

    method Upsert(t: Torrent) returns (ok: bool)
      requires Valid()
      modifies this
      ensures Valid()
      ensures ok == IsInfoHash(t.hash)
      ensures Content() == Apply(text, Op.Upsert(t), old(Content()))
    {
      ok := IsInfoHash(t.hash);
      if ok {
        ToLowerIsLower(t.hash);
        Load(ToLower(t.hash), row => WriteTorrent(text, t, row));
      }
    }

    method Remove(hash: string)
      requires Valid()
      modifies this
      ensures Valid()
      ensures entries == Without(old(entries), ToLower(hash))
      ensures Content() == Apply(text, Op.Remove(hash), old(Content()))
    {
      TableWithout(entries, ToLower(hash));
      entries := Without(entries, ToLower(hash));
    }

    method UpdateStats(hash: string, seeders: int, leechers: int, completed: int, nowSecs: int) returns (ok: bool)
      requires Valid()
      modifies this
      ensures Valid()
      ensures ok == (ToLower(hash) in old(Content()))
      ensures Content() == Apply(text, Op.UpdateStats(hash, seeders, leechers, completed, nowSecs), old(Content()))
    {
      ToLowerIsLower(hash);
      var i := Find(ToLower(hash));
      ok := i < |entries|;
      if ok {
        Load(ToLower(hash), row => WriteStats(row, seeders, leechers, completed, nowSecs));
      }
    }

    method UpdateVotes(hash: string, good: int, bad: int)
      requires Valid()
      modifies this
      ensures Valid()
      ensures Content() == Apply(text, Op.UpdateVotes(hash, good, bad), old(Content()))
    {
      ToLowerIsLower(hash);
      Load(ToLower(hash), row => WriteVotes(row, good, bad));
    }

    method MergeInfo(hash: string, info: Json) returns (ok: bool)
      requires Valid()
      modifies this
      ensures Valid()
      ensures ok == (ToLower(hash) in old(Content()))
      ensures Content() == Apply(text, Op.MergeInfo(hash, info), old(Content()))
    {
      hide WriteMerged, Table, Index.Valid;
      ToLowerIsLower(hash);
      var i := Find(ToLower(hash));
      ok := i < |entries|;
      if ok {
        Load(ToLower(hash), row => WriteMerged(text, row, info));
      }
    }

    method LowestValueHashes(limit: nat) returns (hashes: seq<string>)
      requires Valid()
      ensures LowestValue(Content(), hashes, limit)
    {
      hide Valid;
      hashes := [];
      while |hashes| < limit
        invariant |hashes| <= limit && DistinctHashes(hashes)
        invariant forall h | h in hashes :: h in Content()
        invariant forall h, key | h in hashes && key in Content() && key !in hashes ::
                    NotWorthMore(Content()[h], Content()[key])
      {
        var next := Cheapest(hashes);
        if next.None? {
          break;
        }
        hashes := hashes + [next.value];
      }
    }

    // A least valuable key that was not taken yet.
    method Cheapest(taken: seq<string>) returns (key: Option<string>)
      requires Valid()
      ensures key.None? ==> forall k | k in Content() :: k in taken
      ensures key.Some? ==> key.value in Content() && key.value !in taken
      ensures key.Some? ==> forall k | k in Content() && k !in taken :: NotWorthMore(Content()[key.value], Content()[k])
    {
      hide WellFormed, Table, DistinctKeys;
      KeysDistinct(entries);
      TableRows(entries);
      var best: Option<nat> := None;
      for i := 0 to |entries|
        invariant best.None? ==> forall j | 0 <= j < i :: entries[j].key in taken
        invariant best.Some? ==> best.value < |entries| && entries[best.value].key !in taken
        invariant best.Some? ==>
                    forall j | 0 <= j < i && entries[j].key !in taken ::
                      NotWorthMore(entries[best.value].row, entries[j].row)
      {
        if entries[i].key !in taken && (best.None? || !NotWorthMore(entries[best.value].row, entries[i].row)) {
          best := Some(i);
        }
      }
      if best.None? {
        return None;
      }
      assert entries[best.value] in entries;
      key := Some(entries[best.value].key);
    }

    // Up to limit records with an id above afterId, in ascending id order.
    method PageAfterId(afterId: int, limit: nat) returns (page: seq<IdTorrent>)
      ensures page == Views(text, Limit(After(entries, afterId), limit))
    {
      var rows := Limit(After(entries, afterId), limit);
      page := [];
      for i := 0 to |rows|
        invariant page == Views(text, rows[..i])
      {
        page := page + [IdTorrent(rows[i].id, View(text, rows[i]))];
      }
      assert rows[..|rows|] == rows;
    }
  }

  lemma ValidIndex(index: Index)
    requires index.Valid()
    ensures WellFormed(index.entries)
  {
  }

  lemma KeysDistinct(es: seq<Entry>)
    requires WellFormed(es)
    ensures DistinctKeys(es)
  {
    hide Proper, Ascending;
  }

  lemma TableUpdate(es: seq<Entry>, i: nat, e: Entry)
    requires WellFormed(es) && i < |es| && e.id == es[i].id && e.key == es[i].key
    ensures WellFormed(es[i := e]) && Table(es[i := e]) == Table(es)[e.key := e.row]
  {
    var after := es[i := e];
    assert after[i] == e;
    forall k | 0 <= k < |es| ensures after[k].id == es[k].id && after[k].key == es[k].key {}
    forall k | 0 <= k < |es| && k != i ensures es[k] in after && after[k] in es && es[k].key != e.key {
      assert after[k] == es[k];
    }
  }

  lemma TableWithout(es: seq<Entry>, key: string)
    requires WellFormed(es)
    ensures WellFormed(Without(es, key))
    ensures Table(Without(es, key)) == Table(es) - {key}
  {
    hide Without, WellFormed, DistinctKeys;
    WithoutMembers(es, key);
    WithoutWellFormed(es, key);
    KeysDistinct(es);
    KeysDistinct(Without(es, key));
    var after := Without(es, key);
    var before, rest := Table(es), Table(after);
    forall k ensures k in rest <==> k in before && k != key {
      if k in before && k != key {
        var e :| e in es && e.key == k;
        assert e in after;
      }
    }
    forall k | k in rest ensures rest[k] == before[k] {
      var e :| e in after && e.key == k;
      assert e in es;
    }
    assert rest == before - {key};
  }

  // es with e put in at position p.
  function Inserted(es: seq<Entry>, p: nat, e: Entry): (r: seq<Entry>)
    requires p <= |es|
    ensures |r| == |es| + 1
    ensures forall k | 0 <= k <= |es| :: r[k] == if k < p then es[k] else if k == p then e else es[k - 1]
  {
    es[..p] + [e] + es[p..]
  }

  lemma InsertAscending(es: seq<Entry>, p: nat, e: Entry)
    requires p <= |es| && Ascending(es)
    requires forall j | 0 <= j < p :: es[j].id < e.id
    requires p < |es| ==> e.id < es[p].id
    ensures Ascending(Inserted(es, p, e))
  {
    assert forall j | p <= j < |es| :: e.id < es[j].id;
  }

  lemma InsertProper(es: seq<Entry>, p: nat, e: Entry)
    requires p <= |es| && Proper(es) && e.id > 0 && IsLower(e.key)
    ensures Proper(Inserted(es, p, e))
  {
    hide IsLower;
  }

  lemma InsertDistinct(es: seq<Entry>, p: nat, e: Entry)
    requires p <= |es| && DistinctKeys(es)
    requires forall k | 0 <= k < |es| :: es[k].key != e.key
    ensures DistinctKeys(Inserted(es, p, e))
    ensures Table(Inserted(es, p, e)) == Table(es)[e.key := e.row]
  {
    InsertedMembers(es, p, e);
    hide Inserted;
    var after := Inserted(es, p, e);
    assert DistinctKeys(after);
    hide DistinctKeys;
  }

  lemma InsertedMembers(es: seq<Entry>, p: nat, e: Entry)
    requires p <= |es|
    ensures forall x :: x in Inserted(es, p, e) <==> x == e || x in es
  {
    assert es == es[..p] + es[p..];
  }

  lemma TableInsert(es: seq<Entry>, p: nat, e: Entry)
    requires WellFormed(es) && p <= |es| && e.id > 0 && IsLower(e.key) && e.key !in Table(es)
    requires forall x | x in es :: x.id != e.id
    requires forall j | 0 <= j < p :: es[j].id < e.id
    requires p < |es| ==> e.id <= es[p].id
    ensures WellFormed(Inserted(es, p, e))
    ensures Table(Inserted(es, p, e)) == Table(es)[e.key := e.row]
  {
    hide Inserted, Proper, Ascending, IsLower;
    forall k | 0 <= k < |es| ensures es[k].key != e.key && es[k].id != e.id {
      assert es[k] in es && es[k].key in Table(es);
    }
    hide DistinctKeys;
    InsertAscending(es, p, e);
    InsertProper(es, p, e);
    InsertDistinct(es, p, e);
  }
}
