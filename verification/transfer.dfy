// `ratsn export` and `ratsn import`: the index as JSON Lines.
module Transfer {
  import opened Json
  import opened Text
  import opened Torrents
  import opened TorrentCodec
  import opened FilterPolicy
  import opened IndexRow
  import opened GroongaIndex
  import opened Sums
  import opened Sweep
  import opened Cleanup

  // ----- Export -------------------------------------------------------------

  function ExportLine(text: JsonText, e: Entry, includeFiles: bool): string {
    text.dump(ToJson(View(text, e), includeFiles))
  }

  function ExportLines(text: JsonText, es: seq<Entry>, includeFiles: bool): (lines: seq<string>)
    ensures |lines| == |es|
    ensures forall i | 0 <= i < |es| :: lines[i] == ExportLine(text, es[i], includeFiles)
  {
    seq(|es|, i requires 0 <= i < |es| => ExportLine(text, es[i], includeFiles))
  }

  // What export has written after k records.
  ghost function Written(text: JsonText, es: seq<Entry>, k: nat, includeFiles: bool): string
    requires k <= |es|
  {
    Unlines(ExportLines(text, es[..k], includeFiles))
  }

  lemma WrittenOneMore(text: JsonText, es: seq<Entry>, k: nat, includeFiles: bool)
    requires k < |es|
    ensures Written(text, es, k + 1, includeFiles)
            == Written(text, es, k, includeFiles) + text.dump(ToJson(View(text, es[k]), includeFiles)) + "\n"
  {
    hide Unlines, ToJson, View;
    assert ExportLines(text, es[..k + 1], includeFiles)
        == ExportLines(text, es[..k], includeFiles) + [ExportLine(text, es[k], includeFiles)];
    UnlinesSnoc(ExportLines(text, es[..k], includeFiles), ExportLine(text, es[k], includeFiles));
  }

  lemma WrittenEnds(text: JsonText, es: seq<Entry>, includeFiles: bool)
    ensures Cursor(es, 0) == 0 && Written(text, es, 0, includeFiles) == ""
    ensures Written(text, es, |es|, includeFiles) == Unlines(ExportLines(text, es, includeFiles))
  {
    assert es[..|es|] == es;
  }

  // A page read while nothing is deleted.
  lemma ExportPage(text: JsonText, es: seq<Entry>, k: nat, limit: nat, page: seq<IdTorrent>)
    requires WellFormed(es) && k <= |es| && limit > 0
    requires page == Views(text, Limit(After(es, Cursor(es, k)), limit))
    ensures k + |page| <= |es| && PageAt(text, es, k, page)
    ensures page == [] ==> k == |es|
    ensures page != [] ==> page[|page| - 1].id == Cursor(es, k + |page|)
  {
    hide WellFormed, After, Views, Limit, PageAt;
    NextPageAt(text, t => "", es, k, true, limit, page);
  }

  // `ratsn export [--no-files]`; the program uses pages of 1000.
  method CmdExport(index: Index, noFiles: bool, batchSize: nat) returns (out: string, total: nat)
    requires index.Valid() && batchSize > 0
    ensures out == Unlines(ExportLines(index.text, index.entries, !noFiles))
    ensures total == |index.entries|
  {
    hide *;
    ghost var es := index.entries;
    ValidIndex(index);
    WrittenEnds(index.text, es, !noFiles);
    var afterId := 0;
    out, total := "", 0;
    while true
      invariant total <= |es| && afterId == Cursor(es, total)
      invariant out == Written(index.text, es, total, !noFiles)
      decreases |es| - total
    {
      var batch := index.PageAfterId(afterId, batchSize);
      ExportPage(index.text, es, total, batchSize, batch);
      if batch == [] {
        break;
      }
      afterId := batch[|batch| - 1].id;
      ghost var start := total;
      for i := 0 to |batch|
        invariant total == start + i
        invariant out == Written(index.text, es, total, !noFiles)
      {
        PageRow(index.text, t => "", es, start, batch, i);
        WrittenOneMore(index.text, es, total, !noFiles);
        out := out + index.text.dump(ToJson(batch[i].torrent, !noFiles)) + "\n";
        total := total + 1;
      }
    }
  }

  // ----- Import -------------------------------------------------------------

  // The index and the counters of a running import.
  datatype Progress = Progress(
    table: map<string, Row>,
    imported: nat,
    malformed: nat,
    rejects: map<string, nat>)

  function Bump(counts: map<string, nat>, key: string): map<string, nat> {
    counts[key := (if key in counts then counts[key] else 0) + 1]
  }

  datatype Fate = Blank | Malformed | Rejected(category: string) | Imported(t: Torrent)

  // What import does with one line. reasons is None under --no-filter.
  function FateOf(text: JsonText, reasons: Option<Reasons>, line: string, now: int): Fate {
    if line == "" then Blank else
    match text.parse(line)
    case Some(Obj(members)) =>
      var t := FromJson(Obj(members), now);
      if |t.hash| != 40 then Malformed
      else if reasons.Some? && reasons.value(t) != "" then Rejected(ReasonCategory(reasons.value(t)))
      else if IsInfoHash(t.hash) then Imported(t)
      else Malformed
    case _ => Malformed
  }

  predicate Admits(reasons: Option<Reasons>, t: Torrent) {
    reasons.None? || reasons.value(t) == ""
  }

  // A line is imported exactly when it holds an object whose torrent has a 40-digit
  // hexadecimal hash and is admitted; it is counted as rejected only if the hash
  // at least has that length.
  lemma FateMeans(text: JsonText, reasons: Option<Reasons>, line: string, now: int)
    ensures var fate, parsed := FateOf(text, reasons, line, now), text.parse(line);
            var isRecord := line != "" && parsed.Some? && parsed.value.Obj?;
            && (fate.Blank? <==> line == "")
            && (fate.Imported?
                <==> isRecord && IsInfoHash(FromJson(parsed.value, now).hash)
                     && Admits(reasons, FromJson(parsed.value, now)))
            && (fate.Imported? ==> fate.t == FromJson(parsed.value, now))
            && (fate.Rejected?
                <==> isRecord && |FromJson(parsed.value, now).hash| == 40
                     && !Admits(reasons, FromJson(parsed.value, now)))
            && (fate.Rejected? ==> fate.category == ReasonCategory(reasons.value(FromJson(parsed.value, now))))
  {
    hide FromJson, ReasonCategory;
  }

  ghost function Account(text: JsonText, before: Progress, fate: Fate): Progress {
    match fate
    case Blank => before
    case Malformed => before.(malformed := before.malformed + 1)
    case Rejected(category) => before.(rejects := Bump(before.rejects, category))
    case Imported(t) => before.(imported := before.imported + 1, table := Apply(text, Op.Upsert(t), before.table))
  }

  // The state after all lines; clock(n) is the time at which line n is read.
  ghost function ImportLines(text: JsonText, reasons: Option<Reasons>, clock: nat -> int,
                             table: map<string, Row>, lines: seq<string>): Progress
  {
    if lines == [] then Progress(table, 0, 0, map[])
    else
      var n := |lines| - 1;
      Account(text, ImportLines(text, reasons, clock, table, lines[..n]), FateOf(text, reasons, lines[n], clock(n + 1)))
  }

  lemma SumOfBump(counts: map<string, nat>, key: string)
    ensures SumOf(Bump(counts, key)) == SumOf(counts) + 1
  {
    SumOfPicks(Bump(counts, key), key);
    if key in counts {
      SumOfPicks(counts, key);
      assert Bump(counts, key) - {key} == counts - {key};
    } else {
      assert Bump(counts, key) - {key} == counts;
    }
  }

  function NonEmptyLines(lines: seq<string>): nat {
    if lines == [] then 0
    else NonEmptyLines(lines[..|lines| - 1]) + (if lines[|lines| - 1] == "" then 0 else 1)
  }

  // Every non-empty line is counted once: imported, malformed, or in one bucket.
  lemma {:induction false} ImportConservesLines(text: JsonText, reasons: Option<Reasons>, clock: nat -> int,
                                                table: map<string, Row>, lines: seq<string>)
    ensures var end := ImportLines(text, reasons, clock, table, lines);
            end.imported + end.malformed + SumOf(end.rejects) == NonEmptyLines(lines)
  {
    if lines != [] {
      var n := |lines| - 1;
      ImportConservesLines(text, reasons, clock, table, lines[..n]);
      var before := ImportLines(text, reasons, clock, table, lines[..n]);
      var fate := FateOf(text, reasons, lines[n], clock(n + 1));
      BlankLine(text, reasons, lines[n], clock(n + 1));
      hide FateOf, Apply;
      if fate.Rejected? { SumOfBump(before.rejects, fate.category); }
    }
  }

  // What becomes of each line.
  ghost function Fates(text: JsonText, reasons: Option<Reasons>, clock: nat -> int, lines: seq<string>): (r: seq<Fate>)
    ensures |r| == |lines|
    ensures forall i | 0 <= i < |lines| :: r[i] == FateOf(text, reasons, lines[i], clock(i + 1))
  {
    seq(|lines|, i requires 0 <= i < |lines| => FateOf(text, reasons, lines[i], clock(i + 1)))
  }

  ghost function CountOf(fates: seq<Fate>, wanted: Fate -> bool): nat {
    |set i | 0 <= i < |fates| && wanted(fates[i])|
  }

  lemma CountOfSnoc(fates: seq<Fate>, fate: Fate, wanted: Fate -> bool)
    ensures CountOf(fates + [fate], wanted) == CountOf(fates, wanted) + if wanted(fate) then 1 else 0
  {
    var more := fates + [fate];
    var before := set i | 0 <= i < |fates| && wanted(fates[i]);
    var after := set i | 0 <= i < |more| && wanted(more[i]);
    assert after == before + if wanted(fate) then {|fates|} else {};
  }

  // The counters count the lines that came to each end, and a bucket stands for
  // every category that some line was rejected under.
  lemma {:induction false} ImportTallies(text: JsonText, reasons: Option<Reasons>, clock: nat -> int,
                                         table: map<string, Row>, lines: seq<string>, category: string)
    ensures var end, fates := ImportLines(text, reasons, clock, table, lines), Fates(text, reasons, clock, lines);
            && end.imported == CountOf(fates, (f: Fate) => f.Imported?)
            && end.malformed == CountOf(fates, (f: Fate) => f == Malformed)
            && (category in end.rejects <==> Rejected(category) in fates)
            && (category in end.rejects ==>
                  end.rejects[category] == CountOf(fates, (f: Fate) => f == Rejected(category)))
  {
    hide FateOf, Apply, CountOf;
    if lines == [] {
      NothingCounted();
      assert Fates(text, reasons, clock, lines) == [];
    } else {
      var n := |lines| - 1;
      var fates, fate := Fates(text, reasons, clock, lines[..n]), FateOf(text, reasons, lines[n], clock(n + 1));
      ImportTallies(text, reasons, clock, table, lines[..n], category);
      assert Fates(text, reasons, clock, lines) == fates + [fate];
      CountOfSnoc(fates, fate, (f: Fate) => f.Imported?);
      CountOfSnoc(fates, fate, (f: Fate) => f == Malformed);
      CountOfSnoc(fates, fate, (f: Fate) => f == Rejected(category));
      CountsOfCategory(fates, category);
    }
  }

  lemma NothingCounted()
    ensures forall wanted: Fate -> bool :: CountOf([], wanted) == 0
  {
  }

  lemma CountsOfCategory(fates: seq<Fate>, category: string)
    ensures Rejected(category) !in fates ==> CountOf(fates, (f: Fate) => f == Rejected(category)) == 0
  {
    if Rejected(category) !in fates {
      assert (set i | 0 <= i < |fates| && fates[i] == Rejected(category)) == {};
      assert (set i | 0 <= i < |fates| && ((f: Fate) => f == Rejected(category))(fates[i])) == {};
    }
  }

  lemma BlankLine(text: JsonText, reasons: Option<Reasons>, line: string, now: int)
    ensures FateOf(text, reasons, line, now) == Blank <==> line == ""
  {
    hide FromJson, ReasonCategory;
  }

  datatype ImportReport = ImportReport(imported: nat, rejected: nat, malformed: nat, rejects: map<string, nat>)

  // `ratsn import [--no-filter]`. Unlike cleanup it does not check that the
  // naming pattern compiles: one that does not filters nothing.
  method CmdImport(index: Index, settings: FilterSettings, pcre: Pcre, noFilter: bool, input: string, clock: nat -> int)
    returns (report: ImportReport)
    requires index.Valid()
    modifies index
    ensures index.Valid()
    ensures var reasons := if noFilter then None else Some(ReasonsOf(settings, pcre));
            var end := ImportLines(index.text, reasons, clock, old(index.Content()), Lines(input));
            && index.Content() == end.table
            && report == ImportReport(end.imported, SumOf(end.rejects), end.malformed, end.rejects)
  {
    var reasons := if noFilter then None else Some(ReasonsOf(settings, pcre));
    hide *;
    var imported, malformed, rejectReasons := ReadLines(index, reasons, input, clock);
    var rejected := SumCounts(rejectReasons);
    report := ImportReport(imported, rejected, malformed, rejectReasons);
  }

  method SumCounts(counts: map<string, nat>) returns (sum: nat)
    ensures sum == SumOf(counts)
  {
    sum := 0;
    var left := counts.Keys;
    assert counts - (counts.Keys - left) == counts;
    while left != {}
      invariant left <= counts.Keys
      invariant sum + SumOf(counts - (counts.Keys - left)) == SumOf(counts)
    {
      var key :| key in left;
      ghost var rest := counts - (counts.Keys - left);
      SumOfPicks(rest, key);
      sum := sum + counts[key];
      left := left - {key};
      assert counts - (counts.Keys - left) == rest - {key};
    }
    assert counts - (counts.Keys - left) == map[];
  }

  // The state of an import that has read k lines.
  ghost function AfterLines(text: JsonText, reasons: Option<Reasons>, clock: nat -> int,
                            table: map<string, Row>, lines: seq<string>, k: nat): Progress
    requires k <= |lines|
  {
    ImportLines(text, reasons, clock, table, lines[..k])
  }

  lemma OneMoreLine(text: JsonText, reasons: Option<Reasons>, clock: nat -> int,
                    table: map<string, Row>, lines: seq<string>, k: nat)
    requires k < |lines|
    ensures AfterLines(text, reasons, clock, table, lines, k + 1)
            == Account(text, AfterLines(text, reasons, clock, table, lines, k),
                       FateOf(text, reasons, lines[k], clock(k + 1)))
  {
    hide Account, FateOf;
    assert lines[..k + 1][..k] == lines[..k];
  }

  lemma AllLines(text: JsonText, reasons: Option<Reasons>, clock: nat -> int, table: map<string, Row>,
                 lines: seq<string>)
    ensures AfterLines(text, reasons, clock, table, lines, 0) == Progress(table, 0, 0, map[])
    ensures AfterLines(text, reasons, clock, table, lines, |lines|) == ImportLines(text, reasons, clock, table, lines)
  {
    assert lines[..|lines|] == lines;
  }

  // The stream holds the lines from the k-th on.
  ghost predicate Unread(lines: seq<string>, k: nat, stream: string) {
    k <= |lines| && Lines(stream) == lines[k..]
  }

  lemma NextUnread(lines: seq<string>, k: nat, stream: string, line: string, rest: string)
    requires Unread(lines, k, stream) && Lines(stream) == [line] + Lines(rest)
    ensures k < |lines| && lines[k] == line && Unread(lines, k + 1, rest)
  {
    hide Lines;
    assert lines[k..] == [line] + Lines(rest);
    assert lines[k + 1..] == lines[k..][1..];
  }

  lemma UnreadEnds(input: string)
    ensures Unread(Lines(input), 0, input)
    ensures forall k: nat | Unread(Lines(input), k, "") :: k == |Lines(input)|
  {
    assert Lines(input)[0..] == Lines(input);
    assert Lines("") == [];
    hide Lines;
  }

  // The reading loop of import.
  method ReadLines(index: Index, reasons: Option<Reasons>, input: string, clock: nat -> int)
    returns (imported: nat, malformed: nat, rejectReasons: map<string, nat>)
    requires index.Valid()
    modifies index
    ensures index.Valid()
    ensures Progress(index.Content(), imported, malformed, rejectReasons)
            == ImportLines(index.text, reasons, clock, old(index.Content()), Lines(input))
  {
    hide FateOf, Apply, Index.Valid, Index.Content, ImportLines, AfterLines, Lines, Unread;
    ghost var table, lines := index.Content(), Lines(input);
    AllLines(index.text, reasons, clock, table, lines);
    UnreadEnds(input);
    imported, malformed, rejectReasons := 0, 0, map[];
    var stream, lineNo := input, 0;
    while stream != ""
      invariant index.Valid() && lineNo <= |lines| && Unread(lines, lineNo, stream)
      invariant Progress(index.Content(), imported, malformed, rejectReasons)
             == AfterLines(index.text, reasons, clock, table, lines, lineNo)
      decreases |stream|
    {
      var line, rest := GetLine(stream);
      NextUnread(lines, lineNo, stream, line, rest);
      OneMoreLine(index.text, reasons, clock, table, lines, lineNo);
      stream, lineNo := rest, lineNo + 1;
      var fate := ImportLine(index, reasons, line, clock(lineNo));
      match fate {
        case Blank =>
        case Malformed => malformed := malformed + 1;
        case Rejected(category) => rejectReasons := Bump(rejectReasons, category);
        case Imported(_) => imported := imported + 1;
      }
    }
  }

  // The body of the reading loop, up to its counters.
  method ImportLine(index: Index, reasons: Option<Reasons>, line: string, now: int) returns (fate: Fate)
    requires index.Valid()
    modifies index
    ensures index.Valid()
    ensures fate == FateOf(index.text, reasons, line, now)
    ensures index.Content()
            == if fate.Imported? then Apply(index.text, Op.Upsert(fate.t), old(index.Content()))
               else old(index.Content())
  {
    hide Index.Valid, Index.Content, FromJson, ReasonCategory;
    if line == "" {
      return Blank;
    }
    var parsed := index.text.parse(line);
    if parsed.None? || !parsed.value.Obj? {
      return Malformed;
    }
    var t := FromJson(parsed.value, now);
    if |t.hash| != 40 {
      return Malformed;
    }
    if reasons.Some? {
      var reason := reasons.value(t);
      if reason != "" {
        return Rejected(ReasonCategory(reason));
      }
    }
    var ok := index.Upsert(t);
    fate := if ok then Imported(t) else Malformed;
  }

  // std::getline on a stream that still holds characters.
  method GetLine(stream: string) returns (line: string, rest: string)
    requires stream != ""
    ensures Lines(stream) == [line] + Lines(rest)
    ensures |rest| < |stream|
  {
    hide *;
    var i := 0;
    while i < |stream| && stream[i] != '\n'
      invariant i <= |stream|
      invariant forall j | 0 <= j < i :: stream[j] != '\n'
    {
      i := i + 1;
    }
    FirstIndexAt(stream, '\n', i);
    CutLine(stream, i);
    line := stream[..i];
    rest := if i < |stream| then stream[i + 1..] else "";
  }

  lemma CutLine(stream: string, i: nat)
    requires stream != "" && i == FirstIndex(stream, {'\n'})
    ensures Lines(stream) == [stream[..i]] + Lines(if i < |stream| then stream[i + 1..] else "")
  {
    hide FirstIndex;
    assert stream[..|stream|] == stream;
  }
}
