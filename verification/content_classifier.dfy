// torrentTypeDetect and the sub-category scan: the legacy content classifier.
module ContentClassifier {
  import opened Json
  import opened Text
  import opened ContentWords
  import opened ContentVote
  import opened ContentShares

  // ----- The outcome, stated without loops ----------------------------------

  ghost function Voted(lex: Lexicon, files: seq<FileEntry>, before: Option<string>): Option<string> {
    if w :| IsWinner(lex, files, w) then Some(w) else before
  }

  // The texts whose words are scanned: the name, then the stem of each file.
  function Document(lex: Lexicon, name: string, files: seq<FileEntry>, d: nat): string
    requires d <= |files|
  {
    if d == 0 then lex.lower(name) else Stem(lex.lower(files[d - 1].path))
  }

  ghost predicate VeryBadAt(lex: Lexicon, text: string, i: nat, j: nat) {
    IsWord(text, i, j) && text[i..j] in lex.veryBadWords
  }

  ghost predicate BlockAt(lex: Lexicon, text: string, i: nat, j: nat) {
    IsWord(text, i, j) && text[i..j] in lex.blockWords
  }

  // A very bad word occurs in the name or in one of the first n files.
  ghost predicate SaysVeryBad(lex: Lexicon, name: string, files: seq<FileEntry>, n: nat)
    requires n <= |files|
  {
    exists d: nat, i: nat, j: nat :: d <= n && VeryBadAt(lex, Document(lex, name, files, d), i, j)
  }

  // The word at i of text d comes before every very bad word.
  ghost predicate BeforeVeryBad(lex: Lexicon, name: string, files: seq<FileEntry>, n: nat, d: nat, i: nat)
    requires n <= |files|
  {
    forall e: nat, k: nat, l: nat | e <= n && VeryBadAt(lex, Document(lex, name, files, e), k, l) ::
      d < e || (d == e && i < k)
  }

  // A block word occurs there before every very bad word.
  ghost predicate SaysBlockFirst(lex: Lexicon, name: string, files: seq<FileEntry>, n: nat)
    requires n <= |files|
  {
    exists d: nat, i: nat, j: nat ::
      d <= n && BlockAt(lex, Document(lex, name, files, d), i, j) && BeforeVeryBad(lex, name, files, n, d, i)
  }

  // The types whose names are scanned.
  predicate Scanned(t: Option<string>) {
    t.Some? && t.value in {"video", "pictures", "archive"}
  }

  ghost function FinalType(lex: Lexicon, name: string, files: seq<FileEntry>, before: Option<string>): Option<string> {
    var voted := Voted(lex, files, before);
    if Scanned(voted) && SaysVeryBad(lex, name, files, |files|) then Some("bad") else voted
  }

  ghost function FinalCategory(lex: Lexicon, name: string, files: seq<FileEntry>, before: Option<string>,
                               category: Option<string>): Option<string>
  {
    if Scanned(Voted(lex, files, before)) && SaysBlockFirst(lex, name, files, |files|) then Some("xxx") else category
  }

  // Whoever wins the vote is the type, unless it is one of the scanned types and
  // a very bad word occurs; without a winner the same holds of the earlier type.
  lemma OutcomeMeans(lex: Lexicon, name: string, files: seq<FileEntry>, before: Option<string>,
                     category: Option<string>, voted: Option<string>)
    requires if voted.Some? && IsWinner(lex, files, voted.value) then true
             else voted == before && forall w :: !IsWinner(lex, files, w)
    ensures var scanned := voted == Some("video") || voted == Some("pictures") || voted == Some("archive");
            && FinalType(lex, name, files, before)
               == (if scanned && SaysVeryBad(lex, name, files, |files|) then Some("bad") else voted)
            && FinalCategory(lex, name, files, before, category)
               == (if scanned && SaysBlockFirst(lex, name, files, |files|) then Some("xxx") else category)
  {
    hide SaysVeryBad, SaysBlockFirst, IsWinner;
    if voted.Some? && IsWinner(lex, files, voted.value) { VotedIs(lex, files, voted.value, before); }
  }

  // Classifying a classified torrent again changes nothing.
  lemma ClassifyTwice(lex: Lexicon, name: string, files: seq<FileEntry>, before: Option<string>,
                      category: Option<string>)
    ensures var t, c := FinalType(lex, name, files, before), FinalCategory(lex, name, files, before, category);
            && FinalType(lex, name, files, t) == t
            && FinalCategory(lex, name, files, t, c) == c
  {
    hide SaysVeryBad, SaysBlockFirst, IsWinner;
    if w :| IsWinner(lex, files, w) {
      VotedIs(lex, files, w, before);
      VotedIs(lex, files, w, FinalType(lex, name, files, before));
    }
  }

  lemma VotedIs(lex: Lexicon, files: seq<FileEntry>, w: string, before: Option<string>)
    requires IsWinner(lex, files, w)
    ensures Voted(lex, files, before) == Some(w)
  {
    var v :| IsWinner(lex, files, v) && Voted(lex, files, before) == Some(v);
    OneWinner(lex, files, w, v);
  }

  // ----- Counting the votes -------------------------------------------------

  // The state of the vote after n files: totals holds each recognised type's
  // part of the torrent size, keys lists the types by first file.
  ghost predicate Tallied(lex: Lexicon, files: seq<FileEntry>, n: nat, size: real, keys: seq<string>,
                          totals: map<string, real>)
    requires n <= |files| && size > 0.0
  {
    && TotalsRight(lex, files, n, size, totals) && KeysByFirstFile(lex, files, n, keys)
    && forall k :: k in totals <==> k in keys
  }

  ghost predicate TotalsRight(lex: Lexicon, files: seq<FileEntry>, n: nat, size: real, totals: map<string, real>)
    requires n <= |files| && size > 0.0
  {
    forall k | k in totals :: totals[k] == BytesUpTo(lex, files, n, k) / size
  }

  ghost predicate KeysByFirstFile(lex: Lexicon, files: seq<FileEntry>, n: nat, keys: seq<string>)
    requires n <= |files|
  {
    && (forall k :: k in keys <==> SeenBy(lex, files, n, k))
    && (forall a, b | 0 <= a < b < |keys| :: FirstFile(lex, files, keys[a]) < FirstFile(lex, files, keys[b]))
    && (forall k | k in keys :: FirstFile(lex, files, k) < n)
  }

  ghost predicate SeenBy(lex: Lexicon, files: seq<FileEntry>, n: nat, t: string)
    requires n <= |files|
  {
    exists j | 0 <= j < n :: TypeOf(lex, files[j]) == Some(t)
  }

  lemma {:induction false} UnseenHasNoBytes(lex: Lexicon, files: seq<FileEntry>, n: nat, t: string)
    requires n <= |files| && !SeenBy(lex, files, n, t)
    ensures BytesUpTo(lex, files, n, t) == 0.0
  {
    hide TypeOf;
    if n > 0 { UnseenHasNoBytes(lex, files, n - 1, t); }
  }

  lemma DivisionAdds(x: real, y: real, s: real)
    requires s > 0.0
    ensures (x + y) / s == x / s + y / s
  {
  }

  lemma DivisionOrders(x: real, y: real, s: real)
    requires s > 0.0
    ensures x / s <= y / s <==> x <= y
  {
    assert x == x / s * s && y == y / s * s;
  }

  lemma SeenNext(lex: Lexicon, files: seq<FileEntry>, n: nat)
    requires n < |files|
    ensures forall t :: SeenBy(lex, files, n + 1, t) <==> SeenBy(lex, files, n, t) || TypeOf(lex, files[n]) == Some(t)
  {
    hide TypeOf;
  }

  lemma TallySkips(lex: Lexicon, files: seq<FileEntry>, n: nat, size: real, keys: seq<string>,
                   totals: map<string, real>)
    requires n < |files| && size > 0.0 && TypeOf(lex, files[n]).None?
    requires Tallied(lex, files, n, size, keys, totals)
    ensures Tallied(lex, files, n + 1, size, keys, totals)
  {
    hide TypeOf, SeenBy, FirstFile;
    SeenNext(lex, files, n);
  }

  // The statements of one iteration for a recognised file.
  lemma TallyCounts(lex: Lexicon, files: seq<FileEntry>, n: nat, size: real, keys: seq<string>,
                    totals: map<string, real>, t: string)
    requires n < |files| && size > 0.0 && TypeOf(lex, files[n]) == Some(t)
    requires Tallied(lex, files, n, size, keys, totals)
    ensures var keys' := if t in totals then keys else keys + [t];
            Tallied(lex, files, n + 1, size, keys', totals[t := At(totals, t) + files[n].size / size])
  {
    hide TypeOf, SeenBy, FirstFile, BytesUpTo, KeysByFirstFile, TotalsRight;
    KeyCounts(lex, files, n, keys, t);
    TotalCounts(lex, files, n, size, totals, t) by {
      assert SeenBy(lex, files, n, t) <==> t in totals by { SeenAreKeys(lex, files, n, keys); }
    }
  }

  lemma SeenAreKeys(lex: Lexicon, files: seq<FileEntry>, n: nat, keys: seq<string>)
    requires n <= |files| && KeysByFirstFile(lex, files, n, keys)
    ensures forall k :: k in keys <==> SeenBy(lex, files, n, k)
  {
    hide SeenBy, FirstFile;
  }

  lemma TotalCounts(lex: Lexicon, files: seq<FileEntry>, n: nat, size: real, totals: map<string, real>, t: string)
    requires n < |files| && size > 0.0 && TypeOf(lex, files[n]) == Some(t)
    requires TotalsRight(lex, files, n, size, totals) && (SeenBy(lex, files, n, t) <==> t in totals)
    ensures TotalsRight(lex, files, n + 1, size, totals[t := At(totals, t) + files[n].size / size])
  {
    hide TypeOf, SeenBy;
    DivisionAdds(BytesUpTo(lex, files, n, t), files[n].size, size);
    if t !in totals {
      UnseenHasNoBytes(lex, files, n, t);
    }
  }

  lemma KeyCounts(lex: Lexicon, files: seq<FileEntry>, n: nat, keys: seq<string>, t: string)
    requires n < |files| && TypeOf(lex, files[n]) == Some(t) && KeysByFirstFile(lex, files, n, keys)
    ensures KeysByFirstFile(lex, files, n + 1, if t in keys then keys else keys + [t])
  {
    hide TypeOf, SeenBy, FirstFile;
    SeenNext(lex, files, n);
    if t !in keys {
      UnseenIsFirst(lex, files, n, t);
    }
  }

  lemma UnseenIsFirst(lex: Lexicon, files: seq<FileEntry>, n: nat, t: string)
    requires n < |files| && TypeOf(lex, files[n]) == Some(t) && !SeenBy(lex, files, n, t)
    ensures FirstFile(lex, files, t) == n
  {
    hide TypeOf, FirstFile;
    FirstFileIs(lex, files, t, n);
  }

  // The first key of the sorted vote is the winner; dividing by the torrent size
  // plays no part in it.
  lemma SortedHeadWins(lex: Lexicon, files: seq<FileEntry>, size: real, keys: seq<string>, totals: map<string, real>)
    requires size > 0.0 && keys != [] && Tallied(lex, files, |files|, size, keys, totals)
    ensures SortDescending(keys, totals) != [] && IsWinner(lex, files, SortDescending(keys, totals)[0])
  {
    hide TypeOf, FirstFile, SortDescending, BytesUpTo, SeenBy;
    var p := SortedHead(keys, totals);
    var w := keys[p];
    RecognizedIsSeen(lex, files);
    forall v | Recognized(lex, files, v) ensures Beats(lex, files, w, v) {
      var q :| 0 <= q < |keys| && keys[q] == v;
      DivisionOrders(BytesOf(lex, files, v), BytesOf(lex, files, w), size);
      DivisionOrders(BytesOf(lex, files, w), BytesOf(lex, files, v), size);
    }
    assert Recognized(lex, files, w);
  }

  lemma RecognizedIsSeen(lex: Lexicon, files: seq<FileEntry>)
    ensures forall t :: Recognized(lex, files, t) <==> SeenBy(lex, files, |files|, t)
  {
    hide TypeOf;
    forall t ensures Recognized(lex, files, t) <==> SeenBy(lex, files, |files|, t) {
      if Recognized(lex, files, t) {
        var f :| f in files && TypeOf(lex, f) == Some(t);
        var j :| 0 <= j < |files| && files[j] == f;
      }
    }
  }

  // ----- The scan, file by file ---------------------------------------------

  function FileWords(lex: Lexicon, f: FileEntry): seq<string> {
    Words(Stem(lex.lower(f.path)))
  }

  // The words of the name followed by those of the first n files.
  function WordsUpTo(lex: Lexicon, name: string, files: seq<FileEntry>, n: nat): seq<string>
    requires n <= |files|
  {
    if n == 0 then Words(lex.lower(name)) else WordsUpTo(lex, name, files, n - 1) + FileWords(lex, files[n - 1])
  }

  lemma {:induction false} ScanStopsAt(lex: Lexicon, name: string, files: seq<FileEntry>, n: nat, m: nat)
    requires n <= m <= |files| && HasVeryBad(lex, WordsUpTo(lex, name, files, n))
    ensures HasVeryBad(lex, WordsUpTo(lex, name, files, m))
    ensures HasBlock(lex, WordsUpTo(lex, name, files, m)) <==> HasBlock(lex, WordsUpTo(lex, name, files, n))
  {
    hide HasVeryBad, HasBlock, FileWords;
    if n < m {
      ScanStopsAt(lex, name, files, n, m - 1);
      ScanConcat(lex, WordsUpTo(lex, name, files, m - 1), FileWords(lex, files[m - 1]));
    }
  }

  // What the scan of one text finds.
  lemma WordsSay(lex: Lexicon, text: string)
    ensures HasVeryBad(lex, Words(text)) <==> exists i: nat, j: nat :: VeryBadAt(lex, text, i, j)
    ensures HasBlock(lex, Words(text))
            <==> exists i: nat, j: nat :: BlockAt(lex, text, i, j) && FirstIn(lex, text, i)
  {
    hide Words, IsWord, HasVeryBad;
    WordsSayVeryBad(lex, text);
    if p :| 0 <= p < |Words(text)| && BlocksAt(lex, Words(text), p) { BlockWordSays(lex, text, p); }
    if i: nat, j: nat :| BlockAt(lex, text, i, j) && FirstIn(lex, text, i) { BlockWordIsSaid(lex, text, i, j); }
  }

  lemma WordsSayVeryBad(lex: Lexicon, text: string)
    ensures HasVeryBad(lex, Words(text)) <==> exists i: nat, j: nat :: VeryBadAt(lex, text, i, j)
  {
    hide Words, IsWord;
    forall i: nat, j: nat | IsWord(text, i, j) ensures i <= j <= |text| { WordFits(text, i, j); }
    if w :| w in Words(text) && w in lex.veryBadWords {
      WordsAre(text, w);
      var i: nat, j: nat :| IsWord(text, i, j) && text[i..j] == w;
      assert VeryBadAt(lex, text, i, j);
    }
    if i: nat, j: nat :| VeryBadAt(lex, text, i, j) { WordsAre(text, text[i..j]); }
  }

  // The word at i comes before every very bad word of the text.
  ghost predicate FirstIn(lex: Lexicon, text: string, i: nat) {
    forall k: nat, l: nat | VeryBadAt(lex, text, k, l) :: i < k
  }

  lemma BlockWordSays(lex: Lexicon, text: string, p: nat)
    requires p < |Words(text)| && BlocksAt(lex, Words(text), p)
    ensures exists i: nat, j: nat :: BlockAt(lex, text, i, j) && FirstIn(lex, text, i)
  {
    hide Words, IsWord, PieceStart;
    WordAt(text, p);
    var i := PieceStart(Words(text), p);
    WordFits(text, i, i + |Words(text)[p]|);
    forall k: nat, l: nat | VeryBadAt(lex, text, k, l) ensures i < k {
      WordFits(text, k, l);
      var q := WordIsAt(text, k, l);
      StartsAscend(Words(text), p, q);
    }
    assert BlockAt(lex, text, i, i + |Words(text)[p]|) && FirstIn(lex, text, i);
  }

  lemma BlockWordIsSaid(lex: Lexicon, text: string, i: nat, j: nat)
    requires BlockAt(lex, text, i, j) && FirstIn(lex, text, i)
    ensures HasBlock(lex, Words(text))
  {
    hide Words, IsWord, PieceStart;
    WordFits(text, i, j);
    var p := WordIsAt(text, i, j);
    forall r | 0 <= r <= p ensures Words(text)[r] !in lex.veryBadWords {
      WordAt(text, r);
      var k := PieceStart(Words(text), r);
      WordFits(text, k, k + |Words(text)[r]|);
      if Words(text)[r] in lex.veryBadWords {
        assert VeryBadAt(lex, text, k, k + |Words(text)[r]|);
        StartsAscend(Words(text), r, p);
      }
    }
    assert BlocksAt(lex, Words(text), p);
  }

  lemma {:induction false} StartsAscend(parts: seq<string>, p: nat, q: nat)
    requires p <= |parts| && q <= |parts|
    ensures p < q ==> PieceStart(parts, p) < PieceStart(parts, q)
  {
    if p + 1 < q { StartsAscend(parts, p, q - 1); }
  }

  // The word lists of the scan say what the texts say.
  lemma {:induction false} StreamSays(lex: Lexicon, name: string, files: seq<FileEntry>, n: nat)
    requires n <= |files|
    ensures HasVeryBad(lex, WordsUpTo(lex, name, files, n)) <==> SaysVeryBad(lex, name, files, n)
    ensures HasBlock(lex, WordsUpTo(lex, name, files, n)) <==> SaysBlockFirst(lex, name, files, n)
  {
    hide HasVeryBad, HasBlock, Words, Stem, VeryBadAt, BlockAt;
    WordsSay(lex, Document(lex, name, files, n));
    if n > 0 {
      StreamSays(lex, name, files, n - 1);
      ScanConcat(lex, WordsUpTo(lex, name, files, n - 1), FileWords(lex, files[n - 1]));
      OneMoreText(lex, name, files, n);
    } else {
      OnlyName(lex, name, files);
    }
    hide SaysVeryBad, SaysBlockFirst, FirstIn;
  }

  lemma OnlyName(lex: Lexicon, name: string, files: seq<FileEntry>)
    ensures var text := Document(lex, name, files, 0);
            && (SaysVeryBad(lex, name, files, 0) <==> exists i: nat, j: nat :: VeryBadAt(lex, text, i, j))
            && (SaysBlockFirst(lex, name, files, 0)
                <==> exists i: nat, j: nat :: BlockAt(lex, text, i, j) && FirstIn(lex, text, i))
  {
    hide Document, VeryBadAt, BlockAt;
    var text := Document(lex, name, files, 0);
    if i: nat, j: nat :| BlockAt(lex, text, i, j) && FirstIn(lex, text, i) {
      assert BeforeVeryBad(lex, name, files, 0, 0, i);
    }
  }

  lemma OneMoreText(lex: Lexicon, name: string, files: seq<FileEntry>, n: nat)
    requires 0 < n <= |files|
    ensures var text := Document(lex, name, files, n);
            && (SaysVeryBad(lex, name, files, n)
                <==> SaysVeryBad(lex, name, files, n - 1) || exists i: nat, j: nat :: VeryBadAt(lex, text, i, j))
            && (SaysBlockFirst(lex, name, files, n)
                <==> || SaysBlockFirst(lex, name, files, n - 1)
                     || (&& !SaysVeryBad(lex, name, files, n - 1)
                         && exists i: nat, j: nat :: BlockAt(lex, text, i, j) && FirstIn(lex, text, i)))
  {
    hide Document, VeryBadAt, BlockAt;
    var text := Document(lex, name, files, n);
    if d: nat, i: nat, j: nat :|
      d <= n && BlockAt(lex, Document(lex, name, files, d), i, j) && BeforeVeryBad(lex, name, files, n, d, i)
    {
      if d < n {
        assert BeforeVeryBad(lex, name, files, n - 1, d, i);
      } else {
        assert FirstIn(lex, text, i);
      }
    }
    if d: nat, i: nat, j: nat :|
      d <= n - 1 && BlockAt(lex, Document(lex, name, files, d), i, j) && BeforeVeryBad(lex, name, files, n - 1, d, i)
    {
      assert BeforeVeryBad(lex, name, files, n, d, i);
    }
    if i: nat, j: nat :| !SaysVeryBad(lex, name, files, n - 1) && BlockAt(lex, text, i, j) && FirstIn(lex, text, i) {
      assert BeforeVeryBad(lex, name, files, n, n, i);
    }
  }

  // Said outright: a very bad word is a slice of the lower-cased name, or of the
  // stem of a lower-cased path; and where there is none, every block word counts.
  lemma TextsAre(lex: Lexicon, name: string, files: seq<FileEntry>)
    ensures SaysVeryBad(lex, name, files, |files|)
            <==> || (exists i: nat, j: nat :: VeryBadAt(lex, lex.lower(name), i, j))
                 || exists f, i: nat, j: nat :: f in files && VeryBadAt(lex, Stem(lex.lower(f.path)), i, j)
    ensures !SaysVeryBad(lex, name, files, |files|) ==>
              (SaysBlockFirst(lex, name, files, |files|)
               <==> || (exists i: nat, j: nat :: BlockAt(lex, lex.lower(name), i, j))
                    || exists f, i: nat, j: nat :: f in files && BlockAt(lex, Stem(lex.lower(f.path)), i, j))
  {
    hide VeryBadAt, BlockAt, Stem;
    var n := |files|;
    assert Document(lex, name, files, 0) == lex.lower(name);
    forall f | f in files ensures exists d: nat :: d <= n && Document(lex, name, files, d) == Stem(lex.lower(f.path)) {
      var d :| 0 <= d < n && files[d] == f;
      assert Document(lex, name, files, d + 1) == Stem(lex.lower(f.path));
    }
    forall d: nat | 0 < d <= n
      ensures exists f :: f in files && Document(lex, name, files, d) == Stem(lex.lower(f.path))
    {
      assert files[d - 1] in files;
    }
    hide Document;
    if !SaysVeryBad(lex, name, files, n) {
      forall d: nat, i: nat ensures BeforeVeryBad(lex, name, files, n, d, i) {}
    }
  }

  // ----- The classified torrent ---------------------------------------------

  class TorrentRecord {
    const name: string
    const size: real
    var contentType: Option<string>
    var contentCategory: Option<string>

    constructor (name: string, size: real, contentType: Option<string>, contentCategory: Option<string>)
      ensures this.name == name && this.size == size
      ensures this.contentType == contentType && this.contentCategory == contentCategory
    {
      this.name, this.size := name, size;
      this.contentType, this.contentCategory := contentType, contentCategory;
    }

    // blockBadName. A torrent that is already bad stops the scan after its first
    // word.
    method BlockBadName(lex: Lexicon, name: string)
      modifies this
      ensures var words := if old(contentType) == Some(BAD) then Words(name)[..1] else Words(name);
              && contentType == TypeAfter(lex, words, old(contentType))
              && contentCategory == CategoryAfter(lex, words, old(contentCategory))
    {
      hide Words;
      var words := Words(name);
      ghost var list := if contentType == Some(BAD) then words[..1] else words;
      var i, stop := 0, false;
      while i < |words| && !stop
        invariant i <= |list|
        invariant !stop ==> contentType == old(contentType)
        invariant !stop ==> forall j | 0 <= j < i :: list[j] !in lex.veryBadWords
        invariant !stop ==>
                    contentCategory
                    == if exists j | 0 <= j < i :: BlocksAt(lex, list, j) then Some(XXX) else old(contentCategory)
        invariant !stop && old(contentType) == Some(BAD) ==> i == 0
        invariant stop ==> contentType == TypeAfter(lex, list, old(contentType))
        invariant stop ==> contentCategory == CategoryAfter(lex, list, old(contentCategory))
      {
        assert words[i] == list[i];
        if words[i] in lex.veryBadWords {
          contentType := Some(BAD);
          assert list[i] in list;
          assert forall j | i <= j < |list| :: !BlocksAt(lex, list, j);
        } else if words[i] in lex.blockWords {
          contentCategory := Some(XXX);
          assert BlocksAt(lex, list, i);
        } else {
          assert !BlocksAt(lex, list, i);
        }
        stop := contentType == Some(BAD);
        i := i + 1;
      }
    }

    // detectSubCategory, called with the torrent's own type.
    method DetectSubCategory(lex: Lexicon, files: seq<FileEntry>)
      modifies this
      ensures contentType
              == if Scanned(old(contentType)) && SaysVeryBad(lex, name, files, |files|) then Some("bad")
                 else old(contentType)
      ensures contentCategory
              == if Scanned(old(contentType)) && SaysBlockFirst(lex, name, files, |files|) then Some("xxx")
                 else old(contentCategory)
    {
      hide Words, Stem, HasVeryBad, HasBlock, SaysVeryBad, SaysBlockFirst;
      if Scanned(contentType) {
        BlockBadName(lex, lex.lower(name));
        var n := 0;
        while n < |files| && contentType != Some(BAD)
          invariant n <= |files|
          invariant contentType == TypeAfter(lex, WordsUpTo(lex, name, files, n), old(contentType))
          invariant contentCategory == CategoryAfter(lex, WordsUpTo(lex, name, files, n), old(contentCategory))
        {
          ScanConcat(lex, WordsUpTo(lex, name, files, n), FileWords(lex, files[n]));
          BlockBadName(lex, Stem(lex.lower(files[n].path)));
          n := n + 1;
        }
        if n < |files| {
          ScanStopsAt(lex, name, files, n, |files|);
        }
        StreamSays(lex, name, files, |files|);
      }
    }

    // torrentTypeDetect
    method TorrentTypeDetect(lex: Lexicon, files: seq<FileEntry>) returns (typesPriority: map<string, real>)
      requires size > 0.0
      modifies this
      ensures contentType == FinalType(lex, name, files, old(contentType))
      ensures contentCategory == FinalCategory(lex, name, files, old(contentType), old(contentCategory))
      ensures IsVote(lex, files, size, typesPriority)
    {
      hide Tallied, SortDescending, IsWinner, Recognized, SaysVeryBad, SaysBlockFirst, BytesUpTo, TypeOf;
      var keys: seq<string> := [];
      typesPriority := map[];
      NothingTallied(lex, files, size);
      for i := 0 to |files|
        invariant contentType == old(contentType) && contentCategory == old(contentCategory)
        invariant Tallied(lex, files, i, size, keys, typesPriority)
      {
        var t := TypeOf(lex, files[i]);
        if t.Some? {
          ghost var counted := typesPriority;
          TallyCounts(lex, files, i, size, keys, typesPriority, t.value);
          if t.value !in typesPriority || typesPriority[t.value] == 0.0 {
            keys := if t.value in typesPriority then keys else keys + [t.value];
            typesPriority := typesPriority[t.value := 0.0];
          }
          typesPriority := typesPriority[t.value := typesPriority[t.value] + files[i].size / size];
          assert typesPriority == counted[t.value := At(counted, t.value) + files[i].size / size];
        } else {
          TallySkips(lex, files, i, size, keys, typesPriority);
        }
      }
      var priority := SortDescending(keys, typesPriority);
      AllTallied(lex, files, size, keys, typesPriority, contentType);
      if |priority| > 0 {
        contentType := Some(priority[0]);
      }
      DetectSubCategory(lex, files);
    }
  }

  lemma NothingTallied(lex: Lexicon, files: seq<FileEntry>, size: real)
    requires size > 0.0
    ensures Tallied(lex, files, 0, size, [], map[])
  {
  }

  // What the finished vote says about the sorted keys.
  lemma AllTallied(lex: Lexicon, files: seq<FileEntry>, size: real, keys: seq<string>, totals: map<string, real>,
                   before: Option<string>)
    requires size > 0.0 && Tallied(lex, files, |files|, size, keys, totals)
    ensures forall t :: t in totals <==> Recognized(lex, files, t)
    ensures forall t | t in totals :: totals[t] == BytesOf(lex, files, t) / size
    ensures Voted(lex, files, before)
            == var priority := SortDescending(keys, totals); if |priority| > 0 then Some(priority[0]) else before
  {
    hide SortDescending, BytesUpTo, TypeOf, SeenBy, IsWinner;
    RecognizedIsSeen(lex, files);
    if keys != [] {
      SortedHeadWins(lex, files, size, keys, totals);
      VotedIs(lex, files, SortDescending(keys, totals)[0], before);
    } else {
      NoWinner(lex, files);
      SortedNothing(totals);
    }
  }

  lemma NoWinner(lex: Lexicon, files: seq<FileEntry>)
    requires forall t :: !Recognized(lex, files, t)
    ensures forall w :: !IsWinner(lex, files, w)
  {
    hide Recognized;
  }

  lemma SortedNothing(totals: map<string, real>)
    ensures SortDescending([], totals) == []
  {
  }
}
