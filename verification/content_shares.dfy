// What does not change the vote of the content classifier, and what bounds it.
module ContentShares {
  import opened ContentWords
  import opened ContentVote

  function TotalBytes(files: seq<FileEntry>): real {
    if files == [] then 0.0 else TotalBytes(files[..|files| - 1]) + files[|files| - 1].size
  }

  // The bytes of the files whose type is known.
  function KnownBytes(lex: Lexicon, files: seq<FileEntry>): real {
    if files == [] then 0.0
    else KnownBytes(lex, files[..|files| - 1])
         + if TypeOf(lex, files[|files| - 1]).Some? then files[|files| - 1].size else 0.0
  }

  ghost predicate NoNegativeSize(files: seq<FileEntry>) {
    forall f | f in files :: f.size >= 0.0
  }

  // ----- The order and the splitting of files do not matter -----------------

  lemma {:induction false} BytesOfPrefix(lex: Lexicon, a: seq<FileEntry>, b: seq<FileEntry>, n: nat, t: string)
    requires n <= |a|
    ensures BytesUpTo(lex, a + b, n, t) == BytesUpTo(lex, a, n, t)
  {
    hide Share;
    if n > 0 { BytesOfPrefix(lex, a, b, n - 1, t); }
  }

  lemma BytesSnoc(lex: Lexicon, files: seq<FileEntry>, f: FileEntry, t: string)
    ensures BytesOf(lex, files + [f], t) == BytesOf(lex, files, t) + Share(lex, f, t)
  {
    hide Share;
    BytesOfPrefix(lex, files, [f], |files|, t);
  }

  lemma {:induction false} BytesConcat(lex: Lexicon, a: seq<FileEntry>, b: seq<FileEntry>, t: string)
    ensures BytesOf(lex, a + b, t) == BytesOf(lex, a, t) + BytesOf(lex, b, t)
  {
    hide Share, BytesUpTo;
    if b == [] {
      assert a + b == a;
      NoBytes(lex, t);
    } else {
      var init, last := b[..|b| - 1], b[|b| - 1];
      assert a + b == (a + init) + [last] && b == init + [last];
      BytesConcat(lex, a, init, t);
      BytesSnoc(lex, a + init, last, t);
      BytesSnoc(lex, init, last, t);
    }
  }

  lemma NoBytes(lex: Lexicon, t: string)
    ensures BytesOf(lex, [], t) == 0.0
  {
  }

  lemma OneFile(lex: Lexicon, f: FileEntry, t: string)
    ensures BytesOf(lex, [f], t) == Share(lex, f, t)
  {
    hide Share;
    NoBytes(lex, t);
    BytesSnoc(lex, [], f, t);
    assert [] + [f] == [f];
  }

  lemma {:induction false} BytesOfPermutation(lex: Lexicon, a: seq<FileEntry>, b: seq<FileEntry>, t: string)
    requires multiset(a) == multiset(b)
    ensures BytesOf(lex, a, t) == BytesOf(lex, b, t)
    decreases |a|
  {
    hide Share, BytesOf;
    if a == [] {
      assert |b| == |multiset(b)|;
    } else {
      var init, last := a[..|a| - 1], a[|a| - 1];
      assert a == init + [last];
      assert last in multiset(b);
      var i :| 0 <= i < |b| && b[i] == last;
      var left, right := b[..i], b[i + 1..];
      assert b == left + [last] + right;
      RemoveOne(init, left, last, right);
      BytesOfPermutation(lex, init, left + right, t);
      BytesConcat(lex, left + [last], right, t);
      BytesConcat(lex, left, [last], t);
      BytesConcat(lex, left, right, t);
      BytesConcat(lex, init, [last], t);
    }
  }

  lemma RemoveOne(init: seq<FileEntry>, left: seq<FileEntry>, f: FileEntry, right: seq<FileEntry>)
    requires multiset(init + [f]) == multiset(left + [f] + right)
    ensures multiset(init) == multiset(left + right)
  {
    assert multiset(init) == multiset(init + [f]) - multiset{f};
    assert multiset(left + right) == multiset(left + [f] + right) - multiset{f};
  }

  // Cutting a file into two parts of the same type leaves every total alone.
  lemma BytesOfParts(lex: Lexicon, before: seq<FileEntry>, whole: FileEntry, one: FileEntry, two: FileEntry,
                     after: seq<FileEntry>, t: string)
    requires TypeOf(lex, one) == TypeOf(lex, whole) == TypeOf(lex, two)
    requires one.size + two.size == whole.size
    ensures BytesOf(lex, before + [whole] + after, t) == BytesOf(lex, before + [one, two] + after, t)
  {
    hide TypeOf, BytesOf;
    assert [one, two] == [one] + [two];
    BytesConcat(lex, before + [whole], after, t);
    BytesConcat(lex, before, [whole], t);
    BytesConcat(lex, before + [one, two], after, t);
    BytesConcat(lex, before, [one, two], t);
    BytesConcat(lex, [one], [two], t);
    OneFile(lex, whole, t);
    OneFile(lex, one, t);
    OneFile(lex, two, t);
  }

  // ----- Bounds -------------------------------------------------------------

  function SumOverTypes(lex: Lexicon, files: seq<FileEntry>, types: seq<string>): real {
    if types == [] then 0.0 else BytesOf(lex, files, types[0]) + SumOverTypes(lex, files, types[1..])
  }

  function ShareOfTypes(lex: Lexicon, f: FileEntry, types: seq<string>): real {
    if types == [] then 0.0 else Share(lex, f, types[0]) + ShareOfTypes(lex, f, types[1..])
  }

  ghost predicate DistinctTypes(types: seq<string>) {
    forall i, j | 0 <= i < j < |types| :: types[i] != types[j]
  }

  // A file counts for one type at most, and for one if its type is listed.
  lemma {:induction false} OneTypePerFile(lex: Lexicon, f: FileEntry, types: seq<string>)
    requires DistinctTypes(types)
    ensures ShareOfTypes(lex, f, types)
            == if TypeOf(lex, f).Some? && TypeOf(lex, f).value in types then f.size else 0.0
  {
    hide TypeOf;
    if types != [] {
      OneTypePerFile(lex, f, types[1..]);
      assert types == [types[0]] + types[1..];
      assert types[0] !in types[1..];
    }
  }

  lemma {:induction false} SumSnoc(lex: Lexicon, files: seq<FileEntry>, f: FileEntry, types: seq<string>)
    ensures SumOverTypes(lex, files + [f], types) == SumOverTypes(lex, files, types) + ShareOfTypes(lex, f, types)
  {
    hide Share, BytesOf;
    if types != [] {
      BytesSnoc(lex, files, f, types[0]);
      SumSnoc(lex, files, f, types[1..]);
    }
  }

  lemma {:induction false} AllKnown(lex: Lexicon, files: seq<FileEntry>)
    requires forall f | f in files :: TypeOf(lex, f).Some?
    ensures KnownBytes(lex, files) == TotalBytes(files)
  {
    hide TypeOf;
    if files != [] {
      assert files[|files| - 1] in files;
      AllKnown(lex, files[..|files| - 1]);
    }
  }

  lemma {:induction false} SumOfNoFiles(lex: Lexicon, types: seq<string>)
    ensures SumOverTypes(lex, [], types) == 0.0
  {
    if types != [] { SumOfNoFiles(lex, types[1..]); }
  }

  // The totals of distinct types never exceed the recognised bytes, and reach
  // them when every recognised type is listed.
  lemma {:induction false} TypesShareKnownBytes(lex: Lexicon, files: seq<FileEntry>, types: seq<string>)
    requires NoNegativeSize(files) && DistinctTypes(types)
    ensures SumOverTypes(lex, files, types) <= KnownBytes(lex, files) <= TotalBytes(files)
    ensures (forall t | Recognized(lex, files, t) :: t in types) ==>
              SumOverTypes(lex, files, types) == KnownBytes(lex, files)
  {
    hide TypeOf, DistinctTypes;
    if files == [] {
      SumOfNoFiles(lex, types);
    } else {
      var init, last := files[..|files| - 1], files[|files| - 1];
      assert files == init + [last];
      TypesShareKnownBytes(lex, init, types);
      SumSnoc(lex, init, last, types);
      OneTypePerFile(lex, last, types);
      hide SumOverTypes;
      assert last in files && last.size >= 0.0;
      if forall t | Recognized(lex, files, t) :: t in types {
        forall t | Recognized(lex, init, t) ensures t in types { assert Recognized(lex, files, t); }
        assert TypeOf(lex, last).Some? ==> Recognized(lex, files, TypeOf(lex, last).value);
      }
    }
  }

  // The sum of a map's values over a list of its keys.
  function PartsSum(parts: map<string, real>, types: seq<string>): real
    requires forall t | t in types :: t in parts
  {
    if types == [] then 0.0 else parts[types[0]] + PartsSum(parts, types[1..])
  }

  // What the vote returns: each recognised type's part of the torrent size.
  ghost predicate IsVote(lex: Lexicon, files: seq<FileEntry>, size: real, parts: map<string, real>)
    requires size > 0.0
  {
    && (forall t :: t in parts <==> Recognized(lex, files, t))
    && (forall t | t in parts :: parts[t] == BytesOf(lex, files, t) / size)
  }

  lemma {:induction false} PartsAreBytes(lex: Lexicon, files: seq<FileEntry>, size: real, parts: map<string, real>,
                                         types: seq<string>)
    requires size > 0.0 && IsVote(lex, files, size, parts) && forall t | t in types :: t in parts
    ensures PartsSum(parts, types) * size == SumOverTypes(lex, files, types)
  {
    hide BytesOf, Recognized;
    if types != [] {
      PartsAreBytes(lex, files, size, parts, types[1..]);
      PartTimesSize(BytesOf(lex, files, types[0]), PartsSum(parts, types[1..]), size);
    }
  }

  lemma PartTimesSize(bytes: real, rest: real, size: real)
    requires size > 0.0
    ensures (bytes / size + rest) * size == bytes + rest * size
  {
    assert bytes / size * size == bytes;
  }

  // The parts the vote returns sum to the recognised bytes' part of the size, so
  // to at most one when the torrent size is the sum of its file sizes.
  lemma PartsSumToAtMostOne(lex: Lexicon, files: seq<FileEntry>, size: real, parts: map<string, real>,
                            types: seq<string>)
    requires NoNegativeSize(files) && size > 0.0 && IsVote(lex, files, size, parts)
    requires DistinctTypes(types) && forall t :: t in types <==> t in parts
    ensures PartsSum(parts, types) == KnownBytes(lex, files) / size
    ensures size == TotalBytes(files) ==> PartsSum(parts, types) <= 1.0
    ensures size == TotalBytes(files) && (forall f | f in files :: TypeOf(lex, f).Some?) ==>
              PartsSum(parts, types) == 1.0
  {
    hide BytesOf, Recognized, KnownBytes, TotalBytes, SumOverTypes, PartsSum, NoNegativeSize, DistinctTypes;
    TypesShareKnownBytes(lex, files, types);
    PartsAreBytes(lex, files, size, parts, types);
    hide IsVote, TypeOf;
    if forall f | f in files :: TypeOf(lex, f).Some? { AllKnown(lex, files); }
    ScaledDown(PartsSum(parts, types), KnownBytes(lex, files), size);
  }

  lemma ScaledDown(x: real, y: real, size: real)
    requires size > 0.0 && x * size == y
    ensures x == y / size && (y <= size ==> x <= 1.0) && (y == size ==> x == 1.0)
  {
    if x > 1.0 { assert (x - 1.0) * size > 0.0; }
  }

  // A type with more than half of the recognised bytes always wins.
  lemma MajorityWins(lex: Lexicon, files: seq<FileEntry>, w: string)
    requires NoNegativeSize(files) && 2.0 * BytesOf(lex, files, w) > KnownBytes(lex, files)
    ensures IsWinner(lex, files, w)
  {
    hide TypeOf, BytesOf, FirstFile, KnownBytes, Recognized, NoNegativeSize;
    forall v | v != w ensures BytesOf(lex, files, v) + BytesOf(lex, files, w) <= KnownBytes(lex, files) {
      TypesShareKnownBytes(lex, files, [v, w]);
      SumOfTwo(lex, files, v, w);
    }
    assert forall v :: Beats(lex, files, w, v);
    if !Recognized(lex, files, w) {
      UnrecognizedHasNoBytes(lex, files, w);
      TypesShareKnownBytes(lex, files, []);
      NoTypes(lex, files);
    }
  }

  lemma NoTypes(lex: Lexicon, files: seq<FileEntry>)
    ensures SumOverTypes(lex, files, []) == 0.0
  {
  }

  lemma SumOfTwo(lex: Lexicon, files: seq<FileEntry>, v: string, w: string)
    ensures SumOverTypes(lex, files, [v, w]) == BytesOf(lex, files, v) + BytesOf(lex, files, w)
  {
    hide BytesOf;
    assert [v, w][1..] == [w] && [w][1..] == [];
    NoTypes(lex, files);
  }

  lemma {:induction false} UnrecognizedHasNoBytes(lex: Lexicon, files: seq<FileEntry>, t: string)
    requires !Recognized(lex, files, t)
    ensures BytesOf(lex, files, t) == 0.0
  {
    hide TypeOf;
    if files != [] {
      var init, last := files[..|files| - 1], files[|files| - 1];
      assert files == init + [last] && last in files;
      UnrecognizedHasNoBytes(lex, init, t);
      BytesSnoc(lex, init, last, t);
    }
  }
}
