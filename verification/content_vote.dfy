// The size-weighted vote of the legacy content classifier.
module ContentVote {
  import opened Json
  import opened ContentWords

  datatype FileEntry = FileEntry(path: string, size: real)

  function TypeOf(lex: Lexicon, f: FileEntry): Option<string> {
    FileType(lex, f.path)
  }

  // ----- The outcome, stated without the loop -------------------------------

  predicate Recognized(lex: Lexicon, files: seq<FileEntry>, t: string) {
    exists f | f in files :: TypeOf(lex, f) == Some(t)
  }

  function Share(lex: Lexicon, f: FileEntry, t: string): real {
    if TypeOf(lex, f) == Some(t) then f.size else 0.0
  }

  // The bytes the first n files give to a type.
  function BytesUpTo(lex: Lexicon, files: seq<FileEntry>, n: nat, t: string): real
    requires n <= |files|
  {
    if n == 0 then 0.0 else BytesUpTo(lex, files, n - 1, t) + Share(lex, files[n - 1], t)
  }

  function BytesOf(lex: Lexicon, files: seq<FileEntry>, t: string): real {
    BytesUpTo(lex, files, |files|, t)
  }

  // The position of a type's first file, or |files|.
  function FirstFile(lex: Lexicon, files: seq<FileEntry>, t: string): nat {
    if files == [] || TypeOf(lex, files[0]) == Some(t) then 0 else 1 + FirstFile(lex, files[1..], t)
  }

  // The type with the most bytes; ties go to the type whose first file comes
  // first.
  ghost predicate IsWinner(lex: Lexicon, files: seq<FileEntry>, w: string) {
    && Recognized(lex, files, w)
    && forall v | Recognized(lex, files, v) :: Beats(lex, files, w, v)
  }

  ghost predicate Beats(lex: Lexicon, files: seq<FileEntry>, w: string, v: string) {
    || BytesOf(lex, files, w) > BytesOf(lex, files, v)
    || (BytesOf(lex, files, w) == BytesOf(lex, files, v) && FirstFile(lex, files, w) <= FirstFile(lex, files, v))
  }

  lemma {:induction false} FirstFileIs(lex: Lexicon, files: seq<FileEntry>, t: string, i: nat)
    requires i < |files| && TypeOf(lex, files[i]) == Some(t)
    requires forall j | 0 <= j < i :: TypeOf(lex, files[j]) != Some(t)
    ensures FirstFile(lex, files, t) == i
  {
    if i > 0 { FirstFileIs(lex, files[1..], t, i - 1); }
  }

  lemma {:induction false} FirstFileHasType(lex: Lexicon, files: seq<FileEntry>, t: string)
    requires Recognized(lex, files, t)
    ensures FirstFile(lex, files, t) < |files| && TypeOf(lex, files[FirstFile(lex, files, t)]) == Some(t)
  {
    hide TypeOf;
    if TypeOf(lex, files[0]) != Some(t) {
      var f :| f in files && TypeOf(lex, f) == Some(t);
      assert f in files[1..];
      FirstFileHasType(lex, files[1..], t);
    }
  }

  lemma OneWinner(lex: Lexicon, files: seq<FileEntry>, w: string, v: string)
    requires IsWinner(lex, files, w) && IsWinner(lex, files, v)
    ensures w == v
  {
    hide BytesOf, FirstFile, TypeOf;
    assert Beats(lex, files, w, v) && Beats(lex, files, v, w);
    FirstFileHasType(lex, files, w);
    FirstFileHasType(lex, files, v);
  }

  // ----- Array.prototype.sort with the comparator of the vote ---------------

  function At(totals: map<string, real>, key: string): real {
    if key in totals then totals[key] else 0.0
  }

  // Put key behind everything that does not have a smaller total.
  function Insert(sorted: seq<string>, key: string, totals: map<string, real>): (r: seq<string>)
    ensures r != []
  {
    if sorted == [] then [key]
    else if At(totals, sorted[0]) >= At(totals, key) then [sorted[0]] + Insert(sorted[1..], key, totals)
    else [key] + sorted
  }

  // The stable descending sort, one key after the other.
  function SortDescending(keys: seq<string>, totals: map<string, real>): seq<string> {
    if keys == [] then []
    else Insert(SortDescending(keys[..|keys| - 1], totals), keys[|keys| - 1], totals)
  }

  lemma {:induction false} InsertMembers(sorted: seq<string>, key: string, totals: map<string, real>)
    ensures multiset(Insert(sorted, key, totals)) == multiset(sorted) + multiset{key}
    ensures forall k :: k in Insert(sorted, key, totals) <==> k == key || k in sorted
  {
    if sorted != [] {
      assert sorted == [sorted[0]] + sorted[1..];
      InsertMembers(sorted[1..], key, totals);
    }
  }

  ghost predicate Descending(keys: seq<string>, totals: map<string, real>) {
    keys == [] || ((forall k | k in keys :: At(totals, keys[0]) >= At(totals, k)) && Descending(keys[1..], totals))
  }

  lemma {:induction false} InsertDescending(sorted: seq<string>, key: string, totals: map<string, real>)
    requires Descending(sorted, totals)
    ensures Descending(Insert(sorted, key, totals), totals)
  {
    hide At;
    if sorted != [] {
      if At(totals, sorted[0]) >= At(totals, key) {
        InsertDescending(sorted[1..], key, totals);
        InsertMembers(sorted[1..], key, totals);
        assert Insert(sorted, key, totals)[1..] == Insert(sorted[1..], key, totals);
      } else {
        assert Insert(sorted, key, totals)[1..] == sorted;
      }
    }
  }

  // The keys with a given total, in order.
  function WithTotal(keys: seq<string>, totals: map<string, real>, v: real): seq<string> {
    if keys == [] then []
    else (if At(totals, keys[0]) == v then [keys[0]] else []) + WithTotal(keys[1..], totals, v)
  }

  lemma {:induction false} WithTotalSnoc(keys: seq<string>, key: string, totals: map<string, real>, v: real)
    ensures WithTotal(keys + [key], totals, v)
            == WithTotal(keys, totals, v) + if At(totals, key) == v then [key] else []
  {
    hide At;
    if keys == [] {
      assert [key][1..] == [] && [] + [key] == [key];
    } else {
      assert (keys + [key])[0] == keys[0] && (keys + [key])[1..] == keys[1..] + [key];
      WithTotalSnoc(keys[1..], key, totals, v);
    }
  }

  lemma {:induction false} WithTotalNone(keys: seq<string>, totals: map<string, real>, v: real)
    requires forall k | k in keys :: At(totals, k) != v
    ensures WithTotal(keys, totals, v) == []
  {
    hide At;
    if keys != [] { WithTotalNone(keys[1..], totals, v); }
  }

  lemma {:induction false} InsertStable(sorted: seq<string>, key: string, totals: map<string, real>, v: real)
    requires Descending(sorted, totals)
    ensures WithTotal(Insert(sorted, key, totals), totals, v)
            == WithTotal(sorted, totals, v) + if At(totals, key) == v then [key] else []
  {
    hide *;
    WithTotalCons(key, sorted, totals, v);
    if sorted == [] {
      InsertUnfold(sorted, key, totals);
      WithTotalNone(sorted, totals, v);
    } else {
      var first, rest := sorted[0], sorted[1..];
      DescendingUnfold(sorted, totals);
      InsertUnfold(sorted, key, totals);
      assert sorted == [first] + rest;
      WithTotalCons(first, rest, totals, v);
      WithTotalCons(first, Insert(rest, key, totals), totals, v);
      if At(totals, first) >= At(totals, key) {
        InsertStable(rest, key, totals, v);
      } else if At(totals, key) == v {
        WithTotalNone(sorted, totals, v);
      }
    }
  }

  lemma InsertUnfold(sorted: seq<string>, key: string, totals: map<string, real>)
    ensures Insert(sorted, key, totals)
            == if sorted != [] && At(totals, sorted[0]) >= At(totals, key)
               then [sorted[0]] + Insert(sorted[1..], key, totals) else [key] + sorted
  {
    hide At;
    if sorted == [] { assert [key] + sorted == [key]; }
  }

  lemma DescendingUnfold(keys: seq<string>, totals: map<string, real>)
    requires Descending(keys, totals) && keys != []
    ensures Descending(keys[1..], totals) && forall k | k in keys :: At(totals, keys[0]) >= At(totals, k)
  {
    hide At;
  }

  lemma WithTotalCons(key: string, keys: seq<string>, totals: map<string, real>, v: real)
    ensures WithTotal([key] + keys, totals, v)
            == (if At(totals, key) == v then [key] else []) + WithTotal(keys, totals, v)
  {
    hide At;
    assert ([key] + keys)[1..] == keys;
  }

  // What section 23.1.3.30 of ECMA-262 (2023) promises of sort: the same keys,
  // ordered by the comparator, and keys that compare equal keep their order.
  lemma {:induction false} SortIsStable(keys: seq<string>, totals: map<string, real>, v: real)
    ensures multiset(SortDescending(keys, totals)) == multiset(keys)
    ensures Descending(SortDescending(keys, totals), totals)
    ensures WithTotal(SortDescending(keys, totals), totals, v) == WithTotal(keys, totals, v)
  {
    if keys != [] {
      var init, last := keys[..|keys| - 1], keys[|keys| - 1];
      hide At, WithTotal, Descending, Insert;
      assert keys == init + [last];
      SortIsStable(init, totals, v);
      InsertMembers(SortDescending(init, totals), last, totals);
      InsertDescending(SortDescending(init, totals), last, totals);
      InsertStable(SortDescending(init, totals), last, totals, v);
      WithTotalSnoc(init, last, totals, v);
    }
  }

  // Its first element: the earliest key with the largest total.
  lemma {:induction false} SortedHead(keys: seq<string>, totals: map<string, real>) returns (p: nat)
    requires keys != []
    ensures p < |keys| && SortDescending(keys, totals) != [] && keys[p] == SortDescending(keys, totals)[0]
    ensures forall q | 0 <= q < |keys| :: At(totals, keys[q]) <= At(totals, keys[p])
    ensures forall q | 0 <= q < p :: At(totals, keys[q]) < At(totals, keys[p])
  {
    var n := |keys| - 1;
    InsertHead(SortDescending(keys[..n], totals), keys[n], totals);
    hide At, Insert;
    if n == 0 {
      assert keys[..n] == [];
      p := 0;
    } else {
      p := SortedHead(keys[..n], totals);
      assert forall q | 0 <= q < n :: keys[q] == keys[..n][q];
      if At(totals, keys[p]) < At(totals, keys[n]) {
        p := n;
      }
    }
  }

  lemma InsertHead(sorted: seq<string>, key: string, totals: map<string, real>)
    ensures Insert(sorted, key, totals)[0]
            == if sorted != [] && At(totals, sorted[0]) >= At(totals, key) then sorted[0] else key
  {
  }
}
