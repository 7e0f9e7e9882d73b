// The word scan of the legacy content classifier: names are cut into words, and
// the scan stops at the first very bad one.
module ContentWords {
  import opened Json
  import opened Text

  // The extension table, the two word lists, and JavaScript's toLowerCase.
  datatype Lexicon = Lexicon(
    extensions: map<string, string>,
    blockWords: set<string>,
    veryBadWords: set<string>,
    lower: string -> string)

  const BAD := "bad"
  const XXX := "xxx"

  // The characters names are split at.
  const SEPARATORS: set<char> := {
    '`', '~', '!', '@', '#', '$', '%', '^', '&', '*', '(', ')', ']', '[', '{', '}',
    '.', ',', '+', '?', '/', '\\', ';', ':', '-', '_', '\'', ' ', '\"', '|'}

  function Words(name: string): (words: seq<string>)
    ensures words != []
  {
    Split(name, SEPARATORS)
  }

  // ----- What the words of a name are ---------------------------------------

  predicate IsSeparator(c: char) {
    c in "`~!@#$%^&*()[]{}.,+?/\\;:-_' \"|"
  }

  // name[i..j] is a word: it holds no separator and reaches from one separator,
  // or the start, to the next, or the end. It may be empty.
  predicate IsWord(name: string, i: nat, j: nat) {
    && i <= j <= |name|
    && (i == 0 || IsSeparator(name[i - 1])) && (j == |name| || IsSeparator(name[j]))
    && forall k | i <= k < j :: !IsSeparator(name[k])
  }

  lemma SeparatorsAre(c: char)
    ensures c in SEPARATORS <==> IsSeparator(c)
  {
    var all := "`~!@#$%^&*()][{}.,+?/\\;:-_' \"|";
    assert |all| == 30;
    assert forall i | 0 <= i < 30 :: all[i] in SEPARATORS;
  }

  lemma WordIsPiece(name: string, i: nat, j: nat)
    ensures IsWord(name, i, j) <==> IsPiece(name, SEPARATORS, i, j)
  {
    forall c: char ensures c in SEPARATORS <==> IsSeparator(c) { SeparatorsAre(c); }
    hide SEPARATORS, IsSeparator;
  }

  // The k-th word starts where the words and separators before it end.
  lemma WordAt(name: string, k: nat)
    requires k < |Words(name)|
    ensures var i := PieceStart(Words(name), k); var j := i + |Words(name)[k]|;
            IsWord(name, i, j) && Words(name)[k] == name[i..j]
  {
    hide Split, IsPiece, IsWord, PieceStart, SEPARATORS;
    SplitPiece(name, SEPARATORS, k);
    var i := PieceStart(Words(name), k);
    WordIsPiece(name, i, i + |Words(name)[k]|);
  }

  lemma WordIsAt(name: string, i: nat, j: nat) returns (k: nat)
    requires IsWord(name, i, j)
    ensures k < |Words(name)| && PieceStart(Words(name), k) == i && Words(name)[k] == name[i..j]
  {
    hide Split, IsPiece, IsWord, PieceStart, SEPARATORS;
    WordIsPiece(name, i, j);
    k := PieceIsSplit(name, SEPARATORS, i, j);
  }

  // The words are the slices between separators.
  lemma WordsAre(name: string, w: string)
    ensures w in Words(name) <==> exists i: nat, j: nat :: IsWord(name, i, j) && name[i..j] == w
  {
    hide Words, IsWord;
    forall i: nat, j: nat | IsWord(name, i, j) ensures i <= j <= |name| { WordFits(name, i, j); }
    if w in Words(name) {
      var k :| 0 <= k < |Words(name)| && Words(name)[k] == w;
      WordAt(name, k);
    }
    if i: nat, j: nat :| IsWord(name, i, j) && name[i..j] == w { var k := WordIsAt(name, i, j); }
  }

  lemma WordFits(name: string, i: nat, j: nat)
    requires IsWord(name, i, j)
    ensures i <= j <= |name|
  {
  }

  // In their order, with the separators between them, they give the name back.
  lemma WordsGlued(name: string) returns (between: string)
    ensures |Words(name)| == |between| + 1 && Glue(Words(name), between) == name
    ensures forall c | c in between :: IsSeparator(c)
  {
    hide Split, SEPARATORS, IsSeparator;
    between := SplitGlued(name, SEPARATORS);
    forall c | c in between ensures IsSeparator(c) { SeparatorsAre(c); }
  }

  // ----- What a scan does, word list at a time ------------------------------

  ghost predicate HasVeryBad(lex: Lexicon, words: seq<string>) {
    exists w | w in words :: w in lex.veryBadWords
  }

  // Some block word comes before every very bad word.
  ghost predicate HasBlock(lex: Lexicon, words: seq<string>) {
    exists i | 0 <= i < |words| :: BlocksAt(lex, words, i)
  }

  ghost predicate BlocksAt(lex: Lexicon, words: seq<string>, i: nat)
    requires i < |words|
  {
    words[i] in lex.blockWords && forall j | 0 <= j <= i :: words[j] !in lex.veryBadWords
  }

  ghost function TypeAfter(lex: Lexicon, words: seq<string>, before: Option<string>): Option<string> {
    if HasVeryBad(lex, words) then Some(BAD) else before
  }

  ghost function CategoryAfter(lex: Lexicon, words: seq<string>, before: Option<string>): Option<string> {
    if HasBlock(lex, words) then Some(XXX) else before
  }

  // Scanning one list and then, unless it was stopped, the next is scanning both.
  lemma ScanConcat(lex: Lexicon, a: seq<string>, b: seq<string>)
    ensures HasVeryBad(lex, a + b) <==> HasVeryBad(lex, a) || HasVeryBad(lex, b)
    ensures HasBlock(lex, a + b) <==> HasBlock(lex, a) || (!HasVeryBad(lex, a) && HasBlock(lex, b))
  {
    hide HasVeryBad;
    VeryBadConcat(lex, a, b);
    if HasBlock(lex, a + b) {
      var i :| 0 <= i < |a + b| && BlocksAt(lex, a + b, i);
      BlockConcat(lex, a, b, i);
    }
    if HasBlock(lex, a) {
      var i :| 0 <= i < |a| && BlocksAt(lex, a, i);
      BlockConcat(lex, a, b, i);
    } else if !HasVeryBad(lex, a) && HasBlock(lex, b) {
      var i :| 0 <= i < |b| && BlocksAt(lex, b, i);
      BlockConcat(lex, a, b, |a| + i);
    }
  }

  lemma VeryBadConcat(lex: Lexicon, a: seq<string>, b: seq<string>)
    ensures HasVeryBad(lex, a + b) <==> HasVeryBad(lex, a) || HasVeryBad(lex, b)
  {
    assert forall w :: w in a + b <==> w in a || w in b;
  }

  lemma BlockConcat(lex: Lexicon, a: seq<string>, b: seq<string>, i: nat)
    requires i < |a + b|
    ensures i < |a| ==> (BlocksAt(lex, a + b, i) <==> BlocksAt(lex, a, i))
    ensures i >= |a| ==> (BlocksAt(lex, a + b, i) <==> !HasVeryBad(lex, a) && BlocksAt(lex, b, i - |a|))
  {
    assert forall j | 0 <= j < |a| :: (a + b)[j] == a[j];
    assert forall j | |a| <= j < |a + b| :: (a + b)[j] == b[j - |a|];
    if i >= |a| {
      assert HasVeryBad(lex, a) <==> exists j | 0 <= j < |a| :: a[j] in lex.veryBadWords;
      assert (forall j | 0 <= j <= i - |a| :: b[j] !in lex.veryBadWords)
          <==> (forall j | |a| <= j <= i :: (a + b)[j] !in lex.veryBadWords) by {
        assert forall j | 0 <= j <= i - |a| :: (a + b)[|a| + j] == b[j];
      }
    }
  }

  // ----- File names ---------------------------------------------------------

  // What detectSubCategory scans of a (lower-cased) path: the path split at its
  // dots, without the last piece, joined again.
  function Stem(path: string): string {
    var parts := Split(path, {'.'});
    Join(if |parts| > 1 then parts[..|parts| - 1] else parts, ".")
  }

  lemma StemIsPrefix(path: string)
    ensures Stem(path) == if LastIndex(path, '.') == -1 then path else path[..LastIndex(path, '.')]
  {
    SplitLast(path, '.');
    if LastIndex(path, '.') == -1 {
      assert Split(path, {'.'}) == [path] by { assert path[0..] == path; }
    } else {
      JoinWithoutLast(path, '.');
    }
  }

  function BaseName(path: string): string {
    path[LastIndex(path, '/') + 1..]
  }

  function WithoutExtension(name: string): string {
    if LastIndex(name, '.') == -1 then name else name[..LastIndex(name, '.')]
  }

  // The stem is the path without its file's extension exactly when the last dot
  // of the path, if any, belongs to the file name; a dot in a directory name
  // takes the rest of the path with it.
  lemma StemDropsExtension(path: string)
    ensures Stem(path) == path[..LastIndex(path, '/') + 1] + WithoutExtension(BaseName(path))
            <==> LastIndex(path, '.') == -1 || LastIndex(path, '/') < LastIndex(path, '.')
  {
    hide *;
    var dot, slash := LastIndex(path, '.'), LastIndex(path, '/');
    StemIsPrefix(path);
    WithoutExtensionIs(path);
    CutsAgree(path, dot, slash);
  }

  // The file name of this path is not scanned at all.
  lemma DotInDirectoryHidesName()
    ensures Stem("a.b/c") == "a" && BaseName("a.b/c") == "c"
  {
    hide LastIndex, Stem;
    var path := "a.b/c";
    StemIsPrefix(path);
    LastIndexAt(path, '.', 1);
    LastIndexAt(path, '/', 3);
    assert path[..1] == "a" && path[4..] == "c";
  }

  lemma WithoutExtensionIs(path: string)
    ensures var dot, slash := LastIndex(path, '.'), LastIndex(path, '/');
            WithoutExtension(BaseName(path))
            == if dot <= slash then path[slash + 1..] else path[slash + 1..][..dot - slash - 1]
  {
    hide LastIndex, BaseName;
    LastIndexOfTail(path, '.', LastIndex(path, '/') + 1);
    BaseNameIs(path);
  }

  lemma BaseNameIs(path: string)
    ensures BaseName(path) == path[LastIndex(path, '/') + 1..]
  {
    hide LastIndex;
  }

  lemma CutsAgree(path: string, dot: int, slash: int)
    requires -1 <= dot < |path| && -1 <= slash < |path|
    ensures (if dot == -1 then path else path[..dot])
            == path[..slash + 1] + (if dot <= slash then path[slash + 1..] else path[slash + 1..][..dot - slash - 1])
            <==> dot == -1 || slash < dot
  {
    var left := if dot == -1 then path else path[..dot];
    var tail := if dot <= slash then path[slash + 1..] else path[slash + 1..][..dot - slash - 1];
    assert |left| == if dot == -1 then |path| else dot;
    assert |path[..slash + 1] + tail| == if dot <= slash then |path| else dot;
  }

  // fileTypeDetect: the last piece of the last path component, looked up.
  function FileType(lex: Lexicon, path: string): Option<string> {
    var components := Split(path, {'/'});
    var name := components[|components| - 1];
    var pieces := Split(name, {'.'});
    var extension := pieces[|pieces| - 1];
    if name == "" || extension == "" then None
    else
      var key := lex.lower(extension);
      if key in lex.extensions && lex.extensions[key] != "" then Some(lex.extensions[key]) else None
  }

  function Extension(path: string): string {
    BaseName(path)[LastIndex(BaseName(path), '.') + 1..]
  }

  // The type depends on nothing but what follows the last dot of the file name;
  // a name without a dot is its own extension.
  lemma FileTypeIsExtensionType(lex: Lexicon, path: string)
    ensures FileType(lex, path)
            == var key := lex.lower(Extension(path));
               if Extension(path) != "" && key in lex.extensions && lex.extensions[key] != ""
               then Some(lex.extensions[key]) else None
  {
    hide LastIndex, Split;
    SplitLast(path, '/');
    SplitLast(BaseName(path), '.');
  }
}
