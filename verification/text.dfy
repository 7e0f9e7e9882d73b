// String operations the rest of the model shares: ASCII lower-casing, splitting
// and joining, and the line framing of std::getline.
module Text {

  function LowerChar(c: char): char {
    if 'A' <= c <= 'Z' then (c as int + 32) as char else c
  }

  // std::tolower in the C locale, applied to every character.
  function ToLower(s: string): (r: string)
    ensures |r| == |s|
    ensures forall i | 0 <= i < |s| :: r[i] == LowerChar(s[i])
  {
    seq(|s|, i requires 0 <= i < |s| => LowerChar(s[i]))
  }

  const UPPER := "ABCDEFGHIJKLMNOPQRSTUVWXYZ"
  const LOWER := "abcdefghijklmnopqrstuvwxyz"

  // Each of the twenty-six capitals becomes its small letter, anything else stays.
  lemma ToLowerLetters(s: string, k: nat)
    requires k < |s|
    ensures forall i | 0 <= i < 26 && s[k] == UPPER[i] :: ToLower(s)[k] == LOWER[i]
    ensures s[k] !in UPPER ==> ToLower(s)[k] == s[k]
  {
    var c := s[k];
    if 'A' <= c <= 'Z' { assert UPPER[c as int - 'A' as int] == c; }
  }

  predicate IsLower(s: string) {
    ToLower(s) == s
  }

  lemma ToLowerIsLower(s: string)
    ensures IsLower(ToLower(s))
  {
    assert forall i | 0 <= i < |s| :: LowerChar(LowerChar(s[i])) == LowerChar(s[i]);
  }

  predicate EqualsIgnoreCase(a: string, b: string) {
    ToLower(a) == ToLower(b)
  }

  predicate Contains(s: string, sub: string) {
    exists i | 0 <= i <= |s| - |sub| :: sub <= s[i..]
  }

  // Index of the first character in seps, or |s| when there is none.
  function FirstIndex(s: string, seps: set<char>): (i: nat)
    ensures i <= |s|
  {
    if s == [] || s[0] in seps then 0 else 1 + FirstIndex(s[1..], seps)
  }

  lemma {:induction false} FirstIndexIs(s: string, seps: set<char>)
    ensures forall j | 0 <= j < FirstIndex(s, seps) :: s[j] !in seps
    ensures FirstIndex(s, seps) < |s| ==> s[FirstIndex(s, seps)] in seps
  {
    if s != [] && s[0] !in seps {
      FirstIndexIs(s[1..], seps);
      assert forall j | 1 <= j < |s| :: s[j] == s[1..][j - 1];
    }
  }

  lemma FirstIndexAt(s: string, c: char, i: nat)
    requires i <= |s| && (i < |s| ==> s[i] == c)
    requires forall j | 0 <= j < i :: s[j] != c
    ensures FirstIndex(s, {c}) == i
  {
    FirstIndexIs(s, {c});
    assert forall j | 0 <= j < |s| :: s[j] in {c} <==> s[j] == c;
    hide FirstIndex;
  }

  // Index of the last c in s, or -1.
  function LastIndex(s: string, c: char): (i: int)
    ensures -1 <= i < |s|
  {
    if s == [] then -1
    else if s[|s| - 1] == c then |s| - 1
    else LastIndex(s[..|s| - 1], c)
  }

  lemma {:induction false} LastIndexIs(s: string, c: char)
    ensures 0 <= LastIndex(s, c) ==> s[LastIndex(s, c)] == c
    ensures forall j | LastIndex(s, c) < j < |s| :: s[j] != c
  {
    if s != [] && s[|s| - 1] != c {
      LastIndexIs(s[..|s| - 1], c);
      assert forall j | 0 <= j < |s| - 1 :: s[j] == s[..|s| - 1][j];
    }
  }

  lemma LastIndexAt(s: string, c: char, i: nat)
    requires i < |s| && s[i] == c
    requires forall j | i < j < |s| :: s[j] != c
    ensures LastIndex(s, c) == i
  {
    hide LastIndex;
    LastIndexIs(s, c);
  }

  // The pieces between separators: n separators give n + 1 pieces.
  function Split(s: string, seps: set<char>): (parts: seq<string>)
    ensures |parts| >= 1
    decreases |s|
  {
    var i := FirstIndex(s, seps);
    if i == |s| then [s] else [s[..i]] + Split(s[i + 1..], seps)
  }

  function Join(parts: seq<string>, sep: string): string {
    if parts == [] then ""
    else if |parts| == 1 then parts[0]
    else parts[0] + sep + Join(parts[1..], sep)
  }

  // s[i..j] stands between two separators, or between one and an end of s, and
  // holds none.
  predicate IsPiece(s: string, seps: set<char>, i: nat, j: nat) {
    && i <= j <= |s|
    && (i == 0 || s[i - 1] in seps) && (j == |s| || s[j] in seps)
    && forall k | i <= k < j :: s[k] !in seps
  }

  // Where the k-th piece starts.
  function PieceStart(parts: seq<string>, k: nat): nat
    requires k <= |parts|
  {
    if k == 0 then 0 else PieceStart(parts, k - 1) + |parts[k - 1]| + 1
  }

  lemma {:induction false} PieceStartCons(first: string, rest: seq<string>, k: nat)
    requires k <= |rest|
    ensures PieceStart([first] + rest, k + 1) == |first| + 1 + PieceStart(rest, k)
  {
    if k > 0 { PieceStartCons(first, rest, k - 1); }
  }

  lemma PieceOfTail(s: string, seps: set<char>, f: nat, i: nat, j: nat)
    requires f < |s| && s[f] in seps
    ensures IsPiece(s[f + 1..], seps, i, j) <==> IsPiece(s, seps, f + 1 + i, f + 1 + j)
  {
    var t := s[f + 1..];
    assert forall k | 0 <= k < |t| :: t[k] == s[f + 1 + k];
    if IsPiece(t, seps, i, j) {
      forall k | f + 1 + i <= k < f + 1 + j ensures s[k] !in seps { assert t[k - f - 1] == s[k]; }
    }
  }

  // The pieces of a split are the pieces of the text, from left to right.
  lemma {:induction false} SplitPiece(s: string, seps: set<char>, k: nat)
    requires k < |Split(s, seps)|
    ensures var parts := Split(s, seps); var i := PieceStart(parts, k);
            IsPiece(s, seps, i, i + |parts[k]|) && parts[k] == s[i..i + |parts[k]|]
    decreases |s|
  {
    hide IsPiece, Split, FirstIndex;
    var f := FirstIndex(s, seps);
    FirstPiece(s, seps);
    if k > 0 {
      var tail, rest := s[f + 1..], Split(s[f + 1..], seps);
      SplitPiece(tail, seps, k - 1);
      PieceStartCons(s[..f], rest, k - 1);
      var i, n := PieceStart(rest, k - 1), |rest[k - 1]|;
      PieceOfTail(s, seps, f, i, i + n);
      PieceFits(tail, seps, i, i + n);
      SliceOfTail(s, f + 1, i, i + n);
      hide PieceStart;
    }
  }

  lemma SliceOfTail(s: string, a: nat, i: nat, j: nat)
    requires a <= |s| && i <= j <= |s| - a
    ensures s[a..][i..j] == s[a + i..a + j]
  {
  }

  lemma PieceFits(s: string, seps: set<char>, i: nat, j: nat)
    requires IsPiece(s, seps, i, j)
    ensures i <= j <= |s|
  {
  }

  lemma FirstPiece(s: string, seps: set<char>)
    ensures var f := FirstIndex(s, seps);
            && IsPiece(s, seps, 0, f) && Split(s, seps)[0] == s[..f]
            && (f < |s| ==> s[f] in seps && Split(s, seps) == [s[..f]] + Split(s[f + 1..], seps))
            && (f == |s| ==> Split(s, seps) == [s])
  {
    FirstIndexIs(s, seps);
    hide FirstIndex;
    assert s[..|s|] == s;
  }

  lemma {:induction false} PieceIsSplit(s: string, seps: set<char>, i: nat, j: nat) returns (k: nat)
    requires IsPiece(s, seps, i, j)
    ensures k < |Split(s, seps)| && PieceStart(Split(s, seps), k) == i && Split(s, seps)[k] == s[i..j]
    decreases |s|
  {
    var f := FirstIndex(s, seps);
    FirstPiece(s, seps);
    hide FirstIndex, Split;
    if i == 0 {
      k := 0;
      assert j == f;
    } else {
      assert i > f;
      PieceOfTail(s, seps, f, i - f - 1, j - f - 1);
      var m := PieceIsSplit(s[f + 1..], seps, i - f - 1, j - f - 1);
      PieceStartCons(s[..f], Split(s[f + 1..], seps), m);
      k := m + 1;
      assert s[f + 1..][i - f - 1..j - f - 1] == s[i..j];
    }
  }

  // A text is among the pieces of a split exactly when it is a piece of s.
  lemma SplitMembers(s: string, seps: set<char>, w: string)
    ensures w in Split(s, seps) <==> exists i: nat, j: nat :: IsPiece(s, seps, i, j) && s[i..j] == w
  {
    hide IsPiece, Split;
    if w in Split(s, seps) {
      var k :| 0 <= k < |Split(s, seps)| && Split(s, seps)[k] == w;
      SplitPiece(s, seps, k);
    }
    forall i: nat, j: nat | IsPiece(s, seps, i, j) ensures i <= j <= |s| { PieceFits(s, seps, i, j); }
    if i: nat, j: nat :| IsPiece(s, seps, i, j) && s[i..j] == w {
      var k := PieceIsSplit(s, seps, i, j);
    }
  }

  // Pieces with separators between them.
  function Glue(parts: seq<string>, between: string): string
    requires |parts| == |between| + 1
  {
    if between == "" then parts[0] else parts[0] + [between[0]] + Glue(parts[1..], between[1..])
  }

  // The pieces, in their order and with the separators put back, are the text.
  lemma {:induction false} SplitGlued(s: string, seps: set<char>) returns (between: string)
    ensures |Split(s, seps)| == |between| + 1 && Glue(Split(s, seps), between) == s
    ensures forall c | c in between :: c in seps
    decreases |s|
  {
    var f := FirstIndex(s, seps);
    FirstPiece(s, seps);
    hide FirstIndex, IsPiece, Split;
    if f == |s| {
      between := "";
    } else {
      var rest := Split(s[f + 1..], seps);
      var tail := SplitGlued(s[f + 1..], seps);
      between := [s[f]] + tail;
      assert between[1..] == tail && ([s[..f]] + rest)[1..] == rest;
      assert s == s[..f] + [s[f]] + s[f + 1..];
    }
  }

  lemma LastIndexOfTail(s: string, c: char, k: nat)
    requires k <= |s|
    ensures LastIndex(s[k..], c) == if LastIndex(s, c) < k then -1 else LastIndex(s, c) - k
  {
    LastIndexIs(s, c);
    LastIndexIs(s[k..], c);
    hide LastIndex;
    var i, j := LastIndex(s, c), LastIndex(s[k..], c);
    if 0 <= j { assert s[k + j] == c; }
    if k <= i { assert s[k..][i - k] == c; }
  }

  // Where the first and the last c of s stand relative to each other.
  lemma FirstAndLast(s: string, c: char)
    ensures FirstIndex(s, {c}) == |s| ==> LastIndex(s, c) == -1
    ensures FirstIndex(s, {c}) < |s| ==> s[FirstIndex(s, {c})] == c && FirstIndex(s, {c}) <= LastIndex(s, c)
  {
    FirstIndexIs(s, {c});
    LastIndexIs(s, c);
    hide FirstIndex, LastIndex;
    assert forall j | 0 <= j < |s| :: s[j] in {c} <==> s[j] == c;
  }

  lemma SplitUnfold(s: string, c: char)
    ensures FirstIndex(s, {c}) == |s| ==> Split(s, {c}) == [s]
    ensures FirstIndex(s, {c}) < |s| ==>
              Split(s, {c}) == [s[..FirstIndex(s, {c})]] + Split(s[FirstIndex(s, {c}) + 1..], {c})
  {
    hide FirstIndex;
  }

  // The last piece of s split at every c stands after the last c.
  lemma {:induction false} SplitLast(s: string, c: char)
    ensures |Split(s, {c})| == 1 <==> LastIndex(s, c) == -1
    ensures Split(s, {c})[|Split(s, {c})| - 1] == s[LastIndex(s, c) + 1..]
    decreases |s|
  {
    hide *;
    var f, i := FirstIndex(s, {c}), LastIndex(s, c);
    FirstAndLast(s, c);
    SplitUnfold(s, c);
    if f == |s| {
      assert s[0..] == s;
    } else {
      LastIndexOfTail(s, c, f + 1);
      SplitLast(s[f + 1..], c);
      SliceOfSlice(s, f + 1, i - f);
    }
  }

  lemma SliceOfSlice(s: string, a: nat, b: nat)
    requires a + b <= |s|
    ensures s[a..][b..] == s[a + b..]
  {
  }

  // Dropping that piece and joining the others again leaves what stands before
  // the last c.
  lemma {:induction false} JoinWithoutLast(s: string, c: char)
    requires 0 <= LastIndex(s, c)
    ensures var parts := Split(s, {c}); Join(parts[..|parts| - 1], [c]) == s[..LastIndex(s, c)]
    decreases |s|
  {
    hide *;
    var f, i := FirstIndex(s, {c}), LastIndex(s, c);
    FirstAndLast(s, c);
    SplitUnfold(s, c);
    var rest := s[f + 1..];
    var tail := Split(rest, {c});
    LastIndexOfTail(s, c, f + 1);
    SplitLast(rest, c);
    DropLast(s[..f], tail);
    if f < i {
      JoinWithoutLast(rest, c);
      JoinBeforeLast(s, c, f, i, tail[..|tail| - 1]);
    } else {
      JoinOne(s[..f], [c]);
    }
  }

  lemma DropLast(first: string, tail: seq<string>)
    requires tail != []
    ensures ([first] + tail)[..|tail|] == [first] + tail[..|tail| - 1]
  {
  }

  lemma JoinOne(part: string, sep: string)
    ensures Join([part] + [], sep) == part
  {
  }

  lemma JoinBeforeLast(s: string, c: char, f: nat, i: nat, init: seq<string>)
    requires f < i < |s| && s[f] == c && init != []
    requires Join(init, [c]) == s[f + 1..][..i - f - 1]
    ensures Join([s[..f]] + init, [c]) == s[..i]
  {
    JoinStep(s[..f], init, [c]);
    assert s[..f] + [c] + s[f + 1..][..i - f - 1] == s[..i];
  }

  lemma JoinStep(first: string, others: seq<string>, sep: string)
    requires others != []
    ensures Join([first] + others, sep) == first + sep + Join(others, sep)
  {
    assert ([first] + others)[1..] == others;
  }

  // ----- std::getline -------------------------------------------------------

  // What repeated getline calls return: a final line needs no newline, and a
  // trailing newline does not start another line.
  function Lines(s: string): seq<string>
    decreases |s|
  {
    if s == "" then []
    else
      var i := FirstIndex(s, {'\n'});
      if i == |s| then [s] else [s[..i]] + Lines(s[i + 1..])
  }

  function Unlines(lines: seq<string>): string {
    if lines == [] then "" else lines[0] + "\n" + Unlines(lines[1..])
  }

  predicate OneLine(s: string) {
    '\n' !in s
  }

  lemma {:induction false} UnlinesSnoc(lines: seq<string>, line: string)
    ensures Unlines(lines + [line]) == Unlines(lines) + line + "\n"
  {
    if lines == [] {
      assert [line][1..] == [];
    } else {
      assert (lines + [line])[1..] == lines[1..] + [line];
      UnlinesSnoc(lines[1..], line);
    }
  }

  // Writing records one per line and reading them back with getline returns the
  // very same records, in order.
  lemma {:induction false} LinesOfUnlines(lines: seq<string>)
    requires forall l | l in lines :: OneLine(l)
    ensures Lines(Unlines(lines)) == lines
  {
    if lines != [] {
      var s, l := Unlines(lines), lines[0];
      var rest := Unlines(lines[1..]);
      assert s == l + "\n" + rest;
      assert s[|l|] == '\n';
      assert forall j | 0 <= j < |l| :: s[j] == l[j];
      assert l in lines && OneLine(l);
      FirstIndexAt(s, '\n', |l|);
      assert s[..|l|] == l && s[|l| + 1..] == rest;
      forall x | x in lines[1..] ensures OneLine(x) { assert x in lines; }
      LinesOfUnlines(lines[1..]);
    }
  }

  // Writing the lines of any text again gives the text, with the newline its last
  // line may have lacked.
  lemma {:induction false} UnlinesOfLines(s: string)
    ensures Unlines(Lines(s)) == Terminated(s)
    ensures forall l | l in Lines(s) :: OneLine(l)
    decreases |s|
  {
    hide *;
    if s != "" {
      var line, rest := FirstLine(s);
      UnlinesOfLines(rest);
      UnlinesCons(line, Lines(rest));
      TerminatedLine(s, line, rest);
    } else {
      NoLines();
    }
  }

  function Terminated(s: string): string {
    if s == "" || s[|s| - 1] == '\n' then s else s + "\n"
  }

  lemma NoLines()
    ensures Lines("") == [] && Unlines([]) == "" == Terminated("")
  {
  }

  lemma FirstLine(s: string) returns (line: string, rest: string)
    requires s != ""
    ensures Lines(s) == [line] + Lines(rest) && OneLine(line) && |rest| < |s|
    ensures s == line + "\n" + rest || (s == line && rest == "")
  {
    var i := FirstIndex(s, {'\n'});
    FirstIndexIs(s, {'\n'});
    line, rest := s[..i], if i < |s| then s[i + 1..] else "";
    assert s[..|s|] == s && Lines("") == [];
    hide FirstIndex;
    if i < |s| { assert s == s[..i] + [s[i]] + s[i + 1..]; }
  }

  lemma TerminatedLine(s: string, line: string, rest: string)
    requires s != "" && OneLine(line)
    requires s == line + "\n" + rest || (s == line && rest == "")
    ensures Terminated(s) == line + "\n" + Terminated(rest)
  {
    if s == line {
      assert s[|s| - 1] in line;
    } else if rest != "" {
      assert s[|s| - 1] == rest[|rest| - 1];
    } else {
      assert s[|s| - 1] == '\n' && line + "\n" + "" == s;
    }
  }

  lemma UnlinesCons(line: string, lines: seq<string>)
    ensures Unlines([line] + lines) == line + "\n" + Unlines(lines)
  {
    assert ([line] + lines)[1..] == lines;
  }

  // ----- Decimal numbers ----------------------------------------------------

  const DIGITS := "0123456789"

  function Natural(n: nat): string {
    (if n < 10 then "" else Natural(n / 10)) + [DIGITS[n % 10]]
  }

  // std::to_string of a whole number
  function Decimal(i: int): string {
    if i < 0 then "-" + Natural(-i) else Natural(i)
  }

  predicate AllDigits(s: string) {
    forall i | 0 <= i < |s| :: '0' <= s[i] <= '9'
  }

  // The number that a row of digits stands for.
  function NumberOf(digits: string): nat
    requires AllDigits(digits)
  {
    if digits == "" then 0
    else 10 * NumberOf(digits[..|digits| - 1]) + (digits[|digits| - 1] as int - '0' as int)
  }

  // It is printed in decimal digits, without leading zeros.
  lemma {:induction false} NaturalIsNumber(n: nat)
    ensures Natural(n) != "" && AllDigits(Natural(n)) && NumberOf(Natural(n)) == n
    ensures n > 0 ==> Natural(n)[0] != '0'
  {
    hide *;
    var init := if n < 10 then "" else Natural(n / 10);
    var c := LastDigit(n);
    if n >= 10 {
      NaturalIsNumber(n / 10);
    } else {
      NoDigits();
    }
    NumberOfSnoc(init, c, n % 10);
  }

  lemma NoDigits()
    ensures AllDigits("") && NumberOf("") == 0
  {
  }

  lemma LastDigit(n: nat) returns (c: char)
    ensures Natural(n) == (if n < 10 then "" else Natural(n / 10)) + [c]
    ensures '0' <= c <= '9' && c as int - '0' as int == n % 10
  {
    c := DIGITS[n % 10];
  }

  lemma NumberOfSnoc(digits: string, c: char, d: nat)
    requires AllDigits(digits) && '0' <= c <= '9' && c as int - '0' as int == d
    ensures AllDigits(digits + [c]) && NumberOf(digits + [c]) == 10 * NumberOf(digits) + d
  {
    assert (digits + [c])[..|digits|] == digits;
  }
}
