// A compact JSON printer with a parser that undoes it: what the index and the
// export stream assume of the JSON library can be had.
module JsonPrinter {
  import opened Json
  import opened Text

  // ----- Text pieces --------------------------------------------------------

  function HexDigit(n: nat): char
    requires n < 16
  {
    "0123456789abcdef"[n]
  }

  // Quotes, backslashes and control characters are escaped (RFC 8259, section 7).
  function EscapeChar(c: char): string {
    if c == '"' then "\\\""
    else if c == '\\' then "\\\\"
    else if c < ' ' then "\\u00" + [HexDigit(c as int / 16), HexDigit(c as int % 16)]
    else [c]
  }

  function Escape(s: string): string {
    if s == "" then "" else EscapeChar(s[0]) + Escape(s[1..])
  }

  function Quote(s: string): string {
    "\"" + Escape(s) + "\""
  }

  // ----- The printer --------------------------------------------------------

  ghost function Pick(m: map<string, Json>): (k: string)
    requires m != map[]
    ensures k in m
  {
    var k :| k in m;
    k
  }

  ghost function Print(j: Json): string
    decreases j, 1, 0
  {
    match j
    case Null => "null"
    case Bool(b) => if b then "true" else "false"
    case Int(i) => Decimal(i)
    case Number(token) => token
    case Str(s) => Quote(s)
    case Arr(items) => "[" + PrintItems(j, 0)
    case Obj(members) => "{" + PrintMembers(j, members)
  }

  // The items from the n-th on, with the closing bracket.
  ghost function PrintItems(j: Json, n: nat): (s: string)
    requires j.Arr? && n <= |j.items|
    ensures s != ""
    decreases j, 0, |j.items| - n
  {
    if n == |j.items| then "]"
    else (if n == 0 then "" else ",") + Print(j.items[n]) + PrintItems(j, n + 1)
  }

  // The members still to be printed, with the closing brace.
  ghost function PrintMembers(j: Json, left: map<string, Json>): string
    requires j.Obj? && forall k | k in left :: k in j.members && left[k] == j.members[k]
    decreases j, 0, |left|
  {
    if left == map[] then "}" else
    var k := Pick(left);
    (if left == j.members then "" else ",") + Quote(k) + ":" + Print(j.members[k]) + PrintMembers(j, left - {k})
  }

  // ----- Where a piece ends -------------------------------------------------

  lemma Peel(p: string, q: string, x: string, y: string)
    requires p + x == q + y && |p| == |q|
    ensures p == q && x == y
  {
    assert (p + x)[..|p|] == p && (q + y)[..|q|] == q;
    assert (p + x)[|p|..] == x && (q + y)[|q|..] == y;
  }

  predicate IsNumeric(c: char) {
    '0' <= c <= '9' || c in {'+', '-', '.', 'e', 'E'}
  }

  predicate AllNumeric(s: string) {
    forall i | 0 <= i < |s| :: IsNumeric(s[i])
  }

  // What may follow a number.
  predicate Stops(x: string) {
    x == "" || !IsNumeric(x[0])
  }

  lemma LongerDiffers(p: string, q: string, x: string, y: string)
    requires |p| < |q| && AllNumeric(q) && Stops(x)
    ensures p + x != q + y
  {
    assert (q + y)[|p|] == q[|p|];
    if x != "" { assert (p + x)[|p|] == x[0]; }
  }

  lemma NumberEnds(p: string, q: string, x: string, y: string)
    requires p + x == q + y && AllNumeric(p) && AllNumeric(q) && Stops(x) && Stops(y)
    ensures p == q && x == y
  {
    if |p| < |q| { LongerDiffers(p, q, x, y); }
    if |q| < |p| { LongerDiffers(q, p, y, x); }
    Peel(p, q, x, y);
  }

  lemma EscapeEnds(c: char, d: char, x: string, y: string)
    requires EscapeChar(c) + x == EscapeChar(d) + y
    ensures c == d && x == y
  {
    var p, q := EscapeChar(c), EscapeChar(d);
    assert (p + x)[0] == p[0] && (q + y)[0] == q[0];
    if p[0] == '\\' {
      assert (p + x)[1] == p[1] && (q + y)[1] == q[1];
      Peel(p, q, x, y);
      if |p| == 6 {
        assert p[4] == q[4] && p[5] == q[5];
        HexUnique(c as int / 16, d as int / 16);
        HexUnique(c as int % 16, d as int % 16);
      }
    } else {
      Peel(p, q, x, y);
    }
  }

  lemma HexUnique(m: nat, n: nat)
    requires m < 16 && n < 16 && HexDigit(m) == HexDigit(n)
    ensures m == n
  {
  }

  lemma {:induction false} QuoteEnds(s: string, t: string, x: string, y: string)
    requires Escape(s) + "\"" + x == Escape(t) + "\"" + y
    ensures s == t && x == y
  {
    hide EscapeChar;
    EscapeStarts(s, x);
    EscapeStarts(t, y);
    if s != "" && t != "" {
      var u, v := Escape(s[1..]) + "\"" + x, Escape(t[1..]) + "\"" + y;
      assert Escape(s) + "\"" + x == EscapeChar(s[0]) + u;
      assert Escape(t) + "\"" + y == EscapeChar(t[0]) + v;
      EscapeEnds(s[0], t[0], u, v);
      QuoteEnds(s[1..], t[1..], x, y);
    } else {
      assert s == t == "" && Escape("") == "";
      assert "" + "\"" + x == "\"" + x && "" + "\"" + y == "\"" + y;
      Peel("\"", "\"", x, y);
    }
  }

  lemma EscapeStarts(s: string, x: string)
    ensures (Escape(s) + "\"" + x)[0] == '"' <==> s == ""
  {
  }

  // ----- Numbers ------------------------------------------------------------

  predicate HasMark(s: string) {
    exists i | 0 <= i < |s| :: s[i] in {'.', 'e', 'E'}
  }

  predicate StartsNumber(s: string) {
    s != "" && (s[0] == '-' || '0' <= s[0] <= '9')
  }

  lemma DecimalShape(i: int)
    ensures AllNumeric(Decimal(i)) && StartsNumber(Decimal(i)) && !HasMark(Decimal(i))
  {
    var n := if i < 0 then -i else i;
    NaturalIsNumber(n);
    DigitsShape(Natural(n), i < 0);
    hide Natural, NumberOf, AllNumeric, HasMark, StartsNumber;
  }

  lemma DigitsShape(digits: string, negative: bool)
    requires digits != "" && AllDigits(digits)
    ensures var s := if negative then "-" + digits else digits; AllNumeric(s) && StartsNumber(s) && !HasMark(s)
  {
    var s := if negative then "-" + digits else digits;
    assert negative ==> forall i | 1 <= i < |s| :: s[i] == digits[i - 1];
  }

  lemma DecimalSign(i: int)
    ensures Decimal(i) != "" && (Decimal(i)[0] == '-' <==> i < 0)
  {
    NaturalIsNumber(if i < 0 then -i else i);
    hide Natural, NumberOf;
  }

  lemma DecimalUnique(i: int, j: int)
    requires Decimal(i) == Decimal(j)
    ensures i == j
  {
    DecimalSign(i);
    DecimalSign(j);
    NaturalIsNumber(if i < 0 then -i else i);
    NaturalIsNumber(if j < 0 then -j else j);
    hide Natural, NumberOf;
    if i < 0 { Peel("-", "-", Natural(-i), Natural(-j)); }
  }

  lemma {:induction false} DigitsAreDigits(s: string)
    ensures forall i | 0 <= i < Digits(s) :: '0' <= s[i] <= '9'
  {
    if Digits(s) > 0 {
      DigitsAreDigits(s[1..]);
      forall i | 0 <= i < Digits(s) ensures '0' <= s[i] <= '9' { if i > 0 { assert s[i] == s[1..][i - 1]; } }
    }
  }

  lemma AllNumericConcat(p: string, q: string)
    ensures AllNumeric(p + q) <==> AllNumeric(p) && AllNumeric(q)
  {
    forall i | 0 <= i < |q| ensures (p + q)[|p| + i] == q[i] {}
    assert AllNumeric(p + q) ==> forall i | 0 <= i < |p| :: IsNumeric((p + q)[i]) && (p + q)[i] == p[i];
  }

  lemma ExponentShape(s: string)
    requires IsExponent(s)
    ensures AllNumeric(s) && s != "" && s[0] in {'e', 'E'}
  {
    var digits := if s[1] in {'+', '-'} then s[2..] else s[1..];
    DigitsAreDigits(digits);
    assert s == s[..|s| - |digits|] + digits;
    AllNumericConcat(s[..|s| - |digits|], digits);
  }

  lemma FractionalShape(s: string)
    requires IsFractional(s)
    ensures AllNumeric(s) && StartsNumber(s) && HasMark(s)
  {
    var unsigned := if s[0] == '-' then s[1..] else s;
    var whole := Digits(unsigned);
    RestShape(unsigned[whole..]);
    WholeShape(unsigned);
    hide *;
    SignedShape(s, unsigned, whole);
  }

  lemma WholeShape(unsigned: string)
    ensures AllNumeric(unsigned[..Digits(unsigned)])
    ensures Digits(unsigned) > 0 ==> '0' <= unsigned[0] <= '9'
  {
    DigitsAreDigits(unsigned);
    hide Digits;
  }

  lemma SignedShape(s: string, unsigned: string, whole: nat)
    requires s == unsigned || s == "-" + unsigned
    requires 0 < whole < |unsigned| && AllNumeric(unsigned[..whole]) && AllNumeric(unsigned[whole..])
    requires '0' <= unsigned[0] <= '9' && unsigned[whole] in {'.', 'e', 'E'}
    ensures AllNumeric(s) && StartsNumber(s) && HasMark(s)
  {
    assert unsigned == unsigned[..whole] + unsigned[whole..];
    AllNumericConcat(unsigned[..whole], unsigned[whole..]);
    AllNumericConcat("-", unsigned);
    assert s[|s| - |unsigned| + whole] == unsigned[whole];
  }

  lemma RestShape(rest: string)
    requires if rest != "" && rest[0] == '.'
             then var n := Digits(rest[1..]); n > 0 && (rest[1 + n..] == "" || IsExponent(rest[1 + n..]))
             else IsExponent(rest)
    ensures AllNumeric(rest) && rest != "" && rest[0] in {'.', 'e', 'E'}
  {
    hide IsExponent, Digits;
    if rest != "" && rest[0] == '.' {
      var n := Digits(rest[1..]);
      DigitsAreDigits(rest[1..]);
      if rest[1 + n..] != "" { ExponentShape(rest[1 + n..]); }
      assert rest == "." + rest[1..][..n] + rest[1 + n..];
      AllNumericConcat(".", rest[1..][..n]);
      AllNumericConcat("." + rest[1..][..n], rest[1 + n..]);
    } else {
      ExponentShape(rest);
    }
  }

  // ----- A text is the print of one value -----------------------------------

  predicate StartsLike(j: Json, s: string) {
    s != "" &&
    match j
    case Null => s[0] == 'n'
    case Bool(b) => s[0] == if b then 't' else 'f'
    case Int(_) => StartsNumber(s)
    case Number(_) => StartsNumber(s)
    case Str(_) => s[0] == '"'
    case Arr(_) => s[0] == '['
    case Obj(_) => s[0] == '{'
  }

  lemma PrintStarts(j: Json, x: string)
    ensures StartsLike(j, Print(j) + x)
  {
    match j {
      case Int(i) => DecimalShape(i);
      case Number(token) => FractionalShape(token);
      case _ =>
    }
    hide Decimal, IsFractional, Escape;
  }

  predicate IsNumberValue(j: Json) {
    j.Int? || j.Number?
  }

  lemma NumberUnique(a: Json, b: Json, x: string, y: string)
    requires IsNumberValue(a) && IsNumberValue(b) && Print(a) + x == Print(b) + y && Stops(x) && Stops(y)
    ensures a == b && x == y
  {
    if a.Int? { DecimalShape(a.i); } else { FractionalShape(a.token); }
    if b.Int? { DecimalShape(b.i); } else { FractionalShape(b.token); }
    hide Decimal, IsFractional;
    NumberEnds(Print(a), Print(b), x, y);
    if a.Int? && b.Int? { DecimalUnique(a.i, b.i); }
  }

  lemma ConstantUnique(a: Json, b: Json, x: string, y: string)
    requires (a.Null? || a.Bool?) && Print(a) + x == Print(b) + y
    ensures a == b && x == y
  {
    PrintStarts(a, x);
    PrintStarts(b, y);
    assert a == b by { hide Print; }
    Peel(Print(a), Print(b), x, y);
  }

  lemma StartsAlike(a: Json, b: Json, x: string, y: string)
    requires Print(a) + x == Print(b) + y
    ensures a.Null? <==> b.Null?
    ensures a.Bool? <==> b.Bool?
    ensures IsNumberValue(a) <==> IsNumberValue(b)
    ensures a.Str? <==> b.Str?
    ensures a.Arr? <==> b.Arr?
    ensures a.Obj? <==> b.Obj?
  {
    PrintStarts(a, x);
    PrintStarts(b, y);
    hide Print;
  }

  lemma PrintBehind(j: Json, x: string)
    ensures j.Str? ==> Print(j) + x == "\"" + (Escape(j.s) + "\"" + x)
    ensures j.Arr? ==> Print(j) + x == "[" + (PrintItems(j, 0) + x)
    ensures j.Obj? ==> Print(j) + x == "{" + (PrintMembers(j, j.members) + x)
  {
    hide Escape, PrintItems, PrintMembers;
  }

  lemma {:induction false} PrintUnique(a: Json, b: Json, x: string, y: string)
    requires Print(a) + x == Print(b) + y && Stops(x) && Stops(y)
    ensures a == b && x == y
    decreases a, 1, 0
  {
    hide Print, Escape, Stops;
    StartsAlike(a, b, x, y);
    PrintBehind(a, x);
    PrintBehind(b, y);
    match a {
      case Str(s) =>
        Peel("\"", "\"", Escape(s) + "\"" + x, Escape(b.s) + "\"" + y);
        QuoteEnds(s, b.s, x, y);
      case Arr(_) =>
        Peel("[", "[", PrintItems(a, 0) + x, PrintItems(b, 0) + y);
        ItemsUnique(a, b, 0, x, y);
      case Obj(m) =>
        Peel("{", "{", PrintMembers(a, m) + x, PrintMembers(b, b.members) + y);
        MembersUnique(a, b, m, b.members, x, y);
      case Int(_) => NumberUnique(a, b, x, y);
      case Number(_) => NumberUnique(a, b, x, y);
      case _ => ConstantUnique(a, b, x, y);
    }
  }

  lemma {:induction false} ItemsUnique(a: Json, b: Json, n: nat, x: string, y: string)
    requires a.Arr? && b.Arr? && n <= |a.items| && n <= |b.items| && a.items[..n] == b.items[..n]
    requires PrintItems(a, n) + x == PrintItems(b, n) + y
    ensures a == b && x == y
    decreases a, 0, |a.items| - n
  {
    hide Print;
    ItemsStart(a, n, x);
    ItemsStart(b, n, y);
    if n < |a.items| {
      var comma := if n == 0 then "" else ",";
      var u, v := PrintItems(a, n + 1) + x, PrintItems(b, n + 1) + y;
      assert PrintItems(a, n) + x == comma + (Print(a.items[n]) + u);
      assert PrintItems(b, n) + y == comma + (Print(b.items[n]) + v);
      Peel(comma, comma, Print(a.items[n]) + u, Print(b.items[n]) + v);
      ItemsStop(a, n + 1, x);
      ItemsStop(b, n + 1, y);
      PrintUnique(a.items[n], b.items[n], u, v);
      assert a.items[..n + 1] == a.items[..n] + [a.items[n]] && b.items[..n + 1] == b.items[..n] + [b.items[n]];
      ItemsUnique(a, b, n + 1, x, y);
    } else {
      assert a.items == a.items[..n] && b.items == b.items[..n];
      Peel("]", "]", x, y);
    }
  }

  // The closing bracket tells that there are no more items.
  lemma ItemsStart(j: Json, n: nat, x: string)
    requires j.Arr? && n <= |j.items|
    ensures (PrintItems(j, n) + x)[0] == ']' <==> n == |j.items|
  {
    if n < |j.items| { PrintStarts(j.items[n], PrintItems(j, n + 1)); }
    hide Print;
  }

  lemma ItemsStop(j: Json, n: nat, x: string)
    requires j.Arr? && 0 < n <= |j.items|
    ensures Stops(PrintItems(j, n) + x)
  {
    hide Print;
  }

  lemma {:induction false} MembersUnique(a: Json, b: Json, m: map<string, Json>, n: map<string, Json>,
                                         x: string, y: string)
    requires a.Obj? && b.Obj?
    requires forall k | k in m :: k in a.members && m[k] == a.members[k]
    requires forall k | k in n :: k in b.members && n[k] == b.members[k]
    requires m == a.members <==> n == b.members
    requires PrintMembers(a, m) + x == PrintMembers(b, n) + y
    ensures m == n && x == y
    decreases a, 0, |m|
  {
    hide Print, PrintMembers, Quote, Stops;
    MembersStart(a, m, x);
    MembersStart(b, n, y);
    if m != map[] {
      var k := Pick(m);
      var p, q := PrintMembers(a, m - {k}) + x, PrintMembers(b, n - {Pick(n)}) + y;
      FirstMember(a, b, m, n, x, y);
      MembersStop(a, m - {k}, x);
      MembersStop(b, n - {k}, y);
      PrintUnique(m[k], n[k], p, q);
      MembersUnique(a, b, m - {k}, n - {k}, x, y);
      assert m == (m - {k})[k := m[k]] && n == (n - {k})[k := n[k]];
    } else {
      NoMember(a, x);
      NoMember(b, y);
      Peel("}", "}", x, y);
    }
  }

  lemma NoMember(j: Json, x: string)
    requires j.Obj?
    ensures PrintMembers(j, map[]) + x == "}" + x
  {
  }

  lemma FirstMember(a: Json, b: Json, m: map<string, Json>, n: map<string, Json>, x: string, y: string)
    requires a.Obj? && b.Obj? && m != map[] && n != map[]
    requires forall k | k in m :: k in a.members && m[k] == a.members[k]
    requires forall k | k in n :: k in b.members && n[k] == b.members[k]
    requires m == a.members <==> n == b.members
    requires PrintMembers(a, m) + x == PrintMembers(b, n) + y
    ensures Pick(m) == Pick(n)
    ensures Print(m[Pick(m)]) + (PrintMembers(a, m - {Pick(m)}) + x)
            == Print(n[Pick(n)]) + (PrintMembers(b, n - {Pick(n)}) + y)
  {
    hide Print, PrintMembers, Quote;
    var k, l := Pick(m), Pick(n);
    var p, q := Print(m[k]) + (PrintMembers(a, m - {k}) + x), Print(n[l]) + (PrintMembers(b, n - {l}) + y);
    OneMember(a, m, x);
    OneMember(b, n, y);
    var comma := if m == a.members then "" else ",";
    Peel(comma, comma, Quote(k) + ":" + p, Quote(l) + ":" + q);
    KeyEnds(k, l, p, q);
  }

  lemma KeyEnds(k: string, l: string, x: string, y: string)
    requires Quote(k) + ":" + x == Quote(l) + ":" + y
    ensures k == l && x == y
  {
    hide Escape;
    assert Quote(k) + ":" + x == "\"" + (Escape(k) + "\"" + (":" + x));
    assert Quote(l) + ":" + y == "\"" + (Escape(l) + "\"" + (":" + y));
    Peel("\"", "\"", Escape(k) + "\"" + (":" + x), Escape(l) + "\"" + (":" + y));
    QuoteEnds(k, l, ":" + x, ":" + y);
    Peel(":", ":", x, y);
  }

  lemma Regroup(c: string, k: string, v: string, r: string, x: string)
    ensures c + k + ":" + v + r + x == c + (k + ":" + (v + (r + x)))
  {
  }

  lemma OneMember(j: Json, left: map<string, Json>, x: string)
    requires j.Obj? && left != map[] && forall k | k in left :: k in j.members && left[k] == j.members[k]
    ensures var k := Pick(left);
            PrintMembers(j, left) + x
            == (if left == j.members then "" else ",")
               + (Quote(k) + ":" + (Print(left[k]) + (PrintMembers(j, left - {k}) + x)))
  {
    hide Print, Quote;
    var k := Pick(left);
    Regroup(if left == j.members then "" else ",", Quote(k), Print(left[k]), PrintMembers(j, left - {k}), x);
  }

  lemma MembersStart(j: Json, left: map<string, Json>, x: string)
    requires j.Obj? && forall k | k in left :: k in j.members && left[k] == j.members[k]
    ensures (PrintMembers(j, left) + x)[0] == '}' <==> left == map[]
  {
    hide Print, Escape;
  }

  lemma MembersStop(j: Json, left: map<string, Json>, x: string)
    requires j.Obj? && forall k | k in left :: k in j.members && left[k] == j.members[k]
    requires left != j.members
    ensures Stops(PrintMembers(j, left) + x)
  {
    hide Print, Quote;
  }

  // ----- No raw newline -----------------------------------------------------

  lemma {:induction false} EscapeOneLine(s: string)
    ensures '\n' !in Escape(s)
  {
    if s != "" { EscapeOneLine(s[1..]); }
  }

  lemma {:induction false} PrintOneLine(j: Json)
    ensures '\n' !in Print(j)
    decreases j, 1, 0
  {
    match j {
      case Int(i) => DecimalShape(i);
      case Number(token) => FractionalShape(token);
      case Str(s) => EscapeOneLine(s);
      case Arr(_) => ItemsOneLine(j, 0);
      case Obj(m) => MembersOneLine(j, m);
      case _ =>
    }
    hide Decimal, Escape;
  }

  lemma {:induction false} ItemsOneLine(j: Json, n: nat)
    requires j.Arr? && n <= |j.items|
    ensures '\n' !in PrintItems(j, n)
    decreases j, 0, |j.items| - n
  {
    hide Print;
    if n < |j.items| {
      PrintOneLine(j.items[n]);
      ItemsOneLine(j, n + 1);
    }
  }

  lemma {:induction false} MembersOneLine(j: Json, left: map<string, Json>)
    requires j.Obj? && forall k | k in left :: k in j.members && left[k] == j.members[k]
    ensures '\n' !in PrintMembers(j, left)
    decreases j, 0, |left|
  {
    hide Print, Escape;
    if left != map[] {
      EscapeOneLine(Pick(left));
      PrintOneLine(j.members[Pick(left)]);
      MembersOneLine(j, left - {Pick(left)});
    }
  }

  // ----- The pair -----------------------------------------------------------

  ghost function Parse(s: string): Option<Json> {
    if j :| Print(j) == s then Some(j) else None
  }

  // Printing like this and parsing back is faithful.
  lemma FaithfulPrinter()
    ensures Faithful(JsonText(j => Print(j), s => Parse(s)))
  {
    forall j: Json ensures Parse(Print(j)) == Some(j) && Print(j) != "" && '\n' !in Print(j) {
      var k :| Print(k) == Print(j) && Parse(Print(j)) == Some(k);
      PrintUnique(k, j, "", "");
      PrintStarts(j, "");
      PrintOneLine(j);
    }
    hide Print, Parse;
  }
}
