// JSON values as the torrent codec sees them, and the printer/parser pair the
// index and the export stream use.
module Json {

  datatype Option<+T> = None | Some(value: T)

  // The number of digits that s starts with.
  function Digits(s: string): (n: nat)
    ensures n <= |s|
  {
    if s != "" && '0' <= s[0] <= '9' then 1 + Digits(s[1..]) else 0
  }

  predicate IsExponent(s: string) {
    |s| > 1 && s[0] in {'e', 'E'} &&
    var digits := if s[1] in {'+', '-'} then s[2..] else s[1..];
    digits != "" && Digits(digits) == |digits|
  }

  // A number with a fraction, an exponent or both (RFC 8259, section 6).
  predicate IsFractional(s: string) {
    var unsigned := if s != "" && s[0] == '-' then s[1..] else s;
    var whole := Digits(unsigned);
    var rest := unsigned[whole..];
    && whole > 0 && (unsigned[0] == '0' ==> whole == 1)
    && if rest != "" && rest[0] == '.'
       then var n := Digits(rest[1..]); n > 0 && (rest[1 + n..] == "" || IsExponent(rest[1 + n..]))
       else IsExponent(rest)
  }

  type Fractional = s: string | IsFractional(s) witness "0.5"

  // Object members are looked up by name only, so their order is not kept; a
  // number that is not whole is kept as its printed token.
  datatype Json =
    | Null
    | Bool(b: bool)
    | Int(i: int)
    | Number(token: Fractional)
    | Str(s: string)
    | Arr(items: seq<Json>)
    | Obj(members: map<string, Json>)
  {
    // Json::value(key, default) for a member holding text.
    function Text(key: string, default: string): string {
      if Obj? && key in members && members[key].Str? then members[key].s else default
    }

    // Json::value(key, default) for a member holding a whole number.
    function Whole(key: string, default: int): int {
      if Obj? && key in members && members[key].Int? then members[key].i else default
    }

    function Find(key: string): Option<Json> {
      if Obj? && key in members then Some(members[key]) else None
    }

    // Json::empty(): null and containers without elements.
    predicate Empty() {
      Null? || (Arr? && items == []) || (Obj? && members == map[])
    }
  }

  // Json::dump() and Json::parse(text, nullptr, false); None is a discarded parse.
  datatype JsonText = JsonText(dump: Json -> string, parse: string -> Option<Json>)

  // What compact JSON promises (RFC 8259, sections 2, 4 and 7): a printed value
  // parses back to itself, is not the empty text, and holds no raw newline.
  ghost predicate Faithful(text: JsonText) {
    forall j: Json ::
      && text.parse(text.dump(j)) == Some(j)
      && text.dump(j) != ""
      && '\n' !in text.dump(j)
  }
}
