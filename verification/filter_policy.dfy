// The rules that decide whether a torrent may stay in the index.
module FilterPolicy {
  import opened Json
  import opened Text
  import opened Torrents

  datatype FilterSettings = FilterSettings(
    maxFiles: int,
    sizeMin: int,
    sizeMax: int,
    adultFilter: bool,
    namingRegExp: string,
    namingRegExpNegative: bool,
    contentTypeFilter: string,
    trackerAllow: seq<string>,
    trackerDeny: seq<string>,
    trackerRequireKnown: bool)

  // The regular-expression engine: None is a pattern that does not compile.
  type Pcre = string -> Option<string -> bool>

  datatype Policy = Policy(settings: FilterSettings, namingRegex: Option<string -> bool>)

  predicate IsValidNamingRegExp(pattern: string, pcre: Pcre) {
    pattern == "" || pcre(pattern).Some?
  }

  function MakePolicy(settings: FilterSettings, pcre: Pcre): Policy {
    Policy(settings, if settings.namingRegExp == "" then None else pcre(settings.namingRegExp))
  }

  // ----- Messages -----------------------------------------------------------

  datatype Rule =
    | TooManyFiles | SizeTooSmall | SizeTooLarge | AdultKeyword | AdultCategory
    | NameBlocked | NameRequired | TypeNotAllowed
    | NoTrackerIdentity | TrackerDenied | TrackerNotAllowed

  function Label(r: Rule): (text: string)
    ensures text != ""
  {
    match r
    case TooManyFiles => "Too many files"
    case SizeTooSmall => "Size too small"
    case SizeTooLarge => "Size too large"
    case AdultKeyword => "Adult content detected"
    case AdultCategory => "Adult content category"
    case NameBlocked => "Name matches blocked pattern"
    case NameRequired => "Name doesn't match required pattern"
    case TypeNotAllowed => "Content type not allowed"
    case NoTrackerIdentity => "No tracker identity (trackerRequireKnown)"
    case TrackerDenied => "Tracker denied"
    case TrackerNotAllowed => "Tracker not in allow list"
  }

  function Message(r: Rule, detail: string): (message: string)
    ensures message != ""
  {
    Label(r) + ": " + detail
  }

  function NonEmpty(parts: seq<string>): seq<string> {
    if parts == [] then []
    else (if parts[0] == "" then [] else [parts[0]]) + NonEmpty(parts[1..])
  }

  function SplitCsv(s: string): seq<string> {
    NonEmpty(Split(s, {','}))
  }

  predicate IsBlank(c: char) {
    c in {' ', '\t', '\r', '\n'}
  }

  function Trim(s: string): string
    decreases |s|
  {
    if s == "" then ""
    else if IsBlank(s[0]) then Trim(s[1..])
    else if IsBlank(s[|s| - 1]) then Trim(s[..|s| - 1])
    else s
  }

  const ADULT_KEYWORDS := ["xxx", "porn", "sex", "adult", "18+", "nsfw"]

  function FirstKeyword(nameLower: string, keywords: seq<string>): Option<string> {
    if keywords == [] then None
    else if Contains(nameLower, keywords[0]) then Some(keywords[0])
    else FirstKeyword(nameLower, keywords[1..])
  }

  function FirstDenied(trackers: seq<string>, deny: seq<string>): Option<string> {
    if trackers == [] then None
    else if exists d | d in deny :: EqualsIgnoreCase(trackers[0], d) then Some(trackers[0])
    else FirstDenied(trackers[1..], deny)
  }

  // One content-type token: "application" covers software and games.
  predicate TokenAllows(token: string, t: ContentType) {
    if EqualsIgnoreCase(token, "application") then t == Software || t == Games
    else EqualsIgnoreCase(TypeName(t), token)
  }

  function CheckFileCount(s: FilterSettings, t: Torrent): string {
    if s.maxFiles > 0 && t.files > s.maxFiles
    then Message(TooManyFiles, Decimal(t.files) + " > " + Decimal(s.maxFiles)) else ""
  }

  function CheckSize(s: FilterSettings, t: Torrent): string {
    if s.sizeMin > 0 && t.size < s.sizeMin
    then Message(SizeTooSmall, Decimal(t.size) + " < " + Decimal(s.sizeMin))
    else if s.sizeMax > 0 && t.size > s.sizeMax
    then Message(SizeTooLarge, Decimal(t.size) + " > " + Decimal(s.sizeMax)) else ""
  }

  function CheckAdult(s: FilterSettings, t: Torrent): string {
    if !s.adultFilter then "" else
    match FirstKeyword(ToLower(t.name), ADULT_KEYWORDS)
    case Some(keyword) => Message(AdultKeyword, keyword)
    case None => if t.contentCategory == XXX then Label(AdultCategory) else ""
  }

  function CheckNamingRegExp(p: Policy, t: Torrent): string {
    if p.settings.namingRegExp == "" || p.namingRegex.None? then "" else
    var matches := p.namingRegex.value(t.name);
    if p.settings.namingRegExpNegative
    then if matches then Message(NameBlocked, p.settings.namingRegExp) else ""
    else if !matches then Message(NameRequired, p.settings.namingRegExp) else ""
  }

  function CheckContentType(s: FilterSettings, t: Torrent): string {
    var filter := s.contentTypeFilter;
    if filter == "" || EqualsIgnoreCase(filter, "all") then "" else
    var allowed := SplitCsv(filter);
    if allowed == [] || exists raw | raw in allowed :: TokenAllows(Trim(raw), t.contentType) then ""
    else Message(TypeNotAllowed, TypeName(t.contentType))
  }

  function CheckTrackerPolicy(s: FilterSettings, t: Torrent): string {
    if s.trackerAllow == [] && s.trackerDeny == [] && !s.trackerRequireKnown then "" else
    var trackers := TrackerNames(t.info);
    if trackers == [] then
      if s.trackerRequireKnown then Label(NoTrackerIdentity) else ""
    else match FirstDenied(trackers, s.trackerDeny)
      case Some(name) => Message(TrackerDenied, name)
      case None =>
        if || s.trackerAllow == []
           || exists tr, allow | tr in trackers && allow in s.trackerAllow :: EqualsIgnoreCase(tr, allow)
        then "" else Label(TrackerNotAllowed)
  }

  // FilterPolicy::rejectionReason: the first check that objects; "" is accepted.
  function RejectionReason(p: Policy, t: Torrent): string {
    var s := p.settings;
    if CheckFileCount(s, t) != "" then CheckFileCount(s, t)
    else if CheckSize(s, t) != "" then CheckSize(s, t)
    else if CheckAdult(s, t) != "" then CheckAdult(s, t)
    else if CheckNamingRegExp(p, t) != "" then CheckNamingRegExp(p, t)
    else if CheckContentType(s, t) != "" then CheckContentType(s, t)
    else CheckTrackerPolicy(s, t)
  }

  // The policy as the commands use it: the rejection reason of every torrent.
  type Reasons = Torrent -> string

  function ReasonsOf(settings: FilterSettings, pcre: Pcre): Reasons {
    t => RejectionReason(MakePolicy(settings, pcre), t)
  }

  // reasonCategory: the message up to its first ':'.
  function ReasonCategory(reason: string): string {
    reason[..FirstIndex(reason, {':'})]
  }

  // ----- The rules, stated one by one ---------------------------------------

  // The rules in the order the policy tries them.
  const RULES := [
    TooManyFiles, SizeTooSmall, SizeTooLarge, AdultKeyword, AdultCategory,
    NameBlocked, NameRequired, TypeNotAllowed,
    NoTrackerIdentity, TrackerDenied, TrackerNotAllowed]

  // What breaks each rule of a configuration.
  ghost predicate Breaks(s: FilterSettings, pcre: Pcre, t: Torrent, r: Rule) {
    var name, known := ToLower(t.name), TrackerNames(t.info);
    match r
    case TooManyFiles => 0 < s.maxFiles < t.files
    case SizeTooSmall => 0 < s.sizeMin && t.size < s.sizeMin
    case SizeTooLarge => 0 < s.sizeMax < t.size
    case AdultKeyword =>
      && s.adultFilter
      && exists i: nat, j: nat | i <= j <= |name| ::
           name[i..j] in {"xxx", "porn", "sex", "adult", "18+", "nsfw"}
    case AdultCategory => s.adultFilter && t.contentCategory == XXX
    case NameBlocked =>
      && s.namingRegExp != "" && s.namingRegExpNegative
      && pcre(s.namingRegExp).Some? && pcre(s.namingRegExp).value(t.name)
    case NameRequired =>
      && s.namingRegExp != "" && !s.namingRegExpNegative
      && pcre(s.namingRegExp).Some? && !pcre(s.namingRegExp).value(t.name)
    case TypeNotAllowed =>
      && s.contentTypeFilter != "" && ToLower(s.contentTypeFilter) != "all"
      && (exists raw :: Listed(s.contentTypeFilter, raw))
      && forall raw | Listed(s.contentTypeFilter, raw) ::
           && ToLower(Trim(raw)) != ToLower(TypeName(t.contentType))
           && !(ToLower(Trim(raw)) == "application" && t.contentType in {Software, Games})
    case NoTrackerIdentity => s.trackerRequireKnown && known == []
    case TrackerDenied => exists tr, d | tr in known && d in s.trackerDeny :: ToLower(tr) == ToLower(d)
    case TrackerNotAllowed =>
      && known != [] && s.trackerAllow != []
      && forall tr, a | tr in known && a in s.trackerAllow :: ToLower(tr) != ToLower(a)
  }

  // raw stands between two commas of the list, and is not empty.
  ghost predicate Listed(list: string, raw: string) {
    raw != "" && exists i: nat, j: nat :: IsPiece(list, {','}, i, j) && list[i..j] == raw
  }

  // A message that starts with the rule's label, followed by nothing or by a
  // colon and the details.
  ghost predicate Names(reason: string, r: Rule) {
    reason == Label(r) || Label(r) + ":" <= reason
  }

  // reason is the verdict of trying these rules in turn: empty exactly when none
  // is broken, and otherwise naming the first broken one.
  ghost predicate Verdict(s: FilterSettings, pcre: Pcre, t: Torrent, reason: string, rules: seq<Rule>) {
    && (reason == "" <==> forall r | r in rules :: !Breaks(s, pcre, t, r))
    && (reason != "" ==> exists i: nat | i < |rules| :: FirstBroken(s, pcre, t, rules, i) && Names(reason, rules[i]))
  }

  ghost predicate FirstBroken(s: FilterSettings, pcre: Pcre, t: Torrent, rules: seq<Rule>, i: nat)
    requires i < |rules|
  {
    Breaks(s, pcre, t, rules[i]) && forall j | 0 <= j < i :: !Breaks(s, pcre, t, rules[j])
  }

  lemma VerdictThen(s: FilterSettings, pcre: Pcre, t: Torrent, first: string, early: seq<Rule>, second: string,
                    late: seq<Rule>)
    requires Verdict(s, pcre, t, first, early) && Verdict(s, pcre, t, second, late)
    ensures Verdict(s, pcre, t, if first != "" then first else second, early + late)
  {
    hide Breaks, Names;
    var rules := early + late;
    if first != "" {
      var i: nat :| i < |early| && FirstBroken(s, pcre, t, early, i) && Names(first, early[i]);
      assert rules[i] == early[i] && early[i] in early && rules[i] in rules;
      assert FirstBroken(s, pcre, t, rules, i);
    } else if second != "" {
      var i: nat :| i < |late| && FirstBroken(s, pcre, t, late, i) && Names(second, late[i]);
      var k := |early| + i;
      assert rules[k] == late[i] && rules[k] in rules;
      forall j | 0 <= j < k ensures !Breaks(s, pcre, t, rules[j]) {
        if j < |early| { assert early[j] in early; } else { assert rules[j] == late[j - |early|]; }
      }
      assert FirstBroken(s, pcre, t, rules, k);
    }
  }

  lemma MessageNames(r: Rule, detail: string)
    ensures Names(Message(r, detail), r)
  {
    hide Label;
    assert Message(r, detail) == (Label(r) + ":") + (" " + detail);
  }

  // Every message of one rule falls into one bucket, whatever its details are.
  lemma CategoryOfRule(reason: string, r: Rule)
    requires Names(reason, r)
    ensures ReasonCategory(reason) == Label(r)
  {
    LabelHasNoColon(r);
    hide Label;
    CategoryOfLabel(reason, Label(r));
  }

  lemma LabelHasNoColon(r: Rule)
    ensures ':' !in Label(r)
  {
    if r.NameBlocked? || r.NameRequired? || r.NoTrackerIdentity? {
      LongLabelHasNoColon(r);
    } else {
      ShortLabelHasNoColon(r);
    }
  }

  lemma LongLabelHasNoColon(r: Rule)
    requires r.NameBlocked? || r.NameRequired? || r.NoTrackerIdentity?
    ensures ':' !in Label(r)
  {
  }

  lemma ShortLabelHasNoColon(r: Rule)
    requires !r.NameBlocked? && !r.NameRequired? && !r.NoTrackerIdentity?
    ensures ':' !in Label(r)
  {
  }

  lemma CategoryOfLabel(reason: string, prefix: string)
    requires ':' !in prefix
    requires reason == prefix || prefix + ":" <= reason
    ensures ReasonCategory(reason) == prefix
  {
    assert prefix <= reason;
    assert forall j | 0 <= j < |prefix| :: reason[j] == prefix[j] && prefix[j] in prefix;
    if reason != prefix {
      assert reason[|prefix|] == (prefix + ":")[|prefix|];
    }
    FirstIndexAt(reason, ':', |prefix|);
  }

  lemma LabelsDistinct(r: Rule, q: Rule)
    ensures Label(r) == Label(q) ==> r == q
  {
    LabelSignature(r);
    LabelSignature(q);
  }

  lemma LabelSignature(r: Rule)
    ensures |Label(r)| == match r
            case TooManyFiles => 14 case SizeTooSmall => 14 case SizeTooLarge => 14
            case AdultKeyword => 22 case AdultCategory => 22
            case NameBlocked => 28 case NameRequired => 35 case TypeNotAllowed => 24
            case NoTrackerIdentity => 41 case TrackerDenied => 14 case TrackerNotAllowed => 25
    ensures |Label(r)| == 14 ==> Label(r)[9] == match r
            case TooManyFiles => 'f' case SizeTooSmall => 's' case SizeTooLarge => 'l' case _ => 'e'
    ensures |Label(r)| == 22 ==> Label(r)[14] == if r == AdultKeyword then 'd' else 'c'
  {
  }

  // One rule on its own.
  lemma VerdictOf(s: FilterSettings, pcre: Pcre, t: Torrent, reason: string, r: Rule)
    requires reason == "" <==> !Breaks(s, pcre, t, r)
    requires reason == "" || reason == Label(r) || exists detail :: reason == Message(r, detail)
    ensures Verdict(s, pcre, t, reason, [r])
  {
    if detail :| reason == Message(r, detail) { MessageNames(r, detail); }
    if reason != "" { assert FirstBroken(s, pcre, t, [r], 0); }
  }

  lemma SizeVerdict(s: FilterSettings, pcre: Pcre, t: Torrent)
    ensures Verdict(s, pcre, t, CheckSize(s, t), [SizeTooSmall, SizeTooLarge])
  {
    hide Label, Message;
    var small := if s.sizeMin > 0 && t.size < s.sizeMin then CheckSize(s, t) else "";
    var large := if s.sizeMax > 0 && t.size > s.sizeMax
      then Message(SizeTooLarge, Decimal(t.size) + " > " + Decimal(s.sizeMax)) else "";
    VerdictOf(s, pcre, t, small, SizeTooSmall);
    VerdictOf(s, pcre, t, large, SizeTooLarge);
    VerdictThen(s, pcre, t, small, [SizeTooSmall], large, [SizeTooLarge]);
    assert [SizeTooSmall] + [SizeTooLarge] == [SizeTooSmall, SizeTooLarge];
  }

  // The keyword that is shown is the first of the list to occur.
  lemma {:induction false} FirstKeywordFinds(name: string, keywords: seq<string>)
    ensures FirstKeyword(name, keywords).Some? <==> exists k | k in keywords :: Contains(name, k)
    ensures FirstKeyword(name, keywords).Some? ==>
              exists i | 0 <= i < |keywords| ::
                && FirstKeyword(name, keywords) == Some(keywords[i]) && Contains(name, keywords[i])
                && forall j | 0 <= j < i :: !Contains(name, keywords[j])
  {
    hide Contains;
    if keywords != [] {
      var rest := keywords[1..];
      FirstKeywordFinds(name, rest);
      if Contains(name, keywords[0]) {
        assert FirstKeyword(name, keywords) == Some(keywords[0]);
      } else if FirstKeyword(name, rest).Some? {
        var i :| 0 <= i < |rest| && FirstKeyword(name, rest) == Some(rest[i]) && Contains(name, rest[i])
                 && forall j | 0 <= j < i :: !Contains(name, rest[j]);
        assert keywords[i + 1] == rest[i];
        forall j | 0 <= j < i + 1 ensures !Contains(name, keywords[j]) {
          if j > 0 { assert keywords[j] == rest[j - 1]; }
        }
      }
    }
  }

  lemma ContainsSlice(s: string, sub: string)
    ensures Contains(s, sub) <==> exists i: nat, j: nat | i <= j <= |s| :: s[i..j] == sub
  {
    if i :| 0 <= i <= |s| - |sub| && sub <= s[i..] {
      assert s[i..i + |sub|] == s[i..][..|sub|] == sub;
    }
    if i: nat, j: nat :| i <= j <= |s| && s[i..j] == sub {
      assert j == i + |sub| && s[i..] == sub + s[j..];
    }
  }

  lemma AdultKeywordFound(s: FilterSettings, pcre: Pcre, t: Torrent)
    ensures s.adultFilter && FirstKeyword(ToLower(t.name), ADULT_KEYWORDS).Some? <==> Breaks(s, pcre, t, AdultKeyword)
  {
    hide ToLower, Contains, FirstKeyword;
    var name, words := ToLower(t.name), {"xxx", "porn", "sex", "adult", "18+", "nsfw"};
    FirstKeywordFinds(name, ADULT_KEYWORDS);
    assert forall k :: k in ADULT_KEYWORDS <==> k in words;
    hide ADULT_KEYWORDS;
    if k :| k in words && Contains(name, k) {
      ContainsSlice(name, k);
      var i: nat, j: nat :| i <= j <= |name| && name[i..j] == k;
      assert name[i..j] in words;
    }
    if i: nat, j: nat :| i <= j <= |name| && name[i..j] in words {
      ContainsSlice(name, name[i..j]);
    }
  }

  lemma AdultVerdict(s: FilterSettings, pcre: Pcre, t: Torrent)
    ensures Verdict(s, pcre, t, CheckAdult(s, t), [AdultKeyword, AdultCategory])
  {
    hide Label, Message;
    AdultKeywordFound(s, pcre, t);
    var word := if s.adultFilter && FirstKeyword(ToLower(t.name), ADULT_KEYWORDS).Some? then CheckAdult(s, t) else "";
    var category := if s.adultFilter && t.contentCategory == XXX then Label(AdultCategory) else "";
    VerdictOf(s, pcre, t, word, AdultKeyword);
    VerdictOf(s, pcre, t, category, AdultCategory);
    VerdictThen(s, pcre, t, word, [AdultKeyword], category, [AdultCategory]);
    assert [AdultKeyword] + [AdultCategory] == [AdultKeyword, AdultCategory];
  }

  lemma NamingVerdict(s: FilterSettings, pcre: Pcre, t: Torrent)
    ensures Verdict(s, pcre, t, CheckNamingRegExp(MakePolicy(s, pcre), t), [NameBlocked, NameRequired])
  {
    hide Label, Message;
    var reason, negative := CheckNamingRegExp(MakePolicy(s, pcre), t), s.namingRegExpNegative;
    var blocked, required := if negative then reason else "", if negative then "" else reason;
    VerdictOf(s, pcre, t, blocked, NameBlocked);
    VerdictOf(s, pcre, t, required, NameRequired);
    VerdictThen(s, pcre, t, blocked, [NameBlocked], required, [NameRequired]);
    assert [NameBlocked] + [NameRequired] == [NameBlocked, NameRequired];
  }

  ghost predicate DeniedBy(deny: seq<string>, tracker: string) {
    exists d | d in deny :: EqualsIgnoreCase(tracker, d)
  }

  // The tracker that is shown is the torrent's first to be denied.
  lemma {:induction false} FirstDeniedFinds(trackers: seq<string>, deny: seq<string>)
    ensures FirstDenied(trackers, deny).Some?
            <==> exists tr, d | tr in trackers && d in deny :: EqualsIgnoreCase(tr, d)
    ensures FirstDenied(trackers, deny).Some? ==>
              exists i | 0 <= i < |trackers| ::
                && FirstDenied(trackers, deny) == Some(trackers[i]) && DeniedBy(deny, trackers[i])
                && forall j | 0 <= j < i :: !DeniedBy(deny, trackers[j])
  {
    hide EqualsIgnoreCase;
    if trackers != [] {
      var rest := trackers[1..];
      FirstDeniedFinds(rest, deny);
      if DeniedBy(deny, trackers[0]) {
        assert FirstDenied(trackers, deny) == Some(trackers[0]);
      } else if FirstDenied(rest, deny).Some? {
        hide DeniedBy;
        var i :| 0 <= i < |rest| && FirstDenied(rest, deny) == Some(rest[i]) && DeniedBy(deny, rest[i])
                 && forall j | 0 <= j < i :: !DeniedBy(deny, rest[j]);
        assert trackers[i + 1] == rest[i];
        forall j | 0 <= j < i + 1 ensures !DeniedBy(deny, trackers[j]) {
          if j > 0 { assert trackers[j] == rest[j - 1]; }
        }
      }
    }
  }

  lemma TrackerVerdict(s: FilterSettings, pcre: Pcre, t: Torrent)
    ensures Verdict(s, pcre, t, CheckTrackerPolicy(s, t), [NoTrackerIdentity, TrackerDenied, TrackerNotAllowed])
  {
    hide Label, Message, Verdict, ToLower, TrackerNames;
    var known := TrackerNames(t.info);
    FirstDeniedFinds(known, s.trackerDeny);
    var unknown := if s.trackerRequireKnown && known == [] then Label(NoTrackerIdentity) else "";
    var denied := match FirstDenied(known, s.trackerDeny)
      case Some(name) => Message(TrackerDenied, name)
      case None => "";
    var outside := if Breaks(s, pcre, t, TrackerNotAllowed) then Label(TrackerNotAllowed) else "";
    VerdictOf(s, pcre, t, unknown, NoTrackerIdentity);
    VerdictOf(s, pcre, t, denied, TrackerDenied);
    VerdictOf(s, pcre, t, outside, TrackerNotAllowed);
    var later := if denied != "" then denied else outside;
    assert CheckTrackerPolicy(s, t) == if unknown != "" then unknown else later;
    hide Breaks, CheckTrackerPolicy, FirstDenied;
    VerdictThen(s, pcre, t, denied, [TrackerDenied], outside, [TrackerNotAllowed]);
    assert [TrackerDenied] + [TrackerNotAllowed] == [TrackerDenied, TrackerNotAllowed];
    VerdictThen(s, pcre, t, unknown, [NoTrackerIdentity], later, [TrackerDenied, TrackerNotAllowed]);
    assert [NoTrackerIdentity] + [TrackerDenied, TrackerNotAllowed]
        == [NoTrackerIdentity, TrackerDenied, TrackerNotAllowed];
  }

  lemma {:induction false} NonEmptyMembers(parts: seq<string>, w: string)
    ensures w in NonEmpty(parts) <==> w in parts && w != ""
  {
    if parts != [] { NonEmptyMembers(parts[1..], w); }
  }

  // The tokens of a comma-separated list.
  lemma SplitCsvIs(list: string, raw: string)
    ensures raw in SplitCsv(list) <==> Listed(list, raw)
  {
    hide Split, IsPiece, NonEmpty;
    NonEmptyMembers(Split(list, {','}), raw);
    SplitMembers(list, {','}, raw);
  }

  // Trimming cuts blanks off both ends until none is left there.
  lemma {:induction false} TrimIs(s: string) returns (i: nat, j: nat)
    ensures i <= j <= |s| && Trim(s) == s[i..j]
    ensures forall k | 0 <= k < i || j <= k < |s| :: s[k] in {' ', '\t', '\r', '\n'}
    ensures i < j ==> s[i] !in {' ', '\t', '\r', '\n'} && s[j - 1] !in {' ', '\t', '\r', '\n'}
    decreases |s|
  {
    if s == "" {
      i, j := 0, 0;
    } else if IsBlank(s[0]) {
      var a, b := TrimIs(s[1..]);
      i, j := a + 1, b + 1;
    } else if IsBlank(s[|s| - 1]) {
      i, j := TrimIs(s[..|s| - 1]);
    } else {
      i, j := 0, |s|;
      assert s[0..|s|] == s;
    }
  }

  lemma TypeVerdict(s: FilterSettings, pcre: Pcre, t: Torrent)
    ensures Verdict(s, pcre, t, CheckContentType(s, t), [TypeNotAllowed])
  {
    hide Label, Message, Trim, ToLower, SplitCsv, Listed, TypeName;
    var list := s.contentTypeFilter;
    forall raw ensures raw in SplitCsv(list) <==> Listed(list, raw) { SplitCsvIs(list, raw); }
    LowerWords(t.contentType);
    assert SplitCsv(list) != [] ==> SplitCsv(list)[0] in SplitCsv(list);
    assert CheckContentType(s, t) == "" <==> !Breaks(s, pcre, t, TypeNotAllowed);
    VerdictOf(s, pcre, t, CheckContentType(s, t), TypeNotAllowed);
  }

  lemma LowerWords(t: ContentType)
    ensures ToLower("application") == "application" && ToLower("all") == "all"
    ensures ToLower(TypeName(t)) != "application"
  {
    assert |ToLower(TypeName(t))| == |TypeName(t)| < |"application"|;
  }

  lemma PolicyVerdict(s: FilterSettings, pcre: Pcre, t: Torrent)
    ensures Verdict(s, pcre, t, RejectionReason(MakePolicy(s, pcre), t), RULES)
  {
    hide Label, Message, Verdict;
    VerdictOf(s, pcre, t, CheckFileCount(s, t), TooManyFiles);
    SizeVerdict(s, pcre, t);
    AdultVerdict(s, pcre, t);
    NamingVerdict(s, pcre, t);
    TypeVerdict(s, pcre, t);
    TrackerVerdict(s, pcre, t);
    hide Breaks, CheckFileCount, CheckSize, CheckAdult, CheckNamingRegExp, CheckContentType, CheckTrackerPolicy;
    InTurn(s, pcre, t, CheckFileCount(s, t), CheckSize(s, t), CheckAdult(s, t),
           CheckNamingRegExp(MakePolicy(s, pcre), t), CheckContentType(s, t), CheckTrackerPolicy(s, t));
  }

  lemma InTurn(s: FilterSettings, pcre: Pcre, t: Torrent,
               c1: string, c2: string, c3: string, c4: string, c5: string, c6: string)
    requires Verdict(s, pcre, t, c1, [TooManyFiles])
    requires Verdict(s, pcre, t, c2, [SizeTooSmall, SizeTooLarge])
    requires Verdict(s, pcre, t, c3, [AdultKeyword, AdultCategory])
    requires Verdict(s, pcre, t, c4, [NameBlocked, NameRequired])
    requires Verdict(s, pcre, t, c5, [TypeNotAllowed])
    requires Verdict(s, pcre, t, c6, [NoTrackerIdentity, TrackerDenied, TrackerNotAllowed])
    ensures Verdict(s, pcre, t, if c1 != "" then c1 else if c2 != "" then c2 else if c3 != "" then c3
                          else if c4 != "" then c4 else if c5 != "" then c5 else c6, RULES)
  {
    hide Verdict;
    var d5 := if c5 != "" then c5 else c6;
    var d4 := if c4 != "" then c4 else d5;
    var d3 := if c3 != "" then c3 else d4;
    var d2 := if c2 != "" then c2 else d3;
    var late := [NoTrackerIdentity, TrackerDenied, TrackerNotAllowed];
    VerdictThen(s, pcre, t, c5, [TypeNotAllowed], c6, late);
    late := [TypeNotAllowed] + late;
    VerdictThen(s, pcre, t, c4, [NameBlocked, NameRequired], d5, late);
    late := [NameBlocked, NameRequired] + late;
    VerdictThen(s, pcre, t, c3, [AdultKeyword, AdultCategory], d4, late);
    late := [AdultKeyword, AdultCategory] + late;
    VerdictThen(s, pcre, t, c2, [SizeTooSmall, SizeTooLarge], d3, late);
    late := [SizeTooSmall, SizeTooLarge] + late;
    VerdictThen(s, pcre, t, c1, [TooManyFiles], d2, late);
    assert [TooManyFiles] + late == RULES;
  }

  lemma EveryRuleListed(r: Rule)
    ensures r in RULES
  {
    assert r in {RULES[0], RULES[1], RULES[2], RULES[3], RULES[4], RULES[5],
                 RULES[6], RULES[7], RULES[8], RULES[9], RULES[10]};
  }

  // The buckets of the rules, in the order of the rules.
  const LABELS := [
    "Too many files", "Size too small", "Size too large", "Adult content detected", "Adult content category",
    "Name matches blocked pattern", "Name doesn't match required pattern", "Content type not allowed",
    "No tracker identity (trackerRequireKnown)", "Tracker denied", "Tracker not in allow list"]

  lemma LabelsOfRules()
    ensures |LABELS| == |RULES| && forall i | 0 <= i < |RULES| :: LABELS[i] == Label(RULES[i])
  {
  }

  // Under any configuration a torrent is accepted exactly when it breaks no rule;
  // otherwise its message is counted under the label of the first rule it breaks,
  // whatever the numbers, names and patterns in the message are.
  lemma RejectionNamesFirstBrokenRule(s: FilterSettings, pcre: Pcre, t: Torrent)
    ensures ReasonsOf(s, pcre)(t) == "" <==> forall r: Rule :: !Breaks(s, pcre, t, r)
    ensures ReasonsOf(s, pcre)(t) != "" ==>
              exists i: nat | i < |RULES| ::
                FirstBroken(s, pcre, t, RULES, i) && ReasonCategory(ReasonsOf(s, pcre)(t)) == LABELS[i]
  {
    hide Breaks, Label, RejectionReason;
    var reason := ReasonsOf(s, pcre)(t);
    PolicyVerdict(s, pcre, t);
    forall r: Rule ensures r in RULES { EveryRuleListed(r); }
    LabelsOfRules();
    hide RULES, LABELS;
    if reason != "" {
      var i: nat :| i < |RULES| && FirstBroken(s, pcre, t, RULES, i) && Names(reason, RULES[i]);
      CategoryOfRule(reason, RULES[i]);
    }
  }

  // So the bucket of a rule gets exactly the torrents that break it first.
  lemma BucketOfRule(s: FilterSettings, pcre: Pcre, t: Torrent, i: nat)
    requires i < |RULES|
    ensures ReasonsOf(s, pcre)(t) != "" && ReasonCategory(ReasonsOf(s, pcre)(t)) == LABELS[i]
            <==> FirstBroken(s, pcre, t, RULES, i)
  {
    hide Breaks, Label, RejectionReason, RULES, LABELS, ReasonCategory;
    RejectionNamesFirstBrokenRule(s, pcre, t);
    var reason := ReasonsOf(s, pcre)(t);
    if reason != "" {
      LabelsOfRules();
      var k: nat :| k < |RULES| && FirstBroken(s, pcre, t, RULES, k) && ReasonCategory(reason) == LABELS[k];
      if LABELS[i] == LABELS[k] {
        LabelsDistinct(RULES[i], RULES[k]);
        RulesDistinct(i, k);
      }
      assert FirstBroken(s, pcre, t, RULES, i) ==> i == k;
    }
  }

  lemma RulesDistinct(i: nat, k: nat)
    requires i < |RULES| && k < |RULES| && RULES[i] == RULES[k]
    ensures i == k
  {
  }

  // A size or file count is shown before the limit it breaks.
  lemma NumbersShown(s: FilterSettings, pcre: Pcre, t: Torrent)
    ensures Breaks(s, pcre, t, TooManyFiles) ==>
              ReasonsOf(s, pcre)(t) == "Too many files: " + Decimal(t.files) + " > " + Decimal(s.maxFiles)
    ensures Breaks(s, pcre, t, SizeTooSmall) && !Breaks(s, pcre, t, TooManyFiles) ==>
              ReasonsOf(s, pcre)(t) == "Size too small: " + Decimal(t.size) + " < " + Decimal(s.sizeMin)
    ensures Breaks(s, pcre, t, SizeTooLarge)
            && !Breaks(s, pcre, t, TooManyFiles) && !Breaks(s, pcre, t, SizeTooSmall) ==>
              ReasonsOf(s, pcre)(t) == "Size too large: " + Decimal(t.size) + " > " + Decimal(s.sizeMax)
  {
    hide Decimal, CheckAdult, CheckNamingRegExp, CheckContentType, CheckTrackerPolicy, ToLower, Listed, Trim;
    Colon("Too many files", Decimal(t.files), " > ", Decimal(s.maxFiles));
    Colon("Size too small", Decimal(t.size), " < ", Decimal(s.sizeMin));
    Colon("Size too large", Decimal(t.size), " > ", Decimal(s.sizeMax));
  }

  lemma Colon(head: string, a: string, sign: string, b: string)
    ensures head + ": " + (a + sign + b) == (head + ": ") + a + sign + b
  {
  }

  // What the verdict looks at: two torrents that agree on it get the same message.
  predicate SameForPolicy(t: Torrent, u: Torrent) {
    && t.files == u.files && t.size == u.size && t.name == u.name
    && t.contentType == u.contentType && t.contentCategory == u.contentCategory
    && TrackerNames(t.info) == TrackerNames(u.info)
  }

  ghost predicate LooksOnlyAtRules(reasons: Reasons) {
    forall t, u | SameForPolicy(t, u) :: reasons(t) == reasons(u)
  }

  lemma PolicyLooksOnlyAtRules(settings: FilterSettings, pcre: Pcre)
    ensures LooksOnlyAtRules(ReasonsOf(settings, pcre))
  {
    var p := MakePolicy(settings, pcre);
    forall t, u | SameForPolicy(t, u) ensures RejectionReason(p, t) == RejectionReason(p, u) {
      SameForPolicySameReason(p, t, u);
    }
    hide RejectionReason;
  }

  lemma SameForPolicySameReason(p: Policy, t: Torrent, u: Torrent)
    requires SameForPolicy(t, u)
    ensures RejectionReason(p, t) == RejectionReason(p, u)
  {
  }

  // A pattern that does not compile filters nothing, which is why cleanup refuses
  // it up front and import does not.
  lemma InvalidPatternFiltersNothing(settings: FilterSettings, pcre: Pcre, t: Torrent)
    requires settings.namingRegExp != "" && pcre(settings.namingRegExp).None?
    ensures ReasonsOf(settings, pcre)(t) == ReasonsOf(settings.(namingRegExp := ""), pcre)(t)
  {
    hide Message, Label;
  }
}
