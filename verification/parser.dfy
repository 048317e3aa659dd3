/** Reading a grade, a verdict and a badge out of the review bot's markdown reply. Three
    strategies are tried: a fenced JSON block, bold labels (`**Grade**: B+`) and loose labels
    (`grade: B+`). Every regular expression is written out as a scanner with the exact
    leftmost, greedy/lazy and backtracking behaviour of Python's `re`. */
module ResponseParser {
  import opened Wrappers
  import opened Text
  import opened Records

  /** The parser's own placeholders. The JSON default uses three ASCII dots; the fallback of
      `extract_first_roast` uses the single character U+2026. */
  const PendingGrade := "Pending"
  const PendingDots := "Pending review..."
  const PendingEllipsis := "Pending review\U{2026}"
  const UnknownBadge := "Unknown"

  // ---------------------------------------------------------------------------
  // Character classes and maximal runs
  // ---------------------------------------------------------------------------

  /** `[:\s]` */
  predicate ColonOrSpace(c: char) {
    c == ':' || IsSpace(c)
  }

  /** `[^\"\\n]` in a raw string: everything except a double quote, a backslash and the letter
      `n` (newlines are allowed). */
  predicate InClass(c: char) {
    c != '"' && c != '\\' && c != 'n'
  }

  /** `[A-F]` */
  predicate GradeLetter(c: char) {
    'A' <= c <= 'F'
  }

  predicate AsciiLetter(c: char) {
    ('A' <= c <= 'Z') || ('a' <= c <= 'z')
  }

  /** End of the maximal `[:\s]` run from `k`; a greedy `[:\s]*` followed by a character outside
      the class never gives anything back. */
  function ColonSpaceEnd(s: string, k: nat): (e: nat)
    requires k <= |s|
    ensures k <= e <= |s| && (e == |s| || !ColonOrSpace(s[e]))
    ensures forall m :: k <= m < e ==> ColonOrSpace(s[m])
    decreases |s| - k
  {
    if k < |s| && ColonOrSpace(s[k]) then ColonSpaceEnd(s, k + 1) else k
  }

  /** End of the maximal `[^\"\\n]` run from `k`. */
  function ClassEnd(s: string, k: nat): (e: nat)
    requires k <= |s|
    ensures k <= e <= |s| && (e == |s| || !InClass(s[e]))
    ensures forall m :: k <= m < e ==> InClass(s[m])
    decreases |s| - k
  {
    if k < |s| && InClass(s[k]) then ClassEnd(s, k + 1) else k
  }

  /** `([A-F][+-]?)` at `e`. */
  function GradeAt(s: string, e: nat): (g: Option<string>)
    ensures g.Some? ==> IsGradeShape(g.value)
    ensures g.Some? <==> e < |s| && GradeLetter(s[e])
    ensures g.Some? ==> e + |g.value| <= |s| && g.value == s[e..e + |g.value|]
    ensures g.Some? ==> (|g.value| == 2 <==> e + 1 < |s| && (s[e + 1] == '+' || s[e + 1] == '-'))
  {
    if e < |s| && GradeLetter(s[e]) then
      if e + 1 < |s| && (s[e + 1] == '+' || s[e + 1] == '-') then Some(s[e..e + 2]) else Some(s[e..e + 1])
    else None
  }

  /** A letter A to F, optionally followed by `+` or `-`. */
  predicate IsGradeShape(g: string) {
    (|g| == 1 || (|g| == 2 && (g[1] == '+' || g[1] == '-'))) && GradeLetter(g[0])
  }

  // ---------------------------------------------------------------------------
  // Strategy 1: ```json\s*\n(.*?)\n\s*``` (DOTALL)
  // ---------------------------------------------------------------------------

  /** A closing `\n\s*```` starts at `m`. */
  predicate CloseAt(s: string, m: nat) {
    m < |s| && s[m] == '\n' && MatchesAt(s, "```", SpaceEnd(s, m + 1))
  }

  /** The closing of the lazy group: the first `q >= k` where a newline, optional whitespace
      and three backticks start. */
  function JsonClose(s: string, k: nat): (q: Option<nat>)
    ensures q.Some? ==> k <= q.value && CloseAt(s, q.value)
    ensures q.Some? ==> forall m :: k <= m < q.value ==> !CloseAt(s, m)
    ensures q.None? ==> forall m :: k <= m ==> !CloseAt(s, m)
    decreases |s| - k
  {
    if k >= |s| then None
    else if CloseAt(s, k) then Some(k)
    else JsonClose(s, k + 1)
  }

  /** The newline at `m` can open the group: a closing follows it. */
  predicate Admits(s: string, m: nat) {
    m < |s| && s[m] == '\n' && JsonClose(s, m + 1).Some?
  }

  /** The opening newline: `\s*` first takes the whole whitespace run `lo..hi` and then gives
      back one character at a time, so the newlines of the run are tried from the last to the
      first; the first one after which a closing is found wins. Returns the group's bounds. */
  function JsonOpen(s: string, lo: nat, hi: nat): (g: Option<(nat, nat)>)
    requires lo <= hi <= |s|
    ensures g.Some? ==> lo < g.value.0 <= hi && g.value.0 <= g.value.1 < |s| && s[g.value.0 - 1] == '\n'
    ensures g.Some? ==> JsonClose(s, g.value.0) == Some(g.value.1)
    ensures g.Some? ==> NoneAdmits(s, g.value.0, hi)
    ensures g.None? ==> NoneAdmits(s, lo, hi)
    decreases hi - lo
  {
    if hi <= lo then None
    else if s[hi - 1] == '\n' && JsonClose(s, hi).Some? then Some((hi, JsonClose(s, hi).value))
    else
      var r := JsonOpen(s, lo, hi - 1);
      NoneAdmitsExtend(s, if r.Some? then r.value.0 else lo, hi);
      r
  }

  /** No newline in `a..b-1` can open the group. */
  predicate NoneAdmits(s: string, a: nat, b: nat) {
    forall m :: a <= m < b ==> !Admits(s, m)
  }

  lemma NoneAdmitsExtend(s: string, a: nat, hi: nat)
    requires 0 < hi <= |s| && a <= hi
    requires a <= hi - 1 ==> NoneAdmits(s, a, hi - 1)
    requires !(s[hi - 1] == '\n' && JsonClose(s, hi).Some?)
    ensures NoneAdmits(s, a, hi)
  {
  }


  /** The JSON block's text when the pattern matches at `p`. */
  function JsonAt(s: string, p: nat): Option<string> {
    if MatchesAt(s, "```json", p) then
      match JsonOpen(s, p + 7, SpaceEnd(s, p + 7))
      case Some((a, b)) => Some(s[a..b])
      case None => None
    else None
  }

  /** A fenced block with the newline right after the fence and the closing fence on its own
      line yields exactly its content. */
  lemma {:induction false} SimpleJsonBlock(s: string, text: string)
    requires s == "```json\n" + text + "\n```"
    requires |text| > 0 && !IsSpace(text[0])
    requires forall m :: 0 <= m < |text| ==> text[m] != '\n'
    ensures JsonAt(s, 0) == Some(text)
  {
    var n := |text|;
    assert MatchesAt(s, "```json", 0) by { assert s[0..7] == "```json"; }
    assert s[7] == '\n' && s[8 + n] == '\n';
    assert SpaceEnd(s, 7) == 8 by { assert s[8] == text[0]; }
    assert JsonClose(s, 8) == Some(8 + n) by { JsonCloseSimple(s, text); }
    assert s[8..8 + n] == text;
  }

  lemma JsonCloseSimple(s: string, text: string)
    requires s == "```json\n" + text + "\n```"
    requires forall m :: 0 <= m < |text| ==> text[m] != '\n'
    ensures JsonClose(s, 8) == Some(8 + |text|)
  {
    var n := |text|;
    forall m | 8 <= m < 8 + n ensures s[m] != '\n' { assert s[m] == text[m - 8]; }
    assert SpaceEnd(s, 9 + n) == 9 + n;
    assert s[9 + n..12 + n] == "```";
    JsonCloseFirst(s, 8, 8 + n);
  }

  lemma {:induction false} JsonCloseFirst(s: string, k: nat, q: nat)
    requires k <= q && CloseAt(s, q)
    requires forall m :: k <= m < q ==> s[m] != '\n'
    ensures JsonClose(s, k) == Some(q)
    decreases q - k
  {
    if k < q {
      assert !CloseAt(s, k);
      JsonCloseFirst(s, k + 1, q);
    }
  }

  /** The JSON strategy's answer: the fields of the decoded object with their defaults. */
  function FromJson(data: map<string, string>): JudgeResult {
    JudgeResult(
      Some(Get(data, "grade").GetOr(PendingGrade)),
      Some(Get(data, "verdict").GetOr(PendingDots)),
      Some(Get(data, "badge").GetOr(UnknownBadge)))
  }

  // ---------------------------------------------------------------------------
  // Strategy 2: bold labels
  // ---------------------------------------------------------------------------

  /** `\*\*(?:L1|L2|L3)\*\*` at `p` for three spellings of one label of length `n`; the
      position after it. */
  function BoldLabelAt(s: string, p: nat, labels: seq<string>, n: nat): (a: Option<nat>)
    requires forall i :: 0 <= i < |labels| ==> |labels[i]| == n
    ensures a.Some? ==> a.value == p + n + 4 <= |s|
  {
    if MatchesAt(s, "**", p) && (exists i :: 0 <= i < |labels| && MatchesAt(s, labels[i], p + 2))
      && MatchesAt(s, "**", p + 2 + n)
    then Some(p + n + 4)
    else None
  }

  const GradeLabels := ["GRADE", "Grade", "grade"]
  const VerdictLabels := ["VERDICT", "Verdict", "verdict"]
  const BadgeLabels := ["BADGE", "Badge", "badge"]

  /** `[:\s]*([A-F][+-]?)` after a label ending at `a`. */
  function BoldGradeAt(s: string, p: nat): Option<string> {
    match BoldLabelAt(s, p, GradeLabels, 5)
    case None => None
    case Some(a) => GradeAt(s, ColonSpaceEnd(s, a))
  }

  /** `[:\s]*\"?([^\"\\n]+)\"?` after a label ending at `a`. The greedy `[:\s]*` run ends at
      `e`. An opening quote is taken when a class character follows it; otherwise the group
      starts at `e` if that is a class character; otherwise the run gives back its last
      character (a colon or whitespace, both in the class) and the group starts there. */
  function QuotedRun(s: string, a: nat): (g: Option<string>)
    requires a <= |s|
    ensures g.Some? ==> |g.value| > 0 && forall m :: 0 <= m < |g.value| ==> InClass(g.value[m])
    ensures g.Some? ==> exists k :: MaximalRunAt(s, a, k, g.value) && GroupStart(s, a, k, |g.value|)
    ensures g.None? <==> ColonSpaceEnd(s, a) == a && !(a < |s| && InClass(s[a])) && !QuoteOpens(s, a)
  {
    var e := ColonSpaceEnd(s, a);
    if e + 1 < |s| && s[e] == '"' && InClass(s[e + 1]) then
      ClassRunMaximal(s, a, e + 1);
      Some(s[e + 1..ClassEnd(s, e + 1)])
    else if e < |s| && InClass(s[e]) then
      ClassRunMaximal(s, a, e);
      Some(s[e..ClassEnd(s, e)])
    else if e > a then
      assert InClass(s[e - 1]);
      ClassRunMaximal(s, a, e - 1);
      Some(s[e - 1..ClassEnd(s, e - 1)])
    else None
  }

  /** `g` occurs in `s` at `k >= a` and cannot be extended: the class run ends right after it. */
  predicate MaximalRunAt(s: string, a: nat, k: nat, g: string) {
    a <= k && k + |g| <= |s| && s[k..k + |g|] == g && (k + |g| == |s| || !InClass(s[k + |g|]))
  }

  /** An opening quote at `e` with a class character after it, so `\"?` takes the quote. */
  predicate QuoteOpens(s: string, e: nat) {
    e + 1 < |s| && s[e] == '"' && InClass(s[e + 1])
  }

  /** Where `[:\s]*\"?` lets a group of `n` characters start when the separator run from `a`
      ends at `e`: right after an opening quote at `e`, at `e` itself, or one character back
      when the run must give up its last character, which leaves a one-character group and
      happens only when no quoted group could start. */
  predicate GroupStart(s: string, a: nat, k: nat, n: nat)
    requires a <= |s|
  {
    var e := ColonSpaceEnd(s, a);
    e <= k + 1 && k <= e + 1
    && (k == e + 1 ==> e < |s| && s[e] == '"')
    && (k + 1 == e ==> n == 1 && !QuoteOpens(s, e))
  }

  /** A maximal run of class characters from a start the pattern allows is the capture: the
      pattern has exactly one answer. */
  lemma QuotedRunUnique(s: string, a: nat, k: nat, g: string)
    requires a <= |s| && |g| > 0 && forall m :: 0 <= m < |g| ==> InClass(g[m])
    requires MaximalRunAt(s, a, k, g) && GroupStart(s, a, k, |g|)
    ensures QuotedRun(s, a) == Some(g)
  {
    ClassRunIs(s, k, g);
    var e := ColonSpaceEnd(s, a);
    if k == e + 1 {
      assert s[k] == g[0];
    } else if k == e {
      assert s[e] == g[0];
    }
  }

  /** A class run that cannot be extended ends where ClassEnd says. */
  lemma {:induction false} ClassRunIs(s: string, k: nat, g: string)
    requires k + |g| <= |s| && s[k..k + |g|] == g
    requires forall m :: 0 <= m < |g| ==> InClass(g[m])
    requires k + |g| == |s| || !InClass(s[k + |g|])
    ensures ClassEnd(s, k) == k + |g|
    decreases |g|
  {
    if g != [] {
      assert InClass(s[k]) by { assert s[k] == g[0]; }
      ClassRunIs(s, k + 1, g[1..]);
    }
  }

  /** The class run from `k` is a maximal run. */
  lemma ClassRunMaximal(s: string, a: nat, k: nat)
    requires a <= k <= |s|
    ensures MaximalRunAt(s, a, k, s[k..ClassEnd(s, k)])
    ensures forall m :: 0 <= m < |s[k..ClassEnd(s, k)]| ==> InClass(s[k..ClassEnd(s, k)][m])
  {
  }

  function BoldVerdictAt(s: string, p: nat): (g: Option<string>)
    ensures g.Some? ==> |g.value| > 0 && '"' !in g.value
  {
    match BoldLabelAt(s, p, VerdictLabels, 7)
    case None => None
    case Some(a) => QuotedRun(s, a)
  }

  function BoldBadgeAt(s: string, p: nat): (g: Option<string>)
    ensures g.Some? ==> |g.value| > 0 && '"' !in g.value
  {
    match BoldLabelAt(s, p, BadgeLabels, 5)
    case None => None
    case Some(a) => QuotedRun(s, a)
  }

  /** The captured verdict stops at the first letter `n`: `**Verdict**: Fun code` yields `Fu`. */
  lemma VerdictStopsAtN()
    ensures QuotedRun(": Fun", 0) == Some("Fu")
  {
    var s := ": Fun";
    assert s[0] == ':' && s[1] == ' ' && s[2] == 'F' && s[3] == 'u' && s[4] == 'n';
    assert ColonSpaceEnd(s, 2) == 2;
    assert ColonSpaceEnd(s, 0) == 2;
    assert ClassEnd(s, 4) == 4;
    assert ClassEnd(s, 2) == 4;
    assert s[2..4] == "Fu";
  }

  // ---------------------------------------------------------------------------
  // Strategy 3: loose labels
  // ---------------------------------------------------------------------------

  /** `(?:grade|Grade)[:\s]+([A-F][+-]?)` at `p`. */
  function LooseGradeAt(s: string, p: nat): Option<string> {
    if MatchesAt(s, "grade", p) || MatchesAt(s, "Grade", p) then
      var e := ColonSpaceEnd(s, p + 5);
      if e > p + 5 then GradeAt(s, e) else None
    else None
  }

  /** `(?:verdict|Verdict)[:\s]+\"([^\"]+)\"` at `p`: a non-empty run, then a quoted text
      that must be closed (newlines allowed inside). The separator run is greedy and a quote
      is not in it, so the opening quote must come right where the run ends. */
  function LooseVerdictAt(s: string, p: nat): (g: Option<string>)
    ensures g.Some? ==> |g.value| > 0 && '"' !in g.value
    ensures g.Some? ==> LooseLabel(s, p, "verdict", "Verdict")
    ensures g.Some? ==> QuotedAt(s, p, ColonSpaceEnd(s, p + 7) + 1, g.value)
    ensures g.Some? <==> LooseLabel(s, p, "verdict", "Verdict") && ClosedQuoteAt(s, ColonSpaceEnd(s, p + 7))
  {
    if LooseLabel(s, p, "verdict", "Verdict") then QuotedFrom(s, ColonSpaceEnd(s, p + 7)) else None
  }

  /** `(?:L1|L2)[:\s]+` at `p` for two spellings of one label: the label, then a non-empty
      separator run. */
  predicate LooseLabel(s: string, p: nat, lower: string, upper: string)
    requires |lower| == |upper|
  {
    (MatchesAt(s, lower, p) || MatchesAt(s, upper, p)) && ColonSpaceEnd(s, p + |lower|) > p + |lower|
  }

  /** `\"([^\"]+)\"` can match at `e`: an opening quote, a character other than a quote, and
      a closing quote somewhere after it. */
  predicate ClosedQuoteAt(s: string, e: nat) {
    e + 1 < |s| && s[e] == '"' && s[e + 1] != '"' && exists j :: e + 2 <= j < |s| && s[j] == '"'
  }

  /** `g` sits between two quotes at `k - 1` and `k + |g|`, after position `p`. */
  predicate QuotedAt(s: string, p: nat, k: nat, g: string) {
    p < k && k + |g| < |s| && s[k - 1] == '"' && s[k..k + |g|] == g && s[k + |g|] == '"'
  }

  /** `\"([^\"]+)\"` at `e`: the text from after the opening quote up to the next quote. */
  function QuotedFrom(s: string, e: nat): (g: Option<string>)
    ensures g.Some? <==> ClosedQuoteAt(s, e)
    ensures g.Some? ==> |g.value| > 0 && '"' !in g.value && QuotedAt(s, e, e + 1, g.value)
  {
    if e < |s| && s[e] == '"' then
      match FindFrom(s, "\"", e + 1)
      case Some(c) =>
        assert MatchesAt(s, "\"", c);
        if c > e + 1 then
          assert forall m :: e + 1 <= m < c ==> s[m] != '"' by {
            forall m | e + 1 <= m < c ensures s[m] != '"' { assert !MatchesAt(s, "\"", m); }
          }
          assert s[e + 1..c][0] == s[e + 1];
          Some(s[e + 1..c])
        else None
      case None =>
        forall j | e + 2 <= j < |s| ensures s[j] != '"' {
          assert !MatchesAt(s, "\"", j);
          assert s[j..j + 1] == [s[j]];
        }
        None
    else None
  }

  /** `g` occurs in `s` at `k` and is either 41 characters long or cannot be extended. */
  predicate BadgeRunAt(s: string, k: nat, g: string) {
    k + |g| <= |s| && s[k..k + |g|] == g && (|g| == 41 || k + |g| == |s| || !InClass(s[k + |g|]))
  }

  /** Where the group starts after a greedy `\"?` at `e`: past the quote when there is one. A
      group starting on the quote itself would fail its first letter, so the regex never
      skips the quote. */
  function QuoteSkipped(s: string, e: nat): nat {
    if e < |s| && s[e] == '"' then e + 1 else e
  }

  /** `[A-Za-z][^\"\\n]{2,40}` can start at `k`: a letter and two class characters. */
  predicate BadgeOpens(s: string, k: nat) {
    k + 2 < |s| && AsciiLetter(s[k]) && InClass(s[k + 1]) && InClass(s[k + 2])
  }

  function Min(a: int, b: int): int {
    if a <= b then a else b
  }

  /** `[A-Za-z][^\"\\n]{2,40}` at `k`: a letter and then as many class characters as follow,
      at least 2 and at most 40. */
  function BadgeFrom(s: string, k: nat): (g: Option<string>)
    ensures g.Some? <==> BadgeOpens(s, k)
    ensures g.Some? ==> 3 <= |g.value| <= 41 && AsciiLetter(g.value[0])
    ensures g.Some? ==> forall m :: 1 <= m < |g.value| ==> InClass(g.value[m])
    ensures g.Some? ==> '"' !in g.value && BadgeRunAt(s, k, g.value)
  {
    if k < |s| && AsciiLetter(s[k]) then
      var count := Min(40, ClassEnd(s, k + 1) - (k + 1));
      if count >= 2 then
        Some(s[k..k + 1 + count])
      else None
    else None
  }

  /** `(?:badge|Badge)[:\s]+\"?([A-Za-z][^\"\\n]{2,40})\"?` at `p`: after a non-empty run and
      an optional quote, a letter and then 2 to 40 class characters, as many as there are. */
  function LooseBadgeAt(s: string, p: nat): (g: Option<string>)
    ensures g.Some? ==> 3 <= |g.value| <= 41 && AsciiLetter(g.value[0])
    ensures g.Some? ==> forall m :: 1 <= m < |g.value| ==> InClass(g.value[m])
    ensures g.Some? ==> '"' !in g.value
    ensures g.Some? ==> LooseLabel(s, p, "badge", "Badge")
    ensures g.Some? ==> BadgeRunAt(s, QuoteSkipped(s, ColonSpaceEnd(s, p + 5)), g.value)
    ensures g.Some? <==> LooseLabel(s, p, "badge", "Badge") && BadgeOpens(s, QuoteSkipped(s, ColonSpaceEnd(s, p + 5)))
  {
    if LooseLabel(s, p, "badge", "Badge") then BadgeFrom(s, QuoteSkipped(s, ColonSpaceEnd(s, p + 5))) else None
  }

  // ---------------------------------------------------------------------------
  // The first roast-like sentence
  // ---------------------------------------------------------------------------

  /** `[.!]\s` at `i` */
  predicate SplitAt(s: string, i: int) {
    0 <= i && i + 1 < |s| && (s[i] == '.' || s[i] == '!') && IsSpace(s[i + 1])
  }

  function FirstSplit(s: string, k: nat): (i: Option<nat>)
    ensures i.Some? ==> k <= i.value && SplitAt(s, i.value)
    ensures i.Some? ==> forall j :: k <= j < i.value ==> !SplitAt(s, j)
    ensures i.None? ==> forall j :: k <= j ==> !SplitAt(s, j)
    decreases |s| - k
  {
    if k + 1 >= |s| then None
    else if SplitAt(s, k) then Some(k)
    else FirstSplit(s, k + 1)
  }

  /** `re.split(r"[.!]\s", s)` */
  function Sentences(s: string): (pieces: seq<string>)
    ensures |pieces| >= 1
    ensures forall i :: 0 <= i < |pieces| ==> forall j :: 0 <= j < |pieces[i]| - 1 ==> !SplitAt(pieces[i], j)
    decreases |s|
  {
    match FirstSplit(s, 0)
    case None => [s]
    case Some(i) =>
      var rest := Sentences(s[i + 2..]);
      assert forall j :: 0 <= j < i - 1 ==> !SplitAt(s[..i], j) by {
        forall j | 0 <= j < i - 1 ensures !SplitAt(s[..i], j) { assert !SplitAt(s, j); }
      }
      [s[..i]] + rest
  }

  /** Splitting loses nothing but the two-character separators. */
  lemma {:induction false} SentencesLength(s: string)
    ensures TotalLength(Sentences(s)) + 2 * (|Sentences(s)| - 1) == |s|
    decreases |s|
  {
    match FirstSplit(s, 0)
    case None =>
    case Some(i) =>
      SentencesLength(s[i + 2..]);
      assert Sentences(s) == [s[..i]] + Sentences(s[i + 2..]);
      assert ([s[..i]] + Sentences(s[i + 2..]))[1..] == Sentences(s[i + 2..]);
  }

  function TotalLength(pieces: seq<string>): nat {
    if pieces == [] then 0 else |pieces[0]| + TotalLength(pieces[1..])
  }

  predicate StartsRejected(s: string) {
    StartsWith(s, "I") || StartsWith(s, "The PR") || StartsWith(s, "This pull") || StartsWith(s, "Here")
  }

  /** A sentence is kept when, stripped, it is longer than 30 characters and does not start
      with one of the rejected openings. */
  predicate Roastlike(piece: string) {
    |Strip(piece)| > 30 && !StartsRejected(Strip(piece))
  }

  /** The first 200 characters. */
  function Truncate(s: string): (t: string)
    ensures t == s[..Min(200, |s|)]
  {
    if |s| <= 200 then s else s[..200]
  }

  /** The first sentence at or after `k` that `keep` accepts. */
  function FirstWhere(pieces: seq<string>, keep: string -> bool, k: nat): (r: Option<nat>)
    ensures r.Some? ==> k <= r.value < |pieces| && keep(pieces[r.value])
    ensures r.Some? ==> forall j :: k <= j < r.value ==> !keep(pieces[j])
    ensures r.None? ==> forall j :: k <= j < |pieces| ==> !keep(pieces[j])
    decreases |pieces| - k
  {
    if k >= |pieces| then None
    else if keep(pieces[k]) then Some(k)
    else FirstWhere(pieces, keep, k + 1)
  }

  function FirstRoastlike(pieces: seq<string>): Option<nat> {
    FirstWhere(pieces, Roastlike, 0)
  }

  /** `extract_first_roast` */
  function ExtractFirstRoast(body: string): (r: string)
    ensures FirstRoastlike(Sentences(body)).None? <==> r == PendingEllipsis
    ensures FirstRoastlike(Sentences(body)).Some? ==>
      var s := Strip(Sentences(body)[FirstRoastlike(Sentences(body)).value]);
      && 30 < |r| == Min(200, |s|)
      && StartsWith(s, r)
      && !StartsRejected(r)
  {
    var pieces := Sentences(body);
    match FirstRoastlike(pieces)
    case None => PendingEllipsis
    case Some(i) =>
      var s := Strip(pieces[i]);
      assert Roastlike(pieces[i]);
      TruncateKeepsStart(s);
      Truncate(s)
  }

  /** The openings are short, so a truncation of more than 30 characters starts with one of
      them exactly when the untruncated text does. */
  lemma TruncateKeepsStart(s: string)
    requires |s| > 30
    ensures StartsRejected(Truncate(s)) <==> StartsRejected(s)
    ensures 30 < |Truncate(s)| == Min(200, |s|) && StartsWith(s, Truncate(s))
    ensures Truncate(s) != PendingEllipsis
  {
    var t := Truncate(s);
    assert |PendingEllipsis| == 15;
    assert t[..9] == s[..9];
    assert t[..1] == s[..1] && t[..4] == s[..4] && t[..6] == s[..6];
  }

  /** A bold grade label followed by a colon and a space yields the grade with its sign. */
  lemma BoldGradeExample()
    ensures BoldGradeAt("**Grade**: C-", 0) == Some("C-")
  {
    var s := "**Grade**: C-";
    assert s[0..2] == "**" && s[2..7] == GradeLabels[1] && s[7..9] == "**";
    assert BoldLabelAt(s, 0, GradeLabels, 5) == Some(9);
    assert s[9] == ':' && s[10] == ' ' && s[11] == 'C' && s[12] == '-';
    assert ColonSpaceEnd(s, 11) == 11;
    assert ColonSpaceEnd(s, 9) == 11;
    assert s[11..13] == "C-";
  }

  // ---------------------------------------------------------------------------
  // parse_coderabbit_response
  // ---------------------------------------------------------------------------

  /** A JSON decoder: None when the text is not valid JSON. Field values are given as their
      `str()` text. */
  type Decoder = string -> Option<map<string, string>>

  function FindJson(body: string): (g: Option<string>)
    ensures g.Some? <==> exists p :: 0 <= p < |body| && JsonAt(body, p).Some?
  {
    var at := (p: nat) => JsonAt(body, p);
    assert forall p: nat :: at(p) == JsonAt(body, p);
    Find(at, |body|)
  }

  function FindGrade(body: string): (g: Option<string>)
    ensures g.Some? ==> IsGradeShape(g.value)
  {
    var bold := Find((p: nat) => BoldGradeAt(body, p), |body|);
    if bold.Some? then bold else Find((p: nat) => LooseGradeAt(body, p), |body|)
  }

  /** The verdict of the first label strategy that matches anywhere: non-empty and quote-free. */
  function FindVerdict(body: string): (g: Option<string>)
    ensures g.Some? ==> |g.value| > 0 && '"' !in g.value
  {
    var bold := Find((p: nat) => BoldVerdictAt(body, p), |body|);
    if bold.Some? then bold else Find((p: nat) => LooseVerdictAt(body, p), |body|)
  }

  /** The badge of the first label strategy that matches anywhere: non-empty and quote-free. */
  function FindBadge(body: string): (g: Option<string>)
    ensures g.Some? ==> |g.value| > 0 && '"' !in g.value
  {
    var bold := Find((p: nat) => BoldBadgeAt(body, p), |body|);
    if bold.Some? then bold else Find((p: nat) => LooseBadgeAt(body, p), |body|)
  }

  /** `parse_coderabbit_response`: always all three fields. A JSON block that decodes wins;
      otherwise the grade is a matched `[A-F][+-]?` or "Pending", the verdict is the matched
      text stripped or the first roast-like sentence, and the badge is the matched text
      stripped or "Unknown". */
  function Parse(body: string, decode: Decoder): (r: JudgeResult)
    ensures r.grade.Some? && r.verdict.Some? && r.badge.Some?
    ensures FindJson(body).Some? && decode(FindJson(body).value).Some? ==>
      r == FromJson(decode(FindJson(body).value).value)
    ensures !(FindJson(body).Some? && decode(FindJson(body).value).Some?) ==>
      && (r.grade.value == PendingGrade || IsGradeShape(r.grade.value))
      && (FindGrade(body).None? ==> r.grade.value == PendingGrade)
      && (FindGrade(body).Some? ==> r.grade == FindGrade(body))
      && (FindVerdict(body).None? ==> r.verdict.value == ExtractFirstRoast(body))
      && (FindVerdict(body).Some? ==> r.verdict.value == Strip(FindVerdict(body).value))
      && (FindBadge(body).None? ==> r.badge.value == UnknownBadge)
      && (FindBadge(body).Some? ==> r.badge.value == Strip(FindBadge(body).value))
  {
    var json := FindJson(body);
    if json.Some? && decode(json.value).Some? then FromJson(decode(json.value).value)
    else
      var grade := FindGrade(body);
      var verdict := FindVerdict(body);
      var badge := FindBadge(body);
      JudgeResult(
        Some(if grade.Some? then grade.value else PendingGrade),
        Some(if verdict.Some? then Strip(verdict.value) else ExtractFirstRoast(body)),
        Some(if badge.Some? then Strip(badge.value) else UnknownBadge))
  }
}
