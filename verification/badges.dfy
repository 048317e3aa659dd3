/** README heuristics: badges awarded from the README of a user's top repository. */
module Badges {
  import opened Wrappers
  import opened Dicts
  import opened Text

  const EmptyReadme := "Empty README Enthusiast"
  const NovelWriter := "Novel Writer"
  const BadgesHoarder := "Badges Hoarder"
  const NoTests := "No Tests, No Problem"

  /** The order badges are listed in. */
  const BadgeOrder := [EmptyReadme, NovelWriter, BadgesHoarder, NoTests]

  // ---------------------------------------------------------------------------
  // The badge-image pattern `!\[.*?\]\(` (no DOTALL: `.` stops at a newline)
  // ---------------------------------------------------------------------------

  predicate CloseAt(s: string, j: int) {
    0 <= j && j + 2 <= |s| && s[j] == ']' && s[j + 1] == '('
  }

  predicate NoNewline(s: string, from: int, to: int)
    requires 0 <= from <= to <= |s|
  {
    forall k :: from <= k < to ==> s[k] != '\n'
  }

  /** The lazy `.*?\]\(` from position `k`: the first `](` at or after `k` with no newline
      before it, if there is one. */
  function CloseFrom(s: string, k: nat): (r: Option<nat>)
    requires k <= |s|
    ensures r.Some? ==> k <= r.value && CloseAt(s, r.value) && NoNewline(s, k, r.value)
    ensures r.Some? ==> forall j :: k <= j < r.value ==> !CloseAt(s, j)
    ensures r.None? ==> forall j :: k <= j && CloseAt(s, j) ==> !NoNewline(s, k, j)
    decreases |s| - k
  {
    if CloseAt(s, k) then Some(k)
    else if k < |s| && s[k] != '\n' then CloseFrom(s, k + 1)
    else None
  }

  /** The end of a badge-image match starting at `i`, if one starts there. */
  function ImageAt(s: string, i: nat): (e: Option<nat>)
    requires i <= |s|
    ensures e.Some? ==> i + 4 <= e.value <= |s|
  {
    if i + 2 <= |s| && s[i] == '!' && s[i + 1] == '[' then
      match CloseFrom(s, i + 2)
      case Some(j) => Some(j + 2)
      case None => None
    else None
  }

  /** `len(BADGE_IMG_RE.findall(s[i:]))`: non-overlapping matches, scanning left to right. */
  function CountImages(s: string, i: nat): (n: nat)
    requires i <= |s|
    ensures 4 * n <= |s| - i
    decreases |s| - i
  {
    if i == |s| then 0
    else
      match ImageAt(s, i)
      case Some(e) => 1 + CountImages(s, e)
      case None => CountImages(s, i + 1)
  }

  /** Matching looks only forward: counting from `i` sees just the suffix `s[i..]`. */
  lemma {:induction false} CountSuffix(s: string, i: nat, k: nat)
    requires i <= k <= |s|
    ensures CountImages(s, k) == CountImages(s[i..], k - i)
    decreases |s| - k
  {
    var t := s[i..];
    if k < |s| {
      CloseSuffix(s, i, k + 2);
      assert ImageAt(s, k) == (match ImageAt(t, k - i) case Some(e) => Some(e + i) case None => None);
      match ImageAt(s, k)
      case Some(e) => CountSuffix(s, i, e);
      case None => CountSuffix(s, i, k + 1);
    }
  }

  lemma {:induction false} CloseSuffix(s: string, i: nat, k: nat)
    requires i <= k
    ensures k <= |s| ==> CloseFrom(s, k) == (match CloseFrom(s[i..], k - i) case Some(j) => Some(j + i) case None => None)
    decreases |s| - k
  {
    if k < |s| && !CloseAt(s, k) && s[k] != '\n' {
      CloseSuffix(s, i, k + 1);
    }
  }

  /** A README that starts with an image `![](` has one more image than the rest of it. */
  lemma LeadingImage(s: string)
    ensures CountImages("![](" + s, 0) == 1 + CountImages(s, 0)
  {
    var t := "![](" + s;
    assert CloseAt(t, 2);
    assert ImageAt(t, 0) == Some(4);
    CountSuffix(t, 4, 4);
    assert t[4..] == s;
  }

  /** Without `![` anywhere there is no image. */
  lemma {:induction false} NoOpenNoImage(s: string, i: nat)
    requires i <= |s|
    requires forall k :: i <= k && k + 1 < |s| ==> !(s[k] == '!' && s[k + 1] == '[')
    ensures CountImages(s, i) == 0
    decreases |s| - i
  {
    if i < |s| {
      NoOpenNoImage(s, i + 1);
    }
  }

  // ---------------------------------------------------------------------------
  // Choosing the README
  // ---------------------------------------------------------------------------

  /** `max(values, key=len, default="")` over the values in key order: the first longest one. */
  function Longest(keys: seq<string>, entries: map<string, string>): (r: string)
    requires forall i :: 0 <= i < |keys| ==> keys[i] in entries
    ensures forall i :: 0 <= i < |keys| ==> |entries[keys[i]]| <= |r|
    ensures keys == [] ==> r == ""
    ensures keys != [] ==> exists i :: 0 <= i < |keys| && r == entries[keys[i]] &&
                                     forall j :: 0 <= j < i ==> |entries[keys[j]]| < |r|
  {
    if keys == [] then ""
    else
      var best := Longest(keys[..|keys| - 1], entries);
      var x := entries[keys[|keys| - 1]];
      var r := if |x| > |best| then x else best;
      LongestStep(keys, entries, best, r);
      r
  }

  lemma LongestStep(keys: seq<string>, entries: map<string, string>, best: string, r: string)
    requires keys != [] && forall i :: 0 <= i < |keys| ==> keys[i] in entries
    requires var p := keys[..|keys| - 1];
      && (forall i :: 0 <= i < |p| ==> |entries[p[i]]| <= |best|)
      && (p == [] ==> best == "")
      && (p != [] ==> exists i :: 0 <= i < |p| && best == entries[p[i]] &&
                        forall j :: 0 <= j < i ==> |entries[p[j]]| < |best|)
    requires var x := entries[keys[|keys| - 1]]; r == if |x| > |best| then x else best
    ensures exists i :: 0 <= i < |keys| && r == entries[keys[i]] &&
                          forall j :: 0 <= j < i ==> |entries[keys[j]]| < |r|
  {
    var n := |keys|;
    var p := keys[..n - 1];
    var x := entries[keys[n - 1]];
    if |x| > |best| {
      assert forall j :: 0 <= j < n - 1 ==> keys[j] == p[j];
    } else if p == [] {
      assert r == x;
    } else {
      var i :| 0 <= i < |p| && best == entries[p[i]] && forall j :: 0 <= j < i ==> |entries[p[j]]| < |best|;
      assert keys[i] == p[i];
      assert forall j :: 0 <= j < i ==> keys[j] == p[j];
    }
  }

  /** Whether the top repository's name is truthy (present and not empty). */
  predicate Truthy(top: Option<string>) {
    top.Some? && top.value != ""
  }

  /** `readmes.get(top, "") if top else ""` */
  function TopReadme(d: Dict<string>, top: Option<string>): string {
    if Truthy(top) && top.value in d.entries then d.entries[top.value] else ""
  }

  /** The README the heuristics look at: the top repository's when it is non-empty,
      otherwise the first longest one. */
  function ChosenReadme(d: Dict<string>, top: Option<string>): string
    requires d.Valid()
  {
    if TopReadme(d, top) != "" then TopReadme(d, top) else Longest(d.keys, d.entries)
  }

  lemma BadgeNamesDiffer()
    ensures OrderOf(EmptyReadme) == 0 && OrderOf(NovelWriter) == 1
    ensures OrderOf(BadgesHoarder) == 2 && OrderOf(NoTests) == 3
  {
    assert EmptyReadme[0] != NovelWriter[0] && EmptyReadme[0] != BadgesHoarder[0] && EmptyReadme[0] != NoTests[0];
    assert NovelWriter[0] != BadgesHoarder[0];
    assert NovelWriter[2] != NoTests[2];
    assert BadgesHoarder[0] != NoTests[0];
  }

  /** The four heuristics on the chosen README, in their fixed order. */
  function Heuristics(readme: string): (badges: seq<string>)
    ensures EmptyReadme in badges <==> |readme| < 50
    ensures NovelWriter in badges <==> |readme| > 5000
    ensures BadgesHoarder in badges <==> CountImages(readme, 0) >= 5
    ensures NoTests in badges <==> !Contains(Lower(readme), "test") && !Contains(Lower(readme), "ci")
    ensures InBadgeOrder(badges)
  {
    BadgeNamesDiffer();
    var lower := Lower(readme);
    var b1 := AddIf([], |readme| < 50, EmptyReadme);
    var b2 := AddIf(b1, |readme| > 5000, NovelWriter);
    var b3 := AddIf(b2, CountImages(readme, 0) >= 5, BadgesHoarder);
    AddIf(b3, !Contains(lower, "test") && !Contains(lower, "ci"), NoTests)
  }

  /** `compute_badges` after the file read: `readmes` is None when the file is missing or does
      not parse. A missing, unreadable or empty README map gives exactly the "Empty README
      Enthusiast" badge; otherwise the heuristics judge the chosen README. */
  function ComputeBadges(readmes: Option<Dict<string>>, top: Option<string>): (badges: seq<string>)
    requires readmes.Some? ==> readmes.value.Valid()
    ensures readmes.None? || readmes.value.entries == map[] ==> badges == [EmptyReadme]
    ensures readmes.Some? && readmes.value.entries != map[] ==>
      badges == Heuristics(ChosenReadme(readmes.value, top))
    ensures InBadgeOrder(badges)
  {
    match readmes
    case None => BadgeNamesDiffer(); [EmptyReadme]
    case Some(d) =>
      if TopReadme(d, top) == "" && d.keys == [] then BadgeNamesDiffer(); [EmptyReadme]
      else Heuristics(ChosenReadme(d, top))
  }

  /** Position of a badge in the fixed order; 4 for anything else. */
  function OrderOf(b: string): nat {
    if b == EmptyReadme then 0
    else if b == NovelWriter then 1
    else if b == BadgesHoarder then 2
    else if b == NoTests then 3
    else 4
  }

  /** Only the four badges, each at most once, in the fixed order. */
  predicate InBadgeOrder(badges: seq<string>) {
    && (forall i :: 0 <= i < |badges| ==> OrderOf(badges[i]) < 4)
    && (forall i, j :: 0 <= i < j < |badges| ==> OrderOf(badges[i]) < OrderOf(badges[j]))
  }

  /** `if cond: badges.append(b)`, keeping the badges in order. */
  function AddIf(xs: seq<string>, cond: bool, b: string): (ys: seq<string>)
    requires InBadgeOrder(xs) && OrderOf(b) < 4
    requires forall i :: 0 <= i < |xs| ==> OrderOf(xs[i]) < OrderOf(b)
    ensures InBadgeOrder(ys)
    ensures forall c :: c in ys <==> c in xs || (cond && c == b)
    ensures forall i :: 0 <= i < |ys| ==> OrderOf(ys[i]) <= OrderOf(b)
  {
    if cond then xs + [b] else xs
  }

  /** When the top repository has a non-empty README, that README is the one judged. */
  lemma TopReadmeWins(d: Dict<string>, name: string)
    requires d.Valid() && name != "" && name in d.entries && d.entries[name] != ""
    ensures ChosenReadme(d, Some(name)) == d.entries[name]
  {
  }

  /** Otherwise the longest README is judged, the first one among equally long ones. */
  lemma LongestFallback(d: Dict<string>, top: Option<string>)
    requires d.Valid() && d.keys != [] && TopReadme(d, top) == ""
    ensures var r := ChosenReadme(d, top);
      && (forall k :: k in d.entries ==> |d.entries[k]| <= |r|)
      && exists i :: 0 <= i < |d.keys| && r == d.entries[d.keys[i]] &&
           forall j :: 0 <= j < i ==> |d.entries[d.keys[j]]| < |r|
  {
    assert ChosenReadme(d, top) == Longest(d.keys, d.entries);
    forall k | k in d.entries ensures |d.entries[k]| <= |Longest(d.keys, d.entries)| {
      var i :| 0 <= i < |d.keys| && d.keys[i] == k;
    }
  }
}
