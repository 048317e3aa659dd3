/** Clean-up of the review verdict shown on the leaderboard: HTML comments and rate-limit
    notices are not verdicts. */
module Verdict {
  import opened Wrappers
  import opened Text

  /** The export step's placeholder (three ASCII dots). */
  const PendingAscii := "Pending review..."
  const RateLimited := "CodeRabbit was rate-limited. Awaiting judgment..."

  /** `re.sub(r"<!--.*?-->", "", s, flags=re.DOTALL)`: each `<!--` is removed together with
      everything up to the first `-->` that starts after it; an unclosed `<!--` and all that
      follows it are kept. */
  function StripComments(s: string): (r: string)
    ensures |r| <= |s|
    ensures (forall i :: 0 <= i ==> !MatchesAt(s, "<!--", i)) ==> r == s
    decreases |s|
  {
    match FindFrom(s, "<!--", 0)
    case None => s
    case Some(i) =>
      match FindFrom(s, "-->", i + 4)
      case None => s
      case Some(j) => s[..i] + StripComments(s[j + 3..])
  }

  /** `clean_verdict` */
  function CleanVerdict(v: string): (r: string)
    ensures r != ""
    ensures v == "" ==> r == PendingAscii
    ensures v != "" && Contains(v, "Rate Limit Exceeded") ==> r == RateLimited
  {
    if v == "" then PendingAscii
    else if Contains(v, "Rate Limit Exceeded") then RateLimited
    else
      var cleaned := Strip(StripComments(v));
      if cleaned == [] then PendingAscii else cleaned
  }

  /** Without an HTML comment opener the verdict is only stripped of surrounding whitespace
      (or replaced by the placeholder when nothing is left). */
  lemma NoCommentOnlyStripped(v: string)
    requires v != "" && !Contains(v, "Rate Limit Exceeded")
    requires !Contains(v, "<!--")
    ensures CleanVerdict(v) == if Strip(v) == [] then PendingAscii else Strip(v)
  {
    forall i | 0 <= i ensures !MatchesAt(v, "<!--", i) {
      if MatchesAt(v, "<!--", i) { ContainsInfix(v, "<!--", i); }
    }
  }

  predicate NoChar(s: string, c: char) {
    forall k :: 0 <= k < |s| ==> s[k] != c
  }

  /** One closed comment between comment-free text is cut out exactly. */
  lemma OneCommentRemoved(a: string, x: string, b: string)
    requires NoChar(a, '<') && NoChar(x, '-') && NoChar(b, '<')
    ensures StripComments(a + "<!--" + x + "-->" + b) == a + b
  {
    var s := a + "<!--" + x + "-->" + b;
    var i := |a|;
    var j := |a| + 4 + |x|;
    CommentOpensAt(a, x, b);
    CommentClosesAt(a, x, b);
    assert s[..i] == a;
    assert s[j + 3..] == b;
    assert StripComments(s) == a + StripComments(b);
    NoOpenerKept(b);
  }

  lemma NoOpenerKept(b: string)
    requires NoChar(b, '<')
    ensures StripComments(b) == b
  {
    forall k | 0 <= k ensures !MatchesAt(b, "<!--", k) {
      if k + 4 <= |b| { assert b[k..k + 4][0] == b[k] != '<'; }
    }
  }

  lemma CommentOpensAt(a: string, x: string, b: string)
    requires NoChar(a, '<')
    ensures FindFrom(a + "<!--" + x + "-->" + b, "<!--", 0) == Some(|a|)
  {
    var s := a + "<!--" + x + "-->" + b;
    var i := |a|;
    assert MatchesAt(s, "<!--", i) by { assert s[i..i + 4] == "<!--"; }
    forall k | 0 <= k < i ensures !MatchesAt(s, "<!--", k) {
      assert s[k] == a[k];
    }
    FindFirstAt(s, "<!--", 0, i);
  }

  lemma CommentClosesAt(a: string, x: string, b: string)
    requires NoChar(x, '-')
    ensures FindFrom(a + "<!--" + x + "-->" + b, "-->", |a| + 4) == Some(|a| + 4 + |x|)
  {
    var s := a + "<!--" + x + "-->" + b;
    var i := |a|;
    var j := |a| + 4 + |x|;
    assert MatchesAt(s, "-->", j) by { assert s[j..j + 3] == "-->"; }
    forall k | i + 4 <= k < j ensures !MatchesAt(s, "-->", k) {
      assert s[k] == x[k - i - 4];
    }
    FindFirstAt(s, "-->", i + 4, j);
  }
}
