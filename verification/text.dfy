/** String helpers with Python's meaning: `str.strip()`, the regex class `\s`,
    `str.lower()` (ASCII letters only), `startswith` and the `in` substring test. */
module Text {
  import opened Wrappers

  /** Python's whitespace (`str.isspace()`), which is also what `str.strip()` removes
      and what the regex class `\s` matches on `str` patterns. */
  predicate IsSpace(c: char) {
    || ('\t' <= c <= '\r')
    || ('\U{1C}' <= c <= '\U{1F}')
    || c == ' ' || c == '\U{85}' || c == '\U{A0}' || c == '\U{1680}'
    || ('\U{2000}' <= c <= '\U{200A}')
    || c == '\U{2028}' || c == '\U{2029}' || c == '\U{202F}' || c == '\U{205F}' || c == '\U{3000}'
  }

  predicate AllSpace(s: string) {
    forall i :: 0 <= i < |s| ==> IsSpace(s[i])
  }

  /** The end of the whitespace run starting at `k`. */
  function SpaceEnd(s: string, k: nat): (e: nat)
    requires k <= |s|
    ensures k <= e <= |s| && (e == |s| || !IsSpace(s[e]))
    ensures forall m :: k <= m < e ==> IsSpace(s[m])
    decreases |s| - k
  {
    if k < |s| && IsSpace(s[k]) then SpaceEnd(s, k + 1) else k
  }

  /** The start of the whitespace run ending at `e`, not going below `lo`. */
  function SpaceRunStart(s: string, lo: nat, e: nat): (b: nat)
    requires lo <= e <= |s|
    ensures lo <= b <= e && (b == lo || !IsSpace(s[b - 1]))
    ensures forall m :: b <= m < e ==> IsSpace(s[m])
    decreases e - lo
  {
    if lo < e && IsSpace(s[e - 1]) then SpaceRunStart(s, lo, e - 1) else e
  }

  /** `s.strip()`: `s` with its leading and trailing whitespace removed. */
  function Strip(s: string): (r: string)
    ensures |r| <= |s|
    ensures r == [] || (!IsSpace(r[0]) && !IsSpace(r[|r| - 1]))
  {
    var a := SpaceEnd(s, 0);
    s[a..SpaceRunStart(s, a, |s|)]
  }

  /** The stripped string is an infix of `s`, and everything before and after it is
      whitespace. */
  lemma StripInfix(s: string)
    ensures exists a, b :: (
      && 0 <= a <= b <= |s|
      && Strip(s) == s[a..b]
      && AllSpace(s[..a]) && AllSpace(s[b..]))
  {
    var a := SpaceEnd(s, 0);
    var b := SpaceRunStart(s, a, |s|);
    assert AllSpace(s[..a]);
    assert AllSpace(s[b..]);
  }

  lemma StripEmpty(s: string)
    ensures AllSpace(s) <==> Strip(s) == []
  {
    var a := SpaceEnd(s, 0);
    var b := SpaceRunStart(s, a, |s|);
    if AllSpace(s) {
      assert a == |s|;
    }
    if Strip(s) == [] {
      assert b == a;
    }
  }

  /** Stripping a string that neither starts nor ends with whitespace changes nothing. */
  lemma StripNoop(s: string)
    requires s == [] || (!IsSpace(s[0]) && !IsSpace(s[|s| - 1]))
    ensures Strip(s) == s
  {
    if s != [] {
      assert SpaceEnd(s, 0) == 0;
      assert SpaceRunStart(s, 0, |s|) == |s|;
    }
  }

  /** Python's `str.lower()` on the ASCII letters; every other character is kept. */
  function LowerChar(c: char): char {
    if 'A' <= c <= 'Z' then (c as int + 32) as char else c
  }

  function Lower(s: string): (r: string)
    ensures |r| == |s|
    ensures forall i :: 0 <= i < |s| ==> r[i] == LowerChar(s[i])
  {
    seq(|s|, i requires 0 <= i < |s| => LowerChar(s[i]))
  }

  predicate IsLower(s: string) {
    forall i :: 0 <= i < |s| ==> !('A' <= s[i] <= 'Z')
  }

  lemma LowerIsLower(s: string)
    ensures IsLower(Lower(s))
    ensures Lower(Lower(s)) == Lower(s)
  {
  }

  /** `s.startswith(p)` */
  predicate StartsWith(s: string, p: string) {
    |p| <= |s| && s[..|p|] == p
  }

  /** `p` occurs in `s` at position `i`. */
  predicate MatchesAt(s: string, p: string, i: int) {
    0 <= i && i + |p| <= |s| && s[i..i + |p|] == p
  }

  /** Python's `p in s`. */
  predicate Contains(s: string, p: string) {
    exists i | 0 <= i <= |s| :: MatchesAt(s, p, i)
  }

  /** `s.find(p, k)`: the first occurrence of `p` at or after position `k`. */
  function FindFrom(s: string, p: string, k: nat): (r: Option<nat>)
    ensures r.Some? ==> k <= r.value && MatchesAt(s, p, r.value)
    ensures r.Some? ==> forall j :: k <= j < r.value ==> !MatchesAt(s, p, j)
    ensures r.None? ==> forall j :: k <= j ==> !MatchesAt(s, p, j)
    decreases |s| - k
  {
    if k + |p| > |s| then None
    else if s[k..k + |p|] == p then Some(k)
    else FindFrom(s, p, k + 1)
  }

  lemma ContainsFind(s: string, p: string)
    ensures Contains(s, p) <==> FindFrom(s, p, 0).Some?
  {
    var r := FindFrom(s, p, 0);
    if r.Some? { assert MatchesAt(s, p, r.value); }
  }

  lemma ContainsInfix(s: string, p: string, i: int)
    requires MatchesAt(s, p, i)
    ensures Contains(s, p)
  {
  }

  /** `s.find(p, k)` is `i` when `p` occurs at `i` and nowhere in between. */
  lemma {:induction false} FindFirstAt(s: string, p: string, k: nat, i: nat)
    requires k <= i && MatchesAt(s, p, i)
    requires forall m :: k <= m < i ==> !MatchesAt(s, p, m)
    ensures FindFrom(s, p, k) == Some(i)
    decreases i - k
  {
    if k < i {
      assert !MatchesAt(s, p, k);
      FindFirstAt(s, p, k + 1, i);
    }
  }

  /** `re.search`: the leftmost start position in `k..n-1` at which `at` matches. */
  function Search(at: nat -> Option<string>, k: nat, n: nat): (p: Option<nat>)
    ensures p.Some? ==> k <= p.value < n && at(p.value).Some?
    ensures p.Some? ==> forall i :: k <= i < p.value ==> at(i).None?
    ensures p.None? ==> forall i :: k <= i < n ==> at(i).None?
    decreases n - k
  {
    if k >= n then None
    else if at(k).Some? then Some(k)
    else Search(at, k + 1, n)
  }

  /** The group captured by the leftmost match, if any. */
  function Find(at: nat -> Option<string>, n: nat): (g: Option<string>)
    ensures g.Some? <==> exists i :: 0 <= i < n && at(i).Some?
    ensures g.Some? ==> exists i :: 0 <= i < n && g == at(i) && forall j :: 0 <= j < i ==> at(j).None?
  {
    match Search(at, 0, n)
    case None => None
    case Some(p) => at(p)
  }
}
