/** Round-robin rotation over several API tokens with per-token rate-limit cooldowns, shared
    by both scrapers. The rotation's cursor stands for the position of the endless token
    cycle; the clock reading is an input. */
module Tokens {
  import opened Wrappers
  import opened Dicts
  import opened Text

  /** The prefix of the authorization header. */
  const Bearer := "bearer "

  /** The outcome of asking for the next token: a token to use (and the cursor after it),
      the seconds to sleep before asking again, or the crash of taking the minimum of no
      cooldowns. */
  datatype Pick = Use(token: string, cursor: nat) | Sleep(seconds: real) | NoCooldowns

  /** A token is usable when its cooldown (0 when none is recorded) has passed. */
  predicate Available(cool: Dict<real>, token: string, now: real) {
    Get(cool.entries, token).GetOr(0.0) <= now
  }

  /** The position `k` steps after the cursor in the cycle. */
  function Step(n: nat, cursor: nat, k: nat): (i: nat)
    requires cursor < n && k <= n
    ensures i < n
  {
    if cursor + k < n then cursor + k else cursor + k - n
  }

  /** The token `k` steps after the cursor in the cycle. */
  function At(tokens: seq<string>, cursor: nat, k: nat): string
    requires cursor < |tokens| && k < |tokens|
  {
    tokens[Step(|tokens|, cursor, k)]
  }

  /** Probing from the `k`-th step: the first usable token within the remaining steps. */
  function Probe(tokens: seq<string>, cursor: nat, cool: Dict<real>, now: real, k: nat): (r: Option<nat>)
    requires cursor < |tokens| && k <= |tokens|
    ensures r.Some? ==> k <= r.value < |tokens| && Available(cool, At(tokens, cursor, r.value), now)
    ensures r.Some? ==> forall j :: k <= j < r.value ==> !Available(cool, At(tokens, cursor, j), now)
    ensures r.None? ==> forall j :: k <= j < |tokens| ==> !Available(cool, At(tokens, cursor, j), now)
    decreases |tokens| - k
  {
    if k == |tokens| then None
    else if Available(cool, At(tokens, cursor, k), now) then Some(k)
    else Probe(tokens, cursor, cool, now, k + 1)
  }

  /** The smallest value of a non-empty dictionary. */
  function MinValue(keys: seq<string>, entries: map<string, real>): (m: real)
    requires keys != [] && forall i :: 0 <= i < |keys| ==> keys[i] in entries
    ensures forall i :: 0 <= i < |keys| ==> m <= entries[keys[i]]
    ensures exists i :: 0 <= i < |keys| && m == entries[keys[i]]
  {
    if |keys| == 1 then entries[keys[0]]
    else
      var rest := MinValue(keys[1..], entries);
      var m := if entries[keys[0]] <= rest then entries[keys[0]] else rest;
      assert forall i :: 1 <= i < |keys| ==> keys[i] == keys[1..][i - 1];
      m
  }

  /** `get_next_headers` up to its sleep: at most one pass over the tokens starting at the
      cursor; when none is usable, the wait until one second after the earliest cooldown. An
      empty token list (a variable holding only commas and blanks) makes no pass at all. */
  function NextToken(tokens: seq<string>, cursor: nat, cool: Dict<real>, now: real): (p: Pick)
    requires (tokens == [] || cursor < |tokens|) && cool.Valid()
    ensures p.Use? ==> p.token in tokens && Available(cool, p.token, now) && p.cursor < |tokens|
    ensures p.Use? ==> exists k :: (
      && 0 <= k < |tokens|
      && p.token == At(tokens, cursor, k)
      && p.cursor == Step(|tokens|, cursor, k + 1)
      && forall j :: 0 <= j < k ==> !Available(cool, At(tokens, cursor, j), now))
    ensures !p.Use? ==> forall t :: t in tokens ==> !Available(cool, t, now)
    ensures p.Sleep? ==> cool.keys != [] && p == SleepUntilEarliest(cool, now)
    ensures p.NoCooldowns? <==> (forall t :: t in tokens ==> !Available(cool, t, now)) && cool.keys == []
  {
    if tokens == [] then
      if cool.keys == [] then NoCooldowns else SleepUntilEarliest(cool, now)
    else match Probe(tokens, cursor, cool, now, 0)
      case Some(k) => Use(At(tokens, cursor, k), Step(|tokens|, cursor, k + 1))
      case None =>
        AllProbed(tokens, cursor, cool, now);
        if cool.keys == [] then NoCooldowns else SleepUntilEarliest(cool, now)
  }

  /** The sleep until one second after the earliest recorded cooldown (never negative). */
  function SleepUntilEarliest(cool: Dict<real>, now: real): (p: Pick)
    requires cool.Valid() && cool.keys != []
    ensures p.Sleep? && 0.0 <= p.seconds
    ensures exists k :: (
      && k in cool.entries
      && (forall j :: j in cool.entries ==> cool.entries[k] <= cool.entries[j])
      && p.seconds == Max0(cool.entries[k] - now + 1.0))
  {
    var earliest := MinValue(cool.keys, cool.entries);
    var i :| 0 <= i < |cool.keys| && earliest == cool.entries[cool.keys[i]];
    assert forall j :: j in cool.entries ==> earliest <= cool.entries[j] by {
      forall j | j in cool.entries ensures earliest <= cool.entries[j] {
        var m :| 0 <= m < |cool.keys| && cool.keys[m] == j;
      }
    }
    Sleep(Max0(earliest - now + 1.0))
  }

  function Max0(x: real): (r: real)
    ensures r >= 0.0 && r >= x
  {
    if x > 0.0 then x else 0.0
  }

  /** A full pass visits every token. */
  lemma AllProbed(tokens: seq<string>, cursor: nat, cool: Dict<real>, now: real)
    requires cursor < |tokens|
    requires forall j :: 0 <= j < |tokens| ==> !Available(cool, At(tokens, cursor, j), now)
    ensures forall t :: t in tokens ==> !Available(cool, t, now)
  {
    var n := |tokens|;
    forall t | t in tokens ensures !Available(cool, t, now) {
      var i :| 0 <= i < n && tokens[i] == t;
      var j := if i >= cursor then i - cursor else i + n - cursor;
      assert At(tokens, cursor, j) == t;
    }
  }

  /** With no cooldown in force the tokens are used strictly in turn. */
  lemma RoundRobin(tokens: seq<string>, cursor: nat, cool: Dict<real>, now: real)
    requires cursor < |tokens| && cool.Valid()
    requires forall t :: t in tokens ==> Available(cool, t, now)
    ensures NextToken(tokens, cursor, cool, now) == Use(tokens[cursor], Step(|tokens|, cursor, 1))
  {
    assert Available(cool, At(tokens, cursor, 0), now);
  }

  /** After sleeping the advised time, the token with the earliest cooldown is usable again. */
  lemma SleepEnough(tokens: seq<string>, cursor: nat, cool: Dict<real>, now: real, t: string)
    requires (tokens == [] || cursor < |tokens|) && cool.Valid()
    requires NextToken(tokens, cursor, cool, now).Sleep? && t in cool.entries
    requires forall j :: j in cool.entries ==> cool.entries[t] <= cool.entries[j]
    ensures Available(cool, t, now + NextToken(tokens, cursor, cool, now).seconds)
  {
    var p := SleepUntilEarliest(cool, now);
    var k :| k in cool.entries && (forall j :: j in cool.entries ==> cool.entries[k] <= cool.entries[j])
      && p.seconds == Max0(cool.entries[k] - now + 1.0);
    assert cool.entries[k] == cool.entries[t];
  }

  /** When every cooldown is recorded under one of the pool's tokens (as `record_rate_limit`
      does for the token taken back out of a header), the retry after the sleep uses a token. */
  lemma SleepThenUse(tokens: seq<string>, cursor: nat, cool: Dict<real>, now: real)
    requires (tokens == [] || cursor < |tokens|) && cool.Valid()
    requires NextToken(tokens, cursor, cool, now).Sleep?
    requires forall k :: k in cool.entries ==> k in tokens
    ensures NextToken(tokens, cursor, cool, now + NextToken(tokens, cursor, cool, now).seconds).Use?
  {
    var p := SleepUntilEarliest(cool, now);
    var k :| k in cool.entries && (forall j :: j in cool.entries ==> cool.entries[k] <= cool.entries[j])
      && p.seconds == Max0(cool.entries[k] - now + 1.0);
    SleepEnough(tokens, cursor, cool, now, k);
  }

  // ---------------------------------------------------------------------------
  // record_rate_limit
  // ---------------------------------------------------------------------------

  /** `s.replace(p, "")` for a non-empty `p`: occurrences are removed left to right without
      overlapping. */
  function RemoveAll(s: string, p: string): (r: string)
    requires |p| > 0
    ensures |r| <= |s|
    decreases |s|
  {
    if |s| < |p| then s
    else if s[..|p|] == p then RemoveAll(s[|p|..], p)
    else [s[0]] + RemoveAll(s[1..], p)
  }

  /** Without an occurrence nothing is removed. */
  lemma {:induction false} RemoveNone(s: string, p: string)
    requires |p| > 0 && !Contains(s, p)
    ensures RemoveAll(s, p) == s
    decreases |s|
  {
    if |s| >= |p| {
      assert !MatchesAt(s, p, 0);
      assert !Contains(s[1..], p) by {
        forall i | 0 <= i <= |s[1..]| ensures !MatchesAt(s[1..], p, i) {
          if MatchesAt(s[1..], p, i) {
            assert s[i + 1..i + 1 + |p|] == s[1..][i..i + |p|];
            assert MatchesAt(s, p, i + 1);
          }
        }
      }
      RemoveNone(s[1..], p);
      assert s == [s[0]] + s[1..];
    }
  }

  /** The token named by an authorization header. */
  function TokenOf(header: string): string {
    RemoveAll(header, Bearer)
  }

  /** The header's token is the token itself unless it contains "bearer " itself. */
  lemma TokenOfHeader(token: string)
    requires !Contains(token, Bearer)
    ensures TokenOf(Bearer + token) == token
  {
    var h := Bearer + token;
    assert h[..|Bearer|] == Bearer;
    assert h[|Bearer|..] == token;
    RemoveNone(token, Bearer);
  }

  /** `record_rate_limit`: `remaining` and `resetAt` are the rate-limit headers, None when
      absent. A token with no request left cools down until the reset time. */
  function RecordRateLimit(cool: Dict<real>, header: string, remaining: Option<int>, resetAt: Option<real>): (r: Dict<real>)
    requires cool.Valid()
    ensures r.Valid()
    ensures remaining == Some(0) && resetAt.Some? ==> r.entries == cool.entries[TokenOf(header) := resetAt.value]
    ensures !(remaining == Some(0) && resetAt.Some?) ==> r == cool
  {
    if remaining == Some(0) && resetAt.Some? then cool.Set(TokenOf(header), resetAt.value) else cool
  }

  /** A token that has just run out is skipped until its reset time has passed. */
  lemma ExhaustedSkipped(cool: Dict<real>, token: string, reset: real, now: real)
    requires cool.Valid() && !Contains(token, Bearer) && now < reset
    ensures !Available(RecordRateLimit(cool, Bearer + token, Some(0), Some(reset)), token, now)
    ensures Available(RecordRateLimit(cool, Bearer + token, Some(0), Some(reset)), token, reset)
  {
    TokenOfHeader(token);
  }
}
