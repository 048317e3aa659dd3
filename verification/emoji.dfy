/** The emoji score: runs of emoji characters plus `:shortcode:` mentions, counted over a list
    of texts the way `re.findall` counts non-overlapping matches. */
module Emoji {
  import opened Wrappers

  /** The character class of the emoji pattern: six code-point ranges (the last one is wide
      and swallows the fifth). */
  predicate IsEmoji(c: char) {
    || ('\U{1F600}' <= c <= '\U{1F64F}')
    || ('\U{1F300}' <= c <= '\U{1F5FF}')
    || ('\U{1F680}' <= c <= '\U{1F6FF}')
    || ('\U{1F1E0}' <= c <= '\U{1F1FF}')
    || ('\U{2702}' <= c <= '\U{27B0}')
    || ('\U{24C2}' <= c <= '\U{1F251}')
  }

  /** End of the maximal emoji run from `k`. */
  function EmojiEnd(s: string, k: nat): (e: nat)
    requires k <= |s|
    ensures k <= e <= |s| && (e == |s| || !IsEmoji(s[e]))
    ensures forall m :: k <= m < e ==> IsEmoji(s[m])
    decreases |s| - k
  {
    if k < |s| && IsEmoji(s[k]) then EmojiEnd(s, k + 1) else k
  }

  /** `len(EMOJI_RE.findall(s[i:]))`: each greedy match takes a whole run. */
  function EmojiRuns(s: string, i: nat): (n: nat)
    requires i <= |s|
    ensures n <= |s| - i
    decreases |s| - i
  {
    if i == |s| then 0
    else if IsEmoji(s[i]) then
      var e := EmojiEnd(s, i);
      1 + EmojiRuns(s, e)
    else EmojiRuns(s, i + 1)
  }

  /** Position `k` starts a run: an emoji not preceded by an emoji. */
  predicate RunStart(s: string, k: int) {
    0 <= k < |s| && IsEmoji(s[k]) && (k == 0 || !IsEmoji(s[k - 1]))
  }

  /** The number of run starts at or after `k`: the reference count. */
  function RunStarts(s: string, k: nat): nat
    requires k <= |s|
    decreases |s| - k
  {
    if k == |s| then 0 else (if RunStart(s, k) then 1 else 0) + RunStarts(s, k + 1)
  }

  /** Counting matches counts the maximal runs. */
  lemma {:induction false} EmojiRunsAreRunStarts(s: string, i: nat)
    requires i <= |s|
    requires i == 0 || i == |s| || !IsEmoji(s[i - 1]) || !IsEmoji(s[i])
    ensures EmojiRuns(s, i) == RunStarts(s, i)
    decreases |s| - i
  {
    if i < |s| {
      if IsEmoji(s[i]) {
        var e := EmojiEnd(s, i);
        EmojiRunsAreRunStarts(s, e);
        NoStartsInside(s, i + 1, e);
      } else {
        EmojiRunsAreRunStarts(s, i + 1);
      }
    }
  }

  /** Inside a run no new run starts. */
  lemma {:induction false} NoStartsInside(s: string, k: nat, e: nat)
    requires 0 < k <= e <= |s|
    requires forall m :: k - 1 <= m < e ==> IsEmoji(s[m])
    ensures RunStarts(s, k) == RunStarts(s, e)
    decreases e - k
  {
    if k < e {
      assert !RunStart(s, k);
      NoStartsInside(s, k + 1, e);
    }
  }

  // ---------------------------------------------------------------------------
  // :shortcode:
  // ---------------------------------------------------------------------------

  /** `[a-z0-9_+-]` */
  predicate ShortcodeChar(c: char) {
    ('a' <= c <= 'z') || ('0' <= c <= '9') || c == '_' || c == '+' || c == '-'
  }

  function ShortcodeEnd(s: string, k: nat): (e: nat)
    requires k <= |s|
    ensures k <= e <= |s| && (e == |s| || !ShortcodeChar(s[e]))
    ensures forall m :: k <= m < e ==> ShortcodeChar(s[m])
    decreases |s| - k
  {
    if k < |s| && ShortcodeChar(s[k]) then ShortcodeEnd(s, k + 1) else k
  }

  /** The end of a `:[a-z0-9_+-]+:` match at `i` (after its closing colon), if one starts there. */
  function ShortcodeAt(s: string, i: nat): (e: Option<nat>)
    requires i <= |s|
    ensures e.Some? ==> i + 3 <= e.value <= |s| && s[i] == ':' && s[e.value - 1] == ':'
  {
    if i < |s| && s[i] == ':' then
      var e := ShortcodeEnd(s, i + 1);
      if e > i + 1 && e < |s| && s[e] == ':' then Some(e + 1) else None
    else None
  }

  /** `len(SHORTCODE_RE.findall(s[i:]))`: a match consumes its closing colon. */
  function Shortcodes(s: string, i: nat): (n: nat)
    requires i <= |s|
    ensures 3 * n <= |s| - i
    decreases |s| - i
  {
    if i == |s| then 0
    else
      match ShortcodeAt(s, i)
      case Some(e) => 1 + Shortcodes(s, e)
      case None => Shortcodes(s, i + 1)
  }

  /** Two adjacent shortcodes both count: `:a::b:` holds two. */
  lemma AdjacentShortcodes()
    ensures Shortcodes(":a::b:", 0) == 2
  {
    var s := ":a::b:";
    assert ShortcodeEnd(s, 2) == 2;
    assert ShortcodeEnd(s, 1) == 2;
    assert ShortcodeAt(s, 0) == Some(3);
    assert ShortcodeEnd(s, 5) == 5;
    assert ShortcodeEnd(s, 4) == 5;
    assert ShortcodeAt(s, 3) == Some(6);
  }

  /** A colon shared by two candidates counts once: `:a:b:` holds one. */
  lemma SharedColon()
    ensures Shortcodes(":a:b:", 0) == 1
  {
    var s := ":a:b:";
    assert ShortcodeEnd(s, 2) == 2;
    assert ShortcodeEnd(s, 1) == 2;
    assert ShortcodeAt(s, 0) == Some(3);
    assert ShortcodeAt(s, 3) == None;
    assert ShortcodeEnd(s, 5) == 5;
    assert ShortcodeAt(s, 4) == Some(5) || ShortcodeAt(s, 4) == None;
    assert s[4] == ':' && ShortcodeEnd(s, 5) == 5;
    assert ShortcodeAt(s, 4) == None;
  }

  // ---------------------------------------------------------------------------
  // count_emojis
  // ---------------------------------------------------------------------------

  /** The score of one text. */
  function TextScore(t: string): nat {
    EmojiRuns(t, 0) + Shortcodes(t, 0)
  }

  /** `count_emojis`: the scores of the texts added up. */
  function CountEmojis(texts: seq<string>): (n: nat)
    ensures texts == [] ==> n == 0
  {
    if texts == [] then 0 else TextScore(texts[0]) + CountEmojis(texts[1..])
  }

  /** Scoring two lists together adds their scores. */
  lemma {:induction false} CountEmojisAppend(a: seq<string>, b: seq<string>)
    ensures CountEmojis(a + b) == CountEmojis(a) + CountEmojis(b)
    decreases |a|
  {
    if a != [] {
      assert (a + b)[0] == a[0] && (a + b)[1..] == a[1..] + b;
      CountEmojisAppend(a[1..], b);
      assert CountEmojis(a + b) == TextScore(a[0]) + CountEmojis(a[1..] + b);
    } else {
      assert a + b == b;
    }
  }

  /** A text with neither an emoji nor a colon scores nothing. */
  lemma {:induction false} PlainTextScoresZero(t: string, i: nat)
    requires i <= |t|
    requires forall k :: 0 <= k < |t| ==> !IsEmoji(t[k]) && t[k] != ':'
    ensures EmojiRuns(t, i) == 0 && Shortcodes(t, i) == 0
    decreases |t| - i
  {
    if i < |t| {
      PlainTextScoresZero(t, i + 1);
    }
  }

  /** One party popper in two commit messages scores one. */
  lemma PartyPopper()
    ensures CountEmojis(["fix bug", "add \U{1F389} feature"]) == 1
  {
    var a := "fix bug";
    var b := "add \U{1F389} feature";
    PlainTextScoresZero(a, 0);
    assert IsEmoji(b[4]) && !IsEmoji(b[3]) && !IsEmoji(b[5]);
    assert EmojiEnd(b, 5) == 5;
    assert EmojiEnd(b, 4) == 5;
    var rest := b[5..];
    assert forall k :: 0 <= k < |b| && k != 4 ==> !IsEmoji(b[k]) && b[k] != ':';
    NoEmojiAfter(b, 5);
    NoColonAfter(b, 0);
    assert EmojiRuns(b, 0) == EmojiRuns(b, 4);
    assert CountEmojis(["fix bug", "add \U{1F389} feature"]) == TextScore(a) + CountEmojis([b]);
  }

  lemma {:induction false} NoEmojiAfter(s: string, i: nat)
    requires i <= |s| && forall k :: i <= k < |s| ==> !IsEmoji(s[k])
    ensures EmojiRuns(s, i) == 0
    decreases |s| - i
  {
    if i < |s| { NoEmojiAfter(s, i + 1); }
  }

  lemma {:induction false} NoColonAfter(s: string, i: nat)
    requires i <= |s| && forall k :: i <= k < |s| ==> s[k] != ':'
    ensures Shortcodes(s, i) == 0
    decreases |s| - i
  {
    if i < |s| { NoColonAfter(s, i + 1); }
  }
}
