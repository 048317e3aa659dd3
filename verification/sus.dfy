/** The "sus score": each user's rank percentile (0..100) by emoji score among all users. */
module SusScore {
  import opened Wrappers
  import opened Dicts
  import opened Ranking
  import opened Records

  /** The emoji score a user is ranked by; a missing score counts as 0. */
  function EmojiOf(r: UserRecord): int {
    r.emojiScore.GetOr(0)
  }

  function EmojiValue(r: UserRecord): Option<int> {
    Some(EmojiOf(r))
  }

  /** All users sorted by emoji score, lowest first (stable). */
  function EmojiRanked(d: Dict<UserRecord>): seq<Scored>
    requires d.Valid()
  {
    RankedBy(d.keys, d.entries, EmojiValue)
  }

  /** Every user has a rank below the number of users. */
  lemma AllRanked(d: Dict<UserRecord>)
    requires d.Valid()
    ensures forall u :: u in d.entries ==> IndexOfName(EmojiRanked(d), u) < |EmojiRanked(d)|
  {
    forall u | u in d.entries ensures IndexOfName(EmojiRanked(d), u) < |EmojiRanked(d)| {
      RankOfScored(d.keys, d.entries, EmojiValue, u);
    }
  }

  /** `compute_sus_percentiles`: rank `r` among `n` users maps to the whole percent of
      `r / max(n - 1, 1)`. */
  function SusPercentiles(d: Dict<UserRecord>): (p: map<string, int>)
    requires d.Valid()
    ensures p.Keys == d.entries.Keys
    ensures forall u :: u in p ==> 0 <= p[u] <= 100
  {
    var ranked := EmojiRanked(d);
    var den := Den(|ranked|);
    PercentilesInRange(d, ranked, den);
    map u | u in d.entries :: Percentile(IndexOfName(ranked, u), den)
  }

  lemma PercentilesInRange(d: Dict<UserRecord>, ranked: seq<Scored>, den: nat)
    requires d.Valid() && ranked == EmojiRanked(d) && den == Den(|ranked|)
    ensures forall u :: u in d.entries ==> Percentile(IndexOfName(ranked, u), den) <= 100
  {
    AllRanked(d);
    forall u | u in d.entries ensures Percentile(IndexOfName(ranked, u), den) <= 100 {
      PercentileBounds(IndexOfName(ranked, u), den);
    }
  }

  /** A strictly lower emoji score never gets a higher percentile. */
  lemma SusMonotone(d: Dict<UserRecord>, u: string, v: string)
    requires d.Valid() && u in d.entries && v in d.entries
    requires EmojiOf(d.entries[u]) < EmojiOf(d.entries[v])
    ensures SusPercentiles(d)[u] <= SusPercentiles(d)[v]
  {
    var ranked := EmojiRanked(d);
    RankOfScored(d.keys, d.entries, EmojiValue, u);
    RankOfScored(d.keys, d.entries, EmojiValue, v);
    RankedDistinct(d.keys, d.entries, EmojiValue);
    RankRespectsScore(ranked, (u, EmojiOf(d.entries[u])), (v, EmojiOf(d.entries[v])));
    QuotMonotone(IndexOfName(ranked, u) * 100, IndexOfName(ranked, v) * 100, Den(|ranked|));
  }

  /** The user at position `i` of the ranking gets the percentile of rank `i`. */
  lemma RankedPercentile(d: Dict<UserRecord>, i: nat, p: int)
    requires d.Valid() && i < |EmojiRanked(d)| && Percentile(i, Den(|EmojiRanked(d)|)) == p
    ensures SusPercentiles(d)[EmojiRanked(d)[i].0] == p
  {
    RankedMember(d.keys, d.entries, EmojiValue, i);
  }

  /** The lowest-ranked user gets 0. */
  lemma BottomGetsZero(d: Dict<UserRecord>)
    requires d.Valid() && d.keys != []
    ensures |EmojiRanked(d)| > 0
    ensures SusPercentiles(d)[EmojiRanked(d)[0].0] == 0
  {
    assert d.keys[0] in d.entries;
    RankOfScored(d.keys, d.entries, EmojiValue, d.keys[0]);
    PercentileBounds(0, Den(|EmojiRanked(d)|));
    RankedPercentile(d, 0, 0);
  }

  /** With at least two users, the highest-ranked one gets 100. */
  lemma TopGetsHundred(d: Dict<UserRecord>)
    requires d.Valid() && |EmojiRanked(d)| >= 2
    ensures SusPercentiles(d)[EmojiRanked(d)[|EmojiRanked(d)| - 1].0] == 100
  {
    var n := |EmojiRanked(d)|;
    PercentileBounds(n - 1, n - 1);
    RankedPercentile(d, n - 1, 100);
  }

  /** Every user takes part in the ranking: one rank per user. */
  lemma RankedEveryone(d: Dict<UserRecord>)
    requires d.Valid()
    ensures |EmojiRanked(d)| == |d.keys|
  {
    var g := Collect(d.keys, d.entries, EmojiValue);
    CollectCount(d.keys, d.entries);
  }

  lemma {:induction false} CollectCount(keys: seq<string>, entries: map<string, UserRecord>)
    requires forall i :: 0 <= i < |keys| ==> keys[i] in entries
    ensures |Collect(keys, entries, EmojiValue)| == |keys|
  {
    if keys != [] {
      CollectCount(keys[1..], entries);
    }
  }
}
