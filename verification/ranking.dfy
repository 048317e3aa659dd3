/** Python's stable `list.sort(key=lambda x: x[1])` on (name, score) pairs, and the rank
    (position after sorting) that both the grade curve and the emoji percentile are built on. */
module Ranking {
  import opened Wrappers

  type Scored = (string, int)

  predicate SortedByScore(xs: seq<Scored>) {
    forall i, j :: 0 <= i < j < |xs| ==> xs[i].1 <= xs[j].1
  }

  predicate DistinctNames(xs: seq<Scored>) {
    forall i, j :: 0 <= i < j < |xs| ==> xs[i].0 != xs[j].0
  }

  predicate NameIn(xs: seq<Scored>, u: string) {
    exists i :: 0 <= i < |xs| && xs[i].0 == u
  }

  lemma {:induction false} TailMembers(xs: seq<Scored>)
    requires xs != []
    ensures forall p :: p in xs <==> p == xs[0] || p in xs[1..]
  {
    forall p | p in xs ensures p == xs[0] || p in xs[1..] {
      var i :| 0 <= i < |xs| && xs[i] == p;
      if i > 0 { assert xs[1..][i - 1] == p; }
    }
  }

  lemma TailDistinct(xs: seq<Scored>)
    requires xs != [] && DistinctNames(xs)
    ensures DistinctNames(xs[1..]) && !NameIn(xs[1..], xs[0].0)
  {
    forall i, j | 0 <= i < j < |xs| - 1 ensures xs[1..][i].0 != xs[1..][j].0 {
      assert xs[1..][i] == xs[i + 1] && xs[1..][j] == xs[j + 1];
    }
  }

  /** The pairs of `xs` whose score is `v`, in their order in `xs`. A sort is stable exactly
      when it keeps this subsequence for every score. */
  function WithScore(xs: seq<Scored>, v: int): (r: seq<Scored>)
    ensures |r| <= |xs|
    ensures forall i :: 0 <= i < |r| ==> r[i].1 == v
  {
    if xs == [] then [] else (if xs[0].1 == v then [xs[0]] else []) + WithScore(xs[1..], v)
  }

  /** Inserts `x` in front of the first element whose score is not smaller, so that of two
      equal scores the one inserted later (which came earlier in the input) stays first. */
  function Insert(x: Scored, ys: seq<Scored>): (zs: seq<Scored>)
    requires SortedByScore(ys)
    ensures SortedByScore(zs)
    ensures |zs| == |ys| + 1
    ensures forall p :: p in zs <==> p == x || p in ys
    ensures multiset(zs) == multiset(ys) + multiset{x}
  {
    if ys == [] || x.1 <= ys[0].1 then [x] + ys
    else
      TailMembers(ys);
      assert ys == [ys[0]] + ys[1..];
      var rest := Insert(x, ys[1..]);
      InsertLowerBound(x, ys, rest);
      [ys[0]] + rest
  }

  /** Inserting `x` puts it in front of every pair of equal score and keeps their order. */
  lemma {:induction false} InsertStable(x: Scored, ys: seq<Scored>, v: int)
    requires SortedByScore(ys)
    ensures WithScore(Insert(x, ys), v) == (if x.1 == v then [x] else []) + WithScore(ys, v)
  {
    if ys == [] || x.1 <= ys[0].1 {
      WithScoreCons(x, ys, v);
    } else {
      InsertStable(x, ys[1..], v);
      StableStep(x, ys[0], Insert(x, ys[1..]), ys[1..], v);
      assert ys == [ys[0]] + ys[1..];
    }
  }

  /** Moving `x` past a pair `y` of strictly smaller score keeps every score's subsequence. */
  lemma StableStep(x: Scored, y: Scored, rest: seq<Scored>, tail: seq<Scored>, v: int)
    requires y.1 < x.1
    requires WithScore(rest, v) == (if x.1 == v then [x] else []) + WithScore(tail, v)
    ensures WithScore([y] + rest, v) == (if x.1 == v then [x] else []) + WithScore([y] + tail, v)
  {
    WithScoreCons(y, rest, v);
    WithScoreCons(y, tail, v);
  }

  lemma WithScoreCons(p: Scored, xs: seq<Scored>, v: int)
    ensures WithScore([p] + xs, v) == (if p.1 == v then [p] else []) + WithScore(xs, v)
  {
    assert ([p] + xs)[1..] == xs;
  }

  lemma InsertLowerBound(x: Scored, ys: seq<Scored>, rest: seq<Scored>)
    requires SortedByScore(ys) && ys != [] && ys[0].1 < x.1
    requires forall p :: p in rest <==> p == x || p in ys[1..]
    ensures forall j :: 0 <= j < |rest| ==> ys[0].1 <= rest[j].1
  {
    forall j | 0 <= j < |rest| ensures ys[0].1 <= rest[j].1 {
      assert rest[j] in rest;
      if rest[j] != x {
        var k :| 0 <= k < |ys[1..]| && ys[1..][k] == rest[j];
        assert ys[k + 1] == rest[j];
      }
    }
  }

  lemma {:induction false} InsertDistinct(x: Scored, ys: seq<Scored>)
    requires SortedByScore(ys) && DistinctNames(ys) && !NameIn(ys, x.0)
    ensures DistinctNames(Insert(x, ys))
  {
    if ys == [] || x.1 <= ys[0].1 {
    } else {
      TailMembers(ys);
      TailDistinct(ys);
      assert !NameIn(ys[1..], x.0) by {
        forall i | 0 <= i < |ys[1..]| ensures ys[1..][i].0 != x.0 {
          assert ys[1..][i] == ys[i + 1];
        }
      }
      InsertDistinct(x, ys[1..]);
      var rest := Insert(x, ys[1..]);
      forall i | 0 <= i < |rest| ensures rest[i].0 != ys[0].0 {
        assert rest[i] in rest;
        if rest[i] == x {
          assert ys[0].0 != x.0;
        } else {
          var j :| 0 <= j < |ys[1..]| && ys[1..][j] == rest[i];
          assert ys[j + 1] == rest[i];
        }
      }
    }
  }

  /** Python's stable sort of `xs` by score, ascending: a sorted permutation that keeps the
      input order among equal scores. */
  function SortByScore(xs: seq<Scored>): (ys: seq<Scored>)
    ensures SortedByScore(ys)
    ensures |ys| == |xs|
    ensures forall p :: p in ys <==> p in xs
    ensures multiset(ys) == multiset(xs)
  {
    if xs == [] then []
    else
      TailMembers(xs);
      assert xs == [xs[0]] + xs[1..];
      Insert(xs[0], SortByScore(xs[1..]))
  }

  /** The sort is stable: for every score, the pairs with that score keep their input order. */
  lemma {:induction false} SortStable(xs: seq<Scored>, v: int)
    ensures WithScore(SortByScore(xs), v) == WithScore(xs, v)
  {
    if xs != [] {
      SortStable(xs[1..], v);
      InsertStable(xs[0], SortByScore(xs[1..]), v);
    }
  }

  lemma {:induction false} SortDistinct(xs: seq<Scored>)
    requires DistinctNames(xs)
    ensures DistinctNames(SortByScore(xs))
  {
    if xs != [] {
      TailMembers(xs);
      TailDistinct(xs);
      SortDistinct(xs[1..]);
      var rest := SortByScore(xs[1..]);
      assert !NameIn(rest, xs[0].0) by {
        forall i | 0 <= i < |rest| ensures rest[i].0 != xs[0].0 {
          assert rest[i] in rest;
          var j :| 0 <= j < |xs[1..]| && xs[1..][j] == rest[i];
        }
      }
      InsertDistinct(xs[0], rest);
    }
  }

  /** The position of the first pair named `u`, or `|ys|` when there is none. */
  function IndexOfName(ys: seq<Scored>, u: string): (r: nat)
    ensures r <= |ys|
    ensures r < |ys| ==> ys[r].0 == u
    ensures forall j :: 0 <= j < r ==> ys[j].0 != u
  {
    if ys == [] then 0
    else if ys[0].0 == u then 0
    else 1 + IndexOfName(ys[1..], u)
  }

  /** In a sorted list of distinct names, a strictly smaller score means a strictly smaller rank:
      the order-preservation that the curve and the percentile both rely on. */
  lemma {:induction false} RankRespectsScore(ys: seq<Scored>, p: Scored, q: Scored)
    requires SortedByScore(ys) && DistinctNames(ys)
    requires p in ys && q in ys && p.1 < q.1
    ensures IndexOfName(ys, p.0) < IndexOfName(ys, q.0)
  {
    var i :| 0 <= i < |ys| && ys[i] == p;
    var j :| 0 <= j < |ys| && ys[j] == q;
    RankOfMember(ys, i);
    RankOfMember(ys, j);
  }

  /** With distinct names, the rank of the name at position `i` is `i`. */
  lemma {:induction false} RankOfMember(ys: seq<Scored>, i: int)
    requires DistinctNames(ys) && 0 <= i < |ys|
    ensures IndexOfName(ys, ys[i].0) == i
  {
    var r := IndexOfName(ys, ys[i].0);
    assert r >= i;
  }

  /** `max(n - 1, 1)`: the denominator of a rank percentile among `n` users. */
  function Den(n: nat): (d: nat)
    ensures d >= 1 && (n >= 1 ==> n - 1 <= d)
  {
    if n >= 2 then n - 1 else 1
  }

  /** The (key, score) pairs of a dictionary in key order, for the entries whose score is
      defined: Python's `[(k, s) for k, v in d.items() if (s := score(v)) is not None]`. */
  function Collect<V>(keys: seq<string>, entries: map<string, V>, score: V -> Option<int>): (g: seq<Scored>)
    requires forall i :: 0 <= i < |keys| ==> keys[i] in entries
    ensures forall p :: p in g <==> p.0 in keys && score(entries[p.0]) == Some(p.1)
  {
    if keys == [] then []
    else
      var rest := Collect(keys[1..], entries, score);
      KeysTail(keys);
      match score(entries[keys[0]])
      case Some(v) => [(keys[0], v)] + rest
      case None => rest
  }

  lemma {:induction false} KeysTail(keys: seq<string>)
    requires keys != []
    ensures forall u :: u in keys <==> u == keys[0] || u in keys[1..]
  {
    forall u | u in keys ensures u == keys[0] || u in keys[1..] {
      var i :| 0 <= i < |keys| && keys[i] == u;
      if i > 0 { assert keys[1..][i - 1] == u; }
    }
  }

  predicate DistinctKeys(keys: seq<string>) {
    forall i, j :: 0 <= i < j < |keys| ==> keys[i] != keys[j]
  }

  lemma {:induction false} CollectDistinct<V>(keys: seq<string>, entries: map<string, V>, score: V -> Option<int>)
    requires forall i :: 0 <= i < |keys| ==> keys[i] in entries
    requires DistinctKeys(keys)
    ensures DistinctNames(Collect(keys, entries, score))
  {
    if keys != [] {
      var rest := Collect(keys[1..], entries, score);
      assert DistinctKeys(keys[1..]) by {
        forall i, j | 0 <= i < j < |keys[1..]| ensures keys[1..][i] != keys[1..][j] {
          assert keys[1..][i] == keys[i + 1] && keys[1..][j] == keys[j + 1];
        }
      }
      CollectDistinct(keys[1..], entries, score);
      forall i | 0 <= i < |rest| ensures rest[i].0 != keys[0] {
        assert rest[i] in rest;
        var j :| 0 <= j < |keys[1..]| && keys[1..][j] == rest[i].0;
        assert keys[j + 1] == rest[i].0;
      }
    }
  }

  /** Sorting the collected pairs of a dictionary: the rank of every scored key. */
  function RankedBy<V>(keys: seq<string>, entries: map<string, V>, score: V -> Option<int>): seq<Scored>
    requires forall i :: 0 <= i < |keys| ==> keys[i] in entries
  {
    SortByScore(Collect(keys, entries, score))
  }

  /** A scored key sits in the ranking at the position `IndexOfName` reports, with its score. */
  lemma {:induction false} RankOfScored<V>(keys: seq<string>, entries: map<string, V>, score: V -> Option<int>, u: string)
    requires forall i :: 0 <= i < |keys| ==> keys[i] in entries
    requires DistinctKeys(keys) && u in keys && score(entries[u]).Some?
    ensures var ranked := RankedBy(keys, entries, score); var r := IndexOfName(ranked, u);
      r < |ranked| && ranked[r] == (u, score(entries[u]).value)
  {
    var g := Collect(keys, entries, score);
    var ranked := SortByScore(g);
    var p := (u, score(entries[u]).value);
    assert p in g;
    assert p in ranked;
    CollectDistinct(keys, entries, score);
    SortDistinct(g);
    var i :| 0 <= i < |ranked| && ranked[i] == p;
    RankOfMember(ranked, i);
  }

  /** Every key of the ranking has a defined score. */
  lemma RankedMember<V>(keys: seq<string>, entries: map<string, V>, score: V -> Option<int>, i: int)
    requires forall i :: 0 <= i < |keys| ==> keys[i] in entries
    requires DistinctKeys(keys)
    requires 0 <= i < |RankedBy(keys, entries, score)|
    ensures var p := RankedBy(keys, entries, score)[i];
      p.0 in keys && score(entries[p.0]) == Some(p.1) && IndexOfName(RankedBy(keys, entries, score), p.0) == i
  {
    var g := Collect(keys, entries, score);
    var ranked := SortByScore(g);
    assert ranked[i] in ranked;
    CollectDistinct(keys, entries, score);
    SortDistinct(g);
    RankOfMember(ranked, i);
  }

  lemma RankedDistinct<V>(keys: seq<string>, entries: map<string, V>, score: V -> Option<int>)
    requires forall i :: 0 <= i < |keys| ==> keys[i] in entries
    requires DistinctKeys(keys)
    ensures DistinctNames(RankedBy(keys, entries, score))
  {
    CollectDistinct(keys, entries, score);
    SortDistinct(Collect(keys, entries, score));
  }

  /** Floor division of naturals, by repeated subtraction. */
  function Quot(a: nat, d: nat): (q: nat)
    requires d > 0
    ensures q * d <= a < (q + 1) * d
    decreases a
  {
    if a < d then 0 else 1 + Quot(a - d, d)
  }

  lemma {:induction false} QuotMonotone(a: nat, b: nat, d: nat)
    requires a <= b && d > 0
    ensures Quot(a, d) <= Quot(b, d)
    decreases a
  {
    if a >= d {
      QuotMonotone(a - d, b - d, d);
    }
  }

  lemma {:induction false} QuotMultiple(k: nat, d: nat)
    requires d > 0
    ensures Quot(k * d, d) == k
  {
    if k > 0 {
      assert k * d - d == (k - 1) * d;
      QuotMultiple(k - 1, d);
    }
  }

  /** `int(rank / den * 100)` computed exactly: the whole percent at or below `rank / den`. */
  function Percentile(rank: nat, den: nat): (p: nat)
    requires den > 0
    ensures p * den <= rank * 100 < (p + 1) * den
  {
    Quot(rank * 100, den)
  }

  lemma PercentileBounds(rank: nat, den: nat)
    requires 0 < den && rank <= den
    ensures Percentile(rank, den) <= 100
    ensures rank == den ==> Percentile(rank, den) == 100
    ensures rank == 0 ==> Percentile(rank, den) == 0
  {
    QuotMonotone(rank * 100, 100 * den, den);
    QuotMultiple(100, den);
  }
}
