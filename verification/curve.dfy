/** The grade curve of the export step: graded users are ranked by their original grade and
    their rank percentile is mapped onto a fixed table of curved grades. */
module Curve {
  import opened Wrappers
  import opened Dicts
  import opened Ranking
  import opened Records

  /** Numeric value of each of the fifteen letter grades. */
  const GradeOrder: map<string, int> := map[
    "A+" := 13, "A" := 12, "A-" := 11,
    "B+" := 10, "B" := 9, "B-" := 8,
    "C+" := 7, "C" := 6, "C-" := 5,
    "D+" := 4, "D" := 3, "D-" := 2,
    "F+" := 1, "F" := 0, "F-" := -1]

  /** (cumulative percentile cutoff, curved grade), from worst to best. */
  const CurveThresholds: seq<(int, string)> := [
    (3, "F"), (8, "D-"), (15, "D"), (23, "D+"), (35, "C-"), (50, "C"),
    (65, "C+"), (77, "B-"), (88, "B"), (95, "B+"), (99, "A-"), (100, "A")]

  /** The grades the curve can hand out. */
  const ThresholdGrades: set<string> := {"F", "D-", "D", "D+", "C-", "C", "C+", "B-", "B", "B+", "A-", "A"}

  /** The grade a result is ranked by; a missing grade counts as "Pending". */
  function RawGrade(r: JudgeResult): string {
    r.grade.GetOr("Pending")
  }

  /** A result takes part in the curve when its grade is one of the fifteen letter grades. */
  predicate IsGraded(r: JudgeResult) {
    RawGrade(r) in GradeOrder
  }

  function Numeric(r: JudgeResult): int
    requires IsGraded(r)
  {
    GradeOrder[RawGrade(r)]
  }

  /** `GRADE_ORDER.get(raw_grade)`: the value a result is ranked by, if any. */
  function GradeValue(r: JudgeResult): (v: Option<int>)
    ensures v.Some? <==> IsGraded(r)
    ensures v.Some? ==> v.value == Numeric(r)
  {
    if IsGraded(r) then Some(Numeric(r)) else None
  }

  /** `percentile <= cutoff` for `percentile = rank / den * 100`, compared exactly as
      `rank * 100 <= cutoff * den`. */
  predicate Within(rank: nat, den: nat, cutoff: int) {
    rank * 100 <= cutoff * den
  }

  /** The inner loop of `curve_grades` from table position `k`: the grade of the first
      cutoff the percentile does not exceed; past the end the initial value "A+" stays. */
  function CurveGradeFrom(rank: nat, den: nat, k: nat): string
    requires k <= |CurveThresholds|
    decreases |CurveThresholds| - k
  {
    if k == |CurveThresholds| then "A+"
    else if Within(rank, den, CurveThresholds[k].0) then CurveThresholds[k].1
    else CurveGradeFrom(rank, den, k + 1)
  }

  /** The curved grade for rank `rank` among graded users, with `den = max(n - 1, 1)`. */
  function CurveGrade(rank: nat, den: nat): string {
    CurveGradeFrom(rank, den, 0)
  }

  /** Reference definition: the position of the first cutoff at or after `k` that the
      percentile does not exceed, or `|CurveThresholds|` when there is none. */
  function ThresholdIndex(rank: nat, den: nat, k: nat): (i: nat)
    requires k <= |CurveThresholds|
    ensures k <= i <= |CurveThresholds|
    ensures i < |CurveThresholds| ==> Within(rank, den, CurveThresholds[i].0)
    ensures forall j :: k <= j < i ==> !Within(rank, den, CurveThresholds[j].0)
    decreases |CurveThresholds| - k
  {
    if k == |CurveThresholds| then k
    else if Within(rank, den, CurveThresholds[k].0) then k
    else ThresholdIndex(rank, den, k + 1)
  }

  /** The grade at a table position; past the end the initial value "A+". */
  function GradeAt(i: nat): string {
    if i < |CurveThresholds| then CurveThresholds[i].1 else "A+"
  }

  /** The loop hands out the grade at the first cutoff the percentile does not exceed. */
  lemma {:induction false} CurveGradeIsFirstCutoff(rank: nat, den: nat, k: nat)
    requires k <= |CurveThresholds|
    ensures CurveGradeFrom(rank, den, k) == GradeAt(ThresholdIndex(rank, den, k))
    decreases |CurveThresholds| - k
  {
    if k < |CurveThresholds| && !Within(rank, den, CurveThresholds[k].0) {
      CurveGradeIsFirstCutoff(rank, den, k + 1);
    }
  }

  /** The graded users sorted by original grade, worst first (stable). */
  function Ranked(d: Dict<JudgeResult>): seq<Scored>
    requires d.Valid()
  {
    RankedBy(d.keys, d.entries, GradeValue)
  }

  /** `curve_grades`: returns the input unchanged when nobody is graded; otherwise a copy in
      which every graded user's grade is replaced by the curved grade of its rank. */
  function CurveGrades(d: Dict<JudgeResult>): (c: Dict<JudgeResult>)
    requires d.Valid()
    ensures c.Valid() && c.keys == d.keys && c.entries.Keys == d.entries.Keys
    ensures forall u :: u in d.entries && !IsGraded(d.entries[u]) ==> c.entries[u] == d.entries[u]
    ensures forall u :: u in d.entries && IsGraded(d.entries[u]) ==>
      c.entries[u] == d.entries[u].(grade := c.entries[u].grade) && c.entries[u].grade.Some?
  {
    var ranked := Ranked(d);
    if ranked == [] then d
    else
      var den := Den(|ranked|);
      var entries := map u | u in d.entries ::
        if IsGraded(d.entries[u]) then d.entries[u].(grade := Some(CurveGrade(IndexOfName(ranked, u), den)))
        else d.entries[u];
      Dict(d.keys, entries)
  }

  // ---------------------------------------------------------------------------
  // Properties of the curve
  // ---------------------------------------------------------------------------

  /** When nobody is graded the input comes back as it is. */
  lemma NobodyGradedUnchanged(d: Dict<JudgeResult>)
    requires d.Valid()
    requires forall u :: u in d.entries ==> !IsGraded(d.entries[u])
    ensures CurveGrades(d) == d
  {
  }

  /** A graded user's rank is its position in `Ranked(d)`, which is below the number of graded users. */
  lemma {:induction false} GradedUserRanked(d: Dict<JudgeResult>, u: string)
    requires d.Valid() && u in d.entries && IsGraded(d.entries[u])
    ensures var ranked := Ranked(d); var r := IndexOfName(ranked, u);
      r < |ranked| && ranked[r] == (u, Numeric(d.entries[u]))
  {
    RankOfScored(d.keys, d.entries, GradeValue, u);
  }

  /** The curved grade of a graded user, stated through its rank. */
  lemma CurvedGradeOfRank(d: Dict<JudgeResult>, u: string)
    requires d.Valid() && u in d.entries && IsGraded(d.entries[u])
    ensures var ranked := Ranked(d);
      CurveGrades(d).entries[u].grade == Some(CurveGrade(IndexOfName(ranked, u), Den(|ranked|)))
  {
    GradedUserRanked(d, u);
  }

  /** The table lookup never runs off the end for a percentile of at most 100. */
  lemma {:induction false} ThresholdFound(rank: nat, den: nat, k: nat)
    requires den >= 1 && rank <= den && k < |CurveThresholds|
    ensures ThresholdIndex(rank, den, k) < |CurveThresholds|
    decreases |CurveThresholds| - k
  {
    assert CurveThresholds[|CurveThresholds| - 1].0 == 100;
    assert rank * 100 <= den * 100;
    if !Within(rank, den, CurveThresholds[k].0) {
      ThresholdFound(rank, den, k + 1);
    }
  }

  /** Curved grades are always one of the twelve table grades, so never "A+". */
  lemma CurvedGradeInTable(d: Dict<JudgeResult>, u: string)
    requires d.Valid() && u in d.entries && IsGraded(d.entries[u])
    ensures CurveGrades(d).entries[u].grade.value in ThresholdGrades
    ensures CurveGrades(d).entries[u].grade.value != "A+"
  {
    var ranked := Ranked(d);
    GradedUserRanked(d, u);
    var r := IndexOfName(ranked, u);
    var den := Den(|ranked|);
    assert r <= den;
    ThresholdFound(r, den, 0);
    CurvedGradeOfRank(d, u);
    CurveGradeIsFirstCutoff(r, den, 0);
    GradeAtInTable(ThresholdIndex(r, den, 0));
  }

  lemma GradeAtInTable(i: nat)
    requires i < |CurveThresholds|
    ensures GradeAt(i) in ThresholdGrades && GradeAt(i) != "A+"
  {
    assert forall k :: 0 <= k < |CurveThresholds| ==> GradeAt(k) in ThresholdGrades && GradeAt(k) != "A+";
  }

  /** A larger rank never finds an earlier table position. */
  lemma {:induction false} ThresholdIndexMonotone(r1: nat, r2: nat, den: nat, k: nat)
    requires r1 <= r2 && k <= |CurveThresholds|
    ensures ThresholdIndex(r1, den, k) <= ThresholdIndex(r2, den, k)
    decreases |CurveThresholds| - k
  {
    if k < |CurveThresholds| && !Within(r2, den, CurveThresholds[k].0) {
      if !Within(r1, den, CurveThresholds[k].0) {
        ThresholdIndexMonotone(r1, r2, den, k + 1);
      }
    }
  }

  /** Table grades (and the "A+" fallback past the end) have increasing numeric values. */
  lemma GradeAtIncreasing(i: nat, j: nat)
    requires i <= j <= |CurveThresholds|
    ensures GradeAt(i) in GradeOrder && GradeAt(j) in GradeOrder
    ensures GradeOrder[GradeAt(i)] <= GradeOrder[GradeAt(j)]
  {
    var values := [0, 2, 3, 4, 5, 6, 7, 8, 9, 10, 11, 12, 13];
    assert forall k :: 0 <= k <= |CurveThresholds| ==> GradeAt(k) in GradeOrder && GradeOrder[GradeAt(k)] == values[k];
  }

  /** Order preservation: a strictly lower original grade never yields a higher curved grade. */
  lemma CurveMonotone(d: Dict<JudgeResult>, u: string, v: string)
    requires d.Valid() && u in d.entries && v in d.entries
    requires IsGraded(d.entries[u]) && IsGraded(d.entries[v])
    requires Numeric(d.entries[u]) < Numeric(d.entries[v])
    ensures CurveGrades(d).entries[u].grade.value in GradeOrder
    ensures CurveGrades(d).entries[v].grade.value in GradeOrder
    ensures GradeOrder[CurveGrades(d).entries[u].grade.value] <= GradeOrder[CurveGrades(d).entries[v].grade.value]
  {
    var ranked := Ranked(d);
    GradedUserRanked(d, u);
    GradedUserRanked(d, v);
    RankedDistinct(d.keys, d.entries, GradeValue);
    CurvedGradeOfRank(d, u);
    CurvedGradeOfRank(d, v);
    var p := (u, Numeric(d.entries[u]));
    var q := (v, Numeric(d.entries[v]));
    RankRespectsScore(ranked, p, q);
    var den := Den(|ranked|);
    CurveGradeIsFirstCutoff(IndexOfName(ranked, u), den, 0);
    CurveGradeIsFirstCutoff(IndexOfName(ranked, v), den, 0);
    ThresholdIndexMonotone(IndexOfName(ranked, u), IndexOfName(ranked, v), den, 0);
    GradeAtIncreasing(ThresholdIndex(IndexOfName(ranked, u), den, 0), ThresholdIndex(IndexOfName(ranked, v), den, 0));
  }

  /** A single graded user lands at percentile 0 and gets "F". */
  lemma LoneGradedGetsF(d: Dict<JudgeResult>, u: string)
    requires d.Valid() && u in d.entries && IsGraded(d.entries[u])
    requires forall v :: v in d.entries && v != u ==> !IsGraded(d.entries[v])
    ensures CurveGrades(d).entries[u].grade == Some("F")
  {
    var ranked := Ranked(d);
    GradedUserRanked(d, u);
    assert |ranked| == 1 by {
      forall i | 0 <= i < |ranked| ensures ranked[i].0 == u {
        RankedMember(d.keys, d.entries, GradeValue, i);
      }
      RankedDistinct(d.keys, d.entries, GradeValue);
    }
  }

  /** The user at position `i` of the ranking gets the curved grade of rank `i`. */
  lemma RankedUserGrade(d: Dict<JudgeResult>, i: nat, g: string)
    requires d.Valid() && i < |Ranked(d)| && CurveGrade(i, Den(|Ranked(d)|)) == g
    ensures CurveGrades(d).entries[Ranked(d)[i].0].grade == Some(g)
  {
    RankedMember(d.keys, d.entries, GradeValue, i);
    CurvedGradeOfRank(d, Ranked(d)[i].0);
  }

  /** The worst-ranked graded user always gets "F". */
  lemma BottomRankGetsF(d: Dict<JudgeResult>)
    requires d.Valid() && Ranked(d) != []
    ensures CurveGrades(d).entries[Ranked(d)[0].0].grade == Some("F")
  {
    RankedUserGrade(d, 0, "F");
  }

  /** At percentile 100 every cutoff before the last is exceeded, so the walk ends at "A". */
  lemma {:induction false} TopGradeFrom(den: nat, k: nat)
    requires den >= 1 && k < |CurveThresholds|
    ensures CurveGradeFrom(den, den, k) == "A"
    decreases |CurveThresholds| - k
  {
    if k < |CurveThresholds| - 1 {
      var c := CurveThresholds[k].0;
      assert c <= 99;
      assert c * den <= 99 * den;
      TopGradeFrom(den, k + 1);
    } else {
      assert CurveThresholds[k] == (100, "A");
    }
  }

  /** With at least two graded users, the best-ranked one (at the last position `i`) lands at
      percentile 100 and gets "A". */
  lemma TopRankGetsA(d: Dict<JudgeResult>, i: nat)
    requires d.Valid() && 1 <= i && i + 1 == |Ranked(d)|
    ensures CurveGrades(d).entries[Ranked(d)[i].0].grade == Some("A")
  {
    TopCurveGrade(i);
    assert Den(|Ranked(d)|) == Den(i + 1);
    RankedUserGrade(d, i, "A");
  }

  /** The last of `i + 1 >= 2` ranks is curved to "A". */
  lemma TopCurveGrade(i: nat)
    requires 1 <= i
    ensures CurveGrade(i, Den(i + 1)) == "A"
  {
    TopGradeFrom(i, 0);
  }
}
