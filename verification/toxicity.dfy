/** The toxicity scorer: per-axis averages over a list of texts, and the single worst
    (text, axis) pair. The pretrained classifier is an oracle from a text to its six scores. */
module Toxicity {
  import opened Wrappers

  datatype Axis = Toxicity | SevereToxicity | Obscene | Threat | Insult | IdentityAttack

  /** The fixed axis order the scorer iterates in; on ties the earlier axis wins. */
  const Axes: seq<Axis> := [Toxicity, SevereToxicity, Obscene, Threat, Insult, IdentityAttack]

  function AxisName(a: Axis): string {
    match a
    case Toxicity => "toxicity"
    case SevereToxicity => "severe_toxicity"
    case Obscene => "obscene"
    case Threat => "threat"
    case Insult => "insult"
    case IdentityAttack => "identity_attack"
  }

  /** A score on each of the six axes. */
  datatype AxisScores = AxisScores(
    toxicity: real, severeToxicity: real, obscene: real,
    threat: real, insult: real, identityAttack: real)
  {
    function Get(a: Axis): real {
      match a
      case Toxicity => toxicity
      case SevereToxicity => severeToxicity
      case Obscene => obscene
      case Threat => threat
      case Insult => insult
      case IdentityAttack => identityAttack
    }
  }

  const AllZero := AxisScores(0.0, 0.0, 0.0, 0.0, 0.0, 0.0)

  /** The pretrained classifier, seen as a function from one text to its six scores. */
  type Classifier = string -> AxisScores

  predicate InUnitRange(s: AxisScores) {
    forall a :: 0.0 <= s.Get(a) <= 1.0
  }

  /** A score matrix in the classifier's output layout: one column per axis (in `Axes` order),
      each holding one score per text, `cols[axis][index]`. */
  predicate Shaped(cols: seq<seq<real>>, n: nat) {
    |cols| == 6 && forall a :: 0 <= a < 6 ==> |cols[a]| == n
  }

  /** `model.predict(texts)` */
  function Predict(classify: Classifier, texts: seq<string>): (cols: seq<seq<real>>)
    ensures Shaped(cols, |texts|)
    ensures forall a, i :: 0 <= a < 6 && 0 <= i < |texts| ==> cols[a][i] == classify(texts[i]).Get(Axes[a])
  {
    seq(6, a requires 0 <= a < 6 => seq(|texts|, i requires 0 <= i < |texts| => classify(texts[i]).Get(Axes[a])))
  }

  function Sum(xs: seq<real>): real {
    if xs == [] then 0.0 else Sum(xs[..|xs| - 1]) + xs[|xs| - 1]
  }

  /** The arithmetic mean, in exact arithmetic. */
  function Mean(xs: seq<real>): real
    requires |xs| > 0
  {
    Sum(xs) / (|xs| as real)
  }

  lemma {:induction false} SumBounds(xs: seq<real>, lo: real, hi: real)
    requires forall i :: 0 <= i < |xs| ==> lo <= xs[i] <= hi
    ensures (|xs| as real) * lo <= Sum(xs) <= (|xs| as real) * hi
  {
    if xs != [] {
      SumBounds(xs[..|xs| - 1], lo, hi);
    }
  }

  /** A mean lies between any lower and upper bound of its values. */
  lemma MeanBounds(xs: seq<real>, lo: real, hi: real)
    requires |xs| > 0
    requires forall i :: 0 <= i < |xs| ==> lo <= xs[i] <= hi
    ensures lo <= Mean(xs) <= hi
  {
    SumBounds(xs, lo, hi);
    var n := |xs| as real;
    assert n * lo <= Sum(xs) <= n * hi;
    assert Sum(xs) / n >= (n * lo) / n;
    assert Sum(xs) / n <= (n * hi) / n;
  }

  /** Averaged scores of the given texts: all zeros for an empty list or when the classifier
      fails (`model` is `None`), otherwise the per-axis mean over the texts. */
  function AnalyzeToxicity(texts: seq<string>, model: Option<Classifier>): (r: AxisScores)
    ensures texts == [] || model.None? ==> r == AllZero
    ensures texts != [] && model.Some? ==>
      forall a :: 0 <= a < 6 ==> r.Get(Axes[a]) == Mean(Predict(model.value, texts)[a])
  {
    if texts == [] then AllZero
    else match model
      case None => AllZero
      case Some(classify) =>
        var cols := Predict(classify, texts);
        AxisScores(Mean(cols[0]), Mean(cols[1]), Mean(cols[2]), Mean(cols[3]), Mean(cols[4]), Mean(cols[5]))
  }

  /** If the classifier keeps every score in [0, 1], so does every averaged axis. */
  lemma AnalyzeInUnitRange(texts: seq<string>, model: Option<Classifier>)
    requires model.Some? ==> forall t :: t in texts ==> InUnitRange(model.value(t))
    ensures InUnitRange(AnalyzeToxicity(texts, model))
  {
    var r := AnalyzeToxicity(texts, model);
    if texts != [] && model.Some? {
      var cols := Predict(model.value, texts);
      forall a | 0 <= a < 6 ensures 0.0 <= r.Get(Axes[a]) <= 1.0 {
        forall i | 0 <= i < |texts| ensures 0.0 <= cols[a][i] <= 1.0 {
          assert texts[i] in texts;
          assert InUnitRange(model.value(texts[i]));
        }
        MeanBounds(cols[a], 0.0, 1.0);
      }
      forall x: Axis ensures 0.0 <= r.Get(x) <= 1.0 {
        assert x == Axes[AxisIndex(x)];
      }
    }
  }

  function AxisIndex(a: Axis): (i: nat)
    ensures i < 6 && Axes[i] == a
  {
    match a
    case Toxicity => 0
    case SevereToxicity => 1
    case Obscene => 2
    case Threat => 3
    case Insult => 4
    case IdentityAttack => 5
  }

  // ---------------------------------------------------------------------------
  // Worst (text, axis) selection, shared by the scraper and the patch script.
  // ---------------------------------------------------------------------------

  /** A chosen pair: text index, axis position in `Axes`, and its score. */
  datatype Pick = Pick(idx: nat, axis: nat, score: real)

  /** Pair (j, b) comes strictly before pair (i, a) in index-major, axis-minor order. */
  predicate Before(j: int, b: int, i: int, a: int) {
    j < i || (j == i && b < a)
  }

  /** The scan `for idx: for axis: if score > worst_score: take it`, starting from 0.0 and
      no pick, after it has visited every pair strictly before (i, a). */
  function ScanBefore(cols: seq<seq<real>>, n: nat, i: nat, a: nat): (best: Option<Pick>)
    requires Shaped(cols, n)
    requires a < 6 && i <= n && (i == n ==> a == 0)
    ensures best.Some? ==>
      && best.value.idx < n && best.value.axis < 6
      && Before(best.value.idx, best.value.axis, i, a)
      && best.value.score == cols[best.value.axis][best.value.idx]
      && best.value.score > 0.0
    decreases i * 6 + a
  {
    if i == 0 && a == 0 then None
    else
      var pi := if a == 0 then i - 1 else i;
      var pa := if a == 0 then 5 else a - 1;
      var prev := ScanBefore(cols, n, pi, pa);
      var s := cols[pa][pi];
      var current := if prev.Some? then prev.value.score else 0.0;
      if s > current then Some(Pick(pi, pa, s)) else prev
  }

  /** The scan has picked nothing exactly when no visited score is above 0.0; a pick is at
      least every visited score, and strictly above every score visited before it. */
  lemma {:induction false} ScanBeforeSpec(cols: seq<seq<real>>, n: nat, i: nat, a: nat)
    requires Shaped(cols, n)
    requires a < 6 && i <= n && (i == n ==> a == 0)
    ensures var best := ScanBefore(cols, n, i, a);
      && (best.None? <==>
          forall j, b :: 0 <= j < n && 0 <= b < 6 && Before(j, b, i, a) ==> cols[b][j] <= 0.0)
      && (best.Some? ==>
          forall j, b :: 0 <= j < n && 0 <= b < 6 && Before(j, b, i, a) ==> cols[b][j] <= best.value.score)
      && (best.Some? ==>
          forall j, b :: 0 <= j < n && 0 <= b < 6 && Before(j, b, best.value.idx, best.value.axis) ==>
            cols[b][j] < best.value.score)
    decreases i * 6 + a
  {
    if !(i == 0 && a == 0) {
      var pi := if a == 0 then i - 1 else i;
      var pa := if a == 0 then 5 else a - 1;
      ScanBeforeSpec(cols, n, pi, pa);
      assert forall j, b :: 0 <= b < 6 ==> (Before(j, b, i, a) <==> Before(j, b, pi, pa) || (j == pi && b == pa));
    }
  }

  /** The worst pair over all `n` texts: `None` when no score is strictly above 0.0, else a
      strictly positive score of the matrix (`SelectWorstIsMax` says which). */
  function SelectWorst(cols: seq<seq<real>>, n: nat): (best: Option<Pick>)
    requires Shaped(cols, n)
    ensures best.Some? ==>
      && best.value.idx < n && best.value.axis < 6
      && best.value.score == cols[best.value.axis][best.value.idx]
      && best.value.score > 0.0
  {
    ScanBefore(cols, n, n, 0)
  }

  /** The selected pair is a maximum over the whole matrix, and the first one in index-major,
      axis-minor order; nothing is selected exactly when no score is above 0.0. */
  lemma SelectWorstIsMax(cols: seq<seq<real>>, n: nat)
    requires Shaped(cols, n)
    ensures var best := SelectWorst(cols, n);
      && (best.None? <==> forall j, b :: 0 <= j < n && 0 <= b < 6 ==> cols[b][j] <= 0.0)
      && (best.Some? ==> forall j, b :: 0 <= j < n && 0 <= b < 6 ==> cols[b][j] <= best.value.score)
      && (best.Some? ==>
          forall j, b :: 0 <= j < n && 0 <= b < 6 && Before(j, b, best.value.idx, best.value.axis) ==>
            cols[b][j] < best.value.score)
  {
    ScanBeforeSpec(cols, n, n, 0);
  }

  /** The record the scorer returns for the worst commit. */
  datatype WorstCommit = WorstCommit(message: string, axis: Axis, score: real, allScores: AxisScores)

  /** The six scores of text `idx`, read back out of the score matrix. */
  function ScoresAt(cols: seq<seq<real>>, n: nat, idx: nat): AxisScores
    requires Shaped(cols, n) && idx < n
  {
    AxisScores(cols[0][idx], cols[1][idx], cols[2][idx], cols[3][idx], cols[4][idx], cols[5][idx])
  }

  /** Reading text `idx`'s column entries back gives the classifier's scores for that text. */
  lemma ScoresAtPredict(classify: Classifier, texts: seq<string>, idx: nat)
    requires idx < |texts|
    ensures ScoresAt(Predict(classify, texts), |texts|, idx) == classify(texts[idx])
  {
    var cols := Predict(classify, texts);
    assert cols[0][idx] == classify(texts[idx]).Get(Axes[0]);
    assert cols[1][idx] == classify(texts[idx]).Get(Axes[1]);
    assert cols[2][idx] == classify(texts[idx]).Get(Axes[2]);
    assert cols[3][idx] == classify(texts[idx]).Get(Axes[3]);
    assert cols[4][idx] == classify(texts[idx]).Get(Axes[4]);
    assert cols[5][idx] == classify(texts[idx]).Get(Axes[5]);
  }

  /** The worst commit of `texts`; `None` for no texts or a failing classifier. A worst
      commit carries the classifier's scores for its message and a strictly positive score
      on its axis; `WorstCommitIsMax` says it is the maximum. */
  function FindWorstCommit(texts: seq<string>, model: Option<Classifier>): (r: Option<WorstCommit>)
    ensures texts == [] || model.None? ==> r.None?
    ensures r.Some? ==> model.Some? && r.value.message in texts
    ensures r.Some? ==> r.value.allScores == model.value(r.value.message)
    ensures r.Some? ==> r.value.score == r.value.allScores.Get(r.value.axis) && r.value.score > 0.0
  {
    if texts == [] || model.None? then None
    else
      var classify := model.value;
      var cols := Predict(classify, texts);
      var best := SelectWorst(cols, |texts|);
      if best.None? then None
      else
        var p := best.value;
        ScoresAtPredict(classify, texts, p.idx);
        assert p.score == classify(texts[p.idx]).Get(Axes[p.axis]);
        assert texts[p.idx] in texts;
        Some(WorstCommit(texts[p.idx], Axes[p.axis], p.score, ScoresAt(cols, |texts|, p.idx)))
  }

  /** With a classifier and some texts there is a worst commit exactly when some score is
      strictly positive, and its score is at least every score of every text. */
  lemma WorstCommitIsMax(texts: seq<string>, model: Option<Classifier>)
    ensures model.Some? && texts != [] ==>
      (FindWorstCommit(texts, model).None? <==> forall t, x :: t in texts ==> model.value(t).Get(x) <= 0.0)
    ensures FindWorstCommit(texts, model).Some? ==>
      forall t, x :: t in texts ==> model.value(t).Get(x) <= FindWorstCommit(texts, model).value.score
  {
    if texts != [] && model.Some? {
      var classify := model.value;
      var best := SelectWorst(Predict(classify, texts), |texts|);
      SelectWorstIsMax(Predict(classify, texts), |texts|);
      if best.None? {
        AllScoresNonPositive(classify, texts);
      } else {
        MaxOverAll(classify, texts, best.value.score);
      }
    }
  }

  lemma AllScoresNonPositive(classify: Classifier, texts: seq<string>)
    requires forall j, b :: 0 <= j < |texts| && 0 <= b < 6 ==> Predict(classify, texts)[b][j] <= 0.0
    ensures forall t, x :: t in texts ==> classify(t).Get(x) <= 0.0
  {
    forall t, x | t in texts ensures classify(t).Get(x) <= 0.0 {
      var j :| 0 <= j < |texts| && texts[j] == t;
      assert Predict(classify, texts)[AxisIndex(x)][j] <= 0.0;
    }
  }

  lemma MaxOverAll(classify: Classifier, texts: seq<string>, m: real)
    requires forall j, b :: 0 <= j < |texts| && 0 <= b < 6 ==> Predict(classify, texts)[b][j] <= m
    ensures forall t, x :: t in texts ==> classify(t).Get(x) <= m
  {
    forall t, x | t in texts ensures classify(t).Get(x) <= m {
      var j :| 0 <= j < |texts| && texts[j] == t;
      assert Predict(classify, texts)[AxisIndex(x)][j] <= m;
    }
  }
}
