/** The patch script: fills in the worst commit of every cached profile that lacks one, from
    the commit messages the full scraper saved. Reading and writing files is left out: the
    saved messages, by directory name, are an input, and the classifier is an oracle. */
module PatchWorst {
  import opened Wrappers
  import opened Text
  import opened Dicts
  import opened Records
  import opened Toxicity

  /** The number of messages classified per call. */
  const BatchSize: nat := 32

  /** The saved commit messages by directory name under the raw-data directory; `None` when
      the directory holds no `commits.json`. */
  type SavedCommits = string -> Option<seq<string>>

  /** The saved messages of a user: the lowercase directory first, then the exact name. */
  function CommitsOf(saved: SavedCommits, u: string): Option<seq<string>> {
    if saved(Lower(u)).Some? then saved(Lower(u)) else saved(u)
  }

  // ---------------------------------------------------------------------------
  // Batched prediction
  // ---------------------------------------------------------------------------

  /** `all_scores[k].extend(results[k])` for every axis. */
  function Extend(a: seq<seq<real>>, b: seq<seq<real>>): (r: seq<seq<real>>)
    requires |a| == 6 && |b| == 6
    ensures |r| == 6
  {
    [a[0] + b[0], a[1] + b[1], a[2] + b[2], a[3] + b[3], a[4] + b[4], a[5] + b[5]]
  }

  /** The batches from position `i` on, each of at most `BatchSize` messages, appended to
      the columns `cols` gathered so far. */
  function PredictFrom(classify: Classifier, texts: seq<string>, cols: seq<seq<real>>, i: nat): (r: seq<seq<real>>)
    requires i <= |texts| && Shaped(cols, i)
    ensures Shaped(r, |texts|)
    decreases |texts| - i
  {
    if i == |texts| then cols
    else
      var j := if i + BatchSize <= |texts| then i + BatchSize else |texts|;
      PredictFrom(classify, texts, Extend(cols, Predict(classify, texts[i..j])), j)
  }

  /** The script's batched prediction, starting from six empty columns. */
  function PredictBatched(classify: Classifier, texts: seq<string>): (r: seq<seq<real>>)
    ensures Shaped(r, |texts|)
  {
    PredictFrom(classify, texts, [[], [], [], [], [], []], 0)
  }

  /** Predicting two lists and extending the columns is predicting their concatenation. */
  lemma PredictAppend(classify: Classifier, x: seq<string>, y: seq<string>)
    ensures Extend(Predict(classify, x), Predict(classify, y)) == Predict(classify, x + y)
  {
    var l := Extend(Predict(classify, x), Predict(classify, y));
    var r := Predict(classify, x + y);
    forall a | 0 <= a < 6 ensures l[a] == r[a] {
      assert |l[a]| == |r[a]|;
      forall i | 0 <= i < |r[a]| ensures l[a][i] == r[a][i] {
        if i < |x| {
          assert (x + y)[i] == x[i];
        } else {
          assert (x + y)[i] == y[i - |x|];
        }
      }
    }
  }

  /** The batches from `i` on complete the prediction of the first `i` messages. */
  lemma {:induction false} PredictFromWhole(classify: Classifier, texts: seq<string>, i: nat)
    requires i <= |texts|
    ensures PredictFrom(classify, texts, Predict(classify, texts[..i]), i) == Predict(classify, texts)
    decreases |texts| - i
  {
    if i == |texts| {
      assert texts[..i] == texts;
    } else {
      var j := if i + BatchSize <= |texts| then i + BatchSize else |texts|;
      PredictAppend(classify, texts[..i], texts[i..j]);
      assert texts[..i] + texts[i..j] == texts[..j];
      PredictFromWhole(classify, texts, j);
    }
  }

  /** Classifying in batches of 32 gives the scores of classifying all messages at once. */
  lemma BatchedIsWhole(classify: Classifier, texts: seq<string>)
    ensures PredictBatched(classify, texts) == Predict(classify, texts)
  {
    assert Predict(classify, texts[..0]) == [[], [], [], [], [], []];
    PredictFromWhole(classify, texts, 0);
  }

  // ---------------------------------------------------------------------------
  // One user
  // ---------------------------------------------------------------------------

  /** A profile already has a worst commit when its message is a non-empty string. */
  predicate HasWorst(info: UserRecord) {
    info.worstCommitMsg.Some? && info.worstCommitMsg.value != ""
  }

  /** The fields written for a user with no usable commit: score 0.0 and an empty message. */
  function WithDefaults(info: UserRecord): UserRecord {
    info.(worstCommitToxicity := Some(0.0), worstCommitMsg := Some(""))
  }

  /** The loop body of `main` for one profile, given its saved messages. */
  function PatchUser(info: UserRecord, saved: Option<seq<string>>, classify: Classifier): (r: UserRecord)
    ensures HasWorst(info) ==> r == info
    ensures !HasWorst(info) ==> r.worstCommitMsg.Some? && r.worstCommitToxicity.Some?
    ensures r == info.(worstCommitMsg := r.worstCommitMsg, worstCommitToxicity := r.worstCommitToxicity)
  {
    if HasWorst(info) then info
    else match saved
      case None => WithDefaults(info)
      case Some(texts) =>
        if texts == [] then WithDefaults(info)
        else
          match SelectWorst(PredictBatched(classify, texts), |texts|)
          case None => WithDefaults(info)
          case Some(p) => info.(worstCommitToxicity := Some(p.score), worstCommitMsg := Some(texts[p.idx]))
  }

  /** The patch writes what the scraper's worst-commit search finds for the same messages:
      its message and score, or the defaults when it finds none or there are no messages. */
  lemma PatchMatchesScraper(info: UserRecord, saved: Option<seq<string>>, classify: Classifier)
    requires !HasWorst(info)
    ensures var r := PatchUser(info, saved, classify);
      var w := if saved.Some? then FindWorstCommit(saved.value, Some(classify)) else None;
      && (w.None? ==> r == WithDefaults(info))
      && (w.Some? ==> r.worstCommitMsg == Some(w.value.message) && r.worstCommitToxicity == Some(w.value.score))
  {
    if saved.Some? && saved.value != [] {
      BatchedIsWhole(classify, saved.value);
    }
  }

  /** A patched score is the largest score of any saved message on any axis, and it is
      carried by the patched message; the defaults are written exactly when no score is
      above 0.0. */
  lemma PatchIsWorst(info: UserRecord, texts: seq<string>, classify: Classifier)
    requires !HasWorst(info) && texts != []
    ensures var r := PatchUser(info, Some(texts), classify);
      && (r == WithDefaults(info) <==> forall t, x :: t in texts ==> classify(t).Get(x) <= 0.0)
      && (r != WithDefaults(info) ==>
          && r.worstCommitMsg.value in texts
          && (exists x :: classify(r.worstCommitMsg.value).Get(x) == r.worstCommitToxicity.value)
          && forall t, x :: t in texts ==> classify(t).Get(x) <= r.worstCommitToxicity.value)
  {
    PatchMatchesScraper(info, Some(texts), classify);
    WorstCommitIsMax(texts, Some(classify));
    var w := FindWorstCommit(texts, Some(classify));
    if w.Some? {
      assert classify(w.value.message).Get(w.value.axis) == w.value.score;
      assert w.value.score > 0.0;
      assert PatchUser(info, Some(texts), classify).worstCommitToxicity != Some(0.0);
    }
  }

  /** Patching a patched profile changes nothing. */
  lemma PatchUserIdempotent(info: UserRecord, saved: Option<seq<string>>, classify: Classifier)
    ensures PatchUser(PatchUser(info, saved, classify), saved, classify) == PatchUser(info, saved, classify)
  {
  }

  // ---------------------------------------------------------------------------
  // All users
  // ---------------------------------------------------------------------------

  /** `main`: every profile patched in place; the order and the set of users are kept. */
  function PatchAll(data: Dict<UserRecord>, saved: SavedCommits, classify: Classifier): (r: Dict<UserRecord>)
    requires data.Valid()
    ensures r.Valid() && r.keys == data.keys && r.entries.Keys == data.entries.Keys
    ensures forall u :: u in data.entries && HasWorst(data.entries[u]) ==> r.entries[u] == data.entries[u]
    ensures forall u :: u in r.entries ==> r.entries[u].worstCommitMsg.Some?
    ensures forall u :: u in r.entries ==>
      r.entries[u] == data.entries[u].(worstCommitMsg := r.entries[u].worstCommitMsg,
                                       worstCommitToxicity := r.entries[u].worstCommitToxicity)
  {
    Dict(data.keys, map u | u in data.entries :: PatchUser(data.entries[u], CommitsOf(saved, u), classify))
  }

  /** Running the script twice gives what running it once gives. */
  lemma PatchAllIdempotent(data: Dict<UserRecord>, saved: SavedCommits, classify: Classifier)
    requires data.Valid()
    ensures PatchAll(PatchAll(data, saved, classify), saved, classify) == PatchAll(data, saved, classify)
  {
    var once := PatchAll(data, saved, classify);
    var twice := PatchAll(once, saved, classify);
    forall u | u in data.entries ensures twice.entries[u] == once.entries[u] {
      PatchUserIdempotent(data.entries[u], CommitsOf(saved, u), classify);
    }
    assert twice.entries == once.entries;
  }
}
