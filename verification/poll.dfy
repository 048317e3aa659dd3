/** The judge pipeline's fourth phase (waiting for the review bot's answers) and its export
    of the results. Each polling round asks, for every user still waiting, for the comments on
    that user's pull request; the first bot comment that looks like a real review is parsed.
    The clock only decides how many rounds there are, so the rounds are an input. */
module Poll {
  import opened Wrappers
  import opened Dicts
  import opened Text
  import opened Records
  import opened GitHub
  import opened JudgeState
  import opened ResponseParser

  /** A pull-request comment: its author's login and its text. */
  datatype Comment = Comment(login: string, body: string)

  /** Status comments of the bot that are not reviews. */
  const SkipPhrases := ["auto-generated comment", "Review skipped", "Actions performed", "Review triggered", "finishing_touch_checkbox"]

  /** A comment is taken as the review when its author's login contains "coderabbit" in any
      letter case, it contains none of the status phrases, and it is at least 200 characters
      long. */
  predicate Qualifies(c: Comment) {
    && Contains(Lower(c.login), "coderabbit")
    && (forall i :: 0 <= i < |SkipPhrases| ==> !Contains(c.body, SkipPhrases[i]))
    && |c.body| >= 200
  }

  /** The first qualifying comment at or after `k`. */
  function FirstQualifying(cs: seq<Comment>, k: nat): (r: Option<nat>)
    ensures r.Some? ==> k <= r.value < |cs| && Qualifies(cs[r.value])
    ensures r.Some? ==> forall j :: k <= j < r.value ==> !Qualifies(cs[j])
    ensures r.None? ==> forall j :: k <= j < |cs| ==> !Qualifies(cs[j])
    decreases |cs| - k
  {
    if k >= |cs| then None
    else if Qualifies(cs[k]) then Some(k)
    else FirstQualifying(cs, k + 1)
  }

  /** The review found in one answer to the comment listing: only a 200 is read. */
  function Found(resp: Response<seq<Comment>>): (body: Option<string>)
    ensures body.Some? ==> resp.status == 200 && |body.value| >= 200
    ensures resp.status != 200 ==> body.None?
  {
    if resp.status != 200 then None
    else
      match FirstQualifying(resp.body, 0)
      case None => None
      case Some(i) => Some(resp.body[i].body)
  }

  /** One polling round: `round(u)` is the answer to user `u`'s comment listing. */
  type Round = string -> Response<seq<Comment>>

  /** The result stored for a user who timed out (with the one-character ellipsis). */
  const TimedOut := JudgeResult(Some(PendingGrade), Some(PendingEllipsis), Some(UnknownBadge))

  /** A user's state once the review `body` has been read. */
  function Answered(s: UserState, body: string, decode: Decoder): (a: UserState)
    ensures a.responseParsed && a.result.Some? && a.rawResponse == Some(body)
  {
    s.(responseParsed := true, result := Some(Parse(body, decode)), rawResponse := Some(body))
  }

  // ---------------------------------------------------------------------------
  // Who is waiting
  // ---------------------------------------------------------------------------

  /** A user waits when the judging comment was posted and no answer has been read yet. */
  predicate Waiting(st: Dict<UserState>, u: string) {
    u in st.entries && st.entries[u].commentPosted && !st.entries[u].responseParsed
  }

  /** The waiting users, in the order of the profile cache. */
  function PendingUsers(users: seq<string>, st: Dict<UserState>): (p: seq<string>)
    ensures forall u :: u in p <==> u in users && Waiting(st, u)
    ensures Distinct(users) ==> Distinct(p)
  {
    if users == [] then []
    else
      var rest := PendingUsers(users[1..], st);
      if Waiting(st, users[0]) then [users[0]] + rest else rest
  }

  // ---------------------------------------------------------------------------
  // Rounds
  // ---------------------------------------------------------------------------

  /** One round over the waiting users: a user whose review is found gets it; the others are
      still waiting afterwards. */
  function PollRound(st: Dict<UserState>, pending: seq<string>, round: Round, decode: Decoder): (r: (Dict<UserState>, seq<string>))
    requires st.Valid() && forall u :: u in pending ==> u in st.entries
    ensures r.0.Valid() && r.0.keys == st.keys
    ensures forall u :: u in r.1 <==> u in pending && Found(round(u)).None?
    decreases |pending|
  {
    if pending == [] then (st, [])
    else
      var u := pending[0];
      var next := match Found(round(u))
        case Some(body) => st.Set(u, Answered(st.entries[u], body, decode))
        case None => st;
      (PollRound(next, pending[1..], round, decode).0, StillWaiting(pending, round))
  }

  /** The users of `pending` whose answer in this round holds no review, in order. */
  function StillWaiting(pending: seq<string>, round: Round): (still: seq<string>)
    ensures forall u :: u in still <==> u in pending && Found(round(u)).None?
    ensures Distinct(pending) ==> Distinct(still)
  {
    if pending == [] then []
    else
      var rest := StillWaiting(pending[1..], round);
      if Found(round(pending[0])).None? then [pending[0]] + rest else rest
  }

  /** The rounds, stopping early once nobody is waiting. */
  function PollRounds(st: Dict<UserState>, pending: seq<string>, rounds: seq<Round>, decode: Decoder): (r: (Dict<UserState>, seq<string>))
    requires st.Valid() && forall u :: u in pending ==> u in st.entries
    ensures r.0.Valid() && r.0.keys == st.keys
    ensures forall u :: u in r.1 ==> u in pending
    decreases |rounds|
  {
    if pending == [] || rounds == [] then (st, pending)
    else
      var (next, still) := PollRound(st, pending, rounds[0], decode);
      PollRounds(next, still, rounds[1..], decode)
  }

  /** Give every user still waiting the timed-out result (they stay unparsed). */
  function MarkTimedOut(st: Dict<UserState>, left: seq<string>): (r: Dict<UserState>)
    requires st.Valid() && forall u :: u in left ==> u in st.entries
    ensures r.Valid() && r.keys == st.keys
    decreases |left|
  {
    if left == [] then st
    else
      var u := left[0];
      MarkTimedOut(st.Set(u, st.entries[u].(result := Some(TimedOut))), left[1..])
  }

  /** `phase_poll` */
  function PhasePoll(pre: Dict<UserRecord>, st: Dict<UserState>, rounds: seq<Round>, decode: Decoder): (r: Dict<UserState>)
    requires st.Valid()
    ensures r.Valid() && r.keys == st.keys
  {
    var pending := PendingUsers(pre.keys, st);
    if pending == [] then st
    else
      var (polled, left) := PollRounds(st, pending, rounds, decode);
      MarkTimedOut(polled, left)
  }

  // ---------------------------------------------------------------------------
  // The per-user reference: a user's outcome depends only on that user's answers
  // ---------------------------------------------------------------------------

  /** The review in the first round whose answer for `u` holds one. */
  function FirstAnswer(u: string, rounds: seq<Round>): Option<string> {
    if rounds == [] then None
    else
      match Found(rounds[0](u))
      case Some(body) => Some(body)
      case None => FirstAnswer(u, rounds[1..])
  }

  lemma {:induction false} PollRoundEffect(st: Dict<UserState>, pending: seq<string>, round: Round, decode: Decoder)
    requires st.Valid() && Distinct(pending) && forall u :: u in pending ==> u in st.entries
    ensures var r := PollRound(st, pending, round, decode).0;
      && (forall u :: u !in pending ==> Get(r.entries, u) == Get(st.entries, u))
      && (forall u :: u in pending ==> r.entries[u] == AfterRound(st.entries[u], Found(round(u)), decode))
    decreases |pending|
  {
    if pending != [] {
      var u := pending[0];
      var rest := pending[1..];
      var next := match Found(round(u))
        case Some(body) => st.Set(u, Answered(st.entries[u], body, decode))
        case None => st;
      DistinctTail(pending);
      HeadOrTail(pending);
      PollRoundEffect(next, rest, round, decode);
    }
  }

  /** The state of `s` after a round's answer: the review read, or unchanged. */
  function AfterRound(s: UserState, found: Option<string>, decode: Decoder): UserState {
    match found
    case Some(body) => Answered(s, body, decode)
    case None => s
  }

  lemma HeadOrTail(xs: seq<string>)
    requires xs != []
    ensures forall v :: v in xs <==> v == xs[0] || v in xs[1..]
  {
    assert xs == [xs[0]] + xs[1..];
  }

  lemma DistinctTail(xs: seq<string>)
    requires xs != [] && Distinct(xs)
    ensures Distinct(xs[1..]) && xs[0] !in xs[1..]
  {
    var rest := xs[1..];
    forall i, j | 0 <= i < j < |rest| ensures rest[i] != rest[j] {
      assert rest[i] == xs[i + 1] && rest[j] == xs[j + 1];
    }
    forall i | 0 <= i < |rest| ensures rest[i] != xs[0] { assert rest[i] == xs[i + 1]; }
  }

  /** Over all rounds, a waiting user ends with the first review found for it, or still waits
      (unchanged) when no round found one; other users are untouched. */
  lemma {:induction false} PollRoundsEffect(st: Dict<UserState>, pending: seq<string>, rounds: seq<Round>, decode: Decoder)
    requires st.Valid() && Distinct(pending) && forall u :: u in pending ==> u in st.entries
    ensures var (r, left) := PollRounds(st, pending, rounds, decode);
      && Distinct(left)
      && (forall u :: u !in pending ==> Get(r.entries, u) == Get(st.entries, u))
      && (forall u :: u in pending ==>
            && (u in left <==> FirstAnswer(u, rounds).None?)
            && r.entries[u] == match FirstAnswer(u, rounds)
                 case Some(body) => Answered(st.entries[u], body, decode)
                 case None => st.entries[u])
    decreases |rounds|
  {
    if pending == [] {
    } else if rounds == [] {
    } else {
      var (next, still) := PollRound(st, pending, rounds[0], decode);
      PollRoundEffect(st, pending, rounds[0], decode);
      PollRoundsEffect(next, still, rounds[1..], decode);
      var (r, left) := PollRounds(next, still, rounds[1..], decode);
      assert PollRounds(st, pending, rounds, decode) == (r, left);
      forall u | u in pending
        ensures && (u in left <==> FirstAnswer(u, rounds).None?)
                && r.entries[u] == match FirstAnswer(u, rounds)
                     case Some(body) => Answered(st.entries[u], body, decode)
                     case None => st.entries[u]
      {
        if Found(rounds[0](u)).Some? {
          assert u !in still;
          assert FirstAnswer(u, rounds) == Found(rounds[0](u));
        } else {
          assert u in still;
          assert next.entries[u] == st.entries[u];
        }
      }
    }
  }

  lemma {:induction false} MarkTimedOutEffect(st: Dict<UserState>, left: seq<string>)
    requires st.Valid() && forall u :: u in left ==> u in st.entries
    ensures var r := MarkTimedOut(st, left);
      && (forall u :: u !in left ==> Get(r.entries, u) == Get(st.entries, u))
      && (forall u :: u in left ==> r.entries[u] == st.entries[u].(result := Some(TimedOut)))
    decreases |left|
  {
    if left != [] {
      var u := left[0];
      var next := st.Set(u, st.entries[u].(result := Some(TimedOut)));
      MarkTimedOutEffect(next, left[1..]);
      forall v | v in left[1..] ensures MarkTimedOut(st, left).entries[v] == st.entries[v].(result := Some(TimedOut)) {
        if v != u { assert next.entries[v] == st.entries[v]; }
      }
    }
  }

  /** `phase_poll` user by user: a waiting user gets the first review any round found for it,
      or the timed-out result (still unparsed); everybody else is untouched. */
  lemma PhasePollEffect(pre: Dict<UserRecord>, st: Dict<UserState>, rounds: seq<Round>, decode: Decoder)
    requires pre.Valid() && st.Valid()
    ensures var r := PhasePoll(pre, st, rounds, decode);
      && (forall u :: !(u in pre.entries && Waiting(st, u)) ==> Get(r.entries, u) == Get(st.entries, u))
      && (forall u :: u in pre.entries && Waiting(st, u) ==>
            r.entries[u] == match FirstAnswer(u, rounds)
              case Some(body) => Answered(st.entries[u], body, decode)
              case None => st.entries[u].(result := Some(TimedOut)))
  {
    var pending := PendingUsers(pre.keys, st);
    assert Distinct(pre.keys);
    if pending != [] {
      PollRoundsEffect(st, pending, rounds, decode);
      var (polled, left) := PollRounds(st, pending, rounds, decode);
      MarkTimedOutEffect(polled, left);
    }
  }

  /** Polling keeps every user's completion chain: only waiting users (whose comment was
      posted) are marked parsed, and each of them then carries a result. */
  lemma PhasePollKeepsChain(pre: Dict<UserRecord>, st: Dict<UserState>, rounds: seq<Round>, decode: Decoder)
    requires pre.Valid() && st.Valid() && AllChainOk(st)
    ensures AllChainOk(PhasePoll(pre, st, rounds, decode))
  {
    PhasePollEffect(pre, st, rounds, decode);
    var r := PhasePoll(pre, st, rounds, decode);
    forall u | u in r.entries ensures ChainOk(r.entries[u]) {
      assert Get(r.entries, u).Some?;
      if !(u in pre.entries && Waiting(st, u)) {
        assert Get(st.entries, u) == Get(r.entries, u);
      }
    }
  }

  // ---------------------------------------------------------------------------
  // export_results
  // ---------------------------------------------------------------------------

  /** The result a user's state carries, or the timed-out placeholder. */
  function ResultOf(st: Dict<UserState>, u: string): JudgeResult {
    if u in st.entries && st.entries[u].result.Some? then st.entries[u].result.value else TimedOut
  }

  /** `export_results`: one result per user of the profile cache, in its order. */
  function ExportResults(pre: Dict<UserRecord>, st: Dict<UserState>): (r: Dict<JudgeResult>)
    requires pre.Valid()
    ensures r.Valid() && r.keys == pre.keys
    ensures forall u :: u in r.entries ==>
      (r.entries[u] == TimedOut <==> !(u in st.entries && st.entries[u].result.Some? && st.entries[u].result.value != TimedOut))
    ensures forall u :: u in r.entries && u in st.entries && st.entries[u].result.Some? ==>
      r.entries[u] == st.entries[u].result.value
    ensures forall u :: u in r.entries && !(u in st.entries && st.entries[u].result.Some?) ==>
      r.entries[u] == TimedOut
  {
    var entries := map u | u in pre.entries :: ResultOf(st, u);
    Dict(pre.keys, entries)
  }

  /** After polling, a user who was waiting is exported with the review parsed from the first
      answer found for it, or with the timed-out placeholder. */
  lemma PolledUserExported(pre: Dict<UserRecord>, st: Dict<UserState>, rounds: seq<Round>, decode: Decoder, u: string)
    requires pre.Valid() && st.Valid() && u in pre.entries && Waiting(st, u)
    ensures var out := ExportResults(pre, PhasePoll(pre, st, rounds, decode));
      out.entries[u] == match FirstAnswer(u, rounds)
        case Some(body) => Parse(body, decode)
        case None => TimedOut
  {
    PhasePollEffect(pre, st, rounds, decode);
  }
}
