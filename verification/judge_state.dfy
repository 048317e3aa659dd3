/** The judge pipeline's resumable per-user state and its first three phases (fork, pull
    request, comment). Each phase visits the users of the profile cache in order and applies a
    guarded step to that user's state; a step whose completion flag is already set does
    nothing, so an interrupted run can simply be started again. */
module JudgeState {
  import opened Wrappers
  import opened Dicts
  import opened Records
  import opened GitHub
  import opened Text

  /** One user's progress through the pipeline; absent keys are None (or false). */
  datatype UserState = UserState(
    forkName: Option<string>,
    repoName: Option<string>,
    error: Option<string>,
    prNumber: Option<int>,
    defaultBranch: Option<string>,
    commentPosted: bool,
    commentTime: Option<string>,
    responseParsed: bool,
    result: Option<JudgeResult>,
    rawResponse: Option<string>)

  /** The `{}` a user starts from. */
  const Fresh := UserState(None, None, None, None, None, false, None, false, None, None)

  const ForkFailed := "fork_failed"

  /** `user_state.get("fork_name")` is truthy. */
  predicate HasFork(s: UserState) {
    s.forkName.Some? && s.forkName.value != ""
  }

  /** `user_state.get("pr_number")` is truthy. */
  predicate HasPr(s: UserState) {
    s.prNumber.Some? && s.prNumber.value != 0
  }

  /** Each completion flag implies the previous one: a pull request needs a fork, a comment
      needs a pull request, a parsed response needs a comment and carries a result. */
  predicate ChainOk(s: UserState) {
    && (HasPr(s) ==> HasFork(s))
    && (s.commentPosted ==> HasPr(s))
    && (s.responseParsed ==> s.commentPosted && s.result.Some?)
  }

  predicate AllChainOk(st: Dict<UserState>) {
    forall u :: u in st.entries ==> ChainOk(st.entries[u])
  }

  /** A step's effect on one user: the user's new state (None: still no entry) and the number
      of API calls made. */
  datatype Outcome = Outcome(after: Option<UserState>, requests: nat)

  // ---------------------------------------------------------------------------
  // Running a phase over the users
  // ---------------------------------------------------------------------------

  /** The state a user has after a step: the step's result if it wrote one, else as before. */
  function Merge(before: Option<UserState>, o: Outcome): Option<UserState> {
    if o.after.Some? then o.after else before
  }

  /** Visit `users` in order, applying `step` to each user's current state. */
  function RunPhase(st: Dict<UserState>, users: seq<string>, step: (string, Option<UserState>) -> Outcome): (r: Dict<UserState>)
    requires st.Valid()
    ensures r.Valid()
    decreases |users|
  {
    if users == [] then st
    else
      var u := users[0];
      var o := step(u, Get(st.entries, u));
      var next := if o.after.Some? then st.Set(u, o.after.value) else st;
      RunPhase(next, users[1..], step)
  }

  predicate Distinct(users: seq<string>) {
    forall i, j :: 0 <= i < j < |users| ==> users[i] != users[j]
  }

  /** Each listed user gets exactly its step's result; every other user keeps its state. */
  lemma {:induction false} RunPhaseEffect(st: Dict<UserState>, users: seq<string>, step: (string, Option<UserState>) -> Outcome)
    requires st.Valid() && Distinct(users)
    ensures forall u :: u !in users ==> Get(RunPhase(st, users, step).entries, u) == Get(st.entries, u)
    ensures forall u :: u in users ==>
      Get(RunPhase(st, users, step).entries, u) == Merge(Get(st.entries, u), step(u, Get(st.entries, u)))
    decreases |users|
  {
    if users != [] {
      var u := users[0];
      var o := step(u, Get(st.entries, u));
      var next := if o.after.Some? then st.Set(u, o.after.value) else st;
      var rest := users[1..];
      assert Distinct(rest) by {
        forall i, j | 0 <= i < j < |rest| ensures rest[i] != rest[j] {
          assert rest[i] == users[i + 1] && rest[j] == users[j + 1];
        }
      }
      assert u !in rest by {
        forall i | 0 <= i < |rest| ensures rest[i] != u { assert rest[i] == users[i + 1]; }
      }
      RunPhaseEffect(next, rest, step);
      forall v | v in users ensures v == u || v in rest {
        var i :| 0 <= i < |users| && users[i] == v;
        if i > 0 { assert rest[i - 1] == v; }
      }
    }
  }

  /** A step keeps the chain invariant of the user it touches. */
  ghost predicate StepKeepsChain(step: (string, Option<UserState>) -> Outcome) {
    forall u: string, s: Option<UserState> :: (s.Some? ==> ChainOk(s.value)) && step(u, s).after.Some? ==> ChainOk(step(u, s).after.value)
  }

  lemma {:induction false} RunPhaseKeepsChain(st: Dict<UserState>, users: seq<string>, step: (string, Option<UserState>) -> Outcome)
    requires st.Valid() && AllChainOk(st) && StepKeepsChain(step)
    ensures AllChainOk(RunPhase(st, users, step))
    decreases |users|
  {
    if users != [] {
      var u := users[0];
      var s := Get(st.entries, u);
      var o := step(u, s);
      var next := if o.after.Some? then st.Set(u, o.after.value) else st;
      assert s.Some? ==> ChainOk(s.value);
      RunPhaseKeepsChain(next, users[1..], step);
    }
  }

  // ---------------------------------------------------------------------------
  // Phase 1: forks
  // ---------------------------------------------------------------------------

  /** The answers to a user's fork requests: the lookup of an existing fork and the fork creation. */
  datatype ForkAnswers = ForkAnswers(existing: Response<RepoInfo>, created: Response<string>)

  /** `phase_fork` for one user whose top repositories are `topRepos`. */
  function ForkStep(s: Option<UserState>, topRepos: seq<string>, a: ForkAnswers): (o: Outcome)
    ensures (s.Some? && HasFork(s.value)) || topRepos == [] ==> o == Outcome(s, 0)
    ensures !((s.Some? && HasFork(s.value)) || topRepos == []) ==>
      var base := s.GetOr(Fresh);
      var name := ForkRepo(a.existing, a.created).0;
      && o.after.Some?
      && (name.Some? && name.value != "" ==>
            o.after.value == base.(forkName := name, repoName := Some(topRepos[0])))
      && (!(name.Some? && name.value != "") ==>
            o.after.value == base.(error := Some(ForkFailed)) && !HasFork(o.after.value))
  {
    if (s.Some? && HasFork(s.value)) || topRepos == [] then Outcome(s, 0)
    else
      var (name, requests) := ForkRepo(a.existing, a.created);
      var base := s.GetOr(Fresh);
      if name.Some? && name.value != "" then
        Outcome(Some(base.(forkName := name, repoName := Some(topRepos[0]))), requests)
      else
        Outcome(Some(base.(error := Some(ForkFailed))), requests)
  }

  /** `data.get("top_repos", [])` for a user of the profile cache. */
  function TopReposOf(pre: Dict<UserRecord>, u: string): seq<string> {
    if u in pre.entries then pre.entries[u].topRepos.GetOr([]) else []
  }

  function ForkStepOf(pre: Dict<UserRecord>, net: string -> ForkAnswers): (string, Option<UserState>) -> Outcome {
    (u, s) => ForkStep(s, TopReposOf(pre, u), net(u))
  }

  /** `phase_fork`: `net(u)` answers the requests made for user `u`. */
  function PhaseFork(pre: Dict<UserRecord>, st: Dict<UserState>, net: string -> ForkAnswers): (r: Dict<UserState>)
    requires pre.Valid() && st.Valid()
    ensures r.Valid()
  {
    RunPhase(st, pre.keys, ForkStepOf(pre, net))
  }

  lemma ForkStepKeepsChain(pre: Dict<UserRecord>, net: string -> ForkAnswers)
    ensures StepKeepsChain(ForkStepOf(pre, net))
  {
    var step := ForkStepOf(pre, net);
    forall u: string, s: Option<UserState> | (s.Some? ==> ChainOk(s.value)) && step(u, s).after.Some?
      ensures ChainOk(step(u, s).after.value)
    {
      assert step(u, s) == ForkStep(s, TopReposOf(pre, u), net(u));
    }
  }

  /** After the fork phase every user of the cache holds the fork step's result and all other
      users are untouched; the chain invariant still holds. */
  lemma PhaseForkEffect(pre: Dict<UserRecord>, st: Dict<UserState>, net: string -> ForkAnswers)
    requires pre.Valid() && st.Valid()
    ensures var r := PhaseFork(pre, st, net);
      && (forall u :: u !in pre.entries ==> Get(r.entries, u) == Get(st.entries, u))
      && (forall u :: u in pre.entries ==>
            Get(r.entries, u) == Merge(Get(st.entries, u), ForkStep(Get(st.entries, u), TopReposOf(pre, u), net(u))))
    ensures AllChainOk(st) ==> AllChainOk(PhaseFork(pre, st, net))
  {
    RunPhaseEffect(st, pre.keys, ForkStepOf(pre, net));
    if AllChainOk(st) {
      ForkStepKeepsChain(pre, net);
      RunPhaseKeepsChain(st, pre.keys, ForkStepOf(pre, net));
    }
  }

  // ---------------------------------------------------------------------------
  // Phase 2: pull requests
  // ---------------------------------------------------------------------------

  /** The answers to a user's pull-request requests: the fork's repository (its default
      branch), the base-branch calls, the open pull requests and the creation. */
  datatype PrAnswers = PrAnswers(
    repo: Response<string>, branch: BranchAnswers, open: Response<seq<int>>, created: Response<int>)

  /** The calls `create_base_branch` makes. */
  function BranchRequests(a: BranchAnswers): (n: nat)
    ensures 1 <= n <= 4
  {
    if a.firstPage.status != 200 then 1
    else
      var lastPage := if Contains(a.link, "last") && LastPageUrl(a.link).Some? then 1 else 0;
      if OldestSha(a).None? then 1 + lastPage
      else 1 + lastPage + (if a.createRef.status == 422 then 2 else 1)
  }

  /** `phase_pr` for one user. */
  function PrStep(s: Option<UserState>, a: PrAnswers): (o: Outcome)
    ensures s.None? || !HasFork(s.value) || HasPr(s.value) ==> o == Outcome(s, 0)
    ensures o.after.Some? && o.after != s ==>
      && s.Some? && a.repo.status == 200 && CreateBaseBranch(a.branch).Some?
      && var pr := CreatePr(a.open, a.created);
         pr.Some? && pr.value != 0 &&
         o.after.value == s.value.(prNumber := pr, defaultBranch := Some(a.repo.body))
    ensures && s.Some? && HasFork(s.value) && !HasPr(s.value)
            && a.repo.status == 200 && CreateBaseBranch(a.branch).Some?
            && CreatePr(a.open, a.created).Some? && CreatePr(a.open, a.created).value != 0 ==>
      o.after == Some(s.value.(prNumber := CreatePr(a.open, a.created), defaultBranch := Some(a.repo.body)))
  {
    if s.None? || !HasFork(s.value) || HasPr(s.value) then Outcome(s, 0)
    else if a.repo.status != 200 then Outcome(s, 1)
    else
      var branchCalls := BranchRequests(a.branch);
      match CreateBaseBranch(a.branch)
      case None => Outcome(s, 1 + branchCalls)
      case Some(_) =>
        var pr := CreatePr(a.open, a.created);
        var prCalls := if a.open.status == 200 && a.open.body != [] then 1 else 2;
        if pr.Some? && pr.value != 0 then
          Outcome(Some(s.value.(prNumber := pr, defaultBranch := Some(a.repo.body))), 1 + branchCalls + prCalls)
        else Outcome(s, 1 + branchCalls + prCalls)
  }

  function PrStepOf(net: string -> PrAnswers): (string, Option<UserState>) -> Outcome {
    (u, s) => PrStep(s, net(u))
  }

  /** `phase_pr` */
  function PhasePr(pre: Dict<UserRecord>, st: Dict<UserState>, net: string -> PrAnswers): (r: Dict<UserState>)
    requires pre.Valid() && st.Valid()
    ensures r.Valid()
  {
    RunPhase(st, pre.keys, PrStepOf(net))
  }

  lemma PrStepKeepsChain(net: string -> PrAnswers)
    ensures StepKeepsChain(PrStepOf(net))
  {
    var step := PrStepOf(net);
    forall u: string, s: Option<UserState> | (s.Some? ==> ChainOk(s.value)) && step(u, s).after.Some?
      ensures ChainOk(step(u, s).after.value)
    {
      assert step(u, s) == PrStep(s, net(u));
    }
  }

  lemma PhasePrEffect(pre: Dict<UserRecord>, st: Dict<UserState>, net: string -> PrAnswers)
    requires pre.Valid() && st.Valid()
    ensures var r := PhasePr(pre, st, net);
      && (forall u :: u !in pre.entries ==> Get(r.entries, u) == Get(st.entries, u))
      && (forall u :: u in pre.entries ==>
            Get(r.entries, u) == Merge(Get(st.entries, u), PrStep(Get(st.entries, u), net(u))))
    ensures AllChainOk(st) ==> AllChainOk(PhasePr(pre, st, net))
  {
    RunPhaseEffect(st, pre.keys, PrStepOf(net));
    if AllChainOk(st) {
      PrStepKeepsChain(net);
      RunPhaseKeepsChain(st, pre.keys, PrStepOf(net));
    }
  }

  // ---------------------------------------------------------------------------
  // Phase 3: judging comments
  // ---------------------------------------------------------------------------

  /** The answers to the two comments posted: the review trigger (its answer is ignored) and
      the judging prompt. */
  datatype CommentAnswers = CommentAnswers(trigger: Response<()>, prompt: Response<()>)

  /** `phase_comment` for one user; `now` is the clock reading stored as the comment time. */
  function CommentStep(s: Option<UserState>, a: CommentAnswers, now: string): (o: Outcome)
    ensures s.None? || !HasPr(s.value) || s.value.commentPosted ==> o == Outcome(s, 0)
    ensures !(s.None? || !HasPr(s.value) || s.value.commentPosted) ==>
      && o.requests == 2
      && (a.prompt.status == 200 || a.prompt.status == 201 ==>
            o.after == Some(s.value.(commentPosted := true, commentTime := Some(now))))
      && (!(a.prompt.status == 200 || a.prompt.status == 201) ==> o.after == s)
  {
    if s.None? || !HasPr(s.value) || s.value.commentPosted then Outcome(s, 0)
    else if a.prompt.status == 200 || a.prompt.status == 201 then
      Outcome(Some(s.value.(commentPosted := true, commentTime := Some(now))), 2)
    else Outcome(s, 2)
  }

  function CommentStepOf(net: string -> CommentAnswers, now: string -> string): (string, Option<UserState>) -> Outcome {
    (u, s) => CommentStep(s, net(u), now(u))
  }

  /** `phase_comment`: `now(u)` is the clock when user `u`'s prompt is posted. */
  function PhaseComment(pre: Dict<UserRecord>, st: Dict<UserState>, net: string -> CommentAnswers, now: string -> string): (r: Dict<UserState>)
    requires pre.Valid() && st.Valid()
    ensures r.Valid()
  {
    RunPhase(st, pre.keys, CommentStepOf(net, now))
  }

  lemma CommentStepKeepsChain(net: string -> CommentAnswers, now: string -> string)
    ensures StepKeepsChain(CommentStepOf(net, now))
  {
    var step := CommentStepOf(net, now);
    forall u: string, s: Option<UserState> | (s.Some? ==> ChainOk(s.value)) && step(u, s).after.Some?
      ensures ChainOk(step(u, s).after.value)
    {
      assert step(u, s) == CommentStep(s, net(u), now(u));
    }
  }

  lemma PhaseCommentEffect(pre: Dict<UserRecord>, st: Dict<UserState>, net: string -> CommentAnswers, now: string -> string)
    requires pre.Valid() && st.Valid()
    ensures var r := PhaseComment(pre, st, net, now);
      && (forall u :: u !in pre.entries ==> Get(r.entries, u) == Get(st.entries, u))
      && (forall u :: u in pre.entries ==>
            Get(r.entries, u) == Merge(Get(st.entries, u), CommentStep(Get(st.entries, u), net(u), now(u))))
    ensures AllChainOk(st) ==> AllChainOk(PhaseComment(pre, st, net, now))
  {
    RunPhaseEffect(st, pre.keys, CommentStepOf(net, now));
    if AllChainOk(st) {
      CommentStepKeepsChain(net, now);
      RunPhaseKeepsChain(st, pre.keys, CommentStepOf(net, now));
    }
  }
}
