/** The export step: the profile cache, the (curved) judge results, the roles file, the sus
    percentiles and the README badges are merged into one leaderboard entry per user, in the
    order of the profile cache. Files are inputs: None stands for a missing file. */
module Export {
  import opened Wrappers
  import opened Dicts
  import opened Text
  import opened Records
  import opened Curve
  import opened Roles
  import opened SusScore
  import opened Badges
  import opened Verdict
  import opened JudgeState

  /** The `top_repo` object; its language and description are always null. */
  datatype TopRepo = TopRepo(name: string, stars: int)

  /** One leaderboard entry. */
  datatype Entry = Entry(
    username: string,
    name: string,
    bio: string,
    role: string,
    avatarUrl: string,
    stars: int,
    commitsLastYear: int,
    followers: int,
    topRepo: Option<TopRepo>,
    qualityGrade: string,
    verdict: string,
    badge: Option<string>,
    susPercentile: int,
    worstCommitMsg: string,
    worstCommitToxicity: real,
    badges: seq<string>,
    emojiScore: int)

  // ---------------------------------------------------------------------------
  // load_judge_results
  // ---------------------------------------------------------------------------

  /** The users of the state file that carry a result, in the file's order. */
  function WithResult(keys: seq<string>, entries: map<string, UserState>): (ks: seq<string>)
    requires forall i :: 0 <= i < |keys| ==> keys[i] in entries
    ensures forall u :: u in ks <==> u in keys && entries[u].result.Some?
    ensures Distinct(keys) ==> Distinct(ks)
  {
    if keys == [] then []
    else
      var rest := WithResult(keys[1..], entries);
      if entries[keys[0]].result.Some? then [keys[0]] + rest else rest
  }

  /** `load_judge_results`: the results file when it exists; otherwise the results stored in
      the state file, in its order (nothing when none is stored); otherwise nothing. */
  function LoadJudgeResults(resultsFile: Option<Dict<JudgeResult>>, stateFile: Option<Dict<UserState>>): (r: Dict<JudgeResult>)
    requires resultsFile.Some? ==> resultsFile.value.Valid()
    requires stateFile.Some? ==> stateFile.value.Valid()
    ensures r.Valid()
    ensures resultsFile.Some? ==> r == resultsFile.value
    ensures resultsFile.None? && stateFile.Some? ==>
      && (forall u :: u in r.entries <==> u in stateFile.value.entries && stateFile.value.entries[u].result.Some?)
      && (forall u :: u in r.entries ==> r.entries[u] == stateFile.value.entries[u].result.value)
    ensures resultsFile.None? && stateFile.None? ==> r.entries == map[]
  {
    match resultsFile
    case Some(d) => d
    case None =>
      match stateFile
      case None => Empty()
      case Some(st) =>
        var ks := WithResult(st.keys, st.entries);
        var entries := map u | u in st.entries && st.entries[u].result.Some? :: st.entries[u].result.value;
        if ks == [] then Empty() else Dict(ks, entries)
  }

  // ---------------------------------------------------------------------------
  // One entry
  // ---------------------------------------------------------------------------

  /** `top_repos[0] if top_repos else None` */
  function TopRepoName(data: UserRecord): (name: Option<string>)
    ensures name.Some? <==> data.topRepos.Some? && data.topRepos.value != []
  {
    match data.topRepos
    case Some(repos) => if repos != [] then Some(repos[0]) else None
    case None => None
  }

  /** `data.get(key) or default` */
  function OrString(v: Option<string>, default: string): (s: string)
    ensures s == "" ==> default == ""
  {
    if v.Some? && v.value != "" then v.value else default
  }

  /** The inputs shared by every entry. */
  datatype Inputs = Inputs(
    results: Dict<JudgeResult>,
    roles: map<string, string>,
    sus: map<string, int>,
    readmes: map<string, Dict<string>>)

  ghost predicate ReadmesValid(readmes: map<string, Dict<string>>) {
    forall u :: u in readmes ==> readmes[u].Valid()
  }

  /** The README map of a user, if the user's file exists and parses. */
  function ReadmesOf(readmes: map<string, Dict<string>>, u: string): (d: Option<Dict<string>>)
    requires ReadmesValid(readmes)
    ensures d.Some? ==> d.value.Valid()
  {
    Get(readmes, u)
  }

  /** The entry of user `u` with profile `data`; `jr` is the user's (curved) judge result,
      `{}` when there is none. */
  function BuildEntry(u: string, data: UserRecord, jr: JudgeResult, inp: Inputs): (e: Entry)
    requires ReadmesValid(inp.readmes)
    ensures e.username == u && e.avatarUrl == "https://github.com/" + u + ".png"
    ensures e.name == OrString(data.name, u) && e.bio == OrString(data.bio, "")
    ensures e.role == Get(inp.roles, Lower(u)).GetOr(ParticipantRole)
    ensures e.qualityGrade == jr.grade.GetOr("Pending")
    ensures e.badge.Some? ==> e.qualityGrade != "Pending" && jr.badge == e.badge
    ensures e.qualityGrade != "Pending" ==> e.badge == jr.badge
    ensures e.verdict != ""
    ensures e.topRepo.Some? <==> TopRepoName(data).Some? && TopRepoName(data).value != ""
    ensures e.topRepo.Some? ==> e.topRepo.value == TopRepo(TopRepoName(data).value, data.stars.GetOr(0))
    ensures e.badges == ComputeBadges(ReadmesOf(inp.readmes, u), TopRepoName(data))
  {
    var top := TopRepoName(data);
    var grade := jr.grade.GetOr("Pending");
    Entry(
      u,
      OrString(data.name, u),
      OrString(data.bio, ""),
      Get(inp.roles, Lower(u)).GetOr(ParticipantRole),
      "https://github.com/" + u + ".png",
      data.stars.GetOr(0),
      data.commitsLastYear.GetOr(0),
      data.followers.GetOr(0),
      if top.Some? && top.value != "" then Some(TopRepo(top.value, data.stars.GetOr(0))) else None,
      grade,
      CleanVerdict(jr.verdict.GetOr("")),
      if grade != "Pending" then jr.badge else None,
      Get(inp.sus, u).GetOr(0),
      data.worstCommitMsg.GetOr(""),
      data.worstCommitToxicity.GetOr(0.0),
      ComputeBadges(ReadmesOf(inp.readmes, u), top),
      data.emojiScore.GetOr(0))
  }

  /** The entries of `users`, in order. */
  function Entries(users: seq<string>, pre: Dict<UserRecord>, inp: Inputs): (out: seq<Entry>)
    requires forall i :: 0 <= i < |users| ==> users[i] in pre.entries
    requires ReadmesValid(inp.readmes)
    ensures |out| == |users|
    ensures forall i :: 0 <= i < |users| ==> out[i].username == users[i]
    ensures forall i :: 0 <= i < |users| ==>
      out[i] == BuildEntry(users[i], pre.entries[users[i]], Get(inp.results.entries, users[i]).GetOr(JudgeResult(None, None, None)), inp)
  {
    if users == [] then []
    else
      var u := users[0];
      [BuildEntry(u, pre.entries[u], Get(inp.results.entries, u).GetOr(JudgeResult(None, None, None)), inp)]
        + Entries(users[1..], pre, inp)
  }

  /** `main`: no output when the profile cache is missing; otherwise one entry per cached
      user, in the cache's order. */
  function ExportAll(
    preFile: Option<Dict<UserRecord>>, resultsFile: Option<Dict<JudgeResult>>, stateFile: Option<Dict<UserState>>,
    rolesFile: Option<seq<string>>, readmes: map<string, Dict<string>>): (out: Option<seq<Entry>>)
    requires preFile.Some? ==> preFile.value.Valid()
    requires resultsFile.Some? ==> resultsFile.value.Valid()
    requires stateFile.Some? ==> stateFile.value.Valid()
    requires ReadmesValid(readmes)
    ensures out.Some? <==> preFile.Some?
    ensures out.Some? ==>
      && |out.value| == |preFile.value.keys|
      && forall i :: 0 <= i < |out.value| ==> out.value[i].username == preFile.value.keys[i]
  {
    match preFile
    case None => None
    case Some(pre) => Some(Entries(pre.keys, pre, MainInputs(pre, resultsFile, stateFile, rolesFile, readmes)))
  }

  /** The inputs `main` builds. */
  function MainInputs(pre: Dict<UserRecord>, resultsFile: Option<Dict<JudgeResult>>, stateFile: Option<Dict<UserState>>,
    rolesFile: Option<seq<string>>, readmes: map<string, Dict<string>>): Inputs
    requires pre.Valid()
    requires resultsFile.Some? ==> resultsFile.value.Valid()
    requires stateFile.Some? ==> stateFile.value.Valid()
  {
    Inputs(CurveGrades(LoadJudgeResults(resultsFile, stateFile)), ParseRoles(rolesFile), SusPercentiles(pre), readmes)
  }

  // ---------------------------------------------------------------------------
  // Properties of the export
  // ---------------------------------------------------------------------------

  /** The `i`-th exported entry is the entry of the `i`-th cached user. */
  lemma ExportedEntry(pre: Dict<UserRecord>, resultsFile: Option<Dict<JudgeResult>>, stateFile: Option<Dict<UserState>>,
    rolesFile: Option<seq<string>>, readmes: map<string, Dict<string>>, i: int)
    requires pre.Valid()
    requires resultsFile.Some? ==> resultsFile.value.Valid()
    requires stateFile.Some? ==> stateFile.value.Valid()
    requires ReadmesValid(readmes)
    requires 0 <= i < |pre.keys|
    ensures pre.keys[i] in pre.entries
    ensures var inp := MainInputs(pre, resultsFile, stateFile, rolesFile, readmes);
      var u := pre.keys[i];
      ExportAll(Some(pre), resultsFile, stateFile, rolesFile, readmes).value[i]
        == BuildEntry(u, pre.entries[u], Get(inp.results.entries, u).GetOr(JudgeResult(None, None, None)), inp)
  {
    assert pre.keys[i] in pre.entries;
  }

  /** An entry built from the inputs `main` computes has a known role, a sus percentile in
      0..100 and its badges in the fixed order. */
  lemma EntryFieldsInRange(u: string, data: UserRecord, jr: JudgeResult, inp: Inputs)
    requires ReadmesValid(inp.readmes)
    requires forall v :: v in inp.roles ==> IsRole(inp.roles[v])
    requires u in inp.sus && 0 <= inp.sus[u] <= 100
    ensures var e := BuildEntry(u, data, jr, inp);
      && IsRole(e.role)
      && 0 <= e.susPercentile <= 100
      && InBadgeOrder(e.badges)
  {
  }

  /** Every exported entry has a known role, a sus percentile in 0..100 and its badges in the
      fixed order. */
  lemma ExportedFieldsInRange(pre: Dict<UserRecord>, resultsFile: Option<Dict<JudgeResult>>, stateFile: Option<Dict<UserState>>,
    rolesFile: Option<seq<string>>, readmes: map<string, Dict<string>>, i: int)
    requires pre.Valid()
    requires resultsFile.Some? ==> resultsFile.value.Valid()
    requires stateFile.Some? ==> stateFile.value.Valid()
    requires ReadmesValid(readmes)
    requires 0 <= i < |pre.keys|
    ensures var e := ExportAll(Some(pre), resultsFile, stateFile, rolesFile, readmes).value[i];
      IsRole(e.role) && 0 <= e.susPercentile <= 100 && InBadgeOrder(e.badges) && e.verdict != ""
  {
    var inp := MainInputs(pre, resultsFile, stateFile, rolesFile, readmes);
    var u := pre.keys[i];
    ExportedEntry(pre, resultsFile, stateFile, rolesFile, readmes, i);
    EntryFieldsInRange(u, pre.entries[u], Get(inp.results.entries, u).GetOr(JudgeResult(None, None, None)), inp);
  }

  /** A user whose judge result holds one of the fifteen letter grades is exported with a
      grade of the curve table. */
  lemma ExportedCurvedGrade(pre: Dict<UserRecord>, resultsFile: Option<Dict<JudgeResult>>, stateFile: Option<Dict<UserState>>,
    rolesFile: Option<seq<string>>, readmes: map<string, Dict<string>>, i: int)
    requires pre.Valid()
    requires resultsFile.Some? ==> resultsFile.value.Valid()
    requires stateFile.Some? ==> stateFile.value.Valid()
    requires ReadmesValid(readmes)
    requires 0 <= i < |pre.keys|
    requires var loaded := LoadJudgeResults(resultsFile, stateFile);
      pre.keys[i] in loaded.entries && IsGraded(loaded.entries[pre.keys[i]])
    ensures ExportAll(Some(pre), resultsFile, stateFile, rolesFile, readmes).value[i].qualityGrade in ThresholdGrades
  {
    var loaded := LoadJudgeResults(resultsFile, stateFile);
    ExportedEntry(pre, resultsFile, stateFile, rolesFile, readmes, i);
    CurvedGradeInTable(loaded, pre.keys[i]);
  }

  /** A user whose judge result holds no letter grade keeps the raw grade text (or "Pending"). */
  lemma ExportedRawGrade(pre: Dict<UserRecord>, resultsFile: Option<Dict<JudgeResult>>, stateFile: Option<Dict<UserState>>,
    rolesFile: Option<seq<string>>, readmes: map<string, Dict<string>>, i: int)
    requires pre.Valid()
    requires resultsFile.Some? ==> resultsFile.value.Valid()
    requires stateFile.Some? ==> stateFile.value.Valid()
    requires ReadmesValid(readmes)
    requires 0 <= i < |pre.keys|
    requires var loaded := LoadJudgeResults(resultsFile, stateFile);
      pre.keys[i] in loaded.entries && !IsGraded(loaded.entries[pre.keys[i]])
    ensures ExportAll(Some(pre), resultsFile, stateFile, rolesFile, readmes).value[i].qualityGrade ==
      RawGrade(LoadJudgeResults(resultsFile, stateFile).entries[pre.keys[i]])
  {
    ExportedEntry(pre, resultsFile, stateFile, rolesFile, readmes, i);
  }

  /** A user without a judge result is exported as "Pending" with no badge. */
  lemma ExportedPending(pre: Dict<UserRecord>, resultsFile: Option<Dict<JudgeResult>>, stateFile: Option<Dict<UserState>>,
    rolesFile: Option<seq<string>>, readmes: map<string, Dict<string>>, i: int)
    requires pre.Valid()
    requires resultsFile.Some? ==> resultsFile.value.Valid()
    requires stateFile.Some? ==> stateFile.value.Valid()
    requires ReadmesValid(readmes)
    requires 0 <= i < |pre.keys|
    requires pre.keys[i] !in LoadJudgeResults(resultsFile, stateFile).entries
    ensures var e := ExportAll(Some(pre), resultsFile, stateFile, rolesFile, readmes).value[i];
      e.qualityGrade == "Pending" && e.badge.None?
  {
    ExportedEntry(pre, resultsFile, stateFile, rolesFile, readmes, i);
  }

  /** The role of an exported user is read with the lower-cased username: a `judge:` line in
      any letter case names the same user. */
  lemma RoleIgnoresCase(u: string, data: UserRecord, jr: JudgeResult, inp: Inputs, v: string)
    requires ReadmesValid(inp.readmes) && Lower(u) == Lower(v)
    ensures BuildEntry(u, data, jr, inp).role == BuildEntry(v, data, jr, inp).role
  {
  }
}
