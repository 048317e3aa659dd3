/** The judge pipeline's GitHub REST decisions: the retry rule of every call, and how forks,
    base branches and pull requests are obtained from the responses. A response is an input:
    its status code and the part of its JSON body the decision reads. */
module GitHub {
  import opened Wrappers
  import opened Text

  datatype Response<P> = Response(status: int, body: P)

  /** Statuses `gh` retries: bad gateway, unavailable, rate limited. */
  predicate Retryable(status: int) {
    status == 502 || status == 503 || status == 429
  }

  /** `gh`: `attempts[k]` is what the server answers to attempt `k`. At most `retries` requests
      are made; the first answer that is not retryable is returned, or the last one when every
      answer was retryable. `used` is the number of requests made. */
  method Gh<P>(attempts: seq<Response<P>>, retries: nat) returns (resp: Response<P>, used: nat)
    requires 1 <= retries <= |attempts|
    ensures 1 <= used <= retries && resp == attempts[used - 1]
    ensures forall k :: 0 <= k < used - 1 ==> Retryable(attempts[k].status)
    ensures used < retries ==> !Retryable(resp.status)
  {
    var attempt := 0;
    resp := attempts[0];
    used := 0;
    while attempt < retries
      invariant 0 <= attempt <= retries && used == attempt
      invariant attempt > 0 ==> resp == attempts[attempt - 1]
      invariant forall k :: 0 <= k < attempt ==> Retryable(attempts[k].status)
    {
      resp := attempts[attempt];
      used := attempt + 1;
      if !Retryable(resp.status) {
        return;
      }
      attempt := attempt + 1;
    }
  }

  // ---------------------------------------------------------------------------
  // Forks
  // ---------------------------------------------------------------------------

  /** The fields of a repository read by `fork_repo`: its `fork` flag and `full_name`. */
  datatype RepoInfo = RepoInfo(fork: bool, fullName: string)

  /** `fork_repo`: an existing fork under the authenticated user is reused; otherwise a fork is
      requested, which succeeds on 200 or 202. `requests` counts the calls made. */
  function ForkRepo(existing: Response<RepoInfo>, created: Response<string>): (r: (Option<string>, nat))
    ensures existing.status == 200 && existing.body.fork ==> r == (Some(existing.body.fullName), 1)
    ensures !(existing.status == 200 && existing.body.fork) ==>
      && r.1 == 2
      && (r.0.Some? <==> created.status == 200 || created.status == 202)
      && (r.0.Some? ==> r.0.value == created.body)
  {
    if existing.status == 200 && existing.body.fork then (Some(existing.body.fullName), 1)
    else if created.status == 200 || created.status == 202 then (Some(created.body), 2)
    else (None, 2)
  }

  // ---------------------------------------------------------------------------
  // The `rel="last"` link: `<([^>]+)>;\s*rel="last"`
  // ---------------------------------------------------------------------------

  const RelLast := "rel=\"last\""

  /** The URL captured by a match starting at `i`, if the pattern matches there: a `<`, a
      non-empty run up to the first `>`, then `;`, optional whitespace and `rel="last"`. */
  function LinkAt(s: string, i: nat): (url: Option<string>)
    ensures url.Some? ==> i < |s| && s[i] == '<' && |url.value| > 0 && '>' !in url.value
  {
    if i < |s| && s[i] == '<' then
      match FindFrom(s, ">", i + 1)
      case None => None
      case Some(g) =>
        if i + 1 < g && g + 1 < |s| && s[g + 1] == ';' && MatchesAt(s, RelLast, SpaceEnd(s, g + 2)) then
          assert forall m :: i + 1 <= m < g ==> s[m] != '>' by {
            forall m | i + 1 <= m < g ensures s[m] != '>' { assert !MatchesAt(s, ">", m); }
          }
          Some(s[i + 1..g])
        else None
    else None
  }

  /** The URL of the `rel="last"` page, if the Link header names one. */
  function LastPageUrl(link: string): Option<string> {
    Find((i: nat) => LinkAt(link, i), |link|)
  }

  /** The `"last" in link_header` test in front of the search never changes its outcome:
      every match contains `last`. */
  lemma LinkMentionsLast(link: string)
    requires LastPageUrl(link).Some?
    ensures Contains(link, "last")
  {
    var i := Search((i: nat) => LinkAt(link, i), 0, |link|).value;
    var e := RelLastAt(link, i);
    RelLastMentionsLast(link, e);
  }

  /** A match at `i` holds `rel="last"` somewhere. */
  lemma RelLastAt(s: string, i: nat) returns (e: nat)
    requires LinkAt(s, i).Some?
    ensures MatchesAt(s, RelLast, e)
  {
    var g := FindFrom(s, ">", i + 1).value;
    e := SpaceEnd(s, g + 2);
  }

  lemma RelLastMentionsLast(s: string, e: nat)
    requires MatchesAt(s, RelLast, e)
    ensures Contains(s, "last")
  {
    assert s[e + 5..e + 9] == "last" by {
      forall m | 0 <= m < 4 ensures s[e + 5 + m] == "last"[m] {
        assert s[e + 5 + m] == s[e..e + |RelLast|][5 + m];
      }
    }
    ContainsInfix(s, "last", e + 5);
  }

  /** A header naming only the last page yields its URL. */
  lemma OnlyLastLink()
    ensures LastPageUrl("<l>; rel=\"last\"") == Some("l")
  {
    var s := "<l>; rel=\"last\"";
    LinkAtStart(s);
    assert Search((i: nat) => LinkAt(s, i), 0, |s|) == Some(0);
  }

  lemma LinkAtStart(s: string)
    requires s == "<l>; rel=\"last\""
    ensures LinkAt(s, 0) == Some("l")
  {
    assert s[2..3] == ">" && s[1..2] == "l";
    FindFirstAt(s, ">", 1, 2);
    assert SpaceEnd(s, 4) == 5;
    assert s[5..15] == RelLast;
  }

  // ---------------------------------------------------------------------------
  // The base branch at the oldest commit
  // ---------------------------------------------------------------------------

  /** What `create_base_branch` is answered: the first commit page (one SHA per commit, newest
      first), the Link header of that answer, the `rel="last"` page, the ref creation and the
      forced ref update. */
  datatype BranchAnswers = BranchAnswers(
    firstPage: Response<seq<string>>, link: string, lastPage: Response<seq<string>>,
    createRef: Response<()>, patchRef: Response<()>)

  /** The SHA taken from the last page, when the Link header names one that loads and is not empty. */
  function FromLastPage(a: BranchAnswers): Option<string> {
    if Contains(a.link, "last") && LastPageUrl(a.link).Some?
      && a.lastPage.status == 200 && a.lastPage.body != []
    then Some(a.lastPage.body[|a.lastPage.body| - 1])
    else None
  }

  /** The oldest commit's SHA: the last one of the last page, else the last one of the first
      page; an empty SHA counts as none. */
  function OldestSha(a: BranchAnswers): (sha: Option<string>)
    ensures sha.Some? ==> sha.value != ""
    ensures FromLastPage(a).Some? && FromLastPage(a).value != "" ==> sha == FromLastPage(a)
    ensures !(FromLastPage(a).Some? && FromLastPage(a).value != "") ==>
      && (sha.Some? <==> a.firstPage.body != [] && a.firstPage.body[|a.firstPage.body| - 1] != "")
      && (sha.Some? ==> sha.value == a.firstPage.body[|a.firstPage.body| - 1])
  {
    var fromLast := FromLastPage(a);
    if fromLast.Some? && fromLast.value != "" then fromLast
    else
      var commits := a.firstPage.body;
      if commits != [] && commits[|commits| - 1] != "" then Some(commits[|commits| - 1])
      else None
  }

  /** The status the branch creation ends with: a 422 (the branch exists) switches to a forced update. */
  function RefStatus(a: BranchAnswers): int {
    if a.createRef.status == 422 then a.patchRef.status else a.createRef.status
  }

  /** `create_base_branch`: the SHA the branch now points to, if every step succeeded. */
  function CreateBaseBranch(a: BranchAnswers): (sha: Option<string>)
    ensures sha.Some? <==>
      && a.firstPage.status == 200
      && OldestSha(a).Some?
      && (RefStatus(a) == 200 || RefStatus(a) == 201)
    ensures sha.Some? ==> sha == OldestSha(a)
  {
    if a.firstPage.status != 200 then None
    else
      match OldestSha(a)
      case None => None
      case Some(sha) =>
        var status := RefStatus(a);
        if status == 200 || status == 201 then Some(sha) else None
  }

  // ---------------------------------------------------------------------------
  // Pull requests
  // ---------------------------------------------------------------------------

  /** `create_pr`: the first open pull request of the listing is reused; otherwise one is
      created, which succeeds on 200 or 201. */
  function CreatePr(open: Response<seq<int>>, created: Response<int>): (pr: Option<int>)
    ensures open.status == 200 && open.body != [] ==> pr == Some(open.body[0])
    ensures !(open.status == 200 && open.body != []) ==>
      (pr.Some? <==> created.status == 200 || created.status == 201) &&
      (pr.Some? ==> pr.value == created.body)
  {
    if open.status == 200 && open.body != [] then Some(open.body[0])
    else if created.status == 200 || created.status == 201 then Some(created.body)
    else None
  }
}
