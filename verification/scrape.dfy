/** One user's scrape: the profile query, the commit-history query and (in the full scraper)
    the README query, each through the GraphQL call, assembled into the cached profile record.
    The query answers are inputs, already decoded into the fields the scraper reads; the
    classifier and the clock reading are inputs too. */
module Scrape {
  import opened Wrappers
  import opened Text
  import opened Toxicity
  import opened Records
  import opened Emoji
  import opened GraphQL

  /** The text of the GraphQL error GitHub reports for an unknown login. */
  const NotFoundPhrase := "Could not resolve to a User"

  /** The README key of a repository whose name is missing. */
  const UnknownRepo := "unknown"

  /** One of the user's most starred repositories. */
  datatype RepoNode = RepoNode(name: string, stars: int)

  /** The profile query's `user`: a missing name, bio, company or location is `None`. */
  datatype Profile = Profile(
    name: Option<string>, bio: Option<string>, company: Option<string>, location: Option<string>,
    followers: int, repos: seq<RepoNode>, commitContributions: int, restrictedContributions: int)

  /** A commit of the history query: its message and the login of the author's GitHub user,
      `None` when the author has no linked user (a linked user without a login reads as ""). */
  datatype CommitNode = CommitNode(message: string, authorLogin: Option<string>)

  /** A repository of the history query: the default branch's history, `None` when the branch
      or its target commit is missing. */
  datatype HistoryRepo = HistoryRepo(history: Option<seq<CommitNode>>)

  /** A repository of the README query: its name (`None` when missing) and the text of its
      `README.md` blob (`None` when there is no such blob). */
  datatype ReadmeRepo = ReadmeRepo(name: Option<string>, text: Option<string>)

  /** The servers answering one user's three queries; each answer's data is the `user`
      member, `None` when it is null. */
  datatype Servers = Servers(
    profile: Server<Option<Profile>>,
    history: Server<Option<seq<HistoryRepo>>>,
    readme: Server<Option<seq<ReadmeRepo>>>)

  /** How one user's three GraphQL calls end. */
  datatype Answers = Answers(
    profile: Outcome<Option<Profile>>,
    history: Outcome<Option<seq<HistoryRepo>>>,
    readme: Outcome<Option<seq<ReadmeRepo>>>)

  /** The three calls of a scrape, each through `graphql`. */
  function Query(s: Servers): Answers {
    Answers(Graphql(s.profile).0, Graphql(s.history).0, Graphql(s.readme).0)
  }

  /** What scraping a user gives: the profile record with the raw data saved beside it (the
      commit messages, the README texts by repository and the worst commit), no user, or an
      error that propagates to the caller. */
  datatype ScrapeResult =
    | Scraped(record: UserRecord, commits: seq<string>, readmes: map<string, string>, worst: Option<WorstCommit>)
    | NotFound
    | Failed

  // ---------------------------------------------------------------------------
  // Commit messages
  // ---------------------------------------------------------------------------

  /** A commit counts for `username` when its author's login matches, ignoring case. */
  predicate ByUser(c: CommitNode, username: string) {
    c.authorLogin.Some? && Lower(c.authorLogin.value) == Lower(username)
  }

  /** The messages of the user's own commits in one history, in order. */
  function Messages(commits: seq<CommitNode>, username: string): (r: seq<string>)
    ensures |r| <= |commits|
  {
    if commits == [] then []
    else
      var rest := Messages(commits[1..], username);
      if ByUser(commits[0], username) then [commits[0].message] + rest else rest
  }

  /** A message is kept exactly when some commit of the user's carries it. */
  lemma {:induction false} MessagesByUser(commits: seq<CommitNode>, username: string, m: string)
    ensures m in Messages(commits, username) <==> exists c :: c in commits && ByUser(c, username) && c.message == m
  {
    if commits != [] {
      MessagesByUser(commits[1..], username, m);
      assert forall c :: c in commits <==> c == commits[0] || c in commits[1..];
    }
  }

  /** The commits of a repository's history; none when the branch or target is missing. */
  function History(repo: HistoryRepo): seq<CommitNode> {
    repo.history.GetOr([])
  }

  /** The messages of the user's own commits over all repositories, repository by repository. */
  function Authored(repos: seq<HistoryRepo>, username: string): seq<string> {
    if repos == [] then [] else Messages(History(repos[0]), username) + Authored(repos[1..], username)
  }

  /** A message is kept exactly when some repository's history holds a commit of the user's
      carrying it. */
  lemma {:induction false} AuthoredByUser(repos: seq<HistoryRepo>, username: string, m: string)
    ensures m in Authored(repos, username) <==>
      exists i, c :: 0 <= i < |repos| && c in History(repos[i]) && ByUser(c, username) && c.message == m
  {
    if repos != [] {
      AuthoredByUser(repos[1..], username, m);
      MessagesByUser(History(repos[0]), username, m);
      assert forall i :: 1 <= i < |repos| ==> repos[i] == repos[1..][i - 1];
      if m in Authored(repos, username) && m !in Messages(History(repos[0]), username) {
        var i, c :| 0 <= i < |repos[1..]| && c in History(repos[1..][i]) && ByUser(c, username) && c.message == m;
        assert c in History(repos[i + 1]);
      }
    }
  }

  /** The commit messages of the scrape: a failing history query yields none. */
  function CommitMessages(username: string, o: Outcome<Option<seq<HistoryRepo>>>): (r: seq<string>)
    ensures !o.Data? || o.data.None? ==> r == []
  {
    match o
    case Data(Some(repos)) => Authored(repos, username)
    case _ => []
  }

  /** Only the user's own commits are kept, from any repository, whatever the login's case. */
  lemma CommitsByUser(username: string, o: Outcome<Option<seq<HistoryRepo>>>, m: string)
    requires m in CommitMessages(username, o)
    ensures exists repos: seq<HistoryRepo>, i, c: CommitNode :: (
      && o == Data(Some(repos))
      && 0 <= i < |repos| && repos[i].history.Some?
      && c in repos[i].history.value
      && c.authorLogin.Some? && Lower(c.authorLogin.value) == Lower(username)
      && c.message == m)
  {
    var repos := o.data.value;
    AuthoredByUser(repos, username, m);
    var i, c :| 0 <= i < |repos| && c in History(repos[i]) && ByUser(c, username) && c.message == m;
  }

  // ---------------------------------------------------------------------------
  // READMEs
  // ---------------------------------------------------------------------------

  /** The README texts in query order, and the texts by repository name. */
  datatype Readmes = Readmes(texts: seq<string>, byRepo: map<string, string>)

  function RepoName(repo: ReadmeRepo): string {
    repo.name.GetOr(UnknownRepo)
  }

  /** The README loop over the repositories: each blob text is appended and stored under its
      repository's name, a later repository of the same name overwriting the earlier. */
  function CollectReadmes(repos: seq<ReadmeRepo>): (r: Readmes)
    ensures |r.texts| <= |repos|
  {
    if repos == [] then Readmes([], map[])
    else
      var n := |repos| - 1;
      var prev := CollectReadmes(repos[..n]);
      var last := repos[n];
      match last.text
      case None => prev
      case Some(t) => Readmes(prev.texts + [t], prev.byRepo[RepoName(last) := t])
  }

  /** The README texts are the blob texts of the repositories, in query order. */
  lemma {:induction false} ReadmeTexts(repos: seq<ReadmeRepo>, t: string)
    ensures t in CollectReadmes(repos).texts <==> exists i :: 0 <= i < |repos| && repos[i].text == Some(t)
  {
    if repos != [] {
      var n := |repos| - 1;
      ReadmeTexts(repos[..n], t);
      assert forall i :: 0 <= i < n ==> repos[..n][i] == repos[i];
    }
  }

  /** Exactly the repositories with a README blob have a key, named by their repository. */
  lemma {:induction false} ReadmeKeys(repos: seq<ReadmeRepo>, k: string)
    ensures k in CollectReadmes(repos).byRepo <==>
      exists i :: 0 <= i < |repos| && repos[i].text.Some? && RepoName(repos[i]) == k
  {
    if repos != [] {
      var n := |repos| - 1;
      ReadmeKeys(repos[..n], k);
      assert forall i :: 0 <= i < n ==> repos[..n][i] == repos[i];
    }
  }

  /** Repository `i` has a README blob with text `v` stored under `k`, and no later
      repository with a blob has the same name. */
  predicate LastNamed(repos: seq<ReadmeRepo>, k: string, i: int, v: string) {
    && 0 <= i < |repos|
    && repos[i].text == Some(v) && RepoName(repos[i]) == k
    && forall j :: i < j < |repos| && repos[j].text.Some? ==> RepoName(repos[j]) != k
  }

  /** A key holds the text of the last repository of that name with a README blob. */
  lemma {:induction false} ReadmeLastWins(repos: seq<ReadmeRepo>, k: string)
    requires k in CollectReadmes(repos).byRepo
    ensures exists i :: LastNamed(repos, k, i, CollectReadmes(repos).byRepo[k])
  {
    var n := |repos| - 1;
    var v := CollectReadmes(repos).byRepo[k];
    if repos[n].text.Some? && RepoName(repos[n]) == k {
      assert LastNamed(repos, k, n, v);
    } else {
      var prev := repos[..n];
      assert k in CollectReadmes(prev).byRepo && CollectReadmes(prev).byRepo[k] == v;
      ReadmeLastWins(prev, k);
      var i :| LastNamed(prev, k, i, v);
      assert repos[i] == prev[i];
      assert forall j :: i < j < n ==> repos[j] == prev[j];
      assert LastNamed(repos, k, i, v);
    }
  }

  /** The READMEs of the scrape: a failing README query yields none. */
  function ReadmesOf(o: Outcome<Option<seq<ReadmeRepo>>>): (r: Readmes)
    ensures !o.Data? || o.data.None? ==> r.texts == [] && r.byRepo == map[]
  {
    match o
    case Data(Some(repos)) => CollectReadmes(repos)
    case _ => Readmes([], map[])
  }

  // ---------------------------------------------------------------------------
  // The record
  // ---------------------------------------------------------------------------

  /** The profile query ends the scrape without a user: a null user, or a GraphQL error naming
      an unresolvable login. */
  predicate Unknown(o: Outcome<Option<Profile>>) {
    o == Data(None) || (o.QueryError? && Contains(o.message, NotFoundPhrase))
  }

  function SumStars(repos: seq<RepoNode>): int {
    if repos == [] then 0 else repos[0].stars + SumStars(repos[1..])
  }

  function Names(repos: seq<RepoNode>): (r: seq<string>)
    ensures |r| == |repos| && forall i :: 0 <= i < |repos| ==> r[i] == repos[i].name
  {
    if repos == [] then [] else [repos[0].name] + Names(repos[1..])
  }

  /** The record fields both scrapers derive from the profile alone. */
  function ProfileRecord(p: Profile, emoji: int, toxicity: Option<AxisScores>, now: string): UserRecord
  {
    UserRecord(
      stars := Some(SumStars(p.repos)),
      commitsLastYear := Some(p.commitContributions + p.restrictedContributions),
      emojiScore := Some(emoji),
      topRepos := Some(Names(p.repos)),
      bio := Some(p.bio.GetOr("")),
      name := Some(p.name.GetOr("")),
      company := Some(p.company.GetOr("")),
      location := Some(p.location.GetOr("")),
      followers := Some(p.followers),
      toxicity := toxicity,
      scrapedAt := Some(now),
      worstCommitMsg := None,
      worstCommitToxicity := None)
  }

  /** The scraper's result for a user the profile query found, given its parts. */
  function Assemble(p: Profile, commits: seq<string>, readmes: Readmes, emoji: int, tox: AxisScores,
                    worst: Option<WorstCommit>, now: string): ScrapeResult
  {
    Scraped(ProfileRecord(p, emoji, Some(tox), now), commits, readmes.byRepo, worst)
  }

  /** The scraper's `scrape_user`: no user for a null user or an unresolvable login, an error
      for any other failure of the profile query, otherwise the record built from the
      profile, with the emoji score counted over the commit messages and README texts together,
      and the toxicity averages and the worst commit taken over the commit messages. */
  function ScrapeUser(username: string, answers: Answers, model: Option<Classifier>, now: string): (r: ScrapeResult)
    ensures r.Scraped? <==> answers.profile.Data? && answers.profile.data.Some?
    ensures r.Scraped? ==>
      var commits := CommitMessages(username, answers.history);
      var readmes := ReadmesOf(answers.readme);
      && r.commits == commits && r.readmes == readmes.byRepo
      && r.worst == FindWorstCommit(commits, model)
      && r.record == ProfileRecord(answers.profile.data.value, CountEmojis(commits + readmes.texts),
           Some(AnalyzeToxicity(commits, model)), now)
  {
    match answers.profile
    case Data(None) => NotFound
    case QueryError(msg) => if Contains(msg, NotFoundPhrase) then NotFound else Failed
    case HttpError(_) => Failed
    case Data(Some(p)) =>
      var commits := CommitMessages(username, answers.history);
      var readmes := ReadmesOf(answers.readme);
      Assemble(p, commits, readmes, CountEmojis(commits + readmes.texts),
        AnalyzeToxicity(commits, model), FindWorstCommit(commits, model), now)
  }

  /** The precomputation's `scrape_user`: the same profile and commit rules, the emoji score
      from the commit messages alone, no READMEs and no toxicity. */
  function ScrapeBasic(username: string, answers: Answers, now: string): (r: ScrapeResult)
    ensures r.Scraped? <==> answers.profile.Data? && answers.profile.data.Some?
    ensures r.Scraped? ==>
      && r.commits == CommitMessages(username, answers.history)
      && r.readmes == map[] && r.worst.None?
      && r.record == ProfileRecord(answers.profile.data.value, CountEmojis(r.commits), None, now)
  {
    match answers.profile
    case Data(None) => NotFound
    case QueryError(msg) => if Contains(msg, NotFoundPhrase) then NotFound else Failed
    case HttpError(_) => Failed
    case Data(Some(p)) =>
      var commits := CommitMessages(username, answers.history);
      Scraped(ProfileRecord(p, CountEmojis(commits), None, now), commits, map[], None)
  }

  /** Both scrapers report no user for a null user or an unresolvable login, and fail on any
      other error of the profile query. */
  lemma ScrapersAgree(username: string, answers: Answers, model: Option<Classifier>, now: string)
    ensures ScrapeUser(username, answers, model, now).NotFound? <==> Unknown(answers.profile)
    ensures ScrapeBasic(username, answers, now).NotFound? <==> Unknown(answers.profile)
    ensures ScrapeUser(username, answers, model, now).Failed? <==> !Unknown(answers.profile) && !answers.profile.Data?
    ensures ScrapeBasic(username, answers, now).Failed? <==> !Unknown(answers.profile) && !answers.profile.Data?
  {
  }

  /** A user both scrapers find gets the same commit messages and the same profile fields;
      the full scraper's emoji score also counts the README texts, and its toxicity fields are
      the averages over the same commit messages. */
  lemma ScrapersAgreeOnRecord(username: string, answers: Answers, model: Option<Classifier>, now: string)
    requires ScrapeBasic(username, answers, now).Scraped?
    ensures
      var full := ScrapeUser(username, answers, model, now);
      var basic := ScrapeBasic(username, answers, now);
      && full.Scraped?
      && full.commits == basic.commits
      && full.record == basic.record.(
           emojiScore := Some(CountEmojis(basic.commits + ReadmesOf(answers.readme).texts)),
           toxicity := Some(AnalyzeToxicity(basic.commits, model)))
  {
    var commits := CommitMessages(username, answers.history);
    OnlyScoresDiffer(answers.profile.data.value, CountEmojis(commits),
      CountEmojis(commits + ReadmesOf(answers.readme).texts), Some(AnalyzeToxicity(commits, model)), now);
  }

  /** The full scraper's emoji score is the commit messages' score plus the README texts'. */
  lemma FullEmojiScore(username: string, answers: Answers, model: Option<Classifier>, now: string)
    requires ScrapeUser(username, answers, model, now).Scraped?
    ensures ScrapeUser(username, answers, model, now).record.emojiScore ==
      Some(CountEmojis(CommitMessages(username, answers.history)) + CountEmojis(ReadmesOf(answers.readme).texts))
  {
    CountEmojisAppend(CommitMessages(username, answers.history), ReadmesOf(answers.readme).texts);
  }

  /** Records built from the same profile differ at most in the emoji score and toxicity. */
  lemma OnlyScoresDiffer(p: Profile, e1: int, e2: int, tox: Option<AxisScores>, now: string)
    ensures ProfileRecord(p, e2, tox, now) == ProfileRecord(p, e1, None, now).(emojiScore := Some(e2), toxicity := tox)
  {
  }

  /** A user the profile query finds gets the star total over the returned repositories,
      their names in order, the two contribution counts added, and "" for each missing text. */
  lemma ScrapedProfile(username: string, answers: Answers, model: Option<Classifier>, now: string, p: Profile)
    requires answers.profile == Data(Some(p))
    ensures ScrapeUser(username, answers, model, now).Scraped?
    ensures var rec := ScrapeUser(username, answers, model, now).record;
      && rec.stars == Some(SumStars(p.repos))
      && rec.topRepos.Some? && |rec.topRepos.value| == |p.repos|
      && (forall i :: 0 <= i < |p.repos| ==> rec.topRepos.value[i] == p.repos[i].name)
      && rec.commitsLastYear == Some(p.commitContributions + p.restrictedContributions)
      && rec.followers == Some(p.followers)
      && (p.name.None? ==> rec.name == Some(""))
      && (p.bio.None? ==> rec.bio == Some(""))
      && (p.company.None? ==> rec.company == Some(""))
      && (p.location.None? ==> rec.location == Some(""))
      && rec.worstCommitMsg.None? && rec.worstCommitToxicity.None?
  {
  }

  /** A failing history or README query costs only its own part: no commit messages (so zero
      toxicity and no worst commit), or no READMEs. */
  lemma FailedQueriesSwallowed(username: string, answers: Answers, model: Option<Classifier>, now: string, p: Profile)
    requires answers.profile == Data(Some(p))
    requires !answers.history.Data?
    requires !answers.readme.Data?
    ensures var r := ScrapeUser(username, answers, model, now);
      && r.Scraped? && r.commits == [] && r.readmes == map[] && r.worst.None?
      && r.record.emojiScore == Some(0) && r.record.toxicity == Some(AllZero)
  {
  }

  /** Stars add up over the repositories. */
  lemma {:induction false} SumStarsAppend(a: seq<RepoNode>, b: seq<RepoNode>)
    ensures SumStars(a + b) == SumStars(a) + SumStars(b)
  {
    if a == [] {
      assert a + b == b;
    } else {
      assert (a + b)[0] == a[0] && (a + b)[1..] == a[1..] + b;
      SumStarsAppend(a[1..], b);
    }
  }
}
