/** The two records the pipeline stores: a judge result triple and a scraped user profile.
    Fields that readers fetch with a default (`d.get(key, default)`) are optional. */
module Records {
  import opened Wrappers
  import opened Toxicity

  /** A judge result: quality grade, verdict text and badge label. */
  datatype JudgeResult = JudgeResult(grade: Option<string>, verdict: Option<string>, badge: Option<string>)

  /** One user's entry in the profile cache. */
  datatype UserRecord = UserRecord(
    stars: Option<int>,
    commitsLastYear: Option<int>,
    emojiScore: Option<int>,
    topRepos: Option<seq<string>>,
    bio: Option<string>,
    name: Option<string>,
    company: Option<string>,
    location: Option<string>,
    followers: Option<int>,
    toxicity: Option<AxisScores>,
    scrapedAt: Option<string>,
    worstCommitMsg: Option<string>,
    worstCommitToxicity: Option<real>)
}
