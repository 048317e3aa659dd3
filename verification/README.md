# Wall of Shame — a Dafny model of the scoring pipeline

This project models the data pipeline behind the "Wall of Shame" leaderboard in Dafny. The
pipeline has six parts:

- **Precomputation** (`precompute.py`). It reads a list of GitHub usernames and scrapes each
  user's profile, starred repositories and recent commit messages through GitHub's GraphQL API.
  It rotates several API tokens with rate-limit cooldowns. The profiles are kept in a resumable
  cache.
- **Full scraper** (`scraper.py`). It does the same and also reads README files and scores the
  commit messages for toxicity. It keeps its own copies of the token rotation, the GraphQL call
  and the emoji count.
- **Toxicity scorer** (`toxicity.py`). It averages a classifier's six scores over a user's
  commit messages and picks the single worst (message, axis) pair.
- **Worst-commit patch** (`patch_worst_commit.py`). It fills the worst commit into cached
  profiles that lack one, from the commit messages saved by the full scraper. It classifies
  those messages in batches of 32.
- **Judge pipeline** (`judge.py`). It forks each user's top repository, opens a pull request
  against a branch at the oldest commit, posts a judging prompt and polls for the review bot's
  answer. It then parses a grade, a verdict and a badge out of the answer's markdown.
- **Export** (`export.py`). It merges profiles, judge results, roles, sus percentiles and
  README badges into one leaderboard entry per user. Grades are re-curved by rank along the
  way.

Everything the pipeline takes from outside is an input of the model:

- file contents, with `None` standing for a missing file;
- the servers' answers, decoded into the fields the code reads;
- the pretrained classifier, as a function from a text to six scores;
- the clock reading.

Python dictionaries whose iteration order matters are modelled as `Dicts.Dict`: a key order
plus a map. Every regular expression the core uses is written out as a scanner. Each scanner
has Python's leftmost, greedy/lazy and backtracking behaviour. Floating-point arithmetic is
modelled exactly (see "Left out").

Some behaviour is modelled as written, because it is what the code does:

- The raw-string class `[^\"\\n]` in the bold and loose label patterns of `judge.py` excludes
  the letter `n`, not newlines. So `**Verdict**: Fun code` yields `Fu`; see
  `ResponseParser.VerdictStopsAtN`.
- The JSON strategy of `judge.py` defaults the verdict to `Pending review...` with three ASCII
  dots. `extract_first_roast` falls back to `Pending review…` with the single character U+2026.
  The timed-out result stored by the polling phase uses the latter.
- An empty `GITHUB_TOKENS` list, from a variable holding only commas and blanks, makes the
  token rotation take the minimum of no cooldowns. `Tokens.NextToken` reports this as
  `NoCooldowns` when no cooldown is recorded.

## Model

| member | source | states |
|---|---|---|
| Wrappers.Get | export.py:285 | a dictionary lookup gives a value exactly when the key is present, and then the stored value |
| Dicts.Set | precompute.py:332 | `d[k] = v` stores the value; a new key joins the end of the iteration order, an existing key keeps its place |
| Dicts.Empty | precompute.py:298 | `{}` is a well-formed dictionary with no entries |
| Text.Strip | precompute.py:285 | a stripped line is no longer than the line and neither starts nor ends with Python whitespace |
| Text.StripInfix | precompute.py:285 | the stripped line is a contiguous piece of the line with only whitespace cut off before and after it |
| Text.StripEmpty | precompute.py:285-286 | a line strips to nothing exactly when it is all whitespace, so `not line` catches exactly the blank lines |
| Text.StripNoop | export.py:117 | stripping a string with no whitespace at either end gives it back unchanged |
| Text.Lower | precompute.py:288 | lower-casing keeps the length and maps each character on its own |
| Text.LowerIsLower | precompute.py:288-290 | a lowered name contains no upper-case letter, and lowering it again changes nothing |
| Text.FindFrom | export.py:210 | the position found holds the pattern and no earlier position at or after the start does; none means the pattern occurs nowhere from the start on |
| Text.ContainsFind | export.py:218 | `p in s` holds exactly when a search from the start finds `p` |
| Text.ContainsInfix | export.py:218 | an occurrence at any position makes `p in s` true |
| Text.FindFirstAt | export.py:210 | the search from `k` returns `i` when the pattern occurs at `i` and nowhere between `k` and `i` |
| Text.Search | judge.py:221 | `re.search` finds the leftmost position at which the pattern matches and none before it; none when it matches nowhere |
| Text.Find | judge.py:221-223 | a group is captured exactly when the pattern matches at some position, and it is the group of the leftmost matching position |
| Tokens.Probe | precompute.py:49-52 | probing from step `k` returns a usable token with every token probed before it unusable; none means no remaining token is usable |
| Tokens.MinValue | precompute.py:54 | `min(token_cooldowns.values())` is at most every cooldown and is one of them |
| Tokens.NextToken | precompute.py:46-58 | a returned token is usable, is the first usable one in one pass from the cursor, and the cursor moves one past it; otherwise no token is usable and the call sleeps until the earliest cooldown, or crashes exactly when no cooldown is recorded |
| Tokens.SleepUntilEarliest | precompute.py:53-57 | the sleep is never negative and is `max(0, earliest - now + 1)` for the smallest recorded cooldown |
| Tokens.AllProbed | precompute.py:49-51 | the `len(tokens)` probes from any cursor visit every token, so a failed pass means every token is cooling down |
| Tokens.RoundRobin | precompute.py:42 | with no cooldown in force the cursor's token is used and the cursor advances by one, so tokens are used in turn |
| Tokens.SleepEnough | precompute.py:55-58 | after sleeping the advised time, the token with the earliest cooldown is usable |
| Tokens.SleepThenUse | precompute.py:53-58 | when every cooldown belongs to a token of the pool, the recursive retry after the sleep returns a token |
| Tokens.RemoveAll | precompute.py:67 | `replace` with the empty string never makes the header longer |
| Tokens.RemoveNone | precompute.py:67 | a header without `bearer ` is left as it is |
| Tokens.TokenOfHeader | precompute.py:52 | removing `bearer ` from the header built for a token gives back the token, unless the token itself contains `bearer ` |
| Tokens.RecordRateLimit | precompute.py:61-69 | a cooldown until the reset time is recorded for the header's token only when Remaining is present and 0 and Reset is present; otherwise nothing changes |
| Tokens.ExhaustedSkipped | precompute.py:65-68 | a token that has just run out is unusable before its reset time and usable again at it |
| GraphQL.Attempts | precompute.py:189-211 | from attempt `k` at most five attempts are made, every attempt but the last got 502, 503 or 429, and the call stops early only on another status; it settles on the last answer, or fails with its status when that was retried |
| GraphQL.Graphql | precompute.py:187-212 | a call makes one to five requests, every one before the last got a retried status, and fewer than five only when the last did not |
| GraphQL.SettlesAtFirst | precompute.py:199-211 | the call ends at the first of the first five answers that is not retried, with its status error, its `errors` or its data; if all five are retried it raises with the last status |
| GraphQL.DataOnlyWhenClean | precompute.py:205-209 | data is returned only from an answer that is not retried, has no error status and has no `errors` member, after retried answers only |
| GraphQL.HttpErrorIsServerStatus | precompute.py:205-211 | a status failure reports an error status that one of the attempts received |
| Emoji.EmojiEnd | precompute.py:156-166 | the greedy emoji-class run from `k` ends at the first character outside the class |
| Emoji.EmojiRuns | precompute.py:175 | the emoji pattern matches at most once per character |
| Emoji.EmojiRunsAreRunStarts | precompute.py:156-166 | counting the pattern's matches counts the maximal runs of emoji characters, one per position where a run starts |
| Emoji.NoStartsInside | precompute.py:166 | no run starts inside a run, so adjacent emoji count once |
| Emoji.ShortcodeEnd | precompute.py:169 | the `[a-z0-9_+-]+` run ends at the first character outside the class |
| Emoji.ShortcodeAt | precompute.py:169 | a shortcode match starts and ends with a colon and is at least three characters long |
| Emoji.Shortcodes | precompute.py:176 | each counted shortcode uses up at least three characters, so matches do not overlap |
| Emoji.AdjacentShortcodes | precompute.py:169 | `:a::b:` holds two shortcodes |
| Emoji.SharedColon | precompute.py:169 | `:a:b:` holds one shortcode: the middle colon is used once |
| Emoji.CountEmojis | precompute.py:172-177 | no texts score 0 |
| Emoji.CountEmojisAppend | precompute.py:172-177 | the score of two lists together is the sum of their scores |
| Emoji.PlainTextScoresZero | precompute.py:175-176 | a text with neither an emoji nor a colon scores 0 |
| Emoji.PartyPopper | precompute.py:172-177 | two commit messages holding one party popper score 1 |
| Scrape.Messages | scraper.py:271-275 | at most one message is kept per commit |
| Scrape.MessagesByUser | scraper.py:271-275 | a message is kept exactly when a commit of the history carries it and its author's login equals the username ignoring case |
| Scrape.AuthoredByUser | scraper.py:263-275 | over all repositories, a message is kept exactly when some repository's history holds such a commit; repositories without a branch or a target contribute nothing |
| Scrape.CommitMessages | scraper.py:259-277 | a failing history query or a null user yields no messages |
| Scrape.CommitsByUser | scraper.py:260-275 | every kept message comes from a commit of a returned repository with a history, and the commit's author login matches the username ignoring case |
| Scrape.CollectReadmes | scraper.py:285-291 | at most one README text is kept per repository |
| Scrape.ReadmeTexts | scraper.py:287-290 | the README texts are exactly the texts of the repositories' README blobs |
| Scrape.ReadmeKeys | scraper.py:286-291 | the README map has a key exactly for the name (default `unknown`) of each repository with a README blob |
| Scrape.ReadmeLastWins | scraper.py:291 | a key holds the text of the last repository of that name with a README blob |
| Scrape.ReadmesOf | scraper.py:280-293 | a failing README query yields no texts and an empty map |
| Scrape.Names | scraper.py:250 | `top_repos` lists the repository names in the query's order |
| Scrape.ScrapeUser | scraper.py:235-324 | a user is scraped exactly when the profile query returns a user. The record then carries the messages, the README map and the worst commit over the messages; the emoji score counts messages and READMEs together, and the toxicity is averaged over the messages |
| Scrape.ScrapeBasic | precompute.py:215-272 | a user is scraped exactly when the profile query returns a user; the same author rule applies to messages, with no READMEs, no worst commit, no toxicity and an emoji score over the messages alone |
| Scrape.ScrapersAgree | scraper.py:237-246 | both scrapers report no user exactly for a null user or a "Could not resolve to a User" error, and fail on any other error of the profile query |
| Scrape.ScrapersAgreeOnRecord | scraper.py:296-299 | given the same profile and history answers, a user both scrapers find gets the same messages and the same record, except the emoji score (READMEs added) and the toxicity averages |
| Scrape.FullEmojiScore | scraper.py:296 | the full emoji score is the messages' score plus the READMEs' score |
| Scrape.OnlyScoresDiffer | scraper.py:307-323 | records built from the same profile differ at most in the emoji score and the toxicity |
| Scrape.ScrapedProfile | scraper.py:248-316 | a found user gets the star total over the returned repositories, their names in order, the two contribution counts added, the follower count and `""` for each missing text; no worst commit is stored in the record |
| Scrape.FailedQueriesSwallowed | scraper.py:259-299 | failing history and README queries still scrape the user, with no messages, no READMEs, no worst commit, emoji score 0 and all-zero toxicity |
| Scrape.SumStarsAppend | scraper.py:249 | the star total adds up over the repositories |
| Toxicity.Predict | toxicity.py:43 | the classifier's output has one column per axis with one score per text; entry `[a][i]` is text `i`'s score on axis `a` |
| Toxicity.MeanBounds | toxicity.py:47 | a mean lies between any lower and upper bound of its values |
| Toxicity.AnalyzeToxicity | toxicity.py:25-66 | the scores are all zero for an empty list or a failing classifier; otherwise each axis is the mean of that axis's scores over the texts |
| Toxicity.AnalyzeInUnitRange | toxicity.py:41-56 | if the classifier keeps every score within 0..1, so is every averaged axis |
| Toxicity.ScanBefore | toxicity.py:86-96 | the partial scan's pick is a strictly positive matrix entry that comes before the current position |
| Toxicity.ScanBeforeSpec | toxicity.py:86-96 | the partial scan has picked nothing exactly when no visited score is above 0.0; a pick is at least every visited score and strictly above every score visited before it |
| Toxicity.SelectWorst | toxicity.py:86-99 | a pick is an in-range (text, axis) pair whose score is strictly positive |
| Toxicity.SelectWorstIsMax | toxicity.py:83-99 | the pick is a maximum of the whole matrix, the first one in text-major, axis-minor order; nothing is picked exactly when no score is above 0.0 |
| Toxicity.ScoresAtPredict | toxicity.py:103-110 | the `all_scores` of the worst text are the classifier's six scores for it |
| Toxicity.FindWorstCommit | toxicity.py:69-113 | none for no texts or a failing classifier; a worst commit's message is one of the texts, it carries that text's six scores, and its score is its axis's score and strictly positive |
| Toxicity.WorstCommitIsMax | toxicity.py:75-99 | with a classifier and some texts there is a worst commit exactly when some score is positive, and its score is at least every score of every text on every axis |
| Precompute.Usernames | precompute.py:278-292 | at most one name per line and no empty name; distinctness, first spelling and completeness are stated by the three lemmas below |
| Precompute.UsernamesDistinct | precompute.py:278-292 | no two loaded names are equal ignoring case |
| Precompute.UsernamesFirstSpelling | precompute.py:284-291 | each loaded name is the stripped text of the first line naming that user, so the first spelling wins |
| Precompute.UsernamesComplete | precompute.py:284-291 | every user named by a non-blank, non-comment line is loaded, in some spelling |
| Precompute.Visit | precompute.py:317-333 | one turn of the loop leaves a well-formed cache |
| Precompute.Run | precompute.py:317-333 | the loop leaves a well-formed cache |
| Precompute.Resume | precompute.py:315-333 | the resumed loop leaves a well-formed cache |
| Precompute.Main | precompute.py:305-336 | no usernames file means no result; a missing cache starts empty, and the result is a well-formed cache |
| Precompute.VisitKeeps | precompute.py:317-333 | one turn keeps every cached entry and its place in the order, and every entry is either skipped-for or the scrape of its own key |
| Precompute.RunKeeps | precompute.py:317-333 | the loop keeps every cached entry and its place in the order |
| Precompute.RunDomain | precompute.py:317-333 | the loop adds exactly the listed users that are not skipped and that the scrape finds |
| Precompute.ResumeKeepsExisting | precompute.py:315-333 | `main` never changes or reorders a user already in the cache |
| Precompute.ResumeAdds | precompute.py:315-333 | a user is added exactly when it is listed, no cached name matches it ignoring case and the scrape finds it; the entry is that scrape's record |
| Precompute.RunAppend | precompute.py:317 | running the loop over two lists in turn is running it over both |
| Precompute.RunIdle | precompute.py:318-330 | users that are all skipped or not found leave the cache unchanged |
| Precompute.RunSkipAgree | precompute.py:318-319 | only the skip decisions for the listed users matter |
| Precompute.Resumable | precompute.py:315-333 | a run cut short after the first users and restarted on the whole list ends with the cache an uninterrupted run gives |
| Precompute.FinishedRunIsFixed | precompute.py:315-330 | when every listed user is cached in some spelling or not found, the loop changes nothing |
| Precompute.MainResumable | precompute.py:305-336 | interrupting the program anywhere and starting it again on the saved cache gives the uninterrupted result |
| PatchWorst.PredictFrom | patch_worst_commit.py:64-72 | the batches from any position complete the score columns, one score per message on each axis |
| PatchWorst.PredictBatched | patch_worst_commit.py:64-72 | batched prediction gives six columns with one score per message |
| PatchWorst.PredictAppend | patch_worst_commit.py:70-72 | extending each axis column with the next batch's scores gives the scores of the two lists together |
| PatchWorst.PredictFromWhole | patch_worst_commit.py:64-72 | the batches from position `i` complete the prediction of the first `i` messages into the prediction of all of them |
| PatchWorst.BatchedIsWhole | patch_worst_commit.py:64-72 | classifying in batches of 32 gives the scores of classifying all messages at once |
| PatchWorst.PatchUser | patch_worst_commit.py:28-101 | a profile with a non-empty worst commit is untouched; any other gets both worst-commit fields, and nothing else changes |
| PatchWorst.PatchMatchesScraper | patch_worst_commit.py:46-101 | the patch writes the message and score the scraper's worst-commit search finds for the same messages, or 0.0 and `""` when it finds none or there are no messages |
| PatchWorst.PatchIsWorst | patch_worst_commit.py:64-101 | the defaults are written exactly when no score is above 0.0; otherwise the patched message is a saved message, one of its axes carries the patched score, and no saved message scores higher on any axis |
| PatchWorst.PatchAll | patch_worst_commit.py:15-107 | every profile is patched in place, keeping the users and their order; a profile with a worst commit is untouched, every profile ends with a worst message, and only the two worst-commit fields change |
| PatchWorst.PatchAllIdempotent | patch_worst_commit.py:15-107 | running the script a second time changes nothing |
| GitHub.Gh | judge.py:105-116 | at most `retries` requests are made; every answer before the last was 502, 503 or 429, and fewer requests are made only when the last answer was not retried |
| GitHub.ForkRepo | judge.py:142-160 | an existing fork is reused with one request; otherwise a fork is requested, which succeeds exactly on 200 or 202, after two requests |
| GitHub.LinkAt | judge.py:221 | a `rel="last"` match starts with `<` and captures a non-empty URL without `>` |
| GitHub.LinkMentionsLast | judge.py:218-221 | the `"last" in link_header` test never changes the outcome: every header the pattern matches contains `last` |
| GitHub.RelLastAt | judge.py:221 | a match holds `rel="last"` |
| GitHub.OnlyLastLink | judge.py:221-223 | a header naming only the last page yields its URL |
| GitHub.OldestSha | judge.py:215-235 | the oldest SHA is the last one of the last page when that page loads and is not empty, otherwise the last one of the first page; an empty SHA counts as none |
| GitHub.CreateBaseBranch | judge.py:201-249 | the base branch points to the oldest SHA exactly when the first page loads, a SHA is found and the creation (or the forced update after a 422) succeeds |
| GitHub.CreatePr | judge.py:252-282 | the first open pull request is reused; otherwise one is created, which succeeds exactly on 200 or 201 |
| JudgeState.RunPhase | judge.py:170-192 | a phase's visit of the users leaves a well-formed state |
| JudgeState.RunPhaseEffect | judge.py:170-192 | each listed user ends with its step's result and every other user keeps its state |
| JudgeState.RunPhaseKeepsChain | judge.py:163-368 | a phase whose step keeps each user's completion chain keeps it for all users |
| JudgeState.ForkStep | judge.py:163-195 | a user with a fork or without top repositories is skipped; otherwise it gets the fork and its top repository, or the `fork_failed` error with no fork |
| JudgeState.ForkStepKeepsChain | judge.py:184-190 | the fork step keeps each user's completion chain |
| JudgeState.PhaseFork | judge.py:163-195 | the fork phase keeps the state a valid dictionary; its per-user effect is stated by JudgeState.PhaseForkEffect |
| JudgeState.PhaseForkEffect | judge.py:163-195 | after the fork phase every cached user holds its fork step's result, all other users are untouched, and the chain invariant still holds |
| JudgeState.BranchRequests | judge.py:201-249 | creating the base branch makes one to four calls |
| JudgeState.PrStep | judge.py:285-326 | a user without a fork or with a pull request is skipped; a user's state changes only when the repository loads, the base branch is created and a non-zero pull request is obtained, and then it records that pull request and the default branch; conversely, when all of these succeed the pull request and the default branch are recorded |
| JudgeState.PrStepKeepsChain | judge.py:315-319 | the pull-request step keeps each user's completion chain |
| JudgeState.PhasePr | judge.py:285-326 | the pull-request phase keeps the state a valid dictionary; its per-user effect is stated by JudgeState.PhasePrEffect |
| JudgeState.PhasePrEffect | judge.py:285-326 | after the pull-request phase every cached user holds its step's result, all other users are untouched, and the chain invariant still holds |
| JudgeState.CommentStep | judge.py:332-368 | a user without a pull request or with a comment posted is skipped; otherwise two comments are posted, and the user is marked posted with the clock reading exactly when the prompt gets 200 or 201 |
| JudgeState.CommentStepKeepsChain | judge.py:358-361 | the comment step keeps each user's completion chain |
| JudgeState.PhaseComment | judge.py:332-368 | the comment phase keeps the state a valid dictionary; its per-user effect is stated by JudgeState.PhaseCommentEffect |
| JudgeState.PhaseCommentEffect | judge.py:332-368 | after the comment phase every cached user holds its step's result, all other users are untouched, and the chain invariant still holds |
| Poll.Qualifies | judge.py:457-472 | a comment is a review when its lower-cased login contains `coderabbit`, its body holds none of the five skip phrases and is at least 200 characters long; Poll.FirstQualifying and Poll.Found state where it is used |
| Poll.FirstQualifying | judge.py:456-472 | the comment taken is the first one that qualifies as a review; none when no comment qualifies |
| Poll.Found | judge.py:450-472 | a review is found only in a 200 answer and is at least 200 characters long; any other status finds nothing |
| Poll.Answered | judge.py:474-482 | a user whose review is read is marked parsed, with a result and the raw review stored |
| Poll.PendingUsers | judge.py:425-432 | the waiting users are exactly the cached users whose comment was posted and not yet parsed, without repeats |
| Poll.PollRound | judge.py:441-491 | a round keeps the set of users, and the users still waiting afterwards are exactly those whose answer holds no review |
| Poll.StillWaiting | judge.py:441-491 | the users left after a round are exactly the waiting users whose answer held no review, without repeats |
| Poll.PollRounds | judge.py:441-491 | the rounds keep the set of users, and only waiting users can be left waiting |
| Poll.MarkTimedOut | judge.py:493-501 | marking the timed-out users keeps the set of users |
| Poll.PhasePoll | judge.py:419-503 | polling keeps the set of users |
| Poll.PollRoundEffect | judge.py:441-491 | in one round each waiting user gets the review its answer holds, or stays as it was; every other user is untouched |
| Poll.PollRoundsEffect | judge.py:441-491 | over all rounds a waiting user ends with the first review any round found for it, and is still waiting exactly when no round found one; other users are untouched |
| Poll.MarkTimedOutEffect | judge.py:493-501 | each user still waiting gets the timed-out result and nothing else changes |
| Poll.PhasePollEffect | judge.py:419-503 | a waiting user gets the first review any round found for it, or the timed-out result while staying unparsed; everybody else is untouched |
| Poll.PhasePollKeepsChain | judge.py:419-503 | polling keeps every user's completion chain |
| Poll.ExportResults | judge.py:574-584 | one result per cached user, in the cache's order; a user with a stored result exports that result, any other user exports the timed-out placeholder, so the placeholder appears exactly when there is no other stored result |
| Poll.PolledUserExported | judge.py:419-584 | a waiting user is exported with the review parsed from the first answer found for it, or with the timed-out placeholder |
| ResponseParser.ColonSpaceEnd | judge.py:391 | the greedy `[:\s]*` run ends at the first character outside the class |
| ResponseParser.ClassEnd | judge.py:391-392 | the `[^\"\\n]` run ends at the first character outside the class |
| ResponseParser.GradeAt | judge.py:390 | a grade is captured exactly when a letter A to F stands at the position; the capture is the text there, and it takes the following `+` or `-` exactly when one is present |
| ResponseParser.JsonClose | judge.py:377 | the lazy group closes at the first newline followed by optional whitespace and three backticks |
| ResponseParser.JsonOpen | judge.py:377 | the group opens right after a newline of the whitespace run and ends at the first closing fence after it; no later newline of the run is followed by a closing fence, and when there is no group, none of the run's newlines is |
| ResponseParser.SimpleJsonBlock | judge.py:377-387 | a fenced block with the closing fence on its own line yields exactly its content |
| ResponseParser.JsonCloseFirst | judge.py:377 | the group closes at the first closing fence when no newline comes before it |
| ResponseParser.BoldLabelAt | judge.py:390-392 | a bold label match ends four characters after the label |
| ResponseParser.QuotedRun | judge.py:391-392 | a captured bold verdict or badge is non-empty, holds only class characters and cannot be extended; it starts right after an opening quote that ends the `[:\s]*` run, else where the run ends, else one character back when the run must give up its last character; there is no capture exactly when the run is empty and neither a class character nor a quoted class character follows the label |
| ResponseParser.QuotedRunUnique | judge.py:391-392 | any non-empty class run that cannot be extended and starts where the pattern allows is the capture, so the bold verdict and badge patterns have exactly one answer |
| ResponseParser.BoldVerdictAt | judge.py:391 | a bold verdict capture is non-empty and has no double quote |
| ResponseParser.BoldBadgeAt | judge.py:392 | a bold badge capture is non-empty and has no double quote |
| ResponseParser.VerdictStopsAtN | judge.py:391 | the captured verdict stops at the first letter `n`: `: Fun` yields `Fu` |
| ResponseParser.LooseVerdictAt | judge.py:398 | a loose verdict needs the label and a non-empty `[:\s]+` run; the capture opens right after the quote that ends the run and stops at the next quote; it is found exactly when that quote is followed by a non-quote character and a closing quote somewhere later |
| ResponseParser.QuotedFrom | judge.py:398 | `"([^"]+)"` at a position matches exactly when a quote there is followed by a non-quote character and a later quote, and captures the quote-free text up to the next quote |
| ResponseParser.LooseBadgeAt | judge.py:400 | a loose badge needs the label and a non-empty `[:\s]+` run; the capture starts where the run ends, past a quote if one is there, with an ASCII letter, continues with class characters only, is 3 to 41 characters long, and either has 41 characters or cannot be extended; it is found exactly when a letter and two class characters stand at that start |
| ResponseParser.BadgeFrom | judge.py:400 | `[A-Za-z][^"\\n]{2,40}` at a position matches exactly when a letter and two class characters stand there, and takes as many class characters as follow, up to 40 |
| ResponseParser.FirstSplit | judge.py:411 | the split point found is the first `.` or `!` followed by whitespace |
| ResponseParser.Sentences | judge.py:411 | `re.split` gives at least one piece, and no piece contains a split point |
| ResponseParser.SentencesLength | judge.py:411 | splitting loses nothing but the two-character separators |
| ResponseParser.Truncate | judge.py:415 | the kept text is the first 200 characters, or all of a shorter text |
| ResponseParser.FirstWhere | judge.py:412-415 | the sentence taken is the first one the test accepts; none when the test accepts none |
| ResponseParser.ExtractFirstRoast | judge.py:409-416 | the fallback `Pending review…` is returned exactly when no sentence is roast-like; otherwise the result is the first 200 characters of the first roast-like sentence, stripped, and longer than 30 |
| ResponseParser.TruncateKeepsStart | judge.py:413-415 | truncating a text of more than 30 characters keeps its rejected openings |
| ResponseParser.BoldGradeExample | judge.py:390 | `**Grade**: C-` yields the grade `C-` |
| ResponseParser.FindJson | judge.py:377 | a JSON block is found exactly when the fenced pattern matches at some position |
| ResponseParser.FindGrade | judge.py:390-396 | a grade found by either label strategy has the shape of a letter grade |
| ResponseParser.FindVerdict | judge.py:391-398 | a verdict found by either label strategy is non-empty and has no double quote |
| ResponseParser.FindBadge | judge.py:392-400 | a badge found by either label strategy is non-empty and has no double quote |
| ResponseParser.Parse | judge.py:374-406 | the result always has all three fields; a JSON block that decodes wins. Otherwise the grade is the grade found or `Pending`, the verdict is the stripped verdict found or the first roast-like sentence, and the badge is the stripped badge found or `Unknown` |
| Ranking.Insert | export.py:79 | insertion keeps the list sorted by score and adds exactly the new pair, as a multiset |
| Ranking.InsertStable | export.py:79 | the inserted pair goes in front of every pair of equal score, which keep their order |
| Ranking.InsertDistinct | export.py:79 | inserting a new name keeps the names distinct |
| Ranking.SortByScore | export.py:79 | the sort is sorted by score, has the same length and the same multiset of pairs (a permutation) |
| Ranking.SortStable | export.py:79 | the sort is stable: for every score, the pairs with that score appear in the same order as in the input, so ties keep key order |
| Ranking.SortDistinct | export.py:79 | sorting keeps the names distinct |
| Ranking.IndexOfName | export.py:86 | a user's rank is the position of its first pair, or past the end when it has none |
| Ranking.RankRespectsScore | export.py:79-86 | in the sorted list a strictly lower score gives a strictly lower rank |
| Ranking.RankOfMember | export.py:84-86 | with distinct names, the user at position `i` has rank `i` |
| Ranking.Den | export.py:86 | `max(n - 1, 1)` is at least 1 and at least `n - 1` |
| Ranking.Collect | export.py:68-73 | the collected pairs are exactly the keys with a defined score, paired with that score |
| Ranking.CollectDistinct | export.py:68-73 | distinct keys give distinct collected names |
| Ranking.RankOfScored | export.py:68-86 | a scored key sits in the ranking at its reported rank, with its score |
| Ranking.RankedMember | export.py:68-86 | every ranked name is a key with that defined score, at its reported rank |
| Ranking.RankedDistinct | export.py:68-79 | the ranking has distinct names |
| Ranking.Quot | export.py:149 | floor division: the quotient times the divisor is at most the dividend, and one more is too many |
| Ranking.Percentile | export.py:149 | `int(rank / den * 100)` is the whole percent at or below `rank / den` |
| Ranking.PercentileBounds | export.py:143-149 | a rank among the users gives a percentile within 0..100, 0 at the bottom and 100 at the top |
| Curve.GradeValue | export.py:29-35 | a result has a value exactly when its grade is one of the fifteen letter grades, and then the value in the order table |
| Curve.Within | export.py:86-91 | the percentile test `rank / den * 100 <= cutoff`, compared exactly as `rank * 100 <= cutoff * den` (admitted under Left out) |
| Curve.CurveGrade | export.py:87-93 | the curved grade of a rank; that it is the grade of the first cutoff not exceeded is stated by Curve.CurveGradeIsFirstCutoff |
| Curve.ThresholdIndex | export.py:44-57 | the reference lookup gives the first cutoff the percentile does not exceed, or the end of the table |
| Curve.CurveGradeIsFirstCutoff | export.py:87-93 | the inner loop hands out the grade at the first cutoff the percentile does not exceed |
| Curve.CurveGrades | export.py:60-98 | the curve keeps the users and their order; ungraded users are unchanged, and graded users only get a new grade |
| Curve.NobodyGradedUnchanged | export.py:75-76 | when nobody is graded the results come back unchanged |
| Curve.GradedUserRanked | export.py:68-86 | a graded user has a rank below the number of graded users, at which it sits with its grade value |
| Curve.CurvedGradeOfRank | export.py:84-96 | a graded user's curved grade is the curve's grade for its rank among the graded users |
| Curve.ThresholdFound | export.py:44-57 | for a percentile of at most 100 the lookup never runs off the end of the table |
| Curve.CurvedGradeInTable | export.py:44-96 | curved grades are always table grades, never `A+` |
| Curve.ThresholdIndexMonotone | export.py:84-93 | a larger rank never finds an earlier table position |
| Curve.GradeAtIncreasing | export.py:29-57 | the table's grades, and the `A+` fallback after them, have increasing values |
| Curve.CurveMonotone | export.py:60-98 | a strictly lower original grade never gets a higher curved grade |
| Curve.LoneGradedGetsF | export.py:81-93 | a single graded user lands at percentile 0 and gets `F` |
| Curve.RankedUserGrade | export.py:84-96 | the user at position `i` of the ranking gets the curved grade of rank `i` |
| Curve.BottomRankGetsF | export.py:84-93 | the lowest-ranked graded user always gets `F` |
| Curve.TopGradeFrom | export.py:44-57 | at percentile 100 every cutoff before the last is exceeded, so the walk ends at `A` |
| Curve.TopRankGetsA | export.py:84-96 | with at least two graded users the best-ranked one gets `A` |
| Curve.TopCurveGrade | export.py:81-93 | the last of at least two ranks is curved to `A` |
| Roles.Classify | export.py:116-128 | a line says nothing exactly when, stripped, it is blank or starts with `#`; a prefixed line names a judge or an organizer; every named user is lower-case |
| Roles.Apply | export.py:121-128 | a line never removes a user, and every role stays one of the three |
| Roles.Fold | export.py:116-128 | the roles read from the lines are lower-case users with one of the three roles |
| Roles.ClassifyAll | export.py:116-128 | each line is classified on its own |
| Roles.ParseLines | export.py:116-128 | the roles of the file are lower-case users with one of the three roles |
| Roles.ParseRoles | export.py:104-130 | a missing file names nobody |
| Roles.LastPrefixedWins | export.py:121-126 | the last prefixed line naming a user decides its role, whatever comes before or after |
| Roles.PlainOnlyParticipant | export.py:127-128 | a user named by no prefixed line has a role exactly when a plain line names it, and the role is `participant` |
| Roles.LastPrefixedLineWins | export.py:116-128 | over the file's lines, the last `judge:` or `org:` line naming a user decides its role |
| Roles.PlainLinesOnly | export.py:116-128 | over the file's lines, a user named by no prefixed line is a participant exactly when a plain line names it, and has no role otherwise |
| Roles.PlainNeverOverrides | export.py:127-128 | a plain line never replaces a role named before it |
| Roles.SkippedLineChangesNothing | export.py:117-119 | blank and comment lines change nothing |
| SusScore.AllRanked | export.py:136-151 | every user has a rank below the number of users |
| SusScore.SusPercentiles | export.py:136-151 | every user gets a percentile within 0..100, and nobody else does |
| SusScore.SusMonotone | export.py:136-151 | a strictly lower emoji score never gets a higher percentile |
| SusScore.RankedPercentile | export.py:143-150 | the user at position `i` of the ranking gets the percentile of rank `i` |
| SusScore.BottomGetsZero | export.py:143-150 | the lowest-ranked user gets 0 |
| SusScore.TopGetsHundred | export.py:143-150 | with at least two users the highest-ranked one gets 100 |
| SusScore.RankedEveryone | export.py:138-143 | every user takes part in the ranking, with a missing score counted as 0 |
| Badges.CloseFrom | export.py:157 | the lazy `.*?\]\(` ends at the first `](` with no newline before it; none when every later `](` has a newline before it |
| Badges.ImageAt | export.py:157 | a badge-image match is at least four characters and stays within the text |
| Badges.CountImages | export.py:157 | each counted image uses up at least four characters, so matches do not overlap |
| Badges.CountSuffix | export.py:157 | counting images from a position sees only the text from that position on |
| Badges.LeadingImage | export.py:157 | a README starting with `![](` has one more image than the rest of it |
| Badges.NoOpenNoImage | export.py:157 | without `![` anywhere there is no image |
| Badges.Longest | export.py:184 | the chosen README is at least as long as every other; it is `""` for none, and otherwise the first of the longest in key order |
| Badges.BadgeNamesDiffer | export.py:186-202 | the four badges have four distinct places in the fixed order |
| Badges.Heuristics | export.py:186-202 | `Empty README Enthusiast` exactly under 50 characters, `Novel Writer` exactly over 5000, `Badges Hoarder` exactly with at least 5 images, `No Tests, No Problem` exactly when neither `test` nor `ci` occurs ignoring case; in the fixed order |
| Badges.AddIf | export.py:186-202 | appending a badge under a condition adds exactly that badge and keeps the fixed order |
| Badges.ComputeBadges | export.py:160-204 | a missing, unreadable or empty README map gives exactly `Empty README Enthusiast`; otherwise the heuristics judge the chosen README; the badges are in the fixed order |
| Badges.TopReadme | export.py:176 | `readmes.get(top_repo_name, "")` when the top repository name is truthy, otherwise `""` |
| Badges.ChosenReadme | export.py:184 | the top README when non-empty, otherwise the longest; its contract is stated by Badges.TopReadmeWins and Badges.LongestFallback |
| Badges.TopReadmeWins | export.py:176 | when the top repository has a non-empty README, that README is judged |
| Badges.LongestFallback | export.py:184 | otherwise the longest README is judged, the first of equally long ones |
| Verdict.StripComments | export.py:210-217 | removing comments never makes the verdict longer, and a verdict without `<!--` is kept as it is |
| Verdict.CleanVerdict | export.py:213-222 | the cleaned verdict is never empty; an empty verdict gives `Pending review...` and a rate-limit notice gives the rate-limited text |
| Verdict.NoCommentOnlyStripped | export.py:213-222 | a verdict without comments is only stripped, or replaced by the placeholder when nothing is left |
| Verdict.OneCommentRemoved | export.py:210-217 | one closed comment between comment-free text is cut out exactly |
| Export.WithResult | export.py:238-243 | the users kept are exactly the state file's users that carry a result, without repeats |
| Export.LoadJudgeResults | export.py:228-245 | the results file wins; otherwise the results stored in the state file, user by user; otherwise nothing |
| Export.TopRepoName | export.py:272-273 | a top repository name exists exactly when the user has a non-empty repository list |
| Export.OrString | export.py:283-284 | `value or default` is empty only when the default is |
| Export.BuildEntry | export.py:281-304 | an entry carries the user's name and avatar, the role looked up by the lower-cased name (default participant), the grade or `Pending`, a badge only for a graded user, a non-empty verdict, the top repository with its stars when its name is non-empty, and the README badges |
| Export.Entries | export.py:271-306 | one entry per listed user, in order, each built from that user's profile and result |
| Export.MainInputs | export.py:257-260 | the curved judge results, the parsed roles, the emoji percentiles and the READMEs that `main` builds before its loop; their properties are stated by Export.ExportedFieldsInRange, Export.ExportedCurvedGrade and Export.RoleIgnoresCase |
| Export.ExportAll | export.py:251-306 | there is output exactly when the profile cache exists, with one entry per cached user in the cache's order |
| Export.ExportedEntry | export.py:271-304 | the `i`-th exported entry is the entry of the `i`-th cached user |
| Export.EntryFieldsInRange | export.py:281-304 | an entry built from the computed inputs has a known role, a sus percentile within 0..100 and its badges in the fixed order |
| Export.ExportedFieldsInRange | export.py:251-306 | every exported entry has a known role, a sus percentile within 0..100, its badges in the fixed order and a non-empty verdict |
| Export.ExportedCurvedGrade | export.py:258-296 | a user whose result has a letter grade is exported with a grade of the curve table |
| Export.ExportedRawGrade | export.py:258-296 | a user whose result has no letter grade keeps its raw grade text, or `Pending` |
| Export.ExportedPending | export.py:296-298 | a user without a judge result is exported as `Pending` with no badge |
| Export.RoleIgnoresCase | export.py:285 | the role is looked up by the lower-cased username, so two spellings of a user get the same role |

## Left out

- File and JSON I/O is not modelled. File contents are inputs and results are values, with `None` for a missing file. This covers:
  - `usernames.txt` (its `splitlines()` lines are an input);
  - `precomputed.json` and `save`;
  - `data.json`;
  - `judge_state.json` (`load_state`/`save_state`) and `judge_results.json`;
  - the `commits.json`, `readmes.json` and `worst_commit.json` files written by `save_raw_data` and `save_worst_commit`, and by lines 90-98 of `patch_worst_commit.py`.
- The HTTP transport and `get_auth_user`: responses are inputs, and the authenticated login is implied by the fork lookup's answer.
- `phase_report` and the command-line dispatch of `judge.py` (`main`, argparse): they only print and sequence the modelled phases.
- Printed progress messages and counters: the patched count and the graded counts are only printed.
- Sleeps and back-off durations. The polling timeout is modelled as the given number of rounds. The source always runs at least one round while a user is pending (`judge.py:440`, the time check starts near zero); the model also accepts an empty list of rounds. Cooldowns recorded between the attempts of one GraphQL call are not threaded through `GraphQL.Graphql`: the token module models rotation and cooldowns separately.
- Loading Detoxify and choosing the device. The classifier is an oracle, and a failing model is `None`. The patch script's exit when the model cannot load is not modelled; nor is its exit when `precomputed.json` is missing.
- Malformed answers (a missing key raising `KeyError` part-way through a loop) are not modelled: every answer is assumed to be well-formed.
- Scrape.ScrapersAgreeOnRecord: the GraphQL query sizes are not modelled. `precompute.py:130-136` asks for 5 repositories with 10 history entries each, `scraper.py:100-106` for 100 with 100, so for a real user the two scrapers generally see different histories; the lemma holds for the same answers only.
- A README whose `text` is JSON null (`scraper.py:287-291`): it passes the `"text" in obj` test and a `None` is stored as README text, which `count_emojis` cannot count. The model's README answers are strings, so this case does not arise.
- A repository whose `name` is JSON null (`scraper.py:286`): `repo.get("name", "unknown")` gives `None`, not `"unknown"`, as the key. A model repository name is either present or missing, with no separate null, and a missing one is keyed `"unknown"`.
- ResponseParser.Parse: a JSON block that decodes to something other than an object (for example `[1]`) makes `data.get` raise `AttributeError`, which `judge.py:379-387` does not catch (only `JSONDecodeError` is), so the poll phase stops with an exception. The decoder input returns a field map or nothing, so the model cannot express this crash: for such a text it follows whatever the decoder returns, and with nothing it falls through to the bold-label fields.
- `api.py`, `analyze_toxicity.py`, `verify_raw_data.py` and the test files: they are outside the pipeline's core.
- The environment check at `precompute.py:38-39` (no `GITHUB_TOKENS` at all exits).
- Curve.CurveGrade: the percentile is compared exactly (`rank * 100 <= cutoff * den`), while Python compares the float `rank / den * 100`. Rounding can differ at a cutoff: `3 / 100 * 100` is `3.0000000000000004`, so Python curves rank 3 of 101 past the 3 cutoff, and the model does not.
- Curve.Within: same exact comparison as `Curve.CurveGrade`.
- SusScore.SusPercentiles: the percentile is the exact floor of `rank * 100 / den`, while Python truncates a float, for example `int(29 / 100 * 100)` is 28.
- Ranking.Percentile: same exact floor as `SusScore.SusPercentiles`.
- Toxicity.AnalyzeToxicity: the per-axis average is an exact mean of reals, not a 32-bit float mean.
- Text.Lower: only ASCII letters are lowered; Python's `str.lower()` also lowers other letters.
