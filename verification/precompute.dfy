/** The precomputation driver: the username list it reads and the resumable loop that scrapes
    every listed user not yet in the profile cache. Reading and writing files is left out: the
    list's lines and the cache's contents are inputs, the updated cache is the result, and the
    per-user scrape is a parameter (the precomputation's own is `Scrape.ScrapeBasic`). */
module Precompute {
  import opened Wrappers
  import opened Text
  import opened Dicts
  import opened Records
  import opened Scrape

  // ---------------------------------------------------------------------------
  // load_usernames
  // ---------------------------------------------------------------------------

  /** A line names a user when, stripped, it is neither empty nor a `#` comment. */
  predicate NamesUser(line: string) {
    Strip(line) != [] && !StartsWith(Strip(line), "#")
  }

  /** The lowercase forms of some names. */
  function LowerSet(names: seq<string>): set<string> {
    set n | n in names :: Lower(n)
  }

  /** No two names are equal once lowercased. */
  predicate LowerDistinct(names: seq<string>) {
    forall i, j :: 0 <= i < j < |names| ==> Lower(names[i]) != Lower(names[j])
  }

  /** `load_usernames` over the file's lines: each line stripped, blank lines and comments
      skipped, and a name whose lowercase form was already taken dropped. */
  function Usernames(lines: seq<string>): (names: seq<string>)
    ensures |names| <= |lines|
    ensures forall i :: 0 <= i < |names| ==> names[i] != []
    decreases |lines|
  {
    if lines == [] then []
    else
      var prev := Usernames(lines[..|lines| - 1]);
      var line := lines[|lines| - 1];
      if !NamesUser(line) || Lower(Strip(line)) in LowerSet(prev) then prev
      else prev + [Strip(line)]
  }

  /** Line `j` is the first line naming its user, ignoring case. */
  predicate FirstOfItsName(lines: seq<string>, j: int) {
    && 0 <= j < |lines| && NamesUser(lines[j])
    && forall k :: 0 <= k < j && NamesUser(lines[k]) ==> Lower(Strip(lines[k])) != Lower(Strip(lines[j]))
  }

  lemma {:induction false} UsernamesInit(lines: seq<string>)
    requires lines != []
    ensures var n := |lines| - 1;
      Usernames(lines) == if !NamesUser(lines[n]) || Lower(Strip(lines[n])) in LowerSet(Usernames(lines[..n]))
        then Usernames(lines[..n]) else Usernames(lines[..n]) + [Strip(lines[n])]
  {
  }

  /** The list has no duplicates ignoring case. */
  lemma {:induction false} UsernamesDistinct(lines: seq<string>)
    ensures LowerDistinct(Usernames(lines))
    decreases |lines|
  {
    if lines != [] {
      var n := |lines| - 1;
      var prev := Usernames(lines[..n]);
      UsernamesDistinct(lines[..n]);
      UsernamesInit(lines);
      var names := Usernames(lines);
      if names != prev {
        forall i, j | 0 <= i < j < |names| ensures Lower(names[i]) != Lower(names[j]) {
          if j == |prev| {
            assert names[i] in prev;
          } else {
            assert names[i] == prev[i] && names[j] == prev[j];
          }
        }
      }
    }
  }

  /** `name` is the stripped text of the first line naming its user. */
  predicate SpelledFirst(lines: seq<string>, name: string) {
    exists j | 0 <= j < |lines| :: FirstOfItsName(lines, j) && name == Strip(lines[j])
  }

  /** A spelling that came first among the earlier lines still comes first with one more line. */
  lemma SpelledFirstExtends(lines: seq<string>, name: string)
    requires lines != [] && SpelledFirst(lines[..|lines| - 1], name)
    ensures SpelledFirst(lines, name)
  {
    var init := lines[..|lines| - 1];
    var j :| 0 <= j < |init| && FirstOfItsName(init, j) && name == Strip(init[j]);
    assert forall k :: 0 <= k <= j ==> init[k] == lines[k];
    assert FirstOfItsName(lines, j);
  }

  /** A last line whose user no earlier name matches is the first line naming that user. */
  lemma LastLineFirst(lines: seq<string>)
    requires lines != [] && NamesUser(lines[|lines| - 1])
    requires Lower(Strip(lines[|lines| - 1])) !in LowerSet(Usernames(lines[..|lines| - 1]))
    ensures FirstOfItsName(lines, |lines| - 1)
  {
    var init := lines[..|lines| - 1];
    UsernamesComplete(init);
    assert forall k :: 0 <= k < |init| ==> init[k] == lines[k];
  }

  /** Each name is the stripped text of the first line naming that user, so the first
      spelling wins. */
  lemma {:induction false} UsernamesFirstSpelling(lines: seq<string>)
    ensures forall i :: 0 <= i < |Usernames(lines)| ==> SpelledFirst(lines, Usernames(lines)[i])
    decreases |lines|
  {
    if lines != [] {
      var n := |lines| - 1;
      var prev := Usernames(lines[..n]);
      UsernamesFirstSpelling(lines[..n]);
      UsernamesInit(lines);
      var names := Usernames(lines);
      forall i | 0 <= i < |names| ensures SpelledFirst(lines, names[i]) {
        if i < |prev| {
          assert names[i] == prev[i];
          SpelledFirstExtends(lines, prev[i]);
        } else {
          LastLineFirst(lines);
        }
      }
    }
  }

  /** Every user the file names is listed, in some spelling. */
  lemma {:induction false} UsernamesComplete(lines: seq<string>)
    ensures forall j :: 0 <= j < |lines| && NamesUser(lines[j]) ==> Lower(Strip(lines[j])) in LowerSet(Usernames(lines))
    decreases |lines|
  {
    if lines != [] {
      var n := |lines| - 1;
      var init := lines[..n];
      var prev := Usernames(init);
      UsernamesComplete(init);
      UsernamesInit(lines);
      var names := Usernames(lines);
      assert LowerSet(prev) <= LowerSet(names);
      forall j | 0 <= j < |lines| && NamesUser(lines[j]) ensures Lower(Strip(lines[j])) in LowerSet(names) {
        if j < n {
          assert init[j] == lines[j];
        } else if names != prev {
          assert Strip(lines[n]) in names;
        }
      }
    }
  }

  // ---------------------------------------------------------------------------
  // The resumable loop of main
  // ---------------------------------------------------------------------------

  /** The lowercase forms of the cache's usernames. */
  function LowerKeys(d: Dict<UserRecord>): set<string> {
    set k | k in d.entries :: Lower(k)
  }

  /** One turn of the loop: a user whose lowercase form was cached at the start is skipped;
      otherwise the user is scraped and stored under the listed spelling when found, and a
      user not found or a failed scrape leaves the cache as it is. */
  function Visit(d: Dict<UserRecord>, skip: set<string>, u: string, scrape: string -> ScrapeResult): (r: Dict<UserRecord>)
    requires d.Valid()
    ensures r.Valid()
  {
    if Lower(u) in skip then d
    else match scrape(u)
      case Scraped(rec, _, _, _) => d.Set(u, rec)
      case _ => d
  }

  /** The loop over `users` with a fixed skip set. */
  function Run(d: Dict<UserRecord>, skip: set<string>, users: seq<string>, scrape: string -> ScrapeResult): (r: Dict<UserRecord>)
    requires d.Valid()
    ensures r.Valid()
    decreases |users|
  {
    if users == [] then d
    else Run(Visit(d, skip, users[0], scrape), skip, users[1..], scrape)
  }

  /** `main`'s loop: every listed user whose lowercase form is not among the cache's keys at
      the start is scraped, and the found ones are added. */
  function Resume(users: seq<string>, existing: Dict<UserRecord>, scrape: string -> ScrapeResult): (r: Dict<UserRecord>)
    requires existing.Valid()
    ensures r.Valid()
  {
    Run(existing, LowerKeys(existing), users, scrape)
  }

  /** The precomputation's scrape of one user: its own query answers and clock reading. */
  function Precomputed(servers: string -> Servers, clock: string -> string): string -> ScrapeResult {
    u => ScrapeBasic(u, Query(servers(u)), clock(u))
  }

  /** `main`: no list file stops the program; a missing cache starts from an empty one. */
  function Main(lines: Option<seq<string>>, cache: Option<Dict<UserRecord>>,
                servers: string -> Servers, clock: string -> string): (r: Option<Dict<UserRecord>>)
    requires cache.Some? ==> cache.value.Valid()
    ensures lines.None? <==> r.None?
    ensures r.Some? ==> r.value.Valid()
  {
    match lines
    case None => None
    case Some(ls) =>
      var start := if cache.Some? then cache.value else Empty();
      Some(Resume(Usernames(ls), start, Precomputed(servers, clock)))
  }

  /** Every cached entry either was skipped-for at the start or is the scrape of its own key. */
  predicate Consistent(d: Dict<UserRecord>, skip: set<string>, scrape: string -> ScrapeResult) {
    forall k :: k in d.entries && Lower(k) !in skip ==> scrape(k).Scraped? && d.entries[k] == scrape(k).record
  }

  /** `a` is a prefix of `b`. */
  predicate Prefix(a: seq<string>, b: seq<string>) {
    |a| <= |b| && b[..|a|] == a
  }

  /** One turn keeps every entry it starts with and its place in the order. */
  lemma VisitKeeps(d: Dict<UserRecord>, skip: set<string>, u: string, scrape: string -> ScrapeResult)
    requires d.Valid() && Consistent(d, skip, scrape)
    ensures var r := Visit(d, skip, u, scrape);
      && Consistent(r, skip, scrape)
      && Prefix(d.keys, r.keys)
      && (forall k :: k in d.entries ==> k in r.entries && r.entries[k] == d.entries[k])
  {
    var r := Visit(d, skip, u, scrape);
    if r != d {
      assert Lower(u) !in skip && scrape(u).Scraped? && r.entries == d.entries[u := scrape(u).record];
    }
  }

  /** The loop keeps every entry it starts with and its place in the order. */
  lemma {:induction false} RunKeeps(d: Dict<UserRecord>, skip: set<string>, users: seq<string>, scrape: string -> ScrapeResult)
    requires d.Valid() && Consistent(d, skip, scrape)
    ensures var r := Run(d, skip, users, scrape);
      && Consistent(r, skip, scrape)
      && Prefix(d.keys, r.keys)
      && (forall k :: k in d.entries ==> k in r.entries && r.entries[k] == d.entries[k])
    decreases |users|
  {
    if users != [] {
      var d' := Visit(d, skip, users[0], scrape);
      VisitKeeps(d, skip, users[0], scrape);
      RunKeeps(d', skip, users[1..], scrape);
      var r := Run(d', skip, users[1..], scrape);
      assert r == Run(d, skip, users, scrape);
      assert r.keys[..|d.keys|] == r.keys[..|d'.keys|][..|d.keys|];
    }
  }

  /** The loop adds exactly the listed users that are not skipped and are found. */
  lemma {:induction false} RunDomain(d: Dict<UserRecord>, skip: set<string>, users: seq<string>, scrape: string -> ScrapeResult)
    requires d.Valid()
    ensures forall k :: k in Run(d, skip, users, scrape).entries <==>
      k in d.entries || (k in users && Lower(k) !in skip && scrape(k).Scraped?)
    decreases |users|
  {
    if users != [] {
      RunDomain(Visit(d, skip, users[0], scrape), skip, users[1..], scrape);
      assert forall k :: k in users <==> k == users[0] || k in users[1..];
    }
  }

  /** `main` never changes or reorders a user already cached. */
  lemma ResumeKeepsExisting(users: seq<string>, existing: Dict<UserRecord>, scrape: string -> ScrapeResult)
    requires existing.Valid()
    ensures var r := Resume(users, existing, scrape);
      && Prefix(existing.keys, r.keys)
      && forall k :: k in existing.entries ==> k in r.entries && r.entries[k] == existing.entries[k]
  {
    RunKeeps(existing, LowerKeys(existing), users, scrape);
  }

  /** A user is added exactly when it is listed, no cached username matches it ignoring case,
      and the scrape finds it; the added entry is that scrape's record. */
  lemma ResumeAdds(users: seq<string>, existing: Dict<UserRecord>, scrape: string -> ScrapeResult, k: string)
    requires existing.Valid()
    ensures var r := Resume(users, existing, scrape);
      && (k in r.entries && k !in existing.entries <==>
          k in users && Lower(k) !in LowerKeys(existing) && scrape(k).Scraped?)
      && (k in r.entries && k !in existing.entries ==> r.entries[k] == scrape(k).record)
  {
    var skip := LowerKeys(existing);
    RunKeeps(existing, skip, users, scrape);
    RunDomain(existing, skip, users, scrape);
    if k in existing.entries {
      assert Lower(k) in skip;
    }
  }

  /** Running the loop over two lists in turn is running it over both. */
  lemma {:induction false} RunAppend(d: Dict<UserRecord>, skip: set<string>, a: seq<string>, b: seq<string>, scrape: string -> ScrapeResult)
    requires d.Valid()
    ensures Run(d, skip, a + b, scrape) == Run(Run(d, skip, a, scrape), skip, b, scrape)
    decreases |a|
  {
    if a == [] {
      assert a + b == b;
    } else {
      assert (a + b)[0] == a[0] && (a + b)[1..] == a[1..] + b;
      RunAppend(Visit(d, skip, a[0], scrape), skip, a[1..], b, scrape);
    }
  }

  /** Users that are all skipped or not found leave the cache unchanged. */
  lemma {:induction false} RunIdle(d: Dict<UserRecord>, skip: set<string>, users: seq<string>, scrape: string -> ScrapeResult)
    requires d.Valid()
    requires forall u :: u in users ==> Lower(u) in skip || !scrape(u).Scraped?
    ensures Run(d, skip, users, scrape) == d
    decreases |users|
  {
    if users != [] {
      assert users[0] in users;
      RunIdle(d, skip, users[1..], scrape);
    }
  }

  /** Only the skip decisions for the listed users matter. */
  lemma {:induction false} RunSkipAgree(d: Dict<UserRecord>, s: set<string>, t: set<string>, users: seq<string>, scrape: string -> ScrapeResult)
    requires d.Valid()
    requires forall u :: u in users ==> (Lower(u) in s <==> Lower(u) in t)
    ensures Run(d, s, users, scrape) == Run(d, t, users, scrape)
    decreases |users|
  {
    if users != [] {
      assert users[0] in users;
      RunSkipAgree(Visit(d, s, users[0], scrape), s, t, users[1..], scrape);
    }
  }

  /** Names from the two parts of a case-insensitively distinct list never clash. */
  lemma DistinctAcross(first: seq<string>, rest: seq<string>)
    requires LowerDistinct(first + rest)
    ensures forall k, u :: k in first && u in rest ==> Lower(k) != Lower(u)
  {
    forall k, u | k in first && u in rest ensures Lower(k) != Lower(u) {
      var i :| 0 <= i < |first| && first[i] == k;
      var j :| 0 <= j < |rest| && rest[j] == u;
      assert (first + rest)[i] == k && (first + rest)[|first| + j] == u;
    }
  }

  /** After the first users, a username matching a later user ignoring case was cached
      before the run began. */
  lemma NoNewClash(first: seq<string>, rest: seq<string>, existing: Dict<UserRecord>, scrape: string -> ScrapeResult)
    requires existing.Valid() && LowerDistinct(first + rest)
    ensures var r1 := Run(existing, LowerKeys(existing), first, scrape);
      forall u :: u in rest ==> (Lower(u) in LowerKeys(r1) <==> Lower(u) in LowerKeys(existing))
  {
    var s0 := LowerKeys(existing);
    var r1 := Run(existing, s0, first, scrape);
    RunKeeps(existing, s0, first, scrape);
    RunDomain(existing, s0, first, scrape);
    DistinctAcross(first, rest);
    forall u | u in rest && Lower(u) in LowerKeys(r1) ensures Lower(u) in s0 {
      var k :| k in r1.entries && Lower(k) == Lower(u);
      assert k in existing.entries;
    }
  }

  /** Resumability: a run cut short after the first users (the cache is saved after every
      user) and restarted on the whole list ends with the cache an uninterrupted run gives. */
  lemma Resumable(first: seq<string>, rest: seq<string>, existing: Dict<UserRecord>, scrape: string -> ScrapeResult)
    requires existing.Valid() && LowerDistinct(first + rest)
    ensures Resume(first + rest, Resume(first, existing, scrape), scrape) == Resume(first + rest, existing, scrape)
  {
    var s0 := LowerKeys(existing);
    var r1 := Run(existing, s0, first, scrape);
    var s1 := LowerKeys(r1);
    RunKeeps(existing, s0, first, scrape);
    RunDomain(existing, s0, first, scrape);
    RunAppend(r1, s1, first, rest, scrape);
    forall u | u in first ensures Lower(u) in s1 || !scrape(u).Scraped? {
      if Lower(u) in s0 {
        var k :| k in existing.entries && Lower(k) == Lower(u);
        assert k in r1.entries;
      } else if scrape(u).Scraped? {
        assert u in r1.entries;
      }
    }
    RunIdle(r1, s1, first, scrape);
    NoNewClash(first, rest, existing, scrape);
    RunSkipAgree(r1, s1, s0, rest, scrape);
    RunAppend(existing, s0, first, rest, scrape);
  }

  /** With every listed user already cached (in any spelling) or not found, the loop changes
      nothing: a finished run is a fixed point. */
  lemma FinishedRunIsFixed(users: seq<string>, existing: Dict<UserRecord>, scrape: string -> ScrapeResult)
    requires existing.Valid()
    requires forall u :: u in users ==> Lower(u) in LowerKeys(existing) || !scrape(u).Scraped?
    ensures Resume(users, existing, scrape) == existing
  {
    RunIdle(existing, LowerKeys(existing), users, scrape);
  }

  /** With a list file and a cache, `main` resumes the cache over the loaded names. */
  lemma MainRuns(lines: seq<string>, cache: Dict<UserRecord>, servers: string -> Servers, clock: string -> string)
    requires cache.Valid()
    ensures Main(Some(lines), Some(cache), servers, clock) == Some(Resume(Usernames(lines), cache, Precomputed(servers, clock)))
  {
  }

  /** `Resumable` for a list cut after its first `m` names. */
  lemma ResumableAt(names: seq<string>, m: nat, existing: Dict<UserRecord>, scrape: string -> ScrapeResult)
    requires existing.Valid() && LowerDistinct(names) && m <= |names|
    ensures Resume(names, Resume(names[..m], existing, scrape), scrape) == Resume(names, existing, scrape)
  {
    assert names[..m] + names[m..] == names;
    Resumable(names[..m], names[m..], existing, scrape);
  }

  /** The program applies to the list it loads: interrupting it anywhere and starting it again
      gives the uninterrupted result. */
  lemma MainResumable(lines: seq<string>, m: nat, existing: Dict<UserRecord>,
                      servers: string -> Servers, clock: string -> string)
    requires existing.Valid() && m <= |Usernames(lines)|
    ensures Main(Some(lines), Some(Resume(Usernames(lines)[..m], existing, Precomputed(servers, clock))), servers, clock)
      == Main(Some(lines), Some(existing), servers, clock)
  {
    var names, scrape := Usernames(lines), Precomputed(servers, clock);
    var part := Resume(names[..m], existing, scrape);
    UsernamesDistinct(lines);
    ResumableAt(names, m, existing, scrape);
    MainRuns(lines, part, servers, clock);
    MainRuns(lines, existing, servers, clock);
  }
}
