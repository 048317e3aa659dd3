/** Roles of the usernames file: `judge:` and `org:` prefixed lines name judges and organizers,
    every other non-comment line names a participant. */
module Roles {
  import opened Wrappers
  import opened Text

  const JudgeRole := "judge"
  const OrganizerRole := "organizer"
  const ParticipantRole := "participant"

  predicate IsRole(r: string) {
    r == JudgeRole || r == OrganizerRole || r == ParticipantRole
  }

  /** What one line of the file says. */
  datatype Line = Skip | Prefixed(user: string, role: string) | Plain(user: string)

  /** A stripped line that is blank or starts with `#` says nothing; `judge:x` and `org:x` name
      `x` (stripped, lower-cased) with that role; any other line names itself lower-cased. */
  function Classify(raw: string): (l: Line)
    ensures l.Prefixed? ==> l.role == JudgeRole || l.role == OrganizerRole
    ensures !l.Skip? ==> IsLower(l.user)
    ensures l.Skip? <==> Strip(raw) == [] || Strip(raw)[0] == '#'
  {
    var line := Strip(raw);
    if line == [] || StartsWith(line, "#") then Skip
    else if StartsWith(line, "judge:") then
      LowerIsLower(Strip(line[6..]));
      Prefixed(Lower(Strip(line[6..])), JudgeRole)
    else if StartsWith(line, "org:") then
      LowerIsLower(Strip(line[4..]));
      Prefixed(Lower(Strip(line[4..])), OrganizerRole)
    else
      LowerIsLower(line);
      Plain(Lower(line))
  }

  /** One line's effect: a prefixed line overwrites, a plain line only fills a missing role. */
  function Apply(roles: map<string, string>, l: Line): (r: map<string, string>)
    requires WellFormed(l)
    requires forall u :: u in roles ==> IsLower(u) && IsRole(roles[u])
    ensures forall u :: u in r ==> IsLower(u) && IsRole(r[u])
    ensures roles.Keys <= r.Keys
  {
    match l
    case Skip => roles
    case Prefixed(u, r) => roles[u := r]
    case Plain(u) => if u in roles then roles else roles[u := ParticipantRole]
  }

  /** The roles named by a sequence of classified lines, read top to bottom. */
  function Fold(ls: seq<Line>): (roles: map<string, string>)
    requires forall i :: 0 <= i < |ls| ==> WellFormed(ls[i])
    ensures forall u :: u in roles ==> IsLower(u) && IsRole(roles[u])
  {
    if ls == [] then map[]
    else Apply(Fold(ls[..|ls| - 1]), ls[|ls| - 1])
  }

  /** What `Classify` can produce. */
  predicate WellFormed(l: Line) {
    match l
    case Skip => true
    case Prefixed(u, r) => IsLower(u) && (r == JudgeRole || r == OrganizerRole)
    case Plain(u) => IsLower(u)
  }

  function ClassifyAll(lines: seq<string>): (ls: seq<Line>)
    ensures |ls| == |lines|
    ensures forall i :: 0 <= i < |lines| ==> ls[i] == Classify(lines[i]) && WellFormed(ls[i])
  {
    seq(|lines|, i requires 0 <= i < |lines| => Classify(lines[i]))
  }

  /** The roles named by the lines of the file. */
  function ParseLines(lines: seq<string>): (roles: map<string, string>)
    ensures forall u :: u in roles ==> IsLower(u) && IsRole(roles[u])
  {
    Fold(ClassifyAll(lines))
  }

  /** `parse_roles`: a missing file names nobody. */
  function ParseRoles(file: Option<seq<string>>): (roles: map<string, string>)
    ensures file.None? ==> roles == map[]
    ensures forall u :: u in roles ==> IsLower(u) && IsRole(roles[u])
  {
    match file
    case None => map[]
    case Some(lines) => ParseLines(lines)
  }

  predicate AllWellFormed(ls: seq<Line>) {
    forall i :: 0 <= i < |ls| ==> WellFormed(ls[i])
  }

  /** The last prefixed line naming a user decides its role, whatever comes before or after it. */
  lemma {:induction false} LastPrefixedWins(ls: seq<Line>, i: int, u: string)
    requires AllWellFormed(ls)
    requires 0 <= i < |ls| && ls[i].Prefixed? && ls[i].user == u
    requires forall j :: i < j < |ls| ==> !(ls[j].Prefixed? && ls[j].user == u)
    ensures u in Fold(ls) && Fold(ls)[u] == ls[i].role
  {
    var n := |ls|;
    var prefix := ls[..n - 1];
    if i < n - 1 {
      assert prefix[i] == ls[i];
      forall j | i < j < |prefix| ensures !(prefix[j].Prefixed? && prefix[j].user == u) {
        assert prefix[j] == ls[j];
      }
      LastPrefixedWins(prefix, i, u);
    }
  }

  /** A user no prefixed line names has a role iff some plain line names it, and it is "participant". */
  lemma {:induction false} PlainOnlyParticipant(ls: seq<Line>, u: string)
    requires AllWellFormed(ls)
    requires forall i :: 0 <= i < |ls| ==> !(ls[i].Prefixed? && ls[i].user == u)
    ensures u in Fold(ls) <==> Plain(u) in ls
    ensures u in Fold(ls) ==> Fold(ls)[u] == ParticipantRole
  {
    if ls != [] {
      var n := |ls|;
      var prefix := ls[..n - 1];
      assert ls == prefix + [ls[n - 1]];
      forall i | 0 <= i < |prefix| ensures !(prefix[i].Prefixed? && prefix[i].user == u) {
        assert prefix[i] == ls[i];
      }
      PlainOnlyParticipant(prefix, u);
    }
  }

  /** For the file's own lines: the last `judge:`/`org:` line naming a user decides its role. */
  lemma LastPrefixedLineWins(lines: seq<string>, i: int, u: string)
    requires 0 <= i < |lines| && Classify(lines[i]).Prefixed? && Classify(lines[i]).user == u
    requires forall j :: i < j < |lines| ==> !(Classify(lines[j]).Prefixed? && Classify(lines[j]).user == u)
    ensures u in ParseLines(lines) && ParseLines(lines)[u] == Classify(lines[i]).role
  {
    LastPrefixedWins(ClassifyAll(lines), i, u);
  }

  /** For the file's own lines: without a prefixed line, a user is a participant iff some plain
      line names it, and has no role otherwise. */
  lemma PlainLinesOnly(lines: seq<string>, u: string)
    requires forall i :: 0 <= i < |lines| ==> !(Classify(lines[i]).Prefixed? && Classify(lines[i]).user == u)
    ensures u in ParseLines(lines) <==> exists i :: 0 <= i < |lines| && Classify(lines[i]) == Plain(u)
    ensures u in ParseLines(lines) ==> ParseLines(lines)[u] == ParticipantRole
  {
    var ls := ClassifyAll(lines);
    PlainOnlyParticipant(ls, u);
    if Plain(u) in ls {
      var i :| 0 <= i < |ls| && ls[i] == Plain(u);
      assert Classify(lines[i]) == Plain(u);
    }
  }

  /** A plain line never takes away or replaces a role named before it. */
  lemma PlainNeverOverrides(roles: map<string, string>, u: string)
    requires IsLower(u) && forall v :: v in roles ==> IsLower(v) && IsRole(roles[v])
    requires u in roles
    ensures Apply(roles, Plain(u)) == roles
  {
  }

  /** Blank and comment lines change nothing. */
  lemma SkippedLineChangesNothing(lines: seq<string>, line: string)
    requires Strip(line) == [] || Strip(line)[0] == '#'
    ensures ParseLines(lines + [line]) == ParseLines(lines)
  {
    var all := lines + [line];
    var ls := ClassifyAll(all);
    assert ls[|lines|] == Classify(line) == Skip;
    assert ls[..|lines|] == ClassifyAll(lines) by {
      forall i | 0 <= i < |lines| ensures ls[..|lines|][i] == ClassifyAll(lines)[i] {
        assert all[i] == lines[i];
      }
    }
  }
}
