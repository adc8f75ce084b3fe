/**
 * The report one repository produces, as pure functions of git's answers:
 * its lines in order, and the error that ends it early, if any.
 */
module Report {
  import opened Wrappers
  import opened Classify
  import opened Render
  import opened Branches

  /** What a report run has produced: the lines emitted, then the error that ended it, if any. */
  datatype Outcome = Outcome(lines: seq<string>, failure: Option<GitError>)

  /** The outcome `o` preceded by the lines `ls`. */
  function After(ls: seq<string>, o: Outcome): Outcome {
    Outcome(ls + o.lines, o.failure)
  }

  const HeaderPrefix: string := "\nRepo name: "
  const WarningMiddle: string := " cannot be rebased cleanly on "

  /** The first line of a report: the repository name between a label and a newline. */
  function Header(repoName: string): (h: string)
    ensures |h| == |HeaderPrefix| + |repoName| + 1
    ensures h[0] == '\n' && h[|h| - 1] == '\n'
    ensures h[|HeaderPrefix|..|h| - 1] == repoName
  {
    HeaderPrefix + repoName + "\n"
  }

  /** The line of one branch: its name, then its advice, ended by a newline. */
  function BranchLine(b: string, action: string): (line: string)
    ensures |line| == |b| + |action| + 5
    ensures line[2..2 + |b|] == b && line[4 + |b|..|line| - 1] == action
    ensures line[|line| - 1] == '\n'
  {
    "* " + b + ": " + action + "\n"
  }

  /**
   * The warning for a pair of branches.  Unlike the other lines it ends with
   * the second branch's name, not with a newline.
   */
  function WarningLine(b1: string, b2: string): (line: string)
    ensures |line| == 9 + |b1| + |WarningMiddle| + |b2|
    ensures line[9..9 + |b1|] == b1
    ensures line[|line| - |b2|..] == b2
  {
    "WARNING: " + b1 + WarningMiddle + b2
  }

  /** The advice line of branch `b`, once its status is known. */
  function AdviceLine(b: string, s: Code, repoName: string): string
    requires IsStatus(s)
  {
    BranchLine(b, StatusAction(s, b, repoName).value)
  }

  /**
   * One advice line per branch, in order; the first branch whose
   * classification fails ends the list with that error.
   */
  function StatusLines(git: Git, bs: seq<string>, repoName: string): (r: Result<seq<string>, GitError>)
    ensures r.Success? ==> |r.value| == |bs|
  {
    if bs == [] then
      Success([])
    else
      var s :- Classify.Status(git, Origin + bs[0]);
      var rest :- StatusLines(git, bs[1..], repoName);
      Success([AdviceLine(bs[0], s, repoName)] + rest)
  }

  /**
   * Exactly one advice line per branch, in branch order, when every branch
   * classifies; otherwise the error of the first branch that does not.
   */
  lemma {:induction false} StatusLinesShape(git: Git, bs: seq<string>, repoName: string)
    ensures var r := StatusLines(git, bs, repoName);
      r.Success? ==> (|r.value| == |bs| &&
        forall i :: 0 <= i < |bs| ==>
          Classify.Status(git, Origin + bs[i]).Success? &&
          r.value[i] == AdviceLine(bs[i], Classify.Status(git, Origin + bs[i]).value, repoName))
    ensures var r := StatusLines(git, bs, repoName);
      r.Failure? ==> exists i :: (0 <= i < |bs| &&
        Classify.Status(git, Origin + bs[i]) == Failure(r.error) &&
        forall j :: 0 <= j < i ==> Classify.Status(git, Origin + bs[j]).Success?)
  {
    if bs != [] {
      var rest := bs[1..];
      StatusLinesShape(git, rest, repoName);
      var first := Classify.Status(git, Origin + bs[0]);
      var r := StatusLines(git, bs, repoName);
      var r' := StatusLines(git, rest, repoName);
      if first.Failure? {
        assert r == Failure(first.error);
        assert Classify.Status(git, Origin + bs[0]) == Failure(r.error);
      } else if r'.Failure? {
        assert r == Failure(r'.error);
        var k :| 0 <= k < |rest| && Classify.Status(git, Origin + rest[k]) == Failure(r'.error) &&
          forall j :: 0 <= j < k ==> Classify.Status(git, Origin + rest[j]).Success?;
        assert rest[k] == bs[k + 1];
        forall j | 0 <= j < k + 1
          ensures Classify.Status(git, Origin + bs[j]).Success?
        {
          if j > 0 {
            assert bs[j] == rest[j - 1];
          }
        }
      } else {
        assert r.value == [AdviceLine(bs[0], first.value, repoName)] + r'.value;
        forall i | 0 <= i < |bs|
          ensures Classify.Status(git, Origin + bs[i]).Success? &&
            r.value[i] == AdviceLine(bs[i], Classify.Status(git, Origin + bs[i]).value, repoName)
        {
          if i > 0 {
            assert bs[i] == rest[i - 1];
          }
        }
      }
    }
  }

  /**
   * The warnings for the pairs (b1, b2), b2 ranging over `bs2` in order; an
   * unexpected rebase exit code ends the row with that error.
   */
  function RowWarnings(git: Git, b1: string, bs2: seq<string>): Outcome {
    if bs2 == [] then
      Outcome([], None)
    else
      match RebaseOutcome(git.rebaseExit(Origin + b1, Origin + bs2[0]))
      case Failure(e) => Outcome([], Some(e))
      case Success(clean) =>
        After(if clean then [] else [WarningLine(b1, bs2[0])], RowWarnings(git, b1, bs2[1..]))
  }

  /** The warnings for every pair of `bs1` × `bs2`, in nested-loop order, up to the first error. */
  function Warnings(git: Git, bs1: seq<string>, bs2: seq<string>): Outcome {
    if bs1 == [] then
      Outcome([], None)
    else
      var row := RowWarnings(git, bs1[0], bs2);
      if row.failure.Some? then row else After(row.lines, Warnings(git, bs1[1..], bs2))
  }

  /** A row warns at most once per pair, and only an unexpected rebase exit code ends it early. */
  lemma {:induction false} RowWarningsShape(git: Git, b1: string, bs2: seq<string>)
    ensures |RowWarnings(git, b1, bs2).lines| <= |bs2|
    ensures RowWarnings(git, b1, bs2).failure.Some? ==> RowWarnings(git, b1, bs2).failure.value.UnexpectedRebaseExit?
  {
    if bs2 != [] {
      RowWarningsShape(git, b1, bs2[1..]);
    }
  }

  /** The pairwise loop warns at most once per pair, and only an unexpected rebase exit code ends it early. */
  lemma {:induction false} WarningsShape(git: Git, bs1: seq<string>, bs2: seq<string>)
    ensures |Warnings(git, bs1, bs2).lines| <= |bs1| * |bs2|
    ensures Warnings(git, bs1, bs2).failure.Some? ==> Warnings(git, bs1, bs2).failure.value.UnexpectedRebaseExit?
  {
    if bs1 != [] {
      RowWarningsShape(git, bs1[0], bs2);
      WarningsShape(git, bs1[1..], bs2);
      assert |bs1| * |bs2| == |bs2| + |bs1[1..]| * |bs2|;
    }
  }

  /**
   * The report for one repository: the header, the advice line of every
   * branch, then the rebase warnings of every ordered pair of branches.
   */
  function RepositoryReport(git: Git, repoName: string): (r: Outcome)
    ensures |r.lines| >= 1 && r.lines[0] == Header(repoName)
  {
    var bs := OriginBranches(git.remoteLines);
    match StatusLines(git, bs, repoName)
    case Failure(e) => Outcome([Header(repoName)], Some(e))
    case Success(ls) => After([Header(repoName)] + ls, Warnings(git, bs, bs))
  }

  /** Reports with no branch to audit hold the header alone. */
  lemma ReportNoBranches(git: Git, repoName: string)
    requires OriginBranches(git.remoteLines) == []
    ensures RepositoryReport(git, repoName) == Outcome([Header(repoName)], None)
  {
  }

  /**
   * Every status is computed before the first advice line is emitted, so a
   * classification error leaves the header alone, followed by that error.
   */
  lemma ReportClassifyFails(git: Git, repoName: string)
    requires StatusLines(git, OriginBranches(git.remoteLines), repoName).Failure?
    ensures RepositoryReport(git, repoName) ==
      Outcome([Header(repoName)], Some(StatusLines(git, OriginBranches(git.remoteLines), repoName).error))
  {
  }

  /** Once every branch classifies, the report goes on with the advice lines, then the pairwise loop. */
  lemma ReportClassified(git: Git, repoName: string)
    requires StatusLines(git, OriginBranches(git.remoteLines), repoName).Success?
    ensures var bs := OriginBranches(git.remoteLines);
      RepositoryReport(git, repoName) ==
        After([Header(repoName)] + StatusLines(git, bs, repoName).value, Warnings(git, bs, bs))
  {
  }

  /** The ordered pairs of `bs1` × `bs2` in nested-loop order, as a flat list. */
  function Pairs(bs1: seq<string>, bs2: seq<string>): (ps: seq<(string, string)>)
    ensures |ps| == |bs1| * |bs2|
  {
    if bs1 == [] then [] else Row(bs1[0], bs2) + Pairs(bs1[1..], bs2)
  }

  function Row(b1: string, bs2: seq<string>): (ps: seq<(string, string)>)
    ensures |ps| == |bs2|
  {
    seq(|bs2|, j requires 0 <= j < |bs2| => (b1, bs2[j]))
  }

  /** Every pair of a branch of `bs1` with a branch of `bs2` is listed, self-pairs included. */
  lemma {:induction false} PairsComplete(bs1: seq<string>, bs2: seq<string>, b1: string, b2: string)
    ensures (b1, b2) in Pairs(bs1, bs2) <==> b1 in bs1 && b2 in bs2
  {
    if bs1 != [] {
      PairsComplete(bs1[1..], bs2, b1, b2);
      assert bs1 == [bs1[0]] + bs1[1..];
      if b1 == bs1[0] && b2 in bs2 {
        var j :| 0 <= j < |bs2| && bs2[j] == b2;
        assert Row(b1, bs2)[j] == (b1, b2);
      }
    }
  }

  /** The exit code of rebasing branch p.0 on branch p.1. */
  function PairExit(git: Git, p: (string, string)): int {
    git.rebaseExit(Origin + p.0, Origin + p.1)
  }

  /** The rebase of branch p.0 on branch p.1 answers with a conflict. */
  predicate Conflicting(git: Git, p: (string, string)) {
    PairExit(git, p) == 128
  }

  /** The rebase of branch p.0 on branch p.1 answers clean or conflicting. */
  predicate Answers(git: Git, p: (string, string)) {
    RebaseOutcome(PairExit(git, p)).Success?
  }

  /** The warning lines of the conflicting pairs of `ps`, in order. */
  function Conflicts(git: Git, ps: seq<(string, string)>): seq<string> {
    if ps == [] then []
    else (if Conflicting(git, ps[0]) then [WarningLine(ps[0].0, ps[0].1)] else []) + Conflicts(git, ps[1..])
  }

  lemma {:induction false} ConflictsAppend(git: Git, ps: seq<(string, string)>, qs: seq<(string, string)>)
    ensures Conflicts(git, ps + qs) == Conflicts(git, ps) + Conflicts(git, qs)
  {
    if ps == [] {
      assert ps + qs == qs;
    } else {
      assert (ps + qs)[0] == ps[0] && (ps + qs)[1..] == ps[1..] + qs;
      ConflictsAppend(git, ps[1..], qs);
    }
  }

  /** At most one warning per pair, and one for each conflicting pair. */
  lemma {:induction false} ConflictsBound(git: Git, ps: seq<(string, string)>)
    ensures |Conflicts(git, ps)| <= |ps|
    ensures forall p :: p in ps && Conflicting(git, p) ==> WarningLine(p.0, p.1) in Conflicts(git, ps)
  {
    if ps != [] {
      ConflictsBound(git, ps[1..]);
      assert forall p :: p in ps ==> p == ps[0] || p in ps[1..];
    }
  }

  /** Every rebase of a branch of `bs1` on a branch of `bs2` answers clean or conflicting. */
  predicate RebasesAnswer(git: Git, bs1: seq<string>, bs2: seq<string>) {
    forall b1, b2 :: b1 in bs1 && b2 in bs2 ==> RebaseOutcome(git.rebaseExit(Origin + b1, Origin + b2)).Success?
  }

  lemma {:induction false} RowWarningsAnswered(git: Git, b1: string, bs2: seq<string>)
    requires RebasesAnswer(git, [b1], bs2)
    ensures RowWarnings(git, b1, bs2) == Outcome(Conflicts(git, Row(b1, bs2)), None)
  {
    if bs2 != [] {
      assert b1 in [b1] && bs2[0] in bs2;
      assert RebasesAnswer(git, [b1], bs2[1..]) by {
        forall b, b2 | b in [b1] && b2 in bs2[1..]
          ensures RebaseOutcome(git.rebaseExit(Origin + b, Origin + b2)).Success?
        {
          assert b2 in bs2;
        }
      }
      RowWarningsAnswered(git, b1, bs2[1..]);
      assert Row(b1, bs2)[0] == (b1, bs2[0]) && Row(b1, bs2)[1..] == Row(b1, bs2[1..]);
    }
  }

  /**
   * When every rebase answers, the warnings are those of the conflicting
   * pairs, one each, in nested-loop order.
   */
  lemma {:induction false} WarningsAnswered(git: Git, bs1: seq<string>, bs2: seq<string>)
    requires RebasesAnswer(git, bs1, bs2)
    ensures Warnings(git, bs1, bs2) == Outcome(Conflicts(git, Pairs(bs1, bs2)), None)
  {
    if bs1 != [] {
      assert RebasesAnswer(git, [bs1[0]], bs2) by {
        forall b, b2 | b in [bs1[0]] && b2 in bs2
          ensures RebaseOutcome(git.rebaseExit(Origin + b, Origin + b2)).Success?
        {
          assert b in bs1;
        }
      }
      assert RebasesAnswer(git, bs1[1..], bs2) by {
        forall b, b2 | b in bs1[1..] && b2 in bs2
          ensures RebaseOutcome(git.rebaseExit(Origin + b, Origin + b2)).Success?
        {
          assert b in bs1;
        }
      }
      RowWarningsAnswered(git, bs1[0], bs2);
      WarningsAnswered(git, bs1[1..], bs2);
      ConflictsAppend(git, Row(bs1[0], bs2), Pairs(bs1[1..], bs2));
    }
  }

  /**
   * A row whose first k rebases answer and whose next one (if any) does not:
   * the warnings of those k pairs, then the error of the one that failed.
   */
  lemma {:induction false} RowWarningsUpTo(git: Git, b1: string, bs2: seq<string>, k: nat)
    requires k <= |bs2|
    requires forall i :: 0 <= i < k ==> Answers(git, Row(b1, bs2)[i])
    requires k < |bs2| ==> !Answers(git, Row(b1, bs2)[k])
    ensures RowWarnings(git, b1, bs2) ==
      Outcome(Conflicts(git, Row(b1, bs2)[..k]),
              if k < |bs2| then Some(UnexpectedRebaseExit(PairExit(git, Row(b1, bs2)[k]))) else None)
  {
    var r := Row(b1, bs2);
    if bs2 != [] {
      assert r[0] == (b1, bs2[0]);
      if k > 0 {
        var r' := Row(b1, bs2[1..]);
        assert forall i :: 0 <= i < |r'| ==> r'[i] == r[i + 1];
        RowWarningsUpTo(git, b1, bs2[1..], k - 1);
        assert r[..k] == [r[0]] + r'[..k - 1];
        assert ([r[0]] + r'[..k - 1])[1..] == r'[..k - 1];
      }
    }
  }

  /**
   * The pairwise loop ended by an unexpected exit code: when the first k
   * pairs in nested-loop order answer and pair k does not, the output is the
   * warnings of those k pairs, then the error of pair k.
   */
  lemma {:induction false} WarningsUpTo(git: Git, bs1: seq<string>, bs2: seq<string>, k: nat)
    requires k <= |Pairs(bs1, bs2)|
    requires forall i :: 0 <= i < k ==> Answers(git, Pairs(bs1, bs2)[i])
    requires k < |Pairs(bs1, bs2)| ==> !Answers(git, Pairs(bs1, bs2)[k])
    ensures Warnings(git, bs1, bs2) ==
      Outcome(Conflicts(git, Pairs(bs1, bs2)[..k]),
              if k < |Pairs(bs1, bs2)| then Some(UnexpectedRebaseExit(PairExit(git, Pairs(bs1, bs2)[k]))) else None)
  {
    if bs1 != [] {
      var row := Row(bs1[0], bs2);
      var rest := Pairs(bs1[1..], bs2);
      var ps := Pairs(bs1, bs2);
      assert ps == row + rest;
      if k < |bs2| {
        assert forall i :: 0 <= i <= k ==> ps[i] == row[i];
        RowWarningsUpTo(git, bs1[0], bs2, k);
        assert ps[..k] == row[..k];
      } else {
        assert forall i :: 0 <= i < |bs2| ==> ps[i] == row[i];
        RowWarningsUpTo(git, bs1[0], bs2, |bs2|);
        assert row[..|bs2|] == row;
        assert forall i :: 0 <= i < |rest| ==> ps[|bs2| + i] == rest[i];
        WarningsUpTo(git, bs1[1..], bs2, k - |bs2|);
        assert ps[..k] == row + rest[..k - |bs2|];
        ConflictsAppend(git, row, rest[..k - |bs2|]);
      }
    }
  }

  /**
   * A report that runs to completion: the header, the advice lines, then one
   * warning per conflicting ordered pair of branches, self-pairs included.
   */
  lemma ReportAnswered(git: Git, repoName: string)
    requires StatusLines(git, OriginBranches(git.remoteLines), repoName).Success?
    requires RebasesAnswer(git, OriginBranches(git.remoteLines), OriginBranches(git.remoteLines))
    ensures var bs := OriginBranches(git.remoteLines);
      RepositoryReport(git, repoName) ==
        Outcome([Header(repoName)] + StatusLines(git, bs, repoName).value + Conflicts(git, Pairs(bs, bs)), None)
  {
    var bs := OriginBranches(git.remoteLines);
    WarningsAnswered(git, bs, bs);
  }

  /** A branch that cannot be rebased on itself is warned about against itself. */
  lemma SelfConflictWarned(git: Git, bs: seq<string>, b: string)
    requires RebasesAnswer(git, bs, bs)
    requires b in bs && Conflicting(git, (b, b))
    ensures WarningLine(b, b) in Warnings(git, bs, bs).lines
  {
    WarningsAnswered(git, bs, bs);
    PairsComplete(bs, bs, b, b);
    ConflictsBound(git, Pairs(bs, bs));
  }
}
