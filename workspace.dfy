/**
 * The clone the report is computed in.  Its checked-out ref and rebase state
 * are one shared mutable resource: every rebase attempt checks a branch out
 * and, on conflict, aborts the rebase.  The clone keeps a log of the
 * commands that change it.
 */
module Workspace {
  import opened Wrappers
  import opened Classify
  import opened Branches
  import opened Report

  /** A git command that changes the clone's state. */
  datatype Command = Checkout(ref: string) | Rebase(base: string) | AbortRebase

  /** The ref the last checkout of `cs` moved to, if `cs` holds a checkout. */
  function LastCheckout(cs: seq<Command>): (r: Option<string>)
    ensures r.Some? ==> Checkout(r.value) in cs
    ensures r.None? ==> forall c :: c in cs ==> !c.Checkout?
  {
    if cs == [] then None
    else if cs[|cs| - 1].Checkout? then Some(cs[|cs| - 1].ref)
    else LastCheckout(cs[..|cs| - 1])
  }

  /** After running `a` and then `b`, the last checkout is `b`'s, or else `a`'s. */
  lemma {:induction false} LastCheckoutAppend(a: seq<Command>, b: seq<Command>)
    ensures LastCheckout(a + b) == if LastCheckout(b).Some? then LastCheckout(b) else LastCheckout(a)
  {
    if b == [] {
      assert a + b == a;
    } else {
      assert (a + b)[..|a + b| - 1] == a + b[..|b| - 1];
      LastCheckoutAppend(a, b[..|b| - 1]);
    }
  }

  /** The commands a rebase attempt runs when `git rebase` exits with `code`. */
  function RebaseCommands(branch: string, base: string, code: int): (cs: seq<Command>)
    ensures |cs| == (if code == 128 then 3 else 2)
    ensures cs[0] == Checkout(branch) && cs[1] == Rebase(base)
    ensures code == 128 ==> cs[2] == AbortRebase
    ensures LastCheckout(cs) == Some(branch)
  {
    var cs := [Checkout(branch), Rebase(base)] + (if code == 128 then [AbortRebase] else []);
    if code == 128 then
      assert cs[..|cs| - 1] == [Checkout(branch), Rebase(base)];
      assert cs[..|cs| - 1][..1] == [Checkout(branch)];
      assert LastCheckout(cs[..|cs| - 1]) == Some(branch);
      cs
    else
      assert cs[..|cs| - 1] == [Checkout(branch)];
      cs
  }

  /** The commands classifying `branch` runs: a rebase attempt only for an incomparable branch. */
  function StatusCommands(git: Git, branch: string): (cs: seq<Command>)
    ensures cs != [] <==> Compare(git, branch, Master) == Success(Incomparable)
    ensures cs != [] ==> |cs| >= 2 && cs[0] == Checkout(branch) && cs[1] == Rebase(Master)
  {
    if Compare(git, branch, Master) == Success(Incomparable) then
      RebaseCommands(branch, Master, git.rebaseExit(branch, Master))
    else
      []
  }

  /** The commands classifying each branch of `bs` in turn runs, up to the first error. */
  function ClassifyCommands(git: Git, bs: seq<string>): (cs: seq<Command>)
    ensures forall c :: c in cs && c.Rebase? ==> c.base == Master
  {
    if bs == [] then []
    else
      StatusCommands(git, Origin + bs[0]) +
      (if Classify.Status(git, Origin + bs[0]).Failure? then [] else ClassifyCommands(git, bs[1..]))
  }

  /** The commands rebasing `b1` on each branch of `bs2` in turn runs, up to the first error. */
  function RowCommands(git: Git, b1: string, bs2: seq<string>): (cs: seq<Command>)
    ensures forall c :: c in cs && c.Checkout? ==> c.ref == Origin + b1
    ensures bs2 != [] ==> LastCheckout(cs) == Some(Origin + b1)
  {
    if bs2 == [] then []
    else
      var code := git.rebaseExit(Origin + b1, Origin + bs2[0]);
      var first := RebaseCommands(Origin + b1, Origin + bs2[0], code);
      var cs := first + (if RebaseOutcome(code).Failure? then [] else RowCommands(git, b1, bs2[1..]));
      LastCheckoutAppend(first, cs[|first|..]);
      assert first + cs[|first|..] == cs;
      cs
  }

  /** The commands of the pairwise loop over `bs1` × `bs2`, in nested-loop order, up to the first error. */
  function MatrixCommands(git: Git, bs1: seq<string>, bs2: seq<string>): seq<Command> {
    if bs1 == [] then []
    else
      RowCommands(git, bs1[0], bs2) +
      (if RowWarnings(git, bs1[0], bs2).failure.Some? then [] else MatrixCommands(git, bs1[1..], bs2))
  }

  /** One row of the pairwise loop only rebases onto branches of `bs2`. */
  lemma {:induction false} RowCommandsBases(git: Git, b1: string, bs2: seq<string>)
    ensures forall c :: c in RowCommands(git, b1, bs2) && c.Rebase? ==>
      exists b :: b in bs2 && c.base == Origin + b
  {
    if bs2 != [] {
      RowCommandsBases(git, b1, bs2[1..]);
      var code := git.rebaseExit(Origin + b1, Origin + bs2[0]);
      var first := RebaseCommands(Origin + b1, Origin + bs2[0], code);
      var rest: seq<Command> := if RebaseOutcome(code).Failure? then [] else RowCommands(git, b1, bs2[1..]);
      assert RowCommands(git, b1, bs2) == first + rest;
      forall c: Command | c in first + rest && c.Rebase? ensures exists b :: b in bs2 && c.base == Origin + b {
        if c in first {
          assert c == first[1];
          assert bs2[0] in bs2;
        } else {
          var b :| b in bs2[1..] && c.base == Origin + b;
          assert b in bs2;
        }
      }
    }
  }

  /** The pairwise loop only ever checks out branches of `bs1`, and rebases only onto branches of `bs2`. */
  lemma {:induction false} MatrixCommandsRefs(git: Git, bs1: seq<string>, bs2: seq<string>)
    ensures forall c :: c in MatrixCommands(git, bs1, bs2) && c.Checkout? ==>
      exists b :: b in bs1 && c.ref == Origin + b
    ensures forall c :: c in MatrixCommands(git, bs1, bs2) && c.Rebase? ==>
      exists b :: b in bs2 && c.base == Origin + b
  {
    if bs1 != [] {
      MatrixCommandsRefs(git, bs1[1..], bs2);
      RowCommandsBases(git, bs1[0], bs2);
      var row := RowCommands(git, bs1[0], bs2);
      var rest: seq<Command> := if RowWarnings(git, bs1[0], bs2).failure.Some? then [] else MatrixCommands(git, bs1[1..], bs2);
      assert MatrixCommands(git, bs1, bs2) == row + rest;
      forall c: Command | c in row + rest && c.Checkout? ensures exists b :: b in bs1 && c.ref == Origin + b {
        if c in row {
          assert bs1[0] in bs1;
        } else {
          var b :| b in bs1[1..] && c.ref == Origin + b;
          assert b in bs1;
        }
      }
    }
  }

  class Clone {
    const git: Git
    // the checked-out ref; None until the first checkout
    var head: Option<string>
    // a rebase is in progress
    var rebasing: bool
    // the state-changing commands run so far, oldest first
    var commands: seq<Command>

    /** The checked-out ref is the one the last checkout moved to. */
    ghost predicate Valid()
      reads this
    {
      head == LastCheckout(commands)
    }

    /** A fresh clone of a repository whose history answers as `git` does. */
    constructor (git: Git)
      ensures Valid()
      ensures this.git == git && head == None && !rebasing && commands == []
    {
      this.git := git;
      head := None;
      rebasing := false;
      commands := [];
    }

    /**
     * Checks `branch` out and rebases it on `base`.  A clean rebase answers
     * true; a conflict is aborted and answers false; any other exit code is an
     * error and leaves the rebase as git left it.
     */
    method CanRebaseCleanlyOn(branch: string, base: string) returns (r: Result<bool, GitError>)
      requires Valid()
      modifies this
      ensures Valid()
      ensures r == RebaseOutcome(git.rebaseExit(branch, base))
      ensures head == Some(branch)
      ensures rebasing <==> r.Failure?
      ensures commands == old(commands) + RebaseCommands(branch, base, git.rebaseExit(branch, base))
    {
      head := Some(branch);
      commands := commands + [Checkout(branch)];
      var code := git.rebaseExit(branch, base);
      commands := commands + [Rebase(base)];
      rebasing := code != 0;
      if code == 0 {
        r := Success(true);
      } else if code == 128 {
        commands := commands + [AbortRebase];
        rebasing := false;
        r := Success(false);
      } else {
        r := Failure(UnexpectedRebaseExit(code));
      }
      assert commands == old(commands) + RebaseCommands(branch, base, code);
      LastCheckoutAppend(old(commands), RebaseCommands(branch, base, code));
    }

    /** Classifies `branch` against origin/master, trying the rebase in this clone when needed. */
    method ClassifyBranch(branch: string) returns (r: Result<Code, GitError>)
      requires Valid()
      modifies this
      ensures Valid()
      ensures r == Classify.Status(git, branch)
      ensures commands == old(commands) + StatusCommands(git, branch)
      ensures Compare(git, branch, Master) == Success(Incomparable) ==>
        head == Some(branch) && (rebasing <==> r.Failure?)
      ensures Compare(git, branch, Master) != Success(Incomparable) ==>
        head == old(head) && rebasing == old(rebasing)
      ensures !old(rebasing) ==> (rebasing <==> r.Failure? && r.error.UnexpectedRebaseExit?)
    {
      var c := Compare(git, branch, Master);
      if c.Failure? {
        return c.PropagateFailure();
      }
      if c.value == Incomparable {
        var clean := CanRebaseCleanlyOn(branch, Master);
        if clean.Failure? {
          return clean.PropagateFailure();
        }
        r := Success(if clean.value then RebaseIsClean else RebaseConflicts);
      } else if c.value == AheadOf {
        r := Success(if git.merges(Master, branch) == [] then AheadOf else MergesBetween);
      } else {
        r := Success(c.value);
      }
    }

    /** Classifies every branch of `bs` in order, stopping at the first error. */
    method ClassifyAll(bs: seq<string>, repoName: string) returns (r: Result<seq<string>, GitError>)
      requires Valid() && !rebasing
      modifies this
      ensures Valid()
      ensures r == StatusLines(git, bs, repoName)
      ensures commands == old(commands) + ClassifyCommands(git, bs)
      ensures rebasing <==> r.Failure? && r.error.UnexpectedRebaseExit?
    {
      var results: seq<string> := [];
      var i := 0;
      assert bs[i..] == bs;
      PrefixedNothing(StatusLines(git, bs, repoName));
      while i < |bs|
        invariant 0 <= i <= |bs|
        invariant Valid() && !rebasing
        invariant old(commands) + ClassifyCommands(git, bs) == commands + ClassifyCommands(git, bs[i..])
        invariant StatusLines(git, bs, repoName) == Prefixed(results, StatusLines(git, bs[i..], repoName))
      {
        assert bs[i..][0] == bs[i] && bs[i..][1..] == bs[i + 1..];
        ghost var before := commands;
        var s := ClassifyBranch(Origin + bs[i]);
        if s.Failure? {
          ClassifyStop(before, commands, results, git, bs[i..], repoName);
          return Failure(s.error);
        }
        ClassifyStep(before, commands, git, bs[i..]);
        var line := AdviceLine(bs[i], s.value, repoName);
        StatusLinesStep(results, git, bs[i..], repoName);
        results := results + [line];
        i := i + 1;
      }
      assert bs[i..] == [] && results + [] == results;
      assert commands + [] == commands;
      r := Success(results);
    }

    /**
     * The body of the loop over a row: tries to rebase `b1` on the first
     * branch of `bs2`, after the warnings `row` of the pairs before it.
     */
    method RebaseNext(b1: string, bs2: seq<string>, row: seq<string>) returns (row': seq<string>, stop: Option<GitError>)
      requires Valid() && !rebasing && bs2 != []
      modifies this
      ensures Valid() && head == Some(Origin + b1)
      ensures rebasing <==> stop.Some?
      ensures stop.Some? ==>
        old(commands) + RowCommands(git, b1, bs2) == commands &&
        After(row, RowWarnings(git, b1, bs2)) == Outcome(row, stop)
      ensures stop.None? ==>
        old(commands) + RowCommands(git, b1, bs2) == commands + RowCommands(git, b1, bs2[1..]) &&
        After(row, RowWarnings(git, b1, bs2)) == After(row', RowWarnings(git, b1, bs2[1..]))
    {
      ghost var before := commands;
      var clean := CanRebaseCleanlyOn(Origin + b1, Origin + bs2[0]);
      if clean.Failure? {
        RowStop(before, commands, row, git, b1, bs2);
        return row, Some(clean.error);
      }
      RowStep(before, commands, git, b1, bs2);
      row' := row;
      if !clean.value {
        row' := row + [WarningLine(b1, bs2[0])];
      }
      RowWarningsStep(row, row', git, b1, bs2);
      stop := None;
    }

    /** Tries to rebase `b1` on every branch of `bs2` in order, stopping at the first error. */
    method RebaseRow(b1: string, bs2: seq<string>) returns (o: Outcome)
      requires Valid() && !rebasing
      modifies this
      ensures Valid()
      ensures o == RowWarnings(git, b1, bs2)
      ensures commands == old(commands) + RowCommands(git, b1, bs2)
      ensures bs2 != [] ==> head == Some(Origin + b1)
      ensures rebasing <==> o.failure.Some?
    {
      var row: seq<string> := [];
      var j := 0;
      assert bs2[j..] == bs2;
      while j < |bs2|
        invariant 0 <= j <= |bs2|
        invariant Valid() && !rebasing
        invariant j > 0 ==> head == Some(Origin + b1)
        invariant old(commands) + RowCommands(git, b1, bs2) == commands + RowCommands(git, b1, bs2[j..])
        invariant RowWarnings(git, b1, bs2) == After(row, RowWarnings(git, b1, bs2[j..]))
      {
        assert bs2[j..][1..] == bs2[j + 1..];
        var row', stop := RebaseNext(b1, bs2[j..], row);
        if stop.Some? {
          return Outcome(row, stop);
        }
        row := row';
        j := j + 1;
      }
      assert bs2[j..] == [];
      assert commands + [] == commands && row + [] == row;
      o := Outcome(row, None);
    }

    /** Tries every ordered pair of `bs1` × `bs2` in nested-loop order, stopping at the first error. */
    method RebaseAll(bs1: seq<string>, bs2: seq<string>) returns (o: Outcome)
      requires Valid() && !rebasing
      modifies this
      ensures Valid()
      ensures o == Warnings(git, bs1, bs2)
      ensures commands == old(commands) + MatrixCommands(git, bs1, bs2)
      ensures o.failure.None? && bs1 != [] && bs2 != [] ==> head == Some(Origin + bs1[|bs1| - 1])
      ensures rebasing <==> o.failure.Some?
    {
      var lines := [];
      var i := 0;
      assert bs1[i..] == bs1;
      while i < |bs1|
        invariant 0 <= i <= |bs1|
        invariant Valid() && !rebasing
        invariant i > 0 && bs2 != [] ==> head == Some(Origin + bs1[i - 1])
        invariant old(commands) + MatrixCommands(git, bs1, bs2) == commands + MatrixCommands(git, bs1[i..], bs2)
        invariant Warnings(git, bs1, bs2) == After(lines, Warnings(git, bs1[i..], bs2))
      {
        assert bs1[i..][0] == bs1[i] && bs1[i..][1..] == bs1[i + 1..];
        ghost var before := commands;
        var row := RebaseRow(bs1[i], bs2);
        MatrixStep(before, commands, lines, git, bs1[i..], bs2);
        if row.failure.Some? {
          return After(lines, row);
        }
        lines := lines + row.lines;
        ghost var last := bs1[i];
        i := i + 1;
        assert bs1[i - 1] == last;
      }
      assert bs1[i..] == [];
      assert commands + [] == commands;
      o := Outcome(lines, None);
    }
  }

  /** One successful classification step of the loop over the branches. */
  lemma ClassifyStep(before: seq<Command>, after: seq<Command>, git: Git, bs: seq<string>)
    requires bs != [] && Classify.Status(git, Origin + bs[0]).Success?
    requires after == before + StatusCommands(git, Origin + bs[0])
    ensures before + ClassifyCommands(git, bs) == after + ClassifyCommands(git, bs[1..])
  {
    var first := StatusCommands(git, Origin + bs[0]);
    var rest := ClassifyCommands(git, bs[1..]);
    assert ClassifyCommands(git, bs) == first + rest;
    Associative(before, first, rest);
  }

  /** A classification step of the loop over the branches that ends it with an error. */
  lemma ClassifyStop(before: seq<Command>, after: seq<Command>, results: seq<string>, git: Git, bs: seq<string>, repoName: string)
    requires bs != [] && Classify.Status(git, Origin + bs[0]).Failure?
    requires after == before + StatusCommands(git, Origin + bs[0])
    ensures before + ClassifyCommands(git, bs) == after
    ensures Prefixed(results, StatusLines(git, bs, repoName)) == Failure(Classify.Status(git, Origin + bs[0]).error)
  {
    assert after + [] == after;
  }

  /** The lines collected so far, followed by the rest of a list that may end in an error. */
  function Prefixed(ls: seq<string>, r: Result<seq<string>, GitError>): (p: Result<seq<string>, GitError>)
    ensures p.Success? <==> r.Success?
    ensures p.Success? ==> |p.value| == |ls| + |r.value| && p.value[..|ls|] == ls && p.value[|ls|..] == r.value
  {
    match r
    case Success(rest) => Success(ls + rest)
    case Failure(e) => Failure(e)
  }

  lemma PrefixedNothing(r: Result<seq<string>, GitError>)
    ensures Prefixed([], r) == r
  {
    if r.Success? {
      assert [] + r.value == r.value;
    }
  }

  /** One successful classification step of the loop over the branches: the line it emits. */
  lemma StatusLinesStep(results: seq<string>, git: Git, bs: seq<string>, repoName: string)
    requires bs != [] && Classify.Status(git, Origin + bs[0]).Success?
    ensures Prefixed(results, StatusLines(git, bs, repoName)) ==
      Prefixed(results + [AdviceLine(bs[0], Classify.Status(git, Origin + bs[0]).value, repoName)], StatusLines(git, bs[1..], repoName))
  {
    var line := AdviceLine(bs[0], Classify.Status(git, Origin + bs[0]).value, repoName);
    if StatusLines(git, bs[1..], repoName).Success? {
      var rest := StatusLines(git, bs[1..], repoName).value;
      assert results + ([line] + rest) == (results + [line]) + rest;
    }
  }

  /** One answered rebase step of the loop over a row: the commands it runs. */
  lemma RowStep(before: seq<Command>, after: seq<Command>, git: Git, b1: string, bs2: seq<string>)
    requires bs2 != [] && RebaseOutcome(git.rebaseExit(Origin + b1, Origin + bs2[0])).Success?
    requires after == before + RebaseCommands(Origin + b1, Origin + bs2[0], git.rebaseExit(Origin + b1, Origin + bs2[0]))
    ensures before + RowCommands(git, b1, bs2) == after + RowCommands(git, b1, bs2[1..])
  {
    var first := RebaseCommands(Origin + b1, Origin + bs2[0], git.rebaseExit(Origin + b1, Origin + bs2[0]));
    var rest := RowCommands(git, b1, bs2[1..]);
    assert RowCommands(git, b1, bs2) == first + rest;
    Associative(before, first, rest);
  }

  /** A rebase step of the loop over a row that ends it with an unexpected exit code. */
  lemma RowStop(before: seq<Command>, after: seq<Command>, row: seq<string>, git: Git, b1: string, bs2: seq<string>)
    requires bs2 != [] && RebaseOutcome(git.rebaseExit(Origin + b1, Origin + bs2[0])).Failure?
    requires after == before + RebaseCommands(Origin + b1, Origin + bs2[0], git.rebaseExit(Origin + b1, Origin + bs2[0]))
    ensures before + RowCommands(git, b1, bs2) == after
    ensures After(row, RowWarnings(git, b1, bs2)) ==
      Outcome(row, Some(UnexpectedRebaseExit(git.rebaseExit(Origin + b1, Origin + bs2[0]))))
  {
    assert row + [] == row;
    assert after + [] == after;
  }

  /** One answered rebase step of the loop over a row: the warnings it emits. */
  lemma RowWarningsStep(row: seq<string>, row': seq<string>, git: Git, b1: string, bs2: seq<string>)
    requires bs2 != [] && RebaseOutcome(git.rebaseExit(Origin + b1, Origin + bs2[0])).Success?
    requires row' == row + (if RebaseOutcome(git.rebaseExit(Origin + b1, Origin + bs2[0])).value then [] else [WarningLine(b1, bs2[0])])
    ensures After(row, RowWarnings(git, b1, bs2)) == After(row', RowWarnings(git, b1, bs2[1..]))
  {
    var x := if RebaseOutcome(git.rebaseExit(Origin + b1, Origin + bs2[0])).value then [] else [WarningLine(b1, bs2[0])];
    var rest := RowWarnings(git, b1, bs2[1..]).lines;
    assert row + (x + rest) == (row + x) + rest;
  }

  lemma Associative<T>(a: seq<T>, b: seq<T>, c: seq<T>)
    ensures a + (b + c) == (a + b) + c
  {
  }

  /** One row of the pairwise loop: the commands it runs and the warnings it emits. */
  lemma MatrixStep(before: seq<Command>, after: seq<Command>, lines: seq<string>, git: Git, bs1: seq<string>, bs2: seq<string>)
    requires bs1 != []
    requires after == before + RowCommands(git, bs1[0], bs2)
    ensures RowWarnings(git, bs1[0], bs2).failure.Some? ==>
      before + MatrixCommands(git, bs1, bs2) == after &&
      After(lines, Warnings(git, bs1, bs2)) == After(lines, RowWarnings(git, bs1[0], bs2))
    ensures RowWarnings(git, bs1[0], bs2).failure.None? ==>
      before + MatrixCommands(git, bs1, bs2) == after + MatrixCommands(git, bs1[1..], bs2) &&
      After(lines, Warnings(git, bs1, bs2)) ==
        After(lines + RowWarnings(git, bs1[0], bs2).lines, Warnings(git, bs1[1..], bs2))
  {
    var row := RowWarnings(git, bs1[0], bs2);
    var cs := MatrixCommands(git, bs1, bs2);
    if row.failure.Some? {
      assert cs == RowCommands(git, bs1[0], bs2) + [];
    } else {
      var rest := Warnings(git, bs1[1..], bs2).lines;
      var r := RowCommands(git, bs1[0], bs2);
      var m := MatrixCommands(git, bs1[1..], bs2);
      assert cs == r + m;
      Associative(before, r, m);
      Associative(lines, row.lines, rest);
    }
  }

  /**
   * Produces the report of repository `repoName` from a fresh clone `ws`.
   * The output stops at the first unexpected exit code, and a run that ends
   * normally leaves no rebase in progress.
   */
  method OutputRepository(ws: Clone, repoName: string) returns (out: Outcome)
    requires ws.Valid() && !ws.rebasing
    modifies ws
    ensures ws.Valid()
    ensures out == RepositoryReport(ws.git, repoName)
    ensures var bs := OriginBranches(ws.git.remoteLines);
      ws.commands == old(ws.commands) + ClassifyCommands(ws.git, bs) +
        (if StatusLines(ws.git, bs, repoName).Success? then MatrixCommands(ws.git, bs, bs) else [])
    ensures var bs := OriginBranches(ws.git.remoteLines);
      out.failure.None? && bs != [] ==> ws.head == Some(Origin + bs[|bs| - 1])
    ensures ws.rebasing <==> out.failure.Some? && out.failure.value.UnexpectedRebaseExit?
  {
    var header := [Header(repoName)];
    var bs := OriginBranches(ws.git.remoteLines);
    // Every status is computed before the first advice line is emitted.
    var results := ws.ClassifyAll(bs, repoName);
    if results.Failure? {
      ReportClassifyFails(ws.git, repoName);
      Associative(old(ws.commands), ClassifyCommands(ws.git, bs), []);
      return Outcome(header, Some(results.error));
    }
    ReportClassified(ws.git, repoName);
    var warnings := ws.RebaseAll(bs, bs);
    WarningsShape(ws.git, bs, bs);
    out := After(header + results.value, warnings);
  }
}
