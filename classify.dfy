/**
 * Branch classification: the ordering of two refs derived from two ancestry
 * queries, and its refinement into one of six statuses.  The `git` commands
 * the program runs are replaced by a `Git` value holding their answers.
 */
module Classify {
  import opened Wrappers

  /** The program's integer constants BEHIND = 0 .. MERGES_BETWEEN = 6, in order. */
  datatype Code =
    | Behind | EqualTo | AheadOf | Incomparable
    | RebaseIsClean | RebaseConflicts | MergesBetween

  /** The ValueError raised when `git` answers with an exit code the program does not expect. */
  datatype GitError =
    | UnexpectedMergeBaseExit(code: int)
    | UnexpectedRebaseExit(code: int)

  /**
   * What the cloned repository answers.  History is read-only during a run,
   * so every answer is a fixed function of its arguments.
   */
  datatype Git = Git(
    // exit code of `git merge-base --is-ancestor ancestor descendant`
    mergeBaseExit: (string, string) -> int,
    // output lines of `git rev-list --merges from..to`
    merges: (string, string) -> seq<string>,
    // exit code of `git rebase base` with `branch` checked out
    rebaseExit: (string, string) -> int,
    // output lines of `git branch --remote`
    remoteLines: seq<string>)

  const Master: string := "origin/master"

  /** Exit status of `git merge-base --is-ancestor` when it answers normally. */
  function AncestryExit(isAncestor: bool): int {
    if isAncestor then 0 else 1
  }

  /** Interprets the exit code of an ancestry query. */
  function IsAncestorOf(code: int): (r: Result<bool, GitError>)
    ensures r.Success? <==> code == 0 || code == 1
    ensures r.Success? ==> code == AncestryExit(r.value)
    ensures r.Failure? ==> r.error == UnexpectedMergeBaseExit(code)
  {
    if code == 0 then Success(true)
    else if code == 1 then Success(false)
    else Failure(UnexpectedMergeBaseExit(code))
  }

  lemma AncestryExitRoundTrip(isAncestor: bool)
    ensures IsAncestorOf(AncestryExit(isAncestor)) == Success(isAncestor)
  {
  }

  /**
   * Orders branch1 against branch2 from "branch1 is an ancestor of branch2"
   * (le12) and "branch2 is an ancestor of branch1" (le21).  The final branch
   * of the source's if-chain raises; it is unreachable.
   */
  function Order(le12: bool, le21: bool): (r: Code)
    ensures r == Behind || r == EqualTo || r == AheadOf || r == Incomparable
    ensures (r == Behind || r == EqualTo) <==> le12
    ensures (r == AheadOf || r == EqualTo) <==> le21
  {
    if le12 && le21 then EqualTo
    else if !le12 && le21 then AheadOf
    else if le12 && !le21 then Behind
    else if !le12 && !le21 then Incomparable
    else assert false; Incomparable
  }

  /** Exchanges "ahead" and "behind": the ordering seen from the other side. */
  function Converse(c: Code): Code {
    match c
    case Behind => AheadOf
    case AheadOf => Behind
    case _ => c
  }

  lemma OrderConverse(le12: bool, le21: bool)
    ensures Order(le21, le12) == Converse(Order(le12, le21))
  {
  }

  /** Orders branch1 against branch2 by asking git twice, first about branch1 ≤ branch2. */
  function Compare(git: Git, branch1: string, branch2: string): (r: Result<Code, GitError>)
    ensures r.Success? <==>
      IsAncestorOf(git.mergeBaseExit(branch1, branch2)).Success? &&
      IsAncestorOf(git.mergeBaseExit(branch2, branch1)).Success?
    ensures r.Success? ==> (r.value != Incomparable <==>
      git.mergeBaseExit(branch1, branch2) == 0 || git.mergeBaseExit(branch2, branch1) == 0)
    ensures r.Success? ==>
      r.value == Order(git.mergeBaseExit(branch1, branch2) == 0, git.mergeBaseExit(branch2, branch1) == 0)
    ensures IsAncestorOf(git.mergeBaseExit(branch1, branch2)).Failure? ==>
      r == Failure(UnexpectedMergeBaseExit(git.mergeBaseExit(branch1, branch2)))
    ensures (IsAncestorOf(git.mergeBaseExit(branch1, branch2)).Success? &&
             IsAncestorOf(git.mergeBaseExit(branch2, branch1)).Failure?) ==>
      r == Failure(UnexpectedMergeBaseExit(git.mergeBaseExit(branch2, branch1)))
  {
    var le12 :- IsAncestorOf(git.mergeBaseExit(branch1, branch2));
    var le21 :- IsAncestorOf(git.mergeBaseExit(branch2, branch1));
    Success(Order(le12, le21))
  }

  /** Swapping the arguments swaps AheadOf and Behind and fixes the other two. */
  lemma CompareConverse(git: Git, branch1: string, branch2: string)
    ensures Compare(git, branch1, branch2).Success? == Compare(git, branch2, branch1).Success?
    ensures Compare(git, branch1, branch2).Success? ==>
      Compare(git, branch2, branch1).value == Converse(Compare(git, branch1, branch2).value)
  {
    if Compare(git, branch1, branch2).Success? {
      var le12 := IsAncestorOf(git.mergeBaseExit(branch1, branch2)).value;
      var le21 := IsAncestorOf(git.mergeBaseExit(branch2, branch1)).value;
      OrderConverse(le12, le21);
    }
  }

  /** A ref is its own ancestor, so it compares equal to itself. */
  lemma CompareSelf(git: Git, branch: string)
    requires git.mergeBaseExit(branch, branch) == AncestryExit(true)
    ensures Compare(git, branch, branch) == Success(EqualTo)
  {
  }

  /** Interprets the exit code of `git rebase`: 0 is clean, 128 is a conflict. */
  function RebaseOutcome(code: int): (r: Result<bool, GitError>)
    ensures r == Success(true) <==> code == 0
    ensures r == Success(false) <==> code == 128
    ensures r.Failure? ==> r.error == UnexpectedRebaseExit(code)
  {
    if code == 0 then Success(true)
    else if code == 128 then Success(false)
    else Failure(UnexpectedRebaseExit(code))
  }

  /** The six values the classifier can produce: every Code but Incomparable. */
  predicate IsStatus(c: Code) {
    c != Incomparable
  }

  /**
   * The status of `branch` (a qualified ref such as "origin/x") against
   * origin/master.  The merge list is read only when the branch is ahead, and
   * the rebase is tried only when the two are incomparable.
   */
  function Status(git: Git, branch: string): (r: Result<Code, GitError>)
    ensures r.Success? ==> IsStatus(r.value)
    ensures Compare(git, branch, Master).Failure? ==> r == Compare(git, branch, Master).PropagateFailure()
    ensures r.Failure? && Compare(git, branch, Master).Success? ==>
      Compare(git, branch, Master).value == Incomparable &&
      r == Failure(UnexpectedRebaseExit(git.rebaseExit(branch, Master)))
  {
    var c :- Compare(git, branch, Master);
    if c == Incomparable then
      var clean :- RebaseOutcome(git.rebaseExit(branch, Master));
      Success(if clean then RebaseIsClean else RebaseConflicts)
    else if c == AheadOf then
      Success(if git.merges(Master, branch) == [] then AheadOf else MergesBetween)
    else
      Success(c)
  }

  /** Behind and EqualTo pass through the refinement unchanged. */
  lemma StatusPassThrough(git: Git, branch: string, c: Code)
    requires c == Behind || c == EqualTo
    ensures Status(git, branch) == Success(c) <==> Compare(git, branch, Master) == Success(c)
  {
  }

  /** AheadOf survives exactly when there is no merge commit between master and the branch. */
  lemma StatusAhead(git: Git, branch: string)
    ensures Status(git, branch) == Success(AheadOf) <==>
      Compare(git, branch, Master) == Success(AheadOf) && git.merges(Master, branch) == []
    ensures Status(git, branch) == Success(MergesBetween) <==>
      Compare(git, branch, Master) == Success(AheadOf) && git.merges(Master, branch) != []
  {
  }

  /** An incomparable branch resolves to exactly one of the two rebase statuses, by the rebase's exit code. */
  lemma StatusIncomparable(git: Git, branch: string)
    ensures Status(git, branch) == Success(RebaseIsClean) <==>
      Compare(git, branch, Master) == Success(Incomparable) && git.rebaseExit(branch, Master) == 0
    ensures Status(git, branch) == Success(RebaseConflicts) <==>
      Compare(git, branch, Master) == Success(Incomparable) && git.rebaseExit(branch, Master) == 128
  {
  }

  /** The rebase is consulted only for incomparable branches: elsewhere its answer does not matter. */
  lemma StatusIgnoresRebase(git: Git, other: Git, branch: string)
    requires git.mergeBaseExit == other.mergeBaseExit && git.merges == other.merges
    requires Compare(git, branch, Master) != Success(Incomparable)
    ensures Status(git, branch) == Status(other, branch)
  {
  }
}
