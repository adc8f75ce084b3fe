/**
 * The two status tables: a status's name and the advice printed for a branch
 * with that status.  Both tables have no entry for Incomparable.
 */
module Render {
  import opened Wrappers
  import opened Classify

  /** The name printed for a status; None for Incomparable, which has no entry. */
  function StatusString(c: Code): (r: Option<string>)
    ensures r.None? <==> c == Incomparable
  {
    match c
    case Behind => Some("BEHIND")
    case EqualTo => Some("EQUAL_TO")
    case AheadOf => Some("AHEAD_OF")
    case RebaseIsClean => Some("REBASE_IS_CLEAN")
    case RebaseConflicts => Some("REBASE_CONFLICTS")
    case MergesBetween => Some("MERGES_BETWEEN")
    case Incomparable => None
  }

  /** Distinct statuses have distinct names. */
  lemma StatusStringInjective(c1: Code, c2: Code)
    requires StatusString(c1).Some? && StatusString(c1) == StatusString(c2)
    ensures c1 == c2
  {
  }

  /**
   * A `%`-format template is modelled as the literal text between its `%s`
   * holes: a template with n holes has n + 1 chunks.  Fill replaces every
   * hole with `b`.
   */
  function Fill(t: seq<string>, b: string): (r: string)
    requires |t| > 0
    ensures |t[0]| <= |r| && r[..|t[0]|] == t[0]
    ensures |t| == 1 ==> r == t[0]
    decreases |t|
  {
    if |t| == 1 then t[0] else t[0] + b + Fill(t[1..], b)
  }

  /** Total length of a template's literal text. */
  function LiteralLength(chunks: seq<string>): nat {
    if chunks == [] then 0 else |chunks[0]| + LiteralLength(chunks[1..])
  }

  /** Filling adds |b| characters per hole to the literal text. */
  lemma {:induction false} FillLength(t: seq<string>, b: string)
    requires |t| > 0
    ensures |Fill(t, b)| == LiteralLength(t) + (|t| - 1) * |b|
    decreases |t|
  {
    if |t| > 1 {
      FillLength(t[1..], b);
    }
  }

  /** The first hole of a filled template sits right after the first chunk. */
  lemma FillFirstHole(t: seq<string>, b: string)
    requires |t| > 1
    ensures |t[0]| + |b| <= |Fill(t, b)|
    ensures Fill(t, b)[|t[0]|..|t[0]| + |b|] == b
  {
    assert Fill(t, b) == t[0] + b + Fill(t[1..], b);
  }

  // The literal pieces of the advice texts.
  const BehindIntro: string :=
    "Behind master.  Consider deleting it or rebasing master into it.\n\ngit stash && git checkout master && git branch -d "
  const BehindPush: string := " && git push origin :"
  const BehindCheckout: string := "\n\ngit stash && git fetch && git checkout "
  const BehindRebase: string := " && git rebase origin/master && git push\n"
  const EqualText: string := "Equal to master.  I like this branch :)"
  const AheadText: string := "Ahead of master.  I like this branch :)  Consider opening a merge request"
  const CleanIntro: string :=
    "Rebases cleanly on master.  Please perform the rebase ASAP!\n\ngit stash && git fetch && git checkout "
  const CleanRebase: string := " && git rebase origin/master && git push --force"
  const ConflictsIntro: string :=
    "Rebase on master causes conflicts.  Please carefully rebase on master ASAP!\n\ngit stash && git fetch && git checkout "
  const MergesIntro: string :=
    "Ahead of master but contains merges.  Please perform the rebase ASAP!\n\ngit stash && git fetch && git checkout "
  const CarefulRebase: string :=
    " && git rebase origin/master\n\n    * If anything goes wrong do 'git --abort' and seek professional advice.\n\n    * If it all goes right do 'git push --force'"

  /** The advice template for each status (None for Incomparable). */
  function ActionTemplate(s: Code): (r: Option<seq<string>>)
    ensures r.Some? ==> |r.value| == Substitutions(s) + 1
  {
    match s
    case Behind => Some([BehindIntro, BehindPush, BehindCheckout, BehindRebase])
    case EqualTo => Some([EqualText])
    case AheadOf => Some([AheadText])
    case RebaseIsClean => Some([CleanIntro, CleanRebase])
    case RebaseConflicts => Some([ConflictsIntro, CarefulRebase])
    case MergesBetween => Some([MergesIntro, CarefulRebase])
    case Incomparable => None
  }

  /** How many times the source formats the branch name into each status's advice. */
  function Substitutions(s: Code): nat {
    match s
    case Behind => 3
    case RebaseIsClean | RebaseConflicts | MergesBetween => 1
    case _ => 0
  }

  /**
   * The advice for branch `b` of repository `r`.  The repository name is
   * accepted and never used.
   */
  function StatusAction(s: Code, b: string, r: string): (a: Option<string>)
    ensures a.None? <==> s == Incomparable
  {
    match ActionTemplate(s)
    case Some(t) => Some(Fill(t, b))
    case None => None
  }

  /** The advice does not depend on the repository name. */
  lemma ActionIgnoresRepo(s: Code, b: string, r1: string, r2: string)
    ensures StatusAction(s, b, r1) == StatusAction(s, b, r2)
  {
  }

  /** The advice is the template's literal text plus the branch name once per substitution. */
  lemma ActionLength(s: Code, b: string, r: string)
    requires s != Incomparable
    ensures |StatusAction(s, b, r).value| == LiteralLength(ActionTemplate(s).value) + Substitutions(s) * |b|
  {
    FillLength(ActionTemplate(s).value, b);
  }

  /** EqualTo and AheadOf advice is a constant text. */
  lemma ActionConstant(s: Code, b1: string, r1: string, b2: string, r2: string)
    requires s == EqualTo || s == AheadOf
    ensures StatusAction(s, b1, r1) == StatusAction(s, b2, r2)
  {
  }

  /** Where the branch is substituted, the advice determines the branch. */
  lemma ActionDeterminesBranch(s: Code, b1: string, r1: string, b2: string, r2: string)
    requires Substitutions(s) > 0
    requires StatusAction(s, b1, r1) == StatusAction(s, b2, r2)
    ensures b1 == b2
  {
    var t := ActionTemplate(s).value;
    ActionLength(s, b1, r1);
    ActionLength(s, b2, r2);
    FillFirstHole(t, b1);
    FillFirstHole(t, b2);
  }
}
