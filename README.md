# git-branch-status-monitor, modelled in Dafny

The program clones a repository and audits its remote branches against
`origin/master`. For each branch it works out how the branch relates to
master: behind, equal, ahead, ahead with merge commits, or diverged. A
diverged branch is split further by whether it rebases cleanly onto master.
The program prints advice for each branch. It then tries to rebase every
branch onto every branch, itself included, and prints a warning for each
pair that conflicts.

This model covers everything in that workflow except the calls to `git`.
Each `git` call is replaced by its answer, held in a `Git` value:

- the exit code of `git merge-base --is-ancestor a d`, for each pair of refs;
- the output lines of `git rev-list --merges a..b`, for each range;
- the exit code of `git rebase base` with `branch` checked out, for each pair;
- the output lines of `git branch --remote`.

History does not change during a run, so each answer is a fixed function of
its arguments.

Modules:

- `Wrappers` (wrappers.dfy): `Option` and `Result`. The `ValueError`s the
  program raises become `Failure` values.
- `Classify` (classify.dfy): the seven status constants, as `Code`;
  `is_ancestor_of` and the exit-code half of `can_rebase_cleanly_on`; `compare`;
  `status`.
- `Render` (render.dfy): `status_string` and `status_action`. A `%` template
  is a list of literal chunks with the branch name filled in between them.
- `Branches` (branches.dfy): the branch-line pattern `^ *origin/([^ ]*)$`,
  written out by hand, and `origin_branches`.
- `Report` (report.dfy): the report of one repository as pure functions of
  `git`'s answers: the header, the advice lines, and the warnings of the
  pairwise rebase loop. `output_repository` is a generator that can raise
  part-way through. It is modelled as an `Outcome`: the lines emitted before
  the error, plus the error, if any.
- `Workspace` (workspace.dfy): the clone as a class. Its checked-out ref,
  rebase-in-progress flag and log of state-changing commands change in place.
  Its methods are the rebase attempt, the classification of one branch, and
  the loops of `output_repository`. Each method is proved equal to a pure
  function of `Classify` or `Report`, and its log of commands is proved equal to a pure function of
  `git`'s answers.

Three points of behaviour follow from the code as written:

- `status_action` ignores its repository argument (git.py:33-40). The BEHIND
  advice therefore does not name the repository, and the model proves that
  the advice does not depend on it (`Render.ActionIgnoresRepo`).
- A warning has no trailing newline (git.py:184); the header and the advice
  lines do (git.py:160, git.py:177).
- `compare(b, b)` is EQUAL_TO only when `git merge-base --is-ancestor b b`
  answers "ancestor" (`Classify.CompareSelf`). Rebasing a branch onto itself
  is tried like any other pair, and a conflicting self-rebase is warned about
  (`Report.SelfConflictWarned`).

## Model

| member | source | states |
|---|---|---|
| `Classify.IsAncestorOf` | git.py:107-115 | exit code 0 means ancestor and 1 means not; any other code is the `UnexpectedMergeBaseExit` error carrying that code |
| `Classify.AncestryExitRoundTrip` | git.py:107-115 | interpreting git's exit code for an answer gives that answer back |
| `Classify.Order` | git.py:96-105 | the result is one of the four orderings; it is Behind or EqualTo exactly when branch1 is an ancestor of branch2, and AheadOf or EqualTo exactly when branch2 is an ancestor of branch1, so the raise at line 105 is unreachable |
| `Classify.OrderConverse` | git.py:96-103 | swapping the two ancestry answers swaps AheadOf and Behind and leaves EqualTo and Incomparable fixed |
| `Classify.Compare` | git.py:92-105 | succeeds exactly when both ancestry queries answer 0 or 1, and then is the ordering of the two answers; the result is comparable exactly when one query answers "ancestor"; a bad first exit code is the error reported, and otherwise a bad second one is |
| `Classify.CompareConverse` | git.py:92-105 | swapping the two refs does not change whether comparison succeeds, and the ordering becomes its converse |
| `Classify.CompareSelf` | git.py:92-97 | a ref that git calls its own ancestor compares EqualTo to itself |
| `Classify.RebaseOutcome` | git.py:120-128 | rebase exit code 0 is clean and 128 is a conflict; any other code is the `UnexpectedRebaseExit` error |
| `Classify.Status` | git.py:71-87 | never Incomparable when it succeeds; a comparison error is passed on; any other error is a rebase error, and occurs only for an incomparable branch |
| `Classify.StatusPassThrough` | git.py:84-85 | Behind and EqualTo are the status exactly when they are the comparison |
| `Classify.StatusAhead` | git.py:79-83 | AheadOf exactly when ahead with an empty merge list; MergesBetween exactly when ahead with a non-empty one |
| `Classify.StatusIncomparable` | git.py:74-78 | RebaseIsClean exactly when incomparable and the rebase exits 0; RebaseConflicts exactly when incomparable and it exits 128 |
| `Classify.StatusIgnoresRebase` | git.py:74-83 | the rebase answer does not affect the status of a branch that is not incomparable |
| `Render.StatusString` | git.py:19-31 | there is no name exactly for Incomparable |
| `Render.StatusStringInjective` | git.py:19-31 | distinct statuses have distinct names |
| `Render.ActionTemplate` | git.py:33-69 | each advice text has one more literal chunk than the number of times the branch name is formatted into it |
| `Render.StatusAction` | git.py:33-69 | there is no advice exactly for Incomparable |
| `Render.Fill` | git.py:33-69 | a filled template starts with its first literal chunk, and a template with no hole is its literal text |
| `Render.FillLength` | git.py:40 | filling a template adds the branch name's length once per hole to the literal text |
| `Render.FillFirstHole` | git.py:33-69 | the branch name appears right after the first literal chunk of a template with a hole |
| `Render.ActionIgnoresRepo` | git.py:33-40 | the advice does not depend on the repository name |
| `Render.ActionLength` | git.py:33-69 | the advice is its literal text plus the branch name three times for Behind, once for the three rebase advices, and never for EqualTo and AheadOf |
| `Render.ActionConstant` | git.py:42-46 | the EqualTo and AheadOf advice is the same for every branch and repository |
| `Render.ActionDeterminesBranch` | git.py:33-69 | where the branch is substituted, two branches with the same advice are the same branch |
| `Branches.Match` | git.py:133-139 | a captured name has no spaces, and the line is some spaces, then `origin/`, then that name |
| `Branches.MatchRoundTrip` | git.py:133-139 | any number of spaces, then `origin/`, then a space-free name, captures that name |
| `Branches.MatchRejectsSpace` | git.py:134 | a line whose text after `origin/` holds a space captures nothing |
| `Branches.MatchRejectsHeadLine` | git.py:134 | the line `  origin/HEAD -> origin/master` captures nothing |
| `Branches.Wanted` | git.py:149 | a line contributes at most one branch, never `master`: its captured name exactly when that name exists and is not `master` |
| `Branches.OriginBranches` | git.py:147-151 | no more branches than lines; never `master`; no spaces in any name; every branch is captured from some line, and every captured name other than `master` is a branch |
| `Branches.OriginBranchesAppend` | git.py:147-149 | enumerating two blocks of lines gives the first block's branches, then the second's, so branches keep line order |
| `Branches.OriginBranchesSingle` | git.py:147-149 | a single line gives its captured name unless it is `master`, otherwise nothing |
| `Workspace.LastCheckout` | git.py:119 | the ref named is one that was checked out; with no checkout, there is none |
| `Workspace.LastCheckoutAppend` | git.py:119 | after two runs of commands, the checked-out ref is the second run's last checkout, or else the first's |
| `Workspace.RebaseCommands` | git.py:119-126 | a rebase attempt checks the branch out, then rebases, then aborts exactly when the rebase exits 128: three commands then, two otherwise; it leaves the branch checked out |
| `Workspace.StatusCommands` | git.py:74-78 | classifying a branch runs commands exactly when it is incomparable with master, and then checks it out and rebases it on master |
| `Workspace.ClassifyCommands` | git.py:173-174 | the classification loop only ever rebases onto master |
| `Workspace.RowCommands` | git.py:180-181 | one row of the pairwise loop only checks out its own branch, and leaves it checked out |
| `Workspace.RowCommandsBases` | git.py:180-181 | one row of the pairwise loop only rebases onto branches being audited |
| `Workspace.MatrixCommandsRefs` | git.py:179-181 | the pairwise loop only checks out, and only rebases onto, branches being audited |
| `Workspace.Clone.constructor` | git.py:167-169 | a fresh clone has nothing checked out explicitly, no rebase in progress and no commands run |
| `Workspace.Clone.CanRebaseCleanlyOn` | git.py:118-128 | the answer is the exit-code interpretation; the branch is checked out; the commands are checkout, rebase, and abort on 128; a rebase is left in progress only on an unexpected exit code |
| `Workspace.Clone.ClassifyBranch` | git.py:71-87 | the answer is the pure classification; the commands run are exactly the branch's status commands; an incomparable branch ends checked out, with a rebase left in progress only on an error; any other branch leaves the clone untouched; starting with no rebase in progress, a rebase is left in progress exactly when the error is an unexpected rebase exit code |
| `Workspace.Clone.ClassifyAll` | git.py:173-174 | the results list of the report, computed branch by branch, stopping at the first error; the commands run are the classification loop's, up to that error; a rebase is left in progress exactly when that error is an unexpected rebase exit code |
| `Workspace.Clone.RebaseNext` | git.py:181-184 | one pass of the inner loop body: its branch is checked out; a rebase is left in progress exactly when it stops the row; its commands and warning are the row's next step |
| `Workspace.Clone.RebaseRow` | git.py:180-184 | one row of the pairwise loop; the commands run are the row's, up to and including the first failing rebase; a non-empty row leaves its branch checked out; a rebase is left in progress exactly when the row ends with an error |
| `Workspace.Clone.RebaseAll` | git.py:179-184 | the nested pairwise rebase loop, stopping at the first error; the commands run are the rows' commands up to that error; a completed run leaves the last branch checked out; a rebase is left in progress exactly when the run ends with an error |
| `Report.Header` | git.py:160 | the header is the repository name after the label, starting and ending with a newline |
| `Report.BranchLine` | git.py:177 | an advice line holds the branch name, then the advice, and ends with a newline |
| `Report.WarningLine` | git.py:184 | a warning holds the first branch's name and ends with the second's, with no newline |
| `Report.StatusLines` | git.py:173-177 | when every branch classifies, there is one advice line per branch |
| `Report.StatusLinesShape` | git.py:173-177 | when every branch classifies, one advice line per branch, in branch order, built from its status; otherwise the error of the first branch that fails |
| `Report.RepositoryReport` | git.py:159-184 | every report, even a failed one, starts with the header line |
| `Report.ReportNoBranches` | git.py:159-184 | with no branch to audit, the report is the header alone and completes |
| `Report.ReportClassifyFails` | git.py:171-177 | a classification error leaves the header alone, followed by that error: no advice line is emitted, because every status is computed first |
| `Report.ReportClassified` | git.py:171-184 | once every branch classifies, the report is the header, the advice lines, then the pairwise loop's outcome |
| `Report.Pairs` | git.py:179-181 | the nested loop visits `n * m` pairs |
| `Report.Row` | git.py:180-181 | one row of the inner loop has one pair per branch |
| `Report.PairsComplete` | git.py:179-181 | every pair of branches is visited, self-pairs included, and no other pair |
| `Report.ConflictsAppend` | git.py:179-184 | the warnings of two runs of pairs are the first run's warnings, then the second's |
| `Report.ConflictsBound` | git.py:183-184 | at most one warning per pair, and a warning for every conflicting pair |
| `Report.RowWarningsShape` | git.py:180-184 | a row warns at most once per pair, and only an unexpected rebase exit code ends it early |
| `Report.WarningsShape` | git.py:179-184 | the pairwise loop warns at most once per pair, and only an unexpected rebase exit code ends it early |
| `Report.RowWarningsAnswered` | git.py:180-184 | when every rebase of a row answers, the row ends normally with the warnings of its conflicting pairs |
| `Report.WarningsAnswered` | git.py:179-184 | when every rebase answers, the warnings are one per conflicting ordered pair, in nested-loop order |
| `Report.RowWarningsUpTo` | git.py:180-184 | a row whose first k rebases answer and whose next one does not emits the warnings of those k pairs, then ends with that rebase's exit-code error |
| `Report.WarningsUpTo` | git.py:179-184 | when the first k pairs in nested-loop order answer and pair k does not, the loop emits the warnings of those k pairs, then ends with pair k's exit-code error |
| `Report.ReportAnswered` | git.py:159-184 | a complete report is the header, then the advice lines, then the warnings of the conflicting pairs, with no error |
| `Report.SelfConflictWarned` | git.py:179-184 | a branch that cannot be rebased onto itself is warned about against itself |
| `Workspace.OutputRepository` | git.py:159-184 | the lines emitted and the error that ends them are exactly the report's; the commands run are the classification loop's, then, if every branch classifies, the pairwise loop's; a report that completes leaves the last branch checked out; a rebase is left in progress exactly when the report ends with an unexpected rebase exit code |

## Left out

- The `git` subprocesses (clone, merge-base, checkout, rebase, rebase --abort, rev-list, branch --remote) are not run. The answers the program reads are parameters, and git's commit graph and rebase algorithm are not modelled.
- The temporary directory, the `os.chdir` calls and the ASCII decoding of git's output are environment plumbing and are not modelled.
- The unused `smtp` and `getpass` imports are not modelled.
- `merges_between` is modelled by its result only: the lines of `git rev-list --merges`. Only whether that list is empty matters to `status`.
- The `__main__` line calls a `main` that does not exist, so there is nothing to model.
- The exit codes of `git clone`, `git checkout` and `git rebase --abort` are ignored by the program (git.py:119, git.py:125, git.py:167). The model assumes all three succeed: the clone's answers are the ones given, a checkout always moves the clone to the named ref, and an abort always ends the rebase in progress.
- Workspace.Clone.CanRebaseCleanlyOn: on an unexpected rebase exit code it records a rebase as still in progress. What git has actually left behind in that case is not modelled.
- Python's general regular-expression engine and `%` formatting are not modelled. The one pattern and the fixed templates are written out by hand.
- Laziness is not modelled. The generator is a finished list of lines plus the error that ended it, which is what a consumer reading to the end sees.
