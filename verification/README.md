# smart-live-rebuild in Dafny

`smart-live-rebuild` goes through the installed Gentoo packages built from
live version-control checkouts (git, mercurial and subversion eclasses). It
updates each checkout once and re-emerges only the packages whose checkout
actually moved. This project models its decision logic as pure Dafny
functions, with every process it would run replaced by an input:

- `text.dfy` (`Text`): the Python string primitives the script relies on.
  These are `str.split`, `str.join`, `posixpath.basename`/`dirname`, and
  Python's code-point order on `str`.
- `env.dfy` (`Env`): the bash script that sources a package's saved
  environment and echoes the wanted variables separated by NUL. It also
  covers `dict(zip(...))` decoding of what the script prints.
- `backends.dfy` (`Backends`): `GitSupport`, `HgSupport` and `SvnSupport` as
  one closed datatype `Vcs`. Covered:
  - detection, construction with the required-variable check, and the
    not-really-live rejection
  - working-copy path, update command, saved and current revision
  - `svn info` parsing and `revcmp`
- `grouping.dfy` (`Grouping`): enumeration. Every package is offered to each
  selected backend, and the accepted ones are grouped into one repository
  task per working-copy path. A package ends up grouped, skipped as not live,
  or erraneous.
- `scheduler.dfy` (`Scheduler`): the `while True` update loop as a step
  function over a FIFO queue and an in-flight list bounded by `jobs`.
  - An oracle `Tick` per iteration supplies the interrupt point, how starting
    the next task goes, the blocking wait's answer and the poll answers.
  - `startupdate`/`endupdate` are modelled as `StartUpdate`, `Poll`, `Await`
    and `Finish`.
- `policies.dfy` (`Policies`): option normalisation, the privilege decision
  table, backend type selection, and the final quickpkg/print/emerge plan.
- `session.dfy` (`Session`): the stages chained as `main` runs them.

Every Python exception the code can raise on these paths is an `Error` in a
`Result`:
- a dictionary lookup of a variable the shell did not print is a `KeyError`
- `str()` of the package list is a `TypeError`
- comparing `None` with `>=` is a `TypeError`
- the hg path `assert` is an `AssertionError`
- appending a package to a checkout of another backend is a `ValueError`
- a non-zero exit status is `UpdateFailed`
- a failing process or file operation is an `OSError`
- aborting a task whose start was interrupted before its `subprocess`
  attribute was assigned is an `AttributeError` (see "## Findings")

The code is read with Python 3 semantics.

## Model

| member | source | states |
|---|---|---|
| Text.SplitJoin | smart-live-rebuild.py:92-95 | Splitting NUL-joined values that contain no NUL gives the values back, which is why the echoed fields line up with the variables |
| Text.JoinSplit | smart-live-rebuild.py:95 | Joining the fields of a split with the separator rebuilds the text, so `split` loses nothing |
| Text.FirstLine | smart-live-rebuild.py:203 | `split('\n')[0]` is the longest newline-free prefix of the output: it has no newline, and a newline follows it when it is shorter |
| Text.Basename | smart-live-rebuild.py:228 | `os.path.basename` is the slash-free suffix after the last '/' |
| Text.Dirname | smart-live-rebuild.py:228 | `os.path.dirname` keeps the text up to the last '/'. It returns that head unchanged when it is all slashes, and otherwise strips the head's trailing slashes, leaving a non-empty prefix that does not end in '/' |
| Text.BasenameOfChild | smart-live-rebuild.py:228 | The base name of `dir/name` is `name` for a slash-free `name` |
| Text.DirnameOfSlashTerminated | smart-live-rebuild.py:228 | The directory of `dir/name/` is `dir/name`: its trailing slash is stripped |
| Text.LexLessIrreflexive | smart-live-rebuild.py:275 | No string sorts strictly before itself |
| Text.LexLessTransitive | smart-live-rebuild.py:275 | Python's string order is transitive |
| Text.LexLessTotal | smart-live-rebuild.py:275 | Of two distinct strings one sorts before the other |
| Env.Echoes | smart-live-rebuild.py:92-93 | There is one `echo -n "${VAR}"` command per requested variable, in order |
| Env.Script | smart-live-rebuild.py:92-93 | The script starts by sourcing the environment file and exits on failure before echoing anything |
| Env.ZipKeys | smart-live-rebuild.py:95 | `dict(zip(names, fields))` declares exactly the names that are paired with a field, truncating to the shorter list |
| Env.ZipValues | smart-live-rebuild.py:95 | A name receives the field at its last pairing position |
| Env.DecodeEmit | smart-live-rebuild.py:92-99 | For distinct names and NUL-free values the decoded environment is exactly `names[i] -> values[i]` |
| Env.DecodeEmpty | smart-live-rebuild.py:92-95 | When sourcing fails and nothing is printed, only the first variable is declared, and it is empty |
| Env.Decode | smart-live-rebuild.py:95 | The decoded environment declares only requested names, and all of them once the output has at least as many fields as there are names |
| Backends.MissingFieldKeyError | smart-live-rebuild.py:95-101 | When the shell prints fewer fields than there are variables, looking up a variable beyond the printed fields raises KeyError |
| Backends.Load | smart-live-rebuild.py:97-103 | A constructed backend declares all its required variables non-empty and is not pinned |
| Backends.VarsDistinct | smart-live-rebuild.py:182-183 | Each backend echoes pairwise distinct variable names |
| Backends.LoadedFields | smart-live-rebuild.py:99 | Variable i of `reqenv + optenv` receives the i-th NUL-separated field, and no other name is declared |
| Backends.LoadGit | smart-live-rebuild.py:182-188 | Git fails with KeyError iff a required field is empty. It is not live (`Pinned`) iff EGIT_COMMIT is set and differs from EGIT_BRANCH, and is constructed otherwise |
| Backends.LoadHg | smart-live-rebuild.py:216-224 | Mercurial fails with KeyError iff a required field is empty. It is not live (`Pinned`) iff EHG_REVISION is set and not "tip" |
| Backends.LoadSvn | smart-live-rebuild.py:247-257 | Subversion fails with KeyError iff a required field is empty. It is not live (`Pinned`) iff ESVN_REPO_URI contains '@' or ESVN_REVISION is set |
| Backends.LoadFailedSource | smart-live-rebuild.py:92-103 | An environment that cannot be sourced makes construction fail with KeyError, for every backend |
| Backends.NoExclusiveMatch | smart-live-rebuild.py:80-83 | A backend matches a package iff its eclass name is in the INHERITED list. Matching is not exclusive: a package inheriting git and subversion is offered to both |
| Backends.HgRepoNameOf | smart-live-rebuild.py:228 | The mercurial checkout name of `dir/name` and of `dir/name/` is `name` |
| Backends.GitCheckoutPath | smart-live-rebuild.py:190-191 | The git working copy is under `EGIT_STORE_DIR/` and is named after EGIT_PROJECT |
| Backends.SvnCheckoutPath | smart-live-rebuild.py:259-260 | The subversion working copy is ESVN_WC_PATH, whatever the distfiles settings |
| Backends.HgCheckoutPath | smart-live-rebuild.py:226-231 | The assertion fails iff the URI consists of slashes only. Otherwise the working copy is `distdir/hg-src/EHG_PROJECT/name`, where name is the repository name derived from the URI |
| Backends.HgRepoNameEmpty | smart-live-rebuild.py:228-229 | No repository name can be derived from the URI, neither its base name nor its directory's, iff the URI consists of slashes only |
| Backends.HgPathParts | smart-live-rebuild.py:231 | The formatted mercurial path keeps its prefix and ends in the repository name |
| Backends.SavedRevisionOf | smart-live-rebuild.py:113-266 | The saved revision is EGIT_VERSION for git and ESVN_WC_REVISION for subversion. Mercurial keeps the base class's None |
| Backends.HgUpdateCommand | smart-live-rebuild.py:239-240 | Mercurial's update command is EHG_PULL_CMD followed by the trust option for the portage user |
| Backends.UpdateCommandHead | smart-live-rebuild.py:205-281 | Every backend's update command starts with its configured command variable |
| Backends.GitRefspecOnlyWithoutSubmodules | smart-live-rebuild.py:205-209 | Without submodules, git appends exactly ` origin B:B` to the command it runs when submodules are present |
| Backends.SvnCredentialsOnlyWithUser | smart-live-rebuild.py:277-281 | Subversion appends exactly the `--user`/`--password` pair when ESVN_USER is set |
| Backends.DisplayFails | smart-live-rebuild.py:177-194 | Naming a checkout raises TypeError iff its URI is empty, which only git and subversion allow. Otherwise the name is the URI |
| Backends.GitRevisionRef | smart-live-rebuild.py:199-203 | Git queries `origin/BRANCH` when submodules are set and `BRANCH` otherwise |
| Backends.CurrentRevisionOf | smart-live-rebuild.py:199-271 | A revision query that raises is an OSError. Otherwise git takes the first line of `rev-parse`, mercurial the whole `hg tip` output, and subversion the Last Changed Rev of `svn info` |
| Backends.FirstRevLine | smart-live-rebuild.py:270-271 | There is no revision iff no line matches. Otherwise the result is the digits of the first matching line |
| Backends.LastChangedRev | smart-live-rebuild.py:250 | A revision read from `svn info` is a non-empty run of digits |
| Backends.LastChangedRevOfLines | smart-live-rebuild.py:268-271 | The digits of the first `Last Changed Rev: <digits>` line are returned, wherever it is |
| Backends.SameRevision | smart-live-rebuild.py:119-121 | Git and mercurial compare revisions for equality. Subversion raises TypeError iff a revision is None |
| Backends.SameRevisionReflexive | smart-live-rebuild.py:273-275 | An unmoved checkout is unchanged for every backend |
| Backends.SvnChangeIsStrictOrder | smart-live-rebuild.py:273-275 | Subversion reports a change iff the old revision sorts strictly before the new one, and of two distinct revisions exactly one direction is a change |
| Backends.SvnComparesText | smart-live-rebuild.py:275 | The comparison is textual: 9 to 10 is not a change, while 1 to 10 is |
| Grouping.Find | smart-live-rebuild.py:510 | The path lookup finds a task with that path, or none exists |
| Grouping.Enlist | smart-live-rebuild.py:108-111 | Grouping by path fails with ValueError iff the path belongs to another backend's task, and keeps at most one task per path |
| Grouping.EnlistNewPath | smart-live-rebuild.py:510-511 | A new path opens a task after all existing ones |
| Grouping.EnlistKnownPath | smart-live-rebuild.py:512-513 | A known path appends the package to its task and leaves the others alone, or raises for another backend |
| Grouping.Claim | smart-live-rebuild.py:504-513 | One backend's claim raises OSError when the environment cannot be read, and otherwise the constructor's exception. Offline, a missing saved-revision field raises and an empty saved revision skips the package. When the package is checked, a failing path raises, and otherwise the package is grouped by its path. Paths stay unique |
| Grouping.Enroll | smart-live-rebuild.py:503-520 | The loop over backends keeps at most one task per path |
| Grouping.Visit | smart-live-rebuild.py:500-520 | A package is listed as erraneous at most once, and paths stay unique |
| Grouping.Enumerate | smart-live-rebuild.py:499-522 | Enumeration yields unique paths, and every erraneous entry is an installed package |
| Grouping.EnlistWithin | smart-live-rebuild.py:510-513 | Grouping a package adds only that package to the tasks |
| Grouping.EnrollWithin | smart-live-rebuild.py:503-520 | The loop over the backends adds only the offered package to the tasks |
| Grouping.EnumeratedAreInstalled | smart-live-rebuild.py:499-522 | Every package a task holds is an installed package |
| Grouping.ErraneousIffBroken | smart-live-rebuild.py:499-522 | For packages with distinct names, a package is erraneous iff its backend loop, run on the tasks found before it, fails with something other than a pin |
| Grouping.PinnedPackageIgnored | smart-live-rebuild.py:516-517 | A package its first matching backend rejects as not live is neither grouped nor erraneous |
| Grouping.EnrollFirstMatch | smart-live-rebuild.py:503-520 | A failure of the first matching backend stops the loop and leaves the tasks as they were |
| Grouping.ClaimAll | smart-live-rebuild.py:503-513 | When every matching backend accepts a package, the loop over the backends ends clean with the groupings they made, and paths stay unique |
| Grouping.EnrollAfterClaims | smart-live-rebuild.py:503-520 | After the backends before position k accepted a package, the loop goes on from k with their groupings |
| Grouping.BrokenPackageListed | smart-live-rebuild.py:503-520 | When a matching backend fails after the earlier matching ones succeeded, the groupings they made are kept. The package is listed as erraneous exactly once, unless the failure is a pin |
| Grouping.OnlineOpensTask | smart-live-rebuild.py:503-511 | With network access a live package at a new checkout path opens a task holding just that package |
| Grouping.OfflineNeedsSavedRevision | smart-live-rebuild.py:508 | Offline, a package without a saved revision is not grouped |
| Scheduler.OldRevision | smart-live-rebuild.py:136 | The old revision is the saved one when `--local-rev` is off and it is non-empty, and the live one otherwise. The live query does not run when the saved revision is used |
| Scheduler.StartUpdate | smart-live-rebuild.py:133-145 | Starting succeeds iff the checkout can be named and entered, the old revision is read, and, with network access, the update command can be formed. A started task records that old revision and has a child exactly when the network is on. A naming failure or a failing chdir is the error raised |
| Scheduler.Finish | smart-live-rebuild.py:157-171 | A non-zero status is a failure. On status 0 a failing revision query is the error raised. Once `revcmp(oldrev, newrev)` has an answer, the result is its negation, unless the diffstat lookup of a changed git checkout raises |
| Scheduler.Poll | smart-live-rebuild.py:147-155 | Polling gives nothing iff a child is still running. A task without a child finishes as exit status 0, and one whose child exited finishes with that child's status |
| Scheduler.ChildlessIgnoresStatus | smart-live-rebuild.py:147-151 | Without a child, waiting and polling agree and ignore the exit status: only the revision query decides |
| Scheduler.RetireFate | smart-live-rebuild.py:556-567 | Retiring appends one record. The rebuild list grows by the task's packages exactly when it changed, and the erraneous list exactly when its update raised. Nothing else changes |
| Scheduler.FirstDone | smart-live-rebuild.py:549-553 | The first in-flight task whose poll completes is retired, and every task before it was still running |
| Scheduler.Collect | smart-live-rebuild.py:550-554 | Nothing is retired iff every in-flight poll says the task is still running. Otherwise the first finished task is removed from the in-flight list and retired with its outcome. The queue and the started list stay as they are |
| Scheduler.Halt | smart-live-rebuild.py:558-562 | An interrupt aborts the popped task and every in-flight task and leaves the loop. It keeps the results gathered so far |
| Scheduler.Run | smart-live-rebuild.py:532-567 | Iterating only appends to the retired and started lists, and a loop that has left stays as it is |
| Scheduler.Step | smart-live-rebuild.py:532-567 | One iteration retires at most one task and starts the head of the queue or none. An uninterrupted start always pops the head, and an empty loop finishes. It keeps the in-flight bound and keeps nothing in flight with one job. It finishes only when the queue and the in-flight list are empty, an interrupt before the iteration always halts, and a halt keeps the results |
| Scheduler.InitInv | smart-live-rebuild.py:528-531 | The loop's invariant holds on entry |
| Scheduler.RetireKeeps | smart-live-rebuild.py:555-566 | Retiring adds the task's packages to the rebuild list when it changed, to the erraneous list when it failed, and to neither when unchanged |
| Scheduler.HaltKeeps | smart-live-rebuild.py:558-562 | Aborting keeps the invariant: every started task stays retired or aborted exactly once |
| Scheduler.RemoveTasks | smart-live-rebuild.py:551-552 | Removing a finished task from the in-flight list removes exactly that task |
| Scheduler.CollectKeeps | smart-live-rebuild.py:549-556 | The poll scan keeps the invariant |
| Scheduler.StartKeeps | smart-live-rebuild.py:534-541 | Starting the head of the queue keeps the invariant whether the task fails to start, is awaited, is added to the in-flight list or is aborted |
| Scheduler.StepKeeps | smart-live-rebuild.py:532-567 | Every iteration keeps these: the in-flight count stays at most `jobs`, tasks start in FIFO order, and every started task is retired, in flight or aborted exactly once. The result lists stay the retired tasks' packages |
| Scheduler.RunKeeps | smart-live-rebuild.py:532-567 | The invariant holds after any number of iterations |
| Scheduler.FinishedRun | smart-live-rebuild.py:532-567 | A normally ended loop started every task in order and retired each exactly once. The rebuild list holds the changed tasks' packages, and the failures are appended after the enumeration failures |
| Scheduler.InterruptedRun | smart-live-rebuild.py:558-562 | After an interrupt nothing is in flight, every started task is retired or aborted, and the results gathered so far are kept |
| Scheduler.HaltEmpties | smart-live-rebuild.py:560-562 | Aborting empties the in-flight list |
| Scheduler.SingleJobAwaits | smart-live-rebuild.py:537-539 | With one job the started task is awaited and retired in the same iteration |
| Scheduler.SingleJobOutcome | smart-live-rebuild.py:534-567 | With one job, an uninterrupted iteration pops the head and retires it. A start that raises, or a non-zero exit status, lists its packages as erraneous. A new revision queues them for the rebuild, and an unchanged one adds nothing |
| Scheduler.ParallelStart | smart-live-rebuild.py:534-554 | With several jobs, an uninterrupted successful start appends the task to the in-flight list before polling. Nothing more happens iff every poll reports a running child. Otherwise exactly the first finished task, possibly the new one, is removed and retired |
| Scheduler.StartInterruptContinues | smart-live-rebuild.py:133-174 | As written, an interrupt before the subprocess attribute is assigned lists the task as erraneous with AttributeError, and the loop goes on with the rest of the queue |
| Scheduler.StepIntended | smart-live-rebuild.py:541-562 | With the intended abort, an interrupt while a task starts always leaves the loop. It aborts that task, empties the in-flight list and keeps the results. Otherwise it is the iteration as written |
| Scheduler.StepIntendedKeeps | smart-live-rebuild.py:532-567 | The intended iteration keeps the loop invariant |
| Policies.Normalize | smart-live-rebuild.py:434-445 | Status 1 iff `--local-rev` goes with `--no-network` or jobs is not positive. setuid survives iff userpriv is set. Jobs drop to 1 only without network, and nothing else changes |
| Policies.NormalizeIdempotent | smart-live-rebuild.py:434-445 | Normalised options pass the checks unchanged |
| Policies.Privileges | smart-live-rebuild.py:447-479 | The run is refused iff it is neither root, nor the portage user under setuid, nor explicitly unprivileged. Root drops privileges in process iff pretend without quickpkg, and forks otherwise. Pretend is forced for the portage user |
| Policies.PrivilegeSafety | smart-live-rebuild.py:449-479 | Only root changes user, and a non-root run not explicitly allowed is the portage user's and pretends |
| Policies.KnownNames | smart-live-rebuild.py:286 | The accepted type names are git, mercurial and subversion |
| Policies.KeepKnown | smart-live-rebuild.py:389-392 | Unknown names are removed and known ones kept |
| Policies.ConfigTypes | smart-live-rebuild.py:384-392 | The configured list is the comma-separated known names, and an empty value imposes no restriction |
| Policies.TypeSelection | smart-live-rebuild.py:384-489 | With `-t` options exactly the backends named there are used. Otherwise those the configured list names are used, or every backend when it names none |
| Policies.Selected | smart-live-rebuild.py:486-489 | A backend is selected iff no type is given or its name is listed, in the fixed backend order |
| Policies.Filter | smart-live-rebuild.py:487 | Filtering keeps exactly the listed backends and preserves their order |
| Policies.UnknownTypesSelectAll | smart-live-rebuild.py:389-399 | A configured list with no known name selects every backend |
| Policies.KeepKnownNone | smart-live-rebuild.py:389-392 | Removing every unknown name from a list that has no known one leaves it empty |
| Policies.PrefixedRoundTrip | smart-live-rebuild.py:616 | Stripping the prefix gives the packages back |
| Policies.Assemble | smart-live-rebuild.py:587-618 | quickpkg runs iff requested and there is something to rebuild, with `=p` atoms. Otherwise nothing is done, the `>=p` list is printed under pretend, or emerge gets `--oneshot`, the extra arguments and the `>=p` atoms |
| Policies.OfflineSwitchedOff | smart-live-rebuild.py:606-613 | ESCM_OFFLINE is exported iff offline is requested and no failures are merged |
| Policies.EmergeTargets | smart-live-rebuild.py:587-616 | The emerge argument list reads back as its head, the user's arguments, and the `>=` atoms of the changed packages, followed by the failed ones when failures are merged |
| Session.Admit | smart-live-rebuild.py:434-479 | A run goes on iff the options pass the checks and privileges are granted. It goes on with the normalised options, the pretend setting forced by the privilege decision, and at least one job |
| Session.Execute | smart-live-rebuild.py:434-618 | Status 1 iff the checks refuse. A plan is produced iff the checks pass and the update loop has left |
| Session.AssembledPlan | smart-live-rebuild.py:587-618 | The final plan hands quickpkg, the printed list or emerge the changed packages, followed by the failed ones when failures are merged |
| Session.CompletedRun | smart-live-rebuild.py:499-618 | A normal run updates every found repository exactly once. Its plan gives quickpkg, the printed list or emerge the atoms of the changed packages, followed, when failures are merged, by the enumeration failures and the update failures. Nothing is done when that list is empty |
| Session.InterruptedRunKeepsResults | smart-live-rebuild.py:558-618 | An interrupted run keeps the results of the tasks retired before the interrupt, and every other started task is aborted. Its plan rebuilds exactly the packages of the changed tasks, plus the failures when they are merged |

## Findings

| source | as written | input that shows it | evidently intended | confidence | as-written member | corrected member |
|---|---|---|---|---|---|---|
| smart-live-rebuild.py:133-174 | `__init__` never assigns `self.subprocess`. An interrupt during `startupdate` before line 141/143 makes `abortupdate` raise AttributeError. That exception is caught by `except Exception`, so the task is listed as erraneous and the loop goes on | jobs 1, queue [A, B], Ctrl-C while A's revision query runs: A is erraneous and B is still updated | abort the task and leave the loop, as for an interrupt after the subprocess exists | high, not executed | Scheduler.StartInterruptContinues | Scheduler.StepIntended |

The update loop (`Scheduler.Step`, `Scheduler.Run` and the `Session` lemmas) follows the code as written. `Scheduler.StepIntended` is the iteration with the intended abort, and `Scheduler.StepIntendedKeeps` proves it keeps the same loop invariant.

## Left out

- Running bash, git, hg, svn, quickpkg and emerge is not modelled. A command is a string or argument list. What it prints, or whether it raises, is an input (`Reply`, `StartReply`, `Answer`, `Tick`).
- Temporary files, bz2 reading and the portage database are not modelled. The package list, each package's INHERITED list and the shell output per backend are inputs (`Package`, `Outputs`). An unreadable environment file is an `OSError`.
- The distfiles directory settings are the input `Distdirs`.
- `time.sleep`, real `poll`/`wait`/`terminate` and signal delivery are not modelled. An interrupt can arrive at the start of an iteration. It can also arrive while the popped task starts, before or after its `subprocess` attribute is assigned; with one job, "after" includes the blocking wait. An interrupt during the sleep or the poll scan has the same effect as one at the start of the next iteration. An interrupt between removing a finished task and recording its result is not modelled.
- The privilege handoff is not modelled: `setuid`, the fork, the pickled pipe, SIGINT masking and the orphan kill. The fork only appears as a `Mode`, and the parent is assumed to receive the child's lists unchanged. A child that dies early makes the parent return 1, which is not modelled.
- ConfigParser reading, profile chaining and `getboolean`/`getint` parsing are left out, because they depend on library semantics. The options are inputs, and only the `type` value's splitting is modelled.
- psutil-based detection of a parent emerge process is left out as process introspection. The resulting `pretend` is an input.
- A keyboard interrupt during enumeration is re-raised and ends the program, which is not modelled.
- Colour handling and all console messages are left out.
- The diffstat commands are best-effort side effects and are not modelled. Only the git variable lookup they perform is kept, because a missing variable raises.
- Scheduler.Finish: the second `str(self)` on the parallel path is not modelled. It cannot fail once `StartUpdate` has succeeded on the same environment.
- Backends.LastChangedRev: `\d` is taken as the ASCII digits. Python 3 also accepts other Unicode decimal digits.
- Text.Split: the separator is a single character, the only way the program uses it.
- The update loop takes the repositories in the order enumeration created them. `rebuilds.items()` guarantees that insertion order only from Python 3.7 on.
- The `jobs` of the loop are taken as the normalised option, at least 1. `Scheduler.Step` stays total for other values, but the invariant lemmas assume it.
