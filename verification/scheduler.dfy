/** The update loop: a FIFO queue of repository tasks, at most `jobs` of
    them in flight, one iteration of `while True` per `Step`.  Child
    processes, the clock and the keyboard are an oracle: each iteration gets a
    `Tick` saying whether an interrupt arrives, how starting the next task
    goes, and what polling each in-flight task observes. */
module Scheduler {
  import opened Outcomes
  import opened Env
  import opened Backends
  import opened Grouping

  /** The options the loop reads. */
  datatype Config = Config(jobs: int, network: bool, localRev: bool)

  /** A task whose update was started: the revision it started from and
      whether an update child process is running for it. */
  datatype Started = Started(task: Task, oldRev: Option<string>, child: bool)

  /** How a finished task came out. */
  datatype Fate = Changed | Unchanged | Failed(error: Error)

  datatype Retired = Retired(task: Task, fate: Fate)

  datatype Phase = Looping | Finished | Interrupted

  /** The loop's variables: `items`, `processes`, `packages`, `erraneous`,
      plus the record of which tasks were started, retired and aborted. */
  datatype State = State(
    queue: seq<Task>,
    inFlight: seq<Started>,
    started: seq<Task>,
    retired: seq<Retired>,
    aborted: seq<Task>,
    packages: seq<string>,
    erraneous: seq<string>,
    phase: Phase)

  /** What waiting for or polling one task observes: whether its child has
      exited, its exit status, and what the revision query prints afterwards. */
  datatype Answer = Answer(exited: bool, status: int, newRev: Reply)

  /** What starting a task observes: whether changing into the checkout or
      spawning the child raises, and what the revision query prints. */
  datatype StartReply = StartReply(raises: bool, liveRev: Reply)

  /** Where a keyboard interrupt lands in the iteration, if anywhere: before
      it does anything; while the popped task is being started but before
      its `subprocess` attribute is assigned; or after that assignment (with
      one job, this includes the blocking wait). */
  datatype Interrupt = NoInterrupt | BeforeIteration | BeforeSubprocessSet | AfterSubprocessSet

  /** The oracle's answers for one iteration; `polls[i]` answers the i-th
      in-flight task.  A task beyond the answers has a child that has not
      exited; a childless one is complete regardless, and its revision query
      raises. */
  datatype Tick = Tick(interrupt: Interrupt, start: StartReply, wait: Answer, polls: seq<Answer>)

  function AnswerAt(polls: seq<Answer>, i: nat): Answer {
    if i < |polls| then polls[i] else Answer(false, 0, Raised)
  }

  /** The old revision is the saved one unless `--local-rev` is given or
      nothing was saved. */
  predicate UsesSavedRevision(localRev: bool, saved: Option<string>) {
    !localRev && Truthy(saved)
  }

  /** `(not local_rev and getsavedrev()) or getrev()`: the revision query
      runs only when the saved revision is not used. */
  function OldRevision(cfg: Config, t: Task, live: Reply): (r: Result<Option<string>>)
    ensures cfg.localRev ==> r == CurrentRevision(t.vcs, t.env, live)
    ensures !cfg.localRev && SavedRevision(t.vcs, t.env).Ok? ==>
              r == if UsesSavedRevision(false, SavedRevision(t.vcs, t.env).value)
                   then SavedRevision(t.vcs, t.env)
                   else CurrentRevision(t.vcs, t.env, live)
    ensures !cfg.localRev && SavedRevision(t.vcs, t.env).Err? ==> r == Err(KeyError)
  {
    var saved :- if cfg.localRev then Ok(None) else SavedRevision(t.vcs, t.env);
    if UsesSavedRevision(cfg.localRev, saved) then Ok(saved)
    else CurrentRevision(t.vcs, t.env, live)
  }

  /** `startupdate()`: name the checkout (which raises TypeError when the
      name falls back to the package list), enter it, record the old
      revision and, with network access, spawn the update command. */
  function StartUpdate(cfg: Config, t: Task, reply: StartReply): (r: Result<Started>)
    ensures r.Ok? <==> && Display(t.vcs, t.env).Ok? && !reply.raises
                       && OldRevision(cfg, t, reply.liveRev).Ok?
                       && (cfg.network ==> UpdateCommand(t.vcs, t.env).Ok?)
    ensures r.Ok? ==> r.value == Started(t, OldRevision(cfg, t, reply.liveRev).value, cfg.network)
    ensures Display(t.vcs, t.env).Err? ==> r == Err(Display(t.vcs, t.env).error)
    ensures Display(t.vcs, t.env).Ok? && reply.raises ==> r == Err(OSError)
  {
    var _ :- Display(t.vcs, t.env);
    if reply.raises then Err(OSError)
    else
      var oldRev :- OldRevision(cfg, t, reply.liveRev);
      if cfg.network then
        var _ :- UpdateCommand(t.vcs, t.env);
        Ok(Started(t, oldRev, true))
      else Ok(Started(t, oldRev, false))
  }

  /** `endupdate()` once the exit status is known: a non-zero status raises,
      otherwise the task changed exactly when `revcmp` says the new revision
      is not the old one. */
  function Finish(st: Started, status: int, newRev: Reply): (r: Result<bool>)
    ensures status != 0 ==> r == Err(UpdateFailed)
    ensures r.Ok? ==> status == 0
    ensures r.Ok? ==> var rev := CurrentRevision(st.task.vcs, st.task.env, newRev);
                      rev.Ok? && SameRevision(st.task.vcs, st.oldRev, rev.value) == Ok(!r.value)
    ensures status == 0 && CurrentRevision(st.task.vcs, st.task.env, newRev).Err? ==>
              r == Err(CurrentRevision(st.task.vcs, st.task.env, newRev).error)
    ensures var rev := CurrentRevision(st.task.vcs, st.task.env, newRev);
            status == 0 && rev.Ok? && SameRevision(st.task.vcs, st.oldRev, rev.value).Ok? ==>
              var same := SameRevision(st.task.vcs, st.oldRev, rev.value).value;
              r == if same || DiffstatLookup(st.task.vcs, st.task.env).Ok? then Ok(!same)
                   else Err(DiffstatLookup(st.task.vcs, st.task.env).error)
  {
    if status != 0 then Err(UpdateFailed)
    else
      var rev :- CurrentRevision(st.task.vcs, st.task.env, newRev);
      var same :- SameRevision(st.task.vcs, st.oldRev, rev);
      if same then Ok(false)
      else
        var _ :- DiffstatLookup(st.task.vcs, st.task.env);
        Ok(true)
  }

  /** Blocking `endupdate(True)`: a task without a child counts as exit status 0. */
  function Await(st: Started, a: Answer): Result<bool> {
    Finish(st, if st.child then a.status else 0, a.newRev)
  }

  /** Non-blocking `endupdate()`: None while the child is still running; a
      task without a child is complete at once. */
  function Poll(st: Started, a: Answer): (r: Option<Result<bool>>)
    ensures r.None? <==> st.child && !a.exited
    ensures !st.child ==> r == Some(Finish(st, 0, a.newRev))
    ensures st.child && a.exited ==> r == Some(Finish(st, a.status, a.newRev))
  {
    if st.child && !a.exited then None else Some(Await(st, a))
  }

  /** Without a child neither waiting nor polling looks at the exit status:
      only the revision query decides. */
  lemma ChildlessIgnoresStatus(st: Started, a: Answer, b: Answer)
    requires !st.child && a.newRev == b.newRev
    ensures Await(st, a) == Await(st, b)
    ensures Poll(st, a) == Poll(st, b) == Some(Await(st, a))
  {
  }

  function FateOf(r: Result<bool>): (f: Fate)
    ensures f == Changed <==> r == Ok(true)
    ensures f == Unchanged <==> r == Ok(false)
    ensures f.Failed? <==> r.Err?
  {
    match r
    case Ok(changed) => if changed then Changed else Unchanged
    case Err(e) => Failed(e)
  }

  /** The `for vcs in processes` scan: the first in-flight task, from
      position `i` on, whose poll reports completion, and its fate; every
      task before it was polled and is still running. */
  function FirstDone(inFlight: seq<Started>, polls: seq<Answer>, i: nat): (r: Option<(nat, Fate)>)
    requires i <= |inFlight|
    ensures r.Some? ==> i <= r.value.0 < |inFlight|
    ensures r.Some? ==> var j := r.value.0;
                        Poll(inFlight[j], AnswerAt(polls, j)).Some?
                        && r.value.1 == FateOf(Poll(inFlight[j], AnswerAt(polls, j)).value)
    ensures forall k :: i <= k < (if r.Some? then r.value.0 else |inFlight|) ==>
                          Poll(inFlight[k], AnswerAt(polls, k)).None?
    decreases |inFlight| - i
  {
    if i == |inFlight| then None
    else
      match Poll(inFlight[i], AnswerAt(polls, i))
      case Some(res) => Some((i, FateOf(res)))
      case None => FirstDone(inFlight, polls, i + 1)
  }

  function Remove<T>(xs: seq<T>, i: nat): (ys: seq<T>)
    requires i < |xs|
    ensures |ys| == |xs| - 1
  {
    xs[..i] + xs[i + 1..]
  }

  /** Record a task's fate: a changed task queues its packages for the
      rebuild, a failed one lists them as erraneous, an unchanged one adds
      nothing. */
  function Retire(s: State, t: Task, fate: Fate): State {
    s.(retired := s.retired + [Retired(t, fate)],
       packages := if fate == Changed then s.packages + t.cpvs else s.packages,
       erraneous := if fate.Failed? then s.erraneous + t.cpvs else s.erraneous)
  }

  /** Retiring a task with the outcome of its update: exactly one record is
      appended, the rebuild list grows by the task's packages exactly when
      the checkout changed, the failure list exactly when the update raised,
      and nothing else changes. */
  lemma RetireFate(s: State, t: Task, r: Result<bool>)
    ensures var s' := Retire(s, t, FateOf(r));
            && s'.retired == s.retired + [Retired(t, FateOf(r))]
            && s'.packages == (if r == Ok(true) then s.packages + t.cpvs else s.packages)
            && s'.erraneous == (if r.Err? then s.erraneous + t.cpvs else s.erraneous)
            && s'.(retired := s.retired, packages := s.packages, erraneous := s.erraneous) == s
  {
  }

  /** Poll the in-flight tasks in order and retire the first that finished. */
  function Collect(s: State, polls: seq<Answer>): (r: State)
    ensures r.retired == s.retired <==>
              forall k :: 0 <= k < |s.inFlight| ==> Poll(s.inFlight[k], AnswerAt(polls, k)).None?
    ensures r.retired == s.retired ==> r == s
    ensures r.retired != s.retired ==>
              exists j :: && 0 <= j < |s.inFlight|
                          && (forall k :: 0 <= k < j ==> Poll(s.inFlight[k], AnswerAt(polls, k)).None?)
                          && Poll(s.inFlight[j], AnswerAt(polls, j)).Some?
                          && r == Retire(s.(inFlight := Remove(s.inFlight, j)), s.inFlight[j].task,
                                         FateOf(Poll(s.inFlight[j], AnswerAt(polls, j)).value))
    ensures r.queue == s.queue && r.started == s.started && r.aborted == s.aborted && r.phase == s.phase
  {
    match FirstDone(s.inFlight, polls, 0)
    case None => s
    case Some((j, fate)) => Retire(s.(inFlight := Remove(s.inFlight, j)), s.inFlight[j].task, fate)
  }

  function Tasks(xs: seq<Started>): (ts: seq<Task>)
    ensures |ts| == |xs|
    ensures forall i :: 0 <= i < |xs| ==> ts[i] == xs[i].task
  {
    seq(|xs|, i requires 0 <= i < |xs| => xs[i].task)
  }

  /** KeyboardInterrupt: abort the given task and every in-flight one, keep
      the results gathered so far and leave the loop. */
  function Halt(s: State, extra: seq<Task>): (r: State)
    ensures r.inFlight == [] && r.phase == Interrupted
    ensures forall i :: 0 <= i < |s.inFlight| ==> s.inFlight[i].task in r.aborted
    ensures multiset(r.aborted) == multiset(extra) + multiset(Tasks(s.inFlight))
    ensures r.(aborted := s.aborted, inFlight := s.inFlight, phase := s.phase) == s
  {
    s.(aborted := extra + Tasks(s.inFlight), inFlight := [], phase := Interrupted)
  }

  /** One iteration of the loop. */
  function Step(cfg: Config, s: State, t: Tick): (s': State)
    ensures s.phase != Looping ==> s' == s
    ensures s'.retired == s.retired || (|s'.retired| == |s.retired| + 1 && s'.retired[..|s.retired|] == s.retired)
    ensures || (s'.started == s.started && s'.queue == s.queue)
            || (|s.queue| > 0 && s'.started == s.started + [s.queue[0]] && s'.queue == s.queue[1..])
    ensures |s.inFlight| <= cfg.jobs ==> |s'.inFlight| <= cfg.jobs
    ensures cfg.jobs == 1 && s.inFlight == [] ==> s'.inFlight == []
    ensures s.phase == Looping && s'.phase == Finished ==>
              (cfg.jobs >= 1 ==> s.queue == []) && s.inFlight == [] && t.interrupt != BeforeIteration
    ensures s.phase == Looping && s'.phase == Interrupted ==>
              s'.packages == s.packages && s'.erraneous == s.erraneous && s'.retired == s.retired
    ensures s.phase == Looping && t.interrupt != BeforeIteration && |s.inFlight| < cfg.jobs && |s.queue| > 0 ==>
              s'.started == s.started + [s.queue[0]] && s'.queue == s.queue[1..]
    ensures s.phase == Looping && t.interrupt != BeforeIteration && s.queue == [] && s.inFlight == [] ==>
              s'.phase == Finished
    ensures s.phase == Looping && t.interrupt == BeforeIteration ==> s'.phase == Interrupted
  {
    if s.phase != Looping then s
    else if t.interrupt == BeforeIteration then Halt(s, [])
    else if |s.inFlight| < cfg.jobs && |s.queue| > 0 then
      var task := s.queue[0];
      var popped := s.(queue := s.queue[1..], started := s.started + [task]);
      if t.interrupt == BeforeSubprocessSet then Retire(popped, task, Failed(AttributeError))
      else
        match StartUpdate(cfg, task, t.start)
        case Err(e) => Retire(popped, task, Failed(e))
        case Ok(st) =>
          if t.interrupt == AfterSubprocessSet then Halt(popped, [task])
          else if cfg.jobs == 1 then Retire(popped, task, FateOf(Await(st, t.wait)))
          else Collect(popped.(inFlight := popped.inFlight + [st]), t.polls)
    else if |s.inFlight| == 0 then s.(phase := Finished)
    else Collect(s, t.polls)
  }

  /** The loop driven by a sequence of ticks, one per iteration, until it
      leaves or the ticks run out. */
  function Run(cfg: Config, s: State, ticks: seq<Tick>): (r: State)
    ensures s.phase != Looping ==> r == s
    ensures |r.retired| >= |s.retired| && r.retired[..|s.retired|] == s.retired
    ensures |r.started| >= |s.started| && r.started[..|s.started|] == s.started
    decreases |ticks|
  {
    if |ticks| == 0 || s.phase != Looping then s
    else
      var next := Step(cfg, s, ticks[0]);
      var r := Run(cfg, next, ticks[1..]);
      assert r.retired[..|s.retired|] == r.retired[..|next.retired|][..|s.retired|];
      assert r.started[..|s.started|] == r.started[..|next.started|][..|s.started|];
      r
  }

  /** The loop's entry state: all tasks queued, the enumeration failures
      already listed. */
  function Init(work: seq<Task>, found: seq<string>): State {
    State(work, [], [], [], [], [], found, Looping)
  }

  function RetiredTasks(rs: seq<Retired>): (ts: seq<Task>)
    ensures |ts| == |rs|
    ensures forall i :: 0 <= i < |rs| ==> ts[i] == rs[i].task
  {
    seq(|rs|, i requires 0 <= i < |rs| => rs[i].task)
  }

  /** The packages of the retired tasks that changed, in retirement order. */
  function ChangedCpvs(rs: seq<Retired>): seq<string> {
    if |rs| == 0 then []
    else ChangedCpvs(rs[..|rs| - 1]) + (if rs[|rs| - 1].fate == Changed then rs[|rs| - 1].task.cpvs else [])
  }

  /** The packages of the retired tasks that failed, in retirement order. */
  function FailedCpvs(rs: seq<Retired>): seq<string> {
    if |rs| == 0 then []
    else FailedCpvs(rs[..|rs| - 1]) + (if rs[|rs| - 1].fate.Failed? then rs[|rs| - 1].task.cpvs else [])
  }

  /** What the loop maintains: the in-flight bound (nothing in flight with a
      single job), FIFO start order, every started task accounted for exactly
      once (retired, in flight or aborted), and the result lists made of the
      retired tasks' packages. */
  ghost predicate Inv(cfg: Config, work: seq<Task>, found: seq<string>, s: State) {
    && cfg.jobs >= 1
    && |s.inFlight| <= cfg.jobs
    && (cfg.jobs == 1 ==> s.inFlight == [])
    && s.started + s.queue == work
    && multiset(s.started) == multiset(RetiredTasks(s.retired)) + multiset(Tasks(s.inFlight)) + multiset(s.aborted)
    && s.packages == ChangedCpvs(s.retired)
    && s.erraneous == found + FailedCpvs(s.retired)
    && (s.phase != Interrupted ==> s.aborted == [])
    && (s.phase == Finished ==> s.queue == [] && s.inFlight == [])
  }

  lemma InitInv(cfg: Config, work: seq<Task>, found: seq<string>)
    requires cfg.jobs >= 1
    ensures Inv(cfg, work, found, Init(work, found))
  {
  }

  lemma RetireKeeps(s: State, t: Task, fate: Fate, found: seq<string>)
    requires s.packages == ChangedCpvs(s.retired)
    requires s.erraneous == found + FailedCpvs(s.retired)
    ensures Retire(s, t, fate).packages == ChangedCpvs(Retire(s, t, fate).retired)
    ensures Retire(s, t, fate).erraneous == found + FailedCpvs(Retire(s, t, fate).retired)
    ensures RetiredTasks(Retire(s, t, fate).retired) == RetiredTasks(s.retired) + [t]
  {
    var rs := s.retired + [Retired(t, fate)];
    assert rs[..|rs| - 1] == s.retired;
  }

  lemma RemoveTasks(xs: seq<Started>, j: nat)
    requires j < |xs|
    ensures multiset(Tasks(xs)) == multiset(Tasks(Remove(xs, j))) + multiset{xs[j].task}
  {
    var ts := Tasks(xs);
    assert ts == ts[..j] + [ts[j]] + ts[j + 1..];
    assert Tasks(Remove(xs, j)) == ts[..j] + ts[j + 1..];
  }

  lemma CollectKeeps(cfg: Config, work: seq<Task>, found: seq<string>, s: State, polls: seq<Answer>)
    requires Inv(cfg, work, found, s)
    requires s.phase == Looping
    ensures Inv(cfg, work, found, Collect(s, polls))
  {
    match FirstDone(s.inFlight, polls, 0)
    case None =>
    case Some((j, fate)) =>
      var rest := s.(inFlight := Remove(s.inFlight, j));
      RetireKeeps(rest, s.inFlight[j].task, fate, found);
      RemoveTasks(s.inFlight, j);
  }

  /** Aborting keeps the invariant when the extra tasks were started but
      are neither retired nor in flight. */
  lemma HaltKeeps(cfg: Config, work: seq<Task>, found: seq<string>, s: State, extra: seq<Task>)
    requires cfg.jobs >= 1
    requires s.started + s.queue == work
    requires multiset(s.started) == multiset(RetiredTasks(s.retired)) + multiset(Tasks(s.inFlight)) + multiset(extra)
    requires s.packages == ChangedCpvs(s.retired)
    requires s.erraneous == found + FailedCpvs(s.retired)
    ensures Inv(cfg, work, found, Halt(s, extra))
  {
  }

  /** Starting the head of the queue keeps the loop invariant, whatever
      becomes of the started task. */
  lemma StartKeeps(cfg: Config, work: seq<Task>, found: seq<string>, s: State, t: Tick)
    requires Inv(cfg, work, found, s)
    requires s.phase == Looping && t.interrupt != BeforeIteration
    requires |s.inFlight| < cfg.jobs && |s.queue| > 0
    ensures Inv(cfg, work, found, Step(cfg, s, t))
  {
    var task := s.queue[0];
    var popped := s.(queue := s.queue[1..], started := s.started + [task]);
    assert popped.started + popped.queue == work by {
      assert s.queue == [task] + s.queue[1..];
    }
    if t.interrupt == BeforeSubprocessSet || StartUpdate(cfg, task, t.start).Err? {
      var e := if t.interrupt == BeforeSubprocessSet then AttributeError else StartUpdate(cfg, task, t.start).error;
      assert Step(cfg, s, t) == Retire(popped, task, Failed(e));
      RetireKeeps(popped, task, Failed(e), found);
    } else {
      StartedKeeps(cfg, work, found, s, t, popped, StartUpdate(cfg, task, t.start).value);
    }
  }

  /** The part of `StartKeeps` where the task was started. */
  lemma StartedKeeps(cfg: Config, work: seq<Task>, found: seq<string>, s: State, t: Tick, popped: State, st: Started)
    requires Inv(cfg, work, found, s)
    requires s.phase == Looping && t.interrupt != BeforeIteration && t.interrupt != BeforeSubprocessSet
    requires |s.inFlight| < cfg.jobs && |s.queue| > 0
    requires popped == s.(queue := s.queue[1..], started := s.started + [s.queue[0]])
    requires popped.started + popped.queue == work
    requires StartUpdate(cfg, s.queue[0], t.start) == Ok(st)
    ensures Inv(cfg, work, found, Step(cfg, s, t))
  {
    var task := s.queue[0];
    if t.interrupt == AfterSubprocessSet {
      assert Step(cfg, s, t) == Halt(popped, [task]);
      HaltKeeps(cfg, work, found, popped, [task]);
    } else if cfg.jobs == 1 {
      assert Step(cfg, s, t) == Retire(popped, task, FateOf(Await(st, t.wait)));
      RetireKeeps(popped, task, FateOf(Await(st, t.wait)), found);
    } else {
      var pushed := popped.(inFlight := popped.inFlight + [st]);
      assert Step(cfg, s, t) == Collect(pushed, t.polls);
      assert Tasks(pushed.inFlight) == Tasks(s.inFlight) + [task];
      CollectKeeps(cfg, work, found, pushed, t.polls);
    }
  }

  /** Every iteration keeps the loop invariant. */
  lemma StepKeeps(cfg: Config, work: seq<Task>, found: seq<string>, s: State, t: Tick)
    requires Inv(cfg, work, found, s)
    ensures Inv(cfg, work, found, Step(cfg, s, t))
  {
    if s.phase == Looping && t.interrupt != BeforeIteration {
      if |s.inFlight| < cfg.jobs && |s.queue| > 0 {
        StartKeeps(cfg, work, found, s, t);
      } else if |s.inFlight| > 0 {
        CollectKeeps(cfg, work, found, s, t.polls);
      }
    }
  }

  /** The invariant holds after any number of iterations. */
  lemma {:induction false} RunKeeps(cfg: Config, work: seq<Task>, found: seq<string>, s: State, ticks: seq<Tick>)
    requires Inv(cfg, work, found, s)
    ensures Inv(cfg, work, found, Run(cfg, s, ticks))
    decreases |ticks|
  {
    if |ticks| > 0 && s.phase == Looping {
      StepKeeps(cfg, work, found, s, ticks[0]);
      RunKeeps(cfg, work, found, Step(cfg, s, ticks[0]), ticks[1..]);
    }
  }

  /** When the loop leaves normally every task was started in queue order
      and retired exactly once; the rebuild list holds the packages of the
      changed tasks and the failure list those of the failed ones. */
  lemma {:induction false} FinishedRun(cfg: Config, work: seq<Task>, found: seq<string>, ticks: seq<Tick>)
    requires cfg.jobs >= 1
    requires Run(cfg, Init(work, found), ticks).phase == Finished
    ensures var s := Run(cfg, Init(work, found), ticks);
            && s.started == work
            && multiset(RetiredTasks(s.retired)) == multiset(work)
            && s.packages == ChangedCpvs(s.retired)
            && s.erraneous == found + FailedCpvs(s.retired)
  {
    InitInv(cfg, work, found);
    RunKeeps(cfg, work, found, Init(work, found), ticks);
    var s := Run(cfg, Init(work, found), ticks);
    assert s.started + [] == s.started;
  }

  /** After an interrupt nothing is lost or invented: the results are those
      of the tasks retired before it, and every other started task was
      aborted. */
  lemma {:induction false} InterruptedRun(cfg: Config, work: seq<Task>, found: seq<string>, ticks: seq<Tick>)
    requires cfg.jobs >= 1
    requires Run(cfg, Init(work, found), ticks).phase == Interrupted
    ensures var s := Run(cfg, Init(work, found), ticks);
            && s.started + s.queue == work
            && s.inFlight == []
            && multiset(s.started) == multiset(RetiredTasks(s.retired)) + multiset(s.aborted)
            && s.packages == ChangedCpvs(s.retired)
            && s.erraneous == found + FailedCpvs(s.retired)
  {
    InitInv(cfg, work, found);
    RunKeeps(cfg, work, found, Init(work, found), ticks);
    HaltEmpties(cfg, Init(work, found), ticks);
  }

  lemma {:induction false} HaltEmpties(cfg: Config, s: State, ticks: seq<Tick>)
    requires s.phase != Interrupted || s.inFlight == []
    ensures Run(cfg, s, ticks).phase == Interrupted ==> Run(cfg, s, ticks).inFlight == []
    decreases |ticks|
  {
    if |ticks| > 0 && s.phase == Looping {
      HaltEmpties(cfg, Step(cfg, s, ticks[0]), ticks[1..]);
    }
  }

  /** With a single job one uninterrupted iteration decides the head of the
      queue: a start that raises lists its packages as erraneous; otherwise
      the task is awaited, and a failing exit status lists them as
      erraneous, a new revision queues them for the rebuild, and an
      unchanged one leaves both lists alone. */
  lemma SingleJobOutcome(cfg: Config, s: State, t: Tick)
    requires cfg.jobs == 1 && s.inFlight == []
    requires s.phase == Looping && |s.queue| > 0 && t.interrupt == NoInterrupt
    ensures var head := s.queue[0];
            var s' := Step(cfg, s, t);
            && s'.queue == s.queue[1..] && s'.started == s.started + [head] && s'.inFlight == []
            && |s'.retired| == |s.retired| + 1 && s'.retired[..|s.retired|] == s.retired
            && s'.retired[|s.retired|].task == head
            && (StartUpdate(cfg, head, t.start).Err? ==>
                  && s'.retired[|s.retired|].fate == Failed(StartUpdate(cfg, head, t.start).error)
                  && s'.erraneous == s.erraneous + head.cpvs && s'.packages == s.packages)
    ensures var head := s.queue[0];
            var s' := Step(cfg, s, t);
            var status := if cfg.network then t.wait.status else 0;
            var rev := CurrentRevision(head.vcs, head.env, t.wait.newRev);
            StartUpdate(cfg, head, t.start).Ok? ==>
              var oldRev := StartUpdate(cfg, head, t.start).value.oldRev;
              && (status != 0 ==>
                    && s'.retired[|s.retired|].fate == Failed(UpdateFailed)
                    && s'.erraneous == s.erraneous + head.cpvs && s'.packages == s.packages)
              && (status == 0 && rev.Ok? && SameRevision(head.vcs, oldRev, rev.value) == Ok(false)
                  && DiffstatLookup(head.vcs, head.env).Ok? ==>
                    && s'.retired[|s.retired|].fate == Changed
                    && s'.packages == s.packages + head.cpvs && s'.erraneous == s.erraneous)
              && (status == 0 && rev.Ok? && SameRevision(head.vcs, oldRev, rev.value) == Ok(true) ==>
                    && s'.retired[|s.retired|].fate == Unchanged
                    && s'.packages == s.packages && s'.erraneous == s.erraneous)
  {
  }

  /** With several jobs an uninterrupted iteration that starts the head of
      the queue puts it in flight, after the tasks already there, and then
      polls: nothing more happens while every poll reports a running
      child, and otherwise exactly the first finished task, possibly the new
      one, leaves the in-flight list and is retired with its outcome. */
  lemma ParallelStart(cfg: Config, s: State, t: Tick)
    requires cfg.jobs > 1 && s.phase == Looping && t.interrupt == NoInterrupt
    requires |s.inFlight| < cfg.jobs && |s.queue| > 0
    requires StartUpdate(cfg, s.queue[0], t.start).Ok?
    ensures var s' := Step(cfg, s, t);
            s'.started == s.started + [s.queue[0]] && s'.queue == s.queue[1..] && s'.phase == Looping
    ensures var pushed := s.inFlight + [StartUpdate(cfg, s.queue[0], t.start).value];
            var s' := Step(cfg, s, t);
            && ((forall k :: 0 <= k < |pushed| ==> Poll(pushed[k], AnswerAt(t.polls, k)).None?) <==> s'.retired == s.retired)
            && (s'.retired == s.retired ==>
                  s'.inFlight == pushed && s'.packages == s.packages && s'.erraneous == s.erraneous)
            && (s'.retired != s.retired ==>
                  exists j :: && 0 <= j < |pushed| && Poll(pushed[j], AnswerAt(t.polls, j)).Some?
                              && s'.inFlight == Remove(pushed, j)
                              && s'.retired == s.retired + [Retired(pushed[j].task, FateOf(Poll(pushed[j], AnswerAt(t.polls, j)).value))])
  {
  }

  /** The intended reaction to an interrupt while a task starts: abort it
      and every in-flight task and leave the loop, keeping the results.  It
      differs from `Step` only for an interrupt before the task's
      subprocess is recorded. */
  function StepIntended(cfg: Config, s: State, t: Tick): (s': State)
    ensures s.phase == Looping && t.interrupt == BeforeSubprocessSet && |s.inFlight| < cfg.jobs && |s.queue| > 0 ==>
              && s'.phase == Interrupted && s'.inFlight == [] && s.queue[0] in s'.aborted
              && s'.retired == s.retired && s'.packages == s.packages && s'.erraneous == s.erraneous
    ensures t.interrupt != BeforeSubprocessSet ==> s' == Step(cfg, s, t)
  {
    if s.phase == Looping && t.interrupt == BeforeSubprocessSet && |s.inFlight| < cfg.jobs && |s.queue| > 0 then
      Halt(s.(queue := s.queue[1..], started := s.started + [s.queue[0]]), [s.queue[0]])
    else Step(cfg, s, t)
  }

  /** The intended iteration keeps the loop invariant too. */
  lemma StepIntendedKeeps(cfg: Config, work: seq<Task>, found: seq<string>, s: State, t: Tick)
    requires Inv(cfg, work, found, s)
    ensures Inv(cfg, work, found, StepIntended(cfg, s, t))
  {
    if s.phase == Looping && t.interrupt == BeforeSubprocessSet && |s.inFlight| < cfg.jobs && |s.queue| > 0 {
      var popped := s.(queue := s.queue[1..], started := s.started + [s.queue[0]]);
      assert s.queue == [s.queue[0]] + s.queue[1..];
      HaltKeeps(cfg, work, found, popped, [s.queue[0]]);
    } else {
      StepKeeps(cfg, work, found, s, t);
    }
  }

  /** As written, an interrupt before the task's subprocess is recorded
      makes `abortupdate` raise AttributeError in place of re-raising the
      interrupt: the task is listed as erraneous and the loop goes on with
      the rest of the queue, where the intended iteration leaves it. */
  lemma StartInterruptContinues(cfg: Config, s: State, t: Tick)
    requires s.phase == Looping && t.interrupt == BeforeSubprocessSet
    requires |s.inFlight| < cfg.jobs && |s.queue| > 0
    ensures var s' := Step(cfg, s, t);
            && s'.phase == Looping && s'.queue == s.queue[1..] && s'.inFlight == s.inFlight
            && s'.retired == s.retired + [Retired(s.queue[0], Failed(AttributeError))]
            && s'.erraneous == s.erraneous + s.queue[0].cpvs
    ensures StepIntended(cfg, s, t).phase == Interrupted
  {
  }

  /** With a single job every started task is awaited in the iteration
      that starts it. */
  lemma SingleJobAwaits(cfg: Config, s: State, t: Tick)
    requires cfg.jobs == 1 && s.inFlight == []
    requires s.phase == Looping && |s.queue| > 0 && t.interrupt == NoInterrupt
    ensures |Step(cfg, s, t).retired| == |s.retired| + 1
    ensures Step(cfg, s, t).retired[|s.retired|].task == s.queue[0]
    ensures Step(cfg, s, t).inFlight == []
  {
  }
}
