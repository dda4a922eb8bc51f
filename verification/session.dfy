/** One run of the program, stage after stage as `main` performs them:
    option checks, privilege checks, backend selection, enumeration, the
    update loop and the final plan. */
module Session {
  import opened Outcomes
  import opened Backends
  import opened Grouping
  import opened Scheduler
  import opened Policies

  /** Everything besides the options that one run depends on: whether
      FEATURES has userpriv, who runs it, the distfiles directories, the
      installed packages, the configured `type` value and the loop's oracle. */
  datatype World = World(
    userpriv: bool,
    id: Identity,
    distdirs: Distdirs,
    installed: seq<Package>,
    configTypes: string,
    ticks: seq<Tick>)

  /** How a run ends: status 1 from the checks, an update loop the oracle
      stopped answering before it left, or the final plan. */
  datatype Ending = StatusOne | Unfinished | Completed(plan: Plan)

  /** The options the run goes on with, or None when it ends with status 1. */
  function Admit(o: Options, w: World): (r: Option<Options>)
    ensures r.Some? ==> r.value.jobs >= 1
    ensures r.Some? <==> Normalize(o, w.userpriv).Some? && Privileges(Normalize(o, w.userpriv).value, w.id).Granted?
    ensures r.Some? ==> var opts := Normalize(o, w.userpriv).value;
                        r.value == opts.(pretend := Privileges(opts, w.id).pretend)
  {
    match Normalize(o, w.userpriv)
    case None => None
    case Some(opts) =>
      match Privileges(opts, w.id)
      case Refused => None
      case Granted(_, pretend, _) => Some(opts.(pretend := pretend))
  }

  function Found(opts: Options, w: World): Census {
    Enumerate(Settings(opts.network, w.distdirs), Selected(EffectiveTypes(opts.types, w.configTypes)), w.installed)
  }

  function LoopConfig(opts: Options): Config {
    Config(opts.jobs, opts.network, opts.localRev)
  }

  function Updated(opts: Options, w: World): State {
    var found := Found(opts, w);
    Run(LoopConfig(opts), Init(found.tasks, found.erraneous), w.ticks)
  }

  function Execute(o: Options, args: seq<string>, w: World): (e: Ending)
    ensures e.Completed? <==> Admit(o, w).Some? && Updated(Admit(o, w).value, w).phase != Looping
    ensures Admit(o, w).None? <==> e == StatusOne
  {
    match Admit(o, w)
    case None => StatusOne
    case Some(opts) =>
      var final := Updated(opts, w);
      if final.phase == Looping then Unfinished
      else Completed(Assemble(opts, args, final.packages, final.erraneous))
  }

  /** The plan a run ends with, for the packages it rebuilds: quickpkg and
      emerge or the printed list get the `=` and `>=` atoms of exactly those
      packages, in order, and nothing is done when there are none. */
  predicate PlanFor(plan: Plan, o: Options, args: seq<string>, rebuild: seq<string>) {
    && (plan.quickpkg.Some? <==> o.quickpkg && rebuild != [])
    && (plan.quickpkg.Some? ==> plan.quickpkg.value == QuickpkgHead + Prefixed("=", rebuild))
    && (plan.action == NothingToDo <==> rebuild == [])
    && (plan.action.PrintList? <==> rebuild != [] && o.pretend)
    && (plan.action.PrintList? ==> plan.action.atoms == Prefixed(">=", rebuild))
    && (plan.action.Emerge? ==> plan.action.argv == EmergeHead + args + Prefixed(">=", rebuild))
  }

  /** The final plan is the plan for the merged packages. */
  lemma AssembledPlan(o: Options, args: seq<string>, packages: seq<string>, erraneous: seq<string>)
    ensures PlanFor(Assemble(o, args, packages, erraneous), o, args,
                    packages + (if o.erraneousMerge then erraneous else []))
  {
  }

  /** A run whose loop left normally updated every repository found exactly
      once, and emerge is handed the changed repositories' packages, then,
      when failures are merged, the packages whose enumeration failed and
      those of the repositories whose update failed. */
  lemma CompletedRun(o: Options, args: seq<string>, w: World)
    requires Execute(o, args, w).Completed?
    requires Updated(Admit(o, w).value, w).phase == Finished
    ensures var opts := Admit(o, w).value;
            var found := Found(opts, w);
            var final := Updated(opts, w);
            var rebuild := ChangedCpvs(final.retired)
                           + (if opts.erraneousMerge then found.erraneous + FailedCpvs(final.retired) else []);
            && multiset(RetiredTasks(final.retired)) == multiset(found.tasks)
            && Execute(o, args, w) == Completed(Assemble(opts, args, final.packages, final.erraneous))
            && PlanFor(Execute(o, args, w).plan, opts, args, rebuild)
  {
    var opts := Admit(o, w).value;
    var found := Found(opts, w);
    var final := Updated(opts, w);
    FinishedRun(LoopConfig(opts), found.tasks, found.erraneous, w.ticks);
    AssembledPlan(opts, args, final.packages, final.erraneous);
  }

  /** An interrupted run still rebuilds what it found changed before the
      interrupt; aborted repositories contribute nothing. */
  lemma InterruptedRunKeepsResults(o: Options, args: seq<string>, w: World)
    requires Execute(o, args, w).Completed?
    requires Updated(Admit(o, w).value, w).phase == Interrupted
    ensures var opts := Admit(o, w).value;
            var found := Found(opts, w);
            var final := Updated(opts, w);
            && final.packages == ChangedCpvs(final.retired)
            && final.erraneous == found.erraneous + FailedCpvs(final.retired)
            && multiset(final.started) == multiset(RetiredTasks(final.retired)) + multiset(final.aborted)
            && Execute(o, args, w) == Completed(Assemble(opts, args, final.packages, final.erraneous))
            && PlanFor(Execute(o, args, w).plan, opts, args,
                       ChangedCpvs(final.retired)
                       + (if opts.erraneousMerge then found.erraneous + FailedCpvs(final.retired) else []))
  {
    var opts := Admit(o, w).value;
    var found := Found(opts, w);
    var final := Updated(opts, w);
    InterruptedRun(LoopConfig(opts), found.tasks, found.erraneous, w.ticks);
    AssembledPlan(opts, args, final.packages, final.erraneous);
  }
}
