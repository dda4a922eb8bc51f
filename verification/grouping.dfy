/** Enumeration: every installed package is offered to every selected
    backend whose eclass it inherits; the accepted ones are grouped into one
    repository task per checkout path.  A package ends up grouped, silently
    skipped as not really live, or listed as erraneous. */
module Grouping {
  import opened Outcomes
  import opened Env
  import opened Backends

  /** One repository to update: the backend instance that first claimed the
      checkout, its path, and every package built from it in enumeration order. */
  datatype Task = Task(vcs: Vcs, env: Environment, path: string, cpvs: seq<string>)

  /** What reading a package's saved environment gave for each backend: the
      shell's output, or None when the environment file could not be read. */
  datatype Outputs = Outputs(git: Option<string>, hg: Option<string>, svn: Option<string>) {
    function For(v: Vcs): Option<string> {
      match v
      case Git => git
      case Hg => hg
      case Svn => svn
    }
  }

  /** An installed package as the package database describes it. */
  datatype Package = Package(cpv: string, inherited: seq<string>, shell: Outputs)

  /** The inputs enumeration depends on besides the packages. */
  datatype Settings = Settings(network: bool, distdirs: Distdirs)

  /** How one package came out of enumeration. */
  datatype Verdict = Clean | NotLive | Broken(error: Error)

  /** The tasks found so far, keyed by path in insertion order, and the
      packages whose enumeration raised. */
  datatype Census = Census(tasks: seq<Task>, erraneous: seq<string>)

  function Paths(tasks: seq<Task>): (ps: seq<string>)
    ensures |ps| == |tasks|
    ensures forall i :: 0 <= i < |tasks| ==> ps[i] == tasks[i].path
  {
    if |tasks| == 0 then [] else [tasks[0].path] + Paths(tasks[1..])
  }

  /** The dictionary invariant: at most one task per checkout path. */
  predicate PathsDistinct(tasks: seq<Task>) {
    forall i, j :: 0 <= i < j < |tasks| ==> tasks[i].path != tasks[j].path
  }

  function Find(tasks: seq<Task>, path: string): (i: int)
    ensures -1 <= i < |tasks|
    ensures 0 <= i ==> tasks[i].path == path
    ensures i < 0 ==> path !in Paths(tasks)
  {
    if |tasks| == 0 then -1
    else if tasks[|tasks| - 1].path == path then |tasks| - 1
    else
      var i := Find(tasks[..|tasks| - 1], path);
      assert Paths(tasks[..|tasks| - 1]) == Paths(tasks)[..|tasks| - 1];
      i
  }

  /** `rebuilds[dir] = vcs` for a new path, `rebuilds[dir].append(vcs)` for
      a known one; appending to a checkout of another backend raises
      ValueError and changes nothing. */
  function Enlist(tasks: seq<Task>, v: Vcs, env: Environment, path: string, cpv: string): (r: Result<seq<Task>>)
    requires PathsDistinct(tasks)
    ensures r.Err? <==> exists i :: 0 <= i < |tasks| && tasks[i].path == path && tasks[i].vcs != v
    ensures r.Err? ==> r.error == ValueError
    ensures r.Ok? ==> PathsDistinct(r.value)
  {
    var i := Find(tasks, path);
    if i < 0 then
      Ok(tasks + [Task(v, env, path, [cpv])])
    else if tasks[i].vcs != v then
      Err(ValueError)
    else
      Ok(tasks[i := tasks[i].(cpvs := tasks[i].cpvs + [cpv])])
  }

  /** A package at a path no task has yet opens a new task, after all
      existing ones. */
  lemma EnlistNewPath(tasks: seq<Task>, v: Vcs, env: Environment, path: string, cpv: string)
    requires PathsDistinct(tasks)
    requires path !in Paths(tasks)
    ensures Enlist(tasks, v, env, path, cpv) == Ok(tasks + [Task(v, env, path, [cpv])])
  {
  }

  /** A package at the path of an existing task joins that task after its
      earlier packages, leaving every other task as it was, provided both
      come from the same backend; otherwise it raises ValueError. */
  lemma EnlistKnownPath(tasks: seq<Task>, i: nat, v: Vcs, env: Environment, cpv: string)
    requires PathsDistinct(tasks)
    requires i < |tasks|
    ensures Enlist(tasks, v, env, tasks[i].path, cpv)
         == if tasks[i].vcs == v then Ok(tasks[i := tasks[i].(cpvs := tasks[i].cpvs + [cpv])])
            else Err(ValueError)
  {
  }

  /** One backend's attempt at a package: construct the instance, decide
      whether the package needs checking at all (always with network access,
      otherwise only when a saved revision exists), and group it by path. */
  function Claim(s: Settings, tasks: seq<Task>, p: Package, v: Vcs): (r: Result<seq<Task>>)
    requires PathsDistinct(tasks)
    ensures r.Ok? ==> PathsDistinct(r.value)
    ensures p.shell.For(v).None? ==> r == Err(OSError)
    ensures p.shell.For(v).Some? && Load(v, p.shell.For(v).value).Err? ==> r == Err(Load(v, p.shell.For(v).value).error)
    ensures p.shell.For(v).Some? && Load(v, p.shell.For(v).value).Ok? ==>
              var env := Load(v, p.shell.For(v).value).value;
              && (!s.network && SavedRevision(v, env).Err? ==> r == Err(SavedRevision(v, env).error))
              && (!s.network && SavedRevision(v, env).Ok? && !Truthy(SavedRevision(v, env).value) ==> r == Ok(tasks))
              && (s.network || (SavedRevision(v, env).Ok? && Truthy(SavedRevision(v, env).value)) ==>
                    && (CheckoutPath(v, env, s.distdirs).Err? ==> r == Err(CheckoutPath(v, env, s.distdirs).error))
                    && (CheckoutPath(v, env, s.distdirs).Ok? ==> r == Enlist(tasks, v, env, CheckoutPath(v, env, s.distdirs).value, p.cpv)))
  {
    var output :- if p.shell.For(v).Some? then Ok(p.shell.For(v).value) else Err(OSError);
    var env :- Load(v, output);
    var wanted :- if s.network then Ok(true)
                  else var saved :- SavedRevision(v, env); Ok(Truthy(saved));
    if !wanted then Ok(tasks)
    else
      var path :- CheckoutPath(v, env, s.distdirs);
      Enlist(tasks, v, env, path, p.cpv)
  }

  /** The loop over the selected backends for one package.  It stops at the
      first exception; groupings made by earlier backends are kept. */
  function Enroll(s: Settings, tasks: seq<Task>, p: Package, vs: seq<Vcs>): (r: (seq<Task>, Verdict))
    requires PathsDistinct(tasks)
    ensures PathsDistinct(r.0)
    decreases |vs|
  {
    if |vs| == 0 then (tasks, Clean)
    else if !Matches(vs[0], p.inherited) then Enroll(s, tasks, p, vs[1..])
    else
      match Claim(s, tasks, p, vs[0])
      case Ok(grown) => Enroll(s, grown, p, vs[1..])
      case Err(e) => (tasks, if e == NonLiveEbuild then NotLive else Broken(e))
  }

  /** Folding one package into the census; only a broken package is listed. */
  function Visit(s: Settings, vs: seq<Vcs>, c: Census, p: Package): (c': Census)
    requires PathsDistinct(c.tasks)
    ensures PathsDistinct(c'.tasks)
    ensures c'.erraneous == c.erraneous || c'.erraneous == c.erraneous + [p.cpv]
  {
    var (tasks, verdict) := Enroll(s, c.tasks, p, vs);
    Census(tasks, if verdict.Broken? then c.erraneous + [p.cpv] else c.erraneous)
  }

  /** Enumeration over the installed packages in database order. */
  function Enumerate(s: Settings, vs: seq<Vcs>, packages: seq<Package>): (c: Census)
    ensures PathsDistinct(c.tasks)
    ensures forall i :: 0 <= i < |c.erraneous| ==> exists j :: 0 <= j < |packages| && packages[j].cpv == c.erraneous[i]
    ensures |c.erraneous| <= |packages|
  {
    if |packages| == 0 then Census([], [])
    else
      var earlier := Enumerate(s, vs, packages[..|packages| - 1]);
      var c := Visit(s, vs, earlier, packages[|packages| - 1]);
      assert forall i :: 0 <= i < |earlier.erraneous| ==> c.erraneous[i] == earlier.erraneous[i];
      c
  }

  /** The names of the installed packages. */
  function Installed(packages: seq<Package>): (names: set<string>)
    ensures forall j :: 0 <= j < |packages| ==> packages[j].cpv in names
    ensures forall x :: x in names ==> exists j :: 0 <= j < |packages| && packages[j].cpv == x
  {
    set j | 0 <= j < |packages| :: packages[j].cpv
  }

  /** Every package a task holds is one of `known`. */
  predicate CpvsWithin(tasks: seq<Task>, known: set<string>) {
    forall i, k :: 0 <= i < |tasks| && 0 <= k < |tasks[i].cpvs| ==> tasks[i].cpvs[k] in known
  }

  /** Grouping adds only the given package to the tasks. */
  lemma EnlistWithin(tasks: seq<Task>, v: Vcs, env: Environment, path: string, cpv: string, known: set<string>)
    requires PathsDistinct(tasks) && CpvsWithin(tasks, known) && cpv in known
    requires Enlist(tasks, v, env, path, cpv).Ok?
    ensures CpvsWithin(Enlist(tasks, v, env, path, cpv).value, known)
  {
  }

  lemma {:induction false} EnrollWithin(s: Settings, tasks: seq<Task>, p: Package, vs: seq<Vcs>, known: set<string>)
    requires PathsDistinct(tasks) && CpvsWithin(tasks, known) && p.cpv in known
    ensures CpvsWithin(Enroll(s, tasks, p, vs).0, known)
    decreases |vs|
  {
    if |vs| > 0 && Matches(vs[0], p.inherited) && Claim(s, tasks, p, vs[0]).Ok? {
      var grown := Claim(s, tasks, p, vs[0]).value;
      if grown != tasks {
        var env := Load(vs[0], p.shell.For(vs[0]).value).value;
        EnlistWithin(tasks, vs[0], env, CheckoutPath(vs[0], env, s.distdirs).value, p.cpv, known);
      }
      EnrollWithin(s, grown, p, vs[1..], known);
    } else if |vs| > 0 && !Matches(vs[0], p.inherited) {
      EnrollWithin(s, tasks, p, vs[1..], known);
    }
  }

  /** Enumeration groups only installed packages. */
  lemma {:induction false} EnumeratedAreInstalled(s: Settings, vs: seq<Vcs>, packages: seq<Package>)
    ensures CpvsWithin(Enumerate(s, vs, packages).tasks, Installed(packages))
  {
    if |packages| > 0 {
      var init := packages[..|packages| - 1];
      EnumeratedAreInstalled(s, vs, init);
      var known := Installed(packages);
      assert Installed(init) <= known by {
        forall x | x in Installed(init) ensures x in known {
          var j :| 0 <= j < |init| && init[j].cpv == x;
          assert packages[j].cpv == x;
        }
      }
      EnrollWithin(s, Enumerate(s, vs, init).tasks, packages[|packages| - 1], vs, known);
    }
  }

  /** For packages with distinct names, a package is listed as erraneous
      exactly when the loop over the backends, run on the tasks found
      before it, ends with a failure other than a pin. */
  lemma {:induction false} ErraneousIffBroken(s: Settings, vs: seq<Vcs>, packages: seq<Package>)
    requires forall i, j :: 0 <= i < j < |packages| ==> packages[i].cpv != packages[j].cpv
    ensures forall j :: 0 <= j < |packages| ==>
              (packages[j].cpv in Enumerate(s, vs, packages).erraneous
               <==> Enroll(s, Enumerate(s, vs, packages[..j]).tasks, packages[j], vs).1.Broken?)
    decreases |packages|
  {
    if |packages| > 0 {
      var n := |packages|;
      var init := packages[..n - 1];
      var last := packages[n - 1];
      ErraneousIffBroken(s, vs, init);
      var earlier := Enumerate(s, vs, init);
      var broken := Enroll(s, earlier.tasks, last, vs).1.Broken?;
      var errs := Enumerate(s, vs, packages).erraneous;
      assert errs == earlier.erraneous + (if broken then [last.cpv] else []);
      forall j | 0 <= j < n
        ensures packages[j].cpv in errs <==> Enroll(s, Enumerate(s, vs, packages[..j]).tasks, packages[j], vs).1.Broken?
      {
        if j < n - 1 {
          assert init[..j] == packages[..j];
          assert init[j] == packages[j];
          assert packages[j].cpv != last.cpv;
        } else {
          assert packages[..j] == init;
          assert last.cpv !in earlier.erraneous;
        }
      }
    }
  }

  /** The first backend that matches decides when it rejects the package as
      not live: the package is neither grouped nor listed as erraneous. */
  lemma {:induction false} PinnedPackageIgnored(s: Settings, vs: seq<Vcs>, c: Census, p: Package, k: nat)
    requires PathsDistinct(c.tasks)
    requires k < |vs| && Matches(vs[k], p.inherited)
    requires forall j :: 0 <= j < k ==> !Matches(vs[j], p.inherited)
    requires Claim(s, c.tasks, p, vs[k]) == Err(NonLiveEbuild)
    ensures Visit(s, vs, c, p) == c
  {
    EnrollFirstMatch(s, c.tasks, p, vs, k);
  }

  lemma {:induction false} EnrollFirstMatch(s: Settings, tasks: seq<Task>, p: Package, vs: seq<Vcs>, k: nat)
    requires PathsDistinct(tasks)
    requires k < |vs| && Matches(vs[k], p.inherited)
    requires forall j :: 0 <= j < k ==> !Matches(vs[j], p.inherited)
    requires Claim(s, tasks, p, vs[k]).Err?
    ensures Enroll(s, tasks, p, vs) ==
              (tasks, if Claim(s, tasks, p, vs[k]).error == NonLiveEbuild then NotLive
                      else Broken(Claim(s, tasks, p, vs[k]).error))
  {
    if k > 0 {
      EnrollFirstMatch(s, tasks, p, vs[1..], k - 1);
    }
  }

  /** The groupings the matching backends among `vs` make for one package
      when all of them succeed, or the first failure. */
  function ClaimAll(s: Settings, tasks: seq<Task>, p: Package, vs: seq<Vcs>): (r: Result<seq<Task>>)
    requires PathsDistinct(tasks)
    ensures r.Ok? ==> PathsDistinct(r.value)
    ensures r.Ok? ==> Enroll(s, tasks, p, vs) == (r.value, Clean)
    decreases |vs|
  {
    if |vs| == 0 then Ok(tasks)
    else if !Matches(vs[0], p.inherited) then ClaimAll(s, tasks, p, vs[1..])
    else
      match Claim(s, tasks, p, vs[0])
      case Ok(grown) => ClaimAll(s, grown, p, vs[1..])
      case Err(e) => Err(e)
  }

  /** Once the backends before position k have all claimed the package
      without failing, the loop goes on from k with their groupings. */
  lemma {:induction false} EnrollAfterClaims(s: Settings, tasks: seq<Task>, p: Package, vs: seq<Vcs>, k: nat)
    requires PathsDistinct(tasks)
    requires k <= |vs|
    requires ClaimAll(s, tasks, p, vs[..k]).Ok?
    ensures Enroll(s, tasks, p, vs) == Enroll(s, ClaimAll(s, tasks, p, vs[..k]).value, p, vs[k..])
    decreases k
  {
    if k > 0 {
      var tail := vs[1..];
      assert vs[..k][0] == vs[0];
      assert vs[..k][1..] == tail[..k - 1];
      assert tail[k - 1..] == vs[k..];
      if Matches(vs[0], p.inherited) {
        assert Claim(s, tasks, p, vs[0]).Ok?;
        var grown := Claim(s, tasks, p, vs[0]).value;
        assert ClaimAll(s, tasks, p, vs[..k]) == ClaimAll(s, grown, p, tail[..k - 1]);
        assert Enroll(s, tasks, p, vs) == Enroll(s, grown, p, tail);
        EnrollAfterClaims(s, grown, p, tail, k - 1);
      } else {
        assert ClaimAll(s, tasks, p, vs[..k]) == ClaimAll(s, tasks, p, tail[..k - 1]);
        EnrollAfterClaims(s, tasks, p, tail, k - 1);
      }
    }
  }

  /** A failure of backend k, after the earlier matching backends accepted
      the package, decides its fate: their groupings are kept, and the
      package is listed as erraneous unless the failure is a pin. */
  lemma BrokenPackageListed(s: Settings, vs: seq<Vcs>, c: Census, p: Package, k: nat)
    requires PathsDistinct(c.tasks)
    requires k < |vs| && Matches(vs[k], p.inherited)
    requires ClaimAll(s, c.tasks, p, vs[..k]).Ok?
    requires Claim(s, ClaimAll(s, c.tasks, p, vs[..k]).value, p, vs[k]).Err?
    ensures var grown := ClaimAll(s, c.tasks, p, vs[..k]).value;
            var e := Claim(s, grown, p, vs[k]).error;
            Visit(s, vs, c, p) == Census(grown, if e == NonLiveEbuild then c.erraneous else c.erraneous + [p.cpv])
  {
    EnrollAfterClaims(s, c.tasks, p, vs, k);
    assert vs[k..][0] == vs[k];
  }

  /** With network access a live package whose checkout has no task yet
      opens one, holding just that package. */
  lemma OnlineOpensTask(s: Settings, tasks: seq<Task>, p: Package, v: Vcs)
    requires PathsDistinct(tasks)
    requires s.network
    requires p.shell.For(v).Some? && Load(v, p.shell.For(v).value).Ok?
    requires var env := Load(v, p.shell.For(v).value).value;
             CheckoutPath(v, env, s.distdirs).Ok? && CheckoutPath(v, env, s.distdirs).value !in Paths(tasks)
    ensures var env := Load(v, p.shell.For(v).value).value;
            Claim(s, tasks, p, v) == Ok(tasks + [Task(v, env, CheckoutPath(v, env, s.distdirs).value, [p.cpv])])
  {
    var env := Load(v, p.shell.For(v).value).value;
    EnlistNewPath(tasks, v, env, CheckoutPath(v, env, s.distdirs).value, p.cpv);
  }

  /** Without network access a package is only checked when its backend
      saved a revision; mercurial never does, so it is never grouped offline. */
  lemma OfflineNeedsSavedRevision(s: Settings, tasks: seq<Task>, p: Package, v: Vcs)
    requires PathsDistinct(tasks)
    requires !s.network
    requires p.shell.For(v).Some? && Load(v, p.shell.For(v).value).Ok?
    requires SavedRevision(v, Load(v, p.shell.For(v).value).value) == Ok(None)
             || SavedRevision(v, Load(v, p.shell.For(v).value).value) == Ok(Some(""))
    ensures Claim(s, tasks, p, v) == Ok(tasks)
  {
  }
}
