/** The small decisions `main` takes around enumeration and the update
    loop: normalising the options, choosing how to obtain the right
    privileges, selecting the backends, and assembling what is finally run. */
module Policies {
  import opened Outcomes
  import opened Text
  import opened Backends

  /** The command-line options the decisions read, after the configuration
      file supplied their defaults. */
  datatype Options = Options(
    jobs: int,
    network: bool,
    localRev: bool,
    setuid: bool,
    pretend: bool,
    quickpkg: bool,
    offline: bool,
    erraneousMerge: bool,
    unprivilegedUser: bool,
    types: seq<string>)

  /** Option sanity checks.  `setuid` is dropped when FEATURES lacks
      userpriv; `--local-rev` together with `--no-network`, or a
      non-positive job count, ends the program with status 1 (None); parallel
      jobs without network access fall back to one. */
  function Normalize(o: Options, userpriv: bool): (r: Option<Options>)
    ensures r.None? <==> (o.localRev && !o.network) || o.jobs <= 0
    ensures r.Some? ==> r.value.jobs >= 1
    ensures r.Some? ==> (r.value.jobs == o.jobs <==> o.network || o.jobs == 1)
    ensures r.Some? && r.value.jobs != o.jobs ==> r.value.jobs == 1
    ensures r.Some? ==> (r.value.setuid <==> o.setuid && userpriv)
    ensures r.Some? ==> r.value.(jobs := o.jobs, setuid := o.setuid) == o
  {
    var setuid := o.setuid && userpriv;
    if o.localRev && !o.network then None
    else if o.jobs <= 0 then None
    else if o.jobs > 1 && !o.network then Some(o.(setuid := setuid, jobs := 1))
    else Some(o.(setuid := setuid))
  }

  /** Normalised options pass the checks again unchanged. */
  lemma NormalizeIdempotent(o: Options, userpriv: bool)
    requires Normalize(o, userpriv).Some?
    ensures Normalize(Normalize(o, userpriv).value, userpriv) == Normalize(o, userpriv)
  {
  }

  /** Who the program runs as: the superuser, and whether the system has a
      portage user and group and the real uid is that user. */
  datatype Identity = Identity(root: bool, portageIds: bool, isPortageUser: bool)

  /** How the privileges are arranged: keep the current user, drop to the
      portage user in this process, or fork a child that drops them and
      reports back. */
  datatype Mode = AsIs | DropInProcess | ForkChild

  /** The outcome of the privilege checks: refused (status 1), or go ahead
      in a mode, possibly with pretend forced on; `warnQuickpkg` is the
      warning that quickpkg will probably not work as the portage user. */
  datatype Privilege = Refused | Granted(mode: Mode, pretend: bool, warnQuickpkg: bool)

  function Privileges(o: Options, id: Identity): (r: Privilege)
    ensures r == Refused <==> !o.unprivilegedUser && !id.root && !(o.setuid && id.portageIds && id.isPortageUser)
    ensures r.Granted? ==>
              && (r.mode == DropInProcess <==> o.setuid && id.portageIds && id.root && o.pretend && !o.quickpkg)
              && (r.mode == ForkChild <==> o.setuid && id.portageIds && id.root && (!o.pretend || o.quickpkg))
              && (r.pretend <==> o.pretend || (o.setuid && id.portageIds && !id.root && id.isPortageUser))
              && (r.warnQuickpkg <==> o.quickpkg && o.setuid && id.portageIds && !id.root && id.isPortageUser)
  {
    var viaPortage := o.setuid && id.portageIds && !id.root && id.isPortageUser;
    var userOk := id.root || viaPortage;
    var mode :=
      if o.setuid && id.portageIds && id.root then
        if o.pretend && !o.quickpkg then DropInProcess else ForkChild
      else AsIs;
    if !o.unprivilegedUser && !userOk then Refused
    else Granted(mode, o.pretend || viaPortage, o.quickpkg && viaPortage)
  }

  /** Only the superuser changes user, and an unprivileged run that was not
      explicitly allowed is the portage user's and only pretends. */
  lemma PrivilegeSafety(o: Options, id: Identity)
    requires Privileges(o, id).Granted?
    ensures Privileges(o, id).mode != AsIs ==> id.root
    ensures !id.root && !o.unprivilegedUser ==> id.isPortageUser && Privileges(o, id).pretend
    ensures Privileges(o, id).mode == DropInProcess ==> Privileges(o, id).pretend && !o.quickpkg
  {
  }

  /** The backend names the `type` options accept. */
  predicate Known(name: string) {
    exists v :: v in Supported && Inherit(v) == name
  }

  lemma KnownNames(name: string)
    ensures Known(name) <==> name in ["git", "mercurial", "subversion"]
  {
    if name == "git" { assert Inherit(Git) == name; }
    if name == "mercurial" { assert Inherit(Hg) == name; }
    if name == "subversion" { assert Inherit(Svn) == name; }
  }

  /** The names of a list that denote a backend, in order; every other
      entry is reported and removed. */
  function KeepKnown(names: seq<string>): (kept: seq<string>)
    ensures forall x :: x in kept <==> x in names && Known(x)
    ensures |kept| <= |names|
  {
    if |names| == 0 then []
    else if Known(names[0]) then [names[0]] + KeepKnown(names[1..])
    else KeepKnown(names[1..])
  }

  /** The configuration file's `type` value: comma-separated backend names,
      the empty value meaning no restriction. */
  function ConfigTypes(value: string): (types: seq<string>)
    ensures forall x :: x in types ==> Known(x)
    ensures value != "" ==> forall x :: x in types <==> x in Split(value, ',') && Known(x)
  {
    if value == "" then [] else KeepKnown(Split(value, ','))
  }

  /** `-t` options on the command line replace the configured list. */
  function EffectiveTypes(cli: seq<string>, config: string): (types: seq<string>)
    ensures |cli| > 0 ==> types == cli
    ensures |cli| == 0 ==> types == ConfigTypes(config)
  {
    if |cli| > 0 then cli else ConfigTypes(config)
  }

  /** The backends enumeration offers packages to, in their fixed order: all
      of them when no type is given, otherwise those whose name is listed. */
  function Selected(types: seq<string>): (vs: seq<Vcs>)
    ensures forall v :: v in vs <==> v in Supported && (types == [] || Inherit(v) in types)
    ensures forall i, j :: 0 <= i < j < |vs| ==> Order(vs[i]) < Order(vs[j])
  {
    if types == [] then Supported
    else Filter(Supported, types)
  }

  function Order(v: Vcs): nat {
    match v
    case Git => 0
    case Hg => 1
    case Svn => 2
  }

  function Filter(vs: seq<Vcs>, types: seq<string>): (kept: seq<Vcs>)
    ensures forall v :: v in kept <==> v in vs && Inherit(v) in types
    ensures forall k :: 0 <= k < |kept| ==> kept[k] in vs
    ensures |kept| <= |vs|
    ensures (forall i, j :: 0 <= i < j < |vs| ==> Order(vs[i]) < Order(vs[j])) ==>
              forall i, j :: 0 <= i < j < |kept| ==> Order(kept[i]) < Order(kept[j])
  {
    if |vs| == 0 then []
    else if Inherit(vs[0]) in types then [vs[0]] + Filter(vs[1..], types)
    else Filter(vs[1..], types)
  }

  /** A configured list that names no backend at all restricts nothing. */
  lemma {:induction false} UnknownTypesSelectAll(config: string)
    requires forall x :: x in Split(config, ',') ==> !Known(x)
    ensures Selected(EffectiveTypes([], config)) == Supported
  {
    if config != "" {
      KeepKnownNone(Split(config, ','));
    }
  }

  /** Which backends enumeration uses: with `-t` options exactly those named
      there; otherwise those the configured list names, or all of them when
      it names none (an empty value included). */
  lemma TypeSelection(cli: seq<string>, config: string)
    ensures |cli| > 0 ==> forall v :: v in Selected(EffectiveTypes(cli, config)) <==> v in Supported && Inherit(v) in cli
    ensures |cli| == 0 ==>
              forall v :: v in Selected(EffectiveTypes(cli, config)) <==>
                v in Supported && ((forall x :: x in Split(config, ',') ==> !Known(x)) || Inherit(v) in Split(config, ','))
  {
    if |cli| == 0 {
      var names := Split(config, ',');
      var types := ConfigTypes(config);
      if config == "" {
        assert names == [""];
        KnownNames("");
      } else {
        assert types == [] <==> forall x :: x in names ==> !Known(x) by {
          if types != [] { assert types[0] in types; }
        }
      }
      forall v | v in Supported
        ensures Known(Inherit(v))
      {
      }
    }
  }

  /** A list naming no backend keeps nothing. */
  lemma {:induction false} KeepKnownNone(names: seq<string>)
    requires forall i :: 0 <= i < |names| ==> !Known(names[i])
    ensures KeepKnown(names) == []
  {
    if |names| > 0 {
      KeepKnownNone(names[1..]);
    }
  }

  /** `prefix + x` for every `x`, as the argument lists are built. */
  function Prefixed(prefix: string, xs: seq<string>): (ys: seq<string>)
    ensures |ys| == |xs|
    ensures forall i :: 0 <= i < |xs| ==> ys[i] == prefix + xs[i]
  {
    seq(|xs|, i requires 0 <= i < |xs| => prefix + xs[i])
  }

  /** The package names back from a prefixed list. */
  function Unprefixed(prefix: string, ys: seq<string>): (xs: seq<string>)
    requires forall i :: 0 <= i < |ys| ==> prefix <= ys[i]
    ensures |xs| == |ys|
  {
    seq(|ys|, i requires 0 <= i < |ys| => ys[i][|prefix|..])
  }

  lemma PrefixedRoundTrip(prefix: string, xs: seq<string>)
    ensures forall i :: 0 <= i < |xs| ==> prefix <= Prefixed(prefix, xs)[i]
    ensures Unprefixed(prefix, Prefixed(prefix, xs)) == xs
  {
    var ys := Prefixed(prefix, xs);
    forall i | 0 <= i < |xs|
      ensures prefix <= ys[i] && ys[i][|prefix|..] == xs[i]
    {
      assert ys[i] == prefix + xs[i];
    }
  }

  /** The packages to rebuild: the changed ones, followed by the failed ones
      when failures are merged too. */
  function Merged(o: Options, packages: seq<string>, erraneous: seq<string>): (r: seq<string>)
    ensures r == if o.erraneousMerge then packages + erraneous else packages
  {
    if o.erraneousMerge && |erraneous| > 0 then packages + erraneous else packages
  }

  /** What happens last: report that nothing changed, print the atoms, or
      replace the process with emerge, ESCM_OFFLINE exported when `offline`. */
  datatype Action = NothingToDo | PrintList(atoms: seq<string>) | Emerge(argv: seq<string>, offline: bool)

  /** The final plan: the quickpkg command run first, if any, then the action. */
  datatype Plan = Plan(quickpkg: Option<seq<string>>, action: Action)

  const QuickpkgHead: seq<string> := ["/usr/sbin/quickpkg", "--include-config=y"]
  const EmergeHead: seq<string> := ["emerge", "--oneshot"]

  function Assemble(o: Options, args: seq<string>, packages: seq<string>, erraneous: seq<string>): (plan: Plan)
    ensures var merged := Merged(o, packages, erraneous);
            && (plan.quickpkg.Some? <==> o.quickpkg && |merged| > 0)
            && (plan.quickpkg.Some? ==> plan.quickpkg.value == QuickpkgHead + Prefixed("=", merged))
            && (plan.action == NothingToDo <==> |merged| == 0)
            && (plan.action.PrintList? <==> |merged| > 0 && o.pretend)
            && (plan.action.PrintList? ==> plan.action.atoms == Prefixed(">=", merged))
            && (plan.action.Emerge? ==> plan.action.argv == EmergeHead + args + Prefixed(">=", merged))
  {
    var merged := Merged(o, packages, erraneous);
    var failuresMerged := o.erraneousMerge && |erraneous| > 0;
    Plan(
      if o.quickpkg && |merged| >= 1 then Some(QuickpkgHead + Prefixed("=", merged)) else None,
      if |merged| < 1 then NothingToDo
      else if o.pretend then PrintList(Prefixed(">=", merged))
      else Emerge(EmergeHead + args + Prefixed(">=", merged), o.offline && !failuresMerged))
  }

  /** Merged failures switch offline mode off; otherwise it is as asked. */
  lemma OfflineSwitchedOff(o: Options, args: seq<string>, packages: seq<string>, erraneous: seq<string>)
    requires Assemble(o, args, packages, erraneous).action.Emerge?
    ensures var offline := Assemble(o, args, packages, erraneous).action.offline;
            offline <==> o.offline && (!o.erraneousMerge || erraneous == [])
  {
  }

  /** The atoms emerge receives, read back from its argument list, are the
      packages to rebuild, in order. */
  lemma EmergeTargets(o: Options, args: seq<string>, packages: seq<string>, erraneous: seq<string>)
    requires Assemble(o, args, packages, erraneous).action.Emerge?
    ensures var argv := Assemble(o, args, packages, erraneous).action.argv;
            && argv[..2 + |args|] == EmergeHead + args
            && (forall i :: 2 + |args| <= i < |argv| ==> ">=" <= argv[i])
            && Unprefixed(">=", argv[2 + |args|..]) == packages + (if o.erraneousMerge then erraneous else [])
  {
    var merged := Merged(o, packages, erraneous);
    var argv := Assemble(o, args, packages, erraneous).action.argv;
    PrefixedRoundTrip(">=", merged);
    assert argv[2 + |args|..] == Prefixed(">=", merged);
  }
}
