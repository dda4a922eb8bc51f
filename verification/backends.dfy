/** The three version-control backends (`GitSupport`, `HgSupport`,
    `SvnSupport`) as one closed datatype.  Every operation reads the package's
    decoded environment; a variable the shell did not print is a Python
    `KeyError`, modelled by `Get`. */
module Backends {
  import opened Outcomes
  import opened Text
  import opened Env

  datatype Vcs = Git | Hg | Svn

  /** The backends in the order the script tries them. */
  const Supported: seq<Vcs> := [Git, Hg, Svn]

  /** The eclass name whose presence in INHERITED selects the backend. */
  function Inherit(v: Vcs): string {
    match v
    case Git => "git"
    case Hg => "mercurial"
    case Svn => "subversion"
  }

  /** Variables that must be declared and non-empty. */
  function Required(v: Vcs): seq<string> {
    match v
    case Git => ["EGIT_BRANCH", "EGIT_PROJECT", "EGIT_STORE_DIR", "EGIT_UPDATE_CMD"]
    case Hg => ["EHG_PROJECT", "EHG_PULL_CMD", "EHG_REPO_URI"]
    case Svn => ["ESVN_STORE_DIR", "ESVN_UPDATE_CMD", "ESVN_WC_PATH"]
  }

  /** Variables that are read but may be empty. */
  function Optional(v: Vcs): seq<string> {
    match v
    case Git => ["EGIT_COMMIT", "EGIT_DIFFSTAT_CMD", "EGIT_HAS_SUBMODULES", "EGIT_OPTIONS", "EGIT_REPO_URI", "EGIT_VERSION"]
    case Hg => ["EHG_REVISION"]
    case Svn => ["ESVN_REVISION", "ESVN_OPTIONS", "ESVN_PASSWORD", "ESVN_REPO_URI", "ESVN_USER", "ESVN_WC_REVISION"]
  }

  /** The variables echoed by the shell, required ones first. */
  function Vars(v: Vcs): seq<string> {
    Required(v) + Optional(v)
  }

  /** The variable holding the repository URI, which names the checkout in messages. */
  function UriVar(v: Vcs): string {
    match v
    case Git => "EGIT_REPO_URI"
    case Hg => "EHG_REPO_URI"
    case Svn => "ESVN_REPO_URI"
  }

  /** Detection: the backend's eclass is among the inherited ones.  Nothing
      stops a package from inheriting several of them. */
  predicate Matches(v: Vcs, inherited: seq<string>) {
    Inherit(v) in inherited
  }

  /** Detection looks at each backend on its own: one package may be
      claimed by several backends, or by none. */
  lemma NoExclusiveMatch(inherited: seq<string>)
    ensures forall v :: v in Supported ==> (Matches(v, inherited) <==> Inherit(v) in inherited)
    ensures Matches(Git, ["git", "subversion"]) && Matches(Svn, ["git", "subversion"])
    ensures forall v :: v in Supported ==> !Matches(v, ["eutils"])
  {
  }

  /** `self.env[name]`. */
  function Get(env: Environment, name: string): (r: Result<string>)
    ensures r.Ok? <==> name in env
    ensures r.Ok? ==> r.value == env[name]
    ensures r.Err? ==> r.error == KeyError
  {
    if name in env then Ok(env[name]) else Err(KeyError)
  }

  /** Every name is declared with a non-empty value. */
  predicate Declares(env: Environment, names: seq<string>) {
    forall i :: 0 <= i < |names| ==> names[i] in env && env[names[i]] != ""
  }

  /** Whether the environment pins a fixed commit or revision, which makes
      the package not really a live one. */
  function Pinned(v: Vcs, env: Environment): Result<bool> {
    match v
    case Git =>
      var commit :- Get(env, "EGIT_COMMIT");
      if commit == "" then Ok(false)
      else
        var branch :- Get(env, "EGIT_BRANCH");
        Ok(commit != branch)
    case Hg =>
      var rev :- Get(env, "EHG_REVISION");
      Ok(rev != "" && rev != "tip")
    case Svn =>
      var uri :- Get(env, "ESVN_REPO_URI");
      if uri != "" && '@' in uri then Ok(true)
      else
        var rev :- Get(env, "ESVN_REVISION");
        Ok(rev != "")
  }

  /** Constructing a backend instance from what the shell printed: decode
      the fields, insist on the required variables, then reject pinned
      packages. */
  function Load(v: Vcs, output: string): (r: Result<Environment>)
    ensures r.Ok? ==> Declares(r.value, Required(v))
    ensures r.Ok? ==> Pinned(v, r.value) == Ok(false)
  {
    var env := Decode(Vars(v), output);
    if !Declares(env, Required(v)) then Err(KeyError)
    else
      var pinned :- Pinned(v, env);
      if pinned then Err(NonLiveEbuild) else Ok(env)
  }

  lemma VarsDistinct(v: Vcs)
    ensures Distinct(Vars(v))
  {
  }

  /** The environment read from a complete shell output assigns the i-th
      echoed value to the i-th variable. */
  lemma LoadedFields(v: Vcs, values: seq<string>)
    requires |values| == |Vars(v)|
    requires forall i :: 0 <= i < |values| ==> NUL !in values[i]
    ensures forall k :: k in Decode(Vars(v), Emit(values)) <==> k in Vars(v)
    ensures forall i :: 0 <= i < |values| ==> Decode(Vars(v), Emit(values))[Vars(v)[i]] == values[i]
  {
    VarsDistinct(v);
    DecodeEmit(Vars(v), values);
  }

  /** Git: with all ten fields printed, the package is refused for a missing
      required variable, skipped as pinned exactly when EGIT_COMMIT is set and
      differs from EGIT_BRANCH, and accepted otherwise.  Field order:
      BRANCH, PROJECT, STORE_DIR, UPDATE_CMD, COMMIT, DIFFSTAT_CMD,
      HAS_SUBMODULES, OPTIONS, REPO_URI, VERSION. */
  lemma LoadGit(values: seq<string>)
    requires |values| == 10
    requires forall i :: 0 <= i < |values| ==> NUL !in values[i]
    ensures Load(Git, Emit(values)) == Err(KeyError)
        <==> exists i :: 0 <= i < 4 && values[i] == ""
    ensures Load(Git, Emit(values)) == Err(NonLiveEbuild)
        <==> (forall i :: 0 <= i < 4 ==> values[i] != "") && values[4] != "" && values[4] != values[0]
    ensures Load(Git, Emit(values)).Ok?
        <==> (forall i :: 0 <= i < 4 ==> values[i] != "") && (values[4] == "" || values[4] == values[0])
  {
    LoadedFields(Git, values);
  }

  /** Mercurial: pinned exactly when EHG_REVISION is set to something other
      than "tip".  Field order: PROJECT, PULL_CMD, REPO_URI, REVISION. */
  lemma LoadHg(values: seq<string>)
    requires |values| == 4
    requires forall i :: 0 <= i < |values| ==> NUL !in values[i]
    ensures Load(Hg, Emit(values)) == Err(KeyError)
        <==> exists i :: 0 <= i < 3 && values[i] == ""
    ensures Load(Hg, Emit(values)) == Err(NonLiveEbuild)
        <==> (forall i :: 0 <= i < 3 ==> values[i] != "") && values[3] != "" && values[3] != "tip"
    ensures Load(Hg, Emit(values)).Ok?
        <==> (forall i :: 0 <= i < 3 ==> values[i] != "") && (values[3] == "" || values[3] == "tip")
  {
    LoadedFields(Hg, values);
  }

  /** Subversion: pinned exactly when ESVN_REPO_URI contains '@' or
      ESVN_REVISION is set.  Field order: STORE_DIR, UPDATE_CMD, WC_PATH,
      REVISION, OPTIONS, PASSWORD, REPO_URI, USER, WC_REVISION. */
  lemma LoadSvn(values: seq<string>)
    requires |values| == 9
    requires forall i :: 0 <= i < |values| ==> NUL !in values[i]
    ensures Load(Svn, Emit(values)) == Err(KeyError)
        <==> exists i :: 0 <= i < 3 && values[i] == ""
    ensures Load(Svn, Emit(values)) == Err(NonLiveEbuild)
        <==> (forall i :: 0 <= i < 3 ==> values[i] != "") && ('@' in values[6] || values[3] != "")
    ensures Load(Svn, Emit(values)).Ok?
        <==> (forall i :: 0 <= i < 3 ==> values[i] != "") && '@' !in values[6] && values[3] == ""
  {
    LoadedFields(Svn, values);
  }

  /** A shell output with fewer fields than variables leaves the later
      variables undeclared, and looking one of them up raises KeyError. */
  lemma MissingFieldKeyError(v: Vcs, values: seq<string>, k: nat)
    requires 1 <= |values| <= k < |Vars(v)|
    requires forall i :: 0 <= i < |values| ==> NUL !in values[i]
    ensures Get(Decode(Vars(v), Emit(values)), Vars(v)[k]) == Err(KeyError)
  {
    VarsDistinct(v);
    SplitJoin(values, NUL);
    ZipKeys(Vars(v), Split(Emit(values), NUL));
    assert Vars(v)[k] !in Vars(v)[..|values|];
  }

  /** When sourcing the environment file fails the shell prints nothing, and
      the package is refused for missing variables. */
  lemma LoadFailedSource(v: Vcs)
    ensures Load(v, "") == Err(KeyError)
  {
    DecodeEmpty(Vars(v));
    assert Required(v)[1] !in Decode(Vars(v), "");
  }

  /** Where portage keeps distfiles: PORTAGE_ACTUAL_DISTDIR, or DISTDIR when
      that is empty. */
  datatype Distdirs = Distdirs(actual: string, plain: string) {
    function Dir(): string {
      if actual != "" then actual else plain
    }
  }

  /** The name of a mercurial checkout: the base name of the URI, or of its
      directory when the URI ends in a slash. */
  function HgRepoName(uri: string): string {
    var name := Basename(uri);
    if name != "" then name else Basename(Dirname(uri))
  }

  lemma {:induction false} HgRepoNameOf(dir: string, name: string)
    requires '/' !in name && name != ""
    ensures HgRepoName(dir + "/" + name) == name
    ensures HgRepoName(dir + "/" + name + "/") == name
  {
    BasenameOfChild(dir, name);
    BasenameOfChild(dir + "/" + name, "");
    assert dir + "/" + name + "" == dir + "/" + name;
    DirnameOfSlashTerminated(dir, name);
  }

  /** The working copy of the checkout, the key packages are grouped by. */
  function CheckoutPath(v: Vcs, env: Environment, dd: Distdirs): Result<string> {
    match v
    case Git =>
      var store :- Get(env, "EGIT_STORE_DIR");
      var project :- Get(env, "EGIT_PROJECT");
      Ok(store + "/" + project)
    case Hg =>
      var uri :- Get(env, "EHG_REPO_URI");
      var name := HgRepoName(uri);
      if name == "" then Err(AssertionError)
      else
        var project :- Get(env, "EHG_PROJECT");
        Ok(dd.Dir() + "/hg-src/" + project + "/" + name)
    case Svn =>
      Get(env, "ESVN_WC_PATH")
  }

  /** A git checkout lives in the store directory under the project name. */
  lemma GitCheckoutPath(env: Environment, dd: Distdirs)
    requires "EGIT_STORE_DIR" in env && "EGIT_PROJECT" in env
    requires '/' !in env["EGIT_PROJECT"]
    ensures CheckoutPath(Git, env, dd).Ok?
    ensures Basename(CheckoutPath(Git, env, dd).value) == env["EGIT_PROJECT"]
    ensures env["EGIT_STORE_DIR"] + "/" <= CheckoutPath(Git, env, dd).value
  {
    BasenameOfChild(env["EGIT_STORE_DIR"], env["EGIT_PROJECT"]);
  }

  /** No checkout name can be derived exactly from a URI made of slashes
      only (the empty URI included). */
  lemma HgRepoNameEmpty(uri: string)
    ensures HgRepoName(uri) == "" <==> AllSlashes(uri)
  {
  }

  /** A mercurial checkout lives at `DISTDIR/hg-src/PROJECT/NAME`, named
      after the repository; a URI of slashes only trips the assertion. */
  lemma HgCheckoutPath(env: Environment, dd: Distdirs)
    requires "EHG_REPO_URI" in env && "EHG_PROJECT" in env
    ensures CheckoutPath(Hg, env, dd) == Err(AssertionError) <==> AllSlashes(env["EHG_REPO_URI"])
    ensures !AllSlashes(env["EHG_REPO_URI"]) ==>
              CheckoutPath(Hg, env, dd) == Ok(dd.Dir() + "/hg-src/" + env["EHG_PROJECT"] + "/" + HgRepoName(env["EHG_REPO_URI"]))
    ensures CheckoutPath(Hg, env, dd).Ok? ==>
              && dd.Dir() + "/hg-src/" <= CheckoutPath(Hg, env, dd).value
              && Basename(CheckoutPath(Hg, env, dd).value) == HgRepoName(env["EHG_REPO_URI"])
  {
    HgRepoNameEmpty(env["EHG_REPO_URI"]);
    var name := HgRepoName(env["EHG_REPO_URI"]);
    if name != "" {
      var prefix := dd.Dir() + "/hg-src/";
      var p := prefix + env["EHG_PROJECT"];
      HgPathParts(prefix, env["EHG_PROJECT"], name);
      assert CheckoutPath(Hg, env, dd) == Ok(p + "/" + name);
    }
  }

  /** A subversion checkout is wherever ESVN_WC_PATH says; the distfiles
      directory plays no part. */
  lemma SvnCheckoutPath(env: Environment, dd: Distdirs, other: Distdirs)
    requires "ESVN_WC_PATH" in env
    ensures CheckoutPath(Svn, env, dd) == CheckoutPath(Svn, env, other) == Ok(env["ESVN_WC_PATH"])
  {
  }

  lemma HgPathParts(prefix: string, project: string, name: string)
    requires '/' !in name
    ensures prefix <= prefix + project + "/" + name
    ensures Basename(prefix + project + "/" + name) == name
  {
    BasenameOfChild(prefix + project, name);
    assert prefix + project + "/" + name == prefix + (project + "/" + name);
  }

  /** The revision portage saved at install time, if the backend records one. */
  function SavedRevision(v: Vcs, env: Environment): Result<Option<string>> {
    match v
    case Git =>
      var version :- Get(env, "EGIT_VERSION");
      Ok(Some(version))
    case Hg => Ok(None)
    case Svn =>
      var rev :- Get(env, "ESVN_WC_REVISION");
      Ok(Some(rev))
  }

  /** Git and subversion report the revision portage recorded at install
      time, as it was saved; mercurial records none. */
  lemma SavedRevisionOf(v: Vcs, env: Environment)
    requires forall k :: k in Vars(v) ==> k in env
    ensures v == Git ==> SavedRevision(v, env) == Ok(Some(env["EGIT_VERSION"]))
    ensures v == Svn ==> SavedRevision(v, env) == Ok(Some(env["ESVN_WC_REVISION"]))
    ensures v == Hg ==> SavedRevision(v, env) == Ok(None)
  {
    assert Vars(Git)[9] == "EGIT_VERSION";
    assert Vars(Svn)[8] == "ESVN_WC_REVISION";
  }

  /** The flags that make mercurial trust repositories owned by portage. */
  const HgTrust: string := " --config trusted.users=portage"

  /** The shell command that pulls new upstream changes into the checkout. */
  function UpdateCommand(v: Vcs, env: Environment): Result<string> {
    match v
    case Git =>
      var update :- Get(env, "EGIT_UPDATE_CMD");
      var options :- Get(env, "EGIT_OPTIONS");
      var submodules :- Get(env, "EGIT_HAS_SUBMODULES");
      if submodules != "" then Ok(update + " " + options)
      else
        var branch :- Get(env, "EGIT_BRANCH");
        Ok(update + " " + options + " origin " + branch + ":" + branch)
    case Hg =>
      var pull :- Get(env, "EHG_PULL_CMD");
      Ok(pull + HgTrust)
    case Svn =>
      var update :- Get(env, "ESVN_UPDATE_CMD");
      var options :- Get(env, "ESVN_OPTIONS");
      var store :- Get(env, "ESVN_STORE_DIR");
      var base := update + " " + options + " --config-dir " + store + "/.subversion";
      var user :- Get(env, "ESVN_USER");
      if user == "" then Ok(base)
      else
        var password :- Get(env, "ESVN_PASSWORD");
        Ok(base + " --user \"" + user + "\" --password \"" + password + "\"")
  }

  /** The backend's own command variable. */
  function CommandVar(v: Vcs): string {
    match v
    case Git => "EGIT_UPDATE_CMD"
    case Hg => "EHG_PULL_CMD"
    case Svn => "ESVN_UPDATE_CMD"
  }

  /** Every update command starts with the backend's configured command. */
  lemma UpdateCommandHead(v: Vcs, env: Environment)
    requires UpdateCommand(v, env).Ok?
    ensures CommandVar(v) in env && env[CommandVar(v)] <= UpdateCommand(v, env).value
  {
  }

  /** Mercurial pulls with its configured command, trusting portage's
      repositories. */
  lemma HgUpdateCommand(env: Environment)
    requires "EHG_PULL_CMD" in env
    ensures UpdateCommand(Hg, env) == Ok(env["EHG_PULL_CMD"] + " --config trusted.users=portage")
  {
  }

  /** Git without submodules fetches `origin B:B` explicitly; with
      submodules the same command is run bare. */
  lemma GitRefspecOnlyWithoutSubmodules(env: Environment, flag: string)
    requires forall k :: k in Vars(Git) ==> k in env
    requires flag != ""
    ensures UpdateCommand(Git, env["EGIT_HAS_SUBMODULES" := ""]).Ok?
    ensures UpdateCommand(Git, env["EGIT_HAS_SUBMODULES" := ""]).value
         == UpdateCommand(Git, env["EGIT_HAS_SUBMODULES" := flag]).value
            + " origin " + env["EGIT_BRANCH"] + ":" + env["EGIT_BRANCH"]
  {
    assert Vars(Git)[0] == "EGIT_BRANCH" && Vars(Git)[3] == "EGIT_UPDATE_CMD";
    assert Vars(Git)[7] == "EGIT_OPTIONS";
  }

  /** Subversion adds credentials exactly when ESVN_USER is set. */
  lemma SvnCredentialsOnlyWithUser(env: Environment, user: string)
    requires forall k :: k in Vars(Svn) ==> k in env
    requires user != ""
    ensures UpdateCommand(Svn, env["ESVN_USER" := ""]).Ok?
    ensures UpdateCommand(Svn, env["ESVN_USER" := user]).value
         == UpdateCommand(Svn, env["ESVN_USER" := ""]).value
            + " --user \"" + user + "\" --password \"" + env["ESVN_PASSWORD"] + "\""
  {
    assert Vars(Svn)[0] == "ESVN_STORE_DIR" && Vars(Svn)[1] == "ESVN_UPDATE_CMD";
    assert Vars(Svn)[4] == "ESVN_OPTIONS" && Vars(Svn)[5] == "ESVN_PASSWORD";
  }

  /** The name printed for the checkout.  With an empty URI Python falls
      back to `self.cpv`, a list, and `str()` raises TypeError. */
  function Display(v: Vcs, env: Environment): Result<string> {
    var uri :- Get(env, UriVar(v));
    if uri != "" then Ok(uri) else Err(TypeError)
  }

  /** Mercurial requires its URI, so only git and subversion can hit the
      TypeError. */
  lemma DisplayFails(v: Vcs, env: Environment)
    requires Declares(env, Required(v))
    requires UriVar(v) in env
    ensures Display(v, env) == Err(TypeError) <==> v != Hg && env[UriVar(v)] == ""
    ensures Display(v, env).Ok? ==> Display(v, env).value == env[UriVar(v)]
  {
    if v == Hg {
      assert Required(Hg)[2] == UriVar(Hg);
    }
  }

  /** What running a command gave back: its standard output, or an
      exception (the working copy vanished, the tool is missing). */
  datatype Reply = Printed(output: string) | Raised

  /** The command whose output is the current revision of the checkout. */
  function RevisionCommand(v: Vcs, env: Environment): Result<seq<string>> {
    match v
    case Git =>
      var branch :- Get(env, "EGIT_BRANCH");
      var submodules :- Get(env, "EGIT_HAS_SUBMODULES");
      Ok(["git", "rev-parse", if submodules != "" then "origin/" + branch else branch])
    case Hg => Ok(["hg", "tip", "--template", "{node}", "--config", "trusted.users=portage"])
    case Svn => Ok(["svn", "info"])
  }

  lemma GitRevisionRef(env: Environment)
    requires "EGIT_BRANCH" in env && "EGIT_HAS_SUBMODULES" in env
    ensures RevisionCommand(Git, env).Ok?
    ensures |RevisionCommand(Git, env).value| == 3
    ensures var ref := RevisionCommand(Git, env).value[2];
            if env["EGIT_HAS_SUBMODULES"] != "" then ref == "origin/" + env["EGIT_BRANCH"] else ref == env["EGIT_BRANCH"]
  {
  }

  /** The prefix of the one `svn info` line that carries the revision. */
  const RevLabel: string := "Last Changed Rev: "

  /** A line matched by `^Last Changed Rev: (\d+)$`. */
  predicate IsRevLine(line: string) {
    |RevLabel| < |line| && line[..|RevLabel|] == RevLabel && IsDigits(line[|RevLabel|..])
  }

  function FirstRevLine(lines: seq<string>): (r: Option<string>)
    ensures r.None? <==> forall i :: 0 <= i < |lines| ==> !IsRevLine(lines[i])
    ensures r.Some? ==> exists i :: 0 <= i < |lines| && lines[i] == RevLabel + r.value && IsRevLine(lines[i])
                                    && forall j :: 0 <= j < i ==> !IsRevLine(lines[j])
  {
    if |lines| == 0 then None
    else if IsRevLine(lines[0]) then
      assert lines[0] == RevLabel + lines[0][|RevLabel|..];
      Some(lines[0][|RevLabel|..])
    else
      var r := FirstRevLine(lines[1..]);
      if r.Some? then
        ghost var i :| 0 <= i < |lines[1..]| && lines[1..][i] == RevLabel + r.value && IsRevLine(lines[1..][i])
                        && forall j :: 0 <= j < i ==> !IsRevLine(lines[1..][j]);
        assert lines[i + 1] == RevLabel + r.value;
        assert forall j :: 1 <= j < i + 1 ==> !IsRevLine(lines[j]) by {
          forall j | 1 <= j < i + 1 ensures !IsRevLine(lines[j]) {
            assert lines[j] == lines[1..][j - 1];
          }
        }
        r
      else r
  }

  /** `svn info` parsing: the digits of the first line that reads exactly
      "Last Changed Rev: <digits>", or None when no line does. */
  function LastChangedRev(info: string): (r: Option<string>)
    ensures r.Some? ==> IsDigits(r.value)
  {
    var r := FirstRevLine(Split(info, '\n'));
    if r.Some? then
      ghost var i :| 0 <= i < |Split(info, '\n')| && Split(info, '\n')[i] == RevLabel + r.value && IsRevLine(Split(info, '\n')[i]);
      assert (RevLabel + r.value)[|RevLabel|..] == r.value;
      r
    else r
  }

  /** The revision is found in whichever line of the output carries it. */
  lemma LastChangedRevOfLines(lines: seq<string>, i: nat, digits: string)
    requires i < |lines|
    requires forall k :: 0 <= k < |lines| ==> '\n' !in lines[k]
    requires IsDigits(digits) && lines[i] == RevLabel + digits
    requires forall j :: 0 <= j < i ==> !IsRevLine(lines[j])
    ensures LastChangedRev(Join(lines, "\n")) == Some(digits)
  {
    SplitJoin(lines, '\n');
    assert lines[i][..|RevLabel|] == RevLabel && lines[i][|RevLabel|..] == digits;
    var r := FirstRevLine(lines);
    var k :| 0 <= k < |lines| && lines[k] == RevLabel + r.value && IsRevLine(lines[k])
             && forall j :: 0 <= j < k ==> !IsRevLine(lines[j]);
    assert k == i;
    assert (RevLabel + r.value)[|RevLabel|..] == r.value;
  }

  /** The revision read from the output of the revision command: git keeps
      the first line, mercurial the whole output, subversion parses it. */
  function ParseRevision(v: Vcs, output: string): Option<string> {
    match v
    case Git => Some(FirstLine(output))
    case Hg => Some(output)
    case Svn => LastChangedRev(output)
  }

  /** `getrev()`: run the revision command in the checkout and parse its output. */
  function CurrentRevision(v: Vcs, env: Environment, reply: Reply): Result<Option<string>> {
    var _ :- RevisionCommand(v, env);
    match reply
    case Raised => Err(OSError)
    case Printed(output) => Ok(ParseRevision(v, output))
  }

  /** With every variable declared, the current revision is git's first
      output line, mercurial's whole output, or subversion's parsed revision;
      a failing command fails the query. */
  lemma CurrentRevisionOf(v: Vcs, env: Environment, reply: Reply)
    requires forall k :: k in Vars(v) ==> k in env
    ensures reply.Raised? ==> CurrentRevision(v, env, reply) == Err(OSError)
    ensures reply.Printed? && v == Git ==> CurrentRevision(v, env, reply) == Ok(Some(FirstLine(reply.output)))
    ensures reply.Printed? && v == Hg ==> CurrentRevision(v, env, reply) == Ok(Some(reply.output))
    ensures reply.Printed? && v == Svn ==> CurrentRevision(v, env, reply) == Ok(LastChangedRev(reply.output))
  {
    assert Vars(Git)[0] == "EGIT_BRANCH" && Vars(Git)[6] == "EGIT_HAS_SUBMODULES";
  }

  /** `revcmp(oldrev, newrev)`: whether the checkout is still at the old
      revision.  Git and mercurial compare for equality; subversion uses
      Python's `>=` on the revision strings, which raises TypeError when
      either is None. */
  function SameRevision(v: Vcs, before: Option<string>, after: Option<string>): (r: Result<bool>)
    ensures v != Svn ==> r == Ok(before == after)
    ensures v == Svn ==> (r.Err? <==> before.None? || after.None?)
  {
    match v
    case Svn =>
      if before.None? || after.None? then Err(TypeError)
      else Ok(LexAtLeast(before.value, after.value))
    case _ => Ok(before == after)
  }

  /** An unmoved checkout is reported unchanged by every backend. */
  lemma {:induction false} SameRevisionReflexive(v: Vcs, rev: string)
    ensures SameRevision(v, Some(rev), Some(rev)) == Ok(true)
  {
    LexLessIrreflexive(rev);
  }

  /** For subversion a newer revision reads as a change exactly when the old
      one sorts strictly before it, and of two distinct revisions exactly one
      direction reads as a change. */
  lemma {:induction false} SvnChangeIsStrictOrder(before: string, after: string)
    ensures SameRevision(Svn, Some(before), Some(after)) == Ok(!LexLess(before, after))
    ensures before != after ==> (SameRevision(Svn, Some(before), Some(after)) == Ok(false)
                            <==> SameRevision(Svn, Some(after), Some(before)) == Ok(true))
  {
    LexLessTotal(before, after);
    if LexLess(before, after) && LexLess(after, before) {
      LexLessTransitive(before, after, before);
      LexLessIrreflexive(before);
    }
  }

  /** The subversion comparison is on strings, not numbers: revision 10
      after revision 9 does not count as a change, while 10 after 1 does. */
  lemma SvnComparesText()
    ensures SameRevision(Svn, Some("9"), Some("10")) == Ok(true)
    ensures SameRevision(Svn, Some("1"), Some("10")) == Ok(false)
  {
    assert !LexLess("9", "10");
    assert LexLess("1"[1..], "10"[1..]);
  }

  /** Reporting a change runs the diffstat, which for git reads
      EGIT_DIFFSTAT_CMD; the command itself is best effort. */
  function DiffstatLookup(v: Vcs, env: Environment): Result<()> {
    match v
    case Git =>
      var _ :- Get(env, "EGIT_DIFFSTAT_CMD");
      Ok(())
    case _ => Ok(())
  }
}
