/** Reading a package's build environment.  The script writes the saved
    environment to a scratch file, has bash source it and echo the wanted
    variables separated by NUL characters, and zips the variable names with
    the NUL-separated fields of what bash printed. */
module Env {
  import opened Text

  type Environment = map<string, string>

  /** The command that sources the environment file and stops when sourcing fails. */
  function Guard(file: string): string {
    "source \"" + file + "\"||exit 1;"
  }

  /** The command that prints one variable without a trailing newline. */
  function Echo(name: string): string {
    "echo -n \"${" + name + "}\""
  }

  function Echoes(vars: seq<string>): (cmds: seq<string>)
    ensures |cmds| == |vars|
    ensures forall i :: 0 <= i < |vars| ==> cmds[i] == Echo(vars[i])
  {
    if |vars| == 0 then [] else [Echo(vars[0])] + Echoes(vars[1..])
  }

  /** The bash script handed to `bash -c`: the guard, then one echo per
      variable in order, with a NUL printed between consecutive ones. */
  function Script(file: string, vars: seq<string>): (script: string)
    ensures Guard(file) <= script
  {
    Guard(file) + Join(Echoes(vars), ";echo -ne \"\\0\";")
  }

  function Min(a: int, b: int): int {
    if a < b then a else b
  }

  /** Python's `dict(zip(keys, vals))`: pairs up to the shorter sequence, a
      later duplicate key overriding an earlier one. */
  function Zip(keys: seq<string>, vals: seq<string>): Environment
  {
    if |keys| == 0 || |vals| == 0 then map[]
    else
      var later := Zip(keys[1..], vals[1..]);
      if keys[0] in later then later else later[keys[0] := vals[0]]
  }

  /** The zipped names are exactly the names paired with a value. */
  lemma {:induction false} ZipKeys(keys: seq<string>, vals: seq<string>)
    ensures forall k :: k in Zip(keys, vals) <==> k in keys[..Min(|keys|, |vals|)]
  {
    if |keys| > 0 && |vals| > 0 {
      ZipKeys(keys[1..], vals[1..]);
      assert keys[..Min(|keys|, |vals|)] == [keys[0]] + keys[1..][..Min(|keys| - 1, |vals| - 1)];
    }
  }

  /** A name receives the value at its last pairing position. */
  lemma {:induction false} ZipValues(keys: seq<string>, vals: seq<string>, i: nat)
    requires i < Min(|keys|, |vals|)
    requires forall j :: i < j < Min(|keys|, |vals|) ==> keys[j] != keys[i]
    ensures keys[i] in Zip(keys, vals) && Zip(keys, vals)[keys[i]] == vals[i]
  {
    ZipKeys(keys[1..], vals[1..]);
    if i > 0 {
      ZipValues(keys[1..], vals[1..], i - 1);
    } else {
      assert keys[0] !in keys[1..][..Min(|keys| - 1, |vals| - 1)];
    }
  }

  /** The environment read back from the shell's output. */
  function Decode(vars: seq<string>, output: string): (env: Environment)
    ensures forall k :: k in env ==> k in vars
    ensures |Split(output, NUL)| >= |vars| ==> forall i :: 0 <= i < |vars| ==> vars[i] in env
  {
    ZipKeys(vars, Split(output, NUL));
    Zip(vars, Split(output, NUL))
  }

  /** What the script prints once every echo has run: the values separated by NUL. */
  function Emit(values: seq<string>): string {
    Join(values, [NUL])
  }

  predicate Distinct(names: seq<string>) {
    forall i, j :: 0 <= i < j < |names| ==> names[i] != names[j]
  }

  /** Decoding what the shell emitted for distinct variable names assigns
      each variable the value echoed for it, and declares no other name. */
  lemma DecodeEmit(vars: seq<string>, values: seq<string>)
    requires |vars| == |values| >= 1
    requires Distinct(vars)
    requires forall i :: 0 <= i < |values| ==> NUL !in values[i]
    ensures forall k :: k in Decode(vars, Emit(values)) <==> k in vars
    ensures forall i :: 0 <= i < |vars| ==> Decode(vars, Emit(values))[vars[i]] == values[i]
  {
    SplitJoin(values, NUL);
    ZipKeys(vars, Split(Emit(values), NUL));
    assert vars[..Min(|vars|, |values|)] == vars;
    forall i | 0 <= i < |vars|
      ensures Decode(vars, Emit(values))[vars[i]] == values[i]
    {
      ZipValues(vars, Split(Emit(values), NUL), i);
    }
  }

  /** When sourcing fails the script prints nothing, and only the first
      variable is declared, to the empty string. */
  lemma DecodeEmpty(vars: seq<string>)
    requires |vars| >= 1
    ensures Decode(vars, "") == map[vars[0] := ""]
  {
    assert Split("", NUL) == [""];
    assert Zip(vars[1..], [""][1..]) == map[];
  }
}
