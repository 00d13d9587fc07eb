/** The deployment target the development scripts pick (scripts/runtime-target.mjs): the
    first `--target` flag on the command line, else the environment, folded through the
    same alias table as the server's but keeping unknown names as they are. The process
    arguments and environment are parameters. */
module RuntimeTarget {
  import opened Text
  import Runtime

  /** `TARGET_ALIASES`: the same spellings as the server's table, mapped to names. */
  const TargetAliases: map<string, string> := map[
    "cloudflare" := "cloudflare", "cf" := "cloudflare", "pages" := "cloudflare", "cloud" := "cloudflare",
    "local" := "local", "native" := "local", "dev" := "local",
    "docker" := "docker", "container" := "docker"]

  /** The script's table is the server's table with each target written as its name. */
  lemma AliasTablesAgree()
    ensures TargetAliases.Keys == Runtime.Aliases.Keys
    ensures forall k :: k in TargetAliases ==> TargetAliases[k] == Runtime.TargetName(Runtime.Aliases[k])
  {
  }

  /** `normalize`: nothing for an absent or empty value; otherwise the trimmed,
      lower-cased key's target name, or the key itself when the table does not hold it. */
  function NormalizeRaw(raw: Option<string>): Option<string> {
    if raw.None? || raw.value == [] then None
    else
      var key := Runtime.NormalKey(raw.value);
      Some(if key in TargetAliases then TargetAliases[key] else key)
  }

  const TargetFlag := "--target"
  const TargetPrefix := "--target="

  /** An argument that names the target: `--target=<name>` or `--target <name>`. */
  predicate IsFlag(part: string) {
    StartsWith(part, TargetPrefix) || part == TargetFlag
  }

  /** The value a flag at position i carries: the rest of `--target=<name>`, or the next
      argument, which a trailing `--target` does not have. */
  function FlagArg(argv: seq<string>, i: nat): Option<string>
    requires i < |argv| && IsFlag(argv[i])
  {
    if StartsWith(argv[i], TargetPrefix) then Some(argv[i][|TargetPrefix|..])
    else if i + 1 < |argv| then Some(argv[i + 1])
    else None
  }

  /** What the argument loop of `resolveRuntimeTarget` leaves in `raw` when it starts at
      position i: empty arguments are skipped and the first flag decides. */
  function ScanFrom(argv: seq<string>, i: nat): Option<string>
    requires i <= |argv|
    decreases |argv| - i
  {
    if i == |argv| then None
    else if argv[i] == [] then ScanFrom(argv, i + 1)
    else if IsFlag(argv[i]) then FlagArg(argv, i)
    else ScanFrom(argv, i + 1)
  }

  /** The scan finds the first flag: with none from i on it finds nothing, and otherwise
      it takes the value of the earliest one. */
  lemma {:induction false} ScanFindsFirstFlag(argv: seq<string>, i: nat)
    requires i <= |argv|
    ensures (forall j :: i <= j < |argv| ==> !IsFlag(argv[j])) ==> ScanFrom(argv, i) == None
    ensures forall k :: i <= k < |argv| && IsFlag(argv[k]) && (forall j :: i <= j < k ==> !IsFlag(argv[j])) ==>
      ScanFrom(argv, i) == FlagArg(argv, k)
    decreases |argv| - i
  {
    if i < |argv| {
      ScanFindsFirstFlag(argv, i + 1);
      assert !IsFlag([]);
    }
  }

  /** The target the scripts resolve: the flag's value when it is not empty, else the
      environment chain, normalised, and `local` when that leaves nothing. */
  function Resolve(argv: seq<string>, env: Runtime.Env): (target: string)
    ensures target != []
  {
    var flag := ScanFrom(argv, 0);
    var raw := if flag.None? || flag.value == [] then Runtime.EnvTarget(env) else flag;
    var n := NormalizeRaw(raw);
    if n.None? || n.value == [] then "local" else n.value
  }

  /** `resolveRuntimeTarget`. */
  method ResolveRuntimeTarget(argv: seq<string>, env: Runtime.Env) returns (target: string)
    ensures target == Resolve(argv, env)
  {
    var raw: Option<string> := None;
    var i := 0;
    while i < |argv|
      invariant 0 <= i <= |argv|
      invariant raw == None && ScanFrom(argv, i) == ScanFrom(argv, 0)
    {
      var part := argv[i];
      if part == [] {
        i := i + 1;
        continue;
      }
      if StartsWith(part, TargetPrefix) {
        raw := Some(part[|TargetPrefix|..]);
        break;
      }
      if part == TargetFlag {
        raw := if i + 1 < |argv| then Some(argv[i + 1]) else None;
        break;
      }
      i := i + 1;
    }
    if raw.None? || raw.value == [] {
      raw := Runtime.EnvTarget(env);
    }
    var n := NormalizeRaw(raw);
    target := if n.None? || n.value == [] then "local" else n.value;
  }

  /** `childEnv`: the environment with `RUNTIME_TARGET` set to the target. */
  function ChildEnv(env: Runtime.Env, target: string): (child: Runtime.Env)
    ensures child.Keys == env.Keys + {Runtime.RuntimeTargetVar}
    ensures child[Runtime.RuntimeTargetVar] == target
    ensures forall k :: k in env && k != Runtime.RuntimeTargetVar ==> child[k] == env[k]
  {
    env[Runtime.RuntimeTargetVar := target]
  }

  predicate IsCloudflare(target: string) { target == "cloudflare" }
  predicate IsLocalLike(target: string) { target == "local" || target == "docker" }

  /** A target name normalises to itself. */
  lemma NameIsNormalRaw(target: Runtime.Target)
    ensures NormalizeRaw(Some(Runtime.TargetName(target))) == Some(Runtime.TargetName(target))
  {
    var name := Runtime.TargetName(target);
    Runtime.NameIsNormal(target);
    Runtime.NameInTable(target);
    AliasTablesAgree();
    assert name in TargetAliases;
  }

  /** A key outside the table normalises to itself. */
  lemma KeyIsNormalRaw(s: string)
    requires Runtime.NormalKey(s) != [] && Runtime.NormalKey(s) !in TargetAliases
    ensures NormalizeRaw(Some(Runtime.NormalKey(s))) == Some(Runtime.NormalKey(s))
  {
    NormalKeyStable(s);
  }

  /** A resolved target is in normal form: normalising it again gives it back. */
  lemma ResolvedIsNormal(argv: seq<string>, env: Runtime.Env)
    ensures NormalizeRaw(Some(Resolve(argv, env))) == Some(Resolve(argv, env))
  {
    var flag := ScanFrom(argv, 0);
    var raw := if flag.None? || flag.value == [] then Runtime.EnvTarget(env) else flag;
    var n := NormalizeRaw(raw);
    if n.None? || n.value == [] {
      NameIsNormalRaw(Runtime.Local);
    } else {
      var key := Runtime.NormalKey(raw.value);
      if key in TargetAliases {
        AliasTablesAgree();
        NameIsNormalRaw(Runtime.Aliases[key]);
      } else {
        KeyIsNormalRaw(raw.value);
      }
    }
  }

  /** A child started with `childEnv` and no flags resolves the same target. */
  lemma ChildResolvesSame(argv: seq<string>, env: Runtime.Env)
    ensures Resolve([], ChildEnv(env, Resolve(argv, env))) == Resolve(argv, env)
  {
    ResolvedIsNormal(argv, env);
  }

  /** The first flag wins over later flags and over the environment, unless its value is
      empty or missing. */
  lemma FirstFlagWins(argv: seq<string>, env: Runtime.Env, k: nat)
    requires k < |argv| && IsFlag(argv[k])
    requires forall j :: 0 <= j < k ==> !IsFlag(argv[j])
    requires FlagArg(argv, k).Some? && FlagArg(argv, k).value != []
    ensures Resolve(argv, env) == Resolve([], map[Runtime.RuntimeTargetVar := FlagArg(argv, k).value])
  {
    ScanFindsFirstFlag(argv, 0);
  }

  /** Without a usable flag the environment decides, as it does for the server. */
  lemma NoFlagUsesEnvironment(argv: seq<string>, env: Runtime.Env)
    requires forall j :: 0 <= j < |argv| ==> !IsFlag(argv[j])
    ensures Resolve(argv, env) == Resolve([], env)
  {
    ScanFindsFirstFlag(argv, 0);
  }

  /** The server, started with the child environment, sees the target the script
      resolved when that is one of the three names, and local for any other name. */
  lemma ServerSeesResolvedTarget(argv: seq<string>, env: Runtime.Env)
    ensures var t := Resolve(argv, env);
      Runtime.GetRuntimeTarget(ChildEnv(env, t)) ==
        (if t == "cloudflare" then Runtime.Cloudflare else if t == "docker" then Runtime.Docker else Runtime.Local)
  {
    var t := Resolve(argv, env);
    ResolvedIsNormal(argv, env);
    assert Runtime.EnvTarget(ChildEnv(env, t)) == Some(t);
    Runtime.NormalizeByTable(Some(t));
    AliasTablesAgree();
  }

  /** `--target=azure` resolves to `azure`. */
  lemma ResolveUnknownName()
    ensures Resolve(["--target=azure"], map[]) == "azure"
  {
    var argv := ["--target=azure"];
    assert StartsWith(argv[0], TargetPrefix);
    assert argv[0][|TargetPrefix|..] == "azure";
    assert ScanFrom(argv, 0) == Some("azure");
    AzureIsNormal();
  }

  lemma AzureIsNormal()
    ensures NormalizeRaw(Some("azure")) == Some("azure")
  {
    Runtime.LowerWordIsNormal("azure");
    assert "azure" !in TargetAliases;
  }

  /** A name outside the table is neither Cloudflare nor local-like to the script, but
      local to the server. */
  lemma UnknownNameDisagrees()
    ensures var t := Resolve(["--target=azure"], map[]);
      t == "azure" && !IsCloudflare(t) && !IsLocalLike(t)
      && Runtime.IsLocalLike(Runtime.GetRuntimeTarget(ChildEnv(map[], t)))
  {
    ResolveUnknownName();
    ServerSeesResolvedTarget(["--target=azure"], map[]);
  }
}
