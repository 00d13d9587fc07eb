/** The runtime the server believes it runs on (src/lib/runtime.ts): a name read from the
    environment, folded through an alias table into one of three targets. The process
    environment is a parameter. */
module Runtime {
  import opened Text

  datatype Target = Local | Docker | Cloudflare

  /** The process environment: the variables that are set, with their values. */
  type Env = map<string, string>

  /** `describeRuntime`: the target's own name. */
  function TargetName(t: Target): string {
    match t
    case Local => "local"
    case Docker => "docker"
    case Cloudflare => "cloudflare"
  }

  /** `ALIASES`: every accepted spelling, already trimmed and lower-cased. */
  const Aliases: map<string, Target> := map[
    "cf" := Cloudflare, "cloud" := Cloudflare, "cloudflare" := Cloudflare, "pages" := Cloudflare,
    "local" := Local, "native" := Local, "dev" := Local,
    "docker" := Docker, "container" := Docker]

  /** The lookup key `normalize` builds: the value trimmed and lower-cased. */
  function NormalKey(s: string): string {
    Lower(Trim(s))
  }

  /** `normalize`: an absent or empty value is local; otherwise its key is looked up. */
  function Normalize(value: Option<string>): Target {
    if value.None? || value.value == [] then Local else Lookup(NormalKey(value.value))
  }

  /** The key's target in the table, then a comparison with `cloudflare` and `docker`,
      and local for anything else. */
  function Lookup(key: string): Target {
    if key in Aliases then Aliases[key]
    else if key == "cloudflare" then Cloudflare
    else if key == "docker" then Docker
    else Local
  }

  /** The comparisons after the table lookup never decide anything: both names are in the
      table. */
  lemma FallbackNeverDecides(key: string)
    requires key !in Aliases
    ensures key != "cloudflare" && key != "docker"
  {
  }

  /** Cloudflare and Docker are reached only through the table; anything the table does
      not hold is local. */
  lemma NormalizeByTable(value: Option<string>)
    ensures Normalize(value) != Local ==>
      (value.Some? && NormalKey(value.value) in Aliases && Aliases[NormalKey(value.value)] == Normalize(value))
    ensures value.Some? && NormalKey(value.value) in Aliases ==> Normalize(value) == Aliases[NormalKey(value.value)]
  {
    if value.Some? && NormalKey(value.value) !in Aliases {
      FallbackNeverDecides(NormalKey(value.value));
    }
  }

  /** A word of lower-case letters is its own key. */
  lemma LowerWordIsNormal(s: string)
    requires s != [] && forall i :: 0 <= i < |s| ==> 'a' <= s[i] <= 'z'
    ensures NormalKey(s) == s
  {
    TrimKeepsTrimmed(s);
    LowerKeepsLowerCase(s);
  }

  /** A text without capital letters is its own lower-case form. */
  lemma LowerKeepsLowerCase(s: string)
    requires forall i :: 0 <= i < |s| ==> !('A' <= s[i] <= 'Z')
    ensures Lower(s) == s
  {
    assert forall i :: 0 <= i < |s| ==> Lower(s)[i] == s[i];
  }

  /** A target's name is already trimmed and lower-cased. */
  lemma NameIsNormal(t: Target)
    ensures NormalKey(TargetName(t)) == TargetName(t)
  {
    var s := TargetName(t);
    TrimKeepsTrimmed(s);
    LowerKeepsLowerCase(s);
  }

  /** The name `describeRuntime` gives normalises back to the same target. */
  lemma DescribeRoundTrip(t: Target)
    ensures Normalize(Some(TargetName(t))) == t
  {
    NameIsNormal(t);
    NameInTable(t);
  }

  /** Each name is in the table and stands for its own target. */
  lemma NameInTable(t: Target)
    ensures TargetName(t) in Aliases && Aliases[TargetName(t)] == t
  {
  }

  /** Surrounding white space and letter case do not matter. */
  lemma NormalizeIgnoresCaseAndSpace(s: string)
    ensures Normalize(Some(s)) == Normalize(Some(NormalKey(s)))
  {
    NormalKeyStable(s);
    if NormalKey(s) == [] {
      EmptyKeyIsLocal();
    }
  }

  lemma EmptyKeyIsLocal()
    ensures Lookup([]) == Local
  {
    FallbackNeverDecides([]);
  }

  predicate IsCloudflare(t: Target) { t == Cloudflare }
  predicate IsDocker(t: Target) { t == Docker }
  predicate IsLocal(t: Target) { t == Local }
  predicate IsLocalLike(t: Target) { t == Local || t == Docker }

  const RuntimeTargetVar := "RUNTIME_TARGET"
  const RuntimeVar := "RUNTIME"
  const DeployTargetVar := "DEPLOY_TARGET"

  /** A variable as JavaScript's `||` sees it: set and not empty. */
  predicate Truthy(env: Env, name: string) {
    name in env && env[name] != []
  }

  /** `RUNTIME_TARGET || RUNTIME || DEPLOY_TARGET`: the first of the first two that is
      set and not empty, else `DEPLOY_TARGET` as it is. */
  function EnvTarget(env: Env): (raw: Option<string>)
    ensures Truthy(env, RuntimeTargetVar) ==> raw == Some(env[RuntimeTargetVar])
    ensures !Truthy(env, RuntimeTargetVar) && Truthy(env, RuntimeVar) ==> raw == Some(env[RuntimeVar])
    ensures !Truthy(env, RuntimeTargetVar) && !Truthy(env, RuntimeVar) ==>
      (raw.Some? <==> DeployTargetVar in env) && (raw.Some? ==> raw.value == env[DeployTargetVar])
  {
    if Truthy(env, RuntimeTargetVar) then Some(env[RuntimeTargetVar])
    else if Truthy(env, RuntimeVar) then Some(env[RuntimeVar])
    else if DeployTargetVar in env then Some(env[DeployTargetVar])
    else None
  }

  /** `getRuntimeTarget`. */
  function GetRuntimeTarget(env: Env): Target {
    Normalize(EnvTarget(env))
  }

  /** With none of the three variables set to a non-empty value the runtime is local. */
  lemma UnsetIsLocal(env: Env)
    requires !Truthy(env, RuntimeTargetVar) && !Truthy(env, RuntimeVar) && !Truthy(env, DeployTargetVar)
    ensures GetRuntimeTarget(env) == Local
  {
  }

  /** A variable earlier in the chain hides the later ones. */
  lemma EnvPrecedence(env: Env, value: string)
    ensures GetRuntimeTarget(env[RuntimeTargetVar := value]) ==
      (if value != [] then Normalize(Some(value)) else GetRuntimeTarget(env - {RuntimeTargetVar}))
  {
    var e := env[RuntimeTargetVar := value];
    if value == [] {
      assert Truthy(e, RuntimeVar) <==> Truthy(env - {RuntimeTargetVar}, RuntimeVar);
      assert (DeployTargetVar in e) <==> (DeployTargetVar in env - {RuntimeTargetVar});
    }
  }
}
