/** The environment getters `getOwner`, `getRepository` and `getSHA`. The
    process environment is passed in as a map from variable name to value. */
module Environment {
  import opened Wrappers

  type Env = map<string, string>

  const OwnerVar := "GITHUB_OWNER"
  const RepositoryVar := "GITHUB_REPOSITORY"
  const ShaVar := "GITHUB_SHA"

  const OwnerEnvNotSet := "GITHUB_OWNER environment variable not set"
  const RepositoryEnvNotSet := "GITHUB_REPOSITORY environment variable not set"
  const ShaEnvNotSet := "GITHUB_SHA environment variable not set"

  /** `os.Getenv`: the value of a variable, or "" when it is unset. */
  function Getenv(env: Env, name: string): (v: string)
    ensures name !in env ==> v == ""
    ensures name in env ==> v == env[name]
    ensures v != "" ==> name in env && env[name] == v
  {
    if name in env then env[name] else ""
  }

  /** Read a variable that must be non-empty; an unset variable and an empty
      one both give "" together with `notSet`. */
  function RequireEnv(env: Env, name: string, notSet: string): (r: Returned<string>)
  {
    var v := Getenv(env, name);
    if v == "" then Returned("", Some(notSet)) else Returned(v, None)
  }

  function GetOwner(env: Env): (r: Returned<string>)
    ensures r.err.None? <==> OwnerVar in env && env[OwnerVar] != ""
    ensures r.err.None? ==> r.value == env[OwnerVar]
    ensures r.err.Some? ==> r.value == "" && r.err.value == OwnerEnvNotSet
  {
    RequireEnv(env, OwnerVar, OwnerEnvNotSet)
  }

  function GetRepository(env: Env): (r: Returned<string>)
    ensures r.err.None? <==> RepositoryVar in env && env[RepositoryVar] != ""
    ensures r.err.None? ==> r.value == env[RepositoryVar]
    ensures r.err.Some? ==> r.value == "" && r.err.value == RepositoryEnvNotSet
  {
    RequireEnv(env, RepositoryVar, RepositoryEnvNotSet)
  }

  function GetSHA(env: Env): (r: Returned<string>)
    ensures r.err.None? <==> ShaVar in env && env[ShaVar] != ""
    ensures r.err.None? ==> r.value == env[ShaVar]
    ensures r.err.Some? ==> r.value == "" && r.err.value == ShaEnvNotSet
  {
    RequireEnv(env, ShaVar, ShaEnvNotSet)
  }

  /** An unset variable and a variable set to "" are indistinguishable to
      every getter. */
  lemma UnsetIsEmpty(env: Env, name: string)
    ensures GetOwner(env - {name}) == GetOwner(env[name := ""])
    ensures GetRepository(env - {name}) == GetRepository(env[name := ""])
    ensures GetSHA(env - {name}) == GetSHA(env[name := ""])
  {
  }

  /** A getter reads its own variable and no other. */
  lemma GettersReadOwnVariable(env: Env, name: string, v: string)
    ensures name != OwnerVar ==> GetOwner(env[name := v]) == GetOwner(env)
    ensures name != RepositoryVar ==> GetRepository(env[name := v]) == GetRepository(env)
    ensures name != ShaVar ==> GetSHA(env[name := v]) == GetSHA(env)
  {
  }

  /** Setting a getter's variable to a non-empty value makes the getter return
      exactly that value without error. */
  lemma GettersReturnWhatIsSet(env: Env, v: string)
    requires v != ""
    ensures GetOwner(env[OwnerVar := v]) == Returned(v, None)
    ensures GetRepository(env[RepositoryVar := v]) == Returned(v, None)
    ensures GetSHA(env[ShaVar := v]) == Returned(v, None)
  {
  }
}
