/** The steps of the action's `main` before the status is created: the
    required-input check, filling owner, repository and commit SHA from the
    environment, and the commit URL reported at the end. */
module Action {
  import opened Wrappers
  import Text
  import State
  import opened Inputs
  import opened Environment

  /** The fields `main` never touches while resolving its inputs. */
  predicate SameOtherFields(a: Input, b: Input)
  {
    a.token == b.token && a.state == b.state && a.context == b.context
    && a.description == b.description && a.detailsURL == b.detailsURL
  }

  /** `field` when it is set, `fallback` otherwise. */
  function OrElse(field: string, fallback: string): string
  {
    if field != "" then field else fallback
  }

  /** The defaulting of owner, repository and SHA, stated declaratively: the
      first field (in that order) that is empty and has no variable to fall
      back on ends the process; otherwise each empty field takes its
      variable's value. */
  function Defaulted(inp: Input, env: Env): (r: Result<Input>)
    ensures r.Ok? ==> r.value.owner != "" && r.value.repository != "" && r.value.sha != ""
    ensures r.Ok? ==> SameOtherFields(inp, r.value)
    ensures r.Ok? && inp.owner != "" ==> r.value.owner == inp.owner
    ensures r.Ok? && inp.repository != "" ==> r.value.repository == inp.repository
    ensures r.Ok? && inp.sha != "" ==> r.value.sha == inp.sha
    ensures r.Fatal? ==> r.msg in {OwnerEnvNotSet, RepositoryEnvNotSet, ShaEnvNotSet}
  {
    if inp.owner == "" && Getenv(env, OwnerVar) == "" then Fatal(OwnerEnvNotSet)
    else if inp.repository == "" && Getenv(env, RepositoryVar) == "" then Fatal(RepositoryEnvNotSet)
    else if inp.sha == "" && Getenv(env, ShaVar) == "" then Fatal(ShaEnvNotSet)
    else Ok(inp.(owner := OrElse(inp.owner, Getenv(env, OwnerVar)),
                 repository := OrElse(inp.repository, Getenv(env, RepositoryVar)),
                 sha := OrElse(inp.sha, Getenv(env, ShaVar))))
  }

  /** The fill-if-empty block of `main`: each empty field is replaced, one
      after the other, by its getter's value, and the first getter error is
      fatal. */
  method FillDefaults(inp0: Input, env: Env) returns (r: Result<Input>)
    ensures r == Defaulted(inp0, env)
  {
    var inp := inp0;
    if inp.owner == "" {
      var owner := GetOwner(env);
      if owner.err.Some? {
        return Fatal(owner.err.value);
      }
      inp := inp.(owner := owner.value);
    }
    if inp.repository == "" {
      var repo := GetRepository(env);
      if repo.err.Some? {
        return Fatal(repo.err.value);
      }
      inp := inp.(repository := repo.value);
    }
    if inp.sha == "" {
      var sha := GetSHA(env);
      if sha.err.Some? {
        return Fatal(sha.err.value);
      }
      inp := inp.(sha := sha.value);
    }
    return Ok(inp);
  }

  /** Which getter's error ends the process: the first one consulted for an
      empty field, in the order owner, repository, SHA. */
  lemma FirstMissingVariableStops(inp: Input, env: Env)
    ensures Defaulted(inp, env) == Fatal(OwnerEnvNotSet)
            <==> inp.owner == "" && GetOwner(env).err.Some?
    ensures Defaulted(inp, env) == Fatal(RepositoryEnvNotSet)
            <==> (inp.owner != "" || GetOwner(env).err.None?)
                 && inp.repository == "" && GetRepository(env).err.Some?
    ensures Defaulted(inp, env) == Fatal(ShaEnvNotSet)
            <==> (inp.owner != "" || GetOwner(env).err.None?)
                 && (inp.repository != "" || GetRepository(env).err.None?)
                 && inp.sha == "" && GetSHA(env).err.Some?
  {
  }

  /** An empty field that resolves takes exactly the value of its variable. */
  lemma EmptyFieldsTakeEnvironment(inp: Input, env: Env)
    requires Defaulted(inp, env).Ok?
    ensures inp.owner == "" ==> Defaulted(inp, env).value.owner == GetOwner(env).value
    ensures inp.repository == "" ==> Defaulted(inp, env).value.repository == GetRepository(env).value
    ensures inp.sha == "" ==> Defaulted(inp, env).value.sha == GetSHA(env).value
  {
  }

  /** The environment is consulted only for empty fields: changing the
      variable of a field that is already set changes nothing. */
  lemma EnvironmentOnlyForEmptyFields(inp: Input, env: Env, name: string, v: string)
    requires name == OwnerVar ==> inp.owner != ""
    requires name == RepositoryVar ==> inp.repository != ""
    requires name == ShaVar ==> inp.sha != ""
    ensures Defaulted(inp, env[name := v]) == Defaulted(inp, env)
  {
  }

  /** With owner, repository and SHA all given, defaulting is the identity
      whatever the environment holds. */
  lemma GivenFieldsIgnoreEnvironment(inp: Input, env: Env)
    requires inp.owner != "" && inp.repository != "" && inp.sha != ""
    ensures Defaulted(inp, env) == Ok(inp)
  {
  }

  /** `main` up to the creation of the status, as written: the required-input
      check, then the defaulting. The state is forwarded as given. */
  function Prepared(inp: Input, env: Env): (r: Result<Input>)
    ensures r.Ok? ==> r.value.token != "" && r.value.state != ""
    ensures r.Ok? ==> r.value.owner != "" && r.value.repository != "" && r.value.sha != ""
    ensures r.Ok? ==> r.value.state == inp.state
    ensures inp.token == "" || inp.state == ""
            ==> r == Fatal(Text.Join(Violations(inp), Separator))
    ensures inp.token != "" && inp.state != "" ==> r == Defaulted(inp, env)
  {
    if |Violations(inp)| > 0 then Fatal(Text.Join(Violations(inp), Separator))
    else Defaulted(inp, env)
  }

  /** The statements of `main` from reading the inputs up to the creation of
      the status. */
  method Prepare(inp: Input, env: Env) returns (r: Result<Input>)
    ensures r == Prepared(inp, env)
  {
    var err := GetRequiredInputs(inp);
    if err.Some? {
      return Fatal(err.value);
    }
    r := FillDefaults(inp, env);
  }

  /** A missing token or state is reported before the environment is read, so
      the outcome then does not depend on the environment. */
  lemma RequiredInputsCheckedFirst(inp: Input, env1: Env, env2: Env)
    requires inp.token == "" || inp.state == ""
    ensures Prepared(inp, env1) == Prepared(inp, env2)
    ensures Prepared(inp, env1).Fatal?
  {
  }

  /** A run whose workflow was cancelled. */
  const CancelledRun := Input("some-token", "cancelled", "some-context", "some-description",
                              "some-owner", "some-repo", "some-sha", "some-url")

  /** As written, `main` hands a state such as "cancelled" to the status API
      unchanged, although it is not a commit-status state; normalising first
      reports it as "error". */
  lemma RawStateReachesStatus()
    ensures Prepared(CancelledRun, map[]) == Ok(CancelledRun)
    ensures CancelledRun.state !in State.Canonical
    ensures PreparedNormalized(CancelledRun, map[]) == Ok(CancelledRun.(state := "error"))
  {
  }

  /** `main` with the state normalised right after the required-input check,
      an unsupported state being fatal. */
  function PreparedNormalized(inp: Input, env: Env): (r: Result<Input>)
    ensures r.Ok? ==> r.value.state in State.Canonical
    ensures r.Ok? ==> State.GetAndValidateState(inp.state) == Returned(r.value.state, None)
    ensures r.Ok? ==> r.value.token != "" && r.value.owner != "" && r.value.repository != "" && r.value.sha != ""
    ensures inp.token != "" && inp.state != "" && inp.state !in State.Canonical + State.Aliases
            ==> r == Fatal(State.UnsupportedPrefix + inp.state)
    ensures inp.token == "" || inp.state == ""
            ==> r == Fatal(Text.Join(Violations(inp), Separator))
    ensures inp.token != "" && State.GetAndValidateState(inp.state).err.None?
            ==> r == Prepared(inp.(state := State.GetAndValidateState(inp.state).value), env)
  {
    if |Violations(inp)| > 0 then Fatal(Text.Join(Violations(inp), Separator))
    else
      var st := State.GetAndValidateState(inp.state);
      if st.err.Some? then Fatal(st.err.value)
      else Defaulted(inp.(state := st.value), env)
  }

  /** On a state that is already canonical, the corrected flow and the flow as
      written agree. */
  lemma NormalizedAgreesOnCanonical(inp: Input, env: Env)
    requires inp.state in State.Canonical
    ensures PreparedNormalized(inp, env) == Prepared(inp, env)
  {
  }

  const GitHubPrefix := "https://github.com/"

  /** The link to a commit printed once the status is created. */
  function CommitURL(owner: string, repository: string, sha: string): (u: string)
    ensures |u| == |GitHubPrefix| + |owner| + |repository| + |sha| + 10
    ensures u[..|GitHubPrefix|] == GitHubPrefix
    ensures u[|u| - |sha| - 9..] == "/commits/" + sha
  {
    GitHubPrefix + owner + "/" + repository + "/commits/" + sha
  }

  /** `s` without its leading `prefix`, when it has one. */
  function StripPrefix(s: string, prefix: string): (r: Option<string>)
    ensures r.Some? <==> |prefix| <= |s| && s[..|prefix|] == prefix
    ensures r.Some? ==> s == prefix + r.value
  {
    if |prefix| <= |s| && s[..|prefix|] == prefix then Some(s[|prefix|..]) else None
  }

  /** `s` split around its first '/'. */
  function SplitAtSlash(s: string): (r: Option<(string, string)>)
    ensures r.None? <==> '/' !in s
    ensures r.Some? ==> '/' !in r.value.0 && s == r.value.0 + "/" + r.value.1
  {
    match Text.IndexOf(s, '/')
    case None => None
    case Some(i) =>
      assert s == s[..i] + "/" + s[i + 1..];
      Some((s[..i], s[i + 1..]))
  }

  lemma SplitAtFirstSlash(a: string, b: string)
    requires '/' !in a
    ensures SplitAtSlash(a + "/" + b) == Some((a, b))
  {
    Text.IndexOfAfter(a, '/', b);
    var s := a + "/" + b;
    assert s[..|a|] == a && s[|a| + 1..] == b;
  }

  /** The commit link regrouped from the right, the way a parser takes it apart. */
  lemma CommitURLNested(owner: string, repository: string, sha: string)
    ensures CommitURL(owner, repository, sha)
            == GitHubPrefix + (owner + "/" + (repository + "/" + ("commits/" + sha)))
  {
  }

  /** Reads owner, repository and SHA back out of a commit link. */
  function ParseCommitURL(u: string): (r: Option<(string, string, string)>)
  {
    match StripPrefix(u, GitHubPrefix)
    case None => None
    case Some(rest) =>
      match SplitAtSlash(rest)
      case None => None
      case Some((owner, tail)) =>
        match SplitAtSlash(tail)
        case None => None
        case Some((repository, after)) =>
          match StripPrefix(after, "commits/")
          case None => None
          case Some(sha) => Some((owner, repository, sha))
  }

  /** A commit link gives back the owner, repository and SHA it was built from
      when neither owner nor repository contains a '/'. */
  lemma CommitURLRoundTrip(owner: string, repository: string, sha: string)
    requires '/' !in owner && '/' !in repository
    ensures ParseCommitURL(CommitURL(owner, repository, sha)) == Some((owner, repository, sha))
  {
    var after := "commits/" + sha;
    var tail := repository + "/" + after;
    var rest := owner + "/" + tail;
    assert CommitURL(owner, repository, sha) == GitHubPrefix + rest;
    assert StripPrefix(GitHubPrefix + rest, GitHubPrefix) == Some(rest);
    SplitAtFirstSlash(owner, tail);
    SplitAtFirstSlash(repository, after);
    assert StripPrefix(after, "commits/") == Some(sha);
  }

  /** Whatever parses as a commit link is the link built from its parts, and
      those parts contain no '/' in owner and repository. */
  lemma ParseCommitURLSound(u: string)
    requires ParseCommitURL(u).Some?
    ensures '/' !in ParseCommitURL(u).value.0 && '/' !in ParseCommitURL(u).value.1
    ensures u == CommitURL(ParseCommitURL(u).value.0, ParseCommitURL(u).value.1, ParseCommitURL(u).value.2)
  {
    var rest := StripPrefix(u, GitHubPrefix).value;
    var split1 := SplitAtSlash(rest).value;
    var owner, tail := split1.0, split1.1;
    var split2 := SplitAtSlash(tail).value;
    var repository, after := split2.0, split2.1;
    var sha := StripPrefix(after, "commits/").value;
    assert ParseCommitURL(u) == Some((owner, repository, sha));
    assert u == GitHubPrefix + (owner + "/" + (repository + "/" + ("commits/" + sha)));
    CommitURLNested(owner, repository, sha);
  }

  /** The commit status `main` creates: the commit it is attached to, the
      status payload and the commit link reported afterwards. */
  datatype StatusRequest = StatusRequest(
    owner: string,
    repository: string,
    sha: string,
    state: string,
    context: string,
    description: string,
    targetURL: string,
    commitURL: string)

  function NewStatusRequest(inp: Input): (q: StatusRequest)
    ensures q.state == inp.state && q.context == inp.context
            && q.description == inp.description && q.targetURL == inp.detailsURL
    ensures q.owner == inp.owner && q.repository == inp.repository && q.sha == inp.sha
    ensures q.commitURL == CommitURL(q.owner, q.repository, q.sha)
  {
    StatusRequest(inp.owner, inp.repository, inp.sha, inp.state, inp.context,
                  inp.description, inp.detailsURL, CommitURL(inp.owner, inp.repository, inp.sha))
  }

  /** The status `main` creates as written: the state is the one given. */
  function PlanAsWritten(inp: Input, env: Env): (r: Result<StatusRequest>)
    ensures r.Ok? ==> r.value.state == inp.state && r.value.state != ""
    ensures r.Ok? ==> r.value.owner != "" && r.value.repository != "" && r.value.sha != ""
    ensures r.Ok? ==> r.value.context == inp.context && r.value.description == inp.description
                      && r.value.targetURL == inp.detailsURL
    ensures r.Ok? ==> r.value.owner == OrElse(inp.owner, GetOwner(env).value)
                      && r.value.repository == OrElse(inp.repository, GetRepository(env).value)
                      && r.value.sha == OrElse(inp.sha, GetSHA(env).value)
    ensures r.Ok? ==> r.value.commitURL == CommitURL(r.value.owner, r.value.repository, r.value.sha)
    ensures r.Fatal? <==> Prepared(inp, env).Fatal?
    ensures r.Fatal? ==> r.msg == Prepared(inp, env).msg
  {
    match Prepared(inp, env)
    case Fatal(msg) => Fatal(msg)
    case Ok(resolved) => Ok(NewStatusRequest(resolved))
  }

  /** A run with a state that is not supported at all. */
  const UnsupportedRun := CancelledRun.(state := "some-state")

  /** As written, a cancelled run is sent with state "cancelled" and a run
      with an unsupported state is sent too; with the state normalised the
      first is sent as "error" and the second never reaches the API. */
  lemma RawStateIsSent()
    ensures PlanAsWritten(CancelledRun, map[]).Ok?
    ensures PlanAsWritten(CancelledRun, map[]).value.state == "cancelled"
    ensures Plan(CancelledRun, map[]).Ok?
    ensures Plan(CancelledRun, map[]).value.state == "error"
    ensures PlanAsWritten(UnsupportedRun, map[]).Ok?
    ensures PlanAsWritten(UnsupportedRun, map[]).value.state !in State.Canonical
    ensures Plan(UnsupportedRun, map[]) == Fatal(State.UnsupportedPrefix + "some-state")
  {
  }

  /** The status to create for a run with the state normalised: the corrected
      counterpart of `PlanAsWritten`. */
  function Plan(inp: Input, env: Env): (r: Result<StatusRequest>)
    ensures r.Ok? ==> r.value.state in State.Canonical
    ensures r.Ok? ==> r.value.owner != "" && r.value.repository != "" && r.value.sha != ""
    ensures r.Ok? ==> r.value.context == inp.context && r.value.description == inp.description
                      && r.value.targetURL == inp.detailsURL
    ensures r.Ok? ==> State.GetAndValidateState(inp.state) == Returned(r.value.state, None)
    ensures r.Ok? ==> r.value.owner == OrElse(inp.owner, GetOwner(env).value)
                      && r.value.repository == OrElse(inp.repository, GetRepository(env).value)
                      && r.value.sha == OrElse(inp.sha, GetSHA(env).value)
    ensures r.Ok? ==> r.value.commitURL == CommitURL(r.value.owner, r.value.repository, r.value.sha)
    ensures r.Fatal? <==> PreparedNormalized(inp, env).Fatal?
    ensures r.Fatal? ==> r.msg == PreparedNormalized(inp, env).msg
  {
    match PreparedNormalized(inp, env)
    case Fatal(msg) => Fatal(msg)
    case Ok(resolved) => Ok(NewStatusRequest(resolved))
  }

  /** The reported link names the very commit the status was created on. */
  lemma PlanLinksToItsCommit(inp: Input, env: Env)
    requires Plan(inp, env).Ok?
    requires '/' !in Plan(inp, env).value.owner && '/' !in Plan(inp, env).value.repository
    ensures var q := Plan(inp, env).value;
            ParseCommitURL(q.commitURL) == Some((q.owner, q.repository, q.sha))
  {
    var q := Plan(inp, env).value;
    CommitURLRoundTrip(q.owner, q.repository, q.sha);
  }
}
