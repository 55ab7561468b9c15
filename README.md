# commit-status-action: input handling, modelled in Dafny

This project models how the `commit-status-action` GitHub Action (written in Go) handles its inputs before it sets a commit status. It covers:

- normalising a workflow state onto the four commit-status states (`getAndValidateState`);
- checking that `token` and `state` are present and reporting every missing one in a single message (`getRequiredInputs`, with its custom `ErrorFormat`);
- reading `GITHUB_OWNER`, `GITHUB_REPOSITORY` and `GITHUB_SHA` (`getOwner`, `getRepository`, `getSHA`);
- filling empty `owner`, `repository` and `sha` inputs from those variables, field by field, stopping at the first one that is missing (the body of `main`);
- the commit link `https://github.com/<owner>/<repository>/commits/<sha>` that `main` reports.

Modules:

- `Wrappers`: `Option`, `Returned` (a Go `(value, error)` pair, with an error represented by its message text) and `Result` (a value, or a `Fatal` message where the Go code calls `actions.Fatalf`).
- `Text`: Go's `strings.Join`, substring containment, and the first index of a character.
- `State`, `Inputs`, `Environment`: the three groups of helper functions in `main.go`.
- `Action`: the body of `main`, up to and including the commit link.

The process environment is a `map<string, string>` parameter. Go's `os.Getenv` returns `""` for a variable that is unset, so `Environment.Getenv` does the same, and the getters treat an unset variable exactly like an empty one. The action inputs arrive as a plain record rather than through `actions.GetInput` calls. The Go `input` record (main.go:27-36) is the datatype `Inputs.Input`, with one field per action input.

`main.go` strips no owner prefix from the repository. It checks the required inputs before it reads the environment, and it never normalises the state (see Findings).

## Model

| member | source | states |
|---|---|---|
| `State.GetAndValidateState` | main.go:167-177 | Succeeds exactly on the four canonical states and the three aliases. A success always lands in the canonical set. Canonical states pass through unchanged and aliases become `error`. A rejection returns value `""` and the message `state value not supported: ` followed by the state itself. |
| `State.FixedPointsAreCanonical` | main.go:170-171 | A state is returned unchanged and without error if and only if it is one of `error`, `failure`, `pending`, `success`. |
| `State.NormaliseIdempotent` | main.go:167-177 | Normalising an accepted state a second time returns the same result. |
| `State.UnsupportedMessage` | main.go:174-175 | The message for an unsupported state is exactly `state value not supported: <s>`. It contains "value not supported" and it contains the offending value. |
| `State.UnsupportedMessagesDistinct` | main.go:174-175 | Two different rejected states never produce the same error message. |
| `Inputs.Violations` | main.go:116-122 | The token message is listed iff the token is empty, and the state message iff the state is empty. The list is empty iff both are set. Its length is the number of empty fields, so no message is repeated. When both are missing the token message comes first. |
| `Inputs.Append` | main.go:115-122 | Models `multierror.Append` as used here. The new message becomes the last entry, and every earlier entry stays in place. Appending to a nil error gives a one-entry list. |
| `Text.Join` | main.go:130 | Models `strings.Join`. Joining no parts gives `""`, and joining one part gives that part. Otherwise the result begins with the first part and ends with the last. |
| `Text.JoinSnoc` | main.go:130 | Joining a list with one more part gives the earlier join, then the separator, then the new part. With the single-part case, this fixes the joined string for every list. |
| `Inputs.FormatErrors` | main.go:125-131 | The copy loop followed by `strings.Join` renders the errors joined with `", "`. A single error renders as its own text. |
| `Inputs.GetRequiredInputs` | main.go:114-135 | Returns no error iff token and state are both non-empty; the state's value is not checked, so `bar` passes. Otherwise the message joins every violation in check order. Both missing gives exactly `token is a required field, state is a required field`. Only one missing gives that field's message alone. |
| `Inputs.MessageNamesEveryViolation` | main.go:124-131 | Every violated rule's message occurs in the aggregated message. |
| `Text.JoinContainsParts` | main.go:130 | Each part given to `strings.Join` occurs in the joined string. |
| `Environment.Getenv` | main.go:139 | Models `os.Getenv`. An unset variable reads as `""`, and a variable that is set reads as its value. The same call appears at main.go:148 and main.go:157. |
| `Environment.GetOwner` | main.go:138-144 | Returns the value of `GITHUB_OWNER` with no error when it is set and non-empty. Otherwise it returns `""` and `GITHUB_OWNER environment variable not set`. |
| `Environment.GetRepository` | main.go:147-153 | The same for `GITHUB_REPOSITORY` and `GITHUB_REPOSITORY environment variable not set`. |
| `Environment.GetSHA` | main.go:156-162 | The same for `GITHUB_SHA` and `GITHUB_SHA environment variable not set`. |
| `Environment.UnsetIsEmpty` | main.go:139-141 | For every getter, an unset variable and a variable set to `""` give the same result. |
| `Environment.GettersReadOwnVariable` | main.go:138-162 | Changing any other variable does not change a getter's result. |
| `Environment.GettersReturnWhatIsSet` | main.go:138-162 | Setting a getter's variable to a non-empty value makes it return exactly that value, with no error. |
| `Action.Defaulted` | main.go:56-78 | A successful resolution has non-empty owner, repository and sha. Fields that were already set keep their value. Token, state, context, description and details URL are unchanged. A failure carries one of the three environment messages. |
| `Action.FillDefaults` | main.go:56-78 | The field-by-field updates of `main` compute exactly `Defaulted`. |
| `Action.FirstMissingVariableStops` | main.go:56-78 | Gives the exact condition for each fatal message. The owner error happens iff owner is empty and its getter fails. The repository error needs the owner to resolve first, then an empty repository whose getter fails. The SHA error needs both earlier fields to resolve. So the first missing variable stops the process and later fields are not looked at. |
| `Action.EmptyFieldsTakeEnvironment` | main.go:56-78 | An empty field that resolves takes exactly its getter's value. |
| `Action.EnvironmentOnlyForEmptyFields` | main.go:56-78 | Changing the variable of a field that is already set does not change the outcome. |
| `Action.GivenFieldsIgnoreEnvironment` | main.go:56-78 | With owner, repository and sha all given, the record comes out unchanged whatever the environment holds. |
| `Action.Prepared` | main.go:40-78 | After a successful run, token, state, owner, repository and sha are non-empty, and the state is the one given. A missing token or state is fatal, with the aggregated message. With both present, the outcome is exactly `Defaulted`. |
| `Action.Prepare` | main.go:40-78 | The statement sequence of `main` (the required check, then the defaulting) computes exactly `Prepared`. |
| `Action.RequiredInputsCheckedFirst` | main.go:51-54 | A missing token or state is fatal, with an outcome that does not depend on the environment. |
| `Action.RawStateReachesStatus` | main.go:88-93 | As written, a run with state `cancelled` resolves successfully with that state unchanged, although `cancelled` is not a commit-status state. The normalised flow yields `error` instead. |
| `Action.PreparedNormalized` | main.go:164-177 | With normalisation inserted, every successful run has a canonical state, namely the normalisation of the given one. An unsupported state is fatal, with the `state value not supported: ` message. A missing token or state is fatal with the aggregated message. An accepted state, an alias such as `cancelled` included, resolves exactly as `Prepared` does on the normalised state. |
| `Action.NormalizedAgreesOnCanonical` | main.go:170-171 | On a state that is already canonical, the normalised flow and the flow as written give the same result. |
| `Action.CommitURL` | main.go:108 | The commit link begins with `https://github.com/` and ends with `/commits/` followed by the sha. Its length is the prefix, plus the three parts, plus the `/` between owner and repository, plus the 9 characters of `/commits/`. |
| `Action.CommitURLRoundTrip` | main.go:108 | If owner and repository contain no `/`, the commit link can be parsed back into the owner, repository and sha it was built from. |
| `Action.ParseCommitURLSound` | main.go:108 | Every string that parses as a commit link equals the link built from its parsed parts, and those parts contain no `/` in owner or repository. |
| `Action.NewStatusRequest` | main.go:88-97 | The payload carries the record's state, context, description and details URL. The status is addressed to the record's owner, repository and sha, and the reported link is the commit link of exactly that commit. |
| `Action.PlanAsWritten` | main.go:88-108 | The status as `main.go` builds it. Its state is the state given, and it is non-empty. Owner, repository and sha are the resolved values: each given field, or else its environment variable's value. The reported link is the commit link of exactly that commit. Context, description and target URL come from the inputs. It fails exactly when `Prepared` fails, with the same message. |
| `Action.RawStateIsSent` | main.go:88-93 | As written, a cancelled run is sent with state `cancelled`, and a run with state `some-state` is sent too. With the state normalised, the first is sent as `error` and the second is fatal with `state value not supported: some-state`. |
| `Action.Plan` | main.go:88-108 | The corrected counterpart of `PlanAsWritten` (see Findings), not what `main.go` sends. Its state is the normalisation of the given state, and so is canonical. Owner, repository and sha are the resolved values, and the link is the commit link of that commit. Context, description and target URL come from the inputs. It fails exactly when `PreparedNormalized` fails, with the same message. |
| `Action.PlanLinksToItsCommit` | main.go:97-108 | The reported link names the same owner, repository and sha that the status is created on (owner and repository without `/`). |

## Left out

- OAuth2 token source and GitHub client construction (main.go:80-86): foreign library calls with no logic of their own.
- `CreateStatus` and its `retry.Do` Fibonacci backoff with `WithMaxRetries(5)` (main.go:95-106): network I/O and sleeps. The retry policy lives in the `go-retry` library, which is not part of this model. `Action.PlanAsWritten` models the payload of the first `CreateStatus` attempt, not the call itself. A retry re-sends the status that the previous attempt returned, because main.go:97 writes the result back into `status`. What the client library returns from a failed call is not part of this model.
- Logging and process exit through `actions.Fatalf`, `Errorf` and `Infof` (main.go:53, 59, 67, 75, 99, 105, 109): a fatal exit is a `Result.Fatal` carrying the message. Nothing is logged, and the ID and summary text of main.go:109 are not modelled.
- Reading inputs with `actions.GetInput` and variables with `os.Getenv`: these are replaced by the input record and the environment map.
- Owner-prefix stripping, a combined input-reading function, and a status-creation wrapper with an empty-ID check appear only in the test file. They have no counterpart in `main.go`.
- The internals of `go-multierror`: only `Append` on a list of messages and the custom `ErrorFormat` join are modelled. An error value is its message text.

## Findings

| source | as written | input that shows it | evidently intended | confidence | as-written member | corrected member |
|---|---|---|---|---|---|---|
| main.go:88-93 | `main` never calls `getAndValidateState` (main.go:167-177), so the raw state input goes into the status payload. | token `some-token`, state `cancelled`, owner `some-owner`, repository `some-repo`, sha `some-sha`: the status is sent with state `cancelled`, which is not a commit-status state. An unsupported value such as `some-state` is sent as well. | The state is normalised first: `cancelled` is reported as `error`, and an unsupported value stops the run with `state value not supported: <s>`. The status sent either way is `Action.PlanAsWritten` (as written) or `Action.Plan` (corrected), and `Action.RawStateIsSent` compares the two. | medium, not executed | `Action.RawStateReachesStatus` | `Action.PreparedNormalized` |
