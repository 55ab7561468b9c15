/** The action's input record and the check of its required fields
    (`input`, `getRequiredInputs`). */
module Inputs {
  import opened Wrappers
  import Text

  /** The action inputs as read from the workflow, one field per input. */
  datatype Input = Input(
    token: string,
    state: string,
    context: string,
    description: string,
    owner: string,
    repository: string,
    sha: string,
    detailsURL: string)

  const TokenRequired := "token is a required field"
  const StateRequired := "state is a required field"

  /** The separator the custom error format puts between messages. */
  const Separator := ", "

  /** The violations of the required-field rules, in the order they are
      checked: the token first, then the state. */
  function Violations(inp: Input): (v: seq<string>)
    ensures TokenRequired in v <==> inp.token == ""
    ensures StateRequired in v <==> inp.state == ""
    ensures |v| == 0 <==> inp.token != "" && inp.state != ""
    ensures |v| == (if inp.token == "" then 1 else 0) + (if inp.state == "" then 1 else 0)
    ensures |v| == 2 ==> v == [TokenRequired, StateRequired]
  {
    (if inp.token == "" then [TokenRequired] else [])
    + (if inp.state == "" then [StateRequired] else [])
  }

  /** `multierror.Append`: a nil multi-error becomes one holding just the new
      error; otherwise the new error goes at the end of the list. */
  function Append(err: Option<seq<string>>, msg: string): (r: Option<seq<string>>)
    ensures r.Some? && |r.value| > 0 && r.value[|r.value| - 1] == msg
    ensures r.value[..|r.value| - 1] == (if err.Some? then err.value else [])
  {
    match err
    case None => Some([msg])
    case Some(errs) => Some(errs + [msg])
  }

  /** The custom `ErrorFormat`: collect each error's text into a fresh slice,
      then join the slice with ", ". */
  method FormatErrors(errs: seq<string>) returns (msg: string)
    ensures msg == Text.Join(errs, Separator)
    ensures |errs| == 1 ==> msg == errs[0]
  {
    var errStr: seq<string> := [];
    for i := 0 to |errs|
      invariant errStr == errs[..i]
    {
      errStr := errStr + [errs[i]];
    }
    assert errStr == errs;
    msg := Text.Join(errStr, Separator);
  }

  /** Reports every missing required input at once; `None` when both the token
      and the state are present. The state is only checked for being
      non-empty, not for being a supported value. */
  method GetRequiredInputs(inp: Input) returns (err: Option<string>)
    ensures err.None? <==> inp.token != "" && inp.state != ""
    ensures err.Some? ==> err.value == Text.Join(Violations(inp), Separator)
    ensures inp.token == "" && inp.state == "" ==> err == Some(TokenRequired + Separator + StateRequired)
    ensures inp.token == "" && inp.state != "" ==> err == Some(TokenRequired)
    ensures inp.token != "" && inp.state == "" ==> err == Some(StateRequired)
  {
    var acc: Option<seq<string>> := None;
    if inp.token == "" {
      acc := Append(acc, TokenRequired);
    }
    if inp.state == "" {
      acc := Append(acc, StateRequired);
    }
    if acc.Some? {
      assert acc.value == Violations(inp);
      var msg := FormatErrors(acc.value);
      err := Some(msg);
    } else {
      err := None;
    }
  }

  /** The aggregated message names every violated rule. */
  lemma MessageNamesEveryViolation(inp: Input, m: string)
    requires m in Violations(inp)
    ensures Text.Contains(Text.Join(Violations(inp), Separator), m)
  {
    var v := Violations(inp);
    var k :| 0 <= k < |v| && v[k] == m;
    Text.JoinContainsParts(v, Separator, k);
  }
}
