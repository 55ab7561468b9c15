/** The normalisation of a workflow state onto a commit-status state
    (`getAndValidateState`). */
module State {
  import opened Wrappers
  import Text

  /** The four states a commit status may have. */
  const Canonical: set<string> := {"error", "failure", "pending", "success"}

  /** Workflow outcomes that have no commit-status state of their own and are
      reported as `error`. */
  const Aliases: set<string> := {"cancel", "cancelled", "skipped"}

  const UnsupportedPrefix := "state value not supported: "

  /** Canonical states pass through, the aliases become `error`, anything else
      yields the empty value and an error that names the offending state. */
  function GetAndValidateState(s: string): (r: Returned<string>)
    ensures r.err.None? <==> s in Canonical + Aliases
    ensures r.err.None? ==> r.value in Canonical
    ensures s in Canonical ==> r.value == s
    ensures s in Aliases ==> r.value == "error"
    ensures r.err.Some? ==> r.value == "" && |r.err.value| >= |UnsupportedPrefix|
    ensures r.err.Some? ==> r.err.value[..|UnsupportedPrefix|] == UnsupportedPrefix
    ensures r.err.Some? ==> r.err.value[|UnsupportedPrefix|..] == s
  {
    match s
    case "error" | "failure" | "pending" | "success" => Returned(s, None)
    case "cancel" | "cancelled" | "skipped" => Returned("error", None)
    case _ => Returned("", Some(UnsupportedPrefix + s))
  }

  /** The canonical states are exactly the values left unchanged without error. */
  lemma FixedPointsAreCanonical(s: string)
    ensures GetAndValidateState(s) == Returned(s, None) <==> s in Canonical
  {
  }

  /** Normalising an accepted state a second time changes nothing. */
  lemma NormaliseIdempotent(s: string)
    requires GetAndValidateState(s).err.None?
    ensures GetAndValidateState(GetAndValidateState(s).value) == GetAndValidateState(s)
  {
  }

  /** A rejected state gets the message `state value not supported: <s>`,
      which says the value is not supported and quotes it. */
  lemma UnsupportedMessage(s: string)
    requires s !in Canonical + Aliases
    ensures GetAndValidateState(s).err == Some(UnsupportedPrefix + s)
    ensures Text.Contains(GetAndValidateState(s).err.value, "value not supported")
    ensures Text.Contains(GetAndValidateState(s).err.value, s)
  {
    var m := UnsupportedPrefix + s;
    assert m == "state " + ("value not supported" + (": " + s));
    Text.ContainsStart("value not supported", ": " + s);
    Text.ContainsAfter("state ", "value not supported" + (": " + s), "value not supported");
    Text.ContainsStart(s, "");
    assert s + "" == s;
    Text.ContainsAfter(UnsupportedPrefix, s, s);
  }

  /** Two different rejected states never share a message. */
  lemma UnsupportedMessagesDistinct(s: string, t: string)
    requires GetAndValidateState(s).err.Some? && GetAndValidateState(t).err.Some?
    requires s != t
    ensures GetAndValidateState(s).err != GetAndValidateState(t).err
  {
  }
}
