/** The webhook's one admission rule: Pods must carry the "hello" label. */
module Policy {
  import opened Wrappers
  import opened Admission

  const HelloLabel := "hello"
  const DeprecatedValue := "world"
  const MissingLabelMessage := "missing required hello label"
  const DeprecationWarning := "world will be deprecated for hello in the future"

  /**
   * The response the rule gives for a Pod's labels, before the envelope
   * copies in the request's UID (so the UID is still empty).
   */
  function Evaluate(labels: map<string, string>): (resp: AdmissionResponse)
    ensures resp.uid == ""
    ensures resp.allowed <==> HelloLabel in labels
    ensures resp.result.Some? <==> !resp.allowed
    ensures HelloLabel !in labels ==> resp.result == Some(Status(MissingLabelMessage)) && resp.warnings == []
    ensures HelloLabel in labels && labels[HelloLabel] == DeprecatedValue ==> resp.warnings == [DeprecationWarning]
    ensures HelloLabel in labels && labels[HelloLabel] != DeprecatedValue ==> resp.warnings == []
  {
    if HelloLabel !in labels then
      AdmissionResponse("", false, Some(Status(MissingLabelMessage)), [])
    else if labels[HelloLabel] == DeprecatedValue then
      AdmissionResponse("", true, None, [DeprecationWarning])
    else
      AdmissionResponse("", true, None, [])
  }

  /** The verdict depends on the "hello" label alone. */
  lemma OnlyHelloMatters(a: map<string, string>, b: map<string, string>)
    requires HelloLabel in a <==> HelloLabel in b
    requires HelloLabel in a ==> a[HelloLabel] == b[HelloLabel]
    ensures Evaluate(a) == Evaluate(b)
  {
  }
}
