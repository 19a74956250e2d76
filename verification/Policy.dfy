/** From a baseline to the action the gateway enforces (internal/model/gateway_action.go). */
module Policy {
  import opened Common

  const ACTION_MASK := "mask"
  const ACTION_BLOCK := "block"
  const ACTION_DETECT := "detect"
  const PER_POLICY := "per_policy"

  datatype Baseline = Baseline(id: string, piiRedaction: string, zdr: string)

  /** The applied policy: its baseline, and the operator's retention attestation if given. */
  datatype AppliedPolicy = AppliedPolicy(baseline: string, zdrAttested: Option<bool>)

  predicate RequiresZDRAttestation(b: Baseline) { b.piiRedaction == "on+phi" && b.zdr == "enforced" }

  function GatewayAction(b: Baseline, zdrAttested: bool): string {
    if b.piiRedaction == "off" then ACTION_DETECT
    else if b.piiRedaction == "on+phi" && RequiresZDRAttestation(b) && !zdrAttested then ACTION_BLOCK
    else ACTION_MASK
  }

  /** Whether an action gates traffic at all. */
  predicate Enforces(action: string) { action == ACTION_MASK || action == ACTION_BLOCK }

  /** Only switching redaction off leaves traffic ungated; attesting only ever relaxes a block. */
  lemma ActionMeaning(b: Baseline, attested: bool)
    ensures Enforces(GatewayAction(b, attested)) <==> b.piiRedaction != "off"
    ensures GatewayAction(b, false) != GatewayAction(b, true) <==> b.piiRedaction == "on+phi" && b.zdr == "enforced"
    ensures GatewayAction(b, true) != ACTION_BLOCK
  {
  }
}
