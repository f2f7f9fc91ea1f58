/**
 * The portal gate: a caller-supplied key is checked against the key configured in the
 * deployment's environment (`PORTAL_KEY`). The environment variable is a parameter here.
 */
module PortalAuth {
  import opened Wrappers

  const AccessDenied: string := "The sacred symbols do not align. Access denied."

  /** `!requiredKey` in JavaScript: the variable is unset or empty, so the gate is open. */
  predicate GateOpen(configured: Option<string>) {
    configured.None? || configured.value == ""
  }

  /**
   * `verifyPortalKey`: passes when the gate is open, and otherwise exactly when the caller
   * supplied the configured key; an absent key never matches a configured one.
   */
  function VerifyPortalKey(configured: Option<string>, provided: Option<string>): (r: Outcome)
    ensures GateOpen(configured) ==> r == Done
    ensures !GateOpen(configured) ==> (r.Done? <==> provided == Some(configured.value))
    ensures r.Failed? ==> r.message == AccessDenied
  {
    if GateOpen(configured) then Done
    else if provided != configured then Failed(AccessDenied)
    else Done
  }

  /**
   * `checkPortalKey`: the non-throwing twin of `verifyPortalKey`; it reports `valid` exactly
   * when `verifyPortalKey` would not throw for the same key.
   */
  function CheckPortalKey(configured: Option<string>, portalKey: string): (valid: bool)
    ensures valid <==> VerifyPortalKey(configured, Some(portalKey)).Done?
  {
    if GateOpen(configured) then true
    else portalKey == configured.value
  }
}
