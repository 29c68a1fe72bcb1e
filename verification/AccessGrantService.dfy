/** Stored grants and the patch that narrows one (src/access/access-grant-service.ts). Issuing,
    pausing, revoking and authenticating are not part of this model. */
module AccessGrantService {
  import opened Options
  import opened AccessTypes
  import opened GrantNarrowing
  import opened NarrowingRefinement
  import opened NarrowingEffect

  class AccessGrantService {
    var grants: map<string, Grant>

    constructor (grants: map<string, Grant>)
      ensures this.grants == grants
    {
      this.grants := grants;
    }

    /** The store changes only by an accepted patch, and then by a grant that refines the one it
        replaces and in which the patch has taken effect; a rejected patch says which field would
        widen. */
    method NarrowGrant(grantId: string, patch: Patch) returns (result: Option<NarrowResult>)
      modifies this
      ensures grantId !in old(grants) ==> result == None && grants == old(grants)
      ensures grantId in old(grants) ==> result == Some(GrantNarrowing.NarrowGrant(old(grants)[grantId], patch))
      ensures result.Some? && result.value.Rejected? ==> grants == old(grants)
      ensures result.Some? && result.value.Narrowed? ==>
                && grantId in old(grants) && grants == old(grants)[grantId := result.value.grant]
                && Refines(result.value.grant, old(grants)[grantId])
                && TakesEffect(old(grants)[grantId], patch, result.value.grant)
    {
      if grantId !in grants { return None; }
      var grant := grants[grantId];
      var reason := FindWidening(grant, patch);
      if reason.Some? { return Some(Rejected(reason.value)); }
      var denied := Union(grant.deniedCapabilities, patch.additionalDeniedCapabilities);
      var updated := grant.(
        version := grant.version + 1,
        expiresAt := if patch.expiresAt.Some? then patch.expiresAt.value.time else grant.expiresAt,
        deniedCapabilities := denied,
        symbolWrightCapabilities := Without(grant.symbolWrightCapabilities, denied),
        githubCapabilities := Without(grant.githubCapabilities, denied));
      if patch.executionLimits.Some? {
        updated := updated.(executionLimits := MergeExecutionLimits(grant.executionLimits, patch.executionLimits.value));
      }
      if patch.sessionLimits.Some? {
        updated := updated.(sessionLimits := MergeSessionLimits(grant.sessionLimits, patch.sessionLimits.value));
      }
      if patch.clientConstraints.Some? {
        updated := updated.(clientConstraints := Some(MergeConstraints(grant.clientConstraints, patch.clientConstraints.value)));
      }
      NarrowingRefinesAuthority(grant, patch);
      AcceptedPatchTakesEffect(grant, patch);
      grants := grants[grantId := updated];
      result := Some(Narrowed(updated));
    }

    /** The checks of a patch, in order: why it is rejected, if it is. */
    method FindWidening(grant: Grant, patch: Patch) returns (reason: Option<string>)
      ensures reason.None? <==> GrantNarrowing.NarrowGrant(grant, patch).Narrowed?
      ensures reason.Some? ==> GrantNarrowing.NarrowGrant(grant, patch) == Rejected(reason.value)
    {
      if patch.expiresAt.Some? {
        match patch.expiresAt.value {
          case NotADate => return Some("expiresAt must be a valid date.");
          case ExpiresAt(time) => if time >= grant.expiresAt { return Some("expiresAt"); }
        }
      }
      if patch.executionLimits.Some? {
        reason := FindExecutionLimitsWideningViolation(grant.executionLimits, patch.executionLimits.value);
        if reason.Some? { return; }
      }
      if patch.sessionLimits.Some? {
        reason := FindSessionLimitsWideningViolation(grant.sessionLimits, patch.sessionLimits.value);
        if reason.Some? { return; }
      }
      if patch.clientConstraints.Some? {
        reason := FindClientConstraintsWideningViolation(grant.clientConstraints, patch.clientConstraints.value);
        if reason.Some? { return; }
      }
      reason := None;
    }
  }
}
