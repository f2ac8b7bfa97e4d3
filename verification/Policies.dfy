/** The poll-refreshed policy cache of lib/policy.rs. */
module Policies {
  import opened Prelude
  import opened Storage

  class PolicyCache {
    var inner: PolicyMap

    constructor ()
      ensures inner == map[]
    {
      inner := map[];
    }

    /** Take a snapshot of the control plane and install it whole. */
    method Refresh(cp: InMemControlPlane) returns (n: nat)
      modifies this
      ensures inner == PoliciesOf(old(cp.State())) && n == |inner|
    {
      var snapshot := cp.Snapshot();
      n := |snapshot|;
      inner := snapshot;
    }

    method Get(account: Text) returns (policy: Option<AccountPolicy>)
      ensures policy == if account in inner then Some(inner[account]) else None
    {
      if account in inner {
        return Some(inner[account]);
      }
      return None;
    }
  }
}
