/**
 * HandleRequest as it runs: validate, default the region, read the
 * configuration file only for apply_scp, and run the chosen executor. It is
 * proved against the pure decision KillSwitch.Route and the executors'
 * closed forms.
 */
module Handler {
  import opened Cloud
  import opened KillSwitch
  import Iam
  import Organizations

  /** The configuration file switch.conf; `loads` counts how often it is read. */
  class ConfigFile {
    const contents: ConfigLoad
    var loads: nat

    constructor (contents: ConfigLoad)
      ensures this.contents == contents && loads == 0
    {
      this.contents := contents;
      loads := 0;
    }

    /** Reads and decodes the file. */
    method Load() returns (c: ConfigLoad)
      modifies this`loads
      ensures c == contents && loads == old(loads) + 1
    {
      c := contents;
      loads := loads + 1;
    }
  }

  /**
   * A refused request touches neither provider; the configuration file is
   * read exactly when the request is a complete apply_scp request; apply_scp
   * acts with the management account's credentials and leaves the identity
   * provider alone; the role actions act with the target account's
   * credentials and leave the organization alone.
   */
  method HandleRequest(request: Request, config: ConfigFile, iam: Iam.IamProvider,
                       org: Organizations.Organization) returns (res: Outcome)
    requires iam.Valid()
    modifies config, iam, org
    ensures iam.Valid()
    ensures var d := Route(request, config.contents);
            config.loads == old(config.loads) + (if d.ConfigError? || d.RouteApplySCP? then 1 else 0)
    ensures var d := Route(request, config.contents);
            d.Rejected() ==> res == Failure(d.RejectionText()) && unchanged(iam) && unchanged(org)
    ensures var d := Route(request, config.contents);
            d.RouteApplySCP? ==>
              && unchanged(iam)
              && org.caller == RoleArn(d.managementAccount, d.roleToAssume) && org.region == d.region
              && var run := Organizations.ContainmentRun(d.managementAccount, d.targetAccountID,
                                                         d.roleToAssume, d.scpPolicy,
                                                         old(org.State()), org.faults);
                 org.log == old(org.log) + run.calls && org.State() == run.after && res == run.result
    ensures var d := Route(request, config.contents);
            d.RouteManageRole? ==>
              && unchanged(org)
              && iam.caller == RoleArn(d.targetAccountID, d.roleToAssume) && iam.region == d.region
              && var run := Iam.Remediation(d.action, d.targetAccountID, d.roleToAssume,
                                            d.targetRoleName, old(iam.State()), iam.faults);
                 iam.log == old(iam.log) + run.calls && iam.State() == run.after && res == run.result
  {
    if request.targetAccountID == "" || request.roleToAssume == "" {
      return Failure(MissingIdentityMsg);
    }
    var region := request.region;
    if region == "" {
      region := DefaultRegion;
    }
    if request.action == ApplyScp {
      if request.orgManagementAccountID == "" {
        return Failure(MissingManagementMsg);
      }
      var loaded := config.Load();
      if loaded.LoadFailed? {
        return Failure(ConfigErrorMsg(loaded.reason));
      }
      res := org.ApplySCP(region, request.orgManagementAccountID, request.targetAccountID,
                          request.roleToAssume, loaded.config.scpPolicy);
    } else if request.action == DetachPolicies || request.action == DeleteRole {
      if request.targetRoleName == "" {
        return Failure(MissingRoleNameMsg);
      }
      res := iam.ManageRole(region, request.action, request.targetAccountID, request.roleToAssume,
                            request.targetRoleName);
    } else {
      return Failure(InvalidActionMsg);
    }
  }
}
