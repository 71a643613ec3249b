/**
 * The kill switch's request, its constants, and the decision HandleRequest
 * takes before any cloud call: validate the required fields, default the
 * region, check the per-action fields and route to one of the two executors.
 */
module KillSwitch {
  import opened Text

  // The actions the handler knows; an action is any string.
  const ApplyScp: string := "apply_scp"
  const DeleteRole: string := "delete_role"
  const DetachPolicies: string := "detach_policies"

  /** Region used when the request names none. */
  const DefaultRegion: string := "us-east-1"

  /** The remediation request; an omitted field is the empty string. */
  datatype Request = Request(
    action: string,
    targetAccountID: string,
    roleToAssume: string,
    targetRoleName: string,          // used by delete_role and detach_policies
    orgManagementAccountID: string,  // used by apply_scp
    region: string)

  /** The configuration file's contents; the SCP document is an uninterpreted blob. */
  datatype Config = Config(switchConfigVersion: string, scpPolicy: string)

  /** What reading and decoding the configuration file gave. */
  datatype ConfigLoad = Loaded(config: Config) | LoadFailed(reason: string)

  /** What the handler returns: a message, or an error's text. */
  datatype Outcome = Success(message: string) | Failure(error: string)

  // Validation messages.
  const MissingIdentityMsg: string := "targetAccountID and roleToAssume are required"
  const MissingManagementMsg: string := "managementAccount is required for apply_scp action"
  const MissingRoleNameMsg: string := "targetRoleName is required for delete_role and detach_policies actions"
  const InvalidActionMsg: string := "invalid action"

  /** The configuration error ends with the loader's reason. */
  function ConfigErrorMsg(reason: string): (r: string)
    ensures "error loading config file: " <= r && EndsWith(r, reason)
  {
    "error loading config file: " + reason
  }

  /**
   * The ARN of the role whose credentials an executor acts with: an IAM
   * ARN naming the account, ending with the role's name.
   */
  function RoleArn(account: string, role: string): (r: string)
    ensures "arn:aws:iam::" <= r && EndsWith(r, role)
  {
    "arn:aws:iam::" + account + ":role/" + role
  }

  /** Account ids (twelve digits) never contain a colon. */
  predicate ColonFree(s: string) {
    forall i :: 0 <= i < |s| ==> s[i] != ':'
  }

  /** Index of the first colon in `s`, or `|s|` when there is none. */
  function ColonIndex(s: string): nat {
    if s == [] || s[0] == ':' then 0 else 1 + ColonIndex(s[1..])
  }

  lemma {:induction false} ColonIndexAfter(a: string, rest: string)
    requires ColonFree(a) && |rest| > 0 && rest[0] == ':'
    ensures ColonIndex(a + rest) == |a|
  {
    if a == [] {
      assert a + rest == rest;
    } else {
      assert (a + rest)[1..] == a[1..] + rest;
      ColonIndexAfter(a[1..], rest);
    }
  }

  lemma RoleArnSplit(account: string, role: string)
    ensures RoleArn(account, role) == "arn:aws:iam::" + (account + (":role/" + role))
  {
  }

  /**
   * The role ARN determines the account and the role it was built from, so
   * credentials minted for one account are never those of another.
   */
  lemma RoleArnInjective(a1: string, r1: string, a2: string, r2: string)
    requires ColonFree(a1) && ColonFree(a2)
    requires RoleArn(a1, r1) == RoleArn(a2, r2)
    ensures a1 == a2 && r1 == r2
  {
    var p := "arn:aws:iam::";
    var t1, t2 := a1 + (":role/" + r1), a2 + (":role/" + r2);
    RoleArnSplit(a1, r1);
    RoleArnSplit(a2, r2);
    assert t1 == (p + t1)[|p|..] == (p + t2)[|p|..] == t2;
    ColonIndexAfter(a1, ":role/" + r1);
    ColonIndexAfter(a2, ":role/" + r2);
    assert a1 == t1[..|a1|] == t2[..|a2|] == a2;
    assert r1 == t1[|a1| + 6..] == t2[|a2| + 6..] == r2;
  }

  /**
   * applySCP acts with the management account's credentials and manageRole
   * with the target account's: the two role ARNs are the same exactly when
   * the account ids are, whatever characters the ids hold.
   */
  lemma ExecutorCredentialsDiffer(managementAccount: string, targetAccountID: string, role: string)
    ensures RoleArn(managementAccount, role) == RoleArn(targetAccountID, role) <==> managementAccount == targetAccountID
  {
    if RoleArn(managementAccount, role) == RoleArn(targetAccountID, role) {
      // Both ARNs share the prefix and the ":role/<role>" suffix, so the
      // account parts have the same length and the same characters.
      var p, x, y := "arn:aws:iam::", managementAccount + ":role/" + role, targetAccountID + ":role/" + role;
      RoleArnSplit(managementAccount, role);
      RoleArnSplit(targetAccountID, role);
      assert RoleArn(managementAccount, role) == p + x && RoleArn(targetAccountID, role) == p + y;
      assert x == (p + x)[|p|..] == (p + y)[|p|..] == y;
      assert managementAccount == x[..|managementAccount|] && targetAccountID == y[..|targetAccountID|];
    }
  }

  /** The region the session is created in. */
  function EffectiveRegion(region: string): (r: string)
    ensures r != ""
    ensures region != "" ==> r == region
  {
    if region == "" then DefaultRegion else region
  }

  /** The decision HandleRequest takes. */
  datatype Dispatch =
    | ValidationError(message: string)
    | ConfigError(message: string)
    | InvalidAction
    | RouteApplySCP(region: string, managementAccount: string, targetAccountID: string,
                    roleToAssume: string, scpPolicy: string)
    | RouteManageRole(region: string, action: string, targetAccountID: string,
                      roleToAssume: string, targetRoleName: string)
  {
    /** The request is refused before any executor runs. */
    predicate Rejected() {
      ValidationError? || ConfigError? || InvalidAction?
    }

    /** The error text of a refusal. */
    function RejectionText(): string
      requires Rejected()
    {
      match this
      case ValidationError(m) => m
      case ConfigError(m) => m
      case InvalidAction => InvalidActionMsg
    }
  }

  predicate HasIdentity(req: Request) {
    req.targetAccountID != "" && req.roleToAssume != ""
  }

  predicate IsRoleAction(action: string) {
    action == DetachPolicies || action == DeleteRole
  }

  /**
   * Validation and routing. `config` is what loading the configuration file
   * would give; it is consulted only on the `apply_scp` path, after the
   * management account has been checked.
   */
  function Route(req: Request, config: ConfigLoad): (d: Dispatch)
    // The identity fields are required whatever the action.
    ensures !HasIdentity(req) ==> d == ValidationError(MissingIdentityMsg)
    // apply_scp without a management account is refused.
    ensures HasIdentity(req) && req.action == ApplyScp && req.orgManagementAccountID == ""
            ==> d == ValidationError(MissingManagementMsg)
    // A role action without a role name is refused.
    ensures HasIdentity(req) && IsRoleAction(req.action) && req.targetRoleName == ""
            ==> d == ValidationError(MissingRoleNameMsg)
    // Only the three actions are accepted.
    ensures d.InvalidAction? <==>
            HasIdentity(req) && req.action != ApplyScp && !IsRoleAction(req.action)
    // A configuration failure is reported on the apply_scp path only.
    ensures d.ConfigError? <==>
            HasIdentity(req) && req.action == ApplyScp && req.orgManagementAccountID != ""
            && config.LoadFailed?
    ensures d.ConfigError? ==> d.message == ConfigErrorMsg(config.reason)
    // Exactly the valid apply_scp requests with a readable configuration reach applySCP.
    ensures d.RouteApplySCP? <==>
            HasIdentity(req) && req.action == ApplyScp && req.orgManagementAccountID != ""
            && config.Loaded?
    ensures d.RouteApplySCP? ==>
            d == RouteApplySCP(EffectiveRegion(req.region), req.orgManagementAccountID,
                               req.targetAccountID, req.roleToAssume, config.config.scpPolicy)
    // Exactly the valid role actions reach manageRole.
    ensures d.RouteManageRole? <==>
            HasIdentity(req) && IsRoleAction(req.action) && req.targetRoleName != ""
    ensures d.RouteManageRole? ==>
            d == RouteManageRole(EffectiveRegion(req.region), req.action, req.targetAccountID,
                                 req.roleToAssume, req.targetRoleName)
  {
    if req.targetAccountID == "" || req.roleToAssume == "" then
      ValidationError(MissingIdentityMsg)
    else
      var region := EffectiveRegion(req.region);
      if req.action == ApplyScp then
        if req.orgManagementAccountID == "" then
          ValidationError(MissingManagementMsg)
        else
          match config
          case LoadFailed(reason) => ConfigError(ConfigErrorMsg(reason))
          case Loaded(c) =>
            RouteApplySCP(region, req.orgManagementAccountID, req.targetAccountID,
                          req.roleToAssume, c.scpPolicy)
      else if req.action == DetachPolicies || req.action == DeleteRole then
        if req.targetRoleName == "" then
          ValidationError(MissingRoleNameMsg)
        else
          RouteManageRole(region, req.action, req.targetAccountID, req.roleToAssume,
                          req.targetRoleName)
      else
        InvalidAction
  }

  /**
   * The configuration is not consulted unless the request is a complete
   * apply_scp request: every other request is decided the same way whatever
   * the configuration file holds.
   */
  lemma ConfigOnlyForApplyScp(req: Request, c1: ConfigLoad, c2: ConfigLoad)
    requires !(HasIdentity(req) && req.action == ApplyScp && req.orgManagementAccountID != "")
    ensures Route(req, c1) == Route(req, c2)
  {
  }

  /**
   * An omitted region behaves exactly like "us-east-1", and the region never
   * decides whether a request is refused.
   */
  lemma RegionDefaulting(req: Request, config: ConfigLoad, other: string)
    ensures Route(req.(region := ""), config) == Route(req.(region := DefaultRegion), config)
    ensures Route(req.(region := other), config).Rejected() == Route(req, config).Rejected()
  {
  }
}
