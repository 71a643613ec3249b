/**
 * The organization containment executor (applySCP) run against an in-memory
 * organization service: create a service control policy, then attach it to
 * the target account, with no rollback between the two.
 */
module Organizations {
  import opened Text
  import opened Cloud
  import opened KillSwitch

  // The fixed attributes of the policy applySCP creates.
  const ScpName: string := "HighlyRestrictiveSCP"
  const ScpDescription: string := "Highly Restrictive SCP"
  const ScpType: string := "SERVICE_CONTROL_POLICY"

  /** An organization policy; its content is the uninterpreted policy document. */
  datatype Policy = Policy(id: string, name: string, description: string, kind: string, content: string)

  /** The calls applySCP issues, as the service records them. */
  datatype OrgCall =
    | CreatePolicyCall(name: string, description: string, kind: string, content: string)
    | AttachPolicyCall(policyId: string, targetId: string)

  /** The organization as the service holds it. */
  datatype OrgState = OrgState(
    accounts: set<string>,                 // accounts that can be attached to
    policies: seq<Policy>,                 // created policies, oldest first
    attachments: set<(string, string)>)    // (policy id, target id)

  /** Which calls the service refuses. */
  datatype OrgFaults = OrgFaults(assumable: set<string>, create: bool, attach: bool)

  /** Every call made, the organization left behind, and the result returned. */
  datatype Containment = Containment(calls: seq<OrgCall>, after: OrgState, result: Outcome)

  /** The service issues policy ids from a serial number. */
  function PolicyIdFor(n: nat): string {
    "p-" + Decimal(n)
  }

  predicate HasPolicyNamed(policies: seq<Policy>, name: string) {
    exists p :: p in policies && p.name == name
  }

  predicate HasPolicyId(policies: seq<Policy>, id: string) {
    exists p :: p in policies && p.id == id
  }

  /** The checks CreatePolicy makes, in order. */
  function CreateError(authorized: bool, injected: bool, duplicate: bool): Option<ApiError> {
    if !authorized then Some(AccessDenied)
    else if injected then Some(ServiceFailure)
    else if duplicate then Some(DuplicatePolicy)
    else None
  }

  /** The checks AttachPolicy makes, in order. */
  function AttachError(authorized: bool, injected: bool, policyFound: bool, targetFound: bool): Option<ApiError> {
    if !authorized then Some(AccessDenied)
    else if injected then Some(ServiceFailure)
    else if !policyFound then Some(PolicyNotFound)
    else if !targetFound then Some(TargetNotFound)
    else None
  }

  /** The policy applySCP's create call adds to `s`. */
  function NewScp(s: OrgState, content: string): Policy {
    Policy(PolicyIdFor(|s.policies|), ScpName, ScpDescription, ScpType, content)
  }

  function CreateCall(content: string): OrgCall {
    CreatePolicyCall(ScpName, ScpDescription, ScpType, content)
  }

  // Messages of applySCP; each ends with what it interpolates last.

  /** The error when the policy cannot be created. */
  function CreateErrorMsg(err: string): (r: string)
    ensures "error creating SCP: " <= r && EndsWith(r, err)
  {
    "error creating SCP: " + err
  }

  /** The error when the policy cannot be attached. */
  function AttachErrorMsg(targetAccountID: string, err: string): (r: string)
    ensures "error attaching SCP to account " <= r && EndsWith(r, err)
  {
    "error attaching SCP to account " + targetAccountID + ": " + err
  }

  /** The applySCP result; it ends with the policy id. */
  function ScpAppliedMsg(targetAccountID: string, policyId: string): (r: string)
    ensures "SCP applied to account " <= r && EndsWith(r, policyId)
  {
    "SCP applied to account " + targetAccountID + " with policy ID " + policyId
  }

  /**
   * What applySCP does, in closed form. Once the create call has succeeded the
   * credentials are known to be accepted and the new policy exists, so the
   * attach call fails only when a failure is injected or the target account
   * is not in the organization.
   */
  function ContainmentRun(managementAccount: string, targetAccountID: string, roleToAssume: string,
                          scpPolicy: string, s: OrgState, f: OrgFaults): (r: Containment)
    // Nothing is removed or rolled back; at most the one policy and the one
    // attachment of the new policy to the target are added.
    ensures r.after.accounts == s.accounts
    ensures s.policies <= r.after.policies && |r.after.policies| <= |s.policies| + 1
    ensures s.attachments <= r.after.attachments
    ensures r.after.attachments <= s.attachments + {(PolicyIdFor(|s.policies|), targetAccountID)}
  {
    var authorized := RoleArn(managementAccount, roleToAssume) in f.assumable;
    match CreateError(authorized, f.create, HasPolicyNamed(s.policies, ScpName))
    case Some(e) => Containment([CreateCall(scpPolicy)], s, Failure(CreateErrorMsg(ErrorText(e))))
    case None =>
      var p := NewScp(s, scpPolicy);
      var created := s.(policies := s.policies + [p]);
      var calls := [CreateCall(scpPolicy), AttachPolicyCall(p.id, targetAccountID)];
      if f.attach then
        Containment(calls, created, Failure(AttachErrorMsg(targetAccountID, ErrorText(ServiceFailure))))
      else if targetAccountID !in s.accounts then
        Containment(calls, created, Failure(AttachErrorMsg(targetAccountID, ErrorText(TargetNotFound))))
      else
        Containment(calls, created.(attachments := s.attachments + {(p.id, targetAccountID)}),
                    Success(ScpAppliedMsg(targetAccountID, p.id)))
  }

  // Properties of applySCP, stated on its closed form.

  /**
   * applySCP makes exactly one create call, with the fixed name, description
   * and type and the document as content; an attach call follows it exactly
   * when the create succeeded, and it attaches the new policy's id to the
   * target account. A failed create changes nothing; a created policy stays,
   * whatever the attach does.
   */
  lemma CreateThenAttach(managementAccount: string, targetAccountID: string, roleToAssume: string,
                         scpPolicy: string, s: OrgState, f: OrgFaults)
    ensures var run := ContainmentRun(managementAccount, targetAccountID, roleToAssume, scpPolicy, s, f);
            && 1 <= |run.calls| <= 2
            && run.calls[0] == CreatePolicyCall(ScpName, ScpDescription, ScpType, scpPolicy)
            && (|run.calls| == 1 ==> run.after == s && run.result.Failure?)
            && (|run.calls| == 2 ==>
                  && run.calls[1] == AttachPolicyCall(NewScp(s, scpPolicy).id, targetAccountID)
                  && run.after.policies == s.policies + [NewScp(s, scpPolicy)]
                  && run.after.accounts == s.accounts)
  {
  }

  /**
   * applySCP succeeds exactly when the credentials are accepted, no policy of
   * that name exists yet, neither call fails and the target is an account of
   * the organization; the new policy is then attached to the target and the
   * message names both the account and the policy id.
   */
  lemma ContainmentSucceeds(managementAccount: string, targetAccountID: string, roleToAssume: string,
                            scpPolicy: string, s: OrgState, f: OrgFaults)
    ensures var run := ContainmentRun(managementAccount, targetAccountID, roleToAssume, scpPolicy, s, f);
            run.result.Success? <==>
              && RoleArn(managementAccount, roleToAssume) in f.assumable
              && !f.create && !f.attach
              && !HasPolicyNamed(s.policies, ScpName)
              && targetAccountID in s.accounts
    ensures var run := ContainmentRun(managementAccount, targetAccountID, roleToAssume, scpPolicy, s, f);
            run.result.Success? ==>
              && run.after.attachments == s.attachments + {(NewScp(s, scpPolicy).id, targetAccountID)}
              && Contains(run.result.message, targetAccountID)
              && Contains(run.result.message, NewScp(s, scpPolicy).id)
  {
    ScpAppliedNamesBoth(targetAccountID, NewScp(s, scpPolicy).id);
  }

  /**
   * When the attach fails after the create succeeded, the new policy is left
   * behind, no attachment is added, and the error names the target account.
   */
  lemma AttachFailureOrphansPolicy(managementAccount: string, targetAccountID: string, roleToAssume: string,
                                   scpPolicy: string, s: OrgState, f: OrgFaults)
    ensures var run := ContainmentRun(managementAccount, targetAccountID, roleToAssume, scpPolicy, s, f);
            |run.calls| == 2 && run.result.Failure? ==>
              && NewScp(s, scpPolicy) in run.after.policies
              && run.after.attachments == s.attachments
              && run.result == Failure(AttachErrorMsg(targetAccountID,
                                                      ErrorText(if f.attach then ServiceFailure else TargetNotFound)))
              && Contains(run.result.error, targetAccountID)
  {
    var run := ContainmentRun(managementAccount, targetAccountID, roleToAssume, scpPolicy, s, f);
    if |run.calls| == 2 && run.result.Failure? {
      assert run.after.policies[|s.policies|] == NewScp(s, scpPolicy);
      AttachErrorNamesTarget(targetAccountID, ErrorText(if f.attach then ServiceFailure else TargetNotFound));
    }
  }

  /**
   * With no rollback, a policy left by one run blocks the next: once a run
   * has created the policy, running applySCP again (for any account) fails at
   * the create call and changes nothing.
   */
  lemma CreatedPolicyBlocksRetry(managementAccount: string, targetAccountID: string, roleToAssume: string,
                                 scpPolicy: string, s: OrgState, f: OrgFaults,
                                 managementAccount': string, targetAccountID': string,
                                 roleToAssume': string, scpPolicy': string, f': OrgFaults)
    requires |ContainmentRun(managementAccount, targetAccountID, roleToAssume, scpPolicy, s, f).calls| == 2
    ensures var s' := ContainmentRun(managementAccount, targetAccountID, roleToAssume, scpPolicy, s, f).after;
            var run := ContainmentRun(managementAccount', targetAccountID', roleToAssume', scpPolicy', s', f');
            run.calls == [CreateCall(scpPolicy')] && run.after == s' && run.result.Failure?
  {
  }

  /** The attach error names the target account. */
  lemma AttachErrorNamesTarget(targetAccountID: string, err: string)
    ensures Contains(AttachErrorMsg(targetAccountID, err), targetAccountID)
  {
    assert AttachErrorMsg(targetAccountID, err)
        == "error attaching SCP to account " + targetAccountID + (": " + err);
    ContainsInfix("error attaching SCP to account ", targetAccountID, ": " + err);
  }

  /** The success message names the target account and the policy id. */
  lemma ScpAppliedNamesBoth(targetAccountID: string, policyId: string)
    ensures Contains(ScpAppliedMsg(targetAccountID, policyId), targetAccountID)
    ensures Contains(ScpAppliedMsg(targetAccountID, policyId), policyId)
  {
    assert ScpAppliedMsg(targetAccountID, policyId)
        == "SCP applied to account " + targetAccountID + (" with policy ID " + policyId);
    ContainsInfix("SCP applied to account ", targetAccountID, " with policy ID " + policyId);
    ContainsSuffix("SCP applied to account " + targetAccountID + " with policy ID ", policyId);
  }

  /** The ids issued so far are the serial numbers 0, 1, 2, ... in order. */
  predicate SerialIds(policies: seq<Policy>) {
    forall i :: 0 <= i < |policies| ==> policies[i].id == PolicyIdFor(i)
  }

  lemma PolicyIdForInjective(n: nat, m: nat)
    requires PolicyIdFor(n) == PolicyIdFor(m)
    ensures n == m
  {
    assert PolicyIdFor(n)[2..] == Decimal(n);
    assert PolicyIdFor(m)[2..] == Decimal(m);
    DecimalInjective(n, m);
  }

  /** While ids are issued serially, the policy applySCP creates gets an id no policy has yet. */
  lemma NewScpIdFresh(s: OrgState, content: string)
    requires SerialIds(s.policies)
    ensures !HasPolicyId(s.policies, NewScp(s, content).id)
  {
    if HasPolicyId(s.policies, NewScp(s, content).id) {
      var p :| p in s.policies && p.id == PolicyIdFor(|s.policies|);
      var i :| 0 <= i < |s.policies| && s.policies[i] == p;
      PolicyIdForInjective(i, |s.policies|);
    }
  }

  /** Every attachment refers to a policy of the organization. */
  predicate AttachmentsKnown(s: OrgState) {
    forall a :: a in s.attachments ==> HasPolicyId(s.policies, a.0)
  }

  /**
   * While ids are serial and every attachment refers to an existing policy,
   * the policy a failed attach leaves behind is attached to no target at all.
   */
  lemma OrphanedPolicyUnattached(managementAccount: string, targetAccountID: string, roleToAssume: string,
                                 scpPolicy: string, s: OrgState, f: OrgFaults)
    requires SerialIds(s.policies) && AttachmentsKnown(s)
    ensures var run := ContainmentRun(managementAccount, targetAccountID, roleToAssume, scpPolicy, s, f);
            |run.calls| == 2 && run.result.Failure? ==>
              forall t :: (NewScp(s, scpPolicy).id, t) !in run.after.attachments
  {
    NewScpIdFresh(s, scpPolicy);
  }

  /** applySCP only ever attaches the policy it has just created. */
  lemma ContainmentKeepsAttachmentsKnown(managementAccount: string, targetAccountID: string, roleToAssume: string,
                                         scpPolicy: string, s: OrgState, f: OrgFaults)
    requires AttachmentsKnown(s)
    ensures AttachmentsKnown(ContainmentRun(managementAccount, targetAccountID, roleToAssume, scpPolicy, s, f).after)
  {
    var after := ContainmentRun(managementAccount, targetAccountID, roleToAssume, scpPolicy, s, f).after;
    forall a | a in after.attachments
      ensures HasPolicyId(after.policies, a.0)
    {
      if a !in s.attachments {
        assert after.policies[|s.policies|] == NewScp(s, scpPolicy);
      }
    }
  }

  /** applySCP keeps the ids serial, so every later run's policy is fresh too. */
  lemma ContainmentKeepsSerialIds(managementAccount: string, targetAccountID: string, roleToAssume: string,
                                  scpPolicy: string, s: OrgState, f: OrgFaults)
    requires SerialIds(s.policies)
    ensures SerialIds(ContainmentRun(managementAccount, targetAccountID, roleToAssume, scpPolicy, s, f).after.policies)
  {
    var after := ContainmentRun(managementAccount, targetAccountID, roleToAssume, scpPolicy, s, f).after;
    if after.policies != s.policies {
      assert after.policies == s.policies + [NewScp(s, scpPolicy)];
    }
  }

  /** The organization service, as seen from the management account. */
  class Organization {
    const accounts: set<string>
    const faults: OrgFaults
    var policies: seq<Policy>
    var attachments: set<(string, string)>
    var log: seq<OrgCall>       // every call made, failed ones included
    var caller: string          // role ARN the client's credentials are for
    var region: string          // region the client's session is in

    function State(): OrgState
      reads this`policies, this`attachments
    {
      OrgState(accounts, policies, attachments)
    }

    predicate Authorized()
      reads this`caller
    {
      caller in faults.assumable
    }

    constructor (accounts: set<string>, policies: seq<Policy>, attachments: set<(string, string)>,
                 faults: OrgFaults)
      ensures State() == OrgState(accounts, policies, attachments) && this.faults == faults
      ensures log == [] && caller == "" && region == ""
    {
      this.accounts, this.faults := accounts, faults;
      this.policies, this.attachments := policies, attachments;
      log, caller, region := [], "", "";
    }

    /** Points the client at a region and at an assumed role's credentials. */
    method Connect(region: string, roleArn: string)
      modifies this`caller, this`region
      ensures caller == roleArn && this.region == region
    {
      caller, this.region := roleArn, region;
    }

    /** Creates a policy; the service refuses a second policy of the same name. */
    method CreatePolicy(content: string, description: string, name: string, kind: string)
      returns (reply: Reply<string>)
      modifies this`log, this`policies
      ensures log == old(log) + [CreatePolicyCall(name, description, kind, content)]
      ensures var e := CreateError(Authorized(), faults.create, HasPolicyNamed(old(policies), name));
              var id := PolicyIdFor(|old(policies)|);
              if e.Some? then reply == Fail(e.value) && policies == old(policies)
              else reply == Ok(id) && policies == old(policies) + [Policy(id, name, description, kind, content)]
    {
      log := log + [CreatePolicyCall(name, description, kind, content)];
      var e := CreateError(Authorized(), faults.create, HasPolicyNamed(policies, name));
      if e.Some? {
        reply := Fail(e.value);
      } else {
        var id := PolicyIdFor(|policies|);
        policies := policies + [Policy(id, name, description, kind, content)];
        reply := Ok(id);
      }
    }

    method AttachPolicy(policyId: string, targetId: string) returns (status: Status)
      modifies this`log, this`attachments
      ensures log == old(log) + [AttachPolicyCall(policyId, targetId)]
      ensures var e := AttachError(Authorized(), faults.attach, HasPolicyId(policies, policyId),
                                   targetId in accounts);
              if e.Some? then status == Failed(e.value) && attachments == old(attachments)
              else status == Done && attachments == old(attachments) + {(policyId, targetId)}
    {
      log := log + [AttachPolicyCall(policyId, targetId)];
      var e := AttachError(Authorized(), faults.attach, HasPolicyId(policies, policyId), targetId in accounts);
      if e.Some? {
        status := Failed(e.value);
      } else {
        attachments := attachments + {(policyId, targetId)};
        status := Done;
      }
    }

    /**
     * applySCP: acting as `roleToAssume` in the management account, create the
     * containment policy and attach it to the target account.
     */
    method ApplySCP(region: string, managementAccount: string, targetAccountID: string,
                    roleToAssume: string, scpPolicy: string) returns (res: Outcome)
      modifies this
      ensures caller == RoleArn(managementAccount, roleToAssume) && this.region == region
      ensures var run := ContainmentRun(managementAccount, targetAccountID, roleToAssume, scpPolicy,
                                        old(State()), faults);
              log == old(log) + run.calls && State() == run.after && res == run.result
    {
      Connect(region, RoleArn(managementAccount, roleToAssume));
      var created := CreatePolicy(scpPolicy, ScpDescription, ScpName, ScpType);
      if created.Fail? {
        return Failure(CreateErrorMsg(ErrorText(created.error)));
      }
      var policyId := created.value;
      assert policies[|policies| - 1].id == policyId;
      var attached := AttachPolicy(policyId, targetAccountID);
      if attached.Failed? {
        return Failure(AttachErrorMsg(targetAccountID, ErrorText(attached.error)));
      }
      return Success(ScpAppliedMsg(targetAccountID, policyId));
    }
  }
}
