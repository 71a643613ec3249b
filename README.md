# awskillswitch — a verified model of the remediation dispatcher

awskillswitch is a Lambda handler that contains a compromised AWS account. It
receives a request naming an action. `apply_scp` creates a highly restrictive
service control policy (SCP) in the organization and attaches it to the target
account. `detach_policies` strips an IAM role of its managed and inline
policies. `delete_role` does the same and then deletes the role.

This project models the handler's decision and sequencing logic in Dafny and
proves what it does:

- `KillSwitch` (killswitch.dfy): the action constants, the default region, the
  `Request` and `Config` records, the role-ARN format, and `Route`. `Route` is the
  decision `HandleRequest` takes: required fields, default region, per-action
  fields, and the route to `applySCP`, to `manageRole` or to "invalid action".
- `Iam` (iam.dfy): an in-memory IAM service holding one role. It is a class
  whose state is the attached policy ARNs, the inline policy names, a
  role-exists flag, a call log and injected failures. `ManageRole` is the
  executor. It is proved against `Remediation`, a closed form of the same
  sequence built on `FirstIn` (the index of the first call that fails). For
  proof economy, the body of `manageRole` is split across methods that follow
  the source's order: `DetachEach` and `DeleteEachInline` hold the two loops,
  and `RunDetachPhase`, `RunInlinePhase` and `ApplyRolePhase` hold what follows
  each step.
- `Organizations` (organizations.dfy): an in-memory organization service with
  created policies, (policy, target) attachments, a call log and injected
  failures. `ApplySCP` is proved against its closed form `ContainmentRun`.
- `Handler` (handler.dfy): `HandleRequest` as it runs. It reads the
  configuration file lazily (a `ConfigFile` object counts its reads) and runs
  the chosen executor. It is proved against `Route` and the two closed forms.
- `Cloud` (cloud.dfy) and `Text` (text.dfy): provider error codes and replies,
  and a substring predicate for stating what messages contain.

Credentials: `stscreds.NewCredentials` is lazy, so a refused role assumption
first shows up as the failure of the executor's first call. The model does the
same. Each executor points its client at `RoleArn(account, role)`. Every
provider call fails with `AccessDenied` unless that ARN is among the
provider's assumable roles.

Facts about the code that the model keeps:
- Every error is a plain string built with `errors.New` or `fmt.Errorf`. An
  unknown action gives the text "invalid action". The decision datatype
  keeps `ValidationError`, `ConfigError` and `InvalidAction` apart, and
  `HandleRequest` returns the corresponding text.
- The code never checks whether a role still holds policies before deleting
  it. The provider model refuses such a deletion (`DeleteConflict`). The
  closed form's role step (`Iam.RolePhase`) is only reached once both lists
  are empty, and `Iam.NoDeleteConflict` proves that, with the model's
  one-page lists, manageRole never reports that refusal.

## Model

| member | source | states |
|---|---|---|
| KillSwitch.Route | awskillswitch.go:44-78 | missing target account or role to assume is refused for every action; apply_scp without a management account, and a role action without a role name, are refused; "invalid action" exactly for actions other than the three; a config error exactly for complete apply_scp requests whose config load failed; which requests reach applySCP and manageRole (both directions) and with which arguments, including the defaulted region |
| KillSwitch.EffectiveRegion | awskillswitch.go:49-52 | the session region is never empty, and a given region is passed through unchanged |
| KillSwitch.RoleArn | awskillswitch.go:95 | the credentials ARN starts with `arn:aws:iam::` and ends with the role name |
| KillSwitch.ConfigErrorMsg | awskillswitch.go:67 | the config error starts with "error loading config file: " and ends with the loader's reason |
| KillSwitch.RegionDefaulting | awskillswitch.go:24-25 | an omitted region is decided exactly as "us-east-1"; the region never decides whether a request is refused |
| KillSwitch.ConfigOnlyForApplyScp | awskillswitch.go:58-68 | the configuration is not consulted unless the request is a complete apply_scp request (management account checked first) |
| KillSwitch.RoleArnInjective | awskillswitch.go:95 | the role ARN `arn:aws:iam::<account>:role/<role>` determines its account and role (for colon-free account ids) |
| KillSwitch.ExecutorCredentialsDiffer | awskillswitch.go:130 | applySCP's credentials (management account) and manageRole's (target account) are the same ARN exactly when the account ids are the same, whatever characters the ids hold |
| Handler.HandleRequest | awskillswitch.go:44-78 | a refused request returns the refusal text and touches neither provider; the config file is read exactly once for complete apply_scp requests and never otherwise; apply_scp leaves IAM untouched and acts as the management-account role; role actions leave the organization untouched and act as the target-account role; each executor's calls, end state and result are those of its closed form |
| Handler.ConfigFile.Load | awskillswitch.go:63-68 | reading the configuration returns its contents and counts one read |
| Iam.IamProvider.Connect | awskillswitch.go:130-131 | the IAM client acts in the session's region with the credentials of the given role ARN |
| Iam.IamProvider.ListAttachedRolePolicies | awskillswitch.go:134-137 | one logged call; fails on refused credentials, an injected failure or a missing role, else returns the attached ARNs |
| Iam.IamProvider.DetachRolePolicy | awskillswitch.go:141-144 | one logged call; on success removes exactly that ARN from the role and keeps the ARNs distinct; on failure changes nothing |
| Iam.IamProvider.ListRolePolicies | awskillswitch.go:151-154 | one logged call; returns the inline policy names unless refused |
| Iam.IamProvider.DeleteRolePolicy | awskillswitch.go:158-161 | one logged call; on success removes exactly that inline policy; on failure changes nothing |
| Iam.IamProvider.DeleteRole | awskillswitch.go:169-172 | one logged call; refuses a role that still holds policies; on success the role no longer exists |
| Iam.IamProvider.DetachEach | awskillswitch.go:139-148 | detaches the listed ARNs in order up to the first failure; the number done is `FirstIn`; the calls up to and including the failing one are logged; the rest stay attached |
| Iam.IamProvider.DeleteEachInline | awskillswitch.go:156-165 | deletes the listed inline policies in order up to the first failure; the number done is `FirstIn`; the calls up to and including the failing one are logged; the rest stay in place |
| Iam.IamProvider.RunDetachPhase | awskillswitch.go:139-176 | after a successful list: the detach loop and what follows, as the closed form's detach phase |
| Iam.IamProvider.RunInlinePhase | awskillswitch.go:150-176 | after every detach: the inline list, the inline loop and what follows, as the closed form's inline phase |
| Iam.IamProvider.ApplyRolePhase | awskillswitch.go:167-175 | deletes the role only for delete_role; the two success messages and the role-delete error |
| Iam.IamProvider.ManageRole | awskillswitch.go:129-176 | acts as `arn:aws:iam::<target>:role/<roleToAssume>`; the calls logged, the role left and the result are exactly `Remediation`'s |
| Iam.FirstIn | awskillswitch.go:140-148 | the index reached by a stop-at-first-failure loop: every earlier element passes and the one found fails |
| Iam.Remediation | awskillswitch.go:133-175 | closed form of manageRole: list, detach up to `FirstIn`, list, delete up to `FirstIn`, role delete for delete_role, no rollback; its first call is always the managed-policy list, a failed run never deletes the role, and a successful run leaves no policy and a role that exists iff the action is not delete_role |
| Iam.DetachPhase | awskillswitch.go:139-148 | the detach loop and what follows: the first call after the list detaches the first listed policy; a failure keeps the role; a success leaves no policy |
| Iam.InlinePhase | awskillswitch.go:150-165 | the inline list and loop and what follows: its first call is the inline list; a failure keeps the role; a success leaves no inline policy |
| Iam.RolePhase | awskillswitch.go:167-175 | on a stripped role: one role-delete call exactly for delete_role, none otherwise; a failure changes nothing; a success removes the role exactly for delete_role |
| Iam.RemediationNoRollback | awskillswitch.go:133-175 | whatever fails, nothing is undone or added: each policy list keeps a suffix of itself in enumeration order, the name is kept, and the role disappears only for delete_role once it holds no policy |
| Iam.RemediationSucceeds | awskillswitch.go:133-175 | manageRole succeeds iff nothing is in its way; it then makes exactly list, the N detaches in enumeration order, list, the M inline deletes in enumeration order, and a role delete iff delete_role; the role is left with no policies and exists iff the action is not delete_role |
| Iam.CleanRunCounts | awskillswitch.go:133-175 | when nothing is in the way, manageRole's run makes exactly N detach calls, M inline-delete calls, one of each list, and one role delete for delete_role, none otherwise |
| Iam.ListFailureChangesNothing | awskillswitch.go:134-137 | a failed managed-policy list is the only call and changes nothing |
| Iam.DetachFailureStops | awskillswitch.go:140-148 | if the (k+1)-th detach fails: k detaches were made and stay applied, no inline list, inline delete or role delete is attempted, and the error is exactly the line 146 error for that policy ARN, so it names it |
| Iam.InlineFailureStops | awskillswitch.go:157-165 | if the (j+1)-th inline delete fails: every managed policy is detached, j inline deletes stay applied, no role delete is attempted, and the error is exactly the line 163 error for that inline policy, so it names it |
| Iam.InlineListFailureStops | awskillswitch.go:150-154 | if the inline list fails after every detach: the calls are list, the N detaches and the inline list; the managed policies are gone, the inline policies and the role are left; the error is the inline-list error |
| Iam.RoleDeleteFailureKeepsRole | awskillswitch.go:168-172 | if the role delete fails: the full clean call sequence was made, the role holds no policy and still exists, and the error is the role-delete error |
| Iam.NoDeleteConflict | awskillswitch.go:167-172 | manageRole never reports the provider's refusal to delete a role that still holds policies |
| Iam.RoleDeletedOnlyWhenStripped | awskillswitch.go:167-175 | detach_policies never deletes the role, whatever fails; a deleted role holds no policies and the result is the deletion message |
| Iam.ListAttachedErrorMsg | awskillswitch.go:136 | the managed-list error starts with "error listing attached policies for role " and ends with the provider's error text |
| Iam.DetachErrorMsg | awskillswitch.go:146 | the detach error starts with "error detaching policy " and ends with the provider's error text |
| Iam.ListInlineErrorMsg | awskillswitch.go:153 | the inline-list error starts with "error listing inline policies for role " and ends with the provider's error text |
| Iam.DeleteInlineErrorMsg | awskillswitch.go:163 | the inline-delete error starts with "error deleting inline policy " and ends with the provider's error text |
| Iam.DeleteRoleErrorMsg | awskillswitch.go:171 | the role-delete error starts with "error deleting role " and ends with the provider's error text |
| Iam.RoleDeletedMsg | awskillswitch.go:173 | the delete_role message starts with "Role " and ends with the account id |
| Iam.PoliciesDetachedMsg | awskillswitch.go:175 | the detach_policies message starts with "Policies detached from role " and ends with the account id |
| Iam.ListAttachedErrorNamesRole | awskillswitch.go:136 | the managed-list error contains the role name and the account id |
| Iam.DetachErrorNamesPolicy | awskillswitch.go:146 | the detach error contains the policy ARN, the role name and the account id |
| Iam.ListInlineErrorNamesRole | awskillswitch.go:153 | the inline-list error contains the role name and the account id |
| Iam.DeleteInlineErrorNamesPolicy | awskillswitch.go:163 | the inline-delete error contains the inline policy name, the role name and the account id |
| Iam.DeleteRoleErrorNamesRole | awskillswitch.go:171 | the role-delete error contains the role name and the account id |
| Iam.RoleDeletedMessage | awskillswitch.go:173 | the delete_role message contains the role name and "detached and deleted" |
| Iam.ListAttachedErrorDiffers | awskillswitch.go:136 | a managed-list error is never a role-delete error |
| Iam.DetachErrorDiffers | awskillswitch.go:146 | a detach error is never a role-delete error |
| Iam.ListInlineErrorDiffers | awskillswitch.go:153 | an inline-list error is never a role-delete error |
| Iam.DeleteInlineErrorDiffers | awskillswitch.go:163 | an inline-delete error is never a role-delete error |
| Iam.RoleErrorsDiffer | awskillswitch.go:171 | role-delete errors carrying different provider error codes differ |
| Iam.PoliciesDetachedMessage | awskillswitch.go:173-175 | the detach_policies message contains the role name and is never the delete_role message |
| Organizations.Organization.Connect | awskillswitch.go:95-96 | the organizations client acts in the session's region with the credentials of the given role ARN |
| Organizations.Organization.CreatePolicy | awskillswitch.go:101-112 | one logged call; refuses bad credentials, an injected failure or a duplicate name; on success appends one policy with id `p-<number of policies so far>` and returns that id (fresh while ids are serial, see `NewScpIdFresh`) |
| Organizations.Organization.AttachPolicy | awskillswitch.go:114-123 | one logged call; on success adds exactly the (policy, target) attachment; on failure changes nothing |
| Organizations.Organization.ApplySCP | awskillswitch.go:94-126 | acts as `arn:aws:iam::<management>:role/<roleToAssume>`; the calls logged, the organization left and the result are exactly `ContainmentRun`'s |
| Organizations.ContainmentRun | awskillswitch.go:109-125 | closed form of applySCP: create, then attach the new id iff the create succeeded, no rollback; it never removes a policy or an attachment, keeps the accounts, and adds at most one policy and at most the one (new id, target) attachment |
| Organizations.CreateThenAttach | awskillswitch.go:109-123 | exactly one create call with the fixed name, description, type and the document as content; an attach follows iff the create succeeded and uses the new policy id and the target account; a failed create changes nothing; a created policy stays whatever the attach does |
| Organizations.ContainmentSucceeds | awskillswitch.go:109-125 | applySCP succeeds iff credentials, create, attach and target all allow it; the new policy is then attached to the target and the message contains the target account id and the policy id |
| Organizations.AttachFailureOrphansPolicy | awskillswitch.go:120-123 | when attach fails the created policy remains (no rollback), no attachment is added, and the error is exactly the line 122 error for the target account, so it names it |
| Organizations.OrphanedPolicyUnattached | awskillswitch.go:116-123 | while ids are serial and every attachment refers to an existing policy, the policy a failed attach leaves behind is attached to no target |
| Organizations.ContainmentKeepsAttachmentsKnown | awskillswitch.go:116-125 | applySCP only attaches the policy it created, so every attachment still refers to an existing policy |
| Organizations.CreatedPolicyBlocksRetry | awskillswitch.go:102-112 | once a run has created the policy, any further apply_scp run fails at create and changes nothing, because the policy name is fixed |
| Organizations.NewScpIdFresh | awskillswitch.go:109-116 | while ids are issued serially, the id the create returns (and the attach uses) belongs to no existing policy |
| Organizations.ContainmentKeepsSerialIds | awskillswitch.go:109-112 | applySCP keeps the ids serial, so a later run's policy id is fresh as well |
| Organizations.CreateErrorMsg | awskillswitch.go:111 | the create error starts with "error creating SCP: " and ends with the provider's error text |
| Organizations.AttachErrorMsg | awskillswitch.go:122 | the attach error starts with "error attaching SCP to account " and ends with the provider's error text |
| Organizations.ScpAppliedMsg | awskillswitch.go:125 | the success message starts with "SCP applied to account " and ends with the policy id |
| Organizations.AttachErrorNamesTarget | awskillswitch.go:122 | the attach error contains the target account id |
| Organizations.ScpAppliedNamesBoth | awskillswitch.go:125 | the success message contains the target account id and the policy id |

## Left out

- The AWS SDK session (`session.Must`, awskillswitch.go:54-56) and its panic on a bad session. The region is only recorded on each client.
- The `stscreds` credential exchange itself, and credential lifetimes. A refused assumption is modelled as `AccessDenied` on every call made with that ARN.
- `loadConfig` (awskillswitch.go:81-92): file I/O and `json.Unmarshal`. Its result is an input (`Loaded(config)` or `LoadFailed(reason)`), held by `ConfigFile`. The file name `switch.conf` is not modelled.
- The SCP document is an uninterpreted string. The policy service never rejects it for its syntax, except through an injected failure.
- Pagination. Each list call returns the role's whole list, i.e. the model assumes it fits on the first page, which is the only page the code reads. With a truncated first page, policies would remain and `DeleteRole` could fail with `DeleteConflict`; `Iam.NoDeleteConflict` holds only for one-page lists.
- Provider error text. The `%v` payloads are fixed error-code strings (`Cloud.ErrorText`), not AWS's messages.
- The IAM service holds one role. A call naming any other role fails with `NoSuchEntity`. Other reasons AWS refuses `DeleteRole`, such as instance profiles or a permissions boundary, are not modelled.
- Organization policy ids come from a serial number (`p-<n>`). A fresh id is proved only for organizations whose existing ids are serial (`SerialIds`); the provider class does not carry that as an invariant.
- `lambda.Start` / `main` (awskillswitch.go:178-180) and `context.Context`: runtime plumbing.
- Concurrent invocations against the same role or account. The code does nothing about them.
- Iam.PoliciesDetachedMessage: "does not mention deletion" is stated as "is never the deletion message". The role name or account id may themselves contain the word "deleted", so the stronger substring claim does not hold for every input.
