/**
 * The policy remediation executor (manageRole) run against an in-memory
 * identity provider that holds one role of one account.
 */
module Iam {
  import opened Text
  import opened Cloud
  import opened KillSwitch

  /** The provider calls manageRole issues, as the provider records them. */
  datatype IamCall =
    | ListAttached(roleName: string)
    | Detach(roleName: string, policyArn: string)
    | ListInline(roleName: string)
    | DeleteInline(roleName: string, policyName: string)
    | DeleteRoleCall(roleName: string)

  /** The role as the provider holds it. */
  datatype RoleState = RoleState(
    name: string,
    present: bool,             // the role exists
    attached: seq<string>,     // attached managed-policy ARNs, in enumeration order
    inline: seq<string>)       // inline-policy names, in enumeration order

  /** Which calls the provider refuses. */
  datatype IamFaults = IamFaults(
    assumable: set<string>,    // role ARNs whose credentials are accepted
    listAttached: bool,
    detach: set<string>,       // managed-policy ARNs whose detach fails
    listInline: bool,
    deleteInline: set<string>, // inline-policy names whose delete fails
    deleteRole: bool)

  /** Every call made, the role left behind, and the result returned. */
  datatype Run = Run(calls: seq<IamCall>, after: RoleState, result: Outcome)

  predicate NoDuplicates(s: seq<string>) {
    forall i, j :: 0 <= i < j < |s| ==> s[i] != s[j]
  }

  /** `s` without `x`. */
  function Remove(s: seq<string>, x: string): (r: seq<string>)
    ensures forall y :: y in r <==> y in s && y != x
  {
    if s == [] then []
    else if s[0] == x then Remove(s[1..], x)
    else [s[0]] + Remove(s[1..], x)
  }

  lemma {:induction false} RemoveAbsent(s: seq<string>, x: string)
    requires x !in s
    ensures Remove(s, x) == s
  {
    if s != [] {
      RemoveAbsent(s[1..], x);
    }
  }

  lemma {:induction false} RemoveKeepsDistinct(s: seq<string>, x: string)
    requires NoDuplicates(s)
    ensures NoDuplicates(Remove(s, x))
  {
    if s != [] {
      RemoveKeepsDistinct(s[1..], x);
      if s[0] != x {
        var r := Remove(s[1..], x);
        assert s[0] !in r;
        assert forall j :: 0 < j < |[s[0]] + r| ==> ([s[0]] + r)[j] == r[j - 1];
      }
    }
  }

  /** Removing the first of distinct names leaves the rest, in order. */
  lemma RemoveFirst(s: seq<string>)
    requires NoDuplicates(s) && s != []
    ensures Remove(s, s[0]) == s[1..]
  {
    RemoveAbsent(s[1..], s[0]);
  }

  /** Index of the first element of `s` in `f`, or `|s|` when there is none. */
  function FirstIn(s: seq<string>, f: set<string>): (k: nat)
    ensures k <= |s|
    ensures forall i :: 0 <= i < k ==> s[i] !in f
    ensures k < |s| ==> s[k] in f
  {
    if s == [] || s[0] in f then 0 else 1 + FirstIn(s[1..], f)
  }

  function Detaches(roleName: string, arns: seq<string>): seq<IamCall> {
    seq(|arns|, i requires 0 <= i < |arns| => Detach(roleName, arns[i]))
  }

  function DeleteInlines(roleName: string, names: seq<string>): seq<IamCall> {
    seq(|names|, i requires 0 <= i < |names| => DeleteInline(roleName, names[i]))
  }

  // Messages of manageRole. Each error starts with a text of its own, which
  // tells the failing step apart, and ends with the provider's error text.

  /** The error when the managed policies cannot be listed. */
  function ListAttachedErrorMsg(role: string, account: string, err: string): (r: string)
    ensures "error listing attached policies for role " <= r && EndsWith(r, err)
  {
    "error listing attached policies for role " + role + " in account " + account + ": " + err
  }

  /** The error when a managed policy cannot be detached. */
  function DetachErrorMsg(arn: string, role: string, account: string, err: string): (r: string)
    ensures "error detaching policy " <= r && EndsWith(r, err)
  {
    "error detaching policy " + arn + " from role " + role + " in account " + account + ": " + err
  }

  /** The error when the inline policies cannot be listed. */
  function ListInlineErrorMsg(role: string, account: string, err: string): (r: string)
    ensures "error listing inline policies for role " <= r && EndsWith(r, err)
  {
    "error listing inline policies for role " + role + " in account " + account + ": " + err
  }

  /** The error when an inline policy cannot be deleted. */
  function DeleteInlineErrorMsg(name: string, role: string, account: string, err: string): (r: string)
    ensures "error deleting inline policy " <= r && EndsWith(r, err)
  {
    "error deleting inline policy " + name + " from role " + role + " in account " + account + ": " + err
  }

  /** The error when the role cannot be deleted. */
  function DeleteRoleErrorMsg(role: string, account: string, err: string): (r: string)
    ensures "error deleting role " <= r && EndsWith(r, err)
  {
    "error deleting role " + role + " in account " + account + ": " + err
  }

  const DeletionPhrase: string := "detached and deleted"

  /** The delete_role result; it ends with the account id. */
  function RoleDeletedMsg(role: string, account: string): (r: string)
    ensures "Role " <= r && EndsWith(r, account)
  {
    "Role " + role + " and its policies are " + DeletionPhrase + " in account " + account
  }

  /** The detach_policies result; it ends with the account id. */
  function PoliciesDetachedMsg(role: string, account: string): (r: string)
    ensures "Policies detached from role " <= r && EndsWith(r, account)
  {
    "Policies detached from role " + role + " in account " + account
  }

  /** `run`, preceded by the calls `calls`. */
  function After(calls: seq<IamCall>, run: Run): Run {
    run.(calls := calls + run.calls)
  }

  /** `u` is what is left of `t` once some of its first elements are gone. */
  predicate IsSuffixOf(u: seq<string>, t: seq<string>) {
    |u| <= |t| && u == t[|t| - |u|..]
  }

  /**
   * Nothing manageRole does is undone and nothing is added: policies are
   * only removed, in enumeration order, and the role disappears only for
   * delete_role, once it holds no policy.
   */
  predicate NoRollback(action: string, before: RoleState, after: RoleState) {
    && after.name == before.name
    && IsSuffixOf(after.attached, before.attached)
    && IsSuffixOf(after.inline, before.inline)
    && (after.present != before.present ==>
          before.present && action == DeleteRole && after.attached == [] && after.inline == [])
  }

  /**
   * What manageRole does, in closed form: list the managed policies, detach
   * them up to the first that fails, list the inline policies, delete them up
   * to the first that fails, and delete the role for delete_role. Nothing
   * done before a failure is undone.
   */
  function Remediation(action: string, account: string, roleToAssume: string,
                       roleName: string, s: RoleState, f: IamFaults): (r: Run)
    ensures r.calls != [] && r.calls[0] == ListAttached(roleName)
    ensures r.result.Failure? ==> r.after.present == s.present
    ensures r.result.Success? ==>
              r.after.attached == [] && r.after.inline == [] && r.after.present == (action != DeleteRole)
  {
    var authorized := RoleArn(account, roleToAssume) in f.assumable;
    match Gate(authorized, f.listAttached, roleName == s.name && s.present)
    case Some(e) =>
      Run([ListAttached(roleName)], s, Failure(ListAttachedErrorMsg(roleName, account, ErrorText(e))))
    case None =>
      After([ListAttached(roleName)], DetachPhase(action, account, roleName, s, f))
  }

  /**
   * The detach loop and what follows it, once the first list call has
   * succeeded: from then on the credentials are accepted and the role
   * exists, so a call fails only when a failure is injected for it.
   */
  function DetachPhase(action: string, account: string, roleName: string,
                       s: RoleState, f: IamFaults): (r: Run)
    ensures s.attached != [] ==> r.calls != [] && r.calls[0] == Detach(roleName, s.attached[0])
    ensures r.result.Failure? ==> r.after.present == s.present
    ensures r.result.Success? ==>
              r.after.attached == [] && r.after.inline == [] && r.after.present == (s.present && action != DeleteRole)
  {
    var k := FirstIn(s.attached, f.detach);
    if k < |s.attached| then
      Run(Detaches(roleName, s.attached[..k + 1]), s.(attached := s.attached[k..]),
          Failure(DetachErrorMsg(s.attached[k], roleName, account, ErrorText(ServiceFailure))))
    else
      After(Detaches(roleName, s.attached), InlinePhase(action, account, roleName, s.(attached := []), f))
  }

  /** The inline-policy list and loop and what follows them. */
  function InlinePhase(action: string, account: string, roleName: string,
                       s: RoleState, f: IamFaults): (r: Run)
    requires s.attached == []
    ensures r.calls != [] && r.calls[0] == ListInline(roleName)
    ensures r.result.Failure? ==> r.after.present == s.present
    ensures r.result.Success? ==>
              r.after.inline == [] && r.after.present == (s.present && action != DeleteRole)
  {
    if f.listInline then
      Run([ListInline(roleName)], s,
          Failure(ListInlineErrorMsg(roleName, account, ErrorText(ServiceFailure))))
    else
      var j := FirstIn(s.inline, f.deleteInline);
      if j < |s.inline| then
        Run([ListInline(roleName)] + DeleteInlines(roleName, s.inline[..j + 1]),
            s.(inline := s.inline[j..]),
            Failure(DeleteInlineErrorMsg(s.inline[j], roleName, account, ErrorText(ServiceFailure))))
      else
        After([ListInline(roleName)] + DeleteInlines(roleName, s.inline),
              RolePhase(action, account, roleName, s.(inline := []), f))
  }

  /**
   * The last step, on a role that holds no policy any more: delete it for
   * delete_role. Since the role is stripped, the provider has no policy to
   * object to; the call fails only when a failure is injected for it.
   */
  function RolePhase(action: string, account: string, roleName: string,
                     s: RoleState, f: IamFaults): (r: Run)
    requires s.attached == [] && s.inline == []
    ensures r.calls == if action == DeleteRole then [DeleteRoleCall(roleName)] else []
    ensures r.result.Failure? ==> r.after == s
    ensures r.result.Success? ==> r.after.present == (s.present && action != DeleteRole)
  {
    if action != DeleteRole then
      Run([], s, Success(PoliciesDetachedMsg(roleName, account)))
    else if f.deleteRole then
      Run([DeleteRoleCall(roleName)], s,
          Failure(DeleteRoleErrorMsg(roleName, account, ErrorText(ServiceFailure))))
    else
      Run([DeleteRoleCall(roleName)], s.(present := false), Success(RoleDeletedMsg(roleName, account)))
  }

  // Properties of manageRole, stated on its closed form.

  /** Kinds of provider call, for counting them. */
  datatype CallKind = ListAttachedKind | DetachKind | ListInlineKind | DeleteInlineKind | DeleteRoleKind

  function KindOf(c: IamCall): CallKind {
    match c
    case ListAttached(_) => ListAttachedKind
    case Detach(_, _) => DetachKind
    case ListInline(_) => ListInlineKind
    case DeleteInline(_, _) => DeleteInlineKind
    case DeleteRoleCall(_) => DeleteRoleKind
  }

  /** How many calls of `kind` there are in `calls`. */
  function Count(calls: seq<IamCall>, kind: CallKind): nat {
    if calls == [] then 0
    else (if KindOf(calls[0]) == kind then 1 else 0) + Count(calls[1..], kind)
  }

  lemma {:induction false} CountConcat(a: seq<IamCall>, b: seq<IamCall>, kind: CallKind)
    ensures Count(a + b, kind) == Count(a, kind) + Count(b, kind)
  {
    if a == [] {
      assert a + b == b;
    } else {
      assert (a + b)[1..] == a[1..] + b;
      CountConcat(a[1..], b, kind);
    }
  }

  lemma {:induction false} CountDetaches(roleName: string, arns: seq<string>, kind: CallKind)
    ensures Count(Detaches(roleName, arns), kind) == if kind == DetachKind then |arns| else 0
  {
    if arns != [] {
      assert Detaches(roleName, arns)[1..] == Detaches(roleName, arns[1..]);
      CountDetaches(roleName, arns[1..], kind);
    }
  }

  lemma {:induction false} CountDeleteInlines(roleName: string, names: seq<string>, kind: CallKind)
    ensures Count(DeleteInlines(roleName, names), kind) == if kind == DeleteInlineKind then |names| else 0
  {
    if names != [] {
      assert DeleteInlines(roleName, names)[1..] == DeleteInlines(roleName, names[1..]);
      CountDeleteInlines(roleName, names[1..], kind);
    }
  }

  /** Nothing stands in the way of any step manageRole takes. */
  predicate Unobstructed(action: string, account: string, roleToAssume: string,
                         roleName: string, s: RoleState, f: IamFaults)
  {
    && RoleArn(account, roleToAssume) in f.assumable
    && roleName == s.name && s.present
    && !f.listAttached && !f.listInline
    && (forall arn :: arn in s.attached ==> arn !in f.detach)
    && (forall name :: name in s.inline ==> name !in f.deleteInline)
    && (action == DeleteRole ==> !f.deleteRole)
  }

  /** The calls of a run where no step fails. */
  function CleanRun(action: string, roleName: string, s: RoleState): seq<IamCall> {
    [ListAttached(roleName)] + Detaches(roleName, s.attached)
    + [ListInline(roleName)] + DeleteInlines(roleName, s.inline)
    + (if action == DeleteRole then [DeleteRoleCall(roleName)] else [])
  }

  /**
   * manageRole succeeds exactly when nothing stands in its way; it then
   * detaches every managed policy in enumeration order, deletes every inline
   * policy in enumeration order, deletes the role iff the action is
   * delete_role, and leaves the role without policies.
   */
  lemma RemediationSucceeds(action: string, account: string, roleToAssume: string,
                            roleName: string, s: RoleState, f: IamFaults)
    ensures var run := Remediation(action, account, roleToAssume, roleName, s, f);
            run.result.Success? <==> Unobstructed(action, account, roleToAssume, roleName, s, f)
    ensures var run := Remediation(action, account, roleToAssume, roleName, s, f);
            Unobstructed(action, account, roleToAssume, roleName, s, f) ==>
              && run.calls == CleanRun(action, roleName, s)
              && run.after == RoleState(s.name, action != DeleteRole, [], [])
              && run.result == Success(if action == DeleteRole then RoleDeletedMsg(roleName, account)
                                       else PoliciesDetachedMsg(roleName, account))
  {
  }

  /**
   * With nothing in the way, manageRole makes exactly N detach calls and M
   * inline-delete calls for N managed and M inline policies, one call to each
   * list, and one role deletion for delete_role and none otherwise.
   */
  lemma CleanRunCounts(action: string, account: string, roleToAssume: string,
                       roleName: string, s: RoleState, f: IamFaults)
    requires Unobstructed(action, account, roleToAssume, roleName, s, f)
    ensures var calls := Remediation(action, account, roleToAssume, roleName, s, f).calls;
            && Count(calls, DetachKind) == |s.attached|
            && Count(calls, DeleteInlineKind) == |s.inline|
            && Count(calls, ListAttachedKind) == 1 && Count(calls, ListInlineKind) == 1
            && Count(calls, DeleteRoleKind) == if action == DeleteRole then 1 else 0
  {
    RemediationSucceeds(action, account, roleToAssume, roleName, s, f);
    var last: seq<IamCall> := if action == DeleteRole then [DeleteRoleCall(roleName)] else [];
    forall kind: CallKind
      ensures Count(CleanRun(action, roleName, s), kind)
           == (if kind == ListAttachedKind then 1 else 0)
            + (if kind == DetachKind then |s.attached| else 0)
            + (if kind == ListInlineKind then 1 else 0)
            + (if kind == DeleteInlineKind then |s.inline| else 0)
            + (if kind == DeleteRoleKind && action == DeleteRole then 1 else 0)
    {
      var a := [ListAttached(roleName)];
      var d := Detaches(roleName, s.attached);
      var l := [ListInline(roleName)];
      var i := DeleteInlines(roleName, s.inline);
      CountConcat(a, d, kind);
      CountConcat(a + d, l, kind);
      CountConcat(a + d + l, i, kind);
      CountConcat(a + d + l + i, last, kind);
      CountDetaches(roleName, s.attached, kind);
      CountDeleteInlines(roleName, s.inline, kind);
      assert Count(a, kind) == if kind == ListAttachedKind then 1 else 0;
      assert Count(l, kind) == if kind == ListInlineKind then 1 else 0;
      assert Count(last, kind) == if kind == DeleteRoleKind && action == DeleteRole then 1 else 0;
    }
  }

  /**
   * If listing the managed policies fails, that is the only call and the
   * role is left as it was.
   */
  lemma ListFailureChangesNothing(action: string, account: string, roleToAssume: string,
                                  roleName: string, s: RoleState, f: IamFaults)
    requires Gate(RoleArn(account, roleToAssume) in f.assumable, f.listAttached,
                  roleName == s.name && s.present).Some?
    ensures var run := Remediation(action, account, roleToAssume, roleName, s, f);
            run.calls == [ListAttached(roleName)] && run.after == s && run.result.Failure?
  {
  }

  /**
   * If the detach of the (k+1)-th managed policy fails, the k detaches before
   * it were made and stay applied, nothing after it is attempted, and the
   * error names the policy.
   */
  lemma DetachFailureStops(action: string, account: string, roleToAssume: string,
                           roleName: string, s: RoleState, f: IamFaults, k: nat)
    requires RoleArn(account, roleToAssume) in f.assumable && !f.listAttached
    requires roleName == s.name && s.present && NoDuplicates(s.attached)
    requires k < |s.attached| && s.attached[k] in f.detach
    requires forall i :: 0 <= i < k ==> s.attached[i] !in f.detach
    ensures var run := Remediation(action, account, roleToAssume, roleName, s, f);
            && run.calls == [ListAttached(roleName)] + Detaches(roleName, s.attached[..k + 1])
            && Count(run.calls, DetachKind) == k + 1
            && Count(run.calls, ListInlineKind) == 0
            && Count(run.calls, DeleteInlineKind) == 0
            && Count(run.calls, DeleteRoleKind) == 0
            && run.after == s.(attached := s.attached[k..])
            && (forall i :: 0 <= i < k ==> s.attached[i] !in run.after.attached)
            && run.result == Failure(DetachErrorMsg(s.attached[k], roleName, account, ErrorText(ServiceFailure)))
            && Contains(run.result.error, s.attached[k])
  {
    var run := Remediation(action, account, roleToAssume, roleName, s, f);
    assert FirstIn(s.attached, f.detach) == k;
    forall kind: CallKind
      ensures Count(run.calls, kind)
           == (if kind == ListAttachedKind then 1 else 0) + (if kind == DetachKind then k + 1 else 0)
    {
      CountConcat([ListAttached(roleName)], Detaches(roleName, s.attached[..k + 1]), kind);
      CountDetaches(roleName, s.attached[..k + 1], kind);
    }
    DetachErrorNamesPolicy(s.attached[k], roleName, account, ErrorText(ServiceFailure));
  }

  /**
   * If the delete of the (j+1)-th inline policy fails, every managed policy
   * has been detached, the j inline deletes before it stay applied, the role
   * is not deleted, and the error names the inline policy.
   */
  lemma InlineFailureStops(action: string, account: string, roleToAssume: string,
                           roleName: string, s: RoleState, f: IamFaults, j: nat)
    requires RoleArn(account, roleToAssume) in f.assumable && !f.listAttached && !f.listInline
    requires roleName == s.name && s.present
    requires forall arn :: arn in s.attached ==> arn !in f.detach
    requires NoDuplicates(s.inline)
    requires j < |s.inline| && s.inline[j] in f.deleteInline
    requires forall i :: 0 <= i < j ==> s.inline[i] !in f.deleteInline
    ensures var run := Remediation(action, account, roleToAssume, roleName, s, f);
            && Count(run.calls, DetachKind) == |s.attached|
            && Count(run.calls, DeleteInlineKind) == j + 1
            && Count(run.calls, DeleteRoleKind) == 0
            && run.after == s.(attached := [], inline := s.inline[j..])
            && (forall i :: 0 <= i < j ==> s.inline[i] !in run.after.inline)
            && run.result == Failure(DeleteInlineErrorMsg(s.inline[j], roleName, account, ErrorText(ServiceFailure)))
            && Contains(run.result.error, s.inline[j])
  {
    var run := Remediation(action, account, roleToAssume, roleName, s, f);
    assert FirstIn(s.inline, f.deleteInline) == j;
    var a := [ListAttached(roleName)];
    var d := Detaches(roleName, s.attached);
    var rest := [ListInline(roleName)] + DeleteInlines(roleName, s.inline[..j + 1]);
    assert run.calls == a + (d + rest);
    forall kind: CallKind
      ensures Count(run.calls, kind)
           == (if kind == ListAttachedKind then 1 else 0) + (if kind == DetachKind then |s.attached| else 0)
            + (if kind == ListInlineKind then 1 else 0) + (if kind == DeleteInlineKind then j + 1 else 0)
    {
      CountConcat(a, d + rest, kind);
      CountConcat(d, rest, kind);
      CountConcat([ListInline(roleName)], DeleteInlines(roleName, s.inline[..j + 1]), kind);
      CountDetaches(roleName, s.attached, kind);
      CountDeleteInlines(roleName, s.inline[..j + 1], kind);
    }
    DeleteInlineErrorNamesPolicy(s.inline[j], roleName, account, ErrorText(ServiceFailure));
  }

  /**
   * If listing the inline policies fails, every managed policy has been
   * detached, that list is the last call, and the inline policies and the
   * role are left as they were.
   */
  lemma InlineListFailureStops(action: string, account: string, roleToAssume: string,
                               roleName: string, s: RoleState, f: IamFaults)
    requires RoleArn(account, roleToAssume) in f.assumable && !f.listAttached
    requires roleName == s.name && s.present
    requires forall arn :: arn in s.attached ==> arn !in f.detach
    requires f.listInline
    ensures var run := Remediation(action, account, roleToAssume, roleName, s, f);
            && run.calls == [ListAttached(roleName)] + Detaches(roleName, s.attached) + [ListInline(roleName)]
            && run.after == s.(attached := [])
            && run.result == Failure(ListInlineErrorMsg(roleName, account, ErrorText(ServiceFailure)))
  {
    assert FirstIn(s.attached, f.detach) == |s.attached|;
  }

  /**
   * If deleting the stripped role fails, every policy has been removed, the
   * role still exists, and the error is the role-delete error.
   */
  lemma RoleDeleteFailureKeepsRole(account: string, roleToAssume: string,
                                   roleName: string, s: RoleState, f: IamFaults)
    requires RoleArn(account, roleToAssume) in f.assumable && !f.listAttached && !f.listInline
    requires roleName == s.name && s.present
    requires forall arn :: arn in s.attached ==> arn !in f.detach
    requires forall name :: name in s.inline ==> name !in f.deleteInline
    requires f.deleteRole
    ensures var run := Remediation(DeleteRole, account, roleToAssume, roleName, s, f);
            && run.calls == CleanRun(DeleteRole, roleName, s)
            && run.after == RoleState(s.name, true, [], [])
            && run.result == Failure(DeleteRoleErrorMsg(roleName, account, ErrorText(ServiceFailure)))
  {
    assert FirstIn(s.attached, f.detach) == |s.attached|;
    assert FirstIn(s.inline, f.deleteInline) == |s.inline|;
  }

  // Every other error of manageRole differs from a role-delete error, which
  // starts "error deleting role ".

  lemma ListAttachedErrorDiffers(role: string, account: string, err: string,
                                 role': string, account': string, err': string)
    ensures ListAttachedErrorMsg(role, account, err) != DeleteRoleErrorMsg(role', account', err')
  {
    assert DeleteRoleErrorMsg(role', account', err')[6] == 'd';
    assert ListAttachedErrorMsg(role, account, err)[6] == 'l';
  }

  lemma DetachErrorDiffers(policy: string, role: string, account: string, err: string,
                           role': string, account': string, err': string)
    ensures DetachErrorMsg(policy, role, account, err) != DeleteRoleErrorMsg(role', account', err')
  {
    assert DeleteRoleErrorMsg(role', account', err')[8] == 'l';
    assert DetachErrorMsg(policy, role, account, err)[8] == 't';
  }

  lemma ListInlineErrorDiffers(role: string, account: string, err: string,
                               role': string, account': string, err': string)
    ensures ListInlineErrorMsg(role, account, err) != DeleteRoleErrorMsg(role', account', err')
  {
    assert DeleteRoleErrorMsg(role', account', err')[6] == 'd';
    assert ListInlineErrorMsg(role, account, err)[6] == 'l';
  }

  lemma DeleteInlineErrorDiffers(policy: string, role: string, account: string, err: string,
                                 role': string, account': string, err': string)
    ensures DeleteInlineErrorMsg(policy, role, account, err) != DeleteRoleErrorMsg(role', account', err')
  {
    assert DeleteRoleErrorMsg(role', account', err')[15] == 'r';
    assert DeleteInlineErrorMsg(policy, role, account, err)[15] == 'i';
  }

  /** Role-delete errors carrying different provider error codes differ. */
  lemma RoleErrorsDiffer(role: string, account: string, e1: ApiError, e2: ApiError)
    requires e1 != e2
    ensures DeleteRoleErrorMsg(role, account, ErrorText(e1)) != DeleteRoleErrorMsg(role, account, ErrorText(e2))
  {
    var head := "error deleting role " + role + " in account " + account + ": ";
    assert DeleteRoleErrorMsg(role, account, ErrorText(e1)) == head + ErrorText(e1);
    assert DeleteRoleErrorMsg(role, account, ErrorText(e2)) == head + ErrorText(e2);
    assert (head + ErrorText(e1))[|head|..] == ErrorText(e1);
    assert (head + ErrorText(e2))[|head|..] == ErrorText(e2);
  }

  /**
   * The role is deleted only once it holds no policy, so the provider's
   * refusal to delete a role that still holds policies is never what
   * manageRole reports.
   */
  lemma NoDeleteConflict(action: string, account: string, roleToAssume: string,
                         roleName: string, s: RoleState, f: IamFaults)
    ensures Remediation(action, account, roleToAssume, roleName, s, f).result
         != Failure(DeleteRoleErrorMsg(roleName, account, ErrorText(DeleteConflict)))
  {
    var k := FirstIn(s.attached, f.detach);
    var j := FirstIn(s.inline, f.deleteInline);
    var e := Gate(RoleArn(account, roleToAssume) in f.assumable, f.listAttached, roleName == s.name && s.present);
    var conflict := ErrorText(DeleteConflict);
    if e.Some? {
      ListAttachedErrorDiffers(roleName, account, ErrorText(e.value), roleName, account, conflict);
    } else if k < |s.attached| {
      DetachErrorDiffers(s.attached[k], roleName, account, ErrorText(ServiceFailure), roleName, account, conflict);
    } else if f.listInline {
      ListInlineErrorDiffers(roleName, account, ErrorText(ServiceFailure), roleName, account, conflict);
    } else if j < |s.inline| {
      DeleteInlineErrorDiffers(s.inline[j], roleName, account, ErrorText(ServiceFailure), roleName, account, conflict);
    } else {
      RoleErrorsDiffer(roleName, account, ServiceFailure, DeleteConflict);
    }
  }

  /**
   * No step is undone and nothing is added: whatever fails, the role keeps
   * what is left of its policy lists in enumeration order, and it disappears
   * only for delete_role, once it holds no policy.
   */
  lemma RemediationNoRollback(action: string, account: string, roleToAssume: string,
                              roleName: string, s: RoleState, f: IamFaults)
    ensures NoRollback(action, s, Remediation(action, account, roleToAssume, roleName, s, f).after)
  {
    var k := FirstIn(s.attached, f.detach);
    if k < |s.attached| {
      SuffixFrom(s.attached, k);
    } else {
      InlineNoRollback(action, account, roleName, s.(attached := []), f);
    }
  }

  lemma SuffixFrom(t: seq<string>, k: nat)
    requires k <= |t|
    ensures IsSuffixOf(t[k..], t)
  {
    assert t[k..] == t[|t| - |t[k..]|..];
  }

  lemma InlineNoRollback(action: string, account: string, roleName: string, s: RoleState, f: IamFaults)
    requires s.attached == []
    ensures NoRollback(action, s, InlinePhase(action, account, roleName, s, f).after)
  {
    var j := FirstIn(s.inline, f.deleteInline);
    if j < |s.inline| {
      SuffixFrom(s.inline, j);
    }
  }

  /**
   * detach_policies never deletes the role, whatever fails; and when the role
   * is deleted it no longer holds any policy.
   */
  lemma RoleDeletedOnlyWhenStripped(action: string, account: string, roleToAssume: string,
                                    roleName: string, s: RoleState, f: IamFaults)
    ensures var run := Remediation(action, account, roleToAssume, roleName, s, f);
            action != DeleteRole ==> Count(run.calls, DeleteRoleKind) == 0 && run.after.present == s.present
    ensures var run := Remediation(action, account, roleToAssume, roleName, s, f);
            s.present && !run.after.present ==>
              action == DeleteRole && run.after.attached == [] && run.after.inline == []
              && run.result == Success(RoleDeletedMsg(roleName, account))
  {
    if action != DeleteRole
       && Gate(RoleArn(account, roleToAssume) in f.assumable, f.listAttached, roleName == s.name && s.present).None? {
      DetachPhaseDeletesNoRole(action, account, roleName, s, f);
      CountConcat([ListAttached(roleName)], DetachPhase(action, account, roleName, s, f).calls, DeleteRoleKind);
    }
  }

  lemma DetachPhaseDeletesNoRole(action: string, account: string, roleName: string, s: RoleState, f: IamFaults)
    requires action != DeleteRole
    ensures Count(DetachPhase(action, account, roleName, s, f).calls, DeleteRoleKind) == 0
  {
    var k := FirstIn(s.attached, f.detach);
    if k < |s.attached| {
      CountDetaches(roleName, s.attached[..k + 1], DeleteRoleKind);
    } else {
      InlinePhaseDeletesNoRole(action, account, roleName, s.(attached := []), f);
      CountConcat(Detaches(roleName, s.attached),
                  InlinePhase(action, account, roleName, s.(attached := []), f).calls, DeleteRoleKind);
      CountDetaches(roleName, s.attached, DeleteRoleKind);
    }
  }

  lemma InlinePhaseDeletesNoRole(action: string, account: string, roleName: string, s: RoleState, f: IamFaults)
    requires action != DeleteRole && s.attached == []
    ensures Count(InlinePhase(action, account, roleName, s, f).calls, DeleteRoleKind) == 0
  {
    var j := FirstIn(s.inline, f.deleteInline);
    if !f.listInline {
      var i := DeleteInlines(roleName, if j < |s.inline| then s.inline[..j + 1] else s.inline);
      assert InlinePhase(action, account, roleName, s, f).calls == [ListInline(roleName)] + i;
      CountConcat([ListInline(roleName)], i, DeleteRoleKind);
      CountDeleteInlines(roleName, if j < |s.inline| then s.inline[..j + 1] else s.inline, DeleteRoleKind);
    }
  }

  // What manageRole's messages say.

  /** The managed-list error names the role and the account. */
  lemma ListAttachedErrorNamesRole(role: string, account: string, err: string)
    ensures Contains(ListAttachedErrorMsg(role, account, err), role)
    ensures Contains(ListAttachedErrorMsg(role, account, err), account)
  {
    assert ListAttachedErrorMsg(role, account, err)
        == "error listing attached policies for role " + role + (" in account " + account + ": " + err);
    ContainsInfix("error listing attached policies for role ",
                  role, " in account " + account + ": " + err);
    assert ListAttachedErrorMsg(role, account, err)
        == "error listing attached policies for role " + role + " in account " + account + (": " + err);
    ContainsInfix("error listing attached policies for role " + role + " in account ",
                  account, ": " + err);
  }

  /** The detach error names the policy ARN, the role and the account. */
  lemma DetachErrorNamesPolicy(arn: string, role: string, account: string, err: string)
    ensures Contains(DetachErrorMsg(arn, role, account, err), arn)
    ensures Contains(DetachErrorMsg(arn, role, account, err), role)
    ensures Contains(DetachErrorMsg(arn, role, account, err), account)
  {
    assert DetachErrorMsg(arn, role, account, err)
        == "error detaching policy " + arn + (" from role " + role + " in account " + account + ": " + err);
    ContainsInfix("error detaching policy ",
                  arn, " from role " + role + " in account " + account + ": " + err);
    assert DetachErrorMsg(arn, role, account, err)
        == "error detaching policy " + arn + " from role " + role + (" in account " + account + ": " + err);
    ContainsInfix("error detaching policy " + arn + " from role ",
                  role, " in account " + account + ": " + err);
    assert DetachErrorMsg(arn, role, account, err)
        == "error detaching policy " + arn + " from role " + role + " in account " + account + (": " + err);
    ContainsInfix("error detaching policy " + arn + " from role " + role + " in account ",
                  account, ": " + err);
  }

  /** The inline-list error names the role and the account. */
  lemma ListInlineErrorNamesRole(role: string, account: string, err: string)
    ensures Contains(ListInlineErrorMsg(role, account, err), role)
    ensures Contains(ListInlineErrorMsg(role, account, err), account)
  {
    assert ListInlineErrorMsg(role, account, err)
        == "error listing inline policies for role " + role + (" in account " + account + ": " + err);
    ContainsInfix("error listing inline policies for role ",
                  role, " in account " + account + ": " + err);
    assert ListInlineErrorMsg(role, account, err)
        == "error listing inline policies for role " + role + " in account " + account + (": " + err);
    ContainsInfix("error listing inline policies for role " + role + " in account ",
                  account, ": " + err);
  }

  /** The inline-delete error names the policy, the role and the account. */
  lemma DeleteInlineErrorNamesPolicy(name: string, role: string, account: string, err: string)
    ensures Contains(DeleteInlineErrorMsg(name, role, account, err), name)
    ensures Contains(DeleteInlineErrorMsg(name, role, account, err), role)
    ensures Contains(DeleteInlineErrorMsg(name, role, account, err), account)
  {
    assert DeleteInlineErrorMsg(name, role, account, err)
        == "error deleting inline policy " + name + (" from role " + role + " in account " + account + ": " + err);
    ContainsInfix("error deleting inline policy ",
                  name, " from role " + role + " in account " + account + ": " + err);
    assert DeleteInlineErrorMsg(name, role, account, err)
        == "error deleting inline policy " + name + " from role " + role + (" in account " + account + ": " + err);
    ContainsInfix("error deleting inline policy " + name + " from role ",
                  role, " in account " + account + ": " + err);
    assert DeleteInlineErrorMsg(name, role, account, err)
        == "error deleting inline policy " + name + " from role " + role + " in account " + account + (": " + err);
    ContainsInfix("error deleting inline policy " + name + " from role " + role + " in account ",
                  account, ": " + err);
  }

  /** The role-delete error names the role and the account. */
  lemma DeleteRoleErrorNamesRole(role: string, account: string, err: string)
    ensures Contains(DeleteRoleErrorMsg(role, account, err), role)
    ensures Contains(DeleteRoleErrorMsg(role, account, err), account)
  {
    assert DeleteRoleErrorMsg(role, account, err)
        == "error deleting role " + role + (" in account " + account + ": " + err);
    ContainsInfix("error deleting role ",
                  role, " in account " + account + ": " + err);
    assert DeleteRoleErrorMsg(role, account, err)
        == "error deleting role " + role + " in account " + account + (": " + err);
    ContainsInfix("error deleting role " + role + " in account ",
                  account, ": " + err);
  }

  /** The delete_role message names the role and says "detached and deleted". */
  lemma RoleDeletedMessage(role: string, account: string)
    ensures Contains(RoleDeletedMsg(role, account), role)
    ensures Contains(RoleDeletedMsg(role, account), DeletionPhrase)
  {
    assert RoleDeletedMsg(role, account)
        == "Role " + role + (" and its policies are " + DeletionPhrase + " in account " + account);
    ContainsInfix("Role ",
                  role, " and its policies are " + DeletionPhrase + " in account " + account);
    assert RoleDeletedMsg(role, account)
        == "Role " + role + " and its policies are " + DeletionPhrase + (" in account " + account);
    ContainsInfix("Role " + role + " and its policies are ",
                  DeletionPhrase, " in account " + account);
  }

  /**
   * The detach_policies message names the role and the account, and it is
   * never the deletion message, whatever the role and account are.
   */
  lemma PoliciesDetachedMessage(role: string, account: string, role': string, account': string)
    ensures Contains(PoliciesDetachedMsg(role, account), role)
    ensures PoliciesDetachedMsg(role, account) != RoleDeletedMsg(role', account')
  {
    assert PoliciesDetachedMsg(role, account) == "Policies detached from role " + role + (" in account " + account);
    ContainsInfix("Policies detached from role ",
                  role, " in account " + account);
    assert PoliciesDetachedMsg(role, account)[0] == 'P';
    assert RoleDeletedMsg(role', account')[0] == 'R';
  }

  /** The identity provider of one account, holding one role. */
  class IamProvider {
    const name: string          // the role's name
    const faults: IamFaults
    var roleExists: bool
    var attached: seq<string>
    var inline: seq<string>
    var log: seq<IamCall>       // every call made, failed ones included
    var caller: string          // role ARN the client's credentials are for
    var region: string          // region the client's session is in

    ghost predicate Valid()
      reads this`attached, this`inline
    {
      NoDuplicates(attached) && NoDuplicates(inline)
    }

    function State(): RoleState
      reads this`roleExists, this`attached, this`inline
    {
      RoleState(name, roleExists, attached, inline)
    }

    predicate Authorized()
      reads this`caller
    {
      caller in faults.assumable
    }

    predicate Found(roleName: string)
      reads this`roleExists
    {
      roleName == name && roleExists
    }

    constructor (name: string, roleExists: bool, attached: seq<string>, inline: seq<string>,
                 faults: IamFaults)
      requires NoDuplicates(attached) && NoDuplicates(inline)
      ensures Valid()
      ensures State() == RoleState(name, roleExists, attached, inline) && this.faults == faults
      ensures log == [] && caller == "" && region == ""
    {
      this.name, this.faults := name, faults;
      this.roleExists, this.attached, this.inline := roleExists, attached, inline;
      log, caller, region := [], "", "";
    }

    /** Points the client at a region and at an assumed role's credentials. */
    method Connect(region: string, roleArn: string)
      modifies this`caller, this`region
      ensures caller == roleArn && this.region == region
    {
      caller, this.region := roleArn, region;
    }

    method ListAttachedRolePolicies(roleName: string) returns (reply: Reply<seq<string>>)
      modifies this`log
      ensures log == old(log) + [ListAttached(roleName)]
      ensures reply == match Gate(Authorized(), faults.listAttached, Found(roleName))
                       case Some(e) => Fail(e)
                       case None => Ok(attached)
    {
      log := log + [ListAttached(roleName)];
      var e := Gate(Authorized(), faults.listAttached, Found(roleName));
      reply := if e.Some? then Fail(e.value) else Ok(attached);
    }

    method DetachRolePolicy(roleName: string, arn: string) returns (status: Status)
      requires Valid()
      modifies this`log, this`attached
      ensures Valid()
      ensures log == old(log) + [Detach(roleName, arn)]
      ensures var e := Gate(Authorized(), arn in faults.detach, Found(roleName) && arn in old(attached));
              if e.Some? then status == Failed(e.value) && attached == old(attached)
              else status == Done && attached == Remove(old(attached), arn)
    {
      log := log + [Detach(roleName, arn)];
      var e := Gate(Authorized(), arn in faults.detach, Found(roleName) && arn in attached);
      if e.Some? {
        status := Failed(e.value);
      } else {
        RemoveKeepsDistinct(attached, arn);
        attached := Remove(attached, arn);
        status := Done;
      }
    }

    method ListRolePolicies(roleName: string) returns (reply: Reply<seq<string>>)
      modifies this`log
      ensures log == old(log) + [ListInline(roleName)]
      ensures reply == match Gate(Authorized(), faults.listInline, Found(roleName))
                       case Some(e) => Fail(e)
                       case None => Ok(inline)
    {
      log := log + [ListInline(roleName)];
      var e := Gate(Authorized(), faults.listInline, Found(roleName));
      reply := if e.Some? then Fail(e.value) else Ok(inline);
    }

    method DeleteRolePolicy(roleName: string, policyName: string) returns (status: Status)
      requires Valid()
      modifies this`log, this`inline
      ensures Valid()
      ensures log == old(log) + [DeleteInline(roleName, policyName)]
      ensures var e := Gate(Authorized(), policyName in faults.deleteInline,
                            Found(roleName) && policyName in old(inline));
              if e.Some? then status == Failed(e.value) && inline == old(inline)
              else status == Done && inline == Remove(old(inline), policyName)
    {
      log := log + [DeleteInline(roleName, policyName)];
      var e := Gate(Authorized(), policyName in faults.deleteInline, Found(roleName) && policyName in inline);
      if e.Some? {
        status := Failed(e.value);
      } else {
        RemoveKeepsDistinct(inline, policyName);
        inline := Remove(inline, policyName);
        status := Done;
      }
    }

    /** The provider refuses to delete a role that still holds policies. */
    method DeleteRole(roleName: string) returns (status: Status)
      modifies this`log, this`roleExists
      ensures log == old(log) + [DeleteRoleCall(roleName)]
      ensures var e := Gate(Authorized(), faults.deleteRole, old(Found(roleName)));
              if e.Some? then status == Failed(e.value) && roleExists == old(roleExists)
              else if attached != [] || inline != [] then
                status == Failed(DeleteConflict) && roleExists == old(roleExists)
              else status == Done && !roleExists
    {
      log := log + [DeleteRoleCall(roleName)];
      var e := Gate(Authorized(), faults.deleteRole, Found(roleName));
      if e.Some? {
        status := Failed(e.value);
      } else if attached != [] || inline != [] {
        status := Failed(DeleteConflict);
      } else {
        roleExists := false;
        status := Done;
      }
    }

    /**
     * The detach loop of manageRole: detach `arns` in order, stopping at the
     * first detach that fails. Returns how many were detached.
     */
    method DetachEach(roleName: string, arns: seq<string>) returns (k: nat, status: Status)
      requires Valid() && Found(roleName) && Authorized() && attached == arns
      modifies this`log, this`attached
      ensures Valid() && k == FirstIn(arns, faults.detach) && attached == arns[k..]
      ensures status.Failed? <==> k < |arns|
      ensures status.Failed? ==> status.error == ServiceFailure
      ensures log == old(log) + Detaches(roleName, if k < |arns| then arns[..k + 1] else arns)
    {
      k := 0;
      while k < |arns|
        invariant k <= |arns| && Valid() && attached == arns[k..]
        invariant forall m :: 0 <= m < k ==> arns[m] !in faults.detach
        invariant log == old(log) + Detaches(roleName, arns[..k])
      {
        status := DetachRolePolicy(roleName, arns[k]);
        assert arns[..k + 1] == arns[..k] + [arns[k]];
        assert Detaches(roleName, arns[..k + 1])
            == Detaches(roleName, arns[..k]) + [Detach(roleName, arns[k])];
        if status.Failed? {
          return;
        }
        RemoveFirst(arns[k..]);
        assert arns[k..][1..] == arns[k + 1..];
        k := k + 1;
      }
      assert arns[..k] == arns;
      status := Done;
    }

    /**
     * The inline-policy loop of manageRole: delete `names` in order, stopping
     * at the first delete that fails. Returns how many were deleted.
     */
    method DeleteEachInline(roleName: string, names: seq<string>) returns (k: nat, status: Status)
      requires Valid() && Found(roleName) && Authorized() && inline == names
      modifies this`log, this`inline
      ensures Valid() && k == FirstIn(names, faults.deleteInline) && inline == names[k..]
      ensures status.Failed? <==> k < |names|
      ensures status.Failed? ==> status.error == ServiceFailure
      ensures log == old(log) + DeleteInlines(roleName, if k < |names| then names[..k + 1] else names)
    {
      k := 0;
      while k < |names|
        invariant k <= |names| && Valid() && inline == names[k..]
        invariant forall m :: 0 <= m < k ==> names[m] !in faults.deleteInline
        invariant log == old(log) + DeleteInlines(roleName, names[..k])
      {
        status := DeleteRolePolicy(roleName, names[k]);
        assert names[..k + 1] == names[..k] + [names[k]];
        assert DeleteInlines(roleName, names[..k + 1])
            == DeleteInlines(roleName, names[..k]) + [DeleteInline(roleName, names[k])];
        if status.Failed? {
          return;
        }
        RemoveFirst(names[k..]);
        assert names[k..][1..] == names[k + 1..];
        k := k + 1;
      }
      assert names[..k] == names;
      status := Done;
    }

    /**
     * manageRole: acting as `roleToAssume` in the target account, strip the
     * role of its managed and inline policies, and delete it for delete_role.
     */
    method ManageRole(region: string, action: string, targetAccountID: string,
                      roleToAssume: string, targetRoleName: string) returns (res: Outcome)
      requires Valid()
      modifies this
      ensures Valid()
      ensures caller == RoleArn(targetAccountID, roleToAssume) && this.region == region
      ensures var run := Remediation(action, targetAccountID, roleToAssume, targetRoleName,
                                     old(State()), faults);
              log == old(log) + run.calls && State() == run.after && res == run.result
    {
      Connect(region, RoleArn(targetAccountID, roleToAssume));
      ghost var s0 := State();
      assert s0 == old(State());
      ghost var run := Remediation(action, targetAccountID, roleToAssume, targetRoleName, s0, faults);
      var listed := ListAttachedRolePolicies(targetRoleName);
      if listed.Fail? {
        assert run == Run([ListAttached(targetRoleName)], s0,
                          Failure(ListAttachedErrorMsg(targetRoleName, targetAccountID, ErrorText(listed.error))));
        return Failure(ListAttachedErrorMsg(targetRoleName, targetAccountID, ErrorText(listed.error)));
      }
      assert run == After([ListAttached(targetRoleName)], DetachPhase(action, targetAccountID, targetRoleName, s0, faults));
      ghost var log1 := log;
      res := RunDetachPhase(action, targetAccountID, targetRoleName, listed.value);
      assert log == old(log) + [ListAttached(targetRoleName)] + (log[|log1|..]);
    }

    /** manageRole after the managed policies were listed as `arns`. */
    method RunDetachPhase(action: string, targetAccountID: string, targetRoleName: string,
                          arns: seq<string>) returns (res: Outcome)
      requires Valid() && Found(targetRoleName) && Authorized() && attached == arns
      modifies this`log, this`attached, this`inline, this`roleExists
      ensures Valid()
      ensures var run := DetachPhase(action, targetAccountID, targetRoleName, old(State()), faults);
              log == old(log) + run.calls && State() == run.after && res == run.result
    {
      var k, status := DetachEach(targetRoleName, arns);
      if status.Failed? {
        return Failure(DetachErrorMsg(arns[k], targetRoleName, targetAccountID, ErrorText(status.error)));
      }
      ghost var log1 := log;
      res := RunInlinePhase(action, targetAccountID, targetRoleName);
      assert log == old(log) + Detaches(targetRoleName, arns) + (log[|log1|..]);
    }

    /** manageRole after every managed policy was detached. */
    method RunInlinePhase(action: string, targetAccountID: string, targetRoleName: string)
      returns (res: Outcome)
      requires Valid() && Found(targetRoleName) && Authorized() && attached == []
      modifies this`log, this`inline, this`roleExists
      ensures Valid()
      ensures var run := InlinePhase(action, targetAccountID, targetRoleName, old(State()), faults);
              log == old(log) + run.calls && State() == run.after && res == run.result
    {
      var listed := ListRolePolicies(targetRoleName);
      if listed.Fail? {
        return Failure(ListInlineErrorMsg(targetRoleName, targetAccountID, ErrorText(listed.error)));
      }
      var names := listed.value;
      var j, status := DeleteEachInline(targetRoleName, names);
      if status.Failed? {
        assert log == old(log) + ([ListInline(targetRoleName)] + DeleteInlines(targetRoleName, names[..j + 1]));
        return Failure(DeleteInlineErrorMsg(names[j], targetRoleName, targetAccountID, ErrorText(status.error)));
      }
      ghost var cleanup := [ListInline(targetRoleName)] + DeleteInlines(targetRoleName, names);
      assert log == old(log) + cleanup;
      ghost var log1 := log;
      res := ApplyRolePhase(action, targetAccountID, targetRoleName);
      assert log == old(log) + cleanup + (log[|log1|..]);
    }

    /** The last step of manageRole: delete the role, for delete_role only. */
    method ApplyRolePhase(action: string, targetAccountID: string, targetRoleName: string)
      returns (res: Outcome)
      requires Found(targetRoleName) && Authorized() && attached == [] && inline == []
      modifies this`log, this`roleExists
      ensures var run := RolePhase(action, targetAccountID, targetRoleName, old(State()), faults);
              log == old(log) + run.calls && State() == run.after && res == run.result
    {
      if action == KillSwitch.DeleteRole {
        var deleted := DeleteRole(targetRoleName);
        if deleted.Failed? {
          return Failure(DeleteRoleErrorMsg(targetRoleName, targetAccountID, ErrorText(deleted.error)));
        }
        return Success(RoleDeletedMsg(targetRoleName, targetAccountID));
      }
      return Success(PoliciesDetachedMsg(targetRoleName, targetAccountID));
    }
  }
}
