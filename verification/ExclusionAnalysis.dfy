/** The exclusion-hygiene checks across every policy of a tenant. */
module ExclusionAnalysis {
  import opened Sequences
  import opened Text
  import opened Tenant
  import opened Findings
  import opened Exclusions
  import Coverage

  datatype Context = Context(tenantId: string, policies: seq<Policy>, directory: Directory, asOf: int)

  const STALE_DAYS := 90
  const CREEP_THRESHOLD := 5

  /** The privileged roles, listed again independently of the coverage package. */
  const PRIVILEGED_ROLE_TEMPLATE_IDS: set<string> := {
    "62e90394-69f5-4237-9190-012177145e10", "e8611ab8-c189-46e8-94e1-60213ab1f814",
    "7be44c8a-adaf-4e2a-84d6-ab2649e08a13", "194ae4cb-b126-40b2-bd5b-6091b380977d",
    "b1be1c3e-b65d-4f19-8427-f6fa0d97feb9", "9b895d92-2cd3-44c7-9d02-a6ac2d5ea5c3",
    "158c047a-c907-4556-b7ef-446551a6b5f7", "fe930be7-5e62-47db-91af-98c3a49a38b1",
    "729827e3-9c14-49f7-bb1b-9608f156bbb8", "8ac3fc64-6eca-42ea-9e69-59f4c7b60eb2",
    "c4e39bd9-1100-46d3-8c65-fb160da0071f", "29232cdf-9323-42fd-ade2-1d097af3e4de",
    "f28a1f50-f6e7-4571-818b-6a12f2af6b6c", "17315797-102d-40b4-93e0-432062caca18"
  }

  const DOC_KEYWORDS: seq<string> := [
    "exclude", "exception", "break-glass", "breakglass", "service account", "svc", "bypass"
  ]

  const STALE_RULE := "exclusion.stale-user"
  const ORPHAN_RULE := "exclusion.orphan-user"
  const BYPASS_RULE := "exclusion.admin-mfa-bypass"
  const CREEP_RULE := "exclusion.creep"
  const UNDOCUMENTED_RULE := "exclusion.undocumented"

  // ---------------------------------------------------------------- building findings

  function Make(hash: string -> string, context: Context, ruleId: string, severity: Severity,
                affected: seq<AffectedObject>, evidence: map<string, string>): Finding
  {
    Finding(ComputeId(hash, context.tenantId, ruleId, Map(affected, ObjectId)),
            context.tenantId, ruleId, ExclusionHygiene, severity, affected, evidence, context.asOf, context.asOf)
  }

  function Display(user: User): string {
    if user.displayName != "" then user.displayName
    else if user.principalName != "" then user.principalName
    else user.id
  }

  function RouteName(via: Route): string {
    match via
    case Direct => "direct"
    case ViaGroup => "group"
    case ViaRole => "role"
  }

  function UserFinding(hash: string -> string, context: Context, ruleId: string, severity: Severity,
                       user: User, policyId: string, policyName: string, via: Route): Finding
  {
    Make(hash, context, ruleId, severity,
         [AffectedObject("user", user.id, Display(user)), AffectedObject("policy", policyId, policyName)],
         map["user_id" := user.id, "policy_id" := policyId, "excluded_via" := RouteName(via)])
  }

  function PolicyFinding(hash: string -> string, context: Context, ruleId: string, policy: Policy): Finding {
    Make(hash, context, ruleId, Low, [AffectedObject("policy", policy.id, policy.displayName)],
         map["policy_id" := policy.id])
  }

  // ---------------------------------------------------------------- the checks

  predicate Stale(user: User, asOf: int) {
    user.lastSignIn.Some? ==> DaysSince(asOf, user.lastSignIn.value) >= STALE_DAYS
  }

  function CheckStale(hash: string -> string, context: Context, user: User, policyId: string,
                      via: Route): Option<Finding> {
    if Stale(user, context.asOf)
    then Some(UserFinding(hash, context, STALE_RULE, Medium, user, policyId, policyId, via))
    else None
  }

  function CheckOrphan(hash: string -> string, context: Context, user: User, policyId: string,
                       via: Route): Option<Finding> {
    if user.accountEnabled == Some(false)
    then Some(UserFinding(hash, context, ORPHAN_RULE, High, user, policyId, policyId, via))
    else None
  }

  predicate EnforcesMfa(policy: Policy) { policy.state == Enabled && "mfa" in policy.grantControls }

  /** An enforced MFA policy for all users. */
  predicate MfaForAll(policy: Policy) {
    EnforcesMfa(policy) && policy.users.Some? && policy.users.value.includeUsers == ["All"]
  }

  /** One of the policies the quick look accepts. */
  predicate Candidate(policy: Policy, userId: string, excludingId: string) {
    policy.id != excludingId && MfaForAll(policy) && userId !in policy.users.value.excludeUsers
  }

  predicate LooksCovered(userId: string, policies: seq<Policy>, excludingId: string) {
    exists policy | policy in policies :: Candidate(policy, userId, excludingId)
  }

  method HasAlternateMfaCoverage(userId: string, policies: seq<Policy>, excludingId: string) returns (covered: bool)
    ensures covered <==> LooksCovered(userId, policies, excludingId)
  {
    for i := 0 to |policies|
      invariant !LooksCovered(userId, policies[..i], excludingId)
    {
      var policy := policies[i];
      assert policies[..i + 1] == policies[..i] + [policy];
      if policy.id == excludingId {
        continue;
      }
      if !EnforcesMfa(policy) {
        continue;
      }
      if policy.users.None? || policy.users.value.includeUsers != ["All"] {
        continue;
      }
      if policy.users.value.excludeUsers != [] && userId in policy.users.value.excludeUsers {
        continue;
      }
      assert Candidate(policy, userId, excludingId);
      return true;
    }
    assert policies[..|policies|] == policies;
    return false;
  }

  predicate HoldsPrivilegedRole(directory: Directory, userId: string) {
    exists template | template in PRIVILEGED_ROLE_TEMPLATE_IDS :: Coverage.HoldsTemplate(directory, userId, template)
  }

  predicate Bypasses(context: Context, policy: Policy, userId: string) {
    && EnforcesMfa(policy)
    && HoldsPrivilegedRole(context.directory, userId)
    && !LooksCovered(userId, context.policies, policy.id)
  }

  function BypassOf(hash: string -> string, context: Context, policy: Policy, user: User, via: Route): Option<Finding> {
    if Bypasses(context, policy, user.id)
    then Some(UserFinding(hash, context, BYPASS_RULE, Critical, user, policy.id, policy.displayName, via))
    else None
  }

  method CheckAdminMfaBypass(hash: string -> string, context: Context, policy: Policy, principal: Principal)
    returns (finding: Option<Finding>)
    requires ListsTemplates(principal.roleTemplates, context.directory, principal.user.id)
    ensures finding == BypassOf(hash, context, policy, principal.user, principal.via)
  {
    if !EnforcesMfa(policy) {
      return None;
    }
    var held := ToSet(principal.roleTemplates) * PRIVILEGED_ROLE_TEMPLATE_IDS;
    assert HoldsPrivilegedRole(context.directory, principal.user.id) <==> held != {} by {
      if template :| template in PRIVILEGED_ROLE_TEMPLATE_IDS
                     && Coverage.HoldsTemplate(context.directory, principal.user.id, template) {
        assert template in held;
      }
      if held != {} {
        var template :| template in held;
        assert Coverage.HoldsTemplate(context.directory, principal.user.id, template);
      }
    }
    if held == {} {
      return None;
    }
    var covered := HasAlternateMfaCoverage(principal.user.id, context.policies, policy.id);
    if covered {
      return None;
    }
    finding := Some(UserFinding(hash, context, BYPASS_RULE, Critical, principal.user, policy.id,
                                  policy.displayName, principal.via));
  }

  predicate HasExclusions(policy: Policy) {
    && policy.users.Some?
    && (policy.users.value.excludeUsers != [] || policy.users.value.excludeGroups != []
        || policy.users.value.excludeRoles != [])
  }

  function DirectExcludedCount(policy: Policy): nat {
    if policy.users.None? then 0 else |policy.users.value.excludeUsers|
  }

  predicate IsDocumented(policy: Policy) {
    exists keyword | keyword in DOC_KEYWORDS :: HasPart(Lower(policy.displayName), keyword)
  }

  // ---------------------------------------------------------------- the whole analysis

  function Kept(finding: Option<Finding>): seq<Finding> { if finding.Some? then [finding.value] else [] }

  function PrincipalFindings(hash: string -> string, context: Context, policy: Policy,
                             exclusion: Exclusion): seq<Finding> {
    var index := UserIndex(context.directory.users);
    if exclusion.userId !in index then []
    else UserFindings(hash, context, policy, index[exclusion.userId], exclusion.via)
  }

  function UserFindings(hash: string -> string, context: Context, policy: Policy, user: User,
                        via: Route): seq<Finding> {
    Kept(CheckStale(hash, context, user, policy.id, via))
    + Kept(CheckOrphan(hash, context, user, policy.id, via))
    + Kept(BypassOf(hash, context, policy, user, via))
  }

  function ForExclusions(hash: string -> string, context: Context, policy: Policy): Exclusion -> seq<Finding> {
    (e: Exclusion) => PrincipalFindings(hash, context, policy, e)
  }

  function CreepOf(hash: string -> string, context: Context, policy: Policy): Option<Finding> {
    if DirectExcludedCount(policy) > CREEP_THRESHOLD
    then Some(PolicyFinding(hash, context, CREEP_RULE, policy))
    else None
  }

  function UndocumentedOf(hash: string -> string, context: Context, policy: Policy): Option<Finding> {
    if IsDocumented(policy) then None else Some(PolicyFinding(hash, context, UNDOCUMENTED_RULE, policy))
  }

  function PolicyFindings(hash: string -> string, context: Context, policy: Policy): seq<Finding> {
    if !HasExclusions(policy) then []
    else FlatMap(ExclusionsOf(policy, context.directory), ForExclusions(hash, context, policy))
         + Kept(CreepOf(hash, context, policy)) + Kept(UndocumentedOf(hash, context, policy))
  }

  function ForPolicies(hash: string -> string, context: Context): Policy -> seq<Finding> {
    (policy: Policy) => PolicyFindings(hash, context, policy)
  }

  function Analysis(hash: string -> string, context: Context): seq<Finding> {
    FlatMap(context.policies, ForPolicies(hash, context))
  }

  method Append(findings: seq<Finding>, finding: Option<Finding>) returns (more: seq<Finding>)
    ensures more == findings + Kept(finding)
  {
    more := findings;
    if finding.Some? {
      more := more + [finding.value];
    }
  }

  method CheckPrincipals(hash: string -> string, context: Context, policy: Policy, principals: seq<Principal>)
    returns (findings: seq<Finding>)
    requires ResolveAll(principals, ExclusionsOf(policy, context.directory), policy, context.directory)
    ensures findings == FlatMap(ExclusionsOf(policy, context.directory), ForExclusions(hash, context, policy))
  {
    findings := [];
    ghost var exclusions := ExclusionsOf(policy, context.directory);
    for i := 0 to |principals|
      invariant findings == FlatMap(exclusions[..i], ForExclusions(hash, context, policy))
    {
      var principal := principals[i];
      assert Resolves(principal, exclusions[i], policy, context.directory);
      assert exclusions[..i + 1][..i] == exclusions[..i];
      var own := CheckPrincipal(hash, context, policy, principal);
      findings := findings + own;
    }
    assert exclusions[..|exclusions|] == exclusions;
  }

  method CheckPrincipal(hash: string -> string, context: Context, policy: Policy, principal: Principal)
    returns (findings: seq<Finding>)
    requires principal.policyId == policy.id
    requires ListsTemplates(principal.roleTemplates, context.directory, principal.user.id)
    ensures findings == UserFindings(hash, context, policy, principal.user, principal.via)
  {
    var stale := CheckStale(hash, context, principal.user, principal.policyId, principal.via);
    var orphan := CheckOrphan(hash, context, principal.user, principal.policyId, principal.via);
    var bypass := CheckAdminMfaBypass(hash, context, policy, principal);
    findings := Append([], stale);
    findings := Append(findings, orphan);
    findings := Append(findings, bypass);
  }

  method AnalyseExclusions(hash: string -> string, context: Context) returns (findings: seq<Finding>)
    ensures findings == Analysis(hash, context)
  {
    findings := [];
    for i := 0 to |context.policies|
      invariant findings == FlatMap(context.policies[..i], ForPolicies(hash, context))
    {
      assert context.policies[..i + 1][..i] == context.policies[..i];
      var own := AnalysePolicy(hash, context, context.policies[i]);
      findings := findings + own;
    }
    assert context.policies[..|context.policies|] == context.policies;
  }

  method AnalysePolicy(hash: string -> string, context: Context, policy: Policy) returns (findings: seq<Finding>)
    ensures findings == PolicyFindings(hash, context, policy)
  {
    if !HasExclusions(policy) {
      return [];
    }
    var principals := ResolveExcludedPrincipals(policy, context.directory);
    findings := CheckPrincipals(hash, context, policy, principals);
    if DirectExcludedCount(policy) > CREEP_THRESHOLD {
      findings := findings + [PolicyFinding(hash, context, CREEP_RULE, policy)];
    }
    if !IsDocumented(policy) {
      findings := findings + [PolicyFinding(hash, context, UNDOCUMENTED_RULE, policy)];
    }
  }
}
