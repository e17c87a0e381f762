/** What holds of resolved exclusions, of the checks over them, and of the rows they leave. */
module ExclusionFacts {
  import opened Sequences
  import opened Ordering
  import opened Text
  import opened Tenant
  import opened Findings
  import opened Exclusions
  import opened ExclusionAnalysis
  import Coverage

  // ---------------------------------------------------------------- exact resolution

  predicate NamedByGroup(groups: seq<Group>, ids: seq<string>, e: Exclusion) {
    e.via == ViaGroup
    && exists group | group in groups :: group.id in ids && e.viaObject == Some(group.id) && e.userId in group.members
  }

  predicate NamedByRole(roles: seq<DirectoryRole>, ids: seq<string>, e: Exclusion) {
    e.via == ViaRole
    && exists role | role in roles :: RoleNamed(role, ids) && e.viaObject == Some(role.id) && e.userId in role.members
  }

  /** The policy's lists name the user by this route and this object. */
  predicate NamedBy(condition: UserCondition, directory: Directory, e: Exclusion) {
    || (e.via == Direct && e.viaObject == None && e.userId in condition.excludeUsers)
    || NamedByGroup(directory.groups, condition.excludeGroups, e)
    || NamedByRole(directory.roles, condition.excludeRoles, e)
  }

  lemma ByIsExact(userIds: seq<string>, via: Route, viaObject: Option<string>, e: Exclusion)
    ensures e in Map(userIds, By(via, viaObject)) <==> e.via == via && e.viaObject == viaObject && e.userId in userIds
  {
    if e.via == via && e.viaObject == viaObject && e.userId in userIds {
      var i :| 0 <= i < |userIds| && userIds[i] == e.userId;
      assert Map(userIds, By(via, viaObject))[i] == e;
    }
  }

  lemma {:induction false} GroupExclusionsAreExact(groups: seq<Group>, ids: seq<string>, e: Exclusion)
    ensures e in GroupExclusions(groups, ids) <==> NamedByGroup(groups, ids, e)
  {
    if groups == [] {
    } else {
      var last := groups[|groups| - 1];
      GroupExclusionsAreExact(groups[..|groups| - 1], ids, e);
      ByIsExact(last.members, ViaGroup, Some(last.id), e);
      assert groups == groups[..|groups| - 1] + [last];
    }
  }

  lemma {:induction false} RoleExclusionsAreExact(roles: seq<DirectoryRole>, ids: seq<string>, e: Exclusion)
    ensures e in RoleExclusions(roles, ids) <==> NamedByRole(roles, ids, e)
  {
    if roles == [] {
    } else {
      var last := roles[|roles| - 1];
      RoleExclusionsAreExact(roles[..|roles| - 1], ids, e);
      ByIsExact(last.members, ViaRole, Some(last.id), e);
      assert roles == roles[..|roles| - 1] + [last];
    }
  }

  lemma {:induction false} FirstKnownIsExact(named: seq<Exclusion>, known: set<string>)
    ensures NoDuplicates(FirstKnown(named, known))
    ensures forall e :: e in FirstKnown(named, known) <==> e in named && e.userId in known
  {
    if named == [] {
    } else {
      FirstKnownIsExact(named[..|named| - 1], known);
      assert named == named[..|named| - 1] + [named[|named| - 1]];
    }
  }

  /** Every way in which a known user is excluded appears once, and nothing else appears. */
  lemma ExclusionsAreExact(policy: Policy, directory: Directory)
    ensures NoDuplicates(ExclusionsOf(policy, directory))
    ensures forall e :: e in ExclusionsOf(policy, directory)
                        <==> policy.users.Some? && e.userId in UserIndex(directory.users)
                             && NamedBy(policy.users.value, directory, e)
  {
    if policy.users.Some? {
      var condition := policy.users.value;
      FirstKnownIsExact(Named(condition, directory), UserIndex(directory.users).Keys);
      forall e
        ensures e in Named(condition, directory) <==> NamedBy(condition, directory, e)
      {
        ByIsExact(condition.excludeUsers, Direct, None, e);
        GroupExclusionsAreExact(directory.groups, condition.excludeGroups, e);
        RoleExclusionsAreExact(directory.roles, condition.excludeRoles, e);
      }
    }
  }

  function RouteRank(via: Route): nat { if via == Direct then 0 else if via == ViaGroup then 1 else 2 }

  predicate NoLaterRoute(e: Exclusion, f: Exclusion) { RouteRank(e.via) <= RouteRank(f.via) }

  ghost predicate AllBy(named: seq<Exclusion>, via: Route) { forall e | e in named :: e.via == via }

  lemma {:induction false} GroupsAreByGroup(groups: seq<Group>, ids: seq<string>)
    ensures AllBy(GroupExclusions(groups, ids), ViaGroup)
  {
    if groups == [] {
    } else {
      GroupsAreByGroup(groups[..|groups| - 1], ids);
    }
  }

  lemma {:induction false} RolesAreByRole(roles: seq<DirectoryRole>, ids: seq<string>)
    ensures AllBy(RoleExclusions(roles, ids), ViaRole)
  {
    if roles == [] {
    } else {
      RolesAreByRole(roles[..|roles| - 1], ids);
    }
  }

  lemma JoinedInOrder(direct: seq<Exclusion>, groups: seq<Exclusion>, roles: seq<Exclusion>)
    requires AllBy(direct, Direct) && AllBy(groups, ViaGroup) && AllBy(roles, ViaRole)
    ensures SortedBy(direct + groups + roles, NoLaterRoute)
  {
    var all := direct + groups + roles;
    forall i, j | 0 <= i < j < |all|
      ensures NoLaterRoute(all[i], all[j])
    {
      assert i < |direct| ==> all[i] in direct;
      assert |direct| <= i < |direct + groups| ==> all[i] in groups;
      assert |direct| <= j < |direct + groups| ==> all[j] in groups;
      assert |direct + groups| <= j ==> all[j] in roles;
    }
  }

  lemma {:induction false} FirstKnownInOrder(named: seq<Exclusion>, known: set<string>)
    requires SortedBy(named, NoLaterRoute)
    ensures SortedBy(FirstKnown(named, known), NoLaterRoute)
    ensures forall e | e in FirstKnown(named, known) :: e in named
  {
    if named == [] {
    } else {
      var front, last := named[..|named| - 1], named[|named| - 1];
      FirstKnownInOrder(front, known);
      forall e | e in FirstKnown(front, known)
        ensures NoLaterRoute(e, last)
      {
        var i :| 0 <= i < |front| && front[i] == e;
        assert NoLaterRoute(named[i], named[|named| - 1]);
      }
      AppendSorted(FirstKnown(front, known), last, NoLaterRoute);
      assert named == front + [last];
    }
  }

  /** Direct exclusions come before those through groups, and these before those through roles; so where the first
      finding about a user and a policy stays, it names the plainest route. */
  lemma RoutesComeInOrder(policy: Policy, directory: Directory)
    ensures SortedBy(ExclusionsOf(policy, directory), NoLaterRoute)
  {
    if policy.users.Some? {
      var condition := policy.users.value;
      GroupsAreByGroup(directory.groups, condition.excludeGroups);
      RolesAreByRole(directory.roles, condition.excludeRoles);
      JoinedInOrder(Map(condition.excludeUsers, By(Direct, None)),
                    GroupExclusions(directory.groups, condition.excludeGroups),
                    RoleExclusions(directory.roles, condition.excludeRoles));
      FirstKnownInOrder(Named(condition, directory), UserIndex(directory.users).Keys);
    }
  }

  /** The user is among the principals resolved for the policy. */
  predicate Resolved(policy: Policy, directory: Directory, userId: string) {
    exists e | e in ExclusionsOf(policy, directory) :: e.userId == userId
  }

  predicate Known(directory: Directory, userId: string) {
    exists user | user in directory.users :: user.id == userId
  }

  lemma RouteOfExcluded(condition: UserCondition, directory: Directory, userId: string) returns (e: Exclusion)
    requires Excluded(condition, directory, userId)
    ensures e.userId == userId && NamedBy(condition, directory, e)
  {
    if userId in condition.excludeUsers {
      e := Exclusion(userId, Direct, None);
    } else if InGroups(directory.groups, condition.excludeGroups, userId) {
      var group :| group in directory.groups && group.id in condition.excludeGroups && userId in group.members;
      e := Exclusion(userId, ViaGroup, Some(group.id));
      assert NamedByGroup(directory.groups, condition.excludeGroups, e);
    } else {
      var role :| role in directory.roles && RoleNamed(role, condition.excludeRoles) && userId in role.members;
      e := Exclusion(userId, ViaRole, Some(role.id));
      assert NamedByRole(directory.roles, condition.excludeRoles, e);
    }
  }

  /** The two resolvers agree: the users resolved are the evaluator's excluded ones that the tenant knows. */
  lemma ResolversAgree(policy: Policy, directory: Directory, userId: string)
    ensures Resolved(policy, directory, userId)
            <==> policy.users.Some? && Excluded(policy.users.value, directory, userId) && Known(directory, userId)
  {
    IndexIsById(directory.users);
    ExclusionsAreExact(policy, directory);
    if policy.users.Some? {
      if Excluded(policy.users.value, directory, userId) && Known(directory, userId) {
        var e := RouteOfExcluded(policy.users.value, directory, userId);
        assert e in ExclusionsOf(policy, directory);
      }
    }
  }

  /** An all-users policy reaches the tenant exactly when some user is not among its resolved principals. */
  lemma AllUsersPolicyReachesTheRest(setting: Coverage.Setting, policy: Policy)
    requires policy.users.Some? && policy.users.value.includeUsers == ["All"]
    ensures Coverage.Reaches(setting, Coverage.AllUsers, policy)
            <==> exists user | user in setting.directory.users :: !Resolved(policy, setting.directory, user.id)
  {
    var directory := setting.directory;
    if Coverage.Reaches(setting, Coverage.AllUsers, policy) {
      var userId :| Coverage.Belongs(Coverage.AllUsers, directory, setting.asOf, userId)
                    && Covers(policy, directory, userId);
      ResolversAgree(policy, directory, userId);
    }
    if user :| user in directory.users && !Resolved(policy, directory, user.id) {
      ResolversAgree(policy, directory, user.id);
      assert Coverage.Belongs(Coverage.AllUsers, directory, setting.asOf, user.id);
      assert Covers(policy, directory, user.id);
    }
  }

  // ---------------------------------------------------------------- forward and inverse role relations

  lemma PrivilegedSetsAgree()
    ensures PRIVILEGED_ROLE_TEMPLATE_IDS == Coverage.PRIVILEGED_TEMPLATES
  {
  }

  /** A user is an administrator of the matrix exactly when the templates listed for them are privileged. */
  lemma AdminSegmentMatchesTemplates(directory: Directory, asOf: int, userId: string, templates: seq<string>)
    requires ListsTemplates(templates, directory, userId)
    ensures Coverage.Belongs(Coverage.AdminsAny, directory, asOf, userId)
            <==> ToSet(templates) * PRIVILEGED_ROLE_TEMPLATE_IDS != {}
  {
    PrivilegedSetsAgree();
    if Coverage.Belongs(Coverage.AdminsAny, directory, asOf, userId) {
      var template :| template in Coverage.PRIVILEGED_TEMPLATES && Coverage.HoldsTemplate(directory, userId, template);
      assert template in ToSet(templates) * PRIVILEGED_ROLE_TEMPLATE_IDS;
    }
    if template :| template in ToSet(templates) * PRIVILEGED_ROLE_TEMPLATE_IDS {
      assert Coverage.HoldsTemplate(directory, userId, template);
    }
  }

  /** The list of templates is fixed by the directory. */
  lemma TemplateListIsDetermined(xs: seq<string>, ys: seq<string>, directory: Directory, userId: string)
    requires ListsTemplates(xs, directory, userId) && ListsTemplates(ys, directory, userId)
    ensures xs == ys
  {
    NoDuplicatesMultiset(xs);
    NoDuplicatesMultiset(ys);
    forall x
      ensures multiset(xs)[x] == multiset(ys)[x]
    {
      assert x in xs <==> x in multiset(xs);
      assert x in ys <==> x in multiset(ys);
    }
    LexIsOrder();
    forall x, y | x in xs && y in xs && Tied(LexLe, x, y)
      ensures x == y
    {
      LexAntisymmetric(x, y);
    }
    SortedUnique(xs, ys, LexLe);
  }

  /** A policy is documented when its name spells one of the keywords somewhere, in any case. */
  lemma DocumentedInAnyCase(policy: Policy)
    ensures IsDocumented(policy)
            <==> exists keyword, i | keyword in DOC_KEYWORDS :: SpelledAt(policy.displayName, keyword, i)
  {
    forall keyword | keyword in DOC_KEYWORDS
      ensures HasPart(Lower(policy.displayName), keyword) <==> exists i :: SpelledAt(policy.displayName, keyword, i)
    {
      KeywordsAreLower(keyword);
      SpelledSomewhere(policy.displayName, keyword);
    }
  }

  lemma KeywordsAreLower(keyword: string)
    requires keyword in DOC_KEYWORDS
    ensures NoCapitals(keyword)
  {
  }

  /** Holding a privileged role is belonging to the coverage package's segment of all admins. */
  lemma PrivilegedMeansAdmin(directory: Directory, asOf: int, userId: string)
    ensures HoldsPrivilegedRole(directory, userId)
            <==> Coverage.Belongs(Coverage.AdminsAny, directory, asOf, userId)
  {
    PrivilegedSetsAgree();
  }

  // ---------------------------------------------------------------- the quick look for alternate coverage

  /** What this package takes for an enforced MFA policy is what the coverage package ranks as MFA or better, but for
      policies that only block. */
  lemma EnforcesMfaExactly(policy: Policy)
    ensures EnforcesMfa(policy)
            <==> Coverage.Rank(Coverage.LevelOf(policy)) >= Coverage.Rank(Coverage.Mfa)
                 && "mfa" in policy.grantControls
  {
  }

  /** Some other enforced MFA policy covers the user, by the coverage evaluator's own test. */
  predicate ReallyCovered(context: Context, userId: string, excludingId: string) {
    exists policy | policy in context.policies ::
      policy.id != excludingId && EnforcesMfa(policy) && Covers(policy, context.directory, userId)
  }

  /** Every policy the quick look accepts excludes the user after all, through a group or a role. */
  predicate IndirectlyExcludedByAll(context: Context, userId: string, excludingId: string) {
    forall policy | policy in context.policies && Candidate(policy, userId, excludingId) ::
      || InGroups(context.directory.groups, policy.users.value.excludeGroups, userId)
      || InRoles(context.directory.roles, policy.users.value.excludeRoles, userId)
  }

  /** A policy not written for all users, or written without a user condition, covers the user. */
  predicate CoveredNarrowly(context: Context, userId: string, excludingId: string) {
    exists policy | policy in context.policies ::
      && policy.id != excludingId && EnforcesMfa(policy) && !MfaForAll(policy)
      && Covers(policy, context.directory, userId)
  }

  /** What makes the quick look come out right. */
  predicate QuickLookSuffices(context: Context, userId: string, excludingId: string) {
    if exists policy | policy in context.policies :: Candidate(policy, userId, excludingId)
    then !IndirectlyExcludedByAll(context, userId, excludingId) || CoveredNarrowly(context, userId, excludingId)
    else !CoveredNarrowly(context, userId, excludingId)
  }

  /**
   * The quick look errs in both directions. It takes a user for covered whom nothing covers exactly when there
   * are policies it accepts, all of them exclude the user indirectly and no narrower policy covers them; it misses
   * coverage exactly when there is none it accepts and a narrower policy covers them.
   */
  lemma QuickLookIsExact(context: Context, userId: string, excludingId: string)
    ensures LooksCovered(userId, context.policies, excludingId) && !ReallyCovered(context, userId, excludingId)
            <==> && (exists policy | policy in context.policies :: Candidate(policy, userId, excludingId))
                 && IndirectlyExcludedByAll(context, userId, excludingId)
                 && !CoveredNarrowly(context, userId, excludingId)
    ensures !LooksCovered(userId, context.policies, excludingId) && ReallyCovered(context, userId, excludingId)
            <==> && (forall policy | policy in context.policies :: !Candidate(policy, userId, excludingId))
                 && CoveredNarrowly(context, userId, excludingId)
    ensures (LooksCovered(userId, context.policies, excludingId) <==> ReallyCovered(context, userId, excludingId))
            <==> QuickLookSuffices(context, userId, excludingId)
  {
    if ReallyCovered(context, userId, excludingId) {
      var policy :| policy in context.policies && policy.id != excludingId && EnforcesMfa(policy)
                    && Covers(policy, context.directory, userId);
      if MfaForAll(policy) {
        assert Candidate(policy, userId, excludingId);
      }
    }
    if policy :| policy in context.policies && Candidate(policy, userId, excludingId)
                 && !InGroups(context.directory.groups, policy.users.value.excludeGroups, userId)
                 && !InRoles(context.directory.roles, policy.users.value.excludeRoles, userId) {
      assert Covers(policy, context.directory, userId);
    }
  }

  function MfaPolicy(id: string, condition: Option<UserCondition>): Policy {
    Policy(id, id, Enabled, condition, None, [], ["mfa"])
  }

  function EveryoneBut(groupId: string): UserCondition { UserCondition(["All"], [], [], false, [], [groupId], []) }

  function HoldersOf(roleId: string): UserCondition { UserCondition([], [], [roleId], false, [], [], []) }

  /** The first direction: a user in one group, which two all-users policies exclude, is covered by neither. */
  lemma GroupExclusionsHideEachOther(context: Context, userId: string, groupId: string, members: seq<string>)
    requires context.policies == [MfaPolicy("p", Some(EveryoneBut(groupId))),
                                 MfaPolicy("q", Some(EveryoneBut(groupId)))]
    requires context.directory.groups == [Group(groupId, members)] && userId in members
    ensures forall policy | policy in context.policies ::
              && LooksCovered(userId, context.policies, policy.id)
              && !ReallyCovered(context, userId, policy.id)
              && !Bypasses(context, policy, userId)
  {
    var p, q := MfaPolicy("p", Some(EveryoneBut(groupId))), MfaPolicy("q", Some(EveryoneBut(groupId)));
    assert context.policies[0] == p && context.policies[1] == q;
    assert Group(groupId, members) in context.directory.groups;
    assert p.id != q.id;
    assert MfaForAll(p) && MfaForAll(q);
    assert Candidate(q, userId, "p") && Candidate(p, userId, "q");
  }

  /** The other direction: a policy for the holders of a role, or one without a user condition, goes unseen. */
  lemma NarrowCoverageGoesUnseen(context: Context, userId: string, groupId: string, role: DirectoryRole,
                                 other: Option<UserCondition>)
    requires context.policies == [MfaPolicy("p", Some(EveryoneBut(groupId))), MfaPolicy("r", other)]
    requires other == None || other == Some(HoldersOf(role.id))
    requires role in context.directory.roles && userId in role.members
    ensures !LooksCovered(userId, context.policies, "p") && ReallyCovered(context, userId, "p")
    ensures HoldsPrivilegedRole(context.directory, userId) ==> Bypasses(context, context.policies[0], userId)
  {
    var p, r := MfaPolicy("p", Some(EveryoneBut(groupId))), MfaPolicy("r", other);
    assert context.policies[0] == p && context.policies[1] == r;
    assert p.id != r.id;
    if other.Some? {
      assert RoleNamed(role, [role.id]);
      assert InRoles(context.directory.roles, HoldersOf(role.id).includeRoles, userId);
      assert InGroups(context.directory.groups, [], userId) == false;
    }
    assert Covers(r, context.directory, userId);
  }

  // ---------------------------------------------------------------- what the analysis reports

  /** What a finding is about: its rule and its objects. */
  function SubjectOf(finding: Finding): (string, seq<string>) {
    (finding.ruleId, Map(finding.affected, ObjectId))
  }

  const USER_RULES: set<string> := {STALE_RULE, ORPHAN_RULE, BYPASS_RULE}

  predicate Deserves(context: Context, policy: Policy, user: User, rule: string) {
    if rule == STALE_RULE then Stale(user, context.asOf)
    else if rule == ORPHAN_RULE then user.accountEnabled == Some(false)
    else if rule == BYPASS_RULE then Bypasses(context, policy, user.id)
    else false
  }

  lemma RulesAreDistinct()
    ensures STALE_RULE != ORPHAN_RULE && STALE_RULE != BYPASS_RULE && ORPHAN_RULE != BYPASS_RULE
    ensures CREEP_RULE !in USER_RULES && UNDOCUMENTED_RULE !in USER_RULES && CREEP_RULE != UNDOCUMENTED_RULE
  {
    assert STALE_RULE[10] == 's' && ORPHAN_RULE[10] == 'o' && BYPASS_RULE[10] == 'a';
    assert CREEP_RULE[10] == 'c' && UNDOCUMENTED_RULE[10] == 'u';
  }

  function UserCheck(hash: string -> string, context: Context, policy: Policy, user: User, via: Route,
                     rule: string): Option<Finding> {
    if rule == STALE_RULE then CheckStale(hash, context, user, policy.id, via)
    else if rule == ORPHAN_RULE then CheckOrphan(hash, context, user, policy.id, via)
    else if rule == BYPASS_RULE then BypassOf(hash, context, policy, user, via)
    else None
  }

  lemma ShownName(user: User)
    ensures var shown := Display(user);
            && (shown == "" <==> user.displayName == user.principalName == user.id == "")
            && (user.displayName != "" ==> shown == user.displayName)
            && (user.displayName == "" && user.principalName != "" ==> shown == user.principalName)
            && shown in {user.displayName, user.principalName, user.id}
  {
  }

  lemma EvidenceOfUser(hash: string -> string, context: Context, ruleId: string, severity: Severity, user: User,
                       policyId: string, policyName: string, via: Route, evidence: map<string, string>)
    requires evidence == UserFinding(hash, context, ruleId, severity, user, policyId, policyName, via).evidence
    ensures "user_id" in evidence && evidence["user_id"] == user.id
    ensures "policy_id" in evidence && evidence["policy_id"] == policyId
    ensures "excluded_via" in evidence
            && evidence["excluded_via"]
               == (if via == Direct then "direct" else if via == ViaGroup then "group" else "role")
  {
  }

  /** A finding about a user shows a name whenever there is one, the display name before the principal name before
      the id, and says by which route the policy excludes the user. */
  lemma FindingsNameTheirUser(hash: string -> string, context: Context, policy: Policy, user: User, via: Route,
                              rule: string, finding: Finding)
    requires UserCheck(hash, context, policy, user, via, rule) == Some(finding)
    ensures |finding.affected| == 2 && finding.affected[0].id == user.id && finding.affected[1].id == policy.id
    ensures finding.affected[0].kind == "user" && finding.affected[1].kind == "policy"
    ensures var shown := finding.affected[0].displayName;
            && (shown == "" <==> user.displayName == user.principalName == user.id == "")
            && (user.displayName != "" ==> shown == user.displayName)
            && (user.displayName == "" && user.principalName != "" ==> shown == user.principalName)
            && shown in {user.displayName, user.principalName, user.id}
    ensures "user_id" in finding.evidence && finding.evidence["user_id"] == user.id
    ensures "policy_id" in finding.evidence && finding.evidence["policy_id"] == policy.id
    ensures "excluded_via" in finding.evidence
            && finding.evidence["excluded_via"]
               == (if via == Direct then "direct" else if via == ViaGroup then "group" else "role")
  {
    ShownName(user);
    if rule == STALE_RULE {
      EvidenceOfUser(hash, context, STALE_RULE, Medium, user, policy.id, policy.id, via, finding.evidence);
    } else if rule == ORPHAN_RULE {
      EvidenceOfUser(hash, context, ORPHAN_RULE, High, user, policy.id, policy.id, via, finding.evidence);
    } else {
      EvidenceOfUser(hash, context, BYPASS_RULE, Critical, user, policy.id, policy.displayName, via, finding.evidence);
    }
  }

  function SeverityOfRule(rule: string): Severity {
    if rule == BYPASS_RULE then Critical
    else if rule == ORPHAN_RULE then High
    else if rule == STALE_RULE then Severity.Medium
    else Low
  }

  lemma UserCheckReports(hash: string -> string, context: Context, policy: Policy, user: User, via: Route, rule: string)
    ensures var check := UserCheck(hash, context, policy, user, via, rule);
            && (check.Some? <==> Deserves(context, policy, user, rule))
            && (check.Some? ==>
                  && SubjectOf(check.value) == (rule, [user.id, policy.id])
                  && check.value.tenantId == context.tenantId && check.value.category == ExclusionHygiene
                  && check.value.severity == SeverityOfRule(rule)
                  && check.value.id == ComputeId(hash, context.tenantId, rule, [user.id, policy.id]))
  {
    RulesAreDistinct();
    var affected := [AffectedObject("user", user.id, Display(user)), AffectedObject("policy", policy.id, policy.id)];
    assert Map(affected, ObjectId) == [user.id, policy.id];
    affected := [AffectedObject("user", user.id, Display(user)),
                 AffectedObject("policy", policy.id, policy.displayName)];
    assert Map(affected, ObjectId) == [user.id, policy.id];
  }

  lemma UserFindingsAreChecks(hash: string -> string, context: Context, policy: Policy, user: User, via: Route,
                              finding: Finding)
    ensures finding in UserFindings(hash, context, policy, user, via)
            <==> exists rule | rule in USER_RULES :: UserCheck(hash, context, policy, user, via, rule) == Some(finding)
  {
    RulesAreDistinct();
    assert UserCheck(hash, context, policy, user, via, STALE_RULE) == CheckStale(hash, context, user, policy.id, via);
    assert UserCheck(hash, context, policy, user, via, ORPHAN_RULE) == CheckOrphan(hash, context, user, policy.id, via);
    assert UserCheck(hash, context, policy, user, via, BYPASS_RULE) == BypassOf(hash, context, policy, user, via);
    assert finding in UserFindings(hash, context, policy, user, via)
           <==> || Some(finding) == CheckStale(hash, context, user, policy.id, via)
                || Some(finding) == CheckOrphan(hash, context, user, policy.id, via)
                || Some(finding) == BypassOf(hash, context, policy, user, via);
  }

  /** Some policy with this id excludes the user, whom the tenant knows and who deserves the rule. */
  predicate ShouldReport(context: Context, userId: string, policyId: string, rule: string) {
    exists policy | policy in context.policies ::
      && policy.id == policyId && policy.users.Some? && Excluded(policy.users.value, context.directory, userId)
      && userId in UserIndex(context.directory.users)
      && Deserves(context, policy, UserIndex(context.directory.users)[userId], rule)
  }

  /** A finding of the analysis is one user check of one policy, or one of the two checks of its lists. */
  predicate Reported(hash: string -> string, context: Context, policy: Policy, e: Exclusion, rule: string,
                     finding: Finding) {
    && e in ExclusionsOf(policy, context.directory)
    && e.userId in UserIndex(context.directory.users)
    && UserCheck(hash, context, policy, UserIndex(context.directory.users)[e.userId], e.via, rule) == Some(finding)
  }

  predicate ListReported(hash: string -> string, context: Context, policy: Policy, finding: Finding) {
    CreepOf(hash, context, policy) == Some(finding) || UndocumentedOf(hash, context, policy) == Some(finding)
  }

  lemma PolicyFindingsAre(hash: string -> string, context: Context, policy: Policy, finding: Finding)
    ensures finding in PolicyFindings(hash, context, policy)
            <==> || (exists e, rule :: rule in USER_RULES && Reported(hash, context, policy, e, rule, finding))
                 || (HasExclusions(policy) && ListReported(hash, context, policy, finding))
  {
    var exclusions, index := ExclusionsOf(policy, context.directory), UserIndex(context.directory.users);
    FlatMapMembers(exclusions, ForExclusions(hash, context, policy), finding);
    if e :| e in exclusions && finding in PrincipalFindings(hash, context, policy, e) {
      UserFindingsAreChecks(hash, context, policy, index[e.userId], e.via, finding);
      var rule :| rule in USER_RULES && UserCheck(hash, context, policy, index[e.userId], e.via, rule) == Some(finding);
      assert Reported(hash, context, policy, e, rule, finding);
    }
    if e, rule :| rule in USER_RULES && Reported(hash, context, policy, e, rule, finding) {
      UserFindingsAreChecks(hash, context, policy, index[e.userId], e.via, finding);
      assert finding in PrincipalFindings(hash, context, policy, e);
      OnlyListedPoliciesExclude(policy, context.directory, e);
    }
  }

  lemma OnlyListedPoliciesExclude(policy: Policy, directory: Directory, e: Exclusion)
    requires e in ExclusionsOf(policy, directory)
    ensures HasExclusions(policy)
  {
    ExclusionsAreExact(policy, directory);
  }

  lemma ListFindingsAreAboutPolicies(hash: string -> string, context: Context, policy: Policy, finding: Finding)
    requires ListReported(hash, context, policy, finding)
    ensures finding.ruleId in {CREEP_RULE, UNDOCUMENTED_RULE} && SubjectOf(finding) == (finding.ruleId, [policy.id])
    ensures finding.tenantId == context.tenantId && finding.category == ExclusionHygiene
    ensures finding.severity == SeverityOfRule(finding.ruleId)
    ensures finding.id == ComputeId(hash, context.tenantId, finding.ruleId, [policy.id])
  {
    assert Map([AffectedObject("policy", policy.id, policy.displayName)], ObjectId) == [policy.id];
    RulesAreDistinct();
  }

  /** More than five users are excluded one by one. */
  predicate ManyDirect(policy: Policy) { policy.users.Some? && |policy.users.value.excludeUsers| > 5 }

  predicate ShouldReportList(context: Context, policyId: string, rule: string) {
    exists policy | policy in context.policies ::
      && policy.id == policyId && policy.users.Some?
      && policy.users.value.excludeUsers + policy.users.value.excludeGroups + policy.users.value.excludeRoles != []
      && (if rule == CREEP_RULE then ManyDirect(policy) else !IsDocumented(policy))
  }

  lemma ListFinding(hash: string -> string, context: Context, policy: Policy, rule: string) returns (finding: Finding)
    requires rule in {CREEP_RULE, UNDOCUMENTED_RULE} && HasExclusions(policy)
    requires if rule == CREEP_RULE then ManyDirect(policy) else !IsDocumented(policy)
    ensures finding in PolicyFindings(hash, context, policy) && SubjectOf(finding) == (rule, [policy.id])
  {
    RulesAreDistinct();
    finding := PolicyFinding(hash, context, rule, policy);
    assert ListReported(hash, context, policy, finding);
    ListFindingsAreAboutPolicies(hash, context, policy, finding);
    PolicyFindingsAre(hash, context, policy, finding);
  }

  lemma ListReportIsDeserved(hash: string -> string, context: Context, policy: Policy, finding: Finding,
                             policyId: string, rule: string)
    requires rule in {CREEP_RULE, UNDOCUMENTED_RULE} && SubjectOf(finding) == (rule, [policyId])
    requires policy in context.policies && finding in PolicyFindings(hash, context, policy)
    ensures ShouldReportList(context, policyId, rule)
  {
    RulesAreDistinct();
    PolicyFindingsAre(hash, context, policy, finding);
    if ListReported(hash, context, policy, finding) {
      ListFindingsAreAboutPolicies(hash, context, policy, finding);
      assert [policy.id][0] == [policyId][0];
    }
    if e, other :| other in USER_RULES && Reported(hash, context, policy, e, other, finding) {
      UserCheckReports(hash, context, policy, UserIndex(context.directory.users)[e.userId], e.via, other);
    }
  }

  /** Growing and undocumented exclusion lists are reported exactly where they are. */
  lemma {:induction false} AnalysisReportsListsExactly(hash: string -> string, context: Context, policyId: string,
                                                       rule: string)
    requires rule in {CREEP_RULE, UNDOCUMENTED_RULE}
    ensures (exists finding | finding in Analysis(hash, context) :: SubjectOf(finding) == (rule, [policyId]))
            <==> ShouldReportList(context, policyId, rule)
  {
    if finding :| finding in Analysis(hash, context) && SubjectOf(finding) == (rule, [policyId]) {
      FlatMapMembers(context.policies, ForPolicies(hash, context), finding);
      var policy :| policy in context.policies && finding in PolicyFindings(hash, context, policy);
      ListReportIsDeserved(hash, context, policy, finding, policyId, rule);
    }
    if ShouldReportList(context, policyId, rule) {
      var policy :| policy in context.policies && policy.id == policyId && HasExclusions(policy)
                    && if rule == CREEP_RULE then ManyDirect(policy)
                       else !IsDocumented(policy);
      var finding := ListFinding(hash, context, policy, rule);
      FlatMapMembers(context.policies, ForPolicies(hash, context), finding);
    }
  }

  /** The analysis reports a user rule for a user and a policy exactly when it should. */
  lemma AnalysisReportsExactly(hash: string -> string, context: Context, userId: string, policyId: string, rule: string)
    requires rule in USER_RULES
    ensures (exists finding | finding in Analysis(hash, context) ::
               SubjectOf(finding) == (rule, [userId, policyId]))
            <==> ShouldReport(context, userId, policyId, rule)
  {
    var index := UserIndex(context.directory.users);
    if finding :| finding in Analysis(hash, context) && SubjectOf(finding) == (rule, [userId, policyId]) {
      ReportIsDeserved(hash, context, finding, userId, policyId, rule);
    }
    if ShouldReport(context, userId, policyId, rule) {
      var policy :| policy in context.policies && policy.id == policyId && policy.users.Some?
                    && Excluded(policy.users.value, context.directory, userId)
                    && Deserves(context, policy, index[userId], rule);
      var finding := DeservedIsReported(hash, context, policy, userId, rule);
      FlatMapMembers(context.policies, ForPolicies(hash, context), finding);
    }
  }

  lemma ReportIsDeserved(hash: string -> string, context: Context, finding: Finding, userId: string,
                         policyId: string, rule: string)
    requires rule in USER_RULES
    requires finding in Analysis(hash, context) && SubjectOf(finding) == (rule, [userId, policyId])
    ensures ShouldReport(context, userId, policyId, rule)
  {
    var index := UserIndex(context.directory.users);
    IndexIsById(context.directory.users);
    FlatMapMembers(context.policies, ForPolicies(hash, context), finding);
    var policy :| policy in context.policies && finding in PolicyFindings(hash, context, policy);
    PolicyFindingsAre(hash, context, policy, finding);
    RulesAreDistinct();
    if ListReported(hash, context, policy, finding) {
      ListFindingsAreAboutPolicies(hash, context, policy, finding);
    }
    var e, other :| other in USER_RULES && Reported(hash, context, policy, e, other, finding);
    UserCheckReports(hash, context, policy, index[e.userId], e.via, other);
    assert [e.userId, policy.id][0] == [userId, policyId][0] && [e.userId, policy.id][1] == [userId, policyId][1];
    ResolversAgree(policy, context.directory, e.userId);
  }

  lemma DeservedIsReported(hash: string -> string, context: Context, policy: Policy, userId: string, rule: string)
    returns (finding: Finding)
    requires rule in USER_RULES && policy.users.Some? && Excluded(policy.users.value, context.directory, userId)
    requires userId in UserIndex(context.directory.users)
    requires Deserves(context, policy, UserIndex(context.directory.users)[userId], rule)
    ensures finding in PolicyFindings(hash, context, policy) && SubjectOf(finding) == (rule, [userId, policy.id])
  {
    var index := UserIndex(context.directory.users);
    IndexIsById(context.directory.users);
    ResolversAgree(policy, context.directory, userId);
    var e :| e in ExclusionsOf(policy, context.directory) && e.userId == userId;
    UserCheckReports(hash, context, policy, index[userId], e.via, rule);
    finding := UserCheck(hash, context, policy, index[userId], e.via, rule).value;
    assert Reported(hash, context, policy, e, rule, finding);
    PolicyFindingsAre(hash, context, policy, finding);
  }

  /** A known holder of a privileged role is excluded from an enforced MFA policy of this id. */
  predicate AtRisk(context: Context, userId: string, policyId: string) {
    && userId in UserIndex(context.directory.users) && HoldsPrivilegedRole(context.directory, userId)
    && exists policy | policy in context.policies ::
         && policy.id == policyId && policy.users.Some? && EnforcesMfa(policy)
         && Excluded(policy.users.value, context.directory, userId)
  }

  predicate BypassReported(hash: string -> string, context: Context, userId: string, policyId: string) {
    exists finding | finding in Analysis(hash, context) :: SubjectOf(finding) == (BYPASS_RULE, [userId, policyId])
  }

  lemma BypassReportedWhen(hash: string -> string, context: Context, userId: string, policyId: string)
    ensures BypassReported(hash, context, userId, policyId)
            <==> AtRisk(context, userId, policyId) && !LooksCovered(userId, context.policies, policyId)
  {
    AnalysisReportsExactly(hash, context, userId, policyId, BYPASS_RULE);
    RulesAreDistinct();
    IndexIsById(context.directory.users);
    assert ShouldReport(context, userId, policyId, BYPASS_RULE)
           <==> AtRisk(context, userId, policyId) && !LooksCovered(userId, context.policies, policyId);
  }

  /**
   * Which bypass findings are false, and which bypasses stay unreported: a finding is about a covered user
   * exactly when only a narrower policy covers them; a user at risk whom nothing covers goes unreported exactly
   * when there are policies the quick look accepts and all of them exclude them indirectly.
   */
  lemma BypassReportsAreExact(hash: string -> string, context: Context, userId: string, policyId: string)
    ensures BypassReported(hash, context, userId, policyId) && ReallyCovered(context, userId, policyId)
            <==> && AtRisk(context, userId, policyId)
                 && (forall policy | policy in context.policies :: !Candidate(policy, userId, policyId))
                 && CoveredNarrowly(context, userId, policyId)
    ensures AtRisk(context, userId, policyId) && !ReallyCovered(context, userId, policyId)
            && !BypassReported(hash, context, userId, policyId)
            <==> && AtRisk(context, userId, policyId)
                 && (exists policy | policy in context.policies :: Candidate(policy, userId, policyId))
                 && IndirectlyExcludedByAll(context, userId, policyId) && !CoveredNarrowly(context, userId, policyId)
    ensures (BypassReported(hash, context, userId, policyId)
             <==> AtRisk(context, userId, policyId) && !ReallyCovered(context, userId, policyId))
            <==> !AtRisk(context, userId, policyId) || QuickLookSuffices(context, userId, policyId)
  {
    BypassReportedWhen(hash, context, userId, policyId);
    QuickLookIsExact(context, userId, policyId);
  }

  // ---------------------------------------------------------------- one row per rule, user and policy

  /** No separators in ids, and no id names both a user and a policy. */
  ghost predicate PlainTenant(context: Context) {
    && (forall user | user in context.directory.users :: ',' !in user.id)
    && (forall policy | policy in context.policies :: ',' !in policy.id)
    && (forall user, policy | user in context.directory.users && policy in context.policies :: user.id != policy.id)
  }

  /** The shape of every finding of the analysis. */
  ghost predicate Shaped(hash: string -> string, context: Context, finding: Finding) {
    var objects := SubjectOf(finding).1;
    && '|' !in finding.ruleId
    && finding.tenantId == context.tenantId && finding.category == ExclusionHygiene
    && finding.severity == SeverityOfRule(finding.ruleId)
    && finding.id == ComputeId(hash, context.tenantId, finding.ruleId, objects)
    && 1 <= |objects| <= 2
    && (exists policy | policy in context.policies :: objects[|objects| - 1] == policy.id)
    && (|objects| == 2 ==> Known(context.directory, objects[0]))
  }

  lemma RulesArePlain(rule: string)
    requires rule in USER_RULES + {CREEP_RULE, UNDOCUMENTED_RULE}
    ensures '|' !in rule
  {
  }

  lemma FindingsAreShaped(hash: string -> string, context: Context, finding: Finding)
    requires finding in Analysis(hash, context)
    ensures Shaped(hash, context, finding)
  {
    var index := UserIndex(context.directory.users);
    FlatMapMembers(context.policies, ForPolicies(hash, context), finding);
    var policy :| policy in context.policies && finding in PolicyFindings(hash, context, policy);
    PolicyFindingsAre(hash, context, policy, finding);
    if ListReported(hash, context, policy, finding) {
      ListFindingsAreAboutPolicies(hash, context, policy, finding);
    } else {
      var e, rule :| rule in USER_RULES && Reported(hash, context, policy, e, rule, finding);
      IndexIsById(context.directory.users);
      UserCheckReports(hash, context, policy, index[e.userId], e.via, rule);
    }
    RulesArePlain(finding.ruleId);
  }

  lemma SameObjectsInOrder(context: Context, xs: seq<string>, ys: seq<string>)
    requires PlainTenant(context) && multiset(xs) == multiset(ys)
    requires 1 <= |xs| <= 2 && 1 <= |ys| <= 2
    requires exists policy | policy in context.policies :: xs[|xs| - 1] == policy.id
    requires exists policy | policy in context.policies :: ys[|ys| - 1] == policy.id
    requires |xs| == 2 ==> Known(context.directory, xs[0])
    requires |ys| == 2 ==> Known(context.directory, ys[0])
    ensures xs == ys
  {
    assert |xs| == |multiset(xs)| == |multiset(ys)| == |ys|;
    if |xs| == 2 {
      assert xs == [xs[0], xs[1]] && ys == [ys[0], ys[1]];
      assert xs[0] in multiset(ys) && xs[0] != ys[1];
      assert xs[1] in multiset(ys);
    } else {
      assert xs == [xs[0]] && ys == [ys[0]];
      assert xs[0] in multiset(ys);
    }
  }

  lemma SameIdSameSubject(hash: string -> string, context: Context, f: Finding, g: Finding)
    requires Injective(hash) && PlainTenant(context)
    requires Shaped(hash, context, f) && Shaped(hash, context, g)
    ensures f.id == g.id <==> SubjectOf(f) == SubjectOf(g)
  {
    var xs, ys := SubjectOf(f).1, SubjectOf(g).1;
    ShapedIsSeparatorFree(hash, context, f);
    ShapedIsSeparatorFree(hash, context, g);
    IdIdentifiesContent(hash, context.tenantId, f.ruleId, xs, context.tenantId, g.ruleId, ys);
    if multiset(xs) == multiset(ys) {
      SameObjectsInOrder(context, xs, ys);
    }
  }

  lemma ShapedIsSeparatorFree(hash: string -> string, context: Context, finding: Finding)
    requires PlainTenant(context) && Shaped(hash, context, finding)
    ensures SeparatorFree(finding.ruleId, SubjectOf(finding).1)
  {
    var objects := SubjectOf(finding).1;
    forall id | id in objects
      ensures ',' !in id
    {
      var i :| 0 <= i < |objects| && objects[i] == id;
    }
  }

  /** However many routes exclude a user from a policy, each rule leaves one row for the pair. */
  lemma {:induction false} OneRowPerRuleUserAndPolicy(hash: string -> string, context: Context)
    requires Injective(hash) && PlainTenant(context)
    ensures var findings := Analysis(hash, context);
            |Written(map[], findings)| == |ToSet(Map(findings, SubjectOf))|
  {
    var findings := Analysis(hash, context);
    forall f, g | f in findings && g in findings
      ensures f.id == g.id <==> SubjectOf(f) == SubjectOf(g)
    {
      FindingsAreShaped(hash, context, f);
      FindingsAreShaped(hash, context, g);
      SameIdSameSubject(hash, context, f, g);
    }
    OneRowPerSubject(findings, SubjectOf);
  }

  /** A user is stale exactly when no sign-in is known or the last one is ninety whole days back. */
  lemma StaleIsNinetyDays(user: User, asOf: int)
    ensures Stale(user, asOf) <==> user.lastSignIn.None? || user.lastSignIn.value <= asOf - 90 * (24 * 60 * 60)
  {
    if user.lastSignIn.Some? {
      DaysReachExactly(asOf, user.lastSignIn.value, STALE_DAYS);
    }
  }
}
