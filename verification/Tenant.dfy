/** What a tenant's directory and its conditional-access policies hold, and whom a policy reaches. */
module Tenant {
  import opened Sequences

  /** Times are integer seconds; a missing text is empty. */
  datatype User = User(
    id: string, displayName: string, principalName: string, userType: string,
    accountEnabled: Option<bool>, lastSignIn: Option<int>)

  datatype Group = Group(id: string, members: seq<string>)

  datatype DirectoryRole = DirectoryRole(id: string, templateId: Option<string>, members: seq<string>)

  datatype RoleAssignment = RoleAssignment(principalId: Option<string>, roleDefinitionId: Option<string>)

  datatype Directory = Directory(
    users: seq<User>, groups: seq<Group>, roles: seq<DirectoryRole>, assignments: seq<RoleAssignment>)

  /** A missing list is an empty one. */
  datatype UserCondition = UserCondition(
    includeUsers: seq<string>, includeGroups: seq<string>, includeRoles: seq<string>, includeGuests: bool,
    excludeUsers: seq<string>, excludeGroups: seq<string>, excludeRoles: seq<string>)

  datatype Applications = Applications(includeApps: seq<string>, excludeApps: seq<string>)

  datatype PolicyState = Enabled | Disabled | ReportingOnly | Unset

  /** A policy without conditions has none of the three condition parts. */
  datatype Policy = Policy(
    id: string, displayName: string, state: PolicyState,
    users: Option<UserCondition>, applications: Option<Applications>, clientAppTypes: seq<string>,
    grantControls: seq<string>)

  const DAY_SECONDS: int := 86_400

  /** Whole days between two moments, rounded down. */
  function DaysSince(asOf: int, since: int): int { (asOf - since) / DAY_SECONDS }

  // ---------------------------------------------------------------- whom lists of ids reach

  predicate RoleNamed(role: DirectoryRole, ids: seq<string>) {
    (role.templateId.Some? && role.templateId.value in ids) || role.id in ids
  }

  predicate InGroups(groups: seq<Group>, ids: seq<string>, userId: string) {
    exists group | group in groups :: group.id in ids && userId in group.members
  }

  predicate InRoles(roles: seq<DirectoryRole>, ids: seq<string>, userId: string) {
    exists role | role in roles :: RoleNamed(role, ids) && userId in role.members
  }

  predicate Included(condition: UserCondition, directory: Directory, userId: string) {
    || condition.includeUsers == ["All"]
    || userId in condition.includeUsers
    || InGroups(directory.groups, condition.includeGroups, userId)
    || InRoles(directory.roles, condition.includeRoles, userId)
    || condition.includeGuests
  }

  predicate Excluded(condition: UserCondition, directory: Directory, userId: string) {
    || userId in condition.excludeUsers
    || InGroups(directory.groups, condition.excludeGroups, userId)
    || InRoles(directory.roles, condition.excludeRoles, userId)
  }

  /** A policy without a user condition reaches everyone. */
  predicate Covers(policy: Policy, directory: Directory, userId: string) {
    policy.users.Some? ==>
      Included(policy.users.value, directory, userId) && !Excluded(policy.users.value, directory, userId)
  }

  function GroupMembers(groups: seq<Group>, ids: seq<string>): set<string> {
    if groups == [] then {}
    else
      var group, before := groups[|groups| - 1], GroupMembers(groups[..|groups| - 1], ids);
      if group.id in ids then before + ToSet(group.members) else before
  }

  function RoleMembers(roles: seq<DirectoryRole>, ids: seq<string>): set<string> {
    if roles == [] then {}
    else
      var role, before := roles[|roles| - 1], RoleMembers(roles[..|roles| - 1], ids);
      if RoleNamed(role, ids) then before + ToSet(role.members) else before
  }

  lemma {:induction false} GroupMembersAreReached(groups: seq<Group>, ids: seq<string>)
    ensures forall userId :: userId in GroupMembers(groups, ids) <==> InGroups(groups, ids, userId)
  {
    if groups == [] {
    } else {
      GroupMembersAreReached(groups[..|groups| - 1], ids);
      assert groups == groups[..|groups| - 1] + [groups[|groups| - 1]];
    }
  }

  lemma {:induction false} RoleMembersAreReached(roles: seq<DirectoryRole>, ids: seq<string>)
    ensures forall userId :: userId in RoleMembers(roles, ids) <==> InRoles(roles, ids, userId)
  {
    if roles == [] {
    } else {
      RoleMembersAreReached(roles[..|roles| - 1], ids);
      assert roles == roles[..|roles| - 1] + [roles[|roles| - 1]];
    }
  }

  /** A policy covers everyone when it is for all users or guests, and else whom a condition with the same lists
      turned round excludes; but never whom it excludes itself. */
  lemma InclusionMirrorsExclusion(policy: Policy, condition: UserCondition, mirror: UserCondition,
                                  directory: Directory, userId: string)
    requires policy.users == Some(condition) && condition.includeUsers == mirror.excludeUsers
    requires condition.includeGroups == mirror.excludeGroups && condition.includeRoles == mirror.excludeRoles
    ensures Covers(policy, directory, userId)
            <==> && !Excluded(condition, directory, userId)
                 && (condition.includeUsers == ["All"] || condition.includeGuests
                     || Excluded(mirror, directory, userId))
  {
  }

  /** A role is reached alike under its id and under its template, when no other role answers to either. */
  lemma TemplatesNameRoles(roles: seq<DirectoryRole>, role: DirectoryRole, template: string, userId: string)
    requires role in roles && role.templateId == Some(template)
    requires forall other | other in roles && other != role ::
               role.id !in {other.id} && template != other.id
               && other.templateId != Some(role.id) && other.templateId != Some(template)
    ensures InRoles(roles, [role.id], userId) <==> userId in role.members
    ensures InRoles(roles, [template], userId) <==> userId in role.members
  {
    assert RoleNamed(role, [role.id]) && RoleNamed(role, [template]);
  }

  /** Whole days reach a threshold exactly when the time itself does, before and after the moment. */
  lemma DaysReachExactly(asOf: int, since: int, days: int)
    ensures DaysSince(asOf, since) >= days <==> asOf - since >= days * DAY_SECONDS
  {
    var d := DaysSince(asOf, since);
    assert DAY_SECONDS * d <= asOf - since < DAY_SECONDS * (d + 1);
  }
}
