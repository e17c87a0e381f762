/** The coverage matrix: user segments against app segments, each cell with its strongest control. */
module Coverage {
  import opened Sequences
  import opened Tenant
  import opened Text

  datatype UserSegment = AllUsers | AdminsAny | Guests | ServiceAccounts | PrivilegedRoles

  datatype AppSegment = AllApps | M365Core | AdminPortals | LegacyAuth | HighRiskApps

  const USER_SEGMENTS := [AllUsers, AdminsAny, Guests, ServiceAccounts, PrivilegedRoles]
  const APP_SEGMENTS := [AllApps, M365Core, AdminPortals, LegacyAuth, HighRiskApps]

  datatype ProtectionLevel = NoControl | ReportOnly | CompliantDevice | Mfa | MfaAndDevice

  function Rank(level: ProtectionLevel): nat {
    match level
    case NoControl => 0
    case ReportOnly => 1
    case CompliantDevice => 2
    case Mfa => 3
    case MfaAndDevice => 4
  }

  datatype Cell = Cell(
    userSegment: UserSegment, appSegment: AppSegment, applicable: seq<string>, level: ProtectionLevel, members: nat)

  // ---------------------------------------------------------------- segments

  const GLOBAL_ADMINISTRATOR := "62e90394-69f5-4237-9190-012177145e10"
  const PRIVILEGED_ROLE_ADMINISTRATOR := "e8611ab8-c189-46e8-94e1-60213ab1f814"
  const PRIVILEGED_AUTHENTICATION_ADMINISTRATOR := "7be44c8a-adaf-4e2a-84d6-ab2649e08a13"
  const SECURITY_ADMINISTRATOR := "194ae4cb-b126-40b2-bd5b-6091b380977d"
  const CONDITIONAL_ACCESS_ADMINISTRATOR := "b1be1c3e-b65d-4f19-8427-f6fa0d97feb9"
  const APPLICATION_ADMINISTRATOR := "9b895d92-2cd3-44c7-9d02-a6ac2d5ea5c3"
  const CLOUD_APPLICATION_ADMINISTRATOR := "158c047a-c907-4556-b7ef-446551a6b5f7"
  const USER_ADMINISTRATOR := "fe930be7-5e62-47db-91af-98c3a49a38b1"
  const HELPDESK_ADMINISTRATOR := "729827e3-9c14-49f7-bb1b-9608f156bbb8"
  const HYBRID_IDENTITY_ADMINISTRATOR := "8ac3fc64-6eca-42ea-9e69-59f4c7b60eb2"
  const AUTHENTICATION_ADMINISTRATOR := "c4e39bd9-1100-46d3-8c65-fb160da0071f"
  const EXCHANGE_ADMINISTRATOR := "29232cdf-9323-42fd-ade2-1d097af3e4de"
  const SHAREPOINT_ADMINISTRATOR := "f28a1f50-f6e7-4571-818b-6a12f2af6b6c"
  const COMPLIANCE_ADMINISTRATOR := "17315797-102d-40b4-93e0-432062caca18"

  const PRIVILEGED_TEMPLATES: set<string> := {
    GLOBAL_ADMINISTRATOR, PRIVILEGED_ROLE_ADMINISTRATOR, PRIVILEGED_AUTHENTICATION_ADMINISTRATOR,
    SECURITY_ADMINISTRATOR, CONDITIONAL_ACCESS_ADMINISTRATOR, APPLICATION_ADMINISTRATOR,
    CLOUD_APPLICATION_ADMINISTRATOR, USER_ADMINISTRATOR, HELPDESK_ADMINISTRATOR, HYBRID_IDENTITY_ADMINISTRATOR,
    AUTHENTICATION_ADMINISTRATOR, EXCHANGE_ADMINISTRATOR, SHAREPOINT_ADMINISTRATOR, COMPLIANCE_ADMINISTRATOR
  }

  const TIER_0_TEMPLATES: set<string> := {
    GLOBAL_ADMINISTRATOR, PRIVILEGED_ROLE_ADMINISTRATOR, PRIVILEGED_AUTHENTICATION_ADMINISTRATOR,
    SECURITY_ADMINISTRATOR
  }

  const SERVICE_STALE_DAYS := 365

  /** The names the service-account patterns are matched against. */
  function Names(user: User): string {
    if user.displayName == "" then user.principalName
    else if user.principalName == "" then user.displayName
    else user.displayName + " " + user.principalName
  }

  /** Both names are there, with a blank between them exactly when there are two. */
  lemma NamesHoldBoth(user: User)
    ensures var names, first, second := Names(user), user.displayName, user.principalName;
            && first <= names && EndsWith(names, second)
            && |names| == |first| + |second| + (if first != "" && second != "" then 1 else 0)
            && (first != "" && second != "" ==> names[|first|] == ' ')
  {
  }

  /** One of the five name patterns matches; the end of a text may be followed by a line break. */
  predicate HasServiceName(user: User) {
    var names := Lower(Names(user));
    || (|names| > 3 && names[..3] == "svc" && names[3] in {'_', '-', '.'})
    || EndsWith(names, "-sa") || EndsWith(names, "-sa\n")
    || HasPart(names, "_serviceaccount_")
    || "noreply" <= names
    || HasPart(names, "automation")
  }

  /** The patterns on names that are lower-case already. */
  predicate Matches(lower: string, prefix: string, start: string, end: string, line: string, part: string,
                    word: string) {
    || (|prefix| < |lower| && lower[..|prefix|] == prefix && lower[|prefix|] in {'_', '-', '.'})
    || EndsWith(lower, end) || EndsWith(lower, line)
    || HasPart(lower, part)
    || start <= lower
    || HasPart(lower, word)
  }

  /** What the names spell, in any case: a prefix before a separator, a start, an end, or a part anywhere. */
  predicate SpellsService(names: string, prefix: string, start: string, end: string, line: string, part: string,
                          word: string) {
    || (SpelledAt(names, prefix, 0) && |prefix| < |names| && names[|prefix|] in {'_', '-', '.'})
    || SpelledAt(names, start, 0)
    || SpelledAt(names, end, |names| - |end|) || SpelledAt(names, line, |names| - |line|)
    || (exists i | 0 <= i <= |names| :: SpelledAt(names, part, i))
    || (exists i | 0 <= i <= |names| :: SpelledAt(names, word, i))
  }

  /** The name patterns match exactly when the names spell their parts at their places, in any case. */
  lemma ServiceNamesExactly(user: User)
    ensures HasServiceName(user)
            <==> SpellsService(Names(user), "svc", "noreply", "-sa", "-sa\n", "_serviceaccount_", "automation")
  {
    PatternsAreLower();
    PatternsSpelled(Names(user), "svc", "noreply", "-sa", "-sa\n", "_serviceaccount_", "automation");
    ServiceNameMatches(user);
  }

  lemma ServiceNameMatches(user: User)
    ensures HasServiceName(user)
            <==> Matches(Lower(Names(user)), "svc", "noreply", "-sa", "-sa\n", "_serviceaccount_", "automation")
  {
    assert |"svc"| == 3;
  }

  lemma PatternsAreLower()
    ensures NoCapitals("svc") && NoCapitals("noreply") && NoCapitals("-sa") && NoCapitals("-sa\n")
    ensures NoCapitals("_serviceaccount_") && NoCapitals("automation")
  {
  }

  lemma PatternsSpelled(names: string, prefix: string, start: string, end: string, line: string, part: string,
                        word: string)
    requires NoCapitals(prefix) && NoCapitals(start) && NoCapitals(end) && NoCapitals(line)
    requires NoCapitals(part) && NoCapitals(word)
    ensures Matches(Lower(names), prefix, start, end, line, part, word)
            <==> SpellsService(names, prefix, start, end, line, part, word)
  {
    SeparatedStart(names, prefix);
    SpelledAtStart(names, start);
    SpelledAtEnd(names, end);
    SpelledAtEnd(names, line);
    SpelledSomewhere(names, part);
    SpelledSomewhere(names, word);
  }

  lemma SeparatedStart(names: string, part: string)
    requires NoCapitals(part)
    ensures var n, lower := |part|, Lower(names);
            n < |names| && lower[..n] == part && lower[n] in {'_', '-', '.'}
            <==> SpelledAt(names, part, 0) && n < |names| && names[n] in {'_', '-', '.'}
  {
    SpelledInLower(names, part, 0);
  }

  predicate IsServiceAccount(user: User, asOf: int) {
    || HasServiceName(user)
    || user.lastSignIn.None?
    || DaysSince(asOf, user.lastSignIn.value) >= SERVICE_STALE_DAYS
  }

  /** Holding a role in either of the two places the directory records it. */
  predicate HoldsTemplate(directory: Directory, userId: string, template: string) {
    || (exists role | role in directory.roles :: role.templateId == Some(template) && userId in role.members)
    || RoleAssignment(Some(userId), Some(template)) in directory.assignments
  }

  method MembersOfRoleTemplates(directory: Directory, templates: set<string>) returns (members: set<string>)
    ensures forall userId ::
              userId in members
              <==> exists template | template in templates :: HoldsTemplate(directory, userId, template)
  {
    members := {};
    var roles, assignments := directory.roles, directory.assignments;
    for i := 0 to |roles|
      invariant forall userId ::
                  userId in members <==> exists j :: 0 <= j < i && HoldsByRole(roles[j], userId, templates)
    {
      if roles[i].templateId.Some? && roles[i].templateId.value in templates {
        members := members + ToSet(roles[i].members);
      }
    }
    ghost var byRole := members;
    for i := 0 to |assignments|
      invariant forall userId ::
                  userId in members <==>
                  userId in byRole || exists j :: 0 <= j < i && HoldsByAssignment(assignments[j], userId, templates)
    {
      var assignment := assignments[i];
      if assignment.roleDefinitionId.Some? && assignment.roleDefinitionId.value in templates
         && assignment.principalId.Some? {
        members := members + {assignment.principalId.value};
      }
    }
    forall userId
      ensures userId in members <==>
              exists template | template in templates :: HoldsTemplate(directory, userId, template)
    {
      HoldersByEitherRecord(directory, userId, templates);
    }
  }

  predicate HoldsByRole(role: DirectoryRole, userId: string, templates: set<string>) {
    role.templateId.Some? && role.templateId.value in templates && userId in role.members
  }

  predicate HoldsByAssignment(assignment: RoleAssignment, userId: string, templates: set<string>) {
    && assignment.roleDefinitionId.Some? && assignment.roleDefinitionId.value in templates
    && assignment.principalId == Some(userId)
  }

  lemma HoldersByEitherRecord(directory: Directory, userId: string, templates: set<string>)
    ensures (exists template | template in templates :: HoldsTemplate(directory, userId, template))
            <==>
            || (exists j :: 0 <= j < |directory.roles| && HoldsByRole(directory.roles[j], userId, templates))
            || (exists j :: 0 <= j < |directory.assignments|
                            && HoldsByAssignment(directory.assignments[j], userId, templates))
  {
    if j :| 0 <= j < |directory.roles| && HoldsByRole(directory.roles[j], userId, templates) {
      assert HoldsTemplate(directory, userId, directory.roles[j].templateId.value);
    }
    if j :| 0 <= j < |directory.assignments| && HoldsByAssignment(directory.assignments[j], userId, templates) {
      assert HoldsTemplate(directory, userId, directory.assignments[j].roleDefinitionId.value);
    }
    if template :| template in templates && HoldsTemplate(directory, userId, template) {
      if RoleAssignment(Some(userId), Some(template)) in directory.assignments {
        var j :| 0 <= j < |directory.assignments|
                 && directory.assignments[j] == RoleAssignment(Some(userId), Some(template));
        assert HoldsByAssignment(directory.assignments[j], userId, templates);
      } else {
        var role :| role in directory.roles && role.templateId == Some(template) && userId in role.members;
        var j :| 0 <= j < |directory.roles| && directory.roles[j] == role;
        assert HoldsByRole(directory.roles[j], userId, templates);
      }
    }
  }

  /** Who belongs to a segment. */
  predicate Belongs(segment: UserSegment, directory: Directory, asOf: int, userId: string) {
    match segment
    case AllUsers => exists user | user in directory.users :: user.id == userId
    case Guests => exists user | user in directory.users :: user.id == userId && Lower(user.userType) == "guest"
    case ServiceAccounts => exists user | user in directory.users :: user.id == userId && IsServiceAccount(user, asOf)
    case AdminsAny => exists template | template in PRIVILEGED_TEMPLATES :: HoldsTemplate(directory, userId, template)
    case PrivilegedRoles => exists template | template in TIER_0_TEMPLATES :: HoldsTemplate(directory, userId, template)
  }

  method ResolveSegmentMembers(segment: UserSegment, directory: Directory, asOf: int) returns (members: set<string>)
    ensures AreMembers(Setting(directory, asOf), segment, members)
  {
    match segment
    case AllUsers =>
      members := set user | user in directory.users :: user.id;
    case Guests =>
      members := set user | user in directory.users && Lower(user.userType) == "guest" :: user.id;
    case ServiceAccounts =>
      members := set user | user in directory.users && IsServiceAccount(user, asOf) :: user.id;
    case AdminsAny =>
      members := MembersOfRoleTemplates(directory, PRIVILEGED_TEMPLATES);
    case PrivilegedRoles =>
      members := MembersOfRoleTemplates(directory, TIER_0_TEMPLATES);
  }

  // ---------------------------------------------------------------- app segments

  const EXCHANGE_ONLINE := "00000002-0000-0ff1-ce00-000000000000"
  const SHAREPOINT := "00000003-0000-0ff1-ce00-000000000000"
  const TEAMS := "cc15fd57-2c6c-4117-a88c-83b1d56b4bbe"
  const AZURE_PORTAL := "c44b4083-3bb0-49c1-b47d-974e53cbdf3c"
  const GRAPH_POWERSHELL := "14d82eec-204b-4c2f-b7e8-296a70dab67e"
  const GRAPH_EXPLORER := "de8bc8b5-d9f9-48b1-a8ad-b748da725064"

  const LEGACY_CLIENT_TYPES: set<string> := {"other", "exchangeActiveSync"}

  function AppIds(segment: AppSegment): set<string> {
    match segment
    case M365Core => {EXCHANGE_ONLINE, SHAREPOINT, TEAMS}
    case AdminPortals => {AZURE_PORTAL, GRAPH_POWERSHELL, GRAPH_EXPLORER}
    case HighRiskApps => {AZURE_PORTAL, GRAPH_POWERSHELL}
    case AllApps => {}
    case LegacyAuth => {}
  }

  predicate AppInScope(policy: Policy, segment: AppSegment) {
    if segment == LegacyAuth then ToSet(policy.clientAppTypes) * LEGACY_CLIENT_TYPES != {}
    else if policy.applications.None? then false
    else
      var included := ToSet(policy.applications.value.includeApps);
      var excluded := ToSet(policy.applications.value.excludeApps);
      if segment == AllApps then "All" in included && excluded == {}
      else if "All" in included then AppIds(segment) - excluded != {}
      else included * AppIds(segment) - excluded != {}
  }

  // ---------------------------------------------------------------- one policy

  function LevelOf(policy: Policy): ProtectionLevel {
    match policy.state
    case ReportingOnly => ReportOnly
    case Disabled => NoControl
    case Unset => NoControl
    case Enabled =>
      var mfa, block := "mfa" in policy.grantControls, "block" in policy.grantControls;
      var device := "compliantDevice" in policy.grantControls || "domainJoinedDevice" in policy.grantControls;
      if block && device then MfaAndDevice
      else if block then Mfa
      else if mfa && device then MfaAndDevice
      else if mfa then Mfa
      else if device then CompliantDevice
      else NoControl
  }

  method UsersInScope(policy: Policy, candidates: set<string>, directory: Directory) returns (inScope: bool)
    ensures inScope <==> exists userId | userId in candidates :: Covers(policy, directory, userId)
  {
    if candidates == {} {
      return false;
    }
    if policy.users.None? {
      var someone :| someone in candidates;
      assert Covers(policy, directory, someone);
      return true;
    }
    var condition := policy.users.value;
    var included := IncludedCandidates(condition, candidates, directory);
    var excluded := ExcludedPrincipals(condition, directory);
    assert forall userId :: userId in included - excluded
                            <==> userId in candidates && Covers(policy, directory, userId);
    inScope := included - excluded != {};
    if inScope {
      var userId :| userId in included - excluded;
    }
  }

  method IncludedCandidates(condition: UserCondition, candidates: set<string>, directory: Directory)
    returns (included: set<string>)
    ensures forall userId :: userId in included <==> userId in candidates && Included(condition, directory, userId)
  {
    if condition.includeUsers == ["All"] {
      return candidates;
    }
    var listed := set userId | userId in condition.includeUsers && userId in candidates;
    included := listed;
    var groups, roles := directory.groups, directory.roles;
    for i := 0 to |groups|
      invariant included == listed + GroupMembers(groups[..i], condition.includeGroups) * candidates
    {
      assert groups[..i + 1][..i] == groups[..i];
      if groups[i].id in condition.includeGroups {
        included := included + ToSet(groups[i].members) * candidates;
      }
    }
    assert groups[..|groups|] == groups;
    GroupMembersAreReached(groups, condition.includeGroups);
    listed := included;
    for i := 0 to |roles|
      invariant included == listed + RoleMembers(roles[..i], condition.includeRoles) * candidates
    {
      assert roles[..i + 1][..i] == roles[..i];
      if RoleNamed(roles[i], condition.includeRoles) {
        included := included + ToSet(roles[i].members) * candidates;
      }
    }
    assert roles[..|roles|] == roles;
    RoleMembersAreReached(roles, condition.includeRoles);
    if condition.includeGuests {
      included := included + candidates;
    }
  }

  method ExcludedPrincipals(condition: UserCondition, directory: Directory) returns (excluded: set<string>)
    ensures forall userId :: userId in excluded <==> Excluded(condition, directory, userId)
  {
    excluded := ToSet(condition.excludeUsers);
    var groups, roles := directory.groups, directory.roles;
    for i := 0 to |groups|
      invariant excluded == ToSet(condition.excludeUsers) + GroupMembers(groups[..i], condition.excludeGroups)
    {
      assert groups[..i + 1][..i] == groups[..i];
      if groups[i].id in condition.excludeGroups {
        excluded := excluded + ToSet(groups[i].members);
      }
    }
    assert groups[..|groups|] == groups;
    GroupMembersAreReached(groups, condition.excludeGroups);
    ghost var byGroup := excluded;
    for i := 0 to |roles|
      invariant excluded == byGroup + RoleMembers(roles[..i], condition.excludeRoles)
    {
      assert roles[..i + 1][..i] == roles[..i];
      if RoleNamed(roles[i], condition.excludeRoles) {
        excluded := excluded + ToSet(roles[i].members);
      }
    }
    assert roles[..|roles|] == roles;
    RoleMembersAreReached(roles, condition.excludeRoles);
  }

  // ---------------------------------------------------------------- the matrix

  /** What a matrix is computed from, apart from the policies. */
  datatype Setting = Setting(directory: Directory, asOf: int)

  ghost predicate Reaches(setting: Setting, segment: UserSegment, policy: Policy) {
    exists userId :: Belongs(segment, setting.directory, setting.asOf, userId)
                     && Covers(policy, setting.directory, userId)
  }

  /** The policy is not switched off, reaches a member of the user segment, and takes in the app segment. */
  ghost predicate Applies(setting: Setting, userSegment: UserSegment, appSegment: AppSegment, policy: Policy) {
    policy.state != Disabled && Reaches(setting, userSegment, policy) && AppInScope(policy, appSegment)
  }

  ghost predicate AreMembers(setting: Setting, segment: UserSegment, members: set<string>) {
    forall userId :: userId in members <==> Belongs(segment, setting.directory, setting.asOf, userId)
  }

  ghost function AppliesTo(setting: Setting, userSegment: UserSegment, appSegment: AppSegment): Policy -> bool {
    (policy: Policy) => Applies(setting, userSegment, appSegment, policy)
  }

  ghost function Applicable(setting: Setting, policies: seq<Policy>, userSegment: UserSegment,
                            appSegment: AppSegment): seq<Policy> {
    Filter(policies, AppliesTo(setting, userSegment, appSegment))
  }

  function Stronger(a: ProtectionLevel, b: ProtectionLevel): ProtectionLevel { if Rank(b) > Rank(a) then b else a }

  function Strongest(policies: seq<Policy>): ProtectionLevel {
    if policies == [] then NoControl
    else Stronger(Strongest(policies[..|policies| - 1]), LevelOf(policies[|policies| - 1]))
  }

  function IdOf(policy: Policy): string { policy.id }

  /** What a cell says about its two segments. */
  ghost predicate Describes(cell: Cell, setting: Setting, policies: seq<Policy>) {
    var applicable := Applicable(setting, policies, cell.userSegment, cell.appSegment);
    && cell.applicable == Map(applicable, IdOf)
    && cell.level == Strongest(applicable)
    && exists members :: AreMembers(setting, cell.userSegment, members) && |members| == cell.members
  }

  method AppliesInCell(setting: Setting, policy: Policy, userSegment: UserSegment, members: set<string>,
                       appSegment: AppSegment)
    returns (applies: bool)
    requires AreMembers(setting, userSegment, members)
    ensures applies <==> Applies(setting, userSegment, appSegment, policy)
  {
    if policy.state == Disabled {
      return false;
    }
    var reached := UsersInScope(policy, members, setting.directory);
    if !reached {
      return false;
    }
    applies := AppInScope(policy, appSegment);
  }

  method ComputeCell(setting: Setting, policies: seq<Policy>, userSegment: UserSegment, members: set<string>,
                     appSegment: AppSegment)
    returns (cell: Cell)
    requires AreMembers(setting, userSegment, members)
    ensures cell.userSegment == userSegment && cell.appSegment == appSegment
    ensures Describes(cell, setting, policies)
  {
    var applicable: seq<string>, bestLevel := [], NoControl;
    ghost var found: seq<Policy> := [];
    for i := 0 to |policies|
      invariant found == Applicable(setting, policies[..i], userSegment, appSegment)
      invariant applicable == Map(found, IdOf)
      invariant bestLevel == Strongest(found)
    {
      ApplicableSnoc(setting, policies, i, userSegment, appSegment);
      var applies := AppliesInCell(setting, policies[i], userSegment, members, appSegment);
      if applies {
        OneMoreApplies(found, policies[i]);
        found := found + [policies[i]];
        applicable := applicable + [policies[i].id];
        var level := LevelOf(policies[i]);
        if Rank(level) > Rank(bestLevel) {
          bestLevel := level;
        }
      }
    }
    assert policies[..|policies|] == policies;
    cell := Cell(userSegment, appSegment, applicable, bestLevel, |members|);
    CellDescribes(cell, setting, policies, members, found);
  }

  lemma OneMoreApplies(found: seq<Policy>, policy: Policy)
    ensures Map(found + [policy], IdOf) == Map(found, IdOf) + [policy.id]
    ensures Strongest(found + [policy]) == Stronger(Strongest(found), LevelOf(policy))
  {
    MapAppend(found, [policy], IdOf);
    StrongestSnoc(found, policy);
  }

  lemma CellDescribes(cell: Cell, setting: Setting, policies: seq<Policy>, members: set<string>, found: seq<Policy>)
    requires AreMembers(setting, cell.userSegment, members) && cell.members == |members|
    requires found == Applicable(setting, policies, cell.userSegment, cell.appSegment)
    requires cell.applicable == Map(found, IdOf) && cell.level == Strongest(found)
    ensures Describes(cell, setting, policies)
  {
  }

  lemma ApplicableSnoc(setting: Setting, policies: seq<Policy>, i: nat, userSegment: UserSegment,
                       appSegment: AppSegment)
    requires i < |policies|
    ensures Applicable(setting, policies[..i + 1], userSegment, appSegment)
            == if Applies(setting, userSegment, appSegment, policies[i])
               then Applicable(setting, policies[..i], userSegment, appSegment) + [policies[i]]
               else Applicable(setting, policies[..i], userSegment, appSegment)
  {
    assert policies[..i + 1] == policies[..i] + [policies[i]];
    FilterSnoc(policies[..i], policies[i], AppliesTo(setting, userSegment, appSegment));
  }

  lemma StrongestSnoc(policies: seq<Policy>, policy: Policy)
    ensures Strongest(policies + [policy]) == Stronger(Strongest(policies), LevelOf(policy))
  {
    assert (policies + [policy])[..|policies|] == policies;
  }

  predicate Placed(cell: Cell, k: nat)
    requires k < 25
  {
    cell.userSegment == USER_SEGMENTS[k / 5] && cell.appSegment == APP_SEGMENTS[k % 5]
  }

  /** The cells computed so far, row by row. */
  ghost predicate Grid(cells: seq<Cell>, setting: Setting, policies: seq<Policy>) {
    && |cells| <= 25
    && forall k | 0 <= k < |cells| :: Placed(cells[k], k) && Describes(cells[k], setting, policies)
  }

  lemma GridSnoc(cells: seq<Cell>, cell: Cell, setting: Setting, policies: seq<Policy>)
    requires Grid(cells, setting, policies) && |cells| < 25
    requires Placed(cell, |cells|) && Describes(cell, setting, policies)
    ensures Grid(cells + [cell], setting, policies)
  {
    forall k | 0 <= k < |cells + [cell]|
      ensures Placed((cells + [cell])[k], k) && Describes((cells + [cell])[k], setting, policies)
    {
      assert k < |cells| ==> (cells + [cell])[k] == cells[k];
    }
  }

  /** One cell for every pair of segments. */
  method ComputeCoverage(setting: Setting, policies: seq<Policy>) returns (cells: seq<Cell>)
    ensures |cells| == 25 && Grid(cells, setting, policies)
  {
    cells := [];
    for i := 0 to 5
      invariant |cells| == 5 * i && Grid(cells, setting, policies)
    {
      var members := ResolveSegmentMembers(USER_SEGMENTS[i], setting.directory, setting.asOf);
      cells := ComputeRow(setting, policies, i, members, cells);
    }
  }

  method ComputeRow(setting: Setting, policies: seq<Policy>, i: nat, members: set<string>, before: seq<Cell>)
    returns (cells: seq<Cell>)
    requires i < 5 && |before| == 5 * i && Grid(before, setting, policies)
    requires AreMembers(setting, USER_SEGMENTS[i], members)
    ensures |cells| == 5 * i + 5 && Grid(cells, setting, policies)
  {
    cells := before;
    for j := 0 to 5
      invariant |cells| == 5 * i + j && Grid(cells, setting, policies)
    {
      var cell := ComputeCell(setting, policies, USER_SEGMENTS[i], members, APP_SEGMENTS[j]);
      assert (5 * i + j) / 5 == i && (5 * i + j) % 5 == j;
      GridSnoc(cells, cell, setting, policies);
      cells := cells + [cell];
    }
  }
}
