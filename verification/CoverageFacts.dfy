/** What holds of every coverage matrix. */
module CoverageFacts {
  import opened Sequences
  import opened Text
  import opened Tenant
  import opened Coverage
  import opened CoverageFindings
  import opened Findings

  // ---------------------------------------------------------------- the strongest level

  lemma {:induction false} StrongestIsMaximum(policies: seq<Policy>)
    ensures forall policy | policy in policies :: Rank(LevelOf(policy)) <= Rank(Strongest(policies))
    ensures Strongest(policies) != NoControl
            ==> exists policy | policy in policies :: LevelOf(policy) == Strongest(policies)
  {
    if policies == [] {
    } else {
      var front, last := policies[..|policies| - 1], policies[|policies| - 1];
      StrongestIsMaximum(front);
      assert policies == front + [last];
    }
  }

  lemma StrongestGrows(some: seq<Policy>, more: seq<Policy>)
    requires forall policy | policy in some :: policy in more
    ensures Rank(Strongest(some)) <= Rank(Strongest(more))
  {
    StrongestIsMaximum(some);
    StrongestIsMaximum(more);
  }

  lemma RankIsInjective(a: ProtectionLevel, b: ProtectionLevel)
    requires Rank(a) == Rank(b)
    ensures a == b
  {
  }

  // ---------------------------------------------------------------- the orders on rows and columns

  predicate RowBelow(a: UserSegment, b: UserSegment) {
    a == b || (a == PrivilegedRoles && b == AdminsAny) || (a in {Guests, ServiceAccounts} && b == AllUsers)
  }

  predicate ColumnBelow(a: AppSegment, b: AppSegment) {
    || a == b
    || (a == AllApps && b in {HighRiskApps, AdminPortals, M365Core})
    || (a == HighRiskApps && b == AdminPortals)
  }

  /** A lower row's members belong to the upper row, in every tenant. */
  lemma RowsNest(a: UserSegment, b: UserSegment, directory: Directory, asOf: int, userId: string)
    requires RowBelow(a, b) && Belongs(a, directory, asOf, userId)
    ensures Belongs(b, directory, asOf, userId)
  {
    if a == PrivilegedRoles && b == AdminsAny {
      var template :| template in TIER_0_TEMPLATES && HoldsTemplate(directory, userId, template);
      assert template in PRIVILEGED_TEMPLATES;
    }
  }

  lemma ColumnsNest(a: AppSegment, b: AppSegment, policy: Policy)
    requires ColumnBelow(a, b) && AppInScope(policy, a)
    ensures AppInScope(policy, b)
  {
    if a != b && a == AllApps {
      assert AZURE_PORTAL in AppIds(HighRiskApps) * AppIds(AdminPortals) && TEAMS in AppIds(M365Core);
      assert AppIds(b) - ToSet(policy.applications.value.excludeApps) == AppIds(b);
    } else if a != b {
      assert AppIds(HighRiskApps) <= AppIds(AdminPortals);
      var excluded := ToSet(policy.applications.value.excludeApps);
      assert AppIds(HighRiskApps) - excluded <= AppIds(AdminPortals) - excluded;
      var included := ToSet(policy.applications.value.includeApps);
      assert included * AppIds(HighRiskApps) - excluded <= included * AppIds(AdminPortals) - excluded;
    }
  }

  /** A policy whose only conditions are these applications and client types. */
  function AppPolicy(apps: seq<string>, clientTypes: seq<string>): Policy {
    Policy("p", "p", Enabled, None, Some(Applications(apps, [])), clientTypes, [])
  }

  function TellingPolicy(a: AppSegment): Policy {
    match a
    case AllApps => AppPolicy(["All"], [])
    case M365Core => AppPolicy([TEAMS], [])
    case AdminPortals => AppPolicy([GRAPH_EXPLORER], [])
    case LegacyAuth => AppPolicy([], ["other"])
    case HighRiskApps => AppPolicy([AZURE_PORTAL], [])
  }

  lemma TellingPolicyTells(a: AppSegment, b: AppSegment)
    ensures AppInScope(TellingPolicy(a), b) <==> ColumnBelow(a, b)
  {
    match a
    case AllApps =>
      assert TEAMS in AppIds(M365Core) && AZURE_PORTAL in AppIds(AdminPortals) * AppIds(HighRiskApps);
      assert "All" in ["All"];
      assert b != LegacyAuth ==> "All" in ToSet(["All"]);
      assert AppIds(b) - ToSet([]) == AppIds(b);
    case M365Core =>
      OneAppInScope(TEAMS, b);
    case AdminPortals =>
      OneAppInScope(GRAPH_EXPLORER, b);
    case LegacyAuth =>
      assert "other" in ToSet(["other"]) * LEGACY_CLIENT_TYPES;
      assert ToSet<string>([]) == {};
    case HighRiskApps =>
      OneAppInScope(AZURE_PORTAL, b);
  }

  lemma OneAppInScope(app: string, b: AppSegment)
    requires |app| == 36
    ensures AppInScope(AppPolicy([app], []), b) <==> app in AppIds(b)
  {
    assert ToSet([app]) == {app};
    assert "All" !in {app};
    assert ToSet<string>([]) == {};
    assert app in AppIds(b) ==> app in {app} * AppIds(b) - {};
  }

  /** The order on columns is exactly what the scope test supports: every other pair has a policy against it. */
  lemma ColumnOrderIsExact(a: AppSegment, b: AppSegment)
    ensures ColumnBelow(a, b) <==> forall policy :: AppInScope(policy, a) ==> AppInScope(policy, b)
  {
    if ColumnBelow(a, b) {
      forall policy | AppInScope(policy, a)
        ensures AppInScope(policy, b)
      {
        ColumnsNest(a, b, policy);
      }
    } else {
      TellingPolicyTells(a, b);
      TellingPolicyTells(a, a);
    }
  }

  function Person(id: string, userType: string, recent: bool): User {
    User(id, id, id, userType, Some(true), if recent then Some(0) else None)
  }

  /** A tenant whose one principal "u" belongs to the segment and to those above it only. */
  function TellingDirectory(a: UserSegment): Directory {
    match a
    case AllUsers => Directory([Person("u", "member", true)], [], [], [])
    case Guests => Directory([Person("u", "guest", true)], [], [], [])
    case ServiceAccounts => Directory([Person("u", "member", false)], [], [], [])
    case AdminsAny => Directory([], [], [], [RoleAssignment(Some("u"), Some(USER_ADMINISTRATOR))])
    case PrivilegedRoles => Directory([], [], [], [RoleAssignment(Some("u"), Some(GLOBAL_ADMINISTRATOR))])
  }

  lemma PlainNameIsNoServiceName(user: User)
    requires user.displayName == "u" && user.principalName == "u"
    ensures !HasServiceName(user)
  {
    assert Names(user) == "u u" && Lower("u u") == "u u";
    assert "u u"[0] == 'u' && |"u u"| == 3;
  }

  lemma SoleUserTells(a: UserSegment, b: UserSegment, directory: Directory, user: User)
    requires a in {AllUsers, Guests, ServiceAccounts} && directory == Directory([user], [], [], [])
    requires Lower(user.userType) == "guest" <==> a == Guests
    requires IsServiceAccount(user, 0) <==> a == ServiceAccounts
    ensures Belongs(b, directory, 0, user.id) <==> RowBelow(a, b)
    ensures forall userId :: Belongs(b, directory, 0, userId) ==> userId == user.id
  {
    assert user in directory.users;
  }

  lemma PersonOf(a: UserSegment, user: User)
    requires a in {AllUsers, Guests, ServiceAccounts} && TellingDirectory(a).users == [user]
    ensures TellingDirectory(a) == Directory([user], [], [], []) && user.id == "u"
    ensures Lower(user.userType) == "guest" <==> a == Guests
    ensures IsServiceAccount(user, 0) <==> a == ServiceAccounts
  {
    var users := TellingDirectory(a).users;
    assert user == users[0];
    assert Lower("guest") == "guest" && |Lower("member")| == 6;
    PlainNameIsNoServiceName(user);
  }

  lemma TellingUserTells(a: UserSegment, b: UserSegment)
    requires a in {AllUsers, Guests, ServiceAccounts}
    ensures Belongs(b, TellingDirectory(a), 0, "u") <==> RowBelow(a, b)
    ensures forall userId :: Belongs(b, TellingDirectory(a), 0, userId) ==> userId == "u"
  {
    var user := TellingDirectory(a).users[0];
    PersonOf(a, user);
    SoleUserTells(a, b, TellingDirectory(a), user);
  }

  lemma TellingHolderTells(a: UserSegment, b: UserSegment)
    requires a in {AdminsAny, PrivilegedRoles}
    ensures Belongs(b, TellingDirectory(a), 0, "u") <==> RowBelow(a, b)
  {
    var template := if a == AdminsAny then USER_ADMINISTRATOR else GLOBAL_ADMINISTRATOR;
    var holding := RoleAssignment(Some("u"), Some(template));
    assert TellingDirectory(a).assignments == [holding];
    assert forall t :: HoldsTemplate(TellingDirectory(a), "u", t) <==> t == template;
    assert template in PRIVILEGED_TEMPLATES;
    assert USER_ADMINISTRATOR !in TIER_0_TEMPLATES by {
      assert USER_ADMINISTRATOR[0] == 'f';
    }
  }

  ghost predicate AlwaysWithin(a: UserSegment, b: UserSegment) {
    forall directory, asOf, userId :: Belongs(a, directory, asOf, userId) ==> Belongs(b, directory, asOf, userId)
  }

  /**
   * The order on rows is exact, too. In particular administrators need not be listed users, so
   * their row is not below the row of all users.
   */
  lemma RowOrderIsExact(a: UserSegment, b: UserSegment)
    ensures RowBelow(a, b) <==> AlwaysWithin(a, b)
  {
    if RowBelow(a, b) {
      forall directory, asOf, userId | Belongs(a, directory, asOf, userId)
        ensures Belongs(b, directory, asOf, userId)
      {
        RowsNest(a, b, directory, asOf, userId);
      }
    } else if a in {AllUsers, Guests, ServiceAccounts} {
      TellingUserTells(a, b);
      TellingUserTells(a, a);
    } else {
      TellingHolderTells(a, b);
      TellingHolderTells(a, a);
    }
  }

  // ---------------------------------------------------------------- monotone along both axes

  lemma AppliesUpwards(setting: Setting, u: UserSegment, v: UserSegment, a: AppSegment, b: AppSegment, policy: Policy)
    requires RowBelow(u, v) && ColumnBelow(a, b) && Applies(setting, u, a, policy)
    ensures Applies(setting, v, b, policy)
  {
    ColumnsNest(a, b, policy);
    var userId :| Belongs(u, setting.directory, setting.asOf, userId) && Covers(policy, setting.directory, userId);
    RowsNest(u, v, setting.directory, setting.asOf, userId);
  }

  lemma SubsetOfMembers(setting: Setting, u: UserSegment, v: UserSegment, few: set<string>, many: set<string>)
    requires RowBelow(u, v) && AreMembers(setting, u, few) && AreMembers(setting, v, many)
    ensures |few| <= |many|
  {
    forall userId | userId in few
      ensures userId in many
    {
      RowsNest(u, v, setting.directory, setting.asOf, userId);
    }
    SubsetSize(few, many);
  }

  /** A lower cell has no stronger level, fewer members, and only policies that also apply above, in order. */
  lemma MatrixIsMonotone(setting: Setting, policies: seq<Policy>, low: Cell, high: Cell)
    requires Describes(low, setting, policies) && Describes(high, setting, policies)
    requires RowBelow(low.userSegment, high.userSegment) && ColumnBelow(low.appSegment, high.appSegment)
    ensures Rank(low.level) <= Rank(high.level)
    ensures low.members <= high.members
    ensures var above := Applicable(setting, policies, high.userSegment, high.appSegment);
            && high.applicable == Map(above, IdOf)
            && low.applicable == Map(Filter(above, AppliesTo(setting, low.userSegment, low.appSegment)), IdOf)
  {
    var narrow := AppliesTo(setting, low.userSegment, low.appSegment);
    var wide := AppliesTo(setting, high.userSegment, high.appSegment);
    forall policy | policy in policies && narrow(policy)
      ensures wide(policy)
    {
      AppliesUpwards(setting, low.userSegment, high.userSegment, low.appSegment, high.appSegment, policy);
    }
    FilterFilter(policies, wide, narrow, narrow);
    FilterMembers(policies, narrow);
    FilterMembers(policies, wide);
    StrongestGrows(Filter(policies, narrow), Filter(policies, wide));
    var few :| AreMembers(setting, low.userSegment, few) && |few| == low.members;
    var many :| AreMembers(setting, high.userSegment, many) && |many| == high.members;
    SubsetOfMembers(setting, low.userSegment, high.userSegment, few, many);
  }

  // ---------------------------------------------------------------- changing the policy list

  lemma SameCount(setting: Setting, segment: UserSegment, xs: set<string>, ys: set<string>)
    requires AreMembers(setting, segment, xs) && AreMembers(setting, segment, ys)
    ensures xs == ys
  {
  }

  /** A stronger level over the same members is no more severe. */
  lemma StrongerIsNoWorse(weak: Cell, strong: Cell)
    requires weak.userSegment == strong.userSegment && weak.appSegment == strong.appSegment
    requires weak.members == strong.members && Rank(weak.level) <= Rank(strong.level)
    ensures SeverityOf(strong) <= SeverityOf(weak)
  {
  }

  /** Every policy that applied before still does, so no cell gets weaker and no finding more severe. */
  lemma MorePoliciesNeverHurt(setting: Setting, some: seq<Policy>, more: seq<Policy>, before: Cell, after: Cell)
    requires forall policy | policy in some :: policy in more
    requires Describes(before, setting, some) && Describes(after, setting, more)
    requires before.userSegment == after.userSegment && before.appSegment == after.appSegment
    ensures Rank(before.level) <= Rank(after.level)
    ensures before.members == after.members
    ensures SeverityOf(after) <= SeverityOf(before)
    ensures forall id | id in before.applicable :: id in after.applicable
  {
    var applies := AppliesTo(setting, before.userSegment, before.appSegment);
    FilterMembers(some, applies);
    FilterMembers(more, applies);
    StrongestGrows(Filter(some, applies), Filter(more, applies));
    var xs :| AreMembers(setting, before.userSegment, xs) && |xs| == before.members;
    var ys :| AreMembers(setting, after.userSegment, ys) && |ys| == after.members;
    SameCount(setting, before.userSegment, xs, ys);
    StrongerIsNoWorse(before, after);
    IdsGrow(Filter(some, applies), Filter(more, applies));
  }

  lemma IdsGrow(some: seq<Policy>, more: seq<Policy>)
    requires forall policy | policy in some :: policy in more
    ensures forall id | id in Map(some, IdOf) :: id in Map(more, IdOf)
  {
    forall id | id in Map(some, IdOf)
      ensures id in Map(more, IdOf)
    {
      MapMember(some, IdOf, id);
      MapMember(more, IdOf, id);
    }
  }

  /** A policy inserted anywhere in the list lowers no level and worsens no finding, in the whole matrix. */
  lemma AddingAPolicyNeverHurts(setting: Setting, front: seq<Policy>, policy: Policy, back: seq<Policy>,
                                cells: seq<Cell>, extended: seq<Cell>)
    requires |cells| == |extended| == 25
    requires Grid(cells, setting, front + back) && Grid(extended, setting, front + [policy] + back)
    ensures forall k | 0 <= k < 25 ::
              Rank(cells[k].level) <= Rank(extended[k].level) && SeverityOf(extended[k]) <= SeverityOf(cells[k])
  {
    forall k | 0 <= k < 25
      ensures Rank(cells[k].level) <= Rank(extended[k].level) && SeverityOf(extended[k]) <= SeverityOf(cells[k])
    {
      SamePlace(cells, setting, front + back, extended, setting, front + [policy] + back, k);
      MorePoliciesNeverHurt(setting, front + back, front + [policy] + back, cells[k], extended[k]);
    }
  }

  lemma SamePlace(cells: seq<Cell>, setting: Setting, policies: seq<Policy>,
                  others: seq<Cell>, otherSetting: Setting, otherPolicies: seq<Policy>, k: nat)
    requires |cells| == |others| == 25 && k < 25
    requires Grid(cells, setting, policies) && Grid(others, otherSetting, otherPolicies)
    ensures cells[k].userSegment == others[k].userSegment && cells[k].appSegment == others[k].appSegment
    ensures Describes(cells[k], setting, policies) && Describes(others[k], otherSetting, otherPolicies)
  {
    assert Placed(cells[k], k) && Placed(others[k], k);
  }

  lemma OrderIsIrrelevantInACell(setting: Setting, policies: seq<Policy>, shuffled: seq<Policy>, cell: Cell,
                                 other: Cell)
    requires forall policy :: policy in policies <==> policy in shuffled
    requires Describes(cell, setting, policies) && Describes(other, setting, shuffled)
    requires cell.userSegment == other.userSegment && cell.appSegment == other.appSegment
    ensures cell.level == other.level && cell.members == other.members
    ensures SeverityForCell(cell) == SeverityForCell(other)
  {
    MorePoliciesNeverHurt(setting, policies, shuffled, cell, other);
    MorePoliciesNeverHurt(setting, shuffled, policies, other, cell);
    RankIsInjective(cell.level, other.level);
  }

  /** Reordering the policies changes no level, no member count and no severity. */
  lemma PolicyOrderIsIrrelevant(setting: Setting, policies: seq<Policy>, shuffled: seq<Policy>,
                                cells: seq<Cell>, reshuffled: seq<Cell>)
    requires multiset(policies) == multiset(shuffled)
    requires |cells| == |reshuffled| == 25
    requires Grid(cells, setting, policies) && Grid(reshuffled, setting, shuffled)
    ensures forall k | 0 <= k < 25 ::
              && cells[k].level == reshuffled[k].level && cells[k].members == reshuffled[k].members
              && SeverityForCell(cells[k]) == SeverityForCell(reshuffled[k])
  {
    SameElements(policies, shuffled);
    forall k | 0 <= k < 25
      ensures cells[k].level == reshuffled[k].level && cells[k].members == reshuffled[k].members
              && SeverityForCell(cells[k]) == SeverityForCell(reshuffled[k])
    {
      SamePlace(cells, setting, policies, reshuffled, setting, shuffled, k);
      OrderIsIrrelevantInACell(setting, policies, shuffled, cells[k], reshuffled[k]);
    }
  }

  /** The inputs fix the matrix. */
  lemma MatrixIsDetermined(setting: Setting, policies: seq<Policy>, cells: seq<Cell>, again: seq<Cell>)
    requires |cells| == |again| == 25 && Grid(cells, setting, policies) && Grid(again, setting, policies)
    ensures cells == again
  {
    forall k | 0 <= k < 25
      ensures cells[k] == again[k]
    {
      SamePlace(cells, setting, policies, again, setting, policies, k);
      OrderIsIrrelevantInACell(setting, policies, policies, cells[k], again[k]);
    }
  }

  function RowNumber(segment: UserSegment): (i: nat)
    ensures i < 5 && USER_SEGMENTS[i] == segment
  {
    match segment
    case AllUsers => 0
    case AdminsAny => 1
    case Guests => 2
    case ServiceAccounts => 3
    case PrivilegedRoles => 4
  }

  function ColumnNumber(segment: AppSegment): (j: nat)
    ensures j < 5 && APP_SEGMENTS[j] == segment
  {
    match segment
    case AllApps => 0
    case M365Core => 1
    case AdminPortals => 2
    case LegacyAuth => 3
    case HighRiskApps => 4
  }

  /** Each pair of segments has exactly one cell. */
  lemma OneCellPerPair(setting: Setting, policies: seq<Policy>, cells: seq<Cell>, u: UserSegment, a: AppSegment, k: nat)
    requires |cells| == 25 && Grid(cells, setting, policies) && k < 25
    ensures cells[k].userSegment == u && cells[k].appSegment == a <==> k == 5 * RowNumber(u) + ColumnNumber(a)
  {
    assert Placed(cells[k], k);
    assert RowNumber(USER_SEGMENTS[k / 5]) == k / 5 && ColumnNumber(APP_SEGMENTS[k % 5]) == k % 5;
  }

  lemma WeakerTierZeroIsWorse(tierZero: Cell, admins: Cell)
    requires tierZero.userSegment == PrivilegedRoles && admins.userSegment == AdminsAny
    requires tierZero.appSegment == admins.appSegment
    requires Rank(tierZero.level) <= Rank(admins.level) && tierZero.members <= admins.members
    ensures tierZero.members > 0 ==> SeverityOf(tierZero) >= SeverityOf(admins)
    ensures tierZero.members == 0 ==> SeverityOf(tierZero) == 0
  {
  }

  /** Where tier-0 roles have members, their gap in a column is at least as severe as that of all admins. */
  lemma TierZeroGapsAreWorst(setting: Setting, policies: seq<Policy>, tierZero: Cell, admins: Cell)
    requires Describes(tierZero, setting, policies) && Describes(admins, setting, policies)
    requires tierZero.userSegment == PrivilegedRoles && admins.userSegment == AdminsAny
    requires tierZero.appSegment == admins.appSegment
    ensures tierZero.members > 0 ==> SeverityOf(tierZero) >= SeverityOf(admins)
    ensures tierZero.members == 0 ==> SeverityOf(tierZero) == 0
  {
    MatrixIsMonotone(setting, policies, tierZero, admins);
    WeakerTierZeroIsWorse(tierZero, admins);
  }

  // ---------------------------------------------------------------- one row per flagged cell

  lemma NamesTellSegments(cell: Cell, other: Cell)
    requires UserSegmentName(cell.userSegment) == UserSegmentName(other.userSegment)
    requires AppSegmentName(cell.appSegment) == AppSegmentName(other.appSegment)
    ensures cell.userSegment == other.userSegment && cell.appSegment == other.appSegment
  {
    assert |AppSegmentName(cell.appSegment)| == |AppSegmentName(other.appSegment)|;
    assert |UserSegmentName(cell.userSegment)| == |UserSegmentName(other.userSegment)|;
    assert UserSegmentName(cell.userSegment)[0] == UserSegmentName(other.userSegment)[0];
  }

  lemma UserSegmentNamesArePlain(segment: UserSegment)
    ensures '-' !in UserSegmentName(segment)
  {
  }

  lemma NamesInRuleIds(u: string, a: string, v: string, b: string, prefix: string, on: string)
    requires '-' !in prefix && '-' !in u && '-' !in v
    requires prefix + u + ['-'] + (on + a) == prefix + v + ['-'] + (on + b)
    ensures u == v && a == b
  {
    SplitAtSeparator(prefix + u, on + a, prefix + v, on + b, '-');
    assert u == (prefix + u)[|prefix|..] && v == (prefix + v)[|prefix|..];
    assert a == (on + a)[|on|..] && b == (on + b)[|on|..];
  }

  lemma RuleIdsTellSegments(cell: Cell, other: Cell)
    requires RuleIdOf(cell) == RuleIdOf(other)
    ensures cell.userSegment == other.userSegment && cell.appSegment == other.appSegment
  {
    UserSegmentNamesArePlain(cell.userSegment);
    UserSegmentNamesArePlain(other.userSegment);
    NamesInRuleIds(UserSegmentName(cell.userSegment), AppSegmentName(cell.appSegment),
                   UserSegmentName(other.userSegment), AppSegmentName(other.appSegment), "coverage.", "on-");
    NamesTellSegments(cell, other);
  }

  predicate Flagged(cell: Cell) { SeverityForCell(cell).Some? }

  lemma FindingSpeaksForItsCell(hash: string -> string, tenantId: string, now: int, cell: Cell)
    ensures CellFinding(hash, tenantId, now)(cell).Some? <==> Flagged(cell)
    ensures Flagged(cell) ==>
              var finding := CellFinding(hash, tenantId, now)(cell).value;
              && SeverityRank(finding.severity) == SeverityOf(cell)
              && finding.tenantId == tenantId && finding.ruleId == RuleIdOf(cell) && finding.category == CoverageGap
              && finding.detectedAt == now && finding.firstSeenAt == now
              && finding.evidence == map["user_segment" := UserSegmentName(cell.userSegment),
                                         "app_segment" := AppSegmentName(cell.appSegment),
                                         "protection_level" := LevelName(cell.level)]
              && (forall o | o in finding.affected :: o.kind == if cell.applicable == [] then "tenant" else "policy")
              && Map(finding.affected, ObjectId) == (if cell.applicable == [] then [tenantId] else cell.applicable)
              && finding.id == ComputeId(hash, tenantId, finding.ruleId, Map(finding.affected, ObjectId))
  {
    var ids := Map(AffectedBy(cell, tenantId), ObjectId);
    if cell.applicable == [] {
      assert ids == [tenantId];
    } else {
      assert ids == cell.applicable;
    }
  }

  lemma RuleIdIsPlain(cell: Cell)
    ensures '|' !in RuleIdOf(cell)
  {
    UserSegmentNameHasNoBar(cell.userSegment);
    AppSegmentNameHasNoBar(cell.appSegment);
  }

  lemma UserSegmentNameHasNoBar(segment: UserSegment)
    ensures '|' !in UserSegmentName(segment)
  {
  }

  lemma AppSegmentNameHasNoBar(segment: AppSegment)
    ensures '|' !in AppSegmentName(segment)
  {
  }

  lemma CellsHaveOwnFindings(hash: string -> string, tenantId: string, now: int, cell: Cell, other: Cell)
    requires Injective(hash)
    requires CellFinding(hash, tenantId, now)(cell).Some? && CellFinding(hash, tenantId, now)(other).Some?
    requires CellFinding(hash, tenantId, now)(cell).value.id == CellFinding(hash, tenantId, now)(other).value.id
    ensures cell.userSegment == other.userSegment && cell.appSegment == other.appSegment
  {
    RuleIdIsPlain(cell);
    RuleIdIsPlain(other);
    IdIsSharedExactly(hash, tenantId, RuleIdOf(cell), Map(AffectedBy(cell, tenantId), ObjectId),
                      tenantId, RuleIdOf(other), Map(AffectedBy(other, tenantId), ObjectId));
    RuleIdsTellSegments(cell, other);
  }

  predicate OnePerPair(cells: seq<Cell>) {
    forall k, l | 0 <= k < l < |cells| ::
      cells[k].userSegment != cells[l].userSegment || cells[k].appSegment != cells[l].appSegment
  }

  /** On a fresh table every flagged cell gets a row of its own. */
  lemma {:induction false} EveryFlaggedCellGetsARow(hash: string -> string, tenantId: string, now: int,
                                                    cells: seq<Cell>)
    requires Injective(hash) && OnePerPair(cells)
    ensures |Written(map[], CoverageFindingsOf(hash, cells, tenantId, now))| == Count(cells, Flagged)
  {
    if cells == [] {
    } else {
      var front, last := cells[..|cells| - 1], cells[|cells| - 1];
      EveryFlaggedCellGetsARow(hash, tenantId, now, front);
      var findings := CoverageFindingsOf(hash, front, tenantId, now);
      if Flagged(last) {
        NewCellNewId(hash, tenantId, now, front, last);
        WrittenSnoc(map[], findings, CellFinding(hash, tenantId, now)(last).value);
      }
    }
  }

  lemma NewCellNewId(hash: string -> string, tenantId: string, now: int, cells: seq<Cell>, cell: Cell)
    requires Injective(hash) && Flagged(cell)
    requires forall other | other in cells ::
               other.userSegment != cell.userSegment || other.appSegment != cell.appSegment
    ensures CellFinding(hash, tenantId, now)(cell).value.id
            !in Written(map[], CoverageFindingsOf(hash, cells, tenantId, now))
  {
    var id := CellFinding(hash, tenantId, now)(cell).value.id;
    if id in Written(map[], CoverageFindingsOf(hash, cells, tenantId, now)) {
      var other := RowComesFromACell(cells, CellFinding(hash, tenantId, now), id);
      CellsHaveOwnFindings(hash, tenantId, now, cell, other);
    }
  }

  lemma RowComesFromACell(cells: seq<Cell>, find: Cell -> Option<Finding>, id: string) returns (cell: Cell)
    requires id in Written(map[], Collect(cells, find))
    ensures cell in cells && find(cell).Some? && find(cell).value.id == id
  {
    var findings := Collect(cells, find);
    WrittenIds(map[], findings);
    var i :| 0 <= i < |findings| && Map(findings, FindingId)[i] == id;
    CollectMembers(cells, find, findings[i]);
    var k :| 0 <= k < |cells| && find(cells[k]) == Some(findings[i]);
    cell := cells[k];
  }

  /** A matrix has one cell a pair, so the first write of its findings adds one row per flagged cell. */
  lemma {:induction false} MatrixFillsTheTable(hash: string -> string, tenantId: string, setting: Setting,
                                               policies: seq<Policy>, cells: seq<Cell>)
    requires |cells| == 25 && Grid(cells, setting, policies) && Injective(hash)
    ensures |Written(map[], CoverageFindingsOf(hash, cells, tenantId, setting.asOf))| == Count(cells, Flagged)
  {
    forall k, l | 0 <= k < l < 25
      ensures cells[k].userSegment != cells[l].userSegment || cells[k].appSegment != cells[l].appSegment
    {
      OneCellPerPair(setting, policies, cells, cells[k].userSegment, cells[k].appSegment, k);
      OneCellPerPair(setting, policies, cells, cells[k].userSegment, cells[k].appSegment, l);
    }
    EveryFlaggedCellGetsARow(hash, tenantId, setting.asOf, cells);
  }

  // ---------------------------------------------------------------- what the decision functions mean

  predicate RequiresMfaOrBlock(policy: Policy) { "mfa" in policy.grantControls || "block" in policy.grantControls }

  predicate RequiresDevice(policy: Policy) {
    "compliantDevice" in policy.grantControls || "domainJoinedDevice" in policy.grantControls
  }

  /** Each level by what earns it; a blocking policy counts like one that asks for MFA. */
  lemma LevelIsEarned(policy: Policy)
    ensures Rank(LevelOf(policy)) >= Rank(Mfa) <==> policy.state == Enabled && RequiresMfaOrBlock(policy)
    ensures LevelOf(policy) in {CompliantDevice, MfaAndDevice} <==> policy.state == Enabled && RequiresDevice(policy)
    ensures LevelOf(policy) == ReportOnly <==> policy.state == ReportingOnly
  {
  }

  /** More grant controls never lower a policy's level. */
  lemma MoreControlsNeverHurt(policy: Policy, controls: seq<string>)
    requires forall control | control in policy.grantControls :: control in controls
    ensures Rank(LevelOf(policy)) <= Rank(LevelOf(policy.(grantControls := controls)))
  {
    var more := policy.(grantControls := controls);
    LevelIsEarned(policy);
    LevelIsEarned(more);
    assert RequiresMfaOrBlock(policy) ==> RequiresMfaOrBlock(more);
    assert RequiresDevice(policy) ==> RequiresDevice(more);
  }

  /** The policy's application condition takes in this application. */
  predicate Targets(policy: Policy, app: string) {
    && policy.applications.Some?
    && ("All" in policy.applications.value.includeApps || app in policy.applications.value.includeApps)
    && app !in policy.applications.value.excludeApps
  }

  /** Scope by applications: one of the listed ones is enough, and all apps means without exception. */
  lemma AppScopeIsByApplication(policy: Policy, segment: AppSegment)
    ensures segment in {M365Core, AdminPortals, HighRiskApps} ==>
              (AppInScope(policy, segment) <==> exists app | app in AppIds(segment) :: Targets(policy, app))
    ensures segment == AllApps ==>
              (AppInScope(policy, segment)
               <==> policy.applications.Some? && "All" in policy.applications.value.includeApps
                    && forall app :: Targets(policy, app))
    ensures segment == LegacyAuth ==>
              (AppInScope(policy, segment)
               <==> "other" in policy.clientAppTypes || "exchangeActiveSync" in policy.clientAppTypes)
  {
    if segment == LegacyAuth {
      var legacy := ToSet(policy.clientAppTypes) * LEGACY_CLIENT_TYPES;
      assert "other" in policy.clientAppTypes <==> "other" in legacy;
      assert "exchangeActiveSync" in policy.clientAppTypes <==> "exchangeActiveSync" in legacy;
    } else if policy.applications.Some? {
      var included := ToSet(policy.applications.value.includeApps);
      var excluded := ToSet(policy.applications.value.excludeApps);
      if segment == AllApps {
        if "All" in policy.applications.value.includeApps {
          ExcludesNothing(policy);
        }
      } else {
        var reached := if "All" in included then AppIds(segment) - excluded else included * AppIds(segment) - excluded;
        assert AppInScope(policy, segment) <==> reached != {};
        assert forall app :: app in reached <==> app in AppIds(segment) && Targets(policy, app);
        if reached != {} {
          var app :| app in reached;
        }
      }
    }
  }

  lemma ExcludesNothing(policy: Policy)
    requires policy.applications.Some? && "All" in policy.applications.value.includeApps
    ensures ToSet(policy.applications.value.excludeApps) == {} <==> forall app :: Targets(policy, app)
  {
    var excluded := policy.applications.value.excludeApps;
    if ToSet(excluded) != {} {
      var app :| app in ToSet(excluded);
      assert !Targets(policy, app);
    } else {
      forall app
        ensures Targets(policy, app)
      {
        assert app !in ToSet(excluded);
      }
    }
  }

  lemma ReportedGaps(cell: Cell)
    ensures Flagged(cell)
            <==> cell.level in {NoControl, ReportOnly} && (cell.members > 0 || cell.userSegment == AllUsers)
  {
  }

  /** The same gap at the same level, for another user segment. */
  predicate SameGap(one: Cell, other: Cell) {
    && one.appSegment == other.appSegment && one.level == other.level
    && Flagged(one) && Flagged(other)
  }

  /** How much milder the same gap is for each other segment than for the tier-0 roles, and how severe it is there. */
  lemma SeveritiesCompareExactly(tier0: Cell, admins: Cell, guests: Cell, services: Cell, everyone: Cell)
    requires (tier0.userSegment, admins.userSegment, guests.userSegment, services.userSegment, everyone.userSegment)
             == (PrivilegedRoles, AdminsAny, Guests, ServiceAccounts, AllUsers)
    requires SameGap(tier0, admins) && SameGap(tier0, guests) && SameGap(tier0, services) && SameGap(tier0, everyone)
    ensures SeverityOf(tier0) == SeverityOf(admins) + if admins.appSegment in {M365Core, AdminPortals} then 0 else 1
    ensures SeverityOf(tier0) == SeverityOf(guests)
                                 + if guests.appSegment in {M365Core, AdminPortals, HighRiskApps} then 1 else 2
    ensures SeverityOf(tier0) == SeverityOf(everyone) + if everyone.appSegment in {M365Core, LegacyAuth} then 1 else 2
    ensures SeverityOf(tier0) == SeverityOf(services) + 2
    ensures SeverityOf(tier0) == SeverityRank(if tier0.level == NoControl then Critical else High)
  {
  }

  /** Report-only coverage takes exactly one step off the severity of no coverage at all. */
  lemma ReportOnlyTakesOneStep(none: Cell, reporting: Cell)
    requires none.level == NoControl && reporting == none.(level := ReportOnly) && Flagged(none)
    ensures SeverityOf(none) == SeverityOf(reporting) + 1
  {
  }

  lemma StrongestReaches(policies: seq<Policy>, rank: nat)
    requires rank > 0
    ensures Rank(Strongest(policies)) >= rank <==> exists policy | policy in policies :: Rank(LevelOf(policy)) >= rank
  {
    StrongestIsMaximum(policies);
  }

  // ---------------------------------------------------------------- guests and service accounts

  /** Guests are the users whose type spells guest, in any case. */
  lemma GuestsInAnyCase(directory: Directory, asOf: int, userId: string)
    ensures Belongs(Guests, directory, asOf, userId)
            <==> exists user | user in directory.users :: user.id == userId && SameSpelling(user.userType, "guest")
  {
    forall user | user in directory.users
      ensures Lower(user.userType) == "guest" <==> SameSpelling(user.userType, "guest")
    {
      LowerForgetsCase(user.userType, "guest");
      LowerKeepsLower("guest");
    }
  }

  /** Service accounts are the users with such a name and those without a sign-in for 365 whole days, or ever. */
  lemma ServiceAccountsExactly(directory: Directory, asOf: int, userId: string)
    ensures Belongs(ServiceAccounts, directory, asOf, userId)
            <==> exists user | user in directory.users ::
                   user.id == userId
                   && (HasServiceName(user) || user.lastSignIn.None?
                       || asOf - user.lastSignIn.value >= 365 * (24 * 60 * 60))
  {
    forall user: User | user.lastSignIn.Some?
      ensures DaysSince(asOf, user.lastSignIn.value) >= 365 <==> asOf - user.lastSignIn.value >= 365 * (24 * 60 * 60)
    {
      DaysReachExactly(asOf, user.lastSignIn.value, 365);
    }
  }

  // ---------------------------------------------------------------- what a cell answers for

  /** A policy that is not switched off covers a member of the user segment and has the app segment in scope. */
  predicate Concerns(setting: Setting, userSegment: UserSegment, appSegment: AppSegment, policy: Policy,
                     userId: string) {
    && policy.state in {Enabled, ReportingOnly, Unset}
    && Belongs(userSegment, setting.directory, setting.asOf, userId)
    && Covers(policy, setting.directory, userId) && AppInScope(policy, appSegment)
  }

  /** A cell lists exactly the ids of the policies that concern some member, and its level is the highest any of them
      gives; so a report-only policy shows as report-only where nothing is enforced. */
  lemma CellAnswersExactly(setting: Setting, policies: seq<Policy>, cell: Cell, id: string, rank: nat)
    requires Describes(cell, setting, policies) && rank > 0
    ensures id in cell.applicable
            <==> exists policy, userId ::
                   && policy in policies && policy.id == id
                   && Concerns(setting, cell.userSegment, cell.appSegment, policy, userId)
    ensures Rank(cell.level) >= rank
            <==> exists policy, userId ::
                   && policy in policies && Rank(LevelOf(policy)) >= rank
                   && Concerns(setting, cell.userSegment, cell.appSegment, policy, userId)
  {
    var applicable := Applicable(setting, policies, cell.userSegment, cell.appSegment);
    StrongestReaches(applicable, rank);
    FilterMembers(policies, AppliesTo(setting, cell.userSegment, cell.appSegment));
    MapMember(applicable, IdOf, id);
    forall policy
      ensures Applies(setting, cell.userSegment, cell.appSegment, policy)
              <==> exists userId :: Concerns(setting, cell.userSegment, cell.appSegment, policy, userId)
    {
      AppliesToSomebody(setting, cell.userSegment, cell.appSegment, policy);
    }
  }

  lemma AppliesToSomebody(setting: Setting, userSegment: UserSegment, appSegment: AppSegment, policy: Policy)
    ensures Applies(setting, userSegment, appSegment, policy)
            <==> exists userId :: Concerns(setting, userSegment, appSegment, policy, userId)
  {
    if Applies(setting, userSegment, appSegment, policy) {
      var userId :| Belongs(userSegment, setting.directory, setting.asOf, userId)
                    && Covers(policy, setting.directory, userId);
      assert Concerns(setting, userSegment, appSegment, policy, userId);
    }
    if userId :| Concerns(setting, userSegment, appSegment, policy, userId) {
      assert Reaches(setting, userSegment, policy);
    }
  }

  /** A policy that only reports, for a member and an app of the cell, is listed and lifts the cell to report-only. */
  lemma ReportingShows(setting: Setting, policies: seq<Policy>, cell: Cell, policy: Policy, userId: string)
    requires Describes(cell, setting, policies) && policy in policies && policy.state == ReportingOnly
    requires Belongs(cell.userSegment, setting.directory, setting.asOf, userId)
    requires Covers(policy, setting.directory, userId) && AppInScope(policy, cell.appSegment)
    ensures policy.id in cell.applicable && Rank(cell.level) >= Rank(ReportOnly)
  {
    assert Concerns(setting, cell.userSegment, cell.appSegment, policy, userId);
    CellAnswersExactly(setting, policies, cell, policy.id, Rank(ReportOnly));
  }

  /** A policy that is switched off changes no cell, wherever it stands in the list. */
  lemma DisabledIsInvisible(setting: Setting, front: seq<Policy>, policy: Policy, back: seq<Policy>,
                            before: Cell, after: Cell)
    requires policy.state == Disabled
    requires Describes(before, setting, front + back) && Describes(after, setting, front + [policy] + back)
    requires before.userSegment == after.userSegment && before.appSegment == after.appSegment
    ensures before == after
  {
    var applies := AppliesTo(setting, before.userSegment, before.appSegment);
    FilterAppend(front, back, applies);
    FilterAppend(front + [policy], back, applies);
    FilterSnoc(front, policy, applies);
    MorePoliciesNeverHurt(setting, front + back, front + [policy] + back, before, after);
  }

  // ---------------------------------------------------------------- how a gap closes


  /** The policy applies to the pair of segments and enforces at least a managed device there. */
  ghost predicate Closes(setting: Setting, userSegment: UserSegment, appSegment: AppSegment, policy: Policy) {
    Applies(setting, userSegment, appSegment, policy) && Rank(LevelOf(policy)) >= Rank(CompliantDevice)
  }

  /** A gap is reported exactly when somebody is concerned and no policy closes it. */
  lemma GapIsReportedExactly(setting: Setting, policies: seq<Policy>, cell: Cell)
    requires Describes(cell, setting, policies)
    ensures Flagged(cell)
            <==> (cell.members > 0 || cell.userSegment == AllUsers)
                 && !exists policy | policy in policies :: Closes(setting, cell.userSegment, cell.appSegment, policy)
  {
    var applicable := Applicable(setting, policies, cell.userSegment, cell.appSegment);
    ReportedGaps(cell);
    StrongestReaches(applicable, Rank(CompliantDevice));
    FilterMembers(policies, AppliesTo(setting, cell.userSegment, cell.appSegment));
    forall policy | policy in policies
      ensures Closes(setting, cell.userSegment, cell.appSegment, policy)
              <==> policy in applicable && Rank(LevelOf(policy)) >= Rank(CompliantDevice)
    {
    }
  }

  /** A reported gap closes exactly when the new policy closes it. */
  lemma GapClosesExactly(setting: Setting, front: seq<Policy>, policy: Policy, back: seq<Policy>,
                         before: Cell, after: Cell)
    requires Describes(before, setting, front + back) && Describes(after, setting, front + [policy] + back)
    requires before.userSegment == after.userSegment && before.appSegment == after.appSegment && Flagged(before)
    ensures !Flagged(after) <==> Closes(setting, before.userSegment, before.appSegment, policy)
  {
    MorePoliciesNeverHurt(setting, front + back, front + [policy] + back, before, after);
    GapIsReportedExactly(setting, front + back, before);
    GapIsReportedExactly(setting, front + [policy] + back, after);
  }

  /** After a policy is added every finding was there before, under the same rule and at least as severe. */
  lemma FindingsNeverWorsen(hash: string -> string, tenantId: string, setting: Setting, front: seq<Policy>,
                            policy: Policy, back: seq<Policy>, cells: seq<Cell>, extended: seq<Cell>, finding: Finding)
    returns (earlier: Finding)
    requires |cells| == |extended| == 25
    requires Grid(cells, setting, front + back) && Grid(extended, setting, front + [policy] + back)
    requires finding in CoverageFindingsOf(hash, extended, tenantId, setting.asOf)
    ensures earlier in CoverageFindingsOf(hash, cells, tenantId, setting.asOf)
    ensures earlier.ruleId == finding.ruleId && SeverityRank(earlier.severity) >= SeverityRank(finding.severity)
  {
    var find := CellFinding(hash, tenantId, setting.asOf);
    CollectMembers(extended, find, finding);
    var k :| 0 <= k < 25 && find(extended[k]) == Some(finding);
    SamePlace(cells, setting, front + back, extended, setting, front + [policy] + back, k);
    MorePoliciesNeverHurt(setting, front + back, front + [policy] + back, cells[k], extended[k]);
    FindingSpeaksForItsCell(hash, tenantId, setting.asOf, extended[k]);
    FindingSpeaksForItsCell(hash, tenantId, setting.asOf, cells[k]);
    FlaggedRanks(cells[k], extended[k]);
    earlier := find(cells[k]).value;
    CollectMembers(cells, find, earlier);
  }

  lemma FlaggedRanks(cell: Cell, other: Cell)
    requires Flagged(other) && SeverityOf(other) <= SeverityOf(cell)
    ensures Flagged(cell)
  {
  }

  // ---------------------------------------------------------------- inner segments against outer ones

  /** Wherever the inner segment has members, its gap on the app segment is at least as severe as the outer one's. */
  ghost predicate InnerGapNoMilder(u: UserSegment, v: UserSegment, a: AppSegment) {
    forall setting: Setting, policies: seq<Policy>, inner: Cell, outer: Cell ::
      Describes(inner, setting, policies) && Describes(outer, setting, policies)
      && inner.userSegment == u && outer.userSegment == v && inner.appSegment == outer.appSegment == a
      && inner.members > 0
      ==> SeverityOf(inner) >= SeverityOf(outer)
  }

  lemma WeakerInnerIsNoMilder(inner: Cell, outer: Cell)
    requires RowBelow(inner.userSegment, outer.userSegment) && inner.appSegment == outer.appSegment
    requires Rank(inner.level) <= Rank(outer.level) && 0 < inner.members
    requires !(inner.userSegment == Guests && inner.appSegment == LegacyAuth)
    requires !(inner.userSegment == ServiceAccounts && inner.appSegment in {M365Core, LegacyAuth})
    ensures SeverityOf(inner) >= SeverityOf(outer)
  {
  }

  lemma SoleMember(a: UserSegment, b: UserSegment)
    requires a in {Guests, ServiceAccounts} && b in {a, AllUsers}
    ensures AreMembers(Setting(TellingDirectory(a), 0), b, {"u"})
  {
    TellingUserTells(a, b);
  }

  lemma BareCell(a: UserSegment, b: UserSegment, app: AppSegment)
    requires a in {Guests, ServiceAccounts} && b in {a, AllUsers}
    ensures Describes(Cell(b, app, [], NoControl, 1), Setting(TellingDirectory(a), 0), [])
  {
    var setting := Setting(TellingDirectory(a), 0);
    SoleMember(a, b);
    assert Applicable(setting, [], b, app) == [];
    assert Map<Policy, string>([], IdOf) == [];
    assert AreMembers(setting, b, {"u"}) && |{"u"}| == 1;
  }

  /**
   * A gap for part of a segment is as severe as that for the whole, in every tenant, except on two app segments for
   * service accounts and one for guests, where the severities are set the other way round.
   */
  lemma InnerGapsAreWorstExactly(u: UserSegment, v: UserSegment, a: AppSegment)
    requires RowBelow(u, v) && u != v
    ensures InnerGapNoMilder(u, v, a)
            <==> !(u == Guests && a == LegacyAuth) && !(u == ServiceAccounts && a in {M365Core, LegacyAuth})
  {
    if !(u == Guests && a == LegacyAuth) && !(u == ServiceAccounts && a in {M365Core, LegacyAuth}) {
      forall setting: Setting, policies: seq<Policy>, inner: Cell, outer: Cell |
        Describes(inner, setting, policies) && Describes(outer, setting, policies)
        && inner.userSegment == u && outer.userSegment == v && inner.appSegment == outer.appSegment == a
        && inner.members > 0
        ensures SeverityOf(inner) >= SeverityOf(outer)
      {
        MatrixIsMonotone(setting, policies, inner, outer);
        WeakerInnerIsNoMilder(inner, outer);
      }
    } else {
      MilderInnerGap(u, a);
    }
  }

  lemma MilderInnerGap(u: UserSegment, a: AppSegment)
    requires (u == Guests && a == LegacyAuth) || (u == ServiceAccounts && a in {M365Core, LegacyAuth})
    ensures !InnerGapNoMilder(u, AllUsers, a)
  {
    var inner, outer := Cell(u, a, [], NoControl, 1), Cell(AllUsers, a, [], NoControl, 1);
    BareCell(u, u, a);
    BareCell(u, AllUsers, a);
    MilderBareCell(inner, outer);
    GapIsMilder(Setting(TellingDirectory(u), 0), inner, outer);
  }

  lemma MilderBareCell(inner: Cell, outer: Cell)
    requires inner == Cell(inner.userSegment, inner.appSegment, [], NoControl, 1)
    requires outer == Cell(AllUsers, inner.appSegment, [], NoControl, 1)
    requires (inner.userSegment == Guests && inner.appSegment == LegacyAuth)
             || (inner.userSegment == ServiceAccounts && inner.appSegment in {M365Core, LegacyAuth})
    ensures SeverityOf(inner) < SeverityOf(outer)
  {
  }

  lemma GapIsMilder(setting: Setting, inner: Cell, outer: Cell)
    requires Describes(inner, setting, []) && Describes(outer, setting, [])
    requires inner.appSegment == outer.appSegment && inner.members > 0
    requires SeverityOf(inner) < SeverityOf(outer)
    ensures !InnerGapNoMilder(inner.userSegment, outer.userSegment, inner.appSegment)
  {
  }
}
