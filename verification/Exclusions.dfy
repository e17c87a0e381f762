/** Resolving a policy's exclusion lists to users, and the hygiene checks over them. */
module Exclusions {
  import opened Sequences
  import opened Ordering
  import opened Text
  import opened Tenant
  import opened Findings
  import Coverage

  datatype Route = Direct | ViaGroup | ViaRole

  /** One way in which a policy excludes a user. */
  datatype Exclusion = Exclusion(userId: string, via: Route, viaObject: Option<string>)

  datatype Principal = Principal(user: User, policyId: string, via: Route, viaObject: Option<string>,
                                 roleTemplates: seq<string>)

  // ---------------------------------------------------------------- role templates of a user

  /** An alphabetical list, without repetitions, of the templates the user holds. */
  ghost predicate ListsTemplates(templates: seq<string>, directory: Directory, userId: string) {
    && SortedBy(templates, LexLe) && NoDuplicates(templates)
    && forall template :: template in templates <==> Coverage.HoldsTemplate(directory, userId, template)
  }

  method SortedList(texts: set<string>) returns (list: seq<string>)
    ensures SortedBy(list, LexLe) && NoDuplicates(list) && ToSet(list) == texts
  {
    var rest, picked: seq<string> := texts, [];
    while rest != {}
      invariant rest !! ToSet(picked) && rest + ToSet(picked) == texts && NoDuplicates(picked)
      decreases rest
    {
      var text :| text in rest;
      rest, picked := rest - {text}, picked + [text];
    }
    list := Sort(picked, LexLe);
    LexIsOrder();
    SortIsSorted(picked, LexLe);
    SortKeeps(picked, LexLe);
    NoDuplicatesMultiset(picked);
    NoDuplicatesMultiset(list);
  }

  predicate RoleGives(role: DirectoryRole, userId: string, template: string) {
    role.templateId == Some(template) && userId in role.members
  }

  method RoleTemplatesForUser(userId: string, directory: Directory) returns (templates: seq<string>)
    ensures ListsTemplates(templates, directory, userId)
  {
    var holds: set<string> := {};
    var roles, assignments := directory.roles, directory.assignments;
    for i := 0 to |roles|
      invariant forall template ::
                  template in holds <==> exists j :: 0 <= j < i && RoleGives(roles[j], userId, template)
    {
      if userId in roles[i].members && roles[i].templateId.Some? {
        holds := holds + {roles[i].templateId.value};
      }
    }
    ghost var byRole := holds;
    for i := 0 to |assignments|
      invariant forall template ::
                  template in holds <==>
                  template in byRole || RoleAssignment(Some(userId), Some(template)) in assignments[..i]
    {
      var assignment := assignments[i];
      assert assignments[..i + 1] == assignments[..i] + [assignment];
      if assignment.principalId == Some(userId) && assignment.roleDefinitionId.Some? {
        holds := holds + {assignment.roleDefinitionId.value};
      }
    }
    assert assignments[..|assignments|] == assignments;
    templates := SortedList(holds);
    forall template
      ensures template in templates <==> Coverage.HoldsTemplate(directory, userId, template)
    {
      assert template in templates <==> template in ToSet(templates);
      if role :| role in roles && role.templateId == Some(template) && userId in role.members {
        var j :| 0 <= j < |roles| && roles[j] == role;
        assert RoleGives(roles[j], userId, template);
      }
    }
  }

  // ---------------------------------------------------------------- resolving exclusions

  /** Users by id; the last of several users with one id counts. */
  function UserIndex(users: seq<User>): map<string, User> {
    if users == [] then map[]
    else UserIndex(users[..|users| - 1])[users[|users| - 1].id := users[|users| - 1]]
  }

  function By(via: Route, viaObject: Option<string>): string -> Exclusion {
    (userId: string) => Exclusion(userId, via, viaObject)
  }

  function GroupMentions(group: Group, ids: seq<string>): seq<Exclusion> {
    if group.id in ids then Map(group.members, By(ViaGroup, Some(group.id))) else []
  }

  function GroupExclusions(groups: seq<Group>, ids: seq<string>): seq<Exclusion> {
    if groups == [] then []
    else GroupExclusions(groups[..|groups| - 1], ids) + GroupMentions(groups[|groups| - 1], ids)
  }

  function RoleMentions(role: DirectoryRole, ids: seq<string>): seq<Exclusion> {
    if RoleNamed(role, ids) then Map(role.members, By(ViaRole, Some(role.id))) else []
  }

  function RoleExclusions(roles: seq<DirectoryRole>, ids: seq<string>): seq<Exclusion> {
    if roles == [] then []
    else RoleExclusions(roles[..|roles| - 1], ids) + RoleMentions(roles[|roles| - 1], ids)
  }

  lemma GroupExclusionsStep(before: seq<Exclusion>, groups: seq<Group>, i: nat, ids: seq<string>)
    requires i < |groups|
    ensures before + GroupExclusions(groups[..i + 1], ids)
            == before + GroupExclusions(groups[..i], ids) + GroupMentions(groups[i], ids)
  {
    assert groups[..i + 1][..i] == groups[..i];
  }

  lemma RoleExclusionsStep(before: seq<Exclusion>, roles: seq<DirectoryRole>, i: nat, ids: seq<string>)
    requires i < |roles|
    ensures before + RoleExclusions(roles[..i + 1], ids)
            == before + RoleExclusions(roles[..i], ids) + RoleMentions(roles[i], ids)
  {
    assert roles[..i + 1][..i] == roles[..i];
  }

  /** Everything the lists name, repetitions and unknown users included. */
  function Named(condition: UserCondition, directory: Directory): seq<Exclusion> {
    Map(condition.excludeUsers, By(Direct, None))
    + GroupExclusions(directory.groups, condition.excludeGroups)
    + RoleExclusions(directory.roles, condition.excludeRoles)
  }

  /** The first mention of each exclusion of a known user. */
  function FirstKnown(named: seq<Exclusion>, known: set<string>): seq<Exclusion> {
    if named == [] then []
    else
      var before, last := FirstKnown(named[..|named| - 1], known), named[|named| - 1];
      if last.userId !in known || last in before then before else before + [last]
  }

  function ExclusionsOf(policy: Policy, directory: Directory): seq<Exclusion> {
    if policy.users.None? then []
    else FirstKnown(Named(policy.users.value, directory), UserIndex(directory.users).Keys)
  }

  function ExclusionOf(principal: Principal): Exclusion {
    Exclusion(principal.user.id, principal.via, principal.viaObject)
  }

  ghost predicate Resolves(principal: Principal, exclusion: Exclusion, policy: Policy, directory: Directory) {
    && ExclusionOf(principal) == exclusion
    && exclusion.userId in UserIndex(directory.users)
    && principal.user == UserIndex(directory.users)[exclusion.userId]
    && principal.policyId == policy.id
    && ListsTemplates(principal.roleTemplates, directory, exclusion.userId)
  }

  ghost predicate ResolveAll(resolved: seq<Principal>, exclusions: seq<Exclusion>, policy: Policy,
                             directory: Directory) {
    && |resolved| == |exclusions|
    && forall i | 0 <= i < |resolved| :: Resolves(resolved[i], exclusions[i], policy, directory)
  }

  lemma {:induction false} IndexIsById(users: seq<User>)
    ensures forall id | id in UserIndex(users) :: UserIndex(users)[id].id == id
    ensures forall id :: id in UserIndex(users) <==> exists user | user in users :: user.id == id
  {
    if users == [] {
    } else {
      IndexIsById(users[..|users| - 1]);
      assert users == users[..|users| - 1] + [users[|users| - 1]];
    }
  }

  lemma FirstKnownSnoc(named: seq<Exclusion>, last: Exclusion, known: set<string>)
    ensures FirstKnown(named + [last], known)
            == if last.userId !in known || last in FirstKnown(named, known) then FirstKnown(named, known)
               else FirstKnown(named, known) + [last]
    ensures ToSet(FirstKnown(named, known) + [last]) == ToSet(FirstKnown(named, known)) + {last}
  {
    assert (named + [last])[..|named|] == named;
  }

  method IndexUsers(users: seq<User>) returns (index: map<string, User>)
    ensures index == UserIndex(users)
  {
    index := map[];
    for i := 0 to |users|
      invariant index == UserIndex(users[..i])
    {
      assert users[..i + 1][..i] == users[..i];
      index := index[users[i].id := users[i]];
    }
    assert users[..|users|] == users;
  }

  lemma ResolveOneMore(resolved: seq<Principal>, principal: Principal, exclusions: seq<Exclusion>, exclusion: Exclusion,
                       policy: Policy, directory: Directory)
    requires ResolveAll(resolved, exclusions, policy, directory)
    requires Resolves(principal, exclusion, policy, directory)
    ensures ResolveAll(resolved + [principal], exclusions + [exclusion], policy, directory)
  {
  }

  method ResolvePrincipal(exclusion: Exclusion, policy: Policy, directory: Directory, userIndex: map<string, User>)
    returns (principal: Principal)
    requires userIndex == UserIndex(directory.users) && exclusion.userId in userIndex
    ensures Resolves(principal, exclusion, policy, directory)
  {
    var templates := RoleTemplatesForUser(exclusion.userId, directory);
    IndexIsById(directory.users);
    principal := Principal(userIndex[exclusion.userId], policy.id, exclusion.via, exclusion.viaObject, templates);
  }

  /** The two collections that resolution fills as it goes. */
  class PrincipalResolver {
    const policy: Policy
    const directory: Directory
    const userIndex: map<string, User>
    var resolved: seq<Principal>
    var seen: set<Exclusion>
    ghost var named: seq<Exclusion>

    ghost predicate Valid()
      reads this
    {
      && userIndex == UserIndex(directory.users)
      && ResolveAll(resolved, FirstKnown(named, userIndex.Keys), policy, directory)
      && seen == ToSet(FirstKnown(named, userIndex.Keys))
    }

    constructor (policy: Policy, directory: Directory, userIndex: map<string, User>)
      requires userIndex == UserIndex(directory.users)
      ensures Valid() && named == []
      ensures this.policy == policy && this.directory == directory
    {
      this.policy, this.directory, this.userIndex := policy, directory, userIndex;
      resolved, seen, named := [], {}, [];
    }

    method Push(userId: string, via: Route, viaObject: Option<string>)
      requires Valid()
      modifies this
      ensures Valid() && named == old(named) + [Exclusion(userId, via, viaObject)]
    {
      var key := Exclusion(userId, via, viaObject);
      ghost var kept := FirstKnown(named, userIndex.Keys);
      FirstKnownSnoc(named, key, userIndex.Keys);
      named := named + [key];
      if userId !in userIndex {
        return;
      }
      if key in seen {
        return;
      }
      var principal := ResolvePrincipal(key, policy, directory, userIndex);
      ResolveOneMore(resolved, principal, kept, key, policy, directory);
      seen := seen + {key};
      resolved := resolved + [principal];
    }

    method PushMembers(members: seq<string>, via: Route, viaObject: Option<string>)
      requires Valid()
      modifies this
      ensures Valid() && named == old(named) + Map(members, By(via, viaObject))
    {
      for i := 0 to |members|
        invariant Valid() && named == old(named) + Map(members[..i], By(via, viaObject))
      {
        Push(members[i], via, viaObject);
        ExtendMap(members, i, By(via, viaObject));
      }
      assert members[..|members|] == members;
    }
  }

  lemma NamedInAll(condition: UserCondition, directory: Directory, named: seq<Exclusion>)
    requires named == [] + Map(condition.excludeUsers, By(Direct, None))
                      + GroupExclusions(directory.groups, condition.excludeGroups)
                      + RoleExclusions(directory.roles, condition.excludeRoles)
    ensures named == Named(condition, directory)
  {
    var direct := Map(condition.excludeUsers, By(Direct, None));
    assert [] + direct == direct;
  }

  method ResolveExcludedPrincipals(policy: Policy, directory: Directory) returns (resolved: seq<Principal>)
    ensures ResolveAll(resolved, ExclusionsOf(policy, directory), policy, directory)
  {
    if policy.users.None? {
      return [];
    }
    var condition := policy.users.value;
    var userIndex := IndexUsers(directory.users);
    var resolver := new PrincipalResolver(policy, directory, userIndex);
    resolver.PushMembers(condition.excludeUsers, Direct, None);
    PushGroups(resolver, condition.excludeGroups);
    PushRoles(resolver, condition.excludeRoles);
    NamedInAll(condition, directory, resolver.named);
    resolved := resolver.resolved;
  }

  method PushGroup(resolver: PrincipalResolver, group: Group, ids: seq<string>)
    requires resolver.Valid()
    modifies resolver
    ensures resolver.Valid() && resolver.named == old(resolver.named) + GroupMentions(group, ids)
  {
    if group.id in ids {
      resolver.PushMembers(group.members, ViaGroup, Some(group.id));
    }
  }

  method PushGroups(resolver: PrincipalResolver, ids: seq<string>)
    requires resolver.Valid()
    modifies resolver
    ensures resolver.Valid()
    ensures resolver.named == old(resolver.named) + GroupExclusions(resolver.directory.groups, ids)
  {
    var groups := resolver.directory.groups;
    for i := 0 to |groups|
      invariant resolver.Valid()
      invariant resolver.named == old(resolver.named) + GroupExclusions(groups[..i], ids)
    {
      GroupExclusionsStep(old(resolver.named), groups, i, ids);
      PushGroup(resolver, groups[i], ids);
    }
    assert groups[..|groups|] == groups;
  }

  method PushRole(resolver: PrincipalResolver, role: DirectoryRole, ids: seq<string>)
    requires resolver.Valid()
    modifies resolver
    ensures resolver.Valid() && resolver.named == old(resolver.named) + RoleMentions(role, ids)
  {
    if RoleNamed(role, ids) {
      resolver.PushMembers(role.members, ViaRole, Some(role.id));
    }
  }

  method PushRoles(resolver: PrincipalResolver, ids: seq<string>)
    requires resolver.Valid()
    modifies resolver
    ensures resolver.Valid()
    ensures resolver.named == old(resolver.named) + RoleExclusions(resolver.directory.roles, ids)
  {
    var roles := resolver.directory.roles;
    for i := 0 to |roles|
      invariant resolver.Valid()
      invariant resolver.named == old(resolver.named) + RoleExclusions(roles[..i], ids)
    {
      RoleExclusionsStep(old(resolver.named), roles, i, ids);
      PushRole(resolver, roles[i], ids);
    }
    assert roles[..|roles|] == roles;
  }

  /** Of several users with one id the last one counts. */
  lemma {:induction false} LastUserCounts(users: seq<User>, i: nat)
    requires i < |users| && forall j | i < j < |users| :: users[j].id != users[i].id
    ensures users[i].id in UserIndex(users) && UserIndex(users)[users[i].id] == users[i]
  {
    var front := users[..|users| - 1];
    if i == |front| {
    } else {
      LastUserCounts(front, i);
    }
  }
}
