/** Whom the off-hours rule watches, against the coverage package's segment of tier-0 roles. */
module SignInPrivilege {
  import opened Sequences
  import opened Tenant
  import opened SignInHistory
  import opened SignInFeatures
  import opened SignInScoring
  import opened SignInScoringFacts

  import Coverage

  /** Exactly the members of the segment of tier-0 roles. */
  ghost predicate ArePrivileged(userIds: set<string>, directory: Directory) {
    forall asOf: int, userId: string ::
      userId in userIds <==> Coverage.Belongs(Coverage.PrivilegedRoles, directory, asOf, userId)
  }

  method ComputePrivilegedUserIds(directory: Directory) returns (userIds: set<string>)
    ensures ArePrivileged(userIds, directory)
  {
    userIds := {};
    var roles, assignments := directory.roles, directory.assignments;
    for i := 0 to |roles|
      invariant forall userId ::
                  userId in userIds
                  <==> exists j :: 0 <= j < i && Coverage.HoldsByRole(roles[j], userId, Coverage.TIER_0_TEMPLATES)
    {
      if roles[i].templateId.Some? && roles[i].templateId.value in Coverage.TIER_0_TEMPLATES {
        userIds := userIds + ToSet(roles[i].members);
      }
    }
    ghost var byRole := userIds;
    for i := 0 to |assignments|
      invariant forall userId ::
                  userId in userIds
                  <==> userId in byRole
                       || exists j :: 0 <= j < i
                                      && Coverage.HoldsByAssignment(assignments[j], userId, Coverage.TIER_0_TEMPLATES)
    {
      var assignment := assignments[i];
      if assignment.roleDefinitionId.Some? && assignment.roleDefinitionId.value in Coverage.TIER_0_TEMPLATES
         && assignment.principalId.Some? {
        userIds := userIds + {assignment.principalId.value};
      }
    }
    forall asOf: int, userId: string
      ensures userId in userIds <==> Coverage.Belongs(Coverage.PrivilegedRoles, directory, asOf, userId)
    {
      Coverage.HoldersByEitherRecord(directory, userId, Coverage.TIER_0_TEMPLATES);
    }
  }

  /** What the off-hours rule does to one row. */
  lemma WatchedRow(bundle: Bundle, libraries: Libraries, rules: Switches, s: SignIn, row: FeatureRow,
                   with: AnomalyScore, without: AnomalyScore)
    requires rules.enableRules
    requires with == ScoreRow(bundle, libraries, rules, s, row)
    requires without == ScoreRow(bundle, libraries, rules.(privileged := {}), s, row)
    ensures with != without
            <==> && OffHoursFires(WatchOf(bundle, libraries, rules), s.userId, row)
                 && without.normalised < 0.85
    ensures with != without ==> with == without.(normalised := 0.85, isAnomaly := true)
  {
  }

  /**
   * Watching privileged users changes a score exactly where a sign-in of a member of the tier-0 segment fires the
   * rule and nothing else gives it as much; it is 0.85 then, and the sign-in is flagged.
   */
  lemma {:induction false} WatchTouchesTierZeroOnly(bundle: Bundle, libraries: Libraries, rules: Switches,
                                                    directory: Directory, asOf: int, signins: seq<SignIn>, i: nat)
    requires rules.enableRules && ArePrivileged(rules.privileged, directory) && i < |signins|
    ensures |Scores(bundle, libraries, rules, signins)| == |signins|
    ensures |Scores(bundle, libraries, rules.(privileged := {}), signins)| == |signins|
    ensures var with := Scores(bundle, libraries, rules, signins)[i];
            var without := Scores(bundle, libraries, rules.(privileged := {}), signins)[i];
            var s := OrderedSignIns(signins)[i];
            && (with != without
                <==> && rules.offHoursFlag && Coverage.Belongs(Coverage.PrivilegedRoles, directory, asOf, s.userId)
                     && Unusual(WatchOf(bundle, libraries, rules), s.userId, RowOf(signins, libraries, s))
                     && without.normalised < 0.85)
            && (with != without ==> with == without.(normalised := 0.85, isAnomaly := true))
  {
    OrderedIsPermutation(signins);
    assert |OrderedSignIns(signins)| == |multiset(OrderedSignIns(signins))| == |multiset(signins)|;
    var s := OrderedSignIns(signins)[i];
    WatchedRow(bundle, libraries, rules, s, RowOf(signins, libraries, s), Scores(bundle, libraries, rules, signins)[i],
               Scores(bundle, libraries, rules.(privileged := {}), signins)[i]);
  }
}
