/** Per-row features and the rule floors computed from them. */
module SignInFeatures {
  import opened Sequences
  import opened SignInHistory

  /** `travelSpeed` comes from the great-circle distance, `numerics` stands for the remaining columns. */
  datatype FeatureRow = FeatureRow(
    isNewCountry: int, isNewAsn: int, isNewDevice: int, isNewBrowser: int, isNewOs: int,
    isFailure: int, mfaSatisfied: int, isLegacyAuth: int,
    travelSpeed: real, numerics: seq<real>)

  function IsNew<T(==)>(value: Option<T>, known: set<T>): int {
    match value
    case None => 0
    case Some(x) => if x in known then 0 else 1
  }

  function IsNewCountryForUser(s: SignIn, history: UserHistory): int { IsNew(CountryOf(s), ToSet(history.countries)) }

  function IsNewAsnForUser(s: SignIn, history: UserHistory): int { IsNew(AsnOf(s), ToSet(history.asns)) }

  function IsNewDeviceForUser(s: SignIn, history: UserHistory): int { IsNew(DeviceOf(s), history.devices) }

  function IsNewBrowserForUser(s: SignIn, history: UserHistory): int { IsNew(BrowserOf(s), history.browsers) }

  function IsNewOsForUser(s: SignIn, history: UserHistory): int { IsNew(OsOf(s), history.os) }

  function MfaSatisfied(s: SignIn): int { if s.authRequirement == "multiFactorAuthentication" then 1 else 0 }

  function IsLegacyAuth(s: SignIn): int {
    if s.clientApp in {"Other", "ExchangeActiveSync", "AutoDiscover"} then 1
    else if s.interactive == Some(false) && s.authRequirement == "singleFactorAuthentication" then 1
    else 0
  }

  function IsFailure(s: SignIn): int {
    if s.status.None? || s.status.value.errorCode.None? then 0
    else if s.status.value.errorCode.value != 0 then 1 else 0
  }

  /** The columns that need trigonometry, logarithms or the calendar. */
  type Numerics = (SignIn, UserHistory) -> (real, seq<real>)

  function ExtractFeatures(s: SignIn, history: UserHistory, numerics: Numerics): FeatureRow {
    var (speed, others) := numerics(s, history);
    FeatureRow(IsNewCountryForUser(s, history), IsNewAsnForUser(s, history),
               IsNewDeviceForUser(s, history), IsNewBrowserForUser(s, history), IsNewOsForUser(s, history),
               IsFailure(s), MfaSatisfied(s), IsLegacyAuth(s), speed, others)
  }

  const TRAVEL_SPEED_LIMIT := 1500.0
  const TRAVEL_SPEED_FLOOR := 0.95
  const NEW_COUNTRY_AND_ASN_FLOOR := 0.85
  const FAILURE_AND_NEW_ASN_FLOOR := 0.85
  const MFA_BYPASS_LEGACY_FLOOR := 0.80

  datatype Rule = Travel | NewCountryAndAsn | FailureAndNewAsn | MfaBypassLegacy

  predicate Fires(rule: Rule, row: FeatureRow) {
    match rule
    case Travel => row.travelSpeed > TRAVEL_SPEED_LIMIT
    case NewCountryAndAsn => row.isNewCountry != 0 && row.isNewAsn != 0
    case FailureAndNewAsn => row.isFailure != 0 && row.isNewAsn != 0
    case MfaBypassLegacy => row.mfaSatisfied == 0 && row.isLegacyAuth != 0
  }

  function FloorOf(rule: Rule): real {
    match rule
    case Travel => TRAVEL_SPEED_FLOOR
    case NewCountryAndAsn => NEW_COUNTRY_AND_ASN_FLOOR
    case FailureAndNewAsn => FAILURE_AND_NEW_ASN_FLOOR
    case MfaBypassLegacy => MFA_BYPASS_LEGACY_FLOOR
  }

  /** The strongest floor among the rules that fire, zero when none does. */
  predicate IsStrongestFloor(row: FeatureRow, score: real) {
    && (forall rule | Fires(rule, row) :: FloorOf(rule) <= score)
    && (score == 0.0 || exists rule :: Fires(rule, row) && FloorOf(rule) == score)
    && score >= 0.0
  }

  function FloorIf(rule: Rule, row: FeatureRow): real { if Fires(rule, row) then FloorOf(rule) else 0.0 }

  function StrongestFloor(row: FeatureRow): real {
    MaxReal(MaxReal(FloorIf(Travel, row), FloorIf(NewCountryAndAsn, row)),
            MaxReal(FloorIf(FailureAndNewAsn, row), FloorIf(MfaBypassLegacy, row)))
  }

  lemma StrongestFloorIsStrongest(row: FeatureRow)
    ensures IsStrongestFloor(row, StrongestFloor(row))
  {
    assert Fires(Travel, row) || FloorIf(Travel, row) == 0.0;
    assert Fires(NewCountryAndAsn, row) || FloorIf(NewCountryAndAsn, row) == 0.0;
    assert Fires(FailureAndNewAsn, row) || FloorIf(FailureAndNewAsn, row) == 0.0;
    assert Fires(MfaBypassLegacy, row) || FloorIf(MfaBypassLegacy, row) == 0.0;
  }

  method HybridRuleBoost(row: FeatureRow) returns (score: real)
    ensures score == StrongestFloor(row) && IsStrongestFloor(row, score)
  {
    score := 0.0;
    if row.travelSpeed > TRAVEL_SPEED_LIMIT {
      score := MaxReal(score, TRAVEL_SPEED_FLOOR);
    }
    if row.isNewCountry != 0 && row.isNewAsn != 0 {
      score := MaxReal(score, NEW_COUNTRY_AND_ASN_FLOOR);
    }
    if row.isFailure != 0 && row.isNewAsn != 0 {
      score := MaxReal(score, FAILURE_AND_NEW_ASN_FLOOR);
    }
    if row.mfaSatisfied == 0 && row.isLegacyAuth != 0 {
      score := MaxReal(score, MFA_BYPASS_LEGACY_FLOOR);
    }
    StrongestFloorIsStrongest(row);
  }

  // ---------------------------------------------------------------- privileged users at night

  const OFF_HOURS_ADMIN_FLOOR := 0.85

  const NIGHT_HOURS_UTC: set<int> := {22, 23, 0, 1, 2, 3, 4, 5}

  /** Per user a model of the times of sign-ins, and the ninth decile of its scores. */
  datatype TimeModels = TimeModels(pipelines: map<string, string>, p90: map<string, real>)

  /** The time models' decision function, and the hour recovered from a row's cyclical columns. */
  datatype Clock = Clock(decideTime: (string, FeatureRow) -> real, hourOf: FeatureRow -> Option<int>)

  /** The off-hours rule as configured: its environment flag, models, libraries and privileged users. */
  datatype Watch = Watch(enabled: bool, models: Option<TimeModels>, clock: Clock, privileged: set<string>)

  predicate Unusual(watch: Watch, userId: string, row: FeatureRow) {
    if watch.models.Some? && userId in watch.models.value.pipelines then
      && userId in watch.models.value.p90
      && -watch.clock.decideTime(watch.models.value.pipelines[userId], row) >= watch.models.value.p90[userId]
    else
      watch.clock.hourOf(row).Some? && watch.clock.hourOf(row).value in NIGHT_HOURS_UTC
  }

  predicate OffHoursFires(watch: Watch, userId: string, row: FeatureRow) {
    watch.enabled && userId in watch.privileged && Unusual(watch, userId, row)
  }

  /** The rule reads the user's time model where there is one, and never fires without its decile; only for others it
      reads the clock, and fires from ten at night to six in the morning. */
  lemma OffHoursRuleReads(watch: Watch, userId: string, row: FeatureRow)
    ensures OffHoursFires(watch, userId, row) ==> watch.enabled && userId in watch.privileged
    ensures watch.enabled && userId in watch.privileged && watch.models.Some? && userId in watch.models.value.pipelines
            ==> (OffHoursFires(watch, userId, row)
                 <==> userId in watch.models.value.p90
                      && watch.clock.decideTime(watch.models.value.pipelines[userId], row)
                         <= -watch.models.value.p90[userId])
    ensures watch.enabled && userId in watch.privileged
            && (watch.models.Some? ==> userId !in watch.models.value.pipelines)
            ==> (OffHoursFires(watch, userId, row)
                 <==> exists hour :: watch.clock.hourOf(row) == Some(hour) && (22 <= hour < 24 || 0 <= hour < 6))
  {
    var hour := watch.clock.hourOf(row);
    assert hour.Some? ==> (hour.value in NIGHT_HOURS_UTC <==> 22 <= hour.value < 24 || 0 <= hour.value < 6);
  }

  /** The columns that say yes or no are ones and zeros. */
  lemma FlagsAreBits(s: SignIn, history: UserHistory, numerics: Numerics)
    ensures var row := ExtractFeatures(s, history, numerics);
            && row.isNewCountry in {0, 1} && row.isNewAsn in {0, 1} && row.isNewDevice in {0, 1}
            && row.isNewBrowser in {0, 1} && row.isNewOs in {0, 1}
            && row.isFailure in {0, 1} && row.mfaSatisfied in {0, 1} && row.isLegacyAuth in {0, 1}
  {
  }

  method OffHoursAdminBoost(userId: string, row: FeatureRow, watch: Watch) returns (boost: real)
    ensures boost == if OffHoursFires(watch, userId, row) then OFF_HOURS_ADMIN_FLOOR else 0.0
  {
    if !watch.enabled {
      return 0.0;
    }
    if userId !in watch.privileged {
      return 0.0;
    }
    if watch.models.Some? && userId in watch.models.value.pipelines {
      if userId !in watch.models.value.p90 {
        return 0.0;
      }
      var anomalyScore := -watch.clock.decideTime(watch.models.value.pipelines[userId], row);
      if anomalyScore >= watch.models.value.p90[userId] {
        return OFF_HOURS_ADMIN_FLOOR;
      }
      return 0.0;
    }
    var hour := watch.clock.hourOf(row);
    if hour.Some? && hour.value in NIGHT_HOURS_UTC {
      return OFF_HOURS_ADMIN_FLOOR;
    }
    boost := 0.0;
  }

  /** The strongest floor of all five rules; the fifth needs to know whose row it is. */
  function BoostOf(row: FeatureRow, userId: Option<string>, watch: Watch): (boost: real)
    ensures boost >= StrongestFloor(row) >= 0.0
  {
    if userId.Some? && OffHoursFires(watch, userId.value, row) then MaxReal(StrongestFloor(row), OFF_HOURS_ADMIN_FLOOR)
    else StrongestFloor(row)
  }

  function UserAt(userIds: Option<seq<string>>, i: nat): Option<string>
    requires userIds.Some? ==> i < |userIds.value|
  {
    if userIds.Some? then Some(userIds.value[i]) else None
  }

  /** No list at all when row and user counts differ: the source raises then. */
  method RuleScoreBoosts(rows: seq<FeatureRow>, userIds: Option<seq<string>>, watch: Watch)
    returns (boosts: Option<seq<real>>)
    ensures boosts.Some? <==> userIds.None? || |rows| == |userIds.value|
    ensures boosts.Some? ==> |boosts.value| == |rows|
                             && forall i | 0 <= i < |rows| ::
                                  boosts.value[i] == BoostOf(rows[i], UserAt(userIds, i), watch)
  {
    if userIds.Some? && |userIds.value| != |rows| {
      return None;
    }
    var result: seq<real> := [];
    for i := 0 to |rows|
      invariant |result| == i
      invariant forall j | 0 <= j < i :: result[j] == BoostOf(rows[j], UserAt(userIds, j), watch)
    {
      var score := HybridRuleBoost(rows[i]);
      if userIds.Some? && watch.privileged != {} {
        var adminBoost := OffHoursAdminBoost(userIds.value[i], rows[i], watch);
        if adminBoost > score {
          score := adminBoost;
        }
      }
      result := result + [score];
    }
    boosts := Some(result);
  }
}
