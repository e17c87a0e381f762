/** Scoring a batch of sign-ins: grouping, routing each row to a model, rule floors and flags. */
module SignInScoring {
  import opened Sequences
  import opened Ordering
  import opened SignInHistory
  import opened SignInHistoryFacts
  import opened SignInFeatures

  /** Model identifiers by user, the pooled model for users without one, and the models of sign-in times. */
  datatype Bundle = Bundle(perUser: map<string, string>, pooled: Option<string>, time: TimeModels)

  /** What the libraries compute. */
  datatype Libraries = Libraries(
    numerics: Numerics,
    decide: (string, FeatureRow) -> real,
    predict: (string, FeatureRow) -> int,
    normalise: real -> real,
    clock: Clock)

  datatype Tier = PerUser | ColdStartPooled | RuleOnly

  datatype AnomalyScore = AnomalyScore(
    signinId: string, userId: string, raw: real, normalised: real, isAnomaly: bool, tier: Tier)

  datatype Item = Item(signin: SignIn, history: UserHistory)

  const ANOMALY_THRESHOLD := 0.7

  // ---------------------------------------------------------------- row layout

  /** Users in the order in which the batch first mentions them. */
  function FirstMentions(signins: seq<SignIn>): seq<string> {
    if signins == [] then []
    else
      var users, userId := FirstMentions(signins[..|signins| - 1]), signins[|signins| - 1].userId;
      if userId in users then users else users + [userId]
  }

  function SortedUsers(signins: seq<SignIn>): seq<string> { Sort(FirstMentions(signins), LexLe) }

  function Block(signins: seq<SignIn>, userId: string): seq<SignIn> {
    SortByTime(Filter(signins, ByUser(userId)))
  }

  function Blocks(signins: seq<SignIn>, users: seq<string>): seq<SignIn> {
    if users == [] then []
    else Blocks(signins, users[..|users| - 1]) + Block(signins, users[|users| - 1])
  }

  /** Users alphabetically, each user's sign-ins by time. */
  function OrderedSignIns(signins: seq<SignIn>): seq<SignIn> { Blocks(signins, SortedUsers(signins)) }

  function ItemOf(signins: seq<SignIn>): SignIn -> Item {
    (s: SignIn) => Item(s, HistoryOf(Filter(signins, ByUser(s.userId)), s.at, WINDOW_DAYS))
  }

  method GroupByUser(signins: seq<SignIn>) returns (users: seq<string>, groups: map<string, seq<SignIn>>)
    ensures users == FirstMentions(signins)
    ensures groups.Keys == ToSet(users)
    ensures forall userId | userId in groups :: groups[userId] == Filter(signins, ByUser(userId))
  {
    users, groups := [], map[];
    for i := 0 to |signins|
      invariant users == FirstMentions(signins[..i])
      invariant groups.Keys == ToSet(users)
      invariant forall userId | userId in groups :: groups[userId] == Filter(signins[..i], ByUser(userId))
      invariant forall userId | userId !in groups :: Filter(signins[..i], ByUser(userId)) == []
    {
      var s := signins[i];
      assert signins[..i + 1][..i] == signins[..i];
      if s.userId in groups {
        groups := groups[s.userId := groups[s.userId] + [s]];
      } else {
        users := users + [s.userId];
        groups := groups[s.userId := [s]];
      }
    }
    assert signins[..|signins|] == signins;
  }

  lemma {:induction false} MentionsAreUsers(signins: seq<SignIn>)
    ensures forall userId :: userId in FirstMentions(signins) <==> exists s :: s in signins && s.userId == userId
    ensures NoDuplicates(FirstMentions(signins))
  {
    if signins == [] {
    } else {
      MentionsAreUsers(signins[..|signins| - 1]);
      assert signins == signins[..|signins| - 1] + [signins[|signins| - 1]];
    }
  }

  lemma SortedUsersAreUsers(signins: seq<SignIn>)
    ensures forall userId :: userId in SortedUsers(signins) <==> exists s :: s in signins && s.userId == userId
    ensures NoDuplicates(SortedUsers(signins))
  {
    MentionsAreUsers(signins);
    SortKeeps(FirstMentions(signins), LexLe);
    NoDuplicatesMultiset(FirstMentions(signins));
    NoDuplicatesMultiset(SortedUsers(signins));
  }

  /** Looking the history up in the sorted group is looking it up in the group. */
  lemma HistoryOfSortedGroup(group: seq<SignIn>, asOf: int)
    ensures HistoryOf(SortByTime(group), asOf, WINDOW_DAYS) == HistoryOf(group, asOf, WINDOW_DAYS)
  {
    TimeIsPreorder();
    SortFilter(group, NoLater, Before(asOf));
    SortIsSorted(Filter(group, Before(asOf)), NoLater);
    SortOfSorted(SortByTime(Filter(group, Before(asOf))), NoLater);
  }

  lemma BlockBelongsToUser(signins: seq<SignIn>, userId: string)
    ensures forall s | s in Block(signins, userId) :: s.userId == userId
  {
    SortKeeps(Filter(signins, ByUser(userId)), NoLater);
    FilterMembers(signins, ByUser(userId));
  }

  lemma ItemOfGroup(signins: seq<SignIn>, s: SignIn, history: UserHistory)
    requires history == HistoryOf(SortByTime(Filter(signins, ByUser(s.userId))), s.at, WINDOW_DAYS)
    ensures Item(s, history) == ItemOf(signins)(s)
  {
    HistoryOfSortedGroup(Filter(signins, ByUser(s.userId)), s.at);
  }

  function UserOf(s: SignIn): string { s.userId }

  /** One user's rows, in time order. */
  method GroupItems(signins: seq<SignIn>, userId: string, group: seq<SignIn>) returns (items: seq<Item>)
    requires group == Filter(signins, ByUser(userId))
    ensures items == Map(Block(signins, userId), ItemOf(signins))
  {
    items := [];
    var sortedGroup := SortByTime(group);
    BlockBelongsToUser(signins, userId);
    for j := 0 to |sortedGroup|
      invariant items == Map(sortedGroup[..j], ItemOf(signins))
    {
      var signin := sortedGroup[j];
      var history := BuildHistoryFromSignins(sortedGroup, signin.at, WINDOW_DAYS);
      var item := Item(signin, history);
      assert item == ItemOf(signins)(signin) by {
        assert signin in Block(signins, userId);
        ItemOfGroup(signins, signin, history);
      }
      ExtendMap(sortedGroup, j, ItemOf(signins));
      items := items + [item];
    }
    assert sortedGroup[..|sortedGroup|] == sortedGroup;
  }

  method BuildScoreItems(signins: seq<SignIn>) returns (items: seq<Item>, userIds: seq<string>)
    ensures items == Map(OrderedSignIns(signins), ItemOf(signins))
    ensures userIds == Map(OrderedSignIns(signins), UserOf)
  {
    var users, groups := GroupByUser(signins);
    items, userIds := [], [];
    var sortedUsers := Sort(users, LexLe);
    SortKeeps(users, LexLe);
    for k := 0 to |sortedUsers|
      invariant items == Map(Blocks(signins, sortedUsers[..k]), ItemOf(signins))
      invariant userIds == Map(Blocks(signins, sortedUsers[..k]), UserOf)
    {
      var userId := sortedUsers[k];
      assert userId in sortedUsers;
      var groupItems := GroupItems(signins, userId, groups[userId]);
      var groupUsers := seq(|groupItems|, i => userId);
      UsersOfBlock(signins, userId, groupUsers);
      NextBlock(signins, sortedUsers, k, ItemOf(signins), items, groupItems);
      NextBlock(signins, sortedUsers, k, UserOf, userIds, groupUsers);
      items := items + groupItems;
      userIds := userIds + groupUsers;
    }
    assert sortedUsers[..|sortedUsers|] == sortedUsers;
  }

  lemma UsersOfBlock(signins: seq<SignIn>, userId: string, users: seq<string>)
    requires |users| == |Block(signins, userId)| && forall i | 0 <= i < |users| :: users[i] == userId
    ensures users == Map(Block(signins, userId), UserOf)
  {
    BlockBelongsToUser(signins, userId);
    forall i | 0 <= i < |users|
      ensures users[i] == Map(Block(signins, userId), UserOf)[i]
    {
      assert Block(signins, userId)[i] in Block(signins, userId);
    }
  }

  lemma NextBlock<T>(signins: seq<SignIn>, users: seq<string>, k: nat, f: SignIn -> T, before: seq<T>, own: seq<T>)
    requires k < |users|
    requires before == Map(Blocks(signins, users[..k]), f) && own == Map(Block(signins, users[k]), f)
    ensures before + own == Map(Blocks(signins, users[..k + 1]), f)
  {
    BlocksSnoc(signins, users, k);
    MapAppend(Blocks(signins, users[..k]), Block(signins, users[k]), f);
  }

  lemma BlocksSnoc(signins: seq<SignIn>, users: seq<string>, k: nat)
    requires k < |users|
    ensures Blocks(signins, users[..k + 1]) == Blocks(signins, users[..k]) + Block(signins, users[k])
  {
    assert users[..k + 1][..k] == users[..k];
  }

  method BuildScoreFeatures(signins: seq<SignIn>, libraries: Libraries)
    returns (rows: seq<FeatureRow>, userIds: seq<string>)
    ensures |rows| == |userIds| == |OrderedSignIns(signins)|
    ensures forall i | 0 <= i < |rows| :: RowIs(signins, libraries, i, rows[i])
    ensures forall i | 0 <= i < |rows| :: userIds[i] == OrderedSignIns(signins)[i].userId
  {
    var items, users := BuildScoreItems(signins);
    userIds := users;
    rows := Map(items, (item: Item) => ExtractFeatures(item.signin, item.history, libraries.numerics));
  }

  predicate RowIs(signins: seq<SignIn>, libraries: Libraries, i: nat, row: FeatureRow)
    requires i < |OrderedSignIns(signins)|
  {
    row == RowOf(signins, libraries, OrderedSignIns(signins)[i])
  }

  function RowOf(signins: seq<SignIn>, libraries: Libraries, s: SignIn): FeatureRow {
    ExtractFeatures(s, ItemOf(signins)(s).history, libraries.numerics)
  }

  // ---------------------------------------------------------------- routing and scores

  /** The model a user's rows go to. */
  function RouteOf(bundle: Bundle, userId: string): Option<string> {
    if userId in bundle.perUser then Some(bundle.perUser[userId]) else bundle.pooled
  }

  function TierOf(bundle: Bundle, userId: string): Tier {
    if userId in bundle.perUser then PerUser else if bundle.pooled.Some? then ColdStartPooled else RuleOnly
  }

  method BundleScoreRows(bundle: Bundle, libraries: Libraries, rows: seq<FeatureRow>, userIds: seq<string>)
    returns (raw: seq<real>, tiers: seq<Tier>, predictions: seq<bool>)
    requires |rows| == |userIds|
    ensures |raw| == |tiers| == |predictions| == |rows|
    ensures forall i | 0 <= i < |rows| ::
              && tiers[i] == TierOf(bundle, userIds[i])
              && match RouteOf(bundle, userIds[i])
                 case None => raw[i] == 0.0 && !predictions[i]
                 case Some(model) =>
                   raw[i] == libraries.decide(model, rows[i])
                   && (predictions[i] <==> libraries.predict(model, rows[i]) == -1)
  {
    raw, tiers, predictions := [], [], [];
    for i := 0 to |userIds|
      invariant |raw| == |tiers| == |predictions| == i
      invariant forall j | 0 <= j < i ::
                  && tiers[j] == TierOf(bundle, userIds[j])
                  && match RouteOf(bundle, userIds[j])
                     case None => raw[j] == 0.0 && !predictions[j]
                     case Some(model) =>
                       raw[j] == libraries.decide(model, rows[j])
                       && (predictions[j] <==> libraries.predict(model, rows[j]) == -1)
    {
      var model: string;
      var tier: Tier;
      if userIds[i] in bundle.perUser {
        model, tier := bundle.perUser[userIds[i]], PerUser;
      } else if bundle.pooled.Some? {
        model, tier := bundle.pooled.value, ColdStartPooled;
      } else {
        raw, tiers, predictions := raw + [0.0], tiers + [RuleOnly], predictions + [false];
        continue;
      }
      var score := libraries.decide(model, rows[i]);
      var prediction := libraries.predict(model, rows[i]);
      raw, tiers, predictions := raw + [score], tiers + [tier], predictions + [prediction == -1];
    }
  }

  function ModelScore(bundle: Bundle, libraries: Libraries, userId: string, row: FeatureRow): real {
    match RouteOf(bundle, userId)
    case None => 0.0
    case Some(model) => libraries.normalise(libraries.decide(model, row))
  }

  predicate PredictedAnomalous(bundle: Bundle, libraries: Libraries, userId: string, row: FeatureRow) {
    match RouteOf(bundle, userId)
    case None => false
    case Some(model) => libraries.predict(model, row) == -1
  }

  /** `privileged` is empty when the caller switches the off-hours rule off; its flag has to be set besides. */
  datatype Switches = Switches(enableRules: bool, offHoursFlag: bool, privileged: set<string>)

  function WatchOf(bundle: Bundle, libraries: Libraries, switches: Switches): Watch {
    Watch(switches.offHoursFlag, Some(bundle.time), libraries.clock, switches.privileged)
  }

  /** The score of one sign-in: the larger of its own model score and its own rule floor. */
  function ScoreRow(bundle: Bundle, libraries: Libraries, switches: Switches, s: SignIn,
                    row: FeatureRow): AnomalyScore {
    var boost := if switches.enableRules
                 then BoostOf(row, Some(s.userId), WatchOf(bundle, libraries, switches)) else 0.0;
    var normalised := MaxReal(ModelScore(bundle, libraries, s.userId, row), boost);
    AnomalyScore(s.id, s.userId,
                 match RouteOf(bundle, s.userId) case None => 0.0 case Some(model) => libraries.decide(model, row),
                 normalised,
                 PredictedAnomalous(bundle, libraries, s.userId, row) || normalised >= ANOMALY_THRESHOLD,
                 TierOf(bundle, s.userId))
  }

  function ScoreIn(bundle: Bundle, libraries: Libraries, switches: Switches,
                   signins: seq<SignIn>): SignIn -> AnomalyScore {
    (s: SignIn) => ScoreRow(bundle, libraries, switches, s, RowOf(signins, libraries, s))
  }

  function Scores(bundle: Bundle, libraries: Libraries, switches: Switches, signins: seq<SignIn>): seq<AnomalyScore> {
    Map(OrderedSignIns(signins), ScoreIn(bundle, libraries, switches, signins))
  }

  /** The batch lays its rows out twice, independently; the pairing is exact. */
  method ScoreBatch(bundle: Bundle, libraries: Libraries, switches: Switches, signins: seq<SignIn>)
    returns (results: seq<AnomalyScore>)
    ensures results == Scores(bundle, libraries, switches, signins)
  {
    if signins == [] {
      return [];
    }
    var rows, userIds := BuildScoreFeatures(signins, libraries);
    var raw, tiers, predictions := BundleScoreRows(bundle, libraries, rows, userIds);
    var boosts: seq<real> := seq(|rows|, i => 0.0);
    if switches.enableRules {
      var computed := RuleScoreBoosts(rows, Some(userIds), WatchOf(bundle, libraries, switches));
      boosts := computed.value;
    }

    var sortedSignins := ReorderSignIns(signins);
    var normalised, flags := CombineScores(libraries, raw, tiers, predictions, boosts);
    results := AssembleScores(sortedSignins, raw, normalised, flags, tiers);
    forall i | 0 <= i < |results|
      ensures results[i] == ScoreIn(bundle, libraries, switches, signins)(sortedSignins[i])
    {
      assert RowIs(signins, libraries, i, rows[i]);
      ScoredAs(bundle, libraries, switches, sortedSignins[i], rows[i], raw[i], tiers[i], predictions[i], boosts[i]);
    }
  }

  method AssembleScores(signins: seq<SignIn>, raw: seq<real>, normalised: seq<real>, flags: seq<bool>, tiers: seq<Tier>)
    returns (results: seq<AnomalyScore>)
    requires |signins| == |raw| == |normalised| == |flags| == |tiers|
    ensures |results| == |signins|
    ensures forall i | 0 <= i < |signins| ::
              results[i] == AnomalyScore(signins[i].id, signins[i].userId, raw[i], normalised[i], flags[i], tiers[i])
  {
    results := [];
    for i := 0 to |signins|
      invariant |results| == i
      invariant forall j | 0 <= j < i ::
                  results[j] == AnomalyScore(signins[j].id, signins[j].userId, raw[j], normalised[j],
                                             flags[j], tiers[j])
    {
      results := results + [AnomalyScore(signins[i].id, signins[i].userId, raw[i], normalised[i], flags[i], tiers[i])];
    }
  }

  function Normalised(libraries: Libraries, raw: real, tier: Tier, boost: real): real {
    MaxReal(if tier.RuleOnly? then 0.0 else libraries.normalise(raw), boost)
  }

  method CombineScores(libraries: Libraries, raw: seq<real>, tiers: seq<Tier>, predictions: seq<bool>,
                       boosts: seq<real>)
    returns (normalisedScores: seq<real>, flags: seq<bool>)
    requires |raw| == |tiers| == |predictions| == |boosts|
    ensures |normalisedScores| == |flags| == |raw|
    ensures forall i | 0 <= i < |raw| ::
              && normalisedScores[i] == Normalised(libraries, raw[i], tiers[i], boosts[i])
              && flags[i] == (predictions[i] || normalisedScores[i] >= ANOMALY_THRESHOLD)
  {
    normalisedScores, flags := [], [];
    for i := 0 to |raw|
      invariant |normalisedScores| == |flags| == i
      invariant forall j | 0 <= j < i ::
                  && normalisedScores[j] == Normalised(libraries, raw[j], tiers[j], boosts[j])
                  && flags[j] == (predictions[j] || normalisedScores[j] >= ANOMALY_THRESHOLD)
    {
      var normalised := if tiers[i].RuleOnly? then 0.0 else libraries.normalise(raw[i]);
      normalised := MaxReal(normalised, boosts[i]);
      normalisedScores := normalisedScores + [normalised];
      flags := flags + [predictions[i] || normalised >= ANOMALY_THRESHOLD];
    }
  }

  lemma ScoredAs(bundle: Bundle, libraries: Libraries, switches: Switches, s: SignIn, row: FeatureRow,
                 raw: real, tier: Tier, prediction: bool, boost: real)
    requires tier == TierOf(bundle, s.userId)
    requires match RouteOf(bundle, s.userId)
             case None => raw == 0.0 && !prediction
             case Some(model) => raw == libraries.decide(model, row)
                                 && (prediction <==> libraries.predict(model, row) == -1)
    requires boost == if switches.enableRules
                      then BoostOf(row, Some(s.userId), WatchOf(bundle, libraries, switches)) else 0.0
    ensures var normalised := Normalised(libraries, raw, tier, boost);
            AnomalyScore(s.id, s.userId, raw, normalised, prediction || normalised >= ANOMALY_THRESHOLD, tier)
            == ScoreRow(bundle, libraries, switches, s, row)
  {
  }

  method ReorderSignIns(signins: seq<SignIn>) returns (ordered: seq<SignIn>)
    ensures ordered == OrderedSignIns(signins)
  {
    var users, groups := GroupByUser(signins);
    var sortedUsers := Sort(users, LexLe);
    SortKeeps(users, LexLe);
    ordered := [];
    for k := 0 to |sortedUsers|
      invariant ordered == Blocks(signins, sortedUsers[..k])
    {
      assert sortedUsers[k] in sortedUsers;
      BlocksSnoc(signins, sortedUsers, k);
      ordered := ordered + SortByTime(groups[sortedUsers[k]]);
    }
    assert sortedUsers[..|sortedUsers|] == sortedUsers;
  }
}
