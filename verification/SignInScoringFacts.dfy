/** The scored batch: a permutation of its input, isolated by user, raised by rules only, and exact
    about first sightings. */
module SignInScoringFacts {
  import opened Sequences
  import opened Ordering
  import opened SignInHistory
  import opened SignInHistoryFacts
  import opened SignInFeatures
  import opened SignInScoring

  // ---------------------------------------------------------------- permutation

  function AmongUsers(users: set<string>): SignIn -> bool { (s: SignIn) => s.userId in users }

  lemma {:induction false} BlocksHoldUsers(signins: seq<SignIn>, users: seq<string>)
    requires NoDuplicates(users)
    ensures multiset(Blocks(signins, users)) == multiset(Filter(signins, AmongUsers(ToSet(users))))
  {
    if users == [] {
      assert ToSet(users) == {};
      FilterNone(signins, AmongUsers(ToSet(users)));
    } else {
      var front, userId := users[..|users| - 1], users[|users| - 1];
      BlocksHoldUsers(signins, front);
      SortKeeps(Filter(signins, ByUser(userId)), NoLater);
      FilterMultiset(signins, ByUser(userId));
      FilterMultiset(signins, AmongUsers(ToSet(front)));
      FilterMultiset(signins, AmongUsers(ToSet(users)));
      forall s
        ensures multiset(Blocks(signins, users))[s] == multiset(Filter(signins, AmongUsers(ToSet(users))))[s]
      {
        assert s.userId in users <==> s.userId in front || s.userId == userId;
        assert userId !in front;
      }
    }
  }

  /** The rows are the batch's sign-ins, each exactly once. */
  lemma OrderedIsPermutation(signins: seq<SignIn>)
    ensures multiset(OrderedSignIns(signins)) == multiset(signins)
    ensures |OrderedSignIns(signins)| == |signins|
  {
    SortedUsersAreUsers(signins);
    BlocksHoldUsers(signins, SortedUsers(signins));
    FilterAll(signins, AmongUsers(ToSet(SortedUsers(signins))));
    assert |multiset(OrderedSignIns(signins))| == |OrderedSignIns(signins)|;
  }

  // ---------------------------------------------------------------- isolation

  lemma {:induction false} BlocksOfUser(signins: seq<SignIn>, users: seq<string>, userId: string)
    requires NoDuplicates(users)
    ensures Filter(Blocks(signins, users), ByUser(userId)) == if userId in users then Block(signins, userId) else []
  {
    if users == [] {
    } else {
      var front, last := users[..|users| - 1], users[|users| - 1];
      BlocksOfUser(signins, front, userId);
      FilterAppend(Blocks(signins, front), Block(signins, last), ByUser(userId));
      BlockBelongsToUser(signins, last);
      if last == userId {
        assert userId !in front;
        FilterAll(Block(signins, last), ByUser(userId));
      } else {
        FilterNone(Block(signins, last), ByUser(userId));
        assert userId in users <==> userId in front;
      }
    }
  }

  lemma UserRows(signins: seq<SignIn>, userId: string)
    ensures Filter(OrderedSignIns(signins), ByUser(userId)) == Block(signins, userId)
  {
    SortedUsersAreUsers(signins);
    BlocksOfUser(signins, SortedUsers(signins), userId);
    if userId !in SortedUsers(signins) {
      FilterNone(signins, ByUser(userId));
    }
  }

  lemma {:induction false} SoleUserRows(signins: seq<SignIn>, userId: string)
    requires forall s | s in signins :: s.userId == userId
    ensures OrderedSignIns(signins) == Block(signins, userId)
  {
    UserRows(signins, userId);
    OrderedIsPermutation(signins);
    forall s | s in OrderedSignIns(signins)
      ensures s.userId == userId
    {
      assert s in multiset(signins);
    }
    FilterAll(OrderedSignIns(signins), ByUser(userId));
  }

  function OfUser(userId: string): AnomalyScore -> bool { (score: AnomalyScore) => score.userId == userId }

  lemma {:induction false} FilterMapped(rows: seq<SignIn>, score: SignIn -> AnomalyScore, userId: string)
    requires forall s :: score(s).userId == s.userId
    ensures Filter(Map(rows, score), OfUser(userId)) == Map(Filter(rows, ByUser(userId)), score)
  {
    if rows == [] {
    } else {
      var front := rows[..|rows| - 1];
      FilterMapped(front, score, userId);
      assert Map(rows, score)[..|rows| - 1] == Map(front, score);
    }
  }

  /** A user's results are those of scoring that user's sign-ins alone. */
  lemma {:induction false} ScoringIsIsolatedByUser(bundle: Bundle, libraries: Libraries, switches: Switches,
                                                   signins: seq<SignIn>,
                                userId: string)
    ensures Filter(Scores(bundle, libraries, switches, signins), OfUser(userId))
            == Scores(bundle, libraries, switches, Filter(signins, ByUser(userId)))
  {
    var own := Filter(signins, ByUser(userId));
    FilterMapped(OrderedSignIns(signins), ScoreIn(bundle, libraries, switches, signins), userId);
    UserRows(signins, userId);
    FilterMembers(signins, ByUser(userId));
    FilterAll(own, ByUser(userId));
    SoleUserRows(own, userId);
    BlockBelongsToUser(signins, userId);
    forall i | 0 <= i < |Block(signins, userId)|
      ensures ScoreIn(bundle, libraries, switches, signins)(Block(signins, userId)[i])
              == ScoreIn(bundle, libraries, switches, own)(Block(signins, userId)[i])
    {
      assert Block(signins, userId)[i] in Block(signins, userId);
    }
  }

  /** A row's features and score look at the user's strictly earlier sign-ins only. */
  lemma {:induction false} ScoringIsCausal(bundle: Bundle, libraries: Libraries, switches: Switches,
                        small: seq<SignIn>, big: seq<SignIn>, s: SignIn)
    requires Extends(small, big, Irrelevant(s.userId, s.at))
    ensures RowOf(small, libraries, s) == RowOf(big, libraries, s)
    ensures ScoreIn(bundle, libraries, switches, small)(s) == ScoreIn(bundle, libraries, switches, big)(s)
  {
    AddedSignInsAreInvisible(small, big, s.userId, s.at, WINDOW_DAYS);
  }

  // ---------------------------------------------------------------- order of the rows

  /** Rows stand by user alphabetically, and by time within a user. */
  lemma {:induction false} RowsAreInOrder(signins: seq<SignIn>, ordered: seq<SignIn>, i: nat, j: nat)
    requires ordered == OrderedSignIns(signins) && i < j < |ordered|
    ensures LexLe(ordered[i].userId, ordered[j].userId)
    ensures ordered[i].userId == ordered[j].userId ==> ordered[i].at <= ordered[j].at
  {
    LexIsOrder();
    SortIsSorted(FirstMentions(signins), LexLe);
    SortedUsersAreUsers(signins);
    BlocksAreInOrder(signins, SortedUsers(signins), i, j);
  }

  lemma BlockIsInOrder(signins: seq<SignIn>, userId: string)
    ensures forall s | s in Block(signins, userId) :: s.userId == userId
    ensures SortedBy(Block(signins, userId), NoLater)
  {
    BlockBelongsToUser(signins, userId);
    TimeIsPreorder();
    SortIsSorted(Filter(signins, ByUser(userId)), NoLater);
  }

  lemma {:induction false} BlocksNameUsers(signins: seq<SignIn>, users: seq<string>)
    ensures forall s | s in Blocks(signins, users) :: s.userId in users
  {
    if users == [] {
    } else {
      BlocksNameUsers(signins, users[..|users| - 1]);
      BlockIsInOrder(signins, users[|users| - 1]);
    }
  }

  lemma {:induction false} BlocksAreInOrder(signins: seq<SignIn>, users: seq<string>, i: nat, j: nat)
    requires SortedBy(users, LexLe) && NoDuplicates(users) && TotalPreorder(LexLe)
    requires i < j < |Blocks(signins, users)|
    ensures var rows := Blocks(signins, users);
            && LexLe(rows[i].userId, rows[j].userId)
            && (rows[i].userId == rows[j].userId ==> rows[i].at <= rows[j].at)
  {
    var n := |users| - 1;
    var before, own := Blocks(signins, users[..n]), Block(signins, users[n]);
    var rows := before + own;
    assert rows == Blocks(signins, users);
    BlockIsInOrder(signins, users[n]);
    if j < |before| {
      BlocksAreInOrder(signins, users[..n], i, j);
    } else {
      assert rows[j] == own[j - |before|] && own[j - |before|] in own;
      if i < |before| {
        BlocksNameUsers(signins, users[..n]);
        assert rows[i] in before;
        LastNameIsLargest(users, rows[i].userId);
      } else {
        assert rows[i] == own[i - |before|] && own[i - |before|] in own;
        assert OrderLaws(LexLe, users[n], users[n], users[n]);
        assert NoLater(own[i - |before|], own[j - |before|]);
      }
    }
  }

  lemma LastNameIsLargest(users: seq<string>, name: string)
    requires SortedBy(users, LexLe) && NoDuplicates(users) && users != []
    requires name in users[..|users| - 1]
    ensures LexLe(name, users[|users| - 1]) && name != users[|users| - 1]
  {
    var k :| 0 <= k < |users| - 1 && users[k] == name;
  }

  // ---------------------------------------------------------------- routing

  /** A sign-in is scored by its user's own model when there is one, else by the pooled model, else by the rules. */
  lemma {:induction false} OwnModelComesFirst(bundle: Bundle, libraries: Libraries, switches: Switches,
                                              signins: seq<SignIn>, i: nat, s: SignIn, row: FeatureRow)
    requires i < |OrderedSignIns(signins)| && s == OrderedSignIns(signins)[i] && row == RowOf(signins, libraries, s)
    ensures |Scores(bundle, libraries, switches, signins)| == |OrderedSignIns(signins)|
    ensures var result := Scores(bundle, libraries, switches, signins)[i];
            && (s.userId in bundle.perUser ==>
                  result.tier == PerUser && result.raw == libraries.decide(bundle.perUser[s.userId], row)
                  && (libraries.predict(bundle.perUser[s.userId], row) == -1 ==> result.isAnomaly))
            && (s.userId !in bundle.perUser && bundle.pooled.Some? ==>
                  result.tier == ColdStartPooled && result.raw == libraries.decide(bundle.pooled.value, row)
                  && (libraries.predict(bundle.pooled.value, row) == -1 ==> result.isAnomaly))
            && (s.userId !in bundle.perUser && bundle.pooled.None? ==>
                  result.tier == RuleOnly && result.raw == 0.0
                  && (result.isAnomaly <==> result.normalised >= ANOMALY_THRESHOLD))
  {
  }

  /** What a bundle holds for other users, and a pooled model beside a user's own, makes no difference to a score. */
  lemma {:induction false} OtherModelsAreIrrelevant(one: Bundle, other: Bundle, libraries: Libraries,
                                                    switches: Switches, signins: seq<SignIn>, s: SignIn)
    requires one.time == other.time
    requires s.userId in one.perUser <==> s.userId in other.perUser
    requires s.userId in one.perUser ==> one.perUser[s.userId] == other.perUser[s.userId]
    requires s.userId !in one.perUser ==> one.pooled == other.pooled
    ensures ScoreIn(one, libraries, switches, signins)(s) == ScoreIn(other, libraries, switches, signins)(s)
  {
  }

  // ---------------------------------------------------------------- rules

  /** Every score is the larger of its own model score and, with rules on, its own rule floor; it is
      flagged when predicted or at the threshold; and switching rules on lowers and clears nothing. */
  lemma {:induction false} RulesOnlyRaise(bundle: Bundle, libraries: Libraries, rules: Switches, signins: seq<SignIn>,
                                          i: nat)
    requires i < |signins| && rules.enableRules
    requires forall x :: libraries.normalise(x) >= 0.0
    ensures |Scores(bundle, libraries, rules, signins)| == |signins|
    ensures |Scores(bundle, libraries, rules.(enableRules := false), signins)| == |signins|
    ensures var on := Scores(bundle, libraries, rules, signins)[i];
            var off := Scores(bundle, libraries, rules.(enableRules := false), signins)[i];
            var s := OrderedSignIns(signins)[i];
            var row := RowOf(signins, libraries, s);
            && off.normalised == ModelScore(bundle, libraries, s.userId, row)
            && on.normalised
               == MaxReal(off.normalised, BoostOf(row, Some(s.userId), WatchOf(bundle, libraries, rules)))
            && (forall rule | Fires(rule, row) :: on.normalised >= FloorOf(rule))
            && (off.isAnomaly ==> on.isAnomaly)
            && (on.isAnomaly && !off.isAnomaly ==> on.normalised >= ANOMALY_THRESHOLD)
            && on.(normalised := off.normalised, isAnomaly := off.isAnomaly) == off
  {
    OrderedIsPermutation(signins);
    StrongestFloorIsStrongest(RowOf(signins, libraries, OrderedSignIns(signins)[i]));
  }

  // ---------------------------------------------------------------- first sightings

  /** Whether the row of `s` reports its value of `f` as new, given what was seen before. */
  function NewnessIn(signins: seq<SignIn>, f: SignIn -> Option<string>): SignIn -> int {
    (s: SignIn) => IsNew(f(s), ToSet(Collect(SortByTime(Filter(Filter(signins, ByUser(s.userId)), Before(s.at))), f)))
  }

  /** A strictly earlier sign-in of the same user had the same value. */
  ghost predicate HadEarlier(signins: seq<SignIn>, f: SignIn -> Option<string>, s: SignIn) {
    exists r :: r in signins && r.userId == s.userId && r.at < s.at && f(r) == f(s)
  }

  lemma {:induction false} NewnessMeansFirstSeen(signins: seq<SignIn>, f: SignIn -> Option<string>, s: SignIn)
    ensures NewnessIn(signins, f)(s) == if f(s).Some? && !HadEarlier(signins, f, s) then 1 else 0
  {
    if f(s).Some? {
      EarlierMembers(Filter(signins, ByUser(s.userId)), s.at, f, f(s).value);
      EarlierOfUser(signins, f, s);
    }
  }

  lemma EarlierOfUser(signins: seq<SignIn>, f: SignIn -> Option<string>, s: SignIn)
    requires f(s).Some?
    ensures SeenBefore(Filter(signins, ByUser(s.userId)), s.at, f, f(s).value) <==> HadEarlier(signins, f, s)
  {
    FilterMembers(signins, ByUser(s.userId));
    if r :| r in signins && r.userId == s.userId && r.at < s.at && f(r) == f(s) {
      assert r in Filter(signins, ByUser(s.userId));
    }
  }

  function Values(rows: seq<SignIn>, f: SignIn -> Option<string>): set<string> { ToSet(Collect(rows, f)) }

  /** Row `k` is reported new although an earlier row of the list had its value. */
  ghost predicate RepeatsFirstSighting(rows: seq<SignIn>, f: SignIn -> Option<string>, isNew: SignIn -> int, k: int) {
    0 <= k < |rows| && isNew(rows[k]) == 1 && exists j :: 0 <= j < k && f(rows[j]) == f(rows[k])
  }

  /** `isNew` marks rows with a value only, and every row whose value is new to the list. */
  ghost predicate MarksUnseen(rows: seq<SignIn>, f: SignIn -> Option<string>, isNew: SignIn -> int) {
    forall k | 0 <= k < |rows| ::
      && isNew(rows[k]) in {0, 1}
      && (isNew(rows[k]) == 1 ==> f(rows[k]).Some?)
      && (f(rows[k]).Some? && (forall j | 0 <= j < k :: f(rows[j]) != f(rows[k])) ==> isNew(rows[k]) == 1)
  }

  lemma ValuesGrow(rows: seq<SignIn>, f: SignIn -> Option<string>, s: SignIn)
    ensures |Values(rows + [s], f)|
            == |Values(rows, f)| + if f(s).Some? && f(s).value !in Values(rows, f) then 1 else 0
  {
    CollectSnoc(rows, s, f);
  }

  lemma ValueSeenInFront(rows: seq<SignIn>, f: SignIn -> Option<string>, k: nat)
    requires k < |rows| && f(rows[k]).Some?
    ensures f(rows[k]).value in Values(rows[..k], f) <==> exists j :: 0 <= j < k && f(rows[j]) == f(rows[k])
  {
    CollectMembers(rows[..k], f, f(rows[k]).value);
    SeenInFront(rows, f, k);
  }

  /** One row adds one distinct value exactly when it is marked and does not repeat. */
  lemma MarksStep(rows: seq<SignIn>, f: SignIn -> Option<string>, isNew: SignIn -> int, n: nat)
    requires 0 < n <= |rows| && MarksUnseen(rows, f, isNew)
    ensures SumInt(rows[..n], isNew) == SumInt(rows[..n - 1], isNew) + isNew(rows[n - 1])
    ensures |Values(rows[..n], f)|
            == |Values(rows[..n - 1], f)|
               + if RepeatsFirstSighting(rows, f, isNew, n - 1) then 0 else isNew(rows[n - 1])
  {
    assert rows[..n][..n - 1] == rows[..n - 1];
    assert rows[..n] == rows[..n - 1] + [rows[n - 1]];
    ValuesGrow(rows[..n - 1], f, rows[n - 1]);
    if f(rows[n - 1]).Some? {
      ValueSeenInFront(rows, f, n - 1);
    }
    assert isNew(rows[n - 1]) in {0, 1};
  }

  ghost function RepeatCount(rows: seq<SignIn>, f: SignIn -> Option<string>, isNew: SignIn -> int, n: nat): nat {
    if n == 0 then 0
    else RepeatCount(rows, f, isNew, n - 1) + if RepeatsFirstSighting(rows, f, isNew, n - 1) then 1 else 0
  }

  lemma {:induction false} MarksCount(rows: seq<SignIn>, f: SignIn -> Option<string>, isNew: SignIn -> int, n: nat)
    requires n <= |rows| && MarksUnseen(rows, f, isNew)
    ensures SumInt(rows[..n], isNew) == |Values(rows[..n], f)| + RepeatCount(rows, f, isNew, n)
  {
    if n == 0 {
      assert Values(rows[..0], f) == {};
    } else {
      MarksCount(rows, f, isNew, n - 1);
      MarksStep(rows, f, isNew, n);
    }
  }

  lemma {:induction false} NoRepeats(rows: seq<SignIn>, f: SignIn -> Option<string>, isNew: SignIn -> int, n: nat)
    ensures RepeatCount(rows, f, isNew, n) == 0 <==> forall k | 0 <= k < n :: !RepeatsFirstSighting(rows, f, isNew, k)
  {
    if n == 0 {
    } else {
      NoRepeats(rows, f, isNew, n - 1);
    }
  }

  lemma SeenInFront(rows: seq<SignIn>, f: SignIn -> Option<string>, k: nat)
    requires k < |rows| && f(rows[k]).Some?
    ensures (exists i :: 0 <= i < |rows[..k]| && f(rows[..k][i]) == Some(f(rows[k]).value))
            <==> exists j :: 0 <= j < k && f(rows[j]) == f(rows[k])
  {
    if j :| 0 <= j < k && f(rows[j]) == f(rows[k]) {
      assert f(rows[..k][j]) == Some(f(rows[k]).value);
    }
    if i :| 0 <= i < |rows[..k]| && f(rows[..k][i]) == Some(f(rows[k]).value) {
      assert f(rows[i]) == f(rows[k]);
    }
  }

  /** A user's rows are in time order and are that user's sign-ins. */
  lemma BlockIsSortedGroup(signins: seq<SignIn>, userId: string)
    ensures SortedBy(Block(signins, userId), NoLater)
    ensures forall s :: s in Block(signins, userId) <==> s in signins && s.userId == userId
  {
    TimeIsPreorder();
    SortIsSorted(Filter(signins, ByUser(userId)), NoLater);
    SortKeeps(Filter(signins, ByUser(userId)), NoLater);
    FilterMembers(signins, ByUser(userId));
  }

  lemma NewnessMarksUnseen(signins: seq<SignIn>, userId: string, f: SignIn -> Option<string>)
    ensures MarksUnseen(Block(signins, userId), f, NewnessIn(signins, f))
  {
    var rows := Block(signins, userId);
    BlockIsSortedGroup(signins, userId);
    forall k | 0 <= k < |rows|
      ensures NewnessIn(signins, f)(rows[k]) in {0, 1}
      ensures NewnessIn(signins, f)(rows[k]) == 1 ==> f(rows[k]).Some?
      ensures f(rows[k]).Some? && (forall j | 0 <= j < k :: f(rows[j]) != f(rows[k]))
              ==> NewnessIn(signins, f)(rows[k]) == 1
    {
      NewnessMeansFirstSeen(signins, f, rows[k]);
      assert rows[k] in rows;
      if HadEarlier(signins, f, rows[k]) {
        EarlierRow(signins, userId, f, rows, k);
      }
    }
  }

  lemma EarlierRow(signins: seq<SignIn>, userId: string, f: SignIn -> Option<string>, rows: seq<SignIn>, k: nat)
    requires SortedBy(rows, NoLater) && k < |rows| && rows[k].userId == userId
    requires forall s :: s in rows <==> s in signins && s.userId == userId
    requires HadEarlier(signins, f, rows[k])
    ensures exists j :: 0 <= j < k && f(rows[j]) == f(rows[k])
  {
    var r :| r in signins && r.userId == userId && r.at < rows[k].at && f(r) == f(rows[k]);
    assert r in rows;
    var j :| 0 <= j < |rows| && rows[j] == r;
    assert k < j ==> NoLater(rows[k], rows[j]);
  }

  /** Row `k` shows a first sighting that an earlier row of the user shows too, at the same moment. */
  ghost predicate TiedFirstSighting(signins: seq<SignIn>, rows: seq<SignIn>, f: SignIn -> Option<string>, k: int) {
    && 0 <= k < |rows| && f(rows[k]).Some? && !HadEarlier(signins, f, rows[k])
    && exists j :: 0 <= j < k && rows[j].at == rows[k].at && f(rows[j]) == f(rows[k])
  }

  ghost function TiedCount(signins: seq<SignIn>, rows: seq<SignIn>, f: SignIn -> Option<string>, n: nat): nat {
    if n == 0 then 0
    else TiedCount(signins, rows, f, n - 1) + if TiedFirstSighting(signins, rows, f, n - 1) then 1 else 0
  }

  /** Only rows of the same moment can show one value for the first time twice. */
  lemma RepeatsAreTies(signins: seq<SignIn>, userId: string, f: SignIn -> Option<string>, rows: seq<SignIn>, k: int)
    requires rows == Block(signins, userId)
    ensures RepeatsFirstSighting(rows, f, NewnessIn(signins, f), k) <==> TiedFirstSighting(signins, rows, f, k)
  {
    BlockIsSortedGroup(signins, userId);
    if 0 <= k < |rows| {
      NewnessMeansFirstSeen(signins, f, rows[k]);
      forall j | 0 <= j < k && f(rows[j]) == f(rows[k])
        ensures rows[j].at == rows[k].at || HadEarlier(signins, f, rows[k])
      {
        assert rows[j] in rows && rows[k] in rows;
        assert NoLater(rows[j], rows[k]);
      }
    }
  }

  lemma {:induction false} RepeatsCountTies(signins: seq<SignIn>, f: SignIn -> Option<string>, rows: seq<SignIn>,
                                            isNew: SignIn -> int, n: nat)
    requires forall k :: RepeatsFirstSighting(rows, f, isNew, k) <==> TiedFirstSighting(signins, rows, f, k)
    ensures RepeatCount(rows, f, isNew, n) == TiedCount(signins, rows, f, n)
  {
    if n == 0 {
    } else {
      RepeatsCountTies(signins, f, rows, isNew, n - 1);
    }
  }

  lemma {:induction false} NewnessSums(signins: seq<SignIn>, userId: string, f: SignIn -> Option<string>,
                                       rows: seq<SignIn>)
    requires rows == Block(signins, userId)
    ensures SumInt(rows, NewnessIn(signins, f)) == |Values(rows, f)| + TiedCount(signins, rows, f, |rows|)
    ensures SumInt(rows, NewnessIn(signins, f)) == |Values(rows, f)|
            <==> forall k :: !TiedFirstSighting(signins, rows, f, k)
  {
    var isNew := NewnessIn(signins, f);
    NewnessMarksUnseen(signins, userId, f);
    MarksCount(rows, f, isNew, |rows|);
    NoRepeats(rows, f, isNew, |rows|);
    assert rows[..|rows|] == rows;
    forall k
      ensures RepeatsFirstSighting(rows, f, isNew, k) <==> TiedFirstSighting(signins, rows, f, k)
    {
      RepeatsAreTies(signins, userId, f, rows, k);
    }
    RepeatsCountTies(signins, f, rows, isNew, |rows|);
  }

  // ---------------------------------------------------------------- the three seen-before columns

  datatype SeenColumn = NewDevice | NewBrowser | NewOs

  function SourceOf(column: SeenColumn): SignIn -> Option<string> {
    match column
    case NewDevice => DeviceOf
    case NewBrowser => BrowserOf
    case NewOs => OsOf
  }

  /** What the batch's feature rows have in the column. */
  function ColumnIn(signins: seq<SignIn>, libraries: Libraries, column: SeenColumn): SignIn -> int {
    (s: SignIn) =>
      match column
      case NewDevice => RowOf(signins, libraries, s).isNewDevice
      case NewBrowser => RowOf(signins, libraries, s).isNewBrowser
      case NewOs => RowOf(signins, libraries, s).isNewOs
  }

  lemma ColumnsReportNewness(signins: seq<SignIn>, libraries: Libraries, column: SeenColumn, s: SignIn)
    ensures ColumnIn(signins, libraries, column)(s) == NewnessIn(signins, SourceOf(column))(s)
  {
  }

  /** A value is reported new exactly when it is present and no strictly earlier sign-in of the user had it. */
  lemma {:induction false} NewMeansFirstSeen(signins: seq<SignIn>, libraries: Libraries, column: SeenColumn, s: SignIn)
    ensures ColumnIn(signins, libraries, column)(s)
            == if SourceOf(column)(s).Some? && !HadEarlier(signins, SourceOf(column), s) then 1 else 0
  {
    ColumnsReportNewness(signins, libraries, column, s);
    NewnessMeansFirstSeen(signins, SourceOf(column), s);
  }

  lemma {:induction false} ColumnSums(signins: seq<SignIn>, libraries: Libraries, column: SeenColumn, rows: seq<SignIn>)
    ensures SumInt(rows, ColumnIn(signins, libraries, column)) == SumInt(rows, NewnessIn(signins, SourceOf(column)))
  {
    if rows == [] {
    } else {
      ColumnSums(signins, libraries, column, rows[..|rows| - 1]);
      ColumnsReportNewness(signins, libraries, column, rows[|rows| - 1]);
    }
  }

  /**
   * Per user a column sums to the number of distinct values plus one for every row that shows a first sighting
   * already shown at the same moment; so it is exact when and only when there is no such tie.
   */
  lemma {:induction false} NewnessCountsDistinctValues(signins: seq<SignIn>, libraries: Libraries, column: SeenColumn,
                                                       userId: string, rows: seq<SignIn>, f: SignIn -> Option<string>)
    requires rows == Block(signins, userId) && f == SourceOf(column)
    ensures SumInt(rows, ColumnIn(signins, libraries, column))
            == |Values(rows, f)| + TiedCount(signins, rows, f, |rows|)
    ensures SumInt(rows, ColumnIn(signins, libraries, column)) == |Values(rows, f)|
            <==> forall k :: !TiedFirstSighting(signins, rows, f, k)
  {
    ColumnSums(signins, libraries, column, rows);
    NewnessSums(signins, userId, f, rows);
  }

  /** With distinct timestamps the sum is exact. */
  lemma {:induction false} DistinctTimesCountExactly(signins: seq<SignIn>, libraries: Libraries, column: SeenColumn,
                                                     userId: string, rows: seq<SignIn>)
    requires rows == Block(signins, userId)
    requires forall i, j | 0 <= i < j < |rows| :: rows[i].at != rows[j].at
    ensures SumInt(rows, ColumnIn(signins, libraries, column)) == |Values(rows, SourceOf(column))|
  {
    NewnessCountsDistinctValues(signins, libraries, column, userId, rows, SourceOf(column));
  }

  // ---------------------------------------------------------------- what a result says

  function ResultOf(score: AnomalyScore): (string, string) { (score.signinId, score.userId) }

  function IdentityOf(s: SignIn): (string, string) { (s.id, s.userId) }

  /** The results are about the batch's sign-ins, each exactly once. */
  lemma {:induction false} ResultsCoverTheBatch(bundle: Bundle, libraries: Libraries, switches: Switches,
                                                signins: seq<SignIn>)
    ensures multiset(Map(Scores(bundle, libraries, switches, signins), ResultOf)) == multiset(Map(signins, IdentityOf))
  {
    OrderedIsPermutation(signins);
    MapMultiset(OrderedSignIns(signins), signins, IdentityOf);
    assert Map(Scores(bundle, libraries, switches, signins), ResultOf) == Map(OrderedSignIns(signins), IdentityOf);
  }

  /** An earlier sign-in of the same user inside the window had the same value. */
  ghost predicate HadRecent<T(!new)>(signins: seq<SignIn>, f: SignIn -> Option<T>, s: SignIn) {
    exists r :: r in signins && r.userId == s.userId && s.at - WINDOW_DAYS * DAY <= r.at < s.at && f(r) == f(s)
  }

  function Recent(signins: seq<SignIn>, s: SignIn): seq<SignIn> {
    SortByTime(Filter(Filter(signins, ByUser(s.userId)), InWindow(s.at - WINDOW_DAYS * DAY, s.at)))
  }

  lemma FilteredTwice(signins: seq<SignIn>, p: SignIn -> bool, q: SignIn -> bool, r: SignIn)
    ensures r in SortByTime(Filter(Filter(signins, p), q)) <==> r in signins && p(r) && q(r)
  {
    FilterMembers(signins, p);
    FilterMembers(Filter(signins, p), q);
    SortKeeps(Filter(Filter(signins, p), q), NoLater);
  }

  lemma RecentAre(signins: seq<SignIn>, s: SignIn, r: SignIn)
    ensures r in Recent(signins, s)
            <==> r in signins && r.userId == s.userId && s.at - WINDOW_DAYS * DAY <= r.at < s.at
  {
    FilteredTwice(signins, ByUser(s.userId), InWindow(s.at - WINDOW_DAYS * DAY, s.at), r);
  }

  lemma RecentMembers<T(!new)>(signins: seq<SignIn>, f: SignIn -> Option<T>, s: SignIn, recent: seq<SignIn>)
    requires f(s).Some? && recent == Recent(signins, s)
    ensures f(s).value in Collect(recent, f) <==> HadRecent(signins, f, s)
  {
    CollectMembers(recent, f, f(s).value);
    if i :| 0 <= i < |recent| && f(recent[i]) == Some(f(s).value) {
      RecentAre(signins, s, recent[i]);
      assert recent[i] in signins;
    }
    if r :| r in signins && r.userId == s.userId && s.at - WINDOW_DAYS * DAY <= r.at < s.at && f(r) == f(s) {
      RecentAre(signins, s, r);
      var i :| 0 <= i < |recent| && recent[i] == r;
    }
  }

  lemma ColumnsOfHistory(signins: seq<SignIn>, libraries: Libraries, s: SignIn, row: FeatureRow, history: UserHistory)
    requires row == RowOf(signins, libraries, s)
    requires history == HistoryOf(Filter(signins, ByUser(s.userId)), s.at, WINDOW_DAYS)
    ensures row.isNewCountry == IsNew(CountryOf(s), ToSet(history.countries))
    ensures row.isNewAsn == IsNew(AsnOf(s), ToSet(history.asns))
  {
  }

  lemma ListsAreRecent(signins: seq<SignIn>, s: SignIn, history: UserHistory, recent: seq<SignIn>)
    requires history == HistoryOf(Filter(signins, ByUser(s.userId)), s.at, WINDOW_DAYS) && recent == Recent(signins, s)
    ensures history.countries == Collect(recent, CountryOf) && history.asns == Collect(recent, AsnOf)
  {
    WindowedLists(Filter(signins, ByUser(s.userId)), s.at, s.at - WINDOW_DAYS * DAY, WINDOW_DAYS, recent);
  }

  lemma IsNewMeansNotRecent<T(!new)>(signins: seq<SignIn>, f: SignIn -> Option<T>, s: SignIn, recent: seq<SignIn>)
    requires recent == Recent(signins, s)
    ensures IsNew(f(s), ToSet(Collect(recent, f))) == if f(s).Some? && !HadRecent(signins, f, s) then 1 else 0
  {
    if f(s).Some? {
      RecentMembers(signins, f, s, recent);
    }
  }

  /** A country or network is new exactly when it is known and the user did not show it in the thirty days before. */
  lemma {:induction false} NewPlaceMeansNotRecent(signins: seq<SignIn>, libraries: Libraries, s: SignIn,
                                                  row: FeatureRow)
    requires row == RowOf(signins, libraries, s)
    ensures row.isNewCountry == if CountryOf(s).Some? && !HadRecent(signins, CountryOf, s) then 1 else 0
    ensures row.isNewAsn == if AsnOf(s).Some? && !HadRecent(signins, AsnOf, s) then 1 else 0
  {
    var history := HistoryOf(Filter(signins, ByUser(s.userId)), s.at, WINDOW_DAYS);
    var recent := Recent(signins, s);
    ColumnsOfHistory(signins, libraries, s, row, history);
    ListsAreRecent(signins, s, history, recent);
    IsNewMeansNotRecent(signins, CountryOf, s, recent);
    IsNewMeansNotRecent(signins, AsnOf, s, recent);
  }

  // ---------------------------------------------------------------- what the rules look at

  /** The value is known and on no sign-in of the user in the thirty days before. */
  ghost predicate Unseen<T(!new)>(signins: seq<SignIn>, f: SignIn -> Option<T>, s: SignIn) {
    && f(s).Some?
    && forall r | r in signins && r.userId == s.userId && s.at - 30 * (24 * 60 * 60 * 1_000_000) <= r.at < s.at ::
         f(r) != f(s)
  }

  predicate InLegacyClient(s: SignIn) {
    || s.clientApp in {"Other", "ExchangeActiveSync", "AutoDiscover"}
    || (s.interactive == Some(false) && s.authRequirement == "singleFactorAuthentication")
  }

  /** What a rule is about, read off the sign-ins themselves. */
  ghost predicate Suspicious(signins: seq<SignIn>, libraries: Libraries, s: SignIn, rule: Rule) {
    match rule
    case Travel => libraries.numerics(s, HistoryOf(Filter(signins, ByUser(s.userId)), s.at, 30)).0 > 1500.0
    case NewCountryAndAsn => Unseen(signins, CountryOf, s) && Unseen(signins, AsnOf, s)
    case FailureAndNewAsn =>
      && s.status.Some? && s.status.value.errorCode.Some? && s.status.value.errorCode.value != 0
      && Unseen(signins, AsnOf, s)
    case MfaBypassLegacy => s.authRequirement != "multiFactorAuthentication" && InLegacyClient(s)
  }

  /** Each rule fires on the row of a sign-in exactly when the sign-ins show what it is about. */
  lemma {:induction false} RulesReadTheSignIns(signins: seq<SignIn>, libraries: Libraries, s: SignIn, rule: Rule)
    ensures Fires(rule, RowOf(signins, libraries, s)) <==> Suspicious(signins, libraries, s, rule)
  {
    NewPlaceMeansNotRecent(signins, libraries, s, RowOf(signins, libraries, s));
    UnseenMeansNotRecent(signins, CountryOf, s);
    UnseenMeansNotRecent(signins, AsnOf, s);
  }

  lemma UnseenMeansNotRecent<T(!new)>(signins: seq<SignIn>, f: SignIn -> Option<T>, s: SignIn)
    ensures Unseen(signins, f, s) <==> f(s).Some? && !HadRecent(signins, f, s)
  {
  }

  /** With rules on, what is suspicious about a sign-in puts a floor under its score: 0.95 for impossible travel, 0.85
      for a new country and network and for a failure on a new network, 0.8 for a legacy client without MFA; so each
      of them flags it. */
  lemma {:induction false} SuspicionIsScored(bundle: Bundle, libraries: Libraries, rules: Switches,
                                             signins: seq<SignIn>, s: SignIn, score: AnomalyScore)
    requires rules.enableRules && score == ScoreIn(bundle, libraries, rules, signins)(s)
    ensures Suspicious(signins, libraries, s, Travel) ==> score.normalised >= 0.95
    ensures Suspicious(signins, libraries, s, NewCountryAndAsn) ==> score.normalised >= 0.85
    ensures Suspicious(signins, libraries, s, FailureAndNewAsn) ==> score.normalised >= 0.85
    ensures Suspicious(signins, libraries, s, MfaBypassLegacy) ==> score.normalised >= 0.8
    ensures (exists rule :: Suspicious(signins, libraries, s, rule)) ==> score.isAnomaly
  {
    forall rule: Rule
      ensures Suspicious(signins, libraries, s, rule) ==> score.normalised >= FloorOf(rule) && score.isAnomaly
    {
      RulesReadTheSignIns(signins, libraries, s, rule);
      StrongestFloorIsStrongest(RowOf(signins, libraries, s));
    }
    assert FloorOf(Travel) == 0.95 && FloorOf(NewCountryAndAsn) == 0.85;
    assert FloorOf(FailureAndNewAsn) == 0.85 && FloorOf(MfaBypassLegacy) == 0.8;
  }

  /** And they add nothing else: where nothing is suspicious and the off-hours rule does not fire, the score is that of
      the model alone, and a score raised by the rules is one of the five floors. */
  lemma {:induction false} OnlySuspicionIsScored(bundle: Bundle, libraries: Libraries, rules: Switches,
                                                 signins: seq<SignIn>, s: SignIn, row: FeatureRow,
                                                 score: AnomalyScore, model: AnomalyScore)
    requires rules.enableRules && row == RowOf(signins, libraries, s)
    requires score == ScoreIn(bundle, libraries, rules, signins)(s)
    requires model == ScoreIn(bundle, libraries, rules.(enableRules := false), signins)(s)
    ensures score.normalised == model.normalised
            || (exists rule :: Suspicious(signins, libraries, s, rule) && score.normalised == FloorOf(rule))
            || (OffHoursFires(WatchOf(bundle, libraries, rules), s.userId, row) && score.normalised == 0.85)
  {
    forall rule: Rule
      ensures Fires(rule, row) <==> Suspicious(signins, libraries, s, rule)
    {
      RulesReadTheSignIns(signins, libraries, s, rule);
    }
    StrongestFloorIsStrongest(row);
    var floor := StrongestFloor(row);
    if floor != 0.0 {
      var rule :| Fires(rule, row) && FloorOf(rule) == floor;
      assert Suspicious(signins, libraries, s, rule);
    }
  }
}
