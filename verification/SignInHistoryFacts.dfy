/** What a history contains, what it depends on, and what it does not. */
module SignInHistoryFacts {
  import opened Sequences
  import opened Ordering
  import opened SignInHistory

  function InWindow(cutoff: int, asOf: int): SignIn -> bool {
    (s: SignIn) => cutoff <= s.at < asOf
  }

  function NotBefore(cutoff: int): SignIn -> bool { (s: SignIn) => s.at >= cutoff }

  lemma {:induction false} CollectSince<T>(s: seq<SignIn>, cutoff: int, f: SignIn -> Option<T>)
    ensures Collect(s, Since(cutoff, f)) == Collect(Filter(s, NotBefore(cutoff)), f)
  {
    if s == [] {
    } else {
      var front, x := s[..|s| - 1], s[|s| - 1];
      CollectSince(front, cutoff, f);
      if x.at >= cutoff {
        CollectSnoc(Filter(front, NotBefore(cutoff)), x, f);
      }
    }
  }

  lemma EarlierInWindow(signins: seq<SignIn>, asOf: int, cutoff: int)
    ensures Filter(SortByTime(Filter(signins, Before(asOf))), NotBefore(cutoff))
            == SortByTime(Filter(signins, InWindow(cutoff, asOf)))
  {
    TimeIsPreorder();
    SortFilter(Filter(signins, Before(asOf)), NoLater, NotBefore(cutoff));
    FilterFilter(signins, Before(asOf), NotBefore(cutoff), InWindow(cutoff, asOf));
  }

  /** Countries and ASNs are those of the sign-ins inside the window, in time order, repeats included. */
  lemma WindowedListsAreExact(signins: seq<SignIn>, asOf: int, windowDays: int)
    ensures var inside := SortByTime(Filter(signins, InWindow(asOf - windowDays * DAY, asOf)));
            var history := HistoryOf(signins, asOf, windowDays);
            && SortedBy(inside, NoLater)
            && multiset(inside) == multiset(Filter(signins, InWindow(asOf - windowDays * DAY, asOf)))
            && history.countries == Collect(inside, CountryOf)
            && history.asns == Collect(inside, AsnOf)
  {
    var cutoff := asOf - windowDays * DAY;
    var inside := Filter(signins, InWindow(cutoff, asOf));
    assert SortedBy(SortByTime(inside), NoLater) && multiset(SortByTime(inside)) == multiset(inside) by {
      TimeIsPreorder();
      SortIsSorted(inside, NoLater);
      SortKeeps(inside, NoLater);
    }
    WindowedLists(signins, asOf, cutoff, windowDays, SortByTime(inside));
  }

  lemma WindowedLists(signins: seq<SignIn>, asOf: int, cutoff: int, windowDays: int, inside: seq<SignIn>)
    requires cutoff == asOf - windowDays * DAY && inside == SortByTime(Filter(signins, InWindow(cutoff, asOf)))
    ensures HistoryOf(signins, asOf, windowDays).countries == Collect(inside, CountryOf)
    ensures HistoryOf(signins, asOf, windowDays).asns == Collect(inside, AsnOf)
  {
    EarlierInWindow(signins, asOf, cutoff);
    CollectSince(SortByTime(Filter(signins, Before(asOf))), cutoff, CountryOf);
    CollectSince(SortByTime(Filter(signins, Before(asOf))), cutoff, AsnOf);
  }

  ghost predicate SeenBefore<T(!new)>(signins: seq<SignIn>, asOf: int, f: SignIn -> Option<T>, x: T) {
    exists s :: s in signins && s.at < asOf && f(s) == Some(x)
  }

  lemma EarlierMembers<T(!new)>(signins: seq<SignIn>, asOf: int, f: SignIn -> Option<T>, x: T)
    ensures x in Collect(SortByTime(Filter(signins, Before(asOf))), f) <==> SeenBefore(signins, asOf, f, x)
  {
    var earlier := SortByTime(Filter(signins, Before(asOf)));
    SortKeeps(Filter(signins, Before(asOf)), NoLater);
    FilterMembers(signins, Before(asOf));
    CollectMembers(earlier, f, x);
    if i :| 0 <= i < |earlier| && f(earlier[i]) == Some(x) {
      assert earlier[i] in earlier;
    }
    if s :| s in signins && s.at < asOf && f(s) == Some(x) {
      assert s in earlier;
    }
  }

  /** The seen sets hold exactly the non-empty values of strictly earlier sign-ins, of any age. */
  lemma SeenSetsAreExact(signins: seq<SignIn>, asOf: int, windowDays: int, x: string)
    ensures var history := HistoryOf(signins, asOf, windowDays);
            && (x in history.devices <==> SeenBefore(signins, asOf, DeviceOf, x))
            && (x in history.browsers <==> SeenBefore(signins, asOf, BrowserOf, x))
            && (x in history.os <==> SeenBefore(signins, asOf, OsOf, x))
  {
    EarlierMembers(signins, asOf, DeviceOf, x);
    EarlierMembers(signins, asOf, BrowserOf, x);
    EarlierMembers(signins, asOf, OsOf, x);
  }

  /** `found` is what `f` says at the latest earlier sign-in where it says anything. */
  ghost predicate IsLatest<T(!new)>(signins: seq<SignIn>, asOf: int, f: SignIn -> Option<T>, found: Option<T>) {
    match found
    case None => forall s | s in signins && s.at < asOf :: f(s) == None
    case Some(x) =>
      exists s :: s in signins && s.at < asOf && f(s) == Some(x)
                  && forall r | r in signins && r.at < asOf && f(r).Some? :: r.at <= s.at
  }

  lemma {:induction false} LastKnownIndex<T>(s: seq<SignIn>, f: SignIn -> Option<T>) returns (i: int)
    ensures -1 <= i < |s|
    ensures forall j | i < j < |s| :: f(s[j]) == None
    ensures LastKnown(s, f) == if i < 0 then None else f(s[i])
    ensures i >= 0 ==> f(s[i]).Some?
  {
    if s == [] {
      i := -1;
    } else if f(s[|s| - 1]).Some? {
      i := |s| - 1;
    } else {
      i := LastKnownIndex(s[..|s| - 1], f);
    }
  }

  /** Nothing with a known value of `f` in the list is later than `s`. */
  ghost predicate LatestKnown<T(!new)>(signins: seq<SignIn>, f: SignIn -> Option<T>, s: SignIn) {
    s in signins && f(s).Some? && forall r | r in signins && f(r).Some? :: r.at <= s.at
  }

  /** The last known value of the sorted list belongs to a latest sign-in that has one. */
  lemma LastOfSorted<T(!new)>(signins: seq<SignIn>, f: SignIn -> Option<T>)
    ensures match LastKnown(SortByTime(signins), f)
            case None => forall s | s in signins :: f(s) == None
            case Some(x) => exists s :: LatestKnown(signins, f, s) && f(s) == Some(x)
  {
    var sorted := SortByTime(signins);
    TimeIsPreorder();
    SortIsSorted(signins, NoLater);
    SortKeeps(signins, NoLater);
    var i := LastKnownIndex(sorted, f);
    forall r | r in signins && f(r).Some?
      ensures i >= 0 && r.at <= sorted[i].at
    {
      assert r in sorted;
      var j :| 0 <= j < |sorted| && sorted[j] == r;
      assert j < i ==> NoLater(sorted[j], sorted[i]);
    }
    if i >= 0 {
      assert sorted[i] in sorted;
      assert LatestKnown(signins, f, sorted[i]);
    }
  }

  lemma LatestOfEarlier<T(!new)>(signins: seq<SignIn>, asOf: int, f: SignIn -> Option<T>)
    ensures IsLatest(signins, asOf, f, LastKnown(SortByTime(Filter(signins, Before(asOf))), f))
  {
    FilterMembers(signins, Before(asOf));
    LastOfSorted(Filter(signins, Before(asOf)), f);
  }

  /** Last time, latitude and longitude are each the latest earlier known value. */
  lemma LastValuesAreLatest(signins: seq<SignIn>, asOf: int, windowDays: int)
    ensures var history := HistoryOf(signins, asOf, windowDays);
            && IsLatest(signins, asOf, TimeOf, history.lastAt)
            && IsLatest(signins, asOf, LatitudeOf, history.lastLatitude)
            && IsLatest(signins, asOf, LongitudeOf, history.lastLongitude)
  {
    LatestOfEarlier(signins, asOf, TimeOf);
    LatestOfEarlier(signins, asOf, LatitudeOf);
    LatestOfEarlier(signins, asOf, LongitudeOf);
  }

  lemma OnlySignIn(s: SignIn, asOf: int)
    requires s.at < asOf
    ensures SortByTime(Filter([s], Before(asOf))) == [s]
  {
    assert [s] == [] + [s];
    FilterSnoc([], s, Before(asOf));
    SortSnoc([], s, NoLater);
  }

  const NO_HISTORY := UserHistory([], [], {}, {}, {}, None, None, None)

  lemma OnlyView(s: SignIn, cutoff: int)
    ensures HistoryView([s], cutoff) == Extended(NO_HISTORY, s, cutoff)
  {
    EmptyView([], cutoff, NO_HISTORY);
    ViewSnoc([], s, cutoff);
    assert [s] == [] + [s];
  }

  lemma AllFieldsExtend(s: SignIn, cutoff: int, device: Device, country: string, latitude: real, longitude: real,
                        asn: int)
    requires s.device == Some(device) && s.asn == Some(asn) && cutoff <= s.at
    requires s.location == Some(Location(country, Some(Geo(Some(latitude), Some(longitude)))))
    requires "" !in {device.deviceId, device.browser, device.operatingSystem, country}
    ensures Extended(NO_HISTORY, s, cutoff)
            == UserHistory([country], [asn], {device.deviceId}, {device.browser}, {device.operatingSystem},
                           Some(s.at), Some(latitude), Some(longitude))
  {
  }

  /** The history after one sign-in inside the window is that sign-in, field by field. */
  lemma OneSignInHistory(s: SignIn, asOf: int, windowDays: int, device: Device, country: string, latitude: real,
                         longitude: real, asn: int)
    requires s.device == Some(device) && s.asn == Some(asn)
    requires s.location == Some(Location(country, Some(Geo(Some(latitude), Some(longitude)))))
    requires "" !in {device.deviceId, device.browser, device.operatingSystem, country}
    requires asOf - windowDays * (24 * 60 * 60 * 1_000_000) <= s.at < asOf
    ensures HistoryOf([s], asOf, windowDays)
            == UserHistory([country], [asn], {device.deviceId}, {device.browser}, {device.operatingSystem},
                           Some(s.at), Some(latitude), Some(longitude))
  {
    OnlySignIn(s, asOf);
    OnlyView(s, asOf - windowDays * DAY);
    AllFieldsExtend(s, asOf - windowDays * DAY, device, country, latitude, longitude, asn);
  }

  ghost predicate DistinctTimes(signins: seq<SignIn>) {
    forall a, b | a in signins && b in signins && a.at == b.at :: a == b
  }

  lemma FilteredPermutation(a: seq<SignIn>, b: seq<SignIn>, p: SignIn -> bool)
    requires multiset(a) == multiset(b)
    ensures multiset(Filter(a, p)) == multiset(Filter(b, p))
  {
    FilterMultiset(a, p);
    FilterMultiset(b, p);
  }

  /** With distinct timestamps the order of the input does not matter. */
  lemma InputOrderIsIrrelevant(a: seq<SignIn>, b: seq<SignIn>, asOf: int, windowDays: int)
    requires multiset(a) == multiset(b) && DistinctTimes(a)
    ensures HistoryOf(a, asOf, windowDays) == HistoryOf(b, asOf, windowDays)
  {
    FilteredPermutation(a, b, Before(asOf));
    TimeIsPreorder();
    FilterMembers(a, Before(asOf));
    SortForgetsOrder(Filter(a, Before(asOf)), Filter(b, Before(asOf)), NoLater);
  }

  function ByUser(userId: string): SignIn -> bool { (s: SignIn) => s.userId == userId }

  /** The sign-ins a row of this user at this moment may look at. */
  function StrictlyPrior(userId: string, t: int): SignIn -> bool {
    (s: SignIn) => s.userId == userId && s.at < t
  }

  /** A row's history depends on the user's own strictly earlier sign-ins and on nothing else. */
  lemma {:induction false} HistoryIsCausal(a: seq<SignIn>, b: seq<SignIn>, userId: string, t: int, windowDays: int)
    requires Filter(a, StrictlyPrior(userId, t)) == Filter(b, StrictlyPrior(userId, t))
    ensures HistoryOf(Filter(a, ByUser(userId)), t, windowDays) == HistoryOf(Filter(b, ByUser(userId)), t, windowDays)
  {
    FilterFilter(a, ByUser(userId), Before(t), StrictlyPrior(userId, t));
    FilterFilter(b, ByUser(userId), Before(t), StrictlyPrior(userId, t));
  }

  /** `big` is `small` with further sign-ins put in anywhere, each allowed by `extra`. */
  ghost predicate Extends(small: seq<SignIn>, big: seq<SignIn>, extra: SignIn -> bool)
    decreases |big|
  {
    if big == [] then small == []
    else
      var front, x := big[..|big| - 1], big[|big| - 1];
      || (small != [] && small[|small| - 1] == x && Extends(small[..|small| - 1], front, extra))
      || (extra(x) && Extends(small, front, extra))
  }

  function Irrelevant(userId: string, t: int): SignIn -> bool {
    (s: SignIn) => s.userId != userId || s.at >= t
  }

  lemma {:induction false} ExtensionKeepsPrior(small: seq<SignIn>, big: seq<SignIn>, userId: string, t: int)
    requires Extends(small, big, Irrelevant(userId, t))
    ensures Filter(small, StrictlyPrior(userId, t)) == Filter(big, StrictlyPrior(userId, t))
    decreases |big|
  {
    if big == [] {
    } else {
      var front, x := big[..|big| - 1], big[|big| - 1];
      if small != [] && small[|small| - 1] == x && Extends(small[..|small| - 1], front, Irrelevant(userId, t)) {
        ExtensionKeepsPrior(small[..|small| - 1], front, userId, t);
      } else {
        ExtensionKeepsPrior(small, front, userId, t);
      }
    }
  }

  /** Adding sign-ins of other users, or of the same user at or after the row, changes no history. */
  lemma {:induction false} AddedSignInsAreInvisible(small: seq<SignIn>, big: seq<SignIn>, userId: string, t: int,
                                                    windowDays: int)
    requires Extends(small, big, Irrelevant(userId, t))
    ensures HistoryOf(Filter(small, ByUser(userId)), t, windowDays)
            == HistoryOf(Filter(big, ByUser(userId)), t, windowDays)
  {
    ExtensionKeepsPrior(small, big, userId, t);
    HistoryIsCausal(small, big, userId, t, windowDays);
  }
}
