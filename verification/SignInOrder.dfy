/** When the order in which sign-ins are listed can change a history, and when it cannot. */
module SignInOrder {
  import opened Sequences
  import opened Ordering
  import opened SignInHistory
  import opened SignInHistoryFacts

  ghost predicate Permutation(a: seq<SignIn>, b: seq<SignIn>) { multiset(a) == multiset(b) }

  /** The collected list is the same for every order of the sign-ins. */
  ghost predicate ListFixed<T(!new)>(signins: seq<SignIn>, f: SignIn -> Option<T>) {
    forall other | Permutation(other, signins) :: Collect(SortByTime(other), f) == Collect(SortByTime(signins), f)
  }

  ghost predicate LastFixed<T(!new)>(signins: seq<SignIn>, f: SignIn -> Option<T>) {
    forall other | Permutation(other, signins) :: LastKnown(SortByTime(other), f) == LastKnown(SortByTime(signins), f)
  }

  /** Sign-ins at one moment do not differ in a known value. */
  ghost predicate TiesAgree<T(!new)>(signins: seq<SignIn>, f: SignIn -> Option<T>) {
    forall r, s | r in signins && s in signins && r.at == s.at && f(r).Some? && f(s).Some? :: f(r) == f(s)
  }

  /** The latest sign-ins with a known value do not differ in it. */
  ghost predicate LatestAgree<T(!new)>(signins: seq<SignIn>, f: SignIn -> Option<T>) {
    forall r, s | LatestKnown(signins, f, r) && LatestKnown(signins, f, s) :: f(r) == f(s)
  }

  // ---------------------------------------------------------------- lists fixed when ties agree

  function KnownIn<T>(f: SignIn -> Option<T>): SignIn -> bool { (s: SignIn) => f(s).Some? }

  function Stamped<T>(f: SignIn -> Option<T>): SignIn -> (int, Option<T>) { (s: SignIn) => (s.at, f(s)) }

  predicate NotAfter<T>(a: (int, Option<T>), b: (int, Option<T>)) { a.0 <= b.0 }

  lemma {:induction false} CollectKnown<T>(signins: seq<SignIn>, f: SignIn -> Option<T>)
    ensures Collect(signins, f) == Collect(Filter(signins, KnownIn(f)), f)
  {
    if signins == [] {
    } else {
      var front, last := signins[..|signins| - 1], signins[|signins| - 1];
      CollectKnown(front, f);
      if f(last).Some? {
        CollectSnoc(Filter(front, KnownIn(f)), last, f);
      }
    }
  }

  lemma StampsSorted<T(!new)>(sorted: seq<SignIn>, f: SignIn -> Option<T>)
    requires SortedBy(sorted, NoLater)
    ensures SortedBy(Map(sorted, Stamped(f)), NotAfter)
    ensures TotalPreorder(NotAfter<T>)
  {
    forall i, j | 0 <= i < j < |sorted|
      ensures NotAfter(Map(sorted, Stamped(f))[i], Map(sorted, Stamped(f))[j])
    {
      assert NoLater(sorted[i], sorted[j]);
    }
    forall x: (int, Option<T>), y: (int, Option<T>), z: (int, Option<T>)
      ensures OrderLaws(NotAfter<T>, x, y, z)
    {
    }
  }

  /** Two arrangements of sign-ins with known values in time order carry the same values, when ties agree. */
  lemma SameStamps<T(!new)>(a: seq<SignIn>, b: seq<SignIn>, f: SignIn -> Option<T>)
    requires Permutation(a, b) && SortedBy(a, NoLater) && SortedBy(b, NoLater)
    requires TiesAgree(a, f) && forall s | s in a :: f(s).Some?
    ensures Map(a, Stamped(f)) == Map(b, Stamped(f))
  {
    StampsSorted(a, f);
    StampsSorted(b, f);
    MapMultiset(a, b, Stamped(f));
    var stamps := Map(a, Stamped(f));
    forall x, y | x in stamps && y in stamps && Tied(NotAfter<T>, x, y)
      ensures x == y
    {
      MapMember(a, Stamped(f), x);
      MapMember(a, Stamped(f), y);
    }
    SortedUnique(stamps, Map(b, Stamped(f)), NotAfter);
  }

  lemma SameValues<T(!new)>(a: seq<SignIn>, b: seq<SignIn>, f: SignIn -> Option<T>)
    requires Map(a, Stamped(f)) == Map(b, Stamped(f))
    ensures Collect(a, f) == Collect(b, f)
  {
    assert |a| == |Map(a, Stamped(f))| == |b|;
    forall i | 0 <= i < |a|
      ensures Map(a, f)[i] == Map(b, f)[i]
    {
      assert Map(a, Stamped(f))[i] == Map(b, Stamped(f))[i];
    }
    CollectSame(a, b, f);
  }

  lemma KnownSorted<T(!new)>(signins: seq<SignIn>, f: SignIn -> Option<T>)
    ensures var known := SortByTime(Filter(signins, KnownIn(f)));
            && Collect(SortByTime(signins), f) == Collect(known, f)
            && SortedBy(known, NoLater)
            && forall s :: s in known <==> s in signins && f(s).Some?
  {
    TimeIsPreorder();
    CollectKnown(SortByTime(signins), f);
    SortFilter(signins, NoLater, KnownIn(f));
    SortIsSorted(Filter(signins, KnownIn(f)), NoLater);
    SortKeeps(Filter(signins, KnownIn(f)), NoLater);
    FilterMembers(signins, KnownIn(f));
  }

  lemma TiesAgreeFixesList<T(!new)>(signins: seq<SignIn>, other: seq<SignIn>, f: SignIn -> Option<T>)
    requires TiesAgree(signins, f) && Permutation(other, signins)
    ensures Collect(SortByTime(other), f) == Collect(SortByTime(signins), f)
  {
    var a, b := SortByTime(Filter(signins, KnownIn(f))), SortByTime(Filter(other, KnownIn(f)));
    KnownSorted(signins, f);
    KnownSorted(other, f);
    FilteredPermutation(signins, other, KnownIn(f));
    SortKeeps(Filter(signins, KnownIn(f)), NoLater);
    SortKeeps(Filter(other, KnownIn(f)), NoLater);
    SameStamps(a, b, f);
    SameValues(a, b, f);
  }

  // ---------------------------------------------------------------- how ties are laid out

  function At(t: int): SignIn -> bool { (s: SignIn) => s.at == t }

  function After(t: int): SignIn -> bool { (s: SignIn) => s.at > t }

  lemma {:induction false} SortedThirds(sorted: seq<SignIn>, t: int)
    requires SortedBy(sorted, NoLater)
    ensures sorted == Filter(sorted, Before(t)) + Filter(sorted, At(t)) + Filter(sorted, After(t))
  {
    if sorted == [] {
    } else {
      var front, last := sorted[..|sorted| - 1], sorted[|sorted| - 1];
      SortedThirds(front, t);
      assert sorted == front + [last];
      LastIsLatest(sorted, front, last);
      ThirdsSnoc(front, last, t, Filter(front, Before(t)), Filter(front, At(t)), Filter(front, After(t)));
    }
  }

  lemma LastIsLatest(sorted: seq<SignIn>, front: seq<SignIn>, last: SignIn)
    requires SortedBy(sorted, NoLater) && sorted == front + [last]
    ensures forall s | s in front :: s.at <= last.at
  {
    forall i | 0 <= i < |front|
      ensures front[i].at <= last.at
    {
      assert NoLater(sorted[i], sorted[|front|]);
    }
  }

  lemma ThirdsSnoc(front: seq<SignIn>, last: SignIn, t: int, before: seq<SignIn>, at: seq<SignIn>, after: seq<SignIn>)
    requires before == Filter(front, Before(t)) && at == Filter(front, At(t)) && after == Filter(front, After(t))
    requires front == before + at + after && forall s | s in front :: s.at <= last.at
    ensures front + [last]
            == Filter(front + [last], Before(t)) + Filter(front + [last], At(t)) + Filter(front + [last], After(t))
  {
    FilterSnoc(front, last, Before(t));
    FilterSnoc(front, last, At(t));
    FilterSnoc(front, last, After(t));
    NoLaterThirds(front, last, t);
    AppendToThird(front, last, t, before, at, after);
  }

  lemma NoLaterThirds(front: seq<SignIn>, last: SignIn, t: int)
    requires forall s | s in front :: s.at <= last.at
    ensures last.at <= t ==> Filter(front, After(t)) == []
    ensures last.at < t ==> Filter(front, At(t)) == []
  {
    if last.at <= t {
      FilterNone(front, After(t));
    }
    if last.at < t {
      FilterNone(front, At(t));
    }
  }

  lemma AppendToThird(front: seq<SignIn>, last: SignIn, t: int, before: seq<SignIn>, at: seq<SignIn>,
                      after: seq<SignIn>)
    requires front == before + at + after
    requires (last.at <= t ==> after == []) && (last.at < t ==> at == [])
    ensures front + [last] == if last.at < t then (before + [last]) + at + after
                              else if last.at == t then before + (at + [last]) + after
                              else before + at + (after + [last])
  {
  }

  lemma PartOfSorted(signins: seq<SignIn>, p: SignIn -> bool)
    ensures Filter(SortByTime(signins), p) == SortByTime(Filter(signins, p))
  {
    TimeIsPreorder();
    SortFilter(signins, NoLater, p);
  }

  lemma TiedPart(signins: seq<SignIn>, t: int)
    ensures SortByTime(Filter(signins, At(t))) == Filter(signins, At(t))
  {
    var tied := Filter(signins, At(t));
    FilterMembers(signins, At(t));
    forall i, j | 0 <= i < j < |tied|
      ensures NoLater(tied[i], tied[j])
    {
      assert tied[i] in tied && tied[j] in tied;
    }
    SortOfSorted(tied, NoLater);
  }

  /** Sign-ins of one moment stay in input order between the earlier and the later ones. */
  lemma TiesStayInOrder(signins: seq<SignIn>, t: int, before: seq<SignIn>, at: seq<SignIn>, after: seq<SignIn>)
    requires before == SortByTime(Filter(signins, Before(t))) && at == Filter(signins, At(t))
    requires after == SortByTime(Filter(signins, After(t)))
    ensures SortByTime(signins) == before + at + after
  {
    PartOfSorted(signins, Before(t));
    PartOfSorted(signins, At(t));
    PartOfSorted(signins, After(t));
    TiedPart(signins, t);
    ThirdsOfSort(signins, t);
  }

  lemma ThirdsOfSort(signins: seq<SignIn>, t: int)
    ensures var sorted := SortByTime(signins);
            sorted == Filter(sorted, Before(t)) + Filter(sorted, At(t)) + Filter(sorted, After(t))
  {
    TimeIsPreorder();
    SortIsSorted(signins, NoLater);
    SortedThirds(SortByTime(signins), t);
  }

  lemma PairAt(r: SignIn, s: SignIn)
    requires r.at == s.at
    ensures Filter([r, s], At(r.at)) == [r, s]
    ensures Filter([r, s], Before(r.at)) == Filter([r, s], After(r.at)) == []
  {
    FilterNone([r, s], Before(r.at));
    FilterAll([r, s], At(r.at));
    FilterNone([r, s], After(r.at));
  }

  lemma PartsAroundPair(r: SignIn, s: SignIn, rest: seq<SignIn>, p: SignIn -> bool)
    ensures Filter([r, s] + rest, p) == Filter([r, s], p) + Filter(rest, p)
    ensures Filter(rest + [r, s], p) == Filter(rest, p) + Filter([r, s], p)
  {
    FilterAppend([r, s], rest, p);
    FilterAppend(rest, [r, s], p);
  }

  /** Two sign-ins of one moment at the head of the input come first among those of that moment. */
  lemma TiedFirst(r: SignIn, s: SignIn, rest: seq<SignIn>, before: seq<SignIn>, at: seq<SignIn>, after: seq<SignIn>)
    requires r.at == s.at && before == SortByTime(Filter(rest, Before(r.at))) && at == Filter(rest, At(r.at))
    requires after == SortByTime(Filter(rest, After(r.at)))
    ensures SortByTime([r, s] + rest) == before + [r, s] + (at + after)
  {
    var all := [r, s] + rest;
    PairAt(r, s);
    PartsAroundPair(r, s, rest, Before(r.at));
    PartsAroundPair(r, s, rest, At(r.at));
    PartsAroundPair(r, s, rest, After(r.at));
    Regroup(Filter(rest, Before(r.at)), [r, s], at, Filter(rest, After(r.at)));
    TiesStayInOrder(all, r.at, before, [r, s] + at, after);
    Regroup(before, [r, s], at, after);
  }

  /** At its end they come last among those of that moment. */
  lemma TiedLast(r: SignIn, s: SignIn, rest: seq<SignIn>, before: seq<SignIn>, at: seq<SignIn>, after: seq<SignIn>)
    requires r.at == s.at && before == SortByTime(Filter(rest, Before(r.at))) && at == Filter(rest, At(r.at))
    requires after == SortByTime(Filter(rest, After(r.at)))
    ensures SortByTime(rest + [r, s]) == before + (at + [r, s]) + after
  {
    PairAt(r, s);
    PartsAroundPair(r, s, rest, Before(r.at));
    PartsAroundPair(r, s, rest, At(r.at));
    PartsAroundPair(r, s, rest, After(r.at));
    Regroup(Filter(rest, Before(r.at)), [r, s], at, Filter(rest, After(r.at)));
    TiesStayInOrder(rest + [r, s], r.at, before, at + [r, s], after);
  }

  lemma Regroup(a: seq<SignIn>, b: seq<SignIn>, c: seq<SignIn>, d: seq<SignIn>)
    ensures a + (b + c) + d == a + b + (c + d)
    ensures [] + a == a == a + [] && [] + d == d == d + []
  {
  }

  // ---------------------------------------------------------------- what differing ties do

  lemma PickOne(signins: seq<SignIn>, r: SignIn) returns (rest: seq<SignIn>)
    requires r in signins
    ensures multiset(signins) == multiset(rest) + multiset{r}
  {
    var i :| 0 <= i < |signins| && signins[i] == r;
    rest := signins[..i] + signins[i + 1..];
    assert signins == signins[..i] + [r] + signins[i + 1..];
  }

  lemma PickTwo(signins: seq<SignIn>, r: SignIn, s: SignIn) returns (rest: seq<SignIn>)
    requires r in signins && s in signins && r != s
    ensures Permutation([r, s] + rest, signins) && Permutation([s, r] + rest, signins)
    ensures Permutation(rest + [r, s], signins) && Permutation(rest + [s, r], signins)
  {
    var without := PickOne(signins, r);
    assert s in multiset(signins);
    assert s in multiset(without);
    rest := PickOne(without, s);
    assert multiset(signins) == multiset(rest) + multiset{r} + multiset{s};
  }

  lemma DifferingTiesShow<T(!new)>(r: SignIn, s: SignIn, rest: seq<SignIn>, f: SignIn -> Option<T>)
    requires r.at == s.at && f(r).Some? && f(s).Some? && f(r) != f(s)
    ensures Collect(SortByTime([r, s] + rest), f) != Collect(SortByTime([s, r] + rest), f)
  {
    var before, at := SortByTime(Filter(rest, Before(r.at))), Filter(rest, At(r.at));
    var after := SortByTime(Filter(rest, After(r.at)));
    TiedFirst(r, s, rest, before, at, after);
    TiedFirst(s, r, rest, before, at, after);
    CollectPair(before, r, s, at + after, f);
    CollectPair(before, s, r, at + after, f);
    var n := |Collect(before, f)|;
    assert Collect(before + [r, s] + (at + after), f)[n] == f(r).value;
    assert Collect(before + [s, r] + (at + after), f)[n] == f(s).value;
  }

  lemma CollectPair<T>(before: seq<SignIn>, r: SignIn, s: SignIn, after: seq<SignIn>, f: SignIn -> Option<T>)
    requires f(r).Some? && f(s).Some?
    ensures Collect(before + [r, s] + after, f)
            == Collect(before, f) + [f(r).value, f(s).value] + Collect(after, f)
  {
    CollectAppend(before + [r, s], after, f);
    CollectAppend(before, [r, s], f);
    CollectTwo(r, s, f);
  }

  lemma CollectTwo<T>(r: SignIn, s: SignIn, f: SignIn -> Option<T>)
    requires f(r).Some? && f(s).Some?
    ensures Collect([r, s], f) == [f(r).value, f(s).value]
  {
    assert [r, s] == [r] + [s] && [r] == [] + [r];
    CollectSnoc([], r, f);
    CollectSnoc([r], s, f);
  }

  /** The windowed lists keep their content in every input order exactly when ties agree. */
  lemma {:induction false} ListFixedExactly<T(!new)>(signins: seq<SignIn>, f: SignIn -> Option<T>)
    ensures ListFixed(signins, f) <==> TiesAgree(signins, f)
  {
    if TiesAgree(signins, f) {
      forall other | Permutation(other, signins)
        ensures Collect(SortByTime(other), f) == Collect(SortByTime(signins), f)
      {
        TiesAgreeFixesList(signins, other, f);
      }
    } else {
      var r, s :| r in signins && s in signins && r.at == s.at && f(r).Some? && f(s).Some? && f(r) != f(s);
      TiesUnfix(signins, r, s, f);
    }
  }

  lemma TiesUnfix<T(!new)>(signins: seq<SignIn>, r: SignIn, s: SignIn, f: SignIn -> Option<T>)
    requires r in signins && s in signins && r.at == s.at && f(r).Some? && f(s).Some? && f(r) != f(s)
    ensures !ListFixed(signins, f)
  {
    var rest := PickTwo(signins, r, s);
    DifferingTiesShow(r, s, rest, f);
    NotFixed(signins, [r, s] + rest, [s, r] + rest, f);
  }

  lemma NotFixed<T(!new)>(signins: seq<SignIn>, one: seq<SignIn>, other: seq<SignIn>, f: SignIn -> Option<T>)
    requires Permutation(one, signins) && Permutation(other, signins)
    requires Collect(SortByTime(one), f) != Collect(SortByTime(other), f)
    ensures !ListFixed(signins, f)
  {
  }

  lemma LatestAgreeFixesLast<T(!new)>(signins: seq<SignIn>, other: seq<SignIn>, f: SignIn -> Option<T>)
    requires LatestAgree(signins, f) && Permutation(other, signins)
    ensures LastKnown(SortByTime(other), f) == LastKnown(SortByTime(signins), f)
  {
    SameElements(other, signins);
    LastOfSorted(signins, f);
    LastOfSorted(other, f);
    forall s
      ensures LatestKnown(other, f, s) <==> LatestKnown(signins, f, s)
    {
    }
  }

  lemma {:induction false} NoneKnown<T>(signins: seq<SignIn>, f: SignIn -> Option<T>)
    requires forall s | s in signins :: f(s) == None
    ensures LastKnown(signins, f) == None
  {
    if signins == [] {
    } else {
      NoneKnown(signins[..|signins| - 1], f);
    }
  }

  /** A latest known sign-in at the very end of the input gives the last value. */
  lemma LastOfTiedLast<T(!new)>(r: SignIn, s: SignIn, rest: seq<SignIn>, f: SignIn -> Option<T>)
    requires r.at == s.at && f(s).Some? && forall q | q in rest && f(q).Some? :: q.at <= s.at
    ensures LastKnown(SortByTime(rest + [r, s]), f) == f(s)
  {
    var before, at := SortByTime(Filter(rest, Before(r.at))), Filter(rest, At(r.at));
    var after := SortByTime(Filter(rest, After(r.at)));
    TiedLast(r, s, rest, before, at, after);
    FilterMembers(rest, After(r.at));
    SortKeeps(Filter(rest, After(r.at)), NoLater);
    NoneKnown(after, f);
    LastKnownAppend(before + (at + [r, s]), after, f);
    assert before + (at + [r, s]) == before + (at + [r]) + [s];
    LastKnownAppend(before + (at + [r]), [s], f);
  }

  /** A last value is the same in every input order exactly when the latest sign-ins that have one agree. */
  lemma {:induction false} LastFixedExactly<T(!new)>(signins: seq<SignIn>, f: SignIn -> Option<T>)
    ensures LastFixed(signins, f) <==> LatestAgree(signins, f)
  {
    if LatestAgree(signins, f) {
      forall other | Permutation(other, signins)
        ensures LastKnown(SortByTime(other), f) == LastKnown(SortByTime(signins), f)
      {
        LatestAgreeFixesLast(signins, other, f);
      }
    } else {
      var r, s :| LatestKnown(signins, f, r) && LatestKnown(signins, f, s) && f(r) != f(s);
      var rest := PickTwo(signins, r, s);
      SameElements(rest + [r, s], signins);
      forall q | q in rest
        ensures q in signins
      {
        assert q in rest + [r, s];
      }
      LastOfTiedLast(r, s, rest, f);
      LastOfTiedLast(s, r, rest, f);
      assert Permutation(rest + [r, s], signins) && Permutation(rest + [s, r], signins);
    }
  }

  // ---------------------------------------------------------------- the whole history

  /** The history is the same for every order of the sign-ins. */
  ghost predicate HistoryFixed(signins: seq<SignIn>, asOf: int, windowDays: int) {
    forall other | Permutation(other, signins) ::
      HistoryOf(other, asOf, windowDays) == HistoryOf(signins, asOf, windowDays)
  }

  function Except(p: SignIn -> bool): SignIn -> bool { (s: SignIn) => !p(s) }

  /** Any order of a part of the sign-ins comes from an order of all of them. */
  lemma Rearranged(signins: seq<SignIn>, p: SignIn -> bool, part: seq<SignIn>) returns (other: seq<SignIn>)
    requires Permutation(part, Filter(signins, p))
    ensures Permutation(other, signins) && Filter(other, p) == part
  {
    var dropped := Filter(signins, Except(p));
    other := part + dropped;
    FilterMultiset(signins, p);
    FilterMultiset(signins, Except(p));
    SameElements(part, Filter(signins, p));
    FilterMembers(signins, p);
    FilterMembers(signins, Except(p));
    FilterAll(part, p);
    FilterNone(dropped, p);
    FilterAppend(part, dropped, p);
    forall s
      ensures multiset(other)[s] == multiset(signins)[s]
    {
    }
  }

  function Inside(signins: seq<SignIn>, asOf: int, windowDays: int): seq<SignIn> {
    Filter(signins, InWindow(asOf - windowDays * DAY, asOf))
  }

  function Earlier(signins: seq<SignIn>, asOf: int): seq<SignIn> { Filter(signins, Before(asOf)) }

  lemma ListsOfHistory(signins: seq<SignIn>, asOf: int, windowDays: int, history: UserHistory, inside: seq<SignIn>)
    requires history == HistoryOf(signins, asOf, windowDays) && inside == Inside(signins, asOf, windowDays)
    ensures history.countries == Collect(SortByTime(inside), CountryOf)
    ensures history.asns == Collect(SortByTime(inside), AsnOf)
  {
    WindowedLists(signins, asOf, asOf - windowDays * DAY, windowDays, SortByTime(inside));
  }

  lemma LastsOfHistory(signins: seq<SignIn>, asOf: int, windowDays: int, history: UserHistory, earlier: seq<SignIn>)
    requires history == HistoryOf(signins, asOf, windowDays) && earlier == Earlier(signins, asOf)
    ensures history.lastAt == LastKnown(SortByTime(earlier), TimeOf)
    ensures history.lastLatitude == LastKnown(SortByTime(earlier), LatitudeOf)
    ensures history.lastLongitude == LastKnown(SortByTime(earlier), LongitudeOf)
  {
  }

  lemma SetsOfHistory(signins: seq<SignIn>, other: seq<SignIn>, asOf: int, windowDays: int,
                      one: UserHistory, two: UserHistory)
    requires Permutation(other, signins)
    requires one == HistoryOf(signins, asOf, windowDays) && two == HistoryOf(other, asOf, windowDays)
    ensures one.devices == two.devices && one.browsers == two.browsers && one.os == two.os
  {
    SameElements(other, signins);
    forall x
      ensures x in one.devices <==> x in two.devices
      ensures x in one.browsers <==> x in two.browsers
      ensures x in one.os <==> x in two.os
    {
      SeenSetsAreExact(signins, asOf, windowDays, x);
      SeenSetsAreExact(other, asOf, windowDays, x);
    }
  }

  ghost predicate TiesAreHarmless(signins: seq<SignIn>, asOf: int, windowDays: int) {
    && TiesAgree(Inside(signins, asOf, windowDays), CountryOf)
    && TiesAgree(Inside(signins, asOf, windowDays), AsnOf)
    && LatestAgree(Earlier(signins, asOf), LatitudeOf)
    && LatestAgree(Earlier(signins, asOf), LongitudeOf)
  }

  lemma HarmlessTiesFixHistory(signins: seq<SignIn>, other: seq<SignIn>, asOf: int, windowDays: int)
    requires TiesAreHarmless(signins, asOf, windowDays) && Permutation(other, signins)
    ensures HistoryOf(other, asOf, windowDays) == HistoryOf(signins, asOf, windowDays)
  {
    var one, two := HistoryOf(signins, asOf, windowDays), HistoryOf(other, asOf, windowDays);
    var inside, inside2 := Inside(signins, asOf, windowDays), Inside(other, asOf, windowDays);
    var earlier, earlier2 := Earlier(signins, asOf), Earlier(other, asOf);
    FilteredPermutation(signins, other, InWindow(asOf - windowDays * DAY, asOf));
    FilteredPermutation(signins, other, Before(asOf));
    ListsOfHistory(signins, asOf, windowDays, one, inside);
    ListsOfHistory(other, asOf, windowDays, two, inside2);
    LastsOfHistory(signins, asOf, windowDays, one, earlier);
    LastsOfHistory(other, asOf, windowDays, two, earlier2);
    SetsOfHistory(signins, other, asOf, windowDays, one, two);
    TiesAgreeFixesList(inside, inside2, CountryOf);
    TiesAgreeFixesList(inside, inside2, AsnOf);
    LatestAgreeFixesLast(earlier, earlier2, TimeOf);
    LatestAgreeFixesLast(earlier, earlier2, LatitudeOf);
    LatestAgreeFixesLast(earlier, earlier2, LongitudeOf);
    SameHistory(two, one);
  }

  lemma FixedHistoryFixesLists(signins: seq<SignIn>, asOf: int, windowDays: int, part: seq<SignIn>)
    requires HistoryFixed(signins, asOf, windowDays) && Permutation(part, Inside(signins, asOf, windowDays))
    ensures Collect(SortByTime(part), CountryOf) == Collect(SortByTime(Inside(signins, asOf, windowDays)), CountryOf)
    ensures Collect(SortByTime(part), AsnOf) == Collect(SortByTime(Inside(signins, asOf, windowDays)), AsnOf)
  {
    var other := Rearranged(signins, InWindow(asOf - windowDays * DAY, asOf), part);
    var history := HistoryOf(signins, asOf, windowDays);
    assert HistoryOf(other, asOf, windowDays) == history;
    ListsOfHistory(signins, asOf, windowDays, history, Inside(signins, asOf, windowDays));
    ListsOfHistory(other, asOf, windowDays, history, part);
  }

  lemma FixedHistoryFixesLasts(signins: seq<SignIn>, asOf: int, windowDays: int, part: seq<SignIn>)
    requires HistoryFixed(signins, asOf, windowDays) && Permutation(part, Earlier(signins, asOf))
    ensures LastKnown(SortByTime(part), LatitudeOf) == LastKnown(SortByTime(Earlier(signins, asOf)), LatitudeOf)
    ensures LastKnown(SortByTime(part), LongitudeOf) == LastKnown(SortByTime(Earlier(signins, asOf)), LongitudeOf)
  {
    var other := Rearranged(signins, Before(asOf), part);
    var history := HistoryOf(signins, asOf, windowDays);
    assert HistoryOf(other, asOf, windowDays) == history;
    LastsOfHistory(signins, asOf, windowDays, history, Earlier(signins, asOf));
    LastsOfHistory(other, asOf, windowDays, history, part);
  }

  /**
   * The order of the input is irrelevant exactly when sign-ins of one moment inside the window agree on country
   * and network, and the latest earlier ones with a position agree on it.
   */
  lemma {:induction false} InputOrderIsIrrelevantExactly(signins: seq<SignIn>, asOf: int, windowDays: int)
    ensures HistoryFixed(signins, asOf, windowDays) <==> TiesAreHarmless(signins, asOf, windowDays)
  {
    if TiesAreHarmless(signins, asOf, windowDays) {
      forall other | Permutation(other, signins)
        ensures HistoryOf(other, asOf, windowDays) == HistoryOf(signins, asOf, windowDays)
      {
        HarmlessTiesFixHistory(signins, other, asOf, windowDays);
      }
    }
    if HistoryFixed(signins, asOf, windowDays) {
      var inside, earlier := Inside(signins, asOf, windowDays), Earlier(signins, asOf);
      forall part | Permutation(part, inside)
        ensures Collect(SortByTime(part), CountryOf) == Collect(SortByTime(inside), CountryOf)
        ensures Collect(SortByTime(part), AsnOf) == Collect(SortByTime(inside), AsnOf)
      {
        FixedHistoryFixesLists(signins, asOf, windowDays, part);
      }
      forall part | Permutation(part, earlier)
        ensures LastKnown(SortByTime(part), LatitudeOf) == LastKnown(SortByTime(earlier), LatitudeOf)
        ensures LastKnown(SortByTime(part), LongitudeOf) == LastKnown(SortByTime(earlier), LongitudeOf)
      {
        FixedHistoryFixesLasts(signins, asOf, windowDays, part);
      }
      ListFixedExactly(inside, CountryOf);
      ListFixedExactly(inside, AsnOf);
      LastFixedExactly(earlier, LatitudeOf);
      LastFixedExactly(earlier, LongitudeOf);
    }
  }
}
