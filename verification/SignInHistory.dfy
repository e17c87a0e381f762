/** Sign-ins and the history a user had before a given moment. Times are integer microseconds. */
module SignInHistory {
  import opened Sequences
  import opened Ordering

  datatype Geo = Geo(latitude: Option<real>, longitude: Option<real>)

  datatype Location = Location(country: string, geo: Option<Geo>)

  datatype Device = Device(deviceId: string, browser: string, operatingSystem: string)

  datatype Status = Status(errorCode: Option<int>)

  /** `asn` is the number the address lookup yields for the sign-in; a missing text field is empty. */
  datatype SignIn = SignIn(
    id: string, at: int, userId: string, clientApp: string,
    device: Option<Device>, location: Option<Location>, asn: Option<int>,
    status: Option<Status>, authRequirement: string, interactive: Option<bool>)

  datatype UserHistory = UserHistory(
    countries: seq<string>, asns: seq<int>,
    devices: set<string>, browsers: set<string>, os: set<string>,
    lastAt: Option<int>, lastLatitude: Option<real>, lastLongitude: Option<real>)

  const DAY: int := 86_400_000_000
  const WINDOW_DAYS: int := 30

  function NonEmpty(text: string): Option<string> { if text == "" then None else Some(text) }

  function CountryOf(s: SignIn): Option<string> {
    if s.location.Some? then NonEmpty(s.location.value.country) else None
  }

  function AsnOf(s: SignIn): Option<int> { s.asn }

  function DeviceOf(s: SignIn): Option<string> {
    if s.device.Some? then NonEmpty(s.device.value.deviceId) else None
  }

  function BrowserOf(s: SignIn): Option<string> {
    if s.device.Some? then NonEmpty(s.device.value.browser) else None
  }

  function OsOf(s: SignIn): Option<string> {
    if s.device.Some? then NonEmpty(s.device.value.operatingSystem) else None
  }

  function LatitudeOf(s: SignIn): Option<real> {
    if s.location.Some? && s.location.value.geo.Some? then s.location.value.geo.value.latitude else None
  }

  function LongitudeOf(s: SignIn): Option<real> {
    if s.location.Some? && s.location.value.geo.Some? then s.location.value.geo.value.longitude else None
  }

  function TimeOf(s: SignIn): Option<int> { Some(s.at) }

  predicate NoLater(a: SignIn, b: SignIn) { a.at <= b.at }

  function SortByTime(signins: seq<SignIn>): seq<SignIn> { Sort(signins, NoLater) }

  function Before(asOf: int): SignIn -> bool { (s: SignIn) => s.at < asOf }

  /** `f` on sign-ins inside the window, nothing on older ones. */
  function Since<T>(cutoff: int, f: SignIn -> Option<T>): SignIn -> Option<T> {
    (s: SignIn) => if s.at >= cutoff then f(s) else None
  }

  /** The history as a view of the earlier sign-ins in time order. */
  function HistoryView(earlier: seq<SignIn>, cutoff: int): UserHistory {
    UserHistory(
      Collect(earlier, Since(cutoff, CountryOf)), Collect(earlier, Since(cutoff, AsnOf)),
      ToSet(Collect(earlier, DeviceOf)), ToSet(Collect(earlier, BrowserOf)), ToSet(Collect(earlier, OsOf)),
      LastKnown(earlier, TimeOf), LastKnown(earlier, LatitudeOf), LastKnown(earlier, LongitudeOf))
  }

  /** Only sign-ins strictly before `asOf` take part. */
  function HistoryOf(signins: seq<SignIn>, asOf: int, windowDays: int): UserHistory {
    HistoryView(SortByTime(Filter(signins, Before(asOf))), asOf - windowDays * DAY)
  }

  lemma TimeIsPreorder()
    ensures TotalPreorder(NoLater)
  {
    forall x: SignIn, y: SignIn, z: SignIn
      ensures OrderLaws(NoLater, x, y, z)
    {
    }
  }

  /** In a sorted list the sign-ins before a moment are a prefix. */
  lemma EarlierIsPrefix(sorted: seq<SignIn>, i: nat, asOf: int)
    requires SortedBy(sorted, NoLater) && i <= |sorted|
    requires forall j | 0 <= j < i :: sorted[j].at < asOf
    requires i < |sorted| ==> sorted[i].at >= asOf
    ensures Filter(sorted, Before(asOf)) == sorted[..i]
  {
    LaterOnes(sorted, i, asOf);
    CutPrefix(sorted, i, asOf);
  }

  lemma {:induction false} CutPrefix(s: seq<SignIn>, i: nat, asOf: int)
    requires i <= |s|
    requires forall j | 0 <= j < i :: s[j].at < asOf
    requires forall j | i <= j < |s| :: s[j].at >= asOf
    ensures Filter(s, Before(asOf)) == s[..i]
  {
    if s == [] {
    } else {
      var front := s[..|s| - 1];
      if i == |s| {
        CutPrefix(front, i - 1, asOf);
        assert front[..i - 1] == front && s[..i] == s == front + [s[i - 1]];
      } else {
        CutPrefix(front, i, asOf);
        assert front[..i] == s[..i];
      }
    }
  }

  lemma LaterOnes(sorted: seq<SignIn>, i: nat, asOf: int)
    requires SortedBy(sorted, NoLater) && i <= |sorted| && (i < |sorted| ==> sorted[i].at >= asOf)
    ensures forall j | i <= j < |sorted| :: sorted[j].at >= asOf
  {
    forall j | i <= j < |sorted|
      ensures sorted[j].at >= asOf
    {
      assert j > i ==> NoLater(sorted[i], sorted[j]);
    }
  }

  /** What one more sign-in adds. */
  function Extended(was: UserHistory, s: SignIn, cutoff: int): UserHistory {
    UserHistory(
      if s.at >= cutoff && CountryOf(s).Some? then was.countries + [CountryOf(s).value] else was.countries,
      if s.at >= cutoff && s.asn.Some? then was.asns + [s.asn.value] else was.asns,
      if DeviceOf(s).Some? then was.devices + {DeviceOf(s).value} else was.devices,
      if BrowserOf(s).Some? then was.browsers + {BrowserOf(s).value} else was.browsers,
      if OsOf(s).Some? then was.os + {OsOf(s).value} else was.os,
      Some(s.at),
      if LatitudeOf(s).Some? then LatitudeOf(s) else was.lastLatitude,
      if LongitudeOf(s).Some? then LongitudeOf(s) else was.lastLongitude)
  }

  lemma ViewSnoc(earlier: seq<SignIn>, s: SignIn, cutoff: int)
    ensures HistoryView(earlier + [s], cutoff) == Extended(HistoryView(earlier, cutoff), s, cutoff)
  {
    WindowSnoc(earlier, s, cutoff, CountryOf);
    WindowSnoc(earlier, s, cutoff, AsnOf);
    SeenSnoc(earlier, s, DeviceOf);
    SeenSnoc(earlier, s, BrowserOf);
    SeenSnoc(earlier, s, OsOf);
    LastSnoc(earlier, s, TimeOf);
    LastSnoc(earlier, s, LatitudeOf);
    LastSnoc(earlier, s, LongitudeOf);
    SameHistory(HistoryView(earlier + [s], cutoff), Extended(HistoryView(earlier, cutoff), s, cutoff));
  }

  lemma WindowSnoc<T>(earlier: seq<SignIn>, s: SignIn, cutoff: int, f: SignIn -> Option<T>)
    ensures Collect(earlier + [s], Since(cutoff, f))
            == if s.at >= cutoff && f(s).Some? then Collect(earlier, Since(cutoff, f)) + [f(s).value]
               else Collect(earlier, Since(cutoff, f))
  {
    CollectSnoc(earlier, s, Since(cutoff, f));
  }

  lemma SeenSnoc(earlier: seq<SignIn>, s: SignIn, f: SignIn -> Option<string>)
    ensures ToSet(Collect(earlier + [s], f))
            == if f(s).Some? then ToSet(Collect(earlier, f)) + {f(s).value} else ToSet(Collect(earlier, f))
  {
    CollectSnoc(earlier, s, f);
  }

  lemma LastSnoc<T>(earlier: seq<SignIn>, s: SignIn, f: SignIn -> Option<T>)
    ensures LastKnown(earlier + [s], f) == if f(s).Some? then f(s) else LastKnown(earlier, f)
  {
    CollectSnoc(earlier, s, f);
  }

  method RememberDevice(s: SignIn, seenDevices: set<string>, seenBrowsers: set<string>, seenOs: set<string>)
    returns (devices: set<string>, browsers: set<string>, os: set<string>)
    ensures devices == if DeviceOf(s).Some? then seenDevices + {DeviceOf(s).value} else seenDevices
    ensures browsers == if BrowserOf(s).Some? then seenBrowsers + {BrowserOf(s).value} else seenBrowsers
    ensures os == if OsOf(s).Some? then seenOs + {OsOf(s).value} else seenOs
  {
    devices, browsers, os := seenDevices, seenBrowsers, seenOs;
    if s.device.Some? {
      if s.device.value.deviceId != "" {
        devices := devices + {s.device.value.deviceId};
      }
      if s.device.value.browser != "" {
        browsers := browsers + {s.device.value.browser};
      }
      if s.device.value.operatingSystem != "" {
        os := os + {s.device.value.operatingSystem};
      }
    }
  }

  method RememberPlace(s: SignIn, lastLat: Option<real>, lastLon: Option<real>)
    returns (latitude: Option<real>, longitude: Option<real>)
    ensures latitude == if LatitudeOf(s).Some? then LatitudeOf(s) else lastLat
    ensures longitude == if LongitudeOf(s).Some? then LongitudeOf(s) else lastLon
  {
    latitude, longitude := lastLat, lastLon;
    if s.location.Some? && s.location.value.geo.Some? {
      if s.location.value.geo.value.latitude.Some? {
        latitude := s.location.value.geo.value.latitude;
      }
      if s.location.value.geo.value.longitude.Some? {
        longitude := s.location.value.geo.value.longitude;
      }
    }
  }

  /** One pass of the loop body. */
  method Remember(history: UserHistory, s: SignIn, cutoff: int, ghost sorted: seq<SignIn>, ghost i: nat)
    returns (more: UserHistory)
    requires i < |sorted| && s == sorted[i] && history == HistoryView(sorted[..i], cutoff)
    ensures more == HistoryView(sorted[..i + 1], cutoff)
  {
    var countries, asns := history.countries, history.asns;
    if s.at >= cutoff {
      if s.location.Some? && s.location.value.country != "" {
        countries := countries + [s.location.value.country];
      }
      if s.asn.Some? {
        asns := asns + [s.asn.value];
      }
    }
    var devices, browsers, os := RememberDevice(s, history.devices, history.browsers, history.os);
    var lastLat, lastLon := RememberPlace(s, history.lastLatitude, history.lastLongitude);
    more := UserHistory(countries, asns, devices, browsers, os, Some(s.at), lastLat, lastLon);
    SameHistory(more, Extended(history, s, cutoff));
    NextView(sorted, i, cutoff, history);
  }

  method BuildHistoryFromSignins(signins: seq<SignIn>, asOf: int, windowDays: int) returns (history: UserHistory)
    ensures history == HistoryOf(signins, asOf, windowDays)
  {
    var cutoff := asOf - windowDays * DAY;
    history := UserHistory([], [], {}, {}, {}, None, None, None);
    var sorted := SortByTime(signins);
    EmptyView(sorted[..0], cutoff, history);
    var i := 0;
    while i < |sorted|
      invariant 0 <= i <= |sorted|
      invariant forall j | 0 <= j < i :: sorted[j].at < asOf
      invariant history == HistoryView(sorted[..i], cutoff)
    {
      var s := sorted[i];
      if s.at >= asOf {
        break;
      }
      history := Remember(history, s, cutoff, sorted, i);
      i := i + 1;
    }
    PrefixGivesHistory(signins, sorted, i, asOf, windowDays, history);
  }

  lemma PrefixGivesHistory(signins: seq<SignIn>, sorted: seq<SignIn>, i: nat, asOf: int, windowDays: int,
                           history: UserHistory)
    requires sorted == SortByTime(signins) && i <= |sorted|
    requires forall j | 0 <= j < i :: sorted[j].at < asOf
    requires i < |sorted| ==> sorted[i].at >= asOf
    requires history == HistoryView(sorted[..i], asOf - windowDays * DAY)
    ensures history == HistoryOf(signins, asOf, windowDays)
  {
    PrefixIsEarlier(signins, sorted, i, asOf);
    EarlierGivesHistory(signins, sorted[..i], asOf, asOf - windowDays * DAY, windowDays);
  }

  lemma NextView(sorted: seq<SignIn>, i: nat, cutoff: int, history: UserHistory)
    requires i < |sorted| && history == HistoryView(sorted[..i], cutoff)
    ensures Extended(history, sorted[i], cutoff) == HistoryView(sorted[..i + 1], cutoff)
  {
    ViewSnoc(sorted[..i], sorted[i], cutoff);
    assert sorted[..i + 1] == sorted[..i] + [sorted[i]];
  }

  lemma EmptyView(earlier: seq<SignIn>, cutoff: int, empty: UserHistory)
    requires earlier == [] && empty == UserHistory([], [], {}, {}, {}, None, None, None)
    ensures empty == HistoryView(earlier, cutoff)
  {
    SameHistory(empty, HistoryView(earlier, cutoff));
  }

  lemma SameHistory(one: UserHistory, other: UserHistory)
    requires one.countries == other.countries && one.asns == other.asns
    requires one.devices == other.devices && one.browsers == other.browsers && one.os == other.os
    requires one.lastAt == other.lastAt && one.lastLatitude == other.lastLatitude
    requires one.lastLongitude == other.lastLongitude
    ensures one == other
  {
  }

  lemma PrefixIsEarlier(signins: seq<SignIn>, sorted: seq<SignIn>, i: nat, asOf: int)
    requires sorted == SortByTime(signins) && i <= |sorted|
    requires forall j | 0 <= j < i :: sorted[j].at < asOf
    requires i < |sorted| ==> sorted[i].at >= asOf
    ensures sorted[..i] == SortByTime(Filter(signins, Before(asOf)))
  {
    TimeIsPreorder();
    SortIsSorted(signins, NoLater);
    EarlierIsPrefix(sorted, i, asOf);
    SortFilter(signins, NoLater, Before(asOf));
  }

  lemma EarlierGivesHistory(signins: seq<SignIn>, earlier: seq<SignIn>, asOf: int, cutoff: int, windowDays: int)
    requires earlier == SortByTime(Filter(signins, Before(asOf))) && cutoff == asOf - windowDays * DAY
    ensures HistoryView(earlier, cutoff) == HistoryOf(signins, asOf, windowDays)
  {
  }
}
