/** The reports of server/src/controllers/analyticsController.js: the admin
    dashboard (totals, recent activity, a 30-day activity chart, top
    downloaders and most viewed collections) and one user's activity
    summary. Timestamps are milliseconds since the epoch and a calendar day
    is a day number `Day(t)`, in UTC. The current time is a parameter. */
module AnalyticsController {

  import opened Common
  import opened Seqs
  import opened UserModel
  import opened ImageModel
  import opened CollectionModel
  import opened AnalyticsModel
  import opened Store

  // ---------------------------------------------------------------------------
  // days

  const MsPerDay: int := 86400000

  /** The UTC calendar day of a timestamp (`$dateToString` and
      `toISOString().split('T')[0]`), as a day number. */
  function Day(t: int): int {
    t / MsPerDay
  }

  /** `thirtyDaysAgo`: the current time moved back 30 days. */
  function ThirtyDaysAgo(now: int): int {
    now - 30 * MsPerDay
  }

  // ---------------------------------------------------------------------------
  // counting events

  /** The number of events `select` maps to `Some(k)`. */
  function CountSel<K(==)>(events: seq<Event>, select: Event -> Option<K>, k: K): (n: nat)
    ensures n <= |events|
    ensures n == 0 <==> forall i :: 0 <= i < |events| ==> select(events[i]) != Some(k)
  {
    if events == [] then 0
    else
      assert forall i :: 1 <= i < |events| ==> events[i] == events[1..][i - 1];
      (if select(events[0]) == Some(k) then 1 else 0) + CountSel(events[1..], select, k)
  }

  function TypeOf(e: Event): Option<ActionType> {
    Some(e.actionType)
  }

  /** `countDocuments({actionType: a})`. */
  function CountType(events: seq<Event>, a: ActionType): nat {
    CountSel(events, TypeOf, a)
  }

  /** The three per-type totals add up to the number of events: every event
      has exactly one action type. */
  lemma {:induction false} TypeTotalsPartition(events: seq<Event>)
    ensures CountType(events, ActionType.Login) + CountType(events, Download) + CountType(events, View) == |events|
  {
    if events != [] {
      TypeTotalsPartition(events[1..]);
      assert TypeOf(events[0]) == Some(events[0].actionType);
      assert forall a :: CountType(events, a) == (if events[0].actionType == a then 1 else 0) + CountType(events[1..], a);
    }
  }

  /** The values of `select` over the events, in order (a `$match` stage
      followed by the `_id` of a `$group` stage). */
  function Keys<K(==,!new)>(events: seq<Event>, select: Event -> Option<K>): (keys: seq<K>)
    ensures forall k :: multiset(keys)[k] == CountSel(events, select, k)
  {
    if events == [] then []
    else
      var rest := Keys(events[1..], select);
      match select(events[0])
      case Some(k0) => [k0] + rest
      case None => rest
  }

  /** The events of one user (`{user: userId}`), in order. */
  function ByUser(events: seq<Event>, user: UserId): (r: seq<Event>)
    ensures |r| <= |events|
    ensures forall i :: 0 <= i < |r| ==> r[i].user == user && r[i] in events
    ensures forall i :: 0 <= i < |events| && events[i].user == user ==> events[i] in r
  {
    if events == [] then []
    else
      var rest := ByUser(events[1..], user);
      assert forall i :: 1 <= i < |events| ==> events[i] == events[1..][i - 1];
      if events[0].user == user then [events[0]] + rest else rest
  }

  /** `ByUser` is a filter: the user's events, each as often as logged, and
      in log order. */
  lemma {:induction false} ByUserIsFilter(events: seq<Event>, user: UserId)
    ensures forall e :: multiset(ByUser(events, user))[e] == if e.user == user then multiset(events)[e] else 0
    ensures IsSubsequence(ByUser(events, user), events)
  {
    if events != [] {
      ByUserIsFilter(events[1..], user);
      var rest := ByUser(events[1..], user);
      assert events == [events[0]] + events[1..];
      if events[0].user == user {
        assert ByUser(events, user) == [events[0]] + rest;
        assert ([events[0]] + rest)[1..] == rest;
      } else {
        assert ByUser(events, user) == rest;
      }
    }
  }

  // ---------------------------------------------------------------------------
  // recent activity

  function Timestamp(e: Event): int {
    e.timestamp
  }

  /** `find().sort({timestamp: -1}).limit(n)`: at most `n` events of the log,
      newest first. */
  function Recent(events: seq<Event>, n: nat): (r: seq<Event>)
    ensures |r| == if |events| < n then |events| else n
    ensures SortedDesc(r, Timestamp)
    ensures multiset(r) <= multiset(events)
  {
    var s := SortDesc(events, Timestamp);
    TakeSorted(s, Timestamp, n);
    Take(s, n)
  }

  /** No event left out of `Recent` is newer than one kept. */
  lemma RecentKeepsNewest(events: seq<Event>, n: nat, e: Event, i: nat)
    requires e in multiset(events) && e !in multiset(Recent(events, n))
    requires i < |Recent(events, n)|
    ensures e.timestamp <= Recent(events, n)[i].timestamp
  {
    TopDominates(events, Timestamp, n, e, i);
  }

  // ---------------------------------------------------------------------------
  // top lists

  function DownloadUser(e: Event): Option<UserId> {
    if e.actionType == Download then Some(e.user) else None
  }

  /** `{actionType: 'view', collection: {$ne: null}}`, grouped by collection. */
  function ViewedCollection(e: Event): Option<CollectionId> {
    if e.actionType == View then e.collection else None
  }

  /** `{actionType: 'download', image: {$ne: null}}`, grouped by image. */
  function DownloadedImage(e: Event): Option<ImageId> {
    if e.actionType == Download then e.image else None
  }

  function UsernameOf(u: User): string { u.username }
  function CollectionNameOf(c: Collection): string { c.name }
  function OriginalNameOf(img: Image): string { img.originalName }

  /** A top list: group the selected keys, sort by count, keep 5, then join
      with the records and drop the keys without one. What is kept are
      exactly the top groups whose key has a record, each once. */
  function TopList<K(==,!new), V>(events: seq<Event>, select: Event -> Option<K>, m: map<K, V>, nameOf: V -> string): (r: seq<Ranked<K>>)
    ensures |r| <= 5
    ensures RankedDesc(r)
    ensures forall i :: 0 <= i < |r| ==>
      && r[i].key in m && r[i].name == nameOf(m[r[i].key])
      && r[i].count == CountSel(events, select, r[i].key) > 0
    ensures forall i, j :: 0 <= i < j < |r| ==> r[i].key != r[j].key
    ensures var top := Top(Keys(events, select), 5);
      && (forall i :: 0 <= i < |r| ==> Group(r[i].key, r[i].count) in top)
      && (forall j :: 0 <= j < |top| && top[j].key in m ==> Ranked(top[j].key, nameOf(m[top[j].key]), top[j].count) in r)
  {
    TopListShape(Top(Keys(events, select), 5), m, nameOf);
    TopListCounts(events, select, m, nameOf);
    RankPresent(Top(Keys(events, select), 5), m, nameOf)
  }

  /** The join of a top list is short, descending and without repeated keys. */
  lemma TopListShape<K, V>(top: seq<Group<K>>, m: map<K, V>, nameOf: V -> string)
    requires |top| <= 5 && SortedDesc(top, GroupCount)
    requires forall i, j :: 0 <= i < j < |top| ==> top[i].key != top[j].key
    ensures |RankPresent(top, m, nameOf)| <= 5
    ensures RankedDesc(RankPresent(top, m, nameOf))
    ensures forall i, j :: 0 <= i < j < |RankPresent(top, m, nameOf)| ==>
      RankPresent(top, m, nameOf)[i].key != RankPresent(top, m, nameOf)[j].key
  {
    RankPresentSorted(top, m, nameOf);
    RankPresentDistinct(top, m, nameOf);
  }

  /** Each entry of the joined top list carries its key's count. */
  lemma TopListCounts<K(!new), V>(events: seq<Event>, select: Event -> Option<K>, m: map<K, V>, nameOf: V -> string)
    ensures var r := RankPresent(Top(Keys(events, select), 5), m, nameOf);
      forall i :: 0 <= i < |r| ==> r[i].count == CountSel(events, select, r[i].key) > 0
  {
    var keys := Keys(events, select);
    var top := Top(keys, 5);
    JoinedCounts(keys, top, RankPresent(top, m, nameOf));
  }

  /** The counts a join carries are those of its groups. */
  lemma JoinedCounts<K>(keys: seq<K>, top: seq<Group<K>>, r: seq<Ranked<K>>)
    requires forall j :: 0 <= j < |top| ==> top[j].count == multiset(keys)[top[j].key] > 0
    requires forall i :: 0 <= i < |r| ==> Group(r[i].key, r[i].count) in top
    ensures forall i :: 0 <= i < |r| ==> r[i].count == multiset(keys)[r[i].key] > 0
  {
    forall i | 0 <= i < |r|
      ensures r[i].count == multiset(keys)[r[i].key] > 0
    {
      var j :| 0 <= j < |top| && top[j] == Group(r[i].key, r[i].count);
    }
  }

  /** A key with a record that is missing from a top list that still has
      room is there because it is rarer than every entry, or the list is
      the keys' full set: no more frequent key is ever skipped. */
  lemma TopListSkipsOnlyRarer<K(!new), V>(events: seq<Event>, select: Event -> Option<K>, m: map<K, V>,
                                        nameOf: V -> string, k: K, i: nat)
    requires k in m && CountSel(events, select, k) > 0
    requires forall j :: 0 <= j < |TopList(events, select, m, nameOf)| ==> TopList(events, select, m, nameOf)[j].key != k
    requires i < |TopList(events, select, m, nameOf)|
    ensures CountSel(events, select, k) <= TopList(events, select, m, nameOf)[i].count
  {
    var keys := Keys(events, select);
    var r := TopList(events, select, m, nameOf);
    assert k in multiset(keys);
    SkippedIsRarer(keys, r, m, nameOf, k, i);
  }

  lemma SkippedIsRarer<K, V>(keys: seq<K>, r: seq<Ranked<K>>, m: map<K, V>, nameOf: V -> string, k: K, i: nat)
    requires k in m && k in multiset(keys)
    requires forall j :: 0 <= j < |r| ==> r[j].key != k
    requires i < |r|
    requires forall j :: 0 <= j < |r| ==> Group(r[j].key, r[j].count) in Top(keys, 5)
    requires forall j :: 0 <= j < |Top(keys, 5)| && Top(keys, 5)[j].key in m ==>
      Ranked(Top(keys, 5)[j].key, nameOf(m[Top(keys, 5)[j].key]), Top(keys, 5)[j].count) in r
    ensures multiset(keys)[k] <= r[i].count
  {
    var top := Top(keys, 5);
    var g :| 0 <= g < |top| && top[g] == Group(r[i].key, r[i].count);
    forall j | 0 <= j < |top|
      ensures top[j].key != k
    {
      if top[j].key in m {
        assert Ranked(top[j].key, nameOf(m[top[j].key]), top[j].count) in r;
      }
    }
    TopExcludesOnlySmaller(keys, 5, k, g);
  }

  // ---------------------------------------------------------------------------
  // the activity chart

  /** A chart entry: one day's number of logins, downloads and views. */
  datatype DayRow = DayRow(date: int, login: nat, download: nat, view: nat)

  /** `activityByDay`: events since `since`, grouped by (day, action type). */
  function DayKeys(events: seq<Event>, since: int): (keys: seq<(int, ActionType)>)
  {
    if events == [] then []
    else
      var e := events[0];
      (if e.timestamp >= since then [(Day(e.timestamp), e.actionType)] else []) + DayKeys(events[1..], since)
  }

  function ActivityByDay(events: seq<Event>, since: int): seq<Group<(int, ActionType)>> {
    CountBy(DayKeys(events, since))
  }

  /** The count the fill loop leaves for `key`: that of the last group with
      this key, or 0 when there is none (the zero fill). */
  function Lookup(gs: seq<Group<(int, ActionType)>>, key: (int, ActionType)): nat {
    if gs == [] then 0
    else if gs[|gs| - 1].key == key then gs[|gs| - 1].count
    else Lookup(gs[..|gs| - 1], key)
  }

  function Row(gs: seq<Group<(int, ActionType)>>, d: int): DayRow {
    DayRow(d, Lookup(gs, (d, ActionType.Login)), Lookup(gs, (d, Download)), Lookup(gs, (d, View)))
  }

  /** The chart as the handler returns it: the 30 days ending today, oldest
      first, each with the grouped counts of that day. */
  function ChartRows(gs: seq<Group<(int, ActionType)>>, today: int): (rows: seq<DayRow>)
    ensures |rows| == 30
    ensures forall k :: 0 <= k < 30 ==> rows[k].date == today - 29 + k
  {
    var rows := seq(30, k => Row(gs, today - 29 + k));
    assert forall k :: 0 <= k < 30 ==> rows[k] == Row(gs, today - 29 + k);
    rows
  }

  function SetCount(row: DayRow, a: ActionType, n: nat): DayRow {
    match a
    case Login => row.(login := n)
    case Download => row.(download := n)
    case View => row.(view := n)
  }

  /** The chart loops: create a zero entry for each of the last 30 days,
      write each grouped count whose day has an entry, then list the entries
      by ascending date (the 30 keys are consecutive days, so that order is
      from 29 days ago to today). */
  method BuildChart(groups: seq<Group<(int, ActionType)>>, today: int) returns (chart: seq<DayRow>)
    ensures chart == ChartRows(groups, today)
  {
    var activityChart: map<int, DayRow> := map[];
    for i := 0 to 30
      invariant forall d :: d in activityChart <==> today - i < d <= today
      invariant forall d :: d in activityChart ==> activityChart[d] == DayRow(d, 0, 0, 0)
    {
      var date := today - i;
      if date !in activityChart {
        activityChart := activityChart[date := DayRow(date, 0, 0, 0)];
      }
    }
    for j := 0 to |groups|
      invariant forall d :: d in activityChart <==> today - 30 < d <= today
      invariant forall d :: d in activityChart ==> activityChart[d] == Row(groups[..j], d)
    {
      var (date, action) := groups[j].key;
      assert groups[..j + 1][..j] == groups[..j];
      if date in activityChart {
        activityChart := activityChart[date := SetCount(activityChart[date], action, groups[j].count)];
      }
    }
    assert groups[..|groups|] == groups;
    chart := [];
    for k := 0 to 30
      invariant |chart| == k
      invariant forall m :: 0 <= m < k ==> chart[m] == Row(groups, today - 29 + m)
    {
      chart := chart + [activityChart[today - 29 + k]];
    }
  }

  /** The day 30 days ago is filtered in but has no chart entry: its events
      from the cut-off time on are grouped and then dropped. */
  lemma CutoffDayDropped(now: int, gs: seq<Group<(int, ActionType)>>)
    ensures Day(ThirtyDaysAgo(now)) == Day(now) - 30
    ensures forall k :: 0 <= k < 30 ==> ChartRows(gs, Day(now))[k].date != Day(ThirtyDaysAgo(now))
  {
  }

  /** Every event of a charted day passed the 30-days-ago filter. */
  lemma ChartedDayAfterCutoff(now: int, t: int)
    requires Day(now) - 29 <= Day(t)
    ensures t >= ThirtyDaysAgo(now)
  {
  }

  function DayAndType(e: Event): Option<(int, ActionType)> {
    Some((Day(e.timestamp), e.actionType))
  }

  /** On a day wholly after the cut-off, the filtered keys count every event
      of that day and type. */
  lemma {:induction false} DayKeysCount(events: seq<Event>, since: int, d: int, a: ActionType)
    requires d * MsPerDay >= since
    ensures multiset(DayKeys(events, since))[(d, a)] == CountSel(events, DayAndType, (d, a))
  {
    if events != [] {
      DayKeysCount(events[1..], since, d, a);
      var e := events[0];
      if Day(e.timestamp) == d {
        assert e.timestamp >= d * MsPerDay;
      }
    }
  }

  /** The count left for a key after filling from `CountBy` groups is the
      key's number of occurrences (0 when it never occurs). */
  lemma LookupCountBy(keys: seq<(int, ActionType)>, key: (int, ActionType))
    ensures Lookup(CountBy(keys), key) == multiset(keys)[key]
  {
    var gs := CountBy(keys);
    LookupDistinct(gs, key);
    if key in keys {
      var i :| 0 <= i < |keys| && keys[i] == key;
    }
  }

  lemma {:induction false} LookupDistinct(gs: seq<Group<(int, ActionType)>>, key: (int, ActionType))
    requires forall i, j :: 0 <= i < j < |gs| ==> gs[i].key != gs[j].key
    ensures (forall j :: 0 <= j < |gs| ==> gs[j].key != key) ==> Lookup(gs, key) == 0
    ensures forall j :: 0 <= j < |gs| && gs[j].key == key ==> Lookup(gs, key) == gs[j].count
  {
    if gs != [] {
      var init := gs[..|gs| - 1];
      assert forall i :: 0 <= i < |init| ==> init[i] == gs[i];
      LookupDistinct(init, key);
    }
  }

  /** The dashboard chart counts, for each of its 30 days, all the logins,
      downloads and views of that day. */
  lemma ChartCountsEveryEvent(events: seq<Event>, now: int, k: nat)
    requires k < 30
    ensures var row := ChartRows(ActivityByDay(events, ThirtyDaysAgo(now)), Day(now))[k];
      && row.login == CountSel(events, DayAndType, (row.date, ActionType.Login))
      && row.download == CountSel(events, DayAndType, (row.date, Download))
      && row.view == CountSel(events, DayAndType, (row.date, View))
  {
    var since := ThirtyDaysAgo(now);
    var d := Day(now) - 29 + k;
    assert d * MsPerDay >= since;
    var keys := DayKeys(events, since);
    var gs := ActivityByDay(events, since);
    assert gs == CountBy(keys);
    var row := ChartRows(gs, Day(now))[k];
    assert row == Row(gs, d);
    LookupCountBy(keys, (d, ActionType.Login));
    LookupCountBy(keys, (d, Download));
    LookupCountBy(keys, (d, View));
    DayKeysCount(events, since, d, ActionType.Login);
    DayKeysCount(events, since, d, Download);
    DayKeysCount(events, since, d, View);
  }

  // ---------------------------------------------------------------------------
  // getDashboardAnalytics

  datatype Counts = Counts(users: nat, images: nat, collections: nat, logins: nat, downloads: nat, views: nat)

  datatype Dashboard = Dashboard(
    counts: Counts,
    recentActivities: seq<Event>,
    chartData: seq<DayRow>,
    topUsersByDownloads: seq<Ranked<UserId>>,
    topCollectionsByViews: seq<Ranked<CollectionId>>)

  /** `getDashboardAnalytics`: the record totals, the per-type event totals,
      the 10 newest events, the chart, and the top-5 lists. */
  method GetDashboardAnalytics(db: Database, now: int) returns (d: Dashboard)
    ensures d.counts == Counts(|db.users|, |db.images|, |db.collections|,
                               CountType(db.events, ActionType.Login), CountType(db.events, Download), CountType(db.events, View))
    ensures d.counts.logins + d.counts.downloads + d.counts.views == |db.events|
    ensures d.recentActivities == Recent(db.events, 10)
    ensures d.chartData == ChartRows(ActivityByDay(db.events, ThirtyDaysAgo(now)), Day(now))
    ensures d.topUsersByDownloads == TopList(db.events, DownloadUser, db.users, UsernameOf)
    ensures d.topCollectionsByViews == TopList(db.events, ViewedCollection, db.collections, CollectionNameOf)
  {
    var events := db.events;
    var counts := Counts(|db.users|, |db.images|, |db.collections|,
                         CountType(events, ActionType.Login), CountType(events, Download), CountType(events, View));
    TypeTotalsPartition(events);
    var chart := BuildChart(ActivityByDay(events, ThirtyDaysAgo(now)), Day(now));
    d := Dashboard(counts, Recent(events, 10), chart,
                   TopList(events, DownloadUser, db.users, UsernameOf),
                   TopList(events, ViewedCollection, db.collections, CollectionNameOf));
  }

  // ---------------------------------------------------------------------------
  // getUserAnalytics

  datatype UserReport = UserReport(
    id: UserId, username: string, role: Role, createdAt: int, lastLogin: Option<int>,
    loginCount: nat, downloadCount: nat, viewCount: nat, totalActions: nat,
    recentActivity: seq<Event>,
    mostViewedCollections: seq<Ranked<CollectionId>>,
    mostDownloadedImages: seq<Ranked<ImageId>>)

  /** `getUserAnalytics`: 404 for an unknown user; otherwise the user's
      per-type counts and their total, which is the number of the user's
      events, the 20 newest of them, and the user's top-5 viewed collections
      and downloaded images. */
  function GetUserAnalytics(db: Database, user: UserId): (r: (Status, Option<UserReport>))
    reads db
    ensures r.0 == NotFound <==> user !in db.users
    ensures r.0 != NotFound ==> r.0 == Ok
    ensures r.1.Some? <==> r.0 == Ok
    ensures r.0 == Ok ==>
      var mine := ByUser(db.events, user);
      var rep := r.1.value;
      && rep.id == user && rep.username == db.users[user].username && rep.role == db.users[user].role
      && rep.createdAt == db.users[user].createdAt && rep.lastLogin == db.users[user].lastLogin
      && rep.loginCount == CountType(mine, ActionType.Login)
      && rep.downloadCount == CountType(mine, Download)
      && rep.viewCount == CountType(mine, View)
      && rep.totalActions == rep.loginCount + rep.downloadCount + rep.viewCount == |mine|
      && rep.recentActivity == Recent(mine, 20) && |rep.recentActivity| <= 20
      && rep.mostViewedCollections == TopList(mine, ViewedCollection, db.collections, CollectionNameOf)
      && rep.mostDownloadedImages == TopList(mine, DownloadedImage, db.images, OriginalNameOf)
  {
    if user !in db.users then (NotFound, None)
    else
      var u := db.users[user];
      var mine := ByUser(db.events, user);
      TypeTotalsPartition(mine);
      var logins := CountType(mine, ActionType.Login);
      var downloads := CountType(mine, Download);
      var views := CountType(mine, View);
      (Ok, Some(UserReport(user, u.username, u.role, u.createdAt, u.lastLogin,
                           logins, downloads, views, logins + downloads + views,
                           Recent(mine, 20),
                           TopList(mine, ViewedCollection, db.collections, CollectionNameOf),
                           TopList(mine, DownloadedImage, db.images, OriginalNameOf))))
  }
}
