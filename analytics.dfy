/** `AnalyticsService`: view counts and watch-time sums per video and per
    creator, the top ten videos by views, views per day, and the active
    subscription counts. Averages are reals; the revenue estimates, which
    multiply by float prices, are not modelled. */
module Analytics {
  import opened Common
  import opened Schema
  import opened Collections

  /** One `analytics` row; `isoTime` is `watchedAt.toISOString()`. */
  datatype View = View(videoId: string, secondsWatched: nat, watchedAt: int, isoTime: string)

  datatype VideoStats = VideoStats(videoId: string, totalViews: nat, totalWatchTime: nat, avgWatchTime: real)

  /** `reduce((sum, a) => sum + a.secondsWatched, 0)`. */
  function WatchTime(views: seq<View>): nat
    decreases |views|
  {
    if views == [] then 0 else views[0].secondsWatched + WatchTime(views[1..])
  }

  lemma {:induction false} WatchTimeAppend(a: seq<View>, b: seq<View>)
    ensures WatchTime(a + b) == WatchTime(a) + WatchTime(b)
    decreases |a|
  {
    if a == [] {
      assert a + b == b;
    } else {
      assert (a + b)[0] == a[0] && (a + b)[1..] == a[1..] + b;
      WatchTimeAppend(a[1..], b);
    }
  }

  /** No view is longer than `cap`, so neither is the average. */
  lemma {:induction false} WatchTimeBound(views: seq<View>, cap: nat)
    requires forall i :: 0 <= i < |views| ==> views[i].secondsWatched <= cap
    ensures WatchTime(views) <= cap * |views|
    decreases |views|
  {
    if views != [] {
      WatchTimeBound(views[1..], cap);
    }
  }

  /** The rows `findMany({ where: { videoId } })` returns. */
  function RowsOfVideo(table: seq<View>, videoId: string): seq<View> {
    Filter(table, (a: View) => a.videoId == videoId)
  }

  /** `getVideoAnalytics`. */
  function VideoAnalytics(table: seq<View>, videoId: string): VideoStats {
    var views := RowsOfVideo(table, videoId);
    VideoStats(videoId, |views|, WatchTime(views),
               if |views| > 0 then WatchTime(views) as real / |views| as real else 0.0)
  }

  /** How many rows of the table belong to the video, counted row by row. */
  function ViewCount(table: seq<View>, videoId: string): nat
    decreases |table|
  {
    if table == [] then 0
    else (if table[0].videoId == videoId then 1 else 0) + ViewCount(table[1..], videoId)
  }

  /** The seconds watched over the video's rows, summed row by row. */
  function SecondsWatched(table: seq<View>, videoId: string): nat
    decreases |table|
  {
    if table == [] then 0
    else (if table[0].videoId == videoId then table[0].secondsWatched else 0) + SecondsWatched(table[1..], videoId)
  }

  /** `totalViews` is the number of the video's rows and `totalWatchTime`
      the sum of their seconds; there are views exactly when some row
      belongs to the video. */
  lemma VideoAnalyticsFacts(table: seq<View>, videoId: string)
    ensures var s := VideoAnalytics(table, videoId);
      s.videoId == videoId &&
      s.totalViews == ViewCount(table, videoId) &&
      s.totalWatchTime == SecondsWatched(table, videoId) &&
      (s.totalViews > 0 <==> exists a :: a in table && a.videoId == videoId)
  {
    RowsOfVideoCounts(table, videoId);
    RowsOfVideoNonEmpty(table, videoId);
  }

  /** The average is zero without views and otherwise multiplies back to
      the total. */
  lemma VideoAnalyticsAverage(table: seq<View>, videoId: string)
    ensures var s := VideoAnalytics(table, videoId);
      (s.totalViews == 0 ==> s.avgWatchTime == 0.0 && s.totalWatchTime == 0) &&
      (s.totalViews > 0 ==> s.avgWatchTime * s.totalViews as real == s.totalWatchTime as real)
  {
  }

  lemma RowsOfVideoNonEmpty(table: seq<View>, videoId: string)
    ensures |RowsOfVideo(table, videoId)| > 0 <==> exists a :: a in table && a.videoId == videoId
  {
    var views := RowsOfVideo(table, videoId);
    forall a | a in table && a.videoId == videoId ensures |views| > 0 {
      var i :| 0 <= i < |table| && table[i] == a;
      assert table[i] in views;
    }
    if |views| > 0 {
      assert views[0] in table && views[0].videoId == videoId;
    }
  }

  lemma {:induction false} RowsOfVideoCounts(table: seq<View>, videoId: string)
    ensures |RowsOfVideo(table, videoId)| == ViewCount(table, videoId)
    ensures WatchTime(RowsOfVideo(table, videoId)) == SecondsWatched(table, videoId)
    decreases |table|
  {
    if table != [] {
      RowsOfVideoCounts(table[1..], videoId);
      var head: seq<View> := if table[0].videoId == videoId then [table[0]] else [];
      assert RowsOfVideo(table, videoId) == head + RowsOfVideo(table[1..], videoId);
      WatchTimeAppend(head, RowsOfVideo(table[1..], videoId));
    }
  }

  // ---------------------------------------------------------------------
  // getCreatorAnalytics
  // ---------------------------------------------------------------------

  /** A video of the creator with its analytics rows and `_count`s. */
  datatype CreatorVideo = CreatorVideo(id: string, title: string, views: seq<View>, likes: nat, comments: nat)

  datatype TopVideo = TopVideo(id: string, title: string, views: nat, likes: nat, comments: nat)

  datatype CreatorStats = CreatorStats(totalVideos: nat, totalViews: nat, totalWatchTime: nat,
                                       totalLikes: nat, totalComments: nat, avgViewsPerVideo: real,
                                       topVideos: seq<TopVideo>, viewsByDay: seq<TermCount>)

  function TotalViews(vs: seq<CreatorVideo>): nat
    decreases |vs|
  {
    if vs == [] then 0 else |vs[0].views| + TotalViews(vs[1..])
  }

  function TotalWatchTime(vs: seq<CreatorVideo>): nat
    decreases |vs|
  {
    if vs == [] then 0 else WatchTime(vs[0].views) + TotalWatchTime(vs[1..])
  }

  function TotalLikes(vs: seq<CreatorVideo>): nat
    decreases |vs|
  {
    if vs == [] then 0 else vs[0].likes + TotalLikes(vs[1..])
  }

  function TotalComments(vs: seq<CreatorVideo>): nat
    decreases |vs|
  {
    if vs == [] then 0 else vs[0].comments + TotalComments(vs[1..])
  }

  /** Every analytics row of every video, video by video. */
  function AllViews(vs: seq<CreatorVideo>): seq<View>
    decreases |vs|
  {
    if vs == [] then [] else vs[0].views + AllViews(vs[1..])
  }

  /** The creator's totals are the totals over all the creator's rows:
      the view count is the number of rows and the watch time their sum. */
  lemma {:induction false} CreatorTotalsFacts(vs: seq<CreatorVideo>)
    ensures TotalViews(vs) == |AllViews(vs)|
    ensures TotalWatchTime(vs) == WatchTime(AllViews(vs))
    decreases |vs|
  {
    if vs != [] {
      CreatorTotalsFacts(vs[1..]);
      WatchTimeAppend(vs[0].views, AllViews(vs[1..]));
    }
  }

  function Summary(v: CreatorVideo): TopVideo {
    TopVideo(v.id, v.title, |v.views|, v.likes, v.comments)
  }

  function ViewsOf(t: TopVideo): int { t.views }

  function Summaries(vs: seq<CreatorVideo>): (r: seq<TopVideo>)
    ensures |r| == |vs| && forall i :: 0 <= i < |vs| ==> r[i] == Summary(vs[i])
  {
    seq(|vs|, i requires 0 <= i < |vs| => Summary(vs[i]))
  }

  /** `map(...).sort((a, b) => b.views - a.views).slice(0, 10)`. */
  function TopVideos(vs: seq<CreatorVideo>): seq<TopVideo> {
    Take(SortDesc(Summaries(vs), ViewsOf), 10)
  }

  /** At most ten, each the summary of one of the creator's videos, by
      non-increasing views, and no video left out has more views than one
      kept. */
  lemma TopVideosFacts(vs: seq<CreatorVideo>)
    ensures var top := TopVideos(vs);
      |top| <= 10 && |top| == (if |vs| < 10 then |vs| else 10) &&
      SortedDesc(top, ViewsOf) &&
      (forall t :: t in top ==> exists i :: 0 <= i < |vs| && t == Summary(vs[i])) &&
      (forall i, j :: 0 <= i < |top| && 0 <= j < |vs| && Summary(vs[j]) !in top ==> top[i].views >= |vs[j].views|)
  {
    var sums := Summaries(vs);
    var sorted := SortDesc(sums, ViewsOf);
    SortDescFacts(sums, ViewsOf);
    TakeSorted(sorted, ViewsOf, 10);
    TopOfSorted(sorted, ViewsOf, 10);
    var top := TopVideos(vs);
    forall t | t in top ensures exists i :: 0 <= i < |vs| && t == Summary(vs[i]) {
      TakeWithin(sorted, 10, t);
      SortDescWithin(sums, ViewsOf, t);
      var i :| 0 <= i < |sums| && sums[i] == t;
    }
    forall i, j | 0 <= i < |top| && 0 <= j < |vs| && Summary(vs[j]) !in top ensures top[i].views >= |vs[j].views| {
      assert Summary(vs[j]) in multiset(sorted) by {
        assert sums[j] == Summary(vs[j]);
      }
      var k :| 0 <= k < |sorted| && sorted[k] == Summary(vs[j]);
      assert k >= |top|;
    }
  }

  /** `toISOString().split('T')[0]`. */
  function Day(a: View): string {
    Split(a.isoTime, 'T')[0]
  }

  function Days(recent: seq<View>): (r: seq<string>)
    ensures |r| == |recent| && forall i :: 0 <= i < |recent| ==> r[i] == Day(recent[i])
  {
    seq(|recent|, i requires 0 <= i < |recent| => Day(recent[i]))
  }

  /** The rows of the creator's videos watched at or after `since`. */
  function Recent(table: seq<View>, videoIds: set<string>, since: int): seq<View> {
    Filter(table, (a: View) => a.videoId in videoIds && a.watchedAt >= since)
  }

  /** The `forEach` filling `viewsByDay`. */
  method ViewsByDay(recent: seq<View>) returns (counts: seq<TermCount>)
    ensures counts == Tally(Days(recent))
  {
    counts := [];
    var i := 0;
    while i < |recent|
      invariant 0 <= i <= |recent|
      invariant counts == Tally(Days(recent[..i]))
    {
      assert Days(recent[..i + 1]) == Days(recent[..i]) + [Day(recent[i])];
      TallySnoc(Days(recent[..i]), Day(recent[i]));
      counts := Bump(counts, Day(recent[i]));
      i := i + 1;
    }
    assert recent[..i] == recent;
  }

  /** The per-day counts: each day once, each with the number of rows on
      that day, adding up to the number of recent rows. */
  lemma ViewsByDayFacts(recent: seq<View>)
    ensures var byDay := Tally(Days(recent));
      Distinct(Terms(byDay)) && SumCounts(byDay) == |recent| &&
      (forall i :: 0 <= i < |byDay| ==> byDay[i].count == Occurrences(Days(recent), byDay[i].term) && byDay[i].count > 0)
  {
    TallyFacts(Days(recent));
    var byDay := Tally(Days(recent));
    forall i | 0 <= i < |byDay| ensures byDay[i].count > 0 {
      assert byDay[i].term == Terms(byDay)[i];
      OccurrencesPresent(Days(recent), byDay[i].term);
    }
  }

  lemma {:induction false} OccurrencesPresent(keys: seq<string>, t: string)
    requires t in keys
    ensures Occurrences(keys, t) > 0
    decreases |keys|
  {
    if Last(keys) != t {
      InitLast(keys);
      assert t in keys[..|keys| - 1];
      OccurrencesPresent(keys[..|keys| - 1], t);
    }
  }

  /** `getCreatorAnalytics`: `videos` are the creator's videos, `views`
      the analytics table and `since` the time thirty days ago. */
  method CreatorAnalytics(videos: seq<CreatorVideo>, views: seq<View>, since: int) returns (r: CreatorStats)
    ensures r.totalVideos == |videos|
    ensures r.totalViews == |AllViews(videos)| && r.totalWatchTime == WatchTime(AllViews(videos))
    ensures r.totalLikes == TotalLikes(videos) && r.totalComments == TotalComments(videos)
    ensures r.avgViewsPerVideo == if |videos| > 0 then r.totalViews as real / |videos| as real else 0.0
    ensures r.topVideos == TopVideos(videos)
    ensures var ids := set v | v in videos :: v.id;
      r.viewsByDay == Tally(Days(Recent(views, ids, since)))
  {
    CreatorTotalsFacts(videos);
    var ids := set v | v in videos :: v.id;
    var byDay := ViewsByDay(Recent(views, ids, since));
    var total := TotalViews(videos);
    r := CreatorStats(|videos|, total, TotalWatchTime(videos), TotalLikes(videos), TotalComments(videos),
                      if |videos| > 0 then total as real / |videos| as real else 0.0,
                      TopVideos(videos), byDay);
  }

  // ---------------------------------------------------------------------
  // getSubscriptionRevenue
  // ---------------------------------------------------------------------

  datatype Subscription = Subscription(status: SubscriptionStatus, planType: string)

  datatype SubscriptionCounts = SubscriptionCounts(monthly: nat, annual: nat, total: nat)

  /** `getSubscriptionRevenue`'s counts. The creator id it is given plays
      no part: every active subscription is counted. */
  function SubscriptionRevenue(table: seq<Subscription>): SubscriptionCounts {
    var active := Filter(table, (s: Subscription) => s.status == Active);
    SubscriptionCounts(|Filter(active, (s: Subscription) => s.planType == "monthly")|,
                       |Filter(active, (s: Subscription) => s.planType == "annual")|,
                       |active|)
  }

  /** Two filters by disjoint conditions select at most the whole. */
  lemma {:induction false} DisjointFilters<T>(s: seq<T>, p: T -> bool, q: T -> bool)
    requires forall x :: !(p(x) && q(x))
    ensures |Filter(s, p)| + |Filter(s, q)| <= |s|
    decreases |s|
  {
    if s != [] {
      DisjointFilters(s[1..], p, q);
    }
  }

  /** Monthly and annual plans together never exceed the active total. */
  lemma SubscriptionCountsBound(table: seq<Subscription>)
    ensures var c := SubscriptionRevenue(table); c.monthly + c.annual <= c.total
    ensures SubscriptionRevenue(table).total <= |table|
  {
    var active := Filter(table, (s: Subscription) => s.status == Active);
    DisjointFilters(active, (s: Subscription) => s.planType == "monthly", (s: Subscription) => s.planType == "annual");
  }
}
