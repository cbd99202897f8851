/** `SearchService`: the global search over videos, playlists and
    creators, the filtered video search with its `hasMore` flag, the
    autocomplete suggestions and the popular-tag ranking. The database is
    a set of tables (sequences); a query's `where` is a filter over a
    table and `orderBy createdAt desc` the stable descending sort. */
module Search {
  import opened Common
  import opened Schema
  import opened Collections

  datatype Video = Video(id: string, title: string, description: string, tags: seq<string>,
                         creatorId: string, visibility: Visibility, published: bool, createdAt: int)

  /** A playlist row with its `_count.videos`. */
  datatype Playlist = Playlist(id: string, title: string, description: string, createdAt: int, entries: nat)

  datatype User = User(id: string, name: string, bio: string, role: string)

  /** A playlist as returned, with `videoCount` copied from `_count`. */
  datatype PlaylistHit = PlaylistHit(playlist: Playlist, videoCount: nat)

  datatype SearchResults = SearchResults(videos: seq<Video>, playlists: seq<PlaylistHit>,
                                         creators: seq<User>, totalCount: nat)

  /** `{ contains: term, mode: 'insensitive' }`, the term being lower-case. */
  predicate Mentions(field: string, term: string) {
    Contains(Lower(field), term)
  }

  predicate VideoMatches(v: Video, term: string) {
    Mentions(v.title, term) || Mentions(v.description, term) || term in v.tags
  }

  predicate PlaylistMatches(p: Playlist, term: string) {
    Mentions(p.title, term) || Mentions(p.description, term)
  }

  /** Only administrators are listed as creators. */
  predicate CreatorMatches(u: User, term: string) {
    (Mentions(u.name, term) || Mentions(u.bio, term)) && u.role == "ADMIN"
  }

  function VideoCreatedAt(v: Video): int { v.createdAt }
  function PlaylistCreatedAt(p: Playlist): int { p.createdAt }

  function WithVideoCount(ps: seq<Playlist>): (r: seq<PlaylistHit>)
    ensures |r| == |ps|
    ensures forall i :: 0 <= i < |r| ==> r[i].playlist == ps[i] && r[i].videoCount == ps[i].entries
  {
    seq(|ps|, i requires 0 <= i < |ps| => PlaylistHit(ps[i], ps[i].entries))
  }

  /** `globalSearch`: a blank query finds nothing; otherwise the newest
      `limit` matching published videos, the newest `limit / 2` matching
      playlists and the first five matching creators. The limit is any
      integer `parseInt` gives: a negative one is a negative Prisma `take`,
      which keeps the oldest matches instead. Dafny's `limit / 2` rounds
      down for a negative limit too, as `Math.floor(limit / 2)` does. */
  function GlobalSearch(videos: seq<Video>, playlists: seq<Playlist>, users: seq<User>,
                        query: string, limit: int): SearchResults
  {
    if Trim(query) == "" then SearchResults([], [], [], 0)
    else
      var term := Lower(Trim(query));
      var vs := FoundVideos(videos, term, limit);
      var ps := FoundPlaylists(playlists, term, limit / 2);
      var cs := Take(Filter(users, (u: User) => CreatorMatches(u, term)), 5);
      SearchResults(vs, WithVideoCount(ps), cs, |vs| + |ps| + |cs|)
  }

  /** A blank (empty or all-whitespace) query gives empty lists and a
      zero count. */
  lemma GlobalSearchBlank(videos: seq<Video>, playlists: seq<Playlist>, users: seq<User>, query: string, limit: int)
    requires forall i :: 0 <= i < |query| ==> IsSpace(query[i])
    ensures GlobalSearch(videos, playlists, users, query, limit) == SearchResults([], [], [], 0)
  {
    TrimEmptyIff(query);
  }

  /** The bounds and the total of a global search: at most as many videos
      as the limit's size, as many playlists as the size of its floored
      half, and five creators. */
  lemma GlobalSearchCounts(videos: seq<Video>, playlists: seq<Playlist>, users: seq<User>, query: string, limit: int)
    ensures var r := GlobalSearch(videos, playlists, users, query, limit);
      |r.videos| <= (if limit >= 0 then limit else -limit) &&
      |r.playlists| <= (if limit >= 0 then limit / 2 else -(limit / 2)) && |r.creators| <= 5 &&
      r.totalCount == |r.videos| + |r.playlists| + |r.creators|
  {
    if Trim(query) != "" {
      var term := Lower(Trim(query));
      TakenMatches(videos, SearchedVideo(term), VideoCreatedAt, limit);
      TakenMatches(playlists, SearchedPlaylist(term), PlaylistCreatedAt, limit / 2);
    }
  }

  /** The `where` of the global video search: published and matching. */
  function SearchedVideo(term: string): Video -> bool {
    (v: Video) => v.published && VideoMatches(v, term)
  }

  /** The `where` of the global playlist search. */
  function SearchedPlaylist(term: string): Playlist -> bool {
    (p: Playlist) => PlaylistMatches(p, term)
  }

  /** The matching published videos, newest first, under `take: limit`. */
  function FoundVideos(videos: seq<Video>, term: string, limit: int): seq<Video> {
    Taken(SortDesc(Filter(videos, SearchedVideo(term)), VideoCreatedAt), limit)
  }

  /** The matching playlists, newest first, under `take: n`. */
  function FoundPlaylists(playlists: seq<Playlist>, term: string, n: int): seq<Playlist> {
    Taken(SortDesc(Filter(playlists, SearchedPlaylist(term)), PlaylistCreatedAt), n)
  }

  /** The videos found are published matching videos, newest first, as
      many as there are up to the limit's size. A non-negative limit keeps
      the newest: none left out is newer than one found. A negative limit
      keeps the oldest: none left out is older than one found. */
  lemma GlobalSearchVideos(videos: seq<Video>, playlists: seq<Playlist>, users: seq<User>, query: string, limit: int)
    requires Trim(query) != ""
    ensures var r := GlobalSearch(videos, playlists, users, query, limit);
      var term := Lower(Trim(query));
      var found := Filter(videos, SearchedVideo(term));
      var size := if limit >= 0 then limit else -limit;
      |r.videos| == (if size < |found| then size else |found|) &&
      SortedDesc(r.videos, VideoCreatedAt) && multiset(r.videos) <= multiset(found) &&
      (forall v :: v in r.videos ==> v in videos && SearchedVideo(term)(v)) &&
      (limit >= 0 ==> forall i, v :: 0 <= i < |r.videos| && v in videos && SearchedVideo(term)(v) && v !in r.videos ==>
         VideoCreatedAt(r.videos[i]) >= VideoCreatedAt(v)) &&
      (limit < 0 ==> forall i, v :: 0 <= i < |r.videos| && v in videos && SearchedVideo(term)(v) && v !in r.videos ==>
         VideoCreatedAt(r.videos[i]) <= VideoCreatedAt(v))
  {
    var term := Lower(Trim(query));
    assert GlobalSearch(videos, playlists, users, query, limit).videos == FoundVideos(videos, term, limit);
    FoundVideosFacts(videos, term, limit);
  }

  /** The videos a `take: limit` finds, as `TakenMatches` and
      `TakenMatchesSide` state them. */
  lemma FoundVideosFacts(videos: seq<Video>, term: string, limit: int)
    ensures var vs := FoundVideos(videos, term, limit);
      var found := Filter(videos, SearchedVideo(term));
      var size := if limit >= 0 then limit else -limit;
      |vs| == (if size < |found| then size else |found|) &&
      SortedDesc(vs, VideoCreatedAt) && multiset(vs) <= multiset(found) &&
      (forall v :: v in vs ==> v in videos && SearchedVideo(term)(v))
    ensures var vs := FoundVideos(videos, term, limit);
      (limit >= 0 ==> forall i, v :: 0 <= i < |vs| && v in videos && SearchedVideo(term)(v) && v !in vs ==>
         VideoCreatedAt(vs[i]) >= VideoCreatedAt(v)) &&
      (limit < 0 ==> forall i, v :: 0 <= i < |vs| && v in videos && SearchedVideo(term)(v) && v !in vs ==>
         VideoCreatedAt(vs[i]) <= VideoCreatedAt(v))
  {
    TakenMatches(videos, SearchedVideo(term), VideoCreatedAt, limit);
    TakenMatchesSide(videos, SearchedVideo(term), VideoCreatedAt, limit);
  }

  /** Is the playlist `a` on the kept side of `p`: no older for a
      non-negative take, no newer for a negative one? */
  predicate KeptSide(a: Playlist, p: Playlist, newest: bool) {
    if newest then a.createdAt >= p.createdAt else a.createdAt <= p.createdAt
  }

  /** The playlists found are matching playlists, each with its own entry
      count, newest first, as many as there are up to the size of
      `Math.floor(limit / 2)`. A non-negative half keeps the newest and a
      negative one the oldest: no playlist left out lies on the kept side. */
  lemma GlobalSearchPlaylists(videos: seq<Video>, playlists: seq<Playlist>, users: seq<User>, query: string, limit: int)
    requires Trim(query) != ""
    ensures var r := GlobalSearch(videos, playlists, users, query, limit);
      var term := Lower(Trim(query));
      var found := Filter(playlists, SearchedPlaylist(term));
      var size := if limit / 2 >= 0 then limit / 2 else -(limit / 2);
      |r.playlists| == (if size < |found| then size else |found|) &&
      (forall i, j :: 0 <= i < j < |r.playlists| ==> r.playlists[i].playlist.createdAt >= r.playlists[j].playlist.createdAt) &&
      (forall h :: h in r.playlists ==>
         h.videoCount == h.playlist.entries && h.playlist in playlists && PlaylistMatches(h.playlist, term)) &&
      (forall i, p :: (0 <= i < |r.playlists| && p in playlists && PlaylistMatches(p, term) &&
         (forall h :: h in r.playlists ==> h.playlist != p))
         ==> KeptSide(r.playlists[i].playlist, p, limit / 2 >= 0))
  {
    var term := Lower(Trim(query));
    var ps := FoundPlaylists(playlists, term, limit / 2);
    var hits := GlobalSearch(videos, playlists, users, query, limit).playlists;
    assert hits == WithVideoCount(ps);
    FoundPlaylistsFacts(playlists, term, limit / 2);
    PlaylistHits(ps, hits, playlists, term, limit / 2 >= 0);
  }

  /** The playlists a `take: n` finds, as `TakenMatches` states them, with
      the side that is kept written as `KeptSide`. */
  lemma FoundPlaylistsFacts(playlists: seq<Playlist>, term: string, n: int)
    ensures var ps := FoundPlaylists(playlists, term, n);
      var found := Filter(playlists, SearchedPlaylist(term));
      var size := if n >= 0 then n else -n;
      |ps| == (if size < |found| then size else |found|) && SortedDesc(ps, PlaylistCreatedAt) &&
      (forall p :: p in ps ==> p in playlists && PlaylistMatches(p, term)) &&
      (forall i, p :: 0 <= i < |ps| && p in playlists && PlaylistMatches(p, term) && p !in ps ==>
         KeptSide(ps[i], p, n >= 0))
  {
    var ps := FoundPlaylists(playlists, term, n);
    TakenMatches(playlists, SearchedPlaylist(term), PlaylistCreatedAt, n);
    TakenMatchesSide(playlists, SearchedPlaylist(term), PlaylistCreatedAt, n);
    forall i, p | 0 <= i < |ps| && p in playlists && PlaylistMatches(p, term) && p !in ps
      ensures KeptSide(ps[i], p, n >= 0)
    {
      assert SearchedPlaylist(term)(p);
      if n >= 0 {
        assert PlaylistCreatedAt(ps[i]) >= PlaylistCreatedAt(p);
      } else {
        assert PlaylistCreatedAt(ps[i]) <= PlaylistCreatedAt(p);
      }
    }
  }

  /** The hits of sorted, matching playlists carry their own counts, keep
      the order, and a playlist with no hit is not on the kept side of any
      hit. */
  lemma PlaylistHits(ps: seq<Playlist>, hits: seq<PlaylistHit>, playlists: seq<Playlist>, term: string, newest: bool)
    requires hits == WithVideoCount(ps)
    requires SortedDesc(ps, PlaylistCreatedAt)
    requires forall p :: p in ps ==> p in playlists && PlaylistMatches(p, term)
    requires forall i, p :: 0 <= i < |ps| && p in playlists && PlaylistMatches(p, term) && p !in ps ==>
      KeptSide(ps[i], p, newest)
    ensures forall i, j :: 0 <= i < j < |hits| ==> hits[i].playlist.createdAt >= hits[j].playlist.createdAt
    ensures forall h :: h in hits ==>
      h.videoCount == h.playlist.entries && h.playlist in playlists && PlaylistMatches(h.playlist, term)
    ensures forall i, p ::
      (0 <= i < |hits| && p in playlists && PlaylistMatches(p, term) && (forall h :: h in hits ==> h.playlist != p))
      ==> KeptSide(hits[i].playlist, p, newest)
  {
    forall h | h in hits
      ensures h.videoCount == h.playlist.entries && h.playlist in playlists && PlaylistMatches(h.playlist, term)
    {
      var i :| 0 <= i < |hits| && hits[i] == h;
      assert h.playlist == ps[i];
    }
    forall i, p | 0 <= i < |hits| && p in playlists && PlaylistMatches(p, term) &&
      (forall h :: h in hits ==> h.playlist != p)
      ensures KeptSide(hits[i].playlist, p, newest)
    {
      forall j | 0 <= j < |ps| ensures ps[j] != p {
        assert hits[j] in hits && hits[j].playlist == ps[j];
      }
      assert hits[i].playlist == ps[i];
    }
    forall i, j | 0 <= i < j < |hits| ensures hits[i].playlist.createdAt >= hits[j].playlist.createdAt {
      assert hits[i].playlist == ps[i] && hits[j].playlist == ps[j];
    }
  }

  /** The creators found are the first five matching administrators in
      table order: each mentions the term in its name or bio and is an
      administrator, and they are the leading matches of the table. */
  lemma GlobalSearchCreators(videos: seq<Video>, playlists: seq<Playlist>, users: seq<User>, query: string, limit: int)
    requires Trim(query) != ""
    ensures var r := GlobalSearch(videos, playlists, users, query, limit);
      var term := Lower(Trim(query));
      var found := Filter(users, (u: User) => CreatorMatches(u, term));
      |r.creators| == (if 5 < |found| then 5 else |found|) &&
      r.creators == found[..|r.creators|] &&
      (forall u :: u in r.creators ==>
         u in users && (Mentions(u.name, term) || Mentions(u.bio, term)) && u.role == "ADMIN")
  {
    var term := Lower(Trim(query));
    var found := Filter(users, (u: User) => CreatorMatches(u, term));
    forall u | u in GlobalSearch(videos, playlists, users, query, limit).creators
      ensures u in users && CreatorMatches(u, term)
    {
      TakeWithin(found, 5, u);
    }
  }

  // ---------------------------------------------------------------------
  // searchVideos
  // ---------------------------------------------------------------------

  /** The optional filters; an absent or empty creator id and an absent
      or empty tag list do not filter. */
  datatype Filters = Filters(visibility: Option<Visibility>, creatorId: Option<string>, tags: Option<seq<string>>)

  /** One entry of `where.AND`. */
  datatype Clause =
    | PublishedOnly
    | MatchesTerm(term: string)
    | AnyVideo
    | VisibilityIs(visibility: Visibility)
    | CreatorIs(creatorId: string)
    | HasEveryTag(tags: seq<string>)

  predicate Holds(v: Video, c: Clause) {
    match c
    case PublishedOnly => v.published
    case MatchesTerm(term) => VideoMatches(v, term)
    case AnyVideo => true
    case VisibilityIs(vis) => v.visibility == vis
    case CreatorIs(id) => v.creatorId == id
    case HasEveryTag(tags) => forall t :: t in tags ==> t in v.tags
  }

  predicate HoldsAll(v: Video, cs: seq<Clause>) {
    forall i :: 0 <= i < |cs| ==> Holds(v, cs[i])
  }

  /** What the assembled `where` means: published, matching the term when
      there is one, and meeting every filter given. */
  predicate Wanted(v: Video, term: string, f: Filters) {
    v.published &&
    (term != "" ==> VideoMatches(v, term)) &&
    (f.visibility.Some? ==> v.visibility == f.visibility.value) &&
    (f.creatorId.Some? && f.creatorId.value != "" ==> v.creatorId == f.creatorId.value) &&
    (f.tags.Some? ==> forall t :: t in f.tags.value ==> t in v.tags)
  }

  lemma HoldsAllSnoc(v: Video, cs: seq<Clause>, c: Clause)
    ensures HoldsAll(v, cs + [c]) <==> HoldsAll(v, cs) && Holds(v, c)
  {
    if HoldsAll(v, cs) && Holds(v, c) {
      forall i | 0 <= i < |cs + [c]| ensures Holds(v, (cs + [c])[i]) {
        if i < |cs| {
          assert (cs + [c])[i] == cs[i];
        }
      }
    }
    if HoldsAll(v, cs + [c]) {
      assert (cs + [c])[|cs|] == c;
      forall i | 0 <= i < |cs| ensures Holds(v, cs[i]) {
        assert (cs + [c])[i] == cs[i];
      }
    }
  }

  /** The `where.AND` list of `searchVideos`: the published clause, the
      term clause (an empty object when there is no term), then one clause
      per filter given. */
  method BuildWhere(term: string, f: Filters) returns (clauses: seq<Clause>)
    ensures forall v :: HoldsAll(v, clauses) <==> Wanted(v, term, f)
    ensures |clauses| >= 2 && clauses[0] == PublishedOnly
  {
    clauses := [PublishedOnly, if term != "" then MatchesTerm(term) else AnyVideo];
    ghost var wantedSoFar := (v: Video) => v.published && (term != "" ==> VideoMatches(v, term));
    assert forall v :: HoldsAll(v, clauses) <==> wantedSoFar(v) by {
      forall v ensures HoldsAll(v, clauses) <==> wantedSoFar(v) {
        assert Holds(v, clauses[0]) && Holds(v, clauses[1]) ==> HoldsAll(v, clauses);
      }
    }
    if f.visibility.Some? {
      forall v ensures HoldsAll(v, clauses + [VisibilityIs(f.visibility.value)]) <==> HoldsAll(v, clauses) && v.visibility == f.visibility.value {
        HoldsAllSnoc(v, clauses, VisibilityIs(f.visibility.value));
      }
      clauses := clauses + [VisibilityIs(f.visibility.value)];
      wantedSoFar := (v: Video) => wantedSoFar(v) && v.visibility == f.visibility.value;
    }
    if f.creatorId.Some? && f.creatorId.value != "" {
      forall v ensures HoldsAll(v, clauses + [CreatorIs(f.creatorId.value)]) <==> HoldsAll(v, clauses) && v.creatorId == f.creatorId.value {
        HoldsAllSnoc(v, clauses, CreatorIs(f.creatorId.value));
      }
      clauses := clauses + [CreatorIs(f.creatorId.value)];
      wantedSoFar := (v: Video) => wantedSoFar(v) && v.creatorId == f.creatorId.value;
    }
    if f.tags.Some? && |f.tags.value| > 0 {
      forall v ensures HoldsAll(v, clauses + [HasEveryTag(f.tags.value)]) <==> HoldsAll(v, clauses) && Holds(v, HasEveryTag(f.tags.value)) {
        HoldsAllSnoc(v, clauses, HasEveryTag(f.tags.value));
      }
      clauses := clauses + [HasEveryTag(f.tags.value)];
      wantedSoFar := (v: Video) => wantedSoFar(v) && Holds(v, HasEveryTag(f.tags.value));
    }
    forall v ensures HoldsAll(v, clauses) <==> Wanted(v, term, f) {
      assert wantedSoFar(v) <==> Wanted(v, term, f);
    }
  }

  /** Filtering by two predicates that agree everywhere gives the same. */
  lemma {:induction false} FilterSame<T>(s: seq<T>, p: T -> bool, q: T -> bool)
    requires forall x :: p(x) == q(x)
    ensures Filter(s, p) == Filter(s, q)
    decreases |s|
  {
    if s != [] {
      FilterSame(s[1..], p, q);
    }
  }

  datatype VideoPage = VideoPage(videos: seq<Video>, total: nat, hasMore: bool)

  /** The videos a filtered search selects, newest first. */
  function Selected(table: seq<Video>, term: string, f: Filters): seq<Video> {
    SortDesc(Filter(table, (v: Video) => Wanted(v, term, f)), VideoCreatedAt)
  }

  /** `searchVideos`: the `skip`/`take` window of the selected videos,
      their total, and whether `skip + take` falls short of the total. The
      skip and take are any integers `parseInt` gives: a negative skip
      makes Prisma reject the `findMany`, which rejects the whole
      `Promise.all`; a negative take counts from the end. */
  method SearchVideos(table: seq<Video>, query: string, f: Filters, skip: int, take: int) returns (r: Result<VideoPage>)
    ensures r.Err? <==> skip < 0
    ensures r.Err? ==> r.error == InvalidQuery("skip")
    ensures r.Ok? ==> var selected := Selected(table, Lower(Trim(query)), f);
      r.value.total == |selected| && r.value.videos == Window(selected, skip, take).value &&
      (r.value.hasMore <==> skip + take < r.value.total)
  {
    var term := Lower(Trim(query));
    var clauses := BuildWhere(term, f);
    var matching := Filter(table, (v: Video) => HoldsAll(v, clauses));
    FilterSame(table, (v: Video) => HoldsAll(v, clauses), (v: Video) => Wanted(v, term, f));
    var sorted := SortDesc(matching, VideoCreatedAt);
    SortDescFacts(matching, VideoCreatedAt);
    var page := Window(sorted, skip, take);
    if page.Err? {
      return Err(page.error);
    }
    r := Ok(VideoPage(page.value, |matching|, skip + take < |matching|));
  }

  /** What `hasMore` tells about an accepted page. For a non-negative take
      it says exactly whether selected videos remain after the page. For a
      negative take the page is counted from the end and the flag means
      something else: it holds whenever the skip stays within the selected
      videos, also for a zero skip, where the page ends at the last video
      and none remains after it; past the end it holds while the overshoot
      is smaller than the take's size. */
  lemma HasMoreIffRowsRemain(selected: seq<Video>, skip: int, take: int)
    requires skip >= 0
    ensures take >= 0 ==>
      (skip + take < |selected| <==> skip + |Window(selected, skip, take).value| < |selected|)
    ensures take < 0 && skip <= |selected| ==> skip + take < |selected|
    ensures take < 0 && skip == 0 ==>
      var page := Window(selected, skip, take).value;
      page == selected[|selected| - |page|..]
    ensures take < 0 && skip > |selected| ==>
      Window(selected, skip, take).value == [] && (skip + take < |selected| <==> skip - |selected| < -take)
  {
  }

  /** With no filter and no term, the search selects every published
      video. */
  lemma SearchUnfiltered(table: seq<Video>, v: Video)
    ensures v in Selected(table, "", Filters(None, None, None)) <==> v in table && v.published
  {
    var p := (v: Video) => Wanted(v, "", Filters(None, None, None));
    var filtered := Filter(table, p);
    var sorted := SortDesc(filtered, VideoCreatedAt);
    assert Selected(table, "", Filters(None, None, None)) == sorted;
    SortDescFacts(filtered, VideoCreatedAt);
    assert p(v) <==> v.published;
    assert v in sorted <==> v in multiset(filtered);
    if v in filtered {
      var i :| 0 <= i < |filtered| && filtered[i] == v;
      assert v in table && p(v);
    }
    if v in table && v.published {
      var i :| 0 <= i < |table| && table[i] == v;
      assert p(table[i]);
    }
  }

  // ---------------------------------------------------------------------
  // getSearchSuggestions
  // ---------------------------------------------------------------------

  /** `Set.add` on an insertion-ordered set. */
  function Add(s: seq<string>, x: string): seq<string> {
    if x in s then s else s + [x]
  }

  /** Adding each of `xs` in turn. */
  function AddAll(s: seq<string>, xs: seq<string>): seq<string>
    decreases |xs|
  {
    if xs == [] then s else Add(AddAll(s, xs[..|xs| - 1]), Last(xs))
  }

  /** `Array.from(new Set(xs))`: the first occurrence of each string. */
  function Dedup(xs: seq<string>): seq<string> {
    AddAll([], xs)
  }

  lemma AddAllSnoc(s: seq<string>, xs: seq<string>, x: string)
    ensures AddAll(s, xs + [x]) == Add(AddAll(s, xs), x)
  {
    assert (xs + [x])[..|xs|] == xs;
  }

  /** Adding two lists is adding their concatenation. */
  lemma {:induction false} AddAllAppend(s: seq<string>, xs: seq<string>, ys: seq<string>)
    ensures AddAll(AddAll(s, xs), ys) == AddAll(s, xs + ys)
    decreases |ys|
  {
    if ys == [] {
      assert xs + ys == xs;
    } else {
      var init := ys[..|ys| - 1];
      AddAllAppend(s, xs, init);
      assert (xs + ys)[..|xs + ys| - 1] == xs + init;
    }
  }

  /** The set grows only at its end, never repeats a string, and holds
      exactly what was there and what was added. */
  lemma {:induction false} AddAllFacts(s: seq<string>, xs: seq<string>)
    requires Distinct(s)
    ensures |s| <= |AddAll(s, xs)| && AddAll(s, xs)[..|s|] == s
    ensures Distinct(AddAll(s, xs))
    ensures forall x :: x in AddAll(s, xs) <==> x in s || x in xs
    decreases |xs|
  {
    if xs != [] {
      var init := xs[..|xs| - 1];
      AddAllFacts(s, init);
      assert xs == init + [Last(xs)];
      var t := AddAll(s, init);
      if Last(xs) !in t {
        assert (t + [Last(xs)])[..|s|] == t[..|s|];
      }
    }
  }

  /** The titles containing the term, in row order. */
  function MatchingTitles(rows: seq<Video>, term: string): seq<string>
    decreases |rows|
  {
    if rows == [] then []
    else MatchingTitles(rows[..|rows| - 1], term) +
         (if Mentions(Last(rows).title, term) then [Last(rows).title] else [])
  }

  /** The tags containing the term, in order. */
  function MatchingTags(tags: seq<string>, term: string): seq<string>
    decreases |tags|
  {
    if tags == [] then []
    else MatchingTags(tags[..|tags| - 1], term) +
         (if Mentions(Last(tags), term) then [Last(tags)] else [])
  }

  /** The matching tags of every row, row by row. */
  function AllMatchingTags(rows: seq<Video>, term: string): seq<string>
    decreases |rows|
  {
    if rows == [] then []
    else AllMatchingTags(rows[..|rows| - 1], term) + MatchingTags(Last(rows).tags, term)
  }

  /** The suggestions drawn from fetched rows: matching titles first, then
      matching tags, each exact string once, cut by `slice(0, limit)`. */
  function Suggestions(rows: seq<Video>, term: string, limit: int): seq<string> {
    Slice(Dedup(MatchingTitles(rows, term) + AllMatchingTags(rows, term)), limit)
  }

  /** The `where` of the suggestion query: published, with a title
      containing the term or the term as a tag. */
  function SuggestedVideo(term: string): Video -> bool {
    (v: Video) => v.published && (Mentions(v.title, term) || term in v.tags)
  }

  /** The rows `getSearchSuggestions` fetches, in table order, under
      `take: limit * 2`. */
  function SuggestionRows(table: seq<Video>, term: string, limit: int): seq<Video> {
    Taken(Filter(table, SuggestedVideo(term)), limit * 2)
  }

  /** The fetched rows are matching rows in table order: the first
      `2 * limit` of them, or for a negative limit the last `-2 * limit`. */
  lemma SuggestionRowsFacts(table: seq<Video>, term: string, limit: int)
    ensures var found := Filter(table, SuggestedVideo(term));
      var rows := SuggestionRows(table, term, limit);
      var size := if limit >= 0 then limit * 2 else -(limit * 2);
      |rows| == (if size < |found| then size else |found|) &&
      (limit >= 0 ==> rows == found[..|rows|]) &&
      (limit < 0 ==> rows == found[|found| - |rows|..])
    ensures forall v :: v in SuggestionRows(table, term, limit) ==> v in table && SuggestedVideo(term)(v)
  {
    var found := Filter(table, SuggestedVideo(term));
    TakenFacts(found, limit * 2);
    TakenWithin(found, limit * 2);
    forall v | v in SuggestionRows(table, term, limit) ensures v in table && SuggestedVideo(term)(v) {
      var i :| 0 <= i < |found| && found[i] == v;
    }
  }

  lemma MatchingFacts(rows: seq<Video>, term: string)
    ensures forall x :: x in MatchingTitles(rows, term) ==> Mentions(x, term)
    ensures forall x :: x in AllMatchingTags(rows, term) ==> Mentions(x, term)
  {
    assert forall tags: seq<string> :: forall x :: x in MatchingTags(tags, term) ==> Mentions(x, term) by {
      forall tags: seq<string>, x | x in MatchingTags(tags, term) ensures Mentions(x, term) {
        MatchingTagsMention(tags, term, x);
      }
    }
    MatchingTitlesMention(rows, term);
    AllMatchingTagsMention(rows, term);
  }

  lemma {:induction false} MatchingTagsMention(tags: seq<string>, term: string, x: string)
    requires x in MatchingTags(tags, term)
    ensures Mentions(x, term)
    decreases |tags|
  {
    if x !in MatchingTags(tags[..|tags| - 1], term) {
      assert x == Last(tags);
    } else {
      MatchingTagsMention(tags[..|tags| - 1], term, x);
    }
  }

  lemma {:induction false} MatchingTitlesMention(rows: seq<Video>, term: string)
    ensures forall x :: x in MatchingTitles(rows, term) ==> Mentions(x, term)
    decreases |rows|
  {
    if rows != [] {
      MatchingTitlesMention(rows[..|rows| - 1], term);
    }
  }

  lemma {:induction false} AllMatchingTagsMention(rows: seq<Video>, term: string)
    requires forall tags: seq<string>, x :: x in MatchingTags(tags, term) ==> Mentions(x, term)
    ensures forall x :: x in AllMatchingTags(rows, term) ==> Mentions(x, term)
    decreases |rows|
  {
    if rows != [] {
      AllMatchingTagsMention(rows[..|rows| - 1], term);
    }
  }

  /** Suggestions are a prefix of the distinct exact strings found (so
      "React" and "react" may both appear), each containing the term
      whatever its case. A non-negative limit keeps at most `limit` of
      them; a negative one drops the last `-limit`. */
  lemma SuggestionsFacts(rows: seq<Video>, term: string, limit: int)
    ensures var all := Dedup(MatchingTitles(rows, term) + AllMatchingTags(rows, term));
      var r := Suggestions(rows, term, limit);
      |r| == (if limit >= 0 then (if limit < |all| then limit else |all|)
              else if |all| + limit > 0 then |all| + limit else 0) &&
      r == all[..|r|] && Distinct(r) &&
      (forall x :: x in r ==> Mentions(x, term))
  {
    var ts, gs := MatchingTitles(rows, term), AllMatchingTags(rows, term);
    AddAllFacts([], ts + gs);
    MatchingFacts(rows, term);
    var all := Dedup(ts + gs);
    SliceFacts(all, limit);
    var r := Suggestions(rows, term, limit);
    forall x | x in r ensures Mentions(x, term) {
      assert x in all;
    }
    forall i, j | 0 <= i < j < |r| ensures r[i] != r[j] {
      assert r[i] == all[i] && r[j] == all[j];
    }
  }

  /** The matching titles come before the tags: the suggestions drawn
      from the titles alone, cut by the same limit, begin them. */
  lemma SuggestionsTitlesFirst(rows: seq<Video>, term: string, limit: int)
    ensures var r := Suggestions(rows, term, limit);
      var titles := Slice(Dedup(MatchingTitles(rows, term)), limit);
      |titles| <= |r| && r[..|titles|] == titles
  {
    var ts, gs := MatchingTitles(rows, term), AllMatchingTags(rows, term);
    AddAllFacts([], ts);
    AddAllFacts(AddAll([], ts), gs);
    AddAllAppend([], ts, gs);
    SliceFacts(Dedup(ts + gs), limit);
    SliceFacts(Dedup(ts), limit);
  }

  /** Set insertion keeps exact strings apart. */
  lemma CaseSensitive()
    ensures Dedup(["React", "react", "React"]) == ["React", "react"]
  {
    assert ["React", "react", "React"][..2] == ["React", "react"];
    assert ["React", "react"][..1] == ["React"];
    assert ["React"][..0] == [];
    assert "React" != "react" by {
      assert "React"[0] != "react"[0];
    }
  }

  lemma MatchingTitlesStep(rows: seq<Video>, i: nat, term: string)
    requires i < |rows|
    ensures MatchingTitles(rows[..i + 1], term) ==
      MatchingTitles(rows[..i], term) + (if Mentions(rows[i].title, term) then [rows[i].title] else [])
  {
    assert rows[..i + 1][..i] == rows[..i];
  }

  lemma MatchingTagsStep(tags: seq<string>, k: nat, term: string)
    requires k < |tags|
    ensures MatchingTags(tags[..k + 1], term) ==
      MatchingTags(tags[..k], term) + (if Mentions(tags[k], term) then [tags[k]] else [])
  {
    assert tags[..k + 1][..k] == tags[..k];
  }

  lemma AllMatchingTagsStep(rows: seq<Video>, j: nat, term: string)
    requires j < |rows|
    ensures AllMatchingTags(rows[..j + 1], term) == AllMatchingTags(rows[..j], term) + MatchingTags(rows[j].tags, term)
  {
    assert rows[..j + 1][..j] == rows[..j];
  }

  /** The inner `forEach` over one row's tags. */
  method AddMatchingTags(seen: seq<string>, tags: seq<string>, term: string) returns (r: seq<string>)
    ensures r == AddAll(seen, MatchingTags(tags, term))
  {
    r := seen;
    var k := 0;
    while k < |tags|
      invariant 0 <= k <= |tags|
      invariant r == AddAll(seen, MatchingTags(tags[..k], term))
    {
      MatchingTagsStep(tags, k, term);
      if Mentions(tags[k], term) {
        AddAllSnoc(seen, MatchingTags(tags[..k], term), tags[k]);
        r := Add(r, tags[k]);
      } else {
        assert MatchingTags(tags[..k], term) + [] == MatchingTags(tags[..k], term);
      }
      k := k + 1;
    }
    assert tags[..k] == tags;
  }

  /** The two `forEach` passes: matching titles, then matching tags row by
      row, added to an insertion-ordered set; then the first `limit`. */
  method CollectSuggestions(rows: seq<Video>, term: string, limit: int) returns (r: seq<string>)
    ensures r == Suggestions(rows, term, limit)
  {
    var seen: seq<string> := [];
    var i := 0;
    while i < |rows|
      invariant 0 <= i <= |rows|
      invariant seen == AddAll([], MatchingTitles(rows[..i], term))
    {
      MatchingTitlesStep(rows, i, term);
      if Mentions(rows[i].title, term) {
        AddAllSnoc([], MatchingTitles(rows[..i], term), rows[i].title);
        seen := Add(seen, rows[i].title);
      } else {
        assert MatchingTitles(rows[..i], term) + [] == MatchingTitles(rows[..i], term);
      }
      i := i + 1;
    }
    assert rows[..i] == rows;
    ghost var titled := seen;
    var j := 0;
    while j < |rows|
      invariant 0 <= j <= |rows|
      invariant seen == AddAll(titled, AllMatchingTags(rows[..j], term))
    {
      AllMatchingTagsStep(rows, j, term);
      AddAllAppend(titled, AllMatchingTags(rows[..j], term), MatchingTags(rows[j].tags, term));
      seen := AddMatchingTags(seen, rows[j].tags, term);
      j := j + 1;
    }
    assert rows[..j] == rows;
    AddAllAppend([], MatchingTitles(rows, term), AllMatchingTags(rows, term));
    r := Slice(seen, limit);
  }

  /** `getSearchSuggestions`: a trimmed query shorter than two characters
      gives nothing; otherwise the suggestions drawn from the fetched rows.
      The limit is any integer `parseInt` gives. */
  method GetSearchSuggestions(table: seq<Video>, query: string, limit: int) returns (r: seq<string>)
    ensures |Trim(query)| < 2 ==> r == []
    ensures |Trim(query)| >= 2 ==>
      var term := Lower(Trim(query));
      r == Suggestions(SuggestionRows(table, term, limit), term, limit)
  {
    if |Trim(query)| < 2 {
      return [];
    }
    var term := Lower(Trim(query));
    r := CollectSuggestions(SuggestionRows(table, term, limit), term, limit);
  }

  // ---------------------------------------------------------------------
  // getPopularSearchTerms
  // ---------------------------------------------------------------------

  /** The lower-cased tags of every row, row by row. */
  function LoweredTags(rows: seq<Video>): seq<string>
    decreases |rows|
  {
    if rows == [] then []
    else LoweredTags(rows[..|rows| - 1]) + LoweredOf(Last(rows))
  }

  /** `getPopularSearchTerms` over fetched rows: the tally sorted by
      descending count (a stable sort), cut by `slice(0, limit)`. */
  function PopularTerms(rows: seq<Video>, limit: int): seq<TermCount> {
    Slice(SortDesc(Tally(LoweredTags(rows)), CountOf), limit)
  }

  /** The rows fetched: published, with at least one tag. */
  function TaggedRows(table: seq<Video>): seq<Video> {
    Filter(table, (v: Video) => v.published && v.tags != [])
  }

  /** The popular terms are the most frequent lower-case tags: as many as
      there are distinct tags up to `limit`, or for a negative limit all
      but the `-limit` least frequent; by non-increasing count, each a tag
      with its number of occurrences, and no tag left out occurs more often
      than one returned. */
  lemma PopularTermsFacts(rows: seq<Video>, limit: int)
    ensures var keys := LoweredTags(rows);
      var tally := Tally(keys);
      var r := PopularTerms(rows, limit);
      |r| == (if limit >= 0 then (if limit < |tally| then limit else |tally|)
              else if |tally| + limit > 0 then |tally| + limit else 0) && SortedDesc(r, CountOf) &&
      (forall e :: e in r ==> e.term in keys && e.count == Occurrences(keys, e.term)) &&
      (forall i, t :: 0 <= i < |r| && t in keys && (forall e :: e in r ==> e.term != t) ==>
         r[i].count >= Occurrences(keys, t))
  {
    RankTop(LoweredTags(rows), limit);
  }

  /** The popular terms name distinct tags, and terms with equal counts
      keep the order in which the rows first mention them. */
  lemma PopularTermsTies(rows: seq<Video>, limit: int)
    ensures forall e :: e in PopularTerms(rows, limit) ==> e.term in LoweredTags(rows)
    ensures var r := PopularTerms(rows, limit);
      forall i, j :: 0 <= i < j < |r| ==> r[i].term != r[j].term
    ensures var r := PopularTerms(rows, limit);
      forall i, j :: 0 <= i < j < |r| && r[i].count == r[j].count ==>
        FirstIndex(LoweredTags(rows), r[i].term) < FirstIndex(LoweredTags(rows), r[j].term)
  {
    var keys := LoweredTags(rows);
    assert PopularTerms(rows, limit) == Slice(SortDesc(Tally(keys), CountOf), limit);
    RankTies(keys, limit);
  }

  /** Sorting the tally moves no two entries of equal count past each
      other. */
  lemma PopularTermsStable(rows: seq<Video>, k: int)
    ensures var tally := Tally(LoweredTags(rows));
      WithKey(SortDesc(tally, CountOf), CountOf, k) == WithKey(tally, CountOf, k)
  {
    SortDescStable(Tally(LoweredTags(rows)), CountOf, k);
  }

  /** The lower-cased tags of one row. */
  function LoweredOf(v: Video): seq<string> {
    seq(|v.tags|, i requires 0 <= i < |v.tags| => Lower(v.tags[i]))
  }

  lemma LoweredTagsSnoc(rows: seq<Video>, i: nat)
    requires i < |rows|
    ensures LoweredTags(rows[..i + 1]) == LoweredTags(rows[..i]) + LoweredOf(rows[i])
  {
    assert rows[..i + 1][..i] == rows[..i];
  }

  /** The inner `forEach`: one row's tags counted after the counts so
      far. */
  method CountRowTags(counts: seq<TermCount>, ghost done: seq<string>, v: Video) returns (r: seq<TermCount>)
    requires counts == Tally(done)
    ensures r == Tally(done + LoweredOf(v))
  {
    var tags := v.tags;
    ghost var lowered := LoweredOf(v);
    assert done + lowered[..0] == done;
    r := counts;
    var k := 0;
    while k < |tags|
      invariant 0 <= k <= |tags| == |lowered|
      invariant r == Tally(done + lowered[..k])
    {
      assert lowered[k] == Lower(tags[k]);
      AppendPrefixStep(done, lowered, k);
      TallySnoc(done + lowered[..k], lowered[k]);
      r := Bump(r, Lower(tags[k]));
      k := k + 1;
    }
    assert lowered[..k] == lowered;
  }

  lemma AppendPrefixStep(done: seq<string>, s: seq<string>, k: nat)
    requires k < |s|
    ensures done + s[..k + 1] == (done + s[..k]) + [s[k]]
  {
    assert s[..k + 1] == s[..k] + [s[k]];
  }

  /** The two nested `forEach` loops filling the map. */
  method CountTags(rows: seq<Video>) returns (counts: seq<TermCount>)
    ensures counts == Tally(LoweredTags(rows))
  {
    counts := [];
    var i := 0;
    while i < |rows|
      invariant 0 <= i <= |rows|
      invariant counts == Tally(LoweredTags(rows[..i]))
    {
      LoweredTagsSnoc(rows, i);
      counts := CountRowTags(counts, LoweredTags(rows[..i]), rows[i]);
      i := i + 1;
    }
    assert rows[..i] == rows;
  }

  /** `getPopularSearchTerms`, for any integer limit `parseInt` gives. */
  method GetPopularSearchTerms(table: seq<Video>, limit: int) returns (r: seq<TermCount>)
    ensures r == PopularTerms(TaggedRows(table), limit)
  {
    var counts := CountTags(TaggedRows(table));
    r := Slice(SortDesc(counts, CountOf), limit);
  }
}
