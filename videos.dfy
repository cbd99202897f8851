/** `VideosService`: the `video` table. `create` derives the storage key
    and both URLs from the upload's file names; `update`, `publish` and
    `remove` are guarded like every owned row (not found first, then
    forbidden) and change nothing when a check fails; `findAll` pages
    through the published public videos. Clock readings, row ids and the
    storage settings are parameters. */
module Videos {
  import opened Common
  import opened Schema
  import opened Collections
  import Storage

  datatype Video = Video(id: string, creatorId: string, title: string, description: Option<string>,
                         tags: seq<string>, visibility: Visibility, price: Option<real>,
                         s3Key: string, hlsUrl: string, thumbnailUrl: string, duration: int,
                         publishedAt: Option<int>, createdAt: int)

  datatype CreateRequest = CreateRequest(title: string, description: Option<string>, tags: Option<seq<string>>,
                                         visibility: Option<Visibility>, price: Option<real>,
                                         filename: string, thumbnailFilename: Option<string>, duration: int)

  /** The fields of an update; `None` is a field the request leaves out,
      which Prisma does not touch. The nullable columns take one more
      level: `Some(None)` is a field sent as `null`, which clears it. */
  datatype UpdateRequest = UpdateRequest(title: Option<string>, description: Option<Option<string>>,
                                         tags: Option<seq<string>>, visibility: Option<Visibility>,
                                         price: Option<Option<real>>)

  /** Where the storage service puts objects: the bucket and the
      `aws.region` setting as `getPublicUrl` reads them. */
  datatype Store = Store(bucket: string, region: string)

  datatype Listing = Listing(videos: seq<Video>, page: int, limit: int, total: nat, totalPages: PageCount)

  const Placeholder: string := "https://via.placeholder.com/640x360"

  /** A thumbnail is stored only for a thumbnail file name that is given
      and not empty (JavaScript truthiness). */
  predicate HasThumbnail(request: CreateRequest) {
    request.thumbnailFilename.Some? && request.thumbnailFilename.value != ""
  }

  /** The row `create` inserts. `videoTime` and `thumbnailTime` are the
      two `Date.now()` readings of the two key builders. */
  function NewVideo(id: string, userId: string, request: CreateRequest, store: Store,
                    videoTime: nat, thumbnailTime: nat, now: int): Video
  {
    var videoKey := Storage.VideoKey(userId, videoTime, request.filename);
    var thumbnailUrl :=
      if HasThumbnail(request) then
        Storage.PublicUrl(store.bucket, store.region,
          Storage.ThumbnailKey(userId, thumbnailTime, request.thumbnailFilename.value))
      else Placeholder;
    Video(id, userId, request.title, request.description, request.tags.GetOr([]),
          request.visibility.GetOr(Public), request.price, videoKey,
          Storage.PublicUrl(store.bucket, store.region, videoKey), thumbnailUrl,
          request.duration, None, now)
  }

  /** Defaults: no tags becomes the empty list, no visibility becomes
      public, and without a thumbnail file name the placeholder image is
      used; given values are kept. A new video is unpublished. */
  lemma NewVideoDefaults(id: string, userId: string, request: CreateRequest, store: Store,
                         videoTime: nat, thumbnailTime: nat, now: int)
    ensures var v := NewVideo(id, userId, request, store, videoTime, thumbnailTime, now);
      (request.tags.None? ==> v.tags == []) &&
      (request.tags.Some? ==> v.tags == request.tags.value) &&
      (request.visibility.None? ==> v.visibility == Public) &&
      (request.visibility.Some? ==> v.visibility == request.visibility.value) &&
      (v.thumbnailUrl == Placeholder <==> !HasThumbnail(request)) &&
      v.creatorId == userId && v.publishedAt.None?
  {
    if HasThumbnail(request) {
      var key := Storage.ThumbnailKey(userId, thumbnailTime, request.thumbnailFilename.value);
      assert |NatToString(thumbnailTime)| >= 1;
      assert |Storage.PublicUrl(store.bucket, store.region, key)| > |Placeholder|;
    }
  }

  /** The stored key is the video key built from the upload's file name,
      and the HLS URL is the public URL of that same key: the key can be
      read back from it. */
  lemma NewVideoKeys(id: string, userId: string, request: CreateRequest, store: Store,
                     videoTime: nat, thumbnailTime: nat, now: int)
    ensures var v := NewVideo(id, userId, request, store, videoTime, thumbnailTime, now);
      v.s3Key == Storage.VideoKey(userId, videoTime, request.filename) &&
      Storage.KeyOfUrl(store.bucket, store.region, v.hlsUrl) == Some(v.s3Key)
  {
    Storage.KeyOfPublicUrl(store.bucket, store.region, Storage.VideoKey(userId, videoTime, request.filename));
  }

  /** The row after an update: only the five fields the request may
      carry, and only those it does carry. */
  function Updated(v: Video, request: UpdateRequest): Video {
    v.(title := request.title.GetOr(v.title),
       description := request.description.GetOr(v.description),
       tags := request.tags.GetOr(v.tags),
       visibility := request.visibility.GetOr(v.visibility),
       price := request.price.GetOr(v.price))
  }

  /** An update leaves the owner, the stored media and the publication
      time alone, so it can neither publish nor unpublish a video. A
      description or price sent as `null` clears it; one left out stays. */
  lemma UpdatedKeeps(v: Video, request: UpdateRequest)
    ensures var w := Updated(v, request);
      w.id == v.id && w.creatorId == v.creatorId && w.s3Key == v.s3Key && w.hlsUrl == v.hlsUrl &&
      w.thumbnailUrl == v.thumbnailUrl && w.publishedAt == v.publishedAt &&
      (request.visibility.Some? ==> w.visibility == request.visibility.value) &&
      (request.visibility.None? ==> w.visibility == v.visibility)
    ensures var w := Updated(v, request);
      (request.description.Some? ==> w.description == request.description.value) &&
      (request.description == Some(None) ==> w.description.None?) &&
      (request.description.None? ==> w.description == v.description) &&
      (request.price.Some? ==> w.price == request.price.value) &&
      (request.price == Some(None) ==> w.price.None?) &&
      (request.price.None? ==> w.price == v.price)
    ensures Updated(v, UpdateRequest(None, None, None, None, None)) == v
  {
  }

  /** `publish`: the publication time becomes `now`, replacing any
      earlier one. */
  function Published(v: Video, now: int): Video {
    v.(publishedAt := Some(now))
  }

  function IdOf(v: Video): string { v.id }
  function CreatorOf(v: Video): string { v.creatorId }

  const VideoNotFound: Error := NotFound("Video not found")

  function Guard(videos: seq<Video>, id: string, userId: string, forbidden: string): Result<nat> {
    OwnerGuard(videos, IdOf, CreatorOf, id, userId, VideoNotFound, Forbidden(forbidden))
  }

  /** Not found is reported whoever asks; forbidden only for an existing
      video of someone else; success only for its creator. */
  lemma GuardOrder(videos: seq<Video>, id: string, userId: string, forbidden: string)
    ensures Guard(videos, id, userId, forbidden) == Err(VideoNotFound) <==> !HasKey(videos, IdOf, id)
    ensures Guard(videos, id, userId, forbidden) == Err(Forbidden(forbidden)) <==>
      (HasKey(videos, IdOf, id) && videos[FindKey(videos, IdOf, id).value].creatorId != userId)
    ensures Guard(videos, id, userId, forbidden).Ok? ==>
      var k := Guard(videos, id, userId, forbidden).value;
      k < |videos| && videos[k].id == id && videos[k].creatorId == userId
  {
    OwnerGuardOrder(videos, IdOf, CreatorOf, id, userId, VideoNotFound, Forbidden(forbidden));
  }

  /** What `findAll` lists: public videos that have been published. */
  predicate Listed(v: Video) {
    v.visibility == Public && v.publishedAt.Some?
  }

  function PublishedAt(v: Video): int {
    if v.publishedAt.Some? then v.publishedAt.value else 0
  }

  /** `findAll`: newest publication first, one page, the count of all
      listed videos and `Math.ceil` of that count over the limit. Prisma
      rejects the query when the skip comes out negative. */
  function FindAll(videos: seq<Video>, page: int, limit: int): Result<Listing> {
    var shown := Filter(videos, Listed);
    var rows := PageOf(videos, Listed, PublishedAt, page, limit);
    if rows.Err? then Err(rows.error)
    else Ok(Listing(rows.value, page, limit, |shown|, PageCountOf(|shown|, limit)))
  }

  /** The listing fails exactly for a page before the first with a
      positive limit, or after the first with a negative one. Every
      listed video is public, published and stored; there are at most as
      many as the limit's size, none for a zero limit; with page and
      limit from 1 up the page is empty exactly past the last page. */
  lemma FindAllFacts(videos: seq<Video>, page: int, limit: int)
    ensures FindAll(videos, page, limit).Err? <==> (page < 1 && limit > 0) || (page > 1 && limit < 0)
    ensures FindAll(videos, page, limit).Ok? ==>
      var r := FindAll(videos, page, limit).value;
      |r.videos| <= (if limit >= 0 then limit else -limit) &&
      (forall v :: v in r.videos ==> Listed(v) && v in videos) &&
      (limit == 0 ==> r.videos == [])
    ensures page >= 1 && limit >= 1 ==>
      var r := FindAll(videos, page, limit).value;
      r.totalPages.Pages? && (r.videos != [] <==> page <= r.totalPages.count)
  {
    PageOfFacts(videos, Listed, PublishedAt, page, limit);
  }

  /** The page is ordered newest publication first; for a page from 1 up
      and a non-negative limit it is the run of the listed videos, newest
      first, that starts after the first `(page - 1) * limit`. */
  lemma FindAllOrder(videos: seq<Video>, page: int, limit: int)
    ensures FindAll(videos, page, limit).Ok? ==>
      var r := FindAll(videos, page, limit).value;
      forall i, j :: 0 <= i < j < |r.videos| ==> PublishedAt(r.videos[i]) >= PublishedAt(r.videos[j])
    ensures page >= 1 && limit >= 0 ==>
      var ordered := SortDesc(Filter(videos, Listed), PublishedAt);
      var skip := (page - 1) * limit;
      var r := FindAll(videos, page, limit).value.videos;
      |r| == (if skip + limit <= |ordered| then limit else if skip < |ordered| then |ordered| - skip else 0) &&
      forall i :: 0 <= i < |r| ==> r[i] == ordered[skip + i]
  {
    PageOfFacts(videos, Listed, PublishedAt, page, limit);
    if page >= 1 && limit >= 0 {
      PageOfWindow(videos, Listed, PublishedAt, page, limit);
    }
  }

  /** The total counts every listed video and no other, and the page
      count is `Math.ceil(total / limit)`: just enough pages for a
      positive limit, `Infinity` or `NaN` for a zero one, and zero or
      less for a negative one. */
  lemma FindAllTotal(videos: seq<Video>, page: int, limit: int)
    requires FindAll(videos, page, limit).Ok?
    ensures var r := FindAll(videos, page, limit).value;
      r.total == |Filter(videos, Listed)| &&
      (forall v :: v in videos && Listed(v) ==> r.total > 0) &&
      (limit > 0 ==> r.totalPages.Pages? && r.totalPages.count * limit >= r.total &&
                     (r.totalPages.count - 1) * limit < r.total) &&
      (limit == 0 ==> r.totalPages == (if r.total == 0 then NaN else Infinity)) &&
      (limit < 0 ==> r.totalPages.Pages? && r.totalPages.count <= 0)
  {
    var r := FindAll(videos, page, limit).value;
    assert r.total == |Filter(videos, Listed)| && r.totalPages == PageCountOf(r.total, limit);
    PageCountOfRows(videos, Listed, limit);
  }

  /** A newly created video is not listed until it is published, and
      publishing a public video lists it. */
  lemma PublishLists(id: string, userId: string, request: CreateRequest, store: Store,
                     videoTime: nat, thumbnailTime: nat, now: int, later: int)
    ensures !Listed(NewVideo(id, userId, request, store, videoTime, thumbnailTime, now))
    ensures var v := NewVideo(id, userId, request, store, videoTime, thumbnailTime, now);
      Listed(Published(v, later)) <==> v.visibility == Public
  {
  }

  class VideosService {
    /** The `video` table. */
    var videos: seq<Video>
    const store: Store

    ghost predicate Valid()
      reads this
    {
      KeysUnique(videos, IdOf)
    }

    constructor(store: Store)
      ensures Valid() && videos == [] && this.store == store
    {
      this.store := store;
      videos := [];
    }

    /** `create`: one new row; `id` is the id the database generates. */
    method Create(userId: string, request: CreateRequest, id: string, videoTime: nat, thumbnailTime: nat, now: int)
      returns (v: Video)
      requires Valid() && !HasKey(videos, IdOf, id)
      modifies this
      ensures Valid()
      ensures v == NewVideo(id, userId, request, store, videoTime, thumbnailTime, now) && videos == old(videos) + [v]
    {
      v := NewVideo(id, userId, request, store, videoTime, thumbnailTime, now);
      videos := videos + [v];
    }

    /** `update`: after the two checks, the given fields are replaced. */
    method Update(id: string, userId: string, request: UpdateRequest) returns (r: Result<Video>)
      requires Valid()
      modifies this
      ensures Valid()
      ensures var g := Guard(old(videos), id, userId, "You can only update your own videos");
        if g.Err? then r == Err(g.error) && videos == old(videos)
        else (r == Ok(Updated(old(videos)[g.value], request)) &&
          videos == old(videos)[g.value := Updated(old(videos)[g.value], request)])
    {
      var g := Guard(videos, id, userId, "You can only update your own videos");
      if g.Err? {
        return Err(g.error);
      }
      var w := Updated(videos[g.value], request);
      videos := videos[g.value := w];
      r := Ok(w);
    }

    /** `publish`: after the two checks, the publication time is `now`. */
    method Publish(id: string, userId: string, now: int) returns (r: Result<Video>)
      requires Valid()
      modifies this
      ensures Valid()
      ensures var g := Guard(old(videos), id, userId, "You can only publish your own videos");
        if g.Err? then r == Err(g.error) && videos == old(videos)
        else (r == Ok(Published(old(videos)[g.value], now)) &&
          videos == old(videos)[g.value := Published(old(videos)[g.value], now)])
    {
      var g := Guard(videos, id, userId, "You can only publish your own videos");
      if g.Err? {
        return Err(g.error);
      }
      var w := Published(videos[g.value], now);
      videos := videos[g.value := w];
      r := Ok(w);
    }

    /** `remove`: after the two checks, the row is deleted. */
    method Remove(id: string, userId: string) returns (r: Result<string>)
      requires Valid()
      modifies this
      ensures Valid()
      ensures var g := Guard(old(videos), id, userId, "You can only delete your own videos");
        if g.Err? then r == Err(g.error) && videos == old(videos)
        else r == Ok("Video deleted successfully") && videos == RemoveAt(old(videos), g.value)
    {
      var g := Guard(videos, id, userId, "You can only delete your own videos");
      if g.Err? {
        return Err(g.error);
      }
      RemoveAtFacts(videos, g.value);
      videos := RemoveAt(videos, g.value);
      r := Ok("Video deleted successfully");
    }
  }
}
