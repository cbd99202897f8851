/** `PlaylistsService`: the `playlist` and `playlistVideo` tables and the
    guarded changes made to them. Every change to an existing playlist
    first looks the playlist up (not found comes first), then checks
    that the caller created it (forbidden comes second); a failed check
    changes nothing. Row ids and creation times, which the database
    supplies, are parameters. */
module Playlists {
  import opened Common
  import opened Collections

  datatype Playlist = Playlist(id: string, creatorId: string, title: string, description: Option<string>,
                               coverImage: Option<string>, isPublic: bool, createdAt: int)

  /** A `playlistVideo` row. */
  datatype Entry = Entry(id: string, playlistId: string, videoId: string, order: int)

  datatype CreateRequest = CreateRequest(title: string, description: Option<string>, coverImage: Option<string>,
                                         isPublic: Option<bool>)

  /** The fields of an update; `None` is a field left out of the request,
      which Prisma leaves as it is. The nullable columns take one more
      level: `Some(None)` is a field sent as `null`, which clears it. */
  datatype UpdateRequest = UpdateRequest(title: Option<string>, description: Option<Option<string>>,
                                         coverImage: Option<Option<string>>, isPublic: Option<bool>)

  datatype AddRequest = AddRequest(videoId: string, order: Option<int>)

  /** A page of `findAll`, with the page and limit as the controller
      parsed them. */
  datatype Listing = Listing(playlists: seq<Playlist>, page: int, limit: int, total: nat, totalPages: PageCount)

  function IdOf(p: Playlist): string { p.id }
  function CreatorOf(p: Playlist): string { p.creatorId }

  const PlaylistNotFound: Error := NotFound("Playlist not found")

  /** The checks every change to a playlist starts with: the position of
      the playlist, or the error to raise. */
  function Guard(playlists: seq<Playlist>, id: string, userId: string, forbidden: string): Result<nat> {
    OwnerGuard(playlists, IdOf, CreatorOf, id, userId, PlaylistNotFound, Forbidden(forbidden))
  }

  predicate Exists(playlists: seq<Playlist>, id: string) {
    HasKey(playlists, IdOf, id)
  }

  /** Not found is reported whoever asks; forbidden only for an existing
      playlist of someone else; success only for its creator. */
  lemma GuardOrder(playlists: seq<Playlist>, id: string, userId: string, forbidden: string)
    ensures Guard(playlists, id, userId, forbidden) == Err(PlaylistNotFound) <==> !Exists(playlists, id)
    ensures Guard(playlists, id, userId, forbidden) == Err(Forbidden(forbidden)) <==>
      (Exists(playlists, id) && playlists[FindKey(playlists, IdOf, id).value].creatorId != userId)
    ensures Guard(playlists, id, userId, forbidden).Ok? ==>
      var k := Guard(playlists, id, userId, forbidden).value;
      k < |playlists| && playlists[k].id == id && playlists[k].creatorId == userId
  {
    OwnerGuardOrder(playlists, IdOf, CreatorOf, id, userId, PlaylistNotFound, Forbidden(forbidden));
  }

  predicate IdsUnique(playlists: seq<Playlist>) {
    KeysUnique(playlists, IdOf)
  }

  function EntryIdOf(e: Entry): string { e.id }

  predicate EntryIdsUnique(entries: seq<Entry>) {
    KeysUnique(entries, EntryIdOf)
  }

  /** The row `create` inserts: `isPublic` is true only when the request
      leaves it out. */
  function NewPlaylist(id: string, userId: string, request: CreateRequest, now: int): Playlist {
    Playlist(id, userId, request.title, request.description, request.coverImage, request.isPublic.GetOr(true), now)
  }

  /** An explicit `false` is kept; only an absent flag becomes public. */
  lemma NewPlaylistVisibility(id: string, userId: string, request: CreateRequest, now: int)
    ensures NewPlaylist(id, userId, request, now).isPublic <==> request.isPublic != Some(false)
    ensures NewPlaylist(id, userId, request, now).creatorId == userId
  {
  }

  /** The row after an update. */
  function Updated(p: Playlist, request: UpdateRequest): Playlist {
    p.(title := request.title.GetOr(p.title),
       description := request.description.GetOr(p.description),
       coverImage := request.coverImage.GetOr(p.coverImage),
       isPublic := request.isPublic.GetOr(p.isPublic))
  }

  /** An update never touches the id, the creator or the creation time;
      each field given takes the new value (a `null` description or cover
      image clears it) and each one left out keeps the old; an empty
      request changes nothing. */
  lemma UpdatedFacts(p: Playlist, request: UpdateRequest)
    ensures var q := Updated(p, request);
      q.id == p.id && q.creatorId == p.creatorId && q.createdAt == p.createdAt &&
      (request.title.Some? ==> q.title == request.title.value) &&
      (request.title.None? ==> q.title == p.title) &&
      (request.description.Some? ==> q.description == request.description.value) &&
      (request.description == Some(None) ==> q.description.None?) &&
      (request.description.None? ==> q.description == p.description) &&
      (request.coverImage.Some? ==> q.coverImage == request.coverImage.value) &&
      (request.coverImage == Some(None) ==> q.coverImage.None?) &&
      (request.coverImage.None? ==> q.coverImage == p.coverImage) &&
      (request.isPublic.Some? ==> q.isPublic == request.isPublic.value) &&
      (request.isPublic.None? ==> q.isPublic == p.isPublic)
    ensures Updated(p, UpdateRequest(None, None, None, None)) == p
  {
  }

  /** The entries of playlist `id`, in table order. */
  function EntriesOf(entries: seq<Entry>, id: string): (r: seq<Entry>)
    ensures |r| <= |entries|
    decreases |entries|
  {
    if entries == [] then []
    else (if entries[0].playlistId == id then [entries[0]] else []) + EntriesOf(entries[1..], id)
  }

  lemma {:induction false} EntriesOfAppend(entries: seq<Entry>, e: Entry, id: string)
    ensures EntriesOf(entries + [e], id) == EntriesOf(entries, id) + (if e.playlistId == id then [e] else [])
    decreases |entries|
  {
    if entries == [] {
      assert entries + [e] == [e];
    } else {
      assert (entries + [e])[1..] == entries[1..] + [e];
      EntriesOfAppend(entries[1..], e, id);
    }
  }

  /** The order `addVideo` gives a new entry: the requested one, zero
      included, else the number of entries the playlist has. */
  function NextOrder(entries: seq<Entry>, id: string, request: AddRequest): int {
    request.order.GetOr(|EntriesOf(entries, id)|)
  }

  /** Without a requested order, appended entries are numbered 0, 1, 2, …
      in the order they are added, whatever the other playlists hold. */
  lemma NextOrderDefault(entries: seq<Entry>, id: string, e: Entry, request: AddRequest)
    requires request.order.None? && e.playlistId == id
    ensures NextOrder(entries, id, request) == |EntriesOf(entries, id)|
    ensures NextOrder(entries + [e], id, request) == NextOrder(entries, id, request) + 1
  {
    EntriesOfAppend(entries, e, id);
  }

  /** A requested order is used as given, even when another entry already
      has it. */
  lemma NextOrderRequested(entries: seq<Entry>, id: string, request: AddRequest)
    requires request.order.Some?
    ensures NextOrder(entries, id, request) == request.order.value
  {
  }

  /** `findFirst` on the entry table: the first entry of playlist `id`
      for video `videoId`. */
  function FindEntry(entries: seq<Entry>, id: string, videoId: string): (r: Option<nat>)
    ensures r.Some? ==> r.value < |entries| && entries[r.value].playlistId == id && entries[r.value].videoId == videoId
    ensures r.Some? ==> forall i :: 0 <= i < r.value ==> !(entries[i].playlistId == id && entries[i].videoId == videoId)
    ensures r.None? ==> forall i :: 0 <= i < |entries| ==> !(entries[i].playlistId == id && entries[i].videoId == videoId)
    decreases |entries|
  {
    if entries == [] then None
    else if entries[0].playlistId == id && entries[0].videoId == videoId then Some(0)
    else
      var r := FindEntry(entries[1..], id, videoId);
      if r.None? then None else Some(r.value + 1)
  }

  predicate IsPublic(p: Playlist) { p.isPublic }
  function CreatedAt(p: Playlist): int { p.createdAt }

  /** `findAll`: the public playlists, newest first, one page of them,
      with the count of all public playlists and `Math.ceil` of that count
      over the limit. Prisma rejects the query when the skip comes out
      negative. */
  function FindAll(playlists: seq<Playlist>, page: int, limit: int): Result<Listing> {
    var shown := Filter(playlists, IsPublic);
    var rows := PageOf(playlists, IsPublic, CreatedAt, page, limit);
    if rows.Err? then Err(rows.error)
    else Ok(Listing(rows.value, page, limit, |shown|, PageCountOf(|shown|, limit)))
  }

  /** The listing fails exactly for a page before the first with a
      positive limit, or after the first with a negative one. A listed
      playlist is public and stored; there are at most as many as the
      limit's size, none for a zero limit, newest first; with page and
      limit from 1 up the page is empty exactly past the last page. */
  lemma FindAllFacts(playlists: seq<Playlist>, page: int, limit: int)
    ensures FindAll(playlists, page, limit).Err? <==> (page < 1 && limit > 0) || (page > 1 && limit < 0)
    ensures FindAll(playlists, page, limit).Ok? ==>
      var r := FindAll(playlists, page, limit).value;
      |r.playlists| <= (if limit >= 0 then limit else -limit) &&
      (forall p :: p in r.playlists ==> p.isPublic && p in playlists) &&
      (forall i, j :: 0 <= i < j < |r.playlists| ==> r.playlists[i].createdAt >= r.playlists[j].createdAt) &&
      (limit == 0 ==> r.playlists == [])
    ensures page >= 1 && limit >= 1 ==>
      var r := FindAll(playlists, page, limit).value;
      r.totalPages.Pages? && (r.playlists != [] <==> page <= r.totalPages.count)
  {
    PageOfFacts(playlists, IsPublic, CreatedAt, page, limit);
  }

  /** For a page from 1 up and a non-negative limit, the listing is the
      run of the public playlists, newest first, that starts after the
      first `(page - 1) * limit`. */
  lemma FindAllWindow(playlists: seq<Playlist>, page: int, limit: int)
    requires page >= 1 && limit >= 0
    ensures var ordered := SortDesc(Filter(playlists, IsPublic), CreatedAt);
      var skip := (page - 1) * limit;
      FindAll(playlists, page, limit).Ok? &&
      var r := FindAll(playlists, page, limit).value.playlists;
      |r| == (if skip + limit <= |ordered| then limit else if skip < |ordered| then |ordered| - skip else 0) &&
      forall i :: 0 <= i < |r| ==> r[i] == ordered[skip + i]
  {
    PageOfWindow(playlists, IsPublic, CreatedAt, page, limit);
  }

  /** The total counts every public playlist and no other, and the page
      count is `Math.ceil(total / limit)`: just enough pages for a
      positive limit, `Infinity` or `NaN` for a zero one, and zero or
      less for a negative one. */
  lemma FindAllTotal(playlists: seq<Playlist>, page: int, limit: int)
    requires FindAll(playlists, page, limit).Ok?
    ensures var r := FindAll(playlists, page, limit).value;
      r.total == |Filter(playlists, IsPublic)| &&
      (forall p :: p in playlists && p.isPublic ==> r.total > 0) &&
      (limit > 0 ==> r.totalPages.Pages? && r.totalPages.count * limit >= r.total &&
                     (r.totalPages.count - 1) * limit < r.total) &&
      (limit == 0 ==> r.totalPages == (if r.total == 0 then NaN else Infinity)) &&
      (limit < 0 ==> r.totalPages.Pages? && r.totalPages.count <= 0)
  {
    var r := FindAll(playlists, page, limit).value;
    assert r.total == |Filter(playlists, IsPublic)| && r.totalPages == PageCountOf(r.total, limit);
    PageCountOfRows(playlists, IsPublic, limit);
  }

  class PlaylistsService {
    /** The `playlist` table. */
    var playlists: seq<Playlist>
    /** The `playlistVideo` table. */
    var entries: seq<Entry>
    /** The ids in the `video` table. */
    var videoIds: set<string>

    ghost predicate Valid()
      reads this
    {
      IdsUnique(playlists) && EntryIdsUnique(entries)
    }

    constructor(videoIds: set<string>)
      ensures Valid() && playlists == [] && entries == [] && this.videoIds == videoIds
    {
      playlists := [];
      entries := [];
      this.videoIds := videoIds;
    }

    /** `create`: one new row; `id` is the id the database generates. */
    method Create(userId: string, request: CreateRequest, id: string, now: int) returns (p: Playlist)
      requires Valid() && !Exists(playlists, id)
      modifies this
      ensures Valid() && entries == old(entries) && videoIds == old(videoIds)
      ensures p == NewPlaylist(id, userId, request, now) && playlists == old(playlists) + [p]
    {
      p := NewPlaylist(id, userId, request, now);
      playlists := playlists + [p];
    }

    /** `update`: after the two checks, the given fields are replaced. */
    method Update(id: string, userId: string, request: UpdateRequest) returns (r: Result<Playlist>)
      requires Valid()
      modifies this
      ensures Valid() && entries == old(entries) && videoIds == old(videoIds)
      ensures var g := Guard(old(playlists), id, userId, "You can only update your own playlists");
        if g.Err? then r == Err(g.error) && playlists == old(playlists)
        else (r == Ok(Updated(old(playlists)[g.value], request)) &&
          playlists == old(playlists)[g.value := Updated(old(playlists)[g.value], request)])
    {
      var g := Guard(playlists, id, userId, "You can only update your own playlists");
      if g.Err? {
        return Err(g.error);
      }
      var q := Updated(playlists[g.value], request);
      playlists := playlists[g.value := q];
      r := Ok(q);
    }

    /** `addVideo`: after the two checks and a check that the video
        exists, one entry is appended; `entryId` is the id the database
        generates. */
    method AddVideo(id: string, userId: string, request: AddRequest, entryId: string) returns (r: Result<Entry>)
      requires Valid() && !HasKey(entries, EntryIdOf, entryId)
      modifies this
      ensures Valid() && playlists == old(playlists) && videoIds == old(videoIds)
      ensures var g := Guard(old(playlists), id, userId, "You can only add videos to your own playlists");
        if g.Err? then r == Err(g.error) && entries == old(entries)
        else if request.videoId !in videoIds then r == Err(NotFound("Video not found")) && entries == old(entries)
        else
          var e := Entry(entryId, id, request.videoId, NextOrder(old(entries), id, request));
          r == Ok(e) && entries == old(entries) + [e]
    {
      var g := Guard(playlists, id, userId, "You can only add videos to your own playlists");
      if g.Err? {
        return Err(g.error);
      }
      if request.videoId !in videoIds {
        return Err(NotFound("Video not found"));
      }
      var order := NextOrder(entries, id, request);
      var e := Entry(entryId, id, request.videoId, order);
      entries := entries + [e];
      r := Ok(e);
    }

    /** `removeVideo`: after the two checks, the first entry of this
        playlist for that video is deleted, and only it. */
    method RemoveVideo(id: string, userId: string, videoId: string) returns (r: Result<string>)
      requires Valid()
      modifies this
      ensures Valid() && playlists == old(playlists) && videoIds == old(videoIds)
      ensures var g := Guard(old(playlists), id, userId, "You can only remove videos from your own playlists");
        var k := FindEntry(old(entries), id, videoId);
        if g.Err? then r == Err(g.error) && entries == old(entries)
        else if k.None? then r == Err(NotFound("Video not in playlist")) && entries == old(entries)
        else r == Ok("Video removed from playlist") && entries == RemoveAt(old(entries), k.value)
    {
      var g := Guard(playlists, id, userId, "You can only remove videos from your own playlists");
      if g.Err? {
        return Err(g.error);
      }
      var k := FindEntry(entries, id, videoId);
      if k.None? {
        return Err(NotFound("Video not in playlist"));
      }
      RemoveAtFacts(entries, k.value);
      entries := RemoveAt(entries, k.value);
      r := Ok("Video removed from playlist");
    }

    /** `remove`: after the two checks, the playlist row is deleted. */
    method Remove(id: string, userId: string) returns (r: Result<string>)
      requires Valid()
      modifies this
      ensures Valid() && entries == old(entries) && videoIds == old(videoIds)
      ensures var g := Guard(old(playlists), id, userId, "You can only delete your own playlists");
        if g.Err? then r == Err(g.error) && playlists == old(playlists)
        else r == Ok("Playlist deleted successfully") && playlists == RemoveAt(old(playlists), g.value)
    {
      var g := Guard(playlists, id, userId, "You can only delete your own playlists");
      if g.Err? {
        return Err(g.error);
      }
      RemoveAtFacts(playlists, g.value);
      playlists := RemoveAt(playlists, g.value);
      r := Ok("Playlist deleted successfully");
    }
  }

  /** Deleting an entry takes out exactly one matching entry: the table
      shrinks by one and that playlist loses one entry for the video. */
  lemma RemoveEntryFacts(entries: seq<Entry>, id: string, videoId: string)
    requires FindEntry(entries, id, videoId).Some?
    ensures var k := FindEntry(entries, id, videoId).value;
      |RemoveAt(entries, k)| == |entries| - 1 &&
      multiset(RemoveAt(entries, k)) + multiset{entries[k]} == multiset(entries) &&
      entries[k].playlistId == id && entries[k].videoId == videoId
  {
    RemoveAtFacts(entries, FindEntry(entries, id, videoId).value);
  }

  /** Deleting a playlist takes only that row away: afterwards no row has
      its id and every other row is still there. */
  lemma RemovePlaylistFacts(playlists: seq<Playlist>, k: nat)
    requires IdsUnique(playlists) && k < |playlists|
    ensures !Exists(RemoveAt(playlists, k), playlists[k].id)
    ensures forall p :: p in playlists && p.id != playlists[k].id ==> p in RemoveAt(playlists, k)
    ensures IdsUnique(RemoveAt(playlists, k))
  {
    var r := RemoveAt(playlists, k);
    RemoveAtFacts(playlists, k);
    forall p | p in playlists && p.id != playlists[k].id ensures p in r {
      var i :| 0 <= i < |playlists| && playlists[i] == p;
      assert i != k;
      assert r[if i < k then i else i - 1] == p;
    }
  }
}
