# DevLife Academy core, modelled in Dafny

DevLife Academy is a video-learning platform. It has a NestJS backend and a
React frontend. This project models the parts of it that compute something
in their own right, and proves what they promise.

- **Transcoding job** (`Transcoding`). This covers:
  - the rendition planner over the 360p/720p/1080p table;
  - the HLS master playlist text, built from the tags of section 4.3 of
    RFC 8216;
  - the progress formula and the object-key scheme;
  - `transcodeVideo` as a state machine over an in-memory video row, the
    quality-variant rows, the progress writes and a notification log;
  - the temporary-directory cleanup loop.
- **Key and URL builders and upload validation** (`Storage`, `Upload`).
  File-name sanitisation, S3 keys and public URLs, MIME and size checks,
  extension extraction, and local paths with backslash normalisation.
- **Authentication token store** (`Auth`). The refresh-token lifetime
  parser (`^(\d+)([dhm])$` with a seven-day fallback), and the token table
  as `register`, `login`, `refreshTokens` and `logout` change it.
- **Search and analytics aggregation** (`Search`, `Analytics`). Global
  search limits and `totalCount`, the `where` assembly of the filtered
  search and its `hasMore`, autocomplete de-duplication, tag ranking,
  creator totals, the top ten videos, and views per day.
- **Guarded table updates** (`Playlists`, `Videos`, `Payments`).
  Not-found before forbidden, the `addVideo` ordering, single-row removal,
  pagination arithmetic, the Stripe status mapping, the webhook dispatch
  and cancellation.
- **Socket registry** (`Gateway`). The `userSockets` map that `handleJoin`
  and `handleDisconnect` change in place.
- **Frontend helpers.**
  - The notification bell's list, unread counter and badge
    (`NotificationBell`).
  - The upload form's checks, tag parsing and upload percentage
    (`UploadPage`).
  - The `m:ss` and `Xh Ym` duration formatters (`Formatters`).

Shared pieces live in three modules:
- `Common`: Option, Result, JavaScript's `trim`, `split`/`join`, decimal
  printing and parsing, and ASCII lower-casing.
- `Schema`: the shared enumerations.
- `Collections`: filtering, the stable descending sort behind
  `orderBy … desc` and `Array.prototype.sort`, `slice`, Prisma's
  `skip`/`take`, the owner guard, page counts, and the first-seen-order
  tally behind a `Map` counter.

Objects whose fields the source updates become classes with those fields:
- the services and their tables (`TranscodingService`, `AuthService`,
  `PlaylistsService`, `VideosService`, `PaymentsService`);
- the socket registry (`NotificationGateway`);
- the two React components' state (`Bell`, `UploadForm`);
- the temporary directory (`TempDirectory`).

Each method's `ensures` ties its new state to a function of the old state,
and lemmas prove what the source promises about that function. Loops in
the source are `while` loops with invariants. These are:
- the rendition loop, the playlist builder and the cleanup loop;
- the disconnect pass over the registry;
- the suggestion and tag-count `forEach` loops, and the per-day counter.

## Conventions

- The database is a set of in-memory tables. A Prisma `where` is a
  filter; `findUnique` and `findFirst` are a search for the first
  matching row.
- The database promises no row order for a query without `orderBy`, and
  none among rows with equal keys under one. The model fixes both: a
  query without `orderBy` returns rows in table order, and `orderBy ...
  desc` is a stable sort of that order. Where a contract names exactly
  which rows are kept, or which row wins a tie, it holds for that
  choice; "## Left out" names those members.
- The generated ids (UUIDs, database ids) and the clock reading are
  parameters. A fresh id is a precondition that no row already has it.
- External services are parameters that either succeed with a value or
  fail with a message: ffmpeg, ffprobe, S3, the notification service,
  Stripe, and the frontend's API calls. The Stripe signature check is a
  `Verification` value.
- Integers are unbounded. Averages are reals. `Math.round` is rounding
  half up on exact rationals.

Where the code does something other than its design intends, the model
follows the code:
- An empty rendition plan still ends COMPLETED, with a manifest that holds
  only the header and no variant rows (`Transcoding.RunCompletedRows`).
- Quality-variant rows are created, not upserted.
- A failing success notification is caught by the same `catch` as the
  job's own failures. The row is then first COMPLETED and afterwards
  FAILED, and it keeps its `hlsUrl` (`Transcoding.PublishFailed`).
- A missing video throws a plain error naming the id.
- `create` of a playlist reads `isPublic ?? true`, although the creation
  request type has no such field; the model gives the request that field.
- Every number read from a query string (the page and limit of the
  listings, and the limit, skip and take of the searches) is any integer,
  as `parseInt` gives it; the controllers check no sign.
  - A negative `skip` is Prisma's validation error (`InvalidQuery`). In
    `searchVideos` it rejects the `findMany` and so the whole
    `Promise.all` (`Search.SearchVideos`).
  - A negative `take` counts from the end of the ordered rows, keeping
    their order (`Collections.Window`, `Collections.Taken`). So a negative
    limit in the global search returns the oldest matches, and in the
    suggestions the last matching rows of the table.
  - `slice(0, k)` with a negative `k` drops the last `-k` elements
    (`Collections.Slice`).
  - `Math.floor(limit / 2)` is Dafny's `limit / 2`, which also rounds
    down for a negative limit.
  - The page count is `Math.ceil(total / limit)` as JavaScript computes
    it, so a zero limit gives `Infinity` or `NaN`
    (`Collections.PageCountOf`).

## Model

| member | source | states |
|---|---|---|
| Transcoding.PlanIsTablePrefix | backend/src/transcoding/transcoding.service.ts:260-269 | the plan is the first k entries of the 360p/720p/1080p table, k being how many of their heights the source reaches; no height gives none |
| Transcoding.PlanMembers | backend/src/transcoding/transcoding.service.ts:260-269 | a quality is planned exactly when it is a table entry no taller than the probed height |
| Transcoding.PlanMonotone | backend/src/transcoding/transcoding.service.ts:260-269 | a taller source's plan extends a shorter one's: the smaller plan is a prefix of the larger |
| Transcoding.ResolutionMatchesTable | backend/src/transcoding/transcoding.service.ts:296-303 | the resolution of each table entry is its own width `x` its own height |
| Transcoding.ResolutionDefault | backend/src/transcoding/transcoding.service.ts:296-303 | a label outside the table gets `1280x720` |
| Transcoding.BasenameInFolder | backend/src/transcoding/transcoding.service.ts:284 | the basename of a key made of a folder and a slash-free name is that name |
| Transcoding.RenditionKeyLayout | backend/src/transcoding/transcoding.service.ts:110 | a rendition key is `videos/<creator>/<video>/hls/<quality>.mp4`, and its basename, which the manifest names, is `<quality>.mp4` |
| Transcoding.ManifestKeyLayout | backend/src/transcoding/transcoding.service.ts:135 | the manifest key is the renditions' folder followed by `master.m3u8` |
| Transcoding.GenerateHlsPlaylist | backend/src/transcoding/transcoding.service.ts:274-291 | the loop's text is the header followed by one block per rendition in input order; no renditions give the header alone |
| Transcoding.BlocksStep | backend/src/transcoding/transcoding.service.ts:283-287 | the blocks of one more rendition are the earlier blocks followed by its block |
| Transcoding.HeaderLines | backend/src/transcoding/transcoding.service.ts:281 | the header is the `#EXTM3U` line, the `#EXT-X-VERSION:3` line and a blank line |
| Transcoding.BlockIsLines | backend/src/transcoding/transcoding.service.ts:284-286 | a block is its `#EXT-X-STREAM-INF:BANDWIDTH=<kbps*1000>,RESOLUTION=…` line, its URI line and a blank line |
| Transcoding.PlaylistIsLines | backend/src/transcoding/transcoding.service.ts:281-287 | the playlist text is its lines, each ended by a newline |
| Transcoding.PlaylistLinesNoNewline | backend/src/transcoding/transcoding.service.ts:284-286 | no playlist line holds a line break when no rendition key holds one |
| Transcoding.PlaylistLineStructure | backend/src/transcoding/transcoding.service.ts:281-287 | split at its line breaks, the playlist is the header lines and then, for each rendition, its stream line, its basename and a blank line |
| Transcoding.NoNewlineInStreamInf | backend/src/transcoding/transcoding.service.ts:285 | a stream-info line never holds a line break |
| Transcoding.ProgressIsNearest | backend/src/transcoding/transcoding.service.ts:125-127 | the progress after k of n renditions is the nearest integer to 80k/n, halves rounded up |
| Transcoding.Progress | backend/src/transcoding/transcoding.service.ts:126 | the progress after k of n renditions is at most 80, 0 before any and exactly 80 after the last |
| Transcoding.ProgressMonotone | backend/src/transcoding/transcoding.service.ts:125-127 | progress never goes back as renditions complete |
| Transcoding.ProgressRunSorted | backend/src/transcoding/transcoding.service.ts:72-158 | on success the persisted progress runs 0, the per-rendition values, then 100, never decreasing |
| Transcoding.StepsOrdered | backend/src/transcoding/transcoding.service.ts:125-127 | progress values after successive renditions, after 0 and before 100, never decrease and stay at most 100 |
| Transcoding.EncodeLoopSteps | backend/src/transcoding/transcoding.service.ts:103-128 | each rendition the loop keeps is the encoding of its planned quality, uploaded under its key, in plan order |
| Transcoding.EncodeLoopStops | backend/src/transcoding/transcoding.service.ts:103-128 | once an encode or upload has thrown, the later qualities are not processed |
| Transcoding.RunEarlyFault | backend/src/transcoding/transcoding.service.ts:72-195 | a download or probe failure leaves the row FAILED with its message after the single PROCESSING write, with no variants and one failure notice |
| Transcoding.RunAfterProbe | backend/src/transcoding/transcoding.service.ts:72-96 | after a successful probe the run is the PROCESSING write of 0 followed by the rest of the job |
| Transcoding.AfterProbeStages | backend/src/transcoding/transcoding.service.ts:103-195 | once the loop stops, a thrown step leads to the `catch` block and otherwise the playlist is published |
| Transcoding.PublishWrites | backend/src/transcoding/transcoding.service.ts:132-169 | the publishing stage only appends to the progress writes |
| Transcoding.RunSucceedsIff | backend/src/transcoding/transcoding.service.ts:62-197 | a run returns normally exactly when the download, the probe, every encode and upload, the manifest upload and the success notice succeed |
| Transcoding.RunSuccessStages | backend/src/transcoding/transcoding.service.ts:62-197 | a successful run went through every stage, each rendition encoded and uploaded in plan order |
| Transcoding.RunCompleted | backend/src/transcoding/transcoding.service.ts:153-169 | a successful run leaves the row COMPLETED at 100 with the manifest's public URL as `hlsUrl`, and sends one success notice |
| Transcoding.RunCompletedRows | backend/src/transcoding/transcoding.service.ts:140-150 | a successful run adds one variant row per planned quality, in plan order; an empty plan adds none and still completes |
| Transcoding.RunCompletedWrites | backend/src/transcoding/transcoding.service.ts:72-158 | a successful run writes progress 0, the value after each rendition, then 100 |
| Transcoding.CompletedWritesShape | backend/src/transcoding/transcoding.service.ts:72-158 | the completed run's writes start at 0, end at 100 and never decrease |
| Transcoding.RunFailed | backend/src/transcoding/transcoding.service.ts:175-195 | a failed run leaves the row FAILED with the thrown message, progress at its last write, and sends one failure notice; a failed download writes only the first 0 |
| Transcoding.RunFailedAfterProbe | backend/src/transcoding/transcoding.service.ts:103-195 | the same for a run that got past the probe; variant rows or a manifest remain only when the success notice failed, and then `hlsUrl` is kept |
| Transcoding.PublishFailed | backend/src/transcoding/transcoding.service.ts:132-195 | a publishing stage that throws leaves the row FAILED with one failure notice; progress stays where the loop left it, or is 100 once COMPLETED was written; rows or a manifest remain only when the success notice failed, and then `hlsUrl` is kept |
| Transcoding.RunProgressOrdered | backend/src/transcoding/transcoding.service.ts:72-158 | every run's progress writes never decrease and stay within 0..100 |
| Transcoding.RunWrites | backend/src/transcoding/transcoding.service.ts:72-158 | the progress writes of a run: 0 alone after an early failure, otherwise 0 and the per-rendition values, then 100 on success |
| Transcoding.TranscodingService.constructor | backend/src/transcoding/transcoding.service.ts:39-40 | region and bucket fall back to `us-east-1` and `devlife-academy-videos` when unset |
| Transcoding.TranscodingService.UpdateTranscodingStatus | backend/src/transcoding/transcoding.service.ts:352-364 | the row gets the status and progress, nothing else changes, and the progress write is logged |
| Transcoding.TranscodingService.SaveDuration | backend/src/transcoding/transcoding.service.ts:88-93 | the rounded duration is written only when the probe reported a non-zero duration |
| Transcoding.TranscodingService.FailJob | backend/src/transcoding/transcoding.service.ts:175-195 | the row becomes FAILED with the message, one failure notice is logged and the fault is rethrown |
| Transcoding.TranscodingService.EncodeStep | backend/src/transcoding/transcoding.service.ts:105-122 | one loop pass: encode, upload under the rendition key, and record the rendition, or stop with the thrown fault |
| Transcoding.TranscodingService.EncodeRenditions | backend/src/transcoding/transcoding.service.ts:103-128 | the loop's renditions, fault and progress writes are those of the loop's specification `EncodeLoop` |
| Transcoding.TranscodingService.SaveVariants | backend/src/transcoding/transcoding.service.ts:140-150 | one variant row per rendition is appended, in order |
| Transcoding.TranscodingService.PublishJob | backend/src/transcoding/transcoding.service.ts:132-169 | the state after the playlist upload, the variant rows and the COMPLETED write is the specification `Publish` |
| Transcoding.TranscodingService.CompleteJob | backend/src/transcoding/transcoding.service.ts:140-169 | the state after the variant rows, the COMPLETED write and the success notice is the specification `Complete` |
| Transcoding.TranscodingService.FinishJob | backend/src/transcoding/transcoding.service.ts:128-195 | after the loop the state is that of `AfterLoop`: the `catch` block for a thrown step, publishing otherwise |
| Transcoding.TranscodingService.TranscodeProbed | backend/src/transcoding/transcoding.service.ts:96-195 | from the plan on, the state is that of `AfterProbe` |
| Transcoding.TranscodingService.StartJob | backend/src/transcoding/transcoding.service.ts:72-195 | for an existing row the whole run's state is that of `Run` |
| Transcoding.TranscodingService.TranscodeVideo | backend/src/transcoding/transcoding.service.ts:62-197 | a missing video throws before any write or notice; otherwise the run is `Run` |
| Transcoding.TempDirectory.Cleanup | backend/src/transcoding/transcoding.service.ts:369-380 | entries are unlinked in listing order up to the first failure, the directory is removed only if all went, and nothing is thrown |
| Storage.Sanitize | backend/src/storage/storage.service.ts:46 | same length; each character outside `[A-Za-z0-9.-]` becomes `_`, every other is kept |
| Storage.SanitizeSafe | backend/src/storage/storage.service.ts:46 | a sanitised name holds only letters, digits, `.`, `-` and `_`, and no `/` |
| Storage.SanitizeIdempotent | backend/src/storage/storage.service.ts:44-54 | sanitising twice is sanitising once, and a name is unchanged exactly when all its characters are allowed |
| Storage.KeysDifferOnlyInFolder | backend/src/storage/storage.service.ts:44-54 | the video key is `videos/` and the thumbnail key `thumbnails/` before the same `<user>/<timestamp>-<name>`, so they differ |
| Storage.VideoKeyLastSegment | backend/src/storage/storage.service.ts:44-48 | the last path segment of a video key is `<timestamp>-<sanitised name>` |
| Storage.KeyOfPublicUrl | backend/src/storage/storage.service.ts:39-42 | the key reads back from its public URL, of which it is the suffix |
| Storage.PublicUrlInjective | backend/src/storage/storage.service.ts:39-42 | different keys have different public URLs |
| Upload.FileExtensionFacts | backend/src/upload/upload.service.ts:181-184 | the extension has no `.` and is the lower-cased tail of the name after its last `.` |
| Upload.FileExtensionNoDot | backend/src/upload/upload.service.ts:181-184 | a name without `.` is its own extension, lower-cased |
| Upload.FileExtensionAfterLastDot | backend/src/upload/upload.service.ts:181-184 | the extension of `stem.ext` is `ext` lower-cased, and a name ending in `.` has the empty extension |
| Upload.PublicUrlFacts | backend/src/upload/upload.service.ts:173-176 | the URL is the API base (its default when unset or empty), `/`, and the path character by character with every `\` turned into `/` and every other character kept |
| Upload.UploadVideoAcceptsIff | backend/src/upload/upload.service.ts:39-83 | a video is accepted exactly for the four video types at no more than 2 GiB (2 GiB passes); a bad type is reported whatever the size; the file goes to the originals folder |
| Upload.UploadImageAcceptsIff | backend/src/upload/upload.service.ts:88-155 | thumbnails and profile images are accepted exactly for the four image types, at any size, under the same stored name |
| Upload.StoreLayout | backend/src/upload/upload.service.ts:64-76 | the stored name is `<uuid>.<ext>` and the path `uploads/<folder>/<user>/<name>`, for videos here and likewise for thumbnails and profile images |
| Upload.StoreUrl | backend/src/upload/upload.service.ts:78-81 | with no backslash in the inputs the URL is the base URL, `/` and the local path |
| Auth.ParseLifetimeSound | backend/src/auth/auth.service.ts:166-169 | every match is a digit string then `d`, `h` or `m`, the amount being the digits' value |
| Auth.ParseLifetimeComplete | backend/src/auth/auth.service.ts:166-169 | every digit string followed by a unit letter matches |
| Auth.ParseLifetimeRoundTrip | backend/src/auth/auth.service.ts:166-181 | a printed amount and unit parse back, also with a leading zero |
| Auth.ExpiresAtFacts | backend/src/auth/auth.service.ts:161-185 | an unset, empty or non-matching setting gives now plus seven days; a match adds its days, hours or minutes |
| Auth.NonMatchingSettings | backend/src/auth/auth.service.ts:166-185 | `1w`, `30s`, `7 d`, the empty string, `d` and `-1d` do not match |
| Auth.FindUser | backend/src/auth/auth.service.ts:103-105 | the user found has the looked-up email or id and is in the table; none means no user has it |
| Auth.FirstUsable | backend/src/auth/auth.service.ts:89-97 | the first stored token of this user with this value that has not expired, or none |
| Auth.WithoutUserFacts | backend/src/auth/auth.service.ts:122-127 | logging out removes every token of that user and keeps every other token |
| Auth.WithoutUserUnique | backend/src/auth/auth.service.ts:122-127 | logging out keeps the token ids distinct |
| Auth.RotateFacts | backend/src/auth/auth.service.ts:111-117 | rotation adds the new row, removes exactly the used one, keeps the rest and the ids distinct |
| Auth.RefreshRotates | backend/src/auth/auth.service.ts:88-120 | a successful refresh leaves the old table without the used token, plus the new one |
| Auth.AuthService.StoreRefreshToken | backend/src/auth/auth.service.ts:161-194 | one row appended, expiring at the time the setting gives |
| Auth.AuthService.Register | backend/src/auth/auth.service.ts:21-54 | a used email is a conflict and changes nothing; otherwise one user and one token are added |
| Auth.AuthService.Login | backend/src/auth/auth.service.ts:56-86 | an unknown email and a wrong password give the same `Invalid credentials` error and store nothing; success stores one token |
| Auth.AuthService.RefreshTokens | backend/src/auth/auth.service.ts:88-120 | without a usable token, or without the user, nothing changes; otherwise the new token is stored and the old one deleted |
| Auth.AuthService.Logout | backend/src/auth/auth.service.ts:122-127 | every token of this user goes and every other stays |
| Search.GlobalSearchBlank | backend/src/search/search.service.ts:22-29 | an empty or all-whitespace query gives empty lists and a zero count |
| Search.GlobalSearchCounts | backend/src/search/search.service.ts:31-121 | for any integer limit: at most as many videos as the limit's size, as many playlists as the size of `Math.floor(limit / 2)`, and five creators, the total being their sum |
| Search.GlobalSearchVideos | backend/src/search/search.service.ts:31-61 | the videos found are published matching videos, newest first, as many as there are up to the limit's size, drawn from the matches; a non-negative limit keeps the newest (none left out is newer than one found), a negative one the oldest (none left out is older) |
| Search.GlobalSearchPlaylists | backend/src/search/search.service.ts:63-89 | the playlists found are matching playlists with their own entry counts, newest first, as many as there are up to the size of `Math.floor(limit / 2)`; a non-negative half keeps the newest, a negative one the oldest |
| Search.GlobalSearchCreators | backend/src/search/search.service.ts:91-121 | the creators found are at most five matching users, the first five in table order (the order the model fixes for a query without `orderBy`): each mentions the term in its name or bio and is an administrator |
| Search.BuildWhere | backend/src/search/search.service.ts:140-165 | a video meets every clause exactly when it is published, matches the term if there is one, and meets each filter given |
| Search.SearchVideos | backend/src/search/search.service.ts:128-193 | rejected with `InvalidQuery("skip")` exactly for a negative skip; otherwise the page is the `skip`/`take` window of the selected videos, newest first (a negative take counting from the end), the total counts them, and `hasMore` holds exactly when `skip + take < total` |
| Search.HasMoreIffRowsRemain | backend/src/search/search.service.ts:191 | for a non-negative take, `hasMore` says exactly whether selected videos remain after the page; for a negative take it holds whenever the skip stays within the rows, also when the page ends at the last row, and past the end while the overshoot is below the take's size |
| Search.SearchUnfiltered | backend/src/search/search.service.ts:140-153 | with no term and no filter, exactly the published videos are selected |
| Search.AddAllFacts | backend/src/search/search.service.ts:225-241 | the insertion-ordered set only grows at its end, never repeats, and holds what was there and what was added |
| Search.SuggestionsFacts | backend/src/search/search.service.ts:225-243 | suggestions are a prefix of the distinct exact strings found, each containing the term in any case; at most `limit` of them, or for a negative limit all but the last `-limit` |
| Search.SuggestionsTitlesFirst | backend/src/search/search.service.ts:225-243 | matching titles come before matching tags: the title-only suggestions under the same limit are a prefix of the suggestions |
| Search.CaseSensitive | backend/src/search/search.service.ts:225-243 | `React` and `react` are both kept, and a repeated `React` once |
| Search.CollectSuggestions | backend/src/search/search.service.ts:225-243 | the two `forEach` passes compute the suggestions |
| Search.SuggestionRowsFacts | backend/src/search/search.service.ts:206-223 | the fetched rows are published rows whose title contains the term or with the term as a tag, in table order: the first `2 * limit`, or for a negative limit the last `-2 * limit` |
| Search.GetSearchSuggestions | backend/src/search/search.service.ts:198-244 | for any integer limit: a trimmed query shorter than two characters gives none; otherwise the suggestions drawn from the rows fetched under `take: limit * 2` |
| Search.PopularTermsFacts | backend/src/search/search.service.ts:262-274 | the most frequent lower-case tags: as many as there are distinct tags up to `limit`, or for a negative limit all but the `-limit` least frequent; by non-increasing count, each with its number of occurrences, and no tag left out occurs more often than one returned |
| Search.PopularTermsTies | backend/src/search/search.service.ts:262-274 | the terms are distinct, and terms with equal counts keep the order in which the rows first mention them |
| Search.CountTags | backend/src/search/search.service.ts:262-268 | the nested loops fill the map with the tally of the lower-cased tags |
| Search.GetPopularSearchTerms | backend/src/search/search.service.ts:249-275 | for any integer limit, the ranking of the tally of the published, tagged rows, cut by `slice(0, limit)` |
| Analytics.VideoAnalyticsFacts | backend/src/analytics/analytics.service.ts:18-33 | `totalViews` is the number of this video's rows and `totalWatchTime` the sum of their seconds, both counted row by row; there are views exactly when some row belongs to the video |
| Analytics.VideoAnalyticsAverage | backend/src/analytics/analytics.service.ts:26-32 | the average is 0 without views and otherwise multiplies back to the total |
| Analytics.WatchTimeBound | backend/src/analytics/analytics.service.ts:24-25 | the watch-time sum is at most the longest view times the number of views |
| Analytics.CreatorTotalsFacts | backend/src/analytics/analytics.service.ts:50-55 | the creator's view count is the number of all its rows and the watch time their sum |
| Analytics.TopVideosFacts | backend/src/analytics/analytics.service.ts:60-69 | at most ten, each the summary of one of the creator's videos, by non-increasing views, none left out having more views than one kept |
| Analytics.ViewsByDay | backend/src/analytics/analytics.service.ts:85-89 | the `forEach` computes the tally of the recent rows' days |
| Analytics.ViewsByDayFacts | backend/src/analytics/analytics.service.ts:85-89 | each day once, with its number of rows, the counts adding up to the number of recent rows |
| Analytics.CreatorAnalytics | backend/src/analytics/analytics.service.ts:35-101 | the totals, average, top videos and per-day counts are those of the creator's videos and recent rows |
| Analytics.SubscriptionCountsBound | backend/src/analytics/analytics.service.ts:103-121 | the creator id plays no part; monthly plus annual never exceed the active total, itself at most the table |
| Gateway.RemoveFirstFacts | backend/src/notifications/notification.gateway.ts:30-32 | removing takes out one copy of the id when present and changes nothing otherwise |
| Gateway.RemoveFirstAt | backend/src/notifications/notification.gateway.ts:30-32 | the copy removed is the first, and the others keep their order |
| Gateway.Joined | backend/src/notifications/notification.gateway.ts:41-44 | the socket is appended to the user's list, which is created if absent; other users keep their lists |
| Gateway.JoinTwice | backend/src/notifications/notification.gateway.ts:42-44 | joining twice stores the socket id twice |
| Gateway.DisconnectedFacts | backend/src/notifications/notification.gateway.ts:28-37 | a disconnect never leaves an empty list, keeps the lists without the id, and drops only users whose list was that id alone |
| Gateway.PartlyDisconnectedStep | backend/src/notifications/notification.gateway.ts:29-37 | visiting one more user moves the partial registry on by that user's update |
| Gateway.NotificationGateway.HandleJoin | backend/src/notifications/notification.gateway.ts:41-47 | the registry becomes `Joined` of the old one |
| Gateway.NotificationGateway.HandleDisconnect | backend/src/notifications/notification.gateway.ts:26-38 | the registry becomes `Disconnected` of the old one and holds no empty list |
| Playlists.GuardOrder | backend/src/playlists/playlists.service.ts:189-199 | a missing playlist is not found whoever asks; forbidden only for someone else's playlist; otherwise its position (the same checks open `addVideo`, `removeVideo` and `remove`) |
| Playlists.NewPlaylistVisibility | backend/src/playlists/playlists.service.ts:15-34 | a new playlist is public unless the request says `false`, and belongs to the caller |
| Playlists.UpdatedFacts | backend/src/playlists/playlists.service.ts:200-218 | an update sets each given field (title, description, cover image, visibility), clears a description or cover image sent as `null`, keeps each field not given, and never changes the id, the creator or the creation time |
| Playlists.EntriesOfAppend | backend/src/playlists/playlists.service.ts:249-260 | appending an entry adds it to its playlist's entries only |
| Playlists.NextOrderDefault | backend/src/playlists/playlists.service.ts:249-260 | without a requested order, new entries are numbered by the playlist's entry count, so 0, 1, 2, … |
| Playlists.NextOrderRequested | backend/src/playlists/playlists.service.ts:249-260 | a requested order, 0 included, is used as given |
| Playlists.FindEntry | backend/src/playlists/playlists.service.ts:278-283 | the first entry of this playlist and video, or none |
| Playlists.FindAllFacts | backend/src/playlists/playlists.service.ts:36-90 | the query fails exactly when `(page-1)*limit` is negative; otherwise listed playlists are public and stored, newest first, at most as many as the limit's size, none for a zero limit; with page and limit from 1, the page is non-empty exactly up to the page count |
| Playlists.FindAllWindow | backend/src/playlists/playlists.service.ts:37-72 | for a page from 1 and a non-negative limit, the listing is the run of the public playlists, newest first, that starts after the first `(page-1)*limit`, as long as the limit and the rows allow |
| Playlists.FindAllTotal | backend/src/playlists/playlists.service.ts:74-87 | the total counts exactly the public playlists; the page count is the least covering one for a positive limit, `NaN` or `Infinity` for a zero one, and not positive for a negative one |
| Playlists.PlaylistsService.Create | backend/src/playlists/playlists.service.ts:15-34 | one new row is appended |
| Playlists.PlaylistsService.Update | backend/src/playlists/playlists.service.ts:184-219 | after the two checks the given fields are replaced; a failed check changes nothing |
| Playlists.PlaylistsService.AddVideo | backend/src/playlists/playlists.service.ts:221-261 | after the checks, an unknown video is not found; otherwise one entry with the next order is appended |
| Playlists.PlaylistsService.RemoveVideo | backend/src/playlists/playlists.service.ts:263-294 | after the checks, the first matching entry is deleted, or the video is not in the playlist and nothing changes |
| Playlists.PlaylistsService.Remove | backend/src/playlists/playlists.service.ts:296-314 | after the checks, the playlist row is deleted |
| Playlists.RemoveEntryFacts | backend/src/playlists/playlists.service.ts:278-291 | deleting takes out exactly one matching entry and keeps the others in order |
| Playlists.RemovePlaylistFacts | backend/src/playlists/playlists.service.ts:296-314 | deleting a playlist leaves no row with its id, keeps every other row and the ids distinct |
| Videos.NewVideoDefaults | backend/src/videos/videos.service.ts:58-77 | no tags become `[]`, no visibility PUBLIC, no thumbnail the placeholder URL; the row is unpublished |
| Videos.NewVideoKeys | backend/src/videos/videos.service.ts:54-74 | the stored key is the video key of the upload's name, and `hlsUrl` is the public URL of that same key |
| Videos.UpdatedKeeps | backend/src/videos/videos.service.ts:214-233 | an update leaves the owner, the media and the publication as they were; a given visibility, description or price replaces the old one, a `null` description or price clears it, one left out is kept; an empty update changes nothing |
| Videos.GuardOrder | backend/src/videos/videos.service.ts:203-213 | a missing video is not found whoever asks; forbidden only for someone else's video (the same checks open `publish` and `remove`) |
| Videos.FindAllFacts | backend/src/videos/videos.service.ts:95-140 | the query fails exactly when `(page-1)*limit` is negative; otherwise listed videos are public, published and stored, at most as many as the limit's size, none for a zero limit; with page and limit from 1, the page is non-empty exactly up to the page count |
| Videos.FindAllOrder | backend/src/videos/videos.service.ts:96-119 | the page is ordered newest publication first; for a page from 1 and a non-negative limit it is the run of listed videos that starts after the first `(page-1)*limit` |
| Videos.FindAllTotal | backend/src/videos/videos.service.ts:133-138 | the total counts exactly the listed videos; the page count is the least covering one for a positive limit, `NaN` or `Infinity` for a zero one, and not positive for a negative one |
| Videos.PublishLists | backend/src/videos/videos.service.ts:236-255 | a new video is not listed until published, and publishing a public one lists it |
| Videos.VideosService.Create | backend/src/videos/videos.service.ts:53-93 | one new row is appended |
| Videos.VideosService.Update | backend/src/videos/videos.service.ts:202-234 | after the two checks the given fields are replaced; a failed check changes nothing |
| Videos.VideosService.Publish | backend/src/videos/videos.service.ts:236-255 | after the two checks the publication time becomes now, replacing any earlier one |
| Videos.VideosService.Remove | backend/src/videos/videos.service.ts:257-275 | after the two checks the row is deleted |
| Payments.StatusOfFacts | backend/src/payments/payments.service.ts:95-97 | `active`, `canceled` and `past_due` map to their own statuses and anything else to EXPIRED |
| Payments.UpdatedEventFacts | backend/src/payments/payments.service.ts:94-103 | an update event sets the mapped status on every row of that Stripe subscription and no other |
| Payments.DeletedEventFacts | backend/src/payments/payments.service.ts:105-113 | a deletion event cancels every row of that Stripe subscription with the end date, and no other |
| Payments.OtherEventsFacts | backend/src/payments/payments.service.ts:63-92 | a completed checkout adds one active row; unknown events change nothing |
| Payments.LatestActive | backend/src/payments/payments.service.ts:116-122 | the newest active row of the user, or none |
| Payments.HasActiveIff | backend/src/payments/payments.service.ts:115-128 | the user has an active subscription exactly when some row of theirs is ACTIVE, and the row shown is the newest |
| Payments.CancellableFacts | backend/src/payments/payments.service.ts:131-142 | cancelling needs the newest active row to carry a Stripe id |
| Payments.CancelFacts | backend/src/payments/payments.service.ts:144-153 | after cancelling, that row is CANCELLED and every other row unchanged |
| Payments.PaymentsService.HandleWebhook | backend/src/payments/payments.service.ts:51-77 | a rejected signature is a bad request and changes nothing; otherwise the table is dispatched on the event and `received` returned |
| Payments.PaymentsService.HandleCheckoutSessionCompleted | backend/src/payments/payments.service.ts:79-92 | one active row for the session's user and plan is appended |
| Payments.PaymentsService.HandleSubscriptionUpdated | backend/src/payments/payments.service.ts:94-103 | the linked rows get the mapped status |
| Payments.PaymentsService.HandleSubscriptionDeleted | backend/src/payments/payments.service.ts:105-113 | the linked rows become CANCELLED with the end date |
| Payments.PaymentsService.CancelSubscription | backend/src/payments/payments.service.ts:130-154 | without a cancellable row it fails and nothing changes; a Stripe error changes nothing; otherwise only that row is cancelled |
| NotificationBell.BadgeFacts | frontend/src/components/notifications/NotificationBell.tsx:89-93 | no badge at zero or below, `9+` exactly above nine, otherwise the count's digit |
| NotificationBell.MarkReadFacts | frontend/src/components/notifications/NotificationBell.tsx:56-58 | only the entries with that id become read; the others are unchanged |
| NotificationBell.UnreadMarkRead | frontend/src/components/notifications/NotificationBell.tsx:56-59 | marking an unread entry with a unique id lowers the number of unread entries by one |
| NotificationBell.MarkReadOfReadEntry | frontend/src/components/notifications/NotificationBell.tsx:59 | marking an already read entry still lowers the counter, which then falls below the unread entries |
| NotificationBell.UnreadAllRead | frontend/src/components/notifications/NotificationBell.tsx:68 | after marking all, no entry is unread |
| NotificationBell.CounterTracksUnread | frontend/src/components/notifications/NotificationBell.tsx:30-73 | a counter equal to the unread entries stays so through a new notification, marking a unique unread entry, and marking all |
| NotificationBell.Bell.Fetch | frontend/src/components/notifications/NotificationBell.tsx:37-51 | on success the list and the server's count replace the state; loading ends either way |
| NotificationBell.Bell.OnNew | frontend/src/components/notifications/NotificationBell.tsx:30-33 | the newest is put first and the counter goes up by one |
| NotificationBell.Bell.MarkAsRead | frontend/src/components/notifications/NotificationBell.tsx:53-63 | only after a successful call: the entries with that id are read and the counter drops by one, not below zero |
| NotificationBell.Bell.MarkAllAsRead | frontend/src/components/notifications/NotificationBell.tsx:65-73 | only after a successful call: every entry is read and the counter is zero |
| UploadPage.ParseTagsClean | frontend/src/pages/UploadVideoPage.tsx:166 | every parsed tag is non-empty, has no surrounding white space and no comma |
| UploadPage.TrimTagsDropsBlank | frontend/src/pages/UploadVideoPage.tsx:166 | a piece of only white space gives no tag |
| UploadPage.TrimTagsOfClean | frontend/src/pages/UploadVideoPage.tsx:166 | clean tags are kept as they are, in order |
| UploadPage.ParseTagsJoin | frontend/src/pages/UploadVideoPage.tsx:166 | clean tags joined with commas parse back into the same tags in the same order |
| UploadPage.ParseTagsEmpty | frontend/src/pages/UploadVideoPage.tsx:166 | an empty field gives no tags |
| UploadPage.PercentNearest | frontend/src/pages/UploadVideoPage.tsx:119-121 | the percentage is the nearest integer to `100 * loaded / total`, halves rounded up |
| UploadPage.PercentRange | frontend/src/pages/UploadVideoPage.tsx:119-121 | within 0..100 while `loaded <= total`, 0 at the start and 100 at the end |
| UploadPage.PercentMonotone | frontend/src/pages/UploadVideoPage.tsx:119-121 | the percentage never goes down as more is sent |
| UploadPage.ValidationOrder | frontend/src/pages/UploadVideoPage.tsx:134-147 | the form is valid exactly when a file is chosen, the trimmed title is not empty and a paid video has a price; the first failing check gives its message |
| UploadPage.SubmitFacts | frontend/src/pages/UploadVideoPage.tsx:130-189 | an invalid form uploads and posts nothing; the dashboard is reached exactly when every call succeeds, and exactly then no error shows; the posted metadata carries the uploaded path and the parsed tags |
| UploadPage.Send | frontend/src/pages/UploadVideoPage.tsx:134-184 | the checks and calls produce the outcome of `Submit` |
| UploadPage.UploadForm.OnVideoDrop | frontend/src/pages/UploadVideoPage.tsx:33-46 | a file over 2 GiB only sets the error and keeps the earlier file; otherwise it is chosen and the error cleared |
| UploadPage.UploadForm.OnThumbnailDrop | frontend/src/pages/UploadVideoPage.tsx:48-54 | any dropped image is chosen |
| UploadPage.UploadForm.OnUploadProgress | frontend/src/pages/UploadVideoPage.tsx:117-124 | the percentage changes only when the total is known |
| UploadPage.UploadForm.HandleSubmit | frontend/src/pages/UploadVideoPage.tsx:130-189 | the error and outcome are those of `Submit`, and once an upload started, uploading and progress are reset whatever happened |
| Formatters.FormatDurationRoundTrip | frontend/src/components/video/VideoCard.tsx:11-16 | a formatted duration reads back as its number of seconds, so minutes times sixty plus seconds is the input |
| Formatters.FormatDurationEmptyIff | frontend/src/components/video/VideoCard.tsx:12 | the text is empty exactly for a missing or zero duration |
| Formatters.SecondsFieldFacts | frontend/src/components/video/VideoCard.tsx:14-15 | the seconds field is exactly two digits and reads back as the seconds |
| Formatters.FormatDurationHour | frontend/src/components/video/VideoCard.tsx:13-15 | there is no hour field: an hour shows as `60:00` |
| Formatters.WatchTimeParts | frontend/src/pages/DashboardPage.tsx:87-91 | the minutes are below sixty, and hours and minutes are the input less its leftover seconds |
| Formatters.FormatWatchTimeRoundTrip | frontend/src/pages/DashboardPage.tsx:87-91 | the watch-time text reads back as the input rounded down to the minute |
| Formatters.FormatWatchTimeZero | frontend/src/pages/DashboardPage.tsx:87-91 | anything under a minute, zero included, shows as `0h 0m` |
| Collections.SortDescFacts | backend/src/search/search.service.ts:57-59 | the sort behind `orderBy … desc` gives a permutation ordered by non-increasing key |
| Collections.SortDescStable | backend/src/search/search.service.ts:273 | the sort is stable: elements with equal keys keep their order |
| Collections.TopOfSorted | backend/src/analytics/analytics.service.ts:68-69 | the first n of the sorted elements are the n largest |
| Collections.OwnerGuardOrder | backend/src/videos/videos.service.ts:203-213 | a missing row is not found whoever asks; forbidden only for another owner's row |
| Collections.TotalPagesCeiling | backend/src/playlists/playlists.service.ts:87 | `Math.ceil(total / limit)` pages hold every row, and one page fewer would not |
| Collections.SkipWithin | backend/src/playlists/playlists.service.ts:37 | page `page` starts inside the rows exactly when its number is at most the page count |
| Collections.PageNonEmptyIff | backend/src/videos/videos.service.ts:96-137 | a page holds rows exactly when its number is at most the page count |
| Collections.TallyFacts | backend/src/search/search.service.ts:262-268 | the tally lists each distinct key once, ordered by where each key first occurs, with its number of occurrences, the counts adding up to the keys |
| Collections.SortDescTies | backend/src/search/search.service.ts:273 | after the sort, distinct elements with equal keys appear in the order of their first position in the input |
| Collections.RankTop | backend/src/search/search.service.ts:271-274 | `slice(0, n)` of the tally sorted by count keeps the most frequent keys, each with its number of occurrences: up to `n` of them, or for a negative `n` all but the `-n` least frequent |
| Collections.RankTies | backend/src/search/search.service.ts:271-274 | for any integer `n`, the ranked entries name distinct keys, and equal counts keep the keys' first-seen order |
| Collections.TopFacts | backend/src/analytics/analytics.service.ts:68-69 | the first `n` after the sort are as many as there are up to `n`, sorted, a sub-multiset of the input, and none left out has a larger key than one kept |
| Collections.TopMatches | backend/src/search/search.service.ts:34-60 | `take: n` of the rows passing the `where`, largest key first: as many as pass up to `n`, a sub-multiset of them, and no passing row left out has a larger key |
| Collections.BottomMatches | backend/src/search/search.service.ts:34-60 | `take: -n` keeps the passing rows with the smallest keys, as many as pass up to `n`, still largest key first, and no passing row left out has a smaller key |
| Collections.TakenMatches | backend/src/search/search.service.ts:34-60 | for any integer take, as many passing rows as there are up to the take's size, sorted and drawn from the passing rows |
| Collections.TakenMatchesSide | backend/src/search/search.service.ts:34-60 | a non-negative take keeps the largest keys and a negative one the smallest: no passing row left out lies on the kept side |
| Collections.TakenFacts | backend/src/search/search.service.ts:206-223 | a `take` with no `skip` keeps a prefix for a non-negative take and a suffix for a negative one, as long as its size allows |
| Collections.SliceFacts | backend/src/search/search.service.ts:243 | `slice(0, n)` is a prefix: the first `n` elements, or all but the last `-n` for a negative `n` |
| Collections.SkipNegativeIff | backend/src/playlists/playlists.service.ts:37 | `(page-1)*limit` is negative exactly for a page before the first with a positive limit, or after the first with a negative limit |
| Collections.WindowFacts | backend/src/playlists/playlists.service.ts:71-72 | `skip`/`take` fail exactly for a negative skip; otherwise the rows after the skip, counted from the front for a non-negative take and from the back for a negative one |
| Collections.PageCountFacts | backend/src/playlists/playlists.service.ts:87 | `Math.ceil(total / limit)` is the least covering count for a positive limit, the ceiling for a negative one, and `NaN` or `Infinity` for zero |
| Collections.PageOfFacts | backend/src/videos/videos.service.ts:96-137 | a page is rejected exactly for a negative skip; an accepted one holds matching rows, largest key first, at most the limit's size |
| Collections.PageOfWindow | backend/src/videos/videos.service.ts:96-119 | for a page from 1 and a non-negative limit, the page is the run of sorted rows after the skipped ones |

## Left out

- `getTranscodingStatus`, `findOne` and `findByCreator` are read-only queries with nothing to compute beyond what is modelled. The pagination of `findByCreator` is the one in `Collections`.
- `recordView` and `createCheckoutSession` only forward to the database or to Stripe.
- `getVideoMetadata` and `transcodeToQuality` run ffprobe and ffmpeg. They are effects that either yield a height and a duration, or a rendition, or fail with a message.
- S3 downloads and uploads, and the presigned upload URLs, are network traffic. Each is an effect that succeeds or fails.
- `initializeDirectories`, the upload methods' file writes and `deleteFile` are file-system work. Writes are assumed to succeed.
- Database writes and reads are assumed to succeed. A Prisma error in any service is not modelled.
- Transcoding.RunFailed: every database access of the job succeeds, so a failure comes only from the download, the probe, an encode, an upload or the success notice. These accesses are the `findUnique` of the video, the PROCESSING update, the progress writes, the duration write, each variant `create`, the COMPLETED update and the FAILED update. The failure notification also always succeeds.
- Transcoding.RunFailedAfterProbe: for the same reason, variant rows or a manifest remain after a failure only when the success notice failed. A database error part-way through the variant rows would leave some rows too, and is not modelled.
- Transcoding.PublishFailed: the same holds for the publishing stage. A failing variant `create` or COMPLETED update is not modelled.
- Transcoding.RunSucceedsIff: "succeeds" covers the effects modelled as failing. A database error or a failing failure notice, which would also end or break the run, is not modelled.
- The job's temporary directory is not connected to `TempDirectory`. `mkdir`, the files the job writes there, and the call to the cleanup after the COMPLETED update (so only on success) are not part of the run's state. `TempDirectory.Cleanup` models the cleanup method on its own.
- Floating point is left out:
  - the probe's duration is a real that is rounded half up;
  - a video's `duration` (`backend/src/videos/dto/create-video.dto.ts:39-40`) and an entry's `order` (`backend/src/playlists/dto/add-video.dto.ts:8`) are `@IsNumber()` fields that accept fractions; both are modelled as integers, and the duration as a natural number;
  - a view's `secondsWatched` (`backend/src/analytics/dto/record-view.dto.ts:10-11`) is a bare `@IsNumber()` as well, so negative and fractional watch times are accepted; the model keeps it a natural number;
  - the revenue figures of `getSubscriptionRevenue` are not modelled, only its counts;
  - `parseFloat` of the price is not modelled, and a price is a non-empty text.
- Analytics.VideoAnalyticsFacts: the totals and averages are over natural watch times. A negative `secondsWatched` would lower the source's totals, and a fractional one make them fractional; neither is modelled.
- Analytics.CreatorTotalsFacts: likewise over natural watch times only; negative or fractional `secondsWatched` values are not modelled.
- Analytics.WatchTimeBound: likewise stated over natural watch times only; negative or fractional `secondsWatched` values are not modelled.
- Formatters.FormatDurationRoundTrip: durations are natural numbers. For a negative duration the source's `Math.floor` and `%` give strings such as `-1:-5` for −5, and a fraction gives a fractional seconds part; neither is modelled.
- Formatters.FormatWatchTimeRoundTrip: it covers natural seconds only; for −5 the source shows `-1h -1m`, which is not modelled.
- Auth.ExpiresAtFacts: days, hours and minutes are fixed spans of 86 400 000, 3 600 000 and 60 000 milliseconds. The source's `setDate`, `setHours` and `setMinutes` work in local time, so a day that crosses a daylight-saving change lasts 23 or 25 hours. An amount beyond the `Date` range gives an Invalid Date, which the `refreshToken.create` then rejects; that is not modelled either.
- Search.SearchVideos: skip and take are integers. A non-numeric query value gives `NaN` from `parseInt`, which Prisma rejects; `NaN` is not represented.
- Search.GlobalSearchCounts: the same holds for the limit of the global search, and for those of Search.GetSearchSuggestions and Search.GetPopularSearchTerms.
- Search.GlobalSearchCreators: the creator query has no `orderBy`, so the database may return any five matching users. The model takes the first five in table order.
- Payments.LatestActive, Search.SearchVideos, Playlists.FindAllWindow, Videos.FindAllOrder and Collections.PageOfWindow: under `orderBy createdAt desc` or `publishedAt desc`, the database returns rows with equal keys in no defined order. The model fixes that order to table order through a stable sort. The row chosen on a tie, and the exact rows of a page that cuts through a run of equal keys, hold for that choice only.
- Search.SearchVideos: a request without `q` reaches the service with `query` undefined, and `query.trim()` throws a TypeError. The model's query is always a string, so that error is not modelled.
- Search.SearchVideos: `visibility` is passed on unchecked, so any string reaches Prisma's enum filter, which rejects it. The model's filter holds only the three visibilities, so that rejection is not modelled.
- Playlists.UpdatedFacts: `null` is modelled for the nullable description and cover image. A `null` title or visibility would reach a non-nullable column, which Prisma rejects; that error is not modelled, and the model's update has no `null` for those fields.
- Videos.UpdatedKeeps: `null` is modelled for the nullable description and price. A `null` title, tags or visibility would reach a non-nullable column, which Prisma rejects; that error is not modelled.
- Search.SuggestionRowsFacts: the suggestion query has no `orderBy`, so a negative `take` counts from the end of the table's own order; the model takes that order to be the table sequence.
- The clock is an integer parameter. The per-day key is the date part of an ISO time text given with each row, so `toISOString` and the thirty-day window's `setDate` are parameters.
- Playlists.FindAll: page and limit are integers. A non-numeric query value gives `NaN` from `parseInt`, which Prisma rejects; `NaN` is not represented. The same holds for Videos.FindAll.
- Videos.FindAll: see Playlists.FindAll.
- Storage.Sanitize: strings are sequences of characters, not of UTF-16 code units. A character outside the Basic Multilingual Plane is two code units in JavaScript, so the regular expression turns it into `__`; the model gives one `_`.
- Search.GetSearchSuggestions: `trim().length < 2` counts UTF-16 code units; the model counts characters, so a single astral character is too short here but long enough in the source.
- Lower-casing maps ASCII letters only. Prisma's case-insensitive `contains` is `contains` on the lower-cased field.
- `path.join` is plain concatenation with `/`, for segments without `.`, `..` or doubled separators.
- JWT signing and bcrypt hashing are parameters: the password check is a function argument, and the tokens are given.
- Socket.io emission, toasts, object URLs for previews, navigation and rendering are left out.
- UploadPage.UploadForm.HandleSubmit: the upload progress events that arrive while the upload runs are not interleaved. The method runs the calls as one step.
- Common.ParseNat: it is total, and counts a non-digit as zero. It is used only on digit strings.
- Transcoding.Progress: `Math.round(k / n * 80)` is computed on exact rationals; the rounding error of the floating-point division is not modelled.
- Deleting a playlist does not cascade to its entries. The database's cascade rules are not part of this model.
