/** `TranscodingService`: the rendition plan chosen from the probed
    height, the HLS master playlist text, the object keys of the outputs,
    the progress formula, and `transcodeVideo` run as a state machine over
    the video table, the quality-variant table and the notification log.
    ffmpeg, ffprobe, S3 and the notifier are outcomes passed in as
    `Effects`; the playlist follows the tags of section 4.3 of RFC 8216
    (`#EXTM3U`, `#EXT-X-VERSION`, `#EXT-X-STREAM-INF`). */
module Transcoding {
  import opened Common
  import Collections

  // ---------------------------------------------------------------------
  // Rendition plan
  // ---------------------------------------------------------------------

  datatype Quality = Quality(name: string, width: nat, height: nat, bitrate: nat)

  /** The fixed rendition table, by increasing height; bitrates in kbit/s. */
  const AllQualities: seq<Quality> := [
    Quality("360p", 640, 360, 800),
    Quality("720p", 1280, 720, 2500),
    Quality("1080p", 1920, 1080, 5000)
  ]

  /** `getQualitiesForVideo`: the table entries no taller than the source.
      A probe without a video stream gives an undefined height, and
      `q.height <= undefined` is false for every entry. */
  function QualitiesForVideo(height: Option<int>): seq<Quality> {
    if height.None? then [] else NoTallerThan(AllQualities, height.value)
  }

  /** `qs.filter((q) => q.height <= h)`. */
  function NoTallerThan(qs: seq<Quality>, h: int): seq<Quality>
    decreases |qs|
  {
    if qs == [] then [] else (if qs[0].height <= h then [qs[0]] else []) + NoTallerThan(qs[1..], h)
  }

  /** How many table entries a source of height `h` gets. */
  function PlanSize(h: int): nat {
    if h < 360 then 0 else if h < 720 then 1 else if h < 1080 then 2 else 3
  }

  /** The plan keeps table order: it is the first `PlanSize(h)` entries. */
  lemma PlanIsTablePrefix(height: Option<int>)
    ensures height.None? ==> QualitiesForVideo(height) == []
    ensures height.Some? ==> QualitiesForVideo(height) == AllQualities[..PlanSize(height.value)]
  {
    if height.Some? {
      var h := height.value;
      var t := AllQualities;
      var t1 := t[1..];
      var t2 := t1[1..];
      assert t2[1..] == [];
      assert NoTallerThan(t2, h) == (if t[2].height <= h then [t[2]] else []);
      assert NoTallerThan(t1, h) == (if t[1].height <= h then [t[1]] else []) + NoTallerThan(t2, h);
      assert NoTallerThan(t, h) == (if t[0].height <= h then [t[0]] else []) + NoTallerThan(t1, h);
    }
  }

  /** A quality is planned exactly when it is in the table and no taller
      than the source. */
  lemma PlanMembers(height: Option<int>)
    ensures forall q :: q in QualitiesForVideo(height) <==> q in AllQualities && height.Some? && q.height <= height.value
  {
    PlanIsTablePrefix(height);
  }

  /** A taller source gets every rendition a shorter one gets, and more:
      the plan for `h1 <= h2` is a prefix of the plan for `h2`. */
  lemma PlanMonotone(h1: int, h2: int)
    requires h1 <= h2
    ensures QualitiesForVideo(Some(h1)) <= QualitiesForVideo(Some(h2))
  {
    PlanIsTablePrefix(Some(h1));
    PlanIsTablePrefix(Some(h2));
  }

  /** `getResolution`: the frame size of a quality label, `1280x720` for
      any label outside the table. */
  function Resolution(quality: string): string {
    if quality == "360p" then "640x360"
    else if quality == "720p" then "1280x720"
    else if quality == "1080p" then "1920x1080"
    else "1280x720"
  }

  /** The resolution strings agree with the width and height of the
      table's entries. */
  lemma ResolutionMatchesTable(q: Quality)
    requires q in AllQualities
    ensures Resolution(q.name) == NatToString(q.width) + "x" + NatToString(q.height)
  {
    if q == AllQualities[0] {
      Numerals360();
    } else if q == AllQualities[1] {
      Numerals720();
    } else {
      Numerals1080();
    }
  }

  lemma Numerals360()
    ensures NatToString(640) == "640" && NatToString(360) == "360"
  {
    assert DigitChar(6) == '6' && DigitChar(4) == '4' && DigitChar(3) == '3' && DigitChar(0) == '0';
    assert NatToString(64) == NatToString(6) + [DigitChar(4)];
    assert NatToString(640) == NatToString(64) + [DigitChar(0)];
    assert NatToString(36) == NatToString(3) + [DigitChar(6)];
    assert NatToString(360) == NatToString(36) + [DigitChar(0)];
  }

  lemma Numerals720()
    ensures NatToString(1280) == "1280" && NatToString(720) == "720"
  {
    assert DigitChar(1) == '1' && DigitChar(2) == '2' && DigitChar(8) == '8' && DigitChar(7) == '7' && DigitChar(0) == '0';
    assert NatToString(12) == NatToString(1) + [DigitChar(2)];
    assert NatToString(128) == NatToString(12) + [DigitChar(8)];
    assert NatToString(1280) == NatToString(128) + [DigitChar(0)];
    assert NatToString(72) == NatToString(7) + [DigitChar(2)];
    assert NatToString(720) == NatToString(72) + [DigitChar(0)];
  }

  lemma Numerals1080()
    ensures NatToString(1920) == "1920" && NatToString(1080) == "1080"
  {
    assert DigitChar(1) == '1' && DigitChar(9) == '9' && DigitChar(2) == '2' && DigitChar(8) == '8' && DigitChar(0) == '0';
    assert NatToString(19) == NatToString(1) + [DigitChar(9)];
    assert NatToString(192) == NatToString(19) + [DigitChar(2)];
    assert NatToString(1920) == NatToString(192) + [DigitChar(0)];
    assert NatToString(10) == NatToString(1) + [DigitChar(0)];
    assert NatToString(108) == NatToString(10) + [DigitChar(8)];
    assert NatToString(1080) == NatToString(108) + [DigitChar(0)];
  }

  /** A label outside the table gets the 720p frame size. */
  lemma ResolutionDefault(quality: string)
    requires forall q :: q in AllQualities ==> q.name != quality
    ensures Resolution(quality) == Resolution("720p")
  {
    assert AllQualities[0].name != quality && AllQualities[1].name != quality && AllQualities[2].name != quality;
  }

  // ---------------------------------------------------------------------
  // Object keys and URLs
  // ---------------------------------------------------------------------

  /** The folder of a video's HLS outputs. */
  function HlsFolder(creatorId: string, videoId: string): string {
    "videos/" + creatorId + "/" + videoId + "/hls"
  }

  /** The key of one encoded rendition. */
  function RenditionKey(creatorId: string, videoId: string, quality: string): string {
    "videos/" + creatorId + "/" + videoId + "/hls/" + quality + ".mp4"
  }

  /** The key of the master playlist. */
  function ManifestKey(creatorId: string, videoId: string): string {
    "videos/" + creatorId + "/" + videoId + "/hls/master.m3u8"
  }

  /** `path.basename` of a key that does not end in `/`: the text after
      the last `/`. */
  function Basename(key: string): (name: string)
    ensures |name| <= |key| && key[|key| - |name|..] == name && '/' !in name
  {
    LastPiece(key, '/');
    Last(Split(key, '/'))
  }

  /** A name without `/` placed after a folder is the key's basename. */
  lemma BasenameInFolder(folder: string, file: string)
    requires '/' !in file
    ensures Basename(folder + "/" + file) == file
  {
    SplitAtSep(folder, file, '/');
    SplitNoSep(file, '/');
  }

  /** The manifest's URI line for a rendition (its basename) is
      `<quality>.mp4`, and the rendition sits in the video's HLS folder. */
  lemma RenditionKeyLayout(creatorId: string, videoId: string, quality: string)
    requires '/' !in quality
    ensures RenditionKey(creatorId, videoId, quality) == HlsFolder(creatorId, videoId) + "/" + (quality + ".mp4")
    ensures Basename(RenditionKey(creatorId, videoId, quality)) == quality + ".mp4"
  {
    var file := quality + ".mp4";
    forall i | 0 <= i < |file| ensures file[i] != '/' {
      if i < |quality| {
        assert file[i] == quality[i];
      }
    }
    BasenameInFolder(HlsFolder(creatorId, videoId), file);
  }

  /** The manifest sits beside the renditions, under the name `master.m3u8`. */
  lemma ManifestKeyLayout(creatorId: string, videoId: string)
    ensures ManifestKey(creatorId, videoId) == HlsFolder(creatorId, videoId) + "/" + "master.m3u8"
    ensures Basename(ManifestKey(creatorId, videoId)) == "master.m3u8"
  {
    BasenameInFolder(HlsFolder(creatorId, videoId), "master.m3u8");
  }

  /** `getS3Url`. */
  function S3Url(bucket: string, region: string, key: string): string {
    "https://" + bucket + ".s3." + region + ".amazonaws.com/" + key
  }

  // ---------------------------------------------------------------------
  // HLS master playlist
  // ---------------------------------------------------------------------

  /** `TranscodingResult`: one uploaded rendition. */
  datatype Rendition = Rendition(quality: string, s3Key: string, url: string, size: nat, bitrate: nat)

  const PlaylistHeader: string := "#EXTM3U\n#EXT-X-VERSION:3\n\n"

  /** The `#EXT-X-STREAM-INF` line of a rendition; the bandwidth attribute
      is in bit/s, the rendition's bitrate in kbit/s. */
  function StreamInf(f: Rendition): string {
    "#EXT-X-STREAM-INF:BANDWIDTH=" + NatToString(f.bitrate * 1000) + ",RESOLUTION=" + Resolution(f.quality)
  }

  /** The text one rendition adds: its stream line, its URI line, a blank. */
  function Block(f: Rendition): string {
    StreamInf(f) + "\n" + Basename(f.s3Key) + "\n\n"
  }

  /** The blocks of the renditions, in order. */
  function Blocks(files: seq<Rendition>): string
    decreases |files|
  {
    if files == [] then "" else Blocks(files[..|files| - 1]) + Block(Last(files))
  }

  lemma BlocksStep(files: seq<Rendition>, i: nat)
    requires i < |files|
    ensures Blocks(files[..i + 1]) == Blocks(files[..i]) + Block(files[i])
  {
    assert files[..i + 1][..i] == files[..i];
  }

  /** `generateHLSPlaylist`: the header, then one block per rendition. */
  method GenerateHlsPlaylist(files: seq<Rendition>) returns (content: string)
    ensures content == PlaylistHeader + Blocks(files)
  {
    content := PlaylistHeader;
    for i := 0 to |files|
      invariant content == PlaylistHeader + Blocks(files[..i])
    {
      ghost var before := content;
      var line := StreamInf(files[i]);
      var uri := Basename(files[i].s3Key);
      content := content + line + "\n";
      content := content + uri + "\n\n";
      assert content == before + Block(files[i]) by {
        AppendAssoc(before + line, "\n", uri);
        AppendAssoc(before, line + "\n" + uri, "\n\n");
        AppendAssoc(before, line, "\n");
        AppendAssoc(before, line + "\n", uri);
      }
      BlocksStep(files, i);
      AppendAssoc(PlaylistHeader, Blocks(files[..i]), Block(files[i]));
    }
    assert files[..|files|] == files;
  }

  /** The lines a playlist reader sees: the two header tags and a blank,
      then stream line, URI and blank for each rendition. */
  function PlaylistLines(files: seq<Rendition>): seq<string>
    decreases |files|
  {
    if files == [] then ["#EXTM3U", "#EXT-X-VERSION:3", ""]
    else PlaylistLines(files[..|files| - 1]) + [StreamInf(Last(files)), Basename(Last(files).s3Key), ""]
  }

  lemma NoNewlineInStreamInf(f: Rendition)
    ensures '\n' !in StreamInf(f)
  {
    var digits := NatToString(f.bitrate * 1000);
    var s := StreamInf(f);
    var k := |"#EXT-X-STREAM-INF:BANDWIDTH="|;
    forall i | 0 <= i < |s| ensures s[i] != '\n' {
      if k <= i < k + |digits| {
        assert s[i] == digits[i - k] && IsDigit(digits[i - k]);
      }
    }
  }

  lemma NoNewlineInBasename(key: string)
    requires '\n' !in key
    ensures '\n' !in Basename(key)
  {
    var name := Basename(key);
    forall i | 0 <= i < |name| ensures name[i] != '\n' {
      assert name[i] == key[|key| - |name| + i];
    }
  }

  /** The header is the two tag lines and a blank line. */
  lemma HeaderLines()
    ensures PlaylistHeader == JoinLines(["#EXTM3U", "#EXT-X-VERSION:3", ""])
  {
    ThreeLinesJoined("#EXTM3U", "#EXT-X-VERSION:3");
    assert PlaylistHeader == "#EXTM3U" + "\n" + "#EXT-X-VERSION:3" + "\n\n";
  }

  /** A rendition's block is its stream line, its URI line and a blank. */
  lemma BlockIsLines(f: Rendition)
    ensures Block(f) == JoinLines([StreamInf(f), Basename(f.s3Key), ""])
  {
    ThreeLinesJoined(StreamInf(f), Basename(f.s3Key));
  }

  lemma ThreeLinesJoined(x: string, y: string)
    ensures JoinLines([x, y, ""]) == x + "\n" + y + "\n\n"
  {
    assert [x, y, ""][1..] == [y, ""] && [y, ""][1..] == [""] && [""][1..] == [];
    assert JoinLines([""]) == "" + "\n" + JoinLines([]) == "\n";
    assert JoinLines([y, ""]) == y + "\n" + "\n";
    assert JoinLines([x, y, ""]) == x + "\n" + (y + "\n" + "\n");
  }

  /** The playlist text is its lines, each ended by a newline. */
  lemma {:induction false} PlaylistIsLines(files: seq<Rendition>)
    ensures PlaylistHeader + Blocks(files) == JoinLines(PlaylistLines(files))
    decreases |files|
  {
    if files == [] {
      HeaderLines();
    } else {
      var init := files[..|files| - 1];
      var f := Last(files);
      PlaylistIsLines(init);
      BlockIsLines(f);
      JoinLinesAppend(PlaylistLines(init), [StreamInf(f), Basename(f.s3Key), ""]);
      AppendAssoc(PlaylistHeader, Blocks(init), Block(f));
    }
  }

  /** No playlist line holds a newline when no key does. */
  lemma {:induction false} PlaylistLinesNoNewline(files: seq<Rendition>)
    requires forall i :: 0 <= i < |files| ==> '\n' !in files[i].s3Key
    ensures forall i :: 0 <= i < |PlaylistLines(files)| ==> '\n' !in PlaylistLines(files)[i]
    decreases |files|
  {
    if files != [] {
      var init := files[..|files| - 1];
      var f := Last(files);
      assert forall i :: 0 <= i < |init| ==> init[i] == files[i];
      PlaylistLinesNoNewline(init);
      NoNewlineInStreamInf(f);
      NoNewlineInBasename(f.s3Key);
    }
  }

  /** Split at its line breaks, the playlist is exactly `PlaylistLines`
      followed by the empty text after the final newline: renditions
      appear in input order, three lines each. */
  lemma PlaylistLineStructure(files: seq<Rendition>)
    requires forall i :: 0 <= i < |files| ==> '\n' !in files[i].s3Key
    ensures Split(PlaylistHeader + Blocks(files), '\n') == PlaylistLines(files) + [""]
  {
    PlaylistIsLines(files);
    PlaylistLinesNoNewline(files);
    SplitJoinLines(PlaylistLines(files));
  }

  // ---------------------------------------------------------------------
  // Progress
  // ---------------------------------------------------------------------

  /** `Math.round(completed / total * 80)`, on exact rationals. */
  function Progress(completed: nat, total: nat): (p: nat)
    requires 0 < total && completed <= total
    ensures p <= 80
    ensures completed == total ==> p == 80
    ensures completed == 0 ==> p == 0
  {
    var a := 160 * completed + total;
    var d := 2 * total;
    MulMono(160, completed, total);
    DivMonotone(a, d * 80 + total, d);
    DivExact(80, total, d);
    DivExact(0, total, d);
    a / d
  }

  /** The progress is the nearest integer to `80 * completed / total`,
      halves rounded up: `p - 1/2 <= 80 * completed / total < p + 1/2`. */
  lemma ProgressIsNearest(completed: nat, total: nat)
    requires 0 < total && completed <= total
    ensures var p := Progress(completed, total);
      2 * total * p <= 160 * completed + total < 2 * total * (p + 1)
  {
    DivBounds(160 * completed + total, 2 * total);
  }

  /** Progress never goes back as renditions complete. */
  lemma ProgressMonotone(k1: nat, k2: nat, total: nat)
    requires 0 < total && k1 <= k2 <= total
    ensures Progress(k1, total) <= Progress(k2, total)
  {
    DivMonotone(160 * k1 + total, 160 * k2 + total, 2 * total);
  }

  /** The progress values written after each of `k` renditions. */
  function ProgressSteps(k: nat, total: nat): (s: seq<nat>)
    requires 0 < total && k <= total
    ensures |s| == k
    ensures forall i :: 0 <= i < k ==> s[i] == Progress(i + 1, total)
  {
    seq(k, i requires 0 <= i < k => Progress(i + 1, total))
  }

  predicate NonDecreasing(s: seq<nat>) {
    forall i, j :: 0 <= i < j < |s| ==> s[i] <= s[j]
  }

  /** On success the persisted progress runs `0`, the per-rendition
      values, `100`: never decreasing and within 0..100. */
  lemma ProgressRunSorted(total: nat)
    requires 0 < total
    ensures var run := [0] + ProgressSteps(total, total) + [100];
      NonDecreasing(run) && run[|run| - 2] == 80 && forall i :: 0 <= i < |run| ==> run[i] <= 100
  {
    var run := [0] + ProgressSteps(total, total) + [100];
    forall i, j | 0 <= i < j < |run| ensures run[i] <= run[j] {
      if 0 < i && j < |run| - 1 {
        ProgressMonotone(i, j, total);
      }
    }
  }

  // ---------------------------------------------------------------------
  // The transcoding job
  // ---------------------------------------------------------------------

  /** `TranscodingStatus`. */
  datatype TranscodingStatus = Pending | Processing | Completed | Failed

  /** The columns of a video row the job reads or writes. */
  datatype VideoRecord = VideoRecord(
    creatorId: string,
    title: string,
    duration: Option<int>,
    hlsUrl: Option<string>,
    status: TranscodingStatus,
    progress: nat,
    error: Option<string>)

  /** A `QualityVariant` row. */
  datatype VariantRow = VariantRow(videoId: string, quality: string, url: string, size: nat, bitrate: nat)

  /** A notification handed to the notifications service. */
  datatype Notice = Notice(userId: string, kind: string, title: string, message: string, link: string)

  /** What ffprobe reports: an error, or the container's duration (in
      seconds, possibly fractional or absent) and the video stream's
      height (absent when there is no video stream). */
  datatype Probe = ProbeFailed(message: string) | Probed(duration: Option<real>, height: Option<int>)

  /** The outcomes of the calls the job makes outside the model: the S3
      download, ffprobe, one ffmpeg run per quality label, one S3 upload
      per key, the size of each encoded file, and the success
      notification. */
  datatype Effects = Effects(
    download: Fault,
    probe: Probe,
    encode: string -> Fault,
    upload: string -> Fault,
    fileSize: string -> nat,
    notifySuccess: Fault)

  /** `Math.round` of a non-NaN number. */
  function RoundHalfUp(x: real): (r: int)
    ensures r as real - 0.5 <= x < r as real + 0.5
  {
    (x + 0.5).Floor
  }

  /** The duration column after the probe: written only when the probed
      duration is truthy (present and non-zero). */
  function WithDuration(r: VideoRecord, duration: Option<real>): VideoRecord {
    if duration.Some? && duration.value != 0.0 then r.(duration := Some(RoundHalfUp(duration.value))) else r
  }

  function SuccessNotice(videoId: string, v: VideoRecord): Notice {
    Notice(v.creatorId, "video_transcoding", "Video transcoding completed",
      "Your video \"" + v.title + "\" has been successfully transcoded and is ready for viewing.",
      "/videos/" + videoId)
  }

  function FailureNotice(videoId: string, v: VideoRecord): Notice {
    Notice(v.creatorId, "video_transcoding", "Video transcoding failed",
      "Transcoding failed for \"" + v.title + "\". Please try uploading again or contact support.",
      "/videos/" + videoId)
  }

  /** The rendition one quality yields once encoded and uploaded. */
  function RenditionOf(bucket: string, region: string, creatorId: string, videoId: string, q: Quality, eff: Effects): Rendition {
    var key := RenditionKey(creatorId, videoId, q.name);
    Rendition(q.name, key, S3Url(bucket, region, key), eff.fileSize(q.name), q.bitrate)
  }

  /** The error one quality's step throws, if any: the encoder's, else
      the upload's. */
  function StepFault(creatorId: string, videoId: string, q: Quality, eff: Effects): Fault {
    if eff.encode(q.name).Fault? then eff.encode(q.name)
    else eff.upload(RenditionKey(creatorId, videoId, q.name))
  }

  /** The state of the rendition loop: the renditions done, the progress
      values written, and the error that ended the loop, if one did. */
  datatype LoopState = LoopState(files: seq<Rendition>, progress: seq<nat>, fault: Fault)

  /** The rendition loop after its first `k` steps. It stops at the first
      step that throws; until then each step adds its rendition and
      writes the progress after it. */
  function EncodeLoop(bucket: string, region: string, creatorId: string, videoId: string,
                      plan: seq<Quality>, eff: Effects, k: nat): (st: LoopState)
    requires k <= |plan|
    ensures |st.files| == |st.progress| <= k
    ensures st.fault.NoFault? ==> |st.files| == k
    ensures st.fault.Fault? ==> |st.files| < k && st.fault == StepFault(creatorId, videoId, plan[|st.files|], eff)
    decreases k
  {
    if k == 0 then LoopState([], [], NoFault)
    else
      var st := EncodeLoop(bucket, region, creatorId, videoId, plan, eff, k - 1);
      if st.fault.Fault? then st
      else
        var f := StepFault(creatorId, videoId, plan[k - 1], eff);
        if f.Fault? then st.(fault := f)
        else LoopState(st.files + [RenditionOf(bucket, region, creatorId, videoId, plan[k - 1], eff)],
                       st.progress + [Progress(k, |plan|)], NoFault)
  }

  /** Each rendition the loop keeps is the one its quality yields, its
      step threw nothing, and the progress written after it is that of
      the renditions done so far. */
  lemma {:induction false} EncodeLoopSteps(bucket: string, region: string, creatorId: string, videoId: string,
                                           plan: seq<Quality>, eff: Effects, k: nat)
    requires k <= |plan|
    ensures var st := EncodeLoop(bucket, region, creatorId, videoId, plan, eff, k);
      forall i :: 0 <= i < |st.files| ==>
        st.files[i] == RenditionOf(bucket, region, creatorId, videoId, plan[i], eff) &&
        st.progress[i] == Progress(i + 1, |plan|) &&
        StepFault(creatorId, videoId, plan[i], eff).NoFault?
    decreases k
  {
    if k > 0 {
      EncodeLoopSteps(bucket, region, creatorId, videoId, plan, eff, k - 1);
    }
  }

  /** Once a step has thrown, later steps do not run. */
  lemma {:induction false} EncodeLoopStops(bucket: string, region: string, creatorId: string, videoId: string,
                                           plan: seq<Quality>, eff: Effects, k: nat, m: nat)
    requires k <= m <= |plan|
    requires EncodeLoop(bucket, region, creatorId, videoId, plan, eff, k).fault.Fault?
    ensures EncodeLoop(bucket, region, creatorId, videoId, plan, eff, m) == EncodeLoop(bucket, region, creatorId, videoId, plan, eff, k)
    decreases m - k
  {
    if k < m {
      EncodeLoopStops(bucket, region, creatorId, videoId, plan, eff, k, m - 1);
    }
  }

  /** The rows written for the renditions, in order. */
  function VariantRows(videoId: string, files: seq<Rendition>): (rows: seq<VariantRow>)
    ensures |rows| == |files|
    ensures forall i :: 0 <= i < |files| ==>
      rows[i] == VariantRow(videoId, files[i].quality, files[i].url, files[i].size, files[i].bitrate)
  {
    seq(|files|, i requires 0 <= i < |files| =>
      VariantRow(videoId, files[i].quality, files[i].url, files[i].size, files[i].bitrate))
  }

  /** What one run does: the video row it leaves, the variant rows and
      notifications it adds, the progress values it writes in order, the
      playlist it stores, and the error it rethrows. */
  datatype Outcome = Outcome(
    record: VideoRecord,
    rows: seq<VariantRow>,
    notices: seq<Notice>,
    writes: seq<nat>,
    manifest: Option<string>,
    result: Fault)

  /** The `catch` block: FAILED with the message, progress left as it
      was, the failure notification, and the error rethrown. */
  function Fail(videoId: string, v: VideoRecord, current: VideoRecord, writes: seq<nat>,
                rows: seq<VariantRow>, manifest: Option<string>, message: string): Outcome {
    Outcome(current.(status := Failed, error := Some(message)), rows, [FailureNotice(videoId, v)],
      writes, manifest, Fault(message))
  }

  /** The plan the probe leads to; none when the probe fails. */
  function PlanOf(eff: Effects): seq<Quality> {
    if eff.probe.Probed? then QualitiesForVideo(eff.probe.height) else []
  }

  /** `transcodeVideo` for a video row `v` that exists. */
  function Run(bucket: string, region: string, videoId: string, v: VideoRecord, eff: Effects): Outcome {
    var started := v.(status := Processing, progress := 0);
    if eff.download.Fault? then Fail(videoId, v, started, [0], [], None, eff.download.message)
    else if eff.probe.ProbeFailed? then Fail(videoId, v, started, [0], [], None, eff.probe.message)
    else
      var rest := AfterProbe(bucket, region, videoId, v, WithDuration(started, eff.probe.duration), eff);
      rest.(writes := [0] + rest.writes)
  }

  /** The run from the rendition loop on, with the row as the probe left
      it; the progress writes from the loop on. */
  function AfterProbe(bucket: string, region: string, videoId: string, v: VideoRecord,
                      probed: VideoRecord, eff: Effects): Outcome {
    var plan := PlanOf(eff);
    var st := EncodeLoop(bucket, region, v.creatorId, videoId, plan, eff, |plan|);
    var looped := probed.(progress := Last([probed.progress] + st.progress));
    AfterLoop(bucket, region, videoId, v, looped, st, eff)
  }

  /** The run once the rendition loop has stopped, with the row as the
      loop left it: the `catch` block when a step threw, otherwise the
      publishing stage. */
  function AfterLoop(bucket: string, region: string, videoId: string, v: VideoRecord,
                     looped: VideoRecord, st: LoopState, eff: Effects): Outcome {
    if st.fault.Fault? then Fail(videoId, v, looped, st.progress, [], None, st.fault.message)
    else Publish(bucket, region, videoId, v, looped, st.files, st.progress, eff)
  }

  /** The run after every rendition is uploaded: the playlist, the
      variant rows, the COMPLETED update and the success notification. */
  function Publish(bucket: string, region: string, videoId: string, v: VideoRecord,
                   looped: VideoRecord, files: seq<Rendition>, writes: seq<nat>, eff: Effects): Outcome {
    var manifestKey := ManifestKey(v.creatorId, videoId);
    var uploaded := eff.upload(manifestKey);
    if uploaded.Fault? then Fail(videoId, v, looped, writes, [], None, uploaded.message)
    else Complete(bucket, region, videoId, v, looped, files, writes, eff)
  }

  /** The run once the playlist is uploaded: the variant rows, the
      COMPLETED update and the success notification. */
  function Complete(bucket: string, region: string, videoId: string, v: VideoRecord,
                    looped: VideoRecord, files: seq<Rendition>, writes: seq<nat>, eff: Effects): Outcome {
    var playlist := PlaylistHeader + Blocks(files);
    var rows := VariantRows(videoId, files);
    var done := looped.(hlsUrl := Some(S3Url(bucket, region, ManifestKey(v.creatorId, videoId))), status := Completed, progress := 100);
    if eff.notifySuccess.Fault? then
      Fail(videoId, v, done, writes + [100], rows, Some(playlist), eff.notifySuccess.message)
    else Outcome(done, rows, [SuccessNotice(videoId, v)], writes + [100], Some(playlist), NoFault)
  }

  /** A download or probe failure ends the run right after the
      PROCESSING update. */
  lemma RunEarlyFault(bucket: string, region: string, videoId: string, v: VideoRecord, eff: Effects)
    requires eff.download.Fault? || eff.probe.ProbeFailed?
    ensures var started := v.(status := Processing, progress := 0);
      Run(bucket, region, videoId, v, eff) ==
        Fail(videoId, v, started, [0], [], None, if eff.download.Fault? then eff.download.message else eff.probe.message)
  {
  }

  /** After a successful probe the run is the rest of the job, preceded
      by the progress write of 0. */
  lemma RunAfterProbe(bucket: string, region: string, videoId: string, v: VideoRecord, eff: Effects)
    requires eff.download.NoFault? && eff.probe.Probed?
    ensures var rest := AfterProbe(bucket, region, videoId, v, WithDuration(v.(status := Processing, progress := 0), eff.probe.duration), eff);
      Run(bucket, region, videoId, v, eff) == rest.(writes := [0] + rest.writes)
  {
  }

  /** The rest of the job once the rendition loop has stopped: the
      failure, or the publishing stage. */
  lemma AfterProbeStages(bucket: string, region: string, videoId: string, v: VideoRecord,
                         probed: VideoRecord, eff: Effects)
    ensures var plan := PlanOf(eff);
      var st := EncodeLoop(bucket, region, v.creatorId, videoId, plan, eff, |plan|);
      var looped := probed.(progress := Last([probed.progress] + st.progress));
      AfterProbe(bucket, region, videoId, v, probed, eff) ==
        if st.fault.Fault? then Fail(videoId, v, looped, st.progress, [], None, st.fault.message)
        else Publish(bucket, region, videoId, v, looped, st.files, st.progress, eff)
  {
  }

  /** The publishing stage only appends to the progress writes. */
  lemma PublishWrites(bucket: string, region: string, videoId: string, v: VideoRecord,
                            looped: VideoRecord, files: seq<Rendition>, writes: seq<nat>, eff: Effects)
    ensures var out := Publish(bucket, region, videoId, v, looped, files, writes, eff);
      (out.writes == writes || out.writes == writes + [100]) &&
      |writes| <= |out.writes| && writes + out.writes[|writes|..] == out.writes
  {
    var out := Publish(bucket, region, videoId, v, looped, files, writes, eff);
    assert out.writes == writes || out.writes == writes + [100];
  }

  /** Every call the job makes succeeds. */
  predicate AllSucceed(creatorId: string, videoId: string, eff: Effects) {
    eff.download.NoFault? && eff.probe.Probed? &&
    (forall i :: 0 <= i < |PlanOf(eff)| ==> StepFault(creatorId, videoId, PlanOf(eff)[i], eff).NoFault?) &&
    eff.upload(ManifestKey(creatorId, videoId)).NoFault? &&
    eff.notifySuccess.NoFault?
  }

  /** A run returns normally exactly when every call it makes succeeds. */
  lemma RunSucceedsIff(bucket: string, region: string, videoId: string, v: VideoRecord, eff: Effects)
    ensures Run(bucket, region, videoId, v, eff).result.NoFault? <==> AllSucceed(v.creatorId, videoId, eff)
  {
    if eff.download.NoFault? && eff.probe.Probed? {
      var probed := WithDuration(v.(status := Processing, progress := 0), eff.probe.duration);
      var plan := PlanOf(eff);
      var st := EncodeLoop(bucket, region, v.creatorId, videoId, plan, eff, |plan|);
      EncodeLoopSteps(bucket, region, v.creatorId, videoId, plan, eff, |plan|);
      var looped := probed.(progress := Last([0] + st.progress));
      if st.fault.Fault? {
        assert Run(bucket, region, videoId, v, eff).result == st.fault;
        assert StepFault(v.creatorId, videoId, plan[|st.files|], eff).Fault?;
      } else {
        var out := Publish(bucket, region, videoId, v, looped, st.files, st.progress, eff);
        assert Run(bucket, region, videoId, v, eff).result == out.result;
      }
    }
  }

  /** A run that returns normally went through every stage, and its
      outcome is the COMPLETED row, the variant rows of the renditions,
      the success notice, progress 0, the loop's values and 100, and the
      playlist of the renditions. */
  lemma RunSuccessStages(bucket: string, region: string, videoId: string, v: VideoRecord, eff: Effects)
    requires Run(bucket, region, videoId, v, eff).result.NoFault?
    ensures eff.download.NoFault? && eff.probe.Probed?
    ensures var plan := PlanOf(eff);
      var st := EncodeLoop(bucket, region, v.creatorId, videoId, plan, eff, |plan|);
      var manifestKey := ManifestKey(v.creatorId, videoId);
      st.fault.NoFault? && |st.files| == |plan| &&
      eff.upload(manifestKey).NoFault? && eff.notifySuccess.NoFault? &&
      Run(bucket, region, videoId, v, eff) ==
        Outcome(WithDuration(v.(status := Processing, progress := 0), eff.probe.duration)
                  .(hlsUrl := Some(S3Url(bucket, region, manifestKey)), status := Completed, progress := 100),
                VariantRows(videoId, st.files), [SuccessNotice(videoId, v)], [0] + st.progress + [100],
                Some(PlaylistHeader + Blocks(st.files)), NoFault)
  {
    var probed := WithDuration(v.(status := Processing, progress := 0), eff.probe.duration);
    var plan := PlanOf(eff);
    var st := EncodeLoop(bucket, region, v.creatorId, videoId, plan, eff, |plan|);
    var looped := probed.(progress := Last([0] + st.progress));
    var out := Publish(bucket, region, videoId, v, looped, st.files, st.progress, eff);
    assert Run(bucket, region, videoId, v, eff) == out.(writes := [0] + out.writes);
    AppendAssoc([0], st.progress, [100]);
  }

  /** A successful run leaves the video COMPLETED at 100 with the
      manifest's URL (an earlier error message stays), notifies the
      creator once, and stores a playlist; an empty plan completes with a
      header-only playlist. */
  lemma RunCompleted(bucket: string, region: string, videoId: string, v: VideoRecord, eff: Effects)
    requires Run(bucket, region, videoId, v, eff).result.NoFault?
    ensures var out := Run(bucket, region, videoId, v, eff);
      out.record.status == Completed && out.record.progress == 100 &&
      out.record.hlsUrl == Some(S3Url(bucket, region, ManifestKey(v.creatorId, videoId))) &&
      out.record.error == v.error && out.record.title == v.title && out.record.creatorId == v.creatorId &&
      out.notices == [SuccessNotice(videoId, v)] &&
      out.manifest.Some? && (PlanOf(eff) == [] ==> out.manifest.value == PlaylistHeader)
  {
    RunSuccessStages(bucket, region, videoId, v, eff);
  }

  /** A successful run adds one variant row per planned quality, in plan
      order, each pointing at that quality's uploaded rendition. */
  lemma RunCompletedRows(bucket: string, region: string, videoId: string, v: VideoRecord, eff: Effects)
    requires Run(bucket, region, videoId, v, eff).result.NoFault?
    ensures var out := Run(bucket, region, videoId, v, eff);
      var plan := PlanOf(eff);
      |out.rows| == |plan| &&
      forall i :: 0 <= i < |plan| ==>
        var key := RenditionKey(v.creatorId, videoId, plan[i].name);
        out.rows[i] == VariantRow(videoId, plan[i].name, S3Url(bucket, region, key), eff.fileSize(plan[i].name), plan[i].bitrate)
  {
    RunSuccessStages(bucket, region, videoId, v, eff);
    EncodeLoopSteps(bucket, region, v.creatorId, videoId, PlanOf(eff), eff, |PlanOf(eff)|);
  }

  /** A successful run writes progress 0, then the value after each
      rendition, then 100. */
  lemma RunCompletedWrites(bucket: string, region: string, videoId: string, v: VideoRecord, eff: Effects)
    requires Run(bucket, region, videoId, v, eff).result.NoFault?
    ensures var out := Run(bucket, region, videoId, v, eff);
      var plan := PlanOf(eff);
      |out.writes| == |plan| + 2 && out.writes[0] == 0 && Last(out.writes) == 100 &&
      forall i :: 0 < i <= |plan| ==> out.writes[i] == Progress(i, |plan|)
  {
    var plan := PlanOf(eff);
    var st := EncodeLoop(bucket, region, v.creatorId, videoId, plan, eff, |plan|);
    RunSuccessStages(bucket, region, videoId, v, eff);
    EncodeLoopSteps(bucket, region, v.creatorId, videoId, plan, eff, |plan|);
    CompletedWritesShape(st.progress, |plan|);
  }

  /** The values 0, the steps and 100, as the completed run writes them. */
  lemma CompletedWritesShape(steps: seq<nat>, total: nat)
    requires |steps| == total
    requires forall i :: 0 <= i < |steps| ==> steps[i] == Progress(i + 1, total)
    ensures var w := [0] + steps + [100];
      |w| == total + 2 && w[0] == 0 && Last(w) == 100 &&
      forall i :: 0 < i <= total ==> w[i] == Progress(i, total)
  {
    var w := [0] + steps + [100];
    forall i | 0 < i <= total ensures w[i] == Progress(i, total) {
      assert w[i] == steps[i - 1];
    }
  }

  /** A failed run leaves the video FAILED with the thrown message and
      its progress at the last value written, notifies the creator of the
      failure once, and rethrows. Variant rows exist only when the failure
      came after they were written, from the success notification. */
  lemma RunFailed(bucket: string, region: string, videoId: string, v: VideoRecord, eff: Effects)
    requires Run(bucket, region, videoId, v, eff).result.Fault?
    ensures var out := Run(bucket, region, videoId, v, eff);
      out.record.status == Failed && out.record.error == Some(out.result.message) &&
      |out.writes| > 0 && out.writes[0] == 0 && out.record.progress == Last(out.writes) &&
      out.notices == [FailureNotice(videoId, v)] &&
      (out.rows != [] || out.manifest.Some? ==> eff.notifySuccess.Fault? && out.record.hlsUrl.Some?) &&
      (eff.download.Fault? ==> out.result == eff.download && out.writes == [0])
  {
    if eff.download.Fault? || eff.probe.ProbeFailed? {
      RunEarlyFault(bucket, region, videoId, v, eff);
    } else {
      RunFailedAfterProbe(bucket, region, videoId, v, eff);
    }
  }

  /** `RunFailed` for a run that got past the probe. */
  lemma RunFailedAfterProbe(bucket: string, region: string, videoId: string, v: VideoRecord, eff: Effects)
    requires eff.download.NoFault? && eff.probe.Probed?
    requires Run(bucket, region, videoId, v, eff).result.Fault?
    ensures var out := Run(bucket, region, videoId, v, eff);
      out.record.status == Failed && out.record.error == Some(out.result.message) &&
      |out.writes| > 0 && out.writes[0] == 0 && out.record.progress == Last(out.writes) &&
      out.notices == [FailureNotice(videoId, v)] &&
      (out.rows != [] || out.manifest.Some? ==> eff.notifySuccess.Fault? && out.record.hlsUrl.Some?)
  {
    var probed := WithDuration(v.(status := Processing, progress := 0), eff.probe.duration);
    var plan := PlanOf(eff);
    var st := EncodeLoop(bucket, region, v.creatorId, videoId, plan, eff, |plan|);
    var looped := probed.(progress := Last([0] + st.progress));
    RunAfterProbe(bucket, region, videoId, v, eff);
    AfterProbeStages(bucket, region, videoId, v, probed, eff);
    if st.fault.NoFault? {
      PublishFailed(bucket, region, videoId, v, looped, st.files, st.progress, eff);
      AppendAssoc([0], st.progress, [100]);
      assert Last([0] + st.progress + [100]) == 100;
    }
  }

  /** A publishing stage that throws leaves the row FAILED, with its
      progress as the loop left it or, once COMPLETED was written, at
      100. */
  lemma PublishFailed(bucket: string, region: string, videoId: string, v: VideoRecord,
                      looped: VideoRecord, files: seq<Rendition>, writes: seq<nat>, eff: Effects)
    requires Publish(bucket, region, videoId, v, looped, files, writes, eff).result.Fault?
    ensures var out := Publish(bucket, region, videoId, v, looped, files, writes, eff);
      out.record.status == Failed && out.record.error == Some(out.result.message) &&
      out.notices == [FailureNotice(videoId, v)] &&
      ((out.writes == writes && out.record.progress == looped.progress) ||
       (out.writes == writes + [100] && out.record.progress == 100)) &&
      (out.rows != [] || out.manifest.Some? ==> eff.notifySuccess.Fault? && out.record.hlsUrl.Some?)
  {
  }

  /** The progress values a run writes never decrease and stay within
      0..100. */
  lemma RunProgressOrdered(bucket: string, region: string, videoId: string, v: VideoRecord, eff: Effects)
    ensures NonDecreasing(Run(bucket, region, videoId, v, eff).writes)
    ensures AtMost100(Run(bucket, region, videoId, v, eff).writes)
  {
    var plan := PlanOf(eff);
    var st := EncodeLoop(bucket, region, v.creatorId, videoId, plan, eff, |plan|);
    RunWrites(bucket, region, videoId, v, eff);
    EncodeLoopSteps(bucket, region, v.creatorId, videoId, plan, eff, |plan|);
    StepsOrdered(st.progress, |plan|);
  }

  /** The progress values a run writes: 0 alone when the download or the
      probe fails, else 0 and the value after each rendition done, then
      100 once the manifest is uploaded. */
  lemma RunWrites(bucket: string, region: string, videoId: string, v: VideoRecord, eff: Effects)
    ensures var plan := PlanOf(eff);
      var st := EncodeLoop(bucket, region, v.creatorId, videoId, plan, eff, |plan|);
      var w := Run(bucket, region, videoId, v, eff).writes;
      w == [0] || w == [0] + st.progress || w == [0] + st.progress + [100]
  {
    if eff.download.NoFault? && eff.probe.Probed? {
      var probed := WithDuration(v.(status := Processing, progress := 0), eff.probe.duration);
      var plan := PlanOf(eff);
      var st := EncodeLoop(bucket, region, v.creatorId, videoId, plan, eff, |plan|);
      var looped := probed.(progress := Last([0] + st.progress));
      if st.fault.NoFault? {
        var out := Publish(bucket, region, videoId, v, looped, st.files, st.progress, eff);
        assert Run(bucket, region, videoId, v, eff).writes == [0] + out.writes;
        PublishWrites(bucket, region, videoId, v, looped, st.files, st.progress, eff);
        AppendAssoc([0], st.progress, [100]);
      }
    }
  }

  predicate AtMost100(w: seq<nat>) {
    forall i :: 0 <= i < |w| ==> w[i] <= 100
  }

  /** Progress values after successive renditions, preceded by 0 and
      optionally followed by 100, never decrease and stay within 0..100. */
  lemma StepsOrdered(steps: seq<nat>, total: nat)
    requires |steps| <= total
    requires forall i :: 0 <= i < |steps| ==> 0 < total && steps[i] == Progress(i + 1, total)
    ensures NonDecreasing([0] + steps) && NonDecreasing([0] + steps + [100])
    ensures AtMost100([0] + steps) && AtMost100([0] + steps + [100])
    ensures NonDecreasing([0]) && AtMost100([0])
  {
    var w := [0] + steps + [100];
    forall i, j | 0 <= i < j < |w| ensures w[i] <= w[j] {
      if 0 < i && j <= |steps| {
        ProgressMonotone(i, j, total);
      }
    }
    assert [0] + steps == w[..|w| - 1];
  }

  /** The service with the tables it writes: video rows, quality-variant
      rows, notifications handed to the notifier, every progress value
      written (in order), and the playlists stored in the bucket. */
  class TranscodingService {
    const bucket: string
    const region: string
    var videos: map<string, VideoRecord>
    var variants: seq<VariantRow>
    var notices: seq<Notice>
    var progressWrites: seq<nat>
    var manifests: map<string, string>

    /** The region and bucket settings fall back to their defaults when
        unset or empty. */
    constructor(regionSetting: Option<string>, bucketSetting: Option<string>, rows: map<string, VideoRecord>)
      ensures region == OrDefault(regionSetting, "us-east-1")
      ensures bucket == OrDefault(bucketSetting, "devlife-academy-videos")
      ensures videos == rows && variants == [] && notices == [] && progressWrites == [] && manifests == map[]
    {
      region := OrDefault(regionSetting, "us-east-1");
      bucket := OrDefault(bucketSetting, "devlife-academy-videos");
      videos := rows;
      variants := [];
      notices := [];
      progressWrites := [];
      manifests := map[];
    }

    /** `updateTranscodingStatus`. */
    method UpdateTranscodingStatus(videoId: string, status: TranscodingStatus, progress: nat)
      requires videoId in videos
      modifies this
      ensures videos == old(videos)[videoId := old(videos)[videoId].(status := status, progress := progress)]
      ensures progressWrites == old(progressWrites) + [progress]
      ensures variants == old(variants) && notices == old(notices) && manifests == old(manifests)
    {
      videos := videos[videoId := videos[videoId].(status := status, progress := progress)];
      progressWrites := progressWrites + [progress];
    }

    /** The duration update after the probe, skipped for a missing or
        zero duration. */
    method SaveDuration(videoId: string, duration: Option<real>)
      requires videoId in videos
      modifies this
      ensures videos == old(videos)[videoId := WithDuration(old(videos)[videoId], duration)]
      ensures variants == old(variants) && notices == old(notices) &&
        progressWrites == old(progressWrites) && manifests == old(manifests)
    {
      if duration.Some? && duration.value != 0.0 {
        videos := videos[videoId := videos[videoId].(duration := Some(RoundHalfUp(duration.value)))];
      }
    }

    /** The `catch` block: mark the video FAILED with the message and
        notify the creator. */
    method FailJob(videoId: string, v: VideoRecord, message: string) returns (result: Fault)
      requires videoId in videos
      modifies this
      ensures videos == old(videos)[videoId := old(videos)[videoId].(status := Failed, error := Some(message))]
      ensures notices == old(notices) + [FailureNotice(videoId, v)]
      ensures variants == old(variants) && progressWrites == old(progressWrites) && manifests == old(manifests)
      ensures result == Fault(message)
    {
      videos := videos[videoId := videos[videoId].(status := Failed, error := Some(message))];
      notices := notices + [FailureNotice(videoId, v)];
      result := Fault(message);
    }

    /** One pass of the rendition loop's body before the progress
        write: encode the quality, upload the file, describe the result. */
    method EncodeStep(videoId: string, creatorId: string, quality: Quality, eff: Effects)
      returns (rendition: Rendition, fault: Fault)
      ensures fault == StepFault(creatorId, videoId, quality, eff)
      ensures fault.NoFault? ==> rendition == RenditionOf(bucket, region, creatorId, videoId, quality, eff)
    {
      rendition := Rendition(quality.name, "", "", 0, quality.bitrate);
      fault := eff.encode(quality.name);
      if fault.Fault? {
        return;
      }
      var s3Key := RenditionKey(creatorId, videoId, quality.name);
      fault := eff.upload(s3Key);
      if fault.Fault? {
        return;
      }
      var size := eff.fileSize(quality.name);
      var url := S3Url(bucket, region, s3Key);
      rendition := Rendition(quality.name, s3Key, url, size, quality.bitrate);
    }

    /** The rendition loop: encode, upload and record each planned
        quality, writing progress after each, until one step throws. */
    method EncodeRenditions(videoId: string, creatorId: string, plan: seq<Quality>, eff: Effects)
      returns (files: seq<Rendition>, fault: Fault)
      requires videoId in videos && videos[videoId].status == Processing
      modifies this
      ensures var st := EncodeLoop(bucket, region, creatorId, videoId, plan, eff, |plan|);
        files == st.files && fault == st.fault &&
        videos == old(videos)[videoId := old(videos)[videoId].(progress := Last([old(videos)[videoId].progress] + st.progress))] &&
        progressWrites == old(progressWrites) + st.progress
      ensures variants == old(variants) && notices == old(notices) && manifests == old(manifests)
    {
      ghost var before := videos[videoId];
      files := [];
      var completedCount := 0;
      ghost var writes: seq<nat> := [];
      ghost var last := before.progress;
      for i := 0 to |plan|
        invariant videoId in videos
        invariant completedCount == i == |files| == |writes|
        invariant EncodeLoop(bucket, region, creatorId, videoId, plan, eff, i) == LoopState(files, writes, NoFault)
        invariant last == Last([before.progress] + writes)
        invariant videos == old(videos)[videoId := before.(progress := last)]
        invariant progressWrites == old(progressWrites) + writes
        invariant variants == old(variants) && notices == old(notices) && manifests == old(manifests)
      {
        var rendition, stepFault := EncodeStep(videoId, creatorId, plan[i], eff);
        if stepFault.Fault? {
          EncodeLoopStops(bucket, region, creatorId, videoId, plan, eff, i + 1, |plan|);
          return files, stepFault;
        }
        assert EncodeLoop(bucket, region, creatorId, videoId, plan, eff, i + 1)
            == LoopState(files + [rendition], writes + [Progress(i + 1, |plan|)], NoFault);
        AppendAssoc([before.progress], writes, [Progress(i + 1, |plan|)]);
        files := files + [rendition];
        completedCount := completedCount + 1;
        var progress := Progress(completedCount, |plan|);
        UpdateTranscodingStatus(videoId, Processing, progress);
        MapUpdateTwice(old(videos), videoId, before.(progress := last), before.(progress := progress));
        writes := writes + [progress];
        last := progress;
      }
      fault := NoFault;
    }

    /** Save one variant row per rendition, in order. */
    method SaveVariants(videoId: string, files: seq<Rendition>)
      modifies this
      ensures variants == old(variants) + VariantRows(videoId, files)
      ensures videos == old(videos) && notices == old(notices) && progressWrites == old(progressWrites) && manifests == old(manifests)
    {
      for j := 0 to |files|
        invariant variants == old(variants) + VariantRows(videoId, files[..j])
        invariant videos == old(videos) && notices == old(notices) && progressWrites == old(progressWrites) && manifests == old(manifests)
      {
        var file := files[j];
        variants := variants + [VariantRow(videoId, file.quality, file.url, file.size, file.bitrate)];
      }
      assert files[..|files|] == files;
    }

    /** The run after the rendition loop: the playlist and its upload,
        then the rest of the job. */
    method PublishJob(videoId: string, video: VideoRecord, files: seq<Rendition>,
                      ghost looped: VideoRecord, ghost writes: seq<nat>, eff: Effects)
      returns (result: Fault)
      requires videoId in videos && videos[videoId] == looped
      modifies this
      ensures var out := Publish(bucket, region, videoId, video, looped, files, writes, eff);
        |writes| <= |out.writes| &&
        videos == old(videos)[videoId := out.record] &&
        variants == old(variants) + out.rows &&
        notices == old(notices) + out.notices &&
        progressWrites == old(progressWrites) + out.writes[|writes|..] &&
        manifests == (if out.manifest.Some? then old(manifests)[ManifestKey(video.creatorId, videoId) := out.manifest.value]
                      else old(manifests)) &&
        result == out.result
    {
      var playlist := GenerateHlsPlaylist(files);
      var manifestKey := ManifestKey(video.creatorId, videoId);
      var manifestUploaded := eff.upload(manifestKey);
      if manifestUploaded.Fault? {
        result := FailJob(videoId, video, manifestUploaded.message);
        assert (writes + [])[|writes|..] == [];
        return;
      }
      manifests := manifests[manifestKey := playlist];
      result := CompleteJob(videoId, video, files, looped, writes, eff);
    }

    /** Save the variant rows, mark the video COMPLETED at 100 with the
        manifest's URL, and notify the creator. */
    method CompleteJob(videoId: string, video: VideoRecord, files: seq<Rendition>,
                       ghost looped: VideoRecord, ghost writes: seq<nat>, eff: Effects)
      returns (result: Fault)
      requires videoId in videos && videos[videoId] == looped
      modifies this
      ensures var out := Complete(bucket, region, videoId, video, looped, files, writes, eff);
        out.writes == writes + [100] &&
        videos == old(videos)[videoId := out.record] &&
        variants == old(variants) + out.rows &&
        notices == old(notices) + out.notices &&
        progressWrites == old(progressWrites) + [100] &&
        manifests == old(manifests) &&
        result == out.result
    {
      var hlsUrl := S3Url(bucket, region, ManifestKey(video.creatorId, videoId));
      SaveVariants(videoId, files);
      ghost var done := looped.(hlsUrl := Some(hlsUrl), status := Completed, progress := 100);
      videos := videos[videoId := videos[videoId].(hlsUrl := Some(hlsUrl), status := Completed, progress := 100)];
      progressWrites := progressWrites + [100];
      if eff.notifySuccess.Fault? {
        result := FailJob(videoId, video, eff.notifySuccess.message);
        MapUpdateTwice(old(videos), videoId, done, done.(status := Failed, error := Some(eff.notifySuccess.message)));
        return;
      }
      notices := notices + [SuccessNotice(videoId, video)];
      result := NoFault;
    }

    /** After the rendition loop: the `catch` block when a step threw,
        otherwise the playlist and the rest of the job. */
    method FinishJob(videoId: string, video: VideoRecord, files: seq<Rendition>, fault: Fault,
                     ghost looped: VideoRecord, ghost writes: seq<nat>, eff: Effects)
      returns (result: Fault)
      requires videoId in videos && videos[videoId] == looped
      modifies this
      ensures var out := AfterLoop(bucket, region, videoId, video, looped, LoopState(files, writes, fault), eff);
        |writes| <= |out.writes| && writes + out.writes[|writes|..] == out.writes &&
        videos == old(videos)[videoId := out.record] &&
        variants == old(variants) + out.rows &&
        notices == old(notices) + out.notices &&
        progressWrites == old(progressWrites) + out.writes[|writes|..] &&
        manifests == (if out.manifest.Some? then old(manifests)[ManifestKey(video.creatorId, videoId) := out.manifest.value]
                      else old(manifests)) &&
        result == out.result
    {
      if fault.Fault? {
        result := FailJob(videoId, video, fault.message);
        MapUpdateTwice(old(videos), videoId, looped, looped.(status := Failed, error := Some(fault.message)));
        assert writes[|writes|..] == [];
        return;
      }
      result := PublishJob(videoId, video, files, looped, writes, eff);
      PublishWrites(bucket, region, videoId, video, looped, files, writes, eff);
    }

    /** The run from the rendition loop on. */
    method TranscodeProbed(videoId: string, video: VideoRecord, eff: Effects) returns (result: Fault)
      requires eff.probe.Probed?
      requires videoId in videos && videos[videoId].status == Processing
      modifies this
      ensures var out := AfterProbe(bucket, region, videoId, video, old(videos)[videoId], eff);
        videos == old(videos)[videoId := out.record] &&
        variants == old(variants) + out.rows &&
        notices == old(notices) + out.notices &&
        progressWrites == old(progressWrites) + out.writes &&
        manifests == (if out.manifest.Some? then old(manifests)[ManifestKey(video.creatorId, videoId) := out.manifest.value]
                      else old(manifests)) &&
        result == out.result
    {
      ghost var probed := videos[videoId];
      var plan := QualitiesForVideo(eff.probe.height);
      var files, fault := EncodeRenditions(videoId, video.creatorId, plan, eff);
      ghost var st := EncodeLoop(bucket, region, video.creatorId, videoId, plan, eff, |plan|);
      ghost var looped := probed.(progress := Last([probed.progress] + st.progress));
      assert st == LoopState(files, st.progress, fault);
      ghost var out := AfterLoop(bucket, region, videoId, video, looped, st, eff);
      result := FinishJob(videoId, video, files, fault, looped, st.progress, eff);
      MapUpdateTwice(old(videos), videoId, looped, out.record);
      AppendAssoc(old(progressWrites), st.progress, out.writes[|st.progress|..]);
    }

    /** The run for a video row that exists: PROCESSING at 0, download,
        probe, the duration update, then the rest of the job. */
    method StartJob(videoId: string, eff: Effects) returns (result: Fault)
      requires videoId in videos
      modifies this
      ensures var out := Run(bucket, region, videoId, old(videos)[videoId], eff);
        videos == old(videos)[videoId := out.record] &&
        variants == old(variants) + out.rows &&
        notices == old(notices) + out.notices &&
        progressWrites == old(progressWrites) + out.writes &&
        manifests == (if out.manifest.Some? then old(manifests)[ManifestKey(old(videos)[videoId].creatorId, videoId) := out.manifest.value]
                      else old(manifests)) &&
        result == out.result
    {
      var video := videos[videoId];
      ghost var started := video.(status := Processing, progress := 0);
      UpdateTranscodingStatus(videoId, Processing, 0);
      if eff.download.Fault? {
        RunEarlyFault(bucket, region, videoId, video, eff);
        result := FailJob(videoId, video, eff.download.message);
        MapUpdateTwice(old(videos), videoId, started, started.(status := Failed, error := Some(eff.download.message)));
        return;
      }
      if eff.probe.ProbeFailed? {
        RunEarlyFault(bucket, region, videoId, video, eff);
        result := FailJob(videoId, video, eff.probe.message);
        MapUpdateTwice(old(videos), videoId, started, started.(status := Failed, error := Some(eff.probe.message)));
        return;
      }
      var duration := eff.probe.duration;
      SaveDuration(videoId, duration);
      ghost var probed := WithDuration(started, duration);
      MapUpdateTwice(old(videos), videoId, started, probed);
      ghost var rest := AfterProbe(bucket, region, videoId, video, probed, eff);
      RunAfterProbe(bucket, region, videoId, video, eff);
      result := TranscodeProbed(videoId, video, eff);
      MapUpdateTwice(old(videos), videoId, probed, rest.record);
      AppendAssoc(old(progressWrites), [0], rest.writes);
    }

    /** `transcodeVideo`. A missing video throws before anything is
        written; otherwise the run does what `Run` describes. */
    method TranscodeVideo(videoId: string, eff: Effects) returns (result: Fault)
      modifies this
      ensures videoId !in old(videos) ==>
        result == Fault("Video " + videoId + " not found") &&
        videos == old(videos) && variants == old(variants) && notices == old(notices) &&
        progressWrites == old(progressWrites) && manifests == old(manifests)
      ensures videoId in old(videos) ==>
        var out := Run(bucket, region, videoId, old(videos)[videoId], eff);
        videos == old(videos)[videoId := out.record] &&
        variants == old(variants) + out.rows &&
        notices == old(notices) + out.notices &&
        progressWrites == old(progressWrites) + out.writes &&
        manifests == (if out.manifest.Some? then old(manifests)[ManifestKey(old(videos)[videoId].creatorId, videoId) := out.manifest.value]
                      else old(manifests)) &&
        result == out.result
    {
      if videoId !in videos {
        return Fault("Video " + videoId + " not found");
      }
      result := StartJob(videoId, eff);
    }
  }

  // ---------------------------------------------------------------------
  // Temporary directory
  // ---------------------------------------------------------------------

  /** The number of entries removed before the first unlink that fails:
      every entry before it unlinks, and it (if any) does not. */
  function FirstFailure(entries: seq<string>, unlink: string -> Fault): (n: nat)
    ensures n <= |entries|
    ensures forall i :: 0 <= i < n ==> unlink(entries[i]).NoFault?
    ensures n < |entries| ==> unlink(entries[n]).Fault?
    decreases |entries|
  {
    if entries == [] || unlink(entries[0]).Fault? then 0
    else 1 + FirstFailure(entries[1..], unlink)
  }

  /** The job's scratch directory: whether it exists, and its entries in
      the order the directory listing returns them. */
  class TempDirectory {
    var present: bool
    var entries: seq<string>

    constructor(files: seq<string>)
      ensures present && entries == files
    {
      present := true;
      entries := files;
    }

    /** `cleanupTempDir`: unlink every entry in listing order, then remove
        the directory. The first error ends the cleanup and is swallowed:
        a missing directory is left as it is, a failed unlink leaves that
        entry and the ones after it, a failed `rmdir` leaves the empty
        directory. */
    method Cleanup(unlink: string -> Fault, rmdir: Fault)
      modifies this
      ensures !old(present) ==> !present && entries == old(entries)
      ensures old(present) ==>
        var n := FirstFailure(old(entries), unlink);
        entries == old(entries)[n..] &&
        present == (n < |old(entries)| || rmdir.Fault?)
    {
      if !present {
        return;
      }
      var files := entries;
      var i := 0;
      while i < |files|
        invariant i <= |files| && present && entries == files[i..]
        invariant FirstFailure(files, unlink) == i + FirstFailure(files[i..], unlink)
        invariant forall j :: 0 <= j < i ==> unlink(files[j]).NoFault?
        decreases |files| - i
      {
        if unlink(files[i]).Fault? {
          return;
        }
        assert files[i..][1..] == files[i + 1..];
        entries := entries[1..];
        i := i + 1;
      }
      if rmdir.NoFault? {
        present := false;
      }
    }
  }
}
