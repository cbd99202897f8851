/** `UploadVideoPage`: the upload form's state. Dropping a video checks
    its size; submitting validates the form (file, then title, then
    price), uploads the video and the optional thumbnail, posts the
    video's metadata with the parsed tags, and afterwards always clears
    the uploading flag and the progress. The three network calls are
    parameters that either succeed or fail. */
module UploadPage {
  import opened Common
  import opened Schema
  import opened Collections

  /** What the page reads of a browser `File`. */
  datatype SelectedFile = SelectedFile(name: string, size: nat)

  datatype Form = Form(title: string, description: string, tags: string, visibility: Visibility, price: string)

  /** The body posted to `/api/videos`. The price is the text typed into
      the form; `parseFloat` is not modelled. */
  datatype VideoData = VideoData(title: string, description: string, tags: seq<string>, visibility: Visibility,
                                 price: Option<string>, originalPath: string, thumbnailPath: Option<string>)

  /** How a network call ended: with its result, or with the message of
      the server's error response (`""` when it had none). */
  datatype Outcome<T> = Succeeded(value: T) | Failed(serverMessage: string)

  /** What a submit leaves behind: the error shown, the body posted if
      the page got that far, whether it navigated to the dashboard, and
      whether it began uploading. */
  datatype Submission = Submission(error: string, posted: Option<VideoData>, navigated: bool, started: bool)

  /** 2 GiB. */
  const MaxVideoBytes: nat := 2 * 1024 * 1024 * 1024

  const DefaultError: string := "Failed to upload video. Please try again."

  // ---------------------------------------------------------------------
  // Tags
  // ---------------------------------------------------------------------

  /** `.map((tag) => tag.trim()).filter(Boolean)`: each piece trimmed,
      the empty ones dropped, in order. */
  function TrimTags(parts: seq<string>): seq<string>
    decreases |parts|
  {
    if parts == [] then []
    else
      var t := Trim(parts[0]);
      (if t != "" then [t] else []) + TrimTags(parts[1..])
  }

  /** `tags.split(',').map((tag) => tag.trim()).filter(Boolean)`. */
  function ParseTags(tags: string): seq<string> {
    TrimTags(Split(tags, ','))
  }

  /** A tag as the form sends it: not empty, with no white space at
      either end, and free of commas. */
  predicate CleanTag(t: string) {
    t != "" && !IsSpace(t[0]) && !IsSpace(Last(t)) && ',' !in t
  }

  /** A clean tag trims to itself. */
  lemma TrimOfClean(t: string)
    requires CleanTag(t)
    ensures Trim(t) == t
  {
    assert TrimStart(t) == t;
    assert TrimEnd(t) == t;
  }

  /** A trimmed piece of a comma-free text is comma-free. */
  lemma TrimKeepsOut(s: string, c: char)
    requires c !in s
    ensures c !in Trim(s)
  {
    assert Trim(s) == s[TrimOffset(s)..TrimOffset(s) + |Trim(s)|];
  }

  lemma TrimTagsCons(p: string, rest: seq<string>)
    ensures TrimTags([p] + rest) == (if Trim(p) != "" then [Trim(p)] else []) + TrimTags(rest)
  {
    assert ([p] + rest)[0] == p && ([p] + rest)[1..] == rest;
  }

  /** Comma-free pieces trim into clean tags. */
  lemma {:induction false} TrimTagsClean(parts: seq<string>)
    requires forall i :: 0 <= i < |parts| ==> ',' !in parts[i]
    ensures forall t :: t in TrimTags(parts) ==> CleanTag(t)
    decreases |parts|
  {
    if parts != [] {
      TrimTagsClean(parts[1..]);
      TrimEnds(parts[0]);
      TrimKeepsOut(parts[0], ',');
    }
  }

  /** Every parsed tag is clean. */
  lemma ParseTagsClean(tags: string)
    ensures forall t :: t in ParseTags(tags) ==> CleanTag(t)
  {
    TrimTagsClean(Split(tags, ','));
  }

  /** A piece made only of white space contributes no tag. */
  lemma TrimTagsDropsBlank(p: string, rest: seq<string>)
    requires forall i :: 0 <= i < |p| ==> IsSpace(p[i])
    ensures TrimTags([p] + rest) == TrimTags(rest)
  {
    TrimEmptyIff(p);
    TrimTagsCons(p, rest);
  }

  /** Clean tags are kept as they are. */
  lemma {:induction false} TrimTagsOfClean(tags: seq<string>)
    requires forall i :: 0 <= i < |tags| ==> CleanTag(tags[i])
    ensures TrimTags(tags) == tags
    decreases |tags|
  {
    if tags != [] {
      var t, rest := tags[0], tags[1..];
      TrimOfClean(t);
      assert forall i :: 0 <= i < |rest| ==> CleanTag(rest[i]) by {
        forall i | 0 <= i < |rest| ensures CleanTag(rest[i]) {
          assert rest[i] == tags[i + 1];
        }
      }
      TrimTagsOfClean(rest);
      TrimTagsCons(t, rest);
      HeadTail(tags);
    }
  }

  /** Clean tags joined with commas parse back into the same tags, in
      the same order. */
  lemma ParseTagsJoin(tags: seq<string>)
    requires |tags| > 0 && forall i :: 0 <= i < |tags| ==> CleanTag(tags[i])
    ensures ParseTags(Join(tags, ',')) == tags
  {
    SplitJoin(tags, ',');
    TrimTagsOfClean(tags);
  }

  /** An empty tags field gives no tags. */
  lemma ParseTagsEmpty()
    ensures ParseTags("") == []
  {
    SplitNoSep("", ',');
    assert Trim("") == "";
  }

  // ---------------------------------------------------------------------
  // Progress
  // ---------------------------------------------------------------------

  /** `Math.round((loaded * 100) / total)` for a known, non-zero total. */
  function Percent(loaded: nat, total: nat): nat
    requires total > 0
  {
    (200 * loaded + total) / (2 * total)
  }

  /** The percentage is the nearest whole number to `100 * loaded /
      total`, halves rounding up. */
  lemma PercentNearest(loaded: nat, total: nat)
    requires total > 0
    ensures 2 * total * Percent(loaded, total) <= 200 * loaded + total < 2 * total * (Percent(loaded, total) + 1)
  {
    DivBounds(200 * loaded + total, 2 * total);
  }

  /** Nothing sent is 0 %, everything sent is 100 %, and in between the
      percentage stays within 0..100. */
  lemma PercentRange(loaded: nat, total: nat)
    requires total > 0
    ensures loaded <= total ==> Percent(loaded, total) <= 100
    ensures Percent(0, total) == 0 && Percent(total, total) == 100
  {
    var d := 2 * total;
    assert 200 * total + total == d * 100 + total;
    DivExact(100, total, d);
    DivExact(0, total, d);
    if loaded <= total {
      DivMonotone(200 * loaded + total, d * 100 + total, d);
    }
  }

  /** The percentage never goes down as more is sent. */
  lemma PercentMonotone(loaded: nat, more: nat, total: nat)
    requires total > 0 && loaded <= more
    ensures Percent(loaded, total) <= Percent(more, total)
  {
    DivMonotone(200 * loaded + total, 200 * more + total, 2 * total);
  }

  // ---------------------------------------------------------------------
  // Submit
  // ---------------------------------------------------------------------

  /** The checks `handleSubmit` makes before uploading, in order; the
      first that fails gives the message. */
  function ValidationError(videoFile: Option<SelectedFile>, form: Form): Option<string> {
    if videoFile.None? then Some("Please select a video file")
    else if Trim(form.title) == "" then Some("Please enter a video title")
    else if form.visibility == Paid && form.price == "" then Some("Please enter a price for paid content")
    else None
  }

  /** `err.response?.data?.message || 'Failed to upload video...'`. */
  function ErrorMessage(serverMessage: string): string {
    if serverMessage != "" then serverMessage else DefaultError
  }

  /** The metadata posted once the files are up. */
  function Metadata(form: Form, localPath: string, thumbnailPath: Option<string>): VideoData {
    VideoData(form.title, form.description, ParseTags(form.tags), form.visibility,
              if form.visibility == Paid then Some(form.price) else None, localPath, thumbnailPath)
  }

  /** The whole of `handleSubmit`: validation, then the video upload, the
      thumbnail upload when a thumbnail was chosen, and the post; the
      first failing call gives the error. */
  function Submit(videoFile: Option<SelectedFile>, thumbnailFile: Option<SelectedFile>, form: Form,
                  video: Outcome<string>, thumbnail: Outcome<string>, create: Outcome<()>): Submission
  {
    var invalid := ValidationError(videoFile, form);
    if invalid.Some? then Submission(invalid.value, None, false, false)
    else if video.Failed? then Submission(ErrorMessage(video.serverMessage), None, false, true)
    else if thumbnailFile.Some? && thumbnail.Failed? then
      Submission(ErrorMessage(thumbnail.serverMessage), None, false, true)
    else
      var data := Metadata(form, video.value, if thumbnailFile.Some? then Some(thumbnail.value) else None);
      if create.Failed? then Submission(ErrorMessage(create.serverMessage), Some(data), false, true)
      else Submission("", Some(data), true, true)
  }

  /** The form is valid exactly when a video is chosen, the title is not
      blank, and a paid video has a price; each check is reached only
      when the ones before it pass. */
  lemma ValidationOrder(videoFile: Option<SelectedFile>, form: Form)
    ensures ValidationError(videoFile, form).None? <==>
      videoFile.Some? && Trim(form.title) != "" && !(form.visibility == Paid && form.price == "")
    ensures videoFile.None? ==> ValidationError(videoFile, form) == Some("Please select a video file")
    ensures ValidationError(videoFile, form) == Some("Please enter a video title") <==>
      videoFile.Some? && Trim(form.title) == ""
    ensures Trim(form.title) == "" <==> forall i :: 0 <= i < |form.title| ==> IsSpace(form.title[i])
  {
    TrimEmptyIff(form.title);
  }

  /** Nothing is uploaded or posted for an invalid form; the page goes to
      the dashboard exactly when every call it makes succeeds, and then
      shows no error; after any failure the error is never empty. */
  lemma SubmitFacts(videoFile: Option<SelectedFile>, thumbnailFile: Option<SelectedFile>, form: Form,
                    video: Outcome<string>, thumbnail: Outcome<string>, create: Outcome<()>)
    ensures var s := Submit(videoFile, thumbnailFile, form, video, thumbnail, create);
      (s.started <==> ValidationError(videoFile, form).None?) &&
      (!s.started ==> s.posted.None? && !s.navigated) &&
      (s.navigated <==> s.started && video.Succeeded? && (thumbnailFile.None? || thumbnail.Succeeded?) && create.Succeeded?) &&
      (s.navigated <==> s.error == "") &&
      (s.posted.Some? ==> s.posted.value.originalPath == video.value && s.posted.value.tags == ParseTags(form.tags))
  {
  }

  /** The steps of `handleSubmit` after the error is cleared: the checks
      in order, then the video upload, the thumbnail upload when a
      thumbnail was chosen, and the post; the first failing call gives
      the error. This is the step-by-step form of `Submit`, which states
      the same outcome as one expression and carries the properties
      (`SubmitFacts`); the postcondition ties the two together. */
  method Send(videoFile: Option<SelectedFile>, thumbnailFile: Option<SelectedFile>, form: Form,
              video: Outcome<string>, thumbnail: Outcome<string>, create: Outcome<()>)
    returns (error: string, posted: Option<VideoData>, navigated: bool, started: bool)
    ensures Submission(error, posted, navigated, started) == Submit(videoFile, thumbnailFile, form, video, thumbnail, create)
  {
    error, posted, navigated, started := "", None, false, false;
    var invalid := ValidationError(videoFile, form);
    if invalid.Some? {
      error := invalid.value;
      return;
    }
    started := true;
    if video.Failed? {
      error := ErrorMessage(video.serverMessage);
      return;
    }
    var thumbnailPath: Option<string> := None;
    if thumbnailFile.Some? {
      if thumbnail.Failed? {
        error := ErrorMessage(thumbnail.serverMessage);
        return;
      }
      thumbnailPath := Some(thumbnail.value);
    }
    posted := Some(Metadata(form, video.value, thumbnailPath));
    if create.Failed? {
      error := ErrorMessage(create.serverMessage);
    } else {
      navigated := true;
    }
  }

  class UploadForm {
    var videoFile: Option<SelectedFile>
    var thumbnailFile: Option<SelectedFile>
    var uploadProgress: nat
    var isUploading: bool
    var error: string
    var form: Form

    constructor()
      ensures videoFile.None? && thumbnailFile.None? && uploadProgress == 0 && !isUploading && error == ""
      ensures form == Form("", "", "", Public, "")
    {
      videoFile := None;
      thumbnailFile := None;
      uploadProgress := 0;
      isUploading := false;
      error := "";
      form := Form("", "", "", Public, "");
    }

    /** `onVideoDrop`: a file over 2 GiB only sets the error and keeps
        the file chosen before; otherwise it is chosen and the error is
        cleared. An empty drop changes nothing. */
    method OnVideoDrop(accepted: seq<SelectedFile>)
      modifies this
      ensures thumbnailFile == old(thumbnailFile) && form == old(form)
      ensures uploadProgress == old(uploadProgress) && isUploading == old(isUploading)
      ensures accepted == [] ==> videoFile == old(videoFile) && error == old(error)
      ensures accepted != [] && accepted[0].size > MaxVideoBytes ==>
        videoFile == old(videoFile) && error == "Video file size must be less than 2GB"
      ensures accepted != [] && accepted[0].size <= MaxVideoBytes ==> videoFile == Some(accepted[0]) && error == ""
    {
      if accepted != [] {
        var file := accepted[0];
        if file.size > MaxVideoBytes {
          error := "Video file size must be less than 2GB";
          return;
        }
        videoFile := Some(file);
        error := "";
      }
    }

    /** `onThumbnailDrop`: any dropped image is chosen. */
    method OnThumbnailDrop(accepted: seq<SelectedFile>)
      modifies this
      ensures videoFile == old(videoFile) && form == old(form) && error == old(error)
      ensures uploadProgress == old(uploadProgress) && isUploading == old(isUploading)
      ensures thumbnailFile == if accepted == [] then old(thumbnailFile) else Some(accepted[0])
    {
      if accepted != [] {
        thumbnailFile := Some(accepted[0]);
      }
    }

    /** `onUploadProgress`: the percentage is updated only when the total
        is known and not zero. */
    method OnUploadProgress(loaded: nat, total: Option<nat>)
      modifies this
      ensures videoFile == old(videoFile) && thumbnailFile == old(thumbnailFile) && form == old(form)
      ensures error == old(error) && isUploading == old(isUploading)
      ensures uploadProgress == if total.Some? && total.value > 0 then Percent(loaded, total.value) else old(uploadProgress)
    {
      if total.Some? && total.value > 0 {
        uploadProgress := Percent(loaded, total.value);
      }
    }

    /** `handleSubmit`: the form's state around the steps of `Send`. The
        uploading flag and the progress are reset in the `finally` block
        whenever the upload began. */
    method HandleSubmit(video: Outcome<string>, thumbnail: Outcome<string>, create: Outcome<()>)
      returns (posted: Option<VideoData>, navigated: bool)
      modifies this
      ensures videoFile == old(videoFile) && thumbnailFile == old(thumbnailFile) && form == old(form)
      ensures var s := Submit(old(videoFile), old(thumbnailFile), old(form), video, thumbnail, create);
        error == s.error && posted == s.posted && navigated == s.navigated &&
        (s.started ==> !isUploading && uploadProgress == 0) &&
        (!s.started ==> isUploading == old(isUploading) && uploadProgress == old(uploadProgress))
    {
      var chosenVideo, chosenThumbnail, filled := videoFile, thumbnailFile, form;
      error := "";
      var message, started;
      message, posted, navigated, started := Send(chosenVideo, chosenThumbnail, filled, video, thumbnail, create);
      error := message;
      if started {
        isUploading := false;
        uploadProgress := 0;
      }
    }
  }
}
