/** `UploadService`: checks on an uploaded file's MIME type and size, the
    stored file name `<uuid>.<extension>`, the local path under
    `uploads/`, and the public URL served for it. The UUID and the
    `API_URL` setting are parameters; the directory creation and the file
    write are not modelled. */
module Upload {
  import opened Common

  /** The folder under `uploads/` each kind of upload goes to. */
  datatype Destination = Originals | Thumbnails | ProfileImages

  function Folder(d: Destination): string {
    match d
    case Originals => "originals"
    case Thumbnails => "thumbnails"
    case ProfileImages => "profile-images"
  }

  /** What the service reads of a Multer file. */
  datatype IncomingFile = IncomingFile(originalName: string, mimeType: string, size: nat)

  /** What an upload returns. */
  datatype StoredFile = StoredFile(localPath: string, filename: string, url: string)

  const VideoMimeTypes: seq<string> := ["video/mp4", "video/quicktime", "video/x-msvideo", "video/webm"]
  const ImageMimeTypes: seq<string> := ["image/jpeg", "image/jpg", "image/png", "image/webp"]

  /** 2 GiB. */
  const MaxVideoSize: nat := 2 * 1024 * 1024 * 1024

  const DefaultApiUrl: string := "http://localhost:3001"

  /** `getFileExtension`: the lower-cased text after the last `.`. */
  function FileExtension(filename: string): string {
    Lower(Last(Split(filename, '.')))
  }

  /** Lower-casing neither adds nor removes a `.`. */
  lemma LowerKeepsDot(s: string)
    ensures '.' in Lower(s) <==> '.' in s
  {
    if '.' in s {
      var i :| 0 <= i < |s| && s[i] == '.';
      assert Lower(s)[i] == '.';
    }
    if '.' in Lower(s) {
      var i :| 0 <= i < |Lower(s)| && Lower(s)[i] == '.';
      assert s[i] == '.';
    }
  }

  /** The extension never contains a `.`, and it is the lower-cased tail
      of the name: the whole name when it has no `.`, otherwise the text
      after a `.`. */
  lemma FileExtensionFacts(filename: string)
    ensures '.' !in FileExtension(filename)
    ensures var k := |FileExtension(filename)|;
      k <= |filename| && FileExtension(filename) == Lower(filename[|filename| - k..]) &&
      (k < |filename| ==> filename[|filename| - k - 1] == '.')
  {
    var t := Last(Split(filename, '.'));
    LastPiece(filename, '.');
    LowerKeepsDot(t);
  }

  /** A name without a `.` is its own extension, lower-cased. */
  lemma FileExtensionNoDot(filename: string)
    requires '.' !in filename
    ensures FileExtension(filename) == Lower(filename)
  {
    SplitNoSep(filename, '.');
  }

  /** The extension is what follows the last `.`; a name ending in `.`
      has the empty extension. */
  lemma FileExtensionAfterLastDot(stem: string, ext: string)
    requires '.' !in ext
    ensures FileExtension(stem + "." + ext) == Lower(ext)
    ensures FileExtension(stem + ".") == ""
  {
    assert stem + "." + ext == stem + ['.'] + ext;
    SplitAtSep(stem, ext, '.');
    SplitNoSep(ext, '.');
    assert stem + "." == stem + ['.'] + "";
    SplitAtSep(stem, "", '.');
  }

  /** `path.join('uploads', <folder>, userId, filename)` for plain segments. */
  function LocalPath(d: Destination, userId: string, filename: string): string {
    "uploads/" + Folder(d) + "/" + userId + "/" + filename
  }

  /** `getPublicUrl`: the API base URL (default when unset or empty), a
      `/`, and the path with every backslash turned into `/`. */
  function PublicUrl(apiUrl: Option<string>, localPath: string): string {
    OrDefault(apiUrl, DefaultApiUrl) + "/" + ReplaceChar(localPath, '\\', '/')
  }

  lemma ReplaceAbsent(s: string, from: char, to: char)
    requires from !in s
    ensures ReplaceChar(s, from, to) == s
  {
  }

  /** The URL is the base URL, a `/`, and the path character by
      character with `/` for every backslash; a path without backslashes
      appears unchanged. */
  lemma PublicUrlFacts(apiUrl: Option<string>, localPath: string)
    ensures var base := OrDefault(apiUrl, DefaultApiUrl);
      var url := PublicUrl(apiUrl, localPath);
      |url| == |base| + 1 + |localPath| &&
      url[..|base| + 1] == base + "/" &&
      '\\' !in url[|base| + 1..] &&
      (forall i :: 0 <= i < |localPath| ==>
         url[|base| + 1 + i] == if localPath[i] == '\\' then '/' else localPath[i]) &&
      ('\\' !in localPath ==> url == base + "/" + localPath)
  {
    var base := OrDefault(apiUrl, DefaultApiUrl);
    var url := PublicUrl(apiUrl, localPath);
    ReplaceCharFacts(localPath, '\\', '/');
    assert url[|base| + 1..] == ReplaceChar(localPath, '\\', '/');
    if '\\' !in localPath {
      ReplaceAbsent(localPath, '\\', '/');
    }
  }

  /** Writing the file: name, path and URL. */
  function Store(d: Destination, file: IncomingFile, userId: string, uuid: string, apiUrl: Option<string>): StoredFile {
    var filename := uuid + "." + FileExtension(file.originalName);
    var localPath := LocalPath(d, userId, filename);
    StoredFile(localPath, filename, PublicUrl(apiUrl, localPath))
  }

  /** `uploadVideo`: the MIME type is checked before the size. */
  function UploadVideo(file: IncomingFile, userId: string, uuid: string, apiUrl: Option<string>): Result<StoredFile> {
    if file.mimeType !in VideoMimeTypes then
      Err(BadRequest("Invalid file type. Allowed types: MP4, MOV, AVI, WebM"))
    else if file.size > MaxVideoSize then
      Err(BadRequest("File size exceeds maximum allowed size of 2GB"))
    else Ok(Store(Originals, file, userId, uuid, apiUrl))
  }

  function ImageTypeError(): Error {
    BadRequest("Invalid file type. Allowed types: JPG, PNG, WebP")
  }

  /** `uploadThumbnail`: the MIME type only; no size limit. */
  function UploadThumbnail(file: IncomingFile, userId: string, uuid: string, apiUrl: Option<string>): Result<StoredFile> {
    if file.mimeType !in ImageMimeTypes then Err(ImageTypeError())
    else Ok(Store(Thumbnails, file, userId, uuid, apiUrl))
  }

  /** `uploadProfileImage`: as a thumbnail, in its own folder. */
  function UploadProfileImage(file: IncomingFile, userId: string, uuid: string, apiUrl: Option<string>): Result<StoredFile> {
    if file.mimeType !in ImageMimeTypes then Err(ImageTypeError())
    else Ok(Store(ProfileImages, file, userId, uuid, apiUrl))
  }

  /** A video is accepted exactly when its type is one of the four video
      types and it is at most 2 GiB (2 GiB itself passes); a wrong type is
      reported whatever the size. */
  lemma UploadVideoAcceptsIff(file: IncomingFile, userId: string, uuid: string, apiUrl: Option<string>)
    ensures UploadVideo(file, userId, uuid, apiUrl).Ok?
        <==> file.mimeType in VideoMimeTypes && file.size <= 2147483648
    ensures file.mimeType !in VideoMimeTypes ==>
        UploadVideo(file, userId, uuid, apiUrl) == Err(BadRequest("Invalid file type. Allowed types: MP4, MOV, AVI, WebM"))
    ensures UploadVideo(file, userId, uuid, apiUrl).Ok? ==>
        UploadVideo(file, userId, uuid, apiUrl).value.localPath == LocalPath(Originals, userId, UploadVideo(file, userId, uuid, apiUrl).value.filename)
  {
  }

  /** Images are accepted exactly for the four image types, at any size,
      and the two image uploads differ only in their folder. */
  lemma UploadImageAcceptsIff(file: IncomingFile, userId: string, uuid: string, apiUrl: Option<string>)
    ensures UploadThumbnail(file, userId, uuid, apiUrl).Ok? <==> file.mimeType in ImageMimeTypes
    ensures UploadProfileImage(file, userId, uuid, apiUrl).Ok? <==> file.mimeType in ImageMimeTypes
    ensures UploadThumbnail(file, userId, uuid, apiUrl).Ok? ==>
      UploadThumbnail(file, userId, uuid, apiUrl).value.filename == UploadProfileImage(file, userId, uuid, apiUrl).value.filename
  {
  }

  /** A character that is in neither the name nor the lower-case
      letters is not in the extension. */
  lemma ExtensionAvoids(filename: string, c: char)
    requires c !in filename && !('a' <= c <= 'z')
    ensures c !in FileExtension(filename)
  {
    var t := Last(Split(filename, '.'));
    LastPiece(filename, '.');
    LowerFacts(t);
    assert t == filename[|filename| - |t|..];
    assert c !in t;
  }

  /** The stored name is `<uuid>.<ext>` with no further `.` and is the
      last segment of the local path. */
  lemma StoreLayout(d: Destination, file: IncomingFile, userId: string, uuid: string, apiUrl: Option<string>)
    requires '/' !in uuid && '/' !in file.originalName
    ensures var r := Store(d, file, userId, uuid, apiUrl);
      Last(Split(r.localPath, '/')) == r.filename &&
      |r.filename| > |uuid| && r.filename[..|uuid| + 1] == uuid + "." &&
      '.' !in r.filename[|uuid| + 1..]
  {
    var ext := FileExtension(file.originalName);
    var filename := uuid + "." + ext;
    FileExtensionFacts(file.originalName);
    ExtensionAvoids(file.originalName, '/');
    assert '/' !in filename;
    var folder := "uploads/" + Folder(d) + "/" + userId;
    assert LocalPath(d, userId, filename) == folder + ['/'] + filename;
    SplitAtSep(folder, filename, '/');
    SplitNoSep(filename, '/');
    assert filename[|uuid| + 1..] == ext;
  }

  /** With no backslash in the inputs the URL is the base URL followed by
      the local path. */
  lemma StoreUrl(d: Destination, file: IncomingFile, userId: string, uuid: string, apiUrl: Option<string>)
    requires '\\' !in userId && '\\' !in uuid && '\\' !in file.originalName
    ensures var r := Store(d, file, userId, uuid, apiUrl);
      r.url == OrDefault(apiUrl, DefaultApiUrl) + "/" + r.localPath
  {
    var filename := uuid + "." + FileExtension(file.originalName);
    ExtensionAvoids(file.originalName, '\\');
    assert '\\' !in filename;
    var p := LocalPath(d, userId, filename);
    assert '\\' !in p;
    PublicUrlFacts(apiUrl, p);
  }
}
