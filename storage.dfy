/** `StorageService`: object keys for uploaded videos and thumbnails and
    the public S3 URL of a key. The clock reading `Date.now()` is a
    parameter; presigned upload URLs are S3 traffic and are not modelled. */
module Storage {
  import opened Common

  /** The bucket name: the `aws.s3Bucket` setting, or the default. */
  function Bucket(setting: Option<string>): string {
    OrDefault(setting, "devlife-academy-videos")
  }

  /** Characters the pattern `[^a-zA-Z0-9.-]` does not match. */
  predicate KeptInKey(c: char) {
    ('a' <= c <= 'z') || ('A' <= c <= 'Z') || ('0' <= c <= '9') || c == '.' || c == '-'
  }

  /** `filename.replace(/[^a-zA-Z0-9.-]/g, '_')`. */
  function Sanitize(filename: string): (r: string)
    ensures |r| == |filename|
    ensures forall i :: 0 <= i < |r| ==> r[i] == if KeptInKey(filename[i]) then filename[i] else '_'
  {
    seq(|filename|, i requires 0 <= i < |filename| => if KeptInKey(filename[i]) then filename[i] else '_')
  }

  /** A sanitised name holds only letters, digits, `.`, `-` and `_`; in
      particular it has no `/`, so it cannot add a level to the key. */
  lemma SanitizeSafe(filename: string)
    ensures forall i :: 0 <= i < |Sanitize(filename)| ==> KeptInKey(Sanitize(filename)[i]) || Sanitize(filename)[i] == '_'
    ensures '/' !in Sanitize(filename)
  {
    var r := Sanitize(filename);
    forall i | 0 <= i < |r| ensures r[i] != '/' {
    }
  }

  /** Sanitising is idempotent, and it leaves exactly the names made of
      kept characters and `_` unchanged. */
  lemma SanitizeIdempotent(filename: string)
    ensures Sanitize(Sanitize(filename)) == Sanitize(filename)
    ensures Sanitize(filename) == filename
        <==> forall i :: 0 <= i < |filename| ==> KeptInKey(filename[i]) || filename[i] == '_'
  {
    if Sanitize(filename) == filename {
      forall i | 0 <= i < |filename| ensures KeptInKey(filename[i]) || filename[i] == '_' {
        assert Sanitize(filename)[i] == filename[i];
      }
    }
  }

  /** What follows the folder in both key templates. */
  function KeyTail(userId: string, timestamp: nat, filename: string): string {
    userId + "/" + NatToString(timestamp) + "-" + Sanitize(filename)
  }

  /** `generateVideoKey`. */
  function VideoKey(userId: string, timestamp: nat, filename: string): string {
    "videos/" + userId + "/" + NatToString(timestamp) + "-" + Sanitize(filename)
  }

  /** `generateThumbnailKey`. */
  function ThumbnailKey(userId: string, timestamp: nat, filename: string): string {
    "thumbnails/" + userId + "/" + NatToString(timestamp) + "-" + Sanitize(filename)
  }

  /** With the same user, clock reading and file name the two keys differ
      only in their top-level folder. */
  lemma KeysDifferOnlyInFolder(userId: string, timestamp: nat, filename: string)
    ensures VideoKey(userId, timestamp, filename) == "videos/" + KeyTail(userId, timestamp, filename)
    ensures ThumbnailKey(userId, timestamp, filename) == "thumbnails/" + KeyTail(userId, timestamp, filename)
    ensures VideoKey(userId, timestamp, filename) != ThumbnailKey(userId, timestamp, filename)
  {
    assert VideoKey(userId, timestamp, filename)[0] == 'v';
    assert ThumbnailKey(userId, timestamp, filename)[0] == 't';
  }

  /** The last path segment of a video key is `<timestamp>-<sanitised name>`,
      whatever the file name contained. */
  lemma VideoKeyLastSegment(userId: string, timestamp: nat, filename: string)
    ensures Last(Split(VideoKey(userId, timestamp, filename), '/'))
         == NatToString(timestamp) + "-" + Sanitize(filename)
  {
    var digits, safe := NatToString(timestamp), Sanitize(filename);
    SanitizeSafe(filename);
    NoSlashInName(digits, safe);
    assert VideoKey(userId, timestamp, filename) == ("videos/" + userId) + ['/'] + (digits + "-" + safe);
    LastAfterSep("videos/" + userId, digits + "-" + safe, '/');
  }

  /** A decimal timestamp, a dash and a slash-free name hold no slash. */
  lemma NoSlashInName(digits: string, safe: string)
    requires AllDigits(digits) && '/' !in safe
    ensures '/' !in digits + "-" + safe
  {
    var name := digits + "-" + safe;
    forall i | 0 <= i < |name| ensures name[i] != '/' {
      if i < |digits| {
        assert name[i] == digits[i] && IsDigit(digits[i]);
      } else if i > |digits| {
        assert name[i] == safe[i - |digits| - 1];
      }
    }
  }

  /** `getPublicUrl`. */
  function PublicUrl(bucket: string, region: string, key: string): string {
    UrlPrefix(bucket, region) + key
  }

  function UrlPrefix(bucket: string, region: string): string {
    "https://" + bucket + ".s3." + region + ".amazonaws.com/"
  }

  /** The key of a public URL of the bucket, if the URL is one. */
  function KeyOfUrl(bucket: string, region: string, url: string): Option<string> {
    var prefix := UrlPrefix(bucket, region);
    if prefix <= url then Some(url[|prefix|..]) else None
  }

  /** The key can be read back from its public URL: it is the URL's suffix
      after a prefix fixed by bucket and region. */
  lemma KeyOfPublicUrl(bucket: string, region: string, key: string)
    ensures KeyOfUrl(bucket, region, PublicUrl(bucket, region, key)) == Some(key)
    ensures PublicUrl(bucket, region, key)[|PublicUrl(bucket, region, key)| - |key|..] == key
  {
    var prefix := UrlPrefix(bucket, region);
    assert prefix <= prefix + key;
    assert (prefix + key)[|prefix|..] == key;
  }

  /** Different keys have different public URLs. */
  lemma PublicUrlInjective(bucket: string, region: string, k1: string, k2: string)
    requires PublicUrl(bucket, region, k1) == PublicUrl(bucket, region, k2)
    ensures k1 == k2
  {
    KeyOfPublicUrl(bucket, region, k1);
    KeyOfPublicUrl(bucket, region, k2);
  }
}
