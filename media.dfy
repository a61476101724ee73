/**
 * The two media-store helpers: the guard in front of an upload, and the
 * deletion helper that recovers an asset's public id from its delivery URL with
 * the pattern  /v<digits>/<id>.<ext>  (the regular expression `\/v\d+\/(.+)\.\w+$`).
 * The network calls themselves are outside the model: an upload is a function
 * supplied by the caller, and a deletion is described by the destroy request it
 * would issue.
 */
module Media {
  import opened Base

  /** What the media store reports for a stored file. */
  datatype Asset = Asset(secureUrl: string, duration: Option<real>)

  /** An upload request as the helper issues it. */
  datatype UploadRequest = UploadRequest(localPath: string, resourceType: string)

  /** A destroy request as the deletion helper issues it. */
  datatype DestroyRequest = DestroyRequest(publicId: string, resourceType: string)

  /** Uploads are sent with the media store's automatic resource-type detection. */
  const UploadResourceType := "auto"

  /** The resource type a deletion uses when the caller names none. */
  const DefaultDestroyResourceType := "image"

  /**
   * uploadOnCloudinary: `Ok(None)` (the helper's `null`) for a falsy path, with
   * no upload; otherwise the asset the store returns, or the store's failure
   * rethrown. `remote` is the media store (`None` when the upload throws).
   */
  function UploadOnCloudinary(localPath: Option<string>, remote: UploadRequest -> Option<Asset>): (r: Result<Option<Asset>>)
    ensures !Truthy(localPath) ==> r == Ok(None)
    ensures Truthy(localPath) ==> r.Ok? ==> r.value.Some? && Some(r.value.value) == remote(UploadRequest(localPath.value, "auto"))
    ensures Truthy(localPath) ==> (r.Err? <==> remote(UploadRequest(localPath.value, "auto")).None?)
  {
    if !Truthy(localPath) then Ok(None)
    else
      match remote(UploadRequest(localPath.value, UploadResourceType))
      case Some(asset) => Ok(Some(asset))
      case None => Err(Uncaught("file upload failed"))
  }

  // ---------------------------------------------------------------------------
  // The public-id pattern
  // ---------------------------------------------------------------------------

  /** `\w`: ASCII letters, digits and underscore. */
  predicate IsWordChar(c: char) {
    ('a' <= c <= 'z') || ('A' <= c <= 'Z') || IsDigit(c) || c == '_'
  }

  predicate AllWordChars(s: string) {
    forall i :: 0 <= i < |s| ==> IsWordChar(s[i])
  }

  /** The characters `.` does not match (no `s` flag). */
  predicate IsLineTerminator(c: char) {
    c == '\n' || c == '\r' || c == '\U{2028}' || c == '\U{2029}'
  }

  predicate NoLineTerminator(s: string) {
    forall i :: 0 <= i < |s| ==> !IsLineTerminator(s[i])
  }

  /**
   * The reference reading of the pattern: starting at `p`, the URL is
   * "/v" + digits + "/" + id + "." + ext up to its end, with at least one digit,
   * a non-empty id free of line terminators and a non-empty word-character ext.
   */
  ghost predicate Shape(url: string, p: nat, digits: string, id: string, ext: string) {
    && p <= |url|
    && url[p..] == "/v" + digits + "/" + id + "." + ext
    && |digits| > 0 && AllDigits(digits)
    && |id| > 0 && NoLineTerminator(id)
    && |ext| > 0 && AllWordChars(ext)
  }

  /** The index just past "/v<digits>/" when that segment starts at `p`. */
  function VersionEnd(url: string, p: nat): (r: Option<nat>)
    ensures r.Some? ==> p + 3 < r.value <= |url|
  {
    if p + 2 <= |url| && url[p] == '/' && url[p + 1] == 'v' then
      var n := DigitRun(url[p + 2..]);
      if n > 0 && p + 2 + n < |url| && url[p + 2 + n] == '/' then Some(p + 3 + n) else None
    else None
  }

  /** The index of the last '.' in `s`. */
  function LastDot(s: string): (r: Option<nat>)
    ensures r.Some? ==> r.value < |s| && s[r.value] == '.' && forall k :: r.value < k < |s| ==> s[k] != '.'
    ensures r.None? ==> forall k :: 0 <= k < |s| ==> s[k] != '.'
  {
    if s == [] then None
    else if s[|s| - 1] == '.' then Some(|s| - 1)
    else LastDot(s[..|s| - 1])
  }

  /** Where the match ends its capture group: the last dot, provided a non-empty run of word characters follows it to the end. */
  function ExtensionDot(url: string): (r: Option<nat>)
    ensures r.Some? ==> r.value < |url| - 1 && url[r.value] == '.' && AllWordChars(url[r.value + 1..])
  {
    match LastDot(url)
    case None => None
    case Some(j) => if j + 1 < |url| && AllWordChars(url[j + 1..]) then Some(j) else None
  }

  /** The capture group of a match starting at `p`, if the pattern matches there. */
  function GroupAt(url: string, p: nat, j: nat): Option<string>
    requires j < |url|
  {
    match VersionEnd(url, p)
    case None => None
    case Some(e) => if e < j && NoLineTerminator(url[e..j]) then Some(url[e..j]) else None
  }

  /** The leftmost start at or after `p` where the pattern matches, and its group. */
  function LeftmostFrom(url: string, p: nat, j: nat): (r: Option<(nat, string)>)
    requires j < |url|
    ensures r.Some? ==> p <= r.value.0 && GroupAt(url, r.value.0, j) == Some(r.value.1)
    ensures r.Some? ==> forall q :: p <= q < r.value.0 ==> GroupAt(url, q, j).None?
    ensures r.None? ==> forall q :: p <= q ==> GroupAt(url, q, j).None?
    decreases j - p
  {
    if p >= j then
      assert forall q :: p <= q ==> GroupAt(url, q, j).None? by {
        forall q | p <= q ensures GroupAt(url, q, j).None? {
          var e := VersionEnd(url, q);
          assert e.Some? ==> e.value > j;
        }
      }
      None
    else match GroupAt(url, p, j)
      case Some(id) => Some((p, id))
      case None => LeftmostFrom(url, p + 1, j)
  }

  /** The public id the deletion helper extracts from a URL: the capture group of the first match, if any. */
  function ExtractPublicId(url: string): Option<string> {
    match ExtensionDot(url)
    case None => None
    case Some(j) =>
      match LeftmostFrom(url, 0, j)
      case None => None
      case Some(m) => Some(m.1)
  }

  // ---------------------------------------------------------------------------
  // What the extraction means
  // ---------------------------------------------------------------------------

  lemma {:induction false} DigitRunOfShape(digits: string, tail: string)
    requires AllDigits(digits)
    ensures DigitRun(digits + "/" + tail) == |digits|
  {
    if digits != [] {
      assert (digits + "/" + tail)[1..] == digits[1..] + "/" + tail;
      DigitRunOfShape(digits[1..], tail);
    }
  }

  /** A version segment written out at `p` is the one the matcher reads there. */
  lemma VersionEndOfShape(url: string, p: nat, digits: string, tail: string)
    requires p <= |url| && url[p..] == "/v" + digits + "/" + tail
    requires |digits| > 0 && AllDigits(digits)
    ensures VersionEnd(url, p) == Some(p + 3 + |digits|)
    ensures url[p + 3 + |digits|..] == tail
  {
    var w := url[p..];
    assert w[0] == '/' && w[1] == 'v';
    assert url[p + 2..] == w[2..];
    assert w[2..] == digits + "/" + tail;
    DigitRunOfShape(digits, tail);
    assert url[p + 2 + |digits|] == w[2 + |digits|];
    assert url[p + 3 + |digits|..] == w[3 + |digits|..];
  }

  /** A dot followed by word characters up to the end is the last dot. */
  lemma LastDotBeforeWordSuffix(url: string, j: nat)
    requires j < |url| - 1 && url[j] == '.' && AllWordChars(url[j + 1..])
    ensures LastDot(url) == Some(j) && ExtensionDot(url) == Some(j)
  {
    forall k | j < k < |url| ensures url[k] != '.' {
      assert url[k] == url[j + 1..][k - j - 1];
    }
    var d := LastDot(url);
    assert d.Some? && d.value >= j;
  }

  /** A shape at `p` is exactly what the matcher checks at `p`, with the same group. */
  lemma ShapeGivesGroup(url: string, p: nat, digits: string, id: string, ext: string)
    requires Shape(url, p, digits, id, ext)
    ensures ExtensionDot(url) == Some(|url| - |ext| - 1)
    ensures GroupAt(url, p, |url| - |ext| - 1) == Some(id)
  {
    var tail := id + "." + ext;
    assert url[p..] == "/v" + digits + "/" + tail;
    VersionEndOfShape(url, p, digits, tail);
    var e := p + 3 + |digits|;
    SplitTail(url, e, id, ext);
    LastDotBeforeWordSuffix(url, e + |id|);
  }

  /** The parts of a URL that ends with id + "." + ext from `e` on. */
  lemma SplitTail(url: string, e: nat, id: string, ext: string)
    requires e <= |url| && url[e..] == id + "." + ext
    ensures |url| == e + |id| + 1 + |ext|
    ensures url[e..e + |id|] == id && url[e + |id|] == '.' && url[e + |id| + 1..] == ext
  {
    var tail := id + "." + ext;
    assert url[e..e + |id|] == tail[..|id|];
    assert url[e + |id|] == tail[|id|];
    assert url[e + |id| + 1..] == tail[|id| + 1..];
  }

  /** Conversely, a group the matcher finds is a shape of the URL, ending at its extension dot. */
  lemma GroupGivesShape(url: string, p: nat, j: nat) returns (digits: string, ext: string)
    requires ExtensionDot(url) == Some(j)
    requires GroupAt(url, p, j).Some?
    ensures Shape(url, p, digits, GroupAt(url, p, j).value, ext)
  {
    var e := VersionEnd(url, p).value;
    var id := url[e..j];
    digits := url[p + 2..e - 1];
    ext := url[j + 1..];
    var n := DigitRun(url[p + 2..]);
    assert url[p + 2..][..n] == digits;
    assert url[p..] == "/v" + digits + "/" + id + "." + ext;
  }

  /**
   * The extraction is the regular expression's first match: it returns an id
   * exactly when some start position has the pattern's shape, the id is the
   * group at the leftmost such start, and no earlier start has the shape.
   */
  lemma ExtractIsFirstMatch(url: string)
    ensures ExtractPublicId(url).Some? ==>
      exists p: nat, digits, ext :: Shape(url, p, digits, ExtractPublicId(url).value, ext)
        && forall q: nat, d, i, x :: q < p ==> !Shape(url, q, d, i, x)
    ensures ExtractPublicId(url).None? ==> forall q: nat, d, i, x :: !Shape(url, q, d, i, x)
  {
    forall q: nat, d, i, x | Shape(url, q, d, i, x) ensures ExtractPublicId(url).Some? {
      ShapeGivesExtraction(url, q, d, i, x);
    }
    if ExtractPublicId(url).Some? {
      var j := ExtensionDot(url).value;
      var m := LeftmostFrom(url, 0, j).value;
      var p := m.0;
      var digits, ext := GroupGivesShape(url, p, j);
      ShapesStartAtOrAfterLeftmost(url, j, p);
      assert Shape(url, p, digits, ExtractPublicId(url).value, ext);
    }
  }

  /** A URL with the shape somewhere yields an id. */
  lemma ShapeGivesExtraction(url: string, q: nat, d: string, i: string, x: string)
    requires Shape(url, q, d, i, x)
    ensures ExtractPublicId(url).Some?
  {
    ShapeGivesGroup(url, q, d, i, x);
    var j := |url| - |x| - 1;
    var r := LeftmostFrom(url, 0, j);
    assert r.Some?;
    assert ExtractPublicId(url) == Some(r.value.1);
  }

  /** No start position before the leftmost match has the shape. */
  lemma ShapesStartAtOrAfterLeftmost(url: string, j: nat, p: nat)
    requires ExtensionDot(url) == Some(j)
    requires LeftmostFrom(url, 0, j).Some? && LeftmostFrom(url, 0, j).value.0 == p
    ensures forall q: nat, d, i, x :: q < p ==> !Shape(url, q, d, i, x)
  {
    assert forall q :: 0 <= q < p ==> GroupAt(url, q, j).None?;
    forall q: nat, d, i, x | Shape(url, q, d, i, x) ensures q >= p {
      ShapeGivesGroup(url, q, d, i, x);
      assert GroupAt(url, q, j).Some?;
    }
  }

  predicate EndsWith(s: string, suffix: string) {
    |suffix| <= |s| && s[|s| - |suffix|..] == suffix
  }

  /** The extracted id never carries the extension: the URL ends with id + "." + ext, ext made of word characters. */
  lemma ExtractedIdPrecedesExtension(url: string)
    requires ExtractPublicId(url).Some?
    ensures var id := ExtractPublicId(url).value;
      |id| > 0 && exists ext :: |ext| > 0 && AllWordChars(ext) && EndsWith(url, id + "." + ext)
  {
    var j := ExtensionDot(url).value;
    var m := LeftmostFrom(url, 0, j).value;
    var digits, ext := GroupGivesShape(url, m.0, j);
    assert ExtractPublicId(url) == Some(m.1);
    ShapeEndsWith(url, m.0, digits, m.1, ext);
  }

  lemma ShapeEndsWith(url: string, p: nat, digits: string, id: string, ext: string)
    requires Shape(url, p, digits, id, ext)
    ensures EndsWith(url, id + "." + ext)
  {
    var a := "/v" + digits + "/";
    var b := id + "." + ext;
    assert "/v" + digits + "/" + id + "." + ext == a + b;
    assert url[|url| - |b|..] == (a + b)[|a|..];
  }

  /**
   * deleteFromCloudinary, up to the network call: `None` (the helper's `null`,
   * with no destroy call) for a falsy URL or one the pattern does not match;
   * otherwise the destroy request it issues, with "image" as the default type.
   */
  function DeleteFromCloudinary(publicUrl: Option<string>, resourceType: Option<string>): (r: Option<DestroyRequest>)
    ensures !Truthy(publicUrl) ==> r.None?
    ensures Truthy(publicUrl) ==> (r.Some? <==> exists q: nat, d, i, x :: Shape(publicUrl.value, q, d, i, x))
    ensures r.Some? ==> publicUrl.Some? && ExtractPublicId(publicUrl.value) == Some(r.value.publicId)
    ensures r.Some? ==> r.value.resourceType == (if resourceType.Some? then resourceType.value else "image")
  {
    if !Truthy(publicUrl) then None
    else
      ExtractIsFirstMatch(publicUrl.value);
      match ExtractPublicId(publicUrl.value)
      case None => None
      case Some(id) => Some(DestroyRequest(id, resourceType.GetOr(DefaultDestroyResourceType)))
  }

  const ExampleUrl := "/image/upload/v12/f/a.b.png"

  /** A delivery URL with a dotted asset name inside a folder: the id keeps the folder and every dot but the last. */
  lemma ExtractExample()
    ensures ExtractPublicId(ExampleUrl) == Some("f/a.b")
  {
    var url := ExampleUrl;
    ExampleShape();
    ShapeGivesGroup(url, 13, "12", "f/a.b", "png");
    ExampleNoEarlierVersion();
    assert LeftmostFrom(url, 0, 23) == Some((13, "f/a.b"));
  }

  lemma ExampleShape()
    ensures |ExampleUrl| == 27 && Shape(ExampleUrl, 13, "12", "f/a.b", "png")
  {
    assert ExampleUrl[13..] == "/v" + "12" + "/" + "f/a.b" + "." + "png";
    assert AllDigits("12");
    assert NoLineTerminator("f/a.b");
    assert AllWordChars("png");
  }

  lemma ExampleNoEarlierVersion()
    ensures forall q: nat :: q < 13 ==> VersionEnd(ExampleUrl, q).None?
  {
    forall q: nat | q < 13 ensures VersionEnd(ExampleUrl, q).None? {
      assert ExampleUrl[q + 1] != 'v';
    }
  }
}
