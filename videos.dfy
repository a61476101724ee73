/**
 * The video collection and the per-video handlers: publishing, reading one
 * video, and the owner-only update, delete and publish toggle. The collection
 * is a map from video id to record; each handler is a function from the map and
 * the request to the reply and the map afterwards (the class VideoCatalog
 * performs the same steps in place).
 */
module Videos {
  import opened Base
  import Media

  datatype Video = Video(
    id: VideoId,
    owner: UserId,
    title: string,
    description: Option<string>,
    videoFile: string,
    thumbnail: string,
    duration: Option<real>,
    views: nat,
    isPublished: bool,
    createdAt: nat)

  datatype VStep<R> = VStep(result: Result<R>, videos: map<VideoId, Video>)

  /** Who may read a video: anyone when it is published, only its owner otherwise. */
  predicate CanView(v: Video, viewer: Option<UserId>) {
    v.isPublished || viewer == Some(v.owner)
  }

  /**
   * The id check and lookup every per-video handler starts with, each with its
   * own messages. `findById` casts the id to an ObjectId first, so the record
   * is looked up under the id's key.
   */
  function Locate(videos: map<VideoId, Video>, videoId: Option<string>, invalid: string, missing: string): (r: Result<Video>)
    ensures r.Ok? <==> Truthy(videoId) && IsValidObjectId(videoId.value) && ObjectIdKey(videoId.value) in videos
    ensures r.Ok? ==> r.value == videos[ObjectIdKey(videoId.value)]
    ensures !Truthy(videoId) || !IsValidObjectId(videoId.value) ==> r == Err(ApiError(400, invalid))
    ensures Truthy(videoId) && IsValidObjectId(videoId.value) && ObjectIdKey(videoId.value) !in videos ==> r == Err(ApiError(404, missing))
  {
    if !Truthy(videoId) || !IsValidObjectId(videoId.value) then Err(ApiError(400, invalid))
    else if ObjectIdKey(videoId.value) !in videos then Err(ApiError(404, missing))
    else Ok(videos[ObjectIdKey(videoId.value)])
  }

  /** A hex id finds the same record, or gives the same error, whatever the case of its letters. */
  lemma LocateIgnoresHexCase(videos: map<VideoId, Video>, id: string, invalid: string, missing: string)
    requires IsHexId(id)
    ensures Locate(videos, Some(id), invalid, missing) == Locate(videos, Some(Lower(id)), invalid, missing)
  {
    ObjectIdKeyIgnoresCase(id);
  }

  /**
   * The id check as written: `Types` is read from the driver's exported class
   * rather than from its default instance. Where the driver defines `Types` on
   * the class's prototype only, that read gives undefined and reading
   * `ObjectId` from it throws a TypeError for every truthy id; the `||` skips
   * the call only for a falsy one.
   */
  function LocateAsWritten(videos: map<VideoId, Video>, videoId: Option<string>, invalid: string, missing: string): (r: Result<Video>)
    ensures r.Err?
    ensures !Truthy(videoId) ==> r == Err(ApiError(400, invalid))
    ensures Truthy(videoId) ==> r.failure.Uncaught?
  {
    if !Truthy(videoId) then Err(ApiError(400, invalid))
    else Err(Uncaught("TypeError: cannot read ObjectId of undefined"))
  }

  /** A stored video under a well-formed id: the intended check finds it, the check as written throws. */
  lemma LocateAsWrittenRefusesStoredVideo(videos: map<VideoId, Video>, id: VideoId, invalid: string, missing: string)
    requires ObjectIdKey(id) in videos && IsValidObjectId(id)
    ensures Locate(videos, Some(id), invalid, missing) == Ok(videos[ObjectIdKey(id)])
    ensures LocateAsWritten(videos, Some(id), invalid, missing).failure.Uncaught?
  {
  }

  // ---------------------------------------------------------------------------
  // getVideoById
  // ---------------------------------------------------------------------------

  /** getVideoById: reads only; an unpublished video is refused to everyone but its owner. */
  function GetVideoById(videos: map<VideoId, Video>, videoId: Option<string>, viewer: Option<UserId>): (r: Result<Video>)
    ensures r.Ok? <==>
      Truthy(videoId) && IsValidObjectId(videoId.value) && ObjectIdKey(videoId.value) in videos && CanView(videos[ObjectIdKey(videoId.value)], viewer)
    ensures r.Ok? ==> r.value == videos[ObjectIdKey(videoId.value)]
    ensures r.Err? ==> StatusOf(r.failure) in {400, 403, 404}
    ensures (Truthy(videoId) && IsValidObjectId(videoId.value) && ObjectIdKey(videoId.value) in videos
             && !CanView(videos[ObjectIdKey(videoId.value)], viewer)) ==>
      r == Err(ApiError(403, "You do not have permission to view this video"))
  {
    match Locate(videos, videoId, "requested id is not valid", "no such video exists")
    case Err(f) => Err(f)
    case Ok(v) =>
      if !v.isPublished && Some(v.owner) != viewer then
        Err(ApiError(403, "You do not have permission to view this video"))
      else Ok(v)
  }

  /** A request without a user never receives an unpublished video; the owner always receives their own. */
  lemma UnpublishedOnlyForOwner(videos: map<VideoId, Video>, id: VideoId)
    requires ObjectIdKey(id) in videos && IsValidObjectId(id) && !videos[ObjectIdKey(id)].isPublished
    ensures GetVideoById(videos, Some(id), None).Err?
    ensures GetVideoById(videos, Some(id), Some(videos[ObjectIdKey(id)].owner)) == Ok(videos[ObjectIdKey(id)])
  {
  }

  // ---------------------------------------------------------------------------
  // publishAVideo
  // ---------------------------------------------------------------------------

  /** The 500 reply publishAVideo gives when an upload returned nothing. */
  const UploadFailed := ApiError(500, "failed to upload video")

  datatype PublishForm = PublishForm(
    title: Option<string>,
    description: Option<string>,
    videoFilePath: Option<string>,
    thumbnailPath: Option<string>)

  /**
   * publishAVideo for the authenticated `viewer`. `freshId` and `now` are the
   * id and creation time the store gives the record, `remote` the media store.
   */
  function Publish(videos: map<VideoId, Video>, viewer: UserId, form: PublishForm, freshId: VideoId, now: nat,
                   remote: Media.UploadRequest -> Option<Media.Asset>): (s: VStep<Video>)
    requires freshId !in videos
    ensures s.result.Err? ==> s.videos == videos
    ensures !Truthy(form.title) ==> s.result == Err(ApiError(400, "title is required"))
    ensures Truthy(form.title) && (!Truthy(form.videoFilePath) || !Truthy(form.thumbnailPath)) ==>
      s.result == Err(ApiError(400, "required files missing"))
    ensures var file := Media.UploadOnCloudinary(form.videoFilePath, remote);
      var thumb := Media.UploadOnCloudinary(form.thumbnailPath, remote);
      && (s.result.Ok? <==>
            Truthy(form.title) && Truthy(form.videoFilePath) && Truthy(form.thumbnailPath) && file.Ok? && thumb.Ok?)
      && (Truthy(form.title) && Truthy(form.videoFilePath) && Truthy(form.thumbnailPath) ==>
            && (file.Err? ==> s.result == Err(file.failure))
            && (file.Ok? && thumb.Err? ==> s.result == Err(thumb.failure)))
      && (s.result.Ok? ==>
            && s.result.value.videoFile == file.value.value.secureUrl
            && s.result.value.thumbnail == thumb.value.value.secureUrl
            && s.result.value.duration == file.value.value.duration
            && s.result.value.createdAt == now)
    ensures s.result.Ok? ==>
      && Truthy(form.title) && Truthy(form.videoFilePath) && Truthy(form.thumbnailPath)
      && s.videos == videos[freshId := s.result.value]
      && s.result.value.owner == viewer && s.result.value.id == freshId
      && s.result.value.title == form.title.value && s.result.value.description == form.description
      && s.result.value.isPublished && s.result.value.views == 0
  {
    if !Truthy(form.title) then VStep(Err(ApiError(400, "title is required")), videos)
    else if !Truthy(form.videoFilePath) || !Truthy(form.thumbnailPath) then
      VStep(Err(ApiError(400, "required files missing")), videos)
    else
      match Media.UploadOnCloudinary(form.videoFilePath, remote)
      case Err(f) => VStep(Err(f), videos)
      case Ok(file) =>
        match Media.UploadOnCloudinary(form.thumbnailPath, remote)
        case Err(f) => VStep(Err(f), videos)
        case Ok(thumb) =>
          // unreachable: an upload of a truthy path either yields an asset or throws
          if file.None? || thumb.None? then VStep(Err(UploadFailed), videos)
          else
            var v := Video(freshId, viewer, form.title.value, form.description, file.value.secureUrl,
                           thumb.value.secureUrl, file.value.duration, 0, true, now);
            VStep(Ok(v), videos[freshId := v])
  }

  // ---------------------------------------------------------------------------
  // updateVideo, deleteVideo, togglePublishStatus
  // ---------------------------------------------------------------------------

  /** updateVideo for the authenticated `viewer`: `$set` of the truthy fields among title and description. */
  function Update(videos: map<VideoId, Video>, videoId: Option<string>, viewer: UserId,
                  title: Option<string>, description: Option<string>): (s: VStep<Video>)
    ensures s.result.Err? ==> s.videos == videos
    ensures s.result.Ok? <==>
      Truthy(videoId) && IsValidObjectId(videoId.value) && ObjectIdKey(videoId.value) in videos && videos[ObjectIdKey(videoId.value)].owner == viewer
    ensures s.result.Ok? ==>
      var before := videos[ObjectIdKey(videoId.value)];
      && s.videos == videos[ObjectIdKey(videoId.value) := s.result.value]
      && s.result.value == before.(title := if Truthy(title) then title.value else before.title,
                                   description := if Truthy(description) then description else before.description)
  {
    match Locate(videos, videoId, "invalid update request", "no such video exists, unable to update")
    case Err(f) => VStep(Err(f), videos)
    case Ok(v) =>
      if v.owner != viewer then VStep(Err(ApiError(400, "user unauthorized to edit video details")), videos)
      else
        var updated := v.(title := if Truthy(title) then title.value else v.title,
                          description := if Truthy(description) then description else v.description);
        VStep(Ok(updated), videos[ObjectIdKey(videoId.value) := updated])
  }

  /** deleteVideo for the authenticated `viewer`. */
  function Delete(videos: map<VideoId, Video>, videoId: Option<string>, viewer: UserId): (s: VStep<()>)
    ensures s.result.Err? ==> s.videos == videos
    ensures s.result.Ok? <==>
      Truthy(videoId) && IsValidObjectId(videoId.value) && ObjectIdKey(videoId.value) in videos && videos[ObjectIdKey(videoId.value)].owner == viewer
    ensures s.result.Ok? ==> s.videos == videos - {ObjectIdKey(videoId.value)}
  {
    match Locate(videos, videoId, "no video provided to delete", "no such video exists, delete not possible")
    case Err(f) => VStep(Err(f), videos)
    case Ok(v) =>
      if viewer != v.owner then VStep(Err(ApiError(403, "user unauthorized to delete this video")), videos)
      else VStep(Ok(()), videos - {ObjectIdKey(videoId.value)})
  }

  /** togglePublishStatus for the authenticated `viewer`. */
  function Toggle(videos: map<VideoId, Video>, videoId: Option<string>, viewer: UserId): (s: VStep<Video>)
    ensures s.result.Err? ==> s.videos == videos
    ensures s.result.Ok? <==>
      Truthy(videoId) && IsValidObjectId(videoId.value) && ObjectIdKey(videoId.value) in videos && videos[ObjectIdKey(videoId.value)].owner == viewer
    ensures s.result.Ok? ==>
      && s.result.value == videos[ObjectIdKey(videoId.value)].(isPublished := !videos[ObjectIdKey(videoId.value)].isPublished)
      && s.videos == videos[ObjectIdKey(videoId.value) := s.result.value]
  {
    match Locate(videos, videoId, "bad request to toggle publish status", "video not found, unable to toggle publish status")
    case Err(f) => VStep(Err(f), videos)
    case Ok(v) =>
      if v.owner != viewer then VStep(Err(ApiError(403, "user unauthorized, unable to toggle publish status")), videos)
      else
        var updated := v.(isPublished := !v.isPublished);
        VStep(Ok(updated), videos[ObjectIdKey(videoId.value) := updated])
  }

  /** Store records are keyed by their own id. */
  ghost predicate KeyedById(videos: map<VideoId, Video>) {
    forall id :: id in videos ==> videos[id].id == id
  }

  /** A user who does not own a video can neither update, delete nor toggle it: the store is untouched and the status is 400 (update) or 403. */
  lemma NonOwnerChangesNothing(videos: map<VideoId, Video>, id: VideoId, viewer: UserId,
                               title: Option<string>, description: Option<string>)
    requires ObjectIdKey(id) in videos && IsValidObjectId(id) && videos[ObjectIdKey(id)].owner != viewer
    ensures Update(videos, Some(id), viewer, title, description) ==
      VStep(Err(ApiError(400, "user unauthorized to edit video details")), videos)
    ensures Delete(videos, Some(id), viewer) == VStep(Err(ApiError(403, "user unauthorized to delete this video")), videos)
    ensures Toggle(videos, Some(id), viewer) ==
      VStep(Err(ApiError(403, "user unauthorized, unable to toggle publish status")), videos)
  {
    assert Truthy(Some(id));
    assert Locate(videos, Some(id), "invalid update request", "no such video exists, unable to update") == Ok(videos[ObjectIdKey(id)]);
    assert Locate(videos, Some(id), "no video provided to delete", "no such video exists, delete not possible") == Ok(videos[ObjectIdKey(id)]);
    assert Locate(videos, Some(id), "bad request to toggle publish status", "video not found, unable to toggle publish status") == Ok(videos[ObjectIdKey(id)]);
  }

  /** Toggling twice restores the store. */
  lemma ToggleTwiceRestores(videos: map<VideoId, Video>, id: VideoId, viewer: UserId)
    ensures var s1 := Toggle(videos, Some(id), viewer);
      s1.result.Ok? ==> Toggle(s1.videos, Some(id), viewer).videos == videos
  {
    var s1 := Toggle(videos, Some(id), viewer);
    if s1.result.Ok? {
      var s2 := Toggle(s1.videos, Some(id), viewer);
      assert s2.videos[ObjectIdKey(id)] == videos[ObjectIdKey(id)];
      assert s2.videos == videos;
    }
  }

  /** The per-video handlers keep every record keyed by its own id. */
  lemma HandlersKeepKeys(videos: map<VideoId, Video>, id: Option<string>, viewer: UserId,
                         title: Option<string>, description: Option<string>)
    requires KeyedById(videos)
    ensures KeyedById(Update(videos, id, viewer, title, description).videos)
    ensures KeyedById(Delete(videos, id, viewer).videos)
    ensures KeyedById(Toggle(videos, id, viewer).videos)
  {
    var u := Update(videos, id, viewer, title, description);
    if u.result.Ok? { KeyedAfterReplace(videos, ObjectIdKey(id.value), u.result.value); }
    var t := Toggle(videos, id, viewer);
    if t.result.Ok? { KeyedAfterReplace(videos, ObjectIdKey(id.value), t.result.value); }
  }

  /** Storing a record in place of one with the same id keeps every record under its own id. */
  lemma KeyedAfterReplace(videos: map<VideoId, Video>, key: VideoId, v: Video)
    requires KeyedById(videos) && key in videos && v.id == videos[key].id
    ensures KeyedById(videos[key := v])
  {
  }

  /** After a successful delete, reading the video finds nothing. */
  lemma DeleteThenGetNotFound(videos: map<VideoId, Video>, id: VideoId, viewer: UserId, reader: Option<UserId>)
    requires Delete(videos, Some(id), viewer).result.Ok?
    ensures GetVideoById(Delete(videos, Some(id), viewer).videos, Some(id), reader) == Err(ApiError(404, "no such video exists"))
  {
  }

  /** A published video is readable by anyone, its own owner included, exactly as stored; the store writes the ids it creates as keys. */
  lemma PublishThenGet(videos: map<VideoId, Video>, viewer: UserId, form: PublishForm, freshId: VideoId, now: nat,
                       remote: Media.UploadRequest -> Option<Media.Asset>, reader: Option<UserId>)
    requires freshId !in videos && IsValidObjectId(freshId) && ObjectIdKey(freshId) == freshId
    ensures var s := Publish(videos, viewer, form, freshId, now, remote);
      s.result.Ok? ==> GetVideoById(s.videos, Some(freshId), reader) == s.result
  {
  }

  /** Sending the same update again changes nothing more. */
  lemma UpdateIdempotent(videos: map<VideoId, Video>, id: VideoId, viewer: UserId,
                         title: Option<string>, description: Option<string>)
    ensures var s := Update(videos, Some(id), viewer, title, description);
      s.result.Ok? ==> Update(s.videos, Some(id), viewer, title, description) == s
  {
  }
}
