/**
 * The video collection as the owner-only handlers change it in place: each
 * method performs the handler's checks in order, then creates, updates or
 * removes one record. Each states the reply and the whole new collection as
 * the matching function of module Videos gives them, and keeps every record
 * stored under its own id.
 */
module VideoStore {
  import opened Base
  import Media
  import opened Videos

  class VideoCatalog {
    var videos: map<VideoId, Video>

    ghost predicate Valid()
      reads this
    {
      KeyedById(videos)
    }

    constructor ()
      ensures Valid() && videos == map[]
    {
      videos := map[];
    }

    /** publishAVideo: `Video.create` of the new record under `freshId`. */
    method PublishAVideo(viewer: UserId, form: PublishForm, freshId: VideoId, now: nat,
                         remote: Media.UploadRequest -> Option<Media.Asset>) returns (result: Result<Video>)
      requires Valid() && freshId !in videos
      modifies this
      ensures Valid()
      ensures var s := Publish(old(videos), viewer, form, freshId, now, remote);
        result == s.result && videos == s.videos
    {
      if !Truthy(form.title) {
        return Err(ApiError(400, "title is required"));
      }
      if !Truthy(form.videoFilePath) || !Truthy(form.thumbnailPath) {
        return Err(ApiError(400, "required files missing"));
      }
      var file := Media.UploadOnCloudinary(form.videoFilePath, remote);
      if file.Err? {
        return Err(file.failure);
      }
      var thumb := Media.UploadOnCloudinary(form.thumbnailPath, remote);
      if thumb.Err? {
        return Err(thumb.failure);
      }
      if file.value.None? || thumb.value.None? {
        return Err(UploadFailed);
      }
      var v := Video(freshId, viewer, form.title.value, form.description, file.value.value.secureUrl,
                     thumb.value.value.secureUrl, file.value.value.duration, 0, true, now);
      videos := videos[freshId := v];
      result := Ok(v);
    }

    /** updateVideo: `findByIdAndUpdate` with `$set` of the truthy fields. */
    method UpdateVideo(videoId: Option<string>, viewer: UserId, title: Option<string>, description: Option<string>)
      returns (result: Result<Video>)
      requires Valid()
      modifies this
      ensures Valid()
      ensures var s := Update(old(videos), videoId, viewer, title, description);
        result == s.result && videos == s.videos
      ensures result.Ok? ==> result.value.id == ObjectIdKey(videoId.value)
    {
      var found := Locate(videos, videoId, "invalid update request", "no such video exists, unable to update");
      if found.Err? {
        return Err(found.failure);
      }
      var v := found.value;
      if v.owner != viewer {
        return Err(ApiError(400, "user unauthorized to edit video details"));
      }
      if Truthy(title) { v := v.(title := title.value); }
      if Truthy(description) { v := v.(description := description); }
      videos := videos[ObjectIdKey(videoId.value) := v];
      result := Ok(v);
    }

    /** deleteVideo: `findByIdAndDelete` of the owner's video. */
    method DeleteVideo(videoId: Option<string>, viewer: UserId) returns (result: Result<()>)
      requires Valid()
      modifies this
      ensures Valid()
      ensures var s := Delete(old(videos), videoId, viewer);
        result == s.result && videos == s.videos
    {
      var found := Locate(videos, videoId, "no video provided to delete", "no such video exists, delete not possible");
      if found.Err? {
        return Err(found.failure);
      }
      if viewer != found.value.owner {
        return Err(ApiError(403, "user unauthorized to delete this video"));
      }
      videos := videos - {ObjectIdKey(videoId.value)};
      result := Ok(());
    }

    /** togglePublishStatus: the flag is read, then written negated. */
    method TogglePublishStatus(videoId: Option<string>, viewer: UserId) returns (result: Result<Video>)
      requires Valid()
      modifies this
      ensures Valid()
      ensures var s := Toggle(old(videos), videoId, viewer);
        result == s.result && videos == s.videos
      ensures result.Ok? ==> result.value.id == ObjectIdKey(videoId.value)
    {
      var found := Locate(videos, videoId, "bad request to toggle publish status", "video not found, unable to toggle publish status");
      if found.Err? {
        return Err(found.failure);
      }
      if found.value.owner != viewer {
        return Err(ApiError(403, "user unauthorized, unable to toggle publish status"));
      }
      var currStatus := found.value.isPublished;
      var updated := found.value.(isPublished := !currStatus);
      videos := videos[ObjectIdKey(videoId.value) := updated];
      result := Ok(updated);
    }
  }
}
