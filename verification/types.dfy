/** Data shared by both revisions of the sync script: the shape of a
    provider activity as the scripts read it from the activity feed, and
    the optional values the scripts signal with Python's `None`. */
module Types {

  /** A value that may be absent (Python's `None`). */
  datatype Option<+T> = None | Some(value: T)

  /** The `activity_type` strings the scripts recognise as carrying media. */
  const PhotoActivity: string := "photo_activity"
  const VideoActivity: string := "video_activity"

  predicate IsMediaType(activityType: string) {
    activityType == PhotoActivity || activityType == VideoActivity
  }

  /** A URL held already split into the components `urlparse` yields;
      only `path` is ever inspected by the scripts. */
  datatype Url = Url(scheme: string, netloc: string, path: string, query: string)

  /** The `activiable` sub-record of an activity: a JSON `null` (or, for the
      caption, a missing key) reads as `None`. */
  datatype Activiable = Activiable(
    mainUrl: Option<Url>,
    videoFileUrl: Option<Url>,
    caption: Option<string>)

  /** One entry of the feed's `daily_activities` list. */
  datatype Activity = Activity(
    id: string,
    activityType: string,
    activityTime: string,
    activiable: Activiable)
}
