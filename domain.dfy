/** Entities and value records shared by the write path (indexing) and the
    read path (search): the denormalised SearchVideo row, the upstream
    VideoDetail it is built from, and the outcome of fetching a detail. */
module Domain {

  /** Java's nullable references: `None` is `null`. */
  datatype Option<+T> = None | Some(value: T)

  /** The result of a `void` Java method: it returns normally or throws. */
  datatype Outcome<+E> = Pass | Fail(error: E)

  /** A UUID. */
  type Id = nat

  /** A point in time (an `Instant`), as a count of milliseconds. */
  type Instant = int

  /** A calendar date (a `LocalDate`), as a count of days. */
  type Date = int

  /** One row of `search.search_videos`. Every field the Java entity leaves
      nullable is an Option; a freshly constructed entity has all of them
      null. The derived full-text vector is not settable and is left to the
      store (see Repository.FullText). */
  datatype SearchVideo = SearchVideo(
    id: Option<Id>,
    youtubeId: Option<string>,
    title: Option<string>,
    description: Option<string>,
    thumbnailUrl: Option<string>,
    durationSeconds: Option<int>,
    channelId: Option<string>,
    channelName: Option<string>,
    videoDate: Option<Date>,
    amendments: Option<seq<string>>,
    participants: Option<seq<string>>,
    primaryLocationId: Option<Id>,
    primaryLocationName: Option<string>,
    primaryLocationCity: Option<string>,
    primaryLocationState: Option<string>,
    primaryLocationLat: Option<real>,
    primaryLocationLng: Option<real>,
    indexedAt: Option<Instant>)

  /** `new SearchVideo()`: the no-argument constructor leaves every field null. */
  const NewSearchVideo: SearchVideo :=
    SearchVideo(None, None, None, None, None, None, None, None, None,
                None, None, None, None, None, None, None, None, None)

  /** Upstream coordinates are primitive doubles, so never null once the
      enclosing record is present. */
  datatype Coordinates = Coordinates(latitude: real, longitude: real)

  datatype LocationSummary = LocationSummary(
    id: Option<Id>,
    displayName: Option<string>,
    city: Option<string>,
    state: Option<string>,
    coordinates: Option<Coordinates>)

  datatype VideoLocationDetail = VideoLocationDetail(
    id: Option<Id>,
    locationId: Option<Id>,
    isPrimary: bool,
    location: Option<LocationSummary>)

  /** The authoritative upstream representation of a video. */
  datatype VideoDetail = VideoDetail(
    id: Option<Id>,
    youtubeId: Option<string>,
    title: Option<string>,
    description: Option<string>,
    thumbnailUrl: Option<string>,
    durationSeconds: Option<int>,
    channelId: Option<string>,
    channelName: Option<string>,
    videoDate: Option<Date>,
    amendments: Option<seq<string>>,
    participants: Option<seq<string>>,
    status: Option<string>,
    createdAt: Option<Instant>,
    locations: Option<seq<VideoLocationDetail>>)

  /** The exception the video-service client throws when the service is
      unavailable or answers with an unexpected error. */
  datatype VideoServiceException =
    VideoServiceException(videoId: Id, message: string, retryable: bool)

  /** What fetching one video's detail produced: the detail, a not-found
      signal (`VideoNotFoundException`), or a `VideoServiceException`. */
  datatype FetchOutcome =
    | Found(detail: VideoDetail)
    | NotFound
    | ServiceError(error: VideoServiceException)
}
