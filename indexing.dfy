/** The write path: keeping the search index in step with moderation
    decisions. `SearchIndex` holds the index rows by video id and the log of
    writes issued to the repository; `IndexVideo`, `RemoveVideo` and
    `HandleModerationEvent` change it in place. Each method is specified by a
    function (`IndexVideoEffect`, `RemoveVideoEffect`, `HandleEffect`) from
    the old rows to the outcome, the new rows and the writes issued, and the
    lemmas below state what the service promises in terms of those
    functions. */
module Indexing {
  import opened Domain
  import opened Events

  /** What `indexVideo` or `removeVideo` may throw. */
  datatype Failure =
    | VideoService(error: VideoServiceException)
    | Persistence(message: string)

  /** A call to one of the repository's write operations. */
  datatype Write = SaveCall(record: SearchVideo) | DeleteCall(id: Id)

  /** The observable effect of one service call. */
  datatype Effect = Effect(outcome: Outcome<Failure>, records: map<Id, SearchVideo>, writes: seq<Write>)

  /** The only status that is indexed. */
  const ApprovedStatus: string := "APPROVED"

  /** Saving an entity whose id is null: the id is not store-generated. */
  const UnassignedIdMessage: string := "ids for this class must be manually assigned before calling save()"

  /** Flushing a loaded entity whose id was changed: the persistence
      provider refuses to move a row to another key. */
  const AlteredIdMessage: string := "identifier of an instance of SearchVideo was altered"

  /** Every row is stored under its own id and carries an index time. */
  ghost predicate KeyedById(records: map<Id, SearchVideo>) {
    forall k :: k in records ==> records[k].id == Some(k) && records[k].indexedAt.Some?
  }

  /** The position of the first location flagged primary. */
  function FirstPrimaryIndex(locs: seq<VideoLocationDetail>): (r: Option<nat>)
    ensures r.Some? ==> r.value < |locs| && locs[r.value].isPrimary
    ensures r.Some? ==> forall j :: 0 <= j < r.value ==> !locs[j].isPrimary
    ensures r.None? ==> forall j :: 0 <= j < |locs| ==> !locs[j].isPrimary
  {
    if |locs| == 0 then None
    else if locs[0].isPrimary then Some(0)
    else match FirstPrimaryIndex(locs[1..])
      case None => None
      case Some(i) => Some(i + 1)
  }

  /** The location the mapper applies: that of the first entry flagged
      primary, when that entry's location is non-null. */
  function ChosenLocation(video: VideoDetail): (loc: Option<LocationSummary>)
    ensures video.locations.None? ==> loc.None?
    ensures video.locations.Some? && (forall j :: 0 <= j < |video.locations.value| ==> !video.locations.value[j].isPrimary)
      ==> loc.None?
    ensures loc.Some? ==> video.locations.Some?
    ensures loc.Some? ==>
      var locs := video.locations.value;
      exists i :: 0 <= i < |locs| && locs[i].isPrimary && locs[i].location == loc
        && forall j :: 0 <= j < i ==> !locs[j].isPrimary
  {
    if video.locations.None? then None
    else match FirstPrimaryIndex(video.locations.value)
      case None => None
      case Some(i) => video.locations.value[i].location
  }

  /** The six primary-location columns agree. */
  predicate SamePrimaryLocation(a: SearchVideo, b: SearchVideo) {
    && a.primaryLocationId == b.primaryLocationId
    && a.primaryLocationName == b.primaryLocationName
    && a.primaryLocationCity == b.primaryLocationCity
    && a.primaryLocationState == b.primaryLocationState
    && a.primaryLocationLat == b.primaryLocationLat
    && a.primaryLocationLng == b.primaryLocationLng
  }

  function ListToArray(xs: Option<seq<string>>): seq<string> {
    if xs.Some? then xs.value else []
  }

  /** Set the primary-location columns from `loc`; the coordinates only
      when `loc` has them. No other column changes. */
  function ApplyLocation(v: SearchVideo, loc: LocationSummary): (r: SearchVideo)
    ensures r.primaryLocationId == loc.id && r.primaryLocationName == loc.displayName
    ensures r.primaryLocationCity == loc.city && r.primaryLocationState == loc.state
    ensures loc.coordinates.None? ==> r.primaryLocationLat == v.primaryLocationLat && r.primaryLocationLng == v.primaryLocationLng
    ensures loc.coordinates.Some? ==>
      r.primaryLocationLat == Some(loc.coordinates.value.latitude) && r.primaryLocationLng == Some(loc.coordinates.value.longitude)
    ensures r.(primaryLocationId := v.primaryLocationId, primaryLocationName := v.primaryLocationName,
               primaryLocationCity := v.primaryLocationCity, primaryLocationState := v.primaryLocationState,
               primaryLocationLat := v.primaryLocationLat, primaryLocationLng := v.primaryLocationLng) == v
  {
    var w := v.(primaryLocationId := loc.id, primaryLocationName := loc.displayName,
                primaryLocationCity := loc.city, primaryLocationState := loc.state);
    match loc.coordinates
    case Some(c) => w.(primaryLocationLat := Some(c.latitude), primaryLocationLng := Some(c.longitude))
    case None => w
  }

  /** `mapVideoToSearchVideo`: overwrite the entity `v` from the detail. The
      scalar columns and the id are copied, the index time is `now`, null
      lists become empty arrays, and the primary-location columns are only
      written, from the chosen location (coordinates only when present),
      never cleared. */
  function MapVideo(video: VideoDetail, v: SearchVideo, now: Instant): (r: SearchVideo)
    ensures r.id == video.id && r.youtubeId == video.youtubeId && r.title == video.title
    ensures r.description == video.description && r.thumbnailUrl == video.thumbnailUrl
    ensures r.durationSeconds == video.durationSeconds && r.videoDate == video.videoDate
    ensures r.channelId == video.channelId && r.channelName == video.channelName
    ensures r.indexedAt == Some(now)
    ensures r.amendments.Some? && r.participants.Some?
    ensures video.amendments.None? ==> r.amendments.value == []
    ensures video.amendments.Some? ==> r.amendments.value == video.amendments.value
    ensures video.participants.None? ==> r.participants.value == []
    ensures video.participants.Some? ==> r.participants.value == video.participants.value
    ensures ChosenLocation(video).None? ==> SamePrimaryLocation(r, v)
    ensures ChosenLocation(video).Some? ==>
      var loc := ChosenLocation(video).value;
      && r.primaryLocationId == loc.id && r.primaryLocationName == loc.displayName
      && r.primaryLocationCity == loc.city && r.primaryLocationState == loc.state
      && (loc.coordinates.Some? ==>
            r.primaryLocationLat == Some(loc.coordinates.value.latitude)
            && r.primaryLocationLng == Some(loc.coordinates.value.longitude))
      && (loc.coordinates.None? ==>
            r.primaryLocationLat == v.primaryLocationLat && r.primaryLocationLng == v.primaryLocationLng)
  {
    var w := v.(id := video.id, youtubeId := video.youtubeId, title := video.title,
                description := video.description, thumbnailUrl := video.thumbnailUrl,
                durationSeconds := video.durationSeconds, channelId := video.channelId,
                channelName := video.channelName, videoDate := video.videoDate,
                amendments := Some(ListToArray(video.amendments)),
                participants := Some(ListToArray(video.participants)),
                indexedAt := Some(now));
    match ChosenLocation(video)
    case Some(loc) => ApplyLocation(w, loc)
    case None => w
  }

  /** `indexVideo`, as the change it makes to the rows. A not-found fetch is
      skipped silently; any other fetch failure propagates; a detail whose
      status is not exactly "APPROVED" is skipped; otherwise the row under
      `videoId` (or a new entity) is overwritten from the detail and saved
      under the detail's id. A loaded row whose id the detail changes is
      refused when the transaction flushes. `storeFault` is the error every
      repository call throws, when the repository is failing; a failure
      rolls the transaction back. */
  function IndexVideoEffect(records: map<Id, SearchVideo>, videoId: Id, fetch: FetchOutcome,
                            storeFault: Option<string>, now: Instant): (e: Effect)
    ensures KeyedById(records) ==> KeyedById(e.records)
    ensures e.outcome.Fail? ==> e.records == records
    ensures forall w :: w in e.writes ==> w.SaveCall?
  {
    match fetch
    case NotFound => Effect(Pass, records, [])
    case ServiceError(err) => Effect(Fail(VideoService(err)), records, [])
    case Found(video) =>
      if video.status != Some(ApprovedStatus) then Effect(Pass, records, [])
      else if storeFault.Some? then Effect(Fail(Persistence(storeFault.value)), records, [])
      else
        var existing := if videoId in records then records[videoId] else NewSearchVideo;
        var mapped := MapVideo(video, existing, now);
        if videoId in records && mapped.id != Some(videoId) then
          Effect(Fail(Persistence(AlteredIdMessage)), records, [SaveCall(mapped)])
        else if mapped.id.None? then Effect(Fail(Persistence(UnassignedIdMessage)), records, [SaveCall(mapped)])
        else Effect(Pass, records[mapped.id.value := mapped], [SaveCall(mapped)])
  }

  /** `removeVideo`: delete the row if it exists; deleting a missing row is
      a no-op that issues no delete. */
  function RemoveVideoEffect(records: map<Id, SearchVideo>, videoId: Id, storeFault: Option<string>): (e: Effect)
    ensures KeyedById(records) ==> KeyedById(e.records)
    ensures e.outcome.Pass? ==> videoId !in e.records
    ensures e.outcome.Fail? ==> e.records == records
    ensures forall k :: k in records && k != videoId ==> k in e.records && e.records[k] == records[k]
    ensures forall w :: w in e.writes ==> w == DeleteCall(videoId)
  {
    if storeFault.Some? then Effect(Fail(Persistence(storeFault.value)), records, [])
    else if videoId in records then Effect(Pass, records - {videoId}, [DeleteCall(videoId)])
    else Effect(Pass, records, [])
  }

  /** `handleModerationEvent`: route on the event's kind and rethrow
      whatever the indexing service throws, unchanged. */
  function HandleEffect(records: map<Id, SearchVideo>, event: ModerationEvent, fetch: FetchOutcome,
                        storeFault: Option<string>, now: Instant): (e: Effect)
    ensures KeyedById(records) ==> KeyedById(e.records)
    ensures e.outcome.Fail? ==> e.records == records
    ensures event.VideoRejected? ==> event.videoId !in e.records || e.outcome.Fail?
  {
    match event
    case VideoApproved(videoId, _, _) => IndexVideoEffect(records, videoId, fetch, storeFault, now)
    case VideoRejected(videoId, _, _, _) => RemoveVideoEffect(records, videoId, storeFault)
  }

  class SearchIndex {
    /** The rows of `search.search_videos`, by id. */
    var records: map<Id, SearchVideo>
    /** Every call issued to `save` and `deleteById`, oldest first. */
    var writes: seq<Write>

    ghost predicate Valid()
      reads this
    {
      KeyedById(records)
    }

    constructor ()
      ensures Valid() && records == map[] && writes == []
    {
      records := map[];
      writes := [];
    }

    /** `save`: persist the entity under its id. An entity without an id is
        rejected, since ids are assigned by the caller. */
    method Save(v: SearchVideo) returns (outcome: Outcome<Failure>)
      modifies this
      ensures writes == old(writes) + [SaveCall(v)]
      ensures v.id.None? ==> outcome == Fail(Persistence(UnassignedIdMessage)) && records == old(records)
      ensures v.id.Some? ==> outcome == Pass && records == old(records)[v.id.value := v]
    {
      writes := writes + [SaveCall(v)];
      if v.id.None? {
        return Fail(Persistence(UnassignedIdMessage));
      }
      records := records[v.id.value := v];
      return Pass;
    }

    /** `deleteById`. */
    method DeleteById(id: Id)
      modifies this
      ensures writes == old(writes) + [DeleteCall(id)]
      ensures records == old(records) - {id}
    {
      writes := writes + [DeleteCall(id)];
      records := records - {id};
    }

    method IndexVideo(videoId: Id, fetch: FetchOutcome, storeFault: Option<string>, now: Instant)
      returns (outcome: Outcome<Failure>)
      requires Valid()
      modifies this
      ensures Valid()
      ensures var e := IndexVideoEffect(old(records), videoId, fetch, storeFault, now);
        outcome == e.outcome && records == e.records && writes == old(writes) + e.writes
    {
      var video: VideoDetail;
      match fetch {
        case NotFound =>
          return Pass;
        case ServiceError(err) =>
          return Fail(VideoService(err));
        case Found(detail) =>
          video := detail;
      }
      if video.status != Some(ApprovedStatus) {
        return Pass;
      }
      if storeFault.Some? {
        return Fail(Persistence(storeFault.value));
      }
      var managed := videoId in records;
      var searchVideo := if managed then records[videoId] else NewSearchVideo;
      searchVideo := MapVideo(video, searchVideo, now);
      if managed && searchVideo.id != Some(videoId) {
        // the save is issued, and the flush at commit refuses the new id
        writes := writes + [SaveCall(searchVideo)];
        return Fail(Persistence(AlteredIdMessage));
      }
      outcome := Save(searchVideo);
    }

    method RemoveVideo(videoId: Id, storeFault: Option<string>) returns (outcome: Outcome<Failure>)
      requires Valid()
      modifies this
      ensures Valid()
      ensures var e := RemoveVideoEffect(old(records), videoId, storeFault);
        outcome == e.outcome && records == e.records && writes == old(writes) + e.writes
    {
      if storeFault.Some? {
        return Fail(Persistence(storeFault.value));
      }
      if videoId in records {
        DeleteById(videoId);
      }
      return Pass;
    }

    method HandleModerationEvent(event: ModerationEvent, fetch: FetchOutcome,
                                 storeFault: Option<string>, now: Instant)
      returns (outcome: Outcome<Failure>)
      requires Valid()
      modifies this
      ensures Valid()
      ensures var e := HandleEffect(old(records), event, fetch, storeFault, now);
        outcome == e.outcome && records == e.records && writes == old(writes) + e.writes
    {
      match event {
        case VideoApproved(videoId, _, _) =>
          outcome := IndexVideo(videoId, fetch, storeFault, now);
        case VideoRejected(videoId, _, _, _) =>
          outcome := RemoveVideo(videoId, storeFault);
      }
    }
  }

  // ---------------------------------------------------------------------
  // Properties of the write path

  /** The first primary location wins when it carries location data. */
  lemma FirstPrimaryWins(video: VideoDetail, i: nat)
    requires video.locations.Some? && i < |video.locations.value|
    requires video.locations.value[i].isPrimary
    requires forall j :: 0 <= j < i ==> !video.locations.value[j].isPrimary
    ensures ChosenLocation(video) == video.locations.value[i].location
  {
    var k := FirstPrimaryIndex(video.locations.value);
    assert k.Some?;
  }

  /** With no entry flagged primary nothing is chosen. */
  lemma NoPrimaryNoLocation(video: VideoDetail)
    requires video.locations.Some? ==> forall j :: 0 <= j < |video.locations.value| ==> !video.locations.value[j].isPrimary
    ensures ChosenLocation(video).None?
  {
  }

  /** Overwriting twice from the same detail at the same time is the same
      as overwriting once. */
  lemma MapVideoIdempotent(video: VideoDetail, v: SearchVideo, now: Instant)
    ensures MapVideo(video, MapVideo(video, v, now), now) == MapVideo(video, v, now)
  {
  }

  lemma IndexNotFoundSkips(records: map<Id, SearchVideo>, videoId: Id, storeFault: Option<string>, now: Instant)
    ensures IndexVideoEffect(records, videoId, NotFound, storeFault, now) == Effect(Pass, records, [])
  {
  }

  lemma IndexServiceErrorPropagates(records: map<Id, SearchVideo>, videoId: Id, err: VideoServiceException,
                                    storeFault: Option<string>, now: Instant)
    ensures var e := IndexVideoEffect(records, videoId, ServiceError(err), storeFault, now);
      && e.outcome.Fail? && e.outcome.error == VideoService(err)
      && e.outcome.error.error.retryable == err.retryable
      && e.records == records && e.writes == []
  {
  }

  lemma IndexUnapprovedSkips(records: map<Id, SearchVideo>, videoId: Id, video: VideoDetail,
                             storeFault: Option<string>, now: Instant)
    requires video.status != Some(ApprovedStatus)
    ensures IndexVideoEffect(records, videoId, Found(video), storeFault, now) == Effect(Pass, records, [])
  {
  }

  /** An approved detail with an id is upserted: the row under `videoId` is
      reused when present, the result is saved once under the detail's id,
      and every other row is untouched. The one exception is a loaded row
      whose id the detail changes: the save is issued, refused at flush,
      and nothing changes. */
  lemma IndexApprovedUpserts(records: map<Id, SearchVideo>, videoId: Id, video: VideoDetail, now: Instant)
    requires video.status == Some(ApprovedStatus) && video.id.Some?
    ensures var e := IndexVideoEffect(records, videoId, Found(video), None, now);
      var prior := if videoId in records then records[videoId] else NewSearchVideo;
      var saved := MapVideo(video, prior, now);
      videoId in records && video.id.value != videoId ==>
        && e.outcome == Fail(Persistence(AlteredIdMessage))
        && e.records == records
        && e.writes == [SaveCall(saved)]
    ensures var e := IndexVideoEffect(records, videoId, Found(video), None, now);
      var prior := if videoId in records then records[videoId] else NewSearchVideo;
      var saved := MapVideo(video, prior, now);
      videoId !in records || video.id.value == videoId ==>
      && e.outcome == Pass
      && e.writes == [SaveCall(saved)]
      && video.id.value in e.records && e.records[video.id.value] == saved
      && e.records.Keys == records.Keys + {video.id.value}
      && (forall k :: k in records && k != video.id.value ==> e.records[k] == records[k])
  {
  }

  /** Re-running an approval against the same upstream state and clock
      leaves the same rows. */
  lemma IndexVideoIdempotent(records: map<Id, SearchVideo>, videoId: Id, fetch: FetchOutcome, now: Instant)
    ensures var e1 := IndexVideoEffect(records, videoId, fetch, None, now);
      var e2 := IndexVideoEffect(e1.records, videoId, fetch, None, now);
      e2.outcome == e1.outcome && e2.records == e1.records
  {
    if fetch.Found? && fetch.detail.status == Some(ApprovedStatus) && fetch.detail.id == Some(videoId) {
      var prior := if videoId in records then records[videoId] else NewSearchVideo;
      MapVideoIdempotent(fetch.detail, prior, now);
    }
  }

  /** A re-approval whose detail no longer names a usable primary location
      keeps the row's previous primary-location columns. */
  lemma ReindexKeepsPreviousLocation(records: map<Id, SearchVideo>, videoId: Id, video: VideoDetail, now: Instant)
    requires videoId in records && video.id == Some(videoId)
    requires video.status == Some(ApprovedStatus)
    requires ChosenLocation(video).None?
    ensures var e := IndexVideoEffect(records, videoId, Found(video), None, now);
      videoId in e.records && SamePrimaryLocation(e.records[videoId], records[videoId])
  {
  }

  /** After a removal the id is absent, and a delete is issued exactly when
      a row existed. */
  lemma RemoveVideoDeletes(records: map<Id, SearchVideo>, videoId: Id)
    ensures var e := RemoveVideoEffect(records, videoId, None);
      && e.outcome == Pass
      && e.records == records - {videoId}
      && e.writes == (if videoId in records then [DeleteCall(videoId)] else [])
  {
  }

  /** Removing twice is removing once, and the second call issues nothing. */
  lemma RemoveVideoIdempotent(records: map<Id, SearchVideo>, videoId: Id)
    ensures var e1 := RemoveVideoEffect(records, videoId, None);
      var e2 := RemoveVideoEffect(e1.records, videoId, None);
      e2.records == e1.records && e2.outcome == Pass && e2.writes == []
  {
  }

  /** An approval is routed to `indexVideo` alone: its outcome, failures
      included, is that of indexing, and it never deletes. */
  lemma ApprovalRoutesToIndex(records: map<Id, SearchVideo>, event: ModerationEvent, fetch: FetchOutcome,
                              storeFault: Option<string>, now: Instant)
    requires event.VideoApproved?
    ensures var e := HandleEffect(records, event, fetch, storeFault, now);
      && e == IndexVideoEffect(records, event.videoId, fetch, storeFault, now)
      && forall w :: w in e.writes ==> !w.DeleteCall?
  {
  }

  /** A rejection is routed to `removeVideo` alone: its outcome, failures
      included, is that of removal, it never saves and it does not depend on
      the upstream detail. */
  lemma RejectionRoutesToRemove(records: map<Id, SearchVideo>, event: ModerationEvent, fetch: FetchOutcome,
                                storeFault: Option<string>, now: Instant)
    requires event.VideoRejected?
    ensures var e := HandleEffect(records, event, fetch, storeFault, now);
      && e == RemoveVideoEffect(records, event.videoId, storeFault)
      && forall w :: w in e.writes ==> !w.SaveCall?
  {
  }

  /** The last successful decision for a video decides whether it is
      indexed: a rejection leaves no row, an approval whose detail is
      approved and names the same video leaves one. */
  lemma DecisionDecidesPresence(records: map<Id, SearchVideo>, event: ModerationEvent, fetch: FetchOutcome, now: Instant)
    ensures var e := HandleEffect(records, event, fetch, None, now);
      && (event.VideoRejected? ==> event.videoId !in e.records)
      && ((event.VideoApproved? && fetch.Found? && fetch.detail.status == Some(ApprovedStatus)
           && fetch.detail.id == Some(event.videoId)) ==> event.videoId in e.records)
  {
  }
}
