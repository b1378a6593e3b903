/** Moderation events: a closed union of two kinds, told apart on the wire
    by the `eventType` property. */
module Events {
  import opened Domain

  datatype ModerationEvent =
    | VideoApproved(videoId: Id, reviewerId: Id, timestamp: Instant)
    | VideoRejected(videoId: Id, reviewerId: Id, reason: Option<string>, timestamp: Instant)

  const ApprovedTag: string := "VIDEO_APPROVED"
  const RejectedTag: string := "VIDEO_REJECTED"

  /** The message as it arrives: the type tag plus every property either
      kind may carry. */
  datatype RawEvent =
    RawEvent(eventType: string, videoId: Id, reviewerId: Id, reason: Option<string>, timestamp: Instant)

  /** Polymorphic deserialisation by type name. A tag naming neither
      subtype is a deserialisation failure (None); an approval ignores any
      `reason` property. */
  function Decode(raw: RawEvent): (e: Option<ModerationEvent>)
    ensures e.Some? <==> raw.eventType == ApprovedTag || raw.eventType == RejectedTag
    ensures e.Some? ==> e.value.videoId == raw.videoId && e.value.reviewerId == raw.reviewerId
    ensures e.Some? ==> (e.value.VideoApproved? <==> raw.eventType == ApprovedTag)
  {
    if raw.eventType == ApprovedTag then
      Some(VideoApproved(raw.videoId, raw.reviewerId, raw.timestamp))
    else if raw.eventType == RejectedTag then
      Some(VideoRejected(raw.videoId, raw.reviewerId, raw.reason, raw.timestamp))
    else None
  }

  /** Serialisation with the subtype's type name as `eventType`. */
  function Encode(e: ModerationEvent): (raw: RawEvent)
    ensures raw.eventType == (if e.VideoApproved? then ApprovedTag else RejectedTag)
    ensures raw.videoId == e.videoId
  {
    match e
    case VideoApproved(v, r, t) => RawEvent(ApprovedTag, v, r, None, t)
    case VideoRejected(v, r, reason, t) => RawEvent(RejectedTag, v, r, reason, t)
  }

  /** Every event survives a trip over the wire unchanged. */
  lemma DecodeEncode(e: ModerationEvent)
    ensures Decode(Encode(e)) == Some(e)
  {
  }
}
