# Search service: a Dafny model

This project models the core of the AccountabilityAtlas search service.
The service keeps a denormalised search index of approved videos and answers filtered, ranked and paged searches over it.

- **Write path.** A moderation event (`VIDEO_APPROVED` or `VIDEO_REJECTED`) is routed to the indexing service.
  - On approval, the service fetches the video's detail. It then skips, propagates the fetch failure, or upserts one `SearchVideo` row built from the detail.
  - On rejection, it deletes the row.
  - `Indexing.SearchIndex` is a class holding the rows as `map<Id, SearchVideo>` plus the log of repository writes. Its methods change them in place. Each method is specified by a function from the old rows to the outcome, the new rows and the writes (`IndexVideoEffect`, `RemoveVideoEffect`, `HandleEffect`).
- **Read path.**
  - `SearchController` caps the page size, builds the page request and parses the bounding box.
  - `SearchService` normalises the text query and whitelists the amendment and participant filters into PostgreSQL array literals. The whitelist is the injection defence.
  - The repository's native query filters, orders, counts and pages the rows. It is modelled as functions over `seq<SearchVideo>`.

Files:

- `domain.dfy`: the row, the upstream detail, the fetch outcome.
- `java_text.dfy`: the exact Java string operations used: `isBlank`, `trim`, `split(",")`, `String.join`.
- `events.dfy`: the two-kind moderation event and its type tag.
- `indexing.dfy`: the indexing service and the event handler.
- `repository.dfy`: the native query.
- `search_service.dfy`: the service.
- `search_controller.dfy`: the endpoint.

Parameters stand in for things outside the model:

- the fetch outcome (`FetchOutcome`) for the video-service client;
- `now` and `queryTimeMs` for the clock;
- `storeFault` for a failing database;
- `FullText` for PostgreSQL's `@@` and `ts_rank_cd`;
- `parseNumber` for `Double.parseDouble`;
- `Vocabulary` for the `Amendment` and `Participant` enums, which are not part of this model.

Where the code and the service's design description disagree, the model follows the code:

- **Primary location.** The first location flagged primary in list order is used, not an arbitrary one. If that entry's location is null, no later primary is tried. Coordinates are copied whenever the coordinates record is present: its latitude and longitude are primitives.
- **Stale location.** A re-index whose detail names no usable primary location keeps the row's previous primary-location columns instead of clearing them (`ReindexKeepsPreviousLocation`).
- **Query normalisation.** The query is checked with `isBlank` (Java whitespace) but cut with `trim` (characters up to U+0020). So a non-blank query can normalise to `""`: a lone NUL does. The query's `:query = ''` guard then treats it like no query (`NormalizedQueryRestrictsIff`, `EmptyQueryIsNoQuery`). Conversely, a query can keep an ideographic space (U+3000) at its ends.
- **Bad paging input.** A negative page, or a size below one, makes `PageRequest.of` throw. The request then fails as a server error, not a client error.
- **Changed id.** When a row exists under the requested video id but the fetched detail carries another id, the loaded entity's id is changed before `save`. The persistence provider refuses that at flush, so the call fails and nothing changes (`IndexApprovedUpserts`).
- **Duplicate tags.** A row whose tag array holds a duplicate makes `Set.of` throw while the response is mapped.

## Model

| member | source | states |
|---|---|---|
| JavaText.Trim | src/main/java/com/accountabilityatlas/searchservice/service/SearchService.java:44 | the result is the slice starting at the first character above U+0020; everything cut off is at or below U+0020, and the result's ends are above it |
| JavaText.TrimEmptyIff | src/main/java/com/accountabilityatlas/searchservice/service/SearchService.java:44 | trimming leaves nothing exactly when every character is at or below U+0020 |
| JavaText.LeadingTrimmable | src/main/java/com/accountabilityatlas/searchservice/service/SearchService.java:44 | the longest prefix of characters at or below U+0020 |
| JavaText.TrailingTrimmable | src/main/java/com/accountabilityatlas/searchservice/service/SearchService.java:44 | the longest suffix of characters at or below U+0020 |
| JavaText.SplitAll | src/main/java/com/accountabilityatlas/searchservice/web/SearchController.java:47 | at least one piece, no piece contains the separator, and joining the pieces gives back the string |
| JavaText.SplitJoin | src/main/java/com/accountabilityatlas/searchservice/service/SearchService.java:82 | splitting a join of separator-free pieces gives back exactly those pieces |
| JavaText.SplitWithoutSeparator | src/main/java/com/accountabilityatlas/searchservice/web/SearchController.java:47 | a string without the separator splits to itself alone |
| JavaText.DropTrailingEmpty | src/main/java/com/accountabilityatlas/searchservice/web/SearchController.java:47 | a prefix of the pieces that does not end in an empty piece; only empty pieces are dropped |
| JavaText.JavaSplit | src/main/java/com/accountabilityatlas/searchservice/web/SearchController.java:47 | no separator gives the string alone; otherwise the leading pieces of the full split, dropping only trailing empty pieces; no piece holds the separator |
| JavaText.Join | src/main/java/com/accountabilityatlas/searchservice/service/SearchService.java:82 | String.join; its meaning is stated by JoinShape and SplitJoin |
| JavaText.JoinShape | src/main/java/com/accountabilityatlas/searchservice/service/SearchService.java:82 | the first piece starts the join, the last ends it, and the separator occurs exactly once between neighbours |
| JavaText.IsWhitespace | src/main/java/com/accountabilityatlas/searchservice/service/SearchService.java:44 | Character.isWhitespace; its reach is stated by WhitespaceExamples |
| JavaText.IsBlank | src/main/java/com/accountabilityatlas/searchservice/service/SearchService.java:44 | String.isBlank: every character is whitespace; its effect is stated by NormalizeQuery and NormalizedQueryRestrictsIff |
| JavaText.WhitespaceExamples | src/main/java/com/accountabilityatlas/searchservice/service/SearchService.java:44 | space, tab, newline and U+3000 are whitespace; NUL, U+00A0 and letters are not; NUL is cut by trim and U+3000 is not |
| Events.Decode | src/main/java/com/accountabilityatlas/searchservice/event/ModerationEvent.java:12-17 | decoding succeeds exactly for the two type names; the kind follows the name, and the video and reviewer ids are kept |
| Events.Encode | src/main/java/com/accountabilityatlas/searchservice/event/ModerationEvent.java:12-17 | the type name is that of the event's kind, and the video id is kept |
| Events.DecodeEncode | src/main/java/com/accountabilityatlas/searchservice/event/ModerationEvent.java:12-17 | every event survives encoding and decoding unchanged |
| Indexing.FirstPrimaryIndex | src/main/java/com/accountabilityatlas/searchservice/service/IndexingService.java:88-90 | the index of the first location flagged primary, or none when no location is flagged |
| Indexing.ChosenLocation | src/main/java/com/accountabilityatlas/searchservice/service/IndexingService.java:87-93 | none for a null list or no primary entry; otherwise the location of the first entry flagged primary, which may be null |
| Indexing.ListToArray | src/main/java/com/accountabilityatlas/searchservice/service/IndexingService.java:80-83 | a null list becomes an empty array, another keeps its elements in order; stated through MapVideo |
| Indexing.ApplyLocation | src/main/java/com/accountabilityatlas/searchservice/service/IndexingService.java:94-101 | id, name, city and state set from the location; lat and lng set only when coordinates are present; no other column changes |
| Indexing.MapVideo | src/main/java/com/accountabilityatlas/searchservice/service/IndexingService.java:70-105 | scalars and id copied; index time set to now; null lists become empty arrays, other lists keep their elements in order; with no chosen location, all six location columns are unchanged; with one, id/name/city/state are set, and lat/lng are set when coordinates are present and kept otherwise |
| Indexing.IndexVideoEffect | src/main/java/com/accountabilityatlas/searchservice/service/IndexingService.java:30-58 | rows stay keyed by their own id; a failure leaves the rows unchanged; the only writes are saves; a loaded row whose id the detail changes is refused |
| Indexing.RemoveVideoEffect | src/main/java/com/accountabilityatlas/searchservice/service/IndexingService.java:60-68 | after success the id is absent; every other row is unchanged; a failure changes nothing; the only write is a delete of that id |
| Indexing.HandleEffect | src/main/java/com/accountabilityatlas/searchservice/event/ModerationEventHandlers.java:27-52 | rows stay keyed by id; a failure leaves the rows unchanged; after a successful rejection the video is absent |
| Indexing.SearchIndex.Save | src/main/java/com/accountabilityatlas/searchservice/service/IndexingService.java:55 | logs the save; stores the entity under its id, or fails without change when the id is null |
| Indexing.SearchIndex.DeleteById | src/main/java/com/accountabilityatlas/searchservice/service/IndexingService.java:63 | logs the delete and removes the id |
| Indexing.SearchIndex.IndexVideo | src/main/java/com/accountabilityatlas/searchservice/service/IndexingService.java:30-58 | outcome, new rows and appended writes are those of IndexVideoEffect on the old rows; rows stay keyed by id |
| Indexing.SearchIndex.RemoveVideo | src/main/java/com/accountabilityatlas/searchservice/service/IndexingService.java:60-68 | outcome, new rows and appended writes are those of RemoveVideoEffect on the old rows |
| Indexing.SearchIndex.HandleModerationEvent | src/main/java/com/accountabilityatlas/searchservice/event/ModerationEventHandlers.java:27-52 | outcome, new rows and appended writes are those of HandleEffect on the old rows |
| Indexing.FirstPrimaryWins | src/main/java/com/accountabilityatlas/searchservice/service/IndexingService.java:88-93 | the location applied is that of the first entry flagged primary, null or not |
| Indexing.NoPrimaryNoLocation | src/main/java/com/accountabilityatlas/searchservice/service/IndexingService.java:87-91 | with a null list or no entry flagged primary, no location is applied |
| Indexing.MapVideoIdempotent | src/main/java/com/accountabilityatlas/searchservice/service/IndexingService.java:70-105 | mapping twice from the same detail and time equals mapping once |
| Indexing.IndexNotFoundSkips | src/main/java/com/accountabilityatlas/searchservice/service/IndexingService.java:37-44 | a not-found fetch returns normally, writes nothing and leaves the rows unchanged |
| Indexing.IndexServiceErrorPropagates | src/main/java/com/accountabilityatlas/searchservice/service/IndexingService.java:45 | a service error is rethrown unchanged, retryable flag included, with no write and no change |
| Indexing.IndexUnapprovedSkips | src/main/java/com/accountabilityatlas/searchservice/service/IndexingService.java:47-50 | a status other than exactly "APPROVED", null included, skips with no write |
| Indexing.IndexApprovedUpserts | src/main/java/com/accountabilityatlas/searchservice/service/IndexingService.java:52-55 | the row under the video id is reused, or a new one made; exactly one save of the mapped row; the detail's id maps to it; all other rows are unchanged; except that a loaded row whose id the detail changes fails with the rows unchanged |
| Indexing.IndexVideoIdempotent | src/main/java/com/accountabilityatlas/searchservice/service/IndexingService.java:30-58 | indexing again with the same upstream state and clock gives the same outcome and rows |
| Indexing.ReindexKeepsPreviousLocation | src/main/java/com/accountabilityatlas/searchservice/service/IndexingService.java:86-104 | re-indexing without a usable primary location keeps the previous location columns |
| Indexing.RemoveVideoDeletes | src/main/java/com/accountabilityatlas/searchservice/service/IndexingService.java:60-68 | the rows lose exactly that id; a delete is issued exactly when the row existed |
| Indexing.RemoveVideoIdempotent | src/main/java/com/accountabilityatlas/searchservice/service/IndexingService.java:60-68 | a second removal changes nothing and issues no write |
| Indexing.ApprovalRoutesToIndex | src/main/java/com/accountabilityatlas/searchservice/event/ModerationEventHandlers.java:34-42 | an approval has exactly the effect of indexing its video, failures included, and never deletes |
| Indexing.RejectionRoutesToRemove | src/main/java/com/accountabilityatlas/searchservice/event/ModerationEventHandlers.java:44-52 | a rejection has exactly the effect of removing its video, failures included, and never saves |
| Indexing.DecisionDecidesPresence | src/main/java/com/accountabilityatlas/searchservice/event/ModerationEventHandlers.java:27-32 | after a rejection the video is absent; after an approval of an approved detail with the same id, it is present |
| Repository.Filter | src/main/java/com/accountabilityatlas/searchservice/repository/SearchVideoRepository.java:19-24 | keeps only matching rows, and each matching row exactly as often as the table holds it |
| Repository.ArrayElements | src/main/java/com/accountabilityatlas/searchservice/repository/SearchVideoRepository.java:20-21 | the cast array: no element holds a comma, none for "{}", and joined with commas they give back the text between the braces |
| Repository.TextClause | src/main/java/com/accountabilityatlas/searchservice/repository/SearchVideoRepository.java:19 | no query, an empty query, or a full-text match |
| Repository.AmendmentsClause | src/main/java/com/accountabilityatlas/searchservice/repository/SearchVideoRepository.java:20 | no filter, or the row's non-null array overlaps the cast array; stated by EmptyArrayNeverMatches and WhitelistedOverlapIff |
| Repository.ParticipantsClause | src/main/java/com/accountabilityatlas/searchservice/repository/SearchVideoRepository.java:21 | as AmendmentsClause, for participants |
| Repository.StateClause | src/main/java/com/accountabilityatlas/searchservice/repository/SearchVideoRepository.java:22 | no filter, or the row's non-null state equals it; stated by NullStateNeverMatches |
| Repository.BoxClause | src/main/java/com/accountabilityatlas/searchservice/repository/SearchVideoRepository.java:23-24 | no box, or both coordinates non-null and within the bounds inclusively; stated by MissingCoordinatesNeverMatch and BoxExample |
| Repository.Matches | src/main/java/com/accountabilityatlas/searchservice/repository/SearchVideoRepository.java:19-24 | the five clauses ANDed; stated by AddingFiltersNarrows and SearchFilterMeaning |
| Repository.CountMatches | src/main/java/com/accountabilityatlas/searchservice/repository/SearchVideoRepository.java:30-37 | at most the table size, and equal to it exactly when every row matches |
| Repository.CountIsFilterLength | src/main/java/com/accountabilityatlas/searchservice/repository/SearchVideoRepository.java:28-38 | the count query counts exactly the rows the content query keeps |
| Repository.RelevanceKey | src/main/java/com/accountabilityatlas/searchservice/repository/SearchVideoRepository.java:25 | the first sort key: 0 without a query, else the rank; stated by NoQueryOrdersByIndexTime and HigherRankFirst |
| Repository.IndexedAtFirst | src/main/java/com/accountabilityatlas/searchservice/repository/SearchVideoRepository.java:26 | indexed_at DESC with NULL first; stated by PrecedesTotal and PrecedesTransitive |
| Repository.Precedes | src/main/java/com/accountabilityatlas/searchservice/repository/SearchVideoRepository.java:25-26 | the ORDER BY relation; total and transitive by PrecedesTotal and PrecedesTransitive |
| Repository.Insert | src/main/java/com/accountabilityatlas/searchservice/repository/SearchVideoRepository.java:25-26 | inserting into an ordered list keeps it ordered and adds exactly the new row |
| Repository.Order | src/main/java/com/accountabilityatlas/searchservice/repository/SearchVideoRepository.java:25-26 | the result is ordered by relevance descending, then index time descending with nulls first, and is a permutation of the input |
| Repository.PrecedesTotal | src/main/java/com/accountabilityatlas/searchservice/repository/SearchVideoRepository.java:25-26 | any two rows are comparable under the ORDER BY |
| Repository.PrecedesTransitive | src/main/java/com/accountabilityatlas/searchservice/repository/SearchVideoRepository.java:25-26 | the ORDER BY relation is transitive |
| Repository.PageSlice | src/main/java/com/accountabilityatlas/searchservice/repository/SearchVideoRepository.java:40-49 | the rows from offset page·size, at most size of them, and none past the end |
| Repository.TotalPages | src/main/java/com/accountabilityatlas/searchservice/repository/SearchVideoRepository.java:40-49 | the least number of pages of the given size that hold all rows (ceil(total/size)) |
| Repository.OrderedSlice | src/main/java/com/accountabilityatlas/searchservice/repository/SearchVideoRepository.java:25-26 | a page cut from ordered rows is ordered |
| Repository.OrderedPage | src/main/java/com/accountabilityatlas/searchservice/repository/SearchVideoRepository.java:25-26 | a LIMIT/OFFSET page of ordered rows is ordered and holds only those rows |
| Repository.MatchingRows | src/main/java/com/accountabilityatlas/searchservice/repository/SearchVideoRepository.java:17-26 | a permutation of the rows the WHERE clause keeps, ordered by the ORDER BY, as many as the count query reports |
| Repository.SearchWithFilters | src/main/java/com/accountabilityatlas/searchservice/repository/SearchVideoRepository.java:14-49 | the content is the slice at offset page·size, at most size long, of the ordered matching rows; the total is the count query; totalPages is the ceiling of total over size; number and size echo the request |
| Repository.AddingFiltersNarrows | src/main/java/com/accountabilityatlas/searchservice/repository/SearchVideoRepository.java:19-24 | adding or keeping filters never admits a new row and never raises the count |
| Repository.EmptyArrayNeverMatches | src/main/java/com/accountabilityatlas/searchservice/repository/SearchVideoRepository.java:20 | an amendments filter never matches a row whose array is empty or null |
| Repository.NullStateNeverMatches | src/main/java/com/accountabilityatlas/searchservice/repository/SearchVideoRepository.java:22 | a state filter never matches a row without a state |
| Repository.MissingCoordinatesNeverMatch | src/main/java/com/accountabilityatlas/searchservice/repository/SearchVideoRepository.java:23-24 | with a box, a row missing latitude or longitude never matches |
| Repository.BoxExample | src/main/java/com/accountabilityatlas/searchservice/repository/SearchVideoRepository.java:23-24 | the box -123,37,-121,38 holds (37.77, -122.42) and not (29.42, -98.49) |
| Repository.NoQueryOrdersByIndexTime | src/main/java/com/accountabilityatlas/searchservice/repository/SearchVideoRepository.java:25-26 | without a query, results are newest first |
| Repository.HigherRankFirst | src/main/java/com/accountabilityatlas/searchservice/repository/SearchVideoRepository.java:25 | with a query, a strictly higher score comes strictly earlier |
| Repository.PagingExample | src/test/java/com/accountabilityatlas/searchservice/integration/SearchIntegrationTest.java:121-135 | 25 matches, page 1 of size 10: ten rows, three pages, total 25 |
| SearchService.NormalizeQuery | src/main/java/com/accountabilityatlas/searchservice/service/SearchService.java:44 | null exactly for a null or blank query; otherwise the slice of the query from its first character above U+0020, with only characters at or below U+0020 cut away on either side and none at the result's ends |
| SearchService.NormalizedQueryRestrictsIff | src/main/java/com/accountabilityatlas/searchservice/service/SearchService.java:44 | the normalised query is non-empty exactly when the query is non-blank and holds a character above U+0020 |
| SearchService.EmptyQueryIsNoQuery | src/main/java/com/accountabilityatlas/searchservice/repository/SearchVideoRepository.java:19 | an empty query selects the same rows as a null one |
| SearchService.NormalizeQueryExamples | src/main/java/com/accountabilityatlas/searchservice/service/SearchService.java:44 | null, "" and "   " give null; "  test query  " gives "test query"; a lone NUL gives "" |
| SearchService.EnumerationOf | src/main/java/com/accountabilityatlas/searchservice/service/SearchService.java:77-82 | lists every element of the set exactly once |
| SearchService.ToValidatedArray | src/main/java/com/accountabilityatlas/searchservice/service/SearchService.java:73-83 | null exactly when the input is null or shares nothing with the whitelist; otherwise a braced array literal |
| SearchService.JoinNonEmpty | src/main/java/com/accountabilityatlas/searchservice/service/SearchService.java:82 | a join whose first piece is non-empty is non-empty |
| SearchService.LiteralRoundTrip | src/main/java/com/accountabilityatlas/searchservice/service/SearchService.java:82 | reading back the literal built from separator-free pieces gives exactly those pieces |
| SearchService.ValidatedArrayRoundTrip | src/main/java/com/accountabilityatlas/searchservice/service/SearchService.java:77-82 | the literal reads back as exactly the valid input values, each once; nothing outside the whitelist reaches the query |
| SearchService.WhitelistedOverlapIff | src/main/java/com/accountabilityatlas/searchservice/service/SearchService.java:73-83 | a row passes a whitelisted array filter exactly when it shares a valid requested value, or when no requested value is valid |
| SearchService.InjectionAttemptDropped | src/test/java/com/accountabilityatlas/searchservice/service/SearchServiceTest.java:237-253 | {FIRST, INVALID, "};DROP TABLE--"} becomes exactly "{FIRST}" |
| SearchService.RepositoryArguments | src/main/java/com/accountabilityatlas/searchservice/service/SearchService.java:42-56 | each box bound reaches the parameter of its own name despite the reordering; state unchanged; each filter is null exactly when the service treats it as absent |
| SearchService.Search | src/main/java/com/accountabilityatlas/searchservice/service/SearchService.java:29-67 | the videos are the repository page of the ordered matches for the normalised, whitelisted arguments, at most size of them; the total is the count; page/size echo the request; totalPages is the ceiling; the time is the one measured |
| SearchService.SearchFilterMeaning | src/main/java/com/accountabilityatlas/searchservice/service/SearchService.java:42-56 | a row passes exactly when it matches the trimmed query, shares a valid requested tag per array filter, has the state, and lies in the box |
| SearchService.InvalidFilterIsNoFilter | src/main/java/com/accountabilityatlas/searchservice/service/SearchService.java:79-81 | an all-invalid amendments filter gives the same result as an omitted one |
| SearchService.BlankQueryIsNoQuery | src/main/java/com/accountabilityatlas/searchservice/service/SearchService.java:44 | a blank query gives the same result as no query |
| SearchController.EffectiveSize | src/main/java/com/accountabilityatlas/searchservice/web/SearchController.java:33-38 | default 20; above 100 becomes 100; otherwise unchanged |
| SearchController.RequestedPage | src/main/java/com/accountabilityatlas/searchservice/web/SearchController.java:33 | page defaults to 0; its use is stated by HandleSearch and DefaultRequest |
| SearchController.ParseBbox | src/main/java/com/accountabilityatlas/searchservice/web/SearchController.java:41-61 | null or blank gives no bounds; otherwise malformed exactly when the split gives other than four pieces or a piece does not parse; the pieces become minLng, minLat, maxLng, maxLat in order; all four bounds or none |
| SearchController.SplitFourNumbers | src/main/java/com/accountabilityatlas/searchservice/web/SearchController.java:47 | "1,2,3,4" splits into four pieces |
| SearchController.SplitAllFourNumbersAndComma | src/main/java/com/accountabilityatlas/searchservice/web/SearchController.java:47 | the full split of "1,2,3,4," ends with one empty piece |
| SearchController.SplitFourNumbersAndComma | src/main/java/com/accountabilityatlas/searchservice/web/SearchController.java:47 | "1,2,3,4," splits into the same four pieces |
| SearchController.TrailingCommaAccepted | src/main/java/com/accountabilityatlas/searchservice/web/SearchController.java:47-48 | a trailing comma parses like none |
| SearchController.NoSeparatorRejected | src/main/java/com/accountabilityatlas/searchservice/web/SearchController.java:47-51 | "invalid" is malformed |
| SearchController.ThreePartsRejected | src/main/java/com/accountabilityatlas/searchservice/web/SearchController.java:47-51 | "1,2,3" is malformed |
| SearchController.SetOf | src/main/java/com/accountabilityatlas/searchservice/web/SearchController.java:102-103 | throws exactly on a duplicate; otherwise the set of the elements, one per element |
| SearchController.ArrayAsSet | src/main/java/com/accountabilityatlas/searchservice/web/SearchController.java:102-103 | a null array is the empty set; otherwise it throws exactly on a duplicate and holds exactly the elements |
| SearchController.DistinctCardinality | src/main/java/com/accountabilityatlas/searchservice/web/SearchController.java:102-103 | distinct elements make a set of the same size |
| SearchController.ToVideoResult | src/main/java/com/accountabilityatlas/searchservice/web/SearchController.java:78-105 | throws exactly on a duplicate tag; scalars copied; arrays become their element sets, null becomes empty; one location exactly when the primary location id is present; coordinates exactly when lat and lng are both present |
| SearchController.ToVideoResults | src/main/java/com/accountabilityatlas/searchservice/web/SearchController.java:69 | maps each row in order, failing exactly when one row fails |
| SearchController.HandleSearch | src/main/java/com/accountabilityatlas/searchservice/web/SearchController.java:26-76 | bad page or size throws; a bad request exactly for a malformed box, with the fixed message; otherwise it throws exactly when mapping a service row throws, and a success holds the service rows mapped in order, the service's totals, the raw query, page, capped size and time |
| SearchController.PageNoLargerThanSize | src/main/java/com/accountabilityatlas/searchservice/web/SearchController.java:63-65 | the service never returns more rows than the page size |
| SearchController.MalformedBboxSkipsSearch | src/main/java/com/accountabilityatlas/searchservice/web/SearchController.java:46-60 | a malformed box gives the fixed bad request whatever the store holds |
| SearchController.DefaultRequest | src/main/java/com/accountabilityatlas/searchservice/web/SearchController.java:33-34 | with no parameters, the request succeeds, or throws exactly when mapping a row of page 0 of size 20 throws; page 0, size 20, null query |
| SearchController.OversizedPageCapped | src/main/java/com/accountabilityatlas/searchservice/web/SearchController.java:36-38 | size 500 is served as 100, with at most 100 results |
| SearchController.LocationExamples | src/main/java/com/accountabilityatlas/searchservice/web/SearchController.java:79-90 | no primary location id gives no locations; an id with only a latitude gives one location without coordinates |

## Left out

- The video-service HTTP client (`VideoServiceClient`), including how it sorts failures into not-found and retryable: the fetch is a `FetchOutcome` parameter of the kind the indexing service consumes.
- PostgreSQL full-text search (`plainto_tsquery`, `@@`, `ts_rank_cd`): an uninterpreted `FullText`. So the "denser match ranks first" behaviour is not modelled.
- Floating point: coordinates are `real`; `Double.parseDouble` is a `parseNumber` parameter. NaN and infinities are not modelled.
- Clocks: `Instant.now()` and the query timer are the parameters `now` and `queryTimeMs`.
- Spring wiring: transactions, the SQS listener, logging, JSON serialisation, security config and request-parameter binding errors. Transaction rollback appears only as "a failure leaves the rows unchanged".
- Concurrency and broker redelivery or dead-lettering: idempotence is stated over sequential calls.
- Database column constraints and JPA behaviour beyond `save`, `deleteById`, `findById`/`existsById` and the flush-time refusal of a changed id; the store either works or throws one `storeFault`.
- PostgreSQL array literal quoting: `ArrayElements` reads only literals whose elements need no quotes, which is all the whitelist can produce.
- The order of rows with equal sort keys: the model keeps table order, one of the orders the database may return.
- Java `int` and `long` widths: page numbers, sizes and counts are unbounded integers, so overflow in `page * size` is not modelled.
- Null elements inside a row's tag arrays (which would also make `Set.of` throw).
- `Amendment` and `Participant` are not part of this model: the whitelists are the `Vocabulary` parameter, assumed to hold enum-constant names.
- SearchService.EnumerationOf: the hash-set iteration order is one fixed but unspecified order. The lemmas about `ToValidatedArray` hold for whichever order it is, but do not range over all orders at once.
- SearchController.HandleSearch: the exception a failing request raises is named, not its message.
