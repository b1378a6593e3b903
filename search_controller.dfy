/** The `GET /search` endpoint: caps the page size, builds the page request,
    parses the bounding box, calls the search service and maps each record
    to its response shape. */
module SearchController {
  import opened Domain
  import opened JavaText
  import opened Repository
  import opened SearchService

  const MaxPageSize: int := 100
  const DefaultPage: int := 0
  const DefaultSize: int := 20
  const BadBboxMessage: string := "Invalid bbox format. Expected: minLng,minLat,maxLng,maxLat"

  /** The request parameters; an absent `page` or `size` takes its default. */
  datatype Request = Request(
    q: Option<string>,
    amendments: Option<set<string>>,
    participants: Option<set<string>>,
    state: Option<string>,
    bbox: Option<string>,
    page: Option<int>,
    size: Option<int>)

  /** The exceptions the endpoint lets escape (answered as a server error). */
  datatype JavaException = IllegalArgumentException

  datatype ResultCoordinates = ResultCoordinates(latitude: real, longitude: real)

  datatype ResultLocation = ResultLocation(
    id: Id,
    displayName: Option<string>,
    city: Option<string>,
    state: Option<string>,
    coordinates: Option<ResultCoordinates>)

  datatype VideoSearchResult = VideoSearchResult(
    id: Option<Id>,
    youtubeId: Option<string>,
    title: Option<string>,
    description: Option<string>,
    thumbnailUrl: Option<string>,
    durationSeconds: Option<int>,
    channelId: Option<string>,
    channelName: Option<string>,
    videoDate: Option<Date>,
    amendments: set<string>,
    participants: set<string>,
    locations: seq<ResultLocation>)

  datatype Pagination = Pagination(page: int, size: int, totalElements: nat, totalPages: nat)

  datatype SearchResponse = SearchResponse(
    results: seq<VideoSearchResult>,
    pagination: Pagination,
    queryTime: int,
    query: Option<string>)

  datatype Response =
    | Ok(body: SearchResponse)
    | BadRequest(message: string)
    | Raised(exception: JavaException)

  // ---------------------------------------------------------------------
  // Paging parameters

  function RequestedPage(page: Option<int>): int {
    if page.None? then DefaultPage else page.value
  }

  /** The size after defaulting and capping: anything above 100 becomes 100,
      anything else is kept. */
  function EffectiveSize(size: Option<int>): (s: int)
    ensures s <= MaxPageSize
    ensures size.None? ==> s == DefaultSize
    ensures size.Some? && size.value <= MaxPageSize ==> s == size.value
    ensures size.Some? && size.value > MaxPageSize ==> s == MaxPageSize
  {
    var requested := if size.None? then DefaultSize else size.value;
    if requested > MaxPageSize then MaxPageSize else requested
  }

  // ---------------------------------------------------------------------
  // Bounding box

  datatype Bbox = Bbox(minLng: Option<real>, minLat: Option<real>, maxLng: Option<real>, maxLat: Option<real>)

  const NoBox: Bbox := Bbox(None, None, None, None)

  datatype BboxParse = Bounds(box: Bbox) | Malformed

  /** A box has all four bounds or none. */
  predicate AllOrNothing(b: Bbox) {
    || b == NoBox
    || (b.minLng.Some? && b.minLat.Some? && b.maxLng.Some? && b.maxLat.Some?)
  }

  /** The bbox parameter: null or blank means no box; otherwise the
      comma-separated pieces (trailing empty pieces dropped) must be exactly
      four numbers, read as minLng, minLat, maxLng, maxLat. `parseNumber`
      is `Double.parseDouble`, None where it throws. */
  function ParseBbox(bbox: Option<string>, parseNumber: string -> Option<real>): (r: BboxParse)
    ensures bbox.None? || IsBlank(bbox.value) ==> r == Bounds(NoBox)
    ensures bbox.Some? && !IsBlank(bbox.value) ==>
      var parts := JavaSplit(bbox.value, ',');
      && (r.Malformed? <==> |parts| != 4 || exists k :: 0 <= k < |parts| && parseNumber(parts[k]).None?)
      && (r.Bounds? ==>
            && r.box.minLng == parseNumber(parts[0])
            && r.box.minLat == parseNumber(parts[1])
            && r.box.maxLng == parseNumber(parts[2])
            && r.box.maxLat == parseNumber(parts[3]))
    ensures r.Bounds? ==> AllOrNothing(r.box)
  {
    if bbox.None? || IsBlank(bbox.value) then Bounds(NoBox)
    else
      var parts := JavaSplit(bbox.value, ',');
      if |parts| != 4 then Malformed
      else
        var minLng, minLat := parseNumber(parts[0]), parseNumber(parts[1]);
        var maxLng, maxLat := parseNumber(parts[2]), parseNumber(parts[3]);
        if minLng.None? || minLat.None? || maxLng.None? || maxLat.None? then Malformed
        else Bounds(Bbox(minLng, minLat, maxLng, maxLat))
  }

  lemma SplitFourNumbers()
    ensures JavaSplit("1,2,3,4", ',') == ["1", "2", "3", "4"]
  {
    var four := ["1", "2", "3", "4"];
    assert Join(four, ',') == "1,2,3,4" by {
      assert Join(four[3..], ',') == "4";
      assert Join(four[2..], ',') == "3,4" by { assert four[2..][1..] == four[3..]; }
      assert Join(four[1..], ',') == "2,3,4" by { assert four[1..][1..] == four[2..]; }
    }
    SplitJoin(four, ',');
    assert "1,2,3,4"[1] == ',';
  }

  lemma SplitAllFourNumbersAndComma()
    ensures SplitAll("1,2,3,4,", ',') == ["1", "2", "3", "4", ""]
  {
    var five := ["1", "2", "3", "4", ""];
    assert Join(five, ',') == "1,2,3,4," by {
      assert Join(five[4..], ',') == "";
      assert Join(five[3..], ',') == "4," by { assert five[3..][1..] == five[4..]; }
      assert Join(five[2..], ',') == "3,4," by { assert five[2..][1..] == five[3..]; }
      assert Join(five[1..], ',') == "2,3,4," by { assert five[1..][1..] == five[2..]; }
    }
    SplitJoin(five, ',');
  }

  lemma SplitFourNumbersAndComma()
    ensures JavaSplit("1,2,3,4,", ',') == ["1", "2", "3", "4"]
  {
    var five := ["1", "2", "3", "4", ""];
    SplitAllFourNumbersAndComma();
    assert DropTrailingEmpty(five) == ["1", "2", "3", "4"] by {
      assert five[..|five| - 1] == ["1", "2", "3", "4"];
      assert DropTrailingEmpty(five) == DropTrailingEmpty(five[..|five| - 1]);
    }
    assert "1,2,3,4,"[1] == ',';
  }

  /** `split` drops trailing empty pieces, so a trailing comma is accepted. */
  lemma TrailingCommaAccepted(parseNumber: string -> Option<real>)
    ensures ParseBbox(Some("1,2,3,4,"), parseNumber) == ParseBbox(Some("1,2,3,4"), parseNumber)
  {
    SplitFourNumbers();
    SplitFourNumbersAndComma();
    assert !IsWhitespace("1,2,3,4,"[0]) && !IsWhitespace("1,2,3,4"[0]);
  }

  /** A box without any separator is one piece, not four. */
  lemma NoSeparatorRejected(parseNumber: string -> Option<real>)
    ensures ParseBbox(Some("invalid"), parseNumber) == Malformed
  {
    var s := "invalid";
    assert !IsWhitespace(s[0]);
    assert forall k :: 0 <= k < |s| ==> s[k] != ',';
    assert JavaSplit(s, ',') == [s];
  }

  /** Three numbers are not a box. */
  lemma ThreePartsRejected(parseNumber: string -> Option<real>)
    ensures ParseBbox(Some("1,2,3"), parseNumber) == Malformed
  {
    var three := ["1", "2", "3"];
    assert Join(three, ',') == "1,2,3" by {
      assert Join(three[2..], ',') == "3";
      assert Join(three[1..], ',') == "2,3" by { assert three[1..][1..] == three[2..]; }
    }
    SplitJoin(three, ',');
    assert DropTrailingEmpty(three) == three;
    assert "1,2,3"[1] == ',';
    assert !IsWhitespace("1,2,3"[0]);
  }

  // ---------------------------------------------------------------------
  // Mapping one record

  predicate HasDuplicates(xs: seq<string>) {
    exists i, j :: 0 <= i < j < |xs| && xs[i] == xs[j]
  }

  /** `Set.of(array)`: the set of the elements, or an exception when two
      are equal. */
  function SetOf(xs: seq<string>): (r: Option<set<string>>)
    ensures r.None? <==> HasDuplicates(xs)
    ensures r.Some? ==> |r.value| == |xs| && forall x :: x in r.value <==> x in xs
  {
    if HasDuplicates(xs) then None
    else
      DistinctCardinality(xs);
      Some(set x | x in xs)
  }

  lemma {:induction false} DistinctCardinality(xs: seq<string>)
    requires !HasDuplicates(xs)
    ensures |set x | x in xs| == |xs|
  {
    if |xs| > 0 {
      var tail := xs[1..];
      assert !HasDuplicates(tail) by {
        forall i, j | 0 <= i < j < |tail| ensures tail[i] != tail[j] {
          assert tail[i] == xs[i + 1] && tail[j] == xs[j + 1];
        }
      }
      DistinctCardinality(tail);
      assert xs[0] !in tail by {
        forall j | 0 <= j < |tail| ensures tail[j] != xs[0] {
          assert tail[j] == xs[j + 1];
        }
      }
      assert (set x | x in xs) == {xs[0]} + (set x | x in tail) by {
        assert xs == [xs[0]] + tail;
      }
    }
  }

  /** A nullable array column as a response set: null is the empty set. */
  function ArrayAsSet(column: Option<seq<string>>): (r: Option<set<string>>)
    ensures column.None? ==> r == Some({})
    ensures column.Some? ==> (r.None? <==> HasDuplicates(column.value))
    ensures column.Some? && r.Some? ==> forall x :: x in r.value <==> x in column.value
  {
    if column.None? then Some({}) else SetOf(column.value)
  }

  /** `toVideoResult`: the scalar fields copied, the arrays as sets (an
      exception on a duplicate element), and one location exactly when the
      record has a primary location id, with coordinates exactly when both
      latitude and longitude are present. */
  function ToVideoResult(v: SearchVideo): (r: Option<VideoSearchResult>)
    ensures r.None? <==>
      (v.amendments.Some? && HasDuplicates(v.amendments.value))
      || (v.participants.Some? && HasDuplicates(v.participants.value))
    ensures r.Some? ==>
      && r.value.id == v.id && r.value.youtubeId == v.youtubeId && r.value.title == v.title
      && r.value.description == v.description && r.value.thumbnailUrl == v.thumbnailUrl
      && r.value.durationSeconds == v.durationSeconds && r.value.channelId == v.channelId
      && r.value.channelName == v.channelName && r.value.videoDate == v.videoDate
      && (forall x :: x in r.value.amendments <==> v.amendments.Some? && x in v.amendments.value)
      && (forall x :: x in r.value.participants <==> v.participants.Some? && x in v.participants.value)
    ensures r.Some? ==>
      && (|r.value.locations| == 0 <==> v.primaryLocationId.None?)
      && |r.value.locations| <= 1
    ensures r.Some? && |r.value.locations| == 1 ==>
      var loc := r.value.locations[0];
      && loc.id == v.primaryLocationId.value
      && loc.displayName == v.primaryLocationName
      && loc.city == v.primaryLocationCity
      && loc.state == v.primaryLocationState
      && (loc.coordinates.Some? <==> v.primaryLocationLat.Some? && v.primaryLocationLng.Some?)
      && (loc.coordinates.Some? ==>
            loc.coordinates.value == ResultCoordinates(v.primaryLocationLat.value, v.primaryLocationLng.value))
  {
    var location :=
      if v.primaryLocationId.None? then None
      else
        Some(ResultLocation(
          v.primaryLocationId.value, v.primaryLocationName, v.primaryLocationCity, v.primaryLocationState,
          if v.primaryLocationLat.Some? && v.primaryLocationLng.Some?
          then Some(ResultCoordinates(v.primaryLocationLat.value, v.primaryLocationLng.value))
          else None));
    var amendments := ArrayAsSet(v.amendments);
    var participants := ArrayAsSet(v.participants);
    if amendments.None? || participants.None? then None
    else
      Some(VideoSearchResult(
        v.id, v.youtubeId, v.title, v.description, v.thumbnailUrl, v.durationSeconds,
        v.channelId, v.channelName, v.videoDate, amendments.value, participants.value,
        if location.None? then [] else [location.value]))
  }

  /** The records mapped in order, or None as soon as one mapping throws. */
  function ToVideoResults(videos: seq<SearchVideo>): (r: Option<seq<VideoSearchResult>>)
    ensures r.None? <==> exists i :: 0 <= i < |videos| && ToVideoResult(videos[i]).None?
    ensures r.Some? ==> |r.value| == |videos| && forall i :: 0 <= i < |videos| ==> Some(r.value[i]) == ToVideoResult(videos[i])
  {
    if |videos| == 0 then Some([])
    else
      var head := ToVideoResult(videos[0]);
      var tail := ToVideoResults(videos[1..]);
      if head.None? || tail.None? then
        assert tail.None? ==> exists i :: 0 <= i < |videos| && ToVideoResult(videos[i]).None? by {
          if tail.None? {
            var i :| 0 <= i < |videos[1..]| && ToVideoResult(videos[1..][i]).None?;
            assert videos[1..][i] == videos[i + 1];
          }
        }
        None
      else
        assert forall i :: 0 < i < |videos| ==> videos[i] == videos[1..][i - 1];
        Some([head.value] + tail.value)
  }

  // ---------------------------------------------------------------------
  // The endpoint

  /** `GET /search`. The size is capped first; `PageRequest.of` then
      rejects a negative page or a size below one with an exception; a
      malformed box is a bad request with the fixed message and the search
      is not run; otherwise the service's page is mapped and the raw `q` is
      echoed. `queryTimeMs` stands for the service's clock reading. */
  ghost function HandleSearch(
    table: seq<SearchVideo>, ft: FullText, vocab: Vocabulary,
    parseNumber: string -> Option<real>, req: Request, queryTimeMs: int): (resp: Response)
    ensures var page, size := RequestedPage(req.page), EffectiveSize(req.size);
      && (resp.Raised? && !(page >= 0 && size >= 1) ==> resp.exception == IllegalArgumentException)
      && (!(page >= 0 && size >= 1) ==> resp.Raised?)
      && (resp.BadRequest? <==> page >= 0 && size >= 1 && ParseBbox(req.bbox, parseNumber).Malformed?)
      && (resp.BadRequest? ==> resp.message == BadBboxMessage)
    ensures resp.Ok? ==>
      && resp.body.query == req.q
      && resp.body.queryTime == queryTimeMs
      && resp.body.pagination.page == RequestedPage(req.page)
      && resp.body.pagination.size == EffectiveSize(req.size)
      && |resp.body.results| <= EffectiveSize(req.size)
      && resp.body.pagination.totalPages * resp.body.pagination.size >= resp.body.pagination.totalElements
    ensures var page, size := RequestedPage(req.page), EffectiveSize(req.size);
      page >= 0 && size >= 1 && ParseBbox(req.bbox, parseNumber).Bounds? ==>
        var b := ParseBbox(req.bbox, parseNumber).box;
        var sr := Search(table, ft, vocab, req.q, req.amendments, req.participants, req.state,
                         b.minLng, b.minLat, b.maxLng, b.maxLat, Pageable(page, size), queryTimeMs);
        && (resp.Raised? <==> ToVideoResults(sr.videos).None?)
        && (resp.Ok? ==>
              && Some(resp.body.results) == ToVideoResults(sr.videos)
              && resp.body.pagination.totalElements == sr.totalElements
              && resp.body.pagination.totalPages == sr.totalPages)
  {
    var page, size := RequestedPage(req.page), EffectiveSize(req.size);
    if !(page >= 0 && size >= 1) then Raised(IllegalArgumentException)
    else
      match ParseBbox(req.bbox, parseNumber)
      case Malformed => BadRequest(BadBboxMessage)
      case Bounds(b) =>
        var pageable := Pageable(page, size);
        var result := Search(
          table, ft, vocab, req.q, req.amendments, req.participants, req.state,
          b.minLng, b.minLat, b.maxLng, b.maxLat, pageable, queryTimeMs);
        PageNoLargerThanSize(table, ft, vocab, req, b, pageable, queryTimeMs);
        var results := ToVideoResults(result.videos);
        if results.None? then Raised(IllegalArgumentException)
        else
          Ok(SearchResponse(
            results.value,
            Pagination(result.page, result.size, result.totalElements, result.totalPages),
            result.queryTimeMs,
            req.q))
  }

  lemma PageNoLargerThanSize(
    table: seq<SearchVideo>, ft: FullText, vocab: Vocabulary, req: Request, b: Bbox, pageable: Pageable, queryTimeMs: int)
    requires ValidPageable(pageable)
    ensures |Search(table, ft, vocab, req.q, req.amendments, req.participants, req.state,
                    b.minLng, b.minLat, b.maxLng, b.maxLat, pageable, queryTimeMs).videos| <= pageable.size
  {
    var a := RepositoryArguments(vocab, req.q, req.amendments, req.participants, req.state, b.minLng, b.minLat, b.maxLng, b.maxLat);
    var pg := SearchWithFilters(table, ft, a, pageable);
    assert |pg.content| <= pageable.size;
  }

  /** A malformed box is answered without looking at the store: the
      response is the same whatever the table holds. */
  lemma MalformedBboxSkipsSearch(
    table1: seq<SearchVideo>, table2: seq<SearchVideo>, ft: FullText, vocab: Vocabulary,
    parseNumber: string -> Option<real>, req: Request, queryTimeMs: int)
    requires RequestedPage(req.page) >= 0 && EffectiveSize(req.size) >= 1
    requires ParseBbox(req.bbox, parseNumber).Malformed?
    ensures HandleSearch(table1, ft, vocab, parseNumber, req, queryTimeMs) == BadRequest(BadBboxMessage)
    ensures HandleSearch(table2, ft, vocab, parseNumber, req, queryTimeMs) == BadRequest(BadBboxMessage)
  {
  }

  /** With no parameters at all: page 0 of size 20, no filters. */
  lemma DefaultRequest(table: seq<SearchVideo>, ft: FullText, vocab: Vocabulary, parseNumber: string -> Option<real>, queryTimeMs: int)
    ensures var resp := HandleSearch(table, ft, vocab, parseNumber, Request(None, None, None, None, None, None, None), queryTimeMs);
      resp.Ok? || resp.Raised?
    ensures var resp := HandleSearch(table, ft, vocab, parseNumber, Request(None, None, None, None, None, None, None), queryTimeMs);
      resp.Ok? ==> resp.body.pagination.page == 0 && resp.body.pagination.size == 20 && resp.body.query.None?
    ensures var resp := HandleSearch(table, ft, vocab, parseNumber, Request(None, None, None, None, None, None, None), queryTimeMs);
      var sr := Search(table, ft, vocab, None, None, None, None, None, None, None, None, Pageable(0, 20), queryTimeMs);
      resp.Raised? <==> ToVideoResults(sr.videos).None?
  {
  }

  /** A size of 500 is served as 100. */
  lemma OversizedPageCapped(table: seq<SearchVideo>, ft: FullText, vocab: Vocabulary, parseNumber: string -> Option<real>, queryTimeMs: int)
    ensures var resp := HandleSearch(table, ft, vocab, parseNumber, Request(None, None, None, None, None, Some(0), Some(500)), queryTimeMs);
      resp.Ok? ==> resp.body.pagination.size == 100 && |resp.body.results| <= 100
  {
  }

  /** A record without a primary location id has no locations, whatever
      else it holds; one with an id but only a latitude has one location
      without coordinates. */
  lemma LocationExamples(v: SearchVideo)
    requires v.amendments.None? && v.participants.None?
    ensures v.primaryLocationId.None? ==> ToVideoResult(v).value.locations == []
    ensures v.primaryLocationId.Some? && v.primaryLocationLat.Some? && v.primaryLocationLng.None? ==>
      && |ToVideoResult(v).value.locations| == 1
      && ToVideoResult(v).value.locations[0].coordinates.None?
  {
  }
}
