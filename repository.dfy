/** The native query behind `searchWithFilters`, as functions over the
    table's rows: the WHERE predicate (`Matches`), the ORDER BY (`Precedes`,
    `Order`), the count query (`CountMatches`) and the LIMIT/OFFSET page
    (`PageSlice`). Every clause follows SQL's three-valued logic: a row is
    kept only when the whole condition is TRUE, so a NULL column never
    satisfies a comparison. */
module Repository {
  import opened Domain
  import opened JavaText

  /** PostgreSQL's full-text search, left uninterpreted: whether a row's
      search vector matches `plainto_tsquery('english', q)`, and the
      `ts_rank_cd` score of the row for `q`. */
  datatype FullText = FullText(matches: (SearchVideo, string) -> bool, rank: (SearchVideo, string) -> real)

  /** The named parameters of the query, in the repository method's order. */
  datatype QueryArgs = QueryArgs(
    query: Option<string>,
    amendments: Option<string>,
    participants: Option<string>,
    state: Option<string>,
    minLat: Option<real>,
    maxLat: Option<real>,
    minLng: Option<real>,
    maxLng: Option<real>)

  /** A page request: zero-based page number and page size. */
  datatype Pageable = Pageable(page: int, size: int)

  /** What `PageRequest.of` accepts. */
  predicate ValidPageable(p: Pageable) {
    p.page >= 0 && p.size >= 1
  }

  datatype Page = Page(content: seq<SearchVideo>, totalElements: nat, totalPages: nat, number: int, size: int)

  /** A PostgreSQL array literal `{...}`. */
  predicate IsArrayLiteral(s: string) {
    |s| >= 2 && s[0] == '{' && s[|s| - 1] == '}'
  }

  /** `CAST(lit AS VARCHAR[])` for literals whose elements need no quoting:
      the comma-separated pieces between the braces. */
  function ArrayElements(lit: string): (elems: seq<string>)
    requires IsArrayLiteral(lit)
    ensures forall k :: 0 <= k < |elems| ==> ',' !in elems[k]
    ensures |elems| == 0 <==> |lit| == 2
    ensures |elems| > 0 ==> Join(elems, ',') == lit[1..|lit| - 1]
  {
    var inner := lit[1..|lit| - 1];
    if inner == "" then [] else SplitAll(inner, ',')
  }

  predicate WellFormedArgs(a: QueryArgs) {
    && (a.amendments.Some? ==> IsArrayLiteral(a.amendments.value))
    && (a.participants.Some? ==> IsArrayLiteral(a.participants.value))
  }

  /** `:query IS NULL OR :query = '' OR v.search_vector @@ plainto_tsquery(:query)` */
  predicate TextClause(v: SearchVideo, a: QueryArgs, ft: FullText) {
    a.query.None? || a.query.value == "" || ft.matches(v, a.query.value)
  }

  /** The array operator `&&`: the column is non-null and shares an element
      with the filter. */
  predicate Overlaps(column: Option<seq<string>>, filter: seq<string>) {
    column.Some? && exists i :: 0 <= i < |column.value| && column.value[i] in filter
  }

  /** `:amendments IS NULL OR v.amendments && CAST(:amendments AS VARCHAR[])` */
  predicate AmendmentsClause(v: SearchVideo, a: QueryArgs)
    requires WellFormedArgs(a)
  {
    a.amendments.None? || Overlaps(v.amendments, ArrayElements(a.amendments.value))
  }

  predicate ParticipantsClause(v: SearchVideo, a: QueryArgs)
    requires WellFormedArgs(a)
  {
    a.participants.None? || Overlaps(v.participants, ArrayElements(a.participants.value))
  }

  /** `:state IS NULL OR v.primary_location_state = :state` */
  predicate StateClause(v: SearchVideo, a: QueryArgs) {
    a.state.None? || (v.primaryLocationState.Some? && v.primaryLocationState == a.state)
  }

  /** `x BETWEEN lo AND hi`, TRUE only when all three are non-null. */
  predicate Between(x: Option<real>, lo: Option<real>, hi: Option<real>) {
    x.Some? && lo.Some? && hi.Some? && lo.value <= x.value <= hi.value
  }

  /** `:minLat IS NULL OR (lat BETWEEN :minLat AND :maxLat AND lng BETWEEN :minLng AND :maxLng)` */
  predicate BoxClause(v: SearchVideo, a: QueryArgs) {
    || a.minLat.None?
    || (Between(v.primaryLocationLat, a.minLat, a.maxLat) && Between(v.primaryLocationLng, a.minLng, a.maxLng))
  }

  /** The WHERE clause shared by the content query and the count query. */
  predicate Matches(v: SearchVideo, a: QueryArgs, ft: FullText)
    requires WellFormedArgs(a)
  {
    && TextClause(v, a, ft)
    && AmendmentsClause(v, a)
    && ParticipantsClause(v, a)
    && StateClause(v, a)
    && BoxClause(v, a)
  }

  /** The rows the content query keeps, in table order. */
  function Filter(table: seq<SearchVideo>, a: QueryArgs, ft: FullText): (r: seq<SearchVideo>)
    requires WellFormedArgs(a)
    ensures forall v :: v in r ==> Matches(v, a, ft)
    ensures forall v :: Matches(v, a, ft) ==> multiset(r)[v] == multiset(table)[v]
    ensures forall v :: !Matches(v, a, ft) ==> multiset(r)[v] == 0
  {
    if |table| == 0 then []
    else
      var rest := Filter(table[1..], a, ft);
      assert table == [table[0]] + table[1..];
      if Matches(table[0], a, ft) then [table[0]] + rest else rest
  }

  /** `SELECT COUNT(*) ... WHERE` the same clause. */
  function CountMatches(table: seq<SearchVideo>, a: QueryArgs, ft: FullText): (n: nat)
    requires WellFormedArgs(a)
    ensures n <= |table|
    ensures n == |table| <==> forall i :: 0 <= i < |table| ==> Matches(table[i], a, ft)
  {
    if |table| == 0 then 0
    else (if Matches(table[0], a, ft) then 1 else 0) + CountMatches(table[1..], a, ft)
  }

  /** The count query counts exactly the rows the content query pages
      through. */
  lemma {:induction false} CountIsFilterLength(table: seq<SearchVideo>, a: QueryArgs, ft: FullText)
    requires WellFormedArgs(a)
    ensures CountMatches(table, a, ft) == |Filter(table, a, ft)|
  {
    if |table| > 0 {
      CountIsFilterLength(table[1..], a, ft);
    }
  }

  /** The relevance key: the constant 0 without a query, else the score. */
  function RelevanceKey(v: SearchVideo, a: QueryArgs, ft: FullText): real {
    if a.query.None? || a.query.value == "" then 0.0 else ft.rank(v, a.query.value)
  }

  /** `indexed_at DESC`, where PostgreSQL puts NULL first. */
  predicate IndexedAtFirst(x: Option<Instant>, y: Option<Instant>) {
    x.None? || (y.Some? && x.value >= y.value)
  }

  /** `u` may come before `v` under `ORDER BY relevance DESC, indexed_at DESC`. */
  predicate Precedes(u: SearchVideo, v: SearchVideo, a: QueryArgs, ft: FullText) {
    var ru, rv := RelevanceKey(u, a, ft), RelevanceKey(v, a, ft);
    ru > rv || (ru == rv && IndexedAtFirst(u.indexedAt, v.indexedAt))
  }

  predicate Ordered(rows: seq<SearchVideo>, a: QueryArgs, ft: FullText) {
    forall i, j :: 0 <= i < j < |rows| ==> Precedes(rows[i], rows[j], a, ft)
  }

  lemma PrecedesTotal(u: SearchVideo, v: SearchVideo, a: QueryArgs, ft: FullText)
    ensures Precedes(u, v, a, ft) || Precedes(v, u, a, ft)
  {
  }

  lemma PrecedesTransitive(u: SearchVideo, v: SearchVideo, w: SearchVideo, a: QueryArgs, ft: FullText)
    requires Precedes(u, v, a, ft) && Precedes(v, w, a, ft)
    ensures Precedes(u, w, a, ft)
  {
  }

  /** Insert `v` into ordered `rows` before the first row it may precede. */
  function Insert(v: SearchVideo, rows: seq<SearchVideo>, a: QueryArgs, ft: FullText): (r: seq<SearchVideo>)
    requires Ordered(rows, a, ft)
    ensures Ordered(r, a, ft)
    ensures multiset(r) == multiset(rows) + multiset{v}
    ensures forall x :: x in r <==> x == v || x in rows
  {
    if |rows| == 0 then [v]
    else if Precedes(v, rows[0], a, ft) then
      forall j | 0 <= j < |rows| ensures Precedes(v, rows[j], a, ft) {
        if j > 0 { PrecedesTransitive(v, rows[0], rows[j], a, ft); }
      }
      [v] + rows
    else
      var tail := Insert(v, rows[1..], a, ft);
      PrecedesTotal(v, rows[0], a, ft);
      assert rows == [rows[0]] + rows[1..];
      forall j | 0 <= j < |tail| ensures Precedes(rows[0], tail[j], a, ft) {
        assert tail[j] in tail;
      }
      [rows[0]] + tail
  }

  /** The rows in the query's order; ties keep their table order, which is
      one of the orders the database may return. */
  function Order(rows: seq<SearchVideo>, a: QueryArgs, ft: FullText): (r: seq<SearchVideo>)
    ensures Ordered(r, a, ft)
    ensures multiset(r) == multiset(rows)
  {
    if |rows| == 0 then []
    else
      assert rows == [rows[0]] + rows[1..];
      Insert(rows[0], Order(rows[1..], a, ft), a, ft)
  }

  function Min(x: int, y: int): int {
    if x <= y then x else y
  }

  /** The number of rows before the requested page. */
  function Offset(p: Pageable): nat
    requires ValidPageable(p)
  {
    p.page * p.size
  }

  /** `LIMIT size OFFSET page * size`. */
  function PageSlice(rows: seq<SearchVideo>, p: Pageable): (r: seq<SearchVideo>)
    requires ValidPageable(p)
    ensures var offset := Offset(p);
      && |r| == (if offset >= |rows| then 0 else Min(p.size, |rows| - offset))
      && forall i :: 0 <= i < |r| ==> r[i] == rows[offset + i]
  {
    var offset := Offset(p);
    if offset >= |rows| then [] else rows[offset..offset + Min(p.size, |rows| - offset)]
  }

  /** `Page.getTotalPages` for a page size of at least one: the number of
      pages of `size` rows needed to hold `total` rows. */
  function TotalPages(total: nat, size: int): (n: nat)
    requires size >= 1
    ensures n * size >= total
    ensures n > 0 ==> (n - 1) * size < total
  {
    var n := (total + size - 1) / size;
    assert n * size + (total + size - 1) % size == total + size - 1;
    n
  }

  /** A contiguous run of an ordered sequence is ordered. */
  lemma OrderedSlice(rows: seq<SearchVideo>, from: nat, len: nat, a: QueryArgs, ft: FullText)
    requires Ordered(rows, a, ft) && from + len <= |rows|
    ensures Ordered(rows[from..from + len], a, ft)
  {
    var part := rows[from..from + len];
    forall i, j | 0 <= i < j < |part| ensures Precedes(part[i], part[j], a, ft) {
      assert part[i] == rows[from + i] && part[j] == rows[from + j];
    }
  }

  /** A page of ordered rows is ordered and holds only those rows. */
  lemma OrderedPage(rows: seq<SearchVideo>, p: Pageable, a: QueryArgs, ft: FullText)
    requires ValidPageable(p) && Ordered(rows, a, ft)
    ensures var page := PageSlice(rows, p);
      Ordered(page, a, ft) && forall v :: v in page ==> v in rows
  {
    var page := PageSlice(rows, p);
    if |page| > 0 {
      OrderedSlice(rows, Offset(p), |page|, a, ft);
      assert page == rows[Offset(p)..Offset(p) + |page|];
    }
  }

  /** The content query before LIMIT/OFFSET: the matching rows in query
      order, as many as the count query reports. */
  function MatchingRows(table: seq<SearchVideo>, a: QueryArgs, ft: FullText): (rows: seq<SearchVideo>)
    requires WellFormedArgs(a)
    ensures |rows| == CountMatches(table, a, ft)
    ensures multiset(rows) == multiset(Filter(table, a, ft))
    ensures forall v :: v in rows ==> v in table && Matches(v, a, ft)
    ensures Ordered(rows, a, ft)
  {
    var filtered := Filter(table, a, ft);
    var rows := Order(filtered, a, ft);
    CountIsFilterLength(table, a, ft);
    assert |multiset(rows)| == |multiset(filtered)|;
    assert forall v :: v in rows ==> v in table && Matches(v, a, ft) by {
      forall v | v in rows ensures v in table && Matches(v, a, ft) {
        assert v in multiset(filtered);
        assert multiset(table)[v] > 0;
      }
    }
    rows
  }

  /** `searchWithFilters`: the requested page of the matching rows in query
      order, with the count and page count from the count query. */
  function SearchWithFilters(table: seq<SearchVideo>, ft: FullText, a: QueryArgs, p: Pageable): (pg: Page)
    requires WellFormedArgs(a) && ValidPageable(p)
    ensures forall v :: v in pg.content ==> v in table && Matches(v, a, ft)
    ensures Ordered(pg.content, a, ft)
    ensures pg.totalElements == CountMatches(table, a, ft)
    ensures var offset := Offset(p);
      |pg.content| == (if offset >= pg.totalElements then 0 else Min(p.size, pg.totalElements - offset))
    ensures pg.totalPages == TotalPages(pg.totalElements, p.size)
    ensures pg.number == p.page && pg.size == p.size
    ensures pg.content == PageSlice(MatchingRows(table, a, ft), p)
  {
    var rows := MatchingRows(table, a, ft);
    var content := PageSlice(rows, p);
    OrderedPage(rows, p, a, ft);
    Page(content, |rows|, TotalPages(|rows|, p.size), p.page, p.size)
  }

  // ---------------------------------------------------------------------
  // Properties of the query

  /** One set of arguments restricts another when it keeps every filter of
      the other and may add more. */
  predicate Restricts(narrow: QueryArgs, wide: QueryArgs) {
    && (wide.query.None? || wide.query.value == "" || narrow.query == wide.query)
    && (wide.amendments.None? || narrow.amendments == wide.amendments)
    && (wide.participants.None? || narrow.participants == wide.participants)
    && (wide.state.None? || narrow.state == wide.state)
    && (wide.minLat.None? ||
         (narrow.minLat == wide.minLat && narrow.maxLat == wide.maxLat
          && narrow.minLng == wide.minLng && narrow.maxLng == wide.maxLng))
  }

  /** The clauses are ANDed, so adding a filter never admits a new row and
      never raises the count. */
  lemma {:induction false} AddingFiltersNarrows(table: seq<SearchVideo>, narrow: QueryArgs, wide: QueryArgs, ft: FullText)
    requires WellFormedArgs(narrow) && WellFormedArgs(wide) && Restricts(narrow, wide)
    ensures forall v :: Matches(v, narrow, ft) ==> Matches(v, wide, ft)
    ensures CountMatches(table, narrow, ft) <= CountMatches(table, wide, ft)
  {
    if |table| > 0 {
      AddingFiltersNarrows(table[1..], narrow, wide, ft);
    }
  }

  /** A non-null array filter never matches a row whose array is empty or
      null. */
  lemma EmptyArrayNeverMatches(v: SearchVideo, a: QueryArgs, ft: FullText)
    requires WellFormedArgs(a) && a.amendments.Some?
    requires v.amendments.None? || v.amendments == Some([])
    ensures !Matches(v, a, ft)
  {
  }

  /** A state filter never matches a row without a state. */
  lemma NullStateNeverMatches(v: SearchVideo, a: QueryArgs, ft: FullText)
    requires WellFormedArgs(a) && a.state.Some? && v.primaryLocationState.None?
    ensures !Matches(v, a, ft)
  {
  }

  /** With a bounding box, a row without coordinates never matches. */
  lemma MissingCoordinatesNeverMatch(v: SearchVideo, a: QueryArgs, ft: FullText)
    requires WellFormedArgs(a) && a.minLat.Some?
    requires v.primaryLocationLat.None? || v.primaryLocationLng.None?
    ensures !Matches(v, a, ft)
  {
  }

  /** The box `-123,37,-121,38` holds a row at (37.77, -122.42) and not one
      at (29.42, -98.49). */
  lemma BoxExample(v: SearchVideo, w: SearchVideo, a: QueryArgs)
    requires a.minLat == Some(37.0) && a.maxLat == Some(38.0)
    requires a.minLng == Some(-123.0) && a.maxLng == Some(-121.0)
    requires v.primaryLocationLat == Some(37.77) && v.primaryLocationLng == Some(-122.42)
    requires w.primaryLocationLat == Some(29.42) && w.primaryLocationLng == Some(-98.49)
    ensures BoxClause(v, a) && !BoxClause(w, a)
  {
  }

  /** Without a query, rows come newest first. */
  lemma NoQueryOrdersByIndexTime(rows: seq<SearchVideo>, a: QueryArgs, ft: FullText)
    requires a.query.None? || a.query.value == ""
    requires Ordered(rows, a, ft)
    ensures forall i, j :: 0 <= i < j < |rows| ==> IndexedAtFirst(rows[i].indexedAt, rows[j].indexedAt)
  {
  }

  /** With a query, a strictly higher score always comes first. */
  lemma HigherRankFirst(rows: seq<SearchVideo>, a: QueryArgs, ft: FullText, i: nat, j: nat)
    requires a.query.Some? && a.query.value != ""
    requires Ordered(rows, a, ft) && i < |rows| && j < |rows|
    requires ft.rank(rows[i], a.query.value) > ft.rank(rows[j], a.query.value)
    ensures i < j
  {
  }

  /** 25 matching rows, page 1 of size 10: ten rows and three pages. */
  lemma PagingExample(table: seq<SearchVideo>, ft: FullText, a: QueryArgs)
    requires WellFormedArgs(a) && CountMatches(table, a, ft) == 25
    ensures var pg := SearchWithFilters(table, ft, a, Pageable(1, 10));
      |pg.content| == 10 && pg.totalPages == 3 && pg.totalElements == 25
  {
  }
}
