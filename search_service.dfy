/** The search service: normalises the text query, whitelists the amendment
    and participant filters into PostgreSQL array literals, calls the
    repository query and copies its page into a SearchResult. */
module SearchService {
  import opened Domain
  import opened JavaText
  import opened Repository

  // ---------------------------------------------------------------------
  // Query normalisation

  /** `query != null && !query.isBlank() ? query.trim() : null`. A null or
      blank query becomes null; any other query is cut down to the run
      between its first and last character above U+0020. */
  function NormalizeQuery(q: Option<string>): (r: Option<string>)
    ensures r.None? <==> q.None? || IsBlank(q.value)
    ensures r.Some? ==>
      var i := LeadingTrimmable(q.value);
      && i + |r.value| <= |q.value|
      && r.value == q.value[i..i + |r.value|]
      && AllTrimmable(q.value[..i])
      && AllTrimmable(q.value[i + |r.value|..])
    ensures r.Some? && |r.value| > 0 ==> !IsTrimmable(r.value[0]) && !IsTrimmable(r.value[|r.value| - 1])
  {
    if q.Some? && !IsBlank(q.value) then Some(Trim(q.value)) else None
  }

  /** The normalised query restricts the search exactly when the raw query
      is not blank and holds a character above U+0020. A non-blank query
      made only of characters at or below U+0020 (a lone NUL, say)
      normalises to "", which the query's `:query = ''` guard treats like
      null. */
  lemma NormalizedQueryRestrictsIff(q: Option<string>)
    ensures var r := NormalizeQuery(q);
      (r.Some? && r.value != "") <==>
      (q.Some? && !IsBlank(q.value) && exists k :: 0 <= k < |q.value| && !IsTrimmable(q.value[k]))
  {
    var r := NormalizeQuery(q);
    if q.Some? {
      var s := q.value;
      var i := LeadingTrimmable(s);
      if !IsBlank(s) && exists k :: 0 <= k < |s| && !IsTrimmable(s[k]) {
        var k :| 0 <= k < |s| && !IsTrimmable(s[k]);
        assert i < |s|;
      }
    }
  }

  /** An empty query and a null query select the same rows. */
  lemma EmptyQueryIsNoQuery(v: SearchVideo, a: QueryArgs, ft: FullText)
    requires a.query == Some("")
    ensures TextClause(v, a, ft) == TextClause(v, a.(query := None), ft)
  {
  }

  lemma NormalizeQueryExamples()
    ensures NormalizeQuery(None) == None
    ensures NormalizeQuery(Some("")) == None
    ensures NormalizeQuery(Some("   ")) == None
    ensures NormalizeQuery(Some("  test query  ")) == Some("test query")
    ensures NormalizeQuery(Some("\0")) == Some("")
  {
    var s := "  test query  ";
    assert !IsWhitespace(s[2]);
    assert LeadingTrimmable(s) == 2 by {
      assert LeadingTrimmable(s[2..]) == 0;
      assert LeadingTrimmable(s[1..]) == 1 by { assert s[1..][1..] == s[2..]; }
    }
    assert TrailingTrimmable(s) == 2 by {
      assert s[..|s| - 1][..|s| - 2] == s[..|s| - 2];
      assert TrailingTrimmable(s[..|s| - 2]) == 0;
    }
    assert s[2..|s| - 2] == "test query";
    assert !IsWhitespace("\0"[0]);
  }

  // ---------------------------------------------------------------------
  // Whitelisting of the array filters

  /** A character of a Java enum constant name as the filters use them. */
  predicate EnumChar(c: char) {
    'A' <= c <= 'Z' || '0' <= c <= '9' || c == '_'
  }

  /** An enum constant name: non-empty, upper-case letters, digits and
      underscores, and not `NULL`, which an array literal would read as a
      null element. */
  predicate EnumName(s: string) {
    |s| > 0 && s != "NULL" && forall k :: 0 <= k < |s| ==> EnumChar(s[k])
  }

  /** The two whitelists: the names of the `Amendment` and `Participant`
      enum constants. */
  datatype Vocabulary = Vocabulary(amendments: set<string>, participants: set<string>)

  predicate ValidVocabulary(vocab: Vocabulary) {
    && (forall x :: x in vocab.amendments ==> EnumName(x))
    && (forall x :: x in vocab.participants ==> EnumName(x))
  }

  /** The set's elements in some order, each once: the iteration order of
      a hash set, which the source does not fix. */
  ghost function EnumerationOf(s: set<string>): (xs: seq<string>)
    ensures |xs| == |s|
    ensures forall x :: x in xs <==> x in s
    ensures forall i, j :: 0 <= i < j < |xs| ==> xs[i] != xs[j]
  {
    if s == {} then []
    else
      var x :| x in s;
      [x] + EnumerationOf(s - {x})
  }

  /** `toValidatedPostgresArray`: null for a null or empty input or when no
      input value is valid, else `{` + the valid values joined by `,` + `}`. */
  ghost function ToValidatedArray(values: Option<set<string>>, valid: set<string>): (r: Option<string>)
    ensures r.None? <==> values.None? || values.value * valid == {}
    ensures r.Some? ==> IsArrayLiteral(r.value)
  {
    if values.None? || values.value == {} then None
    else
      var validated := values.value * valid;
      if validated == {} then None
      else Some("{" + Join(EnumerationOf(validated), ',') + "}")
  }

  lemma JoinNonEmpty(xs: seq<string>, sep: char)
    requires |xs| >= 1 && xs[0] != ""
    ensures Join(xs, sep) != ""
  {
    if |xs| > 1 {
      assert Join(xs, sep) == xs[0] + [sep] + Join(xs[1..], sep);
    }
  }

  /** A literal built from separator-free pieces, the first non-empty,
      reads back as exactly those pieces. */
  lemma LiteralRoundTrip(xs: seq<string>)
    requires |xs| >= 1 && xs[0] != ""
    requires forall k :: 0 <= k < |xs| ==> ',' !in xs[k]
    ensures IsArrayLiteral("{" + Join(xs, ',') + "}")
    ensures ArrayElements("{" + Join(xs, ',') + "}") == xs
  {
    var inner := Join(xs, ',');
    var lit := "{" + inner + "}";
    assert lit[1..|lit| - 1] == inner;
    JoinNonEmpty(xs, ',');
    SplitJoin(xs, ',');
  }

  /** Round trip: reading the literal back as an array gives exactly the
      valid input values, each once. Nothing outside the whitelist can
      reach the query. */
  lemma ValidatedArrayRoundTrip(values: set<string>, valid: set<string>)
    requires forall x :: x in valid ==> EnumName(x)
    requires values * valid != {}
    ensures var r := ToValidatedArray(Some(values), valid);
      && r.Some?
      && ArrayElements(r.value) == EnumerationOf(values * valid)
      && (forall x :: x in ArrayElements(r.value) <==> x in values && x in valid)
  {
    var xs := EnumerationOf(values * valid);
    forall k | 0 <= k < |xs| ensures ',' !in xs[k] {
      assert xs[k] in values * valid;
      assert EnumName(xs[k]);
    }
    assert xs[0] in values * valid;
    LiteralRoundTrip(xs);
  }

  /** A record passes a whitelisted array filter exactly when its column
      shares a VALID requested value; the filter is absent when no
      requested value is valid. */
  lemma WhitelistedOverlapIff(column: Option<seq<string>>, values: Option<set<string>>, valid: set<string>)
    requires forall x :: x in valid ==> EnumName(x)
    ensures var r := ToValidatedArray(values, valid);
      (r.None? || Overlaps(column, ArrayElements(r.value)))
      <==>
      (values.None? || values.value * valid == {}
       || (column.Some? && exists i :: 0 <= i < |column.value| && column.value[i] in values.value * valid))
  {
    var r := ToValidatedArray(values, valid);
    if r.Some? {
      ValidatedArrayRoundTrip(values.value, valid);
    }
  }

  /** The injection example: only the valid value survives. */
  lemma InjectionAttemptDropped(valid: set<string>)
    requires forall x :: x in valid ==> EnumName(x)
    requires "FIRST" in valid && "INVALID" !in valid
    ensures ToValidatedArray(Some({"FIRST", "INVALID", "};DROP TABLE--"}), valid) == Some("{FIRST}")
  {
    var values := {"FIRST", "INVALID", "};DROP TABLE--"};
    assert !EnumChar("};DROP TABLE--"[0]);
    assert values * valid == {"FIRST"};
    var xs := EnumerationOf({"FIRST"});
    assert xs[0] in {"FIRST"};
    assert xs == ["FIRST"];
    assert Join(xs, ',') == "FIRST";
    assert "{" + "FIRST" + "}" == "{FIRST}";
  }

  // ---------------------------------------------------------------------
  // The search call

  /** `SearchResult`: one page of records plus paging figures and the
      measured query time. */
  datatype SearchResult = SearchResult(
    videos: seq<SearchVideo>,
    totalElements: nat,
    totalPages: nat,
    page: int,
    size: int,
    queryTimeMs: int)

  /** The repository call's arguments. The service receives the box as
      (minLng, minLat, maxLng, maxLat) and passes it on as (minLat, maxLat,
      minLng, maxLng); each bound keeps its name. */
  ghost function RepositoryArguments(
    vocab: Vocabulary, query: Option<string>, amendments: Option<set<string>>, participants: Option<set<string>>,
    state: Option<string>, minLng: Option<real>, minLat: Option<real>, maxLng: Option<real>, maxLat: Option<real>): (a: QueryArgs)
    ensures WellFormedArgs(a)
    ensures a.minLng == minLng && a.minLat == minLat && a.maxLng == maxLng && a.maxLat == maxLat
    ensures a.state == state
    ensures a.query.None? <==> query.None? || IsBlank(query.value)
    ensures a.amendments.None? <==> amendments.None? || amendments.value * vocab.amendments == {}
    ensures a.participants.None? <==> participants.None? || participants.value * vocab.participants == {}
  {
    QueryArgs(
      NormalizeQuery(query),
      ToValidatedArray(amendments, vocab.amendments),
      ToValidatedArray(participants, vocab.participants),
      state, minLat, maxLat, minLng, maxLng)
  }

  /** `search`: the repository page for the normalised, whitelisted
      arguments, with its figures copied; the elapsed time is a parameter. */
  ghost function Search(
    table: seq<SearchVideo>, ft: FullText, vocab: Vocabulary,
    query: Option<string>, amendments: Option<set<string>>, participants: Option<set<string>>,
    state: Option<string>, minLng: Option<real>, minLat: Option<real>, maxLng: Option<real>, maxLat: Option<real>,
    pageable: Pageable, queryTimeMs: int): (r: SearchResult)
    requires ValidPageable(pageable)
    ensures var a := RepositoryArguments(vocab, query, amendments, participants, state, minLng, minLat, maxLng, maxLat);
      && r.videos == PageSlice(MatchingRows(table, a, ft), pageable)
      && |r.videos| <= pageable.size
      && (forall v :: v in r.videos ==> v in table && Matches(v, a, ft))
      && Ordered(r.videos, a, ft)
      && r.totalElements == CountMatches(table, a, ft)
      && r.totalPages * pageable.size >= r.totalElements
      && (r.totalPages > 0 ==> (r.totalPages - 1) * pageable.size < r.totalElements)
    ensures r.page == pageable.page && r.size == pageable.size && r.queryTimeMs == queryTimeMs
  {
    var a := RepositoryArguments(vocab, query, amendments, participants, state, minLng, minLat, maxLng, maxLat);
    var pg := SearchWithFilters(table, ft, a, pageable);
    SearchResult(pg.content, pg.totalElements, pg.totalPages, pg.number, pg.size, queryTimeMs)
  }

  /** End to end, a record passes the service's filters exactly when it
      passes each requested filter as the caller meant it: text match on
      the trimmed query, a shared VALID tag for each array filter, equal
      state and a box hit. */
  lemma SearchFilterMeaning(
    v: SearchVideo, ft: FullText, vocab: Vocabulary,
    query: Option<string>, amendments: Option<set<string>>, participants: Option<set<string>>,
    state: Option<string>, minLng: Option<real>, minLat: Option<real>, maxLng: Option<real>, maxLat: Option<real>)
    requires ValidVocabulary(vocab)
    ensures var a := RepositoryArguments(vocab, query, amendments, participants, state, minLng, minLat, maxLng, maxLat);
      Matches(v, a, ft) <==>
      && (var nq := NormalizeQuery(query); nq.None? || nq.value == "" || ft.matches(v, nq.value))
      && (amendments.None? || amendments.value * vocab.amendments == {}
          || (v.amendments.Some? && exists i :: 0 <= i < |v.amendments.value| && v.amendments.value[i] in amendments.value * vocab.amendments))
      && (participants.None? || participants.value * vocab.participants == {}
          || (v.participants.Some? && exists i :: 0 <= i < |v.participants.value| && v.participants.value[i] in participants.value * vocab.participants))
      && (state.None? || v.primaryLocationState == state)
      && (minLat.None? || (Between(v.primaryLocationLat, minLat, maxLat) && Between(v.primaryLocationLng, minLng, maxLng)))
  {
    WhitelistedOverlapIff(v.amendments, amendments, vocab.amendments);
    WhitelistedOverlapIff(v.participants, participants, vocab.participants);
  }

  /** A filter whose every value is off the whitelist changes nothing: the
      result equals the one for an omitted filter. */
  lemma InvalidFilterIsNoFilter(
    table: seq<SearchVideo>, ft: FullText, vocab: Vocabulary,
    query: Option<string>, amendments: set<string>, participants: Option<set<string>>,
    state: Option<string>, minLng: Option<real>, minLat: Option<real>, maxLng: Option<real>, maxLat: Option<real>,
    pageable: Pageable, queryTimeMs: int)
    requires ValidPageable(pageable)
    requires amendments * vocab.amendments == {}
    ensures Search(table, ft, vocab, query, Some(amendments), participants, state, minLng, minLat, maxLng, maxLat, pageable, queryTimeMs)
         == Search(table, ft, vocab, query, None, participants, state, minLng, minLat, maxLng, maxLat, pageable, queryTimeMs)
  {
  }

  /** A blank query searches like no query at all. */
  lemma BlankQueryIsNoQuery(
    table: seq<SearchVideo>, ft: FullText, vocab: Vocabulary,
    query: string, amendments: Option<set<string>>, participants: Option<set<string>>,
    state: Option<string>, minLng: Option<real>, minLat: Option<real>, maxLng: Option<real>, maxLat: Option<real>,
    pageable: Pageable, queryTimeMs: int)
    requires ValidPageable(pageable) && IsBlank(query)
    ensures Search(table, ft, vocab, Some(query), amendments, participants, state, minLng, minLat, maxLng, maxLat, pageable, queryTimeMs)
         == Search(table, ft, vocab, None, amendments, participants, state, minLng, minLat, maxLng, maxLat, pageable, queryTimeMs)
  {
  }
}
