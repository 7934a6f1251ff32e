/**
  The movie listing of `get_movies` (app/views.py): equality filters, then
  a case-insensitive search, then a sort, then one page of the result.
  The table is the sequence of its rows in scan order; the query only
  reads it.
 */
module MovieQuery {
  import opened Wrappers
  import opened Utils
  import opened Models

  // ---------------------------------------------------------------------
  // Request parameters and the response
  // ---------------------------------------------------------------------

  /**
    The query-string parameters.  `page` and `per_page` default to 1 and 10
    before they reach this model; a parameter that is missing, or that does
    not convert to an int, is None.
   */
  datatype Params = Params(
    page: int,
    perPage: int,
    genre: Option<string>,
    director: Option<string>,
    releaseYear: Option<int>,
    searchQuery: Option<string>,
    sortBy: Option<string>)

  /** The JSON body: the page number, the page count, the match count and the page's movies. */
  datatype Listing = Listing(page: int, totalPages: int, totalMovies: int, data: seq<SerializedMovie>)

  datatype SortKey = ByReleaseDate | ByTicketPrice

  /** Python truthiness of an optional text parameter: present and non-empty. */
  predicate Supplied(o: Option<string>) {
    o.Some? && o.value != ""
  }

  /** Python truthiness of the optional year: present and non-zero. */
  predicate YearSupplied(o: Option<int>) {
    o.Some? && o.value != 0
  }

  /** `sort_by`, with anything other than the two known keys meaning `release_date`. */
  function SortKeyOf(sortBy: Option<string>): (k: SortKey)
    ensures k == ByTicketPrice <==> sortBy == Some("ticket_price")
    ensures sortBy == Some("release_date") ==> k == ByReleaseDate
  {
    if sortBy == Some("ticket_price") then ByTicketPrice else ByReleaseDate
  }

  // ---------------------------------------------------------------------
  // Filters and search
  // ---------------------------------------------------------------------

  /**
    The equality filters, each applied only when supplied: the genre and the
    director must equal the parameter, and the year of the release date must
    equal `release_year` (a movie without a release date has no year).
   */
  predicate MatchesFilters(m: Movie, p: Params) {
    && (Supplied(p.genre) ==> m.genre == p.genre)
    && (Supplied(p.director) ==> m.director == p.director)
    && (YearSupplied(p.releaseYear) ==>
          m.releaseDate.Some? && m.releaseDate.value.year == p.releaseYear.value)
  }

  /** SQL `lower` on one character (ASCII letters). */
  function Lower(c: char): char {
    if 'A' <= c <= 'Z' then (c as int - 'A' as int + 'a' as int) as char else c
  }

  function LowerText(s: string): (r: string)
    ensures |r| == |s| && forall i :: 0 <= i < |s| ==> r[i] == Lower(s[i])
  {
    seq(|s|, i requires 0 <= i < |s| => Lower(s[i]))
  }

  /** `pattern` occurs in `text` at offset `i`, ignoring case. */
  predicate MatchAt(text: string, pattern: string, i: int) {
    0 <= i && i + |pattern| <= |text| && LowerText(text[i..i + |pattern|]) == LowerText(pattern)
  }

  /**
    `text ILIKE '%pattern%'`: the pattern occurs somewhere in the text,
    ignoring case.
   */
  function ContainsIgnoreCase(text: string, pattern: string): (found: bool)
    ensures found <==> exists i :: MatchAt(text, pattern, i)
    decreases |text|
  {
    if MatchAt(text, pattern, 0) then true
    else if |text| <= |pattern| then
      assert forall i :: !MatchAt(text, pattern, i) by {
        forall i | MatchAt(text, pattern, i) ensures i == 0 { }
      }
      false
    else
      var found := ContainsIgnoreCase(text[1..], pattern);
      assert forall i :: 0 <= i ==> (MatchAt(text[1..], pattern, i) <==> MatchAt(text, pattern, i + 1)) by {
        forall i | 0 <= i
          ensures MatchAt(text[1..], pattern, i) <==> MatchAt(text, pattern, i + 1)
        {
          if i + |pattern| <= |text| - 1 {
            assert text[1..][i..i + |pattern|] == text[i + 1..i + 1 + |pattern|];
          }
        }
      }
      assert forall i :: MatchAt(text, pattern, i) ==> i == 0 || MatchAt(text[1..], pattern, i - 1);
      found
  }

  /** A nullable text column matches only when it is not NULL. */
  predicate ColumnContains(column: Option<string>, pattern: string) {
    column.Some? && ContainsIgnoreCase(column.value, pattern)
  }

  /** The search: the query occurs in the title, cast, description or genre. */
  predicate MatchesSearch(m: Movie, p: Params) {
    Supplied(p.searchQuery) ==>
      var q := p.searchQuery.value;
      ContainsIgnoreCase(m.title, q) || ColumnContains(m.cast, q)
      || ColumnContains(m.description, q) || ColumnContains(m.genre, q)
  }

  /** A SQL `WHERE`: the rows that satisfy `keep`, each as often as in the table. */
  function Where(ms: seq<Movie>, keep: Movie -> bool): (r: seq<Movie>)
    ensures forall i :: 0 <= i < |r| ==> keep(r[i])
    ensures forall m :: multiset(r)[m] == if keep(m) then multiset(ms)[m] else 0
  {
    if ms == [] then []
    else
      var rest := Where(ms[1..], keep);
      assert ms == [ms[0]] + ms[1..];
      if keep(ms[0]) then [ms[0]] + rest else rest
  }

  /** The table after the equality filters. */
  function Filtered(ms: seq<Movie>, p: Params): seq<Movie> {
    Where(ms, m => MatchesFilters(m, p))
  }

  /** The filtered rows narrowed by the search when a query is supplied. */
  function Matching(ms: seq<Movie>, p: Params): seq<Movie> {
    var filtered := Filtered(ms, p);
    if Supplied(p.searchQuery) then Where(filtered, m => MatchesSearch(m, p)) else filtered
  }

  // ---------------------------------------------------------------------
  // Sorting
  // ---------------------------------------------------------------------

  /** `a <= b` on a nullable date column, NULL below every date. */
  predicate DateAtMost(a: Option<CalendarDate>, b: Option<CalendarDate>) {
    a.None? || (b.Some? && !DateBefore(b.value, a.value))
  }

  /** `a <= b` on a nullable price column, NULL below every price. */
  predicate PriceAtMost(a: Option<real>, b: Option<real>) {
    a.None? || (b.Some? && a.value <= b.value)
  }

  /** `a` may come before `b`: newest release first, or cheapest ticket first. */
  predicate InOrder(a: Movie, b: Movie, key: SortKey) {
    match key
    case ByReleaseDate => DateAtMost(b.releaseDate, a.releaseDate)
    case ByTicketPrice => PriceAtMost(a.ticketPrice, b.ticketPrice)
  }

  predicate Sorted(s: seq<Movie>, key: SortKey) {
    forall i, j :: 0 <= i < j < |s| ==> InOrder(s[i], s[j], key)
  }

  lemma InOrderTotal(a: Movie, b: Movie, key: SortKey)
    ensures InOrder(a, b, key) || InOrder(b, a, key)
  {
  }

  lemma InOrderTransitive(a: Movie, b: Movie, c: Movie, key: SortKey)
    requires InOrder(a, b, key) && InOrder(b, c, key)
    ensures InOrder(a, c, key)
  {
  }

  /** Place `m` before the first row it may precede. */
  function Insert(m: Movie, s: seq<Movie>, key: SortKey): (r: seq<Movie>)
    requires Sorted(s, key)
    ensures Sorted(r, key)
    ensures multiset(r) == multiset(s) + multiset{m}
  {
    if s == [] then [m]
    else if InOrder(m, s[0], key) then
      forall j | 0 <= j < |s| ensures InOrder(m, s[j], key) {
        if j > 0 { InOrderTransitive(m, s[0], s[j], key); }
      }
      [m] + s
    else
      assert s == [s[0]] + s[1..];
      var rest := Insert(m, s[1..], key);
      InOrderTotal(m, s[0], key);
      forall j | 0 <= j < |rest| ensures InOrder(s[0], rest[j], key) {
        assert rest[j] in multiset(rest);
      }
      [s[0]] + rest
  }

  /** `ORDER BY`: the rows sorted by `key`, as a permutation of the input. */
  function SortBy(s: seq<Movie>, key: SortKey): (r: seq<Movie>)
    ensures Sorted(r, key)
    ensures multiset(r) == multiset(s)
  {
    if s == [] then []
    else
      assert s == [s[0]] + s[1..];
      Insert(s[0], SortBy(s[1..], key), key)
  }

  /** The matching rows in the order of `sort_by`. */
  function Ordered(ms: seq<Movie>, p: Params): seq<Movie> {
    SortBy(Matching(ms, p), SortKeyOf(p.sortBy))
  }

  // ---------------------------------------------------------------------
  // Pagination
  // ---------------------------------------------------------------------

  /** The index of the first row of page `page`. */
  function PageStart(page: int, perPage: int): (lo: nat)
    requires page >= 1 && perPage >= 1
    ensures lo == (page - 1) * perPage
  {
    MulNonNegative(page - 1, perPage);
    (page - 1) * perPage
  }

  lemma MulNonNegative(a: int, b: int)
    requires a >= 0 && b >= 0
    ensures a * b >= 0
  {
  }

  /**
    `paginate(page, per_page, error_out=False)`'s items: the rows with
    indexes in [(page - 1) * per_page, page * per_page), cut short at the
    end of the result; a page past the end is empty.
   */
  function Page(s: seq<Movie>, page: int, perPage: int): (r: seq<Movie>)
    requires page >= 1 && perPage >= 1
    ensures PageStart(page, perPage) >= |s| ==> r == []
    ensures |r| <= perPage
    ensures PageStart(page, perPage) < |s| ==>
              |r| == if |s| - PageStart(page, perPage) < perPage then |s| - PageStart(page, perPage) else perPage
    ensures forall i :: 0 <= i < |r| ==> r[i] == s[PageStart(page, perPage) + i]
  {
    var lo := PageStart(page, perPage);
    if lo >= |s| then []
    else s[lo..if lo + perPage < |s| then lo + perPage else |s|]
  }

  /** The number of pages: ceil(total / per_page), and 0 when nothing matches. */
  function PageCount(total: nat, perPage: int): (n: nat)
    requires perPage >= 1
    ensures total == 0 ==> n == 0
    ensures n * perPage >= total
    ensures n > 0 ==> (n - 1) * perPage < total
  {
    var q := total + perPage - 1;
    var n := q / perPage;
    assert q == n * perPage + q % perPage;
    assert n * perPage - perPage == (n - 1) * perPage;
    n
  }

  // ---------------------------------------------------------------------
  // The endpoint
  // ---------------------------------------------------------------------

  /** The movies shown on the requested page, before serialization. */
  function PageItems(ms: seq<Movie>, p: Params): seq<Movie>
    requires p.page >= 1 && p.perPage >= 1
  {
    Page(Ordered(ms, p), p.page, p.perPage)
  }

  /**
    `GET /movies`: the requested page of the matching movies, serialized,
    with the number of matches and the number of pages.
   */
  function GetMovies(ms: seq<Movie>, p: Params): (r: Listing)
    requires p.page >= 1 && p.perPage >= 1
    ensures r.page == p.page
    ensures r.totalMovies == |Matching(ms, p)|
    ensures r.totalPages * p.perPage >= r.totalMovies
    ensures r.totalPages > 0 ==> (r.totalPages - 1) * p.perPage < r.totalMovies
    ensures r.totalMovies == 0 ==> r.totalPages == 0
    ensures |r.data| <= p.perPage
    ensures PageStart(p.page, p.perPage) >= r.totalMovies ==> r.data == []
    ensures |r.data| == |PageItems(ms, p)|
    ensures forall i :: 0 <= i < |r.data| ==> r.data[i] == Serialize(PageItems(ms, p)[i])
  {
    var items := PageItems(ms, p);
    var total := |Ordered(ms, p)|;
    Listing(p.page, PageCount(total, p.perPage), total,
            seq(|items|, i requires 0 <= i < |items| => Serialize(items[i])))
  }

  // ---------------------------------------------------------------------
  // Properties of the listing
  // ---------------------------------------------------------------------

  /**
    The sorted result holds exactly the rows of the table that pass every
    supplied filter and the search, each as often as in the table.
   */
  lemma {:induction false} OrderedIsExactlyTheMatches(ms: seq<Movie>, p: Params, m: Movie)
    ensures multiset(Ordered(ms, p))[m]
            == if MatchesFilters(m, p) && MatchesSearch(m, p) then multiset(ms)[m] else 0
  {
    var keepF := (x: Movie) => MatchesFilters(x, p);
    var keepS := (x: Movie) => MatchesSearch(x, p);
    assert multiset(Filtered(ms, p))[m] == if keepF(m) then multiset(ms)[m] else 0;
    if Supplied(p.searchQuery) {
      assert Matching(ms, p) == Where(Filtered(ms, p), keepS);
      assert multiset(Matching(ms, p))[m] == if keepS(m) then multiset(Filtered(ms, p))[m] else 0;
    } else {
      assert MatchesSearch(m, p);
    }
  }

  /** The search only narrows the filtered rows. */
  lemma {:induction false} SearchOnlyNarrows(ms: seq<Movie>, p: Params)
    ensures multiset(Matching(ms, p)) <= multiset(Filtered(ms, p))
  {
    if Supplied(p.searchQuery) {
      var keepS := (x: Movie) => MatchesSearch(x, p);
      assert Matching(ms, p) == Where(Filtered(ms, p), keepS);
      forall m ensures multiset(Matching(ms, p))[m] <= multiset(Filtered(ms, p))[m] {
      }
    }
  }

  /**
    Every movie on the page comes from the table and passes every supplied
    filter and the search; its serialized genre and director equal the
    supplied ones, and its serialized release date is in the requested year.
   */
  lemma {:induction false} PageMatchesEveryFilter(ms: seq<Movie>, p: Params, i: int)
    requires p.page >= 1 && p.perPage >= 1
    requires 0 <= i < |PageItems(ms, p)|
    ensures PageItems(ms, p)[i] in ms
    ensures MatchesFilters(PageItems(ms, p)[i], p) && MatchesSearch(PageItems(ms, p)[i], p)
    ensures Supplied(p.genre) ==> GetMovies(ms, p).data[i].genre == p.genre
    ensures Supplied(p.director) ==> GetMovies(ms, p).data[i].director == p.director
    ensures YearSupplied(p.releaseYear) ==>
              var date := GetMovies(ms, p).data[i].releaseDate;
              date.Some? && ParseDate(date.value).Some? && ParseDate(date.value).value.year == p.releaseYear.value
  {
    var m := PageItems(ms, p)[i];
    var ordered := Ordered(ms, p);
    assert m == ordered[PageStart(p.page, p.perPage) + i];
    assert m in multiset(ordered);
    OrderedIsExactlyTheMatches(ms, p, m);
    assert GetMovies(ms, p).data[i] == Serialize(m);
  }

  /**
    The page is in the order `sort_by` asks for: release dates never increase
    (NULL dates last), or ticket prices never decrease (NULL prices first).
   */
  lemma {:induction false} PageIsSorted(ms: seq<Movie>, p: Params)
    requires p.page >= 1 && p.perPage >= 1
    ensures Sorted(PageItems(ms, p), SortKeyOf(p.sortBy))
    ensures SortKeyOf(p.sortBy) == ByReleaseDate ==>
              forall i, j :: 0 <= i < j < |PageItems(ms, p)| ==>
                DateAtMost(PageItems(ms, p)[j].releaseDate, PageItems(ms, p)[i].releaseDate)
    ensures SortKeyOf(p.sortBy) == ByTicketPrice ==>
              forall i, j :: 0 <= i < j < |PageItems(ms, p)| ==>
                PriceAtMost(PageItems(ms, p)[i].ticketPrice, PageItems(ms, p)[j].ticketPrice)
  {
    var items, key := PageItems(ms, p), SortKeyOf(p.sortBy);
    PageOfSortedIsSorted(Ordered(ms, p), p.page, p.perPage, key);
    if key == ByReleaseDate {
      forall i, j | 0 <= i < j < |items| ensures DateAtMost(items[j].releaseDate, items[i].releaseDate) {
        assert InOrder(items[i], items[j], key);
      }
    } else {
      forall i, j | 0 <= i < j < |items| ensures PriceAtMost(items[i].ticketPrice, items[j].ticketPrice) {
        assert InOrder(items[i], items[j], key);
      }
    }
  }

  lemma PageOfSortedIsSorted(s: seq<Movie>, page: int, perPage: int, key: SortKey)
    requires page >= 1 && perPage >= 1 && Sorted(s, key)
    ensures Sorted(Page(s, page, perPage), key)
  {
    var items, lo := Page(s, page, perPage), PageStart(page, perPage);
    forall i, j | 0 <= i < j < |items| ensures InOrder(items[i], items[j], key) {
      assert items[i] == s[lo + i] && items[j] == s[lo + j];
    }
  }

  /** Five matches at two per page make three pages, and page four is empty. */
  lemma FiveMatchesAtTwoPerPage(ms: seq<Movie>, p: Params)
    requires |Matching(ms, p)| == 5 && p.perPage == 2 && p.page >= 1
    ensures GetMovies(ms, p).totalPages == 3
    ensures p.page >= 4 ==> GetMovies(ms, p).data == []
  {
    assert PageCount(5, 2) == 3;
  }
}
