/**
 * Cursor ("seek") pagination over an ordered query. A page holds at most
 * `limit` rows; one extra row is fetched to learn whether more exist, and
 * that row's uuid becomes the next cursor. A request with a cursor first
 * looks the cursor row up, then keeps only the rows at or after it on every
 * order-by column (inclusive comparisons), so the cursor row opens the page.
 */
module CursorPaginator {
  import opened Wrappers
  import opened Json
  import opened QueryBuilder
  import PaginatedRequest
  import Transformers
  import ApiVersion

  type Request = PaginatedRequest.PaginatedRequest

  /** A page: its rows and the cursor of the page after it (None on the last page). */
  datatype CursorPaginator = CursorPaginator(results: seq<Row>, nextCursor: Option<string>)

  const NoOrderMessage: string := "An order-by clause must be set to use pagination."

  // ---------------------------------------------------------------------
  // The pieces of fromPaginatedRequest()

  /** The last space-separated word of the from clause: the alias in "tests as table_alias". */
  function TableAlias(from: string): string {
    if from == [] || from[|from| - 1] == ' ' then []
    else TableAlias(from[..|from| - 1]) + [from[|from| - 1]]
  }

  /** The alias is the text after the last space: a suffix with no space, preceded by a space or by nothing. */
  lemma {:induction false} TableAliasIsLastWord(from: string)
    ensures |TableAlias(from)| <= |from| && TableAlias(from) == from[|from| - |TableAlias(from)|..]
    ensures |TableAlias(from)| < |from| ==> from[|from| - |TableAlias(from)| - 1] == ' '
    ensures forall i :: 0 <= i < |TableAlias(from)| ==> TableAlias(from)[i] != ' '
  {
    if from != [] && from[|from| - 1] != ' ' {
      var init := from[..|from| - 1];
      var a := TableAlias(init);
      TableAliasIsLastWord(init);
      assert TableAlias(from) == a + [from[|from| - 1]];
      assert init[|init| - |a|..] + [from[|from| - 1]] == from[|from| - |TableAlias(from)|..];
      if |a| < |init| {
        assert from[|from| - |TableAlias(from)| - 1] == init[|init| - |a| - 1];
      }
      forall i | 0 <= i < |TableAlias(from)| ensures TableAlias(from)[i] != ' ' {
        if i < |a| {
          assert TableAlias(from)[i] == a[i];
        }
      }
    }
  }

  /** Whatever precedes the last space, the alias is the word after it. */
  lemma {:induction false} AliasOfLastWord(prefix: string, word: string)
    requires forall i :: 0 <= i < |word| ==> word[i] != ' '
    ensures TableAlias(prefix + " " + word) == word
  {
    var from := prefix + " " + word;
    if word != [] {
      var init := word[..|word| - 1];
      assert from[..|from| - 1] == prefix + " " + init;
      assert from[|from| - 1] == word[|word| - 1];
      AliasOfLastWord(prefix, init);
      assert init + [word[|word| - 1]] == word;
    }
  }

  /** The alias of the test suite's from clause "tests as table_alias". */
  lemma AliasSample()
    ensures TableAlias("tests as table_alias") == "table_alias"
  {
    assert "tests as table_alias" == "tests as" + " " + "table_alias";
    AliasOfLastWord("tests as", "table_alias");
  }

  /** The condition that finds the cursor row: <alias>.uuid = cursor. */
  function CursorCondition(from: string, cursor: string): Predicate {
    UuidEquals(TableAlias(from) + ".uuid", cursor)
  }

  /** The cursor row: the first row of the query that also has the cursor's uuid. */
  function ResolveCursor(q: Query, cursor: string): (r: Option<Row>)
    ensures r.Some? ==> r.value in q.table && r.value.uuid == cursor
  {
    var lookup := q.(wheres := q.wheres + [CursorCondition(q.from, cursor)]);
    var r := FirstOf(lookup);
    if r.Some? then
      SelectMembers(lookup.table, lookup.wheres, r.value);
      assert lookup.wheres[|q.wheres|] == CursorCondition(q.from, cursor);
      r
    else
      r
  }

  /** The condition an order column adds: at or after the cursor row's value (>= ascending, <= descending). */
  function SeekCondition(o: Order, cursorRow: Row): Predicate {
    Compare(o.column, if o.direction == Asc then AtLeast else AtMost, Column(cursorRow, o.column))
  }

  function SeekConditions(orders: seq<Order>, cursorRow: Row): (r: seq<Predicate>)
    ensures |r| == |orders|
  {
    if orders == [] then []
    else SeekConditions(orders[..|orders| - 1], cursorRow) + [SeekCondition(orders[|orders| - 1], cursorRow)]
  }

  /**
   * The query the page is read with: None when no page is read (no order-by
   * clause, or a cursor that matches no row); otherwise the query with the
   * seek conditions of the cursor row, if any, and the limit raised by one.
   */
  function PageQuery(request: Request, q: Query): (r: Option<Query>)
    ensures r.None? <==> |q.orders| == 0 || (request.cursor.Some? && ResolveCursor(q, request.cursor.value).None?)
    ensures r.Some? ==> r.value.from == q.from && r.value.orders == q.orders && r.value.table == q.table
    ensures r.Some? && request.limit + 1 >= 0 ==> r.value.limit == Some(request.limit + 1)
  {
    if |q.orders| == 0 then None
    else if request.cursor.None? then Some(WithLimit(q, request.limit + 1))
    else
      match ResolveCursor(q, request.cursor.value)
      case None => None
      case Some(row) => Some(WithLimit(q.(wheres := q.wheres + SeekConditions(q.orders, row)), request.limit + 1))
  }

  /** Drop the extra row, if one was fetched, and make its uuid the next cursor (pop() of an empty list gives none). */
  function Trim(fetched: seq<Row>, limit: int): (p: CursorPaginator)
    ensures |fetched| <= limit ==> p == CursorPaginator(fetched, None)
    ensures |fetched| > limit && |fetched| > 0 ==>
              p.results + [fetched[|fetched| - 1]] == fetched && p.nextCursor == Some(fetched[|fetched| - 1].uuid)
    ensures |fetched| == 0 ==> p == CursorPaginator([], None)
  {
    if |fetched| > limit && |fetched| > 0 then
      assert fetched[..|fetched| - 1] + [fetched[|fetched| - 1]] == fetched;
      CursorPaginator(fetched[..|fetched| - 1], Some(fetched[|fetched| - 1].uuid))
    else
      CursorPaginator(fetched, None)
  }

  /**
   * fromPaginatedRequest(): fails without an order-by clause; an unknown
   * cursor gives an empty last page; otherwise the page read with PageQuery.
   */
  function Paginate(request: Request, q: Query): (r: Result<CursorPaginator, string>)
    ensures r.Failure? <==> |q.orders| == 0
    ensures r.Failure? ==> r.error == NoOrderMessage
    ensures |q.orders| > 0 && request.cursor.Some? && ResolveCursor(q, request.cursor.value).None? ==>
              r == Success(CursorPaginator([], None))
  {
    if |q.orders| == 0 then Failure(NoOrderMessage)
    else
      match PageQuery(request, q)
      case None => Success(CursorPaginator([], None))
      case Some(pq) => Success(Trim(Rows(pq), request.limit))
  }

  /** Look the cursor row up on a copy of the builder, leaving the builder itself as it was. */
  method LookUpCursor(query: Builder, cursor: string) returns (row: Option<Row>)
    ensures row == ResolveCursor(query.State(), cursor)
  {
    var tableAlias := TableAlias(query.from);
    var lookup := query.Clone();
    lookup.Where(UuidEquals(tableAlias + ".uuid", cursor));
    row := lookup.First();
  }

  /** One having() condition per order-by clause, at or after the cursor row. */
  method AddSeekConditions(query: Builder, cursorRow: Row)
    modifies query
    ensures query.State() == old(query.State()).(wheres := old(query.wheres) + SeekConditions(old(query.orders), cursorRow))
  {
    var orders := query.orders;
    for i := 0 to |orders|
      invariant query.State() == old(query.State()).(wheres := old(query.wheres) + SeekConditions(orders[..i], cursorRow))
    {
      query.Having(SeekCondition(orders[i], cursorRow));
      assert orders[..i + 1][..i] == orders[..i];
    }
    assert orders[..|orders|] == orders;
  }

  /**
   * The static constructor on a mutable query builder: the builder keeps the
   * seek conditions and the raised limit it was given.
   */
  method FromPaginatedRequest(request: Request, query: Builder) returns (result: Result<CursorPaginator, string>)
    modifies query
    ensures result == Paginate(request, old(query.State()))
    ensures query.State() == PageQuery(request, old(query.State())).GetOr(old(query.State()))
  {
    if |query.orders| == 0 {
      return Failure(NoOrderMessage);
    }
    if request.cursor.Some? {
      var resolved := LookUpCursor(query, request.cursor.value);
      if resolved.None? {
        return Success(CursorPaginator([], None));
      }
      AddSeekConditions(query, resolved.value);
    }
    query.Limit(request.limit + 1);
    var results := query.Get();
    var nextCursor: Option<string> := None;
    if |results| > request.limit && |results| > 0 {
      nextCursor := Some(results[|results| - 1].uuid);
      results := results[..|results| - 1];
    }
    result := Success(CursorPaginator(results, nextCursor));
  }

  // ---------------------------------------------------------------------
  // Pages of an ordered result

  /** The reference page: the first `limit` rows of s, and the uuid of the row after them. */
  function Page(s: seq<Row>, limit: nat): CursorPaginator {
    if |s| > limit then CursorPaginator(s[..limit], Some(s[limit].uuid)) else CursorPaginator(s, None)
  }

  /** Fetching one row too many and popping it yields exactly the reference page. */
  lemma TrimTakeIsPage(s: seq<Row>, limit: nat)
    ensures Trim(Take(s, Some(limit + 1)), limit) == Page(s, limit)
  {
    if |s| > limit {
      var fetched := Take(s, Some(limit + 1));
      assert fetched == s[..limit + 1];
      assert fetched[..|fetched| - 1] == s[..limit];
    }
  }

  /** The first page of a request without cursor is the first `limit` rows of the query. */
  lemma FirstPage(limit: nat, q: Query)
    requires |q.orders| > 0
    ensures Paginate(PaginatedRequest.PaginatedRequest(limit, None), q) == Success(Page(Select(q.table, q.wheres), limit))
  {
    TrimTakeIsPage(Select(q.table, q.wheres), limit);
  }

  /** A page never holds more rows than the request's limit, and a page followed by another is full. */
  lemma PageNeverExceedsLimit(request: Request, q: Query)
    requires request.limit >= 0 && Paginate(request, q).Success?
    ensures |Paginate(request, q).value.results| <= request.limit
    ensures Paginate(request, q).value.nextCursor.Some? ==> |Paginate(request, q).value.results| == request.limit
  {
    var pq := PageQuery(request, q);
    if pq.Some? {
      assert pq.value.limit == Some(request.limit + 1);
      var fetched := Rows(pq.value);
      assert |fetched| <= request.limit + 1;
      assert Paginate(request, q) == Success(Trim(fetched, request.limit));
    }
  }

  /** Every row of a page is a row of the query's source that satisfies the query's conditions. */
  lemma PageRowsComeFromTheQuery(request: Request, q: Query, x: Row)
    requires Paginate(request, q).Success? && x in Paginate(request, q).value.results
    ensures x in q.table && SatisfiesAll(x, q.wheres)
  {
    var pq := PageQuery(request, q).value;
    var fetched := Rows(pq);
    var p := Trim(fetched, request.limit);
    assert x in fetched by {
      if |fetched| > request.limit && |fetched| > 0 {
        assert fetched == p.results + [fetched[|fetched| - 1]];
      }
    }
    var selected := Select(pq.table, pq.wheres);
    assert x in selected by {
      assert fetched == selected[..|fetched|];
    }
    SelectMembers(pq.table, pq.wheres, x);
    assert pq.wheres[..|q.wheres|] == q.wheres;
    forall i | 0 <= i < |q.wheres| ensures Satisfies(x, q.wheres[i]) {
      assert pq.wheres[i] == q.wheres[i];
    }
  }

  /** With a cursor that resolves to `row`, the page is the reference page of the rows at or after it. */
  lemma PageAfterCursorRow(limit: nat, q: Query, cursor: string, row: Row)
    requires |q.orders| > 0 && ResolveCursor(q, cursor) == Some(row)
    ensures Paginate(PaginatedRequest.PaginatedRequest(limit, Some(cursor)), q)
            == Success(Page(Select(q.table, q.wheres + SeekConditions(q.orders, row)), limit))
  {
    TrimTakeIsPage(Select(q.table, q.wheres + SeekConditions(q.orders, row)), limit);
  }

  predicate DistinctUuids(s: seq<Row>) {
    forall i, j :: 0 <= i < j < |s| ==> s[i].uuid != s[j].uuid
  }

  /** Every row has the order column, and the rows are strictly ordered on it. */
  predicate StrictlyOrdered(s: seq<Row>, o: Order) {
    && (forall i :: 0 <= i < |s| ==> o.column in s[i].columns)
    && (forall i, j :: 0 <= i < j < |s| ==>
          if o.direction == Asc then s[i].columns[o.column] < s[j].columns[o.column]
          else s[i].columns[o.column] > s[j].columns[o.column])
  }

  /** A selection every row satisfies is the whole sequence. */
  lemma {:induction false} SelectKeepsAll(s: seq<Row>, ps: seq<Predicate>)
    requires forall j :: 0 <= j < |s| ==> SatisfiesAll(s[j], ps)
    ensures Select(s, ps) == s
  {
    if s != [] {
      SelectKeepsAll(s[1..], ps);
    }
  }

  /** A selection that holds exactly from position k on is the suffix from k. */
  lemma {:induction false} SelectSuffix(s: seq<Row>, ps: seq<Predicate>, k: nat)
    requires k <= |s|
    requires forall j :: 0 <= j < |s| ==> (SatisfiesAll(s[j], ps) <==> j >= k)
    ensures Select(s, ps) == s[k..]
  {
    if k == 0 {
      SelectKeepsAll(s, ps);
    } else {
      SelectSuffix(s[1..], ps, k - 1);
      assert s[1..][k - 1..] == s[k..];
    }
  }

  lemma {:induction false} SelectUnique(s: seq<Row>, k: nat, column: string)
    requires k < |s| && DistinctUuids(s)
    ensures Select(s, [UuidEquals(column, s[k].uuid)]) == [s[k]]
  {
    var p := [UuidEquals(column, s[k].uuid)];
    if k == 0 {
      forall j | 0 <= j < |s[1..]| ensures !SatisfiesAll(s[1..][j], p) {
        assert s[1..][j] == s[j + 1] && !Satisfies(s[j + 1], p[0]);
      }
      SelectSuffix(s[1..], p, |s[1..]|);
    } else {
      assert !SatisfiesAll(s[0], p) by { assert !Satisfies(s[0], p[0]); }
      assert s[1..][k - 1] == s[k];
      SelectUnique(s[1..], k - 1, column);
    }
  }

  /** With distinct uuids, the cursor of row k resolves to row k. */
  lemma CursorResolvesToRow(q: Query, k: nat)
    requires DistinctUuids(Select(q.table, q.wheres)) && k < |Select(q.table, q.wheres)|
    ensures ResolveCursor(q, Select(q.table, q.wheres)[k].uuid) == Some(Select(q.table, q.wheres)[k])
  {
    var s := Select(q.table, q.wheres);
    var c := CursorCondition(q.from, s[k].uuid);
    SelectConcat(q.table, q.wheres, [c]);
    SelectUnique(s, k, TableAlias(q.from) + ".uuid");
  }

  /**
   * Looking for a uuid in a sequence of rows: nothing is found exactly when no
   * row has it, and otherwise the first row found is the earliest one with it.
   */
  lemma {:induction false} FirstWithUuid(s: seq<Row>, column: string, cursor: string)
    ensures Select(s, [UuidEquals(column, cursor)]) == [] <==> forall j :: 0 <= j < |s| ==> s[j].uuid != cursor
    ensures Select(s, [UuidEquals(column, cursor)]) != [] ==>
              exists k :: 0 <= k < |s| && s[k] == Select(s, [UuidEquals(column, cursor)])[0] && s[k].uuid == cursor &&
                          forall j :: 0 <= j < k ==> s[j].uuid != cursor
  {
    if s != [] {
      var p := [UuidEquals(column, cursor)];
      assert SatisfiesAll(s[0], p) <==> s[0].uuid == cursor by { assert p[0] == UuidEquals(column, cursor); }
      FirstWithUuid(s[1..], column, cursor);
      if s[0].uuid == cursor {
        assert Select(s, p)[0] == s[0];
      } else {
        assert Select(s, p) == Select(s[1..], p);
        if Select(s, p) == [] {
          forall j | 0 <= j < |s| ensures s[j].uuid != cursor {
            if j > 0 { assert s[j] == s[1..][j - 1]; }
          }
        } else {
          var k :| 0 <= k < |s[1..]| && s[1..][k] == Select(s, p)[0] && s[1..][k].uuid == cursor &&
                   forall j :: 0 <= j < k ==> s[1..][j].uuid != cursor;
          forall j | 0 <= j < k + 1 ensures s[j].uuid != cursor {
            if j > 0 { assert s[j] == s[1..][j - 1]; }
          }
          assert s[k + 1] == s[1..][k];
        }
      }
    }
  }

  /**
   * The cursor row is the first row of the query, in its order and among the
   * rows meeting its conditions, that has the cursor's uuid; there is none
   * exactly when no such row exists.
   */
  lemma ResolveCursorFindsFirstMatch(q: Query, cursor: string)
    ensures ResolveCursor(q, cursor).None? <==> forall x :: x in q.table && SatisfiesAll(x, q.wheres) ==> x.uuid != cursor
    ensures ResolveCursor(q, cursor).Some? ==> SatisfiesAll(ResolveCursor(q, cursor).value, q.wheres)
    ensures ResolveCursor(q, cursor).Some? ==>
              exists k :: 0 <= k < |Select(q.table, q.wheres)| &&
                          Select(q.table, q.wheres)[k] == ResolveCursor(q, cursor).value &&
                          forall j :: 0 <= j < k ==> Select(q.table, q.wheres)[j].uuid != cursor
  {
    var s := Select(q.table, q.wheres);
    var c := CursorCondition(q.from, cursor);
    SelectConcat(q.table, q.wheres, [c]);
    FirstWithUuid(s, TableAlias(q.from) + ".uuid", cursor);
    assert ResolveCursor(q, cursor) == FirstOf(q.(wheres := q.wheres + [c]));
    forall x | x in q.table && SatisfiesAll(x, q.wheres) ensures x in s {
      SelectMembers(q.table, q.wheres, x);
    }
    forall j | 0 <= j < |s| ensures s[j] in q.table && SatisfiesAll(s[j], q.wheres) {
      SelectMembers(q.table, q.wheres, s[j]);
    }
  }

  /** A cursor that no row of the query carries gives an empty last page, without a next cursor. */
  lemma UnknownCursorGivesEmptyPage(limit: int, q: Query, cursor: string)
    requires |q.orders| > 0
    requires forall x :: x in q.table && SatisfiesAll(x, q.wheres) ==> x.uuid != cursor
    ensures Paginate(PaginatedRequest.PaginatedRequest(limit, Some(cursor)), q) == Success(CursorPaginator([], None))
  {
    ResolveCursorFindsFirstMatch(q, cursor);
  }

  /** On a strictly ordered single order column, the seek condition of row k holds exactly from row k on. */
  lemma SeekSelectsSuffix(q: Query, k: nat)
    requires |q.orders| == 1
    requires StrictlyOrdered(Select(q.table, q.wheres), q.orders[0])
    requires k < |Select(q.table, q.wheres)|
    ensures Select(q.table, q.wheres + SeekConditions(q.orders, Select(q.table, q.wheres)[k])) == Select(q.table, q.wheres)[k..]
  {
    var s := Select(q.table, q.wheres);
    var seek := SeekConditions(q.orders, s[k]);
    assert seek == [SeekCondition(q.orders[0], s[k])] by {
      assert q.orders[..0] == [];
    }
    SelectConcat(q.table, q.wheres, seek);
    forall j | 0 <= j < |s|
      ensures SatisfiesAll(s[j], seek) <==> j >= k
    {
      assert SatisfiesAll(s[j], seek) <==> Satisfies(s[j], seek[0]);
    }
    SelectSuffix(s, seek, k);
  }

  /**
   * With a single order column on which the rows are strictly ordered, and
   * distinct uuids, the page for the cursor of row k is the reference page
   * of the rows from k on.
   */
  lemma PageFromCursor(limit: nat, q: Query, k: nat)
    requires |q.orders| == 1
    requires StrictlyOrdered(Select(q.table, q.wheres), q.orders[0])
    requires DistinctUuids(Select(q.table, q.wheres))
    requires k < |Select(q.table, q.wheres)|
    ensures Paginate(PaginatedRequest.PaginatedRequest(limit, Some(Select(q.table, q.wheres)[k].uuid)), q)
            == Success(Page(Select(q.table, q.wheres)[k..], limit))
  {
    var s := Select(q.table, q.wheres);
    CursorResolvesToRow(q, k);
    SeekSelectsSuffix(q, k);
    PageAfterCursorRow(limit, q, s[k].uuid, s[k]);
  }

  // ---------------------------------------------------------------------
  // Walking all pages

  /** Follow next cursors from `cursor` through any source of pages; None when fuel runs out or a request fails. */
  function WalkWith(pager: Option<string> -> Result<CursorPaginator, string>, cursor: Option<string>, fuel: nat): Option<seq<Row>>
    decreases fuel
  {
    if fuel == 0 then None
    else
      match pager(cursor)
      case Failure(_) => None
      case Success(p) =>
        if p.nextCursor.None? then Some(p.results)
        else
          match WalkWith(pager, p.nextCursor, fuel - 1)
          case None => None
          case Some(rest) => Some(p.results + rest)
  }

  /** A client walking a query: request the first page, then each next cursor with the same limit. */
  function Walk(limit: int, q: Query, cursor: Option<string>, fuel: nat): Option<seq<Row>> {
    WalkWith(c => Paginate(PaginatedRequest.PaginatedRequest(limit, c), q), cursor, fuel)
  }

  /** A page source that serves the reference pages of s, the cursor of row j giving the page from j. */
  predicate ServesPagesOf(pager: Option<string> -> Result<CursorPaginator, string>, s: seq<Row>, limit: nat) {
    forall j :: 0 <= j < |s| ==> pager(Some(s[j].uuid)) == Success(Page(s[j..], limit))
  }

  lemma {:induction false} WalkWithFrom(pager: Option<string> -> Result<CursorPaginator, string>, s: seq<Row>, limit: nat, k: nat, fuel: nat)
    requires limit >= 1 && ServesPagesOf(pager, s, limit)
    requires k < |s| && fuel >= |s| - k
    ensures WalkWith(pager, Some(s[k].uuid), fuel) == Some(s[k..])
    decreases |s| - k
  {
    var rest := s[k..];
    assert pager(Some(s[k].uuid)) == Success(Page(rest, limit));
    if |rest| > limit {
      assert rest[limit] == s[k + limit];
      WalkWithFrom(pager, s, limit, k + limit, fuel - 1);
      assert rest[..limit] + s[k + limit..] == rest;
    }
  }

  /** Starting without a cursor from the reference first page, a page source of s yields s. */
  lemma WalkWithAll(pager: Option<string> -> Result<CursorPaginator, string>, s: seq<Row>, limit: nat, fuel: nat)
    requires limit >= 1 && ServesPagesOf(pager, s, limit)
    requires pager(None) == Success(Page(s, limit)) && fuel > |s|
    ensures WalkWith(pager, None, fuel) == Some(s)
  {
    if |s| > limit {
      WalkWithFrom(pager, s, limit, limit, fuel - 1);
      assert s[..limit] + s[limit..] == s;
    }
  }

  /**
   * Under a single strictly ordered order column and distinct uuids, following
   * the next cursors from the first page returns every row of the query
   * exactly once and in order.
   */
  lemma WalkReturnsEveryRowOnce(limit: nat, q: Query, fuel: nat)
    requires limit >= 1 && |q.orders| == 1
    requires StrictlyOrdered(Select(q.table, q.wheres), q.orders[0])
    requires DistinctUuids(Select(q.table, q.wheres))
    requires fuel > |Select(q.table, q.wheres)|
    ensures Walk(limit, q, None, fuel) == Some(Select(q.table, q.wheres))
  {
    var s := Select(q.table, q.wheres);
    var pager := c => Paginate(PaginatedRequest.PaginatedRequest(limit, c), q);
    forall j | 0 <= j < |s| ensures pager(Some(s[j].uuid)) == Success(Page(s[j..], limit)) {
      PageFromCursor(limit, q, j);
    }
    FirstPage(limit, q);
    WalkWithAll(pager, s, limit, fuel);
  }

  // ---------------------------------------------------------------------
  // Where the inclusive per-column seek falls short

  function TieQuery(): Query {
    Query("tests", [Order("position", Asc)],
          [Row("a", map["position" := 1]), Row("b", map["position" := 1])], [], None)
  }

  /** The first page of the tied rows: row "a", and "b" as the next cursor. */
  lemma TieFirstPage()
    ensures Paginate(PaginatedRequest.PaginatedRequest(1, None), TieQuery())
            == Success(CursorPaginator([Row("a", map["position" := 1])], Some("b")))
  {
    var q := TieQuery();
    SelectKeepsAll(q.table, []);
    FirstPage(1, q);
  }

  /** The cursor "b" resolves to row "b", whose seek condition position >= 1 both rows meet. */
  lemma TieSeek()
    ensures ResolveCursor(TieQuery(), "b") == Some(Row("b", map["position" := 1]))
    ensures Select(TieQuery().table, TieQuery().wheres + SeekConditions(TieQuery().orders, Row("b", map["position" := 1])))
            == TieQuery().table
  {
    var q := TieQuery();
    var b := Row("b", map["position" := 1]);
    SelectKeepsAll(q.table, []);
    CursorResolvesToRow(q, 1);
    var seek := SeekConditions(q.orders, b);
    assert seek == [Compare("position", AtLeast, Some(1))] by {
      assert q.orders[..0] == [];
    }
    assert q.wheres + seek == seek;
    SelectKeepsAll(q.table, seek);
  }

  /** With a tie on the order column the page after the first one is the first page again, so a walk never ends. */
  lemma TiesRepeatTheFirstPage()
    ensures Paginate(PaginatedRequest.PaginatedRequest(1, Some("b")), TieQuery())
            == Paginate(PaginatedRequest.PaginatedRequest(1, None), TieQuery())
  {
    TieFirstPage();
    TieSeek();
    PageAfterCursorRow(1, TieQuery(), "b", Row("b", map["position" := 1]));
  }

  /** A page whose next cursor is its own cursor sends a walk round forever. */
  lemma {:induction false} WalkWithStuck(pager: Option<string> -> Result<CursorPaginator, string>, c: string, fuel: nat)
    requires pager(Some(c)).Success? && pager(Some(c)).value.nextCursor == Some(c)
    ensures WalkWith(pager, Some(c), fuel) == None
  {
    if fuel > 0 {
      WalkWithStuck(pager, c, fuel - 1);
    }
  }

  /** Hence a walk of the tied rows, from the second page on, never finishes whatever the fuel. */
  lemma TiesNeverFinish(fuel: nat)
    ensures Walk(1, TieQuery(), Some("b"), fuel) == None
  {
    TieFirstPage();
    TiesRepeatTheFirstPage();
    WalkWithStuck(c => Paginate(PaginatedRequest.PaginatedRequest(1, c), TieQuery()), "b", fuel);
  }

  function TwoColumnQuery(): Query {
    Query("tests", [Order("a", Asc), Order("b", Asc)],
          [Row("r1", map["a" := 1, "b" := 0]), Row("r2", map["a" := 1, "b" := 5]), Row("r3", map["a" := 2, "b" := 1])],
          [], None)
  }

  /** The cursor "r2" resolves to the row (1, 5). */
  lemma TwoColumnResolve()
    ensures ResolveCursor(TwoColumnQuery(), "r2") == Some(Row("r2", map["a" := 1, "b" := 5]))
  {
    var q := TwoColumnQuery();
    SelectKeepsAll(q.table, []);
    CursorResolvesToRow(q, 1);
  }

  /** The seek conditions of the cursor row (1, 5): a >= 1 and b >= 5. */
  lemma TwoColumnSeek()
    ensures SeekConditions(TwoColumnQuery().orders, Row("r2", map["a" := 1, "b" := 5]))
            == [Compare("a", AtLeast, Some(1)), Compare("b", AtLeast, Some(5))]
  {
    var orders := TwoColumnQuery().orders;
    assert orders[..1] == [Order("a", Asc)];
    assert orders[..1][..0] == [];
  }

  /** Only the cursor row itself meets both conditions. */
  lemma TwoColumnSelect()
    ensures Select(TwoColumnQuery().table, [Compare("a", AtLeast, Some(1)), Compare("b", AtLeast, Some(5))])
            == [Row("r2", map["a" := 1, "b" := 5])]
  {
    var seek := [Compare("a", AtLeast, Some(1)), Compare("b", AtLeast, Some(5))];
    var r1 := Row("r1", map["a" := 1, "b" := 0]);
    var r2 := Row("r2", map["a" := 1, "b" := 5]);
    var r3 := Row("r3", map["a" := 2, "b" := 1]);
    assert !SatisfiesAll(r1, seek) by { assert !Satisfies(r1, seek[1]); }
    assert SatisfiesAll(r2, seek) by { assert Satisfies(r2, seek[0]) && Satisfies(r2, seek[1]); }
    assert !SatisfiesAll(r3, seek) by { assert !Satisfies(r3, seek[1]); }
    assert Select([r3], seek) == [];
    assert Select([r2, r3], seek) == [r2] by { assert [r2, r3][1..] == [r3]; }
    assert TwoColumnQuery().table[1..] == [r2, r3];
  }

  /**
   * With two order columns the seek conditions apply to each column on its
   * own, not lexicographically: from the cursor row (1, 5) the later row
   * (2, 1) fails b >= 5 and is never returned.
   */
  lemma TwoColumnsSkipARow()
    ensures Paginate(PaginatedRequest.PaginatedRequest(1, Some("r2")), TwoColumnQuery())
            == Success(CursorPaginator([Row("r2", map["a" := 1, "b" := 5])], None))
  {
    var q := TwoColumnQuery();
    var r2 := Row("r2", map["a" := 1, "b" := 5]);
    TwoColumnResolve();
    TwoColumnSeek();
    TwoColumnSelect();
    assert q.wheres + SeekConditions(q.orders, r2) == SeekConditions(q.orders, r2);
    PageAfterCursorRow(1, q, "r2", r2);
  }

  // ---------------------------------------------------------------------
  // JSON responses

  /** Each transformed record as a JSON object. */
  function DataArray(ds: seq<Data>): (j: Json)
    ensures j.Array? && |j.items| == |ds|
    ensures forall i :: 0 <= i < |ds| ==> j.items[i] == Object(ds[i])
  {
    Array(seq(|ds|, i requires 0 <= i < |ds| => Object(ds[i])))
  }

  /** toJsonResponse(): {"data": [transformed rows], "meta": {"next_cursor": cursor or null}}. */
  method ToJsonResponse(p: CursorPaginator, t: Transformers.Transformer<Row>, target: ApiVersion.Version) returns (j: Json)
    ensures j.Object? && j.fields.Keys == {"data", "meta"}
    ensures j.fields["data"].Array? && |j.fields["data"].items| == |p.results|
    ensures forall i :: 0 <= i < |p.results| ==>
              j.fields["data"].items[i] == Object(Transformers.Transformed(t, p.results[i], target))
    ensures j.fields["meta"] == Object(map["next_cursor" := OfOptionalString(p.nextCursor)])
  {
    var data := Transformers.TransformCollection(t, p.results, target);
    j := Object(map["data" := DataArray(data), "meta" := Object(map["next_cursor" := OfOptionalString(p.nextCursor)])]);
  }

  /** The uuid of the first row, or null for an empty page. */
  function CurrentCursor(results: seq<Row>): (j: Json)
    ensures j.Null? <==> results == []
    ensures results != [] ==> j == Str(results[0].uuid)
  {
    if results == [] then Null else Str(results[0].uuid)
  }

  /**
   * toLegacyJsonResponse(): the same data, with the cursors under
   * meta.cursor: previous (always null), current (the first row's uuid) and next.
   */
  method ToLegacyJsonResponse(p: CursorPaginator, t: Transformers.Transformer<Row>, target: ApiVersion.Version) returns (j: Json)
    ensures j.Object? && j.fields.Keys == {"data", "meta"}
    ensures j.fields["data"].Array? && |j.fields["data"].items| == |p.results|
    ensures forall i :: 0 <= i < |p.results| ==>
              j.fields["data"].items[i] == Object(Transformers.Transformed(t, p.results[i], target))
    ensures j.fields["meta"] == Object(map["cursor" := Object(map[
              "previous" := Null,
              "current" := CurrentCursor(p.results),
              "next" := OfOptionalString(p.nextCursor)])])
  {
    var data := Transformers.TransformCollection(t, p.results, target);
    var cursor := Object(map["previous" := Null, "current" := CurrentCursor(p.results), "next" := OfOptionalString(p.nextCursor)]);
    j := Object(map["data" := DataArray(data), "meta" := Object(map["cursor" := cursor])]);
  }
}
