/** Keyset pagination of the query interface, over a table that may change between pages. */
module Pagination {
  import opened Seqs

  datatype Row = Row(
    uid: nat,
    eventTime: int,
    validTo: Option<int>,
    sourceSystem: string,
    objectClass: string,
    rest: string)

  type Table = seq<Row>

  datatype Query = Query(
    within: Option<string>,
    timeFrom: Option<int>,
    timeTo: Option<int>,
    sourceSystem: string,
    objectClass: string,
    includeHistorical: bool,
    limit: nat,
    cursor: string)

  datatype Page = Page(items: seq<Row>, nextCursor: Option<string>)

  datatype Response = Ok(page: Page) | BadRequest

  datatype Box = Box(minLon: real, minLat: real, maxLon: real, maxLat: real)

  /** What the handler leaves to libraries and to the database: pattern matching, geometry, and the text
      forms of boxes, times and uids. */
  datatype Library = Library(
    ilike: (string, string) -> bool,
    intersects: (Row, Box) -> bool,
    parseBox: string -> Option<Box>,
    isoFormat: int -> string,
    parseIso: string -> Option<int>,
    uuidText: nat -> string,
    parseUuid: string -> Option<nat>)

  ghost predicate Faithful(lib: Library) {
    && (forall t :: lib.parseIso(lib.isoFormat(t)) == Some(t) && '|' !in lib.isoFormat(t))
    && (forall u: nat :: lib.parseUuid(lib.uuidText(u)) == Some(u))
  }

  // --- Order ---

  /** Where a page starts: strictly behind this (event_time, uid), or at the top. */
  datatype Position = Position(time: int, uid: nat)

  function PositionOf(r: Row): Position {
    Position(r.eventTime, r.uid)
  }

  /** `event_time < t OR (event_time = t AND uid < u)` */
  predicate Behind(r: Position, c: Position) {
    r.time < c.time || (r.time == c.time && r.uid < c.uid)
  }

  predicate Descending(rows: seq<Row>) {
    forall i, j | 0 <= i < j < |rows| :: Behind(PositionOf(rows[j]), PositionOf(rows[i]))
  }

  /** `ORDER BY event_time DESC, uid DESC` */
  function InsertDescending(rows: seq<Row>, r: Row): seq<Row> {
    if rows == [] || !Behind(PositionOf(r), PositionOf(rows[0])) then [r] + rows
    else [rows[0]] + InsertDescending(rows[1..], r)
  }

  function Sort(rows: seq<Row>): seq<Row> {
    if rows == [] then [] else InsertDescending(Sort(rows[..|rows| - 1]), rows[|rows| - 1])
  }

  function Filter(table: Table, cond: Row -> bool): seq<Row> {
    if table == [] then []
    else Filter(table[..|table| - 1], cond) + if cond(table[|table| - 1]) then [table[|table| - 1]] else []
  }

  function Take(rows: seq<Row>, n: nat): seq<Row> {
    if |rows| <= n then rows else rows[..n]
  }

  // --- The handler ---

  predicate Matches(lib: Library, q: Query, box: Option<Box>, r: Row) {
    && (!q.includeHistorical ==> r.validTo.None?)
    && (q.timeFrom.Some? ==> r.eventTime >= q.timeFrom.value)
    && (q.timeTo.Some? ==> r.eventTime <= q.timeTo.value)
    && (q.sourceSystem != "" ==> lib.ilike(r.sourceSystem, "%" + q.sourceSystem + "%"))
    && (q.objectClass != "" ==> r.objectClass == q.objectClass)
    && (box.Some? ==> lib.intersects(r, box.value))
  }

  /** The part before the first bar and the part after it. */
  function SplitAtBar(s: string): Option<(string, string)> {
    if s == "" then None
    else if s[0] == '|' then Some(("", s[1..]))
    else
      match SplitAtBar(s[1..])
      case None => None
      case Some((a, b)) => Some(([s[0]] + a, b))
  }

  function ParseCursor(lib: Library, s: string): Option<Position> {
    match SplitAtBar(s)
    case None => None
    case Some((ts, uid)) =>
      match (lib.parseIso(ts), lib.parseUuid(uid))
      case (Some(t), Some(u)) => Some(Position(t, u))
      case _ => None
  }

  function FormatCursor(lib: Library, r: Row): string {
    lib.isoFormat(r.eventTime) + "|" + lib.uuidText(r.uid)
  }

  predicate PastCursor(start: Option<Position>, r: Row) {
    start.Some? ==> Behind(PositionOf(r), start.value)
  }

  /** One page: the first `limit` of the matching rows behind the start, and a cursor if there are more. */
  function PageFrom(lib: Library, q: Query, box: Option<Box>, start: Option<Position>, table: Table): Page {
    var all := Sort(Filter(table, (r: Row) => Matches(lib, q, box, r) && PastCursor(start, r)));
    var rows := Take(all, q.limit + 1);
    var items := Take(rows, q.limit);
    Page(items, if |rows| > q.limit && items != [] then Some(FormatCursor(lib, items[|items| - 1])) else None)
  }

  function Answer(lib: Library, q: Query, table: Table): Response {
    var box := if q.within.Some? && q.within.value != "" then lib.parseBox(q.within.value) else None;
    var start := if q.cursor != "" then ParseCursor(lib, q.cursor) else None;
    if (q.within.Some? && q.within.value != "" && box.None?) || (q.cursor != "" && start.None?) then BadRequest
    else Ok(PageFrom(lib, q, box, start, table))
  }

  predicate AllHold(conds: seq<Row -> bool>, r: Row) {
    forall i | 0 <= i < |conds| :: conds[i](r)
  }

  lemma {:induction false} FilterSame(table: Table, p: Row -> bool, q: Row -> bool)
    requires forall r :: p(r) == q(r)
    ensures Filter(table, p) == Filter(table, q)
  {
    if table != [] {
      FilterSame(table[..|table| - 1], p, q);
    }
  }

  lemma {:induction false} NoConditions()
    ensures forall r :: AllHold([], r)
  {
  }

  /** `conds.append(...)` */
  method Append(conds: seq<Row -> bool>, cond: Row -> bool) returns (more: seq<Row -> bool>)
    ensures forall r :: AllHold(more, r) <==> AllHold(conds, r) && cond(r)
  {
    more := conds + [cond];
    forall r
      ensures AllHold(more, r) <==> AllHold(conds, r) && cond(r)
    {
      assert more[|conds|] == cond && forall i | 0 <= i < |conds| :: more[i] == conds[i];
      if AllHold(more, r) {
        assert forall i | 0 <= i < |conds| :: more[i](r);
      }
    }
  }

  /** The first half of list_ctos: the conditions of the filters, or nothing if the box does not parse. */
  method FilterConditions(lib: Library, q: Query) returns (conds: seq<Row -> bool>, box: Option<Box>, ok: bool)
    ensures var hasBox := q.within.Some? && q.within.value != "";
            && box == (if hasBox then lib.parseBox(q.within.value) else None)
            && (ok <==> !(hasBox && box.None?))
    ensures ok ==> forall r :: AllHold(conds, r) <==> Matches(lib, q, box, r)
  {
    hide AllHold;
    conds, box, ok := [], None, true;
    NoConditions();
    if !q.includeHistorical {
      conds := Append(conds, (r: Row) => r.validTo.None?);
    }
    if q.timeFrom.Some? {
      conds := Append(conds, (r: Row) => r.eventTime >= q.timeFrom.value);
    }
    if q.timeTo.Some? {
      conds := Append(conds, (r: Row) => r.eventTime <= q.timeTo.value);
    }
    if q.sourceSystem != "" {
      conds := Append(conds, (r: Row) => lib.ilike(r.sourceSystem, "%" + q.sourceSystem + "%"));
    }
    if q.objectClass != "" {
      conds := Append(conds, (r: Row) => r.objectClass == q.objectClass);
    }
    if q.within.Some? && q.within.value != "" {
      box := lib.parseBox(q.within.value);
      if box.None? {
        ok := false;
        return;
      }
      conds := Append(conds, (r: Row) => lib.intersects(r, box.value));
    }
  }

  /** list_ctos: collects its conditions one by one and runs one SELECT. */
  method ListCtos(lib: Library, q: Query, table: Table) returns (response: Response)
    ensures response == Answer(lib, q, table)
  {
    hide AllHold, Sort, Filter, Matches;
    var conds, box, ok := FilterConditions(lib, q);
    if !ok {
      return BadRequest;
    }
    var start := None;
    if q.cursor != "" {
      start := ParseCursor(lib, q.cursor);
      if start.None? {
        return BadRequest;
      }
      conds := Append(conds, (r: Row) => Behind(PositionOf(r), start.value));
    }
    var where := (r: Row) => AllHold(conds, r);
    FilterSame(table, where, (r: Row) => Matches(lib, q, box, r) && PastCursor(start, r));
    var rows := Take(Sort(Filter(table, where)), q.limit + 1);
    var hasMore := |rows| > q.limit;
    var items := Take(rows, q.limit);
    var nextCursor := None;
    if hasMore && items != [] {
      nextCursor := Some(FormatCursor(lib, items[|items| - 1]));
    }
    response := Ok(Page(items, nextCursor));
  }

  // --- Sorting ---

  /** Keys are unique in the table: uid is its primary key. */
  predicate UniqueUids(table: Table) {
    forall i, j | 0 <= i < j < |table| :: table[i].uid != table[j].uid
  }

  lemma {:induction false} PrependDescending(r: Row, rows: seq<Row>)
    requires Descending(rows) && (rows == [] || Behind(PositionOf(rows[0]), PositionOf(r)))
    ensures Descending([r] + rows)
  {
    forall i | 0 <= i < |rows|
      ensures Behind(PositionOf(rows[i]), PositionOf(r))
    {
      assert i > 0 ==> Behind(PositionOf(rows[i]), PositionOf(rows[0]));
    }
  }

  lemma {:induction false} OneIsBehind(r: Row, x: Row)
    requires r.uid != x.uid
    ensures Behind(PositionOf(r), PositionOf(x)) || Behind(PositionOf(x), PositionOf(r))
  {
  }

  lemma {:induction false} InsertKeepsDescending(rows: seq<Row>, r: Row)
    requires Descending(rows) && forall x | x in rows :: x.uid != r.uid
    ensures Descending(InsertDescending(rows, r))
    ensures multiset(InsertDescending(rows, r)) == multiset(rows) + multiset{r}
    ensures InsertDescending(rows, r)[0] == if rows != []
            && Behind(PositionOf(r), PositionOf(rows[0])) then rows[0] else r
  {
    hide Behind, PositionOf;
    if rows == [] {
    } else {
      OneIsBehind(r, rows[0]);
      if Behind(PositionOf(r), PositionOf(rows[0])) {
        InsertKeepsDescending(rows[1..], r);
        assert |rows| > 1 ==> Behind(PositionOf(rows[1]), PositionOf(rows[0]));
        PrependDescending(rows[0], InsertDescending(rows[1..], r));
        assert rows == [rows[0]] + rows[1..];
      } else {
        PrependDescending(r, rows);
      }
    }
  }

  lemma {:induction false} SortDescends(rows: seq<Row>)
    requires UniqueUids(rows)
    ensures Descending(Sort(rows)) && multiset(Sort(rows)) == multiset(rows)
  {
    if rows != [] {
      var n := |rows| - 1;
      SortDescends(rows[..n]);
      assert rows == rows[..n] + [rows[n]];
      forall x | x in Sort(rows[..n])
        ensures x.uid != rows[n].uid
      {
        assert x in multiset(Sort(rows[..n]));
        assert x in multiset(rows[..n]);
        var k :| 0 <= k < n && rows[..n][k] == x;
      }
      InsertKeepsDescending(Sort(rows[..n]), rows[n]);
    }
  }

  lemma {:induction false} FilterIs(table: Table, cond: Row -> bool)
    ensures forall r :: r in Filter(table, cond) <==> r in table && cond(r)
    ensures UniqueUids(table) ==> UniqueUids(Filter(table, cond))
  {
    if table != [] {
      var n := |table| - 1;
      FilterIs(table[..n], cond);
      assert table == table[..n] + [table[n]];
      if UniqueUids(table) {
        assert forall r | r in Filter(table[..n], cond) :: r in table[..n];
        assert forall r | r in table[..n] :: r.uid != table[n].uid;
      }
    }
  }

  // --- One page ---

  /** The matching rows behind a start, newest first. */
  function Remaining(lib: Library, q: Query, box: Option<Box>, start: Option<Position>, table: Table): seq<Row> {
    Sort(Filter(table, (r: Row) => Matches(lib, q, box, r) && PastCursor(start, r)))
  }

  lemma {:induction false} RemainingIs(lib: Library, q: Query, box: Option<Box>, start: Option<Position>, table: Table)
    requires UniqueUids(table)
    ensures Descending(Remaining(lib, q, box, start, table))
    ensures forall r :: r in Remaining(lib, q, box, start, table)
                        <==> r in table && Matches(lib, q, box, r) && PastCursor(start, r)
  {
    hide Sort, Filter, Matches;
    var cond := (r: Row) => Matches(lib, q, box, r) && PastCursor(start, r);
    var found := Filter(table, cond);
    FilterIs(table, cond);
    SortDescends(found);
    forall r
      ensures r in Sort(found) <==> r in found
    {
      assert r in multiset(Sort(found)) <==> r in multiset(found);
    }
  }

  lemma {:induction false} BarSplits(t: string, u: string)
    requires '|' !in t
    ensures SplitAtBar(t + "|" + u) == Some((t, u))
  {
    var s := t + "|" + u;
    if t == "" {
      assert s == ['|'] + u && s[1..] == u;
    } else {
      assert s[1..] == t[1..] + "|" + u;
      assert s[0] == t[0] && t[0] in t && forall c | c in t[1..] :: c in t;
      BarSplits(t[1..], u);
      assert t == [t[0]] + t[1..];
    }
  }

  /** The cursor handed out leads back to the last row served. */
  lemma {:induction false} CursorRoundTrip(lib: Library, r: Row)
    requires Faithful(lib)
    ensures ParseCursor(lib, FormatCursor(lib, r)) == Some(PositionOf(r)) && FormatCursor(lib, r) != ""
  {
    BarSplits(lib.isoFormat(r.eventTime), lib.uuidText(r.uid));
  }

  // --- Following next_cursor ---

  function Start(lib: Library, cursor: Option<string>): Option<Position> {
    if cursor.None? then None else ParseCursor(lib, cursor.value)
  }

  /** Page i is the answer of the i-th state of the table to the cursor of page i - 1. */
  predicate Walk(lib: Library, q: Query, box: Option<Box>, tables: seq<Table>, pages: seq<Page>) {
    |tables| == |pages| && forall i | 0 <= i < |pages| :: NthPage(lib, q, box, tables, pages, i)
  }

  predicate NthPage(lib: Library, q: Query, box: Option<Box>, tables: seq<Table>, pages: seq<Page>, i: nat)
    requires |tables| == |pages| && i < |pages|
  {
    && (i > 0 ==> pages[i - 1].nextCursor.Some?)
    && pages[i] == PageFrom(lib, q, box, StartOf(lib, pages[..i]), tables[i])
  }

  /** Where the page after these starts. */
  function StartOf(lib: Library, pages: seq<Page>): Option<Position> {
    if pages == [] then None else Start(lib, pages[|pages| - 1].nextCursor)
  }

  function Served(pages: seq<Page>): seq<Row> {
    if pages == [] then [] else Served(pages[..|pages| - 1]) + pages[|pages| - 1].items
  }

  /** What one page leaves to be served: everything behind its last row. */
  lemma {:induction false} PageSplits(lib: Library, q: Query, box: Option<Box>, start: Option<Position>, table: Table)
    requires Faithful(lib) && UniqueUids(table) && q.limit >= 1
    ensures var page := PageFrom(lib, q, box, start, table);
            var all := Remaining(lib, q, box, start, table);
            && page.items <= all
            && (page.nextCursor.None? ==> page.items == all)
            && (page.nextCursor.Some? ==>
                  && |page.items| == q.limit < |all|
                  && Start(lib, page.nextCursor) == Some(PositionOf(page.items[q.limit - 1])))
  {
    hide Sort, Filter, ParseCursor, FormatCursor;
    var page := PageFrom(lib, q, box, start, table);
    if page.nextCursor.Some? {
      CursorRoundTrip(lib, page.items[|page.items| - 1]);
    }
  }

  lemma {:induction false} DescendingConcat(xs: seq<Row>, ys: seq<Row>)
    requires Descending(xs) && Descending(ys)
    requires xs != [] ==> forall y | y in ys :: Behind(PositionOf(y), PositionOf(xs[|xs| - 1]))
    ensures Descending(xs + ys)
  {
    forall i, j | 0 <= i < |xs| && 0 <= j < |ys|
      ensures Behind(PositionOf(ys[j]), PositionOf(xs[i]))
    {
      assert ys[j] in ys;
      assert i < |xs| - 1 ==> Behind(PositionOf(xs[|xs| - 1]), PositionOf(xs[i]));
    }
  }

  /** The served rows descend, and while there is a next cursor it points at the last of them. */
  lemma {:induction false} WalkInvariant(lib: Library, q: Query, box: Option<Box>, tables: seq<Table>, pages: seq<Page>)
    requires Faithful(lib) && q.limit >= 1 && Walk(lib, q, box, tables, pages)
    requires forall t | t in tables :: UniqueUids(t)
    ensures Descending(Served(pages))
    ensures pages != [] && pages[|pages| - 1].nextCursor.Some? ==>
              && |Served(pages)| == |pages| * q.limit
              && Served(pages) != []
              && StartOf(lib, pages) == Some(PositionOf(Served(pages)[|Served(pages)| - 1]))
    ensures pages != [] ==> |Served(pages)| >= (|pages| - 1) * q.limit
    decreases |pages|
  {
    hide PageFrom, Remaining, Start, Matches;
    if pages != [] {
      var n := |pages| - 1;
      var before := pages[..n];
      WalkPrefix(lib, q, box, tables, pages, n);
      WalkInvariant(lib, q, box, tables[..n], before);
      assert NthPage(lib, q, box, tables, pages, n);
      assert tables[n] in tables;
      var start := StartOf(lib, before);
      PageSplits(lib, q, box, start, tables[n]);
      RemainingIs(lib, q, box, start, tables[n]);
      var items := pages[n].items;
      var all := Remaining(lib, q, box, start, tables[n]);
      assert Descending(items);
      forall y | y in items
        ensures PastCursor(start, y)
      {
        assert y in all;
      }
      assert n > 0 ==> before[n - 1].nextCursor.Some?;
      DescendingConcat(Served(before), items);
      assert (n + 1) * q.limit == n * q.limit + q.limit;
    }
  }

  lemma {:induction false} WalkPrefix(lib: Library, q: Query, box: Option<Box>, tables: seq<Table>, pages: seq<Page>,
      n: nat)
    requires Walk(lib, q, box, tables, pages) && n <= |pages|
    ensures Walk(lib, q, box, tables[..n], pages[..n])
    ensures forall t | t in tables[..n] :: t in tables
  {
    hide PageFrom, StartOf;
    forall i | 0 <= i < n
      ensures NthPage(lib, q, box, tables[..n], pages[..n], i)
    {
      assert NthPage(lib, q, box, tables, pages, i);
      assert pages[..n][..i] == pages[..i];
    }
  }

  lemma {:induction false} LastPage(lib: Library, q: Query, box: Option<Box>, tables: seq<Table>, pages: seq<Page>)
    requires Walk(lib, q, box, tables, pages) && pages != []
    ensures var n := |pages| - 1;
            && |tables| == |pages| && tables[n] in tables
            && pages[n] == PageFrom(lib, q, box, StartOf(lib, pages[..n]), tables[n])
            && (n > 0 ==> pages[..n][n - 1].nextCursor.Some?)
  {
    hide PageFrom, StartOf;
    assert NthPage(lib, q, box, tables, pages, |pages| - 1);
  }

  /** Following next_cursor while the table changes between pages never serves a (event_time, uid) twice. */
  lemma {:induction false} NeverServedTwice(lib: Library, q: Query, box: Option<Box>, tables: seq<Table>,
      pages: seq<Page>, i: nat, j: nat)
    requires Faithful(lib) && q.limit >= 1 && Walk(lib, q, box, tables, pages)
    requires forall t | t in tables :: UniqueUids(t)
    requires i < j < |Served(pages)|
    ensures Behind(PositionOf(Served(pages)[j]), PositionOf(Served(pages)[i]))
    ensures PositionOf(Served(pages)[i]) != PositionOf(Served(pages)[j])
  {
    hide Walk;
    WalkInvariant(lib, q, box, tables, pages);
  }

  lemma {:induction false} ServedFromTables(lib: Library, q: Query, box: Option<Box>, tables: seq<Table>,
      pages: seq<Page>, r: Row)
    requires Faithful(lib) && q.limit >= 1 && Walk(lib, q, box, tables, pages)
    requires (forall t | t in tables :: UniqueUids(t)) && r in Served(pages)
    ensures exists t :: t in tables && r in t
    decreases |pages|
  {
    hide PageFrom, Remaining, Start, Matches, Faithful, UniqueUids;
    var n := |pages| - 1;
    if r in pages[n].items {
      LastPage(lib, q, box, tables, pages);
      var start := StartOf(lib, pages[..n]);
      PageSplits(lib, q, box, start, tables[n]);
      RemainingIs(lib, q, box, start, tables[n]);
      assert r in Remaining(lib, q, box, start, tables[n]);
    } else {
      WalkPrefix(lib, q, box, tables, pages, n);
      ServedFromTables(lib, q, box, tables[..n], pages[..n], r);
    }
  }

  /** No uid keeps different event times in different states of the table. */
  predicate TimesKept(tables: seq<Table>) {
    forall t, u | t in tables && u in tables ::
      forall r, s | r in t && s in u && r.uid == s.uid :: r.eventTime == s.eventTime
  }

  /** As long as objects keep their event time, none is served twice, whatever else changes in its row. */
  lemma {:induction false} NoUidServedTwice(lib: Library, q: Query, box: Option<Box>, tables: seq<Table>,
      pages: seq<Page>, i: nat, j: nat)
    requires Faithful(lib) && q.limit >= 1 && Walk(lib, q, box, tables, pages)
    requires (forall t | t in tables :: UniqueUids(t)) && TimesKept(tables)
    requires i < j < |Served(pages)|
    ensures Served(pages)[i].uid != Served(pages)[j].uid
  {
    hide Walk, Faithful, UniqueUids, Served;
    var served := Served(pages);
    NeverServedTwice(lib, q, box, tables, pages, i, j);
    ServedFromTables(lib, q, box, tables, pages, served[i]);
    ServedFromTables(lib, q, box, tables, pages, served[j]);
  }

  ghost predicate ServedAt(pages: seq<Page>, p: Position) {
    exists k :: 0 <= k < |Served(pages)| && PositionOf(Served(pages)[k]) == p
  }

  /** In every state of the table there is a row with this key that matches the query. */
  ghost predicate AlwaysThere(lib: Library, q: Query, box: Option<Box>, tables: seq<Table>, p: Position) {
    forall t | t in tables :: exists r :: r in t && PositionOf(r) == p && Matches(lib, q, box, r)
  }

  lemma {:induction false} ServedOrAhead(lib: Library, q: Query, box: Option<Box>, tables: seq<Table>, pages: seq<Page>,
      p: Position)
    requires Faithful(lib) && q.limit >= 1 && Walk(lib, q, box, tables, pages)
    requires forall t | t in tables :: UniqueUids(t)
    requires AlwaysThere(lib, q, box, tables, p)
    ensures ServedAt(pages, p) || pages == [] || (StartOf(lib, pages).Some? && Behind(p, StartOf(lib, pages).value))
    ensures ServedAt(pages, p) || pages == [] || pages[|pages| - 1].nextCursor.Some?
    decreases |pages|
  {
    hide PageFrom, Start, Matches, Faithful, UniqueUids;
    if pages != [] {
      var n := |pages| - 1;
      var before := pages[..n];
      WalkPrefix(lib, q, box, tables, pages, n);
      ServedOrAhead(lib, q, box, tables[..n], before, p);
      assert NthPage(lib, q, box, tables, pages, n);
      assert tables[n] in tables;
      var items := pages[n].items;
      var served := Served(before);
      assert Served(pages) == served + items;
      if ServedAt(before, p) {
        var k :| 0 <= k < |served| && PositionOf(served[k]) == p;
        assert Served(pages)[k] == served[k];
      } else {
        var r :| r in tables[n] && PositionOf(r) == p && Matches(lib, q, box, r);
        PageServesOrPasses(lib, q, box, StartOf(lib, before), tables[n], r);
        if r in items {
          var k :| 0 <= k < |items| && items[k] == r;
          assert Served(pages)[|served| + k] == r;
        }
      }
    }
  }

  /** A matching row behind the start of a page is on the page or behind the next start. */
  lemma {:induction false} PageServesOrPasses(lib: Library, q: Query, box: Option<Box>, start: Option<Position>,
      table: Table, r: Row)
    requires Faithful(lib) && UniqueUids(table) && q.limit >= 1
    requires r in table && Matches(lib, q, box, r) && PastCursor(start, r)
    ensures var page := PageFrom(lib, q, box, start, table);
            r in page.items ||
            (page.nextCursor.Some? && Start(lib, page.nextCursor).Some?
                    && Behind(PositionOf(r), Start(lib, page.nextCursor).value))
  {
    hide PageFrom, Remaining, Start, Matches, Faithful;
    PageSplits(lib, q, box, start, table);
    RemainingIs(lib, q, box, start, table);
    var all := Remaining(lib, q, box, start, table);
    var items := PageFrom(lib, q, box, start, table).items;
    assert r in all;
    var k :| 0 <= k < |all| && all[k] == r;
    if k < |items| {
      assert items[k] == r;
    } else {
      assert all[q.limit - 1] == items[q.limit - 1];
      assert Behind(PositionOf(all[k]), PositionOf(all[q.limit - 1]));
    }
  }

  /** Every key that is there and matches throughout a completed walk is served exactly once. */
  lemma {:induction false} ServedExactlyOnce(lib: Library, q: Query, box: Option<Box>, tables: seq<Table>,
      pages: seq<Page>, p: Position) returns (k: nat)
    requires Faithful(lib) && q.limit >= 1 && Walk(lib, q, box, tables, pages)
    requires forall t | t in tables :: UniqueUids(t)
    requires pages != [] && pages[|pages| - 1].nextCursor.None?
    requires AlwaysThere(lib, q, box, tables, p)
    ensures k < |Served(pages)| && PositionOf(Served(pages)[k]) == p
    ensures forall j | 0 <= j < |Served(pages)| && PositionOf(Served(pages)[j]) == p :: j == k
  {
    hide Walk, AlwaysThere, Faithful, StartOf;
    ServedOrAhead(lib, q, box, tables, pages, p);
    var served := Served(pages);
    k :| 0 <= k < |served| && PositionOf(served[k]) == p;
    WalkInvariant(lib, q, box, tables, pages);
    forall j | 0 <= j < |served| && j != k
      ensures PositionOf(served[j]) != p
    {
      assert if j < k then Behind(PositionOf(served[k]), PositionOf(served[j]))
             else Behind(PositionOf(served[j]), PositionOf(served[k]));
    }
  }

  // --- A walk is made of answers ---

  function QueriedBox(lib: Library, q: Query): Option<Box> {
    if q.within.Some? && q.within.value != "" then lib.parseBox(q.within.value) else None
  }

  /** The query for the page after these: the same filters with the last cursor handed out. */
  function NextQuery(q: Query, pages: seq<Page>): Query {
    q.(cursor := if pages != [] && pages[|pages| - 1].nextCursor.Some? then pages[|pages| - 1].nextCursor.value else "")
  }

  predicate Answered(lib: Library, q: Query, tables: seq<Table>, pages: seq<Page>, i: nat)
    requires |tables| == |pages| && i < |pages|
  {
    && (i > 0 ==> pages[i - 1].nextCursor.Some?)
    && Answer(lib, NextQuery(q, pages[..i]), tables[i]) == Ok(pages[i])
  }

  lemma {:induction false} CursorOnlyStarts(lib: Library, q: Query, cursor: string, box: Option<Box>,
      start: Option<Position>, table: Table)
    ensures PageFrom(lib, q.(cursor := cursor), box, start, table) == PageFrom(lib, q, box, start, table)
  {
    var q' := q.(cursor := cursor);
    FilterSame(table, (r: Row) => Matches(lib, q', box, r)
            && PastCursor(start, r), (r: Row) => Matches(lib, q, box, r) && PastCursor(start, r));
  }

  lemma {:induction false} AnswerIsNextPage(lib: Library, q: Query, box: Option<Box>, tables: seq<Table>,
      pages: seq<Page>, i: nat)
    requires Faithful(lib) && |tables| == |pages| && i < |pages|
    requires box == QueriedBox(lib, q) && (q.within.Some? && q.within.value != "" ==> box.Some?)
    requires i > 0 ==> NthPage(lib, q, box, tables, pages, i - 1)
    ensures NthPage(lib, q, box, tables, pages, i) <==> Answered(lib, q, tables, pages, i)
  {
    hide PageFrom, FormatCursor, ParseCursor;
    if i > 0 && pages[i - 1].nextCursor.Some? {
      HandedOut(lib, q, box, StartOf(lib, pages[..i - 1]), tables[i - 1]);
    }
    CursorOnlyStarts(lib, q, NextQuery(q, pages[..i]).cursor, box, StartOf(lib, pages[..i]), tables[i]);
  }

  /** A cursor that was handed out is not empty and is understood. */
  lemma {:induction false} HandedOut(lib: Library, q: Query, box: Option<Box>, start: Option<Position>, table: Table)
    requires Faithful(lib) && PageFrom(lib, q, box, start, table).nextCursor.Some?
    ensures var c := PageFrom(lib, q, box, start, table).nextCursor.value;
            c != "" && ParseCursor(lib, c).Some?
  {
    var items := PageFrom(lib, q, box, start, table).items;
    hide Sort, Filter, ParseCursor, FormatCursor;
    CursorRoundTrip(lib, items[|items| - 1]);
  }

  /** A walk is exactly what a client gets who asks again with each cursor it is given. */
  lemma {:induction false} WalkIffAnswered(lib: Library, q: Query, box: Option<Box>, tables: seq<Table>,
      pages: seq<Page>)
    requires Faithful(lib) && |tables| == |pages|
    requires box == QueriedBox(lib, q) && (q.within.Some? && q.within.value != "" ==> box.Some?)
    ensures Walk(lib, q, box, tables, pages) <==> forall i | 0 <= i < |pages| :: Answered(lib, q, tables, pages, i)
  {
    AnsweredUpTo(lib, q, box, tables, pages, |pages|);
  }

  lemma {:induction false} AnsweredUpTo(lib: Library, q: Query, box: Option<Box>, tables: seq<Table>, pages: seq<Page>,
      n: nat)
    requires Faithful(lib) && |tables| == |pages| && n <= |pages|
    requires box == QueriedBox(lib, q) && (q.within.Some? && q.within.value != "" ==> box.Some?)
    ensures (forall i | 0 <= i < n :: NthPage(lib, q, box, tables, pages, i))
            <==> forall i | 0 <= i < n :: Answered(lib, q, tables, pages, i)
  {
    hide NthPage, Answered, Faithful, QueriedBox;
    if n > 0 {
      AnsweredUpTo(lib, q, box, tables, pages, n - 1);
      if forall i | 0 <= i < n - 1 :: NthPage(lib, q, box, tables, pages, i) {
        AnswerIsNextPage(lib, q, box, tables, pages, n - 1);
      }
    }
  }

  // --- A table that stays as it is ---

  /** A strictly descending listing is determined by its elements. */
  lemma {:induction false} DescendingUnique(xs: seq<Row>, ys: seq<Row>)
    requires Descending(xs) && Descending(ys) && forall r :: r in xs <==> r in ys
    ensures xs == ys
  {
    if xs == [] {
      NonEmptyHas(ys);
    } else {
      assert xs[0] in ys;
      assert ys[0] in xs;
      HeadIsFirst(xs, ys[0]);
      HeadIsFirst(ys, xs[0]);
      assert xs[0] == ys[0];
      forall r
        ensures r in xs[1..] <==> r in ys[1..]
      {
        TailElements(xs, r);
        TailElements(ys, r);
      }
      DescendingUnique(xs[1..], ys[1..]);
      assert xs == [xs[0]] + xs[1..] && ys == [ys[0]] + ys[1..];
    }
  }

  lemma {:induction false} HeadIsFirst(xs: seq<Row>, r: Row)
    requires Descending(xs) && r in xs
    ensures r == xs[0] || Behind(PositionOf(r), PositionOf(xs[0]))
  {
    var k :| 0 <= k < |xs| && xs[k] == r;
    assert k > 0 ==> Behind(PositionOf(xs[k]), PositionOf(xs[0]));
  }

  lemma {:induction false} NonEmptyHas(xs: seq<Row>)
    ensures xs == [] || exists r :: r in xs
  {
    if xs != [] {
      assert xs[0] in xs;
    }
  }

  lemma {:induction false} TailElements(xs: seq<Row>, r: Row)
    requires xs != [] && Descending(xs)
    ensures r in xs[1..] <==> r in xs && r != xs[0]
  {
    assert xs == [xs[0]] + xs[1..];
    forall i | 0 < i < |xs|
      ensures xs[i] != xs[0]
    {
      assert Behind(PositionOf(xs[i]), PositionOf(xs[0]));
    }
  }

  /** What is behind the k-th remaining row is the rest of the list. */
  lemma {:induction false} RemainingBehind(lib: Library, q: Query, box: Option<Box>, start: Option<Position>,
      table: Table, k: nat)
    requires UniqueUids(table) && k < |Remaining(lib, q, box, start, table)|
    ensures var all := Remaining(lib, q, box, start, table);
            Remaining(lib, q, box, Some(PositionOf(all[k])), table) == all[k + 1..]
  {
    hide Remaining, Matches;
    var all := Remaining(lib, q, box, start, table);
    RemainingIs(lib, q, box, start, table);
    var next := Some(PositionOf(all[k]));
    RemainingIs(lib, q, box, next, table);
    var rest := Remaining(lib, q, box, next, table);
    forall r
      ensures r in rest <==> r in all[k + 1..]
    {
      if r in all {
        var i :| 0 <= i < |all| && all[i] == r;
        assert i < k ==> Behind(PositionOf(all[k]), PositionOf(all[i]));
        assert k < i ==> Behind(PositionOf(all[i]), PositionOf(all[k])) && all[k + 1..][i - k - 1] == r;
      }
      assert all[k] in all;
    }
    DescendingUnique(rest, all[k + 1..]);
  }

  lemma {:induction false} FixedTableWalk(lib: Library, q: Query, box: Option<Box>, table: Table, tables: seq<Table>,
      pages: seq<Page>)
    requires Faithful(lib) && q.limit >= 1 && UniqueUids(table) && Walk(lib, q, box, tables, pages)
    requires forall t | t in tables :: t == table
    ensures var all := Remaining(lib, q, box, None, table);
            var served := Served(pages);
            && served <= all
            && (pages == [] || pages[|pages| - 1].nextCursor.Some? ==>
                  Remaining(lib, q, box, StartOf(lib, pages), table) == all[|served|..])
            && (pages != [] && pages[|pages| - 1].nextCursor.None? ==> served == all)
    decreases |pages|
  {
    hide PageFrom, Remaining, Start, Matches, Faithful, UniqueUids;
    var all := Remaining(lib, q, box, None, table);
    if pages != [] {
      var n := |pages| - 1;
      var before := pages[..n];
      hide Walk;
      WalkPrefix(lib, q, box, tables, pages, n);
      LastPage(lib, q, box, tables, pages);
      FixedTableWalk(lib, q, box, table, tables[..n], before);
      var start := StartOf(lib, before);
      var m := |Served(before)|;
      assert Remaining(lib, q, box, start, table) == all[m..];
      var items := pages[n].items;
      PageOfRest(lib, q, box, start, table, all, m);
      assert Served(pages) == all[..m] + items;
      assert all[..m + |items|] == all[..m] + all[m..m + |items|];
    }
  }

  /** A page taken from the tail of a list leaves a shorter tail. */
  lemma {:induction false} PageOfRest(lib: Library, q: Query, box: Option<Box>, start: Option<Position>, table: Table,
      all: seq<Row>, m: nat)
    requires Faithful(lib) && q.limit >= 1 && UniqueUids(table)
    requires m <= |all| && Remaining(lib, q, box, start, table) == all[m..]
    ensures var page := PageFrom(lib, q, box, start, table);
            var n := |page.items|;
            && m + n <= |all| && page.items == all[m..m + n]
            && (page.nextCursor.None? ==> m + n == |all|)
            && (page.nextCursor.Some? ==> Remaining(lib, q, box, Start(lib, page.nextCursor), table) == all[m + n..])
  {
    hide PageFrom, Remaining, Start, Matches, Faithful, UniqueUids;
    PageSplits(lib, q, box, start, table);
    var page := PageFrom(lib, q, box, start, table);
    var n := |page.items|;
    SliceOfSlice(all, m, |all|, 0, n);
    assert page.items == all[m..|all|][..n];
    if page.nextCursor.Some? {
      RemainingBehind(lib, q, box, start, table, n - 1);
      SliceOfSlice(all, m, |all|, n, |all| - m);
    }
  }

  /** On a table that does not change, the pages of a completed walk are the whole list of matching rows, newest first,
      and no walk is longer than the list allows: with any limit from 1 on it terminates. */
  lemma {:induction false} FixedTablePages(lib: Library, q: Query, box: Option<Box>, table: Table, tables: seq<Table>,
      pages: seq<Page>)
    requires Faithful(lib) && q.limit >= 1 && UniqueUids(table) && Walk(lib, q, box, tables, pages)
    requires forall t | t in tables :: t == table
    requires pages != []
    ensures var all := Remaining(lib, q, box, None, table);
            && (pages[|pages| - 1].nextCursor.None? ==> Served(pages) == all)
            && (|pages| - 1) * q.limit <= |all|
  {
    hide Walk, Remaining, Faithful, UniqueUids;
    FixedTableWalk(lib, q, box, table, tables, pages);
    WalkInvariant(lib, q, box, tables, pages);
  }
}
