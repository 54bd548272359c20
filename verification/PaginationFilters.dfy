/** What the query interface answers, told on the rows, the filters and the text of the cursor. */
module PaginationFilters {
  import opened Pagination
  import opened Seqs

  /** The query asks for this row, on whatever page it falls. */
  ghost predicate Wanted(lib: Library, q: Query, r: Row) {
    && (q.includeHistorical || r.validTo == None)
    && (q.timeFrom.None? || q.timeFrom.value <= r.eventTime)
    && (q.timeTo.None? || r.eventTime <= q.timeTo.value)
    && (q.sourceSystem == "" || lib.ilike(r.sourceSystem, "%" + q.sourceSystem + "%"))
    && (q.objectClass == "" || r.objectClass == q.objectClass)
    && InBox(lib, q.within, r)
  }

  /** No box is given, or the one given reads as a box that the row's geometry intersects. */
  ghost predicate InBox(lib: Library, within: Option<string>, r: Row) {
    within in [None, Some("")] || exists b :: lib.parseBox(within.value) == Some(b) && lib.intersects(r, b)
  }

  /** The cursor is a time and a uid with the first bar between them. */
  ghost predicate ReadsAs(lib: Library, cursor: string, t: int, u: nat) {
    exists a, b :: IsSplit(cursor, a, b) && lib.parseIso(a) == Some(t) && lib.parseUuid(b) == Some(u)
  }

  predicate IsSplit(cursor: string, a: string, b: string) {
    cursor == a + "|" + b && '|' !in a
  }

  ghost predicate Understood(lib: Library, q: Query) {
    && (q.within in [None, Some("")] || lib.parseBox(q.within.value).Some?)
    && (q.cursor == "" || exists t, u: nat :: ReadsAs(lib, q.cursor, t, u))
  }

  predicate Older(r: Row, t: int, u: nat) {
    r.eventTime < t || (r.eventTime == t && r.uid < u)
  }

  ghost predicate Ahead(lib: Library, q: Query, r: Row) {
    q.cursor == "" || exists t, u: nat :: ReadsAs(lib, q.cursor, t, u) && Older(r, t, u)
  }

  lemma {:induction false} SplitAtBarIs(s: string)
    ensures SplitAtBar(s).Some? ==> IsSplit(s, SplitAtBar(s).value.0, SplitAtBar(s).value.1)
    ensures SplitAtBar(s).None? ==> '|' !in s
  {
    if s != "" && s[0] != '|' {
      SplitAtBarIs(s[1..]);
      assert s == [s[0]] + s[1..];
    }
  }

  lemma {:induction false} ParseCursorIs(lib: Library, s: string)
    ensures forall t, u: nat :: ParseCursor(lib, s) == Some(Position(t, u)) <==> ReadsAs(lib, s, t, u)
    ensures ParseCursor(lib, s).Some? <==> exists t, u: nat :: ReadsAs(lib, s, t, u)
  {
    SplitAtBarIs(s);
    forall t, u: nat
      ensures ParseCursor(lib, s) == Some(Position(t, u)) <==> ReadsAs(lib, s, t, u)
    {
      if a, b :| IsSplit(s, a, b) && lib.parseIso(a) == Some(t) && lib.parseUuid(b) == Some(u) {
        BarSplits(a, b);
      }
      if ParseCursor(lib, s) == Some(Position(t, u)) {
        var (a, b) := SplitAtBar(s).value;
        assert IsSplit(s, a, b);
      }
    }
    if ParseCursor(lib, s).Some? {
      var p := ParseCursor(lib, s).value;
      assert ReadsAs(lib, s, p.time, p.uid);
    }
  }

  lemma {:induction false} WantedIs(lib: Library, q: Query, r: Row)
    requires q.within in [None, Some("")] || lib.parseBox(q.within.value).Some?
    ensures Matches(lib, q, QueriedBox(lib, q), r) <==> Wanted(lib, q, r)
  {
  }

  lemma {:induction false} AheadIs(lib: Library, q: Query, r: Row)
    requires q.cursor == "" || ParseCursor(lib, q.cursor).Some?
    ensures PastCursor(if q.cursor != "" then ParseCursor(lib, q.cursor) else None, r) <==> Ahead(lib, q, r)
  {
    hide ParseCursor, ReadsAs;
    ParseCursorIs(lib, q.cursor);
    if q.cursor != "" {
      var p := ParseCursor(lib, q.cursor).value;
      assert ReadsAs(lib, q.cursor, p.time, p.uid);
    }
  }

  /** A request is turned away exactly if its box or its cursor is not understood. */
  lemma {:induction false} BadRequestIff(lib: Library, q: Query, table: Table)
    ensures Answer(lib, q, table) == BadRequest <==> !Understood(lib, q)
  {
    hide ParseCursor, ReadsAs, PageFrom;
    ParseCursorIs(lib, q.cursor);
    assert Understood(lib, q) <==>
           && (q.within in [None, Some("")] || lib.parseBox(q.within.value).Some?)
           && (q.cursor == "" || ParseCursor(lib, q.cursor).Some?);
  }

  /** A page holds wanted rows ahead, newest first; those it leaves out are older than all it holds, and then it is full
      and names its last row as the cursor. */
  lemma {:induction false} AnswerIs(lib: Library, q: Query, table: Table)
    requires UniqueUids(table) && q.limit >= 1 && Understood(lib, q)
    ensures Answer(lib, q, table).Ok?
    ensures var items := Answer(lib, q, table).page.items;
            && (forall i, j | 0 <= i < j < |items| :: Older(items[j], items[i].eventTime, items[i].uid))
            && (forall r | r in items :: r in table && Wanted(lib, q, r) && Ahead(lib, q, r))
            && (forall r, s | r in table && Wanted(lib, q, r) && Ahead(lib, q, r) && r !in items && s in items ::
                  Older(r, s.eventTime, s.uid))
    ensures var page := Answer(lib, q, table).page;
            && |page.items| <= q.limit
            && (page.nextCursor.None? <==>
                forall r | r in table && Wanted(lib, q, r) && Ahead(lib, q, r) :: r in page.items)
            && (page.nextCursor.Some? ==>
                  var n := q.limit - 1;
                  && |page.items| == n + 1
                  && page.nextCursor.value
                     == lib.isoFormat(page.items[n].eventTime) + "|" + lib.uuidText(page.items[n].uid))
  {
    hide Sort, Filter, Matches, Wanted, ParseCursor, Ahead, UniqueUids, ReadsAs, Remaining;
    BadRequestIff(lib, q, table);
    var start := if q.cursor != "" then ParseCursor(lib, q.cursor) else None;
    var box := QueriedBox(lib, q);
    var all := Remaining(lib, q, box, start, table);
    RemainingIs(lib, q, box, start, table);
    forall r
      ensures r in all <==> r in table && Wanted(lib, q, r) && Ahead(lib, q, r)
    {
      WantedIs(lib, q, r);
      AheadIs(lib, q, r);
    }
    PageIsFront(lib, q, box, start, table);
    FrontOfDescending(all, Answer(lib, q, table).page.items);
  }

  lemma {:induction false} PageIsFront(lib: Library, q: Query, box: Option<Box>, start: Option<Position>, table: Table)
    requires q.limit >= 1
    ensures var page := PageFrom(lib, q, box, start, table);
            var all := Remaining(lib, q, box, start, table);
            && page.items <= all && |page.items| <= q.limit
            && (page.nextCursor.None? <==> page.items == all)
            && (page.nextCursor.Some? ==>
                  && |page.items| == q.limit
                  && page.nextCursor.value == FormatCursor(lib, page.items[q.limit - 1]))
  {
    hide Sort, Filter, Matches;
  }

  /** What a descending list has behind its front is older than the front. */
  lemma {:induction false} FrontOfDescending(all: seq<Row>, items: seq<Row>)
    requires Descending(all) && items <= all
    ensures forall r, s | r in all && r !in items && s in items :: Behind(PositionOf(r), PositionOf(s))
    ensures items == all <==> forall r | r in all :: r in items
  {
    forall r, s | r in all && r !in items && s in items
      ensures Behind(PositionOf(r), PositionOf(s))
    {
      var i :| 0 <= i < |all| && all[i] == r;
      var j :| 0 <= j < |items| && items[j] == s;
      assert forall k | 0 <= k < |items| :: all[k] == items[k] && items[k] in items;
      assert all[j] == s;
    }
    if |items| < |all| {
      assert all[|items|] in all;
      forall j | 0 <= j < |items|
        ensures items[j] != all[|items|]
      {
        assert Behind(PositionOf(all[|items|]), PositionOf(all[j]));
      }
    }
  }

  // --- Whole listings ---

  /** The pages a client gets who follows every cursor to the end, of a table that stays as it is. */
  predicate Listing(lib: Library, q: Query, table: Table, pages: seq<Page>) {
    && pages != [] && pages[|pages| - 1].nextCursor.None?
    && var tables := seq(|pages|, i => table);
       forall i | 0 <= i < |pages| :: Answered(lib, q, tables, pages, i)
  }

  /** A whole listing holds exactly the rows asked for, newest first. */
  lemma {:induction false} ListingIs(lib: Library, q: Query, table: Table, pages: seq<Page>)
    requires Faithful(lib) && UniqueUids(table) && q.limit >= 1 && Listing(lib, q, table, pages)
    ensures forall r :: r in Served(pages) <==> r in table && Wanted(lib, q, r)
    ensures var rows := Served(pages);
            forall i, j | 0 <= i < j < |rows| :: Older(rows[j], rows[i].eventTime, rows[i].uid)
  {
    hide Sort, Filter, Matches, Wanted, Remaining, UniqueUids, Walk, PageFrom, Served, Answered, Faithful;
    var tables := seq(|pages|, i => table);
    var box := QueriedBox(lib, q);
    FirstAnswered(lib, q, tables, pages);
    WalkIffAnswered(lib, q, box, tables, pages);
    FixedTablePages(lib, q, box, table, tables, pages);
    RemainingIs(lib, q, box, None, table);
    forall r
      ensures Matches(lib, q, box, r) <==> Wanted(lib, q, r)
    {
      WantedIs(lib, q, r);
    }
  }

  lemma {:induction false} FirstAnswered(lib: Library, q: Query, tables: seq<Table>, pages: seq<Page>)
    requires |tables| == |pages| && pages != [] && Answered(lib, q, tables, pages, 0)
    ensures q.within in [None, Some("")] || lib.parseBox(q.within.value).Some?
  {
    hide PageFrom;
  }

  lemma {:induction false} HistoryWants(lib: Library, q: Query, r: Row)
    ensures Wanted(lib, q.(includeHistorical := false), r) <==>
            Wanted(lib, q.(includeHistorical := true), r) && r.validTo == None
  {
    hide InBox;
  }

  /** Asking for history takes nothing away and adds nothing but retired rows; without it no row served is retired. */
  lemma {:induction false} HistoryAddsRetired(lib: Library, q: Query, table: Table, current: seq<Page>, full: seq<Page>)
    requires Faithful(lib) && UniqueUids(table) && q.limit >= 1
    requires Listing(lib, q.(includeHistorical := false), table, current)
    requires Listing(lib, q.(includeHistorical := true), table, full)
    ensures forall r :: r in Served(current) <==> r in Served(full) && r.validTo == None
  {
    hide Listing, UniqueUids, Faithful, Served, Wanted;
    ListingIs(lib, q.(includeHistorical := false), table, current);
    ListingIs(lib, q.(includeHistorical := true), table, full);
    forall r
      ensures r in Served(current) <==> r in Served(full) && r.validTo == None
    {
      HistoryWants(lib, q, r);
    }
  }

  /** An empty box is no box. */
  lemma {:induction false} EmptyBoxIgnored(lib: Library, q: Query, table: Table)
    ensures Answer(lib, q.(within := Some("")), table) == Answer(lib, q.(within := None), table)
  {
    hide Sort, Filter;
    var start := if q.cursor != "" then ParseCursor(lib, q.cursor) else None;
    var p, p' := q.(within := Some("")), q.(within := None);
    FilterSame(table, (r: Row) => Matches(lib, p, None, r) && PastCursor(start, r),
      (r: Row) => Matches(lib, p', None, r) && PastCursor(start, r));
  }
}
