/** The read side of register_data: batch filters, SQLite ordering, OFFSET/LIMIT
    windows, read_data_from_db, the /filterData query and the /report rows. */
module Queries {

  import opened Basics
  import opened Numerics
  import opened Schema

  // ---------------------------------------------------------------- batch filter

  /** The rows whose batch_id equals (member) or differs from (not member) batch,
      in table order. */
  function Select(rows: seq<Row>, batch: string, member: bool): (r: seq<Row>)
    ensures |r| <= |rows|
    decreases |rows|
  {
    if rows == [] then []
    else
      var last := rows[|rows| - 1];
      Select(rows[..|rows| - 1], batch, member)
        + (if (last.data.batchId == batch) == member then [last] else [])
  }

  /** A row is selected exactly when it is in the table and its batch matches. */
  lemma {:induction false} SelectMembers(rows: seq<Row>, batch: string, member: bool)
    ensures forall r :: r in Select(rows, batch, member) <==>
      r in rows && (r.data.batchId == batch) == member
    decreases |rows|
  {
    if rows != [] {
      var init := rows[..|rows| - 1];
      SelectMembers(init, batch, member);
      assert rows == init + [rows[|rows| - 1]];
    }
  }

  /** Every row is in exactly one of the two selections, so their sizes add up. */
  lemma {:induction false} SelectPartition(rows: seq<Row>, batch: string)
    ensures multiset(Select(rows, batch, true)) + multiset(Select(rows, batch, false)) == multiset(rows)
    decreases |rows|
  {
    if rows != [] {
      var init := rows[..|rows| - 1];
      var last := rows[|rows| - 1];
      SelectPartition(init, batch);
      assert rows == init + [last];
      assert multiset(rows) == multiset(init) + multiset{last};
    }
  }

  /** So the two selections' sizes add up to the table's. */
  lemma SelectCounts(rows: seq<Row>, batch: string)
    ensures |Select(rows, batch, true)| + |Select(rows, batch, false)| == |rows|
  {
    SelectPartition(rows, batch);
    assert |multiset(Select(rows, batch, true)) + multiset(Select(rows, batch, false))| == |multiset(rows)|;
  }

  /** With no row of that batch, removing the batch removes nothing. */
  lemma {:induction false} SelectNoMatch(rows: seq<Row>, batch: string)
    requires forall k :: 0 <= k < |rows| ==> rows[k].data.batchId != batch
    ensures Select(rows, batch, false) == rows
    ensures Select(rows, batch, true) == []
    decreases |rows|
  {
    if rows != [] {
      var init := rows[..|rows| - 1];
      SelectNoMatch(init, batch);
      assert rows == init + [rows[|rows| - 1]];
    }
  }

  /** Selecting keeps the table's id order. */
  lemma {:induction false} SelectIdsIncreasing(rows: seq<Row>, batch: string, member: bool)
    requires IdsIncreasing(rows)
    ensures IdsIncreasing(Select(rows, batch, member))
    decreases |rows|
  {
    if rows != [] {
      var init := rows[..|rows| - 1];
      var last := rows[|rows| - 1];
      SelectIdsIncreasing(init, batch, member);
      SelectMembers(init, batch, member);
      var s := Select(init, batch, member);
      forall k | 0 <= k < |s|
        ensures s[k].id < last.id
      {
        assert s[k] in init;
        var j :| 0 <= j < |init| && init[j] == s[k];
        assert rows[j] == s[k];
      }
    }
  }

  /** Selecting after an append is selecting before it, plus the new row if it matches. */
  lemma SelectAppend(rows: seq<Row>, row: Row, batch: string, member: bool)
    ensures Select(rows + [row], batch, member)
      == Select(rows, batch, member) + (if (row.data.batchId == batch) == member then [row] else [])
  {
    assert (rows + [row])[..|rows|] == rows;
  }

  // ---------------------------------------------------------------- ordering

  /** A SQLite sort key: NULL first, then numbers (integers and reals compare by
      value, infinities at the ends), then text in code-point order. */
  datatype Key = KNull | KNegInf | KNum(x: real) | KPosInf | KText(s: string)

  function Rank(k: Key): int
  {
    match k
    case KNull => 0
    case KNegInf => 1
    case KNum(_) => 2
    case KPosInf => 3
    case KText(_) => 4
  }

  /** The BINARY collation: lexicographic by code point (UTF-8 byte order). */
  predicate TextLe(a: string, b: string)
    decreases |a|
  {
    |a| == 0 || (|b| > 0 && (a[0] < b[0] || (a[0] == b[0] && TextLe(a[1..], b[1..]))))
  }

  lemma {:induction false} TextLeTotal(a: string, b: string)
    ensures TextLe(a, b) || TextLe(b, a)
    decreases |a|
  {
    if |a| > 0 && |b| > 0 && a[0] == b[0] {
      TextLeTotal(a[1..], b[1..]);
    }
  }

  lemma {:induction false} TextLeTransitive(a: string, b: string, c: string)
    requires TextLe(a, b) && TextLe(b, c)
    ensures TextLe(a, c)
    decreases |a|
  {
    if |a| > 0 && a[0] == b[0] && b[0] == c[0] {
      TextLeTransitive(a[1..], b[1..], c[1..]);
    }
  }

  predicate KeyLe(a: Key, b: Key)
  {
    if Rank(a) != Rank(b) then Rank(a) < Rank(b)
    else if a.KNum? && b.KNum? then a.x <= b.x
    else if a.KText? && b.KText? then TextLe(a.s, b.s)
    else true
  }

  lemma KeyLeTotal(a: Key, b: Key)
    ensures KeyLe(a, b) || KeyLe(b, a)
  {
    if a.KText? && b.KText? {
      TextLeTotal(a.s, b.s);
    }
  }

  lemma KeyLeTransitive(a: Key, b: Key, c: Key)
    requires KeyLe(a, b) && KeyLe(b, c)
    ensures KeyLe(a, c)
  {
    if a.KText? && b.KText? && c.KText? {
      TextLeTransitive(a.s, b.s, c.s);
    }
  }

  function CellKey(c: Cell): Key
  {
    match c
    case IntCell(i) => KNum(i as real)
    case TextCell(s) => KText(s)
    case FloatCell(f) =>
      (match f
       case Finite(x) => KNum(x)
       case Infinite(negative) => if negative then KNegInf else KPosInf
       case NaN => KNull)
    case NullCell => KNull
  }

  /** The key ORDER BY <column> sorts a row by. */
  function SortKey(row: Row, column: string): Key
  {
    CellKey(DbCell(row, column))
  }

  /** a may come before b under ORDER BY column ASC (or DESC). */
  predicate Precedes(a: Row, b: Row, column: string, descending: bool)
  {
    if descending then KeyLe(SortKey(b, column), SortKey(a, column))
    else KeyLe(SortKey(a, column), SortKey(b, column))
  }

  predicate Ordered(rows: seq<Row>, column: string, descending: bool)
  {
    forall i :: 0 <= i < |rows| - 1 ==> Precedes(rows[i], rows[i + 1], column, descending)
  }

  /** Adjacent order is order: every earlier row may precede every later one. */
  lemma {:induction false} OrderedPairwise(rows: seq<Row>, column: string, descending: bool, i: int, j: int)
    requires Ordered(rows, column, descending)
    requires 0 <= i < j < |rows|
    ensures Precedes(rows[i], rows[j], column, descending)
    decreases j - i
  {
    if j > i + 1 {
      OrderedPairwise(rows, column, descending, i + 1, j);
      var a, b, c := SortKey(rows[i], column), SortKey(rows[i + 1], column), SortKey(rows[j], column);
      if descending {
        KeyLeTransitive(c, b, a);
      } else {
        KeyLeTransitive(a, b, c);
      }
    }
  }

  /** Insertion at the first row x strictly precedes: a permutation of the rows
      plus x, headed by x or by the old head. */
  function InsertOrdered(x: Row, rows: seq<Row>, column: string, descending: bool): (r: seq<Row>)
    ensures multiset(r) == multiset(rows) + multiset{x}
    ensures |r| == |rows| + 1 && (r[0] == x || (|rows| > 0 && r[0] == rows[0]))
    decreases |rows|
  {
    if rows == [] then [x]
    else if Precedes(x, rows[0], column, descending) && !Precedes(rows[0], x, column, descending) then
      [x] + rows
    else
      assert rows == [rows[0]] + rows[1..];
      [rows[0]] + InsertOrdered(x, rows[1..], column, descending)
  }

  /** Inserting into an ordered list keeps it ordered. */
  lemma {:induction false} InsertOrderedOrdered(x: Row, rows: seq<Row>, column: string, descending: bool)
    requires Ordered(rows, column, descending)
    ensures Ordered(InsertOrdered(x, rows, column, descending), column, descending)
    decreases |rows|
  {
    if rows != [] {
      if Precedes(x, rows[0], column, descending) && !Precedes(rows[0], x, column, descending) {
        ConsOrdered(x, rows, column, descending);
      } else {
        KeyLeTotal(SortKey(x, column), SortKey(rows[0], column));
        OrderedTail(rows, column, descending);
        InsertOrderedOrdered(x, rows[1..], column, descending);
        ConsOrdered(rows[0], InsertOrdered(x, rows[1..], column, descending), column, descending);
      }
    }
  }

  /** An ordered list stays ordered behind a row that may precede its head. */
  lemma ConsOrdered(h: Row, rows: seq<Row>, column: string, descending: bool)
    requires Ordered(rows, column, descending)
    requires |rows| > 0 ==> Precedes(h, rows[0], column, descending)
    ensures Ordered([h] + rows, column, descending)
  {
    var r := [h] + rows;
    forall i | 0 <= i < |r| - 1
      ensures Precedes(r[i], r[i + 1], column, descending)
    {
      if i > 0 {
        assert r[i] == rows[i - 1] && r[i + 1] == rows[i];
      }
    }
  }

  lemma OrderedTail(rows: seq<Row>, column: string, descending: bool)
    requires Ordered(rows, column, descending) && |rows| > 0
    ensures Ordered(rows[1..], column, descending)
    ensures |rows| > 1 ==> Precedes(rows[0], rows[1], column, descending)
  {
    var t := rows[1..];
    forall i | 0 <= i < |t| - 1
      ensures Precedes(t[i], t[i + 1], column, descending)
    {
      assert t[i] == rows[i + 1] && t[i + 1] == rows[i + 2];
    }
  }

  /** The rows ordered by one column: an ordered permutation of the input. SQL
      leaves the order of rows with equal keys open; this one keeps table order. */
  function SortBy(rows: seq<Row>, column: string, descending: bool): (r: seq<Row>)
    ensures Ordered(r, column, descending)
    ensures multiset(r) == multiset(rows) && |r| == |rows|
    decreases |rows|
  {
    if rows == [] then []
    else
      assert rows == rows[..|rows| - 1] + [rows[|rows| - 1]];
      var sorted := SortBy(rows[..|rows| - 1], column, descending);
      InsertOrderedOrdered(rows[|rows| - 1], sorted, column, descending);
      InsertOrdered(rows[|rows| - 1], sorted, column, descending)
  }

  /** Inserting a row that strictly follows every other appends it. */
  lemma {:induction false} InsertOrderedLast(x: Row, rows: seq<Row>, column: string, descending: bool)
    requires Ordered(rows, column, descending)
    requires forall k :: 0 <= k < |rows| ==> !Precedes(x, rows[k], column, descending)
    ensures InsertOrdered(x, rows, column, descending) == rows + [x]
    decreases |rows|
  {
    if rows != [] {
      InsertOrderedLast(x, rows[1..], column, descending);
      assert [rows[0]] + (rows[1..] + [x]) == rows + [x];
    }
  }

  lemma IdKey(row: Row)
    ensures SortKey(row, "id") == KNum(row.id as real)
  {
  }

  /** The table kept in id order is already ORDER BY id ASC. */
  lemma {:induction false} SortByIdOfIncreasing(rows: seq<Row>)
    requires IdsIncreasing(rows)
    ensures SortBy(rows, "id", false) == rows
    decreases |rows|
  {
    if rows != [] {
      var init := rows[..|rows| - 1];
      var last := rows[|rows| - 1];
      assert init + [last] == rows;
      IdsIncreasingSplit(init, last);
      SortByIdOfIncreasing(init);
      assert Ordered(init, "id", false);
      LaterIdFollows(init, last);
      InsertOrderedLast(last, init, "id", false);
      assert init + [last] == rows;
    }
  }

  /** Dropping the last row keeps id order, and the last id exceeds the others. */
  lemma IdsIncreasingSplit(init: seq<Row>, last: Row)
    requires IdsIncreasing(init + [last])
    ensures IdsIncreasing(init)
    ensures forall k :: 0 <= k < |init| ==> init[k].id < last.id
  {
    var rows := init + [last];
    forall k | 0 <= k < |init|
      ensures init[k].id < last.id
    {
      assert rows[k] == init[k] && rows[|init|] == last;
    }
    forall i, j | 0 <= i < j < |init|
      ensures init[i].id < init[j].id
    {
      assert rows[i] == init[i] && rows[j] == init[j];
    }
  }

  /** A row whose id exceeds every other may not come before any of them under
      ORDER BY id ASC. */
  lemma LaterIdFollows(rows: seq<Row>, last: Row)
    requires forall k :: 0 <= k < |rows| ==> rows[k].id < last.id
    ensures forall k :: 0 <= k < |rows| ==> !Precedes(last, rows[k], "id", false)
  {
    IdKey(last);
    forall k | 0 <= k < |rows|
      ensures !Precedes(last, rows[k], "id", false)
    {
      IdKey(rows[k]);
    }
  }

  // ---------------------------------------------------------------- OFFSET / LIMIT

  /** Where OFFSET starts: no offset or a negative one starts at the first row. */
  function WindowStart(offset: Option<int>, size: nat): (lo: nat)
    ensures lo <= size
    ensures (offset.None? || offset.value <= 0) ==> lo == 0
    ensures offset.Some? && offset.value > 0 ==> lo == Min(offset.value, size)
  {
    if offset.Some? && offset.value > 0 then Min(offset.value, size) else 0
  }

  /** .offset(offset).limit(limit): no limit or a negative one has no bound. */
  function Window<T>(s: seq<T>, offset: Option<int>, limit: Option<int>): (w: seq<T>)
    ensures WindowStart(offset, |s|) + |w| <= |s|
    ensures limit.Some? && limit.value >= 0 ==> |w| <= limit.value
    ensures limit.Some? && limit.value >= 0 ==> |w| == Min(limit.value, |s| - WindowStart(offset, |s|))
    ensures w == s[WindowStart(offset, |s|)..WindowStart(offset, |s|) + |w|]
    ensures (limit.None? || limit.value < 0) ==> w == s[WindowStart(offset, |s|)..]
  {
    var lo := WindowStart(offset, |s|);
    var hi := if limit.Some? && limit.value >= 0 then Min(lo + limit.value, |s|) else |s|;
    s[lo..hi]
  }

  lemma WindowOrdered(rows: seq<Row>, offset: Option<int>, limit: Option<int>, column: string, descending: bool)
    requires Ordered(rows, column, descending)
    ensures Ordered(Window(rows, offset, limit), column, descending)
  {
    var w := Window(rows, offset, limit);
    var lo := WindowStart(offset, |rows|);
    forall i | 0 <= i < |w| - 1
      ensures Precedes(w[i], w[i + 1], column, descending)
    {
      assert w[i] == rows[lo + i] && w[i + 1] == rows[lo + i + 1];
    }
  }

  // ---------------------------------------------------------------- read_data_from_db

  /** read_data_from_db(page, per_page): page `page` of the table ordered by id. */
  function ReadDataFromDb(rows: seq<Row>, page: int := 1, perPage: int := 50): seq<Row>
  {
    Window(SortBy(rows, "id", false), Some((page - 1) * perPage), Some(perPage))
  }

  /** On a table kept in id order, page p is the slice starting at (p-1)*per_page,
      at most per_page rows long. */
  lemma ReadDataFromDbSlice(rows: seq<Row>, page: int, perPage: int)
    requires IdsIncreasing(rows)
    requires page >= 1 && perPage >= 0
    ensures ReadDataFromDb(rows, page, perPage)
      == rows[Min((page - 1) * perPage, |rows|)..Min(page * perPage, |rows|)]
  {
    PageStep(page, perPage);
    ReadDataFromDbAt(rows, page, perPage, (page - 1) * perPage, page * perPage);
  }

  /** The same, with the page's first offset named lo and the next page's hi. */
  lemma ReadDataFromDbAt(rows: seq<Row>, page: int, perPage: int, lo: int, hi: int)
    requires IdsIncreasing(rows)
    requires perPage >= 0 && lo >= 0 && lo == (page - 1) * perPage && hi == lo + perPage
    ensures ReadDataFromDb(rows, page, perPage) == rows[Min(lo, |rows|)..Min(hi, |rows|)]
  {
    SortByIdOfIncreasing(rows);
    WindowSlice(rows, lo, perPage);
  }

  /** OFFSET a LIMIT n, both non-negative, is the slice from a to a + n, clipped. */
  lemma WindowSlice<T>(s: seq<T>, a: int, n: int)
    requires a >= 0 && n >= 0
    ensures Window(s, Some(a), Some(n)) == s[Min(a, |s|)..Min(a + n, |s|)]
  {
  }

  /** Page p begins where page p - 1 ends. */
  lemma PageStep(page: int, perPage: int)
    requires page >= 1 && perPage >= 0
    ensures 0 <= (page - 1) * perPage <= page * perPage
    ensures (page - 1) * perPage + perPage == page * perPage
  {
    assert (page - 1) * perPage + perPage == page * perPage by {
      assert (page - 1) * perPage == page * perPage - perPage;
    }
  }

  /** Pages 1..count, one after another. */
  function Pages(rows: seq<Row>, perPage: int, count: nat): seq<Row>
  {
    if count == 0 then [] else Pages(rows, perPage, count - 1) + ReadDataFromDb(rows, count, perPage)
  }

  /** Consecutive pages tile the table: no row is skipped or repeated, and
      pages 1..count together are its first count*per_page rows. */
  lemma PagesTileTable(rows: seq<Row>, perPage: int, count: nat)
    requires IdsIncreasing(rows) && perPage >= 0
    ensures Pages(rows, perPage, count) == rows[..Min(count * perPage, |rows|)]
  {
    PagesPrefix(rows, perPage, count, count * perPage);
  }

  /** The same, with count*per_page named hi. */
  lemma {:induction false} PagesPrefix(rows: seq<Row>, perPage: int, count: nat, hi: int)
    requires IdsIncreasing(rows) && perPage >= 0 && hi == count * perPage
    ensures Pages(rows, perPage, count) == rows[..Min(hi, |rows|)]
  {
    if count > 0 {
      PageStep(count, perPage);
      var lo := hi - perPage;
      PagesPrefix(rows, perPage, count - 1, lo);
      ReadDataFromDbAt(rows, count, perPage, lo, hi);
      PagesJoin(rows, perPage, count, Min(lo, |rows|), Min(hi, |rows|));
    }
  }

  /** One more page extends the prefix the earlier pages cover. */
  lemma PagesJoin(rows: seq<Row>, perPage: int, count: nat, a: int, b: int)
    requires count > 0 && 0 <= a <= b <= |rows|
    requires Pages(rows, perPage, count - 1) == rows[..a]
    requires ReadDataFromDb(rows, count, perPage) == rows[a..b]
    ensures Pages(rows, perPage, count) == rows[..b]
  {
    PrefixSplit(rows, a, b);
  }

  lemma PrefixSplit<T>(s: seq<T>, a: int, b: int)
    requires 0 <= a <= b <= |s|
    ensures s[..a] + s[a..b] == s[..b]
  {
  }

  // ---------------------------------------------------------------- /filterData

  /** The query parameters of /filterData; an absent or non-integer argument is None. */
  datatype FilterRequest = FilterRequest(
    draw: Option<int>,
    start: Option<int>,
    length: Option<int>,
    search: string,
    orderColumn: Option<int>,
    orderDirection: string)

  datatype FilterResponse = FilterResponse(
    draw: Option<int>,
    recordsTotal: nat,
    recordsFiltered: nat,
    data: seq<seq<Cell>>)

  /** The column ORDER BY uses: the indexed name when the index is in range and not
      one of the derived alarm columns, else "id". */
  function OrderColumnName(orderColumn: Option<int>): (name: string)
    ensures name in Columns && name !in AlarmColumns
    ensures (orderColumn.Some? && 0 <= orderColumn.value < |Columns|
             && Columns[orderColumn.value] !in AlarmColumns) ==> name == Columns[orderColumn.value]
    ensures !(orderColumn.Some? && 0 <= orderColumn.value < |Columns|) ==> name == "id"
  {
    var name := if orderColumn.Some? && 0 <= orderColumn.value < |Columns| then Columns[orderColumn.value] else "id";
    if name in AlarmColumns then "id" else name
  }

  /** By index: 0..6 and 11..28 name their own column; 7..10 (the alarms) and
      anything outside 0..28 fall back to "id". */
  lemma OrderColumnByIndex(c: int)
    ensures OrderColumnName(Some(c))
      == if 0 <= c < |HeaderColumns| + RegisterCount && !(7 <= c <= 10) then Columns[c] else "id"
  {
    if 0 <= c < |HeaderColumns| {
      assert Columns[c] == HeaderColumns[c];
      HeaderColumnIsAlarm(c);
    } else if |HeaderColumns| <= c < |Columns| {
      var i := c - |HeaderColumns| + 1;
      assert Columns[c] == RegisterColumn(i);
      RegisterColumnIsNotHeader(i);
      AlarmColumnsAreHeaders();
    }
  }

  /** Header columns 7..10 are the derived alarm columns. */
  lemma HeaderColumnIsAlarm(c: int)
    requires 0 <= c < |HeaderColumns|
    ensures HeaderColumns[c] in AlarmColumns <==> 7 <= c <= 10
  {
  }

  lemma AlarmColumnsAreHeaders()
    ensures forall n :: n in AlarmColumns ==> n in HeaderColumns
  {
  }

  /** The rows the search selects: an empty search selects every row. */
  function Matching(rows: seq<Row>, search: string): seq<Row>
  {
    if search != "" then Select(rows, search, true) else rows
  }

  /** The rows /filterData returns, before they are flattened. */
  function FilterRows(rows: seq<Row>, req: FilterRequest): seq<Row>
  {
    Window(SortBy(Matching(rows, req.search), OrderColumnName(req.orderColumn), req.orderDirection == "desc"),
           req.start, req.length)
  }

  /** filterData: the count after the batch filter, and the requested window of
      the ordered matching rows, each as an as_row_list. */
  function FilterData(rows: seq<Row>, req: FilterRequest): FilterResponse
  {
    FilterResponse(req.draw, |Matching(rows, req.search)|, |Matching(rows, req.search)|,
                   RowLists(FilterRows(rows, req)))
  }

  /** Each row as its as_row_list. */
  function RowLists(page: seq<Row>): (lists: seq<seq<Cell>>)
    ensures |lists| == |page|
    ensures forall k :: 0 <= k < |page| ==> lists[k] == AsRowList(page[k])
  {
    if page == [] then [] else RowLists(page[..|page| - 1]) + [AsRowList(page[|page| - 1])]
  }

  /** recordsTotal and recordsFiltered are one count: every row for an empty
      search, otherwise the rows whose batch is the search text. Paging and
      ordering do not change it. */
  lemma FilterDataCounts(rows: seq<Row>, req: FilterRequest)
    ensures var resp := FilterData(rows, req);
      && resp.recordsTotal == resp.recordsFiltered
      && (req.search == "" ==> resp.recordsTotal == |rows|)
      && (req.search != "" ==> resp.recordsTotal == |rows| - |Select(rows, req.search, false)|)
      && resp.draw == req.draw
  {
    SelectCounts(rows, req.search);
  }

  /** The returned rows are rows of the table whose batch is the search text
      (any row for an empty search). */
  lemma FilterRowsMembers(rows: seq<Row>, req: FilterRequest)
    ensures forall r :: r in FilterRows(rows, req) ==>
      r in rows && (req.search != "" ==> r.data.batchId == req.search)
  {
    var matching := Matching(rows, req.search);
    var sorted := SortBy(matching, OrderColumnName(req.orderColumn), req.orderDirection == "desc");
    SelectMembers(rows, req.search, true);
    forall r | r in FilterRows(rows, req)
      ensures r in matching
    {
      assert r in sorted;
      assert r in multiset(sorted);
    }
  }

  /** The returned rows follow the requested column and direction; only the exact
      string 'desc' sorts descending. */
  lemma FilterRowsOrdered(rows: seq<Row>, req: FilterRequest)
    ensures Ordered(FilterRows(rows, req), OrderColumnName(req.orderColumn), req.orderDirection == "desc")
  {
    var column := OrderColumnName(req.orderColumn);
    var descending := req.orderDirection == "desc";
    WindowOrdered(SortBy(Matching(rows, req.search), column, descending), req.start, req.length, column, descending);
  }

  /** A non-negative length bounds the page; with no offset and no bound every
      matching row comes back exactly once. */
  lemma FilterRowsWindow(rows: seq<Row>, req: FilterRequest)
    ensures req.length.Some? && req.length.value >= 0 ==> |FilterRows(rows, req)| <= req.length.value
    ensures (req.start.None? || req.start.value <= 0) && (req.length.None? || req.length.value < 0)
            ==> multiset(FilterRows(rows, req)) == multiset(Matching(rows, req.search))
  {
  }

  lemma AsRowListBatch(row: Row)
    ensures AsRowList(row)[4] == TextCell(row.data.batchId)
  {
  }

  /** When the search is set, every returned list carries that batch in its
      batch_id position (index 4). */
  lemma FilterDataBatchCells(rows: seq<Row>, req: FilterRequest, k: int)
    requires req.search != ""
    requires 0 <= k < |FilterData(rows, req).data|
    ensures FilterData(rows, req).data[k][4] == TextCell(req.search)
  {
    var page := FilterRows(rows, req);
    assert FilterData(rows, req).data == RowLists(page);
    FilterRowsMembers(rows, req);
    assert page[k] in page;
    assert FilterData(rows, req).data[k] == AsRowList(page[k]);
    AsRowListBatch(page[k]);
  }

  // ---------------------------------------------------------------- /report

  /** A value of a report row dictionary. */
  datatype ReportValue = RInt(i: int) | RText(s: string) | RNum(v: Option<Float>)

  /** The keys of a report row dictionary; KeyName is the title each stands for. */
  datatype ReportKey =
    | SerialNo | DateAndTime | BatchIdKey | MotorSpeed | MotorCurrent | MotorTorque
    | MotorRunHour | ProductTemperature | ActualTime
    | DriveTripAlarm | PressureLowAlarm | MotorPtcAlarm | TempSensorAlarm
    | ToolSpeed

  function KeyName(k: ReportKey): string
  {
    match k
    case SerialNo => "S.no"
    case DateAndTime => "Date & Time"
    case BatchIdKey => "Batch ID"
    case MotorSpeed => "Motor Speed"
    case MotorCurrent => "Motor Current"
    case MotorTorque => "Motor Torque"
    case MotorRunHour => "Motor Run Hour"
    case ProductTemperature => "Product Temperature"
    case ActualTime => "Actual Time"
    case DriveTripAlarm => "Drive Trip Alarm"
    case PressureLowAlarm => "Pressure Low Alarm"
    case MotorPtcAlarm => "Motor PTC Alarm"
    case TempSensorAlarm => "Temperature Sensor Alarm"
    case ToolSpeed => "Tool Speed"
  }

  /** One report row, a dictionary from column title to value. */
  type ReportRow = map<ReportKey, ReportValue>

  /** The report row client_new.py builds for serial number idx. */
  function ReportRowAsWritten(idx: int, row: Row): ReportRow
  {
    var bits := AlarmBitsFromRow(row);
    map[
      SerialNo := RInt(idx),
      DateAndTime := RText(row.data.date + " " + row.data.time),
      BatchIdKey := RText(row.data.batchId),
      MotorSpeed := RNum(Register(row, 2)),
      MotorCurrent := RNum(Register(row, 3)),
      MotorTorque := RNum(Register(row, 4)),
      MotorRunHour := RNum(Register(row, 5)),
      ProductTemperature := RNum(Register(row, 6)),
      ActualTime := RNum(Register(row, 9)),
      DriveTripAlarm := RInt(bits.driveTrip),
      PressureLowAlarm := RInt(bits.pressureLow),
      MotorPtcAlarm := RInt(bits.motorPtc),
      TempSensorAlarm := RInt(bits.tempSensor)]
  }

  /** The corrected report row: the thirteen entries as written, plus the tool
      speed (register 7) under the "Tool Speed" key the document's
      "Tool Speed(RPM)" column reads. */
  function ReportRowOf(idx: int, row: Row): (r: ReportRow)
    ensures r.Keys == ReportRowAsWritten(idx, row).Keys + {ToolSpeed}
    ensures r[ToolSpeed] == RNum(Register(row, 7))
    ensures forall key :: key in ReportRowAsWritten(idx, row) ==> r[key] == ReportRowAsWritten(idx, row)[key]
  {
    ReportRowAsWritten(idx, row)[ToolSpeed := RNum(Register(row, 7))]
  }

  /** The report row /report builds, or with fixed the corrected one. */
  function ReportRowFor(fixed: bool, idx: int, row: Row): ReportRow
  {
    if fixed then ReportRowOf(idx, row) else ReportRowAsWritten(idx, row)
  }

  /** client_new.py fills thirteen keys; "Tool Speed" is not among them. */
  lemma ReportRowAsWrittenKeys(idx: int, row: Row)
    ensures ReportRowAsWritten(idx, row).Keys ==
      {SerialNo, DateAndTime, BatchIdKey, MotorSpeed, MotorCurrent, MotorTorque, MotorRunHour,
       ProductTemperature, ActualTime, DriveTripAlarm, PressureLowAlarm, MotorPtcAlarm, TempSensorAlarm}
  {
  }

  /** The report row's serial number, batch and time: "Date & Time" is the
      stored date and time joined by a space. */
  lemma ReportRowHead(idx: int, row: Row)
    ensures var r := ReportRowAsWritten(idx, row);
      && SerialNo in r && r[SerialNo] == RInt(idx)
      && BatchIdKey in r && r[BatchIdKey] == RText(row.data.batchId)
      && DateAndTime in r && r[DateAndTime] == RText(row.data.date + " " + row.data.time)
  {
  }

  /** The report row's measurements: registers 2, 3, 4, 5, 6 and 9. */
  lemma ReportRowMeasurements(idx: int, row: Row)
    ensures var r := ReportRowAsWritten(idx, row);
      && MotorSpeed in r && r[MotorSpeed] == RNum(Register(row, 2))
      && MotorCurrent in r && r[MotorCurrent] == RNum(Register(row, 3))
      && MotorTorque in r && r[MotorTorque] == RNum(Register(row, 4))
      && MotorRunHour in r && r[MotorRunHour] == RNum(Register(row, 5))
      && ProductTemperature in r && r[ProductTemperature] == RNum(Register(row, 6))
      && ActualTime in r && r[ActualTime] == RNum(Register(row, 9))
  {
  }

  /** The report row's four alarm flags, from alarm_bits_from_row. */
  lemma ReportRowAlarms(idx: int, row: Row)
    ensures var r := ReportRowAsWritten(idx, row);
      var bits := AlarmBitsFromRow(row);
      && DriveTripAlarm in r && r[DriveTripAlarm] == RInt(bits.driveTrip)
      && PressureLowAlarm in r && r[PressureLowAlarm] == RInt(bits.pressureLow)
      && MotorPtcAlarm in r && r[MotorPtcAlarm] == RInt(bits.motorPtc)
      && TempSensorAlarm in r && r[TempSensorAlarm] == RInt(bits.tempSensor)
  {
  }

  /** The rows a report covers: every row for no (or an empty) batch query, else
      that batch's rows; ordered by id. */
  function ReportSelection(rows: seq<Row>, batchQuery: Option<string>): seq<Row>
  {
    SortBy(Chosen(rows, batchQuery), "id", false)
  }

  datatype ReportOutcome = RedirectToView | RenderPdf(data: seq<ReportRow>, interval: Option<Float>)

  /** A document of the selected rows numbered from 1, with the first row's
      register16 as its interval; nothing selected redirects to /view. */
  function Render(selected: seq<Row>, fixed: bool): ReportOutcome
  {
    if |selected| == 0 then RedirectToView
    else RenderPdf(ReportRows(selected, fixed), Register(selected[0], 16))
  }

  /** report() as written. */
  function Report(rows: seq<Row>, batchQuery: Option<string>): ReportOutcome
  {
    Render(ReportSelection(rows, batchQuery), false)
  }

  /** report() with the corrected rows that carry the tool speed. */
  function ReportCorrected(rows: seq<Row>, batchQuery: Option<string>): ReportOutcome
  {
    Render(ReportSelection(rows, batchQuery), true)
  }

  /** The selected rows as report rows, numbered from 1 (enumerate(start=1)). */
  function ReportRows(selected: seq<Row>, fixed: bool): (data: seq<ReportRow>)
    ensures |data| == |selected|
    ensures forall k :: 0 <= k < |selected| ==> data[k] == ReportRowFor(fixed, k + 1, selected[k])
  {
    if selected == [] then []
    else
      var init := selected[..|selected| - 1];
      assert forall k :: 0 <= k < |init| ==> init[k] == selected[k];
      ReportRows(init, fixed) + [ReportRowFor(fixed, |selected|, selected[|selected| - 1])]
  }

  /** The rows a report covers, before ordering. */
  function Chosen(rows: seq<Row>, batchQuery: Option<string>): seq<Row>
  {
    if batchQuery.None? || batchQuery.value == "" then rows else Select(rows, batchQuery.value, true)
  }

  /** On a table kept in id order, ordering by id leaves the chosen rows as they are. */
  lemma ReportSelectionInTableOrder(rows: seq<Row>, batchQuery: Option<string>)
    requires IdsIncreasing(rows)
    ensures ReportSelection(rows, batchQuery) == Chosen(rows, batchQuery)
  {
    if batchQuery.Some? && batchQuery.value != "" {
      SelectIdsIncreasing(rows, batchQuery.value, true);
    }
    SortByIdOfIncreasing(Chosen(rows, batchQuery));
  }

  /** A document is rendered exactly when some row matches; its interval comes
      from the first matching row in table order. */
  lemma ReportRendersIff(rows: seq<Row>, batchQuery: Option<string>)
    requires IdsIncreasing(rows)
    ensures Report(rows, batchQuery).RenderPdf? <==> |Chosen(rows, batchQuery)| > 0
    ensures Report(rows, batchQuery).RenderPdf? ==>
      Report(rows, batchQuery).interval == Register(Chosen(rows, batchQuery)[0], 16)
    ensures Report(rows, batchQuery).RenderPdf? ==>
      Report(rows, batchQuery).data == ReportRows(Chosen(rows, batchQuery), false)
  {
    ReportSelectionInTableOrder(rows, batchQuery);
  }

  /** The k-th row of the document is the k-th matching row in table order, with
      serial number k + 1. */
  lemma ReportRowsNumbered(rows: seq<Row>, batchQuery: Option<string>, k: int)
    requires IdsIncreasing(rows)
    requires 0 <= k < |Chosen(rows, batchQuery)|
    ensures Report(rows, batchQuery).RenderPdf?
    ensures |Report(rows, batchQuery).data| == |Chosen(rows, batchQuery)|
    ensures Report(rows, batchQuery).data[k] == ReportRowAsWritten(k + 1, Chosen(rows, batchQuery)[k])
    ensures Report(rows, batchQuery).data[k][SerialNo] == RInt(k + 1)
  {
    ReportSelectionInTableOrder(rows, batchQuery);
    var chosen := Chosen(rows, batchQuery);
    assert Report(rows, batchQuery).data == ReportRows(chosen, false);
    assert ReportRows(chosen, false)[k] == ReportRowAsWritten(k + 1, chosen[k]);
  }

  /** The corrected route renders exactly when the route as written does, with
      the same interval and the same rows, each extended by its tool speed. */
  lemma ReportCorrectedAddsToolSpeed(rows: seq<Row>, batchQuery: Option<string>)
    ensures ReportCorrected(rows, batchQuery).RenderPdf? <==> Report(rows, batchQuery).RenderPdf?
    ensures Report(rows, batchQuery).RenderPdf? ==>
      && ReportCorrected(rows, batchQuery).interval == Report(rows, batchQuery).interval
      && |ReportCorrected(rows, batchQuery).data| == |Report(rows, batchQuery).data| == |ReportSelection(rows, batchQuery)|
      && forall k :: 0 <= k < |Report(rows, batchQuery).data| ==>
           ReportCorrected(rows, batchQuery).data[k]
             == Report(rows, batchQuery).data[k][ToolSpeed := RNum(Register(ReportSelection(rows, batchQuery)[k], 7))]
  {
  }
}
