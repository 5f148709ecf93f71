// The query loop itself, as it runs over newest-first rows.
module Query {
  import opened LogEntries
  import opened Timeline
  import opened Cursor
  import opened History
  import opened Paging
  import opened Walk
  import opened Retelling

  // ----------------------------------------------------------- newest-first rows

  function NewestFirst(t: seq<StoredRow>, lo: nat, hi: nat): (rows: seq<StoredRow>)
    requires lo <= hi <= |t|
    ensures |rows| == hi - lo
  {
    seq(hi - lo, i requires 0 <= i < hi - lo => t[hi - 1 - i])
  }

  lemma NewestFirstJoin(t: seq<StoredRow>, lo: nat, mid: nat, hi: nat)
    requires lo <= mid <= hi <= |t|
    ensures NewestFirst(t, mid, hi) + NewestFirst(t, lo, mid) == NewestFirst(t, lo, hi)
    ensures NewestFirst(t, lo, hi)[hi - mid..] == NewestFirst(t, lo, mid)
    ensures lo < mid ==> NewestFirst(t, lo, mid)[mid - lo - 1] == t[lo]
  {}

  // SELECT ... WHERE (ts, rowid) < from ORDER BY ts DESC, rowid DESC LIMIT chunk
  function ScanRows(t: seq<StoredRow>, from: Option<CursorPos>, chunk: nat): seq<StoredRow> {
    var n := ScanIndex(t, from);
    NewestFirst(t, if n < chunk then 0 else n - chunk, n)
  }

  // The row index a scan resumes from.
  function ScanIndex(t: seq<StoredRow>, from: Option<CursorPos>): (n: nat)
    ensures n <= |t|
  {
    if from.None? then |t| else OlderCount(t, from.value)
  }

  // The rows read are the newest ones strictly before the position, in order.
  lemma ScanRowsNewest(t: seq<StoredRow>, from: CursorPos, chunk: nat)
    requires Ascending(t)
    ensures
      var rows := ScanRows(t, Some(from), chunk);
      && (forall i :: 0 <= i < |rows| ==> Before(rows[i].pos, from))
      && (forall i, j :: 0 <= i < j < |rows| ==> Before(rows[j].pos, rows[i].pos))
      && (forall k :: 0 <= k < |t| && Before(t[k].pos, from) && t[k] !in rows ==>
            |rows| == chunk && forall i :: 0 <= i < |rows| ==> Before(t[k].pos, rows[i].pos))
  {
    hide OlderCount;
    OlderCountIsExact(t, from);
    var n := OlderCount(t, from);
    var lo := if n < chunk then 0 else n - chunk;
    var rows := ScanRows(t, Some(from), chunk);
    RowsReversed(t, lo, n);
  }

  // Newest first, every row comes before the next.
  lemma RowsReversed(t: seq<StoredRow>, lo: nat, hi: nat)
    requires Ascending(t) && lo <= hi <= |t|
    ensures
      var rows := NewestFirst(t, lo, hi);
      && (forall i :: 0 <= i < |rows| ==> rows[i] == t[hi - 1 - i])
      && (forall i, j :: 0 <= i < j < |rows| ==> Before(rows[j].pos, rows[i].pos))
      && (forall k :: lo <= k < hi ==> t[k] in rows)
  {
    var rows := NewestFirst(t, lo, hi);
    forall k | lo <= k < hi
      ensures t[k] in rows
    {
      assert rows[hi - 1 - k] == t[k];
    }
  }

  lemma {:induction false} OlderCountIsExact(t: seq<StoredRow>, pos: CursorPos)
    requires Ascending(t)
    ensures forall k :: 0 <= k < |t| ==> (Before(t[k].pos, pos) <==> k < OlderCount(t, pos))
  {
    if t != [] && !Before(t[|t| - 1].pos, pos) {
      OlderCountIsExact(t[..|t| - 1], pos);
      forall k | 0 <= k < |t| ensures Before(t[k].pos, pos) <==> k < OlderCount(t, pos) {
        assert k < |t| - 1 ==> t[..|t| - 1][k] == t[k];
      }
    }
  }

  // ------------------------------------------------------------------- grouping

  lemma SameDecision(row: LogEntry, a: LogEntry, b: LogEntry)
    requires LooksLike(a, b)
    ensures IsContinuation(row, a) <==> IsContinuation(row, b)
  {}

  lemma {:induction false} NextHeadGrows(t: seq<StoredRow>, base: nat, i: nat, p: nat)
    requires base <= i < p < |t|
    ensures
      var next := NextHead(t, base, i, p);
      NextHead(t, base, i, p + 1) == if next < p || IsHead(t, base, p) then next else p + 1
    decreases p - i
  {
    hide Head, IsHead;
    if i + 1 < p && !IsHead(t, base, i + 1) {
      NextHeadGrows(t, base, i + 1, p);
    }
  }

  lemma OneItem(t: seq<StoredRow>, base: nat, p: nat)
    requires base < p <= |t|
    ensures |Items(t, base, p)| == 1 <==> NextHead(t, base, base, p) == p
  {
    hide Head, Items, NextHead;
    OldestEntry(t, base, p);
  }

  // The fold of one more row into a grouping, as the live grouper decides it.
  lemma OneMoreRow(t: seq<StoredRow>, base: nat, p: nat)
    requires base < p < |t|
    ensures
      var items := Items(t, base, p);
      var last := items[|items| - 1];
      var row := t[p];
      var folds := last.entry.containerID == row.entry.containerID && |Folded([last.entry, row.entry])| == 1;
      && (IsHead(t, base, p) <==> !folds)
      && (folds ==>
            Items(t, base, p + 1) == items[|items| - 1 := last.(entry := Folded([last.entry, row.entry])[0])])
      && (!folds ==> Items(t, base, p + 1) == items + [Item(row.entry, row.pos)])
  {
    hide IsContinuation, AppendContinuation, LooksLike, Folded;
    var h := Head(t, base, p - 1);
    var entry := Render(t, h, p);
    RenderLooksLikeHead(t, base, p - 1);
    SameDecision(t[p].entry, entry, t[h].entry);
    FoldedPair(entry, t[p].entry);
    assert entry.containerID == t[h].entry.containerID by { SameContainer(entry, t[h].entry); }
  }

  lemma SameContainer(a: LogEntry, b: LogEntry)
    requires LooksLike(a, b)
    ensures a.containerID == b.containerID
  {}

  // Rows arrive newest first; entries come back oldest first. open is where the
  // oldest entry's rows begin, the entry whose parent may be older still.
  method GroupRows(rows: seq<StoredRow>, ghost t: seq<StoredRow>, ghost lo: nat, ghost hi: nat)
    returns (items: seq<Item>, open: int)
    requires lo <= hi <= |t| && rows == NewestFirst(t, lo, hi)
    ensures items == Items(t, lo, hi)
    ensures lo == hi ==> open == -1
    ensures lo < hi ==> open == hi - NextHead(t, lo, lo, hi)
  {
    hide Folded, Head, Render, NextHead, Items;
    items := [];
    open := |rows| - 1;
    var i := |rows| - 1;
    assert Items(t, lo, lo) == [];
    while i >= 0
      invariant -1 <= i < |rows|
      invariant items == Items(t, lo, hi - 1 - i)
      invariant i == |rows| - 1 ==> open == i
      invariant i < |rows| - 1 ==> open == hi - NextHead(t, lo, lo, hi - 1 - i)
    {
      var row := rows[i];
      var last := |items| - 1;
      ghost var p := hi - 1 - i;
      assert row == t[p];
      if p == lo {
        FirstRow(t, lo);
      } else {
        OneMoreRow(t, lo, p);
        NextHeadGrows(t, lo, lo, p);
        OneItem(t, lo, p);
      }
      if last >= 0 && items[last].entry.containerID == row.entry.containerID {
        var merged := GroupRelated([items[last].entry, row.entry]);
        if |merged| == 1 {
          items := items[last := items[last].(entry := merged[0])];
          if last == 0 {
            open := i;
          }
          i := i - 1;
          continue;
        }
      }
      items := items + [Item(row.entry, row.pos)];
      i := i - 1;
    }
  }

  lemma FirstRow(t: seq<StoredRow>, lo: nat)
    requires lo < |t|
    ensures Items(t, lo, lo + 1) == [Item(t[lo].entry, t[lo].pos)]
    ensures NextHead(t, lo, lo, lo + 1) == lo + 1
  {
    assert Items(t, lo, lo) == [];
  }

  // ------------------------------------------------------ agreement with live

  // Where the run of rows of the same engine container that ends at hi begins.
  function RunStart(t: seq<StoredRow>, lo: nat, hi: nat): (start: nat)
    requires lo < hi <= |t|
    ensures lo <= start < hi
    ensures forall k :: start <= k < hi ==> t[k].entry.containerID == t[hi - 1].entry.containerID
    ensures start > lo ==> t[start - 1].entry.containerID != t[start].entry.containerID
    decreases hi
  {
    if hi == lo + 1 || t[hi - 2].entry.containerID != t[hi - 1].entry.containerID then hi - 1
    else RunStart(t, lo, hi - 1)
  }

  // The live grouper applied to each maximal run of one container's lines.
  function ByRuns(t: seq<StoredRow>, lo: nat, hi: nat): seq<LogEntry>
    requires lo <= hi <= |t|
    decreases hi
  {
    if lo == hi then []
    else
      var start := RunStart(t, lo, hi);
      ByRuns(t, lo, start) + Folded(RowEntries(t, start, hi))
  }

  lemma {:induction false} RunGroupsLive(t: seq<StoredRow>, lo: nat, hi: nat)
    requires lo <= hi <= |t|
    requires forall k :: lo <= k < hi ==> t[k].entry.containerID == t[lo].entry.containerID
    ensures Entries(Items(t, lo, hi)) == Folded(RowEntries(t, lo, hi))
    decreases hi
  {
    hide FoldLine, Head, Items, Continues;
    if hi > lo {
      RunGroupsLive(t, lo, hi - 1);
      var entries := RowEntries(t, lo, hi);
      assert entries[..|entries| - 1] == RowEntries(t, lo, hi - 1);
      if hi == lo + 1 {
        FirstRow(t, lo);
        FirstLine(t[lo].entry);
        assert entries[..0] == [];
      } else {
        SameRunRow(t, lo, hi - 1);
      }
    }
  }

  lemma FirstLine(entry: LogEntry)
    ensures FoldLine([], entry) == [entry]
  {}

  lemma SameRunRow(t: seq<StoredRow>, lo: nat, p: nat)
    requires lo < p < |t| && t[p].entry.containerID == t[p - 1].entry.containerID
    ensures Entries(Items(t, lo, p + 1)) == FoldLine(Entries(Items(t, lo, p)), t[p].entry)
  {
    hide IsContinuation, AppendContinuation, LooksLike, Render, Head, Folded;
    var items := Items(t, lo, p);
    var last := items[|items| - 1].entry;
    LastContainer(t, lo, p);
    OneMoreRow(t, lo, p);
    FoldedPair(last, t[p].entry);
  }

  lemma LastContainer(t: seq<StoredRow>, lo: nat, hi: nat)
    requires lo < hi <= |t|
    ensures
      var items := Items(t, lo, hi);
      items[|items| - 1].entry.containerID == t[hi - 1].entry.containerID
  {}

  // A line of another engine container always starts an entry.
  lemma RebuildStartsEntry(t: seq<StoredRow>, lo: nat, i: nat)
    requires lo < i < |t| && t[i - 1].entry.containerID != t[i].entry.containerID
    ensures Head(t, lo, i) == i
  {}

  // Stored rows group exactly as the live path groups each run of one container's
  // lines, so a rebuild boundary never merges two containers' lines.
  lemma {:induction false} GroupsLikeLive(t: seq<StoredRow>, lo: nat, hi: nat)
    requires lo <= hi <= |t|
    ensures Entries(Items(t, lo, hi)) == ByRuns(t, lo, hi)
    decreases hi
  {
    hide Folded, Continues, Items, Head;
    if lo < hi {
      var start := RunStart(t, lo, hi);
      if start > lo {
        RebuildStartsEntry(t, lo, start);
      }
      ItemsSplit(t, lo, start, hi);
      GroupsLikeLive(t, lo, start);
      RunGroupsLive(t, start, hi);
      assert Entries(Items(t, lo, start) + Items(t, start, hi))
          == Entries(Items(t, lo, start)) + Entries(Items(t, start, hi));
    }
  }

  // ---------------------------------------------------------------------- query

  method Filter(items: seq<Item>, m: Matcher) returns (kept: seq<Item>)
    ensures kept == Kept(items, m)
  {
    if !m.Active() {
      KeptUnfiltered(items, m);
      return items;
    }
    kept := [];
    for i := 0 to |items|
      invariant kept == Kept(items[..i], m)
    {
      assert items[..i + 1][..i] == items[..i];
      if m.Matches(items[i].entry) {
        kept := kept + [items[i]];
      }
    }
    assert items[..|items|] == items;
  }

  datatype TableRow = TableRow(ref: int, row: StoredRow)

  // refs are the generations the host and container name resolve to.
  datatype LogQuery = LogQuery(
    refs: set<int>, since: Option<int>, until: Option<int>, limit: int, cursor: string, filter: Matcher)

  datatype QueryResult = Page(page: LogPage) | InvalidCursor

  predicate Selects(q: LogQuery, r: TableRow) {
    && r.ref in q.refs
    && (q.since.Some? ==> r.row.pos.tsNS >= q.since.value)
    && (q.until.Some? ==> r.row.pos.tsNS <= q.until.value)
  }

  predicate AscendingTable(table: seq<TableRow>) {
    forall i, j :: 0 <= i < j < |table| ==> Before(table[i].row.pos, table[j].row.pos)
  }

  // The rows of the time window over every generation, as one timeline.
  function Selected(table: seq<TableRow>, q: LogQuery): (t: seq<StoredRow>)
    ensures forall row :: row in t <==> exists r :: r in table && Selects(q, r) && r.row == row
  {
    if table == [] then []
    else
      var last := table[|table| - 1];
      assert table == table[..|table| - 1] + [last];
      Selected(table[..|table| - 1], q) + if Selects(q, last) then [last.row] else []
  }

  lemma {:induction false} SelectedAscending(table: seq<TableRow>, q: LogQuery)
    requires AscendingTable(table)
    ensures Ascending(Selected(table, q))
  {
    if table != [] {
      var rest := table[..|table| - 1];
      SelectedAscending(rest, q);
      forall i | 0 <= i < |Selected(rest, q)|
        ensures Before(Selected(rest, q)[i].pos, table[|table| - 1].row.pos)
      {
        var row := Selected(rest, q)[i];
        assert row in Selected(rest, q);
        var r :| r in rest && Selects(q, r) && r.row == row;
      }
    }
  }

  function EffectiveLimit(limit: int): (l: nat)
    ensures 0 < l <= MAX_QUERY_LIMIT
  {
    var l := if limit <= 0 then DEFAULT_QUERY_LIMIT else limit;
    if l < MAX_QUERY_LIMIT then l else MAX_QUERY_LIMIT
  }

  lemma LimitClamped(limit: int)
    ensures EffectiveLimit(limit) == if limit <= 0 then 500 else if limit <= 1000 then limit else 1000
  {}

  // The row is one of the queried generations, within the queried time.
  ghost predicate InWindow(table: seq<TableRow>, q: LogQuery, row: StoredRow) {
    exists r :: r in table && r.row == row && r.ref in q.refs
      && (q.since.None? || q.since.value <= row.pos.tsNS) && (q.until.None? || row.pos.tsNS <= q.until.value)
  }

  // What one entry may show: rows of the window, all of their text and nothing else,
  // of a chosen severity and passing the search.
  ghost predicate MayShow(table: seq<TableRow>, q: LogQuery, e: LogEntry) {
    && (exists t: seq<StoredRow>, lo, hi :: 0 <= lo < hi <= |t| && Tells(e, RowEntries(t, lo, hi))
          && forall row :: row in t ==> InWindow(table, q, row))
    && (q.filter.levels == [] || Severity(e.level) in q.filter.levels)
    && (q.filter.search.None? || q.filter.search.value(e.message))
  }

  lemma SelectedInWindow(table: seq<TableRow>, q: LogQuery)
    ensures forall row :: row in Selected(table, q) ==> InWindow(table, q, row)
    ensures forall r | r in table && r.ref in q.refs
      && (q.since.None? || q.since.value <= r.row.pos.tsNS) && (q.until.None? || r.row.pos.tsNS <= q.until.value)
      :: r.row in Selected(table, q)
  {}

  lemma PageShows(table: seq<TableRow>, q: LogQuery, n: nat)
    requires n <= |Selected(table, q)|
    ensures
      var entries := QueryPage(Selected(table, q), n, q.filter, EffectiveLimit(q.limit)).entries;
      && |entries| <= (if q.limit <= 0 then 500 else if q.limit <= 1000 then q.limit else 1000)
      && forall e :: e in entries ==> MayShow(table, q, e)
  {
    hide QueryPage, EffectiveLimit, Selected, Severity, Tells, InWindow;
    var t, m := Selected(table, q), q.filter;
    LimitClamped(q.limit);
    SelectedInWindow(table, q);
    QueryPageShows(t, n, m, EffectiveLimit(q.limit));
    forall e | e in QueryPage(t, n, m, EffectiveLimit(q.limit)).entries
      ensures MayShow(table, q, e)
    {
      var lo, hi :| 0 <= lo < hi <= n && e == Render(t, lo, hi);
      RenderTells(t, lo, hi);
    }
  }

  // The row index a query's cursor stands for; None when it is not a cursor.
  function CursorIndex(t: seq<StoredRow>, cursor: string): (n: Option<nat>)
    ensures n.Some? ==> n.value <= |t|
  {
    if cursor == "" then Some(|t|)
    else
      match DecodeCursor(cursor)
      case None => None
      case Some(pos) => Some(OlderCount(t, pos))
  }

  // One round of the query's loop: read a chunk, regroup it with the carried rows,
  // hold back the oldest entry unless history ran out, and filter the rest.
  method ScanRound(
      t: seq<StoredRow>, m: Matcher, chunk: nat, from: Option<CursorPos>, carry: seq<StoredRow>,
      ghost cut: nat, ghost p: nat)
    returns (matched: seq<Item>, next: Option<CursorPos>, held: seq<StoredRow>, exhausted: bool)
    requires Ascending(t) && chunk > 0 && cut <= p <= |t|
    requires cut == ScanIndex(t, from) && carry == NewestFirst(t, cut, p)
    ensures exhausted <==> cut < chunk
    ensures exhausted ==> matched == KeptFrom(t, 0, p, m)
    ensures !exhausted ==>
      var end := NextHead(t, cut - chunk, cut - chunk, p);
      && matched == KeptFrom(t, end, p, m)
      && ScanIndex(t, next) == cut - chunk
      && held == NewestFirst(t, cut - chunk, end)
  {
    hide OlderCount, NextHead, Items, Kept, NewestFirst, Ascending;
    var rows := ScanRows(t, from, chunk);
    exhausted := |rows| < chunk;
    next := from;
    ghost var lo := if cut < chunk then 0 else cut - chunk;
    NewestFirstJoin(t, lo, cut, p);
    if !exhausted {
      next := Some(rows[|rows| - 1].pos);
      OlderCountAtRow(t, lo);
      assert ScanIndex(t, next) == lo;
    }
    var combined := carry + rows;
    var grouped, open := GroupRows(combined, t, lo, p);
    held := [];
    if !exhausted && |grouped| > 0 {
      NewestFirstJoin(t, lo, NextHead(t, lo, lo, p), p);
      OldestEntry(t, lo, p);
      held := combined[open..];
      grouped := grouped[1..];
    }
    matched := Filter(grouped, m);
  }

  // One page of stored history. With the lemmas of Walk: the pages a client
  // collects by following nextCursor are Pages(t, ...).
  method RunQuery(table: seq<TableRow>, q: LogQuery) returns (r: QueryResult)
    requires AscendingTable(table)
    ensures
      var t := Selected(table, q);
      r == if q.refs == {} then Page(LogPage([], ""))
           else match CursorIndex(t, q.cursor)
             case None => InvalidCursor
             case Some(n) => Page(QueryPage(t, n, q.filter, EffectiveLimit(q.limit)))
    ensures r.Page? ==>
      && |r.page.entries| <= (if q.limit <= 0 then 500 else if q.limit <= 1000 then q.limit else 1000)
      && forall e :: e in r.page.entries ==> MayShow(table, q, e)
  {
    var limit := EffectiveLimit(q.limit);
    var m := q.filter;
    if q.refs == {} {
      return Page(LogPage([], ""));
    }
    var t := Selected(table, q);
    SelectedAscending(table, q);
    var from: Option<CursorPos> := None;
    if q.cursor != "" {
      var decoded := DecodeCursor(q.cursor);
      if decoded.None? {
        return InvalidCursor;
      }
      from := decoded;
    }
    ghost var n := CursorIndex(t, q.cursor).value;
    PageShows(table, q, n);
    var chunk := ChunkSize(m, limit);
    var kept: seq<Item> := [];
    var carry: seq<StoredRow> := [];
    ghost var cut, p := n, n;
    assert carry == NewestFirst(t, n, n);
    hide DecodeCursor, OlderCount, NextHead, KeptFrom, ChunkSize, NewPage, NewestFirst, Scan, Selected, Ascending,
      AscendingTable, MayShow;
    while true
      invariant cut <= p <= n <= |t| && |kept| <= limit
      invariant cut == ScanIndex(t, from) && carry == NewestFirst(t, cut, p)
      invariant Scan(t, m, chunk, limit, cut, p, kept) == Scan(t, m, chunk, limit, n, n, [])
      decreases cut
    {
      ScanUnfold(t, m, chunk, limit, cut, p, kept);
      var matched, exhausted;
      matched, from, carry, exhausted := ScanRound(t, m, chunk, from, carry, cut, p);
      kept := matched + kept;
      if |kept| > limit || exhausted {
        return Page(NewPage(kept, limit));
      }
      cut, p := cut - chunk, NextHead(t, cut - chunk, cut - chunk, p);
    }
  }

  // -------------------------------------------------- a history it gets wrong

  function Line(level: Level, message: string, rowid: int): StoredRow {
    StoredRow(LogEntry(rowid, level, message, "stdout", message, map[], 0, "c1", "web"), CursorPos(rowid, rowid))
  }

  // An error with a three-line stack trace; a page of one entry reads three rows.
  function SplitTrace(): seq<StoredRow> {
    [Line(Error, "ERROR boom", 1), Line(Unknown, "at a", 2), Line(Unknown, "at b", 3), Line(Unknown, "at c", 4)]
  }

  lemma PlainText(s: string)
    requires s != [] && s[0] in {'a', 'E'} && s[|s| - 1] in {'a', 'b', 'c', 'm'}
    ensures TrimSpace(s) == s
  {}

  lemma AtLine(c: char)
    requires c in {'a', 'b', 'c'}
    ensures
      var s := ['a', 't', ' ', c];
      TrimSpace(s) == s && IsStackTrace(s) && StructuredField(s).None?
  {
    var s := ['a', 't', ' ', c];
    PlainText(s);
    assert STACK_PREFIXES[0] <= s;
    assert KeyLength(s[2..]) == 0;
    assert s[1..][1..] == s[2..];
    assert KeyLength(s[1..]) == 1;
    assert SkipRegexSpace(s[2..]) == s[2..][1..];
  }

  lemma StackLineContinues(k: nat)
    requires 1 <= k <= 3
    ensures
      var t := SplitTrace();
      Continues(t[k], t[0]) && !FieldLine(t[k].entry)
  {
    hide TrimLeft, TrimRight, IsSpace, StructuredField, IsStackTrace;
    AtLine(SplitTrace()[k].entry.message[3]);
    PlainText("ERROR boom");
  }

  lemma SplitTraceShows(m: Matcher)
    requires !m.Active()
    ensures Pages(SplitTrace(), 4, m, 1) != WholePages(SplitTrace(), 4, m, 1)
  {
    hide Continues, FieldLine, IsSpace, NewPage, Scan;
    var t := SplitTrace();
    StackLineContinues(1);
    StackLineContinues(2);
    StackLineContinues(3);
    assert Head(t, 0, 1) == 0 && Head(t, 0, 2) == 0 && Head(t, 0, 3) == 0;
    assert !CleanCut(t, 4, 1);
    assert NextHead(t, 0, 1, 4) == 4;
    EmptyRange(t, 4, m);
    assert !CutHidden(t, 4, m, 1, 1);
    assert ChunkSize(m, 1) == 3;
    assert Cuts(4, 3)[0] == 1;
    assert !AllHidden(t, 4, m, 3, 1, 4);
    PagesExactIff(t, 4, m, 1);
  }
}
