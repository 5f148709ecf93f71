// What whole walks over the stored history tell, however their chunks cut it.
module Retelling {
  import opened LogEntries
  import opened Timeline
  import opened Cursor
  import opened History
  import opened Paging
  import opened Walk

  // The items are folds of runs of rows that lie end to end and cover lo..hi.
  ghost predicate Covers(t: seq<StoredRow>, lo: nat, hi: nat, items: seq<Item>)
    requires hi <= |t|
    decreases |items|
  {
    if items == [] then lo == hi
    else
      exists mid :: lo <= mid < hi
        && items[|items| - 1] == Item(Render(t, mid, hi), t[mid].pos)
        && Covers(t, lo, mid, items[..|items| - 1])
  }

  lemma CoversLast(t: seq<StoredRow>, lo: nat, hi: nat, items: seq<Item>) returns (mid: nat)
    requires hi <= |t| && items != [] && Covers(t, lo, hi, items)
    ensures lo <= mid < hi && items[|items| - 1] == Item(Render(t, mid, hi), t[mid].pos)
    ensures Covers(t, lo, mid, items[..|items| - 1])
  {
    hide Render;
    mid :| lo <= mid < hi
      && items[|items| - 1] == Item(Render(t, mid, hi), t[mid].pos) && Covers(t, lo, mid, items[..|items| - 1]);
  }

  lemma CoversWith(t: seq<StoredRow>, lo: nat, mid: nat, hi: nat, items: seq<Item>)
    requires lo <= mid < hi <= |t| && Covers(t, lo, mid, items)
    ensures Covers(t, lo, hi, items + [Item(Render(t, mid, hi), t[mid].pos)])
  {
    hide Render;
    var items' := items + [Item(Render(t, mid, hi), t[mid].pos)];
    assert items'[..|items'| - 1] == items;
  }

  lemma {:induction false} CoversConcat(
      t: seq<StoredRow>, lo: nat, mid: nat, hi: nat, a: seq<Item>, b: seq<Item>)
    requires hi <= |t| && mid <= |t| && Covers(t, lo, mid, a) && Covers(t, mid, hi, b)
    ensures Covers(t, lo, hi, a + b)
    decreases |b|
  {
    hide Covers, Render;
    if b == [] {
      Nothing(t, mid, hi);
      assert a + b == a;
    } else {
      var init := b[..|b| - 1];
      var k := CoversLast(t, mid, hi, b);
      CoversConcat(t, lo, mid, k, a, init);
      CoversBounds(t, lo, mid, a);
      CoversWith(t, lo, k, hi, a + init);
      assert a + b == a + init + [b[|b| - 1]];
    }
  }

  lemma Nothing(t: seq<StoredRow>, lo: nat, hi: nat)
    requires hi <= |t|
    ensures Covers(t, lo, hi, []) <==> lo == hi
  {}

  lemma {:induction false} CoversBounds(t: seq<StoredRow>, lo: nat, hi: nat, items: seq<Item>)
    requires hi <= |t| && Covers(t, lo, hi, items)
    ensures lo <= hi && (lo == hi <==> items == [])
    decreases |items|
  {
    if items != [] {
      var mid := CoversLast(t, lo, hi, items);
      CoversBounds(t, lo, mid, items[..|items| - 1]);
    }
  }

  // The newest items cover the rows from their first one's anchor on.
  lemma {:induction false} CoversNewest(t: seq<StoredRow>, lo: nat, hi: nat, items: seq<Item>, j: nat)
    returns (mid: nat)
    requires hi <= |t| && j < |items| && Covers(t, lo, hi, items)
    ensures mid < hi && items[j].anchor == t[mid].pos && Covers(t, mid, hi, items[j..])
    decreases |items|
  {
    hide Covers, Render;
    var n := |items| - 1;
    var k := CoversLast(t, lo, hi, items);
    if j == n {
      mid := k;
      Nothing(t, k, k);
      CoversWith(t, k, k, hi, []);
      assert items[j..] == [] + [items[n]];
    } else {
      mid := CoversNewest(t, lo, k, items[..n], j);
      CoversWith(t, mid, k, hi, items[..n][j..]);
      assert items[j..] == items[..n][j..] + [items[n]];
    }
  }

  lemma {:induction false} ItemsCover(t: seq<StoredRow>, base: nat, p: nat)
    requires base <= p <= |t|
    ensures Covers(t, base, p, Items(t, base, p))
    decreases p
  {
    hide Covers, Items, Head, Render;
    if p == base {
      Nothing(t, base, p);
      assert Items(t, base, p) == [];
    } else {
      var h := Head(t, base, p - 1);
      OneSpan(t, base, p);
      ItemsSplit(t, base, h, p);
      ItemsCover(t, base, h);
      CoversWith(t, base, h, p, Items(t, base, h));
    }
  }

  // Without a filter a scan finds entries of all rows down to where it stops, and it
  // stops early only behind a full page.
  lemma {:induction false} ScanCovers(
      t: seq<StoredRow>, m: Matcher, chunk: nat, limit: nat, cut: nat, p: nat, n: nat, kept: seq<Item>)
    returns (lo: nat)
    requires chunk > 0 && cut <= p <= n <= |t| && !m.Active() && Covers(t, p, n, kept)
    ensures lo <= n && Covers(t, lo, n, Scan(t, m, chunk, limit, cut, p, kept))
    ensures |Scan(t, m, chunk, limit, cut, p, kept)| <= limit ==> lo == 0
    decreases cut
  {
    hide Covers, Items, NextHead, KeptFrom;
    if cut < chunk {
      lo := 0;
      UnfilteredKeepsAll(t, 0, p, m);
      ItemsCover(t, 0, p);
      CoversConcat(t, 0, p, n, Items(t, 0, p), kept);
    } else {
      var end := NextHead(t, cut - chunk, cut - chunk, p);
      UnfilteredKeepsAll(t, end, p, m);
      ItemsCover(t, end, p);
      CoversConcat(t, end, p, n, Items(t, end, p), kept);
      var kept' := KeptFrom(t, end, p, m) + kept;
      if |kept'| > limit {
        lo := end;
      } else {
        lo := ScanCovers(t, m, chunk, limit, cut - chunk, end, n, kept');
      }
    }
  }

  // One unfiltered page: its entries cover the rows down to where the next page
  // begins, or all of them when there is none.
  lemma PageCovers(t: seq<StoredRow>, n: nat, m: Matcher, limit: nat) returns (lo: nat, shown: seq<Item>)
    requires Ascending(t) && Int64Positions(t) && n <= |t| && limit > 0 && !m.Active()
    ensures
      var page := QueryPage(t, n, m, limit);
      && page.entries == Entries(shown) && Covers(t, lo, n, shown)
      && lo == if page.nextCursor == "" then 0 else NextIndex(t, page)
  {
    hide Covers, Scan, EncodeCursor, DecodeCursor, OlderCount, ChunkSize, Render;
    Nothing(t, n, n);
    lo := ScanCovers(t, m, ChunkSize(m, limit), limit, n, n, n, []);
    shown := Scan(t, m, ChunkSize(m, limit), limit, n, n, []);
    if |shown| > limit {
      ScanAnchored(t, n, m, ChunkSize(m, limit), limit, n, n, []);
      var k := PageLeads(t, n, shown, limit);
      var mid := CoversNewest(t, lo, n, shown, |shown| - limit);
      OlderCountAtRow(t, mid);
      lo, shown := mid, shown[|shown| - limit..];
    }
  }

  // A whole unfiltered walk loses no row and repeats none, wherever its chunks and
  // pages cut: its entries are folds of runs of rows that cover the history.
  lemma {:induction false} WalkCovers(t: seq<StoredRow>, n: nat, m: Matcher, limit: nat) returns (items: seq<Item>)
    requires Ascending(t) && Int64Positions(t) && n <= |t| && limit > 0 && !m.Active()
    ensures InTimeOrder(Pages(t, n, m, limit)) == Entries(items) && Covers(t, 0, n, items)
    decreases n
  {
    hide Covers, QueryPage, NextIndex, InTimeOrder, Render;
    var page := QueryPage(t, n, m, limit);
    var lo, shown := PageCovers(t, n, m, limit);
    if page.nextCursor == "" {
      items := shown;
      InTimeOrderStep(page, []);
      NoPages();
      assert [page] + [] == [page] && [] + page.entries == page.entries;
    } else {
      QueryPageLeads(t, n, m, limit);
      var older := WalkCovers(t, lo, m, limit);
      InTimeOrderStep(page, Pages(t, lo, m, limit));
      CoversConcat(t, 0, lo, n, older, shown);
      EntriesConcat(older, shown);
      items := older + shown;
    }
  }

  lemma NoPages()
    ensures InTimeOrder([]) == []
  {}

  lemma {:induction false} CoverRaws(t: seq<StoredRow>, lo: nat, hi: nat, items: seq<Item>)
    requires hi <= |t| && Covers(t, lo, hi, items)
    ensures lo <= hi && Text(Raws(Entries(items))) == Text(Raws(RowEntries(t, lo, hi)))
    decreases |items|
  {
    hide Covers, Render, Text;
    CoversBounds(t, lo, hi, items);
    if items == [] {
      assert Raws(Entries(items)) == Raws(RowEntries(t, lo, hi));
    } else {
      var n := |items| - 1;
      var mid := CoversLast(t, lo, hi, items);
      CoverRaws(t, lo, mid, items[..n]);
      RowRaws(t, lo, mid, hi);
      RenderRaw(t, mid, hi);
      var front, raw := Raws(Entries(items[..n])), Render(t, mid, hi).raw;
      assert Raws(Entries(items)) == front + [raw];
      TextOne(raw);
      TextConcat(front, [raw]);
      TextConcat(Raws(RowEntries(t, lo, mid)), Raws(RowEntries(t, mid, hi)));
    }
  }

  // So the raw text of all its pages is the raw text of all rows, in time order.
  lemma WalkTells(t: seq<StoredRow>, n: nat, m: Matcher, limit: nat)
    requires Ascending(t) && Int64Positions(t) && n <= |t| && limit > 0 && !m.Active()
    ensures Text(Raws(InTimeOrder(Pages(t, n, m, limit)))) == Text(Raws(RowEntries(t, 0, n)))
  {
    hide *;
    var items := WalkCovers(t, n, m, limit);
    CoverRaws(t, 0, n, items);
  }

  // -------------------------------------------------------- what a filter shows

  // The filter keeps the entries of a chosen severity whose message passes the search.
  lemma {:induction false} KeptExactly(items: seq<Item>, m: Matcher)
    ensures forall item :: item in Kept(items, m) <==>
      && item in items
      && (m.levels == [] || Severity(item.entry.level) in m.levels)
      && (m.search.None? || m.search.value(item.entry.message))
  {
    hide Severity;
    if items != [] {
      KeptExactly(items[..|items| - 1], m);
      assert items == items[..|items| - 1] + [items[|items| - 1]];
    }
  }

  // Severities tell levels apart, so choosing levels chooses exactly their entries.
  lemma SeverityChooses(levels: seq<Level>, severities: seq<int>, level: Level)
    requires |severities| == |levels| && forall i :: 0 <= i < |levels| ==> severities[i] == Severity(levels[i])
    ensures Severity(level) in severities <==> level in levels
  {
    forall other: Level
      ensures Severity(other) == Severity(level) <==> other == level
    {
      SeverityDistinct(other, level);
    }
    if level in levels {
      var i :| 0 <= i < |levels| && levels[i] == level;
      assert severities[i] == Severity(level);
    }
  }

  // UNKNOWN is below every level, and the levels ascend.
  lemma SeverityAscends()
    ensures
      && 0 == Severity(Unknown) < Severity(Trace) < Severity(Debug) < Severity(Info) < Severity(Warn)
      && Severity(Warn) < Severity(Error) < Severity(Fatal) < Severity(Panic)
  {}

  lemma SeverityDistinct(a: Level, b: Level)
    ensures Severity(a) == Severity(b) <==> a == b
  {}

  // An entry of the history: a run of rows before n, folded.
  ghost predicate FoldIn(t: seq<StoredRow>, n: nat, entry: LogEntry)
    requires n <= |t|
  {
    exists lo, hi :: 0 <= lo < hi <= n && entry == Render(t, lo, hi)
  }

  ghost predicate AllFolds(t: seq<StoredRow>, n: nat, m: Matcher, items: seq<Item>)
    requires n <= |t|
  {
    forall item :: item in items ==>
      && FoldIn(t, n, item.entry)
      && (m.levels == [] || Severity(item.entry.level) in m.levels)
      && (m.search.None? || m.search.value(item.entry.message))
  }

  lemma KeptFolds(t: seq<StoredRow>, base: nat, p: nat, n: nat, m: Matcher)
    requires base <= p <= n <= |t|
    ensures AllFolds(t, n, m, KeptFrom(t, base, p, m))
  {
    hide Items, Spans, Render, Severity, Tiles, Kept;
    ItemsAreFolds(t, base, p);
    SpansTile(t, base, p);
    KeptExactly(Items(t, base, p), m);
    forall item | item in Items(t, base, p)
      ensures FoldIn(t, n, item.entry)
    {
      var k :| 0 <= k < |Items(t, base, p)| && Items(t, base, p)[k] == item;
      var span := Spans(t, base, p)[k];
      assert FoldOf(t, item, span);
      SpanEnds(t, base, p, k);
    }
  }

  lemma SpanEnds(t: seq<StoredRow>, base: nat, p: nat, k: nat)
    requires base <= p <= |t| && k < |Spans(t, base, p)|
    ensures Spans(t, base, p)[k].hi <= p
  {
    SpansTile(t, base, p);
  }

  lemma {:induction false} ScanFolds(
      t: seq<StoredRow>, m: Matcher, chunk: nat, limit: nat, cut: nat, p: nat, n: nat, kept: seq<Item>)
    requires chunk > 0 && cut <= p <= n <= |t| && AllFolds(t, n, m, kept)
    ensures AllFolds(t, n, m, Scan(t, m, chunk, limit, cut, p, kept))
    decreases cut
  {
    hide KeptFrom, NextHead, FoldIn, Severity;
    if cut < chunk {
      KeptFolds(t, 0, p, n, m);
    } else {
      var end := NextHead(t, cut - chunk, cut - chunk, p);
      KeptFolds(t, end, p, n, m);
      if |KeptFrom(t, end, p, m) + kept| <= limit {
        ScanFolds(t, m, chunk, limit, cut - chunk, end, n, KeptFrom(t, end, p, m) + kept);
      }
    }
  }

  // A page shows at most limit entries, each a run of rows before its position whose
  // severity is one of the chosen and whose message passes the search.
  lemma QueryPageShows(t: seq<StoredRow>, n: nat, m: Matcher, limit: nat)
    requires n <= |t| && limit > 0
    ensures
      var entries := QueryPage(t, n, m, limit).entries;
      && |entries| <= limit
      && forall e :: e in entries ==>
           && FoldIn(t, n, e)
           && (m.levels == [] || Severity(e.level) in m.levels)
           && (m.search.None? || m.search.value(e.message))
  {
    hide Scan, ChunkSize, FoldIn, Severity, EncodeCursor;
    var found := Scan(t, m, ChunkSize(m, limit), limit, n, n, []);
    ScanFolds(t, m, ChunkSize(m, limit), limit, n, n, n, []);
    forall e | e in QueryPage(t, n, m, limit).entries
      ensures exists item :: item in found && item.entry == e
    {
      var i :| 0 <= i < |QueryPage(t, n, m, limit).entries| && QueryPage(t, n, m, limit).entries[i] == e;
      var k := if |found| <= limit then i else |found| - limit + i;
      assert found[k] in found && found[k].entry == e;
    }
  }
}
