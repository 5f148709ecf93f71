// Following NextCursor from page to page over a fixed table.
module Walk {
  import opened LogEntries
  import opened Timeline
  import opened Cursor
  import opened History
  import opened Paging

  predicate Int64Positions(t: seq<StoredRow>) {
    forall i :: 0 <= i < |t| ==> InInt64(t[i].pos)
  }

  // How many rows lie strictly before a position.
  function OlderCount(t: seq<StoredRow>, pos: CursorPos): (n: nat)
    ensures n <= |t|
  {
    if t == [] then 0
    else if Before(t[|t| - 1].pos, pos) then |t|
    else OlderCount(t[..|t| - 1], pos)
  }

  lemma {:induction false} OlderCountAtRow(t: seq<StoredRow>, i: nat)
    requires Ascending(t) && i < |t|
    ensures OlderCount(t, t[i].pos) == i
  {
    if i < |t| - 1 {
      OlderCountAtRow(t[..|t| - 1], i);
    } else if i > 0 {
      var rest := t[..|t| - 1];
      assert rest[|rest| - 1] == t[i - 1];
    }
  }

  // ---------------------------------------------------------- cursors go down

  ghost predicate AnchoredBelow(t: seq<StoredRow>, n: nat, item: Item)
    requires n <= |t|
  {
    exists i :: 0 <= i < n && item.anchor == t[i].pos
  }

  ghost predicate Anchored(t: seq<StoredRow>, n: nat, items: seq<Item>)
    requires n <= |t|
  {
    forall item :: item in items ==> AnchoredBelow(t, n, item)
  }

  lemma {:induction false} ItemsAnchored(t: seq<StoredRow>, base: nat, p: nat, n: nat)
    requires base <= p <= n <= |t|
    ensures Anchored(t, n, Items(t, base, p))
    decreases p
  {
    hide Continues, Render;
    if p > base {
      ItemsAnchored(t, base, p - 1, n);
      assert AnchoredBelow(t, n, LastItem(t, base, p));
    }
  }

  lemma {:induction false} KeptAnchored(t: seq<StoredRow>, n: nat, items: seq<Item>, m: Matcher)
    requires n <= |t| && Anchored(t, n, items)
    ensures Anchored(t, n, Kept(items, m))
  {
    if items != [] {
      KeptAnchored(t, n, items[..|items| - 1], m);
    }
  }

  lemma {:induction false} ScanAnchored(
      t: seq<StoredRow>, n: nat, m: Matcher, chunk: nat, limit: nat, cut: nat, p: nat, kept: seq<Item>)
    requires chunk > 0 && cut <= p <= n <= |t| && Anchored(t, n, kept)
    ensures Anchored(t, n, Scan(t, m, chunk, limit, cut, p, kept))
    decreases cut
  {
    hide Items, Kept, NextHead;
    if cut < chunk {
      ItemsAnchored(t, 0, p, n);
      KeptAnchored(t, n, Items(t, 0, p), m);
    } else {
      var end := NextHead(t, cut - chunk, cut - chunk, p);
      ItemsAnchored(t, end, p, n);
      KeptAnchored(t, n, Items(t, end, p), m);
      var kept' := KeptFrom(t, end, p, m) + kept;
      if |kept'| <= limit {
        ScanAnchored(t, n, m, chunk, limit, cut - chunk, end, kept');
      }
    }
  }

  // Where the next page ends: the row the page's cursor was made from.
  ghost predicate Leads(t: seq<StoredRow>, page: LogPage, k: nat) {
    && k < |t|
    && DecodeCursor(page.nextCursor) == Some(t[k].pos)
    && OlderCount(t, t[k].pos) == k
  }

  lemma PageLeads(t: seq<StoredRow>, n: nat, kept: seq<Item>, limit: nat)
    returns (k: nat)
    requires Ascending(t) && Int64Positions(t) && n <= |t| && limit > 0
    requires Anchored(t, n, kept) && |kept| > limit
    ensures k < n && Leads(t, NewPage(kept, limit), k)
    ensures t[k].pos == kept[|kept| - limit].anchor
    ensures NewPage(kept, limit).nextCursor != ""
  {
    hide EncodeCursor, DecodeCursor, OlderCount;
    var oldest := kept[|kept| - limit];
    assert AnchoredBelow(t, n, oldest);
    var i :| 0 <= i < n && oldest.anchor == t[i].pos;
    k := i;
    CursorRoundTrip(t[k].pos);
    OlderCountAtRow(t, k);
  }

  // -------------------------------------------------------------------- walks

  // The page a query returns when its cursor lies at row index n.
  function QueryPage(t: seq<StoredRow>, n: nat, m: Matcher, limit: nat): LogPage
    requires n <= |t| && limit > 0
  {
    NewPage(Scan(t, m, ChunkSize(m, limit), limit, n, n, []), limit)
  }

  ghost predicate Continuable(page: LogPage) {
    page.nextCursor != ""
  }

  function NextIndex(t: seq<StoredRow>, page: LogPage): nat {
    match DecodeCursor(page.nextCursor)
    case None => 0
    case Some(pos) => OlderCount(t, pos)
  }

  lemma QueryPageLeads(t: seq<StoredRow>, n: nat, m: Matcher, limit: nat)
    requires Ascending(t) && Int64Positions(t) && n <= |t| && limit > 0
    ensures
      var page := QueryPage(t, n, m, limit);
      page.nextCursor != "" ==> NextIndex(t, page) < n && |page.entries| == limit
  {
    hide EncodeCursor, DecodeCursor, OlderCount, Scan;
    var found := Scan(t, m, ChunkSize(m, limit), limit, n, n, []);
    if |found| > limit {
      ScanAnchored(t, n, m, ChunkSize(m, limit), limit, n, n, []);
      var k := PageLeads(t, n, found, limit);
    }
  }

  lemma WholePageLeads(t: seq<StoredRow>, n: nat, m: Matcher, limit: nat)
    requires Ascending(t) && Int64Positions(t) && n <= |t| && limit > 0
    ensures
      var page := WholePage(t, n, m, limit);
      page.nextCursor != "" ==> NextIndex(t, page) < n
  {
    hide EncodeCursor, DecodeCursor, OlderCount, Items, Kept;
    var kept := KeptFrom(t, 0, n, m);
    if |kept| > limit {
      ItemsAnchored(t, 0, n, n);
      KeptAnchored(t, n, Items(t, 0, n), m);
      var k := PageLeads(t, n, kept, limit);
    }
  }

  // The pages a client sees, newest page first.
  function Pages(t: seq<StoredRow>, n: nat, m: Matcher, limit: nat): seq<LogPage>
    requires Ascending(t) && Int64Positions(t) && n <= |t| && limit > 0
    decreases n
  {
    var page := QueryPage(t, n, m, limit);
    if page.nextCursor == "" then [page]
    else
      QueryPageLeads(t, n, m, limit);
      [page] + Pages(t, NextIndex(t, page), m, limit)
  }

  // The pages it should see.
  function WholePages(t: seq<StoredRow>, n: nat, m: Matcher, limit: nat): seq<LogPage>
    requires Ascending(t) && Int64Positions(t) && n <= |t| && limit > 0
    decreases n
  {
    var page := WholePage(t, n, m, limit);
    if page.nextCursor == "" then [page]
    else
      WholePageLeads(t, n, m, limit);
      [page] + WholePages(t, NextIndex(t, page), m, limit)
  }

  // Pages put in time order.
  function InTimeOrder(pages: seq<LogPage>): seq<LogEntry> {
    if pages == [] then [] else InTimeOrder(pages[1..]) + pages[0].entries
  }

  // A matching entry splits the matching entries at its first row.
  lemma {:induction false} KeptBefore(t: seq<StoredRow>, n: nat, m: Matcher, j: nat)
    returns (k: nat)
    requires n <= |t| && j < |KeptFrom(t, 0, n, m)|
    ensures k < n && KeptFrom(t, 0, n, m)[j].anchor == t[k].pos
    ensures KeptFrom(t, 0, k, m) == KeptFrom(t, 0, n, m)[..j]
    decreases n
  {
    hide Continues, Render;
    var h := Head(t, 0, n - 1);
    SameHead(t, 0, n - 1, h);
    KeptFromSplit(t, 0, h, n, m);
    LastEntry(t, h, n, m);
    var older := KeptFrom(t, 0, h, m);
    if j < |older| {
      k := KeptBefore(t, h, m, j);
    } else {
      k := h;
    }
  }

  // The newest entry on its own.
  lemma LastEntry(t: seq<StoredRow>, h: nat, n: nat, m: Matcher)
    requires h < n <= |t| && Head(t, 0, n - 1) == h
    ensures |KeptFrom(t, h, n, m)| <= 1
    ensures forall item :: item in KeptFrom(t, h, n, m) ==> item.anchor == t[h].pos
  {
    hide Continues, Render;
    forall k | h < k < n ensures !IsHead(t, h, k) {
      SameHead(t, 0, n - 1, h);
      SameHead(t, 0, n - 1, k);
      StartsIgnoresBase(t, 0, h, k);
    }
    OneEntry(t, h, n);
    assert Items(t, h, n) == [LastItem(t, h, n)];
    assert Kept([], m) == [];
    assert [LastItem(t, h, n)][..0] == [];
  }

  // ------------------------------------------------------------ main results

  lemma EntriesConcat(a: seq<Item>, b: seq<Item>)
    ensures Entries(a + b) == Entries(a) + Entries(b)
  {}

  lemma InTimeOrderStep(page: LogPage, rest: seq<LogPage>)
    ensures InTimeOrder([page] + rest) == InTimeOrder(rest) + page.entries
  {
    assert ([page] + rest)[1..] == rest;
  }

  // The reference page and where it leads: the matching entries up to there are
  // those that do not show on it.
  lemma WholePageStep(t: seq<StoredRow>, n: nat, m: Matcher, limit: nat) returns (k: nat, shown: seq<Item>)
    requires Ascending(t) && Int64Positions(t) && n <= |t| && limit > 0
    requires |KeptFrom(t, 0, n, m)| > limit
    ensures k < n && KeptFrom(t, 0, n, m) == KeptFrom(t, 0, k, m) + shown
    ensures WholePage(t, n, m, limit).entries == Entries(shown)
    ensures WholePages(t, n, m, limit) == [WholePage(t, n, m, limit)] + WholePages(t, k, m, limit)
  {
    hide EncodeCursor, DecodeCursor, OlderCount, KeptFrom, Entries;
    var kept := KeptFrom(t, 0, n, m);
    var cut := |kept| - limit;
    shown := kept[cut..];
    k := KeptBefore(t, n, m, cut);
    CursorRoundTrip(t[k].pos);
    OlderCountAtRow(t, k);
    assert kept == kept[..cut] + shown;
  }

  // The reference pages lose nothing and repeat nothing.
  lemma {:induction false} WholePagesCoverHistory(t: seq<StoredRow>, n: nat, m: Matcher, limit: nat)
    requires Ascending(t) && Int64Positions(t) && n <= |t| && limit > 0
    ensures InTimeOrder(WholePages(t, n, m, limit)) == Entries(KeptFrom(t, 0, n, m))
    decreases n
  {
    hide *;
    if |KeptFrom(t, 0, n, m)| <= limit {
      OnlyPage(t, n, m, limit);
    } else {
      var k, shown := WholePageStep(t, n, m, limit);
      var page, rest := WholePage(t, n, m, limit), WholePages(t, k, m, limit);
      calc {
        InTimeOrder(WholePages(t, n, m, limit));
        { InTimeOrderStep(page, rest); }
        InTimeOrder(rest) + page.entries;
        { WholePagesCoverHistory(t, k, m, limit); }
        Entries(KeptFrom(t, 0, k, m)) + Entries(shown);
        { EntriesConcat(KeptFrom(t, 0, k, m), shown); }
        Entries(KeptFrom(t, 0, n, m));
      }
    }
  }

  lemma OnlyPage(t: seq<StoredRow>, n: nat, m: Matcher, limit: nat)
    requires Ascending(t) && Int64Positions(t) && n <= |t| && limit > 0
    requires |KeptFrom(t, 0, n, m)| <= limit
    ensures InTimeOrder(WholePages(t, n, m, limit)) == Entries(KeptFrom(t, 0, n, m))
  {
    hide KeptFrom;
    var page := WholePage(t, n, m, limit);
    InTimeOrderStep(page, []);
    assert [page] + [] == [page] && InTimeOrder([]) + page.entries == page.entries;
  }

  // Every cut of every page's scan is hidden behind that page.
  ghost predicate PagesHidden(t: seq<StoredRow>, n: nat, m: Matcher, limit: nat)
    requires Ascending(t) && Int64Positions(t) && n <= |t| && limit > 0
    decreases n
  {
    && AllHidden(t, n, m, ChunkSize(m, limit), limit, n)
    && if !Continuable(WholePage(t, n, m, limit)) then true
       else
         WholePageLeads(t, n, m, limit);
         PagesHidden(t, NextIndex(t, WholePage(t, n, m, limit)), m, limit)
  }

  // Unfiltered history: a client sees the right pages exactly when no stack trace
  // straddles a chunk boundary within the page its scan is for.
  lemma {:induction false} PagesExactIff(t: seq<StoredRow>, n: nat, m: Matcher, limit: nat)
    requires Ascending(t) && Int64Positions(t) && Fresh(t) && n <= |t| && limit > 0 && !m.Active()
    ensures Pages(t, n, m, limit) == WholePages(t, n, m, limit) <==> PagesHidden(t, n, m, limit)
    decreases n
  {
    hide NewPage, Scan, KeptFrom, DecodeCursor, OlderCount, AllHidden;
    var chunk := ChunkSize(m, limit);
    assert KeptFrom(t, n, n, m) == [] by { EmptyRange(t, n, m); }
    ScanExactIff(t, n, m, chunk, limit, n, n);
    var page, whole := QueryPage(t, n, m, limit), WholePage(t, n, m, limit);
    assert Pages(t, n, m, limit)[0] == page && WholePages(t, n, m, limit)[0] == whole;
    assert page == whole <==> AllHidden(t, n, m, chunk, limit, n);
    if page == whole && whole.nextCursor != "" {
      WholePageLeads(t, n, m, limit);
      var k := NextIndex(t, whole);
      PagesExactIff(t, k, m, limit);
      assert Pages(t, n, m, limit)[1..] == Pages(t, k, m, limit);
      assert WholePages(t, n, m, limit)[1..] == WholePages(t, k, m, limit);
    }
  }

  lemma EmptyRange(t: seq<StoredRow>, n: nat, m: Matcher)
    requires n <= |t|
    ensures KeptFrom(t, n, n, m) == []
  {}

  // No row is a stack-trace line that is not also a structured field.
  predicate TraceFree(t: seq<StoredRow>) {
    forall i :: 0 <= i < |t| && t[i].entry.level == Unknown && IsStackTrace(TrimSpace(t[i].entry.message)) ==>
      FieldLine(t[i].entry)
  }

  lemma TraceFreeCutsAreClean(t: seq<StoredRow>, n: nat, cut: nat)
    requires TraceFree(t) && n <= |t|
    ensures CleanCut(t, n, cut)
  {
    hide FieldLine, IsStackTrace;
    forall k | cut < k < n && Head(t, 0, k) < cut ensures FieldLine(t[k].entry) {
      SameHead(t, 0, k, k);
    }
  }
}
