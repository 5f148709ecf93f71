// The stored-history query: rows are read backwards in chunks, grouped with the
// entry carried over from the newer chunk, filtered, and cut into pages.
module History {
  import opened LogEntries
  import opened Timeline
  import opened Cursor

  const DEFAULT_QUERY_LIMIT := 500
  const MAX_QUERY_LIMIT := 1000
  const SCAN_CHUNK := 1000

  // ------------------------------------------------------------------- filter

  // search is the compiled message test; the pattern language is not modelled.
  datatype Matcher = Matcher(levels: seq<int>, search: Option<string -> bool>) {
    predicate Active() {
      |levels| > 0 || search.Some?
    }

    predicate Matches(entry: LogEntry) {
      && (|levels| > 0 ==> Severity(entry.level) in levels)
      && (search.Some? ==> search.value(entry.message))
    }
  }

  function Kept(items: seq<Item>, m: Matcher): (kept: seq<Item>)
    ensures |kept| <= |items|
  {
    if items == [] then []
    else
      var last := items[|items| - 1];
      Kept(items[..|items| - 1], m) + if m.Matches(last.entry) then [last] else []
  }

  lemma {:induction false} KeptConcat(a: seq<Item>, b: seq<Item>, m: Matcher)
    ensures Kept(a + b, m) == Kept(a, m) + Kept(b, m)
    decreases |b|
  {
    if b == [] {
      assert a + b == a;
    } else {
      KeptConcat(a, b[..|b| - 1], m);
      assert (a + b)[..|a + b| - 1] == a + b[..|b| - 1];
    }
  }

  lemma {:induction false} KeptUnfiltered(items: seq<Item>, m: Matcher)
    requires !m.Active()
    ensures Kept(items, m) == items
  {
    if items != [] {
      KeptUnfiltered(items[..|items| - 1], m);
      assert items == items[..|items| - 1] + [items[|items| - 1]];
    }
  }

  // -------------------------------------------------------------------- pages

  // nextCursor is empty at the end of the history.
  datatype LogPage = LogPage(entries: seq<LogEntry>, nextCursor: string)

  // The newest limit entries; an older one proves that another page exists, and
  // the page's oldest entry is where that page ends.
  function NewPage(kept: seq<Item>, limit: nat): LogPage
    requires limit > 0
  {
    if |kept| <= limit then LogPage(Entries(kept), "")
    else
      var cut := |kept| - limit;
      LogPage(Entries(kept[cut..]), EncodeCursor(kept[cut].anchor))
  }

  // Only the newest limit entries, and whether there are more, show on a page.
  lemma SamePage(a: seq<Item>, b: seq<Item>, newest: seq<Item>, limit: nat)
    requires limit > 0
    requires |newest| >= limit && |a + newest| > limit && |b + newest| > limit
    ensures NewPage(a + newest, limit) == NewPage(b + newest, limit)
  {
    hide EncodeCursor;
    var x, y := a + newest, b + newest;
    assert x[|x| - limit..] == newest[|newest| - limit..] == y[|y| - limit..];
  }

  // ------------------------------------------------ what a query should return

  // The matching entries of rows base..p.
  function KeptFrom(t: seq<StoredRow>, base: nat, p: nat, m: Matcher): seq<Item>
    requires base <= p <= |t|
  {
    Kept(Items(t, base, p), m)
  }

  lemma KeptFromSplit(t: seq<StoredRow>, base: nat, mid: nat, p: nat, m: Matcher)
    requires base <= mid <= p <= |t|
    requires mid == p || Head(t, base, mid) == mid
    ensures KeptFrom(t, base, p, m) == KeptFrom(t, base, mid, m) + KeptFrom(t, mid, p, m)
  {
    ItemsSplit(t, base, mid, p);
    KeptConcat(Items(t, base, mid), Items(t, mid, p), m);
  }

  // Group the whole timeline oldest first, then filter, then cut the page.
  function WholePage(t: seq<StoredRow>, n: nat, m: Matcher, limit: nat): LogPage
    requires n <= |t| && limit > 0
  {
    NewPage(KeptFrom(t, 0, n, m), limit)
  }

  // ------------------------------------------------------- what the scan finds

  // The first entry behind row i when grouping starts at base, or p.
  function NextHead(t: seq<StoredRow>, base: nat, i: nat, p: nat): (next: nat)
    requires base <= i < p <= |t|
    ensures i < next <= p
    ensures next < p ==> IsHead(t, base, next)
    ensures forall k :: i < k < next ==> !IsHead(t, base, k)
    decreases p - i
  {
    if i + 1 == p then p
    else if IsHead(t, base, i + 1) then i + 1
    else NextHead(t, base, i + 1, p)
  }

  lemma {:induction false} OneEntry(t: seq<StoredRow>, base: nat, end: nat)
    requires base < end <= |t|
    requires forall k :: base < k < end ==> !IsHead(t, base, k)
    ensures |Items(t, base, end)| == 1
    ensures forall k :: base <= k < end ==> Head(t, base, k) == base
    decreases end
  {
    hide Continues, LastItem;
    if end > base + 1 {
      assert !IsHead(t, base, end - 1);
      OneEntry(t, base, end - 1);
    }
  }

  // The oldest entry of a grouping, and the rest of it.
  lemma OldestEntry(t: seq<StoredRow>, base: nat, p: nat)
    requires base < p <= |t|
    ensures Items(t, base, p)[1..] == Items(t, NextHead(t, base, base, p), p)
  {
    var end := NextHead(t, base, base, p);
    ItemsSplit(t, base, end, p);
    OneEntry(t, base, end);
  }

  // The scan from row index cut downwards: rows cut..p are carried, kept holds
  // the matched entries of everything newer. A full chunk's oldest entry is
  // carried on; a short chunk reaches the beginning of the history.
  function Scan(t: seq<StoredRow>, m: Matcher, chunk: nat, limit: nat, cut: nat, p: nat, kept: seq<Item>)
    : (found: seq<Item>)
    requires chunk > 0 && cut <= p <= |t|
    decreases cut
  {
    if cut < chunk then KeptFrom(t, 0, p, m) + kept
    else
      var end := NextHead(t, cut - chunk, cut - chunk, p);
      var kept' := KeptFrom(t, end, p, m) + kept;
      if |kept'| > limit then kept' else Scan(t, m, chunk, limit, cut - chunk, end, kept')
  }

  lemma ScanUnfold(t: seq<StoredRow>, m: Matcher, chunk: nat, limit: nat, cut: nat, p: nat, kept: seq<Item>)
    requires chunk > 0 && cut <= p <= |t|
    ensures cut < chunk ==> Scan(t, m, chunk, limit, cut, p, kept) == KeptFrom(t, 0, p, m) + kept
    ensures cut >= chunk ==>
      var end := NextHead(t, cut - chunk, cut - chunk, p);
      var kept' := KeptFrom(t, end, p, m) + kept;
      Scan(t, m, chunk, limit, cut, p, kept) ==
      if |kept'| > limit then kept' else Scan(t, m, chunk, limit, cut - chunk, end, kept')
  {
    hide NextHead, KeptFrom;
  }

  // What an older round finds goes in front of what is already found.
  lemma {:induction false} ScanPrepends(
      t: seq<StoredRow>, m: Matcher, chunk: nat, limit: nat, cut: nat, p: nat, kept: seq<Item>)
    returns (older: seq<Item>)
    requires chunk > 0 && cut <= p <= |t|
    ensures Scan(t, m, chunk, limit, cut, p, kept) == older + kept
    decreases cut
  {
    hide NextHead, KeptFrom;
    if cut < chunk {
      older := KeptFrom(t, 0, p, m);
    } else {
      var end := NextHead(t, cut - chunk, cut - chunk, p);
      var found := KeptFrom(t, end, p, m);
      var kept' := found + kept;
      if |kept'| > limit {
        return found;
      }
      var rest := ScanPrepends(t, m, chunk, limit, cut - chunk, end, kept');
      older := rest + found;
      calc {
        Scan(t, m, chunk, limit, cut, p, kept);
        Scan(t, m, chunk, limit, cut - chunk, end, kept');
        rest + kept';
        older + kept;
      }
    }
  }

  // One row proves that an older page exists and one more is the held-back entry;
  // a filter that may drop most entries reads larger chunks.
  function ChunkSize(m: Matcher, limit: nat): (chunk: nat)
    ensures chunk == if (m.levels == [] && m.search.None?) || limit >= 998 then limit + 2 else 1000
  {
    if m.Active() && limit + 2 < SCAN_CHUNK then SCAN_CHUNK else limit + 2
  }

  // The row indices at which the scan's chunks end.
  function Cuts(n: nat, chunk: nat): (cuts: seq<nat>)
    requires chunk > 0
  {
    if n < chunk then [] else [n - chunk] + Cuts(n - chunk, chunk)
  }

  // A cut is clean when the entry it splits, if any, goes on behind the row at
  // the cut with structured fields only. Stack-trace lines need the level of
  // their parent, which is on the other side of the cut.
  ghost predicate CleanCut(t: seq<StoredRow>, n: nat, cut: nat)
    requires n <= |t|
  {
    forall k :: cut < k < n && Head(t, 0, k) < cut ==> FieldLine(t[k].entry)
  }

  // The matching entries that begin behind row i.
  function Newer(t: seq<StoredRow>, n: nat, i: nat, m: Matcher): seq<Item>
    requires i < n <= |t|
  {
    KeptFrom(t, NextHead(t, 0, i, n), n, m)
  }

  // The row that ends the held-back entry is a stack-trace line cut off from its
  // parent, or starts an entry of the whole timeline.
  lemma HeldBackEnd(t: seq<StoredRow>, cut: nat, p: nat)
    requires cut < p <= |t|
    ensures
      var end := NextHead(t, cut, cut, p);
      end == p || Starts(t, end) || (Head(t, 0, end) < cut && !FieldLine(t[end].entry))
  {
    hide Continues, FieldLine;
    var end := NextHead(t, cut, cut, p);
    OneEntry(t, cut, end);
    if end < p && !Starts(t, end) {
      LateStart(t, cut, end - 1);
      LateStart(t, cut, end);
      StandsIn(t[end], t[cut], t[Head(t, 0, end)]);
    }
  }

  // Clean cuts are exactly those after whose held-back entry the scan is back in
  // step with the grouping of the whole timeline.
  lemma CleanCutInStep(t: seq<StoredRow>, n: nat, cut: nat, p: nat)
    requires cut < p <= n <= |t| && (p == n || Starts(t, p))
    ensures
      var end := NextHead(t, cut, cut, p);
      CleanCut(t, n, cut) <==> end == p || Starts(t, end)
  {
    var end := NextHead(t, cut, cut, p);
    HeldBackEnd(t, cut, p);
    if end == p || Starts(t, end) {
      forall k | cut < k < n && Head(t, 0, k) < cut ensures FieldLine(t[k].entry) {
        InStepRowIsField(t, n, cut, end, k);
      }
    }
  }

  lemma InStepRowIsField(t: seq<StoredRow>, n: nat, cut: nat, end: nat, k: nat)
    requires cut < end <= n <= |t| && (end == n || Starts(t, end))
    requires forall j :: cut < j < end ==> !IsHead(t, cut, j)
    requires cut < k < n && Head(t, 0, k) < cut
    ensures FieldLine(t[k].entry)
  {
    if end <= k {
      StartsIgnoresBase(t, 0, end, k);
    }
    OneEntry(t, cut, end);
    SameHead(t, cut, k, k);
    SameHead(t, 0, k, cut);
    assert Continues(t[k], t[cut]);
    assert Continues(t[cut], t[Head(t, 0, k)]);
  }
}
