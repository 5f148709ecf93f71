// The rows of one logical container in time order, and how they group.
//
// A timeline is oldest first. Grouping is described by spans of row indices, so
// that the same rows grouped from two different starting points can be compared.
module Timeline {
  import opened LogEntries

  // The keyset position of a stored row; (ts, rowid) is unique.
  datatype CursorPos = CursorPos(tsNS: int, rowid: int)

  datatype StoredRow = StoredRow(entry: LogEntry, pos: CursorPos)

  predicate Before(a: CursorPos, b: CursorPos) {
    a.tsNS < b.tsNS || (a.tsNS == b.tsNS && a.rowid < b.rowid)
  }

  predicate Ascending(t: seq<StoredRow>) {
    forall i, j :: 0 <= i < j < |t| ==> Before(t[i].pos, t[j].pos)
  }

  // Rows come from the line parser, which never reports continuations itself.
  predicate Fresh(t: seq<StoredRow>) {
    forall i :: 0 <= i < |t| ==> t[i].entry.continuationCount == 0
  }

  // -------------------------------------------------------------------- heads

  // A row continues an entry if it belongs to the same engine container and the
  // live grouper would fold it into the row that started the entry.
  predicate Continues(row: StoredRow, head: StoredRow) {
    row.entry.containerID == head.entry.containerID && IsContinuation(row.entry, head.entry)
  }

  // The row that starts the entry row i belongs to, when grouping starts at base.
  function Head(t: seq<StoredRow>, base: nat, i: nat): (h: nat)
    requires base <= i < |t|
    ensures base <= h <= i
    decreases i
  {
    if i == base then base
    else
      var h := Head(t, base, i - 1);
      if Continues(t[i], t[h]) then h else i
  }

  predicate IsHead(t: seq<StoredRow>, base: nat, i: nat)
    requires base <= i < |t|
  {
    Head(t, base, i) == i
  }

  // Row i starts an entry of the whole timeline.
  predicate Starts(t: seq<StoredRow>, i: nat)
    requires i < |t|
  {
    IsHead(t, 0, i)
  }

  // All rows of an entry have the same head, and continue it.
  lemma {:induction false} SameHead(t: seq<StoredRow>, base: nat, i: nat, k: nat)
    requires base <= i < |t| && Head(t, base, i) <= k <= i
    ensures Head(t, base, k) == Head(t, base, i)
    ensures k > Head(t, base, i) ==> Continues(t[k], t[Head(t, base, i)])
    decreases i
  {
    hide Continues;
    if k < i {
      SameHead(t, base, i - 1, k);
    }
  }

  // A line that was itself folded into a parent has no level: it can stand in for
  // the parent towards structured fields, but not towards stack-trace lines.
  lemma StandsIn(row: StoredRow, late: StoredRow, whole: StoredRow)
    requires Continues(late, whole)
    ensures Continues(row, late) ==> Continues(row, whole)
    ensures Continues(row, whole) && !Continues(row, late) ==> !FieldLine(row.entry)
  {}

  // Grouping that starts inside an entry falls in step again unless the late
  // start stands in for a parent the line at the start was itself folded into.
  lemma {:induction false} LateStart(t: seq<StoredRow>, cut: nat, i: nat)
    requires cut <= i < |t|
    ensures
      var late, whole := Head(t, cut, i), Head(t, 0, i);
      late == whole || (whole < cut && Continues(t[late], t[whole]))
    decreases i
  {
    hide Continues;
    if i == cut {
      SameHead(t, 0, i, i);
    } else {
      LateStart(t, cut, i - 1);
      var late, whole := Head(t, cut, i - 1), Head(t, 0, i - 1);
      if late != whole {
        StandsIn(t[i], t[late], t[whole]);
      }
    }
  }

  // From a row that starts an entry on, it does not matter where grouping began.
  lemma {:induction false} StartsIgnoresBase(t: seq<StoredRow>, base: nat, start: nat, i: nat)
    requires base <= start <= i < |t|
    requires Head(t, base, start) == start
    ensures Head(t, base, i) == Head(t, start, i)
    decreases i
  {
    hide Continues;
    if i > start {
      StartsIgnoresBase(t, base, start, i - 1);
    }
  }

  // A start of the whole timeline is a start for any later base.
  lemma StartsFromAnyBase(t: seq<StoredRow>, base: nat, i: nat)
    requires base <= i < |t| && Starts(t, i)
    ensures IsHead(t, base, i)
  {
    LateStart(t, base, i);
  }

  // ---------------------------------------------------------------- rendering

  // The entry the rows lo..hi fold into.
  function Render(t: seq<StoredRow>, lo: nat, hi: nat): LogEntry
    requires lo < hi <= |t|
    decreases hi
  {
    if hi == lo + 1 then t[lo].entry
    else AppendContinuation(Render(t, lo, hi - 1), t[hi - 1].entry)
  }

  // To later lines a rendered entry looks like the row that started it.
  lemma {:induction false} RenderLooksLikeHead(t: seq<StoredRow>, base: nat, i: nat)
    requires base <= i < |t|
    ensures LooksLike(Render(t, Head(t, base, i), i + 1), t[Head(t, base, i)].entry)
    decreases i
  {
    hide IsContinuation, AppendContinuation, Blank;
    var h := Head(t, base, i);
    if h < i {
      RenderLooksLikeHead(t, base, i - 1);
      AppendLooksLike(Render(t, h, i), t[h].entry, t[i].entry);
    }
  }

  lemma {:induction false} RenderCounts(t: seq<StoredRow>, lo: nat, hi: nat)
    requires lo < hi <= |t|
    ensures Render(t, lo, hi).continuationCount == t[lo].entry.continuationCount + (hi - lo - 1)
    decreases hi
  {
    if hi > lo + 1 {
      RenderCounts(t, lo, hi - 1);
    }
  }

  // -------------------------------------------------------------------- items

  // A grouped entry and the position of its first row.
  datatype Item = Item(entry: LogEntry, anchor: CursorPos)

  // The entry rows lo..hi make when grouping starts at base.
  function LastItem(t: seq<StoredRow>, base: nat, p: nat): Item
    requires base < p <= |t|
  {
    var h := Head(t, base, p - 1);
    Item(Render(t, h, p), t[h].pos)
  }

  // One more row either opens a new last entry or replaces the last one.
  function Grow(items: seq<Item>, last: Item, opens: bool): (grown: seq<Item>)
    requires !opens ==> items != []
    ensures grown != [] && grown[|grown| - 1] == last
  {
    if opens then items + [last] else items[|items| - 1 := last]
  }

  lemma GrowConcat(a: seq<Item>, b: seq<Item>, last: Item, opens: bool)
    requires !opens ==> b != []
    ensures Grow(a + b, last, opens) == a + Grow(b, last, opens)
  {}

  // The entries of rows base..p, oldest first.
  function Items(t: seq<StoredRow>, base: nat, p: nat): (items: seq<Item>)
    requires base <= p <= |t|
    ensures p == base <==> items == []
    ensures p > base ==> items[|items| - 1] == LastItem(t, base, p)
    decreases p
  {
    if p == base then []
    else
      Grow(Items(t, base, p - 1), LastItem(t, base, p), Head(t, base, p - 1) == p - 1)
  }

  lemma LastItemIgnoresBase(t: seq<StoredRow>, base: nat, m: nat, p: nat)
    requires base <= m < p <= |t| && Head(t, base, m) == m
    ensures LastItem(t, base, p) == LastItem(t, m, p)
  {
    hide Continues, Render;
    StartsIgnoresBase(t, base, m, p - 1);
  }

  // Cutting the rows at the start of an entry cuts the grouping there too.
  lemma {:induction false} ItemsSplit(t: seq<StoredRow>, base: nat, m: nat, p: nat)
    requires base <= m <= p <= |t|
    requires m == p || Head(t, base, m) == m
    ensures Items(t, base, p) == Items(t, base, m) + Items(t, m, p)
    decreases p
  {
    hide Continues, LastItem, Grow;
    if m < p {
      ItemsSplit(t, base, m, p - 1);
      StartsIgnoresBase(t, base, m, p - 1);
      LastItemIgnoresBase(t, base, m, p);
      GrowConcat(Items(t, base, m), Items(t, m, p - 1), LastItem(t, m, p), Head(t, m, p - 1) == p - 1);
    }
  }

  // ---------------------------------------------------------------- partition

  datatype Span = Span(lo: nat, hi: nat)

  // The same entries as index ranges.
  function Spans(t: seq<StoredRow>, base: nat, p: nat): (s: seq<Span>)
    requires base <= p <= |t|
    ensures p == base <==> s == []
    ensures p > base ==> s[|s| - 1] == Span(Head(t, base, p - 1), p)
    decreases p
  {
    if p == base then []
    else
      var s := Spans(t, base, p - 1);
      if Head(t, base, p - 1) == p - 1 then s + [Span(p - 1, p)]
      else s[|s| - 1 := Span(Head(t, base, p - 1), p)]
  }

  // Ranges that lie end to end and together cover base..p.
  ghost predicate Tiles(spans: seq<Span>, base: nat, p: nat) {
    && (spans == [] ==> base == p)
    && (spans != [] ==> spans[0].lo == base && spans[|spans| - 1].hi == p)
    && (forall k :: 0 <= k < |spans| ==> base <= spans[k].lo < spans[k].hi <= p)
    && (forall k :: 0 < k < |spans| ==> spans[k - 1].hi == spans[k].lo)
  }

  lemma {:induction false} SpansTile(t: seq<StoredRow>, base: nat, p: nat)
    requires base <= p <= |t|
    ensures Tiles(Spans(t, base, p), base, p)
    decreases p
  {
    hide Continues;
    if p > base {
      SpansTile(t, base, p - 1);
    }
  }

  predicate FoldOf(t: seq<StoredRow>, item: Item, span: Span) {
    span.lo < span.hi <= |t| && item == Item(Render(t, span.lo, span.hi), t[span.lo].pos)
  }

  lemma {:induction false} ItemsAreFolds(t: seq<StoredRow>, base: nat, p: nat)
    requires base <= p <= |t|
    ensures |Items(t, base, p)| == |Spans(t, base, p)|
    ensures forall k :: 0 <= k < |Spans(t, base, p)| ==> FoldOf(t, Items(t, base, p)[k], Spans(t, base, p)[k])
    decreases p
  {
    hide Head, FoldOf, LastItem;
    if p > base {
      ItemsAreFolds(t, base, p - 1);
      LastFold(t, base, p);
    }
  }

  lemma LastFold(t: seq<StoredRow>, base: nat, p: nat)
    requires base < p <= |t|
    ensures FoldOf(t, LastItem(t, base, p), Span(Head(t, base, p - 1), p))
  {}

  // Entries partition the rows: each one is the fold of a contiguous range and
  // is anchored at the first row of that range.
  lemma {:induction false} ItemsPartitionRows(t: seq<StoredRow>, base: nat, p: nat)
    requires base <= p <= |t|
    ensures
      var items, spans := Items(t, base, p), Spans(t, base, p);
      && Tiles(spans, base, p) && |items| == |spans|
      && forall k :: 0 <= k < |spans| ==>
           items[k] == Item(Render(t, spans[k].lo, spans[k].hi), t[spans[k].lo].pos)
  {
    hide Items, Spans, Render, Tiles;
    SpansTile(t, base, p);
    ItemsAreFolds(t, base, p);
    forall k | 0 <= k < |Spans(t, base, p)|
      ensures 0 <= Spans(t, base, p)[k].lo < Spans(t, base, p)[k].hi <= |t|
    {
      assert FoldOf(t, Items(t, base, p)[k], Spans(t, base, p)[k]);
    }
  }

  // Each entry's first row and its continuations.
  function RowsCounted(items: seq<Item>): nat {
    if items == [] then 0
    else RowsCounted(items[..|items| - 1]) + 1 + items[|items| - 1].entry.continuationCount
  }

  lemma {:induction false} EveryRowCountedOnce(t: seq<StoredRow>, base: nat, p: nat)
    requires base <= p <= |t| && Fresh(t)
    ensures RowsCounted(Items(t, base, p)) == p - base
    decreases p
  {
    hide Head, Render;
    if p > base {
      EveryRowCountedOnce(t, base, p - 1);
      RenderCounts(t, Head(t, base, p - 1), p);
      var old', new' := Items(t, base, p - 1), Items(t, base, p);
      if Head(t, base, p - 1) == p - 1 {
        assert new'[..|new'| - 1] == old';
      } else {
        SameHead(t, base, p - 1, p - 2);
        assert new'[..|new'| - 1] == old'[..|old'| - 1];
        RenderCounts(t, Head(t, base, p - 1), p - 1);
      }
    }
  }

  // ------------------------------------------------------- what the entries say

  function Entries(items: seq<Item>): (entries: seq<LogEntry>)
    ensures |entries| == |items|
  {
    seq(|items|, k requires 0 <= k < |items| => items[k].entry)
  }

  function RowEntries(t: seq<StoredRow>, lo: nat, hi: nat): (entries: seq<LogEntry>)
    requires lo <= hi <= |t|
    ensures |entries| == hi - lo
  {
    seq(hi - lo, i requires 0 <= i < hi - lo => t[lo + i].entry)
  }

  // The entry of rows lo..hi says all they say.
  lemma {:induction false} RenderTells(t: seq<StoredRow>, lo: nat, hi: nat)
    requires lo < hi <= |t|
    ensures Tells(Render(t, lo, hi), RowEntries(t, lo, hi))
    decreases hi
  {
    hide Tells, AppendContinuation;
    if hi == lo + 1 {
      TellsItself(t[lo].entry);
      assert RowEntries(t, lo, hi) == [t[lo].entry];
    } else {
      RenderTells(t, lo, hi - 1);
      TellsNext(Render(t, lo, hi - 1), RowEntries(t, lo, hi - 1), t[hi - 1].entry);
      assert RowEntries(t, lo, hi) == RowEntries(t, lo, hi - 1) + [t[hi - 1].entry];
    }
  }

  // Entry by entry the grouping tells its rows.
  lemma ItemsTellRows(t: seq<StoredRow>, base: nat, p: nat)
    requires base <= p <= |t|
    ensures
      var items, spans := Items(t, base, p), Spans(t, base, p);
      && Tiles(spans, base, p) && |items| == |spans|
      && forall k :: 0 <= k < |spans| ==>
           Tells(items[k].entry, RowEntries(t, spans[k].lo, spans[k].hi)) && items[k].anchor == t[spans[k].lo].pos
  {
    hide Items, Spans, Render, Tells, RowEntries;
    ItemsPartitionRows(t, base, p);
    forall k | 0 <= k < |Spans(t, base, p)|
      ensures Tells(Items(t, base, p)[k].entry, RowEntries(t, Spans(t, base, p)[k].lo, Spans(t, base, p)[k].hi))
    {
      RenderTells(t, Spans(t, base, p)[k].lo, Spans(t, base, p)[k].hi);
    }
  }

  lemma RenderRaw(t: seq<StoredRow>, lo: nat, hi: nat)
    requires lo < hi <= |t|
    ensures Render(t, lo, hi).raw == Text(Raws(RowEntries(t, lo, hi)))
  {
    hide Text, Render;
    RenderTells(t, lo, hi);
  }

  lemma RowRaws(t: seq<StoredRow>, lo: nat, mid: nat, hi: nat)
    requires lo <= mid <= hi <= |t|
    ensures Raws(RowEntries(t, lo, hi)) == Raws(RowEntries(t, lo, mid)) + Raws(RowEntries(t, mid, hi))
  {}

  lemma TextJoin(a: seq<string>, b: seq<string>, b': seq<string>)
    requires Text(b) == Text(b')
    ensures Text(a + b) == Text(a + b')
  {
    hide Text;
    TextConcat(a, b);
    TextConcat(a, b');
  }

  // The raw text of the entries is the raw text of the rows.
  lemma {:induction false} ItemsRaws(t: seq<StoredRow>, base: nat, p: nat)
    requires base <= p <= |t|
    ensures Text(Raws(Entries(Items(t, base, p)))) == Text(Raws(RowEntries(t, base, p)))
    decreases p
  {
    hide Text, Head, Render, Items, Spans;
    if p == base {
      assert Items(t, base, p) == [];
      assert Raws(Entries(Items(t, base, p))) == Raws(RowEntries(t, base, p));
    } else {
      var h := Head(t, base, p - 1);
      SameHead(t, base, p - 1, h);
      ItemsSplit(t, base, h, p);
      OneSpan(t, base, p);
      ItemsRaws(t, base, h);
      RenderRaw(t, h, p);
      RowRaws(t, base, h, p);
      var front, raw := Raws(Entries(Items(t, base, h))), Render(t, h, p).raw;
      assert Raws(Entries(Items(t, base, p))) == front + [raw];
      TextOne(raw);
      TextJoin(front, [raw], Raws(RowEntries(t, h, p)));
      TextConcat(front, Raws(RowEntries(t, h, p)));
      TextConcat(Raws(RowEntries(t, base, h)), Raws(RowEntries(t, h, p)));
    }
  }

  // The rows of the last entry are one entry by themselves.
  lemma OneSpan(t: seq<StoredRow>, base: nat, p: nat)
    requires base < p <= |t|
    ensures
      var h := Head(t, base, p - 1);
      Head(t, base, h) == h && Items(t, h, p) == [LastItem(t, base, p)]
  {
    hide Continues, Render;
    var h := Head(t, base, p - 1);
    SameHead(t, base, p - 1, h);
    OneRun(t, base, h, p);
  }

  lemma {:induction false} OneRun(t: seq<StoredRow>, base: nat, h: nat, p: nat)
    requires base <= h < p <= |t| && Head(t, base, p - 1) == h && Head(t, base, h) == h
    ensures Items(t, h, p) == [LastItem(t, base, p)]
    decreases p
  {
    hide Continues, Render;
    StartsIgnoresBase(t, base, h, p - 1);
    assert Items(t, h, h) == [];
    if p > h + 1 {
      SameHead(t, base, p - 1, p - 2);
      OneRun(t, base, h, p - 1);
    }
  }
}
