// Which entries a filtered page shows: the scan's grouping in pieces against the
// grouping of the whole timeline.
module Splits {
  import opened LogEntries
  import opened Timeline
  import opened Cursor
  import opened History
  import opened Walk

  // ---------------------------------------------------------- what a page shows

  // The newest limit entries with the positions of their first rows, and whether
  // there are more.
  datatype Shown = Shown(items: seq<Item>, more: bool)

  function Show(kept: seq<Item>, limit: nat): Shown {
    if |kept| <= limit then Shown(kept, false) else Shown(kept[|kept| - limit..], true)
  }

  function PageOf(s: Shown): LogPage {
    LogPage(Entries(s.items), if s.more && s.items != [] then EncodeCursor(s.items[0].anchor) else "")
  }

  // A page is what it shows.
  lemma PageIsShown(kept: seq<Item>, limit: nat)
    requires limit > 0
    ensures NewPage(kept, limit) == PageOf(Show(kept, limit))
  {
    hide EncodeCursor;
  }

  // ------------------------------------------------------ the scan's boundaries

  // Where the rounds of a scan end: the rows between two of them are grouped apart.
  function Bounds(t: seq<StoredRow>, chunk: nat, cut: nat, p: nat): (bs: seq<nat>)
    requires chunk > 0 && cut <= p <= |t|
    decreases cut
  {
    if cut < chunk then []
    else
      var end := NextHead(t, cut - chunk, cut - chunk, p);
      [end] + Bounds(t, chunk, cut - chunk, end)
  }

  // The matching entries of rows 0..q, grouped apart at the boundaries.
  function Chunked(t: seq<StoredRow>, m: Matcher, bs: seq<nat>, q: nat): seq<Item>
    requires q <= |t|
    decreases |bs|
  {
    if bs == [] then KeptFrom(t, 0, q, m)
    else if bs[0] < q then Chunked(t, m, bs[1..], bs[0]) + KeptFrom(t, bs[0], q, m)
    else Chunked(t, m, bs[1..], q)
  }

  // What they make of rows s..q.
  function Pieces(t: seq<StoredRow>, m: Matcher, bs: seq<nat>, s: nat, q: nat): seq<Item>
    requires s <= q <= |t|
    decreases |bs|
  {
    if bs == [] || bs[0] <= s then KeptFrom(t, s, q, m)
    else if bs[0] < q then Pieces(t, m, bs[1..], s, bs[0]) + KeptFrom(t, bs[0], q, m)
    else Pieces(t, m, bs[1..], s, q)
  }

  lemma ShowNewest(older: seq<Item>, older': seq<Item>, newest: seq<Item>, limit: nat)
    requires |newest| > limit
    ensures Show(older + newest, limit) == Show(older' + newest, limit)
  {
    var x, y := older + newest, older' + newest;
    assert x[|x| - limit..] == newest[|newest| - limit..] == y[|y| - limit..];
  }

  // The scan shows the grouping in pieces, although it stops when the page is full.
  lemma {:induction false} ScanShows(
      t: seq<StoredRow>, m: Matcher, chunk: nat, limit: nat, cut: nat, p: nat, kept: seq<Item>)
    requires chunk > 0 && cut <= p <= |t|
    ensures
      Show(Scan(t, m, chunk, limit, cut, p, kept), limit) ==
      Show(Chunked(t, m, Bounds(t, chunk, cut, p), p) + kept, limit)
    decreases cut
  {
    hide NextHead, KeptFrom, Show;
    if cut >= chunk {
      var end := NextHead(t, cut - chunk, cut - chunk, p);
      var bs := Bounds(t, chunk, cut - chunk, end);
      var kept' := KeptFrom(t, end, p, m) + kept;
      var older := Chunked(t, m, bs, end);
      assert ([end] + bs)[1..] == bs;
      if end == p {
        EmptyRange(t, p, m);
      }
      assert Chunked(t, m, [end] + bs, p) + kept == older + kept';
      if |kept'| > limit {
        assert [] + kept' == kept';
        ShowNewest([], older, kept', limit);
      } else {
        ScanShows(t, m, chunk, limit, cut - chunk, end, kept');
      }
    }
  }

  // The grouping in pieces splits at every entry of the whole timeline.
  lemma {:induction false} ChunkedSplit(t: seq<StoredRow>, m: Matcher, bs: seq<nat>, s: nat, q: nat)
    requires s <= q <= |t| && (s == q || Starts(t, s))
    ensures Chunked(t, m, bs, q) == Chunked(t, m, bs, s) + Pieces(t, m, bs, s, q)
    decreases |bs|
  {
    hide KeptFrom;
    if s == q {
      NoPieces(t, m, bs, q);
    } else if bs == [] {
      KeptFromSplit(t, 0, s, q, m);
    } else {
      var b, rest := bs[0], bs[1..];
      if b <= s {
        StartsFromAnyBase(t, b, s);
        KeptFromSplit(t, b, s, q, m);
        EmptyRange(t, s, m);
      } else if b < q {
        ChunkedSplit(t, m, rest, s, b);
      } else {
        ChunkedSplit(t, m, rest, s, q);
      }
    }
  }

  lemma {:induction false} NoPieces(t: seq<StoredRow>, m: Matcher, bs: seq<nat>, q: nat)
    requires q <= |t|
    ensures Pieces(t, m, bs, q, q) == []
    decreases |bs|
  {
    hide KeptFrom;
    EmptyRange(t, q, m);
    if bs != [] && bs[0] > q {
      NoPieces(t, m, bs[1..], q);
    }
  }

  // -------------------------------------------------------- entries and positions

  ghost predicate AnchoredIn(t: seq<StoredRow>, lo: nat, hi: nat, item: Item)
    requires hi <= |t|
  {
    exists i :: lo <= i < hi && item.anchor == t[i].pos
  }

  // Entries of rows lo..hi, by position.
  ghost predicate Placed(t: seq<StoredRow>, lo: nat, hi: nat, items: seq<Item>)
    requires hi <= |t|
  {
    && (forall k :: 0 <= k < |items| ==> AnchoredIn(t, lo, hi, items[k]))
    && (forall j, k :: 0 <= j < k < |items| ==> Before(items[j].anchor, items[k].anchor))
  }

  lemma PlacedConcat(t: seq<StoredRow>, lo: nat, mid: nat, hi: nat, a: seq<Item>, b: seq<Item>)
    requires Ascending(t) && lo <= mid <= hi <= |t| && Placed(t, lo, mid, a) && Placed(t, mid, hi, b)
    ensures Placed(t, lo, hi, a + b)
  {
    forall k | 0 <= k < |a + b|
      ensures AnchoredIn(t, lo, hi, (a + b)[k])
    {
      assert if k < |a| then AnchoredIn(t, lo, mid, a[k]) else AnchoredIn(t, mid, hi, b[k - |a|]);
    }
    forall j, k | 0 <= j < |a| && 0 <= k < |b|
      ensures Before(a[j].anchor, b[k].anchor)
    {
      assert AnchoredIn(t, lo, mid, a[j]) && AnchoredIn(t, mid, hi, b[k]);
    }
  }

  lemma {:induction false} ItemsPlaced(t: seq<StoredRow>, base: nat, p: nat)
    requires Ascending(t) && base <= p <= |t|
    ensures Placed(t, base, p, Items(t, base, p))
    decreases p
  {
    hide Head, Render, Ascending, Placed;
    if p == base {
      NonePlaced(t, base, p);
    } else {
      ItemsPlaced(t, base, p - 1);
      var h, last := Head(t, base, p - 1), LastItem(t, base, p);
      if h == p - 1 {
        OnePlaced(t, p - 1, last);
        PlacedConcat(t, base, p - 1, p, Items(t, base, p - 1), [last]);
      } else {
        SameHead(t, base, p - 1, p - 2);
        LastReplaced(t, base, p, Items(t, base, p - 1), last);
      }
    }
  }

  lemma NonePlaced(t: seq<StoredRow>, lo: nat, hi: nat)
    requires hi <= |t|
    ensures Placed(t, lo, hi, [])
  {}

  lemma OnePlaced(t: seq<StoredRow>, i: nat, item: Item)
    requires i < |t| && item.anchor == t[i].pos
    ensures Placed(t, i, i + 1, [item])
  {
    assert AnchoredIn(t, i, i + 1, item);
  }

  // The last entry grows by a row.
  lemma LastReplaced(t: seq<StoredRow>, base: nat, p: nat, items: seq<Item>, last: Item)
    requires base < p <= |t| && items != [] && Placed(t, base, p - 1, items)
    requires last.anchor == items[|items| - 1].anchor
    ensures Placed(t, base, p, items[|items| - 1 := last])
  {
    var grown := items[|items| - 1 := last];
    forall k | 0 <= k < |grown|
      ensures AnchoredIn(t, base, p, grown[k])
    {
      assert AnchoredIn(t, base, p - 1, items[k]);
    }
  }

  lemma {:induction false} KeptPlaced(t: seq<StoredRow>, lo: nat, hi: nat, items: seq<Item>, m: Matcher)
    requires hi <= |t| && Placed(t, lo, hi, items)
    ensures Placed(t, lo, hi, Kept(items, m))
    ensures forall item :: item in Kept(items, m) ==> item in items
  {
    if items != [] {
      var init, last := items[..|items| - 1], items[|items| - 1];
      KeptPlaced(t, lo, hi, init, m);
      forall k | 0 <= k < |Kept(init, m)|
        ensures Before(Kept(init, m)[k].anchor, last.anchor)
      {
        assert Kept(init, m)[k] in init;
      }
    }
  }

  lemma KeptFromPlaced(t: seq<StoredRow>, lo: nat, hi: nat, m: Matcher)
    requires Ascending(t) && lo <= hi <= |t|
    ensures Placed(t, lo, hi, KeptFrom(t, lo, hi, m))
  {
    hide Placed;
    ItemsPlaced(t, lo, hi);
    KeptPlaced(t, lo, hi, Items(t, lo, hi), m);
  }

  lemma {:induction false} PiecesPlaced(t: seq<StoredRow>, m: Matcher, bs: seq<nat>, s: nat, q: nat)
    requires Ascending(t) && s <= q <= |t|
    ensures Placed(t, s, q, Pieces(t, m, bs, s, q))
    decreases |bs|
  {
    hide Placed, KeptFrom;
    if bs == [] || bs[0] <= s {
      KeptFromPlaced(t, s, q, m);
    } else if bs[0] < q {
      PiecesPlaced(t, m, bs[1..], s, bs[0]);
      KeptFromPlaced(t, bs[0], q, m);
      PlacedConcat(t, s, bs[0], q, Pieces(t, m, bs[1..], s, bs[0]), KeptFrom(t, bs[0], q, m));
    } else {
      PiecesPlaced(t, m, bs[1..], s, q);
    }
  }

  lemma {:induction false} ChunkedPlaced(t: seq<StoredRow>, m: Matcher, bs: seq<nat>, q: nat)
    requires Ascending(t) && q <= |t|
    ensures Placed(t, 0, q, Chunked(t, m, bs, q))
    decreases |bs|
  {
    hide Placed, KeptFrom;
    if bs == [] {
      KeptFromPlaced(t, 0, q, m);
    } else if bs[0] < q {
      ChunkedPlaced(t, m, bs[1..], bs[0]);
      KeptFromPlaced(t, bs[0], q, m);
      PlacedConcat(t, 0, bs[0], q, Chunked(t, m, bs[1..], bs[0]), KeptFrom(t, bs[0], q, m));
    } else {
      ChunkedPlaced(t, m, bs[1..], q);
    }
  }

  // The shown entry behind x newer ones.
  lemma ShownBehind(kept: seq<Item>, limit: nat, x: nat)
    requires x < limit
    ensures |Show(kept, limit).items| > x <==> |kept| > x
    ensures |kept| > x ==> Show(kept, limit).items[|Show(kept, limit).items| - 1 - x] == kept[|kept| - 1 - x]
  {}

  // An entry that comes out differently, with fewer than limit newer ones, shows.
  lemma DifferenceShows(
      t: seq<StoredRow>, h: nat, q: nat, a: seq<Item>, pieces: seq<Item>, b: seq<Item>, whole: seq<Item>,
      newer: seq<Item>, limit: nat)
    requires Ascending(t) && h < q <= |t| && |newer| < limit && pieces != whole
    requires Placed(t, 0, h, a) && Placed(t, 0, h, b) && Placed(t, h, q, pieces)
    requires |whole| <= 1 && forall item :: item in whole ==> item.anchor == t[h].pos
    ensures Show(a + pieces + newer, limit) != Show(b + whole + newer, limit)
  {
    hide Show;
    var x, y, n := a + pieces + newer, b + whole + newer, |newer|;
    ShownBehind(x, limit, n);
    ShownBehind(y, limit, n);
    if |x| > n && |y| > n {
      var left, right := (a + pieces)[|a + pieces| - 1], (b + whole)[|b + whole| - 1];
      assert x[|x| - 1 - n] == left && y[|y| - 1 - n] == right;
      LastDiffers(t, h, q, a, pieces, b, whole);
    }
  }

  lemma LastDiffers(
      t: seq<StoredRow>, h: nat, q: nat, a: seq<Item>, pieces: seq<Item>, b: seq<Item>, whole: seq<Item>)
    requires Ascending(t) && h < q <= |t| && pieces != whole && a + pieces != [] && b + whole != []
    requires Placed(t, 0, h, a) && Placed(t, 0, h, b) && Placed(t, h, q, pieces)
    requires |whole| <= 1 && forall item :: item in whole ==> item.anchor == t[h].pos
    ensures (a + pieces)[|a + pieces| - 1] != (b + whole)[|b + whole| - 1]
  {
    if pieces == [] {
      assert AnchoredIn(t, 0, h, a[|a| - 1]);
      assert whole[0] in whole;
    } else {
      var last := pieces[|pieces| - 1];
      assert AnchoredIn(t, h, q, last);
      if whole == [] {
        assert AnchoredIn(t, 0, h, b[|b| - 1]);
      } else {
        assert whole == [whole[0]] && whole[0] in whole;
        if |pieces| > 1 {
          assert AnchoredIn(t, h, q, pieces[0]);
          assert Before(pieces[0].anchor, last.anchor);
        } else {
          assert pieces == [last];
        }
      }
    }
  }

  // ------------------------------------------------ which entries come out differently

  predicate Descending(bs: seq<nat>) {
    forall i, j :: 0 <= i < j < |bs| ==> bs[i] >= bs[j]
  }

  predicate SplitBy(bs: seq<nat>, h: nat, q: nat) {
    exists b :: b in bs && h < b < q
  }

  // A boundary splits the entry of rows h..q, and it or one of its pieces matches.
  predicate SplitMatches(t: seq<StoredRow>, m: Matcher, bs: seq<nat>, h: nat, q: nat)
    requires h <= q <= |t|
  {
    SplitBy(bs, h, q) && (Pieces(t, m, bs, h, q) != [] || KeptFrom(t, h, q, m) != [])
  }

  lemma SplitByRest(bs: seq<nat>, h: nat, q: nat)
    requires bs != [] && !(h < bs[0] < q)
    ensures SplitBy(bs, h, q) <==> SplitBy(bs[1..], h, q)
  {
    if SplitBy(bs, h, q) {
      var b :| b in bs && h < b < q;
      var i :| 0 <= i < |bs| && bs[i] == b;
      assert bs[1..][i - 1] == b;
      assert b in bs[1..];
    }
    if SplitBy(bs[1..], h, q) {
      var b :| b in bs[1..] && h < b < q;
      assert b in bs;
    }
  }

  lemma {:induction false} Unsplit(t: seq<StoredRow>, m: Matcher, bs: seq<nat>, h: nat, q: nat)
    requires h <= q <= |t| && !SplitBy(bs, h, q)
    ensures Pieces(t, m, bs, h, q) == KeptFrom(t, h, q, m)
    decreases |bs|
  {
    hide KeptFrom;
    if bs != [] && bs[0] > h {
      assert bs[0] in bs;
      SplitByRest(bs, h, q);
      Unsplit(t, m, bs[1..], h, q);
    }
  }

  // An entry grouped from its own first row counts at most the rows up to q.
  lemma {:induction false} CountBound(t: seq<StoredRow>, s: nat, q: nat)
    requires Ascending(t) && s < |t| && s <= q <= |t|
    ensures forall item :: item in Items(t, s, q) && item.anchor == t[s].pos ==>
      item.entry.continuationCount <= t[s].entry.continuationCount + (q - s - 1)
    decreases q
  {
    hide Continues, Render;
    if q > s {
      CountBound(t, s, q - 1);
      RenderCounts(t, Head(t, s, q - 1), q);
      var last := LastItem(t, s, q);
      assert forall item :: item in Items(t, s, q) ==> item == last || item in Items(t, s, q - 1);
    }
  }

  lemma KeptBehind(t: seq<StoredRow>, s: nat, b: nat, q: nat, m: Matcher)
    requires Ascending(t) && s < b <= q <= |t|
    ensures forall item :: item in KeptFrom(t, b, q, m) ==> item.anchor != t[s].pos
  {
    hide KeptFrom;
    KeptFromPlaced(t, b, q, m);
    forall item | item in KeptFrom(t, b, q, m)
      ensures item.anchor != t[s].pos
    {
      assert AnchoredIn(t, b, q, item);
    }
  }

  // A piece of a split entry is shorter than the entry.
  lemma {:induction false} PieceIsShort(
      t: seq<StoredRow>, m: Matcher, bs: seq<nat>, s: nat, q: nat, item: Item)
    requires Ascending(t) && Descending(bs) && s < q <= |t|
    requires item in Pieces(t, m, bs, s, q) && item.anchor == t[s].pos
    ensures item.entry.continuationCount <= t[s].entry.continuationCount + (q - s - 1)
    ensures SplitBy(bs, s, q) ==> item.entry.continuationCount < t[s].entry.continuationCount + (q - s - 1)
    decreases |bs|
  {
    hide Items, Continues;
    if bs == [] || bs[0] <= s {
      KeptIsItem(t, s, q, m, item);
      CountBound(t, s, q);
    } else if bs[0] < q {
      KeptBehind(t, s, bs[0], q, m);
      PieceIsShort(t, m, bs[1..], s, bs[0], item);
    } else {
      SplitByRest(bs, s, q);
      PieceIsShort(t, m, bs[1..], s, q, item);
    }
  }

  lemma KeptIsItem(t: seq<StoredRow>, s: nat, q: nat, m: Matcher, item: Item)
    requires Ascending(t) && s <= q <= |t| && item in KeptFrom(t, s, q, m)
    ensures item in Items(t, s, q)
  {
    ItemsPlaced(t, s, q);
    KeptPlaced(t, s, q, Items(t, s, q), m);
  }

  lemma WholeEntry(t: seq<StoredRow>, m: Matcher, h: nat, q: nat, item: Item)
    requires Ascending(t) && h < q <= |t| && Head(t, 0, q - 1) == h && item in KeptFrom(t, h, q, m)
    ensures item.anchor == t[h].pos
    ensures item.entry.continuationCount == t[h].entry.continuationCount + (q - h - 1)
  {
    hide Continues, Render, Ascending, Grow, KeptFrom;
    KeptIsItem(t, h, q, m, item);
    SameHead(t, 0, q - 1, h);
    StartsIgnoresBase(t, 0, h, q - 1);
    forall k | h < k < q
      ensures !IsHead(t, h, k)
    {
      SameHead(t, 0, q - 1, k);
      StartsIgnoresBase(t, 0, h, k);
    }
    OneEntry(t, h, q);
    RenderCounts(t, h, q);
  }

  // An entry comes out differently exactly when a boundary splits it and it or one
  // of its pieces matches.
  lemma DiffersIff(t: seq<StoredRow>, m: Matcher, bs: seq<nat>, h: nat, q: nat)
    requires Ascending(t) && Descending(bs) && h < q <= |t| && Head(t, 0, q - 1) == h
    ensures Pieces(t, m, bs, h, q) != KeptFrom(t, h, q, m) <==> SplitMatches(t, m, bs, h, q)
  {
    hide Items, Continues, Pieces, KeptFrom;
    if !SplitBy(bs, h, q) {
      Unsplit(t, m, bs, h, q);
    } else if Pieces(t, m, bs, h, q) == KeptFrom(t, h, q, m) && KeptFrom(t, h, q, m) != [] {
      var item := KeptFrom(t, h, q, m)[0];
      WholeEntry(t, m, h, q, item);
      PieceIsShort(t, m, bs, h, q, item);
      assert false;
    }
  }

  // ------------------------------------------------------- when the page is right

  // The newest split entry that matches, whole or in a piece, is behind more than a
  // page of matching entries; or behind exactly a page, while some entry and some
  // piece from there on match alike.
  predicate SplitsHidden(t: seq<StoredRow>, m: Matcher, bs: seq<nat>, limit: nat, q: nat, newer: nat)
    requires q <= |t|
    decreases q
  {
    q == 0
    || var h := Head(t, 0, q - 1);
       if SplitMatches(t, m, bs, h, q) then
         newer > limit || (newer == limit && Chunked(t, m, bs, q) != [] && KeptFrom(t, 0, q, m) != [])
       else SplitsHidden(t, m, bs, limit, h, newer + |KeptFrom(t, h, q, m)|)
  }

  lemma {:induction false} NoRows(t: seq<StoredRow>, m: Matcher, bs: seq<nat>)
    ensures Chunked(t, m, bs, 0) == KeptFrom(t, 0, 0, m) == []
    decreases |bs|
  {
    hide KeptFrom;
    EmptyRange(t, 0, m);
    if bs != [] {
      NoRows(t, m, bs[1..]);
    }
  }

  lemma FullShown(a: seq<Item>, b: seq<Item>, newer: seq<Item>, limit: nat)
    requires |newer| >= limit
    ensures Show(a + newer, limit) == Show(b + newer, limit) <==> (|a + newer| > limit <==> |b + newer| > limit)
  {
    var x, y := a + newer, b + newer;
    if |x| > limit && |y| > limit {
      assert x[|x| - limit..] == newer[|newer| - limit..] == y[|y| - limit..];
    } else if |x| <= limit && |y| <= limit {
      assert x == newer == y;
    }
  }

  // Shown alike exactly when the splits are hidden.
  lemma {:induction false} ShownIff(t: seq<StoredRow>, m: Matcher, bs: seq<nat>, limit: nat, q: nat, newer: seq<Item>)
    requires Ascending(t) && Descending(bs) && q <= |t|
    ensures
      Show(Chunked(t, m, bs, q) + newer, limit) == Show(KeptFrom(t, 0, q, m) + newer, limit) <==>
      SplitsHidden(t, m, bs, limit, q, |newer|)
    decreases q
  {
    hide KeptFrom, Show, Chunked, Pieces, Placed, Ascending, Descending, Continues, SplitMatches;
    if q == 0 {
      NoRows(t, m, bs);
    } else {
      var h := Head(t, 0, q - 1);
      SameHead(t, 0, q - 1, h);
      var p, w := Pieces(t, m, bs, h, q), KeptFrom(t, h, q, m);
      var a, b := Chunked(t, m, bs, h), KeptFrom(t, 0, h, m);
      ChunkedSplit(t, m, bs, h, q);
      KeptFromSplit(t, 0, h, q, m);
      DiffersIff(t, m, bs, h, q);
      if p == w {
        ShownIff(t, m, bs, limit, h, p + newer);
        assert a + p + newer == a + (p + newer) && b + p + newer == b + (p + newer);
      } else if |newer| >= limit {
        FullShown(a + p, b + w, newer, limit);
      } else {
        ChunkedPlaced(t, m, bs, h);
        KeptFromPlaced(t, 0, h, m);
        PiecesPlaced(t, m, bs, h, q);
        LastEntry(t, h, q, m);
        DifferenceShows(t, h, q, a, p, b, w, newer, limit);
      }
    }
  }

  // The scan's boundaries go down.
  lemma {:induction false} BoundsDescend(t: seq<StoredRow>, chunk: nat, cut: nat, p: nat)
    requires chunk > 0 && cut <= p <= |t|
    ensures Descending(Bounds(t, chunk, cut, p)) && forall b :: b in Bounds(t, chunk, cut, p) ==> b <= p
    decreases cut
  {
    hide NextHead, Descending;
    if cut < chunk {
      OneMoreBound(p, []);
    } else {
      var end := NextHead(t, cut - chunk, cut - chunk, p);
      BoundsDescend(t, chunk, cut - chunk, end);
      OneMoreBound(end, Bounds(t, chunk, cut - chunk, end));
    }
  }

  lemma OneMoreBound(b: nat, bs: seq<nat>)
    requires bs == [] || Descending(bs)
    requires forall c :: c in bs ==> c <= b
    ensures Descending([b] + bs) && Descending([])
  {
    forall k | 0 <= k < |bs|
      ensures bs[k] <= b
    {
      assert bs[k] in bs;
    }
  }

  // -------------------------------------------------------------------- one page

  // The page shows the matching entries of the whole timeline, each at its place.
  predicate RightPage(t: seq<StoredRow>, n: nat, m: Matcher, limit: nat)
    requires n <= |t| && limit > 0
  {
    QueryShown(t, n, m, limit) == WholeShown(t, n, m, limit)
  }

  function QueryShown(t: seq<StoredRow>, n: nat, m: Matcher, limit: nat): Shown
    requires n <= |t| && limit > 0
  {
    Show(Scan(t, m, ChunkSize(m, limit), limit, n, n, []), limit)
  }

  function WholeShown(t: seq<StoredRow>, n: nat, m: Matcher, limit: nat): Shown
    requires n <= |t| && limit > 0
  {
    Show(KeptFrom(t, 0, n, m), limit)
  }

  // The splits of the page's scan are hidden.
  predicate SplitsHarmless(t: seq<StoredRow>, n: nat, m: Matcher, limit: nat)
    requires n <= |t| && limit > 0
  {
    SplitsHidden(t, m, Bounds(t, ChunkSize(m, limit), n, n), limit, n, 0)
  }

  // Any filter: one page is right exactly when the splits are harmless.
  lemma RightPageIff(t: seq<StoredRow>, n: nat, m: Matcher, limit: nat)
    requires Ascending(t) && n <= |t| && limit > 0
    ensures RightPage(t, n, m, limit) <==> SplitsHarmless(t, n, m, limit)
  {
    hide Show, Scan, KeptFrom, Chunked, Bounds, SplitsHidden;
    var chunk := ChunkSize(m, limit);
    var bs := Bounds(t, chunk, n, n);
    ScanShows(t, m, chunk, limit, n, n, []);
    BoundsDescend(t, chunk, n, n);
    ShownIff(t, m, bs, limit, n, []);
    assert Chunked(t, m, bs, n) + [] == Chunked(t, m, bs, n) && KeptFrom(t, 0, n, m) + [] == KeptFrom(t, 0, n, m);
  }

  // ------------------------------------------------------------------ whole walks

  // The row a page that has more leads to.
  lemma ShownLeads(t: seq<StoredRow>, n: nat, kept: seq<Item>, limit: nat)
    requires Ascending(t) && n <= |t| && limit > 0 && Anchored(t, n, kept) && Show(kept, limit).more
    ensures Show(kept, limit).items != [] && OlderCount(t, Show(kept, limit).items[0].anchor) < n
  {
    var item := kept[|kept| - limit];
    assert AnchoredBelow(t, n, item);
    var i :| 0 <= i < n && item.anchor == t[i].pos;
    OlderCountAtRow(t, i);
  }

  lemma QueryShownLeads(t: seq<StoredRow>, n: nat, m: Matcher, limit: nat)
    requires Ascending(t) && n <= |t| && limit > 0
    ensures
      var s := QueryShown(t, n, m, limit);
      s.more ==> s.items != [] && OlderCount(t, s.items[0].anchor) < n
  {
    hide Show, Scan, OlderCount;
    ScanAnchored(t, n, m, ChunkSize(m, limit), limit, n, n, []);
    if QueryShown(t, n, m, limit).more {
      ShownLeads(t, n, Scan(t, m, ChunkSize(m, limit), limit, n, n, []), limit);
    }
  }

  lemma WholeShownLeads(t: seq<StoredRow>, n: nat, m: Matcher, limit: nat)
    requires Ascending(t) && n <= |t| && limit > 0
    ensures
      var s := WholeShown(t, n, m, limit);
      s.more ==> s.items != [] && OlderCount(t, s.items[0].anchor) < n
  {
    hide Show, OlderCount;
    ItemsAnchored(t, 0, n, n);
    KeptAnchored(t, n, Items(t, 0, n), m);
    if WholeShown(t, n, m, limit).more {
      ShownLeads(t, n, KeptFrom(t, 0, n, m), limit);
    }
  }

  // What the pages of a walk show, newest page first.
  function Shows(t: seq<StoredRow>, n: nat, m: Matcher, limit: nat): seq<Shown>
    requires Ascending(t) && n <= |t| && limit > 0
    decreases n
  {
    var s := QueryShown(t, n, m, limit);
    QueryShownLeads(t, n, m, limit);
    [s] + if s.more then Shows(t, OlderCount(t, s.items[0].anchor), m, limit) else []
  }

  function WholeShows(t: seq<StoredRow>, n: nat, m: Matcher, limit: nat): seq<Shown>
    requires Ascending(t) && n <= |t| && limit > 0
    decreases n
  {
    var s := WholeShown(t, n, m, limit);
    WholeShownLeads(t, n, m, limit);
    [s] + if s.more then WholeShows(t, OlderCount(t, s.items[0].anchor), m, limit) else []
  }

  // On every page of the walk the splits are harmless.
  predicate WalkHarmless(t: seq<StoredRow>, n: nat, m: Matcher, limit: nat)
    requires Ascending(t) && n <= |t| && limit > 0
    decreases n
  {
    var s := WholeShown(t, n, m, limit);
    WholeShownLeads(t, n, m, limit);
    && SplitsHarmless(t, n, m, limit)
    && (s.more ==> WalkHarmless(t, OlderCount(t, s.items[0].anchor), m, limit))
  }

  // Any filter: a walk over the pages shows every matching entry of the whole
  // timeline at its place exactly when the splits are harmless on every page.
  lemma {:induction false} WalkRightIff(t: seq<StoredRow>, n: nat, m: Matcher, limit: nat)
    requires Ascending(t) && n <= |t| && limit > 0
    ensures Shows(t, n, m, limit) == WholeShows(t, n, m, limit) <==> WalkHarmless(t, n, m, limit)
    decreases n
  {
    hide QueryShown, WholeShown, SplitsHarmless, OlderCount;
    RightPageIff(t, n, m, limit);
    var s := WholeShown(t, n, m, limit);
    WholeShownLeads(t, n, m, limit);
    if RightPage(t, n, m, limit) && s.more {
      var k := OlderCount(t, s.items[0].anchor);
      WalkRightIff(t, k, m, limit);
      assert Shows(t, n, m, limit)[1..] == Shows(t, k, m, limit);
      assert WholeShows(t, n, m, limit)[1..] == WholeShows(t, k, m, limit);
    } else {
      assert Shows(t, n, m, limit)[0] == QueryShown(t, n, m, limit);
      assert WholeShows(t, n, m, limit)[0] == s;
    }
  }

  // ----------------------------------------------------------- the client's pages

  function Rendered(ss: seq<Shown>): seq<LogPage> {
    if ss == [] then [] else [PageOf(ss[0])] + Rendered(ss[1..])
  }

  lemma ShownNext(t: seq<StoredRow>, n: nat, kept: seq<Item>, limit: nat)
    requires Ascending(t) && Int64Positions(t) && n <= |t| && limit > 0 && Anchored(t, n, kept)
    ensures
      var s, page := Show(kept, limit), NewPage(kept, limit);
      && page == PageOf(s)
      && (page.nextCursor != "" <==> s.more)
      && (s.more ==> s.items != [] && NextIndex(t, page) == OlderCount(t, s.items[0].anchor))
  {
    hide EncodeCursor, DecodeCursor, OlderCount, Ascending;
    PageIsShown(kept, limit);
    if |kept| > limit {
      var k := PageLeads(t, n, kept, limit);
    }
  }

  // The pages a client collects are what the walk shows.
  lemma {:induction false} PagesAreShown(t: seq<StoredRow>, n: nat, m: Matcher, limit: nat)
    requires Ascending(t) && Int64Positions(t) && n <= |t| && limit > 0
    ensures Pages(t, n, m, limit) == Rendered(Shows(t, n, m, limit))
    decreases n
  {
    hide Show, Scan, NewPage, PageOf, OlderCount, Anchored, NextIndex;
    var found := Scan(t, m, ChunkSize(m, limit), limit, n, n, []);
    NoneAnchored(t, n);
    ScanAnchored(t, n, m, ChunkSize(m, limit), limit, n, n, []);
    ShownNext(t, n, found, limit);
    var s := QueryShown(t, n, m, limit);
    QueryShownLeads(t, n, m, limit);
    if s.more {
      var k := OlderCount(t, s.items[0].anchor);
      PagesAreShown(t, k, m, limit);
      assert Shows(t, n, m, limit)[1..] == Shows(t, k, m, limit);
    } else {
      assert Shows(t, n, m, limit)[1..] == [];
    }
  }

  lemma NoneAnchored(t: seq<StoredRow>, n: nat)
    requires n <= |t|
    ensures Anchored(t, n, [])
  {}

  lemma {:induction false} WholePagesAreShown(t: seq<StoredRow>, n: nat, m: Matcher, limit: nat)
    requires Ascending(t) && Int64Positions(t) && n <= |t| && limit > 0
    ensures WholePages(t, n, m, limit) == Rendered(WholeShows(t, n, m, limit))
    decreases n
  {
    hide Show, NewPage, PageOf, OlderCount, Anchored, NextIndex;
    ItemsAnchored(t, 0, n, n);
    KeptAnchored(t, n, Items(t, 0, n), m);
    ShownNext(t, n, KeptFrom(t, 0, n, m), limit);
    var s := WholeShown(t, n, m, limit);
    WholeShownLeads(t, n, m, limit);
    if s.more {
      var k := OlderCount(t, s.items[0].anchor);
      WholePagesAreShown(t, k, m, limit);
      assert WholeShows(t, n, m, limit)[1..] == WholeShows(t, k, m, limit);
    } else {
      assert WholeShows(t, n, m, limit)[1..] == [];
    }
  }

  // Any filter: harmless splits give a client exactly the right pages.
  lemma PagesExact(t: seq<StoredRow>, n: nat, m: Matcher, limit: nat)
    requires Ascending(t) && Int64Positions(t) && n <= |t| && limit > 0
    requires WalkHarmless(t, n, m, limit)
    ensures Pages(t, n, m, limit) == WholePages(t, n, m, limit)
  {
    WalkRightIff(t, n, m, limit);
    PagesAreShown(t, n, m, limit);
    WholePagesAreShown(t, n, m, limit);
  }

  // The client's pages in time order are then the matching entries of the history,
  // each exactly once.
  lemma PagesCoverHistory(t: seq<StoredRow>, n: nat, m: Matcher, limit: nat)
    requires Ascending(t) && Int64Positions(t) && n <= |t| && limit > 0
    requires WalkHarmless(t, n, m, limit)
    ensures InTimeOrder(Pages(t, n, m, limit)) == Entries(Kept(Items(t, 0, n), m))
  {
    PagesExact(t, n, m, limit);
    WholePagesCoverHistory(t, n, m, limit);
  }

  // ----------------------------------------------------- histories without traces

  // Behind clean cuts every boundary is the start of an entry.
  lemma {:induction false} CleanBounds(t: seq<StoredRow>, n: nat, chunk: nat, cut: nat, p: nat)
    requires chunk > 0 && cut <= p <= n <= |t| && (p == n || Starts(t, p))
    requires forall c :: 0 <= c < n ==> CleanCut(t, n, c)
    ensures forall b :: b in Bounds(t, chunk, cut, p) ==> b == n || (b < n && Starts(t, b))
    decreases cut
  {
    hide NextHead, CleanCut, Starts;
    if cut >= chunk {
      CleanCutInStep(t, n, cut - chunk, p);
      CleanBounds(t, n, chunk, cut - chunk, NextHead(t, cut - chunk, cut - chunk, p));
    }
  }

  // Boundaries that start entries split none.
  lemma NoneSplit(t: seq<StoredRow>, n: nat, bs: seq<nat>, q: nat)
    requires 0 < q <= n <= |t| && forall b :: b in bs ==> b == n || (b < n && Starts(t, b))
    ensures !SplitBy(bs, Head(t, 0, q - 1), q)
  {
    hide Continues;
    forall b | Head(t, 0, q - 1) < b < q
      ensures b < n && !Starts(t, b)
    {
      SameHead(t, 0, q - 1, b);
    }
  }

  lemma {:induction false} UnsplitWhole(
      t: seq<StoredRow>, n: nat, m: Matcher, bs: seq<nat>, limit: nat, q: nat, newer: nat)
    requires q <= n <= |t| && (forall b :: b in bs ==> b == n || (b < n && Starts(t, b)))
    ensures Chunked(t, m, bs, q) == KeptFrom(t, 0, q, m) && SplitsHidden(t, m, bs, limit, q, newer)
    decreases q
  {
    hide Pieces, KeptFrom, Chunked, Starts, Continues;
    if q == 0 {
      NoRows(t, m, bs);
    } else {
      var h := Head(t, 0, q - 1);
      NoneSplit(t, n, bs, q);
      Unsplit(t, m, bs, h, q);
      UnsplitWhole(t, n, m, bs, limit, h, newer + |KeptFrom(t, h, q, m)|);
      StartOfEntry(t, q);
      ChunkedSplit(t, m, bs, h, q);
      KeptFromSplit(t, 0, h, q, m);
    }
  }

  lemma StartOfEntry(t: seq<StoredRow>, q: nat)
    requires 0 < q <= |t|
    ensures Starts(t, Head(t, 0, q - 1)) && Head(t, 0, Head(t, 0, q - 1)) == Head(t, 0, q - 1)
  {
    SameHead(t, 0, q - 1, Head(t, 0, q - 1));
  }

  lemma {:induction false} TraceFreeWalk(t: seq<StoredRow>, n: nat, m: Matcher, limit: nat)
    requires Ascending(t) && n <= |t| && limit > 0 && TraceFree(t)
    ensures WalkHarmless(t, n, m, limit)
    decreases n
  {
    hide TraceFree, CleanCut, Starts, SplitsHidden, WholeShown, OlderCount, Chunked, KeptFrom;
    forall c | 0 <= c < n
      ensures CleanCut(t, n, c)
    {
      TraceFreeCutsAreClean(t, n, c);
    }
    CleanBounds(t, n, ChunkSize(m, limit), n, n);
    UnsplitWhole(t, n, m, Bounds(t, ChunkSize(m, limit), n, n), limit, n, 0);
    var s := WholeShown(t, n, m, limit);
    WholeShownLeads(t, n, m, limit);
    if s.more {
      TraceFreeWalk(t, OlderCount(t, s.items[0].anchor), m, limit);
    }
  }

  // Without stack traces, for any filter and page size: the pages in time order
  // are the matching entries of the whole history, each exactly once.
  lemma TraceFreeHistory(t: seq<StoredRow>, m: Matcher, limit: nat)
    requires Ascending(t) && Int64Positions(t) && limit > 0 && TraceFree(t)
    ensures InTimeOrder(Pages(t, |t|, m, limit)) == Entries(Kept(Items(t, 0, |t|), m))
  {
    TraceFreeWalk(t, |t|, m, limit);
    PagesCoverHistory(t, |t|, m, limit);
  }
}
