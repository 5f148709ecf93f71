// When an unfiltered scan returns the page of the whole-timeline grouping.
module Paging {
  import opened LogEntries
  import opened Timeline
  import opened Cursor
  import opened History

  // ------------------------------------------------------- rounds of the scan

  // A round in step: what it adds completes the matching entries of rows end..n.
  lemma InStepRound(t: seq<StoredRow>, n: nat, m: Matcher, end: nat, p: nat)
    requires end <= p <= n <= |t|
    requires p == n || Starts(t, p)
    requires end == p || Starts(t, end)
    ensures KeptFrom(t, end, p, m) + KeptFrom(t, p, n, m) == KeptFrom(t, end, n, m)
    ensures KeptFrom(t, 0, n, m) == KeptFrom(t, 0, end, m) + KeptFrom(t, end, n, m)
  {
    if p < n {
      StartsFromAnyBase(t, end, p);
    }
    KeptFromSplit(t, end, p, n, m);
    KeptFromSplit(t, 0, end, n, m);
  }

  lemma Associative<T>(a: seq<T>, b: seq<T>, c: seq<T>)
    ensures (a + b) + c == a + (b + c)
  {}

  // Any round: behind the next entry that starts after the cut it agrees with
  // the grouping of the whole timeline.
  lemma AnyRound(t: seq<StoredRow>, n: nat, m: Matcher, cut: nat, p: nat)
    requires cut < p <= n <= |t| && (p == n || Starts(t, p))
    ensures
      var end, next := NextHead(t, cut, cut, p), NextHead(t, 0, cut, n);
      && end <= next <= p
      && KeptFrom(t, end, p, m) + KeptFrom(t, p, n, m) == KeptFrom(t, end, next, m) + Newer(t, n, cut, m)
      && KeptFrom(t, 0, n, m) == KeptFrom(t, 0, next, m) + Newer(t, n, cut, m)
  {
    var end, next := NextHead(t, cut, cut, p), NextHead(t, 0, cut, n);
    assert next <= p;
    if next < p {
      StartsFromAnyBase(t, cut, next);
    }
    assert end <= next;
    if next < n {
      StartsFromAnyBase(t, end, next);
    }
    KeptFromSplit(t, end, next, p, m);
    KeptFromSplit(t, 0, next, n, m);
    if p < n {
      StartsFromAnyBase(t, next, p);
    }
    KeptFromSplit(t, next, p, n, m);
    Associative(KeptFrom(t, end, next, m), KeptFrom(t, next, p, m), KeptFrom(t, p, n, m));
  }

  // The entries that begin behind an older row include those behind a newer one.
  lemma NewerGrows(t: seq<StoredRow>, n: nat, m: Matcher, i: nat, start: nat)
    requires i < start <= n <= |t| && (start == n || Starts(t, start))
    ensures |Newer(t, n, i, m)| >= |KeptFrom(t, start, n, m)|
  {
    var next := NextHead(t, 0, i, n);
    assert next <= start;
    if start < n {
      StartsFromAnyBase(t, next, start);
    }
    KeptFromSplit(t, next, start, n, m);
  }

  lemma {:induction false} CutsDescend(n: nat, chunk: nat)
    requires chunk > 0
    ensures forall c :: c in Cuts(n, chunk) ==> c + chunk <= n
  {
    if n >= chunk {
      CutsDescend(n - chunk, chunk);
    }
  }

  // ------------------------------------------------ no filter: exactly when

  // Without a filter a full page of entries behind the cut is enough.
  ghost predicate CutHidden(t: seq<StoredRow>, n: nat, m: Matcher, limit: nat, cut: nat)
    requires cut < n <= |t|
  {
    CleanCut(t, n, cut) || |Newer(t, n, cut, m)| >= limit
  }

  ghost predicate AllHidden(t: seq<StoredRow>, n: nat, m: Matcher, chunk: nat, limit: nat, from: nat)
    requires chunk > 0 && from <= n <= |t|
  {
    forall cut :: cut in Cuts(from, chunk) && cut < n ==> CutHidden(t, n, m, limit, cut)
  }

  lemma PageEntry(kept: seq<Item>, limit: nat, i: nat)
    requires limit > 0 && i < |kept| && i < limit
    ensures
      var page := NewPage(kept, limit);
      i < |page.entries| && page.entries[|page.entries| - 1 - i] == kept[|kept| - 1 - i].entry
  {
    hide EncodeCursor;
  }

  lemma UnfilteredKeepsAll(t: seq<StoredRow>, base: nat, p: nat, m: Matcher)
    requires base <= p <= |t| && !m.Active()
    ensures KeptFrom(t, base, p, m) == Items(t, base, p)
  {
    KeptUnfiltered(Items(t, base, p), m);
  }

  // A stack trace cut off from its parent shows on the page: the entry at the
  // same place from the end has fewer lines than the whole entry.
  lemma WrongPage(t: seq<StoredRow>, n: nat, m: Matcher, limit: nat, cut: nat, p: nat, older: seq<Item>)
    requires Fresh(t) && limit > 0 && !m.Active()
    requires cut < p <= n <= |t| && (p == n || Starts(t, p))
    requires !CleanCut(t, n, cut) && |Newer(t, n, cut, m)| < limit
    ensures
      var end := NextHead(t, cut, cut, p);
      NewPage(older + (KeptFrom(t, end, p, m) + KeptFrom(t, p, n, m)), limit) != WholePage(t, n, m, limit)
  {
    hide NewPage, Items, CleanCut;
    var end, next := NextHead(t, cut, cut, p), NextHead(t, 0, cut, n);
    LateEntryIsShorter(t, n, cut, p);
    AnyRound(t, n, m, cut, p);
    UnfilteredKeepsAll(t, end, next, m);
    UnfilteredKeepsAll(t, 0, next, m);
    ShorterEntryShows(older, Items(t, end, next), Items(t, 0, next), Newer(t, n, cut, m), limit);
  }

  // The last piece of a split entry has fewer lines than the entry.
  lemma LateEntryIsShorter(t: seq<StoredRow>, n: nat, cut: nat, p: nat)
    requires Fresh(t) && cut < p <= n <= |t| && (p == n || Starts(t, p)) && !CleanCut(t, n, cut)
    ensures
      var end, next := NextHead(t, cut, cut, p), NextHead(t, 0, cut, n);
      && end < next
      && LastItem(t, end, next).entry != LastItem(t, 0, next).entry
  {
    hide Continues, FieldLine, Render, CleanCut;
    var end, next := NextHead(t, cut, cut, p), NextHead(t, 0, cut, n);
    CleanCutInStep(t, n, cut, p);
    assert next <= p;
    if next < p {
      StartsFromAnyBase(t, cut, next);
    }
    assert end <= next;
    WholeEntryIsLonger(t, n, cut);
    RenderCounts(t, Head(t, end, next - 1), next);
    RenderCounts(t, Head(t, 0, next - 1), next);
  }

  lemma ShorterEntryShows(older: seq<Item>, late: seq<Item>, entry: seq<Item>, newer: seq<Item>, limit: nat)
    requires late != [] && entry != [] && |newer| < limit
    requires late[|late| - 1].entry != entry[|entry| - 1].entry
    ensures NewPage(older + (late + newer), limit) != NewPage(entry + newer, limit)
  {
    hide NewPage;
    PageEntry(older + (late + newer), limit, |newer|);
    PageEntry(entry + newer, limit, |newer|);
  }

  lemma WholeEntryIsLonger(t: seq<StoredRow>, n: nat, cut: nat)
    requires cut < n <= |t| && !CleanCut(t, n, cut)
    ensures Head(t, 0, NextHead(t, 0, cut, n) - 1) < cut
  {
    hide Continues, FieldLine, Head;
    var next := NextHead(t, 0, cut, n);
    var h := Head(t, 0, next - 1);
    var k :| cut < k < n && Head(t, 0, k) < cut;
    if next <= k {
      StartsIgnoresBase(t, 0, next, k);
    }
    SameHead(t, 0, next - 1, h);
    assert IsHead(t, 0, h);
    SameHead(t, 0, next - 1, k);
  }

  // A clean round that fills the page: the page is right, and every older cut is
  // hidden behind what has been found.
  lemma FullRound(t: seq<StoredRow>, n: nat, m: Matcher, chunk: nat, limit: nat, cut: nat, p: nat)
    requires chunk > 0 && limit > 0 && chunk <= cut <= p <= n <= |t| && (p == n || Starts(t, p))
    requires CleanCut(t, n, cut - chunk)
    ensures
      var end := NextHead(t, cut - chunk, cut - chunk, p);
      var kept := KeptFrom(t, end, p, m) + KeptFrom(t, p, n, m);
      && kept == KeptFrom(t, end, n, m)
      && (end == n || Starts(t, end))
      && (|kept| > limit ==>
            NewPage(kept, limit) == WholePage(t, n, m, limit) && AllHidden(t, n, m, chunk, limit, cut))
  {
    hide NewPage, CleanCut, KeptFrom;
    var c := cut - chunk;
    var end := NextHead(t, c, c, p);
    var kept := KeptFrom(t, end, p, m) + KeptFrom(t, p, n, m);
    CleanCutInStep(t, n, c, p);
    InStepRound(t, n, m, end, p);
    if |kept| > limit {
      assert [] + kept == kept;
      SamePage([], KeptFrom(t, 0, end, m), kept, limit);
      CutsDescend(c, chunk);
      assert forall c' :: c' in Cuts(cut, chunk) ==> c' <= c;
      forall c' | c' in Cuts(cut, chunk) && c' < n ensures CutHidden(t, n, m, limit, c') {
        NewerGrows(t, n, m, c', end);
      }
    }
  }

  // A round that splits a stack trace: the page is right exactly when the entries
  // behind the split one fill it.
  lemma SplitRound(t: seq<StoredRow>, n: nat, m: Matcher, chunk: nat, limit: nat, cut: nat, p: nat)
    requires Fresh(t) && chunk > 0 && limit > 0 && !m.Active()
    requires chunk <= cut <= p <= n <= |t| && (p == n || Starts(t, p))
    requires !CleanCut(t, n, cut - chunk)
    ensures
      NewPage(Scan(t, m, chunk, limit, cut, p, KeptFrom(t, p, n, m)), limit) == WholePage(t, n, m, limit)
      <==> |Newer(t, n, cut - chunk, m)| >= limit
    ensures |Newer(t, n, cut - chunk, m)| >= limit ==> AllHidden(t, n, m, chunk, limit, cut)
  {
    hide NewPage, CleanCut, KeptFrom, Newer, NextHead, Items;
    var c := cut - chunk;
    if |Newer(t, n, c, m)| < limit {
      ShowingRound(t, n, m, chunk, limit, cut, p);
    } else {
      HiddenRound(t, n, m, chunk, limit, cut, p);
    }
  }

  lemma ShowingRound(t: seq<StoredRow>, n: nat, m: Matcher, chunk: nat, limit: nat, cut: nat, p: nat)
    requires Fresh(t) && chunk > 0 && limit > 0 && !m.Active()
    requires chunk <= cut <= p <= n <= |t| && (p == n || Starts(t, p))
    requires !CleanCut(t, n, cut - chunk) && |Newer(t, n, cut - chunk, m)| < limit
    ensures NewPage(Scan(t, m, chunk, limit, cut, p, KeptFrom(t, p, n, m)), limit) != WholePage(t, n, m, limit)
  {
    hide NewPage, CleanCut, KeptFrom, Newer, NextHead, Items;
    var c := cut - chunk;
    var end := NextHead(t, c, c, p);
    var kept := KeptFrom(t, end, p, m) + KeptFrom(t, p, n, m);
    if |kept| <= limit {
      var older := ScanPrepends(t, m, chunk, limit, c, end, kept);
      WrongPage(t, n, m, limit, c, p, older);
    } else {
      assert [] + kept == kept;
      WrongPage(t, n, m, limit, c, p, []);
    }
  }

  lemma HiddenRound(t: seq<StoredRow>, n: nat, m: Matcher, chunk: nat, limit: nat, cut: nat, p: nat)
    requires Fresh(t) && chunk > 0 && limit > 0 && !m.Active()
    requires chunk <= cut <= p <= n <= |t| && (p == n || Starts(t, p))
    requires !CleanCut(t, n, cut - chunk) && |Newer(t, n, cut - chunk, m)| >= limit
    ensures NewPage(Scan(t, m, chunk, limit, cut, p, KeptFrom(t, p, n, m)), limit) == WholePage(t, n, m, limit)
    ensures AllHidden(t, n, m, chunk, limit, cut)
  {
    hide NewPage, CleanCut, KeptFrom, Items, Head, Continues, FieldLine;
    var c := cut - chunk;
    var end, next := NextHead(t, c, c, p), NextHead(t, 0, c, n);
    AnyRound(t, n, m, c, p);
    LateEntryIsShorter(t, n, c, p);
    UnfilteredKeepsAll(t, end, next, m);
    UnfilteredKeepsAll(t, 0, next, m);
    SamePage(KeptFrom(t, end, next, m), KeptFrom(t, 0, next, m), Newer(t, n, c, m), limit);
    CutsDescend(c, chunk);
    assert forall c' :: c' in Cuts(cut, chunk) ==> c' <= c;
    forall c' | c' in Cuts(cut, chunk) && c' < n ensures CutHidden(t, n, m, limit, c') {
      NewerGrows(t, n, m, c', next);
    }
  }

  lemma OlderCuts(cut: nat, chunk: nat)
    requires 0 < chunk <= cut
    ensures forall c :: c in Cuts(cut, chunk) <==> c == cut - chunk || c in Cuts(cut - chunk, chunk)
  {}

  lemma CleanIsHidden(t: seq<StoredRow>, n: nat, m: Matcher, limit: nat, cut: nat)
    requires cut < n <= |t| && CleanCut(t, n, cut)
    ensures CutHidden(t, n, m, limit, cut)
  {}

  lemma SplitShows(t: seq<StoredRow>, n: nat, m: Matcher, limit: nat, cut: nat)
    requires cut < n <= |t| && !CleanCut(t, n, cut) && |Newer(t, n, cut, m)| < limit
    ensures !CutHidden(t, n, m, limit, cut)
  {}

  lemma {:induction false} ScanExactIff(
      t: seq<StoredRow>, n: nat, m: Matcher, chunk: nat, limit: nat, cut: nat, p: nat)
    requires Fresh(t) && chunk > 0 && limit > 0 && !m.Active()
    requires cut <= p <= n <= |t| && (p == n || Starts(t, p))
    ensures
      NewPage(Scan(t, m, chunk, limit, cut, p, KeptFrom(t, p, n, m)), limit) == WholePage(t, n, m, limit)
      <==> AllHidden(t, n, m, chunk, limit, cut)
    decreases cut
  {
    hide NewPage, CleanCut, KeptFrom, NextHead, Newer, Head, CutHidden, Fresh;
    if cut < chunk {
      KeptFromSplit(t, 0, p, n, m);
      assert WholePage(t, n, m, limit) == NewPage(KeptFrom(t, 0, n, m), limit);
    } else {
      var c := cut - chunk;
      var end := NextHead(t, c, c, p);
      assert c in Cuts(cut, chunk);
      if CleanCut(t, n, c) {
        FullRound(t, n, m, chunk, limit, cut, p);
        if |KeptFrom(t, end, n, m)| <= limit {
          ScanExactIff(t, n, m, chunk, limit, c, end);
          OlderCuts(cut, chunk);
          CleanIsHidden(t, n, m, limit, c);
        }
      } else {
        SplitRound(t, n, m, chunk, limit, cut, p);
        if |Newer(t, n, c, m)| < limit {
          SplitShows(t, n, m, limit, c);
        }
      }
    }
  }
}
