// What the retention sweep makes of the stored lines: oldest-first eviction per logical
// container, then over the whole store.
module Retention {

  const DELETE_CHUNK: nat := 5000
  const MAX_TRIM_ROUNDS: nat := 1000

  // One stored line of a logical container, of whichever generation.
  datatype Aged = Aged(ref: int, tsNS: int, size: nat)

  function Sum(lines: seq<Aged>): nat {
    if lines == [] then 0 else lines[0].size + Sum(lines[1..])
  }

  lemma {:induction false} SumSplit(lines: seq<Aged>, n: nat)
    requires n <= |lines|
    ensures Sum(lines) == Sum(lines[..n]) + Sum(lines[n..])
  {
    if n > 0 {
      SumSplit(lines[1..], n - 1);
      assert lines[1..][..n - 1] == lines[..n][1..];
      assert lines[1..][n - 1..] == lines[n..];
    } else {
      assert lines[..0] == [] && lines[0..] == lines;
    }
  }

  lemma SumNext(lines: seq<Aged>, n: nat)
    requires n < |lines|
    ensures Sum(lines[..n + 1]) == Sum(lines[..n]) + lines[n].size
    ensures Sum(lines[n..]) == lines[n].size + Sum(lines[n + 1..])
  {
    assert lines[n..][1..] == lines[n + 1..];
    SumSplit(lines, n);
    SumSplit(lines, n + 1);
  }

  // ----------------------------------------------------------------- one eviction

  // n lines are the fewest whose bytes reach excess, or as many as one
  // transaction may delete.
  predicate EvictsExactly(lines: seq<Aged>, excess: int, chunk: nat, n: nat) {
    && n <= |lines| && n <= chunk
    && (forall k :: 0 < k < n ==> Sum(lines[..k]) < excess)
    && (lines != [] && chunk > 0 ==> n > 0)
    && (n < |lines| && n < chunk ==> Sum(lines[..n]) >= excess)
  }

  // How many of the oldest lines one eviction deletes.
  function EvictCount(lines: seq<Aged>, excess: int, chunk: nat): (n: nat)
    ensures n <= |lines| && n <= chunk
    ensures lines != [] && chunk > 0 ==> n > 0
  {
    if lines == [] || chunk == 0 then 0
    else if lines[0].size >= excess then 1
    else 1 + EvictCount(lines[1..], excess - lines[0].size, chunk - 1)
  }

  lemma SumCons(lines: seq<Aged>, k: nat)
    requires 0 < k <= |lines|
    ensures Sum(lines[..k]) == lines[0].size + Sum(lines[1..][..k - 1])
  {
    assert lines[..k][1..] == lines[1..][..k - 1];
  }

  lemma {:induction false} EvictCountExact(lines: seq<Aged>, excess: int, chunk: nat)
    ensures EvictsExactly(lines, excess, chunk, EvictCount(lines, excess, chunk))
  {
    hide Sum;
    var n := EvictCount(lines, excess, chunk);
    if lines != [] && chunk > 0 {
      SumCons(lines, 1);
      SumSplit(lines[1..][..0], 0);
      NoBytes();
      if lines[0].size < excess {
        EvictCountExact(lines[1..], excess - lines[0].size, chunk - 1);
        forall k | 0 < k <= n
          ensures Sum(lines[..k]) == lines[0].size + Sum(lines[1..][..k - 1])
        {
          SumCons(lines, k);
        }
      }
    }
  }

  lemma NoBytes()
    ensures Sum([]) == 0
  {}

  // No other number of lines is exact.
  lemma EvictCountOnly(lines: seq<Aged>, excess: int, chunk: nat, n: nat)
    requires chunk > 0 && EvictsExactly(lines, excess, chunk, n)
    ensures n == EvictCount(lines, excess, chunk)
  {
    hide Sum, EvictCount;
    EvictCountExact(lines, excess, chunk);
  }

  // ---------------------------------------------------------- one container's pass

  predicate SuffixOf(kept: seq<Aged>, lines: seq<Aged>) {
    |kept| <= |lines| && kept == lines[|lines| - |kept|..]
  }

  // The newest lines that fit under the cap: keeping one line more would not.
  predicate NewestFitting(lines: seq<Aged>, cap: nat, kept: seq<Aged>) {
    && |kept| <= |lines| && kept == lines[|lines| - |kept|..]
    && Sum(kept) <= cap
    && (|kept| < |lines| ==> Sum(lines[|lines| - |kept| - 1..]) > cap)
  }

  // While the container is over its cap, its oldest chunk of lines holds some bytes.
  predicate NoEmptyChunk(lines: seq<Aged>, cap: nat, chunk: nat)
    requires chunk > 0
    decreases |lines|
  {
    || Sum(lines) <= cap
    || |lines| < chunk
    || (Sum(lines[..chunk]) > 0 && NoEmptyChunk(lines[chunk..], cap, chunk))
  }

  predicate NonEmptyLines(lines: seq<Aged>) {
    forall i :: 0 <= i < |lines| ==> lines[i].size > 0
  }

  lemma {:induction false} NonEmptyLinesFit(lines: seq<Aged>, cap: nat, chunk: nat)
    requires chunk > 0 && NonEmptyLines(lines)
    ensures NoEmptyChunk(lines, cap, chunk)
    decreases |lines|
  {
    if |lines| >= chunk {
      NonEmptyLinesFit(lines[chunk..], cap, chunk);
      assert lines[..chunk][0].size > 0;
    }
  }

  // One eviction step of a container over its cap: either it is the last one and
  // leaves the newest lines that fit, or it took a whole chunk and the container
  // is still over.
  lemma EvictionStep(lines: seq<Aged>, cap: nat, chunk: nat, n: nat)
    requires chunk > 0 && Sum(lines) > cap && EvictsExactly(lines, Sum(lines) - cap, chunk, n)
    ensures 0 < n <= |lines|
    ensures Sum(lines[n..]) <= cap ==> NewestFitting(lines, cap, lines[n..]) && Sum(lines[..n]) > 0
    ensures Sum(lines[n..]) > cap ==> n == chunk && n <= |lines|
  {
    SumSplit(lines, n);
    SumNext(lines, n - 1);
    SumSplit(lines, n - 1);
    if n == 1 {
      assert lines[..0] == [];
    }
    if n == |lines| {
      assert lines[n..] == [];
    }
    assert lines[|lines| - |lines[n..]| - 1..] == lines[n - 1..];
  }

  lemma FittingExtends(lines: seq<Aged>, cap: nat, n: nat, kept: seq<Aged>)
    requires n <= |lines| && NewestFitting(lines[n..], cap, kept) && Sum(lines[n..]) > cap
    ensures NewestFitting(lines, cap, kept)
  {}

  // What one eviction of the pass means for the whole pass.
  lemma PassStep(lines: seq<Aged>, before: seq<Aged>, cap: nat, chunk: nat, n: nat)
    requires chunk > 0 && Sum(before) > cap && EvictsExactly(before, Sum(before) - cap, chunk, n)
    requires SuffixOf(before, lines)
    ensures 0 < n <= |before|
    ensures SuffixOf(before[n..], lines)
    ensures Sum(before) == Sum(before[..n]) + Sum(before[n..])
    ensures Sum(before[..n]) == 0 ==> !NoEmptyChunk(before, cap, chunk)
    ensures Sum(before[..n]) > 0 ==> (NoEmptyChunk(before, cap, chunk) <==> NoEmptyChunk(before[n..], cap, chunk))
    ensures Sum(before[..n]) > 0 && Sum(before[n..]) <= cap ==> NewestFitting(lines, cap, before[n..])
  {
    hide Sum, NoEmptyChunk;
    EvictionStep(before, cap, chunk, n);
    SumSplit(before, n);
    EmptyStep(before, cap, chunk, n);
    if Sum(before[n..]) <= cap {
      assert lines[|lines| - |before|..] == before;
      FittingExtends(lines, cap, |lines| - |before|, before[n..]);
      FittingHasNoEmptyChunk(before, cap, chunk, n);
      Fits(before[n..], cap, chunk);
    }
  }

  // A step that leaves the container over its cap took the chunk in question.
  lemma EmptyStep(before: seq<Aged>, cap: nat, chunk: nat, n: nat)
    requires chunk > 0 && n <= |before| && Sum(before) > cap
    requires Sum(before) == Sum(before[..n]) + Sum(before[n..])
    requires Sum(before[n..]) > cap ==> n == chunk
    ensures Sum(before[..n]) == 0 ==> !NoEmptyChunk(before, cap, chunk)
    ensures Sum(before[..n]) > 0 && Sum(before[n..]) > cap ==>
      (NoEmptyChunk(before, cap, chunk) <==> NoEmptyChunk(before[n..], cap, chunk))
  {
    hide Sum;
  }

  lemma FittingHasNoEmptyChunk(before: seq<Aged>, cap: nat, chunk: nat, n: nat)
    requires chunk > 0 && n <= |before| && n <= chunk && Sum(before[..n]) > 0 && Sum(before[n..]) <= cap
    ensures NoEmptyChunk(before, cap, chunk)
  {
    hide Sum, NoEmptyChunk;
    if |before| >= chunk {
      ChunkSums(before, chunk, n);
    }
    NoEmptyChunkUnfold(before, cap, chunk);
  }

  lemma ChunkSums(lines: seq<Aged>, chunk: nat, n: nat)
    requires n <= chunk <= |lines|
    ensures Sum(lines[..n]) <= Sum(lines[..chunk]) && Sum(lines[chunk..]) <= Sum(lines[n..])
  {
    hide Sum;
    SumSplit(lines[..chunk], n);
    assert lines[..chunk][..n] == lines[..n];
    SumSplit(lines[n..], chunk - n);
    assert lines[n..][chunk - n..] == lines[chunk..];
  }

  // A full chunk with bytes in it and a rest that fits.
  lemma NoEmptyChunkUnfold(lines: seq<Aged>, cap: nat, chunk: nat)
    requires chunk > 0
    ensures |lines| < chunk ==> NoEmptyChunk(lines, cap, chunk)
    ensures |lines| >= chunk && Sum(lines[..chunk]) > 0 && Sum(lines[chunk..]) <= cap ==>
      NoEmptyChunk(lines, cap, chunk)
  {
    hide Sum;
  }

  // What is left of a container: evictions go on while it is over its cap, until one
  // frees nothing.
  function Trimmed(lines: seq<Aged>, cap: nat, chunk: nat): (kept: seq<Aged>)
    requires chunk > 0
    ensures |kept| <= |lines|
    decreases |lines|
  {
    if Sum(lines) <= cap then lines
    else
      var n := EvictCount(lines, Sum(lines) - cap, chunk);
      if Sum(lines[..n]) == 0 then lines[n..] else Trimmed(lines[n..], cap, chunk)
  }

  lemma NothingTrimmed(cap: nat, chunk: nat)
    requires chunk > 0
    ensures Trimmed([], cap, chunk) == []
  {}

  lemma TrimmedStep(lines: seq<Aged>, cap: nat, chunk: nat)
    requires chunk > 0
    ensures Sum(lines) <= cap ==> Trimmed(lines, cap, chunk) == lines
    ensures Sum(lines) > cap ==>
      var n := EvictCount(lines, Sum(lines) - cap, chunk);
      && n > 0 && Sum(lines) == Sum(lines[..n]) + Sum(lines[n..])
      && Trimmed(lines, cap, chunk) == if Sum(lines[..n]) == 0 then lines[n..] else Trimmed(lines[n..], cap, chunk)
  {
    SumSplit(lines, EvictCount(lines, Sum(lines) - cap, chunk));
  }

  // The survivors are the newest lines that fit exactly when no chunk the pass
  // reaches is made of empty lines; otherwise it stops over the cap.
  lemma {:induction false} TrimmedIff(lines: seq<Aged>, cap: nat, chunk: nat)
    requires chunk > 0
    ensures SuffixOf(Trimmed(lines, cap, chunk), lines)
    ensures NewestFitting(lines, cap, Trimmed(lines, cap, chunk)) <==> NoEmptyChunk(lines, cap, chunk)
    ensures !NoEmptyChunk(lines, cap, chunk) ==> Sum(Trimmed(lines, cap, chunk)) > cap
    decreases |lines|
  {
    hide NewestFitting, NoEmptyChunk, Sum, EvictsExactly, EvictCount;
    Fits(lines, cap, chunk);
    if Sum(lines) > cap {
      var n := EvictCount(lines, Sum(lines) - cap, chunk);
      EvictCountExact(lines, Sum(lines) - cap, chunk);
      PassStep(lines, lines, cap, chunk, n);
      FittingSum(lines, cap, Trimmed(lines, cap, chunk));
      if Sum(lines[..n]) > 0 {
        TrimmedIff(lines[n..], cap, chunk);
        FittingSum(lines[n..], cap, Trimmed(lines[n..], cap, chunk));
        Fits(lines[n..], cap, chunk);
        if Sum(lines[n..]) > cap && NoEmptyChunk(lines[n..], cap, chunk) {
          FittingExtends(lines, cap, n, Trimmed(lines[n..], cap, chunk));
        }
      } else {
        EmptyNotLast(lines, cap, n);
      }
    }
  }

  lemma EmptyNotLast(lines: seq<Aged>, cap: nat, n: nat)
    requires n <= |lines| && Sum(lines) > cap && Sum(lines[..n]) == 0
    ensures Sum(lines[n..]) > cap
  {
    SumSplit(lines, n);
  }

  lemma Fits(lines: seq<Aged>, cap: nat, chunk: nat)
    requires chunk > 0
    ensures Sum(lines) <= cap ==> NewestFitting(lines, cap, lines) && NoEmptyChunk(lines, cap, chunk)
  {}

  lemma FittingSum(lines: seq<Aged>, cap: nat, kept: seq<Aged>)
    ensures NewestFitting(lines, cap, kept) ==> Sum(kept) <= cap
  {}

  // As many empty lines as one transaction deletes, then one-byte lines that are
  // more than the cap, an instant apart each.
  function StuckLines(cap: nat, chunk: nat): (lines: seq<Aged>)
    ensures |lines| == chunk + cap + 1
  {
    seq(chunk + cap + 1, i => Aged(1, i, if i < chunk then 0 else 1))
  }

  lemma StuckBytes(cap: nat, chunk: nat)
    ensures Sum(StuckLines(cap, chunk)[..chunk]) == 0 && Sum(StuckLines(cap, chunk)) == cap + 1
  {
    var lines := StuckLines(cap, chunk);
    SumOfEqual(lines[..chunk], 0);
    SumOfEqual(lines[chunk..], 1);
    SumSplit(lines, chunk);
  }

  // Such a container stops its pass over its cap.
  lemma EmptyChunkStopsPass(cap: nat, chunk: nat)
    requires chunk > 0
    ensures !NoEmptyChunk(StuckLines(cap, chunk), cap, chunk)
    ensures Sum(Trimmed(StuckLines(cap, chunk), cap, chunk)) > cap
  {
    hide StuckLines, Sum, Trimmed;
    StuckBytes(cap, chunk);
    TrimmedIff(StuckLines(cap, chunk), cap, chunk);
  }

  lemma {:induction false} SumOfEqual(lines: seq<Aged>, size: nat)
    requires size <= 1 && forall i :: 0 <= i < |lines| ==> lines[i].size == size
    ensures Sum(lines) == if size == 0 then 0 else |lines|
  {
    if lines != [] {
      SumOfEqual(lines[1..], size);
    }
  }

  // -------------------------------------------------------------- the whole store

  // One logical container: the lines of all its generations, oldest first, and the
  // bytes the sweep believes it holds.
  datatype Group = Group(lines: seq<Aged>, bytes: int)

  predicate Accounted(groups: seq<Group>) {
    forall i :: 0 <= i < |groups| ==> groups[i].bytes == Sum(groups[i].lines)
  }

  predicate AllNonEmpty(groups: seq<Group>) {
    forall i :: 0 <= i < |groups| ==> NonEmptyLines(groups[i].lines)
  }

  // The bytes the groups really hold.
  function Held(groups: seq<Group>): nat {
    if groups == [] then 0 else Held(groups[..|groups| - 1]) + Sum(groups[|groups| - 1].lines)
  }

  // The sweep knows a group's bytes, or has written the group off.
  predicate Reckoned(groups: seq<Group>) {
    forall i :: 0 <= i < |groups| ==> groups[i].bytes == Sum(groups[i].lines) || groups[i].bytes == 0
  }

  function Total(groups: seq<Group>): int {
    if groups == [] then 0 else Total(groups[..|groups| - 1]) + groups[|groups| - 1].bytes
  }

  lemma {:induction false} TotalUpdate(groups: seq<Group>, i: nat, g: Group)
    requires i < |groups|
    ensures Total(groups[i := g]) == Total(groups) - groups[i].bytes + g.bytes
  {
    var rest := groups[..|groups| - 1];
    var groups' := groups[i := g];
    if i < |groups| - 1 {
      TotalUpdate(rest, i, g);
      assert groups'[..|groups| - 1] == rest[i := g];
    } else {
      assert groups'[..|groups| - 1] == rest;
    }
  }

  lemma {:induction false} HeldUpdate(groups: seq<Group>, i: nat, g: Group)
    requires i < |groups|
    ensures Held(groups[i := g]) == Held(groups) - Sum(groups[i].lines) + Sum(g.lines)
  {
    hide Sum;
    var rest := groups[..|groups| - 1];
    var groups' := groups[i := g];
    if i < |groups| - 1 {
      HeldUpdate(rest, i, g);
      assert groups'[..|groups| - 1] == rest[i := g];
    } else {
      assert groups'[..|groups| - 1] == rest;
    }
  }

  // The sum of the group bytes is what the groups hold exactly when no group that
  // still holds bytes was written off.
  lemma {:induction false} TotalHeldIff(groups: seq<Group>)
    requires Reckoned(groups)
    ensures Total(groups) <= Held(groups)
    ensures Total(groups) == Held(groups) <==> Accounted(groups)
  {
    hide Sum;
    if groups != [] {
      TotalHeldIff(groups[..|groups| - 1]);
    }
  }

  predicate Survives(groups: seq<Group>, groups0: seq<Group>) {
    && |groups| == |groups0|
    && forall i :: 0 <= i < |groups| ==> SuffixOf(groups[i].lines, groups0[i].lines)
  }

  // The line the sweep evicted last from group i.
  function LastEvicted(groups: seq<Group>, groups0: seq<Group>, i: nat): Aged
    requires i < |groups| && Survives(groups, groups0) && |groups[i].lines| < |groups0[i].lines|
  {
    groups0[i].lines[|groups0[i].lines| - |groups[i].lines| - 1]
  }

  predicate OldestFirst(lines: seq<Aged>) {
    forall j, k :: 0 <= j <= k < |lines| ==> lines[j].tsNS <= lines[k].tsNS
  }

  // The group with bytes whose first line is oldest, the first of several, or -1.
  function OldestIndex(groups: seq<Group>): (best: int)
    ensures -1 <= best < |groups|
    ensures best >= 0 ==> groups[best].bytes > 0 && groups[best].lines != []
  {
    if groups == [] then -1
    else
      var n := |groups| - 1;
      var best, g := OldestIndex(groups[..n]), groups[n];
      if g.bytes > 0 && g.lines != [] && (best < 0 || g.lines[0].tsNS < groups[best].lines[0].tsNS) then n else best
  }

  // Among the groups with bytes it holds the oldest stored line; there is none when
  // no group with bytes has a line left.
  lemma {:induction false} OldestIndexOldest(groups: seq<Group>)
    ensures
      var best := OldestIndex(groups);
      && (best == -1 <==> forall i :: 0 <= i < |groups| && groups[i].bytes > 0 ==> groups[i].lines == [])
      && (best >= 0 ==> forall i :: 0 <= i < |groups| && groups[i].bytes > 0 && groups[i].lines != [] ==>
            && groups[best].lines[0].tsNS <= groups[i].lines[0].tsNS
            && (groups[best].lines[0].tsNS == groups[i].lines[0].tsNS ==> best <= i))
  {
    if groups != [] {
      OldestIndexOldest(groups[..|groups| - 1]);
    }
  }

  // In lists in time order, no stored line of a group with bytes is older.
  lemma OldestOfAll(groups: seq<Group>)
    requires forall i :: 0 <= i < |groups| ==> OldestFirst(groups[i].lines)
    ensures
      var best := OldestIndex(groups);
      best >= 0 ==> forall i, k :: 0 <= i < |groups| && groups[i].bytes > 0 && 0 <= k < |groups[i].lines| ==>
        groups[best].lines[0].tsNS <= groups[i].lines[k].tsNS
  {
    hide OldestIndex;
    OldestIndexOldest(groups);
  }

  // The cap is overshot by less than the line that was evicted last.
  predicate NearCap(groups: seq<Group>, groups0: seq<Group>, total: int, cap: int)
    requires Survives(groups, groups0)
  {
    exists i :: 0 <= i < |groups| && |groups[i].lines| < |groups0[i].lines|
      && total + LastEvicted(groups, groups0, i).size > cap
  }

  lemma SurvivesEviction(groups: seq<Group>, groups0: seq<Group>, i: nat, n: nat, bytes: int)
    requires Survives(groups, groups0) && i < |groups| && n <= |groups[i].lines|
    ensures
      var groups' := groups[i := Group(groups[i].lines[n..], bytes)];
      && Survives(groups', groups0)
      && (n > 0 ==>
            |groups'[i].lines| < |groups0[i].lines| && LastEvicted(groups', groups0, i) == groups[i].lines[n - 1])
  {}

  // What the sweep makes of a group after deleting its n oldest lines.
  function Taken(g: Group, n: nat): Group
    requires n <= |g.lines|
  {
    var freed := Sum(g.lines[..n]);
    Group(g.lines[n..], if freed == 0 then 0 else g.bytes - freed)
  }

  lemma TakenReckoned(groups: seq<Group>, i: nat, n: nat)
    requires Reckoned(groups) && i < |groups| && groups[i].bytes > 0 && n <= |groups[i].lines|
    ensures Reckoned(groups[i := Taken(groups[i], n)])
    ensures Held(groups[i := Taken(groups[i], n)]) == Held(groups) - Sum(groups[i].lines[..n])
  {
    hide Sum, Held;
    SumSplit(groups[i].lines, n);
    HeldUpdate(groups, i, Taken(groups[i], n));
  }

  lemma TakenAccounted(groups: seq<Group>, i: nat, n: nat)
    requires Accounted(groups) && i < |groups| && n <= |groups[i].lines| && Sum(groups[i].lines[..n]) > 0
    ensures
      var groups' := groups[i := Taken(groups[i], n)];
      Accounted(groups') && Total(groups') == Total(groups) - Sum(groups[i].lines[..n])
  {
    hide Sum, Total;
    SumSplit(groups[i].lines, n);
    TotalUpdate(groups, i, Taken(groups[i], n));
  }

  // ------------------------------------------------------------ the store-wide phase

  // The groups, the running total, and the rounds that may still be run.
  datatype Progress = Progress(groups: seq<Group>, total: int, left: nat)

  predicate Done(p: Progress, cap: nat) {
    p.total <= cap || p.left == 0 || OldestIndex(p.groups) < 0
  }

  // One round evicts from the group with the oldest line; a group that frees nothing
  // is written off.
  function Round(p: Progress, cap: nat, chunk: nat): (q: Progress)
    requires !Done(p, cap)
    ensures q.left == p.left - 1 && |q.groups| == |p.groups|
  {
    var i := OldestIndex(p.groups);
    var n := EvictCount(p.groups[i].lines, p.total - cap, chunk);
    Progress(p.groups[i := Taken(p.groups[i], n)], p.total - Sum(p.groups[i].lines[..n]), p.left - 1)
  }

  function Rounds(p: Progress, cap: nat, chunk: nat): (q: Progress)
    ensures Done(q, cap) && q.left <= p.left && |q.groups| == |p.groups|
    ensures q.left == p.left ==> q == p
    ensures q.left < p.left ==> p.total > cap
    decreases p.left
  {
    if Done(p, cap) then p else Rounds(Round(p, cap, chunk), cap, chunk)
  }

  lemma RoundsStep(p: Progress, cap: nat, chunk: nat)
    ensures Rounds(p, cap, chunk) == if Done(p, cap) then p else Rounds(Round(p, cap, chunk), cap, chunk)
  {}

  function First(lines: seq<Aged>, chunk: nat): seq<Aged> {
    lines[..if |lines| < chunk then |lines| else chunk]
  }

  // In every round over the cap the first chunk of the group with the oldest line
  // holds a byte.
  predicate NoEmptyRound(p: Progress, cap: nat, chunk: nat)
    decreases p.left
  {
    Done(p, cap) || (
      var i := OldestIndex(p.groups);
      var first := First(p.groups[i].lines, chunk);
      && Sum(first) > 0
      && NoEmptyRound(
           Progress(p.groups[i := Taken(p.groups[i], |first|)], p.total - Sum(first), p.left - 1), cap, chunk))
  }

  lemma {:induction false} NonEmptyRounds(p: Progress, cap: nat, chunk: nat)
    requires AllNonEmpty(p.groups) && chunk > 0
    ensures NoEmptyRound(p, cap, chunk)
    decreases p.left
  {
    hide OldestIndex;
    if !Done(p, cap) {
      var i := OldestIndex(p.groups);
      var lines := p.groups[i].lines;
      var first := First(lines, chunk);
      assert first[0].size > 0;
      NonEmptyRounds(
        Progress(p.groups[i := Taken(p.groups[i], |first|)], p.total - Sum(first), p.left - 1), cap, chunk);
    }
  }

  // An eviction that stops before the chunk ends has freed the excess.
  lemma EvictedFirst(lines: seq<Aged>, excess: int, chunk: nat)
    requires chunk > 0 && excess > 0
    ensures
      var n, first := EvictCount(lines, excess, chunk), First(lines, chunk);
      && n <= |first| && Sum(lines[..n]) <= Sum(first)
      && (n < |first| ==> Sum(lines[..n]) >= excess)
      && (n == |first| ==> lines[..n] == first)
  {
    hide Sum, EvictCount;
    var n, first := EvictCount(lines, excess, chunk), First(lines, chunk);
    EvictCountExact(lines, excess, chunk);
    SumSplit(first, n);
    assert first[..n] == lines[..n];
  }

  // The last line of the eviction was needed.
  lemma LastNeeded(lines: seq<Aged>, excess: int, chunk: nat)
    requires chunk > 0 && excess > 0 && lines != []
    ensures var n := EvictCount(lines, excess, chunk); Sum(lines[..n]) < excess + lines[n - 1].size
  {
    hide Sum, EvictCount;
    var n := EvictCount(lines, excess, chunk);
    EvictCountExact(lines, excess, chunk);
    SumNext(lines, n - 1);
    NoBytes();
    assert lines[..0] == [];
  }

  // What a round keeps: the running total is what is really stored.
  predicate Tracks(p: Progress, groups0: seq<Group>) {
    Survives(p.groups, groups0) && Reckoned(p.groups) && p.total == Held(p.groups)
  }

  lemma RoundTracks(p: Progress, groups0: seq<Group>, cap: nat, chunk: nat)
    requires chunk > 0 && !Done(p, cap) && Tracks(p, groups0)
    ensures Tracks(Round(p, cap, chunk), groups0)
    ensures var q := Round(p, cap, chunk); NearCap(q.groups, groups0, q.total, cap)
  {
    hide Held, Sum, EvictCount, OldestIndex, Reckoned, Survives;
    var i := OldestIndex(p.groups);
    var n := EvictCount(p.groups[i].lines, p.total - cap, chunk);
    TakenReckoned(p.groups, i, n);
    SurvivesEviction(p.groups, groups0, i, n, Taken(p.groups[i], n).bytes);
    LastNeeded(p.groups[i].lines, p.total - cap, chunk);
  }

  // The running total stays what is stored, and if the phase had anything to do the
  // cap is overshot by less than the line evicted last.
  lemma {:induction false} RoundsTrack(p: Progress, groups0: seq<Group>, cap: nat, chunk: nat)
    requires chunk > 0 && Tracks(p, groups0)
    ensures
      var q := Rounds(p, cap, chunk);
      Tracks(q, groups0) && (q.left < p.left ==> NearCap(q.groups, groups0, q.total, cap))
    decreases p.left
  {
    hide Round, Tracks, NearCap;
    if !Done(p, cap) {
      RoundTracks(p, groups0, cap, chunk);
      RoundsTrack(Round(p, cap, chunk), groups0, cap, chunk);
    }
  }

  // A group written off with bytes left stays so.
  lemma {:induction false} LostForever(p: Progress, cap: nat, chunk: nat, i: nat)
    requires i < |p.groups| && p.groups[i].bytes == 0 && Sum(p.groups[i].lines) > 0
    ensures !Accounted(Rounds(p, cap, chunk).groups)
    decreases p.left
  {
    hide Sum, OldestIndex, EvictCount;
    if !Done(p, cap) {
      LostForever(Round(p, cap, chunk), cap, chunk, i);
    }
  }

  // The group bytes stay what the groups hold exactly when every round meets a byte.
  lemma {:induction false} RoundsExactIff(p: Progress, cap: nat, chunk: nat)
    requires chunk > 0 && Accounted(p.groups) && p.total == Total(p.groups)
    ensures Accounted(Rounds(p, cap, chunk).groups) <==> NoEmptyRound(p, cap, chunk)
    decreases p.left
  {
    hide Sum, OldestIndex, EvictCount, Total, Taken, First, Accounted;
    if !Done(p, cap) {
      var i := OldestIndex(p.groups);
      var lines := p.groups[i].lines;
      var n := EvictCount(lines, p.total - cap, chunk);
      EvictedFirst(lines, p.total - cap, chunk);
      if Sum(lines[..n]) == 0 {
        WrittenOff(p.groups, i, n);
        LostForever(Round(p, cap, chunk), cap, chunk, i);
      } else {
        TakenAccounted(p.groups, i, n);
        RoundsExactIff(Round(p, cap, chunk), cap, chunk);
      }
    }
  }

  lemma WrittenOff(groups: seq<Group>, i: nat, n: nat)
    requires Accounted(groups) && i < |groups| && groups[i].bytes > 0
    requires n <= |groups[i].lines| && Sum(groups[i].lines[..n]) == 0
    ensures Taken(groups[i], n).bytes == 0 && Sum(Taken(groups[i], n).lines) > 0
  {
    SumSplit(groups[i].lines, n);
  }

  // What no number of rounds takes from a container: chunk after chunk goes until one
  // is empty, and then all the rest stays.
  function Residue(lines: seq<Aged>, chunk: nat): (bytes: nat)
    requires chunk > 0
    ensures bytes <= Sum(lines)
    decreases |lines|
  {
    if lines == [] then 0
    else
      var first := First(lines, chunk);
      SumSplit(lines, |first|);
      if Sum(first) == 0 then Sum(lines) else Residue(lines[|first|..], chunk)
  }

  // A group already written off keeps everything.
  function Sticks(g: Group, chunk: nat): (bytes: nat)
    requires chunk > 0
    ensures bytes <= Sum(g.lines)
  {
    if g.bytes == 0 then Sum(g.lines) else Residue(g.lines, chunk)
  }

  function Stuck(groups: seq<Group>, chunk: nat): (bytes: nat)
    requires chunk > 0
    ensures bytes <= Held(groups)
  {
    if groups == [] then 0 else Stuck(groups[..|groups| - 1], chunk) + Sticks(groups[|groups| - 1], chunk)
  }

  lemma {:induction false} StuckUpdate(groups: seq<Group>, chunk: nat, i: nat, g: Group)
    requires chunk > 0 && i < |groups| && Sticks(g, chunk) == Sticks(groups[i], chunk)
    ensures Stuck(groups[i := g], chunk) == Stuck(groups, chunk)
  {
    hide Sticks, Held;
    var rest := groups[..|groups| - 1];
    var groups' := groups[i := g];
    if i < |groups| - 1 {
      StuckUpdate(rest, chunk, i, g);
      assert groups'[..|groups| - 1] == rest[i := g];
    } else {
      assert groups'[..|groups| - 1] == rest;
    }
  }

  // With nothing left to evict, everything held is stuck.
  lemma {:induction false} AllStuck(groups: seq<Group>, chunk: nat)
    requires chunk > 0 && Reckoned(groups)
    requires forall i :: 0 <= i < |groups| && groups[i].bytes > 0 ==> groups[i].lines == []
    ensures Stuck(groups, chunk) == Held(groups)
  {
    if groups != [] {
      AllStuck(groups[..|groups| - 1], chunk);
    }
  }

  // Taking a group's first chunk leaves as much stuck as before.
  lemma FirstTaken(groups: seq<Group>, chunk: nat, i: nat)
    requires chunk > 0 && Reckoned(groups) && i < |groups| && groups[i].bytes > 0 && groups[i].lines != []
    ensures
      var first := First(groups[i].lines, chunk);
      var groups' := groups[i := Taken(groups[i], |first|)];
      && Stuck(groups', chunk) == Stuck(groups, chunk) <= Held(groups')
      && Held(groups') == Held(groups) - Sum(first)
  {
    hide Stuck, Held, Sum;
    var g := groups[i];
    var first := First(g.lines, chunk);
    assert first == g.lines[..|first|];
    SumSplit(g.lines, |first|);
    TakenReckoned(groups, i, |first|);
    if Taken(g, |first|).bytes == 0 {
      assert Residue(g.lines[|first|..], chunk) <= Sum(g.lines[|first|..]);
    }
    StuckUpdate(groups, chunk, i, Taken(g, |first|));
  }

  // The phase ends at or under the cap, or out of rounds, exactly when what is stuck
  // fits under the cap; otherwise no number of rounds gets it there.
  lemma {:induction false} RoundsUnderIff(p: Progress, cap: nat, chunk: nat)
    requires chunk > 0 && Reckoned(p.groups) && p.total == Held(p.groups)
    ensures Stuck(p.groups, chunk) <= cap ==> Rounds(p, cap, chunk).total <= cap || Rounds(p, cap, chunk).left == 0
    ensures Stuck(p.groups, chunk) > cap ==> Rounds(p, cap, chunk).total > cap
    decreases p.left
  {
    hide Sum, OldestIndex, EvictCount, Taken, First, Held, Reckoned, Stuck;
    if Done(p, cap) {
      if OldestIndex(p.groups) < 0 {
        OldestIndexOldest(p.groups);
        AllStuck(p.groups, chunk);
      }
    } else {
      var i := OldestIndex(p.groups);
      var lines := p.groups[i].lines;
      var n := EvictCount(lines, p.total - cap, chunk);
      EvictedFirst(lines, p.total - cap, chunk);
      FirstTaken(p.groups, chunk, i);
      TakenReckoned(p.groups, i, n);
      if n == |First(lines, chunk)| {
        RoundsUnderIff(Round(p, cap, chunk), cap, chunk);
      } else {
        assert Done(Round(p, cap, chunk), cap);
      }
    }
  }

  lemma {:induction false} NothingSticks(lines: seq<Aged>, chunk: nat)
    requires chunk > 0 && NonEmptyLines(lines)
    ensures Residue(lines, chunk) == 0
    decreases |lines|
  {
    if lines != [] {
      var first := First(lines, chunk);
      assert first[0].size > 0;
      NothingSticks(lines[|first|..], chunk);
    }
  }

  // Over lines that are not empty nothing is stuck.
  lemma {:induction false} NoneStuck(groups: seq<Group>, chunk: nat)
    requires chunk > 0 && Accounted(groups) && AllNonEmpty(groups)
    ensures Stuck(groups, chunk) == 0
  {
    hide Sum, NonEmptyLines;
    if groups != [] {
      NoneStuck(groups[..|groups| - 1], chunk);
      NothingSticks(groups[|groups| - 1].lines, chunk);
    }
  }

  // The whole store-wide phase. The group bytes add up to the running total at the end
  // exactly when every round meets a byte. Unless it runs out of rounds, the store
  // ends at or under the cap exactly when what is stuck fits under it.
  lemma StoreWide(groups: seq<Group>, cap: nat, chunk: nat, left: nat)
    requires chunk > 0 && Accounted(groups)
    ensures
      var p := Progress(groups, Total(groups), left);
      var q := Rounds(p, cap, chunk);
      && Survives(q.groups, groups) && q.total == Held(q.groups)
      && (Accounted(q.groups) <==> NoEmptyRound(p, cap, chunk))
      && (q.total == Total(q.groups) <==> NoEmptyRound(p, cap, chunk))
      && (q.left > 0 ==> (q.total <= cap <==> Stuck(groups, chunk) <= cap))
      && (q.total <= cap ==> Stuck(groups, chunk) <= cap)
      && (q.left < left ==> NearCap(q.groups, groups, q.total, cap))
      && (AllNonEmpty(groups) ==> NoEmptyRound(p, cap, chunk) && Stuck(groups, chunk) == 0)
  {
    hide Sum, Held, Total, Stuck, AllNonEmpty, OldestIndex, Rounds, NoEmptyRound, Accounted, Reckoned, Survives,
      NearCap;
    var p := Progress(groups, Total(groups), left);
    var q := Rounds(p, cap, chunk);
    Untouched(groups);
    TotalHeldIff(groups);
    RoundsTrack(p, groups, cap, chunk);
    RoundsExactIff(p, cap, chunk);
    TotalHeldIff(q.groups);
    RoundsUnderIff(p, cap, chunk);
    if AllNonEmpty(groups) {
      NonEmptyRounds(p, cap, chunk);
      NoneStuck(groups, chunk);
    }
  }

  // A container of empty lines older than the bytes over the cap is written off in
  // the first round, and the phase ends over the cap with rounds to spare.
  lemma EmptyRoundStopsPhase(cap: nat, chunk: nat, left: nat)
    requires chunk > 0 && left > 0
    ensures
      var groups := [Group(StuckLines(cap, chunk), cap + 1)];
      var p := Progress(groups, cap + 1, left);
      && Accounted(groups) && Total(groups) == cap + 1
      && !NoEmptyRound(p, cap, chunk) && Stuck(groups, chunk) == cap + 1
      && Rounds(p, cap, chunk).total == cap + 1 && Rounds(p, cap, chunk).left == left - 1
  {
    hide StuckLines, Sum, EvictCount, First;
    var lines := StuckLines(cap, chunk);
    var groups := [Group(lines, cap + 1)];
    var p := Progress(groups, cap + 1, left);
    StuckBytes(cap, chunk);
    assert groups[..0] == [];
    assert OldestIndex(groups) == 0;
    EvictedFirst(lines, 1, chunk);
    StuckFirst(cap, chunk);
    var q := Round(p, cap, chunk);
    assert q.groups[..0] == [];
    assert OldestIndex(q.groups) == -1;
  }

  lemma StuckFirst(cap: nat, chunk: nat)
    ensures First(StuckLines(cap, chunk), chunk) == StuckLines(cap, chunk)[..chunk]
  {}

  lemma Untouched(groups: seq<Group>)
    requires Accounted(groups)
    ensures Reckoned(groups) && Survives(groups, groups)
  {
    hide Sum;
  }

  // --------------------------------------------------------- the per-container phase

  function TrimmedGroup(g: Group, cap: nat, chunk: nat): Group
    requires chunk > 0
  {
    Group(Trimmed(g.lines, cap, chunk), Sum(Trimmed(g.lines, cap, chunk)))
  }

  // After the pass over the first i containers.
  function TrimmedTo(groups: seq<Group>, cap: nat, chunk: nat, i: nat): (gs: seq<Group>)
    requires chunk > 0
    ensures |gs| == |groups|
  {
    seq(|groups|, j requires 0 <= j < |groups| => if j < i then TrimmedGroup(groups[j], cap, chunk) else groups[j])
  }

  lemma TrimmedNone(groups: seq<Group>, cap: nat, chunk: nat)
    requires chunk > 0
    ensures TrimmedTo(groups, cap, chunk, 0) == groups
    ensures Total(TrimmedTo(groups, cap, chunk, |groups|)[..0]) == 0
  {}

  lemma TrimmedNext(groups: seq<Group>, cap: nat, chunk: nat, i: nat)
    requires chunk > 0 && i < |groups|
    ensures
      TrimmedTo(groups, cap, chunk, i + 1) ==
      TrimmedTo(groups, cap, chunk, i)[i := TrimmedGroup(groups[i], cap, chunk)]
    ensures TrimmedTo(groups, cap, chunk, i)[i] == groups[i]
    ensures
      var all := TrimmedTo(groups, cap, chunk, |groups|);
      Total(all[..i + 1]) == Total(all[..i]) + Sum(Trimmed(groups[i].lines, cap, chunk))
  {
    var all := TrimmedTo(groups, cap, chunk, |groups|);
    assert all[..i + 1][..i] == all[..i];
  }

  lemma TrimmedAccounted(groups: seq<Group>, cap: nat, chunk: nat)
    requires chunk > 0
    ensures Accounted(TrimmedTo(groups, cap, chunk, |groups|))
  {
    hide Sum, Trimmed;
  }

  lemma AccountedTotal(groups: seq<Group>)
    requires Accounted(groups)
    ensures Total(groups) == Held(groups)
  {
    hide Sum, Total, Held;
    Untouched(groups);
    TotalHeldIff(groups);
  }
}
