// The retention sweep over the database: generation rows collapse into logical
// containers, whose lines in (ts, rowid) order are what the sweep evicts from.
module Sweep {
  import opened LogStore
  import opened Writers
  import R = Retention

  // ------------------------------------------------------- ORDER BY ts_ns, rowid

  // Behind every line that is no younger.
  function Insert(s: seq<StoredLine>, x: StoredLine): seq<StoredLine> {
    if s == [] || s[|s| - 1].line.tsNS <= x.line.tsNS then s + [x]
    else Insert(s[..|s| - 1], x) + [s[|s| - 1]]
  }

  // Lines come in rowid order.
  function Ordered(lines: seq<StoredLine>): seq<StoredLine> {
    if lines == [] then [] else Insert(Ordered(lines[..|lines| - 1]), lines[|lines| - 1])
  }

  lemma InsertSnoc(s: seq<StoredLine>, last: StoredLine, x: StoredLine)
    ensures
      Insert(s + [last], x) == if last.line.tsNS <= x.line.tsNS then s + [last] + [x] else Insert(s, x) + [last]
  {
    assert (s + [last])[..|s|] == s;
  }

  lemma OrderedSnoc(lines: seq<StoredLine>, x: StoredLine)
    ensures Ordered(lines + [x]) == Insert(Ordered(lines), x)
  {
    assert (lines + [x])[..|lines|] == lines;
  }

  lemma {:induction false} InsertSame(s: seq<StoredLine>, x: StoredLine)
    ensures multiset(Insert(s, x)) == multiset(s) + multiset{x}
  {
    if s != [] {
      InsertSame(s[..|s| - 1], x);
      assert s == s[..|s| - 1] + [s[|s| - 1]];
    }
  }

  // Ordering loses no line and adds none.
  lemma {:induction false} OrderedSame(lines: seq<StoredLine>)
    ensures multiset(Ordered(lines)) == multiset(lines)
  {
    hide Insert;
    if lines != [] {
      OrderedSame(lines[..|lines| - 1]);
      InsertSame(Ordered(lines[..|lines| - 1]), lines[|lines| - 1]);
      assert lines == lines[..|lines| - 1] + [lines[|lines| - 1]];
    }
  }

  predicate OldestFirst(s: seq<StoredLine>) {
    forall i, j :: 0 <= i <= j < |s| ==> s[i].line.tsNS <= s[j].line.tsNS
  }

  lemma {:induction false} InsertOrdered(s: seq<StoredLine>, x: StoredLine)
    requires OldestFirst(s)
    ensures OldestFirst(Insert(s, x))
    ensures forall r :: r in Insert(s, x) ==> r in s || r == x
  {
    if s != [] && s[|s| - 1].line.tsNS > x.line.tsNS {
      var init, last := s[..|s| - 1], s[|s| - 1];
      InsertOrdered(init, x);
      forall i | 0 <= i < |Insert(init, x)|
        ensures Insert(init, x)[i].line.tsNS <= last.line.tsNS
      {
        var r := Insert(init, x)[i];
        assert r in Insert(init, x);
      }
    }
  }

  lemma {:induction false} OrderedByTime(lines: seq<StoredLine>)
    ensures OldestFirst(Ordered(lines))
  {
    if lines != [] {
      OrderedByTime(lines[..|lines| - 1]);
      InsertOrdered(Ordered(lines[..|lines| - 1]), lines[|lines| - 1]);
    }
  }

  lemma {:induction false} KeepInsert(s: seq<StoredLine>, x: StoredLine, gone: StoredLine -> bool)
    requires OldestFirst(s)
    ensures Keep(Insert(s, x), gone) == if gone(x) then Keep(s, gone) else Insert(Keep(s, gone), x)
  {
    hide Keep, Insert;
    if s == [] || s[|s| - 1].line.tsNS <= x.line.tsNS {
      InsertLast(s, x);
      KeepSnoc(s, x, gone);
      KeepsNoYounger(s, x, gone);
    } else {
      var init, last := s[..|s| - 1], s[|s| - 1];
      assert s == init + [last];
      KeepInsert(init, x, gone);
      InsertSnoc(init, last, x);
      KeepSnoc(Insert(init, x), last, gone);
      KeepSnoc(init, last, gone);
      InsertSnoc(Keep(init, gone), last, x);
      assert Keep(init, gone) + [] == Keep(init, gone);
      assert Insert(Keep(init, gone), x) + [] == Insert(Keep(init, gone), x);
    }
  }

  lemma InsertLast(s: seq<StoredLine>, x: StoredLine)
    requires s == [] || s[|s| - 1].line.tsNS <= x.line.tsNS
    ensures Insert(s, x) == s + [x]
  {}

  lemma {:induction false} KeepsNoYounger(s: seq<StoredLine>, x: StoredLine, gone: StoredLine -> bool)
    requires OldestFirst(s) && (s == [] || s[|s| - 1].line.tsNS <= x.line.tsNS)
    ensures Insert(Keep(s, gone), x) == Keep(s, gone) + [x]
  {
    if s != [] && gone(s[|s| - 1]) {
      KeepsNoYounger(s[..|s| - 1], x, gone);
    }
  }

  // Deleting lines and ordering them commute.
  lemma {:induction false} KeepOrdered(lines: seq<StoredLine>, gone: StoredLine -> bool)
    ensures Keep(Ordered(lines), gone) == Ordered(Keep(lines, gone))
  {
    hide Insert, Ordered, Keep;
    if lines == [] {
      NoLines(gone);
    } else {
      var init, last := lines[..|lines| - 1], lines[|lines| - 1];
      assert lines == init + [last];
      KeepOrdered(init, gone);
      OrderedByTime(init);
      OrderedSnoc(init, last);
      KeepInsert(Ordered(init), last, gone);
      KeepSnoc(init, last, gone);
      OrderedSnoc(Keep(init, gone), last);
      assert Keep(init, gone) + [] == Keep(init, gone);
    }
  }

  lemma NoLines(gone: StoredLine -> bool)
    ensures Keep([], gone) == [] && Ordered([]) == []
  {}

  function At(ts: int): StoredLine -> bool {
    (r: StoredLine) => r.line.tsNS != ts
  }

  // Lines of one instant stay in rowid order.
  lemma OrderedByRow(lines: seq<StoredLine>, ts: int)
    ensures Keep(Ordered(lines), At(ts)) == Keep(lines, At(ts))
  {
    KeepOrdered(lines, At(ts));
    KeptAt(lines, ts);
    OneInstant(Keep(lines, At(ts)), ts);
  }

  lemma {:induction false} KeptAt(lines: seq<StoredLine>, ts: int)
    ensures forall r :: r in Keep(lines, At(ts)) ==> r.line.tsNS == ts
  {
    if lines != [] {
      KeptAt(lines[..|lines| - 1], ts);
    }
  }

  lemma {:induction false} OneInstant(lines: seq<StoredLine>, ts: int)
    requires forall r :: r in lines ==> r.line.tsNS == ts
    ensures Ordered(lines) == lines
  {
    hide Insert;
    if lines != [] {
      var init := lines[..|lines| - 1];
      OneInstant(init, ts);
      InsertLast(init, lines[|lines| - 1]);
    }
  }

  // ------------------------------------------------------------------------ sizes

  function Size(lines: seq<StoredLine>): nat {
    if lines == [] then 0 else Size(lines[..|lines| - 1]) + |lines[|lines| - 1].line.raw|
  }

  lemma SizeSnoc(lines: seq<StoredLine>, x: StoredLine)
    ensures Size(lines + [x]) == Size(lines) + |x.line.raw|
  {
    assert (lines + [x])[..|lines|] == lines;
  }

  lemma {:induction false} SizeInsert(s: seq<StoredLine>, x: StoredLine)
    ensures Size(Insert(s, x)) == Size(s) + |x.line.raw|
  {
    if s == [] || s[|s| - 1].line.tsNS <= x.line.tsNS {
      SizeSnoc(s, x);
    } else {
      SizeInsert(s[..|s| - 1], x);
      SizeSnoc(Insert(s[..|s| - 1], x), s[|s| - 1]);
    }
  }

  lemma {:induction false} SizeOrdered(lines: seq<StoredLine>)
    ensures Size(Ordered(lines)) == Size(lines)
  {
    hide Insert;
    if lines != [] {
      SizeOrdered(lines[..|lines| - 1]);
      SizeInsert(Ordered(lines[..|lines| - 1]), lines[|lines| - 1]);
    }
  }

  // The lines as the eviction of a list sees them.
  function Ages(lines: seq<StoredLine>): (ages: seq<R.Aged>)
    ensures |ages| == |lines|
  {
    seq(|lines|, i requires 0 <= i < |lines| =>
      R.Aged(lines[i].ref, lines[i].line.tsNS, |lines[i].line.raw|))
  }

  lemma {:induction false} SumOfAges(lines: seq<StoredLine>)
    ensures R.Sum(Ages(lines)) == Size(lines)
  {
    if lines != [] {
      var n := |lines| - 1;
      SumOfAges(lines[..n]);
      R.SumNext(Ages(lines), n);
      assert Ages(lines)[..n] == Ages(lines[..n]);
      assert Ages(lines)[..n + 1] == Ages(lines);
    }
  }

  function Outside(refs: set<int>): StoredLine -> bool {
    (r: StoredLine) => r.ref !in refs
  }

  lemma {:induction false} SizeJoins(lines: seq<StoredLine>, a: set<int>, b: set<int>)
    requires a !! b
    ensures Size(Keep(lines, Outside(a + b))) == Size(Keep(lines, Outside(a))) + Size(Keep(lines, Outside(b)))
  {
    hide Size, Keep;
    if lines == [] {
      NoSize(a);
      NoSize(b);
      NoSize(a + b);
    } else {
      var init, last := lines[..|lines| - 1], lines[|lines| - 1];
      assert lines == init + [last];
      SizeJoins(init, a, b);
      OneMoreSize(init, last, a);
      OneMoreSize(init, last, b);
      OneMoreSize(init, last, a + b);
    }
  }

  lemma NoSize(refs: set<int>)
    ensures Size(Keep([], Outside(refs))) == 0
  {}

  lemma OneMoreSize(lines: seq<StoredLine>, x: StoredLine, refs: set<int>)
    ensures
      Size(Keep(lines + [x], Outside(refs))) ==
      Size(Keep(lines, Outside(refs))) + if x.ref in refs then |x.line.raw| else 0
  {
    hide Keep;
    KeepSnoc(lines, x, Outside(refs));
    SizeSnoc(Keep(lines, Outside(refs)), x);
    assert Keep(lines, Outside(refs)) + [] == Keep(lines, Outside(refs));
  }

  lemma {:induction false} SizeOfRow(lines: seq<StoredLine>, ref: int)
    ensures Size(Keep(lines, Outside({ref}))) == Bytes(lines, ref)
  {
    hide Keep, Size;
    if lines == [] {
      NoSize({ref});
    } else {
      var init, last := lines[..|lines| - 1], lines[|lines| - 1];
      assert lines == init + [last];
      SizeOfRow(init, ref);
      OneMoreSize(init, last, {ref});
    }
  }

  // ------------------------------------------------------------ logical containers

  // All generations of one (host, name), and their stored bytes.
  datatype Logical = Logical(host: string, name: string, refs: set<int>, bytes: int)

  predicate IsFor(l: Logical, g: Generation) {
    g.key.host == l.host && g.name == l.name
  }

  function LinesOf(db: Db, refs: set<int>): seq<StoredLine> {
    Ordered(Keep(db.lines, Outside(refs)))
  }

  // Each container in ls has the rows of done with its host and name.
  ghost predicate RowsSplit(db: Db, ls: seq<Logical>, done: set<int>) {
    forall i, id :: 0 <= i < |ls| && id in db.containers ==>
      (id in ls[i].refs <==> id in done && IsFor(ls[i], db.containers[id]))
  }

  ghost predicate AllFiled(db: Db, ls: seq<Logical>, done: set<int>)
    requires done <= db.containers.Keys
  {
    forall id :: id in done ==> exists i :: 0 <= i < |ls| && IsFor(ls[i], db.containers[id])
  }

  predicate DifferentNames(ls: seq<Logical>) {
    forall i, j :: 0 <= i < j < |ls| ==> (ls[i].host, ls[i].name) != (ls[j].host, ls[j].name)
  }

  predicate BytesTold(db: Db, ls: seq<Logical>) {
    forall i :: 0 <= i < |ls| ==> ls[i].bytes == Size(Keep(db.lines, Outside(ls[i].refs)))
  }

  // The rows in done, collapsed.
  ghost predicate Collapsed(db: Db, ls: seq<Logical>, done: set<int>)
    requires done <= db.containers.Keys
  {
    && RowsSplit(db, ls, done)
    && (forall i :: 0 <= i < |ls| ==> ls[i].refs <= done)
    && AllFiled(db, ls, done) && DifferentNames(ls) && BytesTold(db, ls)
  }

  // index finds the logical container of a (host, name).
  predicate Indexed(ls: seq<Logical>, index: map<(string, string), nat>) {
    && (forall key :: key in index ==> index[key] < |ls| && (ls[index[key]].host, ls[index[key]].name) == key)
    && (forall i :: 0 <= i < |ls| ==> (ls[i].host, ls[i].name) in index)
  }

  lemma IndexNew(ls: seq<Logical>, index: map<(string, string), nat>, g: Generation, l: Logical)
    requires Indexed(ls, index) && (g.key.host, g.name) !in index && IsFor(l, g)
    ensures Indexed(ls + [l], index[(g.key.host, g.name) := |ls|])
    ensures forall i :: 0 <= i < |ls| ==> !IsFor(ls[i], g)
  {}

  lemma IndexJoin(ls: seq<Logical>, index: map<(string, string), nat>, g: Generation, refs: set<int>, bytes: int)
    requires Indexed(ls, index) && (g.key.host, g.name) in index
    ensures
      var i := index[(g.key.host, g.name)];
      i < |ls| && IsFor(ls[i], g) && Indexed(ls[i := Logical(ls[i].host, ls[i].name, refs, bytes)], index)
  {}

  lemma KnownIndex(ls: seq<Logical>, index: map<(string, string), nat>, key: (string, string))
    requires Indexed(ls, index) && key in index
    ensures index[key] < |ls|
  {}

  lemma NothingCollapsed(db: Db)
    ensures Collapsed(db, [], {}) && Indexed([], map[])
  {}

  // Collapses the generation rows into logical containers: every row belongs to the
  // one of its host and name, whose bytes are those of all its lines.
  method LoadGroups(db: Db) returns (ls: seq<Logical>)
    requires Sound(db)
    ensures Collapsed(db, ls, db.containers.Keys)
  {
    hide Sound, Collapsed, Indexed;
    ls := [];
    var index: map<(string, string), nat> := map[];
    var left := db.containers.Keys;
    ghost var done: set<int> := {};
    NothingCollapsed(db);
    while exists id :: id in left
      invariant done !! left && done + left == db.containers.Keys
      invariant Collapsed(db, ls, done) && Indexed(ls, index)
      decreases left
    {
      var ref :| ref in left;
      var g := db.containers[ref];
      var key := (g.key.host, g.name);
      RowBytes(db, ref);
      if key !in index {
        IndexNew(ls, index, g, Logical(g.key.host, g.name, {ref}, g.bytes));
        NewLogical(db, ls, done, ref);
        index := index[key := |ls|];
        ls := ls + [Logical(g.key.host, g.name, {ref}, g.bytes)];
      } else {
        KnownIndex(ls, index, key);
        var i := index[key];
        IndexJoin(ls, index, g, ls[i].refs + {ref}, ls[i].bytes + g.bytes);
        JoinLogical(db, ls, done, ref, i);
        ls := ls[i := Logical(ls[i].host, ls[i].name, ls[i].refs + {ref}, ls[i].bytes + g.bytes)];
      }
      left := left - {ref};
      done := done + {ref};
    }
    assert done == db.containers.Keys;
  }

  lemma RowBytes(db: Db, ref: int)
    requires Sound(db) && ref in db.containers
    ensures db.containers[ref].bytes == Bytes(db.lines, ref)
  {}

  lemma NewLogical(db: Db, ls: seq<Logical>, done: set<int>, ref: int)
    requires done <= db.containers.Keys && Collapsed(db, ls, done) && ref in db.containers && ref !in done
    requires db.containers[ref].bytes == Bytes(db.lines, ref)
    requires forall i :: 0 <= i < |ls| ==> !IsFor(ls[i], db.containers[ref])
    ensures
      var g := db.containers[ref];
      Collapsed(db, ls + [Logical(g.key.host, g.name, {ref}, g.bytes)], done + {ref})
  {
    hide Keep, Size, Outside, AllFiled;
    SizeOfRow(db.lines, ref);
    var l := Logical(db.containers[ref].key.host, db.containers[ref].name, {ref}, db.containers[ref].bytes);
    OneMoreFiled(db, ls, ls + [l], done, ref, |ls|);
    forall i | 0 <= i < |ls|
      ensures (ls[i].host, ls[i].name) != (l.host, l.name)
    {
      assert !IsFor(ls[i], db.containers[ref]);
    }
    FiledElsewhere(db, ls, done, l);
  }

  lemma FiledElsewhere(db: Db, ls: seq<Logical>, done: set<int>, l: Logical)
    requires done <= db.containers.Keys && AllFiled(db, ls, done)
    requires forall i :: 0 <= i < |ls| ==> (ls[i].host, ls[i].name) != (l.host, l.name)
    ensures forall id :: id in done ==> !IsFor(l, db.containers[id])
  {
    forall id | id in done
      ensures !IsFor(l, db.containers[id])
    {
      var j :| 0 <= j < |ls| && IsFor(ls[j], db.containers[id]);
    }
  }

  lemma OneMoreFiled(db: Db, ls: seq<Logical>, ls': seq<Logical>, done: set<int>, ref: int, i: nat)
    requires done <= db.containers.Keys && AllFiled(db, ls, done) && ref in db.containers
    requires |ls| <= |ls'| && i < |ls'| && IsFor(ls'[i], db.containers[ref])
    requires forall j :: 0 <= j < |ls| ==> ls'[j].host == ls[j].host && ls'[j].name == ls[j].name
    ensures AllFiled(db, ls', done + {ref})
  {
    forall id | id in done
      ensures exists j :: 0 <= j < |ls'| && IsFor(ls'[j], db.containers[id])
    {
      var j :| 0 <= j < |ls| && IsFor(ls[j], db.containers[id]);
      assert IsFor(ls'[j], db.containers[id]);
    }
  }

  lemma JoinLogical(db: Db, ls: seq<Logical>, done: set<int>, ref: int, i: nat)
    requires done <= db.containers.Keys && Collapsed(db, ls, done) && ref in db.containers && ref !in done
    requires db.containers[ref].bytes == Bytes(db.lines, ref)
    requires i < |ls| && IsFor(ls[i], db.containers[ref])
    ensures
      var l := ls[i];
      Collapsed(db, ls[i := Logical(l.host, l.name, l.refs + {ref}, l.bytes + db.containers[ref].bytes)], done + {ref})
  {
    hide Keep, Size, Outside, AllFiled;
    var l := ls[i];
    SizeOfRow(db.lines, ref);
    SizeJoins(db.lines, l.refs, {ref});
    var ls' := ls[i := Logical(l.host, l.name, l.refs + {ref}, l.bytes + db.containers[ref].bytes)];
    OneMoreFiled(db, ls, ls', done, ref, i);
  }

  // The stored lines of a logical container, oldest first.
  function Stored(db: Db, ids: set<int>): seq<R.Aged> {
    Ages(LinesOf(db, ids))
  }

  // The logical containers as the sweep's lists.
  function View(db: Db, l: Logical): R.Group {
    R.Group(Stored(db, l.refs), l.bytes)
  }

  function Views(db: Db, ls: seq<Logical>): (groups: seq<R.Group>)
    ensures |groups| == |ls|
  {
    seq(|ls|, i requires 0 <= i < |ls| => View(db, ls[i]))
  }

  // Every list is in time order.
  lemma ViewsOrdered(db: Db, ls: seq<Logical>)
    ensures forall i :: 0 <= i < |ls| ==> R.OldestFirst(Views(db, ls)[i].lines)
  {
    hide Keep, Ordered;
    forall i | 0 <= i < |ls|
      ensures R.OldestFirst(Ages(LinesOf(db, ls[i].refs)))
    {
      OrderedByTime(Keep(db.lines, Outside(ls[i].refs)));
    }
  }

  // The bytes the sweep starts from are exact.
  lemma ViewsAccounted(db: Db, ls: seq<Logical>)
    requires Collapsed(db, ls, db.containers.Keys)
    ensures R.Accounted(Views(db, ls))
  {
    hide Keep, Size, Ordered;
    forall i | 0 <= i < |ls|
      ensures ls[i].bytes == R.Sum(Ages(LinesOf(db, ls[i].refs)))
    {
      SizeOrdered(Keep(db.lines, Outside(ls[i].refs)));
      SumOfAges(LinesOf(db, ls[i].refs));
    }
  }

  // --------------------------------------------------------------------- eviction

  predicate AllDifferent(s: seq<StoredLine>) {
    forall i, j :: 0 <= i < j < |s| ==> s[i] != s[j]
  }

  lemma DistinctDifferent(lines: seq<StoredLine>)
    requires Distinct(lines)
    ensures AllDifferent(lines)
  {
    forall i, j | 0 <= i < j < |lines|
      ensures lines[i] != lines[j]
    {
      assert !SameLine(lines[i], lines[j]);
    }
  }

  lemma {:induction false} CountOne(s: seq<StoredLine>, x: StoredLine)
    requires AllDifferent(s)
    ensures multiset(s)[x] <= 1
  {
    if s != [] {
      var n := |s| - 1;
      assert s == s[..n] + [s[n]];
      CountOne(s[..n], x);
      assert s[n] !in s[..n];
    }
  }

  lemma DifferentOrdered(lines: seq<StoredLine>)
    requires AllDifferent(lines)
    ensures AllDifferent(Ordered(lines))
  {
    hide Ordered;
    OrderedSame(lines);
    var s := Ordered(lines);
    forall i, j | 0 <= i < j < |s|
      ensures s[i] != s[j]
    {
      CountOne(lines, s[i]);
      assert s == s[..j] + [s[j]] + s[j + 1..];
      assert s[i] in s[..j];
    }
  }

  // Deleting the first n of a list leaves the rest.
  lemma {:induction false} KeepRest(s: seq<StoredLine>, n: nat, gone: StoredLine -> bool)
    requires n <= |s| && forall i :: 0 <= i < |s| ==> (gone(s[i]) <==> i < n)
    ensures Keep(s, gone) == s[n..]
  {
    if s != [] {
      var k := |s| - 1;
      if n <= k {
        KeepRest(s[..k], n, gone);
        assert s[n..] == s[..k][n..] + [s[k]];
      } else {
        KeepRest(s[..k], k, gone);
      }
    }
  }

  lemma {:induction false} KeepSwap(lines: seq<StoredLine>, f: StoredLine -> bool, g: StoredLine -> bool)
    ensures Keep(Keep(lines, f), g) == Keep(Keep(lines, g), f)
  {
    hide Keep;
    if lines == [] {
      NoLines(f);
      NoLines(g);
    } else {
      var init, last := lines[..|lines| - 1], lines[|lines| - 1];
      assert lines == init + [last];
      KeepSwap(init, f, g);
      KeepSnoc(init, last, f);
      KeepSnoc(init, last, g);
      KeepSnoc(Keep(init, f), last, g);
      KeepSnoc(Keep(init, g), last, f);
      assert Keep(init, f) + [] == Keep(init, f) && Keep(init, g) + [] == Keep(init, g);
      assert Keep(Keep(init, f), g) + [] == Keep(Keep(init, f), g);
    }
  }

  function Among(lines: set<StoredLine>): StoredLine -> bool {
    r => r in lines
  }

  // evicted holds, of these generations' lines, exactly the n oldest.
  predicate EvictsOldest(db: Db, refs: set<int>, evicted: set<StoredLine>, n: nat) {
    && n <= |LinesOf(db, refs)|
    && forall i :: 0 <= i < |LinesOf(db, refs)| ==> (LinesOf(db, refs)[i] in evicted <==> i < n)
  }

  // Evicting them leaves the rest, in order.
  lemma EvictedLines(db: Db, refs: set<int>, evicted: set<StoredLine>, n: nat)
    requires EvictsOldest(db, refs, evicted, n)
    ensures LinesOf(Evict(db, evicted), refs) == LinesOf(db, refs)[n..]
  {
    hide Keep, Ordered, Outside;
    var gone := Among(evicted);
    SameKeep(db.lines, gone, r => r in evicted);
    KeepSwap(db.lines, gone, Outside(refs));
    KeepOrdered(Keep(db.lines, Outside(refs)), gone);
    KeepRest(LinesOf(db, refs), n, gone);
  }

  // The n oldest lines of one logical container.
  function Oldest(db: Db, refs: set<int>, n: nat): set<StoredLine>
    requires n <= |LinesOf(db, refs)|
  {
    set r | r in LinesOf(db, refs)[..n]
  }

  lemma LinesBelong(db: Db, refs: set<int>)
    ensures forall r :: r in LinesOf(db, refs) ==> r in db.lines && r.ref in refs
  {
    hide Ordered, Keep;
    OrderedSame(Keep(db.lines, Outside(refs)));
    forall r | r in LinesOf(db, refs)
      ensures r in db.lines && r.ref in refs
    {
      assert r in multiset(LinesOf(db, refs));
      assert r in Keep(db.lines, Outside(refs));
    }
  }

  lemma LinesDiffer(db: Db, refs: set<int>)
    requires Distinct(db.lines)
    ensures AllDifferent(LinesOf(db, refs))
  {
    hide Ordered, Keep;
    KeepDistinct(db.lines, Outside(refs));
    DistinctDifferent(Keep(db.lines, Outside(refs)));
    DifferentOrdered(Keep(db.lines, Outside(refs)));
  }

  // Of the container itself they are the n oldest, of any other container none.
  lemma OldestOf(db: Db, refs: set<int>, n: nat, others: set<int>)
    requires Distinct(db.lines) && n <= |LinesOf(db, refs)| && refs !! others
    ensures EvictsOldest(db, refs, Oldest(db, refs, n), n)
    ensures EvictsOldest(db, others, Oldest(db, refs, n), 0)
  {
    hide LinesOf;
    LinesBelong(db, refs);
    LinesBelong(db, others);
    LinesDiffer(db, refs);
    var lines := LinesOf(db, refs);
    forall i | 0 <= i < |lines|
      ensures lines[i] in Oldest(db, refs, n) <==> i < n
    {
      assert lines[i] in lines[..n] ==> exists k :: 0 <= k < n && lines[k] == lines[i];
    }
    forall r | r in Oldest(db, refs, n)
      ensures r.ref in refs
    {
      assert r in lines;
    }
  }

  // No generation is in two containers.
  predicate Apart(ls: seq<Logical>) {
    forall i, j :: 0 <= i < |ls| && 0 <= j < |ls| && i != j ==> ls[i].refs !! ls[j].refs
  }

  lemma AgesDrop(lines: seq<StoredLine>, n: nat)
    requires n <= |lines|
    ensures Ages(lines[n..]) == Ages(lines)[n..]
  {}

  // Evicting one container's n oldest lines takes them from its list and leaves every
  // other container's lines as they are.
  lemma EvictedOne(db: Db, refs: set<int>, n: nat, others: set<int>)
    requires Sound(db) && n <= |LinesOf(db, refs)| && refs !! others
    ensures
      var db' := Evict(db, Oldest(db, refs, n));
      && Sound(db') && LinesOf(db', refs) == LinesOf(db, refs)[n..] && LinesOf(db', others) == LinesOf(db, others)
  {
    hide LinesOf, Oldest, Evict, Sound;
    EvictSound(db, Oldest(db, refs, n));
    DistinctLines(db);
    OldestOf(db, refs, n, others);
    EvictedLines(db, refs, Oldest(db, refs, n), n);
    EvictedLines(db, others, Oldest(db, refs, n), 0);
    assert LinesOf(db, others)[0..] == LinesOf(db, others);
  }

  // One eviction is the eviction of one list, whatever bytes the sweep notes for it.
  lemma OneEviction(db: Db, ls: seq<Logical>, i: nat, n: nat, bytes: int)
    requires Sound(db) && Apart(ls) && i < |ls| && n <= |LinesOf(db, ls[i].refs)|
    ensures
      var db', ls' := Evict(db, Oldest(db, ls[i].refs, n)), ls[i := ls[i].(bytes := bytes)];
      && Sound(db') && Apart(ls')
      && Views(db', ls') == Views(db, ls)[i := R.Group(Views(db, ls)[i].lines[n..], bytes)]
  {
    hide LinesOf, Oldest, Evict, Sound, Ages;
    EvictedOne(db, ls[i].refs, n, {});
    AgesDrop(LinesOf(db, ls[i].refs), n);
    forall j | 0 <= j < |ls| && j != i
      ensures LinesOf(Evict(db, Oldest(db, ls[i].refs, n)), ls[j].refs) == LinesOf(db, ls[j].refs)
    {
      EvictedOne(db, ls[i].refs, n, ls[j].refs);
    }
  }

  lemma {:induction false} KeepTwice(
      lines: seq<StoredLine>, f: StoredLine -> bool, g: StoredLine -> bool, h: StoredLine -> bool)
    requires forall r :: h(r) <==> f(r) || g(r)
    ensures Keep(Keep(lines, f), g) == Keep(lines, h)
  {
    hide Keep;
    if lines == [] {
      NoLines(f);
      NoLines(g);
      NoLines(h);
    } else {
      var init, last := lines[..|lines| - 1], lines[|lines| - 1];
      assert lines == init + [last];
      KeepTwice(init, f, g, h);
      KeepSnoc(init, last, f);
      KeepSnoc(Keep(init, f), last, g);
      KeepSnoc(init, last, h);
      assert Keep(init, f) + [] == Keep(init, f) && Keep(init, h) + [] == Keep(init, h);
    }
  }

  // An eviction, by the lines it leaves.
  lemma EvictShape(db: Db, evicted: set<StoredLine>)
    requires Sound(db)
    ensures
      var db' := Evict(db, evicted);
      && Sound(db') && db'.lines == Keep(db.lines, Among(evicted))
      && db'.containers.Keys == db.containers.Keys
      && forall id :: id in db.containers ==> db'.containers[id] == db.containers[id].(bytes := Bytes(db'.lines, id))
  {
    hide Keep, Freed, MarksExact, Bytes, Distinct;
    EvictSound(db, evicted);
    SameKeep(db.lines, Among(evicted), r => r in evicted);
  }

  // Evictions one after the other are one eviction of all their lines.
  lemma EvictTwice(db: Db, a: set<StoredLine>, b: set<StoredLine>)
    requires Sound(db)
    ensures Evict(Evict(db, a), b) == Evict(db, a + b)
  {
    hide Keep, Evict, Bytes, Sound;
    EvictShape(db, a);
    EvictShape(Evict(db, a), b);
    EvictShape(db, a + b);
    KeepTwice(db.lines, Among(a), Among(b), Among(a + b));
    var x, y := Evict(Evict(db, a), b), Evict(db, a + b);
    var z := Evict(db, a);
    forall id | id in db.containers
      ensures x.containers[id] == y.containers[id]
    {
      assert z.containers[id] == db.containers[id].(bytes := Bytes(z.lines, id));
    }
    assert x.containers == y.containers;
  }

  lemma EvictNothing(db: Db)
    requires Sound(db)
    ensures Evict(db, {}) == db
  {
    hide Keep, Evict, Bytes, Sound;
    EvictShape(db, {});
    KeepRest(db.lines, 0, Among({}));
    assert db.lines[0..] == db.lines;
    forall id | id in db.containers
      ensures Evict(db, {}).containers[id] == db.containers[id]
    {
      RowBytes(db, id);
    }
    assert Evict(db, {}).containers == db.containers;
  }

  // The n oldest lines of a container, then the k oldest of the rest.
  lemma OldestTwice(db: Db, refs: set<int>, n: nat, k: nat)
    requires Sound(db) && n + k <= |LinesOf(db, refs)|
    ensures
      var mid := Evict(db, Oldest(db, refs, n));
      && Sound(mid) && LinesOf(mid, refs) == LinesOf(db, refs)[n..]
      && Evict(mid, Oldest(mid, refs, k)) == Evict(db, Oldest(db, refs, n + k))
  {
    hide LinesOf, Evict, Sound;
    EvictedOne(db, refs, n, {});
    var mid, lines := Evict(db, Oldest(db, refs, n)), LinesOf(db, refs);
    EvictTwice(db, Oldest(db, refs, n), Oldest(mid, refs, k));
    assert lines[..n + k] == lines[..n] + lines[n..][..k];
    assert Oldest(db, refs, n + k) == Oldest(db, refs, n) + Oldest(mid, refs, k);
  }

  lemma DistinctLines(db: Db)
    requires Sound(db)
    ensures Distinct(db.lines)
  {}

  lemma RefsApart(db: Db, ls: seq<Logical>, i: nat, j: nat)
    requires Collapsed(db, ls, db.containers.Keys) && i < |ls| && j < |ls| && i != j
    ensures ls[i].refs !! ls[j].refs
  {
    hide Keep, Size;
    forall id | id in ls[i].refs
      ensures id !in ls[j].refs
    {
      assert IsFor(ls[i], db.containers[id]);
      assert (ls[i].host, ls[i].name) != (ls[j].host, ls[j].name);
    }
  }

  // -------------------------------------------------------------- the whole sweep

  // Deletes a container's oldest lines (ORDER BY ts_ns, rowid LIMIT chunk) until
  // excess bytes are freed.
  method EvictOldest(db: Db, refs: set<int>, excess: int) returns (db': Db, freed: nat)
    ensures
      var n := R.EvictCount(Stored(db, refs), excess, R.DELETE_CHUNK);
      && R.EvictsExactly(Stored(db, refs), excess, 5000, n)
      && freed == R.Sum(Stored(db, refs)[..n]) && db' == Evict(db, Oldest(db, refs, n))
  {
    hide LinesOf, Evict, R.EvictCount, R.Sum;
    var rows := LinesOf(db, refs);
    ghost var lines := Stored(db, refs);
    var rowids: set<StoredLine> := {};
    var count := 0;
    freed := 0;
    R.NoBytes();
    assert lines[..0] == [];
    while count < |rows| && count < R.DELETE_CHUNK
      invariant count <= |rows| && count <= R.DELETE_CHUNK
      invariant freed == R.Sum(lines[..count]) && rowids == Oldest(db, refs, count)
      invariant forall k :: 0 < k <= count ==> R.Sum(lines[..k]) < excess
    {
      R.SumNext(lines, count);
      assert rows[..count + 1] == rows[..count] + [rows[count]];
      rowids := rowids + {rows[count]};
      freed := freed + |rows[count].line.raw|;
      count := count + 1;
      assert rowids == Oldest(db, refs, count);
      if freed >= excess {
        break;
      }
    }
    R.EvictCountOnly(lines, excess, R.DELETE_CHUNK, count);
    db' := Evict(db, rowids);
  }

  // Evicts from one container while it is over its cap, until an eviction frees
  // nothing: all in all, its oldest lines down to what the pass leaves.
  method TrimContainer(db: Db, l: Logical, cap: nat) returns (db': Db, bytes: int)
    requires Sound(db) && l.bytes == R.Sum(Stored(db, l.refs))
    ensures
      var lines := Stored(db, l.refs);
      var kept := R.Trimmed(lines, cap, R.DELETE_CHUNK);
      && db' == Evict(db, Oldest(db, l.refs, |lines| - |kept|)) && Stored(db', l.refs) == kept
      && kept == lines[|lines| - |kept|..] && bytes == R.Sum(kept)
  {
    hide LinesOf, Evict, Sound, Oldest, Ages, R.EvictCount, R.EvictsExactly, R.Sum, R.Trimmed;
    ghost var lines := Stored(db, l.refs);
    ghost var n := 0;
    db', bytes := db, l.bytes;
    NoneOldest(db, l.refs);
    while bytes > cap
      invariant n <= |lines| && db' == Evict(db, Oldest(db, l.refs, n))
      invariant Sound(db') && Stored(db', l.refs) == lines[n..]
      invariant bytes == R.Sum(lines[n..])
      invariant R.Trimmed(lines, cap, R.DELETE_CHUNK) == R.Trimmed(lines[n..], cap, R.DELETE_CHUNK)
      decreases |lines| - n
    {
      var evicted: nat;
      R.TrimmedStep(lines[n..], cap, R.DELETE_CHUNK);
      ghost var k := R.EvictCount(lines[n..], bytes - cap, R.DELETE_CHUNK);
      db', evicted := EvictOldest(db', l.refs, bytes - cap);
      OldestNext(db, l.refs, n, k);
      assert lines[n..][k..] == lines[n + k..];
      n := n + k;
      if evicted == 0 {
        return;
      }
      bytes := bytes - evicted;
    }
    R.TrimmedStep(lines[n..], cap, R.DELETE_CHUNK);
  }

  lemma NoneOldest(db: Db, refs: set<int>)
    requires Sound(db)
    ensures Evict(db, Oldest(db, refs, 0)) == db && Stored(db, refs)[0..] == Stored(db, refs)
  {
    hide LinesOf, Evict, Sound;
    EvictNothing(db);
    assert Oldest(db, refs, 0) == {};
  }

  lemma OldestNext(db: Db, refs: set<int>, n: nat, k: nat)
    requires Sound(db) && n <= |LinesOf(db, refs)|
    requires var mid := Evict(db, Oldest(db, refs, n)); k <= |LinesOf(mid, refs)|
    ensures
      var mid := Evict(db, Oldest(db, refs, n));
      var after := Evict(mid, Oldest(mid, refs, k));
      && n + k <= |LinesOf(db, refs)| && after == Evict(db, Oldest(db, refs, n + k))
      && Sound(after) && Stored(after, refs) == Stored(db, refs)[n + k..]
  {
    hide LinesOf, Evict, Sound, Oldest, Ages;
    EvictedOne(db, refs, n, {});
    OldestTwice(db, refs, n, k);
    EvictedOne(db, refs, n + k, {});
    AgesDrop(LinesOf(db, refs), n + k);
  }

  // The same containers, with other bytes.
  predicate SameRefs(ls: seq<Logical>, ls0: seq<Logical>) {
    |ls| == |ls0| && forall i :: 0 <= i < |ls| ==> ls[i] == ls0[i].(bytes := ls[i].bytes)
  }

  // The per-container phase.
  method TrimEach(db: Db, ls: seq<Logical>, cap: nat)
    returns (db': Db, ls': seq<Logical>, total: int, ghost gone: set<StoredLine>)
    requires Sound(db) && Apart(ls) && R.Accounted(Views(db, ls))
    ensures db' == Evict(db, gone) && SameRefs(ls', ls) && Apart(ls')
    ensures Views(db', ls') == R.TrimmedTo(Views(db, ls), cap, R.DELETE_CHUNK, |ls|)
    ensures total == R.Total(Views(db', ls'))
  {
    hide LinesOf, Evict, Sound, Oldest, Ages, Views, R.Sum, R.TrimmedTo, R.Total, R.Trimmed;
    ghost var before := Views(db, ls);
    db', ls', total, gone := db, ls, 0, {};
    EvictNothing(db);
    R.TrimmedNone(before, cap, R.DELETE_CHUNK);
    for i := 0 to |ls|
      invariant db' == Evict(db, gone) && Sound(db') && SameRefs(ls', ls) && Apart(ls')
      invariant Views(db', ls') == R.TrimmedTo(before, cap, R.DELETE_CHUNK, i)
      invariant total == R.Total(R.TrimmedTo(before, cap, R.DELETE_CHUNK, |ls|)[..i])
    {
      var bytes: int;
      ghost var was := db';
      ghost var kept := R.Trimmed(before[i].lines, cap, R.DELETE_CHUNK);
      ghost var n := |before[i].lines| - |kept|;
      R.TrimmedNext(before, cap, R.DELETE_CHUNK, i);
      ViewsAt(db', ls', i);
      db', bytes := TrimContainer(db', ls'[i], cap);
      OneEviction(was, ls', i, n, bytes);
      EvictTwice(db, gone, Oldest(was, ls'[i].refs, n));
      gone := gone + Oldest(was, ls'[i].refs, n);
      ls' := ls'[i := ls'[i].(bytes := bytes)];
      total := total + ls'[i].bytes;
    }
    assert R.TrimmedTo(before, cap, R.DELETE_CHUNK, |ls|)[..|ls|] == R.TrimmedTo(before, cap, R.DELETE_CHUNK, |ls|);
  }

  lemma ViewsAt(db: Db, ls: seq<Logical>, i: nat)
    requires i < |ls|
    ensures Views(db, ls)[i] == View(db, ls[i])
  {}

  lemma OldestStored(db: Db, ls: seq<Logical>, best: nat)
    requires best == R.OldestIndex(Views(db, ls))
    ensures best < |ls| && LinesOf(db, ls[best].refs) != []
    ensures forall i, k :: 0 <= i < |ls| && ls[i].bytes > 0 && 0 <= k < |LinesOf(db, ls[i].refs)| ==>
      LinesOf(db, ls[best].refs)[0].line.tsNS <= LinesOf(db, ls[i].refs)[k].line.tsNS
  {
    hide LinesOf, R.OldestIndex;
    ViewsOrdered(db, ls);
    R.OldestOfAll(Views(db, ls));
    assert Views(db, ls)[best].lines != [];
    forall i, k | 0 <= i < |ls| && ls[i].bytes > 0 && 0 <= k < |LinesOf(db, ls[i].refs)|
      ensures LinesOf(db, ls[best].refs)[0].line.tsNS <= LinesOf(db, ls[i].refs)[k].line.tsNS
    {
      assert Views(db, ls)[best].lines[0].tsNS <= Views(db, ls)[i].lines[k].tsNS;
    }
  }

  // The container with bytes that holds the oldest stored line, or -1.
  method OldestGroup(db: Db, ls: seq<Logical>) returns (best: int)
    ensures best == R.OldestIndex(Views(db, ls)) && -1 <= best < |ls|
    ensures best == -1 <==> forall i :: 0 <= i < |ls| && ls[i].bytes > 0 ==> LinesOf(db, ls[i].refs) == []
    ensures best >= 0 ==> ls[best].bytes > 0 && LinesOf(db, ls[best].refs) != []
    ensures best >= 0 ==> forall i, k :: 0 <= i < |ls| && ls[i].bytes > 0 && 0 <= k < |LinesOf(db, ls[i].refs)| ==>
      LinesOf(db, ls[best].refs)[0].line.tsNS <= LinesOf(db, ls[i].refs)[k].line.tsNS
  {
    hide LinesOf;
    best := -1;
    for i := 0 to |ls|
      invariant best == R.OldestIndex(Views(db, ls)[..i])
    {
      assert Views(db, ls)[..i + 1][..i] == Views(db, ls)[..i];
      if ls[i].bytes > 0 {
        var lines := LinesOf(db, ls[i].refs);
        if lines != [] && (best < 0 || lines[0].line.tsNS < LinesOf(db, ls[best].refs)[0].line.tsNS) {
          best := i;
        }
      }
    }
    assert Views(db, ls)[..|ls|] == Views(db, ls);
    if best >= 0 {
      OldestStored(db, ls, best);
    }
    NoneOldestLeft(db, ls);
  }

  lemma NoneOldestLeft(db: Db, ls: seq<Logical>)
    ensures R.OldestIndex(Views(db, ls)) == -1 <==>
      forall i :: 0 <= i < |ls| && ls[i].bytes > 0 ==> LinesOf(db, ls[i].refs) == []
  {
    hide LinesOf, R.OldestIndex;
    R.OldestIndexOldest(Views(db, ls));
    forall i | 0 <= i < |ls|
      ensures Views(db, ls)[i].lines == [] <==> LinesOf(db, ls[i].refs) == []
      ensures Views(db, ls)[i].bytes == ls[i].bytes
    {
    }
  }

  // The store-wide phase: evicts from the container with the oldest line, round after
  // round, each time on the lines there are by then.
  method TrimStore(db: Db, ls: seq<Logical>, total0: int, cap: nat)
    returns (db': Db, ls': seq<Logical>, total: int, rounds: nat, ghost gone: set<StoredLine>)
    requires Sound(db) && Apart(ls)
    ensures db' == Evict(db, gone) && SameRefs(ls', ls) && Apart(ls') && rounds <= 1000
    ensures
      R.Progress(Views(db', ls'), total, R.MAX_TRIM_ROUNDS - rounds) ==
      R.Rounds(R.Progress(Views(db, ls), total0, R.MAX_TRIM_ROUNDS), cap, R.DELETE_CHUNK)
    ensures rounds == 0 ==> gone == {}
  {
    hide LinesOf, Evict, Sound, Oldest, Ages, Views, R.Sum, R.EvictCount, R.EvictsExactly, R.OldestIndex, R.Rounds;
    db', ls', total, rounds, gone := db, ls, total0, 0, {};
    EvictNothing(db);
    while total > cap && rounds < R.MAX_TRIM_ROUNDS
      invariant rounds <= R.MAX_TRIM_ROUNDS && (rounds == 0 ==> gone == {})
      invariant db' == Evict(db, gone) && Sound(db') && SameRefs(ls', ls) && Apart(ls')
      invariant
        R.Rounds(R.Progress(Views(db', ls'), total, R.MAX_TRIM_ROUNDS - rounds), cap, R.DELETE_CHUNK) ==
        R.Rounds(R.Progress(Views(db, ls), total0, R.MAX_TRIM_ROUNDS), cap, R.DELETE_CHUNK)
    {
      ghost var p := R.Progress(Views(db', ls'), total, R.MAX_TRIM_ROUNDS - rounds);
      R.RoundsStep(p, cap, R.DELETE_CHUNK);
      var oldest := OldestGroup(db', ls');
      if oldest < 0 {
        return;
      }
      ViewsAt(db', ls', oldest);
      ghost var was := db';
      var evicted: nat;
      ghost var n := R.EvictCount(Stored(db', ls'[oldest].refs), total - cap, R.DELETE_CHUNK);
      db', evicted := EvictOldest(db', ls'[oldest].refs, total - cap);
      var bytes := if evicted == 0 then 0 else ls'[oldest].bytes - evicted;
      OneEviction(was, ls', oldest, n, bytes);
      EvictTwice(db, gone, Oldest(was, ls'[oldest].refs, n));
      gone := gone + Oldest(was, ls'[oldest].refs, n);
      ls' := ls'[oldest := ls'[oldest].(bytes := bytes)];
      total := total - evicted;
      rounds := rounds + 1;
    }
    R.RoundsStep(R.Progress(Views(db', ls'), total, R.MAX_TRIM_ROUNDS - rounds), cap, R.DELETE_CHUNK);
  }

  function RefsOf(ls: seq<Logical>): set<int> {
    if ls == [] then {} else RefsOf(ls[..|ls| - 1]) + ls[|ls| - 1].refs
  }

  lemma {:induction false} RefsOfHas(ls: seq<Logical>, id: int)
    ensures id in RefsOf(ls) <==> exists i :: 0 <= i < |ls| && id in ls[i].refs
  {
    if ls != [] {
      RefsOfHas(ls[..|ls| - 1], id);
    }
  }

  // What the lists hold is what their rows' lines add up to.
  lemma {:induction false} HeldRows(db: Db, ls: seq<Logical>, groups: seq<R.Group>)
    requires |groups| == |ls| && Apart(ls)
    requires forall i :: 0 <= i < |ls| ==> groups[i].lines == Ages(LinesOf(db, ls[i].refs))
    ensures R.Held(groups) == Size(Keep(db.lines, Outside(RefsOf(ls))))
    decreases |ls|
  {
    hide Keep, Size, Ordered, R.Sum, Ages;
    if ls == [] {
      NoneInside(db.lines);
    } else {
      var n := |ls| - 1;
      HeldRows(db, ls[..n], groups[..n]);
      forall id | id in RefsOf(ls[..n])
        ensures id !in ls[n].refs
      {
        RefsOfHas(ls[..n], id);
      }
      SizeJoins(db.lines, RefsOf(ls[..n]), ls[n].refs);
      SizeOrdered(Keep(db.lines, Outside(ls[n].refs)));
      SumOfAges(LinesOf(db, ls[n].refs));
    }
  }

  lemma {:induction false} NoneInside(lines: seq<StoredLine>)
    ensures Size(Keep(lines, Outside({}))) == 0
  {
    if lines != [] {
      NoneInside(lines[..|lines| - 1]);
    }
  }

  // Together they hold every stored line.
  lemma HeldAll(db: Db, ls: seq<Logical>, groups: seq<R.Group>, refs: set<int>)
    requires |groups| == |ls| && RefsOf(ls) == refs && Apart(ls)
    requires forall i :: 0 <= i < |ls| ==> groups[i].lines == Ages(LinesOf(db, ls[i].refs))
    requires forall i :: 0 <= i < |db.lines| ==> db.lines[i].ref in refs
    ensures R.Held(groups) == Size(db.lines)
  {
    hide Keep, Size, LinesOf, R.Held;
    HeldRows(db, ls, groups);
    KeepRest(db.lines, 0, Outside(refs));
    assert db.lines[0..] == db.lines;
  }

  lemma AllRows(db: Db, ls: seq<Logical>)
    requires Collapsed(db, ls, db.containers.Keys)
    ensures RefsOf(ls) == db.containers.Keys && Apart(ls)
  {
    hide Keep, Size;
    forall id
      ensures id in RefsOf(ls) <==> id in db.containers
    {
      RefsOfHas(ls, id);
    }
    forall i, j | 0 <= i < |ls| && 0 <= j < |ls| && i != j
      ensures ls[i].refs !! ls[j].refs
    {
      RefsApart(db, ls, i, j);
    }
  }

  // No stored line is empty.
  predicate NoEmptyLine(db: Db) {
    forall i :: 0 <= i < |db.lines| ==> db.lines[i].line.raw != ""
  }

  lemma ViewsNonEmpty(db: Db, ls: seq<Logical>)
    requires NoEmptyLine(db)
    ensures R.AllNonEmpty(Views(db, ls))
  {
    hide LinesOf;
    forall i | 0 <= i < |ls|
      ensures R.NonEmptyLines(Views(db, ls)[i].lines)
    {
      LinesBelong(db, ls[i].refs);
      forall k | 0 <= k < |LinesOf(db, ls[i].refs)|
        ensures LinesOf(db, ls[i].refs)[k].line.raw != ""
      {
        assert LinesOf(db, ls[i].refs)[k] in db.lines;
      }
    }
  }

  lemma NoneNamed(db: Db)
    ensures LinesOf(db, {}) == []
  {
    KeepRest(db.lines, |db.lines|, Outside({}));
  }

  // Every logical container is in a list, or holds nothing.
  lemma Named(db: Db, ls: seq<Logical>, host: string, name: string) returns (i: int)
    requires Collapsed(db, ls, db.containers.Keys)
    ensures i >= 0 ==> i < |ls| && ls[i].refs == IdsNamed(db, host, name)
    ensures i < 0 ==> IdsNamed(db, host, name) == {}
  {
    hide Keep, Size;
    if exists id :: id in IdsNamed(db, host, name) {
      var id :| id in IdsNamed(db, host, name);
      i :| 0 <= i < |ls| && IsFor(ls[i], db.containers[id]);
      assert forall k :: k in ls[i].refs <==> k in IdsNamed(db, host, name);
    } else {
      i := -1;
      assert IdsNamed(db, host, name) == {};
    }
  }

  // Containers are told apart by rows the eviction does not touch.
  lemma SameNames(db: Db, gone: set<StoredLine>, host: string, name: string)
    ensures IdsNamed(Evict(db, gone), host, name) == IdsNamed(db, host, name)
  {}

  lemma StillFiled(db: Db, gone: set<StoredLine>, groups: seq<Logical>, ls: seq<Logical>)
    requires Collapsed(db, groups, db.containers.Keys) && SameRefs(ls, groups)
    requires BytesTold(Evict(db, gone), ls)
    ensures var fit := Evict(db, gone); Collapsed(fit, ls, fit.containers.Keys)
  {
    hide Keep, Size, Freed, BytesTold;
    var fit := Evict(db, gone);
    forall id | id in fit.containers
      ensures exists i :: 0 <= i < |ls| && IsFor(ls[i], fit.containers[id])
    {
      var i :| 0 <= i < |groups| && IsFor(groups[i], db.containers[id]);
      assert IsFor(ls[i], fit.containers[id]);
    }
    assert DifferentNames(ls) by {
      forall i, j | 0 <= i < j < |ls|
        ensures (ls[i].host, ls[i].name) != (ls[j].host, ls[j].name)
      {
        assert (groups[i].host, groups[i].name) != (groups[j].host, groups[j].name);
      }
    }
    forall i, id | 0 <= i < |ls| && id in fit.containers
      ensures id in ls[i].refs <==> IsFor(ls[i], fit.containers[id])
    {
      assert id in groups[i].refs <==> IsFor(groups[i], db.containers[id]);
    }
  }

  lemma ToldByViews(db: Db, ls: seq<Logical>)
    requires R.Accounted(Views(db, ls))
    ensures BytesTold(db, ls)
  {
    hide Keep, Size, Ordered, R.Sum, Ages;
    forall i | 0 <= i < |ls|
      ensures ls[i].bytes == Size(Keep(db.lines, Outside(ls[i].refs)))
    {
      assert Views(db, ls)[i].bytes == R.Sum(Views(db, ls)[i].lines);
      SizeOrdered(Keep(db.lines, Outside(ls[i].refs)));
      SumOfAges(LinesOf(db, ls[i].refs));
    }
  }

  lemma {:induction false} SameRefsOf(ls: seq<Logical>, ls0: seq<Logical>)
    requires SameRefs(ls, ls0)
    ensures RefsOf(ls) == RefsOf(ls0)
  {
    if ls != [] {
      SameRefsOf(ls[..|ls| - 1], ls0[..|ls| - 1]);
    }
  }

  // The lists of all containers hold what the store holds.
  lemma ViewsHold(db: Db, ls: seq<Logical>)
    requires Sound(db) && Apart(ls) && RefsOf(ls) == db.containers.Keys
    ensures R.Held(Views(db, ls)) == Size(db.lines)
  {
    hide LinesOf, Size, R.Held, RefsOf;
    HeldAll(db, ls, Views(db, ls), db.containers.Keys);
  }

  // The containers as the per-container phase leaves them.
  lemma FitCollapsed(
    db: Db, groups: seq<Logical>, trimmed: set<StoredLine>, ls: seq<Logical>, cap: nat)
    requires Sound(db) && Collapsed(db, groups, db.containers.Keys) && SameRefs(ls, groups) && Apart(ls)
    requires Views(Evict(db, trimmed), ls) == R.TrimmedTo(Views(db, groups), cap, R.DELETE_CHUNK, |groups|)
    ensures
      var fit := Evict(db, trimmed);
      && Sound(fit) && Collapsed(fit, ls, fit.containers.Keys)
      && R.Accounted(Views(fit, ls)) && R.Total(Views(fit, ls)) == Size(fit.lines)
  {
    hide Sound, Collapsed, Views, Evict, Apart, SameRefs, Size, RefsOf, R.TrimmedTo, R.Accounted, R.Total, R.Held;
    var fit := Evict(db, trimmed);
    EvictSound(db, trimmed);
    R.TrimmedAccounted(Views(db, groups), cap, R.DELETE_CHUNK);
    ToldByViews(fit, ls);
    StillFiled(db, trimmed, groups, ls);
    AllRows(fit, ls);
    ViewsHold(fit, ls);
    R.AccountedTotal(Views(fit, ls));
  }

  // What the per-container phase makes of one container's lines: its newest ones,
  // those that fit exactly when the pass meets no chunk of empty lines.
  predicate Passed(before: seq<R.Aged>, fit: seq<R.Aged>, cap: nat) {
    && fit == R.Trimmed(before, cap, R.DELETE_CHUNK) && R.SuffixOf(fit, before)
    && (R.NewestFitting(before, cap, fit) <==> R.NoEmptyChunk(before, cap, R.DELETE_CHUNK))
    && (!R.NoEmptyChunk(before, cap, R.DELETE_CHUNK) ==> R.Sum(fit) > cap)
  }

  lemma PassedTrimmed(lines: seq<R.Aged>, cap: nat)
    ensures Passed(lines, R.Trimmed(lines, cap, R.DELETE_CHUNK), cap)
  {
    hide R.NewestFitting, R.NoEmptyChunk, R.SuffixOf, R.Trimmed;
    R.TrimmedIff(lines, cap, R.DELETE_CHUNK);
  }

  // One (host, name) after the per-container phase.
  lemma PassedAt(
    db: Db, groups: seq<Logical>, fit: Db, ls: seq<Logical>, cap: nat, host: string, name: string)
    requires Collapsed(db, groups, db.containers.Keys) && SameRefs(ls, groups)
    requires Views(fit, ls) == R.TrimmedTo(Views(db, groups), cap, R.DELETE_CHUNK, |groups|)
    ensures Passed(Stored(db, IdsNamed(db, host, name)), Stored(fit, IdsNamed(db, host, name)), cap)
  {
    hide Collapsed, LinesOf, Ages, IdsNamed, Passed, R.Trimmed;
    var i := Named(db, groups, host, name);
    PassedTrimmed(Stored(db, IdsNamed(db, host, name)), cap);
    if i < 0 {
      NoneNamed(db);
      NoneNamed(fit);
      R.NothingTrimmed(cap, R.DELETE_CHUNK);
      NoAges();
    } else {
      assert Views(fit, ls)[i].lines == R.Trimmed(Views(db, groups)[i].lines, cap, R.DELETE_CHUNK);
    }
  }

  lemma NoAges()
    ensures Ages([]) == []
  {}

  // One (host, name) in the store-wide phase.
  lemma SurvivesAt(
    fit: Db, ls: seq<Logical>, swept: Db, after: seq<Logical>, host: string, name: string)
    requires Collapsed(fit, ls, fit.containers.Keys) && SameRefs(after, ls)
    requires R.Survives(Views(swept, after), Views(fit, ls))
    ensures R.SuffixOf(Stored(swept, IdsNamed(fit, host, name)), Stored(fit, IdsNamed(fit, host, name)))
  {
    hide Collapsed, LinesOf, Ages, IdsNamed;
    var i := Named(fit, ls, host, name);
    if i < 0 {
      NoneNamed(fit);
      NoneNamed(swept);
    } else {
      assert R.SuffixOf(Views(swept, after)[i].lines, Views(fit, ls)[i].lines);
    }
  }

  lemma NamedHere(db: Db, ls: seq<Logical>, i: nat)
    requires Collapsed(db, ls, db.containers.Keys) && i < |ls|
    ensures ls[i].refs == IdsNamed(db, ls[i].host, ls[i].name)
  {
    hide Keep, Size;
    forall id
      ensures id in ls[i].refs <==> id in IdsNamed(db, ls[i].host, ls[i].name)
    {
      if id in db.containers {
        assert id in ls[i].refs <==> IsFor(ls[i], db.containers[id]);
      }
    }
  }

  // Some container lost lines in the store-wide phase, and with the last of them the
  // store would be over the cap.
  ghost predicate LastNeeded(fit: Db, swept: Db, cap: nat) {
    exists host, name ::
      LastNeededOf(
        Stored(fit, IdsNamed(fit, host, name)), Stored(swept, IdsNamed(fit, host, name)), Size(swept.lines), cap)
  }

  predicate LastNeededOf(before: seq<R.Aged>, after: seq<R.Aged>, total: int, cap: nat) {
    |after| < |before| && total + before[|before| - |after| - 1].size > cap
  }

  lemma NearCapNeeded(fit: Db, ls: seq<Logical>, swept: Db, after: seq<Logical>, cap: nat)
    requires Collapsed(fit, ls, fit.containers.Keys) && SameRefs(after, ls)
    requires R.Survives(Views(swept, after), Views(fit, ls))
    requires R.NearCap(Views(swept, after), Views(fit, ls), Size(swept.lines), cap)
    ensures LastNeeded(fit, swept, cap)
  {
    hide Collapsed, LinesOf, Ages, IdsNamed, Size, R.Survives;
    var i :| 0 <= i < |ls| && |Views(swept, after)[i].lines| < |Views(fit, ls)[i].lines|
      && Size(swept.lines) + R.LastEvicted(Views(swept, after), Views(fit, ls), i).size > cap;
    NamedHere(fit, ls, i);
    assert LastNeededOf(
        Stored(fit, IdsNamed(fit, ls[i].host, ls[i].name)), Stored(swept, IdsNamed(fit, ls[i].host, ls[i].name)),
        Size(swept.lines), cap);
  }

  // The store after the store-wide phase.
  lemma SweptStore(
    fit: Db, ls: seq<Logical>, evicted: set<StoredLine>, after: seq<Logical>, total: int, rounds: nat, cap: nat)
    requires Sound(fit) && Collapsed(fit, ls, fit.containers.Keys) && SameRefs(after, ls) && Apart(after)
    requires R.Accounted(Views(fit, ls)) && R.Total(Views(fit, ls)) == Size(fit.lines)
    requires rounds <= R.MAX_TRIM_ROUNDS
    requires
      R.Progress(Views(Evict(fit, evicted), after), total, R.MAX_TRIM_ROUNDS - rounds) ==
      R.Rounds(R.Progress(Views(fit, ls), Size(fit.lines), R.MAX_TRIM_ROUNDS), cap, R.DELETE_CHUNK)
    ensures
      var swept := Evict(fit, evicted);
      && total == Size(swept.lines) && R.Survives(Views(swept, after), Views(fit, ls))
      && (rounds > 0 ==> Size(fit.lines) > cap && LastNeeded(fit, swept, cap))
      && (rounds < R.MAX_TRIM_ROUNDS ==> (total <= cap <==> R.Stuck(Views(fit, ls), R.DELETE_CHUNK) <= cap))
      && (total <= cap ==> R.Stuck(Views(fit, ls), R.DELETE_CHUNK) <= cap)
  {
    hide Sound, Collapsed, Views, Evict, Apart, SameRefs, Size, RefsOf, R.Rounds, R.NoEmptyRound, R.Stuck, R.Accounted,
      R.Total, R.Held, R.Survives, R.NearCap, LastNeeded;
    var swept := Evict(fit, evicted);
    EvictSound(fit, evicted);
    AllRows(fit, ls);
    SameRefsOf(after, ls);
    EvictKeys(fit, evicted);
    ViewsHold(swept, after);
    R.StoreWide(Views(fit, ls), cap, R.DELETE_CHUNK, R.MAX_TRIM_ROUNDS);
    if rounds > 0 {
      NearCapNeeded(fit, ls, swept, after, cap);
    }
  }

  // An eviction changes a row's bytes only.
  lemma EvictedRow(db: Db, gone: set<StoredLine>)
    ensures Evict(db, gone).containers.Keys == db.containers.Keys
    ensures forall id :: id in db.containers ==>
      Evict(db, gone).containers[id] == db.containers[id].(bytes := Evict(db, gone).containers[id].bytes)
  {
    hide Freed;
  }

  lemma EvictKeys(db: Db, gone: set<StoredLine>)
    ensures Evict(db, gone).containers.Keys == db.containers.Keys
  {}

  lemma NoEmptyLineLeft(db: Db, gone: set<StoredLine>)
    requires NoEmptyLine(db)
    ensures NoEmptyLine(Evict(db, gone))
  {
    hide Freed;
    forall i | 0 <= i < |Evict(db, gone).lines|
      ensures Evict(db, gone).lines[i].line.raw != ""
    {
      assert Evict(db, gone).lines[i] in db.lines;
    }
  }

  lemma StoredNonEmpty(db: Db, ids: set<int>)
    requires NoEmptyLine(db)
    ensures R.NonEmptyLines(Stored(db, ids))
  {
    hide LinesOf;
    LinesBelong(db, ids);
    forall k | 0 <= k < |LinesOf(db, ids)|
      ensures LinesOf(db, ids)[k].line.raw != ""
    {
      assert LinesOf(db, ids)[k] in db.lines;
    }
  }

  lemma NonEmptyPassed(before: seq<R.Aged>, fit: seq<R.Aged>, after: seq<R.Aged>, cap: nat)
    requires Passed(before, fit, cap) && R.NonEmptyLines(before) && R.SuffixOf(after, fit)
    ensures R.NewestFitting(before, cap, fit) && R.Sum(after) <= cap
  {
    hide R.Sum, R.NoEmptyChunk;
    R.NonEmptyLinesFit(before, cap, R.DELETE_CHUNK);
    R.SumSplit(fit, |fit| - |after|);
  }

  lemma PruneKeepsLines(db: Db, ids: set<int>)
    ensures Prune(db).lines == db.lines && Stored(Prune(db), ids) == Stored(db, ids)
  {}

  // A retention sweep over the database, without a purge in between: evictions that
  // add up to trimmed and then evicted. fit is the database after the per-container
  // phase, ls and after are the sweep's containers then and at the end. Every container
  // keeps its newest lines by (ts, rowid). Over lines that are not empty every container
  // ends at or under its cap, and the store at or under the total cap or out of rounds.
  // A row is gone exactly when it was marked removed and is left without a line.
  method Sweep(db: Db, perCap: nat, totalCap: nat)
    returns (
      db': Db, rounds: nat, ghost fit: Db, ghost ls: seq<Logical>, ghost after: seq<Logical>,
      ghost trimmed: set<StoredLine>, ghost evicted: set<StoredLine>)
    requires Sound(db)
    ensures fit == Evict(db, trimmed) && db' == Prune(Evict(fit, evicted))
    ensures forall id :: id in db'.containers <==>
      && id in db.containers
      && (db.containers[id].removed ==> exists r :: r in db'.lines && r.ref == id)
    ensures forall id :: id in db'.containers ==>
      db'.containers[id] == db.containers[id].(bytes := db'.containers[id].bytes)
    ensures Sound(fit) && Sound(db') && (Attributed(db) ==> Attributed(fit) && Attributed(db'))
    ensures forall host, name ::
      Passed(Stored(db, IdsNamed(db, host, name)), Stored(fit, IdsNamed(db, host, name)), perCap)
    ensures forall host, name ::
      R.SuffixOf(Stored(db', IdsNamed(db, host, name)), Stored(fit, IdsNamed(db, host, name)))
    ensures rounds == 0 ==> forall host, name ::
      Stored(db', IdsNamed(db, host, name)) == Stored(fit, IdsNamed(db, host, name))
    ensures rounds > 0 ==> Size(fit.lines) > totalCap && LastNeeded(fit, db', totalCap)
    ensures Collapsed(fit, ls, fit.containers.Keys) && rounds <= R.MAX_TRIM_ROUNDS
    ensures
      R.Progress(Views(Evict(fit, evicted), after), Size(db'.lines), R.MAX_TRIM_ROUNDS - rounds) ==
      R.Rounds(R.Progress(Views(fit, ls), Size(fit.lines), R.MAX_TRIM_ROUNDS), totalCap, R.DELETE_CHUNK)
    ensures rounds < R.MAX_TRIM_ROUNDS ==>
      (Size(db'.lines) <= totalCap <==> R.Stuck(Views(fit, ls), R.DELETE_CHUNK) <= totalCap)
    ensures Size(db'.lines) <= totalCap ==> R.Stuck(Views(fit, ls), R.DELETE_CHUNK) <= totalCap
    ensures NoEmptyLine(db) ==>
      && (forall host, name ::
            && R.NewestFitting(
                 Stored(db, IdsNamed(db, host, name)), perCap, Stored(fit, IdsNamed(db, host, name)))
            && R.Sum(Stored(db', IdsNamed(db, host, name))) <= perCap)
      && (Size(db'.lines) <= totalCap || rounds == 1000)
  {
    hide Sound, Attributed, Collapsed, Views, Evict, Prune, Apart, SameRefs, Size, Stored, IdsNamed, NoEmptyLine,
      RefsOf, Passed, LastNeeded, R.TrimmedTo, R.Rounds, R.NoEmptyRound, R.Stuck, R.Accounted, R.Total, R.Survives,
      R.AllNonEmpty, R.NonEmptyLines, R.NewestFitting, R.SuffixOf, R.Sum;
    var groups := LoadGroups(db);
    ViewsAccounted(db, groups);
    AllRows(db, groups);
    var trimmedDb, trimmedLs, total;
    trimmedDb, trimmedLs, total, trimmed := TrimEach(db, groups, perCap);
    fit, ls := trimmedDb, trimmedLs;
    FitCollapsed(db, groups, trimmed, ls, perCap);
    EvictSound(db, trimmed);
    var swept, sweptLs;
    swept, sweptLs, total, rounds, evicted := TrimStore(trimmedDb, trimmedLs, total, totalCap);
    after := sweptLs;
    SweptStore(fit, ls, evicted, after, total, rounds, totalCap);
    EvictSound(fit, evicted);
    PruneSound(swept);
    db' := Prune(swept);
    PruneExactly(swept);
    EvictedRow(db, trimmed);
    EvictedRow(fit, evicted);
    PrunedNeeded(fit, swept, totalCap);
    EvictNothing(fit);
    forall host, name
      ensures Passed(Stored(db, IdsNamed(db, host, name)), Stored(fit, IdsNamed(db, host, name)), perCap)
      ensures R.SuffixOf(Stored(db', IdsNamed(db, host, name)), Stored(fit, IdsNamed(db, host, name)))
      ensures rounds == 0 ==> Stored(db', IdsNamed(db, host, name)) == Stored(fit, IdsNamed(db, host, name))
    {
      PassedAt(db, groups, fit, ls, perCap, host, name);
      SurvivesAt(fit, ls, swept, after, host, name);
      SameNames(db, trimmed, host, name);
      PruneKeepsLines(swept, IdsNamed(db, host, name));
    }
    if NoEmptyLine(db) {
      NoEmptyLineLeft(db, trimmed);
      ViewsNonEmpty(fit, ls);
      R.NoneStuck(Views(fit, ls), R.DELETE_CHUNK);
      forall host, name
        ensures R.NewestFitting(Stored(db, IdsNamed(db, host, name)), perCap, Stored(fit, IdsNamed(db, host, name)))
        ensures R.Sum(Stored(db', IdsNamed(db, host, name))) <= perCap
      {
        StoredNonEmpty(db, IdsNamed(db, host, name));
        NonEmptyPassed(
          Stored(db, IdsNamed(db, host, name)), Stored(fit, IdsNamed(db, host, name)),
          Stored(db', IdsNamed(db, host, name)), perCap);
      }
    }
  }

  lemma PrunedNeeded(fit: Db, swept: Db, cap: nat)
    ensures Prune(swept).lines == swept.lines
    ensures LastNeeded(fit, swept, cap) ==> LastNeeded(fit, Prune(swept), cap)
  {
    hide IdsNamed, Size, Ages, LastNeededOf;
    if LastNeeded(fit, swept, cap) {
      var host, name :| LastNeededOf(
        Stored(fit, IdsNamed(fit, host, name)), Stored(swept, IdsNamed(fit, host, name)), Size(swept.lines), cap);
      PruneKeepsLines(swept, IdsNamed(fit, host, name));
    }
  }

  // ------------------------------------------------ a store the sweep leaves over a cap

  const STUCK_KEY := GenKey("host", "id")

  // A chunk of empty lines, then one-byte lines.
  function StuckLine(i: nat): Line {
    Line(i, 0, if i < R.DELETE_CHUNK then "" else "x")
  }

  function StuckDb(n: nat): (db: Db)
    ensures db.containers.Keys == {1} && |db.lines| == n
  {
    if n == 0 then Db(map[1 := NewGeneration(STUCK_KEY, "web", "")], [])
    else LogStore.Stored(StuckDb(n - 1), 1, StuckLine(n - 1), STUCK_KEY)
  }

  lemma {:induction false} StuckRows(n: nat)
    ensures forall i :: 0 <= i < n ==> StuckDb(n).lines[i] == StoredLine(1, StuckLine(i), STUCK_KEY)
    ensures StuckDb(n).containers[1].key == STUCK_KEY && StuckDb(n).containers[1].name == "web"
  {
    if n > 0 {
      StuckRows(n - 1);
    }
  }

  // It is filled by the writer's own inserts.
  lemma StuckInsert(n: nat)
    ensures var stored := InsertLine(StuckDb(n), 1, StuckLine(n), STUCK_KEY);
      stored.Some? && stored.value == StuckDb(n + 1)
  {
    hide StuckDb;
    StuckRows(n);
    assert StuckDb(n + 1) == LogStore.Stored(StuckDb(n), 1, StuckLine(n), STUCK_KEY) by {
      StuckNext(n);
    }
  }

  lemma StuckNext(n: nat)
    ensures StuckDb(n + 1) == LogStore.Stored(StuckDb(n), 1, StuckLine(n), STUCK_KEY)
  {}

  lemma {:induction false} StuckSound(n: nat)
    ensures Sound(StuckDb(n)) && Attributed(StuckDb(n))
  {
    hide Sound, StuckDb;
    if n == 0 {
      StuckEmpty();
    } else {
      StuckSound(n - 1);
      StuckInsert(n - 1);
      InsertLineSound(StuckDb(n - 1), 1, StuckLine(n - 1), STUCK_KEY);
    }
    StuckRows(n);
  }

  lemma StuckEmpty()
    ensures Sound(StuckDb(0))
  {}

  lemma {:induction false} OrderedAlready(lines: seq<StoredLine>)
    requires OldestFirst(lines)
    ensures Ordered(lines) == lines
  {
    hide Insert;
    if lines != [] {
      var init := lines[..|lines| - 1];
      OrderedAlready(init);
      InsertLast(init, lines[|lines| - 1]);
    }
  }

  function StuckStore(cap: nat): Db {
    StuckDb(R.DELETE_CHUNK + cap + 1)
  }

  lemma StuckStored(cap: nat)
    ensures Stored(StuckStore(cap), {1}) == R.StuckLines(cap, R.DELETE_CHUNK)
  {
    hide Keep, Ordered, StuckDb;
    var db := StuckStore(cap);
    StuckRows(R.DELETE_CHUNK + cap + 1);
    KeepRest(db.lines, 0, Outside({1}));
    assert db.lines[0..] == db.lines;
    OrderedAlready(db.lines);
  }

  lemma StuckNamed(cap: nat)
    ensures IdsNamed(StuckStore(cap), "host", "web") == {1}
  {
    hide StuckDb;
    StuckRows(R.DELETE_CHUNK + cap + 1);
  }

  // For every cap there is a store whose container ends its pass over that cap.
  lemma StuckContainer(cap: nat)
    ensures
      var db := StuckStore(cap);
      var lines := Stored(db, IdsNamed(db, "host", "web"));
      && Sound(db) && Attributed(db) && !R.NoEmptyChunk(lines, cap, R.DELETE_CHUNK)
      && forall fit :: Passed(lines, fit, cap) ==> R.Sum(fit) > cap
  {
    hide StuckStore, Stored, IdsNamed, R.StuckLines, R.Sum, R.NoEmptyChunk;
    StuckIsSound(cap);
    StuckNamed(cap);
    StuckStored(cap);
    R.EmptyChunkStopsPass(cap, R.DELETE_CHUNK);
  }

  lemma StuckIsSound(cap: nat)
    ensures Sound(StuckStore(cap)) && Attributed(StuckStore(cap))
  {
    StuckSound(R.DELETE_CHUNK + cap + 1);
  }

  // And as the total cap: the container fits its own larger cap, is written off in the
  // first round of the store-wide phase, and the phase ends with all bytes still there.
  lemma StuckPhase(cap: nat, perCap: nat)
    requires perCap > cap
    ensures
      var db, ls := StuckStore(cap), [Logical("host", "web", {1}, cap + 1)];
      var p := R.Progress(Views(db, ls), Size(db.lines), R.MAX_TRIM_ROUNDS);
      && Collapsed(db, ls, db.containers.Keys) && Size(db.lines) == cap + 1
      && Stored(db, {1}) == R.Trimmed(Stored(db, {1}), perCap, R.DELETE_CHUNK)
      && !R.NoEmptyRound(p, cap, R.DELETE_CHUNK) && R.Stuck(Views(db, ls), R.DELETE_CHUNK) == cap + 1
      && R.Rounds(p, cap, R.DELETE_CHUNK).total == cap + 1
      && R.Rounds(p, cap, R.DELETE_CHUNK).left == R.MAX_TRIM_ROUNDS - 1
  {
    hide StuckStore, Sound, Collapsed, Stored, Size, R.StuckLines, R.Sum, R.Trimmed, R.NoEmptyRound, R.Rounds, R.Stuck;
    var db, ls := StuckStore(cap), [Logical("host", "web", {1}, cap + 1)];
    StuckStored(cap);
    R.StuckBytes(cap, R.DELETE_CHUNK);
    R.TrimmedStep(Stored(db, {1}), perCap, R.DELETE_CHUNK);
    StuckCollapsed(cap);
    assert Views(db, ls) == [R.Group(Stored(db, {1}), cap + 1)];
    R.EmptyRoundStopsPhase(cap, R.DELETE_CHUNK, R.MAX_TRIM_ROUNDS);
  }

  lemma StuckCollapsed(cap: nat)
    ensures
      var db := StuckStore(cap);
      Collapsed(db, [Logical("host", "web", {1}, cap + 1)], db.containers.Keys) && Size(db.lines) == cap + 1
  {
    hide StuckDb, Keep, Ordered, Size, R.StuckLines, R.Sum, Ages;
    var db, ls := StuckStore(cap), [Logical("host", "web", {1}, cap + 1)];
    StuckRows(R.DELETE_CHUNK + cap + 1);
    StuckStored(cap);
    R.StuckBytes(cap, R.DELETE_CHUNK);
    SizeOrdered(Keep(db.lines, Outside({1})));
    SumOfAges(LinesOf(db, {1}));
    KeepRest(db.lines, 0, Outside({1}));
    assert db.lines[0..] == db.lines;
    assert IsFor(ls[0], db.containers[1]);
  }
}
