// The store's own code for committing a batch and purging a container, over the
// tables it updates in place.
module StoreWriter {
  import opened LogEntries
  import opened LogStore
  import opened Commit
  import opened Writers

  // What a transaction adds up per generation and applies once at its end.
  datatype Agg = Agg(bytes: int, stdoutWM: int, stderrWM: int, lines: set<Line>)

  function Settled(g: Generation, a: Agg): Generation {
    g.(bytes := g.bytes + a.bytes,
       stdoutWM := Max(g.stdoutWM, a.stdoutWM),
       stderrWM := Max(g.stderrWM, a.stderrWM),
       seen := g.seen + a.lines)
  }

  function Settle(containers: map<int, Generation>, aggs: map<int, Agg>): map<int, Generation> {
    map id | id in containers :: if id in aggs then Settled(containers[id], aggs[id]) else containers[id]
  }

  function Add(a: Agg, line: Line): Agg {
    Agg(a.bytes + |line.raw|,
        if line.stream == STDERR then a.stdoutWM else Max(a.stdoutWM, line.tsNS),
        if line.stream == STDERR then Max(a.stderrWM, line.tsNS) else a.stderrWM,
        a.lines + {line})
  }

  const NO_AGG := Agg(0, 0, 0, {})

  // Marks never fall below zero, which is why an untouched stream's zero is neutral.
  ghost predicate MarksNatural(containers: map<int, Generation>) {
    forall id :: id in containers ==> containers[id].stdoutWM >= 0 && containers[id].stderrWM >= 0
  }

  // Crediting a line at once or through the aggregate comes to the same row.
  lemma AddSettles(containers: map<int, Generation>, aggs: map<int, Agg>, ref: int, line: Line)
    requires ref in containers && MarksNatural(containers)
    ensures
      var a := if ref in aggs then aggs[ref] else NO_AGG;
      Settle(containers, aggs[ref := Add(a, line)])
      == Settle(containers, aggs)[ref := Credit(Settle(containers, aggs)[ref], line)]
  {
    var a := if ref in aggs then aggs[ref] else NO_AGG;
    var g := containers[ref];
    assert g.seen + (a.lines + {line}) == (g.seen + a.lines) + {line};
    assert g.seen + {} == g.seen;
  }

  lemma ChangeSettles(containers: map<int, Generation>, aggs: map<int, Agg>, id: int, name: string, project: string)
    requires id in containers
    ensures
      Settle(containers[id := Named(containers[id], name, project)], aggs)
      == Settle(containers, aggs)[id := Named(Settle(containers, aggs)[id], name, project)]
  {}

  lemma ExcludeSettles(containers: map<int, Generation>, aggs: map<int, Agg>, id: int, reason: string)
    requires id in containers
    ensures
      Settle(containers[id := containers[id].(reason := reason)], aggs)
      == Settle(containers, aggs)[id := Settle(containers, aggs)[id].(reason := reason)]
  {}

  lemma SettleKeys(containers: map<int, Generation>, aggs: map<int, Agg>)
    ensures Settle(containers, aggs).Keys == containers.Keys
  {}

  lemma NotKnown(containers: map<int, Generation>, aggs: map<int, Agg>, lines: seq<StoredLine>, key: GenKey)
    requires !exists k :: k in containers && containers[k].key == key
    ensures !Known(Db(Settle(containers, aggs), lines), key)
  {}

  lemma InsertSettles(containers: map<int, Generation>, aggs: map<int, Agg>, id: int, g: Generation)
    requires id !in aggs
    ensures Settle(containers[id := g], aggs) == Settle(containers, aggs)[id := g]
  {}

  lemma RunPrefix(db: Db, refs: map<GenKey, int>, batch: seq<Message>, ids: seq<int>)
    requires |ids| == |batch| && batch != []
    ensures Run(db, refs, batch[..|batch| - 1], ids[..|batch| - 1]).None? ==> Run(db, refs, batch, ids).None?
  {}

  lemma {:induction false} RunFails(db: Db, refs: map<GenKey, int>, batch: seq<Message>, ids: seq<int>, n: nat)
    requires |ids| == |batch| && n <= |batch| && Run(db, refs, batch[..n], ids[..n]).None?
    ensures Run(db, refs, batch, ids).None?
    decreases |batch|
  {
    if n == |batch| {
      assert batch[..n] == batch && ids[..n] == ids;
    } else {
      hide Apply, Run;
      var m := |batch| - 1;
      assert batch[..m][..n] == batch[..n] && ids[..m][..n] == ids[..n];
      RunFails(db, refs, batch[..m], ids[..m], n);
      RunPrefix(db, refs, batch, ids);
    }
  }

  lemma MarkAllSnoc(gaps: map<GenKey, int>, batch: seq<Message>, n: nat)
    requires n <= |batch|
    ensures MarkAll(gaps, batch[..n]) == if n == 0 then gaps else Mark(MarkAll(gaps, batch[..n - 1]), batch[n - 1])
  {
    if n > 0 {
      assert batch[..n][..n - 1] == batch[..n - 1];
    }
  }

  // Every line of the batch has a gap at or before it, gaps only move back, and each is
  // an old one or a line of the batch.
  lemma {:induction false} MarkAllGaps(gaps: map<GenKey, int>, batch: seq<Message>)
    ensures
      var after := MarkAll(gaps, batch);
      && (forall i :: 0 <= i < |batch| && batch[i].LineMsg? ==>
            batch[i].key in after && after[batch[i].key] <= batch[i].line.tsNS)
      && (forall key :: key in gaps ==> key in after && after[key] <= gaps[key])
      && (forall key :: key in after ==>
            || (key in gaps && after[key] == gaps[key])
            || (exists i :: 0 <= i < |batch| && batch[i].LineMsg? && batch[i].key == key
                  && after[key] == batch[i].line.tsNS))
  {
    if batch != [] {
      var n := |batch| - 1;
      MarkAllGaps(gaps, batch[..n]);
      assert forall i :: 0 <= i < n ==> batch[..n][i] == batch[i];
    }
  }

  class Store {
    var containers: map<int, Generation>
    var lines: seq<StoredLine>
    var refs: map<GenKey, int>
    var invalidated: set<GenKey>
    var gaps: map<GenKey, int>

    function Database(): Db
      reads this
    {
      Db(containers, lines)
    }

    constructor ()
      ensures Database() == Db(map[], []) && refs == map[] && invalidated == {} && gaps == map[]
    {
      containers, lines, refs, invalidated, gaps := map[], [], map[], {}, map[];
    }

    method MarkGap(key: GenKey, tsNS: int)
      modifies this`gaps
      ensures gaps == old(gaps)[key := if key in old(gaps) && old(gaps)[key] <= tsNS then old(gaps)[key] else tsNS]
    {
      if key !in gaps || tsNS < gaps[key] {
        gaps := gaps[key := tsNS];
      }
    }

    // A batch that could not be committed leaves a gap at or before each of its lines.
    method MarkBatchGaps(batch: seq<Message>)
      modifies this`gaps
      ensures gaps == MarkAll(old(gaps), batch)
      ensures forall i :: 0 <= i < |batch| && batch[i].LineMsg? ==>
        batch[i].key in gaps && gaps[batch[i].key] <= batch[i].line.tsNS
      ensures forall key :: key in old(gaps) ==> key in gaps && gaps[key] <= old(gaps)[key]
      ensures forall key :: key in gaps ==>
        || (key in old(gaps) && gaps[key] == old(gaps)[key])
        || (exists i :: 0 <= i < |batch| && batch[i].LineMsg? && batch[i].key == key && gaps[key] == batch[i].line.tsNS)
    {
      hide MarkAll;
      MarkAllSnoc(gaps, batch, 0);
      for n := 0 to |batch|
        invariant gaps == MarkAll(old(gaps), batch[..n])
      {
        MarkAllSnoc(old(gaps), batch, n + 1);
        if batch[n].LineMsg? {
          MarkGap(batch[n].key, batch[n].line.tsNS);
        }
      }
      MarkAllGaps(old(gaps), batch);
      assert batch[..|batch|] == batch;
    }

    // One batch in one transaction. begins and commits say whether BEGIN and the
    // final COMMIT succeed; a failed statement rolls everything back. Once the
    // transaction began the writer has dropped the purged ids from its cache, and a
    // batch that fails marks its gaps.
    method CommitBatch(batch: seq<Message>, ids: seq<int>, begins: bool, commits: bool) returns (ok: bool)
      requires |ids| == |batch| && Sound(Database())
      modifies this
      ensures Sound(Database()) && invalidated == if begins then {} else old(invalidated)
      ensures
        var cache := if begins then old(refs) - old(invalidated) else old(refs);
        var run := Run(old(Database()), cache, batch, ids);
        && ok == (begins && commits && run.Some?)
        && (ok ==> Database() == run.value.db && refs == cache + run.value.found && gaps == old(gaps))
        && (!ok ==> Database() == old(Database()) && refs == cache && gaps == MarkAll(old(gaps), batch))
        && (!ok ==> forall i :: 0 <= i < |batch| && batch[i].LineMsg? ==>
              batch[i].key in gaps && gaps[batch[i].key] <= batch[i].line.tsNS)
    {
      if !begins {
        MarkBatchGaps(batch);
        return false;
      }
      refs := refs - invalidated;
      invalidated := {};
      var done, txContainers, txLines, found := Transact(batch, ids);
      if !done || !commits {
        MarkBatchGaps(batch);
        return false;
      }
      RunSound(Database(), refs, batch, ids);
      containers, lines := txContainers, txLines;
      refs := refs + found;
      return true;
    }

    // The statements of the transaction, on its own view of the tables.
    method Transact(batch: seq<Message>, ids: seq<int>)
      returns (done: bool, txContainers: map<int, Generation>, txLines: seq<StoredLine>, found: map<GenKey, int>)
      requires |ids| == |batch| && Sound(Database())
      ensures
        var run := Run(Database(), refs, batch, ids);
        && done == run.Some?
        && (done ==> run.value.db == Db(txContainers, txLines) && run.value.found == found)
    {
      txContainers, txLines, found := containers, lines, map[];
      var aggs: map<int, Agg> := map[];
      assert Settle(txContainers, aggs) == txContainers;
      assert batch[..0] == [] && ids[..0] == [];
      for n := 0 to |batch|
        invariant Run(Database(), refs, batch[..n], ids[..n]).Some?
        invariant
          var tx := Run(Database(), refs, batch[..n], ids[..n]).value;
          && tx.db == Db(Settle(txContainers, aggs), txLines) && tx.found == found
        invariant Sound(Db(Settle(txContainers, aggs), txLines)) && MarksNatural(txContainers)
        invariant aggs.Keys <= txContainers.Keys
      {
        done, txContainers, txLines, found, aggs := OneMessage(batch[n], ids[n], txContainers, txLines, found, aggs,
          Run(Database(), refs, batch[..n], ids[..n]).value);
        assert batch[..n + 1][..n] == batch[..n] && ids[..n + 1][..n] == ids[..n];
        assert Run(Database(), refs, batch[..n + 1], ids[..n + 1])
            == Apply(Run(Database(), refs, batch[..n], ids[..n]).value, refs, batch[n], ids[n]);
        if !done {
          RunFails(Database(), refs, batch, ids, n + 1);
          return;
        }
        RunSound(Database(), refs, batch[..n + 1], ids[..n + 1]);
      }
      assert batch[..|batch|] == batch && ids[..|ids|] == ids;
      txContainers := ApplyAggregates(txContainers, aggs);
      done := true;
    }

    // The row a message belongs to: cached, found earlier in this transaction, or
    // upserted now.
    method Resolve(
        msg: Message, id: int, c0: map<int, Generation>, ghost l0: seq<StoredLine>, f0: map<GenKey, int>,
        ghost aggs: map<int, Agg>)
      returns (done: bool, ref: int, c: map<int, Generation>, f: map<GenKey, int>)
      requires Sound(Db(Settle(c0, aggs), l0)) && MarksNatural(c0) && aggs.Keys <= c0.Keys
      ensures msg.key in refs ==> done && ref == refs[msg.key] && c == c0 && f == f0
      ensures msg.key !in refs && msg.key in f0 ==> done && ref == f0[msg.key] && c == c0 && f == f0
      ensures msg.key !in refs && msg.key !in f0 ==>
        var r := Upsert(Db(Settle(c0, aggs), l0), msg.key, msg.name, msg.project, id);
        && done == r.Some?
        && (done ==> r.value == (Db(Settle(c, aggs), l0), ref) && f == f0[msg.key := ref])
      ensures done ==> MarksNatural(c) && aggs.Keys <= c.Keys
    {
      hide Sound, MarksExact, Distinct, Bytes;
      c, f, done, ref := c0, f0, true, id;
      ghost var db := Db(Settle(c0, aggs), l0);
      if msg.key in refs {
        ref := refs[msg.key];
      } else if msg.key in f {
        ref := f[msg.key];
      } else if exists k :: k in c && c[k].key == msg.key {
        ref :| ref in c && c[ref].key == msg.key;
        assert db.containers[ref].key == msg.key;
        SoundParts(db);
        ChangeSettles(c, aggs, ref, msg.name, msg.project);
        c := c[ref := Named(c[ref], msg.name, msg.project)];
        f := f[msg.key := ref];
      } else if id in c {
        NotKnown(c, aggs, l0, msg.key);
        done := false;
      } else {
        NotKnown(c, aggs, l0, msg.key);
        InsertSettles(c, aggs, id, NewGeneration(msg.key, msg.name, msg.project));
        c := c[id := NewGeneration(msg.key, msg.name, msg.project)];
        f := f[msg.key := id];
      }
    }

    // Resolve the message's generation, then store its line.
    method OneMessage(
        msg: Message, id: int, c0: map<int, Generation>, l0: seq<StoredLine>, f0: map<GenKey, int>, a0: map<int, Agg>,
        ghost tx: Tx)
      returns (done: bool, c: map<int, Generation>, l: seq<StoredLine>, f: map<GenKey, int>, aggs: map<int, Agg>)
      requires tx.db == Db(Settle(c0, a0), l0) && tx.found == f0
      requires Sound(tx.db) && MarksNatural(c0) && a0.Keys <= c0.Keys
      ensures done == Apply(tx, refs, msg, id).Some?
      ensures done ==>
        var tx' := Apply(tx, refs, msg, id).value;
        tx'.db == Db(Settle(c, aggs), l) && tx'.found == f && MarksNatural(c) && aggs.Keys <= c.Keys
    {
      hide Sound, Upsert, Settle, Settled, Credit, Add;
      var ref;
      l, aggs := l0, a0;
      done, ref, c, f := Resolve(msg, id, c0, l0, f0, a0);
      if !done {
        return;
      }
      SettleKeys(c, aggs);
      match msg
      case DoneMsg(_, _, _, reason) =>
        if reason != "" && ref in c {
          ExcludeSettles(c, aggs, ref, reason);
          c := c[ref := c[ref].(reason := reason)];
        }
      case LineMsg(key, _, _, line) =>
        var held := exists i :: 0 <= i < |l| && l[i].ref == ref && l[i].line == line;
        assert held == Holds(l, ref, line);
        if !held && ref !in c {
          done := false;
        } else if !held {
          AddSettles(c, aggs, ref, line);
          aggs := aggs[ref := Add(if ref in aggs then aggs[ref] else NO_AGG, line)];
          l := l + [StoredLine(ref, line, key)];
        }
    }

    // Purges the logical container (host, name). The purged keys are published, and
    // their gaps forgotten, before the commit and whether or not it succeeds.
    method DeleteContainer(host: string, name: string, commits: bool) returns (found: bool, deleted: int)
      requires Sound(Database())
      modifies this
      ensures Sound(Database()) && refs == old(refs)
      ensures
        var ids := IdsNamed(old(Database()), host, name);
        && found == (ids != {})
        && invalidated == old(invalidated) + KeysOf(old(Database()), ids)
        && gaps == old(gaps) - KeysOf(old(Database()), ids)
        && Database() == (if found && commits then Delete(old(Database()), ids) else old(Database()))
        && (found && commits ==> deleted == |old(lines)| - |lines|)
    {
      var ids := set id | id in containers && containers[id].key.host == host && containers[id].name == name;
      var keys := set id | id in ids :: containers[id].key;
      assert ids == IdsNamed(Database(), host, name) && keys == KeysOf(Database(), ids);
      if ids == {} {
        assert keys == {} && gaps - keys == gaps && invalidated + keys == invalidated;
        return false, 0;
      }
      var kept := Keep(lines, (r: StoredLine) => r.ref in ids);
      found, deleted := true, |lines| - |kept|;
      invalidated := invalidated + keys;
      gaps := gaps - keys;
      if commits {
        DeleteSound(Database(), ids);
        containers, lines := containers - ids, kept;
      }
    }

    // UPDATE containers SET ... WHERE id = ref, once per touched generation.
    method ApplyAggregates(c0: map<int, Generation>, aggs: map<int, Agg>) returns (c: map<int, Generation>)
      ensures c == Settle(c0, aggs)
    {
      c := c0;
      var todo := aggs.Keys;
      while exists ref :: ref in todo
        invariant todo <= aggs.Keys
        invariant c.Keys == c0.Keys
        invariant forall id :: id in c0 ==>
          c[id] == if id in aggs && id !in todo then Settled(c0[id], aggs[id]) else c0[id]
        decreases |todo|
      {
        var ref :| ref in todo;
        todo := todo - {ref};
        if ref in c {
          c := c[ref := Settled(c[ref], aggs[ref])];
        }
      }
      SettleKeys(c0, aggs);
      assert forall id :: id in c0 ==> id !in todo && c[id] == Settle(c0, aggs)[id];
    }
  }
}
