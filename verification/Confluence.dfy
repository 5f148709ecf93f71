// What committing leaves behind does not depend on how lines were batched, in
// which order they arrived, or how often they were sent.
module Confluence {
  import opened LogEntries
  import opened LogStore
  import opened Commit

  // The lines stored for one container.
  function Content(db: Db, key: GenKey): set<Line> {
    set i | 0 <= i < |db.lines| && db.lines[i].origin == key :: db.lines[i].line
  }

  // The lines a batch carries for one container.
  function Carried(batch: seq<Message>, key: GenKey): set<Line> {
    set i | 0 <= i < |batch| && batch[i].LineMsg? && batch[i].key == key :: batch[i].line
  }

  // ---------------------------------------------------------- content of a commit

  lemma ApplyContent(db: Db, tx: Tx, refs: map<GenKey, int>, msg: Message, newId: int, key: GenKey)
    requires Sound(tx.db) && Extends(db, tx.db, refs) && FoundValid(tx, refs) && Attributed(tx.db)
    requires Apply(tx, refs, msg, newId).Some?
    requires msg.LineMsg? && msg.key in refs ==> ValidRef(db, refs, msg.key)
    ensures
      Content(Apply(tx, refs, msg, newId).value.db, key)
      == Content(tx.db, key) + if msg.LineMsg? && msg.key == key then {msg.line} else {}
  {
    hide Sound, Upsert;
    ApplySound(db, tx, refs, msg, newId);
    var tx' := Apply(tx, refs, msg, newId).value;
    var ref := tx'.filed[|tx.filed|];
    var mid := tx.db;
    if msg.key !in refs && msg.key !in tx.found {
      UpsertSound(tx.db, msg.key, msg.name, msg.project, newId);
      mid := Upsert(tx.db, msg.key, msg.name, msg.project, newId).value.0;
    }
    assert mid.lines == tx.db.lines;
    if msg.LineMsg? {
      if Holds(mid.lines, ref, msg.line) {
        HeldLineIsOwn(tx.db, ref, msg.line);
        assert HasKey(tx'.db, ref, msg.key);
        assert tx'.db.lines == mid.lines;
      } else {
        LastLine(tx'.db, mid.lines, key);
      }
    } else {
      assert tx'.db.lines == mid.lines;
    }
  }

  lemma HeldLineIsOwn(db: Db, ref: int, line: Line)
    requires Sound(db) && Attributed(db) && Holds(db.lines, ref, line)
    ensures ref in db.containers && line in Content(db, db.containers[ref].key)
  {}

  lemma LastLine(db: Db, lines: seq<StoredLine>, key: GenKey)
    requires |db.lines| == |lines| + 1 && db.lines[..|lines|] == lines
    ensures
      var last := db.lines[|lines|];
      Content(db, key) == Content(db.(lines := lines), key) + if last.origin == key then {last.line} else {}
  {}

  lemma CarriedLast(batch: seq<Message>, key: GenKey)
    requires batch != []
    ensures
      var last := batch[|batch| - 1];
      Carried(batch, key)
      == Carried(batch[..|batch| - 1], key) + if last.LineMsg? && last.key == key then {last.line} else {}
  {}

  // A commit adds exactly the lines the batch carries for each container.
  lemma {:induction false} RunContent(
      db: Db, refs: map<GenKey, int>, batch: seq<Message>, ids: seq<int>, key: GenKey)
    requires |ids| == |batch| && Sound(db) && Attributed(db) && Run(db, refs, batch, ids).Some?
    requires CacheGood(db, refs, batch)
    ensures Content(Run(db, refs, batch, ids).value.db, key) == Content(db, key) + Carried(batch, key)
  {
    hide Sound, Apply, Attributed, Content, Carried, ValidRef;
    if batch == [] {
      assert Carried(batch, key) == {} by { NothingCarried(key); }
    } else {
      var n := |batch| - 1;
      assert CacheGood(db, refs, batch[..n]);
      RunContent(db, refs, batch[..n], ids[..n], key);
      RunSound(db, refs, batch[..n], ids[..n]);
      RunAttributed(db, refs, batch[..n], ids[..n]);
      ApplyContent(db, Run(db, refs, batch[..n], ids[..n]).value, refs, batch[n], ids[n], key);
      CarriedLast(batch, key);
    }
  }

  lemma NothingCarried(key: GenKey)
    ensures Carried([], key) == {}
  {}

  // ------------------------------------------------- bytes are those of the content

  ghost function SetBytes(lines: set<Line>): nat {
    if lines == {} then 0
    else
      var l :| l in lines;
      |l.raw| + SetBytes(lines - {l})
  }

  lemma {:induction false} SetBytesAdd(lines: set<Line>, x: Line)
    requires x !in lines
    ensures SetBytes(lines + {x}) == SetBytes(lines) + |x.raw|
    decreases |lines|
  {
    var all := lines + {x};
    var l :| l in all && SetBytes(all) == |l.raw| + SetBytes(all - {l});
    if l == x {
      assert all - {l} == lines;
    } else {
      assert all - {l} == (lines - {l}) + {x};
      SetBytesAdd(lines - {l}, x);
      SetBytesAdd(lines - {l}, l);
      assert (lines - {l}) + {l} == lines;
    }
  }

  // The lines of one row.
  function RowContent(lines: seq<StoredLine>, ref: int): set<Line> {
    set i | 0 <= i < |lines| && lines[i].ref == ref :: lines[i].line
  }

  lemma {:induction false} BytesOfRow(lines: seq<StoredLine>, ref: int)
    requires Distinct(lines)
    ensures Bytes(lines, ref) == SetBytes(RowContent(lines, ref))
  {
    if lines == [] {
      assert RowContent(lines, ref) == {};
    } else {
      var rest, last := lines[..|lines| - 1], lines[|lines| - 1];
      assert forall i :: 0 <= i < |rest| ==> rest[i] == lines[i];
      BytesOfRow(rest, ref);
      RowContentLast(lines, ref);
      var content := RowContent(rest, ref);
      if last.ref == ref {
        assert forall i :: 0 <= i < |rest| ==> !SameLine(lines[i], lines[|lines| - 1]);
        SetBytesAdd(content, last.line);
      } else {
        assert content + {} == content;
      }
    }
  }

  lemma RowContentLast(lines: seq<StoredLine>, ref: int)
    requires lines != []
    ensures
      var rest, last := lines[..|lines| - 1], lines[|lines| - 1];
      RowContent(lines, ref) == RowContent(rest, ref) + if last.ref == ref then {last.line} else {}
  {}

  lemma RowIsContainer(db: Db, id: int)
    requires Sound(db) && Attributed(db) && id in db.containers
    ensures RowContent(db.lines, id) == Content(db, db.containers[id].key)
  {}

  // stored_bytes is determined by the set of lines stored for the container.
  lemma BytesOfContent(db: Db, id: int)
    requires Sound(db) && Attributed(db) && id in db.containers
    ensures db.containers[id].bytes == SetBytes(Content(db, db.containers[id].key))
  {
    BytesOfRow(db.lines, id);
    RowIsContainer(db, id);
  }

  // ---------------------------------------------------------------- watermarks

  // Nothing has been evicted: what was ever stored is still there.
  ghost predicate NothingEvicted(db: Db) {
    forall id :: id in db.containers ==> db.containers[id].seen == Content(db, db.containers[id].key)
  }

  lemma UpsertKeepsAll(db: Db, key: GenKey, name: string, project: string, newId: int)
    requires Sound(db) && Attributed(db) && NothingEvicted(db) && Upsert(db, key, name, project, newId).Some?
    ensures NothingEvicted(Upsert(db, key, name, project, newId).value.0)
    ensures Attributed(Upsert(db, key, name, project, newId).value.0)
  {}

  lemma FileKeepsAll(tx: Tx, ref: int, msg: Message)
    requires Sound(tx.db) && Attributed(tx.db) && NothingEvicted(tx.db) && File(tx, ref, msg).Some?
    requires msg.LineMsg? ==> HasKey(tx.db, ref, msg.key)
    ensures NothingEvicted(File(tx, ref, msg).value.db)
  {
    hide MarksExact, Bytes, Holds;
    var db' := File(tx, ref, msg).value.db;
    if msg.LineMsg? && db' != tx.db {
      forall k | k in db'.containers ensures db'.containers[k].seen == Content(db', db'.containers[k].key) {
        LastLine(db', tx.db.lines, db'.containers[k].key);
        assert Content(db'.(lines := tx.db.lines), db'.containers[k].key) == Content(tx.db, db'.containers[k].key);
      }
    } else {
      forall k | k in db'.containers ensures db'.containers[k].seen == Content(db', db'.containers[k].key) {
        assert Content(db', db'.containers[k].key) == Content(tx.db, db'.containers[k].key);
      }
    }
  }

  lemma ApplyKeepsAll(db: Db, tx: Tx, refs: map<GenKey, int>, msg: Message, newId: int)
    requires Sound(tx.db) && Extends(db, tx.db, refs) && FoundValid(tx, refs) && Attributed(tx.db)
    requires Apply(tx, refs, msg, newId).Some?
    requires msg.LineMsg? && msg.key in refs ==> ValidRef(db, refs, msg.key)
    requires NothingEvicted(tx.db)
    ensures NothingEvicted(Apply(tx, refs, msg, newId).value.db)
  {
    hide Sound, Upsert, File, NothingEvicted, Attributed;
    if msg.key in refs {
      FileKeepsAll(tx, refs[msg.key], msg);
    } else if msg.key in tx.found {
      FileKeepsAll(tx, tx.found[msg.key], msg);
    } else {
      UpsertSound(tx.db, msg.key, msg.name, msg.project, newId);
      UpsertKeepsAll(tx.db, msg.key, msg.name, msg.project, newId);
      var (db', id) := Upsert(tx.db, msg.key, msg.name, msg.project, newId).value;
      FileKeepsAll(tx.(db := db', found := tx.found[msg.key := id]), id, msg);
    }
  }

  // A watermark is determined by the lines it has seen.
  lemma MarkUnique(a: int, b: int, seen: set<Line>, stderr: bool)
    requires MarkOf(a, seen, stderr) && MarkOf(b, seen, stderr)
    ensures a == b
  {}

  lemma {:induction false} RunKeepsAll(db: Db, refs: map<GenKey, int>, batch: seq<Message>, ids: seq<int>)
    requires |ids| == |batch| && Sound(db) && Attributed(db) && Run(db, refs, batch, ids).Some?
    requires CacheGood(db, refs, batch) && NothingEvicted(db)
    ensures NothingEvicted(Run(db, refs, batch, ids).value.db)
  {
    hide Sound, Apply, Attributed, NothingEvicted, ValidRef;
    if batch != [] {
      var n := |batch| - 1;
      assert CacheGood(db, refs, batch[..n]);
      RunKeepsAll(db, refs, batch[..n], ids[..n]);
      RunSound(db, refs, batch[..n], ids[..n]);
      RunAttributed(db, refs, batch[..n], ids[..n]);
      ApplyKeepsAll(db, Run(db, refs, batch[..n], ids[..n]).value, refs, batch[n], ids[n]);
    }
  }

  // ---------------------------------------------------------------- confluence

  // A committed batch: the cache it ran with, its messages, the ids it was handed.
  datatype Committed = Committed(refs: map<GenKey, int>, batch: seq<Message>, ids: seq<int>)

  // The database after committing batches one after another from an empty one.
  ghost predicate CommitsTo(commits: seq<Committed>, db: Db) {
    if commits == [] then db == Db(map[], [])
    else
      var last := commits[|commits| - 1];
      exists before ::
        && CommitsTo(commits[..|commits| - 1], before)
        && |last.ids| == |last.batch|
        && CacheGood(before, last.refs, last.batch)
        && Run(before, last.refs, last.batch, last.ids).Some?
        && db == Run(before, last.refs, last.batch, last.ids).value.db
  }

  function AllCarried(commits: seq<Committed>, key: GenKey): set<Line> {
    if commits == [] then {}
    else AllCarried(commits[..|commits| - 1], key) + Carried(commits[|commits| - 1].batch, key)
  }

  // The stored rows are exactly the lines sent, each once.
  lemma {:induction false} StoredIsCarried(commits: seq<Committed>, db: Db)
    requires CommitsTo(commits, db)
    ensures Sound(db) && Attributed(db) && NothingEvicted(db)
    ensures forall key :: Content(db, key) == AllCarried(commits, key)
  {
    if commits != [] {
      var last := commits[|commits| - 1];
      var before :| CommitsTo(commits[..|commits| - 1], before)
        && |last.ids| == |last.batch|
        && CacheGood(before, last.refs, last.batch)
        && Run(before, last.refs, last.batch, last.ids).Some?
        && db == Run(before, last.refs, last.batch, last.ids).value.db;
      StoredIsCarried(commits[..|commits| - 1], before);
      StoredStep(before, last, db);
    }
  }

  lemma StoredStep(before: Db, last: Committed, db: Db)
    requires Sound(before) && Attributed(before) && NothingEvicted(before)
    requires |last.ids| == |last.batch| && CacheGood(before, last.refs, last.batch)
    requires Run(before, last.refs, last.batch, last.ids).Some?
    requires db == Run(before, last.refs, last.batch, last.ids).value.db
    ensures Sound(db) && Attributed(db) && NothingEvicted(db)
    ensures forall key :: Content(db, key) == Content(before, key) + Carried(last.batch, key)
  {
    hide Sound, Attributed, NothingEvicted, Run, CacheGood, Content, Carried;
    RunSound(before, last.refs, last.batch, last.ids);
    RunAttributed(before, last.refs, last.batch, last.ids);
    RunKeepsAll(before, last.refs, last.batch, last.ids);
    forall key ensures Content(db, key) == Content(before, key) + Carried(last.batch, key) {
      RunContent(before, last.refs, last.batch, last.ids, key);
    }
  }

  // Two histories that sent the same lines per container, in whatever batches,
  // order and multiplicity, agree on rows, stored bytes and watermarks.
  lemma Confluent(cs: seq<Committed>, a: Db, ds: seq<Committed>, b: Db, key: GenKey)
    requires CommitsTo(cs, a) && CommitsTo(ds, b)
    requires AllCarried(cs, key) == AllCarried(ds, key)
    ensures Content(a, key) == Content(b, key)
    ensures Known(a, key) && Known(b, key) ==>
      var g, h := a.containers[IdOf(a, key)], b.containers[IdOf(b, key)];
      g.bytes == h.bytes && g.stdoutWM == h.stdoutWM && g.stderrWM == h.stderrWM
  {
    hide CommitsTo, Content, AllCarried;
    StoredIsCarried(cs, a);
    StoredIsCarried(ds, b);
    if Known(a, key) && Known(b, key) {
      var i, j := IdOf(a, key), IdOf(b, key);
      BytesOfContent(a, i);
      BytesOfContent(b, j);
      MarkUnique(a.containers[i].stdoutWM, b.containers[j].stdoutWM, Content(a, key), false);
      MarkUnique(a.containers[i].stderrWM, b.containers[j].stderrWM, Content(a, key), true);
    }
  }
}
