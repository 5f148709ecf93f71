// Everything that writes the log database, interleaved: the single batch writer
// with its id cache, purges, metadata upserts, eviction and pruning.
module Writers {
  import opened LogEntries
  import opened LogStore
  import opened Commit

  // -------------------------------------------------------- deleting statements

  function Keep(lines: seq<StoredLine>, gone: StoredLine -> bool): (kept: seq<StoredLine>)
    ensures forall i :: 0 <= i < |kept| ==> kept[i] in lines && !gone(kept[i])
  {
    if lines == [] then []
    else
      var last := lines[|lines| - 1];
      var rest := lines[..|lines| - 1];
      assert forall l :: l in rest ==> l in lines;
      Keep(rest, gone) + if gone(last) then [] else [last]
  }

  lemma KeepSnoc(s: seq<StoredLine>, x: StoredLine, gone: StoredLine -> bool)
    ensures Keep(s + [x], gone) == Keep(s, gone) + if gone(x) then [] else [x]
  {
    assert (s + [x])[..|s|] == s;
  }

  lemma BytesSnoc(lines: seq<StoredLine>, last: StoredLine, ref: int)
    ensures Bytes(lines + [last], ref) == Bytes(lines, ref) + if last.ref == ref then |last.line.raw| else 0
  {}

  lemma {:induction false} KeepBytes(lines: seq<StoredLine>, gone: StoredLine -> bool, ref: int)
    ensures Bytes(lines, ref) == Bytes(Keep(lines, gone), ref) + Bytes(Keep(lines, r => !gone(r)), ref)
  {
    var dropped := (r: StoredLine) => !gone(r);
    if lines != [] {
      var rest, last := lines[..|lines| - 1], lines[|lines| - 1];
      KeepBytes(rest, gone, ref);
      SameKeep(rest, dropped, r => !gone(r));
      if gone(last) {
        BytesSnoc(Keep(rest, dropped), last, ref);
        assert Keep(lines, gone) == Keep(rest, gone) && Keep(lines, dropped) == Keep(rest, dropped) + [last];
      } else {
        BytesSnoc(Keep(rest, gone), last, ref);
        assert Keep(lines, dropped) == Keep(rest, dropped) && Keep(lines, gone) == Keep(rest, gone) + [last];
      }
    }
    SameKeep(lines, dropped, r => !gone(r));
  }

  lemma {:induction false} KeepDistinct(lines: seq<StoredLine>, gone: StoredLine -> bool)
    requires Distinct(lines)
    ensures Distinct(Keep(lines, gone))
  {
    if lines != [] {
      var rest, last := lines[..|lines| - 1], lines[|lines| - 1];
      KeepDistinct(rest, gone);
      var kept := Keep(rest, gone);
      forall i | 0 <= i < |kept| ensures !SameLine(kept[i], last) {
        var m :| 0 <= m < |rest| && rest[m] == kept[i];
        assert !SameLine(lines[m], lines[|lines| - 1]);
      }
    }
  }

  // DELETE of whole generations and of their lines.
  function Delete(db: Db, ids: set<int>): Db {
    Db(db.containers - ids, Keep(db.lines, (r: StoredLine) => r.ref in ids))
  }

  // The bytes of a row's evicted lines, as the sweep adds them up.
  function Freed(db: Db, evicted: set<StoredLine>, id: int): nat {
    Bytes(Keep(db.lines, r => r !in evicted), id)
  }

  // DELETE of lines, with stored_bytes adjusted relative to its current value.
  function Evict(db: Db, evicted: set<StoredLine>): Db {
    Db(map id | id in db.containers ::
         db.containers[id].(bytes := Max(0, db.containers[id].bytes - Freed(db, evicted, id))),
       Keep(db.lines, r => r in evicted))
  }

  // Rows whose container is gone from the engine and that hold no line.
  function Empty(db: Db): set<int> {
    set id | id in db.containers && db.containers[id].removed && forall l :: l in db.lines ==> l.ref != id
  }

  function Prune(db: Db): Db {
    db.(containers := db.containers - Empty(db))
  }

  // Pruning deletes exactly the rows marked removed that no line refers to.
  lemma PruneExactly(db: Db)
    ensures Prune(db).lines == db.lines
    ensures forall id :: id in Prune(db).containers <==>
      && id in db.containers
      && (db.containers[id].removed ==> exists r :: r in db.lines && r.ref == id)
    ensures forall id :: id in Prune(db).containers ==> Prune(db).containers[id] == db.containers[id]
  {}

  lemma KeepsRows(db: Db, gone: StoredLine -> bool)
    requires Sound(db)
    ensures
      var lines := Keep(db.lines, gone);
      && NoDuplicates(db.(lines := lines))
      && forall i :: 0 <= i < |lines| ==>
           lines[i].ref in db.containers && lines[i].line in db.containers[lines[i].ref].seen
  {
    KeepDistinct(db.lines, gone);
  }

  lemma DeleteSound(db: Db, ids: set<int>)
    requires Sound(db)
    ensures Sound(Delete(db, ids)) && (Attributed(db) ==> Attributed(Delete(db, ids)))
  {
    var gone := (r: StoredLine) => r.ref in ids;
    var db' := Delete(db, ids);
    KeepsRows(db, gone);
    forall id | id in db'.containers ensures db'.containers[id].bytes == Bytes(db'.lines, id) {
      KeepBytes(db.lines, gone, id);
      NoBytesIn(Keep(db.lines, r => !gone(r)), id);
    }
    forall i | 0 <= i < |db'.lines| && Attributed(db)
      ensures db'.containers[db'.lines[i].ref].key == db'.lines[i].origin
    {
      assert db'.lines[i] in db.lines;
    }
  }

  function OtherThan(ref: int): StoredLine -> bool {
    (r: StoredLine) => r.ref != ref
  }

  // A purge leaves every other generation's row and lines as they are, in order.
  lemma DeleteLeavesOthers(db: Db, ids: set<int>, ref: int)
    requires ref !in ids
    ensures Keep(Delete(db, ids).lines, OtherThan(ref)) == Keep(db.lines, OtherThan(ref))
    ensures forall r :: r in Delete(db, ids).lines ==> r in db.lines && r.ref !in ids
    ensures ref in db.containers ==> ref in Delete(db, ids).containers
    ensures ref in db.containers ==> Delete(db, ids).containers[ref] == db.containers[ref]
  {
    KeepWeaker(db.lines, (r: StoredLine) => r.ref in ids, OtherThan(ref));
  }

  lemma {:induction false} KeepWeaker(lines: seq<StoredLine>, f: StoredLine -> bool, g: StoredLine -> bool)
    requires forall r :: f(r) ==> g(r)
    ensures Keep(Keep(lines, f), g) == Keep(lines, g)
  {
    if lines != [] {
      var rest, last := lines[..|lines| - 1], lines[|lines| - 1];
      assert lines == rest + [last];
      KeepWeaker(rest, f, g);
      KeepSnoc(rest, last, f);
      KeepSnoc(rest, last, g);
      KeepSnoc(Keep(rest, f), last, g);
      assert Keep(rest, f) + [] == Keep(rest, f) && Keep(rest, g) + [] == Keep(rest, g);
    }
  }

  lemma EvictBytes(db: Db, evicted: set<StoredLine>, id: int)
    ensures Bytes(db.lines, id) == Bytes(Evict(db, evicted).lines, id) + Freed(db, evicted, id)
  {
    var gone := (r: StoredLine) => r in evicted;
    KeepBytes(db.lines, gone, id);
    SameKeep(db.lines, gone, r => r in evicted);
    SameKeep(db.lines, r => !gone(r), r => r !in evicted);
  }

  lemma MarksIgnoreBytes(g: Generation, bytes: int)
    ensures MarksExact(g) <==> MarksExact(g.(bytes := bytes))
  {}

  // Eviction frees exactly what the rows held: the clamp at zero never takes effect.
  lemma EvictSound(db: Db, evicted: set<StoredLine>)
    requires Sound(db)
    ensures Sound(Evict(db, evicted)) && (Attributed(db) ==> Attributed(Evict(db, evicted)))
    ensures forall id :: id in db.containers ==>
      Evict(db, evicted).containers[id].bytes == db.containers[id].bytes - Freed(db, evicted, id)
  {
    hide Sound, Freed, Evict, Attributed, ForeignKeys, UniqueKeys, NoDuplicates, Watermarks;
    var db' := Evict(db, evicted);
    EvictRows(db, evicted);
    EvictBytesExact(db, evicted);
    AllSound(db');
    if Attributed(db) {
      EvictAttributed(db, evicted);
    }
  }

  lemma EvictRows(db: Db, evicted: set<StoredLine>)
    requires Sound(db)
    ensures
      var db' := Evict(db, evicted);
      ForeignKeys(db') && UniqueKeys(db') && NoDuplicates(db') && Watermarks(db')
  {
    hide Freed, Bytes, Keep, MarksExact, Distinct;
    var db' := Evict(db, evicted);
    KeepsRows(db, r => r in evicted);
    forall id | id in db.containers
      ensures MarksExact(db'.containers[id])
    {
      MarksIgnoreBytes(db.containers[id], db'.containers[id].bytes);
    }
  }

  lemma EvictBytesExact(db: Db, evicted: set<StoredLine>)
    requires Sound(db)
    ensures BytesExact(Evict(db, evicted))
    ensures forall id :: id in db.containers ==>
      Evict(db, evicted).containers[id].bytes == db.containers[id].bytes - Freed(db, evicted, id)
  {
    hide Freed, Bytes, Keep, MarksExact, Distinct;
    forall id | id in db.containers
      ensures Bytes(Evict(db, evicted).lines, id) == db.containers[id].bytes - Freed(db, evicted, id)
    {
      EvictBytes(db, evicted, id);
    }
  }

  lemma EvictAttributed(db: Db, evicted: set<StoredLine>)
    requires Sound(db) && Attributed(db)
    ensures Attributed(Evict(db, evicted))
  {
    hide Freed, Bytes, Keep, MarksExact;
    var db' := Evict(db, evicted);
    KeepsRows(db, r => r in evicted);
    forall i | 0 <= i < |db'.lines|
      ensures db'.containers[db'.lines[i].ref].key == db'.lines[i].origin
    {
      assert db'.lines[i] in db.lines;
    }
  }

  lemma {:induction false} SameKeep(lines: seq<StoredLine>, f: StoredLine -> bool, g: StoredLine -> bool)
    requires forall r :: f(r) == g(r)
    ensures Keep(lines, f) == Keep(lines, g)
  {
    if lines != [] {
      SameKeep(lines[..|lines| - 1], f, g);
    }
  }

  lemma PruneSound(db: Db)
    requires Sound(db)
    ensures Sound(Prune(db)) && (Attributed(db) ==> Attributed(Prune(db)))
  {}

  // ------------------------------------------------------------------ the system

  datatype Writer =
    | Idle
    | Began(batch: seq<Message>, ids: seq<int>)
    | Dropped(batch: seq<Message>, ids: seq<int>)
    | Publishing(found: map<GenKey, int>)

  datatype Purge = NoPurge | Holding(ids: set<int>) | Announced(ids: set<int>)

  datatype Sys = Sys(
    db: Db,
    refs: map<GenKey, int>,      // the writer's id cache
    invalidated: set<GenKey>,
    writer: Writer,
    purge: Purge)

  datatype Event =
    | WriterBegin(batch: seq<Message>, ids: seq<int>)
    | WriterDrop
    | WriterCommit
    | WriterRollback
    | WriterPublish
    | PurgeBegin(host: string, name: string)
    | PurgeAnnounce
    | PurgeCommit
    | PurgeRollback
    | MetaUpsert(key: GenKey, name: string, project: string, newId: int)
    | MarkRemoved(id: int)
    | EvictLines(evicted: set<StoredLine>)
    | PruneEmpty

  // SQLite's single write lock.
  predicate WriterHolds(s: Sys) {
    s.writer.Began? || s.writer.Dropped?
  }

  predicate LockFree(s: Sys) {
    !WriterHolds(s) && s.purge.NoPurge?
  }

  function IdsNamed(db: Db, host: string, name: string): set<int> {
    set id | id in db.containers && db.containers[id].key.host == host && db.containers[id].name == name
  }

  function KeysOf(db: Db, ids: set<int>): set<GenKey> {
    set id | id in ids && id in db.containers :: db.containers[id].key
  }

  ghost predicate Enabled(s: Sys, e: Event) {
    match e
    case WriterBegin(batch, ids) => LockFree(s) && s.writer.Idle? && |ids| == |batch|
    case WriterDrop => s.writer.Began?
    case WriterCommit =>
      s.writer.Dropped? && |s.writer.ids| == |s.writer.batch|
      && Run(s.db, s.refs, s.writer.batch, s.writer.ids).Some?
    case WriterRollback => WriterHolds(s)
    case WriterPublish => s.writer.Publishing?
    case PurgeBegin(host, name) => LockFree(s) && IdsNamed(s.db, host, name) != {}
    case PurgeAnnounce => s.purge.Holding?
    case PurgeCommit => s.purge.Announced?
    case PurgeRollback => s.purge.Holding? || s.purge.Announced?
    case MetaUpsert(key, name, project, newId) => LockFree(s) && Upsert(s.db, key, name, project, newId).Some?
    case MarkRemoved(id) => LockFree(s) && id in s.db.containers
    case EvictLines(_) => LockFree(s) && s.writer.Idle?
    case PruneEmpty => LockFree(s) && s.writer.Idle?
  }

  function SetRemoved(db: Db, id: int, removed: bool): Db
    requires id in db.containers
  {
    db.(containers := db.containers[id := db.containers[id].(removed := removed)])
  }

  ghost function Next(s: Sys, e: Event): Sys
    requires Enabled(s, e)
  {
    match e
    case WriterBegin(batch, ids) => s.(writer := Began(batch, ids))
    case WriterDrop =>
      s.(refs := s.refs - s.invalidated, invalidated := {}, writer := Dropped(s.writer.batch, s.writer.ids))
    case WriterCommit =>
      var tx := Run(s.db, s.refs, s.writer.batch, s.writer.ids).value;
      s.(db := tx.db, writer := Publishing(tx.found))
    case WriterRollback => s.(writer := Idle)
    case WriterPublish => s.(refs := s.refs + s.writer.found, writer := Idle)
    case PurgeBegin(host, name) => s.(purge := Holding(IdsNamed(s.db, host, name)))
    case PurgeAnnounce =>
      s.(invalidated := s.invalidated + KeysOf(s.db, s.purge.ids), purge := Announced(s.purge.ids))
    case PurgeCommit => s.(db := Delete(s.db, s.purge.ids), purge := NoPurge)
    case PurgeRollback => s.(purge := NoPurge)
    case MetaUpsert(key, name, project, newId) =>
      var (db, id) := Upsert(s.db, key, name, project, newId).value;
      s.(db := SetRemoved(db, id, false))
    case MarkRemoved(id) => s.(db := SetRemoved(s.db, id, true))
    case EvictLines(evicted) => s.(db := Evict(s.db, evicted))
    case PruneEmpty => s.(db := Prune(s.db))
  }

  const INITIAL := Sys(Db(map[], []), map[], {}, Idle, NoPurge)

  // ------------------------------------------------------- accounting, every run

  ghost predicate WellFormed(s: Sys) {
    && Sound(s.db)
    && (WriterHolds(s) ==> s.purge.NoPurge?)
    && (WriterHolds(s) ==> |s.writer.ids| == |s.writer.batch|)
  }

  lemma SetRemovedSound(db: Db, id: int, removed: bool)
    requires Sound(db) && id in db.containers
    ensures Sound(SetRemoved(db, id, removed)) && (Attributed(db) ==> Attributed(SetRemoved(db, id, removed)))
  {}

  lemma StepWellFormed(s: Sys, e: Event)
    requires WellFormed(s) && Enabled(s, e)
    ensures WellFormed(Next(s, e))
  {
    hide Sound, Run, Upsert, Delete, Evict, Prune, SetRemoved;
    match e
    case WriterCommit => RunSound(s.db, s.refs, s.writer.batch, s.writer.ids);
    case PurgeCommit => DeleteSound(s.db, s.purge.ids);
    case MetaUpsert(key, name, project, newId) =>
      UpsertSound(s.db, key, name, project, newId);
      var (db, id) := Upsert(s.db, key, name, project, newId).value;
      SetRemovedSound(db, id, false);
    case MarkRemoved(id) => SetRemovedSound(s.db, id, true);
    case EvictLines(evicted) => EvictSound(s.db, evicted);
    case PruneEmpty => PruneSound(s.db);
    case _ =>
  }

  // States reached by a sequence of events; later events come last.
  ghost predicate Reaches(events: seq<Event>, s: Sys) {
    if events == [] then s == INITIAL
    else
      var e := events[|events| - 1];
      exists before :: Reaches(events[..|events| - 1], before) && Enabled(before, e) && s == Next(before, e)
  }

  // In every interleaving, whatever commits, rolls back, is purged, evicted or
  // pruned: stored_bytes is the summed length of the stored lines, no line refers
  // to a missing generation, no generation holds a line twice, and a watermark is
  // the newest timestamp ever stored for its stream.
  lemma {:induction false} AlwaysSound(events: seq<Event>, s: Sys)
    requires Reaches(events, s)
    ensures WellFormed(s)
  {
    if events != [] {
      var e := events[|events| - 1];
      var before :| Reaches(events[..|events| - 1], before) && Enabled(before, e) && s == Next(before, e);
      AlwaysSound(events[..|events| - 1], before);
      StepWellFormed(before, e);
    }
  }

  // ------------------------------------------------------ attribution, every run

  ghost predicate RefGood(s: Sys, key: GenKey, id: int) {
    key in s.invalidated || HasKey(s.db, id, key)
  }

  ghost predicate Safe(s: Sys) {
    && WellFormed(s) && Attributed(s.db)
    && (forall key :: key in s.refs ==> RefGood(s, key, s.refs[key]))
    && (s.writer.Publishing? ==> forall key :: key in s.writer.found ==> RefGood(s, key, s.writer.found[key]))
    && (s.writer.Dropped? ==> forall key :: key in s.refs ==> HasKey(s.db, s.refs[key], key))
    && (s.purge.Announced? ==> KeysOf(s.db, s.purge.ids) <= s.invalidated)
  }

  // A cached id that names a row marked removed names one that still holds a line.
  ghost predicate PruneHarmless(s: Sys) {
    forall key | key in s.refs && key !in s.invalidated && s.refs[key] in s.db.containers
      :: s.db.containers[s.refs[key]].removed ==> exists r :: r in s.db.lines && r.ref == s.refs[key]
  }

  lemma CommitSafe(s: Sys)
    requires Safe(s) && Enabled(s, WriterCommit)
    ensures CacheGood(s.db, s.refs, s.writer.batch)
    ensures Safe(Next(s, WriterCommit))
  {
    hide Sound, Run, Attributed;
    RunSound(s.db, s.refs, s.writer.batch, s.writer.ids);
    RunAttributed(s.db, s.refs, s.writer.batch, s.writer.ids);
    StepWellFormed(s, WriterCommit);
    var s' := Next(s, WriterCommit);
    forall key | key in s'.refs ensures RefGood(s', key, s'.refs[key]) {
      assert HasKey(s.db, s.refs[key], key);
    }
  }

  lemma MetaUpsertSafe(s: Sys, e: Event)
    requires Safe(s) && e.MetaUpsert? && Enabled(s, e)
    ensures Safe(Next(s, e))
  {
    hide Sound;
    UpsertSound(s.db, e.key, e.name, e.project, e.newId);
    var (db, id) := Upsert(s.db, e.key, e.name, e.project, e.newId).value;
    SoundParts(s.db);
    SetRemovedSound(db, id, false);
    StepWellFormed(s, e);
    var s' := Next(s, e);
    forall key | key in s.refs ensures RefGood(s', key, s.refs[key]) {
      assert RefGood(s, key, s.refs[key]);
    }
    forall key | s.writer.Publishing? && key in s.writer.found ensures RefGood(s', key, s.writer.found[key]) {
      assert RefGood(s, key, s.writer.found[key]);
    }
  }

  lemma DeletingSafe(s: Sys, e: Event)
    requires Safe(s) && Enabled(s, e)
    requires e.PurgeCommit? || e.EvictLines? || e.MarkRemoved?
    ensures Safe(Next(s, e))
  {
    hide Sound, Bytes, Keep;
    StepWellFormed(s, e);
    var s' := Next(s, e);
    match e {
      case PurgeCommit => DeleteSound(s.db, s.purge.ids);
      case EvictLines(evicted) => EvictSound(s.db, evicted);
      case MarkRemoved(id) => SetRemovedSound(s.db, id, true);
    }
    assert s.purge.Announced? ==> forall id :: id in s.purge.ids && id in s.db.containers ==>
      s.db.containers[id].key in KeysOf(s.db, s.purge.ids);
    forall key, id | RefGood(s, key, id) ensures RefGood(s', key, id) {}
  }

  // Every event but pruning keeps cached ids and lines where they belong.
  lemma StepSafe(s: Sys, e: Event)
    requires Safe(s) && Enabled(s, e) && !e.PruneEmpty?
    ensures Safe(Next(s, e))
  {
    hide Sound, Run, Upsert, Delete, Evict, Attributed, Empty;
    StepWellFormed(s, e);
    match e
    case WriterCommit => CommitSafe(s);
    case MetaUpsert(_, _, _, _) => MetaUpsertSafe(s, e);
    case PurgeCommit => DeletingSafe(s, e);
    case EvictLines(_) => DeletingSafe(s, e);
    case MarkRemoved(_) => DeletingSafe(s, e);
    case WriterDrop =>
      var s' := Next(s, e);
      forall key | key in s'.refs ensures HasKey(s'.db, s'.refs[key], key) {
        assert RefGood(s, key, s.refs[key]);
      }
    case WriterPublish =>
      var s' := Next(s, e);
      forall key | key in s'.refs ensures RefGood(s', key, s'.refs[key]) {
        assert key in s.writer.found ==> RefGood(s, key, s.writer.found[key]);
        assert key !in s.writer.found ==> RefGood(s, key, s.refs[key]);
      }
    case PruneEmpty => assert false;
    case WriterBegin(_, _) => SameRows(s, Next(s, e));
    case WriterRollback => SameRows(s, Next(s, e));
    case PurgeBegin(_, _) => SameRows(s, Next(s, e));
    case PurgeAnnounce => SameRows(s, Next(s, e));
    case PurgeRollback => SameRows(s, Next(s, e));
  }

  lemma SameRows(s: Sys, s': Sys)
    requires s'.db == s.db && s.invalidated <= s'.invalidated
    ensures forall key, id :: RefGood(s, key, id) ==> RefGood(s', key, id)
  {}

  // Pruning does not tell the writer. It is safe exactly when no cached id names a
  // pruned row.
  lemma PruneSafeIff(s: Sys)
    requires Safe(s) && Enabled(s, PruneEmpty)
    ensures Safe(Next(s, PruneEmpty)) <==> PruneHarmless(s)
  {}

  // The events of a run in which every pruning is harmless.
  ghost predicate ReachesQuietly(events: seq<Event>, s: Sys) {
    if events == [] then s == INITIAL
    else
      var e := events[|events| - 1];
      exists before ::
        && ReachesQuietly(events[..|events| - 1], before) && Enabled(before, e) && s == Next(before, e)
        && (e.PruneEmpty? ==> PruneHarmless(before))
  }

  // In every interleaving of batches, purges, metadata upserts and evictions, with
  // freed ids handed out again in any way: every line is in its own container's
  // timeline, and no cached id is used after it came to mean something else.
  lemma {:induction false} AlwaysAttributed(events: seq<Event>, s: Sys)
    requires ReachesQuietly(events, s)
    ensures Safe(s)
  {
    if events != [] {
      var e := events[|events| - 1];
      var before :| ReachesQuietly(events[..|events| - 1], before) && Enabled(before, e) && s == Next(before, e)
        && (e.PruneEmpty? ==> PruneHarmless(before));
      AlwaysAttributed(events[..|events| - 1], before);
      if e.PruneEmpty? {
        PruneSafeIff(before);
      } else {
        StepSafe(before, e);
      }
    }
  }

  // ------------------------------------------------- an interleaving that misfiles

  lemma ReachStep(events: seq<Event>, s: Sys, e: Event)
    requires Reaches(events, s) && Enabled(s, e)
    ensures Reaches(events + [e], Next(s, e))
  {
    var all := events + [e];
    assert all[..|all| - 1] == events && all[|all| - 1] == e;
    assert Reaches(all[..|all| - 1], s);
  }

  // One batch from begin to commit.
  lemma ReachCommit(events: seq<Event>, s: Sys, batch: seq<Message>, ids: seq<int>)
    returns (events': seq<Event>, s': Sys)
    requires Reaches(events, s) && LockFree(s) && s.writer.Idle? && |ids| == |batch|
    requires Run(s.db, s.refs - s.invalidated, batch, ids).Some?
    ensures Reaches(events', s')
    ensures
      var tx := Run(s.db, s.refs - s.invalidated, batch, ids).value;
      s' == Sys(tx.db, (s.refs - s.invalidated) + tx.found, {}, Idle, NoPurge)
  {
    hide Reaches, Run;
    ReachStep(events, s, WriterBegin(batch, ids));
    var s1 := Next(s, WriterBegin(batch, ids));
    var events1 := events + [WriterBegin(batch, ids)];
    ReachStep(events1, s1, WriterDrop);
    var s2 := Next(s1, WriterDrop);
    ReachStep(events1 + [WriterDrop], s2, WriterCommit);
    var s3 := Next(s2, WriterCommit);
    ReachStep(events1 + [WriterDrop] + [WriterCommit], s3, WriterPublish);
    s' := Next(s3, WriterPublish);
    assert s2.refs == s.refs - s.invalidated && s2.db == s.db;
    events' := events1 + [WriterDrop] + [WriterCommit] + [WriterPublish];
  }

  lemma RunOne(db: Db, refs: map<GenKey, int>, msg: Message, id: int)
    ensures Run(db, refs, [msg], [id]) == Apply(Tx(db, map[], []), refs, msg, id)
  {}

  const KEY_A := GenKey("host", "a")
  const KEY_B := GenKey("host", "b")
  const LATE := LineMsg(KEY_A, "web", "", Line(1, 0, "hello"))

  // The writer still has the pruned generation's id, which another one now has.
  const RECYCLED := Sys(Db(map[1 := NewGeneration(KEY_B, "db", "")], []), map[KEY_A := 1], {}, Idle, NoPurge)

  lemma ReachCached() returns (events: seq<Event>, s: Sys)
    ensures Reaches(events, s)
    ensures s == Sys(Db(map[1 := NewGeneration(KEY_A, "web", "")], []), map[KEY_A := 1], {}, Idle, NoPurge)
  {
    hide Reaches, Run;
    ReachNothing();
    var first := DoneMsg(KEY_A, "web", "", "");
    assert INITIAL.refs - INITIAL.invalidated == map[];
    RunOne(INITIAL.db, map[], first, 1);
    events, s := ReachCommit([], INITIAL, [first], [1]);
  }

  lemma ReachRecycled() returns (events: seq<Event>)
    ensures Reaches(events, RECYCLED)
  {
    hide Reaches, Run;
    var s;
    events, s := ReachCached();
    ReachStep(events, s, MarkRemoved(1));
    events, s := events + [MarkRemoved(1)], Next(s, MarkRemoved(1));
    assert Empty(s.db) == {1};
    ReachStep(events, s, PruneEmpty);
    events, s := events + [PruneEmpty], Next(s, PruneEmpty);
    assert s.db == Db(map[], []);
    var upsert := MetaUpsert(KEY_B, "db", "", 1);
    ReachStep(events, s, upsert);
    events, s := events + [upsert], Next(s, upsert);
    assert s == RECYCLED;
  }

  // Pruning lets a cached id be handed to another container: a late line for the
  // pruned one then lands in the other one's timeline.
  lemma PruningMisfiles() returns (events: seq<Event>, s: Sys)
    ensures Reaches(events, s) && !Attributed(s.db)
  {
    hide Reaches, Run;
    events := ReachRecycled();
    assert RECYCLED.refs - RECYCLED.invalidated == RECYCLED.refs;
    RunOne(RECYCLED.db, RECYCLED.refs, LATE, 2);
    assert !Holds([], 1, LATE.line);
    events, s := ReachCommit(events, RECYCLED, [LATE], [2]);
    assert s.db.lines[0] == StoredLine(1, LATE.line, KEY_A);
  }

  lemma ReachNothing()
    ensures Reaches([], INITIAL)
  {}
}
