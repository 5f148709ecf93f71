// One writer batch as a transaction, message by message.
module Commit {
  import opened LogEntries
  import opened LogStore

  // found holds the ids this transaction discovered; filed is the row each message
  // of the batch went to.
  datatype Tx = Tx(db: Db, found: map<GenKey, int>, filed: seq<int>)

  function File(tx: Tx, ref: int, msg: Message): Option<Tx> {
    match msg
    case DoneMsg(_, _, _, reason) => Some(tx.(db := Exclude(tx.db, ref, reason), filed := tx.filed + [ref]))
    case LineMsg(key, _, _, line) =>
      match InsertLine(tx.db, ref, line, key)
      case None => None
      case Some(db) => Some(tx.(db := db, filed := tx.filed + [ref]))
  }

  // None is a failed statement: the whole transaction rolls back.
  ghost function Apply(tx: Tx, refs: map<GenKey, int>, msg: Message, newId: int): Option<Tx> {
    if msg.key in refs then File(tx, refs[msg.key], msg)
    else if msg.key in tx.found then File(tx, tx.found[msg.key], msg)
    else
      match Upsert(tx.db, msg.key, msg.name, msg.project, newId)
      case None => None
      case Some((db, id)) => File(tx.(db := db, found := tx.found[msg.key := id]), id, msg)
  }

  // ids are the ids the database hands out, one offered per message.
  ghost function Run(db: Db, refs: map<GenKey, int>, batch: seq<Message>, ids: seq<int>): Option<Tx>
    requires |ids| == |batch|
  {
    if batch == [] then Some(Tx(db, map[], []))
    else
      var n := |batch| - 1;
      match Run(db, refs, batch[..n], ids[..n])
      case None => None
      case Some(tx) => Apply(tx, refs, batch[n], ids[n])
  }

  // ----------------------------------------------------------------- soundness

  ghost predicate HasKey(db: Db, id: int, key: GenKey) {
    id in db.containers && db.containers[id].key == key
  }

  // Rows keep their identity, and new rows belong to keys the cache does not hold.
  ghost predicate Extends(db: Db, db': Db, refs: map<GenKey, int>) {
    && (forall id :: id in db.containers ==> HasKey(db', id, db.containers[id].key))
    && (forall id :: id in db'.containers && id !in db.containers ==> db'.containers[id].key !in refs)
  }

  ghost predicate FoundValid(tx: Tx, refs: map<GenKey, int>) {
    forall key :: key in tx.found ==> key !in refs && HasKey(tx.db, tx.found[key], key)
  }

  lemma FileSound(tx: Tx, ref: int, msg: Message)
    requires Sound(tx.db) && File(tx, ref, msg).Some?
    ensures
      var tx' := File(tx, ref, msg).value;
      && Sound(tx'.db) && tx'.found == tx.found && tx'.filed == tx.filed + [ref]
      && tx'.db.containers.Keys == tx.db.containers.Keys
      && (forall id :: id in tx.db.containers ==> HasKey(tx'.db, id, tx.db.containers[id].key))
      && (msg.LineMsg? ==> ref in tx.db.containers)
  {
    hide Sound;
    match msg
    case DoneMsg(_, _, _, reason) => ExcludeSound(tx.db, ref, reason);
    case LineMsg(key, _, _, line) => InsertLineSound(tx.db, ref, line, key);
  }

  // Filing a message keeps what held before it.
  lemma FileKeeps(db: Db, tx: Tx, refs: map<GenKey, int>, ref: int, msg: Message)
    requires Sound(tx.db) && Extends(db, tx.db, refs) && FoundValid(tx, refs) && File(tx, ref, msg).Some?
    ensures
      var tx' := File(tx, ref, msg).value;
      && Sound(tx'.db) && Extends(db, tx'.db, refs) && FoundValid(tx', refs)
      && tx'.filed == tx.filed + [ref]
      && (forall id, key :: HasKey(tx.db, id, key) ==> HasKey(tx'.db, id, key))
      && (msg.LineMsg? ==> ref in tx'.db.containers)
  {
    hide Sound, File;
    FileSound(tx, ref, msg);
  }

  // So does upserting its generation.
  lemma UpsertKeeps(db: Db, tx: Tx, refs: map<GenKey, int>, msg: Message, newId: int)
    requires Sound(tx.db) && Extends(db, tx.db, refs) && FoundValid(tx, refs)
    requires msg.key !in refs && Upsert(tx.db, msg.key, msg.name, msg.project, newId).Some?
    ensures
      var (db', id) := Upsert(tx.db, msg.key, msg.name, msg.project, newId).value;
      && Sound(db') && Extends(db, db', refs) && FoundValid(tx.(db := db', found := tx.found[msg.key := id]), refs)
      && HasKey(db', id, msg.key)
      && (forall k, key :: HasKey(tx.db, k, key) ==> HasKey(db', k, key))
  {
    hide Sound, Upsert;
    UpsertSound(tx.db, msg.key, msg.name, msg.project, newId);
  }

  lemma FoundKey(tx: Tx, refs: map<GenKey, int>, key: GenKey)
    requires FoundValid(tx, refs) && key in tx.found
    ensures HasKey(tx.db, tx.found[key], key)
  {}

  lemma RowsHaveKeys(db: Db)
    ensures forall id :: id in db.containers ==> HasKey(db, id, db.containers[id].key)
  {}

  lemma ApplySound(db: Db, tx: Tx, refs: map<GenKey, int>, msg: Message, newId: int)
    requires Sound(tx.db) && Extends(db, tx.db, refs) && FoundValid(tx, refs)
    requires Apply(tx, refs, msg, newId).Some?
    ensures
      var tx' := Apply(tx, refs, msg, newId).value;
      && Sound(tx'.db) && Extends(db, tx'.db, refs) && FoundValid(tx', refs)
      && |tx'.filed| == |tx.filed| + 1 && tx'.filed[..|tx.filed|] == tx.filed
      && (forall id :: id in tx.db.containers ==> HasKey(tx'.db, id, tx.db.containers[id].key))
      && (var ref := tx'.filed[|tx.filed|];
          && (msg.key in refs ==> ref == refs[msg.key])
          && (msg.key !in refs ==> HasKey(tx'.db, ref, msg.key))
          && (msg.LineMsg? ==> ref in tx'.db.containers))
  {
    hide Sound, File, Upsert, Extends, FoundValid, HasKey;
    RowsHaveKeys(tx.db);
    if msg.key in refs {
      FileKeeps(db, tx, refs, refs[msg.key], msg);
    } else if msg.key in tx.found {
      FoundKey(tx, refs, msg.key);
      FileKeeps(db, tx, refs, tx.found[msg.key], msg);
    } else {
      UpsertKeeps(db, tx, refs, msg, newId);
      var (db', id) := Upsert(tx.db, msg.key, msg.name, msg.project, newId).value;
      FileKeeps(db, tx.(db := db', found := tx.found[msg.key := id]), refs, id, msg);
    }
  }

  lemma {:induction false} RunSound(db: Db, refs: map<GenKey, int>, batch: seq<Message>, ids: seq<int>)
    requires |ids| == |batch| && Sound(db) && Run(db, refs, batch, ids).Some?
    ensures
      var tx := Run(db, refs, batch, ids).value;
      && Sound(tx.db) && Extends(db, tx.db, refs) && FoundValid(tx, refs)
      && |tx.filed| == |batch|
      && (forall i :: 0 <= i < |batch| && batch[i].key in refs ==> tx.filed[i] == refs[batch[i].key])
      && (forall i :: 0 <= i < |batch| && batch[i].key !in refs ==> HasKey(tx.db, tx.filed[i], batch[i].key))
      && (forall i :: 0 <= i < |batch| && batch[i].LineMsg? ==> tx.filed[i] in tx.db.containers)
  {
    hide Sound, Apply;
    if batch != [] {
      var n := |batch| - 1;
      RunSound(db, refs, batch[..n], ids[..n]);
      ApplySound(db, Run(db, refs, batch[..n], ids[..n]).value, refs, batch[n], ids[n]);
    }
  }

  // --------------------------------------------------------------- attribution

  ghost predicate ValidRef(db: Db, refs: map<GenKey, int>, key: GenKey) {
    key in refs && HasKey(db, refs[key], key)
  }

  // Every line of the batch whose generation is cached has a cached id that still
  // names that generation.
  ghost predicate CacheGood(db: Db, refs: map<GenKey, int>, batch: seq<Message>) {
    forall i :: 0 <= i < |batch| && batch[i].LineMsg? && batch[i].key in refs ==> ValidRef(db, refs, batch[i].key)
  }

  // Every line of the batch went to its own container's row.
  ghost predicate AllFiledHome(tx: Tx, batch: seq<Message>)
    requires |tx.filed| == |batch|
  {
    forall i :: 0 <= i < |batch| && batch[i].LineMsg? ==> HasKey(tx.db, tx.filed[i], batch[i].key)
  }

  // A batch that commits files every line home exactly when no line is for a
  // cached generation whose id has come to mean something else.
  lemma FiledHomeIff(db: Db, refs: map<GenKey, int>, batch: seq<Message>, ids: seq<int>)
    requires |ids| == |batch| && Sound(db) && Run(db, refs, batch, ids).Some?
    ensures
      var tx := Run(db, refs, batch, ids).value;
      |tx.filed| == |batch| && (AllFiledHome(tx, batch) <==> CacheGood(db, refs, batch))
  {
    hide Sound, Run;
    RunSound(db, refs, batch, ids);
    var tx := Run(db, refs, batch, ids).value;
    if AllFiledHome(tx, batch) {
      forall i | 0 <= i < |batch| && batch[i].LineMsg? && batch[i].key in refs
        ensures ValidRef(db, refs, batch[i].key)
      {
        assert HasKey(tx.db, tx.filed[i], batch[i].key);
        assert tx.filed[i] in db.containers;
      }
    }
  }

  lemma ApplyAttributed(db: Db, tx: Tx, refs: map<GenKey, int>, msg: Message, newId: int)
    requires Sound(tx.db) && Extends(db, tx.db, refs) && FoundValid(tx, refs) && Attributed(tx.db)
    requires Apply(tx, refs, msg, newId).Some?
    requires msg.LineMsg? && msg.key in refs ==> ValidRef(db, refs, msg.key)
    ensures Attributed(Apply(tx, refs, msg, newId).value.db)
  {
    hide Sound, Upsert;
    var tx' := Apply(tx, refs, msg, newId).value;
    ApplySound(db, tx, refs, msg, newId);
    if msg.key !in refs && msg.key !in tx.found {
      UpsertSound(tx.db, msg.key, msg.name, msg.project, newId);
    }
    assert ForeignKeys(tx.db) by { SoundParts(tx.db); }
    forall i | 0 <= i < |tx'.db.lines| && tx'.db.lines[i].ref in tx'.db.containers
      ensures tx'.db.containers[tx'.db.lines[i].ref].key == tx'.db.lines[i].origin
    {
      if i < |tx.db.lines| {
        assert tx'.db.lines[i] == tx.db.lines[i];
        assert HasKey(tx'.db, tx.db.lines[i].ref, tx.db.containers[tx.db.lines[i].ref].key);
      } else if msg.key in refs {
        assert HasKey(db, refs[msg.key], msg.key);
        assert HasKey(tx'.db, refs[msg.key], msg.key);
      }
    }
  }

  lemma SoundParts(db: Db)
    requires Sound(db)
    ensures ForeignKeys(db) && UniqueKeys(db) && NoDuplicates(db) && BytesExact(db) && Watermarks(db)
  {}

  // With a good cache, no line lands in another container's timeline.
  lemma {:induction false} RunAttributed(db: Db, refs: map<GenKey, int>, batch: seq<Message>, ids: seq<int>)
    requires |ids| == |batch| && Sound(db) && Attributed(db) && Run(db, refs, batch, ids).Some?
    requires CacheGood(db, refs, batch)
    ensures Attributed(Run(db, refs, batch, ids).value.db)
  {
    hide Sound, Apply, Attributed;
    if batch != [] {
      var n := |batch| - 1;
      assert CacheGood(db, refs, batch[..n]);
      RunAttributed(db, refs, batch[..n], ids[..n]);
      RunSound(db, refs, batch[..n], ids[..n]);
      ApplyAttributed(db, Run(db, refs, batch[..n], ids[..n]).value, refs, batch[n], ids[n]);
    }
  }
}
