// The log database and the transactions that write it.
module LogStore {
  import opened LogEntries

  // One container generation: an engine container id on one host.
  datatype GenKey = GenKey(host: string, id: string)

  const STDERR := 1

  datatype Line = Line(tsNS: int, stream: int, raw: string)

  datatype Message =
    | LineMsg(key: GenKey, name: string, project: string, line: Line)
    | DoneMsg(key: GenKey, name: string, project: string, reason: string)

  // seen is not a column: it remembers every line ever stored under the row.
  datatype Generation = Generation(
    key: GenKey, name: string, project: string, reason: string, removed: bool,
    bytes: int, stdoutWM: int, stderrWM: int, seen: set<Line>)

  // origin is not a column: it is the container the line was read from.
  datatype StoredLine = StoredLine(ref: int, line: Line, origin: GenKey)

  // containers by id; lines in rowid order.
  datatype Db = Db(containers: map<int, Generation>, lines: seq<StoredLine>)

  // --------------------------------------------------------------- invariants

  function Max(a: int, b: int): int {
    if a < b then b else a
  }

  function Bytes(lines: seq<StoredLine>, ref: int): nat {
    if lines == [] then 0
    else
      var last := lines[|lines| - 1];
      Bytes(lines[..|lines| - 1], ref) + if last.ref == ref then |last.line.raw| else 0
  }

  predicate Holds(lines: seq<StoredLine>, ref: int, line: Line) {
    exists i :: 0 <= i < |lines| && lines[i].ref == ref && lines[i].line == line
  }

  ghost predicate ForeignKeys(db: Db) {
    forall i :: 0 <= i < |db.lines| ==> db.lines[i].ref in db.containers
  }

  ghost predicate UniqueKeys(db: Db) {
    forall a, b :: a in db.containers && b in db.containers && db.containers[a].key == db.containers[b].key ==> a == b
  }

  // No generation holds the same line twice.
  ghost predicate NoDuplicates(db: Db) {
    Distinct(db.lines)
  }

  ghost predicate Distinct(lines: seq<StoredLine>) {
    forall i, j :: 0 <= i < j < |lines| ==> !SameLine(lines[i], lines[j])
  }

  predicate SameLine(a: StoredLine, b: StoredLine) {
    a.ref == b.ref && a.line == b.line
  }

  ghost predicate BytesExact(db: Db) {
    forall id :: id in db.containers ==> db.containers[id].bytes == Bytes(db.lines, id)
  }

  // A watermark is the newest timestamp ever stored for its stream, or zero.
  ghost predicate MarkOf(wm: int, seen: set<Line>, stderr: bool) {
    && wm >= 0
    && (forall l :: l in seen && (l.stream == STDERR) == stderr ==> l.tsNS <= wm)
    && (wm != 0 ==> exists l :: l in seen && (l.stream == STDERR) == stderr && l.tsNS == wm)
  }

  ghost predicate MarksExact(g: Generation) {
    MarkOf(g.stdoutWM, g.seen, false) && MarkOf(g.stderrWM, g.seen, true)
  }

  ghost predicate Watermarks(db: Db) {
    && (forall id :: id in db.containers ==> MarksExact(db.containers[id]))
    && (forall i :: 0 <= i < |db.lines| && db.lines[i].ref in db.containers ==>
          db.lines[i].line in db.containers[db.lines[i].ref].seen)
  }

  ghost predicate Sound(db: Db) {
    ForeignKeys(db) && UniqueKeys(db) && NoDuplicates(db) && BytesExact(db) && Watermarks(db)
  }

  // Every stored line is filed under the generation it was read from.
  ghost predicate Attributed(db: Db) {
    forall i :: 0 <= i < |db.lines| && db.lines[i].ref in db.containers ==>
      db.containers[db.lines[i].ref].key == db.lines[i].origin
  }

  // ------------------------------------------------------------ single statements

  ghost predicate Known(db: Db, key: GenKey) {
    exists id :: id in db.containers && db.containers[id].key == key
  }

  ghost function IdOf(db: Db, key: GenKey): (id: int)
    requires Known(db, key)
    ensures id in db.containers && db.containers[id].key == key
  {
    var id :| id in db.containers && db.containers[id].key == key;
    id
  }

  function Named(g: Generation, name: string, project: string): Generation {
    g.(name := if name != "" then name else g.name,
       project := if project != "" then project else g.project)
  }

  function NewGeneration(key: GenKey, name: string, project: string): Generation {
    Generation(key, name, project, "", false, 0, 0, 0, {})
  }

  // INSERT ... ON CONFLICT(host, container_id) DO UPDATE ... RETURNING id. newId is
  // the id the database would hand out: any id that is not in the table.
  ghost function Upsert(db: Db, key: GenKey, name: string, project: string, newId: int): Option<(Db, int)> {
    if Known(db, key) then
      var id := IdOf(db, key);
      Some((db.(containers := db.containers[id := Named(db.containers[id], name, project)]), id))
    else if newId in db.containers then None
    else Some((db.(containers := db.containers[newId := NewGeneration(key, name, project)]), newId))
  }

  function Credit(g: Generation, line: Line): Generation {
    g.(bytes := g.bytes + |line.raw|,
       stderrWM := if line.stream == STDERR then Max(g.stderrWM, line.tsNS) else g.stderrWM,
       stdoutWM := if line.stream == STDERR then g.stdoutWM else Max(g.stdoutWM, line.tsNS),
       seen := g.seen + {line})
  }

  function Stored(db: Db, ref: int, line: Line, origin: GenKey): Db
    requires ref in db.containers
  {
    Db(db.containers[ref := Credit(db.containers[ref], line)], db.lines + [StoredLine(ref, line, origin)])
  }

  // INSERT ... WHERE NOT EXISTS, under the foreign key.
  function InsertLine(db: Db, ref: int, line: Line, origin: GenKey): Option<Db> {
    if Holds(db.lines, ref, line) then Some(db)
    else if ref !in db.containers then None
    else Some(Stored(db, ref, line, origin))
  }

  function Exclude(db: Db, ref: int, reason: string): Db {
    if reason != "" && ref in db.containers
    then db.(containers := db.containers[ref := db.containers[ref].(reason := reason)])
    else db
  }

  lemma UpsertSound(db: Db, key: GenKey, name: string, project: string, newId: int)
    requires Sound(db) && Upsert(db, key, name, project, newId).Some?
    ensures
      var (db', id) := Upsert(db, key, name, project, newId).value;
      && Sound(db') && id in db'.containers && db'.containers[id].key == key
      && db'.lines == db.lines && db.containers.Keys <= db'.containers.Keys
      && (forall k :: k in db.containers ==> db'.containers[k].key == db.containers[k].key)
      && (forall k :: k in db'.containers && k !in db.containers ==> k == id && id == newId && !Known(db, key))
  {
    hide Sound, Named;
    if Known(db, key) {
      NamedSound(db, IdOf(db, key), name, project);
    } else {
      AddedSound(db, key, name, project, newId);
    }
  }

  lemma NamedSound(db: Db, id: int, name: string, project: string)
    requires Sound(db) && id in db.containers
    ensures
      var g := Named(db.containers[id], name, project);
      Sound(db.(containers := db.containers[id := g])) && g.key == db.containers[id].key
  {
    hide Bytes, Distinct, MarkOf;
  }

  lemma AddedSound(db: Db, key: GenKey, name: string, project: string, id: int)
    requires Sound(db) && !Known(db, key) && id !in db.containers
    ensures Sound(db.(containers := db.containers[id := NewGeneration(key, name, project)]))
  {
    hide Bytes, Distinct;
    NoBytes(db, id);
  }

  lemma NoBytes(db: Db, ref: int)
    requires ForeignKeys(db) && ref !in db.containers
    ensures Bytes(db.lines, ref) == 0
  {
    NoBytesIn(db.lines, ref);
  }

  lemma {:induction false} NoBytesIn(lines: seq<StoredLine>, ref: int)
    requires forall i :: 0 <= i < |lines| ==> lines[i].ref != ref
    ensures Bytes(lines, ref) == 0
  {
    if lines != [] {
      NoBytesIn(lines[..|lines| - 1], ref);
    }
  }

  lemma CreditMarks(g: Generation, line: Line)
    requires MarksExact(g)
    ensures MarksExact(Credit(g, line))
  {}

  // A repeated line changes nothing; any other adds its bytes, moves its stream's
  // watermark and keeps the tables sound.
  lemma InsertLineSound(db: Db, ref: int, line: Line, origin: GenKey)
    requires Sound(db) && InsertLine(db, ref, line, origin).Some?
    ensures
      var db' := InsertLine(db, ref, line, origin).value;
      && Sound(db') && db'.containers.Keys == db.containers.Keys
      && ref in db.containers
      && (forall k :: k in db.containers ==> db'.containers[k].key == db.containers[k].key)
      && (Holds(db.lines, ref, line) ==> db' == db)
  {
    if !Holds(db.lines, ref, line) {
      StoredKeys(db, ref, line, origin);
      StoredDistinct(db, ref, line, origin);
      StoredBytes(db, ref, line, origin);
      StoredMarks(db, ref, line, origin);
      AllSound(Stored(db, ref, line, origin));
    } else {
      HeldRow(db, ref, line);
    }
  }

  lemma AllSound(db: Db)
    requires ForeignKeys(db) && UniqueKeys(db) && NoDuplicates(db) && BytesExact(db) && Watermarks(db)
    ensures Sound(db)
  {}

  lemma HeldRow(db: Db, ref: int, line: Line)
    requires Sound(db) && Holds(db.lines, ref, line)
    ensures ref in db.containers
  {}

  lemma StoredKeys(db: Db, ref: int, line: Line, origin: GenKey)
    requires ForeignKeys(db) && UniqueKeys(db) && ref in db.containers
    ensures
      var db' := Stored(db, ref, line, origin);
      && ForeignKeys(db') && UniqueKeys(db') && db'.containers.Keys == db.containers.Keys
      && forall k :: k in db.containers ==> db'.containers[k].key == db.containers[k].key
  {}

  lemma StoredDistinct(db: Db, ref: int, line: Line, origin: GenKey)
    requires NoDuplicates(db) && ref in db.containers && !Holds(db.lines, ref, line)
    ensures NoDuplicates(Stored(db, ref, line, origin))
  {}

  lemma StoredBytes(db: Db, ref: int, line: Line, origin: GenKey)
    requires BytesExact(db) && ref in db.containers
    ensures BytesExact(Stored(db, ref, line, origin))
  {
    var lines := Stored(db, ref, line, origin).lines;
    assert lines[..|lines| - 1] == db.lines;
  }

  lemma StoredMarks(db: Db, ref: int, line: Line, origin: GenKey)
    requires Watermarks(db) && ref in db.containers
    ensures Watermarks(Stored(db, ref, line, origin))
  {
    hide MarksExact;
    CreditMarks(db.containers[ref], line);
  }

  lemma ExcludeSound(db: Db, ref: int, reason: string)
    requires Sound(db)
    ensures Sound(Exclude(db, ref, reason)) && Exclude(db, ref, reason).lines == db.lines
    ensures Exclude(db, ref, reason).containers.Keys == db.containers.Keys
    ensures forall k :: k in db.containers ==> Exclude(db, ref, reason).containers[k].key == db.containers[k].key
  {}

  // --------------------------------------------------------------------- ingest gaps

  // The earliest dropped timestamp per generation.
  function Mark(gaps: map<GenKey, int>, m: Message): map<GenKey, int> {
    if m.LineMsg? && (m.key in gaps ==> m.line.tsNS < gaps[m.key]) then gaps[m.key := m.line.tsNS] else gaps
  }

  // A batch that could not be committed.
  function MarkAll(gaps: map<GenKey, int>, batch: seq<Message>): map<GenKey, int> {
    if batch == [] then gaps else Mark(MarkAll(gaps, batch[..|batch| - 1]), batch[|batch| - 1])
  }
}
