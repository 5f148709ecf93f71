// What a generation's row says about its container: the name and project it was last
// told, and why it is excluded.
module Naming {
  import opened LogEntries
  import opened LogStore
  import opened Commit
  import opened Confluence
  import opened Writers

  // The last of the texts that is not empty, or else the one before.
  function Latest(prior: string, texts: seq<string>): string {
    if texts == [] then prior
    else if texts[|texts| - 1] != "" then texts[|texts| - 1]
    else Latest(prior, texts[..|texts| - 1])
  }

  lemma {:induction false} LatestConcat(prior: string, a: seq<string>, b: seq<string>)
    ensures Latest(prior, a + b) == Latest(Latest(prior, a), b)
  {
    if b == [] {
      assert a + b == a;
    } else {
      LatestConcat(prior, a, b[..|b| - 1]);
      assert (a + b)[..|a + b| - 1] == a + b[..|b| - 1];
    }
  }

  // Once there is a text there always is one.
  lemma {:induction false} LatestKeeps(prior: string, texts: seq<string>)
    requires prior != ""
    ensures Latest(prior, texts) != ""
  {
    if texts != [] {
      LatestKeeps(prior, texts[..|texts| - 1]);
    }
  }

  // ------------------------------------------------------------------ one batch

  // The batch's first message of a generation, if there is one.
  function FirstOf(batch: seq<Message>, key: GenKey): (ms: seq<Message>)
    ensures |ms| <= 1
  {
    if batch == [] then []
    else
      var ms, last := FirstOf(batch[..|batch| - 1], key), batch[|batch| - 1];
      if ms == [] && last.key == key then [last] else ms
  }

  // The row is upserted with the first message of a generation that has no cached id.
  function Upserting(batch: seq<Message>, refs: map<GenKey, int>, key: GenKey): seq<Message> {
    if key in refs then [] else FirstOf(batch, key)
  }

  function Names(ms: seq<Message>): (names: seq<string>)
    ensures |names| == |ms|
  {
    seq(|ms|, i requires 0 <= i < |ms| => ms[i].name)
  }

  function Projects(ms: seq<Message>): (projects: seq<string>)
    ensures |projects| == |ms|
  {
    seq(|ms|, i requires 0 <= i < |ms| => ms[i].project)
  }

  // The reasons of the end markers that went to a row of the key while it was there:
  // a row that is new exists from its generation's first message on.
  function Reasons(batch: seq<Message>, filed: seq<int>, ref: int, key: GenKey, known: bool): seq<string>
    requires |filed| == |batch|
  {
    if batch == [] then []
    else
      var n := |batch| - 1;
      var there := known || FirstOf(batch, key) != [];
      Reasons(batch[..n], filed[..n], ref, key, known)
      + if there && batch[n].DoneMsg? && filed[n] == ref then [batch[n].reason] else []
  }

  lemma {:induction false} NoReasons(batch: seq<Message>, filed: seq<int>, ref: int, key: GenKey)
    requires |filed| == |batch| && FirstOf(batch, key) == []
    ensures Reasons(batch, filed, ref, key, false) == []
  {
    if batch != [] {
      NoReasons(batch[..|batch| - 1], filed[..|batch| - 1], ref, key);
    }
  }

  // A row that is not there yet.
  function Before(db: Db, id: int, key: GenKey): Generation {
    if id in db.containers then db.containers[id] else Generation(key, "", "", "", false, 0, 0, 0, {})
  }

  // The row's name and project are the last ones it was upserted with that are not
  // empty, its reason the last that is not empty of its end markers, and nothing
  // marks it removed or takes that back.
  ghost predicate RowTold(db: Db, refs: map<GenKey, int>, batch: seq<Message>, tx: Tx, id: int)
    requires id in tx.db.containers && |tx.filed| == |batch|
  {
    var g := tx.db.containers[id];
    var was, sent := Before(db, id, g.key), Upserting(batch, refs, g.key);
    && g.name == Latest(was.name, Names(sent)) && g.project == Latest(was.project, Projects(sent))
    && g.reason == Latest(was.reason, Reasons(batch, tx.filed, id, g.key, id in db.containers))
    && g.removed == was.removed && (id in db.containers || FirstOf(batch, g.key) != [])
  }

  ghost predicate RowsTold(db: Db, refs: map<GenKey, int>, batch: seq<Message>, tx: Tx)
    requires |tx.filed| == |batch|
  {
    forall id :: id in tx.db.containers ==> RowTold(db, refs, batch, tx, id)
  }

  // The ids discovered so far are those of the upserted generations.
  ghost predicate FoundFirst(batch: seq<Message>, refs: map<GenKey, int>, tx: Tx) {
    forall key :: key in tx.found <==> Upserting(batch, refs, key) != []
  }

  // Filing changes no name; an end marker with a reason leaves it on its row.
  lemma FiledRow(tx: Tx, ref: int, msg: Message, id: int)
    requires File(tx, ref, msg).Some? && id in tx.db.containers
    ensures
      var db, g := File(tx, ref, msg).value.db, tx.db.containers[id];
      && id in db.containers && db.containers[id].key == g.key
      && db.containers[id].name == g.name && db.containers[id].project == g.project
      && db.containers[id].removed == g.removed
      && db.containers[id].reason == Latest(g.reason, if msg.DoneMsg? && ref == id then [msg.reason] else [])
  {
    hide Holds;
    assert forall s: string :: [s][..0] == [];
  }

  // An upsert tells its own row, and no other.
  lemma UpsertedRow(db: Db, key: GenKey, name: string, project: string, newId: int, id: int)
    requires Sound(db) && Upsert(db, key, name, project, newId).Some?
    requires id in Upsert(db, key, name, project, newId).value.0.containers
    ensures
      var db' := Upsert(db, key, name, project, newId).value.0;
      var g, was := db'.containers[id], Before(db, id, db'.containers[id].key);
      && g.name == (if g.key == key then Latest(was.name, [name]) else was.name)
      && g.project == (if g.key == key then Latest(was.project, [project]) else was.project)
      && g.reason == was.reason && g.removed == was.removed && (id !in db.containers ==> g.key == key)
      && (id in db.containers ==> g.key == was.key)
  {
    hide Distinct, BytesExact, Watermarks, ForeignKeys;
    assert forall s: string :: [s][..0] == [];
  }

  lemma NextReasons(
      batch: seq<Message>, msg: Message, filed: seq<int>, ref: int, id: int, key: GenKey, known: bool)
    requires |filed| == |batch| && (known || FirstOf(batch + [msg], key) != [])
    ensures
      Reasons(batch + [msg], filed + [ref], id, key, known) ==
      Reasons(batch, filed, id, key, known) + if msg.DoneMsg? && ref == id then [msg.reason] else []
  {
    assert (batch + [msg])[..|batch|] == batch && (filed + [ref])[..|batch|] == filed;
  }

  lemma NextFirst(batch: seq<Message>, msg: Message, key: GenKey)
    ensures
      FirstOf(batch + [msg], key) ==
      if FirstOf(batch, key) == [] && msg.key == key then [msg] else FirstOf(batch, key)
  {
    assert (batch + [msg])[..|batch|] == batch;
  }

  // One more message, filed under a row whose id is known.
  lemma FileTold(db: Db, refs: map<GenKey, int>, batch: seq<Message>, tx: Tx, ref: int, msg: Message)
    requires |tx.filed| == |batch| && RowsTold(db, refs, batch, tx) && FoundFirst(batch, refs, tx)
    requires msg.key in refs || msg.key in tx.found
    requires File(tx, ref, msg).Some?
    requires File(tx, ref, msg).value.db.containers.Keys == tx.db.containers.Keys
    requires File(tx, ref, msg).value.filed == tx.filed + [ref] && File(tx, ref, msg).value.found == tx.found
    ensures
      var tx' := File(tx, ref, msg).value;
      |tx'.filed| == |batch| + 1 && RowsTold(db, refs, batch + [msg], tx') && FoundFirst(batch + [msg], refs, tx')
  {
    hide File, Reasons, FirstOf, Latest;
    var tx' := File(tx, ref, msg).value;
    forall key
      ensures Upserting(batch + [msg], refs, key) == Upserting(batch, refs, key)
    {
      NextFirst(batch, msg, key);
    }
    forall id | id in tx'.db.containers
      ensures RowTold(db, refs, batch + [msg], tx', id)
    {
      assert RowTold(db, refs, batch, tx, id);
      FiledRow(tx, ref, msg, id);
      var key, known := tx.db.containers[id].key, id in db.containers;
      NextFirst(batch, msg, key);
      NextReasons(batch, msg, tx.filed, ref, id, key, known);
      LatestConcat(
        Before(db, id, key).reason, Reasons(batch, tx.filed, id, key, known),
        if msg.DoneMsg? && ref == id then [msg.reason] else []);
    }
  }

  // The message whose generation is looked up first: upserted, then filed.
  lemma UpsertTold(db: Db, refs: map<GenKey, int>, batch: seq<Message>, tx: Tx, msg: Message, newId: int)
    requires |tx.filed| == |batch| && RowsTold(db, refs, batch, tx) && FoundFirst(batch, refs, tx)
    requires Sound(tx.db) && db.containers.Keys <= tx.db.containers.Keys
    requires forall id :: id in db.containers ==> tx.db.containers[id].key == db.containers[id].key
    requires msg.key !in refs && msg.key !in tx.found
    requires Upsert(tx.db, msg.key, msg.name, msg.project, newId).Some?
    requires
      var (mid, ref) := Upsert(tx.db, msg.key, msg.name, msg.project, newId).value;
      var tx1 := tx.(db := mid, found := tx.found[msg.key := ref]);
      && File(tx1, ref, msg).Some?
      && File(tx1, ref, msg).value.db.containers.Keys == mid.containers.Keys
      && File(tx1, ref, msg).value.filed == tx.filed + [ref] && File(tx1, ref, msg).value.found == tx1.found
    ensures
      var (mid, ref) := Upsert(tx.db, msg.key, msg.name, msg.project, newId).value;
      var tx' := File(tx.(db := mid, found := tx.found[msg.key := ref]), ref, msg).value;
      |tx'.filed| == |batch| + 1 && RowsTold(db, refs, batch + [msg], tx') && FoundFirst(batch + [msg], refs, tx')
  {
    hide File, Reasons, FirstOf, Latest, Upsert, Sound;
    var (mid, ref) := Upsert(tx.db, msg.key, msg.name, msg.project, newId).value;
    var tx1 := tx.(db := mid, found := tx.found[msg.key := ref]);
    var tx' := File(tx1, ref, msg).value;
    forall key
      ensures Upserting(batch + [msg], refs, key) ==
        if key == msg.key then [msg] else Upserting(batch, refs, key)
    {
      NextFirst(batch, msg, key);
    }
    assert Upserting(batch, refs, msg.key) == [];
    forall id | id in tx'.db.containers
      ensures RowTold(db, refs, batch + [msg], tx', id)
    {
      UpsertedRow(tx.db, msg.key, msg.name, msg.project, newId, id);
      FiledRow(tx1, ref, msg, id);
      var key, known := tx'.db.containers[id].key, id in db.containers;
      NextFirst(batch, msg, key);
      if id in tx.db.containers {
        assert RowTold(db, refs, batch, tx, id);
      } else {
        NoReasons(batch, tx.filed, id, key);
      }
      NextReasons(batch, msg, tx.filed, ref, id, key, known);
      TwiceTold(db, refs, batch, tx, msg, tx', id, ref);
    }
  }

  // A row through both steps.
  lemma TwiceTold(
      db: Db, refs: map<GenKey, int>, batch: seq<Message>, tx: Tx, msg: Message, tx': Tx, id: int, ref: int)
    requires |tx.filed| == |batch| && RowsTold(db, refs, batch, tx) && id in tx'.db.containers
    requires db.containers.Keys <= tx.db.containers.Keys
    requires tx'.filed == tx.filed + [ref]
    requires forall k :: k in db.containers ==> tx.db.containers[k].key == db.containers[k].key
    requires Upserting(batch, refs, msg.key) == []
    requires forall key ::
      Upserting(batch + [msg], refs, key) == (if key == msg.key then [msg] else Upserting(batch, refs, key))
    requires FirstOf(batch + [msg], tx'.db.containers[id].key) != [] || id in db.containers
    requires id in tx.db.containers ==> tx'.db.containers[id].key == tx.db.containers[id].key
    requires id !in tx.db.containers ==> tx'.db.containers[id].key == msg.key
    requires
      var key, known := tx'.db.containers[id].key, id in db.containers;
      Reasons(batch + [msg], tx'.filed, id, key, known) ==
      Reasons(batch, tx.filed, id, key, known) + if msg.DoneMsg? && ref == id then [msg.reason] else []
    requires
      var g, was := tx'.db.containers[id], Before(tx.db, id, tx'.db.containers[id].key);
      && g.name == (if g.key == msg.key then Latest(was.name, [msg.name]) else was.name)
      && g.project == (if g.key == msg.key then Latest(was.project, [msg.project]) else was.project)
      && g.reason == Latest(was.reason, if msg.DoneMsg? && ref == id then [msg.reason] else [])
      && g.removed == was.removed
    requires id !in tx.db.containers ==> Reasons(batch, tx.filed, id, tx'.db.containers[id].key, false) == []
    ensures RowTold(db, refs, batch + [msg], tx', id)
  {
    hide Reasons, FirstOf, Latest, Upserting;
    var key := tx'.db.containers[id].key;
    var was := Before(db, id, key);
    assert Names([msg]) == [msg.name] && Projects([msg]) == [msg.project];
    LatestNothing(was.name);
    LatestNothing(was.project);
    LatestNothing(was.reason);
    if id in tx.db.containers {
      assert RowTold(db, refs, batch, tx, id);
      LatestConcat(
        was.reason, Reasons(batch, tx.filed, id, key, id in db.containers),
        if msg.DoneMsg? && ref == id then [msg.reason] else []);
      assert Names([]) == [] && Projects([]) == [];
    } else {
      assert [] + (if msg.DoneMsg? && ref == id then [msg.reason] else []) ==
        if msg.DoneMsg? && ref == id then [msg.reason] else [];
    }
  }

  lemma LatestNothing(prior: string)
    ensures Latest(prior, []) == prior
  {}

  lemma ApplyTold(db: Db, refs: map<GenKey, int>, batch: seq<Message>, tx: Tx, msg: Message, newId: int)
    requires |tx.filed| == |batch| && RowsTold(db, refs, batch, tx) && FoundFirst(batch, refs, tx)
    requires Sound(tx.db) && db.containers.Keys <= tx.db.containers.Keys
    requires forall id :: id in db.containers ==> tx.db.containers[id].key == db.containers[id].key
    requires Apply(tx, refs, msg, newId).Some?
    ensures
      var tx' := Apply(tx, refs, msg, newId).value;
      |tx'.filed| == |batch| + 1 && RowsTold(db, refs, batch + [msg], tx') && FoundFirst(batch + [msg], refs, tx')
  {
    hide Sound, File, Upsert, RowsTold, FoundFirst, HasKey;
    if msg.key in refs {
      FileSound(tx, refs[msg.key], msg);
      FileTold(db, refs, batch, tx, refs[msg.key], msg);
    } else if msg.key in tx.found {
      FileSound(tx, tx.found[msg.key], msg);
      FileTold(db, refs, batch, tx, tx.found[msg.key], msg);
    } else {
      UpsertSound(tx.db, msg.key, msg.name, msg.project, newId);
      var (mid, ref) := Upsert(tx.db, msg.key, msg.name, msg.project, newId).value;
      FileSound(tx.(db := mid, found := tx.found[msg.key := ref]), ref, msg);
      UpsertTold(db, refs, batch, tx, msg, newId);
    }
  }

  lemma KeysKept(db: Db, db': Db, refs: map<GenKey, int>)
    requires Extends(db, db', refs)
    ensures db.containers.Keys <= db'.containers.Keys
    ensures forall id :: id in db.containers ==> db'.containers[id].key == db.containers[id].key
  {
    forall id | id in db.containers
      ensures id in db'.containers && db'.containers[id].key == db.containers[id].key
    {
      assert HasKey(db', id, db.containers[id].key);
    }
  }

  lemma NothingTold(db: Db, refs: map<GenKey, int>)
    ensures RowsTold(db, refs, [], Tx(db, map[], [])) && FoundFirst([], refs, Tx(db, map[], []))
  {
    assert Names([]) == [] && Projects([]) == [];
  }

  // A committed batch leaves every row with the last name and project that are not
  // empty it was upserted with, or with those it had; an empty one changes nothing.
  lemma {:induction false} RunTold(db: Db, refs: map<GenKey, int>, batch: seq<Message>, ids: seq<int>)
    requires |ids| == |batch| && Sound(db) && Run(db, refs, batch, ids).Some?
    ensures
      var tx := Run(db, refs, batch, ids).value;
      |tx.filed| == |batch| && RowsTold(db, refs, batch, tx) && FoundFirst(batch, refs, tx)
  {
    hide Sound, Apply, RowsTold, FoundFirst, Extends, FoundValid, HasKey;
    if batch == [] {
      NothingTold(db, refs);
    } else {
      var n := |batch| - 1;
      RunTold(db, refs, batch[..n], ids[..n]);
      RunSound(db, refs, batch[..n], ids[..n]);
      var tx := Run(db, refs, batch[..n], ids[..n]).value;
      KeysKept(db, tx.db, refs);
      ApplyTold(db, refs, batch[..n], tx, batch[n], ids[n]);
      assert batch == batch[..n] + [batch[n]];
    }
  }

  // ------------------------------------------------------------- many batches

  // All messages a generation was upserted with, oldest first.
  function AllUpserting(commits: seq<Committed>, key: GenKey): seq<Message> {
    if commits == [] then []
    else
      var last := commits[|commits| - 1];
      AllUpserting(commits[..|commits| - 1], key) + Upserting(last.batch, last.refs, key)
  }

  // A generation that was upserted has a row.
  ghost predicate UpsertedKnown(commits: seq<Committed>, db: Db) {
    forall key :: AllUpserting(commits, key) != [] ==> Known(db, key)
  }

  ghost predicate LastTold(commits: seq<Committed>, db: Db) {
    forall id :: id in db.containers ==>
      var g := db.containers[id];
      var sent := AllUpserting(commits, g.key);
      g.name == Latest("", Names(sent)) && g.project == Latest("", Projects(sent))
  }

  lemma NamesConcat(a: seq<Message>, b: seq<Message>)
    ensures Names(a + b) == Names(a) + Names(b) && Projects(a + b) == Projects(a) + Projects(b)
  {}

  lemma ToldStep(commits: seq<Committed>, before: Db, last: Committed, db: Db)
    requires Sound(before) && LastTold(commits, before) && UpsertedKnown(commits, before)
    requires |last.ids| == |last.batch| && Run(before, last.refs, last.batch, last.ids).Some?
    requires db == Run(before, last.refs, last.batch, last.ids).value.db
    ensures LastTold(commits + [last], db) && UpsertedKnown(commits + [last], db)
  {
    hide Sound, Run, Latest, Upserting, Reasons, FirstOf, Extends, FoundValid;
    var all := commits + [last];
    assert all[..|all| - 1] == commits;
    var tx := Run(before, last.refs, last.batch, last.ids).value;
    RunTold(before, last.refs, last.batch, last.ids);
    RunSound(before, last.refs, last.batch, last.ids);
    KeysKept(before, db, last.refs);
    assert UpsertedKnown(all, db) by {
      forall key | AllUpserting(all, key) != []
        ensures Known(db, key)
      {
        if AllUpserting(commits, key) != [] {
          var id :| id in before.containers && before.containers[id].key == key;
          assert id in db.containers;
        } else {
          FoundKey(tx, last.refs, key);
        }
      }
    }
    forall id | id in db.containers
      ensures
        var g := db.containers[id];
        var sent := AllUpserting(all, g.key);
        g.name == Latest("", Names(sent)) && g.project == Latest("", Projects(sent))
    {
      assert RowTold(before, last.refs, last.batch, tx, id);
      var key := db.containers[id].key;
      var a, b := AllUpserting(commits, key), Upserting(last.batch, last.refs, key);
      NamesConcat(a, b);
      LatestConcat("", Names(a), Names(b));
      LatestConcat("", Projects(a), Projects(b));
      if id !in before.containers {
        NewKey(before, db, id);
        assert a == [];
        assert Names([]) == [] && Projects([]) == [];
        LatestNothing("");
      }
    }
  }

  // A new row's generation had none.
  lemma NewKey(before: Db, db: Db, id: int)
    requires Sound(db) && id in db.containers && id !in before.containers
    requires before.containers.Keys <= db.containers.Keys
    requires forall k :: k in before.containers ==> db.containers[k].key == before.containers[k].key
    ensures !Known(before, db.containers[id].key)
  {}

  // After any batches each row has the last name and project it was sent that are not
  // empty.
  lemma {:induction false} CommitsTold(commits: seq<Committed>, db: Db)
    requires CommitsTo(commits, db)
    ensures LastTold(commits, db) && UpsertedKnown(commits, db)
  {
    hide Latest, Upserting, Run, Sound;
    if commits != [] {
      var last := commits[|commits| - 1];
      var before :| CommitsTo(commits[..|commits| - 1], before)
        && |last.ids| == |last.batch|
        && CacheGood(before, last.refs, last.batch)
        && Run(before, last.refs, last.batch, last.ids).Some?
        && db == Run(before, last.refs, last.batch, last.ids).value.db;
      CommitsTold(commits[..|commits| - 1], before);
      StoredIsCarried(commits[..|commits| - 1], before);
      ToldStep(commits[..|commits| - 1], before, last, db);
      assert commits == commits[..|commits| - 1] + [last];
    }
  }

  // ------------------------------------------------------------------ every run

  // A run of the writers' system from any sound state.
  ghost predicate Trace(states: seq<Sys>, events: seq<Event>) {
    && |states| == |events| + 1 && WellFormed(states[0])
    && forall i :: 0 <= i < |events| ==> Enabled(states[i], events[i]) && states[i + 1] == Next(states[i], events[i])
  }

  // The names an event tells the row of a generation.
  function Told(s: Sys, e: Event, key: GenKey): seq<string> {
    match e
    case WriterCommit => if WriterHolds(s) then Names(Upserting(s.writer.batch, s.refs, key)) else []
    case MetaUpsert(k, name, _, _) => if k == key then [name] else []
    case _ => []
  }

  // A listing tells its own row and takes its removed mark back.
  lemma ListedRow(db: Db, key: GenKey, name: string, project: string, newId: int, id: int)
    requires Sound(db) && Upsert(db, key, name, project, newId).Some? && id in db.containers
    ensures
      var (mid, ref) := Upsert(db, key, name, project, newId).value;
      && ref in mid.containers && id in mid.containers
      && var g, g' := db.containers[id], SetRemoved(mid, ref, false).containers[id];
      && g'.key == g.key && g'.name == Latest(g.name, if key == g.key then [name] else [])
      && g'.removed == (g.removed && key != g.key) && g'.reason == g.reason
  {
    hide Sound, Upsert;
    UpsertSound(db, key, name, project, newId);
    UpsertedRow(db, key, name, project, newId, id);
    var (mid, ref) := Upsert(db, key, name, project, newId).value;
    LatestNothing(db.containers[id].name);
    OneRow(mid, ref, id);
  }

  lemma OneRow(db: Db, a: int, b: int)
    requires Sound(db) && a in db.containers && b in db.containers
    ensures db.containers[a].key == db.containers[b].key <==> a == b
  {}

  // One event and one row: its name follows what it is told, a listing takes its
  // removed mark back, and only a batch changes its reason.
  lemma StepName(s: Sys, e: Event, id: int)
    requires WellFormed(s) && Enabled(s, e) && id in s.db.containers && id in Next(s, e).db.containers
    ensures
      var g, g' := s.db.containers[id], Next(s, e).db.containers[id];
      && g'.key == g.key && g'.name == Latest(g.name, Told(s, e, g.key))
      && g'.removed == ((g.removed && !(e.MetaUpsert? && e.key == g.key)) || (e.MarkRemoved? && e.id == id))
      && (g'.reason == g.reason || e.WriterCommit?)
  {
    hide Sound, Run, Upsert, Upserting, Freed, Empty, FirstOf, Reasons, Keep;
    match e
    case WriterCommit =>
      RunTold(s.db, s.refs, s.writer.batch, s.writer.ids);
      RunSound(s.db, s.refs, s.writer.batch, s.writer.ids);
      var tx := Run(s.db, s.refs, s.writer.batch, s.writer.ids).value;
      KeysKept(s.db, tx.db, s.refs);
      assert RowTold(s.db, s.refs, s.writer.batch, tx, id);
    case MetaUpsert(key, name, project, newId) =>
      ListedRow(s.db, key, name, project, newId, id);
    case _ =>
  }

  function AllTold(states: seq<Sys>, events: seq<Event>, i: nat, j: nat, key: GenKey): seq<string>
    requires i <= j <= |events| <= |states|
  {
    if i == j then [] else AllTold(states, events, i, j - 1, key) + Told(states[j - 1], events[j - 1], key)
  }

  lemma {:induction false} TraceSound(states: seq<Sys>, events: seq<Event>, i: nat)
    requires Trace(states, events) && i <= |events|
    ensures WellFormed(states[i])
  {
    hide WellFormed, Enabled, Next;
    if i > 0 {
      TraceSound(states, events, i - 1);
      assert Enabled(states[i - 1], events[i - 1]);
      StepWellFormed(states[i - 1], events[i - 1]);
    }
  }

  // Over any stretch of any run a row stays its generation's, and its name is the last
  // one told that is not empty, or the one it had.
  lemma {:induction false} TraceName(states: seq<Sys>, events: seq<Event>, i: nat, j: nat, id: int)
    requires Trace(states, events) && i <= j <= |events|
    requires forall k :: i <= k <= j ==> id in states[k].db.containers
    ensures
      var g, g' := states[i].db.containers[id], states[j].db.containers[id];
      g'.key == g.key && g'.name == Latest(g.name, AllTold(states, events, i, j, g.key))
    decreases j
  {
    hide WellFormed, Enabled, Next, Told, Latest;
    var g := states[i].db.containers[id];
    if i == j {
      LatestNothing(g.name);
    } else {
      TraceName(states, events, i, j - 1, id);
      TraceSound(states, events, j - 1);
      assert Enabled(states[j - 1], events[j - 1]) && states[j] == Next(states[j - 1], events[j - 1]);
      StepName(states[j - 1], events[j - 1], id);
      LatestConcat(g.name, AllTold(states, events, i, j - 1, g.key), Told(states[j - 1], events[j - 1], g.key));
    }
  }

  // A name that is not empty never becomes empty: the row stays in a logical container
  // for as long as it exists.
  lemma StaysNamed(states: seq<Sys>, events: seq<Event>, i: nat, j: nat, id: int)
    requires Trace(states, events) && i <= j <= |events|
    requires forall k :: i <= k <= j ==> id in states[k].db.containers
    requires states[i].db.containers[id].name != ""
    ensures
      var g := states[j].db.containers[id];
      g.name != "" && id in IdsNamed(states[j].db, states[i].db.containers[id].key.host, g.name)
  {
    hide WellFormed, Enabled, Next, Latest, AllTold;
    var g := states[i].db.containers[id];
    TraceName(states, events, i, j, id);
    LatestKeeps(g.name, AllTold(states, events, i, j, g.key));
  }
}
