// The store's goroutines around the ingest queue, from start to the last batch:
// the live sink, the sync loop and its backfills, the shutdown sequence that closes
// the queue, and the writer that drains it.
module Shutdown {
  import opened LogStore

  const INGEST_BUFFER := 8192

  // How far the shutdown goroutine has got: waiting for cancellation, the sink
  // unsubscribed, its producer released once the sync loop stopped, no producer
  // left, and the queue closed.
  datatype Closer = Waiting | Unsubscribed | Released | Drained | Closed

  datatype SyncLoop = Idle | Syncing | Stopped

  // retired are the generations that lost their gap mark since the batch was flushed.
  datatype Batch = Batch(messages: seq<Message>, committed: bool, retired: set<GenKey>)

  // retired are the generations that lost their gap mark since the sink got the message.
  datatype Handed = Handed(message: Message, retired: set<GenKey>)

  // healing is the sync loop's note of the gap it last scheduled a generation's
  // backfill for. sent, panicked, batches and handed are not fields: they record what
  // was put on the queue, a send on the closed queue, what became of every batch, and
  // what the sink was handed.
  datatype Sys = Sys(
    cancelled: bool, subscribed: bool, sync: SyncLoop, backfills: set<nat>, producers: int, closer: Closer,
    queue: seq<Message>, closed: bool, batch: seq<Message>, writerDone: bool, gaps: map<GenKey, int>,
    healing: map<GenKey, int>, sent: seq<Message>, panicked: bool, batches: seq<Batch>,
    handed: seq<Handed>)

  const INITIAL := Sys(false, true, Idle, {}, 1, Waiting, [], false, [], false, map[], map[], [], false, [], [])

  datatype Event =
    | Cancel
    | SinkSends(msg: Message)
    | SyncStarts
    | Notes(key: GenKey)
    | Registers(id: nat)
    | SyncEnds
    | SyncStops
    | Heals(key: GenKey)
    | Purges(keys: set<GenKey>)
    | BackfillSends(id: nat, msg: Message)
    | BackfillEnds(id: nat)
    | Unsubscribes
    | Releases
    | SeesDrained
    | ClosesQueue
    | Receives
    | Flushes(committed: bool)
    | WriterStops

  // A generation without an entry reads as zero.
  function Gap(gaps: map<GenKey, int>, key: GenKey): int {
    if key in gaps then gaps[key] else 0
  }

  // A goroutine's own position decides what it may do next: nothing here asks
  // whether the queue is closed. A sync that began before cancellation may still
  // register backfills after it, and a blocked backfill gives up on cancellation.
  // A sync notes a gap that is not the one noted before, a successful backfill
  // heals the noted one, and a purge may come at any time.
  predicate Enabled(s: Sys, e: Event) {
    match e
    case Cancel => !s.cancelled
    case SinkSends(_) => s.subscribed
    case SyncStarts => s.sync == Idle && !s.cancelled
    case Notes(key) => s.sync == Syncing && Gap(s.gaps, key) != 0 && Gap(s.gaps, key) != Gap(s.healing, key)
    case Registers(id) => s.sync == Syncing && id !in s.backfills
    case SyncEnds => s.sync == Syncing
    case SyncStops => s.sync == Idle && s.cancelled
    case Heals(key) => s.sync == Idle && Gap(s.healing, key) != 0
    case Purges(_) => true
    case BackfillSends(id, _) => id in s.backfills && (s.closed || |s.queue| < INGEST_BUFFER)
    case BackfillEnds(id) => id in s.backfills
    case Unsubscribes => s.closer == Waiting && s.cancelled
    case Releases => s.closer == Unsubscribed && s.sync == Stopped
    case SeesDrained => s.closer == Released && s.producers == 0
    case ClosesQueue => s.closer == Drained
    case Receives => !s.writerDone && s.queue != []
    case Flushes(_) => !s.writerDone && s.batch != []
    case WriterStops => !s.writerDone && s.closed && s.queue == [] && s.batch == []
  }

  // The generations whose mark an event retires: a healed gap, unless an older line
  // was dropped since it was noted, and whatever is purged.
  function RetiredBy(s: Sys, e: Event): set<GenKey> {
    match e
    case Heals(key) => if Gap(s.gaps, key) == Gap(s.healing, key) then {key} else {}
    case Purges(keys) => keys
    case _ => {}
  }

  function Retire(s: Sys, keys: set<GenKey>): Sys {
    s.(gaps := s.gaps - keys,
       batches := seq(|s.batches|, i requires 0 <= i < |s.batches| =>
         s.batches[i].(retired := s.batches[i].retired + keys)),
       handed := seq(|s.handed|, i requires 0 <= i < |s.handed| =>
         s.handed[i].(retired := s.handed[i].retired + keys)))
  }

  function Enqueue(s: Sys, m: Message): Sys {
    if s.closed then s.(panicked := true)
    else if |s.queue| < INGEST_BUFFER then s.(queue := s.queue + [m], sent := s.sent + [m])
    else s.(gaps := Mark(s.gaps, m))
  }

  function Next(s: Sys, e: Event): Sys
    requires Enabled(s, e)
  {
    match e
    case Cancel => s.(cancelled := true)
    case SinkSends(m) => Enqueue(s.(handed := s.handed + [Handed(m, {})]), m)
    case SyncStarts => s.(sync := Syncing)
    case Notes(key) => s.(healing := s.healing[key := Gap(s.gaps, key)])
    case Registers(id) => s.(backfills := s.backfills + {id}, producers := s.producers + 1)
    case SyncEnds => s.(sync := Idle)
    case SyncStops => s.(sync := Stopped)
    case Heals(key) => Retire(s, RetiredBy(s, e)).(healing := s.healing - {key})
    case Purges(_) => Retire(s, RetiredBy(s, e))
    case BackfillSends(_, m) => Enqueue(s, m)
    case BackfillEnds(id) => s.(backfills := s.backfills - {id}, producers := s.producers - 1)
    case Unsubscribes => s.(subscribed := false, closer := Unsubscribed)
    case Releases => s.(producers := s.producers - 1, closer := Released)
    case SeesDrained => s.(closer := Drained)
    case ClosesQueue => s.(closed := true, closer := Closed)
    case Receives => s.(queue := s.queue[1..], batch := s.batch + [s.queue[0]])
    case Flushes(committed) =>
      s.(batch := [], batches := s.batches + [Batch(s.batch, committed, {})],
         gaps := if committed then s.gaps else MarkAll(s.gaps, s.batch))
    case WriterStops => s.(writerDone := true)
  }

  // The messages of the batches, in order.
  function Flushed(batches: seq<Batch>): seq<Message> {
    if batches == [] then [] else Flushed(batches[..|batches| - 1]) + batches[|batches| - 1].messages
  }

  predicate Marked(gaps: map<GenKey, int>, m: Message) {
    m.LineMsg? ==> m.key in gaps && gaps[m.key] <= m.line.tsNS
  }

  // Every line of a failed batch is marked still, or its mark was retired since.
  predicate FailuresMarked(gaps: map<GenKey, int>, batches: seq<Batch>) {
    forall b, m :: b in batches && m in b.messages && !b.committed ==> m.key in b.retired || Marked(gaps, m)
  }

  // Every message the sink was handed was put on the queue, or its line is marked as a
  // gap still, or that mark was retired since.
  predicate SinkKept(s: Sys) {
    forall h :: h in s.handed ==>
      h.message in s.sent || h.message.key in h.retired || Marked(s.gaps, h.message)
  }

  // The order of shutdown.
  predicate InSequence(s: Sys) {
    && s.producers == |s.backfills| + (if s.closer.Waiting? || s.closer.Unsubscribed? then 1 else 0)
    && (s.closer != Waiting ==> s.cancelled && !s.subscribed)
    && (s.closer.Released? || s.closer.Drained? || s.closer.Closed? ==> s.sync == Stopped)
    && (s.closer.Drained? || s.closer.Closed? ==> s.backfills == {})
    && (s.closed <==> s.closer == Closed)
    && (s.sync == Stopped ==> s.cancelled)
    && (s.writerDone ==> s.closed && s.queue == [] && s.batch == [])
  }

  ghost predicate Orderly(s: Sys) {
    && InSequence(s) && !s.panicked
    && s.sent == Flushed(s.batches) + s.batch + s.queue
    && FailuresMarked(s.gaps, s.batches)
    && SinkKept(s)
  }

  lemma {:induction false} MarkAllMarks(gaps: map<GenKey, int>, batch: seq<Message>)
    ensures forall m :: m in batch ==> Marked(MarkAll(gaps, batch), m)
    ensures forall m :: Marked(gaps, m) ==> Marked(MarkAll(gaps, batch), m)
  {
    if batch != [] {
      var init, last := batch[..|batch| - 1], batch[|batch| - 1];
      MarkAllMarks(gaps, init);
      assert batch == init + [last];
    }
  }

  lemma StepInSequence(s: Sys, e: Event)
    requires InSequence(s) && Enabled(s, e)
    ensures InSequence(Next(s, e)) && Next(s, e).panicked == s.panicked
  {
    hide InSequence, Enqueue, Retire, RetiredBy, Next, Enabled;
    if e.SinkSends? || e.BackfillSends? {
      SendInSequence(s, e);
    } else if e.SyncStarts? || e.Notes? || e.Registers? || e.SyncEnds? || e.SyncStops? {
      SyncInSequence(s, e);
    } else if e.Heals? || e.Purges? {
      RetireInSequence(s, e);
    } else if e.Receives? || e.Flushes? || e.WriterStops? {
      WriterInSequence(s, e);
    } else {
      CloserInSequence(s, e);
    }
  }

  lemma SendInSequence(s: Sys, e: Event)
    requires InSequence(s) && Enabled(s, e) && (e.SinkSends? || e.BackfillSends?)
    ensures InSequence(Next(s, e)) && Next(s, e).panicked == s.panicked
  {
    hide Enqueue;
    assert !s.closed;
    if e.SinkSends? {
      EnqueueInSequence(s.(handed := s.handed + [Handed(e.msg, {})]), e.msg);
    } else {
      EnqueueInSequence(s, e.msg);
    }
  }

  lemma SyncInSequence(s: Sys, e: Event)
    requires InSequence(s) && Enabled(s, e)
    requires e.SyncStarts? || e.Notes? || e.Registers? || e.SyncEnds? || e.SyncStops?
    ensures InSequence(Next(s, e)) && Next(s, e).panicked == s.panicked
  {
    hide Gap;
  }

  lemma RetireInSequence(s: Sys, e: Event)
    requires InSequence(s) && Enabled(s, e) && (e.Heals? || e.Purges?)
    ensures InSequence(Next(s, e)) && Next(s, e).panicked == s.panicked
  {
    hide Gap, RetiredBy;
  }

  lemma WriterInSequence(s: Sys, e: Event)
    requires InSequence(s) && Enabled(s, e) && (e.Receives? || e.Flushes? || e.WriterStops?)
    ensures InSequence(Next(s, e)) && Next(s, e).panicked == s.panicked
  {
    hide MarkAll;
  }

  lemma CloserInSequence(s: Sys, e: Event)
    requires InSequence(s) && Enabled(s, e)
    requires e.Cancel? || e.BackfillEnds? || e.Unsubscribes? || e.Releases? || e.SeesDrained? || e.ClosesQueue?
    ensures InSequence(Next(s, e)) && Next(s, e).panicked == s.panicked
  {}

  lemma EnqueueInSequence(s: Sys, m: Message)
    requires InSequence(s) && !s.closed
    ensures InSequence(Enqueue(s, m)) && Enqueue(s, m).panicked == s.panicked
  {
    hide Mark;
  }

  lemma OneMoreBatch(batches: seq<Batch>, b: Batch)
    ensures Flushed(batches + [b]) == Flushed(batches) + b.messages
  {
    assert (batches + [b])[..|batches|] == batches;
  }

  lemma {:induction false} RetireKeepsMessages(s: Sys, keys: set<GenKey>)
    ensures Flushed(Retire(s, keys).batches) == Flushed(s.batches)
    decreases |s.batches|
  {
    if s.batches != [] {
      var n := |s.batches| - 1;
      RetireKeepsMessages(s.(batches := s.batches[..n]), keys);
      assert Retire(s, keys).batches[..n] == Retire(s.(batches := s.batches[..n]), keys).batches;
    }
  }

  lemma StepConserves(s: Sys, e: Event)
    requires Orderly(s) && Enabled(s, e)
    ensures Next(s, e).sent == Flushed(Next(s, e).batches) + Next(s, e).batch + Next(s, e).queue
  {
    hide InSequence, FailuresMarked, MarkAll, Mark, Flushed, Retire;
    var flushed := Flushed(s.batches);
    if e.Flushes? {
      OneMoreBatch(s.batches, Batch(s.batch, e.committed, {}));
      assert flushed + s.batch + [] + s.queue == flushed + s.batch + s.queue;
    } else if e.Receives? {
      assert flushed + (s.batch + [s.queue[0]]) + s.queue[1..] == flushed + s.batch + s.queue;
    } else if e.SinkSends? || e.BackfillSends? {
      assert flushed + s.batch + (s.queue + [e.msg]) == flushed + s.batch + s.queue + [e.msg];
    } else if e.Heals? || e.Purges? {
      RetireKeepsMessages(s, RetiredBy(s, e));
      RetireKeepsQueue(s, RetiredBy(s, e));
    }
  }

  lemma RetireKeepsQueue(s: Sys, keys: set<GenKey>)
    ensures
      var s' := Retire(s, keys);
      s'.sent == s.sent && s'.batch == s.batch && s'.queue == s.queue && |s'.batches| == |s.batches|
  {}

  // What one event makes of the batches flushed before.
  lemma BatchesStep(s: Sys, e: Event)
    requires Enabled(s, e)
    ensures
      var bs := Next(s, e).batches;
      if e.Flushes? then bs == s.batches + [Batch(s.batch, e.committed, {})]
      else
        && |bs| == |s.batches|
        && forall i :: 0 <= i < |bs| ==> bs[i] == s.batches[i].(retired := s.batches[i].retired + RetiredBy(s, e))
  {
    hide Enabled, Enqueue, MarkAll;
    match e
    case SinkSends(m) => EnqueueStep(s.(handed := s.handed + [Handed(m, {})]), m);
    case BackfillSends(_, m) => EnqueueStep(s, m);
    case _ =>
  }

  lemma EnqueueStep(s: Sys, m: Message)
    ensures
      var s' := Enqueue(s, m);
      && s'.batches == s.batches && s'.handed == s.handed && s.sent <= s'.sent
      && (s'.gaps == s.gaps || s'.gaps == Mark(s.gaps, m))
      && (s.closed || |s.queue| < INGEST_BUFFER ==> s'.gaps == s.gaps)
  {
    hide Mark;
  }

  // What one event makes of the gaps.
  lemma GapsStep(s: Sys, e: Event)
    requires Enabled(s, e)
    ensures
      var gaps := Next(s, e).gaps;
      if e.Heals? || e.Purges? then gaps == s.gaps - RetiredBy(s, e)
      else if e == Flushes(false) then gaps == MarkAll(s.gaps, s.batch)
      else gaps == s.gaps || (e.SinkSends? && gaps == Mark(s.gaps, e.msg))
  {
    hide Mark, MarkAll, Enqueue;
    match e
    case SinkSends(m) => EnqueueStep(s.(handed := s.handed + [Handed(m, {})]), m);
    case BackfillSends(_, m) => EnqueueStep(s, m);
    case _ =>
  }

  // What one event makes of what the sink was handed before.
  lemma HandedStep(s: Sys, e: Event)
    requires Enabled(s, e)
    ensures
      var hs := Next(s, e).handed;
      && s.sent <= Next(s, e).sent
      && if e.SinkSends? then hs == s.handed + [Handed(e.msg, {})]
         else
           && |hs| == |s.handed|
           && forall i :: 0 <= i < |hs| ==> hs[i] == s.handed[i].(retired := s.handed[i].retired + RetiredBy(s, e))
  {
    hide Enabled, Enqueue, MarkAll;
    match e
    case SinkSends(m) => EnqueueStep(s.(handed := s.handed + [Handed(m, {})]), m);
    case BackfillSends(_, m) => EnqueueStep(s, m);
    case _ =>
  }

  // The sink never loses a message: with room in the queue it is sent, and a line that
  // finds the queue full leaves a gap at or before it.
  lemma SinkSendsKeeps(s: Sys, m: Message)
    requires InSequence(s) && Enabled(s, SinkSends(m))
    ensures
      var s' := Next(s, SinkSends(m));
      if |s.queue| < 8192 then s'.sent == s.sent + [m] && s'.queue == s.queue + [m] && s'.gaps == s.gaps
      else s'.sent == s.sent && s'.queue == s.queue && Marked(s'.gaps, m)
  {}

  // A sync notes the gap in effect. The backfill that heals it takes the note and
  // clears the gap, unless an older line was dropped since and moved it.
  lemma NotesGap(s: Sys, key: GenKey)
    requires Enabled(s, Notes(key))
    ensures
      var noted := Next(s, Notes(key));
      && key in s.gaps && noted.healing == s.healing[key := s.gaps[key]] && noted.gaps == s.gaps
  {}

  lemma HealClears(s: Sys, key: GenKey)
    requires Enabled(s, Heals(key))
    ensures
      var healed := Next(s, Heals(key));
      && key in s.healing && healed.healing == s.healing - {key}
      && healed.gaps == if key in s.gaps && s.gaps[key] == s.healing[key] then s.gaps - {key} else s.gaps
  {}

  // A failed batch leaves a mark at or before each of its lines.
  lemma FailedFlushMarks(s: Sys)
    requires Enabled(s, Flushes(false))
    ensures
      var s' := Next(s, Flushes(false));
      && s'.batches == s.batches + [Batch(s.batch, false, {})]
      && forall m :: m in s.batch ==> Marked(s'.gaps, m)
  {
    MarkAllMarks(s.gaps, s.batch);
  }

  // One event takes a line's mark away exactly when it heals the gap in effect or
  // purges the generation.
  lemma MarkLostIff(s: Sys, e: Event, m: Message)
    requires Enabled(s, e) && m.LineMsg? && Marked(s.gaps, m)
    ensures !Marked(Next(s, e).gaps, m) <==> m.key in RetiredBy(s, e)
  {
    hide Next, Enabled;
    GapsStep(s, e);
    if e == Flushes(false) {
      MarkAllMarks(s.gaps, s.batch);
    }
  }

  lemma StepMarks(s: Sys, e: Event)
    requires Orderly(s) && Enabled(s, e)
    ensures FailuresMarked(Next(s, e).gaps, Next(s, e).batches)
  {
    hide InSequence, Flushed, MarkAll, Mark, Marked;
    var s' := Next(s, e);
    forall b', m | b' in s'.batches && m in b'.messages && !b'.committed && m.key !in b'.retired
      ensures Marked(s'.gaps, m)
    {
      if e == Flushes(false) && b' == Batch(s.batch, false, {}) {
        FailedFlushMarks(s);
      } else {
        var b := EarlierBatch(s, e, b');
        StillMarked(s, e, m);
      }
    }
  }

  lemma StillMarked(s: Sys, e: Event, m: Message)
    requires Enabled(s, e) && Marked(s.gaps, m) && m.key !in RetiredBy(s, e)
    ensures Marked(Next(s, e).gaps, m)
  {
    if m.LineMsg? {
      MarkLostIff(s, e, m);
    }
  }

  lemma StepHanded(s: Sys, e: Event)
    requires Orderly(s) && Enabled(s, e)
    ensures SinkKept(Next(s, e))
  {
    hide Next, Enabled, FailuresMarked, Flushed, Marked;
    var s' := Next(s, e);
    HandedStep(s, e);
    forall h' | h' in s'.handed
      ensures h'.message in s'.sent || h'.message.key in h'.retired || Marked(s'.gaps, h'.message)
    {
      var i :| 0 <= i < |s'.handed| && s'.handed[i] == h';
      if i == |s.handed| {
        SinkSendsKeeps(s, h'.message);
      } else {
        var h := s.handed[i];
        assert h in s.handed && h'.message == h.message && h.retired <= h'.retired;
        if h.message !in s.sent && h.message.key !in h'.retired {
          KeptMark(s, e, h, h');
        }
      }
    }
  }

  lemma KeptMark(s: Sys, e: Event, h: Handed, h': Handed)
    requires Enabled(s, e) && Marked(s.gaps, h.message) && h.message.key !in h'.retired
    requires h' == h || h' == h.(retired := h.retired + RetiredBy(s, e))
    requires h' == h ==> e.SinkSends? || RetiredBy(s, e) <= h.retired
    ensures Marked(Next(s, e).gaps, h.message)
  {
    hide Next, Enabled, Marked;
    StillMarked(s, e, h.message);
  }

  lemma FlushRetiresNothing(s: Sys, e: Event)
    requires e.Flushes?
    ensures RetiredBy(s, e) == {}
  {}

  // A batch that was flushed before, as it was before the event.
  lemma EarlierBatch(s: Sys, e: Event, b': Batch) returns (b: Batch)
    requires Enabled(s, e) && b' in Next(s, e).batches
    requires e == Flushes(b'.committed) ==> b' != Batch(s.batch, b'.committed, {})
    ensures b in s.batches && b' == b.(retired := b.retired + RetiredBy(s, e))
  {
    hide Next, Enabled, RetiredBy;
    BatchesStep(s, e);
    var i :| 0 <= i < |Next(s, e).batches| && Next(s, e).batches[i] == b';
    if e.Flushes? {
      FlushRetiresNothing(s, e);
    }
    b := s.batches[i];
  }

  ghost predicate Reaches(events: seq<Event>, s: Sys) {
    if events == [] then s == INITIAL
    else
      var e := events[|events| - 1];
      exists before :: Reaches(events[..|events| - 1], before) && Enabled(before, e) && s == Next(before, e)
  }

  // In every interleaving nothing is ever sent on the closed queue, every message
  // put on the queue is in exactly one batch, in order, or still on its way, and
  // the lines of every failed batch are marked as gaps until the mark is retired.
  lemma {:induction false} AlwaysOrderly(events: seq<Event>, s: Sys)
    requires Reaches(events, s)
    ensures Orderly(s)
  {
    if events != [] {
      var e := events[|events| - 1];
      var before :| Reaches(events[..|events| - 1], before) && Enabled(before, e) && s == Next(before, e);
      hide Reaches, Enabled, Next, InSequence, FailuresMarked, SinkKept, Flushed;
      AlwaysOrderly(events[..|events| - 1], before);
      StepInSequence(before, e);
      StepConserves(before, e);
      StepMarks(before, e);
      StepHanded(before, e);
    }
  }

  function FlushCount(events: seq<Event>): nat {
    if events == [] then 0
    else FlushCount(events[..|events| - 1]) + if events[|events| - 1].Flushes? then 1 else 0
  }

  predicate Names(e: Event, key: GenKey) {
    e == Heals(key) || (e.Purges? && key in e.keys)
  }

  // A mark is retired only by a healing or a purge of its generation that comes
  // after the batch was flushed.
  lemma {:induction false} RetiredByEvent(events: seq<Event>, s: Sys, i: nat, key: GenKey) returns (j: nat)
    requires Reaches(events, s) && i < |s.batches| && key in s.batches[i].retired
    ensures |s.batches| == FlushCount(events)
    ensures j < |events| && Names(events[j], key) && FlushCount(events[..j]) > i
  {
    var n := |events| - 1;
    var e := events[n];
    var before :| Reaches(events[..n], before) && Enabled(before, e) && s == Next(before, e);
    hide Reaches, Enabled, Next;
    BatchesCounted(events[..n], before);
    BatchesStep(before, e);
    if i < |before.batches| && key in before.batches[i].retired {
      j := RetiredByEvent(events[..n], before, i, key);
      assert events[..n][..j] == events[..j];
    } else {
      j := n;
    }
  }

  lemma {:induction false} BatchesCounted(events: seq<Event>, s: Sys)
    requires Reaches(events, s)
    ensures |s.batches| == FlushCount(events)
  {
    if events != [] {
      var n := |events| - 1;
      var before :| Reaches(events[..n], before) && Enabled(before, events[n]) && s == Next(before, events[n]);
      hide Reaches, Enabled, Next;
      BatchesStep(before, events[n]);
      BatchesCounted(events[..n], before);
    }
  }

  function SinkCount(events: seq<Event>): nat {
    if events == [] then 0
    else SinkCount(events[..|events| - 1]) + if events[|events| - 1].SinkSends? then 1 else 0
  }

  // And for what the sink was handed, only by one that comes after the handing.
  lemma {:induction false} HandedRetiredByEvent(events: seq<Event>, s: Sys, i: nat, key: GenKey) returns (j: nat)
    requires Reaches(events, s) && i < |s.handed| && key in s.handed[i].retired
    ensures |s.handed| == SinkCount(events)
    ensures j < |events| && Names(events[j], key) && SinkCount(events[..j]) > i
  {
    var n := |events| - 1;
    var e := events[n];
    var before :| Reaches(events[..n], before) && Enabled(before, e) && s == Next(before, e);
    hide Reaches, Enabled, Next;
    HandedCounted(events[..n], before);
    HandedStep(before, e);
    if i < |before.handed| && key in before.handed[i].retired {
      j := HandedRetiredByEvent(events[..n], before, i, key);
      assert events[..n][..j] == events[..j];
    } else {
      j := n;
    }
  }

  lemma {:induction false} HandedCounted(events: seq<Event>, s: Sys)
    requires Reaches(events, s)
    ensures |s.handed| == SinkCount(events)
  {
    if events != [] {
      var n := |events| - 1;
      var before :| Reaches(events[..n], before) && Enabled(before, events[n]) && s == Next(before, events[n]);
      hide Reaches, Enabled, Next;
      HandedStep(before, events[n]);
      HandedCounted(events[..n], before);
    }
  }

  // What the sink was handed are the messages of its sends, in order.
  lemma {:induction false} HandedInOrder(events: seq<Event>, s: Sys, j: nat)
    requires Reaches(events, s) && j < |events| && events[j].SinkSends?
    ensures SinkCount(events[..j]) < |s.handed| && s.handed[SinkCount(events[..j])].message == events[j].msg
  {
    var n := |events| - 1;
    var before :| Reaches(events[..n], before) && Enabled(before, events[n]) && s == Next(before, events[n]);
    hide Reaches, Enabled, Next, SinkCount, RetiredBy;
    HandedStep(before, events[n]);
    if j == n {
      HandedCounted(events[..n], before);
    } else {
      HandedInOrder(events[..n], before, j);
      assert events[..n][..j] == events[..j];
    }
  }

  // In every run, every line the sink was ever handed is on the queue or past it, or
  // marked as a gap, or its generation was healed or purged since.
  lemma SinkLosesNothing(events: seq<Event>, s: Sys, j: nat)
    requires Reaches(events, s) && j < |events| && events[j].SinkSends?
    ensures
      var i := SinkCount(events[..j]);
      && i < |s.handed| && s.handed[i].message == events[j].msg
      && (events[j].msg in s.sent || events[j].msg.key in s.handed[i].retired || Marked(s.gaps, events[j].msg))
  {
    hide Reaches, InSequence, FailuresMarked, Flushed, Marked;
    AlwaysOrderly(events, s);
    HandedInOrder(events, s, j);
    assert s.handed[SinkCount(events[..j])] in s.handed;
  }

  // Once the writer has stopped, every message ever put on the queue went through a
  // batch that was committed, or whose lines were marked and are marked still unless
  // their generation was healed or purged since.
  lemma NothingAcceptedIsLost(events: seq<Event>, s: Sys)
    requires Reaches(events, s) && s.writerDone
    ensures s.sent == Flushed(s.batches) && FailuresMarked(s.gaps, s.batches) && SinkKept(s)
    ensures !s.subscribed && s.sync == Stopped && s.backfills == {} && !s.panicked
  {
    hide Reaches, FailuresMarked, SinkKept;
    AlwaysOrderly(events, s);
  }

  // ------------------------------------------------------------ shutdown completes

  predicate Advances(e: Event) {
    && !e.Cancel? && !e.SinkSends? && !e.SyncStarts? && !e.Notes? && !e.Registers? && !e.BackfillSends?
    && !e.Heals? && !e.Purges?
  }

  // What is left to do.
  function Left(s: Sys): nat {
    (match s.sync case Syncing => 2 case Idle => 1 case Stopped => 0)
    + (match s.closer case Waiting => 4 case Unsubscribed => 3 case Released => 2 case Drained => 1 case Closed => 0)
    + |s.backfills| + 2 * |s.queue| + |s.batch| + if s.writerDone then 0 else 1
  }

  lemma AdvanceShortens(s: Sys, e: Event)
    requires Orderly(s) && Enabled(s, e) && Advances(e)
    ensures Left(Next(s, e)) < Left(s)
  {
    hide Orderly;
  }

  // A cancelled store never gets stuck before its writer has stopped.
  lemma NeverStuck(events: seq<Event>, s: Sys)
    requires Reaches(events, s) && s.cancelled && !s.writerDone
    ensures exists e :: Advances(e) && Enabled(s, e)
  {
    hide Reaches;
    AlwaysOrderly(events, s);
    var e :=
      if s.queue != [] then Receives
      else if s.batch != [] then Flushes(true)
      else if s.sync.Syncing? then SyncEnds
      else if s.sync.Idle? then SyncStops
      else match s.closer
        case Waiting => Unsubscribes
        case Unsubscribed => Releases
        case Released =>
          if exists id :: id in s.backfills then (var id :| id in s.backfills; BackfillEnds(id)) else SeesDrained
        case Drained => ClosesQueue
        case Closed => WriterStops;
    assert Advances(e) && Enabled(s, e);
  }
}
