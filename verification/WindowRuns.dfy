// Whole runs of a rate window: which matches fire, and what pruning may change.
module WindowRuns {
  import opened LogEntries
  import opened RuleWindow

  predicate Nondecreasing(ms: seq<int>) {
    forall i, j :: 0 <= i <= j < |ms| ==> ms[i] <= ms[j]
  }

  function After(p: Params, ms: seq<int>): Window {
    if ms == [] then NEW_WINDOW else Observed(p, After(p, ms[..|ms| - 1]), ms[|ms| - 1]).0
  }

  function Outcome(p: Params, ms: seq<int>, i: nat): ObserveResult
    requires i < |ms|
  {
    Observed(p, After(p, ms[..i]), ms[i]).1
  }

  // --------------------------------------------------- firing, without the ring

  // The first match that counts towards the next fire after i matches.
  function Since(p: Params, ms: seq<int>, i: nat): (s: nat)
    requires i <= |ms|
    ensures s <= i
    decreases i, 0
  {
    if i == 0 then 0 else if ShouldFire(p, ms, i - 1) then i else Since(p, ms, i - 1)
  }

  // Match i trips: the threshold-th most recent match since the last fire is no
  // further back than the window.
  predicate ShouldTrip(p: Params, ms: seq<int>, i: nat)
    requires i < |ms|
    decreases i, 1
  {
    i + 1 - Since(p, ms, i) >= p.threshold && i + 1 >= p.threshold
    && (p.threshold >= 1 ==> ms[i] - ms[i + 1 - p.threshold] <= p.window)
  }

  predicate ShouldFire(p: Params, ms: seq<int>, i: nat)
    requires i < |ms|
    decreases i, 2
  {
    ShouldTrip(p, ms, i) && (Since(p, ms, i) == 0 || ms[i] - ms[Since(p, ms, i) - 1] >= p.cooldown)
  }

  // The first match the ring still holds after i matches.
  function Oldest(p: Params, ms: seq<int>, i: nat): (lo: nat)
    requires i <= |ms|
    ensures lo <= i && i - lo <= p.threshold
  {
    if i - Since(p, ms, i) > p.threshold then i - p.threshold else Since(p, ms, i)
  }

  // A window holding the last matches since the last fire.
  predicate Tracks(p: Params, ms: seq<int>, i: nat, w: Window)
    requires i <= |ms|
  {
    && w.recent == ms[Oldest(p, ms, i)..i]
    && (w.fired <==> Since(p, ms, i) > 0)
    && (w.fired ==> w.lastFired == ms[Since(p, ms, i) - 1])
  }

  lemma PushedSlice(p: Params, ms: seq<int>, lo: nat, i: nat)
    requires p.Valid() && lo <= i < |ms| && i - lo <= p.threshold
    ensures Pushed(p, ms[lo..i], ms[i]) == ms[(if i - lo == p.threshold then lo + 1 else lo)..i + 1]
  {}

  lemma SinceStep(p: Params, ms: seq<int>, i: nat)
    requires i < |ms|
    ensures Since(p, ms, i + 1) == if ShouldFire(p, ms, i) then i + 1 else Since(p, ms, i)
  {}

  lemma TripsTracks(p: Params, ms: seq<int>, i: nat, w: Window)
    requires p.Valid() && i < |ms| && Tracks(p, ms, i, w)
    ensures Trips(p, w.recent, ms[i]) <==> ShouldTrip(p, ms, i)
    ensures Observed(p, w, ms[i]).1.fire <==> ShouldFire(p, ms, i)
  {
    hide Pushed, Since;
    PushedSlice(p, ms, Oldest(p, ms, i), i);
  }

  lemma OldestStep(p: Params, ms: seq<int>, i: nat)
    requires p.Valid() && i < |ms|
    ensures
      var lo := Oldest(p, ms, i);
      Oldest(p, ms, i + 1) ==
        if ShouldFire(p, ms, i) then i + 1 else if i - lo == p.threshold then lo + 1 else lo
  {
    hide Since, ShouldFire;
    SinceStep(p, ms, i);
  }

  lemma ObserveOutcome(p: Params, w: Window, now: int)
    ensures
      var (w', res) := Observed(p, w, now);
      if res.fire then w' == Window([], true, now, 0, now)
      else w'.recent == Pushed(p, w.recent, now) && w'.fired == w.fired && w'.lastFired == w.lastFired
  {
    hide Pushed, Trips;
  }

  // One more match: a window that tracks the run decides it as the description
  // without a ring does, and goes on tracking.
  lemma ObserveTracks(p: Params, ms: seq<int>, i: nat, w: Window)
    requires p.Valid() && i < |ms| && Tracks(p, ms, i, w)
    ensures Trips(p, w.recent, ms[i]) <==> ShouldTrip(p, ms, i)
    ensures Observed(p, w, ms[i]).1.fire <==> ShouldFire(p, ms, i)
    ensures Tracks(p, ms, i + 1, Observed(p, w, ms[i]).0)
  {
    hide Pushed, Trips, ShouldFire, ShouldTrip, Since, Oldest, Observed;
    TripsTracks(p, ms, i, w);
    ObserveOutcome(p, w, ms[i]);
    SinceStep(p, ms, i);
    OldestStep(p, ms, i);
    PushedSlice(p, ms, Oldest(p, ms, i), i);
    assert ms[i + 1..i + 1] == [];
  }

  lemma NewTracks(p: Params, ms: seq<int>)
    ensures Tracks(p, ms, 0, NEW_WINDOW)
  {}

  // The window always holds the last matches since the last fire, and a match
  // fires exactly when the description without a ring says so.
  lemma {:induction false} WindowRefines(p: Params, ms: seq<int>, i: nat)
    requires p.Valid() && i <= |ms|
    ensures Tracks(p, ms, i, After(p, ms[..i]))
    ensures i < |ms| ==> (Outcome(p, ms, i).fire <==> ShouldFire(p, ms, i))
    ensures i < |ms| ==> (Trips(p, After(p, ms[..i]).recent, ms[i]) <==> ShouldTrip(p, ms, i))
    decreases i
  {
    hide Observed, Trips, ShouldTrip, ShouldFire, Tracks;
    if i == 0 {
      NewTracks(p, ms);
    } else {
      WindowRefines(p, ms, i - 1);
      assert ms[..i][..i - 1] == ms[..i - 1];
      ObserveTracks(p, ms, i - 1, After(p, ms[..i - 1]));
    }
    if i < |ms| {
      ObserveTracks(p, ms, i, After(p, ms[..i]));
    }
  }

  // Matches count from the last fire on.
  lemma {:induction false} SinceLastFire(p: Params, ms: seq<int>, i: nat)
    requires p.Valid() && i <= |ms|
    ensures Since(p, ms, i) > 0 ==> Outcome(p, ms, Since(p, ms, i) - 1).fire
    ensures forall j :: Since(p, ms, i) <= j < i ==> !Outcome(p, ms, j).fire
    decreases i
  {
    hide Outcome, ShouldFire, Since, ShouldTrip, After, Tracks, Trips;
    if i == 0 {
      NoneSince(p, ms);
    } else {
      SinceLastFire(p, ms, i - 1);
      WindowRefines(p, ms, i - 1);
      SinceStep(p, ms, i - 1);
    }
  }

  lemma NoneSince(p: Params, ms: seq<int>)
    ensures Since(p, ms, 0) == 0
  {}

  // Fires are at least a cooldown apart.
  lemma FiresApart(p: Params, ms: seq<int>, i: nat, j: nat)
    requires p.Valid() && Nondecreasing(ms) && i < j < |ms|
    requires Outcome(p, ms, i).fire && Outcome(p, ms, j).fire
    ensures ms[j] - ms[i] >= p.cooldown
  {
    WindowRefines(p, ms, i);
    WindowRefines(p, ms, j);
    SinceAfterFire(p, ms, i, j);
  }

  lemma {:induction false} SinceAfterFire(p: Params, ms: seq<int>, i: nat, j: nat)
    requires i < j <= |ms| && ShouldFire(p, ms, i)
    ensures Since(p, ms, j) > i
    decreases j
  {
    if j > i + 1 {
      SinceAfterFire(p, ms, i, j - 1);
    }
  }

  function Fires(p: Params, ms: seq<int>, n: nat): nat
    requires n <= |ms|
  {
    if n == 0 then 0 else Fires(p, ms, n - 1) + if Outcome(p, ms, n - 1).fire then 1 else 0
  }

  function TripCount(p: Params, ms: seq<int>, n: nat): nat
    requires n <= |ms|
  {
    if n == 0 then 0
    else TripCount(p, ms, n - 1) + if Trips(p, After(p, ms[..n - 1]).recent, ms[n - 1]) then 1 else 0
  }

  function Reported(p: Params, ms: seq<int>, n: nat): nat
    requires n <= |ms|
  {
    if n == 0 then 0
    else Reported(p, ms, n - 1) + if Outcome(p, ms, n - 1).fire then Outcome(p, ms, n - 1).suppressed else 0
  }

  // Each fire uses up threshold matches of its own.
  lemma {:induction false} FiresTimesThreshold(p: Params, ms: seq<int>, n: nat)
    requires p.Valid() && n <= |ms|
    ensures Fires(p, ms, n) * p.threshold <= Since(p, ms, n) <= n
  {
    hide Outcome, After;
    if n > 0 {
      FiresTimesThreshold(p, ms, n - 1);
      WindowRefines(p, ms, n - 1);
      OneMoreTimes(Fires(p, ms, n - 1), p.threshold);
    }
  }

  lemma OneMoreTimes(a: nat, b: nat)
    ensures (a + 1) * b == a * b + b && 0 * b == 0
  {}

  lemma ObserveConserves(p: Params, w: Window, now: int)
    ensures
      var (w', res) := Observed(p, w, now);
      && w.suppressed + (if Trips(p, w.recent, now) then 1 else 0) ==
        w'.suppressed + (if res.fire then 1 + res.suppressed else 0)
  {
    hide Trips;
  }

  // Every trip is a fire, was reported as suppressed by a later fire, or is pending.
  lemma {:induction false} TripsConserved(p: Params, ms: seq<int>, n: nat)
    requires p.Valid() && n <= |ms|
    ensures TripCount(p, ms, n) == Fires(p, ms, n) + Reported(p, ms, n) + After(p, ms[..n]).suppressed
  {
    hide Observed, Trips;
    if n > 0 {
      TripsConserved(p, ms, n - 1);
      ObserveConserves(p, After(p, ms[..n - 1]), ms[n - 1]);
      assert ms[..n][..n - 1] == ms[..n - 1];
    }
  }

  // -------------------------------------------------------------------- pruning

  const SECOND := 1_000_000_000
  const WINDOW_IDLE_TTL := 24 * 3600 * SECOND

  // A match at an instant, or the periodic check that prunes idle windows.
  datatype Event = Match(at: int) | Tick(at: int)

  predicate InOrder(es: seq<Event>) {
    forall i, j :: 0 <= i <= j < |es| ==> es[i].at <= es[j].at
  }

  function Current(w: Option<Window>): Window {
    if w.None? then NEW_WINDOW else w.value
  }

  // One key's window under events; None when there is no window for the key.
  function Step(p: Params, w: Option<Window>, e: Event, prunes: bool): (Option<Window>, bool) {
    match e
    case Match(at) =>
      var (w', res) := Observed(p, Current(w), at);
      (Some(w'), res.fire)
    case Tick(at) =>
      (if prunes && w.Some? && at - w.value.lastSeen > WINDOW_IDLE_TTL then None else w, false)
  }

  // The window and the fire flags after a run.
  function Replay(p: Params, es: seq<Event>, prunes: bool): (Option<Window>, seq<bool>) {
    if es == [] then (None, [])
    else
      var (w, flags) := Replay(p, es[..|es| - 1], prunes);
      var (w', fire) := Step(p, w, es[|es| - 1], prunes);
      (w', flags + [fire])
  }

  // Pruning changes no firing decision of any run.
  ghost predicate PruningInvisible(p: Params) {
    forall es :: InOrder(es) ==> Replay(p, es, true).1 == Replay(p, es, false).1
  }

  // The rules for which it does not.
  predicate PrunesSafely(p: Params) {
    p.cooldown <= WINDOW_IDLE_TTL + 1 && (p.threshold == 1 || p.window <= WINDOW_IDLE_TTL)
  }

  // The first k matches are too old for any window to trip on them.
  predicate Stale(recent: seq<int>, k: nat, now: int) {
    k <= |recent| && forall i :: 0 <= i < k ==> now - recent[i] > WINDOW_IDLE_TTL
  }

  predicate NoLater(recent: seq<int>, at: int) {
    forall i :: 0 <= i < |recent| ==> recent[i] <= at
  }

  // What a pruned window v lacks of the unpruned one u can no longer matter: the
  // first k matches and possibly the last fire are too old.
  predicate Lags(p: Params, u: Window, v: Window, k: nat, now: int) {
    && |u.recent| <= p.threshold && Stale(u.recent, k, now) && NoLater(u.recent, u.lastSeen)
    && v.recent == u.recent[k..]
    && (v.fired ==> u.fired && v.lastFired == u.lastFired)
    && (u.fired ==> u.lastFired <= u.lastSeen)
    && (u.fired && !v.fired ==> now - u.lastFired > WINDOW_IDLE_TTL)
  }

  // The pruned and the unpruned state of one key at an instant.
  predicate Matched(p: Params, u: Option<Window>, v: Option<Window>, k: nat, now: int) {
    && Lags(p, Current(u), Current(v), k, now)
    && (u.None? ==> v.None?)
    && (u.Some? ==> u.value.lastSeen <= now)
    && (v.Some? ==> v.value.lastSeen == u.value.lastSeen)
  }

  // How many stale matches are left once the next one is pushed.
  function Fewer(p: Params, recent: seq<int>, k: nat): nat {
    if |recent| == p.threshold && k > 0 then k - 1 else k
  }

  lemma PushedLags(p: Params, ur: seq<int>, k: nat, t: int, at: int)
    requires p.Valid() && |ur| <= p.threshold && Stale(ur, k, at) && NoLater(ur, t)
    requires ur == [] || t <= at
    ensures Fewer(p, ur, k) < |Pushed(p, ur, at)| <= p.threshold
    ensures Pushed(p, ur[k..], at) == Pushed(p, ur, at)[Fewer(p, ur, k)..]
    ensures Stale(Pushed(p, ur, at), Fewer(p, ur, k), at) && NoLater(Pushed(p, ur, at), at)
  {}

  // Neither window trips on a stale match, so they trip alike.
  lemma SameTrips(p: Params, ur: seq<int>, k: nat, t: int, at: int)
    requires p.Valid() && PrunesSafely(p) && |ur| <= p.threshold && Stale(ur, k, at) && NoLater(ur, t)
    requires ur == [] || t <= at
    ensures Trips(p, ur, at) <==> Trips(p, ur[k..], at)
  {
    hide Pushed;
    PushedLags(p, ur, k, t, at);
    var r := Pushed(p, ur, at);
    assert r[0..] == r;
  }

  lemma NoMatches(now: int)
    ensures Stale([], 0, now) && NoLater([], now)
  {}

  // The next match: both windows decide it alike and go on matching.
  lemma ObserveMatched(p: Params, u: Window, v: Window, k: nat, at: int) returns (k': nat)
    requires p.Valid() && PrunesSafely(p) && Lags(p, u, v, k, at)
    requires u == NEW_WINDOW || u.lastSeen <= at
    ensures Observed(p, u, at).1.fire == Observed(p, v, at).1.fire
    ensures Lags(p, Observed(p, u, at).0, Observed(p, v, at).0, k', at)
    ensures Observed(p, u, at).0.lastSeen == Observed(p, v, at).0.lastSeen == at
  {
    hide Pushed, Trips, Stale, NoLater, Fewer;
    SameTrips(p, u.recent, k, u.lastSeen, at);
    PushedLags(p, u.recent, k, u.lastSeen, at);
    assert Cooling(p, u, at) <==> Cooling(p, v, at);
    if Trips(p, u.recent, at) && !Cooling(p, u, at) {
      k' := 0;
      NoMatches(at);
    } else {
      k' := Fewer(p, u.recent, k);
    }
  }

  lemma LaterMatched(p: Params, u: Option<Window>, v: Option<Window>, k: nat, now: int, at: int)
    requires Matched(p, u, v, k, now) && now <= at
    ensures Matched(p, u, v, k, at)
  {}

  // The next event, on both sides.
  lemma StepMatched(p: Params, u: Option<Window>, v: Option<Window>, k: nat, e: Event) returns (k': nat)
    requires p.Valid() && PrunesSafely(p) && Matched(p, u, v, k, e.at)
    ensures Step(p, u, e, false).1 == Step(p, v, e, true).1
    ensures Matched(p, Step(p, u, e, false).0, Step(p, v, e, true).0, k', e.at)
  {
    hide Observed, PrunesSafely;
    match e
    case Match(at) =>
      k' := ObserveMatched(p, Current(u), Current(v), k, at);
    case Tick(at) =>
      k' := if v.Some? && at - v.value.lastSeen > WINDOW_IDLE_TTL then |u.value.recent| else k;
  }

  lemma NoWindows(p: Params, now: int)
    ensures Matched(p, None, None, 0, now)
  {}

  // Runs with and without pruning stay matched, and fire alike.
  lemma {:induction false} ReplayMatched(p: Params, es: seq<Event>, at: int) returns (k: nat)
    requires p.Valid() && PrunesSafely(p) && InOrder(es)
    requires es == [] || es[|es| - 1].at <= at
    ensures Replay(p, es, true).1 == Replay(p, es, false).1
    ensures Matched(p, Replay(p, es, false).0, Replay(p, es, true).0, k, at)
  {
    hide Step, Lags, PrunesSafely;
    if es == [] {
      k := 0;
      NoWindows(p, at);
    } else {
      var before, e := es[..|es| - 1], es[|es| - 1];
      k := ReplayMatched(p, before, e.at);
      k := StepMatched(p, Replay(p, before, false).0, Replay(p, before, true).0, k, e);
      LaterMatched(p, Replay(p, es, false).0, Replay(p, es, true).0, k, e.at, at);
    }
  }

  // A fire leaves the pruned and the unpruned window the same: only the suppressed
  // count of the first fire after a prune can differ.
  lemma FireResynchronises(p: Params, es: seq<Event>)
    requires p.Valid() && PrunesSafely(p) && InOrder(es) && es != []
    requires LastFlag(p, es, false)
    ensures LastFlag(p, es, true) && Replay(p, es, true).0 == Replay(p, es, false).0
  {
    hide Pushed, PrunesSafely;
    var before, e := es[..|es| - 1], es[|es| - 1];
    var _ := ReplayMatched(p, es, e.at);
    assert es == before + [e];
    FlagCount(p, before, true);
    FlagCount(p, before, false);
    ReplayOneMore(p, before, e, true);
    ReplayOneMore(p, before, e, false);
  }

  // ------------------------------------------- rules that pruning does change

  function Matches(at: int, n: nat): (r: seq<Event>)
    ensures |r| == n
  {
    seq(n, i => Match(at))
  }

  function Instants(at: int, n: nat): (r: seq<int>)
    ensures |r| == n
  {
    seq(n, i => at)
  }

  lemma NoEvents(p: Params, prunes: bool)
    ensures Replay(p, [], prunes) == (None, [])
  {}

  lemma ReplayOneMore(p: Params, es: seq<Event>, e: Event, prunes: bool)
    ensures
      var (w, flags) := Replay(p, es, prunes);
      Replay(p, es + [e], prunes) == (Step(p, w, e, prunes).0, flags + [Step(p, w, e, prunes).1])
  {}

  lemma {:induction false} FlagCount(p: Params, es: seq<Event>, prunes: bool)
    ensures |Replay(p, es, prunes).1| == |es|
  {
    if es != [] {
      FlagCount(p, es[..|es| - 1], prunes);
    }
  }

  function LastFlag(p: Params, es: seq<Event>, prunes: bool): bool
    requires es != []
  {
    FlagCount(p, es, prunes);
    Replay(p, es, prunes).1[|es| - 1]
  }

  lemma ObserveWaits(p: Params, w: Window, at: int)
    requires |w.recent| + 1 < p.threshold
    ensures Observed(p, w, at).0 == w.(recent := w.recent + [at], lastSeen := at)
  {}

  // Too few matches at one instant to trip leave the window waiting.
  lemma {:induction false} BurstWaits(p: Params, es: seq<Event>, at: int, n: nat, prunes: bool)
    requires p.Valid() && |Current(Replay(p, es, prunes).0).recent| + n < p.threshold
    ensures
      var w := Current(Replay(p, es, prunes).0);
      var w' := Current(Replay(p, es + Matches(at, n), prunes).0);
      w'.recent == w.recent + Instants(at, n) && w'.fired == w.fired && w'.lastFired == w.lastFired
  {
    hide Observed, Replay;
    if n == 0 {
      assert es + Matches(at, n) == es;
    } else {
      BurstWaits(p, es, at, n - 1, prunes);
      OneMoreMatch(es, at, n);
      ReplayOneMore(p, es + Matches(at, n - 1), Match(at), prunes);
      ObserveWaits(p, Current(Replay(p, es + Matches(at, n - 1), prunes).0), at);
      assert Instants(at, n) == Instants(at, n - 1) + [at];
    }
  }

  lemma OneMoreMatch(es: seq<Event>, at: int, n: nat)
    requires n > 0
    ensures es + Matches(at, n) == es + Matches(at, n - 1) + [Match(at)]
  {}

  // The burst's last match decides.
  lemma BurstDecides(p: Params, es: seq<Event>, at: int, n: nat, prunes: bool)
    requires p.Valid() && n > 0 && |Current(Replay(p, es, prunes).0).recent| + n <= p.threshold
    ensures
      var w := Current(Replay(p, es, prunes).0);
      var r := w.recent + Instants(at, n);
      LastFlag(p, es + Matches(at, n), prunes) <==>
        |r| == p.threshold && at - r[0] <= p.window && !Cooling(p, w, at)
    ensures
      LastFlag(p, es + Matches(at, n), prunes) ==>
        Current(Replay(p, es + Matches(at, n), prunes).0) == Window([], true, at, 0, at)
  {
    hide Observed, Replay, Pushed;
    BurstWaits(p, es, at, n - 1, prunes);
    OneMoreMatch(es, at, n);
    var run := es + Matches(at, n - 1);
    ReplayOneMore(p, run, Match(at), prunes);
    FlagCount(p, run, prunes);
    ObserveDecides(p, Current(Replay(p, run, prunes).0), at);
    assert Instants(at, n) == Instants(at, n - 1) + [at];
  }

  lemma ObserveDecides(p: Params, w: Window, at: int)
    requires p.Valid() && |w.recent| < p.threshold
    ensures
      var r := w.recent + [at];
      Observed(p, w, at).1.fire <==> |r| == p.threshold && at - r[0] <= p.window && !Cooling(p, w, at)
    ensures Observed(p, w, at).1.fire ==> Observed(p, w, at).0 == Window([], true, at, 0, at)
  {}

  // A run from scratch: a burst at instant 0, a long pause, and a second burst.
  function Paused(n: nat, m: nat): seq<Event> {
    Matches(0, n) + [Tick(WINDOW_IDLE_TTL + 1)] + Matches(WINDOW_IDLE_TTL + 1, m)
  }

  lemma PausedDiffers(p: Params, n: nat, m: nat)
    requires m > 0 && LastFlag(p, Paused(n, m), true) != LastFlag(p, Paused(n, m), false)
    ensures !PruningInvisible(p)
  {
    hide Replay;
    assert InOrder(Paused(n, m));
  }

  lemma AfterPause(p: Params, w: Window, n: nat, prunes: bool)
    requires n > 0 && Replay(p, Matches(0, n), prunes).0 == Some(w) && w.lastSeen == 0
    ensures
      Replay(p, Matches(0, n) + [Tick(WINDOW_IDLE_TTL + 1)], prunes).0 == if prunes then None else Some(w)
  {}

  // A cooldown outlasting the idle limit: pruning forgets a fire too early.
  lemma ForgottenCooldown(p: Params, prunes: bool)
    requires p.Valid() && p.cooldown > WINDOW_IDLE_TTL + 1
    ensures LastFlag(p, Paused(p.threshold, p.threshold), prunes) == prunes
  {
    hide Replay, Pushed, LastFlag;
    var first := Matches(0, p.threshold);
    NoEvents(p, prunes);
    BurstDecides(p, [], 0, p.threshold, prunes);
    assert [] + first == first;
    AfterPause(p, Window([], true, 0, 0, 0), p.threshold, prunes);
    BurstDecides(p, first + [Tick(WINDOW_IDLE_TTL + 1)], WINDOW_IDLE_TTL + 1, p.threshold, prunes);
  }

  lemma FirstMatch(p: Params, prunes: bool)
    requires p.threshold > 1
    ensures Replay(p, Matches(0, 1), prunes).0 == Some(Window([0], false, 0, 0, 0))
  {
    assert Matches(0, 1) == [] + [Match(0)];
    assert Replay(p, [], prunes) == (None, []);
    ReplayOneMore(p, [], Match(0), prunes);
    ObserveWaits(p, NEW_WINDOW, 0);
    assert NEW_WINDOW.recent + [0] == [0];
  }

  // A window outlasting the idle limit: pruning forgets a match too early.
  lemma ForgottenMatch(p: Params, prunes: bool)
    requires p.Valid() && p.threshold > 1 && p.window > WINDOW_IDLE_TTL
    ensures LastFlag(p, Paused(1, p.threshold - 1), prunes) == !prunes
  {
    hide Replay, Observed, Step, LastFlag, Matches, Instants;
    FirstMatch(p, prunes);
    AfterPause(p, Window([0], false, 0, 0, 0), 1, prunes);
    BurstDecides(p, Matches(0, 1) + [Tick(WINDOW_IDLE_TTL + 1)], WINDOW_IDLE_TTL + 1, p.threshold - 1, prunes);
  }

  // Pruning changes no firing decision of any run exactly when the rule's cooldown
  // and, for rules counting several matches, its window fit the idle limit.
  lemma PruningInvisibleIff(p: Params)
    requires p.Valid()
    ensures PruningInvisible(p) <==> PrunesSafely(p)
  {
    hide Replay;
    if PrunesSafely(p) {
      forall es: seq<Event> | InOrder(es)
        ensures Replay(p, es, true).1 == Replay(p, es, false).1
      {
        var _ := ReplayMatched(p, es, if es == [] then 0 else es[|es| - 1].at);
      }
    } else if p.cooldown > WINDOW_IDLE_TTL + 1 {
      ForgottenCooldown(p, true);
      ForgottenCooldown(p, false);
      PausedDiffers(p, p.threshold, p.threshold);
    } else {
      ForgottenMatch(p, true);
      ForgottenMatch(p, false);
      PausedDiffers(p, 1, p.threshold - 1);
    }
  }
}
