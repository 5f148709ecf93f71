// The rate window of one alert rule and container: threshold matches within a
// window fire, a cooldown suppresses, and long-idle windows are pruned.
module RuleWindow {
  import opened Rings

  // Durations and instants in nanoseconds. compileRules normalises the rest.
  datatype Params = Params(threshold: nat, window: int, cooldown: int) {
    predicate Valid() {
      threshold >= 1 && window > 0 && cooldown > 0
    }
  }

  datatype ObserveResult = ObserveResult(fire: bool, suppressed: nat)

  // recent holds the last threshold matches since the last fire, oldest first.
  datatype Window = Window(recent: seq<int>, fired: bool, lastFired: int, suppressed: nat, lastSeen: int)

  const NEW_WINDOW := Window([], false, 0, 0, 0)

  function Pushed(p: Params, recent: seq<int>, now: int): (r: seq<int>)
    ensures |r| > 0 && r[|r| - 1] == now
  {
    (if |recent| > 0 && |recent| == p.threshold then recent[1..] else recent) + [now]
  }

  predicate Trips(p: Params, recent: seq<int>, now: int) {
    var r := Pushed(p, recent, now);
    |r| >= p.threshold && now - r[0] <= p.window
  }

  predicate Cooling(p: Params, w: Window, now: int) {
    w.fired && now - w.lastFired < p.cooldown
  }

  function Observed(p: Params, w: Window, now: int): (Window, ObserveResult) {
    if !Trips(p, w.recent, now) then
      (w.(recent := Pushed(p, w.recent, now), lastSeen := now), ObserveResult(false, 0))
    else if Cooling(p, w, now) then
      (w.(recent := Pushed(p, w.recent, now), suppressed := w.suppressed + 1, lastSeen := now), ObserveResult(false, 0))
    else
      (Window([], true, now, 0, now), ObserveResult(true, w.suppressed))
  }

  // ------------------------------------------------------------ the ring buffer

  class RingWindow {
    const p: Params
    const times: array<int>
    var head: nat
    var count: nat
    var fired: bool
    var lastFired: int
    var suppressed: nat
    var lastSeen: int

    ghost predicate Valid()
      reads this
    {
      p.Valid() && times.Length == p.threshold && head < p.threshold && count <= p.threshold
    }

    // The ring's matches, oldest first.
    function Recent(): (r: seq<int>)
      requires Valid()
      reads this, times
    {
      Elements(times[..], head, count)
    }

    function State(): Window
      requires Valid()
      reads this, times
    {
      Window(Recent(), fired, lastFired, suppressed, lastSeen)
    }

    constructor (p: Params)
      requires p.Valid()
      ensures Valid() && this.p == p && State() == NEW_WINDOW && fresh(times)
    {
      this.p := p;
      times := new int[p.threshold];
      head, count, fired, lastFired, suppressed, lastSeen := 0, 0, false, 0, 0, 0;
    }

    // Records the match, dropping the oldest one from a full ring.
    method Push(now: int)
      requires Valid()
      modifies this`head, this`count, times
      ensures Valid() && Recent() == Pushed(p, old(Recent()), now)
    {
      hide Elements;
      if count == p.threshold {
        DropOldest(times[..], head, count, 0);
        ghost var slots := times[..];
        var next := Slot(head, 1, p.threshold);
        times[head] := 0;
        assert times[..] == slots[head := 0];
        head := next;
        count := count - 1;
      }
      AddNewest(times[..], head, count, now);
      ghost var slots := times[..];
      var free := Slot(head, count, p.threshold);
      times[free] := now;
      assert times[..] == slots[free := now];
      count := count + 1;
    }

    method Observe(now: int) returns (res: ObserveResult)
      requires Valid()
      modifies this, times
      ensures Valid()
      ensures (State(), res) == Observed(p, old(State()), now)
    {
      hide Pushed;
      lastSeen := now;
      Push(now);
      assert times[head] == Recent()[0];
      if count < p.threshold || now - times[head] > p.window {
        return ObserveResult(false, 0);
      }
      if fired && now - lastFired < p.cooldown {
        suppressed := suppressed + 1;
        return ObserveResult(false, 0);
      }
      res := ObserveResult(true, suppressed);
      head := 0;
      count := 0;
      fired := true;
      lastFired := now;
      suppressed := 0;
    }
  }
}
