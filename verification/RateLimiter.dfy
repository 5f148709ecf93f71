// The fixed-window limiter of login attempts, and the sweep of its expired entries.
module RateLimiter {

  // A key's current window: its start, and the calls seen in it.
  datatype Entry = Entry(count: nat, start: int)
  datatype Limits = Limits(limit: int, window: int)
  datatype Call = Call(key: string, at: int)

  predicate Expired(l: Limits, e: Entry, now: int) {
    now - e.start >= l.window
  }

  function Swept(l: Limits, entries: map<string, Entry>, now: int): map<string, Entry> {
    map key | key in entries && !Expired(l, entries[key], now) :: entries[key]
  }

  predicate InWindow(l: Limits, entries: map<string, Entry>, c: Call) {
    c.key in entries && !Expired(l, entries[c.key], c.at)
  }

  // The entry a call leaves for its key, and whether the call is allowed.
  function Counted(l: Limits, entries: map<string, Entry>, c: Call): (Entry, bool) {
    if InWindow(l, entries, c) then
      var e := entries[c.key];
      (e.(count := e.count + 1), e.count + 1 <= l.limit)
    else (Entry(1, c.at), true)
  }

  class Limiter {
    const limits: Limits
    var entries: map<string, Entry>
    var lastSweep: int

    constructor (limits: Limits, lastSweep: int)
      ensures this.limits == limits && entries == map[] && this.lastSweep == lastSweep
    {
      this.limits := limits;
      this.entries := map[];
      this.lastSweep := lastSweep;
    }

    method Allow(key: string, now: int) returns (ok: bool)
      modifies this
      ensures (State(entries, lastSweep), ok) == Answered(limits, old(State(entries, lastSweep)), Call(key, now), true)
    {
      Sweep(now);
      if key !in entries || now - entries[key].start >= limits.window {
        entries := entries[key := Entry(1, now)];
        return true;
      }
      var e := entries[key].(count := entries[key].count + 1);
      entries := entries[key := e];
      ok := e.count <= limits.limit;
    }

    // At most once per window, drops what has expired.
    method Sweep(now: int)
      modifies this
      ensures State(entries, lastSweep) == AfterSweep(limits, old(State(entries, lastSweep)), now)
    {
      if now - lastSweep < limits.window {
        return;
      }
      lastSweep := now;
      entries := Swept(limits, entries, now);
    }
  }

  // -------------------------------------------------------------------- whole runs

  datatype State = State(entries: map<string, Entry>, lastSweep: int)

  function AfterSweep(l: Limits, s: State, now: int): State {
    if now - s.lastSweep < l.window then s else State(Swept(l, s.entries, now), now)
  }

  // One call, on a limiter that sweeps or on one that never does.
  function Answered(l: Limits, s: State, c: Call, sweeps: bool): (State, bool) {
    var s' := if sweeps then AfterSweep(l, s, c.at) else s;
    var (e, ok) := Counted(l, s'.entries, c);
    (s'.(entries := s'.entries[c.key := e]), ok)
  }

  function Run(l: Limits, lastSweep: int, calls: seq<Call>, sweeps: bool): (State, seq<bool>) {
    if calls == [] then (State(map[], lastSweep), [])
    else
      var (s, answers) := Run(l, lastSweep, calls[..|calls| - 1], sweeps);
      var (s', ok) := Answered(l, s, calls[|calls| - 1], sweeps);
      (s', answers + [ok])
  }

  predicate InOrder(calls: seq<Call>) {
    forall i, j :: 0 <= i <= j < |calls| ==> calls[i].at <= calls[j].at
  }

  // Only expired entries are missing.
  predicate OnlyExpiredMissing(l: Limits, u: map<string, Entry>, v: map<string, Entry>, now: int) {
    && (forall key :: key in v ==> key in u && u[key] == v[key])
    && (forall key :: key in u && key !in v ==> Expired(l, u[key], now))
  }

  lemma SweepAnswers(l: Limits, u: State, v: State, c: Call)
    requires OnlyExpiredMissing(l, u.entries, v.entries, c.at)
    ensures Answered(l, u, c, false).1 == Answered(l, v, c, true).1
    ensures OnlyExpiredMissing(l, Answered(l, u, c, false).0.entries, Answered(l, v, c, true).0.entries, c.at)
  {}

  // A limiter answers exactly as one that never sweeps.
  lemma {:induction false} SweepInvisible(l: Limits, lastSweep: int, calls: seq<Call>)
    requires InOrder(calls)
    ensures Run(l, lastSweep, calls, true).1 == Run(l, lastSweep, calls, false).1
    ensures calls != [] ==>
      OnlyExpiredMissing(
        l, Run(l, lastSweep, calls, false).0.entries, Run(l, lastSweep, calls, true).0.entries, calls[|calls| - 1].at)
  {
    hide Answered;
    if calls != [] {
      var init, c := calls[..|calls| - 1], calls[|calls| - 1];
      SweepInvisible(l, lastSweep, init);
      SweepAnswers(l, Run(l, lastSweep, init, false).0, Run(l, lastSweep, init, true).0, c);
    }
  }

  // ------------------------------------------------------------- the rate it allows

  // The calls of a key that are allowed within one window length from instant a on.
  function AllowedFrom(l: Limits, calls: seq<Call>, answers: seq<bool>, key: string, a: int): nat
    requires |calls| == |answers|
  {
    if calls == [] then 0
    else
      var n := |calls| - 1;
      var c := calls[n];
      AllowedFrom(l, calls[..n], answers[..n], key, a)
      + if c.key == key && a <= c.at < a + l.window && answers[n] then 1 else 0
  }

  lemma {:induction false} AnswerCount(l: Limits, lastSweep: int, calls: seq<Call>, sweeps: bool)
    ensures |Run(l, lastSweep, calls, sweeps).1| == |calls|
  {
    if calls != [] {
      AnswerCount(l, lastSweep, calls[..|calls| - 1], sweeps);
    }
  }

  lemma {:induction false} NoneYet(l: Limits, calls: seq<Call>, answers: seq<bool>, key: string, a: int)
    requires |calls| == |answers| && forall i :: 0 <= i < |calls| ==> calls[i].at < a
    ensures AllowedFrom(l, calls, answers, key, a) == 0
  {
    if calls != [] {
      var n := |calls| - 1;
      NoneYet(l, calls[..n], answers[..n], key, a);
    }
  }

  function Min(a: int, b: int): int {
    if a <= b then a else b
  }

  // How many calls the limiter can have allowed since a, given the key's entry.
  predicate Bounded(l: Limits, entries: map<string, Entry>, key: string, a: int, n: nat) {
    if key !in entries then n == 0
    else
      var e := entries[key];
      && e.count >= 1
      && n <= if e.start < a then Min(e.count, l.limit) - 1
              else if e.start < a + l.window then l.limit - 1 + Min(e.count, l.limit)
              else 2 * l.limit - 1
  }

  lemma {:induction false} RunBounded(l: Limits, lastSweep: int, calls: seq<Call>, key: string, a: int)
    requires l.limit >= 1 && InOrder(calls)
    ensures |Run(l, lastSweep, calls, false).1| == |calls|
    ensures
      var (s, answers) := Run(l, lastSweep, calls, false);
      && Bounded(l, s.entries, key, a, AllowedFrom(l, calls, answers, key, a))
      && (key in s.entries && calls != [] ==> s.entries[key].start <= calls[|calls| - 1].at)
      && (calls == [] ==> s.entries == map[])
  {
    AnswerCount(l, lastSweep, calls, false);
    if calls != [] {
      var init, c := calls[..|calls| - 1], calls[|calls| - 1];
      RunBounded(l, lastSweep, init, key, a);
      AnswerCount(l, lastSweep, init, false);
      var answers := Run(l, lastSweep, init, false).1;
      var next := Run(l, lastSweep, calls, false).1;
      assert next[..|init|] == answers;
      if c.at < a {
        NoneYet(l, init, answers, key, a);
      }
    }
  }

  // At most twice the limit less one calls of a key are allowed within any window
  // length.
  lemma AtMostTwiceLessOne(l: Limits, lastSweep: int, calls: seq<Call>, key: string, a: int)
    requires l.limit >= 1 && InOrder(calls)
    ensures |Run(l, lastSweep, calls, true).1| == |calls|
    ensures AllowedFrom(l, calls, Run(l, lastSweep, calls, true).1, key, a) <= 2 * l.limit - 1
  {
    SweepInvisible(l, lastSweep, calls);
    RunBounded(l, lastSweep, calls, key, a);
  }

  // ------------------------------------------------------- what is denied

  function Entries(l: Limits, calls: seq<Call>): map<string, Entry> {
    Run(l, 0, calls, false).0.entries
  }

  // The call that opened the key's current window: its first call, or the first one a
  // window length or more after the call that opened the window before.
  function Opening(l: Limits, calls: seq<Call>, key: string): (i: int)
    ensures -1 <= i < |calls| && (i >= 0 ==> calls[i].key == key)
  {
    if calls == [] then -1
    else
      var n := |calls| - 1;
      var i := Opening(l, calls[..n], key);
      if calls[n].key == key && (i < 0 || calls[n].at - calls[i].at >= l.window) then n else i
  }

  // The key's calls from the i-th call on, denied ones included.
  function CallsFrom(calls: seq<Call>, key: string, i: nat): nat {
    if |calls| <= i then 0
    else CallsFrom(calls[..|calls| - 1], key, i) + if calls[|calls| - 1].key == key then 1 else 0
  }

  lemma {:induction false} NoCallsFrom(calls: seq<Call>, key: string, i: nat)
    requires i >= |calls|
    ensures CallsFrom(calls, key, i) == 0
  {}

  // The limiter's entry is the current window: when it opened, and its calls so far.
  lemma {:induction false} EntryIsWindow(l: Limits, calls: seq<Call>, key: string)
    ensures
      var i := Opening(l, calls, key);
      && (key in Entries(l, calls) <==> i >= 0)
      && (i >= 0 ==>
            Entries(l, calls)[key].start == calls[i].at && Entries(l, calls)[key].count == CallsFrom(calls, key, i))
  {
    if calls != [] {
      var n := |calls| - 1;
      EntryIsWindow(l, calls[..n], key);
      NoCallsFrom(calls[..n], key, n);
    }
  }

  // A call is denied exactly when its key's window is still open and as many calls as
  // the limit came in it, this one not included. Denied calls do not prolong the window.
  lemma DeniedIff(l: Limits, calls: seq<Call>, c: Call)
    ensures
      var i := Opening(l, calls, c.key);
      !Answered(l, Run(l, 0, calls, false).0, c, false).1 <==>
        i >= 0 && c.at - calls[i].at < l.window && CallsFrom(calls, c.key, i) >= l.limit
  {
    hide Run, Opening, CallsFrom;
    EntryIsWindow(l, calls, c.key);
  }

  // The key's calls after instant a.
  function CallsAfter(calls: seq<Call>, key: string, a: int): nat {
    if calls == [] then 0
    else
      var last := calls[|calls| - 1];
      CallsAfter(calls[..|calls| - 1], key, a) + if last.key == key && last.at > a then 1 else 0
  }

  lemma {:induction false} WindowIsRecent(calls: seq<Call>, key: string, i: nat, a: int)
    requires InOrder(calls) && (i < |calls| ==> calls[i].at > a)
    ensures CallsFrom(calls, key, i) <= CallsAfter(calls, key, a)
  {
    if |calls| > i {
      WindowIsRecent(calls[..|calls| - 1], key, i, a);
    }
  }

  // So nobody is denied who made fewer calls than the limit within the last window
  // length.
  lemma DeniedNeedsLimit(l: Limits, calls: seq<Call>, c: Call)
    requires InOrder(calls) && !Answered(l, Run(l, 0, calls, false).0, c, false).1
    ensures CallsAfter(calls, c.key, c.at - l.window) >= l.limit
  {
    hide Run, Opening, CallsFrom, CallsAfter, Answered;
    DeniedIff(l, calls, c);
    WindowIsRecent(calls, c.key, Opening(l, calls, c.key), c.at - l.window);
  }

  // ------------------------------------------------------- the bound is reached

  function Answers(l: Limits, calls: seq<Call>): (r: seq<bool>)
    ensures |r| == |calls|
  {
    AnswerCount(l, 0, calls, false);
    Run(l, 0, calls, false).1
  }

  function Allowed(l: Limits, calls: seq<Call>, key: string, a: int): nat {
    AllowedFrom(l, calls, Answers(l, calls), key, a)
  }

  lemma OneMore(l: Limits, calls: seq<Call>, c: Call, a: int)
    ensures
      var (e, ok) := Counted(l, Entries(l, calls), c);
      && Entries(l, calls + [c]) == Entries(l, calls)[c.key := e]
      && Allowed(l, calls + [c], c.key, a) ==
           Allowed(l, calls, c.key, a) + if a <= c.at < a + l.window && ok then 1 else 0
  {}

  function Repeated(c: Call, n: nat): (r: seq<Call>)
    ensures |r| == n && forall i :: 0 <= i < n ==> r[i] == c
  {
    if n == 0 then [] else Repeated(c, n - 1) + [c]
  }

  // Calls within the limit of a key's open window are all allowed.
  lemma {:induction false} Burst(l: Limits, calls: seq<Call>, c: Call, n: nat, a: int)
    requires InWindow(l, Entries(l, calls), c) && Entries(l, calls)[c.key].count + n <= l.limit
    requires a <= c.at < a + l.window
    ensures
      var e := Entries(l, calls)[c.key];
      && InWindow(l, Entries(l, calls + Repeated(c, n)), c)
      && Entries(l, calls + Repeated(c, n))[c.key] == e.(count := e.count + n)
      && Allowed(l, calls + Repeated(c, n), c.key, a) == Allowed(l, calls, c.key, a) + n
  {
    hide Entries, Allowed;
    if n == 0 {
      assert calls + Repeated(c, n) == calls;
    } else {
      Burst(l, calls, c, n - 1, a);
      assert calls + Repeated(c, n) == calls + Repeated(c, n - 1) + [c];
      OneMore(l, calls + Repeated(c, n - 1), c, a);
    }
  }

  // A window opened just before a, filled at its end, and a full one right after.
  function Straddling(l: Limits, key: string): seq<Call>
    requires l.limit >= 1
  {
    [Call(key, 0)] + Repeated(Call(key, l.window - 1), l.limit - 1) + [Call(key, l.window)]
    + Repeated(Call(key, l.window), l.limit - 1)
  }

  lemma StraddlingInOrder(l: Limits, key: string)
    requires l.limit >= 1 && l.window >= 1
    ensures InOrder(Straddling(l, key))
  {}

  // The first call of a window, and n more.
  lemma OpenWindow(l: Limits, calls: seq<Call>, first: Call, c: Call, n: nat, a: int)
    requires !InWindow(l, Entries(l, calls), first) && c.key == first.key && c.at - first.at < l.window
    requires 1 + n <= l.limit && a <= c.at < a + l.window && first.at < a + l.window
    ensures
      var after := calls + [first] + Repeated(c, n);
      && c.key in Entries(l, after) && Entries(l, after)[c.key].start == first.at
      && Allowed(l, after, c.key, a) == Allowed(l, calls, c.key, a) + n + if a <= first.at then 1 else 0
  {
    hide Entries, Allowed, Repeated;
    OneMore(l, calls, first, a);
    Burst(l, calls + [first], c, n, a);
  }

  lemma NoCalls(l: Limits, key: string)
    ensures Entries(l, []) == map[] && Allowed(l, [], key, 1) == 0
  {}

  // The bound is the best there is.
  lemma TwiceLessOneReached(l: Limits, key: string)
    requires l.limit >= 1 && l.window >= 2
    ensures InOrder(Straddling(l, key)) && Allowed(l, Straddling(l, key), key, 1) == 2 * l.limit - 1
  {
    hide Entries, Allowed, Repeated, InOrder;
    StraddlingInOrder(l, key);
    var c, d := Call(key, l.window - 1), Call(key, l.window);
    NoCalls(l, key);
    OpenWindow(l, [], Call(key, 0), c, l.limit - 1, 1);
    var filled := [] + [Call(key, 0)] + Repeated(c, l.limit - 1);
    OpenWindow(l, filled, d, d, l.limit - 1, 1);
    assert Straddling(l, key) == filled + [d] + Repeated(d, l.limit - 1);
  }
}
