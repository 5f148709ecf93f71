// The alert engine's run loop: compiled rules, generation stamps of log
// subscriptions, per-container rate windows, and the pairing of oom and die events.
module RuleEngine {
  import opened ContainerSpecs
  import opened LogEntries
  import opened RuleWindow
  import opened WindowRuns

  // A pattern as the regular expression compiler sees it.
  datatype Pattern = NoPattern | Regexp(text: string) | Malformed(text: string)

  datatype AlertRule = AlertRule(
    id: string, name: string, enabled: bool, typ: string, spec: ContainerSpec, events: seq<string>,
    minLevel: string, pattern: Pattern, threshold: int, windowSeconds: int, cooldownSeconds: int, createdAt: string)

  datatype Compiled = Compiled(id: string, typ: string, params: Params, src: AlertRule) {
    // Compiled rules are a function of the rule as configured.
    predicate Faithful() {
      this == Compile(src) && Usable(src)
    }
  }

  const DEFAULT_WINDOW := 60 * SECOND
  const DEFAULT_COOLDOWN := 300 * SECOND
  const TWO_63 := 0x8000_0000_0000_0000
  const TWO_64 := 0x1_0000_0000_0000_0000

  // time.Duration(n) * time.Second on 64-bit integers.
  function Seconds(n: int): int {
    (n * SECOND + TWO_63) % TWO_64 - TWO_63
  }

  // Exact for all seconds that fit 64 bits as nanoseconds.
  lemma SecondsExact(n: int)
    requires -9_223_372_036 <= n <= 9_223_372_036
    ensures Seconds(n) == n * 1_000_000_000
  {}

  // Any other wraps around.
  lemma SecondsWrap(n: int)
    ensures -0x8000_0000_0000_0000 <= Seconds(n) < 0x8000_0000_0000_0000
    ensures (Seconds(n) - n * 1_000_000_000) % 0x1_0000_0000_0000_0000 == 0
  {}

  predicate Usable(rule: AlertRule) {
    rule.enabled && (rule.typ == "event" || rule.typ == "log") && !rule.pattern.Malformed?
  }

  function Compile(rule: AlertRule): (c: Compiled)
    ensures c.params.Valid() && c.id == rule.id && c.src == rule
  {
    var window, cooldown := Seconds(rule.windowSeconds), Seconds(rule.cooldownSeconds);
    Compiled(
      rule.id, rule.typ,
      Params(
        if rule.threshold < 1 then 1 else rule.threshold,
        if window <= 0 then DEFAULT_WINDOW else window,
        if cooldown <= 0 then DEFAULT_COOLDOWN else cooldown),
      rule)
  }

  function CompiledRules(rules: seq<AlertRule>): (cs: seq<Compiled>)
    ensures forall c :: c in cs ==> c.Faithful()
  {
    if rules == [] then []
    else
      var last := rules[|rules| - 1];
      CompiledRules(rules[..|rules| - 1]) + if Usable(last) then [Compile(last)] else []
  }

  // The configured seconds fit 64 bits as nanoseconds.
  predicate Fits(rule: AlertRule) {
    -9_223_372_036 <= rule.windowSeconds <= 9_223_372_036 && -9_223_372_036 <= rule.cooldownSeconds <= 9_223_372_036
  }

  // The threshold is the configured one but at least one match; the window and the
  // cooldown are the configured seconds when positive, else a minute and five minutes.
  predicate AsConfigured(p: Params, rule: AlertRule) {
    && p.threshold == (if rule.threshold > 1 then rule.threshold else 1)
    && p.window == (if rule.windowSeconds > 0 then rule.windowSeconds * 1_000_000_000 else 60_000_000_000)
    && p.cooldown == (if rule.cooldownSeconds > 0 then rule.cooldownSeconds * 1_000_000_000 else 300_000_000_000)
  }

  lemma CompiledAsConfigured(rule: AlertRule)
    requires Fits(rule)
    ensures AsConfigured(Compile(rule).params, rule)
  {
    hide Seconds;
    SecondsExact(rule.windowSeconds);
    SecondsExact(rule.cooldownSeconds);
  }

  // The rules at these places are compiled, in order: those that are enabled, of a
  // known type, and with a pattern that compiles, and no other.
  ghost predicate CompiledAt(rules: seq<AlertRule>, compiled: seq<Compiled>, at: seq<nat>) {
    && |at| == |compiled|
    && (forall k :: 0 <= k < |at| ==> at[k] < |rules| && compiled[k].src == rules[at[k]])
    && (forall j, k :: 0 <= j < k < |at| ==> at[j] < at[k])
    && (forall i :: 0 <= i < |rules| ==>
          (i in at <==>
             rules[i].enabled && rules[i].typ in {"event", "log"} && !rules[i].pattern.Malformed?))
  }

  lemma {:induction false} CompiledPlaces(rules: seq<AlertRule>) returns (at: seq<nat>)
    ensures CompiledAt(rules, CompiledRules(rules), at)
  {
    hide Compile;
    if rules == [] {
      at := [];
    } else {
      var n := |rules| - 1;
      at := CompiledPlaces(rules[..n]);
      if Usable(rules[n]) {
        at := at + [n];
      }
    }
  }

  method CompileRules(rules: seq<AlertRule>) returns (compiled: seq<Compiled>)
    ensures compiled == CompiledRules(rules)
    ensures exists at: seq<nat> :: CompiledAt(rules, compiled, at)
    ensures forall c :: c in compiled ==> c.id == c.src.id && c.typ == c.src.typ
    ensures forall c :: c in compiled && Fits(c.src) ==> AsConfigured(c.params, c.src)
  {
    hide Compile, CompiledAt, AsConfigured;
    compiled := [];
    for i := 0 to |rules|
      invariant compiled == CompiledRules(rules[..i])
    {
      assert rules[..i + 1][..i] == rules[..i];
      if Usable(rules[i]) {
        compiled := compiled + [Compile(rules[i])];
      }
    }
    assert rules[..|rules|] == rules;
    ghost var at := CompiledPlaces(rules);
    forall c | c in compiled
      ensures c.id == c.src.id && c.typ == c.src.typ && (Fits(c.src) ==> AsConfigured(c.params, c.src))
    {
      CompiledFrom(c);
    }
  }

  lemma CompiledFrom(c: Compiled)
    requires c.Faithful()
    ensures c.id == c.src.id && c.typ == c.src.typ && (Fits(c.src) ==> AsConfigured(c.params, c.src))
  {
    hide AsConfigured, Usable;
    if Fits(c.src) {
      CompiledAsConfigured(c.src);
    }
  }

  // What the API accepts: a window of at most an hour, a cooldown of at most a day.
  predicate Accepted(rule: AlertRule) {
    0 <= rule.windowSeconds <= 3600 && 0 <= rule.cooldownSeconds <= 86400
  }

  // Dropping a day-old window changes no firing decision of an accepted rule.
  lemma AcceptedPruneInvisibly(rule: AlertRule)
    requires Accepted(rule)
    ensures PruningInvisible(Compile(rule).params)
  {
    hide Seconds;
    SecondsExact(rule.windowSeconds);
    SecondsExact(rule.cooldownSeconds);
    PruningInvisibleIff(Compile(rule).params);
  }

  // Over any run of matches an accepted rule trips exactly when as many matches as its
  // threshold, the last one included, came since the last fire and within its window,
  // and fires exactly when it trips a cooldown or more after the last fire.
  lemma AcceptedTrips(rule: AlertRule, ms: seq<int>, i: nat)
    requires Accepted(rule) && i < |ms|
    ensures
      var p := Compile(rule).params;
      var threshold := if rule.threshold > 1 then rule.threshold else 1;
      var window := if rule.windowSeconds > 0 then rule.windowSeconds * 1_000_000_000 else 60_000_000_000;
      var cooldown := if rule.cooldownSeconds > 0 then rule.cooldownSeconds * 1_000_000_000 else 300_000_000_000;
      var since := Since(p, ms, i);
      var trips := i + 1 - since >= threshold && ms[i] - ms[i + 1 - threshold] <= window;
      && (Trips(p, After(p, ms[..i]).recent, ms[i]) <==> trips)
      && (Outcome(p, ms, i).fire <==> trips && (since == 0 || ms[i] - ms[since - 1] >= cooldown))
      && (since > 0 ==> Outcome(p, ms, since - 1).fire)
      && (forall j :: since <= j < i ==> !Outcome(p, ms, j).fire)
  {
    hide Seconds, Compile, Trips, Outcome, After, Since;
    var p := Compile(rule).params;
    CompiledAsConfigured(rule);
    WindowRefines(p, ms, i);
    SinceLastFire(p, ms, i);
  }

  // --------------------------------------------------------------- window keys

  const BAR := '|'

  // The part of s before the first bar, or all of s.
  function BeforeBar(s: string): (r: string)
    ensures BAR !in r && |r| <= |s| && (|r| < |s| ==> s[|r|] == BAR) && r <= s
  {
    if s == [] || s[0] == BAR then [] else [s[0]] + BeforeBar(s[1..])
  }

  function WindowKey(id: string, host: string, name: string): string {
    id + [BAR] + host + [BAR] + name
  }

  lemma {:induction false} BeforeBarConcat(id: string, rest: string)
    ensures BeforeBar(id + [BAR] + rest) == BeforeBar(id)
  {
    var s := id + [BAR] + rest;
    if id == [] {
      assert s[0] == BAR;
    } else {
      assert s[1..] == id[1..] + [BAR] + rest;
      BeforeBarConcat(id[1..], rest);
    }
  }

  // A window is filed under its rule's id exactly when the id holds no bar.
  lemma FiledUnderIff(id: string, host: string, name: string)
    ensures BeforeBar(WindowKey(id, host, name)) == id <==> BAR !in id
  {
    FiledBefore(id, host, name);
    BeforeBarWhole(id);
  }

  // With bar-free ids and container names every rule, host and container has a window
  // of its own.
  lemma KeysApart(id: string, host: string, name: string, id': string, host': string, name': string)
    requires BAR !in id && BAR !in id' && BAR !in name && BAR !in name'
    requires WindowKey(id, host, name) == WindowKey(id', host', name')
    ensures id == id' && host == host' && name == name'
  {
    var key, rest, rest' := WindowKey(id, host, name), host + [BAR] + name, host' + [BAR] + name';
    FiledUnderIff(id, host, name);
    FiledUnderIff(id', host', name');
    assert key == id + [BAR] + rest && key == id' + [BAR] + rest';
    assert rest == key[|id| + 1..] && rest' == key[|id'| + 1..];
    LastBar(host, name, host', name');
  }

  lemma NoBarBehind(s: string, n: nat, name: string)
    requires n < |s| && s[n + 1..] == name && BAR !in name
    ensures forall k :: n < k < |s| ==> s[k] != BAR
  {
    forall k | n < k < |s|
      ensures s[k] != BAR
    {
      assert s[k] == name[k - n - 1] && name[k - n - 1] in name;
    }
  }

  lemma LastBar(host: string, name: string, host': string, name': string)
    requires BAR !in name && BAR !in name' && host + [BAR] + name == host' + [BAR] + name'
    ensures host == host' && name == name'
  {
    var s, n, n' := host + [BAR] + name, |host|, |host'|;
    assert s[n] == BAR && s[n'] == BAR && s[n + 1..] == name && s[n' + 1..] == name';
    NoBarBehind(s, n, name);
    NoBarBehind(s, n', name');
    assert s[..n] == host && s[..n'] == host';
  }

  lemma {:induction false} BeforeBarWhole(s: string)
    ensures BeforeBar(s) == s <==> BAR !in s
  {
    if s != [] && s[0] != BAR {
      BeforeBarWhole(s[1..]);
      assert s == [s[0]] + s[1..];
    }
  }

  // ----------------------------------------------------------------- rule sets

  // Log rules by id; a later rule replaces an earlier one.
  function LogRules(rules: seq<Compiled>): (m: map<string, Compiled>)
    ensures forall id :: id in m ==> m[id] in rules && m[id].id == id && m[id].typ == "log"
    ensures forall r :: r in rules && r.typ == "log" ==> r.id in m
  {
    if rules == [] then map[]
    else
      var last := rules[|rules| - 1];
      var m := LogRules(rules[..|rules| - 1]);
      assert rules == rules[..|rules| - 1] + [last];
      if last.typ == "log" then m[last.id := last] else m
  }

  // The last log rule of an id is the one that counts.
  lemma {:induction false} LogRulesLast(rules: seq<Compiled>, i: nat)
    requires i < |rules| && rules[i].typ == "log"
    requires forall j :: i < j < |rules| && rules[j].typ == "log" ==> rules[j].id != rules[i].id
    ensures rules[i].id in LogRules(rules) && LogRules(rules)[rules[i].id] == rules[i]
  {
    if i < |rules| - 1 {
      LogRulesLast(rules[..|rules| - 1], i);
    }
  }

  function EventRules(rules: seq<Compiled>): (es: seq<Compiled>)
    ensures forall r :: r in es <==> r in rules && r.typ != "log"
  {
    if rules == [] then []
    else
      var last := rules[|rules| - 1];
      assert rules == rules[..|rules| - 1] + [last];
      EventRules(rules[..|rules| - 1]) + if last.typ == "log" then [] else [last]
  }

  function Sources(rules: seq<Compiled>): (m: map<string, AlertRule>)
    ensures forall id :: id in m <==> exists r :: r in rules && r.id == id
    ensures forall id :: id in m ==> exists r :: r in rules && r.id == id && r.src == m[id]
  {
    if rules == [] then map[]
    else
      var last := rules[|rules| - 1];
      assert rules == rules[..|rules| - 1] + [last];
      Sources(rules[..|rules| - 1])[last.id := last.src]
  }

  // The ids of event rules that were added, changed or removed.
  function EventStale(was: map<string, AlertRule>, rules: seq<Compiled>): set<string> {
    if rules == [] then was.Keys
    else
      var r := rules[0];
      (if r.id in was && was[r.id] == r.src then {} else {r.id}) + EventStale(was - {r.id}, rules[1..])
  }

  // r when it has the id.
  function Only(r: Compiled, id: string): seq<Compiled> {
    if r.id == id then [r] else []
  }

  // The rules of one id, in order.
  function WithId(rules: seq<Compiled>, id: string): seq<Compiled> {
    if rules == [] then []
    else Only(rules[0], id) + WithId(rules[1..], id)
  }

  lemma {:induction false} WithIdHas(rules: seq<Compiled>, id: string)
    ensures forall r :: r in WithId(rules, id) <==> r in rules && r.id == id
  {
    if rules != [] {
      WithIdHas(rules[1..], id);
      assert rules == [rules[0]] + rules[1..];
    }
  }

  lemma NoneWithId(rules: seq<Compiled>, id: string)
    requires forall r :: r in rules ==> r.id != id
    ensures WithId(rules, id) == []
  {
    WithIdHas(rules, id);
    if WithId(rules, id) != [] {
      assert WithId(rules, id)[0] in WithId(rules, id);
    }
  }

  lemma WithIdCons(r: Compiled, rules: seq<Compiled>, id: string)
    ensures WithId([r] + rules, id) == Only(r, id) + WithId(rules, id)
  {
    assert ([r] + rules)[1..] == rules;
  }

  lemma {:induction false} WithIdSnoc(rules: seq<Compiled>, last: Compiled, id: string)
    ensures WithId(rules + [last], id) == WithId(rules, id) + Only(last, id)
  {
    hide WithId, Only;
    if rules == [] {
      NoneWithId([], id);
      WithIdCons(last, [], id);
      assert [] + [last] == [last] + [];
    } else {
      var first, rest := rules[0], rules[1..];
      WithIdSnoc(rest, last, id);
      WithIdCons(first, rest, id);
      WithIdCons(first, rest + [last], id);
      assert rules == [first] + rest && rules + [last] == [first] + (rest + [last]);
      var mid := WithId(rest, id);
      assert Only(first, id) + (mid + Only(last, id)) == Only(first, id) + mid + Only(last, id);
    }
  }

  lemma SourcesSnoc(rules: seq<Compiled>, last: Compiled)
    ensures Sources(rules + [last]) == Sources(rules)[last.id := last.src]
  {
    assert (rules + [last])[..|rules|] == rules;
  }

  // Of rules that share an id, the last one is compared against.
  lemma {:induction false} SourcesLast(rules: seq<Compiled>, id: string)
    ensures id in Sources(rules) <==> WithId(rules, id) != []
    ensures id in Sources(rules) ==> Sources(rules)[id] == WithId(rules, id)[|WithId(rules, id)| - 1].src
  {
    hide WithId, Sources;
    if rules == [] {
      NoneWithId(rules, id);
    } else {
      var init, last := rules[..|rules| - 1], rules[|rules| - 1];
      assert rules == init + [last];
      SourcesLast(init, id);
      WithIdSnoc(init, last, id);
      SourcesSnoc(init, last);
    }
  }

  // The comparison leaves an id alone exactly when no rule has it before or now, or
  // exactly one rule has it now, with the source it had before.
  lemma {:induction false} EventStaleIff(was: map<string, AlertRule>, rules: seq<Compiled>, id: string)
    ensures id !in EventStale(was, rules) <==>
      var rs := WithId(rules, id);
      if id in was then |rs| == 1 && rs[0].src == was[id] else rs == []
  {
    if rules != [] {
      EventStaleIff(was - {rules[0].id}, rules[1..], id);
    }
  }

  // Ids are plain: no two rules share one, and none holds a bar.
  predicate PlainIds(rules: seq<Compiled>) {
    && (forall r :: r in rules ==> BAR !in r.id)
    && (forall i, j :: 0 <= i < j < |rules| ==> rules[i].id != rules[j].id)
  }

  lemma {:induction false} WithIdOnce(rules: seq<Compiled>, id: string)
    requires PlainIds(rules)
    ensures |WithId(rules, id)| <= 1
  {
    if rules != [] {
      WithIdOnce(rules[1..], id);
      if rules[0].id == id {
        NoneWithId(rules[1..], id);
      }
    }
  }

  // ------------------------------------------------------------------- windows

  // A key's window with the parameters it was created with.
  datatype Live = Live(params: Params, state: Window)

  function WindowFor(windows: map<string, Live>, key: string, params: Params): Live {
    if key in windows then windows[key] else Live(params, NEW_WINDOW)
  }

  // One match at a key, creating its window on first use.
  function Recorded(windows: map<string, Live>, key: string, params: Params, now: int)
    : (map<string, Live>, ObserveResult)
  {
    var live := WindowFor(windows, key, params);
    var (state, res) := Observed(live.params, live.state, now);
    (windows[key := live.(state := state)], res)
  }

  // The matches recorded at one key, one after the other.
  function RecordedAll(windows: map<string, Live>, key: string, params: Params, ms: seq<int>): map<string, Live> {
    if ms == [] then windows
    else Recorded(RecordedAll(windows, key, params, ms[..|ms| - 1]), key, params, ms[|ms| - 1]).0
  }

  // From a key without a window on, matches are decided as a run of the rate window.
  lemma {:induction false} RecordedRun(windows: map<string, Live>, key: string, params: Params, ms: seq<int>, now: int)
    requires key !in windows
    ensures
      var before := RecordedAll(windows, key, params, ms);
      && WindowFor(before, key, params) == Live(params, After(params, ms))
      && Recorded(before, key, params, now).1 == Outcome(params, ms + [now], |ms|)
  {
    hide Observed;
    assert (ms + [now])[..|ms|] == ms;
    if ms != [] {
      RecordedRun(windows, key, params, ms[..|ms| - 1], now);
    }
  }

  // The window may be r's: its key is one of r's keys, and it has r's threshold,
  // window and cooldown.
  ghost predicate Belongs(key: string, params: Params, r: Compiled) {
    params == r.params && exists host, name :: key == WindowKey(r.id, host, name)
  }

  // Every window belongs to a rule in force.
  ghost predicate Owned(windows: map<string, Live>, rules: set<Compiled>) {
    forall key :: key in windows ==> exists r :: r in rules && Belongs(key, windows[key].params, r)
  }

  predicate OneRulePerId(rules: set<Compiled>) {
    && (forall r :: r in rules ==> BAR !in r.id)
    && (forall r, q :: r in rules && q in rules && r.id == q.id ==> r == q)
  }

  // With one bar-free id per rule, the windows at a rule's keys are its own.
  lemma UniqueOwner(windows: map<string, Live>, rules: set<Compiled>, r: Compiled, host: string, name: string)
    requires Owned(windows, rules) && OneRulePerId(rules) && r in rules && WindowKey(r.id, host, name) in windows
    ensures windows[WindowKey(r.id, host, name)].params == r.params
  {
    hide WindowKey;
    var key := WindowKey(r.id, host, name);
    var q :| q in rules && Belongs(key, windows[key].params, q);
    var h, n :| key == WindowKey(q.id, h, n);
    FiledUnderIff(r.id, host, name);
    FiledUnderIff(q.id, h, n);
  }

  // Recording a match of a rule in force keeps the windows owned.
  lemma RecordedOwned(
    windows: map<string, Live>, rules: set<Compiled>, r: Compiled, host: string, name: string, now: int)
    requires Owned(windows, rules) && r in rules
    ensures Owned(Recorded(windows, WindowKey(r.id, host, name), r.params, now).0, rules)
  {
    hide Observed, WindowKey, Belongs;
    OwnKey(r, host, name);
  }

  lemma OwnKey(r: Compiled, host: string, name: string)
    ensures Belongs(WindowKey(r.id, host, name), r.params, r)
  {
    hide WindowKey;
  }

  // So does dropping windows.
  lemma FewerOwned(windows: map<string, Live>, fewer: map<string, Live>, rules: set<Compiled>)
    requires forall key :: key in fewer ==> key in windows && fewer[key] == windows[key]
    ensures Owned(windows, rules) ==> Owned(fewer, rules)
  {
    hide Belongs;
  }

  // ------------------------------------------------------------ reconciliation

  // A live log subscription: the rule its sink captured, and its generation stamp.
  datatype ActiveSub = ActiveSub(rule: Compiled, gen: nat)

  predicate Unchanged(subs: map<string, ActiveSub>, newLog: map<string, Compiled>, id: string) {
    id in subs && id in newLog && newLog[id].src == subs[id].rule.src
  }

  lemma SameSource(subs: map<string, ActiveSub>, newLog: map<string, Compiled>, id: string)
    requires id in subs
    ensures Unchanged(subs, newLog, id) <==> id in newLog && newLog[id].src == subs[id].rule.src
  {}

  function LogStale(subs: map<string, ActiveSub>, newLog: map<string, Compiled>): set<string> {
    set id | id in subs && !Unchanged(subs, newLog, id)
  }

  function StaleIds(subs: map<string, ActiveSub>, eventRules: seq<Compiled>, compiled: seq<Compiled>): set<string> {
    LogStale(subs, LogRules(compiled)) + EventStale(Sources(eventRules), EventRules(compiled))
  }

  function Swept(windows: map<string, Live>, stale: set<string>): map<string, Live> {
    map key | key in windows && BeforeBar(key) !in stale :: windows[key]
  }

  // A rule's window survives the sweep exactly when the part of its id before the
  // first bar is not stale.
  lemma SurvivesSweepIff(windows: map<string, Live>, id: string, host: string, name: string, stale: set<string>)
    requires WindowKey(id, host, name) in windows
    ensures WindowKey(id, host, name) in Swept(windows, stale) <==> BeforeBar(id) !in stale
  {
    FiledBefore(id, host, name);
  }

  lemma FiledBefore(id: string, host: string, name: string)
    ensures BeforeBar(WindowKey(id, host, name)) == BeforeBar(id)
  {
    assert WindowKey(id, host, name) == id + [BAR] + (host + [BAR] + name);
    BeforeBarConcat(id, host + [BAR] + name);
  }

  // The rules in force: those of live subscriptions, and the event rules.
  function InForce(subs: map<string, ActiveSub>, eventRules: seq<Compiled>): set<Compiled> {
    (set id | id in subs :: subs[id].rule) + (set r | r in eventRules)
  }

  function Wanted(compiled: seq<Compiled>): set<Compiled> {
    (set id | id in LogRules(compiled) :: LogRules(compiled)[id]) + (set r | r in EventRules(compiled))
  }

  predicate WellFiled(subs: map<string, ActiveSub>, eventRules: seq<Compiled>) {
    && (forall id :: id in subs ==> subs[id].rule.id == id && subs[id].rule.typ == "log" && subs[id].rule.Faithful())
    && (forall r :: r in eventRules ==> r.typ != "log" && r.Faithful())
  }

  // A rule in force is a live subscription's or an event rule, by its type.
  lemma ByType(subs: map<string, ActiveSub>, eventRules: seq<Compiled>, r: Compiled)
    requires WellFiled(subs, eventRules) && r in InForce(subs, eventRules)
    ensures if r.typ == "log" then r.id in subs && subs[r.id].rule == r else r in eventRules
  {
    hide Compile, Usable;
  }

  // Neither comparison marks the id: its log rule in force, if there is one, is
  // configured unchanged, and its event rules are none before and none now, or are
  // now a single one, configured as the last one was before.
  predicate LeftAlone(subs: map<string, ActiveSub>, eventRules: seq<Compiled>, compiled: seq<Compiled>, id: string) {
    var was, now := WithId(eventRules, id), WithId(EventRules(compiled), id);
    && (id in subs ==> Unchanged(subs, LogRules(compiled), id))
    && if was == [] then now == [] else |now| == 1 && now[0].src == was[|was| - 1].src
  }

  // Exactly the other ids are stale, over any rules.
  lemma StaleIdsIff(subs: map<string, ActiveSub>, eventRules: seq<Compiled>, compiled: seq<Compiled>, id: string)
    ensures id !in StaleIds(subs, eventRules, compiled) <==> LeftAlone(subs, eventRules, compiled, id)
  {
    hide Unchanged, LogRules, EventRules, Sources, EventStale, WithId;
    EventStaleIff(Sources(eventRules), EventRules(compiled), id);
    SourcesLast(eventRules, id);
  }

  // Every window of r may be one of w's.
  predicate TakesOver(w: Compiled, r: Compiled) {
    w.params == r.params && (w.id == r.id || w.id + [BAR] <= r.id)
  }

  lemma TakenOver(key: string, params: Params, w: Compiled, r: Compiled)
    requires Belongs(key, params, r) && TakesOver(w, r)
    ensures Belongs(key, params, w)
  {
    var host, name :| key == WindowKey(r.id, host, name);
    if w.id != r.id {
      var rest := r.id[|w.id| + 1..];
      assert r.id == w.id + [BAR] + rest;
      assert key == WindowKey(w.id, rest, host + [BAR] + name);
    }
  }

  // A key that tells w and r apart when w does not take over.
  lemma SharedKey(id: string, other: string, host: string, name: string)
    requires WindowKey(id, "h", "c") == WindowKey(other, host, name)
    ensures other == id || other + [BAR] <= id
  {
    var key, n := WindowKey(id, "h", "c"), |other|;
    assert key[..n] == other && key[n] == BAR && key[n + 1 + |host|] == BAR;
    assert key == id + "|h|c" && "|h|c"[1] != BAR && "|h|c"[3] != BAR;
    assert key[|id|..] == "|h|c" && key[..|id|] == id;
    if n >= |id| {
      assert key[n] == key[|id|..][n - |id|] && key[n + 1 + |host|] == key[|id|..][n + 1 + |host| - |id|];
    } else {
      assert key[..n] == id[..n];
    }
  }

  // A rule whose windows survive has a wanted rule that takes them over.
  predicate Covered(inForce: set<Compiled>, wanted: set<Compiled>, stale: set<string>) {
    forall r :: r in inForce && BeforeBar(r.id) !in stale ==> exists w :: w in wanted && TakesOver(w, r)
  }

  lemma CoveredOwned(windows: map<string, Live>, inForce: set<Compiled>, wanted: set<Compiled>, stale: set<string>)
    requires Covered(inForce, wanted, stale) && Owned(windows, inForce)
    ensures Owned(Swept(windows, stale), wanted)
  {
    hide WindowKey, TakesOver, BeforeBar;
    forall key | key in Swept(windows, stale)
      ensures exists w :: w in wanted && Belongs(key, windows[key].params, w)
    {
      var r :| r in inForce && Belongs(key, windows[key].params, r);
      var host, name :| key == WindowKey(r.id, host, name);
      FiledBefore(r.id, host, name);
      var w :| w in wanted && TakesOver(w, r);
      TakenOver(key, windows[key].params, w, r);
    }
  }

  // The window that is left without an owner otherwise.
  function OnlyWindow(r: Compiled): map<string, Live> {
    map[WindowKey(r.id, "h", "c") := Live(r.params, NEW_WINDOW)]
  }

  lemma OnlyWindowOwned(r: Compiled, rules: set<Compiled>)
    ensures r in rules ==> Owned(OnlyWindow(r), rules)
    ensures Owned(OnlyWindow(r), rules) ==> exists w :: w in rules && TakesOver(w, r)
  {
    hide WindowKey, TakesOver;
    var key := WindowKey(r.id, "h", "c");
    if r in rules {
      OwnKey(r, "h", "c");
    }
    if Owned(OnlyWindow(r), rules) {
      assert key in OnlyWindow(r);
      var w :| w in rules && Belongs(key, r.params, w);
      var host, name :| key == WindowKey(w.id, host, name);
      SharedKey(r.id, w.id, host, name);
      SameParams(w, r);
    }
  }

  lemma SameParams(w: Compiled, r: Compiled)
    requires w.params == r.params && (w.id == r.id || w.id + [BAR] <= r.id)
    ensures TakesOver(w, r)
  {}

  // The sweep leaves every owned window owned exactly when it does so for the rules.
  lemma SweptOwnedIff(inForce: set<Compiled>, wanted: set<Compiled>, stale: set<string>)
    ensures (forall windows :: Owned(windows, inForce) ==> Owned(Swept(windows, stale), wanted)) <==>
      Covered(inForce, wanted, stale)
  {
    hide Owned, Swept, TakesOver, BeforeBar, WindowKey;
    if Covered(inForce, wanted, stale) {
      forall windows | Owned(windows, inForce)
        ensures Owned(Swept(windows, stale), wanted)
      {
        CoveredOwned(windows, inForce, wanted, stale);
      }
    } else {
      var r :| r in inForce && BeforeBar(r.id) !in stale && !exists w :: w in wanted && TakesOver(w, r);
      OnlyWindowOwned(r, inForce);
      OnlyWindowOwned(r, wanted);
      OnlyWindowSurvives(r, stale);
    }
  }

  lemma OnlyWindowSurvives(r: Compiled, stale: set<string>)
    requires BeforeBar(r.id) !in stale
    ensures Swept(OnlyWindow(r), stale) == OnlyWindow(r)
  {
    hide BeforeBar, WindowKey;
    FiledBefore(r.id, "h", "c");
  }

  // Each rule in force whose id, up to a bar, is left alone has a wanted rule that
  // takes its windows over: its own key prefix and parameters.
  predicate KeepsOwners(subs: map<string, ActiveSub>, eventRules: seq<Compiled>, compiled: seq<Compiled>) {
    forall r :: r in InForce(subs, eventRules) && LeftAlone(subs, eventRules, compiled, BeforeBar(r.id)) ==>
      exists w :: w in Wanted(compiled) && TakesOver(w, r)
  }

  // Over any rules in force and any new rules, reconciling leaves every owned window
  // owned exactly when they meet that condition.
  lemma OwnershipKeptIff(subs: map<string, ActiveSub>, eventRules: seq<Compiled>, compiled: seq<Compiled>)
    ensures
      (forall windows :: Owned(windows, InForce(subs, eventRules)) ==>
         Owned(Swept(windows, StaleIds(subs, eventRules, compiled)), Wanted(compiled))) <==>
      KeepsOwners(subs, eventRules, compiled)
  {
    hide *;
    KeepsCovered(subs, eventRules, compiled);
    SweptOwnedIff(InForce(subs, eventRules), Wanted(compiled), StaleIds(subs, eventRules, compiled));
  }

  lemma KeepsCovered(subs: map<string, ActiveSub>, eventRules: seq<Compiled>, compiled: seq<Compiled>)
    ensures
      Covered(InForce(subs, eventRules), Wanted(compiled), StaleIds(subs, eventRules, compiled)) <==>
      KeepsOwners(subs, eventRules, compiled)
  {
    hide InForce, Wanted, StaleIds, LeftAlone, TakesOver, BeforeBar;
    forall r: Compiled
      ensures BeforeBar(r.id) !in StaleIds(subs, eventRules, compiled) <==>
        LeftAlone(subs, eventRules, compiled, BeforeBar(r.id))
    {
      StaleIdsIff(subs, eventRules, compiled, BeforeBar(r.id));
    }
  }

  // The event rules of a rule's id are that rule.
  lemma OnlyOwn(subs: map<string, ActiveSub>, eventRules: seq<Compiled>, r: Compiled)
    requires OneRulePerId(InForce(subs, eventRules)) && r in eventRules
    ensures var was := WithId(eventRules, r.id); was != [] && was[|was| - 1] == r
  {
    hide WithId;
    var was := WithId(eventRules, r.id);
    WithIdHas(eventRules, r.id);
    assert r in was;
    assert was[|was| - 1] in was;
    assert was[|was| - 1] in InForce(subs, eventRules) && r in InForce(subs, eventRules);
  }

  // The rules a window survives under are in force before and after, unchanged.
  lemma KeptRule(subs: map<string, ActiveSub>, eventRules: seq<Compiled>, compiled: seq<Compiled>, r: Compiled)
    requires WellFiled(subs, eventRules) && OneRulePerId(InForce(subs, eventRules))
    requires forall c :: c in compiled ==> c.Faithful()
    requires r in InForce(subs, eventRules) && LeftAlone(subs, eventRules, compiled, r.id)
    ensures r in Wanted(compiled)
  {
    hide Compile, WithId, EventRules, LogRules, InForce, OneRulePerId;
    ByType(subs, eventRules, r);
    if r.typ == "log" {
      assert Unchanged(subs, LogRules(compiled), r.id);
    } else {
      OnlyOwn(subs, eventRules, r);
      WithIdHas(EventRules(compiled), r.id);
      assert WithId(EventRules(compiled), r.id)[0] in EventRules(compiled);
    }
  }

  // The condition at work on the windows there are.
  lemma SweptOwned(
    windows: map<string, Live>, subs: map<string, ActiveSub>, eventRules: seq<Compiled>, compiled: seq<Compiled>)
    requires KeepsOwners(subs, eventRules, compiled) && Owned(windows, InForce(subs, eventRules))
    ensures Owned(Swept(windows, StaleIds(subs, eventRules, compiled)), Wanted(compiled))
  {
    hide *;
    KeepsCovered(subs, eventRules, compiled);
    CoveredOwned(windows, InForce(subs, eventRules), Wanted(compiled), StaleIds(subs, eventRules, compiled));
  }

  // With one bar-free id per rule in force the condition is met, whatever is new.
  lemma PlainKeepsOwners(subs: map<string, ActiveSub>, eventRules: seq<Compiled>, compiled: seq<Compiled>)
    requires WellFiled(subs, eventRules) && OneRulePerId(InForce(subs, eventRules))
    requires forall c :: c in compiled ==> c.Faithful()
    ensures KeepsOwners(subs, eventRules, compiled)
  {
    hide WellFiled, LeftAlone, InForce, Wanted, Compile, Usable;
    forall r | r in InForce(subs, eventRules) && LeftAlone(subs, eventRules, compiled, BeforeBar(r.id))
      ensures exists w :: w in Wanted(compiled) && TakesOver(w, r)
    {
      BeforeBarWhole(r.id);
      KeptRule(subs, eventRules, compiled, r);
      assert TakesOver(r, r);
    }
  }

  lemma {:induction false} EventRulesPlain(rules: seq<Compiled>)
    requires PlainIds(rules)
    ensures PlainIds(EventRules(rules))
  {
    if rules != [] {
      var init, last := rules[..|rules| - 1], rules[|rules| - 1];
      EventRulesPlain(init);
      forall r | r in EventRules(init)
        ensures r.id != last.id
      {
        var i :| 0 <= i < |init| && init[i] == r;
        assert rules[i] == r;
      }
    }
  }

  lemma WantedPlain(compiled: seq<Compiled>)
    requires PlainIds(compiled)
    ensures OneRulePerId(Wanted(compiled))
    ensures forall r :: r in Wanted(compiled) <==> r in compiled
  {
    forall r, q | r in compiled && q in compiled && r.id == q.id
      ensures r == q
    {
      var i, j :| 0 <= i < |compiled| && 0 <= j < |compiled| && compiled[i] == r && compiled[j] == q;
    }
    forall r | r in compiled
      ensures r in Wanted(compiled)
    {
      if r.typ == "log" {
        assert r.id in LogRules(compiled) && LogRules(compiled)[r.id] == r;
      }
    }
  }

  // With plain ids, a rule in force loses its windows exactly when it is no longer
  // configured as is.
  lemma StaleIff(subs: map<string, ActiveSub>, eventRules: seq<Compiled>, compiled: seq<Compiled>, r: Compiled)
    requires WellFiled(subs, eventRules) && OneRulePerId(InForce(subs, eventRules))
    requires (forall c :: c in compiled ==> c.Faithful()) && PlainIds(compiled)
    requires r in InForce(subs, eventRules)
    ensures r.id in StaleIds(subs, eventRules, compiled) <==> r !in compiled
  {
    hide *;
    StaleIdsIff(subs, eventRules, compiled, r.id);
    WantedPlain(compiled);
    if LeftAlone(subs, eventRules, compiled, r.id) {
      KeptRule(subs, eventRules, compiled, r);
    } else if r in compiled {
      ByType(subs, eventRules, r);
      if r.typ == "log" {
        StillSubscribed(subs, eventRules, compiled, r);
      } else {
        StillWatched(subs, eventRules, compiled, r);
      }
    }
  }

  lemma StillSubscribed(subs: map<string, ActiveSub>, eventRules: seq<Compiled>, compiled: seq<Compiled>, r: Compiled)
    requires OneRulePerId(InForce(subs, eventRules)) && OneRulePerId(Wanted(compiled))
    requires WellFiled(subs, eventRules)
    requires r.typ == "log" && r in Wanted(compiled) && r.id in subs && subs[r.id].rule == r
    ensures LeftAlone(subs, eventRules, compiled, r.id)
  {
    hide LogRules, EventRules, WithId, Compile;
    forall p | p in eventRules
      ensures p.id != r.id
    {
      assert p in InForce(subs, eventRules) && r in InForce(subs, eventRules);
    }
    forall p | p in EventRules(compiled)
      ensures p.id != r.id
    {
      assert p in Wanted(compiled);
    }
    NoneWithId(eventRules, r.id);
    NoneWithId(EventRules(compiled), r.id);
    assert LogRules(compiled)[r.id] in Wanted(compiled);
  }

  lemma StillWatched(subs: map<string, ActiveSub>, eventRules: seq<Compiled>, compiled: seq<Compiled>, r: Compiled)
    requires WellFiled(subs, eventRules) && OneRulePerId(InForce(subs, eventRules)) && PlainIds(compiled)
    requires r in eventRules && r in compiled
    ensures LeftAlone(subs, eventRules, compiled, r.id)
  {
    hide LogRules, EventRules, WithId, Compile;
    EventRulesPlain(compiled);
    OnlyOwn(subs, eventRules, r);
    WithIdOnce(EventRules(compiled), r.id);
    WithIdHas(EventRules(compiled), r.id);
    assert r in WithId(EventRules(compiled), r.id);
    forall id | id in subs
      ensures id != r.id
    {
      assert subs[id].rule in InForce(subs, eventRules) && r in InForce(subs, eventRules);
    }
  }

  // ------------------------------------------------------- windows that outlive rules

  function EventRule(id: string, enabled: bool, threshold: int): AlertRule {
    AlertRule(id, "crash", enabled, "event", ContainerSpec([], [], []), ["die"], "", NoPattern, threshold, 60, 300, "")
  }

  lemma TwoRules(a: AlertRule, b: AlertRule)
    ensures
      CompiledRules([a, b]) == (if Usable(a) then [Compile(a)] else []) + if Usable(b) then [Compile(b)] else []
  {
    hide Compile, Usable;
    assert [a, b][..1] == [a] && [a][..0] == [];
    assert CompiledRules([a]) == if Usable(a) then [Compile(a)] else [];
  }

  lemma {:induction false} EventsOnly(rules: seq<Compiled>)
    requires forall r :: r in rules ==> r.typ != "log"
    ensures EventRules(rules) == rules && LogRules(rules) == map[]
  {
    if rules != [] {
      var init, last := rules[..|rules| - 1], rules[|rules| - 1];
      assert rules == init + [last] && last in rules;
      EventsOnly(init);
    }
  }

  lemma EventsInForce(rules: seq<Compiled>)
    requires forall r :: r in rules ==> r.typ != "log"
    ensures InForce(map[], rules) == Wanted(rules) && forall r :: r in InForce(map[], rules) <==> r in rules
  {
    hide EventRules, LogRules;
    EventsOnly(rules);
  }

  // What is left alone of event rules that are just one rule afterwards.
  lemma OneEventNow(was: seq<Compiled>, now: seq<Compiled>, id: string)
    requires forall r :: r in was + now ==> r.typ != "log"
    ensures id !in StaleIds(map[], was, now) <==>
      if WithId(was, id) == [] then WithId(now, id) == []
      else |WithId(now, id)| == 1 && WithId(now, id)[0].src == WithId(was, id)[|WithId(was, id)| - 1].src
  {
    hide StaleIds, WithId;
    EventsOnly(now);
    StaleIdsIff(map[], was, now, id);
  }

  lemma TwoWithId(a: Compiled, b: Compiled)
    requires a.id == b.id
    ensures WithId([a, b], a.id) == [a, b] && WithId([b], a.id) == [b]
  {
    assert [a, b][1..] == [b] && [b][1..] == [];
    assert WithId([], a.id) == [];
    assert WithId([b], a.id) == [b];
  }

  // Ids are drawn without a look at the ones in use. Of two event rules that share
  // one the first is disabled: nothing is stale, and its window stays with a
  // threshold no rule has.
  lemma SharedIdOutlives()
    ensures
      var first, second := Compile(EventRule("x", true, 1)), Compile(EventRule("x", true, 5));
      var windows := OnlyWindow(first);
      && CompiledRules([EventRule("x", true, 1), EventRule("x", true, 5)]) == [first, second]
      && CompiledRules([EventRule("x", false, 1), EventRule("x", true, 5)]) == [second]
      && Owned(windows, InForce(map[], [first, second]))
      && Swept(windows, StaleIds(map[], [first, second], [second])) == windows
      && !Owned(windows, Wanted([second]))
  {
    hide WindowKey, Swept, StaleIds, InForce, Wanted, Owned, WithId, CompiledRules, BeforeBar;
    var first, second := Compile(EventRule("x", true, 1)), Compile(EventRule("x", true, 5));
    TwoRules(EventRule("x", true, 1), EventRule("x", true, 5));
    TwoRules(EventRule("x", false, 1), EventRule("x", true, 5));
    SharedIdKept(first, second);
    EventsInForce([first, second]);
    EventsInForce([second]);
    OnlyWindowOwned(first, InForce(map[], [first, second]));
    OnlyWindowOwned(first, Wanted([second]));
  }

  // Dropping the first of two event rules with one id marks nothing.
  lemma SharedIdKept(first: Compiled, second: Compiled)
    requires first.typ != "log" && second.typ != "log" && first.id == second.id && BAR !in first.id
    ensures Swept(OnlyWindow(first), StaleIds(map[], [first, second], [second])) == OnlyWindow(first)
  {
    hide OnlyWindow, Swept, StaleIds, WithId, BeforeBar;
    OneEventNow([first, second], [second], first.id);
    TwoWithId(first, second);
    BeforeBarWhole(first.id);
    OnlyWindowSurvives(first, StaleIds(map[], [first, second], [second]));
  }

  // There the other rule fires on its first match instead of its fifth.
  lemma OutlivedWindowFires(now: int)
    ensures
      var first, second := Compile(EventRule("x", true, 1)), Compile(EventRule("x", true, 5));
      var key := WindowKey("x", "h", "c");
      && Recorded(OnlyWindow(first), key, second.params, now).1.fire
      && !Recorded(map[], key, second.params, now).1.fire
  {
    hide WindowKey;
  }

  // A rule with a bar in its id is removed, and its window stays.
  lemma BarIdOutlives()
    ensures
      var r := Compile(EventRule("a|b", true, 1));
      && Owned(OnlyWindow(r), InForce(map[], [r]))
      && "a|b" in StaleIds(map[], [r], []) && Swept(OnlyWindow(r), StaleIds(map[], [r], [])) == OnlyWindow(r)
      && !Owned(OnlyWindow(r), Wanted([]))
  {
    hide WindowKey, Swept, StaleIds, InForce, Wanted, Owned, WithId;
    var r := Compile(EventRule("a|b", true, 1));
    EventsInForce([r]);
    EventsInForce([]);
    OneEventNow([r], [], "a|b");
    OneEventNow([r], [], "a");
    WithIdHas([r], "a|b");
    assert r in [r] && r in WithId([r], "a|b");
    NoneWithId([], "a|b");
    NoneWithId([], "a");
    NoneWithId([r], "a");
    assert BeforeBar(r.id) == "a" by {
      BeforeBarConcat("a", "b");
      BeforeBarWhole("a");
      assert "a" + [BAR] + "b" == "a|b";
    }
    OnlyWindowSurvives(r, StaleIds(map[], [r], []));
    assert r in InForce(map[], [r]);
    OnlyWindowOwned(r, InForce(map[], [r]));
    OnlyWindowOwned(r, Wanted([]));
  }

  // -------------------------------------------------------- oom and die events

  const OOM_DIE_WINDOW := 10 * SECOND

  datatype EngineEvent = EngineEvent(
    host: string, containerID: string, containerName: string, labels: map<string, string>)
  {
    function Name(): string {
      TrimSlash(containerName)
    }

    function OomKey(): string {
      host + [BAR] + containerID
    }
  }

  // A die is the same incident as an oom of its container just before it.
  predicate Paired(lastOOM: map<string, int>, key: string, now: int) {
    key in lastOOM && now - lastOOM[key] <= OOM_DIE_WINDOW
  }

  function Unexpired(lastOOM: map<string, int>, now: int): map<string, int> {
    map key | key in lastOOM && now - lastOOM[key] <= OOM_DIE_WINDOW :: lastOOM[key]
  }

  datatype OomEvent = Oom(key: string, at: int) | Die(key: string, at: int) | Expire(at: int)

  predicate InTime(es: seq<OomEvent>) {
    forall i, j :: 0 <= i <= j < |es| ==> es[i].at <= es[j].at
  }

  // The oom times after a run, and which events were dies paired with an oom.
  function Pairings(es: seq<OomEvent>, expires: bool): (map<string, int>, seq<bool>) {
    if es == [] then (map[], [])
    else
      var (last, flags) := Pairings(es[..|es| - 1], expires);
      match es[|es| - 1]
      case Oom(key, at) => (last[key := at], flags + [false])
      case Die(key, at) => (last, flags + [Paired(last, key, at)])
      case Expire(at) => (if expires then Unexpired(last, at) else last, flags + [false])
  }

  predicate OnlyOldMissing(u: map<string, int>, v: map<string, int>, now: int) {
    && (forall key :: key in v ==> key in u && u[key] == v[key])
    && (forall key :: key in u && key !in v ==> now - u[key] > OOM_DIE_WINDOW)
  }

  // Expiring oom times never changes which dies are paired.
  lemma {:induction false} ExpiryInvisible(es: seq<OomEvent>)
    requires InTime(es)
    ensures Pairings(es, true).1 == Pairings(es, false).1
    ensures es != [] ==> OnlyOldMissing(Pairings(es, false).0, Pairings(es, true).0, es[|es| - 1].at)
  {
    if es != [] {
      ExpiryInvisible(es[..|es| - 1]);
    }
  }

  // A time is remembered exactly when it is that of the container's last oom.
  lemma {:induction false} LastOom(es: seq<OomEvent>, key: string)
    requires InTime(es)
    ensures
      var last := Pairings(es, false).0;
      && (forall i :: 0 <= i < |es| && es[i].Oom? && es[i].key == key ==> key in last && es[i].at <= last[key])
      && (key in last ==> exists i :: 0 <= i < |es| && es[i] == Oom(key, last[key]))
  {
    if es != [] {
      var n := |es| - 1;
      LastOom(es[..n], key);
      if key in Pairings(es[..n], false).0 {
        var i :| 0 <= i < n && es[..n][i] == Oom(key, Pairings(es[..n], false).0[key]);
        assert es[i] == es[..n][i];
      }
      forall i | 0 <= i < n
        ensures es[..n][i] == es[i]
      {
      }
    }
  }

  // A die is paired exactly when its container had an oom within the ten seconds
  // before it, however often old oom times were expired.
  lemma PairedIff(es: seq<OomEvent>, key: string, now: int, expires: bool)
    requires InTime(es) && (es != [] ==> es[|es| - 1].at <= now)
    ensures Paired(Pairings(es, expires).0, key, now) <==>
      exists i :: 0 <= i < |es| && es[i].Oom? && es[i].key == key && now - es[i].at <= 10_000_000_000
  {
    hide Pairings;
    LastOom(es, key);
    ExpiryInvisible(es);
    if es == [] {
      NoOoms(expires);
    }
  }

  lemma NoOoms(expires: bool)
    ensures Pairings([], expires).0 == map[]
  {}

  // ---------------------------------------------------------------- the engine

  // A match a sink pushed: the rule and the stamp the sink captured.
  datatype MatchMsg = MatchMsg(gen: nat, rule: Compiled, host: string, containerName: string)

  datatype Alert = Alert(ruleId: string, host: string, containerName: string, suppressed: nat)

  // The event rule takes the event: a die paired with an oom it also watches is skipped.
  predicate Takes(r: Compiled, ev: EngineEvent, action: string, lastOOM: map<string, int>, now: int) {
    && action in r.src.events && r.src.spec.Matches(ev.host, ev.Name(), ev.labels)
    && !(action == "die" && "oom" in r.src.events && Paired(lastOOM, ev.OomKey(), now))
  }

  // After any ooms and dies, a rule takes an event of a kind it watches on a container
  // it is for; it passes over a die only if it watches ooms too and the container had
  // one within the ten seconds before.
  lemma TakesIff(r: Compiled, ev: EngineEvent, action: string, es: seq<OomEvent>, now: int, expires: bool)
    requires InTime(es) && (es != [] ==> es[|es| - 1].at <= now)
    ensures
      var spec, labels := r.src.spec, ev.labels;
      var full := ev.containerName;
      var name := if full != "" && full[0] == '/' then full[1..] else full;
      var isFor :=
        && (spec.hosts == [] || ev.host in spec.hosts)
        && (|| (spec.containers == [] && spec.projects == []) || name in spec.containers
            || DockerProject(labels) in spec.projects || PodmanProject(labels) in spec.projects);
      var same :=
        exists i :: 0 <= i < |es| && es[i].Oom? && es[i].key == ev.host + "|" + ev.containerID
          && now - es[i].at <= 10_000_000_000;
      Takes(r, ev, action, Pairings(es, expires).0, now) <==>
        action in r.src.events && isFor && !(action == "die" && "oom" in r.src.events && same)
  {
    hide Pairings, Paired;
    PairedIff(es, ev.OomKey(), now, expires);
    MatchesExactly(r.src.spec, ev.host, ev.Name(), ev.labels);
  }

  // The clock is read for each rule anew: to pair a die, and to record a match.
  datatype Reading = Reading(pairing: int, matching: int)

  // The windows and alerts after an event went through the event rules in order.
  function EventRecorded(
    windows: map<string, Live>, rules: seq<Compiled>, ev: EngineEvent, action: string, lastOOM: map<string, int>,
    clock: seq<Reading>)
    : (map<string, Live>, seq<Alert>)
    requires |clock| == |rules|
  {
    if rules == [] then (windows, [])
    else
      var n := |rules| - 1;
      var r := rules[n];
      var (ws, alerts) := EventRecorded(windows, rules[..n], ev, action, lastOOM, clock[..n]);
      if !Takes(r, ev, action, lastOOM, clock[n].pairing) then (ws, alerts)
      else
        var (ws', res) := Recorded(ws, WindowKey(r.id, ev.host, ev.Name()), r.params, clock[n].matching);
        (ws', if res.fire then alerts + [Alert(r.id, ev.host, ev.Name(), res.suppressed)] else alerts)
  }

  function At(windows: map<string, Live>, key: string): Option<Live> {
    if key in windows then Some(windows[key]) else None
  }

  lemma KeysDiffer(a: string, b: string, host: string, name: string)
    requires a != b
    ensures WindowKey(a, host, name) != WindowKey(b, host, name)
  {
    var s, t := WindowKey(a, host, name), WindowKey(b, host, name);
    assert s[..|a|] == a && t[..|b|] == b;
    assert |s| - |a| == |t| - |b|;
  }

  // Recording a match reads and writes its own key only.
  lemma RecordedLocal(
    ws: map<string, Live>, windows: map<string, Live>, key: string, params: Params, now: int, other: string)
    ensures At(ws, key) == At(windows, key) ==>
      At(Recorded(ws, key, params, now).0, key) == At(Recorded(windows, key, params, now).0, key)
    ensures other != key ==> At(Recorded(ws, key, params, now).0, other) == At(ws, other)
  {
    hide Observed;
  }

  // With distinct ids, an event reaches the window of each rule that takes it once,
  // and no other window.
  lemma {:induction false} EventReaches(
    windows: map<string, Live>, rules: seq<Compiled>, ev: EngineEvent, action: string, lastOOM: map<string, int>,
    clock: seq<Reading>, key: string)
    requires |clock| == |rules|
    requires forall i, j :: 0 <= i < j < |rules| ==> rules[i].id != rules[j].id
    ensures
      var after := EventRecorded(windows, rules, ev, action, lastOOM, clock).0;
      && (forall k :: 0 <= k < |rules| && key == WindowKey(rules[k].id, ev.host, ev.Name()) ==>
            At(after, key) ==
              if Takes(rules[k], ev, action, lastOOM, clock[k].pairing)
              then At(Recorded(windows, key, rules[k].params, clock[k].matching).0, key)
              else At(windows, key))
      && ((forall k :: 0 <= k < |rules| ==> key != WindowKey(rules[k].id, ev.host, ev.Name())) ==>
            At(after, key) == At(windows, key))
  {
    hide Recorded, At, WindowKey, Takes;
    if rules != [] {
      var n := |rules| - 1;
      RecordedLocal(
        EventRecorded(windows, rules[..n], ev, action, lastOOM, clock[..n]).0, windows,
        WindowKey(rules[n].id, ev.host, ev.Name()), rules[n].params, clock[n].matching, key);
      EventReaches(windows, rules[..n], ev, action, lastOOM, clock[..n], key);
      forall k | 0 <= k < n
        ensures WindowKey(rules[k].id, ev.host, ev.Name()) != WindowKey(rules[n].id, ev.host, ev.Name())
      {
        KeysDiffer(rules[k].id, rules[n].id, ev.host, ev.Name());
      }
    }
  }

  lemma {:induction false} EventOwned(
    windows: map<string, Live>, rules: seq<Compiled>, ev: EngineEvent, action: string, lastOOM: map<string, int>,
    clock: seq<Reading>, force: set<Compiled>)
    requires Owned(windows, force) && forall r :: r in rules ==> r in force
    requires |clock| == |rules|
    ensures Owned(EventRecorded(windows, rules, ev, action, lastOOM, clock).0, force)
  {
    hide Observed, WindowKey, Takes, Owned, OneRulePerId, Recorded;
    if rules != [] {
      var n := |rules| - 1;
      EventOwned(windows, rules[..n], ev, action, lastOOM, clock[..n], force);
      RecordedOwned(
        EventRecorded(windows, rules[..n], ev, action, lastOOM, clock[..n]).0, force, rules[n], ev.host, ev.Name(),
        clock[n].matching);
    }
  }

  // Stamps are handed out once, each to one rule; a stamp is retired or it is the
  // one of its rule's live subscription.
  predicate StampsFit(subs: map<string, ActiveSub>, stamped: map<nat, Compiled>, retired: set<nat>, gen: nat) {
    && (forall id :: id in subs ==>
          && subs[id].gen in stamped && subs[id].gen !in retired
          && stamped[subs[id].gen] == subs[id].rule && subs[id].rule.id == id)
    && (forall g :: g in stamped ==> 1 <= g <= gen)
    && (forall g :: g in stamped && g !in retired ==> stamped[g].id in subs && subs[stamped[g].id].gen == g)
    && retired <= stamped.Keys
  }

  lemma StampsUsed(subs: map<string, ActiveSub>, stamped: map<nat, Compiled>, retired: set<nat>, gen: nat)
    requires StampsFit(subs, stamped, retired, gen)
    ensures forall g :: g in stamped ==> g <= gen
  {}

  lemma UnsubscribeFits(
    subs: map<string, ActiveSub>, eventRules: seq<Compiled>, stamped: map<nat, Compiled>, retired: set<nat>,
    gen: nat, id: string)
    requires StampsFit(subs, stamped, retired, gen) && WellFiled(subs, eventRules) && id in subs
    ensures StampsFit(subs - {id}, stamped, retired + {subs[id].gen}, gen) && WellFiled(subs - {id}, eventRules)
  {
    hide Compile, Usable;
  }

  lemma SubscribeFits(
    subs: map<string, ActiveSub>, eventRules: seq<Compiled>, stamped: map<nat, Compiled>, retired: set<nat>,
    gen: nat, rule: Compiled)
    requires StampsFit(subs, stamped, retired, gen) && WellFiled(subs, eventRules)
    requires rule.Faithful() && rule.typ == "log" && rule.id !in subs
    ensures StampsFit(subs[rule.id := ActiveSub(rule, gen + 1)], stamped[gen + 1 := rule], retired, gen + 1)
    ensures WellFiled(subs[rule.id := ActiveSub(rule, gen + 1)], eventRules)
    ensures gen + 1 !in stamped
  {
    hide Compile, Usable;
  }

  ghost predicate Tidy(windows: map<string, Live>, rules: set<Compiled>) {
    OneRulePerId(rules) && Owned(windows, rules)
  }

  // Sweeping keeps the windows owned, and order when the new rules have plain ids.
  lemma WantedTidy(
    windows: map<string, Live>, subs: map<string, ActiveSub>, eventRules: seq<Compiled>, compiled: seq<Compiled>)
    requires WellFiled(subs, eventRules) && forall c :: c in compiled ==> c.Faithful()
    ensures Tidy(windows, InForce(subs, eventRules)) ==>
      var swept := Swept(windows, StaleIds(subs, eventRules, compiled));
      Owned(swept, Wanted(compiled)) && (PlainIds(compiled) ==> Tidy(swept, Wanted(compiled)))
  {
    hide WellFiled, InForce, Wanted, PlainIds, OneRulePerId, Owned, StaleIds, Swept, KeepsOwners;
    if Tidy(windows, InForce(subs, eventRules)) {
      PlainKeepsOwners(subs, eventRules, compiled);
      SweptOwned(windows, subs, eventRules, compiled);
      if PlainIds(compiled) {
        WantedPlain(compiled);
      }
    }
  }

  lemma Refiled(subs: map<string, ActiveSub>, eventRules: seq<Compiled>, newEvent: seq<Compiled>)
    requires WellFiled(subs, eventRules) && forall r :: r in newEvent ==> r.typ != "log" && r.Faithful()
    ensures WellFiled(subs, newEvent)
  {
    hide Compile, Usable;
  }

  lemma CompiledFiled(compiled: seq<Compiled>)
    requires forall c :: c in compiled ==> c.Faithful()
    ensures forall id :: id in LogRules(compiled) ==>
      LogRules(compiled)[id].id == id && LogRules(compiled)[id].typ == "log" && LogRules(compiled)[id].Faithful()
    ensures forall r :: r in EventRules(compiled) ==> r.typ != "log" && r.Faithful()
  {}

  // Keeping the unchanged subscriptions and adding the rest brings exactly the new
  // log rules into force.
  lemma Resubscribed(
    before: map<string, ActiveSub>, newLog: map<string, Compiled>, kept: map<string, ActiveSub>,
    rest: map<string, Compiled>, after: map<string, ActiveSub>)
    requires forall id :: id in before ==> before[id].rule.Faithful()
    requires forall id :: id in newLog ==> newLog[id].Faithful()
    requires kept == map id | id in before && Unchanged(before, newLog, id) :: before[id]
    requires rest == map id | id in newLog && id !in kept :: newLog[id]
    requires after.Keys == kept.Keys + rest.Keys
    requires forall id :: id in kept ==> after[id] == kept[id]
    requires forall id :: id in rest ==> after[id].rule == rest[id]
    ensures after.Keys == newLog.Keys && forall id :: id in after ==> after[id].rule == newLog[id]
    ensures forall id :: id in after ==> if Unchanged(before, newLog, id) then after[id] == before[id] else id in rest
  {
    hide Compile, Usable;
  }

  lemma InForceWanted(after: map<string, ActiveSub>, compiled: seq<Compiled>)
    requires var newLog := LogRules(compiled);
      after.Keys == newLog.Keys && forall id :: id in after ==> after[id].rule == newLog[id]
    ensures InForce(after, EventRules(compiled)) == Wanted(compiled)
  {
    hide LogRules, EventRules;
  }

  class Engine {
    var gen: nat
    var subs: map<string, ActiveSub>
    var eventRules: seq<Compiled>
    var windows: map<string, Live>
    var lastOOM: map<string, int>

    // The rule behind every stamp ever handed out, and the superseded stamps.
    ghost var stamped: map<nat, Compiled>
    ghost var retired: set<nat>

    ghost predicate Valid()
      reads this
    {
      StampsFit(subs, stamped, retired, gen) && WellFiled(subs, eventRules)
    }

    // Every window belongs to a rule in force.
    ghost predicate WindowsOwned()
      reads this
    {
      Owned(windows, InForce(subs, eventRules))
    }

    // And each rule in force has a bar-free id of its own.
    ghost predicate Orderly()
      reads this
    {
      Tidy(windows, InForce(subs, eventRules))
    }

    // Stamps are never reused and stay retired.
    twostate predicate StampsKept()
      reads this
    {
      && old(retired) <= retired
      && forall g :: g in old(stamped) ==> g in stamped && stamped[g] == old(stamped)[g]
    }

    constructor ()
      ensures Valid() && WindowsOwned() && Orderly() && stamped == map[] && windows == map[]
    {
      gen, subs, eventRules, windows, lastOOM := 0, map[], [], map[], map[];
      stamped, retired := map[], {};
    }

    // Unsubscribes every rule that is gone or changed; rest keeps the rules to subscribe.
    method DropStale(newLog: map<string, Compiled>) returns (rest: map<string, Compiled>, stale: set<string>)
      requires Valid()
      modifies this`subs, this`retired
      ensures Valid() && StampsKept()
      ensures stale == LogStale(old(subs), newLog)
      ensures subs == map id | id in old(subs) && Unchanged(old(subs), newLog, id) :: old(subs)[id]
      ensures rest == map id | id in newLog && id !in subs :: newLog[id]
    {
      hide StampsFit, WellFiled, Compile, Unchanged;
      rest, stale := newLog, {};
      ghost var before := subs;
      var left := subs.Keys;
      while exists id :: id in left
        invariant left <= subs.Keys <= before.Keys
        invariant forall id :: id in subs ==> subs[id] == before[id]
        invariant forall id :: id in before && id !in left ==> (id in subs <==> Unchanged(before, newLog, id))
        invariant forall id :: id in stale <==> id in before && id !in subs
        invariant forall id :: id in rest <==> id in newLog && (id !in subs || id in left)
        invariant forall id :: id in rest ==> rest[id] == newLog[id]
        invariant Valid() && StampsKept()
        decreases left
      {
        var id :| id in left;
        left := left - {id};
        SameSource(before, newLog, id);
        if id in rest && rest[id].src == subs[id].rule.src {
          rest := rest - {id};
        } else {
          UnsubscribeFits(subs, eventRules, stamped, retired, gen, id);
          retired := retired + {subs[id].gen};
          subs := subs - {id};
          stale := stale + {id};
        }
      }
    }

    method SubscribeRule(rule: Compiled)
      requires Valid() && rule.Faithful() && rule.typ == "log" && rule.id !in subs
      modifies this`gen, this`subs, this`stamped
      ensures Valid() && StampsKept() && gen == old(gen) + 1
      ensures subs == old(subs)[rule.id := ActiveSub(rule, gen)]
    {
      hide StampsFit, WellFiled, Compile;
      SubscribeFits(subs, eventRules, stamped, retired, gen, rule);
      gen := gen + 1;
      stamped := stamped[gen := rule];
      subs := subs[rule.id := ActiveSub(rule, gen)];
    }

    method SubscribeAll(rules: map<string, Compiled>)
      requires Valid() && rules.Keys !! subs.Keys
      requires forall id :: id in rules ==> rules[id].id == id && rules[id].typ == "log" && rules[id].Faithful()
      modifies this`gen, this`subs, this`stamped
      ensures Valid() && StampsKept()
      ensures subs.Keys == old(subs).Keys + rules.Keys
      ensures forall id :: id in old(subs) ==> subs[id] == old(subs)[id]
      ensures forall id :: id in rules ==> subs[id].rule == rules[id] && subs[id].gen > old(gen)
    {
      hide StampsFit, WellFiled, Compile, Usable;
      assert forall id :: id in rules ==> id !in subs;
      var left := rules.Keys;
      while exists id :: id in left
        invariant left <= rules.Keys && subs.Keys == old(subs).Keys + (rules.Keys - left)
        invariant forall id :: id in old(subs) ==> subs[id] == old(subs)[id]
        invariant forall id :: id in rules && id !in left ==> subs[id].rule == rules[id] && subs[id].gen > old(gen)
        invariant Valid() && StampsKept() && gen >= old(gen)
        decreases left
      {
        var id :| id in left;
        left := left - {id};
        SubscribeRule(rules[id]);
      }
    }

    // Afterwards the new log rules are the subscribed ones; an unchanged rule keeps
    // its subscription and stamp, any other gets a stamp never used before.
    method ResubscribeLogs(newLog: map<string, Compiled>) returns (stale: set<string>)
      requires Valid()
      requires forall id :: id in newLog ==> newLog[id].id == id && newLog[id].typ == "log" && newLog[id].Faithful()
      modifies this`gen, this`subs, this`stamped, this`retired
      ensures Valid() && StampsKept()
      ensures stale == LogStale(old(subs), newLog)
      ensures subs.Keys == newLog.Keys && forall id :: id in subs ==> subs[id].rule == newLog[id]
      ensures forall id :: id in subs ==>
        if Unchanged(old(subs), newLog, id) then subs[id] == old(subs)[id] else subs[id].gen !in old(stamped)
    {
      hide StampsFit, Compile, Usable, Unchanged, LogStale;
      StampsUsed(subs, stamped, retired, gen);
      ghost var before := subs;
      assert forall id :: id in before ==> before[id].rule.Faithful();
      var rest;
      rest, stale := DropStale(newLog);
      ghost var kept := subs;
      SubscribeAll(rest);
      Resubscribed(before, newLog, kept, rest, subs);
    }

    // Diffs the compiled rules against those in force: afterwards exactly the
    // wanted rules are in force, an unchanged log rule keeps its subscription and
    // stamp, a changed or new one gets a stamp never used before, and the windows
    // filed under a stale id are gone.
    method Reconcile(rules: seq<AlertRule>)
      requires Valid()
      modifies this
      ensures Valid() && StampsKept() && lastOOM == old(lastOOM)
      ensures InForce(subs, eventRules) == Wanted(CompiledRules(rules))
      ensures forall id :: id in subs ==>
        if Unchanged(old(subs), LogRules(CompiledRules(rules)), id) then subs[id] == old(subs)[id]
        else subs[id].gen !in old(stamped)
      ensures windows == Swept(old(windows), StaleIds(old(subs), old(eventRules), CompiledRules(rules)))
      ensures old(WindowsOwned()) && KeepsOwners(old(subs), old(eventRules), CompiledRules(rules)) ==> WindowsOwned()
      ensures old(Orderly()) ==> WindowsOwned() && (PlainIds(CompiledRules(rules)) ==> Orderly())
    {
      hide Compile, Usable, CompiledRules, LogRules, EventRules, StampsFit, WellFiled, Unchanged, LogStale, EventStale,
        Sources, Swept, InForce, Wanted, PlainIds, Tidy, Owned, KeepsOwners;
      var compiled := CompileRules(rules);
      CompiledFiled(compiled);
      var newLog, newEvent := SplitRules(compiled);
      ghost var before, events := subs, eventRules;
      var stale := ResubscribeLogs(newLog);
      InForceWanted(subs, compiled);
      var eventStale := CompareEvents(eventRules, newEvent);
      if KeepsOwners(before, events, compiled) && Owned(windows, InForce(before, events)) {
        SweptOwned(windows, before, events, compiled);
      }
      WantedTidy(windows, before, events, compiled);
      Refiled(subs, eventRules, newEvent);
      eventRules := newEvent;
      windows := Swept(windows, stale + eventStale);
    }

    // One queued log match. A match stamped under a superseded subscription changes
    // nothing; any other is for a rule in force and is recorded in its window.
    method HandleMatch(m: MatchMsg, now: int) returns (alert: Option<Alert>)
      requires Valid() && m.gen in stamped && stamped[m.gen] == m.rule
      modifies this`windows
      ensures Valid() && (old(WindowsOwned()) ==> WindowsOwned()) && (old(Orderly()) ==> Orderly())
      ensures m.gen in retired ==> windows == old(windows) && alert == None
      ensures m.gen !in retired ==>
        var (after, res) := Recorded(old(windows), WindowKey(m.rule.id, m.host, m.containerName), m.rule.params, now);
        && m.rule in InForce(subs, eventRules) && windows == after
        && alert == if res.fire then Some(Alert(m.rule.id, m.host, m.containerName, res.suppressed)) else None
    {
      hide Observed, WindowKey, Owned, OneRulePerId, WellFiled;
      if m.rule.id !in subs || subs[m.rule.id].gen != m.gen {
        return None;
      }
      var key := WindowKey(m.rule.id, m.host, m.containerName);
      var live := WindowFor(windows, key, m.rule.params);
      var (state, res) := Observed(live.params, live.state, now);
      if old(WindowsOwned()) {
        RecordedOwned(windows, InForce(subs, eventRules), m.rule, m.host, m.containerName, now);
      }
      windows := windows[key := live.(state := state)];
      alert := if res.fire then Some(Alert(m.rule.id, m.host, m.containerName, res.suppressed)) else None;
    }

    // One die, oom or unhealthy occurrence, through every event rule that takes it.
    // now is the instant an oom is noted at, clock what the rules read.
    method RecordEventMatch(ev: EngineEvent, action: string, now: int, clock: seq<Reading>) returns (alerts: seq<Alert>)
      requires Valid() && |clock| == |eventRules|
      modifies this`windows, this`lastOOM
      ensures Valid() && (old(WindowsOwned()) ==> WindowsOwned()) && (old(Orderly()) ==> Orderly())
      ensures lastOOM == if action == "oom" then old(lastOOM)[ev.OomKey() := now] else old(lastOOM)
      ensures (windows, alerts) == EventRecorded(old(windows), eventRules, ev, action, lastOOM, clock)
    {
      hide Observed, WindowKey, Takes, Owned, OneRulePerId, StampsFit, WellFiled;
      if action == "oom" {
        lastOOM := lastOOM[ev.OomKey() := now];
      }
      if old(WindowsOwned()) {
        EventOwned(windows, eventRules, ev, action, lastOOM, clock, InForce(subs, eventRules));
      }
      ghost var ooms := lastOOM;
      alerts := [];
      for i := 0 to |eventRules|
        invariant lastOOM == ooms
        invariant (windows, alerts) == EventRecorded(old(windows), eventRules[..i], ev, action, lastOOM, clock[..i])
      {
        var r := eventRules[i];
        assert eventRules[..i + 1][..i] == eventRules[..i] && clock[..i + 1][..i] == clock[..i];
        if Takes(r, ev, action, lastOOM, clock[i].pairing) {
          var key := WindowKey(r.id, ev.host, ev.Name());
          var live := WindowFor(windows, key, r.params);
          var (state, res) := Observed(live.params, live.state, clock[i].matching);
          windows := windows[key := live.(state := state)];
          if res.fire {
            alerts := alerts + [Alert(r.id, ev.host, ev.Name(), res.suppressed)];
          }
        }
      }
      assert eventRules[..|eventRules|] == eventRules && clock[..|clock|] == clock;
    }

    // The periodic pass over windows without a match for a day, and old oom times.
    method PruneWindows(now: int)
      requires Valid()
      modifies this`windows, this`lastOOM
      ensures Valid() && (old(WindowsOwned()) ==> WindowsOwned()) && (old(Orderly()) ==> Orderly())
      ensures windows.Keys <= old(windows).Keys
      ensures forall key :: key in old(windows) ==>
        At(windows, key) ==
          match Step(old(windows)[key].params, Some(old(windows)[key].state), Tick(now), true).0
          case None => None
          case Some(state) => Some(Live(old(windows)[key].params, state))
      ensures forall key :: key in old(windows) ==>
        (key in windows <==> now - old(windows)[key].state.lastSeen <= 24 * 3600 * 1_000_000_000)
      ensures lastOOM == Unexpired(old(lastOOM), now)
    {
      hide Owned, InForce, OneRulePerId, StampsFit, WellFiled;
      windows := map key | key in windows && now - windows[key].state.lastSeen <= WINDOW_IDLE_TTL :: windows[key];
      FewerOwned(old(windows), windows, InForce(subs, eventRules));
      lastOOM := Unexpired(lastOOM, now);
    }
  }

  method SplitRules(compiled: seq<Compiled>) returns (newLog: map<string, Compiled>, newEvent: seq<Compiled>)
    ensures newLog == LogRules(compiled) && newEvent == EventRules(compiled)
  {
    newLog, newEvent := map[], [];
    for i := 0 to |compiled|
      invariant newLog == LogRules(compiled[..i]) && newEvent == EventRules(compiled[..i])
    {
      assert compiled[..i + 1][..i] == compiled[..i];
      if compiled[i].typ == "log" {
        newLog := newLog[compiled[i].id := compiled[i]];
      } else {
        newEvent := newEvent + [compiled[i]];
      }
    }
    assert compiled[..|compiled|] == compiled;
  }

  method CompareEvents(eventRules: seq<Compiled>, newEvent: seq<Compiled>) returns (stale: set<string>)
    ensures stale == EventStale(Sources(eventRules), newEvent)
  {
    var was: map<string, AlertRule> := map[];
    for i := 0 to |eventRules|
      invariant was == Sources(eventRules[..i])
    {
      assert eventRules[..i + 1][..i] == eventRules[..i];
      was := was[eventRules[i].id := eventRules[i].src];
    }
    assert eventRules[..|eventRules|] == eventRules;
    stale := {};
    for i := 0 to |newEvent|
      invariant stale + EventStale(was, newEvent[i..]) == EventStale(Sources(eventRules), newEvent)
    {
      var r := newEvent[i];
      if r.id !in was || was[r.id] != r.src {
        stale := stale + {r.id};
      }
      was := was - {r.id};
    }
    stale := stale + was.Keys;
  }
}
