// The log hub's run loop: one tail per subscription and container, container
// events, snapshot convergence, and single-flight listing.
module TailHub {
  import opened ContainerSpecs
  import opened LogEntries

  datatype Key = Key(host: string, id: string)

  // A live subscription, with the handle of its tail for each container.
  datatype Sub = Sub(spec: ContainerSpec, tails: map<Key, nat>)

  // A tail goroutine that is still reading, and the exit message of one that is not.
  datatype Tail = Tail(sub: nat, key: Key, cancelled: bool)
  datatype Exit = Exit(sub: nat, key: Key)

  predicate Running(live: map<nat, Tail>, t: nat) {
    t in live && !live[t].cancelled
  }

  predicate Holds(subs: map<nat, Sub>, s: nat, key: Key, t: nat) {
    s in subs && key in subs[s].tails && subs[s].tails[key] == t
  }

  predicate Backed(live: map<nat, Tail>, exits: map<nat, Exit>, s: nat, key: Key, t: nat) {
    (t in live && live[t] == Tail(s, key, false)) || (t in exits && exits[t] == Exit(s, key))
  }

  // Every uncancelled tail is the one its subscription holds for the container, and
  // every held tail is running or about to report its exit.
  ghost predicate Supervised(subs: map<nat, Sub>, live: map<nat, Tail>, exits: map<nat, Exit>, next: nat) {
    && (forall t :: Running(live, t) ==> Holds(subs, live[t].sub, live[t].key, t))
    && (forall s, key :: s in subs && key in subs[s].tails ==> Backed(live, exits, s, key, subs[s].tails[key]))
    && (forall t :: t in live ==> t < next && t !in exits)
    && (forall t :: t in exits ==> t < next)
  }

  // No tail is leaked or doubled: two uncancelled tails of one subscription and
  // container are the same, and it is the one the subscription holds.
  lemma OneTail(subs: map<nat, Sub>, live: map<nat, Tail>, exits: map<nat, Exit>, next: nat, t: nat, u: nat)
    requires Supervised(subs, live, exits, next) && Running(live, t) && Running(live, u)
    requires live[t].sub == live[u].sub && live[t].key == live[u].key
    ensures t == u && Holds(subs, live[t].sub, live[t].key, t)
  {}

  function Cancel(live: map<nat, Tail>, t: nat): map<nat, Tail> {
    if t in live then live[t := live[t].(cancelled := true)] else live
  }

  function WithTails(subs: map<nat, Sub>, s: nat, tails: map<Key, nat>): map<nat, Sub>
    requires s in subs
  {
    subs[s := subs[s].(tails := tails)]
  }

  lemma SpawnSupervised(subs: map<nat, Sub>, live: map<nat, Tail>, exits: map<nat, Exit>, next: nat, s: nat, key: Key)
    requires Supervised(subs, live, exits, next) && s in subs && key !in subs[s].tails
    ensures
      Supervised(WithTails(subs, s, subs[s].tails[key := next]), live[next := Tail(s, key, false)], exits, next + 1)
  {}

  lemma DropSupervised(subs: map<nat, Sub>, live: map<nat, Tail>, exits: map<nat, Exit>, next: nat, s: nat, key: Key)
    requires Supervised(subs, live, exits, next) && s in subs && key in subs[s].tails
    ensures
      Supervised(WithTails(subs, s, subs[s].tails - {key}), Cancel(live, subs[s].tails[key]), exits, next)
  {}

  // The loop forgets a tail that reports its exit, unless it was replaced.
  function AfterExit(subs: map<nat, Sub>, ex: Exit, t: nat): map<nat, Sub> {
    if Holds(subs, ex.sub, ex.key, t) then WithTails(subs, ex.sub, subs[ex.sub].tails - {ex.key}) else subs
  }

  // A late exit never removes a running tail.
  lemma ExitSupervised(subs: map<nat, Sub>, live: map<nat, Tail>, exits: map<nat, Exit>, next: nat, t: nat)
    requires Supervised(subs, live, exits, next) && t in exits
    ensures Supervised(AfterExit(subs, exits[t], t), live, exits - {t}, next)
    ensures forall u :: Running(live, u) ==> Holds(AfterExit(subs, exits[t], t), live[u].sub, live[u].key, u)
  {}

  lemma EndSupervised(subs: map<nat, Sub>, live: map<nat, Tail>, exits: map<nat, Exit>, next: nat, t: nat)
    requires Supervised(subs, live, exits, next) && t in live
    ensures Supervised(subs, live - {t}, exits[t := Exit(live[t].sub, live[t].key)], next)
  {}

  // ----------------------------------------------------------------- snapshots

  datatype Container = Container(id: string, state: string, names: seq<string>, labels: map<string, string>)
  datatype Meta = Meta(name: string, labels: map<string, string>)

  function MetaOf(c: Container): Meta {
    Meta(if c.names == [] then "" else TrimSlash(c.names[0]), c.labels)
  }

  function LastRunning(cs: seq<Container>, id: string): Option<Meta> {
    if cs == [] then None
    else
      var c := cs[|cs| - 1];
      if c.state == "running" && c.id == id then Some(MetaOf(c)) else LastRunning(cs[..|cs| - 1], id)
  }

  // What a listing says about a container; the listed hosts are the snapshot's keys.
  function ListedAs(snapshot: map<string, seq<Container>>, key: Key): Option<Meta> {
    if key.host in snapshot then LastRunning(snapshot[key.host], key.id) else None
  }

  // Entry i is the last of the container's that is running.
  predicate LastRunningAt(cs: seq<Container>, id: string, i: int) {
    && 0 <= i < |cs| && cs[i].id == id && cs[i].state == "running"
    && forall j :: i < j < |cs| && cs[j].id == id ==> cs[j].state != "running"
  }

  lemma {:induction false} LastRunningExactly(cs: seq<Container>, id: string)
    ensures LastRunning(cs, id).None? <==> forall i :: !LastRunningAt(cs, id, i)
    ensures forall i :: LastRunningAt(cs, id, i) ==>
      LastRunning(cs, id) == Some(Meta(if cs[i].names == [] then "" else TrimSlash(cs[i].names[0]), cs[i].labels))
  {
    hide TrimSlash;
    if cs != [] {
      var n := |cs| - 1;
      LastRunningExactly(cs[..n], id);
      LastEntry(cs, id);
      if LastRunningAt(cs, id, n) {
        assert forall i :: LastRunningAt(cs, id, i) ==> i == n;
      }
    }
  }

  lemma LastEntry(cs: seq<Container>, id: string)
    requires cs != []
    ensures
      var n := |cs| - 1;
      if cs[n].id == id && cs[n].state == "running" then LastRunningAt(cs, id, n)
      else forall i :: LastRunningAt(cs, id, i) <==> LastRunningAt(cs[..n], id, i)
  {}

  function Get(running: map<Key, Meta>, key: Key): Option<Meta> {
    if key in running then Some(running[key]) else None
  }

  // The running containers of every listed host.
  method IndexRunning(snapshot: map<string, seq<Container>>) returns (running: map<Key, Meta>)
    ensures forall key :: Get(running, key) == ListedAs(snapshot, key)
  {
    running := map[];
    var left := snapshot.Keys;
    while exists host :: host in left
      invariant left <= snapshot.Keys
      invariant forall key :: Get(running, key) == if key.host in left then None else ListedAs(snapshot, key)
      decreases left
    {
      var host :| host in left;
      left := left - {host};
      var cs := snapshot[host];
      ghost var before := running;
      for i := 0 to |cs|
        invariant forall key ::
          Get(running, key) == if key.host == host then LastRunning(cs[..i], key.id) else Get(before, key)
      {
        assert cs[..i + 1][..i] == cs[..i];
        if cs[i].state == "running" {
          running := running[Key(host, cs[i].id) := MetaOf(cs[i])];
        }
      }
      assert cs[..|cs|] == cs;
    }
  }

  predicate Wants(spec: ContainerSpec, key: Key, meta: Option<Meta>) {
    meta.Some? && spec.Matches(key.host, meta.value.name, meta.value.labels)
  }

  // What a successful listing makes of one subscription's tails: on listed hosts
  // exactly the wanted running containers are tailed, elsewhere nothing changes, a
  // tail that is still wanted is kept, and any other tail is a new one.
  ghost predicate Converged(
    spec: ContainerSpec, before: map<Key, nat>, after: map<Key, nat>, snapshot: map<string, seq<Container>>, next: nat)
  {
    && (forall key: Key :: key.host in snapshot ==> (key in after <==> Wants(spec, key, ListedAs(snapshot, key))))
    && (forall key: Key :: key.host !in snapshot ==> (key in after <==> key in before))
    && (forall key :: key in after && key in before ==> after[key] == before[key])
    && (forall key :: key in after && key !in before ==> after[key] >= next)
  }

  // A running container is on a listed host.
  lemma OnlyListed(spec: ContainerSpec, snapshot: map<string, seq<Container>>, running: map<Key, Meta>)
    requires forall key :: Get(running, key) == ListedAs(snapshot, key)
    ensures forall key :: key in running ==> key.host in snapshot
    ensures forall key :: Wants(spec, key, ListedAs(snapshot, key)) ==> key in running
  {
    forall key
      ensures key in running ==> key.host in snapshot
      ensures Wants(spec, key, ListedAs(snapshot, key)) ==> key in running
    {
      assert Get(running, key) == ListedAs(snapshot, key);
    }
  }

  // What listed entry a subscription tails: by host, and by name or compose project.
  predicate Chosen(spec: ContainerSpec, host: string, c: Container) {
    && (spec.hosts == [] || host in spec.hosts)
    && (|| (spec.containers == [] && spec.projects == [])
        || (if c.names == [] then "" else TrimSlash(c.names[0])) in spec.containers
        || DockerProject(c.labels) in spec.projects || PodmanProject(c.labels) in spec.projects)
  }

  // After a listing a container of a listed host is tailed exactly when its last
  // running entry is one the subscription chooses.
  lemma ConvergedChoice(
    spec: ContainerSpec, before: map<Key, nat>, after: map<Key, nat>, snapshot: map<string, seq<Container>>,
    next: nat, key: Key)
    requires Converged(spec, before, after, snapshot, next) && key.host in snapshot
    ensures key in after <==>
      exists i :: LastRunningAt(snapshot[key.host], key.id, i) && Chosen(spec, key.host, snapshot[key.host][i])
  {
    hide LastRunning;
    var cs := snapshot[key.host];
    LastRunningExactly(cs, key.id);
    if i: int :| LastRunningAt(cs, key.id, i) {
      var meta := ListedAs(snapshot, key).value;
      MatchesExactly(spec, key.host, meta.name, meta.labels);
      assert forall j :: LastRunningAt(cs, key.id, j) ==> j == i;
    }
  }

  function Without(sub: Sub, key: Key): Sub {
    sub.(tails := sub.tails - {key})
  }

  // What a start event makes of one subscription.
  predicate Started(before: Sub, after: Sub, key: Key, name: string, labels: map<string, string>, next: nat) {
    if key in before.tails || !before.spec.Matches(key.host, name, labels) then after == before
    else
      && key in after.tails && after.tails[key] >= next
      && after == before.(tails := before.tails[key := after.tails[key]])
  }

  // After a start event a subscription tails the container when it did before or
  // chooses it, and then keeps or starts one tail; its other tails stay.
  lemma StartedChoice(before: Sub, after: Sub, key: Key, name: string, labels: map<string, string>, next: nat)
    requires Started(before, after, key, name, labels, next)
    ensures after.spec == before.spec && after.tails - {key} == before.tails - {key}
    ensures key in before.tails ==> key in after.tails && after.tails[key] == before.tails[key]
    ensures
      var spec := before.spec;
      var chosen :=
        && (spec.hosts == [] || key.host in spec.hosts)
        && (|| (spec.containers == [] && spec.projects == []) || name in spec.containers
            || DockerProject(labels) in spec.projects || PodmanProject(labels) in spec.projects);
      key in after.tails <==> key in before.tails || chosen
  {
    MatchesExactly(before.spec, key.host, name, labels);
  }

  lemma ConvergedSince(
    spec: ContainerSpec, before: map<Key, nat>, after: map<Key, nat>, snapshot: map<string, seq<Container>>,
    earlier: nat, next: nat)
    requires Converged(spec, before, after, snapshot, next) && earlier <= next
    ensures Converged(spec, before, after, snapshot, earlier)
  {}

  // ------------------------------------------------------------------- the hub

  class Hub {
    var subs: map<nat, Sub>
    var nextSub: nat
    var nextTail: nat
    var listInFlight: bool
    var listQueued: bool

    // The tail goroutines, and the exit messages waiting for the loop.
    ghost var live: map<nat, Tail>
    ghost var exits: map<nat, Exit>
    // How many listings were started, how many of them the loop has not handled,
    // and how many were started before each request.
    ghost var started: nat
    ghost var unhandled: nat
    ghost var requests: seq<nat>

    ghost predicate Valid()
      reads this
    {
      Supervised(subs, live, exits, nextTail) && SingleFlight() && (forall s :: s in subs ==> s < nextSub)
    }

    // At most one listing is in flight, and every request is followed by a listing
    // that has started after it or is queued behind the one in flight.
    ghost predicate SingleFlight()
      reads this
    {
      && unhandled == (if listInFlight then 1 else 0)
      && (listQueued ==> listInFlight)
      && (forall i :: 0 <= i < |requests| ==> requests[i] < started || (requests[i] == started && listQueued))
    }

    constructor ()
      ensures Valid() && subs == map[] && live == map[] && requests == []
    {
      subs, nextSub, nextTail, listInFlight, listQueued := map[], 0, 0, false, false;
      live, exits, started, unhandled, requests := map[], map[], 0, 0, [];
    }

    // What a new request needs: without a listing in flight, one starts right away.
    ghost predicate MayRequest()
      reads this
    {
      && unhandled == (if listInFlight then 1 else 0)
      && (listQueued ==> listInFlight)
      && (forall i :: 0 <= i < |requests| ==>
            requests[i] < started || (requests[i] == started && (listQueued || !listInFlight)))
    }

    method RequestList()
      requires MayRequest()
      modifies this`listInFlight, this`listQueued, this`started, this`unhandled, this`requests
      ensures SingleFlight() && listInFlight
      ensures requests == old(requests) + [old(started)]
      ensures started == old(started) + if old(listInFlight) then 0 else 1
      ensures listQueued == old(listInFlight)
    {
      requests := requests + [started];
      if listInFlight {
        listQueued := true;
        return;
      }
      listInFlight := true;
      started, unhandled := started + 1, unhandled + 1;
    }

    method SpawnTail(s: nat, key: Key)
      requires Supervised(subs, live, exits, nextTail) && s in subs && key !in subs[s].tails
      modifies this`subs, this`nextTail, this`live
      ensures Supervised(subs, live, exits, nextTail) && nextTail == old(nextTail) + 1
      ensures subs == WithTails(old(subs), s, old(subs[s].tails)[key := old(nextTail)])
    {
      hide Supervised;
      SpawnSupervised(subs, live, exits, nextTail, s, key);
      subs := WithTails(subs, s, subs[s].tails[key := nextTail]);
      live := live[nextTail := Tail(s, key, false)];
      nextTail := nextTail + 1;
    }

    // Cancels the tail and forgets its handle.
    method DropTail(s: nat, key: Key)
      requires Supervised(subs, live, exits, nextTail) && s in subs && key in subs[s].tails
      modifies this`subs, this`live
      ensures Supervised(subs, live, exits, nextTail)
      ensures subs == WithTails(old(subs), s, old(subs[s].tails) - {key})
    {
      hide Supervised;
      DropSupervised(subs, live, exits, nextTail, s, key);
      live := Cancel(live, subs[s].tails[key]);
      subs := WithTails(subs, s, subs[s].tails - {key});
    }

    // Registers a subscription; its tails come with the listing it asks for.
    method Subscribe(spec: ContainerSpec) returns (s: nat)
      requires Valid()
      modifies this
      ensures Valid() && s !in old(subs) && subs == old(subs)[s := Sub(spec, map[])] && live == old(live)
      ensures listInFlight && |requests| == |old(requests)| + 1
    {
      s := nextSub;
      nextSub := nextSub + 1;
      subs := subs[s := Sub(spec, map[])];
      RequestList();
    }

    // Removes a subscription: afterwards none of its tails runs uncancelled.
    method RemoveSub(s: nat)
      requires Valid()
      modifies this`subs, this`live
      ensures Valid() && subs == old(subs) - {s}
      ensures forall t :: Running(live, t) ==> live[t].sub != s
    {
      if s !in subs {
        return;
      }
      DropAll(s);
      subs := subs - {s};
    }

    method DropAll(s: nat)
      requires Supervised(subs, live, exits, nextTail) && s in subs
      modifies this`subs, this`live
      ensures Supervised(subs, live, exits, nextTail)
      ensures subs == WithTails(old(subs), s, map[])
    {
      hide Supervised;
      while exists key :: key in subs[s].tails
        invariant Supervised(subs, live, exits, nextTail)
        invariant s in subs && subs == WithTails(old(subs), s, subs[s].tails)
        invariant subs[s].tails.Keys <= old(subs[s].tails).Keys
        decreases subs[s].tails.Keys
      {
        var key :| key in subs[s].tails;
        DropTail(s, key);
      }
    }

    // Cancels every subscription's tail for a container.
    method CancelTails(key: Key)
      requires Supervised(subs, live, exits, nextTail)
      modifies this`subs, this`live
      ensures Supervised(subs, live, exits, nextTail) && subs.Keys == old(subs).Keys
      ensures forall s :: s in subs ==> subs[s] == Without(old(subs)[s], key)
    {
      hide Supervised;
      var left := subs.Keys;
      while exists s :: s in left
        invariant Supervised(subs, live, exits, nextTail) && left <= subs.Keys == old(subs).Keys
        invariant forall s :: s in subs ==> subs[s] == if s in left then old(subs)[s] else Without(old(subs)[s], key)
        decreases left
      {
        var s :| s in left;
        left := left - {s};
        if key in subs[s].tails {
          DropTail(s, key);
        } else {
          assert subs[s].tails == subs[s].tails - {key};
        }
      }
    }

    // The fast path: a start spawns matching tails, a die or destroy cancels them,
    // a rename cancels them and asks for a listing. base is the action up to ": ".
    method HandleEvent(base: string, key: Key, containerName: string, labels: map<string, string>)
      requires Valid()
      modifies this
      ensures Valid() && exits == old(exits) && subs.Keys == old(subs).Keys
      ensures forall s :: s in subs ==>
        match base
        case "start" => Started(old(subs)[s], subs[s], key, TrimSlash(containerName), labels, old(nextTail))
        case "die" => subs[s] == Without(old(subs)[s], key)
        case "destroy" => subs[s] == Without(old(subs)[s], key)
        case "rename" => subs[s] == Without(old(subs)[s], key)
        case _ => subs[s] == old(subs)[s]
      ensures requests == if base == "rename" then old(requests) + [old(started)] else old(requests)
    {
      hide Supervised, Started;
      if base == "start" {
        StartTails(key, TrimSlash(containerName), labels);
      } else if base == "die" || base == "destroy" {
        CancelTails(key);
      } else if base == "rename" {
        CancelTails(key);
        RequestList();
      }
    }

    method StartTails(key: Key, name: string, labels: map<string, string>)
      requires Supervised(subs, live, exits, nextTail)
      modifies this`subs, this`live, this`nextTail
      ensures Supervised(subs, live, exits, nextTail) && subs.Keys == old(subs).Keys
      ensures forall s :: s in subs ==> Started(old(subs)[s], subs[s], key, name, labels, old(nextTail))
    {
      hide Supervised;
      var left := subs.Keys;
      while exists s :: s in left
        invariant Supervised(subs, live, exits, nextTail) && left <= subs.Keys == old(subs).Keys
        invariant nextTail >= old(nextTail)
        invariant forall s :: s in left ==> subs[s] == old(subs)[s]
        invariant forall s :: s in subs && s !in left ==>
          Started(old(subs)[s], subs[s], key, name, labels, old(nextTail))
        decreases left
      {
        var s :| s in left;
        left := left - {s};
        if key !in subs[s].tails && subs[s].spec.Matches(key.host, name, labels) {
          SpawnTail(s, key);
        }
      }
    }

    // Cancels the tails of listed hosts whose container is gone or no longer matches.
    method CancelUnwanted(s: nat, snapshot: map<string, seq<Container>>, running: map<Key, Meta>)
      requires Supervised(subs, live, exits, nextTail) && s in subs
      requires forall key :: Get(running, key) == ListedAs(snapshot, key)
      modifies this`subs, this`live
      ensures Supervised(subs, live, exits, nextTail)
      ensures s in subs && subs == WithTails(old(subs), s, subs[s].tails)
      ensures forall key :: key in subs[s].tails <==>
        key in old(subs[s]).tails && (key.host !in snapshot || Wants(subs[s].spec, key, ListedAs(snapshot, key)))
      ensures forall key :: key in subs[s].tails ==> subs[s].tails[key] == old(subs[s]).tails[key]
    {
      hide Supervised, Wants, ListedAs, Get;
      ghost var spec, before := subs[s].spec, subs[s].tails;
      var left := subs[s].tails.Keys;
      while exists key :: key in left
        invariant Supervised(subs, live, exits, nextTail)
        invariant s in subs && subs == WithTails(old(subs), s, subs[s].tails)
        invariant left <= subs[s].tails.Keys
        invariant forall key :: key in subs[s].tails ==> key in before && subs[s].tails[key] == before[key]
        invariant forall key :: key in before && key !in left ==>
          (key in subs[s].tails <==> key.host !in snapshot || Wants(spec, key, ListedAs(snapshot, key)))
        decreases left
      {
        var key :| key in left;
        left := left - {key};
        assert Get(running, key) == ListedAs(snapshot, key);
        if key.host in snapshot && !Wants(subs[s].spec, key, Get(running, key)) {
          DropTail(s, key);
        }
      }
    }

    // Spawns tails for the matching running containers that have none yet.
    method SpawnWanted(s: nat, snapshot: map<string, seq<Container>>, running: map<Key, Meta>)
      requires Supervised(subs, live, exits, nextTail) && s in subs
      requires forall key :: Get(running, key) == ListedAs(snapshot, key)
      modifies this`subs, this`live, this`nextTail
      ensures Supervised(subs, live, exits, nextTail) && nextTail >= old(nextTail)
      ensures s in subs && subs == WithTails(old(subs), s, subs[s].tails)
      ensures forall key :: key in subs[s].tails <==>
        key in old(subs[s]).tails || (key in running && Wants(subs[s].spec, key, ListedAs(snapshot, key)))
      ensures forall key :: key in subs[s].tails ==>
        if key in old(subs[s]).tails then subs[s].tails[key] == old(subs[s]).tails[key]
        else subs[s].tails[key] >= old(nextTail)
    {
      hide Supervised, Wants, ListedAs, Get;
      ghost var spec, before := subs[s].spec, subs[s].tails;
      var left := running.Keys;
      while exists key :: key in left
        invariant Supervised(subs, live, exits, nextTail) && nextTail >= old(nextTail)
        invariant s in subs && subs == WithTails(old(subs), s, subs[s].tails)
        invariant left <= running.Keys
        invariant forall key :: key in subs[s].tails <==>
          key in before || (key in running && key !in left && Wants(spec, key, ListedAs(snapshot, key)))
        invariant forall key :: key in subs[s].tails ==>
          if key in before then subs[s].tails[key] == before[key] else subs[s].tails[key] >= old(nextTail)
        decreases left
      {
        var key :| key in left;
        left := left - {key};
        assert Get(running, key) == ListedAs(snapshot, key);
        if key !in subs[s].tails && Wants(subs[s].spec, key, Get(running, key)) {
          SpawnTail(s, key);
        }
      }
    }

    // Converges one subscription's tails against a snapshot.
    method Converge(s: nat, snapshot: map<string, seq<Container>>, running: map<Key, Meta>)
      requires Supervised(subs, live, exits, nextTail) && s in subs
      requires forall key :: Get(running, key) == ListedAs(snapshot, key)
      modifies this`subs, this`live, this`nextTail
      ensures Supervised(subs, live, exits, nextTail) && nextTail >= old(nextTail)
      ensures s in subs && subs == WithTails(old(subs), s, subs[s].tails)
      ensures Converged(subs[s].spec, old(subs[s]).tails, subs[s].tails, snapshot, old(nextTail))
    {
      hide Supervised, Wants, ListedAs, Get;
      CancelUnwanted(s, snapshot, running);
      SpawnWanted(s, snapshot, running);
      OnlyListed(subs[s].spec, snapshot, running);
    }

    method ConvergeAll(snapshot: map<string, seq<Container>>)
      requires Supervised(subs, live, exits, nextTail)
      modifies this`subs, this`live, this`nextTail
      ensures Supervised(subs, live, exits, nextTail) && subs.Keys == old(subs).Keys
      ensures forall s :: s in subs ==> subs[s].spec == old(subs)[s].spec
      ensures forall s :: s in subs ==>
        Converged(subs[s].spec, old(subs)[s].tails, subs[s].tails, snapshot, old(nextTail))
    {
      hide Supervised, Converged;
      var running := IndexRunning(snapshot);
      var left := subs.Keys;
      while exists s :: s in left
        invariant Supervised(subs, live, exits, nextTail) && left <= subs.Keys == old(subs).Keys
        invariant nextTail >= old(nextTail)
        invariant forall s :: s in left ==> subs[s] == old(subs)[s]
        invariant forall s :: s in subs ==> subs[s].spec == old(subs)[s].spec
        invariant forall s :: s in subs && s !in left ==>
          Converged(subs[s].spec, old(subs)[s].tails, subs[s].tails, snapshot, old(nextTail))
        decreases left
      {
        var s :| s in left;
        left := left - {s};
        ghost var next := nextTail;
        Converge(s, snapshot, running);
        ConvergedSince(subs[s].spec, old(subs)[s].tails, subs[s].tails, snapshot, old(nextTail), next);
      }
    }

    // A listing came back; None stands for one that failed as a whole.
    method HandleList(res: Option<map<string, seq<Container>>>)
      requires Valid() && unhandled > 0
      modifies this
      ensures Valid() && exits == old(exits) && subs.Keys == old(subs).Keys
      ensures forall s :: s in subs ==> subs[s].spec == old(subs)[s].spec
      ensures forall s :: s in subs ==>
        match res
        case None => subs[s] == old(subs)[s]
        case Some(snapshot) => Converged(subs[s].spec, old(subs)[s].tails, subs[s].tails, snapshot, old(nextTail))
      ensures listInFlight == old(listQueued) && !listQueued
      ensures started == old(started) + if old(listQueued) then 1 else 0
    {
      hide Supervised, Converged;
      listInFlight, unhandled := false, unhandled - 1;
      if res.Some? {
        ConvergeAll(res.value);
      }
      if listQueued {
        listQueued := false;
        RequestList();
      }
    }

    // The exit message of tail t, which stopped by itself or was cancelled.
    method HandleTailExit(t: nat, ex: Exit)
      requires Valid() && t in exits && exits[t] == ex
      modifies this`subs, this`exits
      ensures Valid() && exits == old(exits) - {t} && subs == AfterExit(old(subs), ex, t)
      ensures forall u :: Running(live, u) ==> Holds(subs, live[u].sub, live[u].key, u)
    {
      hide Supervised;
      ExitSupervised(subs, live, exits, nextTail, t);
      exits := exits - {t};
      if ex.sub !in subs {
        return;
      }
      if ex.key in subs[ex.sub].tails && subs[ex.sub].tails[ex.key] == t {
        subs := WithTails(subs, ex.sub, subs[ex.sub].tails - {ex.key});
      }
    }

    // A tail goroutine stops reading, at any time, and has its exit to report.
    ghost method TailEnds(t: nat)
      requires Valid() && t in live
      modifies this`live, this`exits
      ensures Valid() && live == old(live) - {t}
      ensures exits == old(exits)[t := Exit(old(live)[t].sub, old(live)[t].key)]
    {
      hide Supervised;
      EndSupervised(subs, live, exits, nextTail, t);
      exits := exits[t := Exit(live[t].sub, live[t].key)];
      live := live - {t};
    }

    // Cancels everything: no tail is left running.
    method Shutdown()
      requires Valid()
      modifies this`subs, this`live
      ensures Valid() && subs.Keys == old(subs).Keys && forall s :: s in subs ==> subs[s].tails == map[]
      ensures forall t :: !Running(live, t)
    {
      var left := subs.Keys;
      while exists s :: s in left
        invariant Supervised(subs, live, exits, nextTail) && left <= subs.Keys == old(subs).Keys
        invariant forall s :: s in subs && s !in left ==> subs[s].tails == map[]
        decreases left
      {
        var s :| s in left;
        left := left - {s};
        DropAll(s);
      }
    }
  }
}
