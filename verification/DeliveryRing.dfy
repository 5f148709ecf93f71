// A subscription's bounded delivery buffer: records pushed by tails, the oldest
// dropped on overflow, handed one at a time to the sink until a drain or discard
// close.
module DeliveryRing {
  import opened LogEntries
  import opened Rings

  predicate Increasing(picks: seq<nat>, n: nat) {
    && (forall i :: 0 <= i < |picks| ==> picks[i] < n)
    && (forall i, j :: 0 <= i < j < |picks| ==> picks[i] < picks[j])
  }

  lemma IncreasingUp(picks: seq<nat>, n: nat, more: nat)
    requires Increasing(picks, n) && n <= more
    ensures Increasing(picks, more)
  {}

  function Below(n: nat): set<nat> {
    if n == 0 then {} else Below(n - 1) + {n - 1}
  }

  lemma {:induction false} BelowCount(n: nat)
    ensures |Below(n)| == n && forall i :: i in Below(n) <==> 0 <= i < n
  {
    if n > 0 {
      BelowCount(n - 1);
    }
  }

  function Picked(picks: seq<nat>): (s: set<nat>) {
    set i | i in picks
  }

  lemma {:induction false} PickedCount(picks: seq<nat>, n: nat)
    requires Increasing(picks, n)
    ensures |Picked(picks)| == |picks|
  {
    if picks != [] {
      var init, last := picks[..|picks| - 1], picks[|picks| - 1];
      PickedCount(init, n);
      assert picks == init + [last];
      assert Picked(picks) == Picked(init) + {last} && last !in Picked(init);
    }
  }

  // The accepted records that are neither delivered nor buffered, as positions.
  function Lost(picks: seq<nat>, accepted: nat, count: nat): set<nat>
    requires count <= accepted
  {
    Below(accepted - count) - Picked(picks)
  }

  // Their number is what conservation leaves over.
  lemma LostCount(picks: seq<nat>, accepted: nat, count: nat)
    requires count <= accepted && Increasing(picks, accepted - count)
    ensures |Lost(picks, accepted, count)| == accepted - count - |picks|
  {
    PickedCount(picks, accepted - count);
    BelowCount(accepted - count);
    assert Picked(picks) <= Below(accepted - count);
  }

  function At<T>(accepted: seq<T>, picks: seq<nat>): (r: seq<T>)
    requires forall i :: 0 <= i < |picks| ==> picks[i] < |accepted|
  {
    seq(|picks|, i requires 0 <= i < |picks| => accepted[picks[i]])
  }

  lemma HandedOver<T>(delivered: seq<T>, buffered: seq<T>)
    requires buffered != []
    ensures (delivered + [buffered[0]]) + buffered[1..] == delivered + buffered
  {}

  lemma NothingBuffered<T>(slots: seq<T>, head: nat)
    requires head < |slots|
    ensures Elements(slots, head, 0) == []
  {}

  class Ring<T> {
    const zero: T
    const buf: array<T>
    var head: nat
    var count: nat
    var closed: bool
    var discard: bool
    var drops: nat

    // Every record accepted, and the positions of those handed to the sink.
    ghost var accepted: seq<T>
    ghost var picks: seq<nat>

    ghost predicate Valid()
      reads this, buf
    {
      && buf.Length > 0 && head < buf.Length && count <= buf.Length && count <= |accepted|
      // The buffer is the newest suffix of what was accepted.
      && Buffered() == accepted[|accepted| - count..]
      // Deliveries are in order, and before anything buffered.
      && Increasing(picks, |accepted| - count)
      // Nothing is lost but the counted drops.
      && |accepted| == |picks| + count + drops
    }

    function Buffered(): (r: seq<T>)
      requires buf.Length > 0 && head < buf.Length && count <= buf.Length
      reads this, buf
    {
      Elements(buf[..], head, count)
    }

    // The records handed to the sink, in order.
    ghost function Delivered(): (r: seq<T>)
      requires Valid()
      reads this, buf
    {
      At(accepted, picks)
    }

    constructor (size: nat, zero: T)
      requires size > 0
      ensures Valid() && fresh(buf) && buf.Length == size && accepted == [] && picks == [] && !closed && drops == 0
    {
      this.zero := zero;
      buf := new T[size](_ => zero);
      head, count, closed, discard, drops := 0, 0, false, false, 0;
      accepted, picks := [], [];
    }

    // Never blocks: a full ring drops its oldest record, a closed one the new record.
    method Push(r: T)
      requires Valid()
      modifies this`head, this`count, this`drops, this`accepted, buf
      ensures Valid()
      ensures old(closed) ==>
        accepted == old(accepted) && Buffered() == old(Buffered()) && drops == old(drops)
      ensures !old(closed) ==>
        && accepted == old(accepted) + [r]
        && Buffered() == (if old(count) == buf.Length then old(Buffered())[1..] else old(Buffered())) + [r]
        && drops == old(drops) + if old(count) == buf.Length then 1 else 0
    {
      hide Elements, Increasing;
      if closed {
        return;
      }
      IncreasingUp(picks, |accepted| - count, |accepted| - count + 1);
      if count == buf.Length {
        DropHead();
        drops := drops + 1;
      }
      AddNewest(buf[..], head, count, r);
      ghost var slots := buf[..];
      var free := Slot(head, count, buf.Length);
      buf[free] := r;
      assert buf[..] == slots[free := r];
      count := count + 1;
      accepted := accepted + [r];
    }

    // Clears the oldest record's slot.
    method DropHead()
      requires buf.Length > 0 && head < buf.Length && 0 < count <= buf.Length
      modifies this`head, this`count, buf
      ensures head < buf.Length && count == old(count) - 1
      ensures Buffered() == old(Buffered())[1..]
    {
      hide Elements;
      DropOldest(buf[..], head, count, zero);
      ghost var slots := buf[..];
      var next := Slot(head, 1, buf.Length);
      buf[head] := zero;
      assert buf[..] == slots[head := zero];
      head := next;
      count := count - 1;
    }

    // One pass of the delivery loop once it has something to do: the next record
    // for the sink, or None when the loop ends.
    method Take() returns (r: Option<T>)
      requires Valid() && (count > 0 || closed)
      modifies this`head, this`count, this`picks, buf
      ensures Valid()
      ensures r.None? <==> old(closed && (discard || count == 0))
      ensures r.None? ==> Delivered() == old(Delivered()) && Buffered() == old(Buffered())
      ensures r.Some? ==>
        && r.value == old(Buffered())[0] && Buffered() == old(Buffered())[1..]
        && Delivered() == old(Delivered()) + [r.value]
    {
      hide Elements;
      if closed && (discard || count == 0) {
        return None;
      }
      OldestFirst(buf[..], head, count);
      r := Some(buf[head]);
      ghost var delivered := Delivered();
      picks := picks + [|accepted| - count];
      assert At(accepted, picks) == delivered + [r.value];
      DropHead();
    }

    // The first close decides between draining and discarding.
    method Close(discard: bool)
      requires Valid()
      modifies this`closed, this`discard
      ensures Valid() && closed
      ensures this.discard == if old(closed) then old(this.discard) else discard
    {
      if !closed {
        closed := true;
        this.discard := discard;
      }
    }

    // The delivery loop of a closed subscription: a drain close hands everything
    // buffered to the sink, in order, a discard close nothing at all.
    method Finish()
      requires Valid() && closed
      modifies this`head, this`count, this`picks, buf
      ensures Valid()
      ensures Delivered() == old(Delivered()) + if discard then [] else old(Buffered())
      ensures !discard ==> count == 0
    {
      hide Increasing, Elements, At, Slot;
      ghost var all := Delivered() + Buffered();
      var done := false;
      while !done
        invariant Valid() && (done ==> discard || count == 0)
        invariant discard ==> Delivered() == old(Delivered())
        invariant !discard ==> Delivered() + Buffered() == all
        decreases !done, count
      {
        ghost var delivered, buffered := Delivered(), Buffered();
        var r := Take();
        done := r.None?;
        if r.Some? {
          HandedOver(delivered, buffered);
        }
      }
      NothingBuffered(buf[..], head);
    }
  }
}
