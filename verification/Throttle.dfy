/** The outbound throttle: a leaky bucket that hands out slots. */
module Throttle {
  import opened Records

  /** The slot each of a sequence of calls gets when the first free one is `next`. */
  function Slots(next: int, interval: nat, nows: seq<int>): (slots: seq<int>)
    ensures |slots| == |nows|
    decreases nows
  {
    if nows == [] then []
    else
      var slot := if next < nows[0] then nows[0] else next;
      [slot] + Slots(slot + interval, interval, nows[1..])
  }

  /** One call: when it arrives, whether its context is done by then, and whether it is
      cancelled in its sleep. */
  datatype Call = Call(now: int, cancelled: bool, interrupted: bool)

  function Arrivals(calls: seq<Call>): (nows: seq<int>)
    ensures |nows| == |calls| && forall k :: 0 <= k < |nows| ==> nows[k] == calls[k].now
  {
    seq(|calls|, k requires 0 <= k < |calls| => calls[k].now)
  }

  class Limiter {
    const interval: nat
    var next: int

    /** `next` starts at the zero time; a rate of zero or less disables the throttle. */
    constructor (perSecond: real)
      ensures next == 0
      ensures perSecond <= 0.0 ==> interval == 0
      ensures perSecond > 0.0 ==> interval as real <= SECOND as real / perSecond < interval as real + 1.0
    {
      interval := if perSecond <= 0.0 then 0 else (SECOND as real / perSecond).Floor;
      next := 0;
    }

    /** One call; `delay` is how long it sleeps, and `ok` whether it may go on. A call that is
        cancelled keeps its slot. */
    method Wait(call: Call) returns (delay: int, ok: bool)
      modifies this
      ensures interval == 0 ==> delay == 0 && next == old(next)
      ensures interval > 0 ==> call.now + delay == if old(next) < call.now then call.now else old(next)
      ensures interval > 0 ==> next == call.now + delay + interval
      ensures ok <==> if delay > 0 then !call.interrupted else !call.cancelled
    {
      if interval == 0 { return 0, !call.cancelled; }
      if next < call.now { next := call.now; }
      delay := next - call.now;
      next := next + interval;
      if delay <= 0 { return delay, !call.cancelled; }
      ok := !call.interrupted;
    }

    /** Calls in turn take exactly the slots of the specification, whatever becomes of them. */
    method WaitAll(calls: seq<Call>) returns (slots: seq<int>)
      requires interval > 0
      modifies this
      ensures slots == Slots(old(next), interval, Arrivals(calls))
    {
      hide Slots;
      slots := [];
      SlotsEnd(next, interval);
      ghost var nows := Arrivals(calls);
      var i := 0;
      while i < |calls|
        invariant 0 <= i <= |calls| && |slots| == i
        invariant slots + Slots(next, interval, nows[i..]) == Slots(old(next), interval, nows)
      {
        SlotsStep(next, interval, nows, i);
        var delay, _ := Wait(calls[i]);
        slots := slots + [calls[i].now + delay];
        i := i + 1;
      }
      SlotsEnd(next, interval);
      assert nows[i..] == [];
    }
  }

  lemma SlotsEnd(next: int, interval: nat)
    ensures Slots(next, interval, []) == []
  {}

  lemma SlotsStep(next: int, interval: nat, nows: seq<int>, i: nat)
    requires i < |nows|
    ensures
      var slot := if next < nows[i] then nows[i] else next;
      Slots(next, interval, nows[i..]) == [slot] + Slots(slot + interval, interval, nows[i + 1..])
  {
    assert nows[i..][1..] == nows[i + 1..];
  }

  /** A first-come schedule: no call is served before it arrives, and neighbours keep the
      interval. */
  ghost predicate Schedule(slots: seq<int>, interval: nat, nows: seq<int>) {
    && |slots| == |nows|
    && (forall k :: 0 <= k < |slots| ==> nows[k] <= slots[k])
    && (forall k :: 0 <= k < |slots| - 1 ==> slots[k] + interval <= slots[k + 1])
  }

  lemma {:induction false} SlotsAreSpaced(next: int, interval: nat, nows: seq<int>)
    ensures Schedule(Slots(next, interval, nows), interval, nows)
    ensures nows != [] ==> next <= Slots(next, interval, nows)[0]
    decreases nows
  {
    if nows != [] {
      var slot := if next < nows[0] then nows[0] else next;
      SlotsAreSpaced(slot + interval, interval, nows[1..]);
    }
  }

  /** No first-come schedule serves any call earlier. */
  lemma {:induction false} SlotsAreEarliest(next: int, interval: nat, nows: seq<int>, other: seq<int>)
    requires Schedule(other, interval, nows) && (nows != [] ==> next <= other[0])
    ensures forall k :: 0 <= k < |nows| ==> Slots(next, interval, nows)[k] <= other[k]
    decreases nows
  {
    if nows != [] {
      var slot := if next < nows[0] then nows[0] else next;
      SlotsAreEarliest(slot + interval, interval, nows[1..], other[1..]);
    }
  }

  lemma {:induction false} Apart(slots: seq<int>, interval: nat, nows: seq<int>, i: nat, j: nat)
    requires Schedule(slots, interval, nows) && i <= j < |slots|
    ensures slots[i] + (j - i) * interval <= slots[j]
    decreases j
  {
    if i < j {
      Apart(slots, interval, nows, i, j - 1);
      assert (j - i) * interval == (j - 1 - i) * interval + interval;
    }
  }

  function CeilDiv(a: nat, b: nat): nat
    requires b > 0
  {
    (a + b - 1) / b
  }

  /** How many slots fall into the window of length `width` that starts at `from`. */
  function Inside(slots: seq<int>, from: int, width: nat): nat {
    if slots == [] then 0
    else
      var n := |slots| - 1;
      Inside(slots[..n], from, width) + (if from <= slots[n] < from + width then 1 else 0)
  }

  /** The slots inside a window stand between two of them. */
  lemma {:induction false} InsideSpan(slots: seq<int>, from: int, width: nat) returns (i: nat, j: nat)
    ensures Inside(slots, from, width) > 0 ==>
      i <= j < |slots| && from <= slots[i] && slots[j] < from + width && Inside(slots, from, width) <= j - i + 1
  {
    i, j := 0, 0;
    if slots != [] {
      var n := |slots| - 1;
      i, j := InsideSpan(slots[..n], from, width);
      if from <= slots[n] < from + width {
        if Inside(slots[..n], from, width) == 0 { i := n; }
        j := n;
      }
    }
  }

  /** Any window of length `width` holds at most ceil(width/interval) slots, whatever became
      of the calls that hold them. */
  lemma WindowBound(next: int, interval: nat, nows: seq<int>, from: int, width: nat)
    requires interval > 0
    ensures Inside(Slots(next, interval, nows), from, width) <= CeilDiv(width, interval)
  {
    var s := Slots(next, interval, nows);
    SlotsAreSpaced(next, interval, nows);
    var i, j := InsideSpan(s, from, width);
    if Inside(s, from, width) > 0 {
      Apart(s, interval, nows, i, j);
      Ceiling(j - i, interval, width);
    }
  }

  lemma Ceiling(n: nat, interval: nat, width: nat)
    requires interval > 0 && n * interval < width
    ensures n + 1 <= CeilDiv(width, interval)
  {}
}
