/** The bounded telemetry queue (aviate-link/src/queue.rs) and the drain loop that empties it
    (aviate-runtime/src/telemetry.rs). */
module TelemetryQueues {
  import opened Common

  type Byte = x: int | 0 <= x < 256
  type Frame = seq<Byte>

  // ---------- what the queue is: a bounded list of frames ----------

  /** What a slot keeps of a frame: its length goes through `as u16`. */
  function Kept(frame: Frame): Frame { frame[..|frame| % 0x1_0000] }

  /** Only frames of 65536 bytes or more lose anything. */
  lemma KeptExactly(frame: Frame)
    ensures Kept(frame) == frame <==> |frame| < 0x1_0000
  {
    if |frame| < 0x1_0000 {
      assert frame[..|frame|] == frame;
    } else {
      assert |Kept(frame)| < 0x1_0000;
    }
  }

  predicate Accepts(q: seq<Frame>, frame: Frame, capacity: nat, frameSize: nat) {
    |q| < capacity && |frame| <= frameSize
  }

  function Pushed(q: seq<Frame>, frame: Frame, capacity: nat, frameSize: nat): seq<Frame> {
    if Accepts(q, frame, capacity, frameSize) then q + [Kept(frame)] else q
  }

  /** The queue after the first `k` of `offered` are pushed in turn. */
  function PushedAll(q: seq<Frame>, offered: seq<Frame>, k: nat, capacity: nat, frameSize: nat): seq<Frame>
    requires k <= |offered|
  {
    if k == 0 then q
    else Pushed(PushedAll(q, offered, k - 1, capacity, frameSize), offered[k - 1], capacity, frameSize)
  }

  // ---------- a ring of slots ----------

  function Wrap(k: nat, capacity: nat): nat { if k < capacity then k else k - capacity }

  /** The `count` frames from slot `tail` on. */
  function Ring(slots: seq<Frame>, tail: nat, count: nat): (q: seq<Frame>)
    requires count <= |slots| && (count > 0 ==> tail < |slots|)
    ensures |q| == count
  {
    seq(count, i requires 0 <= i < count => slots[Wrap(tail + i, |slots|)])
  }

  lemma RingAt(slots: seq<Frame>, tail: nat, count: nat)
    requires count <= |slots| && (count > 0 ==> tail < |slots|)
    ensures forall i :: 0 <= i < count ==> Ring(slots, tail, count)[i] == slots[Wrap(tail + i, |slots|)]
  {
  }

  lemma RingPush(slots: seq<Frame>, tail: nat, count: nat, frame: Frame)
    requires tail < |slots| && count < |slots|
    ensures Ring(slots[Wrap(tail + count, |slots|) := frame], tail, count + 1) == Ring(slots, tail, count) + [frame]
  {
    RingAt(slots, tail, count);
    RingAt(slots[Wrap(tail + count, |slots|) := frame], tail, count + 1);
  }

  lemma RingPop(slots: seq<Frame>, tail: nat, count: nat)
    requires tail < |slots| && 0 < count <= |slots|
    ensures Ring(slots, tail, count) == [slots[tail]] + Ring(slots, Wrap(tail + 1, |slots|), count - 1)
  {
    RingAt(slots, tail, count);
    RingAt(slots, Wrap(tail + 1, |slots|), count - 1);
  }

  function CountOf(head: nat, tail: nat, full: bool, capacity: nat): (n: nat)
    requires head < capacity || (head == tail == 0 && !full)
    requires tail < capacity || (head == tail == 0 && !full)
    ensures n <= capacity
  {
    if full then capacity else if head >= tail then head - tail else capacity - (tail - head)
  }

  lemma Successor(k: nat, capacity: nat)
    requires k < capacity
    ensures (k + 1) % capacity == Wrap(k + 1, capacity)
  {
  }

  lemma PushCounts(head: nat, tail: nat, capacity: nat)
    requires head < capacity && tail < capacity
    ensures var n, next := CountOf(head, tail, false, capacity), Wrap(head + 1, capacity);
            head == Wrap(tail + n, capacity) && CountOf(next, tail, next == tail, capacity) == n + 1
  {
  }

  lemma PopCounts(head: nat, tail: nat, full: bool, capacity: nat)
    requires head < capacity && tail < capacity && (full ==> head == tail)
    requires CountOf(head, tail, full, capacity) > 0
    ensures CountOf(head, Wrap(tail + 1, capacity), false, capacity) == CountOf(head, tail, full, capacity) - 1
  {
  }

  class TelemetryQueue {
    const capacity: nat
    const frameSize: nat
    const frames: array2<Byte>
    const lens: array<U16>
    var head: nat
    var tail: nat
    var full: bool

    ghost predicate Valid()
      reads this, lens
    {
      && frames.Length0 == capacity && frames.Length1 == frameSize && lens.Length == capacity
      && (if capacity == 0 then head == tail == 0 && !full else head < capacity && tail < capacity)
      && (full ==> head == tail)
      && forall k :: 0 <= k < capacity ==> lens[k] <= frameSize
    }

    function FrameIn(k: nat): (f: Frame)
      requires k < lens.Length && k < frames.Length0 && lens[k] <= frames.Length1
      reads lens, frames
      ensures |f| == lens[k] && forall j :: 0 <= j < |f| ==> f[j] == frames[k, j]
    {
      seq(lens[k], j requires 0 <= j < frames.Length1 reads frames => frames[k, j])
    }

    ghost function Slots(n: nat): (s: seq<Frame>)
      requires n <= lens.Length && n <= frames.Length0
      requires forall k :: 0 <= k < n ==> lens[k] <= frames.Length1
      reads lens, frames
      ensures |s| == n && forall k :: 0 <= k < n ==> s[k] == FrameIn(k)
    {
      if n == 0 then [] else Slots(n - 1) + [FrameIn(n - 1)]
    }

    ghost function Count(): (n: nat)
      requires Valid()
      reads this, lens
      ensures n <= capacity
    {
      CountOf(head, tail, full, capacity)
    }

    /** The frames in the queue, front first. */
    ghost function Contents(): (q: seq<Frame>)
      requires Valid()
      reads this, lens, frames
      ensures |q| == Count()
    {
      Ring(Slots(capacity), tail, Count())
    }

    constructor (capacity: nat, frameSize: nat)
      ensures Valid() && fresh(frames) && fresh(lens)
      ensures this.capacity == capacity && this.frameSize == frameSize
      ensures Contents() == []
    {
      this.capacity := capacity;
      this.frameSize := frameSize;
      frames := new Byte[capacity, frameSize]((i, j) => 0);
      lens := new U16[capacity](i => 0);
      head := 0;
      tail := 0;
      full := false;
    }

    method IsEmpty() returns (r: bool)
      requires Valid()
      ensures r <==> Contents() == []
    {
      r := !full && head == tail;
    }

    method IsFull() returns (r: bool)
      requires Valid()
      ensures r <==> 0 < capacity && |Contents()| == capacity
    {
      r := full;
    }

    method Len() returns (r: nat)
      requires Valid()
      ensures r == |Contents()|
    {
      if full {
        r := capacity;
      } else if head >= tail {
        r := head - tail;
      } else {
        r := capacity - (tail - head);
      }
    }

    method RemainingCapacity() returns (r: nat)
      requires Valid()
      ensures r + |Contents()| == capacity
    {
      var n := Len();
      r := capacity - n;
    }

    /** A queue without slots has no slot to index: there the source panics on a frame that would fit one. */
    method Push(frame: Frame) returns (ok: bool)
      requires Valid() && (0 < capacity || |frame| > frameSize)
      modifies this, frames, lens
      ensures Valid()
      ensures ok <==> Accepts(old(Contents()), frame, capacity, frameSize)
      ensures Contents() == Pushed(old(Contents()), frame, capacity, frameSize)
    {
      if full || |frame| > frameSize {
        return false;
      }
      ghost var slots, n, idx := Slots(capacity), Count(), head;
      PushCounts(head, tail, capacity);
      RingPush(slots, tail, n, Kept(frame));
      Store(frame);
      Successor(head, capacity);
      head := (head + 1) % capacity;
      if head == tail {
        full := true;
      }
      return true;
    }

    /** Copies the frame and its length into the slot at `head`. */
    method Store(frame: Frame)
      requires Valid() && 0 < capacity && |frame| <= frameSize
      modifies frames, lens
      ensures Valid()
      ensures Slots(capacity) == old(Slots(capacity))[head := Kept(frame)]
    {
      var idx := head;
      forall j | 0 <= j < |frame| {
        frames[idx, j] := frame[j];
      }
      lens[idx] := |frame| % 0x1_0000;
      assert FrameIn(idx) == Kept(frame);
      forall k | 0 <= k < capacity && k != idx ensures FrameIn(k) == old(FrameIn(k)) {
        assert |FrameIn(k)| == |old(FrameIn(k))|;
      }
    }

    /** Reads the front frame and moves the tail on. */
    method TakeFront() returns (frame: Frame)
      requires Valid() && Count() > 0
      modifies this
      ensures Valid() && Count() == old(Count()) - 1
      ensures frame == Slots(capacity)[old(tail)] && tail == Wrap(old(tail) + 1, capacity)
    {
      frame := FrameIn(tail);
      PopCounts(head, tail, full, capacity);
      Successor(tail, capacity);
      tail := (tail + 1) % capacity;
      full := false;
    }

    /** `pop_with`: the frame is what the callback is given. */
    method PopWith() returns (popped: Option<Frame>)
      requires Valid()
      modifies this
      ensures Valid()
      ensures popped.None? <==> old(Contents()) == []
      ensures popped.None? ==> Contents() == []
      ensures popped.Some? ==> old(Contents()) == [popped.value] + Contents()
    {
      var empty := IsEmpty();
      if empty {
        return None;
      }
      RingPop(Slots(capacity), tail, Count());
      var frame := TakeFront();
      return Some(frame);
    }
  }

  // ---------- ticks ----------

  /** What would be stored of the first `k` offered frames if there were room for all that are small enough. */
  function Small(offered: seq<Frame>, k: nat, frameSize: nat): seq<Frame>
    requires k <= |offered|
  {
    if k == 0 then []
    else Small(offered, k - 1, frameSize) + if |offered[k - 1]| <= frameSize then [Kept(offered[k - 1])] else []
  }

  function Take(s: seq<Frame>, n: nat): seq<Frame> { if |s| <= n then s else s[..n] }

  /** A cycle that starts on an empty queue gets through exactly the first `capacity` frames that are small
      enough; what is refused is never queued later. */
  lemma {:induction false} CycleKeepsFirstFit(offered: seq<Frame>, k: nat, capacity: nat, frameSize: nat)
    requires k <= |offered|
    ensures PushedAll([], offered, k, capacity, frameSize) == Take(Small(offered, k, frameSize), capacity)
  {
    if k == 0 {
    } else {
      CycleKeepsFirstFit(offered, k - 1, capacity, frameSize);
      var before := Small(offered, k - 1, frameSize);
      if |before| >= capacity {
        assert Take(Small(offered, k, frameSize), capacity) == Take(before, capacity);
      }
    }
  }

  /** The frames of the first `k` cycles, cycle by cycle. */
  function Through(cycles: seq<seq<Frame>>, k: nat, capacity: nat, frameSize: nat): seq<Frame>
    requires k <= |cycles|
  {
    if k == 0 then []
    else Through(cycles, k - 1, capacity, frameSize)
         + PushedAll([], cycles[k - 1], |cycles[k - 1]|, capacity, frameSize)
  }

  class TelemetryTask {
    const queue: TelemetryQueue
    /** The frames offered to the transport, in order; its refusals are ignored. */
    var sent: seq<Frame>

    /** Between ticks the queue is empty. */
    ghost predicate Valid()
      reads this, queue, queue.lens, queue.frames
    {
      queue.Valid() && queue.Contents() == []
    }

    constructor (capacity: nat, frameSize: nat)
      requires 0 < capacity
      ensures Valid() && fresh(queue) && fresh(queue.lens) && fresh(queue.frames)
      ensures queue.capacity == capacity && queue.frameSize == frameSize
      ensures sent == []
    {
      queue := new TelemetryQueue(capacity, frameSize);
      sent := [];
    }

    /** A formatter's cycle: it pushes whatever frames it likes. */
    method FormatCycle(offered: seq<Frame>)
      requires queue.Valid() && 0 < queue.capacity
      modifies queue, queue.lens, queue.frames
      ensures queue.Valid()
      ensures queue.Contents()
              == PushedAll(old(queue.Contents()), offered, |offered|, queue.capacity, queue.frameSize)
    {
      for k := 0 to |offered|
        invariant queue.Valid()
        invariant queue.Contents()
                  == PushedAll(old(queue.Contents()), offered, k, queue.capacity, queue.frameSize)
      {
        var _ := queue.Push(offered[k]);
      }
    }

    /** One turn of the drain loop: the front frame, if any, is offered to the transport. */
    method DrainOne() returns (more: bool)
      requires queue.Valid()
      modifies this, queue
      ensures queue.Valid()
      ensures sent + queue.Contents() == old(sent) + old(queue.Contents())
      ensures if more then |queue.Contents()| < old(|queue.Contents()|) else queue.Contents() == []
    {
      ghost var was, before := sent, queue.Contents();
      var frame := queue.PopWith();
      more := frame.Some?;
      if frame.Some? {
        sent := sent + [frame.value];
        assert was + [frame.value] + queue.Contents() == was + before;
      }
    }

    method Drain()
      requires queue.Valid()
      modifies this, queue
      ensures Valid()
      ensures sent == old(sent) + old(queue.Contents())
    {
      var more := true;
      while more
        invariant queue.Valid()
        invariant sent + queue.Contents() == old(sent) + old(queue.Contents())
        invariant !more ==> queue.Contents() == []
        decreases |queue.Contents()|, more
      {
        more := DrainOne();
      }
    }

    /** `tick_and_flush`, with `offered` for the frames the formatter pushes. */
    method TickAndFlush(offered: seq<Frame>)
      requires Valid() && 0 < queue.capacity
      modifies this, queue, queue.lens, queue.frames
      ensures Valid()
      ensures sent == old(sent) + PushedAll([], offered, |offered|, queue.capacity, queue.frameSize)
    {
      FormatCycle(offered);
      Drain();
    }

    /** Over any ticks the transport is offered exactly the accepted frames, once each and in order. */
    method Ticks(cycles: seq<seq<Frame>>)
      requires Valid() && 0 < queue.capacity
      modifies this, queue, queue.lens, queue.frames
      ensures Valid()
      ensures sent == old(sent) + Through(cycles, |cycles|, queue.capacity, queue.frameSize)
    {
      for k := 0 to |cycles|
        invariant Valid()
        invariant sent == old(sent) + Through(cycles, k, queue.capacity, queue.frameSize)
      {
        TickAndFlush(cycles[k]);
      }
    }
  }
}
