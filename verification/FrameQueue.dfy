/**
  * The heap-backed receive queue that the USB and the UART receive paths share in form: a callback
  * copies the data into a heap frame and queues it, a worker takes frames, handles and frees them.
  */
module FrameQueue {
  import opened Protocol

  datatype Running = Nothing | Frame(data: seq<Byte>)

  /** `running`: the frame the worker has taken and not yet freed. History: `accepted` (frames queued),
      `handled` (data given to the handler), `freed` (frames freed), `dropped` (no memory). */
  datatype Queue = Queue(fifo: seq<seq<Byte>>, running: Running,
                         accepted: seq<seq<Byte>>, handled: seq<seq<Byte>>, freed: nat, dropped: seq<seq<Byte>>)

  const EMPTY := Queue([], Nothing, [], [], 0, [])

  /** Frames on the heap. */
  function Live(q: Queue): nat {
    |q.fifo| + (if q.running.Frame? then 1 else 0)
  }

  /** Bytes in front of a frame's data: a pointer and a size, four bytes each on the device. */
  const HEADER: nat := 8

  function Sizes(frames: seq<seq<Byte>>): nat {
    if frames == [] then 0 else HEADER + |frames[0]| + Sizes(frames[1..])
  }

  /** Bytes of the heap in use. */
  function Used(q: Queue): nat {
    Sizes(q.fifo) + (if q.running.Frame? then HEADER + |q.running.data| else 0)
  }

  function Put(q: Queue, data: seq<Byte>, heapOk: bool): Queue {
    if heapOk then q.(fifo := q.fifo + [data], accepted := q.accepted + [data])
    else q.(dropped := q.dropped + [data])
  }

  function Take(q: Queue): Queue
    requires q.fifo != []
  {
    q.(fifo := q.fifo[1..], running := Frame(q.fifo[0]), handled := q.handled + [q.fifo[0]])
  }

  function Release(q: Queue): Queue {
    q.(running := Nothing, freed := q.freed + 1)
  }

  lemma {:induction false} SizesAppend(frames: seq<seq<Byte>>, data: seq<Byte>)
    ensures Sizes(frames + [data]) == Sizes(frames) + HEADER + |data|
  {
    if frames == [] {
      assert (frames + [data])[1..] == [];
    } else {
      assert (frames + [data])[1..] == frames[1..] + [data];
      SizesAppend(frames[1..], data);
    }
  }

  /** Frames come out in the order they went in, and each one taken is freed once. */
  ghost predicate InOrder(q: Queue) {
    && q.accepted == q.handled + q.fifo
    && |q.handled| == q.freed + (if q.running.Frame? then 1 else 0)
    && (q.running.Frame? ==> q.running.data == q.handled[|q.handled| - 1])
  }

  lemma PutKeepsOrder(q: Queue, data: seq<Byte>, heapOk: bool)
    requires InOrder(q)
    ensures InOrder(Put(q, data, heapOk))
  {
  }

  lemma TakeKeepsOrder(q: Queue)
    requires InOrder(q) && q.fifo != [] && q.running == Nothing
    ensures InOrder(Take(q))
  {
    assert q.handled + q.fifo == q.handled + [q.fifo[0]] + q.fifo[1..];
  }

  /** The queue in memory: every frame is an array of its own, allocated when the data arrive. */
  class Frames {
    var fifo: seq<array<Byte>>
    var running: array?<Byte>
    ghost var accepted: seq<seq<Byte>>
    ghost var handled: seq<seq<Byte>>
    ghost var freed: nat
    ghost var dropped: seq<seq<Byte>>

    ghost function Repr(): set<object>
      reads this
    {
      (set f | f in fifo :: f as object) + (if running == null then {} else {running})
    }

    ghost function Contents(): seq<seq<Byte>>
      reads this, fifo
    {
      seq(|fifo|, i requires 0 <= i < |fifo| reads this, fifo => fifo[i][..])
    }

    ghost function View(): Queue
      reads this, fifo, running
    {
      Queue(Contents(), if running == null then Nothing else Frame(running[..]), accepted, handled, freed, dropped)
    }

    constructor ()
      ensures View() == EMPTY && fresh(Repr())
    {
      fifo, running := [], null;
      accepted, handled, freed, dropped := [], [], 0, [];
    }

    /** The receive callback: allocate, copy, queue; or drop. */
    method Receive(src: array<Byte>, offset: nat, len: nat, heapOk: bool)
      requires offset + len <= src.Length
      modifies this
      ensures View() == Put(old(View()), old(src[offset..offset + len]), heapOk)
      ensures fresh(Repr() - old(Repr()))
    {
      if !heapOk {
        dropped := dropped + [src[offset..offset + len]];
        assert Contents() == old(Contents());
        return;
      }
      var frame := new Byte[len];
      for i := 0 to len
        invariant forall k :: 0 <= k < i ==> frame[k] == src[offset + k]
        modifies frame
      {
        frame[i] := src[offset + i];
      }
      assert frame[..] == src[offset..offset + len];
      fifo := fifo + [frame];
      accepted := accepted + [frame[..]];
      assert Contents() == old(Contents()) + [frame[..]];
    }

    /** The worker: take the oldest frame. */
    method Get() returns (frame: array<Byte>)
      requires fifo != [] && running == null
      modifies this
      ensures View() == Take(old(View())) && Repr() <= old(Repr())
      ensures running == frame && frame[..] == old(fifo[0][..])
    {
      frame := fifo[0];
      handled := handled + [frame[..]];
      running, fifo := frame, fifo[1..];
      assert frame == old(fifo)[0] && frame in old(fifo);
      forall f | f in fifo ensures f in old(fifo) {
      }
      forall o | o in Repr() ensures o in old(Repr()) {
      }
      assert Contents() == old(Contents())[1..];
    }

    /** The worker: the handler has returned, free the frame. */
    method Free()
      requires running != null
      modifies this
      ensures View() == Release(old(View())) && Repr() <= old(Repr())
    {
      running := null;
      freed := freed + 1;
      assert Contents() == old(Contents());
    }
  }
}
