/**
  * The USB receive path with the host in front of it: packets reach the callback, which copies
  * them into frames on a heap of a given size; the worker handles them; replies go back.
  */
module UsbReceive {
  import opened Protocol
  import opened BulkIn
  import opened FrameQueue

  /** `waiting`: the host has sent a packet and not yet read a reply. `wire`: packets on their way to the
      callback. `replied`: the handler has answered the frame it is running. `replies`: unread replies.
      A patient host sends nothing while it waits. */
  datatype Pipe = Pipe(heap: nat, patient: bool, waiting: bool, wire: seq<seq<Byte>>,
                       q: Queue, replied: bool, replies: nat, received: seq<seq<Byte>>)

  datatype Step =
    | HostSend(packet: seq<Byte>)
    | Deliver(heapOk: bool)
    | WorkerGet
    | HandlerReply(delivered: bool)
    | WorkerFree
    | HostRead

  function Start(heap: nat, patient: bool): Pipe {
    Pipe(heap, patient, false, [], EMPTY, false, 0, [])
  }

  /** A packet is at most what the endpoint carries. The heap gives out a frame if and only if the bytes
      in use leave room for its header and its data. */
  predicate Enabled(p: Pipe, step: Step) {
    match step
    case HostSend(packet) => |packet| <= FS_MPS && (p.patient ==> !p.waiting)
    case Deliver(heapOk) => p.wire != [] && (heapOk <==> Used(p.q) + HEADER + |p.wire[0]| <= p.heap)
    case WorkerGet => p.q.running == Nothing && p.q.fifo != []
    case HandlerReply(_) => p.q.running.Frame? && !p.replied
    case WorkerFree => p.q.running.Frame?
    case HostRead => p.waiting && p.replies > 0
  }

  function Apply(p: Pipe, step: Step): Pipe
    requires Enabled(p, step)
  {
    match step
    case HostSend(packet) => p.(waiting := true, wire := p.wire + [packet])
    case Deliver(heapOk) =>
      p.(wire := p.wire[1..], q := Put(p.q, p.wire[0], heapOk), received := p.received + [p.wire[0]])
    case WorkerGet => p.(q := Take(p.q), replied := false)
    case HandlerReply(delivered) => p.(replied := true, replies := p.replies + (if delivered then 1 else 0))
    case WorkerFree => p.(q := Release(p.q))
    case HostRead => p.(waiting := false, replies := p.replies - 1)
  }

  predicate Executable(p: Pipe, steps: seq<Step>)
    decreases |steps|
  {
    steps == [] || (Enabled(p, steps[0]) && Executable(Apply(p, steps[0]), steps[1..]))
  }

  function Exec(p: Pipe, steps: seq<Step>): Pipe
    requires Executable(p, steps)
    decreases |steps|
  {
    if steps == [] then p else Exec(Apply(p, steps[0]), steps[1..])
  }

  /** Holds for any host: order, one free per handled frame, the heap's size respected, nothing vanishes
      unseen. */
  ghost predicate QueueOk(p: Pipe) {
    && InOrder(p.q)
    && Used(p.q) <= p.heap
    && (forall i :: 0 <= i < |p.wire| ==> |p.wire[i]| <= FS_MPS)
    && (forall i :: 0 <= i < |p.q.fifo| ==> |p.q.fifo[i]| <= FS_MPS)
    && (p.q.running.Frame? ==> |p.q.running.data| <= FS_MPS)
    && |p.received| == |p.q.accepted| + |p.q.dropped|
    && (p.q.dropped == [] ==> p.q.accepted == p.received)
  }

  /** The requests of a patient host that have not been answered and read: never more than one. */
  function Outstanding(p: Pipe): nat {
    |p.wire| + |p.q.fifo| + (if p.q.running.Frame? && !p.replied then 1 else 0) + p.replies
  }

  ghost predicate PatienceOk(p: Pipe) {
    p.patient ==> Outstanding(p) <= (if p.waiting then 1 else 0)
  }

  /** The heap bytes of a frame with a full packet. */
  const FULL_FRAME: nat := HEADER + FS_MPS

  /** Room for two full frames and a patient host: nothing is ever dropped. */
  ghost predicate NoDrops(p: Pipe) {
    p.patient && p.heap >= 2 * FULL_FRAME ==> p.q.dropped == []
  }

  ghost predicate Inv(p: Pipe) {
    QueueOk(p) && PatienceOk(p) && NoDrops(p)
  }

  lemma StepInv(p: Pipe, step: Step)
    requires Inv(p) && Enabled(p, step)
    ensures Inv(Apply(p, step))
  {
    match step
    case HostSend(packet) =>
    case Deliver(heapOk) => DeliverInv(p, heapOk);
    case WorkerGet => TakeKeepsOrder(p.q);
    case HandlerReply(delivered) =>
    case WorkerFree =>
    case HostRead =>
  }

  lemma DeliverInv(p: Pipe, heapOk: bool)
    requires Inv(p) && Enabled(p, Deliver(heapOk))
    ensures Inv(Apply(p, Deliver(heapOk)))
  {
    PutKeepsOrder(p.q, p.wire[0], heapOk);
    SizesAppend(p.q.fifo, p.wire[0]);
    assert p.patient ==> |p.wire| == 1 && |p.q.fifo| == 0;
  }

  lemma {:induction false} RunInv(p: Pipe, steps: seq<Step>)
    requires Inv(p) && Executable(p, steps)
    ensures Inv(Exec(p, steps))
    ensures Exec(p, steps).heap == p.heap && Exec(p, steps).patient == p.patient
    decreases |steps|
  {
    if steps != [] {
      StepInv(p, steps[0]);
      RunInv(Apply(p, steps[0]), steps[1..]);
    }
  }

  /**
    * For any host, also one that sends without waiting: the handler gets the queued packets in arrival
    * order, each frame is freed once, and the frames never take more than the heap.
    */
  lemma HandledInOrder(heap: nat, patient: bool, steps: seq<Step>)
    requires Executable(Start(heap, patient), steps)
    ensures var p := Exec(Start(heap, patient), steps);
            && p.q.handled + p.q.fifo == p.q.accepted
            && |p.q.handled| - p.q.freed == (if p.q.running.Frame? then 1 else 0)
            && Used(p.q) <= heap
            && |p.received| == |p.q.accepted| + |p.q.dropped|
  {
    RunInv(Start(heap, patient), steps);
  }

  /** A host that waits for its reply never has more than two frames live, and the second only while
      the handler that has already answered the first has not yet returned. */
  lemma AtMostTwoFrames(heap: nat, steps: seq<Step>)
    requires Executable(Start(heap, true), steps)
    ensures var p := Exec(Start(heap, true), steps);
            && Live(p.q) <= 2
            && (Live(p.q) == 2 ==> p.q.running.Frame? && p.replied && |p.q.fifo| == 1)
            && |p.wire| + |p.q.fifo| <= 1
  {
    RunInv(Start(heap, true), steps);
  }

  /** With that room the handler sees exactly what was received, in order. */
  lemma NothingLost(heap: nat, steps: seq<Step>)
    requires heap >= 2 * FULL_FRAME && Executable(Start(heap, true), steps)
    ensures var p := Exec(Start(heap, true), steps);
            p.q.dropped == [] && p.q.handled + p.q.fifo == p.received
  {
    RunInv(Start(heap, true), steps);
  }

  // ---------------------------------------------------------------- what a run amounts to

  /** A host that does not wait may send at any time, one that does when it has read its reply; a packet on
      its way is either queued or dropped, by the room there is; and a reply that is there can be read. */
  lemma PipeMayDoAnything(p: Pipe)
    ensures !p.patient || !p.waiting ==>
              forall packet: seq<Byte> :: |packet| <= FS_MPS ==> Enabled(p, HostSend(packet))
    ensures p.wire != [] ==> (Enabled(p, Deliver(true)) <==> Used(p.q) + HEADER + |p.wire[0]| <= p.heap)
    ensures p.wire != [] ==> (Enabled(p, Deliver(false)) <==> !Enabled(p, Deliver(true)))
    ensures p.waiting && p.replies > 0 ==> Enabled(p, HostRead)
  {
  }

  /** Packets sent by the host along a run. */
  function SentPackets(steps: seq<Step>): seq<seq<Byte>> {
    if steps == [] then [] else (if steps[0].HostSend? then [steps[0].packet] else []) + SentPackets(steps[1..])
  }

  lemma PacketStep(p: Pipe, step: Step)
    requires Enabled(p, step)
    ensures var a := Apply(p, step);
            a.received + a.wire == p.received + p.wire + (if step.HostSend? then [step.packet] else [])
  {
    if step.Deliver? {
      assert p.received + [p.wire[0]] + p.wire[1..] == p.received + p.wire;
    }
    assert p.received + p.wire + [] == p.received + p.wire;
  }

  /** The packets received and those on the wire are the packets sent, in order. */
  lemma {:induction false} PacketsConserved(p: Pipe, steps: seq<Step>)
    requires Executable(p, steps)
    ensures Exec(p, steps).received + Exec(p, steps).wire == p.received + p.wire + SentPackets(steps)
    decreases |steps|
  {
    if steps == [] {
      assert p.received + p.wire + [] == p.received + p.wire;
    } else {
      var a := Apply(p, steps[0]);
      var sent := if steps[0].HostSend? then [steps[0].packet] else [];
      PacketStep(p, steps[0]);
      hide Apply, Enabled;
      PacketsConserved(a, steps[1..]);
      assert p.received + p.wire + sent + SentPackets(steps[1..]) == p.received + p.wire + SentPackets(steps);
    }
  }

  /** What the worker and the handler did along a run: frames taken and freed, replies delivered and read,
      and whether the frame taken last has been answered. */
  datatype Work = Work(taken: nat, freed: nat, delivered: nat, read: nat, answered: bool)

  function Count(w: Work, step: Step): Work {
    match step
    case WorkerGet => w.(taken := w.taken + 1, answered := false)
    case WorkerFree => w.(freed := w.freed + 1)
    case HandlerReply(delivered) => w.(delivered := w.delivered + (if delivered then 1 else 0), answered := true)
    case HostRead => w.(read := w.read + 1)
    case _ => w
  }

  function WorkDone(w: Work, steps: seq<Step>): Work
    decreases |steps|
  {
    if steps == [] then w else WorkDone(Count(w, steps[0]), steps[1..])
  }

  ghost predicate Matches(p: Pipe, w: Work) {
    && |p.q.handled| == w.taken && p.q.freed == w.freed
    && p.replies + w.read == w.delivered && p.replied == w.answered
    && (p.q.running.Frame? <==> w.taken == w.freed + 1) && (p.q.running == Nothing <==> w.taken == w.freed)
  }

  lemma CountStep(p: Pipe, w: Work, step: Step)
    requires Matches(p, w) && Enabled(p, step)
    ensures Matches(Apply(p, step), Count(w, step))
  {
  }

  lemma {:induction false} WorkIsCounted(p: Pipe, w: Work, steps: seq<Step>)
    requires Matches(p, w) && Executable(p, steps)
    ensures Matches(Exec(p, steps), WorkDone(w, steps))
    decreases |steps|
  {
    if steps != [] {
      CountStep(p, w, steps[0]);
      hide Apply, Enabled, Count, Matches;
      WorkIsCounted(Apply(p, steps[0]), Count(w, steps[0]), steps[1..]);
    }
  }

  /**
    * The worker frees each frame it takes before it takes the next; the handler may answer each frame it
    * is given, once; and the replies not yet read are those delivered less those read.
    */
  lemma FramesAndReplies(heap: nat, patient: bool, steps: seq<Step>)
    requires Executable(Start(heap, patient), steps)
    ensures var p, w := Exec(Start(heap, patient), steps), WorkDone(Work(0, 0, 0, 0, false), steps);
            && |p.q.handled| == w.taken && p.q.freed == w.freed <= w.taken <= w.freed + 1
            && p.replies + w.read == w.delivered
            && (w.taken == w.freed && p.q.fifo != [] ==>
                  Enabled(p, WorkerGet) && forall d :: Enabled(Apply(p, WorkerGet), HandlerReply(d)))
            && (w.taken == w.freed + 1 ==> Enabled(p, WorkerFree))
            && (w.taken == w.freed + 1 && !w.answered ==> forall d :: Enabled(p, HandlerReply(d)))
  {
    WorkIsCounted(Start(heap, patient), Work(0, 0, 0, 0, false), steps);
    hide Executable, Exec, WorkDone;
  }

  const ANSWERED := HandlerReply(true)

  /** A host that waits can still get ahead of a handler that is slow to return: one frame is too few. */
  function Overrun(heap: nat, pkt: seq<Byte>): seq<Step> {
    if heap < FULL_FRAME then [HostSend(pkt)] + ([Deliver(false)] + [])
    else
      [HostSend(pkt)] + ([Deliver(true)] + ([WorkerGet] + ([ANSWERED] + ([HostRead] + OverrunTail(pkt)))))
  }

  /** The packet that finds no room. */
  function OverrunTail(pkt: seq<Byte>): seq<Step> {
    [HostSend(pkt)] + ([Deliver(false)] + [])
  }

  lemma StepFirst(p: Pipe, step: Step, rest: seq<Step>, end: Pipe)
    requires Enabled(p, step) && Executable(Apply(p, step), rest) && Exec(Apply(p, step), rest) == end
    ensures Executable(p, [step] + rest) && Exec(p, [step] + rest) == end
  {
    assert ([step] + rest)[1..] == rest;
  }

  lemma TailDrops(p: Pipe, pkt: seq<Byte>)
    requires |pkt| == FS_MPS && !p.waiting && p.wire == [] && p.q.dropped == [] && Used(p.q) + FULL_FRAME > p.heap
    ensures Executable(p, OverrunTail(pkt)) && Exec(p, OverrunTail(pkt)).q.dropped == [pkt]
  {
    var a := Apply(p, HostSend(pkt));
    var b := Apply(a, Deliver(false));
    StepFirst(a, Deliver(false), [], b);
    StepFirst(p, HostSend(pkt), [Deliver(false)] + [], b);
  }

  lemma OverrunDrops(heap: nat, pkt: seq<Byte>)
    requires |pkt| == FS_MPS && heap < 2 * FULL_FRAME
    ensures Executable(Start(heap, true), Overrun(heap, pkt))
    ensures Exec(Start(heap, true), Overrun(heap, pkt)).q.dropped == [pkt]
  {
    var s := Start(heap, true);
    if heap < FULL_FRAME {
      TailDrops(s, pkt);
    } else {
      var a := Apply(s, HostSend(pkt));
      assert a.wire[0] == pkt;
      var b := Apply(a, Deliver(true));
      var c := Apply(b, WorkerGet);
      var d := Apply(c, ANSWERED);
      var e := Apply(d, HostRead);
      TailDrops(e, pkt);
      var tail := OverrunTail(pkt);
      var end := Exec(e, tail);
      StepFirst(d, HostRead, tail, end);
      StepFirst(c, ANSWERED, [HostRead] + tail, end);
      StepFirst(b, WorkerGet, [ANSWERED] + ([HostRead] + tail), end);
      StepFirst(a, Deliver(true), [WorkerGet] + ([ANSWERED] + ([HostRead] + tail)), end);
      StepFirst(s, HostSend(pkt), [Deliver(true)] + ([WorkerGet] + ([ANSWERED] + ([HostRead] + tail))), end);
    }
  }

  /** Two full frames are exactly what a waiting host needs, to the byte. */
  lemma TwoFramesExactlyEnough(heap: nat)
    ensures (forall steps :: Executable(Start(heap, true), steps) ==> Exec(Start(heap, true), steps).q.dropped == [])
            <==> heap >= 2 * FULL_FRAME
  {
    if heap >= 2 * FULL_FRAME {
      forall steps | Executable(Start(heap, true), steps)
        ensures Exec(Start(heap, true), steps).q.dropped == []
      {
        NothingLost(heap, steps);
      }
    } else {
      OverrunDrops(heap, seq(FS_MPS, i => DFU_DOWNLOAD));
    }
  }
}
