/**
  * The UART receive path: two buffers handed back and forth with the driver, and the copy queue.
  */
module SerialRx {
  import opened Protocol
  import opened FrameQueue

  // ---------------------------------------------------------------- the hand-over protocol

  /** Driver events that concern buffers. */
  datatype Event = BufRequest | BufReleased(buf: nat)

  /** `owned`: the buffers the driver holds. `freeBuf`: what the callback would hand over next.
      `clashes`: requests answered with a buffer the driver already held. */
  datatype Handover = Handover(owned: multiset<nat>, freeBuf: nat, clashes: nat)

  /** After reception is enabled with buffer 0. */
  const INITIAL := Handover(multiset{0}, 1, 0)

  /** The driver releases only what it holds. */
  predicate Enabled(h: Handover, ev: Event) {
    ev.BufReleased? ==> ev.buf in h.owned
  }

  function Apply(h: Handover, ev: Event): Handover {
    match ev
    case BufRequest =>
      Handover(h.owned + multiset{h.freeBuf}, h.freeBuf, h.clashes + (if h.freeBuf in h.owned then 1 else 0))
    case BufReleased(b) => Handover(h.owned - multiset{b}, b, h.clashes)
  }

  /** The driver may ask at any time and give back any buffer it holds. */
  lemma DriverMayDoAnything(h: Handover)
    ensures Enabled(h, BufRequest)
    ensures forall b :: b in h.owned ==> Enabled(h, BufReleased(b))
  {
  }

  predicate Executable(h: Handover, evs: seq<Event>)
    decreases |evs|
  {
    evs == [] || (Enabled(h, evs[0]) && Executable(Apply(h, evs[0]), evs[1..]))
  }

  function Exec(h: Handover, evs: seq<Event>): Handover
    decreases |evs|
  {
    if evs == [] then h else Exec(Apply(h, evs[0]), evs[1..])
  }

  /** Every request comes with a release since the one before; `ready` says whether that is so now. */
  predicate Disciplined(ready: bool, evs: seq<Event>)
    decreases |evs|
  {
    evs == [] ||
    match evs[0]
    case BufRequest => ready && Disciplined(false, evs[1..])
    case BufReleased(_) => Disciplined(true, evs[1..])
  }

  /** As long as nothing clashed, each buffer is held once, and the next one to hand over is free
      exactly if something was released since the last request. */
  ghost predicate HandoverOk(h: Handover, ready: bool) {
    && (forall b :: h.owned[b] <= 1)
    && (ready <==> h.freeBuf !in h.owned)
  }

  lemma {:induction false} ClashesOnlyGrow(h: Handover, evs: seq<Event>)
    ensures Exec(h, evs).clashes >= h.clashes
    decreases |evs|
  {
    if evs != [] {
      ClashesOnlyGrow(Apply(h, evs[0]), evs[1..]);
    }
  }

  lemma {:induction false} NoClashIffDisciplinedFrom(h: Handover, ready: bool, evs: seq<Event>)
    requires HandoverOk(h, ready) && Executable(h, evs)
    ensures Exec(h, evs).clashes == h.clashes <==> Disciplined(ready, evs)
    decreases |evs|
  {
    if evs != [] {
      var next := Apply(h, evs[0]);
      match evs[0]
      case BufRequest =>
        ClashesOnlyGrow(next, evs[1..]);
        if ready {
          NoClashIffDisciplinedFrom(next, false, evs[1..]);
        }
      case BufReleased(b) =>
        assert next.owned[b] == 0;
        NoClashIffDisciplinedFrom(next, true, evs[1..]);
    }
  }

  /**
    * The callback's single free-buffer pointer is enough exactly for drivers that release a buffer
    * before each further request: then, and only then, it never hands over a buffer in use.
    */
  lemma NoClashIffDisciplined(evs: seq<Event>)
    requires Executable(INITIAL, evs)
    ensures Exec(INITIAL, evs).clashes == 0 <==> Disciplined(true, evs)
  {
    NoClashIffDisciplinedFrom(INITIAL, true, evs);
  }

  /** The request at position k, if there is one, is answered with a buffer the driver does not hold. */
  predicate HandedFree(h: Handover, evs: seq<Event>, k: nat)
    requires k < |evs|
  {
    var g := Exec(h, evs[..k]);
    evs[k].BufRequest? ==> g.freeBuf !in g.owned
  }

  lemma {:induction false} ExecAppend(h: Handover, evs: seq<Event>, ev: Event)
    ensures Exec(h, evs + [ev]) == Apply(Exec(h, evs), ev)
    decreases |evs|
  {
    if evs == [] {
      assert (evs + [ev])[1..] == [];
    } else {
      assert (evs + [ev])[1..] == evs[1..] + [ev];
      ExecAppend(Apply(h, evs[0]), evs[1..], ev);
    }
  }

  lemma {:induction false} NoClashIffHandedFree(h: Handover, evs: seq<Event>)
    ensures Exec(h, evs).clashes == h.clashes <==> forall k :: 0 <= k < |evs| ==> HandedFree(h, evs, k)
    decreases |evs|
  {
    if evs != [] {
      var m := |evs| - 1;
      var head := evs[..m];
      assert evs == head + [evs[m]];
      ExecAppend(h, head, evs[m]);
      NoClashIffHandedFree(h, head);
      ClashesOnlyGrow(h, head);
      forall k | 0 <= k < m ensures HandedFree(h, evs, k) <==> HandedFree(h, head, k) {
        assert head[..k] == evs[..k];
      }
      assert HandedFree(h, evs, m) <==> Exec(h, evs).clashes == Exec(h, head).clashes;
    }
  }

  /** Over whole event lists: every request is answered with a buffer the driver is not filling if and
      only if the driver is disciplined. */
  lemma NeverHandedHeldIffDisciplined(evs: seq<Event>)
    requires Executable(INITIAL, evs)
    ensures (forall k :: 0 <= k < |evs| ==> HandedFree(INITIAL, evs, k)) <==> Disciplined(true, evs)
  {
    NoClashIffHandedFree(INITIAL, evs);
    NoClashIffDisciplined(evs);
  }

  // ---------------------------------------------------------------- the callback

  const UART_MPS: nat := 64

  /** The static buffers, the free-buffer pointer and the queue. The buffers are numbered 0 and 1, and
      `hand` is the hand-over protocol's state under these numbers. */
  class Serial {
    const bufs0: array<Byte>
    const bufs1: array<Byte>
    var freeBuf: array<Byte>
    const queue: Frames
    ghost var hand: Handover

    ghost function Number(buf: array<Byte>): nat {
      if buf == bufs0 then 0 else 1
    }

    /** The driver holds this buffer. */
    ghost predicate Holds(buf: array<Byte>)
      reads `hand
    {
      Number(buf) in hand.owned
    }

    /** Queued frames never share memory with the driver's buffers. */
    ghost predicate Valid()
      reads this, queue
    {
      && bufs0.Length == bufs1.Length == UART_MPS && bufs0 != bufs1
      && freeBuf in {bufs0, bufs1} && hand.freeBuf == Number(freeBuf)
      && bufs0 !in queue.Repr() && bufs1 !in queue.Repr()
    }

    constructor ()
      ensures Valid() && hand == INITIAL && queue.View() == EMPTY
      ensures fresh(bufs0) && fresh(bufs1) && fresh(queue)
    {
      var a := new Byte[UART_MPS];
      var b := new Byte[UART_MPS];
      bufs0, bufs1, freeBuf, hand := a, b, b, INITIAL;
      queue := new Frames();
    }

    /** UART_RX_RDY: copy the received stretch into a frame of its own. */
    method OnReady(buf: array<Byte>, offset: nat, len: nat, heapOk: bool)
      requires Valid() && buf in {bufs0, bufs1} && offset + len <= buf.Length
      modifies queue
      ensures Valid()
      ensures queue.View() == Put(old(queue.View()), old(buf[offset..offset + len]), heapOk)
      ensures bufs0[..] == old(bufs0[..]) && bufs1[..] == old(bufs1[..])
    {
      queue.Receive(buf, offset, len, heapOk);
    }

    /** UART_RX_BUF_REQUEST: what is handed to the driver, which from now on holds it. */
    method OnRequest() returns (handed: array<Byte>)
      requires Valid()
      modifies `hand
      ensures Valid() && handed in {bufs0, bufs1} && Number(handed) == old(hand.freeBuf)
      ensures hand == Apply(old(hand), BufRequest) && Holds(handed)
      ensures hand.clashes == old(hand.clashes) <==> !old(Holds(freeBuf))
    {
      handed := freeBuf;
      hand := Apply(hand, BufRequest);
    }

    /** UART_RX_BUF_RELEASED: the driver gives back a buffer it holds. */
    method OnReleased(buf: array<Byte>)
      requires Valid() && buf in {bufs0, bufs1} && Holds(buf)
      modifies `freeBuf, `hand
      ensures Valid() && hand == Apply(old(hand), BufReleased(Number(buf))) && hand.freeBuf == Number(buf)
      ensures queue.View() == old(queue.View())
    {
      freeBuf := buf;
      hand := Apply(hand, BufReleased(Number(buf)));
    }

    /** The driver receives bytes into a buffer it holds: nothing queued changes, nor does the other
        buffer. */
    method DriverFills(buf: array<Byte>, data: seq<Byte>)
      requires Valid() && buf in {bufs0, bufs1} && Holds(buf) && |data| <= buf.Length
      modifies buf
      ensures Valid() && buf[..] == data + old(buf[|data|..])
      ensures queue.View() == old(queue.View())
    {
      assert forall f :: f in queue.fifo ==> f as object in queue.Repr();
      assert buf !in queue.fifo && queue.running != buf;
      forall i | 0 <= i < |data| {
        buf[i] := data[i];
      }
      assert queue.Contents() == old(queue.Contents());
    }

    /** One turn of the receive thread: the oldest frame goes to the callback, then back to the heap. */
    method Turn() returns (handled: seq<Byte>)
      requires Valid() && queue.fifo != [] && queue.running == null
      modifies queue
      ensures Valid()
      ensures queue.View() == Release(Take(old(queue.View())))
      ensures handled == old(queue.View()).fifo[0]
    {
      var frame := queue.Get();
      handled := frame[..];
      queue.Free();
    }
  }
}
