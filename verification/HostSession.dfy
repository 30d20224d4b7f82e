/**
  * The host side of the update protocol, shared by the TCP tool (254-byte chunks) and the USB tool
  * (63-byte chunks): the phases of a session, its script of packets, and the tool itself.
  */
module HostSession {
  import opened Protocol
  import opened Chunking

  /** Which exchange comes next. Sending carries the loop's offset into the firmware. */
  datatype Phase = Starting | Sending(offset: nat) | Ending | Done

  predicate PhaseOk(fw: seq<Byte>, c: nat, ph: Phase) {
    c > 0 && (ph.Sending? ==> ph.offset < |fw| && ph.offset % c == 0)
  }

  /** The end of the chunk starting at `offset`. */
  function ChunkEnd(fw: seq<Byte>, c: nat, offset: nat): (e: nat)
    requires offset <= |fw|
    ensures offset <= e <= |fw|
  {
    offset + Min(|fw| - offset, c)
  }

  function Packet(fw: seq<Byte>, c: nat, ph: Phase): (p: seq<Byte>)
    requires PhaseOk(fw, c, ph)
    ensures !ph.Done? ==> 1 <= |p| <= 1 + c && p[0] == Cmd(ph)
  {
    match ph
    case Starting => [DFU_START]
    case Sending(off) => [DFU_DOWNLOAD] + fw[off..ChunkEnd(fw, c, off)]
    case Ending => [DFU_END]
    case Done => []
  }

  function Cmd(ph: Phase): Byte {
    match ph
    case Starting => DFU_START
    case Sending(_) => DFU_DOWNLOAD
    case Ending => DFU_END
    case Done => 0
  }

  /** The loop test at an offset: another chunk, or on to DFU_END. */
  function AtOffset(fw: seq<Byte>, offset: nat): Phase {
    if offset < |fw| then Sending(offset) else Ending
  }

  function NextPhase(fw: seq<Byte>, c: nat, ph: Phase): (q: Phase)
    requires PhaseOk(fw, c, ph)
    ensures PhaseOk(fw, c, q)
  {
    match ph
    case Starting => AtOffset(fw, 0)
    case Sending(off) =>
      NextOffset(fw, c, off);
      AtOffset(fw, ChunkEnd(fw, c, off))
    case Ending => Done
    case Done => Done
  }

  lemma NextOffset(fw: seq<Byte>, c: nat, off: nat)
    requires PhaseOk(fw, c, Sending(off))
    ensures ChunkEnd(fw, c, off) < |fw| ==>
              ChunkEnd(fw, c, off) == off + c && (off + c) % c == 0 && (off + c) / c == off / c + 1
  {
    DivOnce(off, c);
    assert off + c == (off / c + 1) * c;
    assert (off + c) % c == 0 by {
      assert (off + c) == ((off + c) / c) * c + (off + c) % c;
    }
  }

  /** Acknowledgements a session still needs before it has succeeded. */
  function ExchangesLeft(fw: seq<Byte>, c: nat, ph: Phase): nat
    requires PhaseOk(fw, c, ph)
  {
    match ph
    case Starting => 2 + CeilDiv(|fw|, c)
    case Sending(off) => 1 + CeilDiv(|fw| - off, c)
    case Ending => 1
    case Done => 0
  }

  /** Every acknowledged exchange brings the end of the session exactly one exchange nearer. */
  lemma PhaseAdvances(fw: seq<Byte>, c: nat, ph: Phase)
    requires PhaseOk(fw, c, ph) && !ph.Done?
    ensures ExchangesLeft(fw, c, NextPhase(fw, c, ph)) == ExchangesLeft(fw, c, ph) - 1
  {
    DivUnique(c - 1, c, 0, c - 1);
    match ph
    case Starting =>
    case Sending(off) => CeilDivStep(|fw| - off, c);
    case Ending =>
    case Done =>
  }

  /** All packets of one session, in order. */
  function Script(fw: seq<Byte>, c: nat): seq<seq<Byte>>
    requires c > 0
  {
    [[DFU_START]] + Packets(fw, c) + [[DFU_END]]
  }

  lemma ScriptLength(fw: seq<Byte>, c: nat)
    requires c > 0
    ensures |Script(fw, c)| == 2 + CeilDiv(|fw|, c) == ExchangesLeft(fw, c, Starting)
  {
    ChunksRoundTrip(fw, c);
  }

  /** The packet each phase sends is the script's, at the place the phase has reached. */
  lemma PhaseFollowsScript(fw: seq<Byte>, c: nat, ph: Phase)
    requires PhaseOk(fw, c, ph) && !ph.Done?
    ensures ExchangesLeft(fw, c, ph) <= |Script(fw, c)|
    ensures Script(fw, c)[|Script(fw, c)| - ExchangesLeft(fw, c, ph)] == Packet(fw, c, ph)
  {
    hide Chunks, Flatten, WellCut, CeilDiv, Packets;
    ScriptLength(fw, c);
    if ph.Sending? {
      var i := ph.offset / c;
      OffsetOfChunk(ph.offset, c);
      ChunksLeft(|fw|, c, i);
      ChunksRoundTrip(fw, c);
      PacketAt(fw, c, i);
      assert Script(fw, c)[1 + i] == Packets(fw, c)[i];
    }
  }

  lemma OffsetOfChunk(off: nat, c: nat)
    requires c > 0 && off % c == 0
    ensures off / c * c == off
  {
    assert off == off / c * c + off % c;
  }

  lemma {:induction false} ChunksLeft(n: nat, c: nat, i: nat)
    requires c > 0 && i * c < n
    ensures CeilDiv(n - i * c, c) == CeilDiv(n, c) - i && i < CeilDiv(n, c)
    decreases i
  {
    if i == 0 {
      CeilDivStep(n, c);
    } else {
      assert i * c == (i - 1) * c + c;
      ChunksLeft(n, c, i - 1);
      CeilDivStep(n - (i - 1) * c, c);
      CeilDivStep(n - i * c, c);
    }
  }

  // ---------------------------------------------------------------- the tool

  /** What both tools make of two reply bytes: the command echoed and status 1, or the session is over. */
  predicate Accepts(cmd: Byte, first: Byte, status: Byte) {
    first == cmd && status == SUCCESS
  }

  /** How one exchange ended: the packet was not sent whole, no two-byte reply came, or a reply did. */
  datatype Exchange = SendShort | NoAck | Ack(cmd: Byte, status: Byte)

  /** Exchange n succeeds for this packet: both reply bytes arrived, the command matched, status 1. */
  predicate Succeeds(link: nat -> Exchange, n: nat, packet: seq<Byte>) {
    packet != [] && link(n).Ack? && Accepts(packet[0], link(n).cmd, link(n).status)
  }

  /** How many of the packets, sent as exchanges `first`, `first + 1`, ..., succeed before one fails. */
  function FirstRefused(link: nat -> Exchange, first: nat, packets: seq<seq<Byte>>): (k: nat)
    ensures k <= |packets|
    decreases |packets|
  {
    if packets == [] || !Succeeds(link, first, packets[0]) then 0
    else 1 + FirstRefused(link, first + 1, packets[1..])
  }

  /** It is that number: everything below it succeeds, and it does not if there is a packet there. */
  lemma {:induction false} FirstRefusedExact(link: nat -> Exchange, first: nat, packets: seq<seq<Byte>>)
    ensures var k := FirstRefused(link, first, packets);
            && (forall i :: 0 <= i < k ==> Succeeds(link, first + i, packets[i]))
            && (k < |packets| ==> !Succeeds(link, first + k, packets[k]))
    decreases |packets|
  {
    if packets != [] && Succeeds(link, first, packets[0]) {
      FirstRefusedExact(link, first + 1, packets[1..]);
      var k := FirstRefused(link, first, packets);
      forall i | 0 <= i < k ensures Succeeds(link, first + i, packets[i]) {
        if i > 0 {
          assert Succeeds(link, first + 1 + (i - 1), packets[1..][i - 1]);
        }
      }
    }
  }

  lemma {:induction false} FirstRefusedAppend(link: nat -> Exchange, first: nat,
                                              a: seq<seq<Byte>>, b: seq<seq<Byte>>)
    ensures var k := FirstRefused(link, first, a);
            FirstRefused(link, first, a + b) ==
              if k < |a| then k else |a| + FirstRefused(link, first + |a|, b)
    decreases |a|
  {
    if a == [] {
      assert a + b == b;
    } else {
      assert (a + b)[1..] == a[1..] + b;
      FirstRefusedAppend(link, first + 1, a[1..], b);
    }
  }

  /** `sent` records every packet handed to send, in order; exchange i has outcome `link(i)`. */
  class HostTool {
    const link: nat -> Exchange
    const c: nat
    var sent: seq<seq<Byte>>

    constructor (link: nat -> Exchange, c: nat)
      ensures this.link == link && this.c == c && sent == []
    {
      this.link := link;
      this.c := c;
      sent := [];
    }

    method SendAndAck(cmd: Byte, buf: seq<Byte>) returns (r: int)
      modifies this
      ensures sent == old(sent) + [buf]
      ensures r == if link(|old(sent)|) == Ack(cmd, SUCCESS) then 0 else -1
    {
      var outcome := link(|sent|);
      sent := sent + [buf];
      match outcome {
        case SendShort => return -1;
        case NoAck => return -1;
        case Ack(first, status) =>
          if first != cmd {
            return -1;
          }
          if status != SUCCESS {
            return -1;
          }
          return 0;
      }
    }

    /** The chunk loop: one packet buffer, refilled in place for every chunk. */
    method Download(fw: seq<Byte>) returns (r: int)
      requires c > 0
      modifies this
      ensures var packets := Packets(fw, c);
              var k := FirstRefused(link, |old(sent)|, packets);
              && r == (if k == |packets| then 0 else -1)
              && sent == old(sent) + packets[..Min(k + 1, |packets|)]
    {
      ghost var packets, base := Packets(fw, c), |sent|;
      hide Chunks, Flatten, Packets, Succeeds;
      NoneYet(link, base, fw, c);
      var pkt := new Byte[1 + c];
      var offset := 0;
      ghost var done := 0;
      while offset < |fw|
        invariant offset <= |fw| && done <= |packets|
        invariant offset < |fw| ==> offset == done * c
        invariant offset < |fw| <==> done < |packets|
        invariant sent == old(sent) + packets[..done]
        invariant FirstRefused(link, base, packets[..done]) == done
        decreases |fw| - offset
      {
        var chunk := |fw| - offset;
        if chunk > c {
          chunk := c;
        }
        pkt[0] := DFU_DOWNLOAD;
        forall i | 0 <= i < chunk {
          pkt[1 + i] := fw[offset + i];
        }
        PacketAt(fw, c, done);
        assert pkt[..1 + chunk] == [DFU_DOWNLOAD] + fw[offset..offset + chunk] == packets[done];
        var ok := SendAndAck(DFU_DOWNLOAD, pkt[..1 + chunk]);
        OneMore(link, base, packets, done);
        if ok != 0 {
          return -1;
        }
        offset := offset + chunk;
        done := done + 1;
      }
      assert packets[..done] == packets;
      return 0;
    }

    /** The sequence in main: DFU_START, the chunks, DFU_END, stopping at the first failure. */
    method Run(fw: seq<Byte>) returns (ok: bool)
      requires c > 0
      modifies this
      ensures var script := Script(fw, c);
              var k := FirstRefused(link, |old(sent)|, script);
              && (ok <==> k == |script|)
              && sent == old(sent) + script[..Min(k + 1, |script|)]
    {
      ghost var packets, base := Packets(fw, c), |sent|;
      hide Chunks, Flatten, Packets, Succeeds;
      NoneYet(link, base, fw, c);
      ScriptRefused(link, base, fw, c);
      var r := SendAndAck(DFU_START, [DFU_START]);
      if r != 0 {
        return false;
      }
      r := Download(fw);
      if r != 0 {
        return false;
      }
      r := SendAndAck(DFU_END, [DFU_END]);
      return r == 0;
    }
  }

  /** Before the first packet none has been refused, and there is a first one unless the image is empty. */
  lemma NoneYet(link: nat -> Exchange, base: nat, fw: seq<Byte>, c: nat)
    requires c > 0
    ensures var packets := Packets(fw, c);
            packets[..0] == [] && FirstRefused(link, base, packets[..0]) == 0 && (|fw| > 0 <==> |packets| > 0)
  {
  }

  /** The DFU_DOWNLOAD packets of a session. */
  function Packets(fw: seq<Byte>, c: nat): (p: seq<seq<Byte>>)
    requires c > 0
    ensures |p| == |Chunks(fw, c)|
  {
    var chunks := Chunks(fw, c);
    seq(|chunks|, i requires 0 <= i < |chunks| => [DFU_DOWNLOAD] + chunks[i])
  }

  /** Packet i carries the bytes at offset i * c, and the loop goes on exactly if there are more. */
  lemma PacketAt(fw: seq<Byte>, c: nat, i: nat)
    requires c > 0 && i < |Packets(fw, c)|
    ensures i * c < |fw|
    ensures Packets(fw, c)[i] == [DFU_DOWNLOAD] + fw[i * c..i * c + Min(|fw| - i * c, c)]
    ensures (i + 1) * c == i * c + c
    ensures (i + 1) * c < |fw| <==> i + 1 < |Packets(fw, c)|
  {
    hide Chunks, Flatten, WellCut, CeilDiv;
    ChunkAt(fw, c, i);
    ChunksRoundTrip(fw, c);
    assert (i + 1) * c == i * c + c;
    ChunksLeft(|fw|, c, i);
    CeilDivStep(|fw| - i * c, c);
    if i + 1 < |Packets(fw, c)| {
      ChunkAt(fw, c, i + 1);
    } else {
      NoneLeft(|fw| - i * c, c);
    }
  }

  lemma NoneLeft(n: nat, c: nat)
    requires c > 0 && n > 0 && CeilDiv(n, c) == 1
    ensures n <= c
  {
    if n > c {
      CeilDivStep(n, c);
      CeilDivStep(n - c, c);
      assert false;
    }
  }

  /** One more packet sent: the count of successes moves on exactly if that exchange succeeds. */
  lemma OneMore(link: nat -> Exchange, base: nat, packets: seq<seq<Byte>>, k: nat)
    requires k < |packets| && FirstRefused(link, base, packets[..k]) == k
    ensures packets[..k] + [packets[k]] == packets[..k + 1]
    ensures Succeeds(link, base + k, packets[k]) ==> FirstRefused(link, base, packets[..k + 1]) == k + 1
    ensures !Succeeds(link, base + k, packets[k]) ==> FirstRefused(link, base, packets) == k
  {
    FirstRefusedAppend(link, base, packets[..k], [packets[k]]);
    assert packets[..k] + [packets[k]] == packets[..k + 1];
    FirstRefusedAppend(link, base, packets[..k], packets[k..]);
    assert packets[..k] + packets[k..] == packets;
  }

  /** How the count for a whole script depends on its three parts. */
  lemma ScriptRefused(link: nat -> Exchange, base: nat, fw: seq<Byte>, c: nat)
    requires c > 0
    ensures var script, packets := Script(fw, c), Packets(fw, c);
            var k := FirstRefused(link, base, script);
            var m := FirstRefused(link, base + 1, packets);
            && script == [[DFU_START]] + packets + [[DFU_END]]
            && k == (if link(base) != Ack(DFU_START, SUCCESS) then 0
                     else if m < |packets| then 1 + m
                     else if link(base + 1 + |packets|) != Ack(DFU_END, SUCCESS) then 1 + |packets|
                     else |script|)
            && script[..1] == [[DFU_START]]
            && (m < |packets| ==> script[..2 + m] == [[DFU_START]] + packets[..m + 1])
  {
    var script, packets := Script(fw, c), Packets(fw, c);
    assert script == [[DFU_START]] + (packets + [[DFU_END]]);
    FirstRefusedAppend(link, base, [[DFU_START]], packets + [[DFU_END]]);
    FirstRefusedAppend(link, base + 1, packets, [[DFU_END]]);
    SingleRefused(link, base, [DFU_START]);
    SingleRefused(link, base + 1 + |packets|, [DFU_END]);
  }

  lemma SingleRefused(link: nat -> Exchange, n: nat, p: seq<Byte>)
    ensures FirstRefused(link, n, [p]) == if Succeeds(link, n, p) then 1 else 0
  {
    assert [p][1..] == [];
    assert FirstRefused(link, n + 1, [p][1..]) == 0;
  }
}
