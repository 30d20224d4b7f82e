/**
  * Bulk IN framing: how a message becomes packets on the wire, with the zero-length-packet rule of
  * the class driver, and a receiver that ends a transfer at the first short packet (section 5.8.3 of
  * the USB 2.0 specification).
  */
module BulkIn {
  import opened Protocol
  import opened Chunking

  const FS_MPS: nat := 64

  /** The class's rule for asking the controller to append a zero-length packet. */
  predicate WantsZlp(len: nat) {
    len > 0 && len % FS_MPS == 0
  }

  /** The packets the controller makes of one buffer: full ones, then the rest; an empty buffer is one
      empty packet. */
  function Split(msg: seq<Byte>): seq<seq<Byte>> {
    if |msg| <= FS_MPS then [msg] else [msg[..FS_MPS]] + Split(msg[FS_MPS..])
  }

  function Wire(msg: seq<Byte>, zlp: bool): seq<seq<Byte>> {
    Split(msg) + (if zlp then [[]] else [])
  }

  /** All packets for a sequence of messages, each sent under the class's rule. */
  function Transmit(msgs: seq<seq<Byte>>): seq<seq<Byte>> {
    if msgs == [] then [] else Wire(msgs[0], WantsZlp(|msgs[0]|)) + Transmit(msgs[1..])
  }

  /** The receiver: transfers completed so far and the bytes of the one under way. */
  datatype Rx = Rx(done: seq<seq<Byte>>, partial: seq<Byte>)

  function Feed(rx: Rx, packet: seq<Byte>): Rx {
    if |packet| < FS_MPS then Rx(rx.done + [rx.partial + packet], [])
    else Rx(rx.done, rx.partial + packet)
  }

  function FeedAll(rx: Rx, packets: seq<seq<Byte>>): Rx
    decreases |packets|
  {
    if packets == [] then rx else FeedAll(Feed(rx, packets[0]), packets[1..])
  }

  lemma {:induction false} FeedAppend(rx: Rx, a: seq<seq<Byte>>, b: seq<seq<Byte>>)
    ensures FeedAll(rx, a + b) == FeedAll(FeedAll(rx, a), b)
    decreases |a|
  {
    if a == [] {
      assert a + b == b;
    } else {
      assert (a + b)[1..] == a[1..] + b;
      FeedAppend(Feed(rx, a[0]), a[1..], b);
    }
  }

  /** Without a zero-length packet the transfer ends by itself unless it would be needed. */
  lemma {:induction false} SplitFeeds(rx: Rx, msg: seq<Byte>)
    ensures FeedAll(rx, Split(msg)) ==
              if WantsZlp(|msg|) then Rx(rx.done, rx.partial + msg)
              else Rx(rx.done + [rx.partial + msg], [])
    decreases |msg|
  {
    if |msg| <= FS_MPS {
      assert [msg][1..] == [];
      assert FeedAll(rx, [msg]) == Feed(rx, msg);
    } else {
      var head, rest := msg[..FS_MPS], msg[FS_MPS..];
      assert ([head] + Split(rest))[1..] == Split(rest);
      SplitFeeds(Feed(rx, head), rest);
      assert rx.partial + head + rest == rx.partial + msg;
    }
  }

  /**
    * The class's rule is the only right one: a receiver gets exactly the message that was sent if and
    * only if a zero-length packet is appended precisely for non-empty multiples of the packet size.
    */
  lemma ZlpRuleExact(msg: seq<Byte>, zlp: bool)
    ensures FeedAll(Rx([], []), Wire(msg, zlp)) == Rx([msg], []) <==> zlp == WantsZlp(|msg|)
  {
    var rx := Rx([], []);
    SplitFeeds(rx, msg);
    var tail: seq<seq<Byte>> := if zlp then [[]] else [];
    FeedAppend(rx, Split(msg), tail);
    var mid := FeedAll(rx, Split(msg));
    assert zlp ==> tail[1..] == [];
    assert zlp ==> FeedAll(mid, tail) == Rx(mid.done + [mid.partial + []], []);
    assert mid.partial + [] == mid.partial;
    assert [] + msg == msg;
  }

  /** Round trip for any sequence of messages, empty ones included: same contents, same boundaries. */
  lemma {:induction false} FramingRoundTrip(done: seq<seq<Byte>>, msgs: seq<seq<Byte>>)
    ensures FeedAll(Rx(done, []), Transmit(msgs)) == Rx(done + msgs, [])
    decreases |msgs|
  {
    if msgs == [] {
      assert done + msgs == done;
    } else {
      var m, rx := msgs[0], Rx(done, []);
      var tail := if WantsZlp(|m|) then [[]] else [];
      SplitFeeds(rx, m);
      FeedAppend(rx, Split(m), tail);
      var mid := FeedAll(rx, Split(m));
      assert [] + m == m;
      if WantsZlp(|m|) {
        assert tail[1..] == [];
        assert FeedAll(mid, tail) == Feed(mid, []);
        assert m + [] == m;
      }
      assert FeedAll(rx, Wire(m, WantsZlp(|m|))) == Rx(done + [m], []);
      FeedAppend(rx, Wire(m, WantsZlp(|m|)), Transmit(msgs[1..]));
      FramingRoundTrip(done + [m], msgs[1..]);
      assert done + [m] + msgs[1..] == done + msgs;
    }
  }

  /** No packet exceeds the endpoint's size, and together they carry the message's bytes. */
  lemma {:induction false} PacketsFit(msg: seq<Byte>, zlp: bool)
    ensures forall p :: p in Wire(msg, zlp) ==> |p| <= FS_MPS
    ensures Flatten(Wire(msg, zlp)) == msg
    decreases |msg|
  {
    var tail: seq<seq<Byte>> := if zlp then [[]] else [];
    assert Flatten(tail) == [] by {
      assert zlp ==> tail[1..] == [];
    }
    FlattenAppend(Split(msg), tail);
    if |msg| <= FS_MPS {
      assert [msg][1..] == [];
      assert Flatten([msg]) == msg + [];
    } else {
      PacketsFit(msg[FS_MPS..], false);
      assert Wire(msg[FS_MPS..], false) == Split(msg[FS_MPS..]);
      assert Split(msg)[1..] == Split(msg[FS_MPS..]);
      assert msg[..FS_MPS] + msg[FS_MPS..] == msg;
    }
  }
}
