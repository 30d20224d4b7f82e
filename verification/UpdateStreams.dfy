/**
  * What the composed system conserves in every run, for every connection: bytes sent are received or still
  * readable, in order, in both directions; every request is handled once; connections are not lost; and
  * the history fields say what happened.
  */
module UpdateStreams {
  import opened Protocol
  import opened Chunking
  import opened UpdateSystem
  import opened UpdateProof
  import S = ServerThreads
  import D = Dfu
  import H = HostSession

  // ---------------------------------------------------------------- towards the device

  /** Bytes a step puts on the wire towards the device, on connection `c`. */
  function SentBy(s: System, step: Step, c: Conn): seq<Byte>
    requires Enabled(s, step)
  {
    match step
    case ClientSend(conn, bytes) => if conn == c then bytes else []
    case HostSend => if s.host.conn == c then HostPacket(s) else []
    case HostSendShort(k) => if s.host.conn == c then HostPacket(s)[..k] else []
    case _ => []
  }

  /** Bytes a step hands to the callback as having come from `c`. */
  function HandedBy(s: System, step: Step, c: Conn): seq<Byte>
    requires Enabled(s, step)
  {
    if step.Receive? && Apply(s, step).task.Request? && Apply(s, step).task.conn == c
    then Apply(s, step).task.buf else []
  }

  function SentOn(s: System, steps: seq<Step>, c: Conn): seq<Byte>
    requires Executable(s, steps)
    decreases |steps|
  {
    if steps == [] then [] else SentBy(s, steps[0], c) + SentOn(Apply(s, steps[0]), steps[1..], c)
  }

  function HandedOn(s: System, steps: seq<Step>, c: Conn): seq<Byte>
    requires Executable(s, steps)
    decreases |steps|
  {
    if steps == [] then [] else HandedBy(s, steps[0], c) + HandedOn(Apply(s, steps[0]), steps[1..], c)
  }

  /** One recv: the first bytes of the stream of the entry's own connection, up to the buffer's size. */
  lemma ReceiveTakesFront(s: System)
    requires Inv(s) && Enabled(s, Receive)
    ensures var t, c := Apply(s, Receive), s.srv.ids[s.srv.han.i];
            && t.task.Request? && t.task.conn == c && t.task.fd == s.srv.poll[s.srv.han.i]
            && |t.task.buf| == Min(|Get(s.inbox, c)|, MTU_SIZE) > 0
            && Get(s.inbox, c) == t.task.buf + Get(t.inbox, c)
            && (forall o :: o != c ==> Get(t.inbox, o) == Get(s.inbox, o))
  {
    EntryConnection(s);
    var q := Get(s.inbox, s.srv.ids[s.srv.han.i]);
    assert q == q[..Min(|q|, MTU_SIZE)] + q[Min(|q|, MTU_SIZE)..];
  }

  lemma InboxStep(s: System, step: Step, c: Conn)
    requires Inv(s) && Enabled(s, step)
    ensures Get(s.inbox, c) + SentBy(s, step, c) == HandedBy(s, step, c) + Get(Apply(s, step).inbox, c)
  {
    if step.Receive? {
      ReceiveTakesFront(s);
      assert Get(s.inbox, c) + [] == Get(s.inbox, c);
    } else {
      InboxElsewhere(s, step, c);
    }
  }

  lemma InboxElsewhere(s: System, step: Step, c: Conn)
    requires Enabled(s, step) && !step.Receive?
    ensures Get(s.inbox, c) + SentBy(s, step, c) == HandedBy(s, step, c) + Get(Apply(s, step).inbox, c)
  {
    if step.HostSend? {
      assert HostPacket(s)[..|HostPacket(s)|] == HostPacket(s);
    }
    assert Get(s.inbox, c) + [] == Get(s.inbox, c);
  }

  lemma Requeue(a: seq<Byte>, b: seq<Byte>, x: seq<Byte>, m: seq<Byte>, y: seq<Byte>, z: seq<Byte>, e: seq<Byte>)
    requires a + b == x + m && m + y == z + e
    ensures a + (b + y) == (x + z) + e
  {
    assert a + (b + y) == (a + b) + y == (x + m) + y == x + (m + y) == x + (z + e) == (x + z) + e;
  }

  /**
    * No byte towards the device is lost, repeated or reordered, on any connection, whoever owns it: what
    * was readable and what is sent is what the callback gets, buffer by buffer, and what is readable then.
    */
  lemma {:induction false} InboxConserved(s: System, steps: seq<Step>, c: Conn)
    requires Inv(s) && Executable(s, steps)
    ensures Get(s.inbox, c) + SentOn(s, steps, c) == HandedOn(s, steps, c) + Get(Exec(s, steps).inbox, c)
    decreases |steps|
  {
    if steps == [] {
      assert Get(s.inbox, c) + [] == [] + Get(s.inbox, c);
    } else {
      var t, rest := Apply(s, steps[0]), steps[1..];
      StepInv(s, steps[0]);
      InboxStep(s, steps[0], c);
      hide Inv, Apply, Enabled, SentBy, HandedBy;
      InboxConserved(t, rest, c);
      Requeue(Get(s.inbox, c), SentBy(s, steps[0], c), HandedBy(s, steps[0], c), Get(t.inbox, c),
              SentOn(t, rest, c), HandedOn(t, rest, c), Get(Exec(t, rest).inbox, c));
    }
  }

  // ---------------------------------------------------------------- towards the host

  /** Bytes of a reply the socket of connection `c` takes in a step. */
  function RepliedBy(s: System, step: Step, c: Conn): seq<Byte>
    requires Enabled(s, step)
  {
    if step.SendReply? && s.task.conn == c then s.task.msg[..step.k] else []
  }

  /** Bytes the host reads in a step. */
  function ReadBy(s: System, step: Step, c: Conn): seq<Byte>
    requires Enabled(s, step)
  {
    if step.HostRecv? && s.host.conn == c then Get(s.outbox, c)[..2] else []
  }

  function RepliedOn(s: System, steps: seq<Step>, c: Conn): seq<Byte>
    requires Executable(s, steps)
    decreases |steps|
  {
    if steps == [] then [] else RepliedBy(s, steps[0], c) + RepliedOn(Apply(s, steps[0]), steps[1..], c)
  }

  function ReadOn(s: System, steps: seq<Step>, c: Conn): seq<Byte>
    requires Executable(s, steps)
    decreases |steps|
  {
    if steps == [] then [] else ReadBy(s, steps[0], c) + ReadOn(Apply(s, steps[0]), steps[1..], c)
  }

  lemma OutboxReply(s: System, k: nat, c: Conn)
    requires Inv(s) && Enabled(s, SendReply(k))
    ensures Get(Apply(s, SendReply(k)).outbox, c) ==
            Get(s.outbox, c) + (if s.task.conn == c then s.task.msg[..k] else [])
  {
    TaskConnection(s);
    hide Inv, TaskOk, LogOk, FreshOk, HostInv;
    assert Get(s.outbox, c) + [] == Get(s.outbox, c);
  }

  lemma OutboxElsewhere(s: System, step: Step, c: Conn)
    requires Enabled(s, step) && !step.SendReply?
    ensures Get(s.outbox, c) == ReadBy(s, step, c) + Get(Apply(s, step).outbox, c)
  {
    var q := Get(s.outbox, c);
    if step.HostRecv? && s.host.conn == c {
      assert q == q[..2] + q[2..];
    } else {
      assert [] + q == q;
    }
  }

  lemma OutboxStep(s: System, step: Step, c: Conn)
    requires Inv(s) && Enabled(s, step)
    ensures Get(s.outbox, c) + RepliedBy(s, step, c) == ReadBy(s, step, c) + Get(Apply(s, step).outbox, c)
  {
    if step.SendReply? {
      OutboxReply(s, step.k, c);
    } else {
      OutboxElsewhere(s, step, c);
    }
    hide Inv, Apply, Enabled;
    assert Get(s.outbox, c) + [] == Get(s.outbox, c);
    assert step.SendReply? ==> [] + Get(Apply(s, step).outbox, c) == Get(Apply(s, step).outbox, c);
  }

  /** The same towards the host: the bytes of replies are read by the host or still readable, in order. */
  lemma {:induction false} OutboxConserved(s: System, steps: seq<Step>, c: Conn)
    requires Inv(s) && Executable(s, steps)
    ensures Get(s.outbox, c) + RepliedOn(s, steps, c) == ReadOn(s, steps, c) + Get(Exec(s, steps).outbox, c)
    decreases |steps|
  {
    if steps == [] {
      assert Get(s.outbox, c) + [] == [] + Get(s.outbox, c);
    } else {
      var t, rest := Apply(s, steps[0]), steps[1..];
      StepInv(s, steps[0]);
      OutboxStep(s, steps[0], c);
      hide Inv, Apply, Enabled, RepliedBy, ReadBy;
      OutboxConserved(t, rest, c);
      Requeue(Get(s.outbox, c), RepliedBy(s, steps[0], c), ReadBy(s, steps[0], c), Get(t.outbox, c),
              RepliedOn(t, rest, c), ReadOn(t, rest, c), Get(Exec(t, rest).outbox, c));
    }
  }

  /** Both for runs from power-up, where nothing is in any stream. */
  lemma StreamsFromPowerUp(s: System, steps: seq<Step>, c: Conn)
    requires Init(s) && Executable(s, steps)
    ensures SentOn(s, steps, c) == HandedOn(s, steps, c) + Get(Exec(s, steps).inbox, c)
    ensures RepliedOn(s, steps, c) == ReadOn(s, steps, c) + Get(Exec(s, steps).outbox, c)
  {
    InitInv(s);
    InboxConserved(s, steps, c);
    OutboxConserved(s, steps, c);
    assert [] + SentOn(s, steps, c) == SentOn(s, steps, c);
    assert [] + RepliedOn(s, steps, c) == RepliedOn(s, steps, c);
  }

  // ---------------------------------------------------------------- requests

  /** The buffer a step hands to the callback, with its connection. */
  function Requested(s: System, step: Step): seq<(Conn, seq<Byte>)>
    requires Enabled(s, step)
  {
    var t := Apply(s, step);
    if step.Receive? && t.task.Request? then [(t.task.conn, t.task.buf)] else []
  }

  /** The buffers handed to the callback along a run, with their connections. */
  function Requests(s: System, steps: seq<Step>): seq<(Conn, seq<Byte>)>
    requires Executable(s, steps)
    decreases |steps|
  {
    if steps == [] then [] else Requested(s, steps[0]) + Requests(Apply(s, steps[0]), steps[1..])
  }

  /** What the log says was handled: the connection, the command byte and the payload. */
  function LogRequests(log: seq<D.Entry>): seq<(Conn, seq<Byte>)> {
    seq(|log|, i requires 0 <= i < |log| => (log[i].conn, [log[i].req] + log[i].payload))
  }

  /** The request in the handler's hands whose flash call has not been made. */
  function InHand(s: System): seq<(Conn, seq<Byte>)> {
    if s.task.Request? then [(s.task.conn, s.task.buf)] else []
  }

  lemma RequestElsewhere(s: System, step: Step)
    requires Enabled(s, step) && !step.Receive? && !step.Operate?
    ensures Apply(s, step).log == s.log && InHand(Apply(s, step)) == InHand(s)
  {
  }

  /** The command and the payload logged are the bytes received. */
  lemma RequestLogged(s: System, o: D.Outcome)
    requires Enabled(s, Operate(o))
    ensures LogRequests(Apply(s, Operate(o)).log) == LogRequests(s.log) + InHand(s)
    ensures InHand(Apply(s, Operate(o))) == []
  {
    var log, buf := Apply(s, Operate(o)).log, s.task.buf;
    hide D.Operate;
    assert log[..|s.log|] == s.log && |log| == |s.log| + 1;
    assert [log[|s.log|].req] + log[|s.log|].payload == buf;
    hide Apply, Enabled, D.Record;
    assert LogRequests(log) == LogRequests(s.log) + [(s.task.conn, buf)];
  }

  lemma RequestReceived(s: System)
    requires Inv(s) && Enabled(s, Receive)
    ensures InHand(s) == [] && Apply(s, Receive).log == s.log
    ensures Requested(s, Receive) == InHand(Apply(s, Receive))
  {
    hide HostInv, LogOk, FreshOk;
  }

  lemma RequestStep(s: System, step: Step)
    requires Inv(s) && Enabled(s, step)
    ensures var t := Apply(s, step);
            LogRequests(s.log) + InHand(s) + Requested(s, step) == LogRequests(t.log) + InHand(t)
  {
    hide Inv;
    match step
    case Receive => RequestReceived(s);
    case Operate(o) => RequestLogged(s, o);
    case _ => RequestElsewhere(s, step);
  }

  lemma Chain<T>(a: seq<T>, x: seq<T>, y: seq<T>)
    ensures a + (x + y) == a + x + y
  {
  }

  /** Every buffer handed to the callback is handled once, in order, and nothing else is. */
  lemma {:induction false} EveryRequestHandledOnce(s: System, steps: seq<Step>)
    requires Inv(s) && Executable(s, steps)
    ensures var t := Exec(s, steps);
            LogRequests(s.log) + InHand(s) + Requests(s, steps) == LogRequests(t.log) + InHand(t)
    decreases |steps|
  {
    if steps == [] {
      assert LogRequests(s.log) + InHand(s) + [] == LogRequests(s.log) + InHand(s);
    } else {
      var t, step, rest := Apply(s, steps[0]), steps[0], steps[1..];
      StepInv(s, step);
      RequestStep(s, step);
      hide Inv, Apply, Enabled, Requested, LogRequests, InHand;
      EveryRequestHandledOnce(t, rest);
      Chain(LogRequests(s.log) + InHand(s), Requested(s, step), Requests(t, rest));
    }
  }

  // ---------------------------------------------------------------- connections

  /** Connections made are waiting to be accepted or have been accepted, never both. */
  ghost predicate ConnectionsOk(s: System) {
    && (forall c: Conn :: c < s.born <==> c in s.backlog || c in s.srv.accepted)
    && (forall c: Conn :: c in s.backlog ==> c !in s.srv.accepted)
  }

  lemma ConnectionsStep(s: System, step: Step)
    requires Inv(s) && ConnectionsOk(s) && Enabled(s, step)
    ensures ConnectionsOk(Apply(s, step))
  {
    hide Inv, ConnectionsOk;
    match step
    case Server(st) => ConnectionsElsewhere(s, step);
    case AcceptConn(fd, conn) => ConnectionsMove(s, step);
    case ClientConnect => ConnectionsMove(s, step);
    case HostRestart(_) => ConnectionsMove(s, step);
    case _ => ConnectionsElsewhere(s, step);
  }

  lemma ConnectionsMove(s: System, step: Step)
    requires ConnectionsOk(s) && Enabled(s, step)
    requires step.AcceptConn? || step.ClientConnect? || step.HostRestart?
    ensures ConnectionsOk(Apply(s, step))
  {
  }

  lemma ConnectionsElsewhere(s: System, step: Step)
    requires ConnectionsOk(s) && Enabled(s, step)
    requires !step.AcceptConn? && !step.ClientConnect? && !step.HostRestart?
    ensures ConnectionsOk(Apply(s, step))
  {
    var t := Apply(s, step);
    assert t.srv.accepted == s.srv.accepted && t.backlog == s.backlog && t.born == s.born;
  }

  /** No connection is lost before it is accepted, and none is accepted twice. */
  lemma {:induction false} ConnectionsConserved(s: System, steps: seq<Step>)
    requires Inv(s) && ConnectionsOk(s) && Executable(s, steps)
    ensures ConnectionsOk(Exec(s, steps))
    decreases |steps|
  {
    if steps != [] {
      StepInv(s, steps[0]);
      ConnectionsStep(s, steps[0]);
      ConnectionsConserved(Apply(s, steps[0]), steps[1..]);
    }
  }

  lemma ConnectionsFromPowerUp(s: System, steps: seq<Step>)
    requires Init(s) && Executable(s, steps)
    ensures ConnectionsOk(Exec(s, steps))
  {
    InitInv(s);
    ConnectionsConserved(s, steps);
  }

  // ---------------------------------------------------------------- attempts

  /** Every restart follows a success or a FAILED reply. */
  predicate RestartsAnswered(s: System, steps: seq<Step>)
    requires Executable(s, steps)
    decreases |steps|
  {
    steps == [] ||
    ((steps[0].HostRestart? ==> s.host.pc == Ready(H.Done) || (s.host.pc.Failed? && s.host.pc.answered))
     && RestartsAnswered(Apply(s, steps[0]), steps[1..]))
  }

  /** The connections the tool opens along a run. */
  function RestartConns(s: System, steps: seq<Step>): set<Conn>
    requires Executable(s, steps)
    decreases |steps|
  {
    if steps == [] then {}
    else (if steps[0].HostRestart? then {s.born} else {}) + RestartConns(Apply(s, steps[0]), steps[1..])
  }

  lemma AttemptStep(s: System, step: Step)
    requires Enabled(s, step)
    ensures var t := Apply(s, step);
            && t.hostConns == s.hostConns + (if step.HostRestart? then {s.born} else {})
            && t.host.conn == (if step.HostRestart? then s.born else s.host.conn)
            && (t.tidy <==> s.tidy && (step.HostRestart? ==>
                  s.host.pc == Ready(H.Done) || (s.host.pc.Failed? && s.host.pc.answered)))
  {
  }

  /** The two history fields about attempts mean what they are said to mean. */
  lemma {:induction false} AttemptHistory(s: System, steps: seq<Step>)
    requires Executable(s, steps)
    ensures var t := Exec(s, steps);
            && (t.tidy <==> s.tidy && RestartsAnswered(s, steps))
            && t.hostConns == s.hostConns + RestartConns(s, steps)
    decreases |steps|
  {
    if steps != [] {
      AttemptStep(s, steps[0]);
      AttemptHistory(Apply(s, steps[0]), steps[1..]);
    }
  }

  /** Whether the host's last packet went out in full, given whether the one before the run did. */
  function LastSentWhole(was: bool, steps: seq<Step>): bool
    decreases |steps|
  {
    if steps == [] then was else LastSentWhole(SentWhole(was, steps[0]), steps[1..])
  }

  function SentWhole(was: bool, step: Step): bool {
    if step.HostSend? then true else if step.HostSendShort? then false else was
  }

  ghost predicate WholeOk(h: Host, whole: bool) {
    (h.pc.Waiting? ==> whole) && (h.pc.Failed? ==> (h.pc.whole <==> whole))
  }

  /** So does the host's record of it. */
  lemma {:induction false} WholeIsWhole(s: System, steps: seq<Step>, was: bool)
    requires WholeOk(s.host, was) && Executable(s, steps)
    ensures WholeOk(Exec(s, steps).host, LastSentWhole(was, steps))
    decreases |steps|
  {
    if steps != [] {
      var step := steps[0];
      WholeStep(s, step, was);
      WholeIsWhole(Apply(s, step), steps[1..], SentWhole(was, step));
    }
  }

  lemma WholeStep(s: System, step: Step, was: bool)
    requires WholeOk(s.host, was) && Enabled(s, step)
    ensures WholeOk(Apply(s, step).host, SentWhole(was, step))
  {
  }

  /** The host takes a reply as success exactly if it is the two bytes its tool accepts. */
  lemma VerdictExact(h: Host, ack: seq<Byte>)
    requires |ack| == 2 && H.PhaseOk(h.fw, TCP_CHUNK, h.pc.ph)
    ensures Judge(h, ack).pc.Failed? || Judge(h, ack).pc.Ready?
    ensures Judge(h, ack).pc.Ready? <==> ack == [H.Cmd(h.pc.ph), SUCCESS]
    ensures Judge(h, ack).pc.Failed? ==>
              (Judge(h, ack).pc.answered <==> ack[0] == H.Cmd(h.pc.ph)) && Judge(h, ack).acks == h.acks
  {
  }

  // ---------------------------------------------------------------- nothing is ruled out

  /**
    * The runs are as many as they are said to be. The server: as long as the device has not rebooted,
    * accept may give any free descriptor to any waiting connection, poll may report anything, and recv may
    * return data that are there, an end of stream or an error.
    */
  lemma ServerMayDoAnything(s: System)
    requires Inv(s) && ConnectionsOk(s) && !s.srv.han.Halted?
    ensures forall c, fd :: c in s.backlog && s.srv.acc.Accepting? && fd >= 0 && fd !in s.srv.open ==>
              Enabled(s, AcceptConn(fd, c))
    ensures s.srv.acc.Holding? ==> Enabled(s, Server(S.LockedInsert))
    ensures s.srv.acc.Rejecting? ==> Enabled(s, Server(S.CloseRejected))
    ensures s.srv.han.Idle? ==> Enabled(s, Server(S.Guard))
    ensures s.srv.han.Counted? ==> Enabled(s, Server(S.TakeSnapshot))
    ensures s.srv.han.Polling? ==>
              forall res, ev: seq<S.Events> :: |ev| == s.srv.n ==> Enabled(s, Server(S.Poll(res, ev)))
    ensures s.srv.han.Walking? ==> Enabled(s, Server(S.Visit(S.Eof))) && Enabled(s, Server(S.Visit(S.NoData)))
  {
    hide HostInv, LogOk, FreshOk;
    if s.srv.acc.Holding? {
      assert s.srv.acc.fd in S.Held(s.srv.acc);
    }
  }

  /** Bytes that are there can be received when the entry reports input and no hang-up. */
  lemma DataMayBeReceived(s: System)
    requires Inv(s) && s.srv.han.Walking? && s.srv.han.i < s.srv.n
    requires !s.srv.han.ev[s.srv.han.i].hup && s.srv.han.ev[s.srv.han.i].input
    requires Get(s.inbox, s.srv.ids[s.srv.han.i]) != []
    ensures Enabled(s, Receive)
  {
    hide HostInv, LogOk, FreshOk;
    assert S.Live(s.srv, s.srv.poll[s.srv.han.i], s.srv.ids[s.srv.han.i]);
  }

  /** The callback: the flash writer may do whatever its contract allows, a reply may be cut anywhere. */
  lemma CallbackMayDoAnything(s: System)
    requires Inv(s)
    ensures s.task.Request? ==> forall o :: Enabled(s, Operate(o))
    ensures s.task.Reply? ==> forall k: nat :: k <= 2 ==> Enabled(s, SendReply(k))
    ensures s.task.Upgrade? ==> Enabled(s, RequestUpgrade)
    ensures s.task.Restart? ==> Enabled(s, Reboot)
  {
    hide HostInv, LogOk, FreshOk;
  }

  /** Outside: other clients may connect and send anything at any time, and the host may send its packet
      whole or cut short, read a reply that is there, give up, or be run again with any firmware. */
  lemma OutsideMayDoAnything(s: System)
    requires Inv(s)
    ensures Enabled(s, ClientConnect)
    ensures forall c: Conn, bytes :: c < s.born && c !in s.hostConns ==> Enabled(s, ClientSend(c, bytes))
    ensures s.host.pc.Ready? && !s.host.pc.ph.Done? ==>
              Enabled(s, HostSend) && forall k: nat :: k < |HostPacket(s)| ==> Enabled(s, HostSendShort(k))
    ensures s.host.pc.Waiting? ==> Enabled(s, HostRecvFail)
    ensures s.host.pc.Waiting? && |Get(s.outbox, s.host.conn)| >= 2 ==> Enabled(s, HostRecv)
    ensures s.host.pc.Failed? || s.host.pc == Ready(H.Done) ==> forall fw :: Enabled(s, HostRestart(fw))
  {
    assert WireOk(ViewOf(s));
    hide HostInv, LogOk, FreshOk, TaskOk;
  }
}
