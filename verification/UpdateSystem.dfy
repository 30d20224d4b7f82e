/**
  * The whole update path as one transition system: the host, the byte streams of every connection,
  * the two server threads, the command handler and the flash writer, interleaved step by step.
  */
module UpdateSystem {
  import opened Protocol
  import S = ServerThreads
  import D = Dfu
  import H = HostSession

  /** What the handler thread is doing inside its callback. `fd` is all the code has; `conn` records
      the connection the request came from. */
  datatype Task =
    | NoTask
    | Request(fd: int, conn: Conn, buf: seq<Byte>)
    | Reply(fd: int, conn: Conn, msg: seq<Byte>, final: bool)
    | Upgrade
    | Restart

  /** An attempted reply: the connection behind the descriptor when it was sent, and the message. */
  datatype Target = To(conn: Conn) | Nowhere
  datatype Sent = Sent(target: Target, msg: seq<Byte>)

  /** The host tool between two system calls. `answered`: it stopped because of a FAILED reply. `whole`:
      its last packet had been sent in full. */
  datatype HostPc =
    | Ready(ph: H.Phase)
    | Waiting(ph: H.Phase)
    | Failed(ph: H.Phase, answered: bool, whole: bool)
  datatype Host = Host(fw: seq<Byte>, conn: Conn, pc: HostPc, acks: nat)

  /**
    * `inbox` and `outbox` are the byte streams towards and from the device, per connection.
    * History only: `initial` (staged bytes at the start), `log` (commands handled), `replies`,
    * `hostConns` (connections of this and earlier attempts), `tidy` (no earlier attempt was given up
    * with its last request unanswered).
    */
  datatype System = System(
    srv: S.Server, task: Task, flash: D.Flash, upgraded: bool,
    inbox: map<Conn, seq<Byte>>, outbox: map<Conn, seq<Byte>>, backlog: set<Conn>, born: Conn,
    host: Host,
    initial: seq<Byte>, log: seq<D.Entry>, replies: seq<Sent>, hostConns: set<Conn>, tidy: bool)

  datatype Step =
    | Server(step: S.Step)
    | AcceptConn(fd: int, conn: Conn)
    | Receive
    | Operate(o: D.Outcome)
    | SendReply(k: nat)
    | RequestUpgrade
    | Reboot
    | ClientConnect
    | ClientSend(conn: Conn, bytes: seq<Byte>)
    | HostSend
    | HostSendShort(k: nat)
    | HostRecv
    | HostRecvFail
    | HostRestart(fw: seq<Byte>)

  function Get(m: map<Conn, seq<Byte>>, c: Conn): seq<Byte> {
    if c in m then m[c] else []
  }

  ghost predicate Init(s: System) {
    && S.Init(s.srv) && s.task == NoTask && !s.upgraded
    && D.FlashOk(s.flash) && s.initial == s.flash.staged
    && s.inbox == map[] && s.outbox == map[] && s.backlog == {0} && s.born == 1
    && s.host == Host(s.host.fw, 0, Ready(H.Starting), 0)
    && s.log == [] && s.replies == [] && s.hostConns == {0} && s.tidy
  }

  /** The handler is at a poll entry that reports input, and its stream has bytes. */
  predicate CanReceive(s: System) {
    && S.Enabled(s.srv, S.Visit(S.Got))
    && s.srv.han.i < s.srv.n
    && !s.srv.han.ev[s.srv.han.i].hup && s.srv.han.ev[s.srv.han.i].input
    && s.srv.poll[s.srv.han.i] in s.srv.open
    && Get(s.inbox, s.srv.open[s.srv.poll[s.srv.han.i]]) != []
  }

  predicate Enabled(s: System, step: Step) {
    match step
    case Server(st) =>
      && !st.Accept? && !st.Return? && !st.Halt? && st != S.Visit(S.Got) && S.Enabled(s.srv, st)
    case AcceptConn(fd, conn) => conn in s.backlog && S.Enabled(s.srv, S.Accept(fd, conn))
    case Receive => CanReceive(s)
    case Operate(_) => s.task.Request? && s.task.buf != []
    case SendReply(k) => s.task.Reply? && k <= |s.task.msg| && S.Enabled(s.srv, S.Return)
    case RequestUpgrade => s.task.Upgrade?
    case Reboot => s.task.Restart? && S.Enabled(s.srv, S.Halt)
    case ClientConnect => true
    case ClientSend(conn, _) => conn < s.born && conn !in s.hostConns
    case HostSend => s.host.pc.Ready? && !s.host.pc.ph.Done? && HostPhaseOk(s)
    case HostSendShort(k) =>
      s.host.pc.Ready? && !s.host.pc.ph.Done? && HostPhaseOk(s) && k < |HostPacket(s)|
    case HostRecv => s.host.pc.Waiting? && HostPhaseOk(s) && |Get(s.outbox, s.host.conn)| >= 2
    case HostRecvFail => s.host.pc.Waiting?
    case HostRestart(_) => s.host.pc.Failed? || s.host.pc == Ready(H.Done)
  }

  predicate HostPhaseOk(s: System) {
    H.PhaseOk(s.host.fw, TCP_CHUNK, s.host.pc.ph)
  }

  function HostPacket(s: System): seq<Byte>
    requires HostPhaseOk(s)
  {
    H.Packet(s.host.fw, TCP_CHUNK, s.host.pc.ph)
  }

  /** recv: whatever is in the stream, up to the size of the handler's buffer. */
  function DoReceive(s: System): System
    requires CanReceive(s)
  {
    var fd := s.srv.poll[s.srv.han.i];
    var conn := s.srv.open[fd];
    var q := Get(s.inbox, conn);
    var k := Min(|q|, MTU_SIZE);
    s.(srv := S.Apply(s.srv, S.Visit(S.Got)),
       inbox := s.inbox[conn := q[k..]],
       task := Request(fd, conn, q[..k]))
  }

  /** The callback's flash work: command byte, payload, one call to the flash writer. */
  function DoOperate(s: System, o: D.Outcome): System
    requires Enabled(s, Operate(o))
  {
    var req, payload := s.task.buf[0], s.task.buf[1..];
    var e := D.Record(s.task.conn, req, payload, o);
    s.(flash := D.Operate(s.flash, req, payload, o),
       log := s.log + [e],
       task := Reply(s.task.fd, s.task.conn, D.ReplyTo(e), req == DFU_END && o.ok))
  }

  /** A non-blocking send that may take none, some or all of the reply; its result is ignored. */
  function DoSendReply(s: System, k: nat): System
    requires Enabled(s, SendReply(k))
  {
    var hit := s.task.fd in s.srv.open;
    s.(outbox := if hit then s.outbox[s.srv.open[s.task.fd] := Get(s.outbox, s.srv.open[s.task.fd]) + s.task.msg[..k]]
                 else s.outbox,
       replies := s.replies + [Sent(if hit then To(s.srv.open[s.task.fd]) else Nowhere, s.task.msg)],
       task := if s.task.final then Upgrade else NoTask,
       srv := if s.task.final then s.srv else S.Apply(s.srv, S.Return))
  }

  function DoHostSend(s: System, k: nat, pc: HostPc): System
    requires HostPhaseOk(s) && k <= |HostPacket(s)|
  {
    var c := s.host.conn;
    s.(inbox := s.inbox[c := Get(s.inbox, c) + HostPacket(s)[..k]], host := s.host.(pc := pc))
  }

  /** What the host makes of the two reply bytes. */
  function Judge(h: Host, ack: seq<Byte>): Host
    requires |ack| == 2 && H.PhaseOk(h.fw, TCP_CHUNK, h.pc.ph)
  {
    if H.Accepts(H.Cmd(h.pc.ph), ack[0], ack[1])
    then h.(pc := Ready(H.NextPhase(h.fw, TCP_CHUNK, h.pc.ph)), acks := h.acks + 1)
    else h.(pc := Failed(h.pc.ph, ack[0] == H.Cmd(h.pc.ph), true))
  }

  function DoHostRecv(s: System): System
    requires Enabled(s, HostRecv)
  {
    var c := s.host.conn;
    var q := Get(s.outbox, c);
    s.(outbox := s.outbox[c := q[2..]], host := Judge(s.host, q[..2]))
  }

  /** The tool is run again: a new connection, possibly another firmware. */
  function DoRestart(s: System, fw: seq<Byte>): System {
    s.(host := Host(fw, s.born, Ready(H.Starting), 0),
       backlog := s.backlog + {s.born}, hostConns := s.hostConns + {s.born}, born := s.born + 1,
       tidy := s.tidy && !(s.host.pc.Failed? && !s.host.pc.answered))
  }

  function Apply(s: System, step: Step): System
    requires Enabled(s, step)
  {
    match step
    case Server(st) => s.(srv := S.Apply(s.srv, st))
    case AcceptConn(fd, conn) =>
      s.(srv := S.Apply(s.srv, S.Accept(fd, conn)), backlog := s.backlog - {conn})
    case Receive => DoReceive(s)
    case Operate(o) => DoOperate(s, o)
    case SendReply(k) => DoSendReply(s, k)
    case RequestUpgrade => s.(upgraded := true, task := Restart)
    case Reboot => s.(srv := S.Apply(s.srv, S.Halt), task := NoTask)
    case ClientConnect => s.(backlog := s.backlog + {s.born}, born := s.born + 1)
    case ClientSend(conn, bytes) => s.(inbox := s.inbox[conn := Get(s.inbox, conn) + bytes])
    case HostSend => DoHostSend(s, |HostPacket(s)|, Waiting(s.host.pc.ph))
    case HostSendShort(k) => DoHostSend(s, k, Failed(s.host.pc.ph, false, false))
    case HostRecv => DoHostRecv(s)
    case HostRecvFail => s.(host := s.host.(pc := Failed(s.host.pc.ph, false, true)))
    case HostRestart(fw) => DoRestart(s, fw)
  }

  predicate Executable(s: System, steps: seq<Step>)
    decreases |steps|
  {
    steps == [] || (Enabled(s, steps[0]) && Executable(Apply(s, steps[0]), steps[1..]))
  }

  function Exec(s: System, steps: seq<Step>): System
    requires Executable(s, steps)
    decreases |steps|
  {
    if steps == [] then s else Exec(Apply(s, steps[0]), steps[1..])
  }

  // ---------------------------------------------------------------- device-side invariant

  /** The device has flushed, replied, and does nothing more but request the upgrade and reboot. */
  predicate Committed(s: System) {
    s.task.Upgrade? || s.task.Restart? || s.srv.han.Halted?
  }

  ghost predicate FreshOk(s: System) {
    && (forall c :: c in s.srv.accepted ==> c < s.born)
    && (forall c :: c in s.backlog ==> c < s.born)
    && (forall c :: c in s.inbox ==> c < s.born)
    && (forall c :: c in s.outbox ==> c < s.born)
    && (forall c :: c in s.hostConns ==> c < s.born)
    && (forall i :: 0 <= i < |s.log| ==> s.log[i].conn < s.born)
    && s.host.conn in s.hostConns
  }

  function Last(log: seq<D.Entry>): D.Entry
    requires log != []
  {
    log[|log| - 1]
  }

  /** The callback's data agree with the server's: descriptor, connection, and the entry logged. */
  ghost predicate TaskOk(s: System) {
    && S.Inv(s.srv)
    && (s.task.NoTask? <==> !s.srv.han.InCallback?)
    && (s.task.Request? || s.task.Reply? ==>
          s.task.fd == s.srv.poll[s.srv.han.i] && s.task.conn == s.srv.ids[s.srv.han.i])
    && (s.task.Request? ==> s.task.buf != [])
    && (s.task.Reply? ==>
          && s.log != [] && Last(s.log).conn == s.task.conn && s.task.msg == D.ReplyTo(Last(s.log))
          && (s.task.final <==> Last(s.log).req == DFU_END && Last(s.log).ok)
          && (s.task.final ==> s.flash.written == |s.flash.staged|))
    && (Committed(s) ==>
          s.log != [] && Last(s.log).req == DFU_END && Last(s.log).ok && s.flash.written == |s.flash.staged|)
    && (s.task.Restart? || s.srv.han.Halted? ==> s.upgraded)
  }

  ghost predicate LogOk(s: System) {
    && D.FlashOk(s.flash)
    && s.flash.staged == D.Replay(s.initial, s.log)
    && |s.log| == |s.replies| + (if s.task.Reply? then 1 else 0)
    && (forall i :: 0 <= i < |s.replies| ==> s.replies[i] == Sent(To(s.log[i].conn), D.ReplyTo(s.log[i])))
    && (forall i :: 0 <= i < |s.log| ==> (s.log[i].ok ==> Recognised(s.log[i].req)))
  }

  /** In the callback, the request's descriptor still denotes the connection it came from. */
  lemma TaskConnection(s: System)
    requires TaskOk(s) && (s.task.Request? || s.task.Reply?)
    ensures s.task.fd in s.srv.open && s.srv.open[s.task.fd] == s.task.conn && s.task.conn in s.srv.accepted
  {
    assert S.Live(s.srv, s.srv.poll[s.srv.han.i], s.srv.ids[s.srv.han.i]);
    assert S.IsOpen(s.srv, s.task.conn);
  }

  /** At a poll entry, the descriptor denotes the connection the snapshot was taken for. */
  lemma EntryConnection(s: System)
    requires S.Inv(s.srv) && CanReceive(s)
    ensures var i := s.srv.han.i;
            s.srv.open[s.srv.poll[i]] == s.srv.ids[i] && s.srv.ids[i] in s.srv.accepted
  {
    var i := s.srv.han.i;
    assert S.Live(s.srv, s.srv.poll[i], s.srv.ids[i]);
    assert S.IsOpen(s.srv, s.srv.ids[i]);
  }

  lemma FreshStep(s: System, step: Step)
    requires FreshOk(s) && TaskOk(s) && Enabled(s, step)
    ensures FreshOk(Apply(s, step))
  {
    hide FreshOk, TaskOk;
    match step
    case Server(st) => FreshServer(s, st);
    case Operate(o) => FreshOperate(s, o);
    case SendReply(k) => FreshReply(s, k);
    case Receive => FreshReceive(s);
    case HostSend => FreshHost(s, step);
    case HostSendShort(_) => FreshHost(s, step);
    case HostRecv => FreshHost(s, step);
    case HostRestart(fw) => FreshHost(s, step);
    case _ => FreshElsewhere(s, step);
  }

  lemma FreshElsewhere(s: System, step: Step)
    requires FreshOk(s) && Enabled(s, step)
    requires step.AcceptConn? || step.RequestUpgrade? || step.Reboot? || step.ClientConnect?
             || step.ClientSend? || step.HostRecvFail?
    ensures FreshOk(Apply(s, step))
  {
  }

  lemma FreshHost(s: System, step: Step)
    requires FreshOk(s) && Enabled(s, step)
    requires step.HostSend? || step.HostSendShort? || step.HostRecv? || step.HostRestart?
    ensures FreshOk(Apply(s, step))
  {
    assert s.host.conn < s.born;
  }

  lemma FreshServer(s: System, st: S.Step)
    requires FreshOk(s) && Enabled(s, Server(st))
    ensures FreshOk(s.(srv := S.Apply(s.srv, st)))
  {
    assert S.Apply(s.srv, st).accepted == s.srv.accepted;
  }

  lemma FreshReply(s: System, k: nat)
    requires FreshOk(s) && TaskOk(s) && Enabled(s, SendReply(k))
    ensures FreshOk(DoSendReply(s, k))
  {
    TaskConnection(s);
  }

  lemma FreshReceive(s: System)
    requires FreshOk(s) && TaskOk(s) && CanReceive(s)
    ensures FreshOk(DoReceive(s))
  {
    EntryConnection(s);
  }

  lemma FreshOperate(s: System, o: D.Outcome)
    requires FreshOk(s) && TaskOk(s) && Enabled(s, Operate(o))
    ensures FreshOk(Apply(s, Operate(o)))
  {
    TaskConnection(s);
    var t := Apply(s, Operate(o));
    assert t.log == s.log + [Last(t.log)] && Last(t.log).conn == s.task.conn;
  }

  lemma TaskReceive(s: System)
    requires TaskOk(s) && CanReceive(s)
    ensures TaskOk(DoReceive(s))
  {
    S.StepInv(s.srv, S.Visit(S.Got));
    EntryConnection(s);
  }

  lemma TaskOperate(s: System, o: D.Outcome)
    requires TaskOk(s) && Enabled(s, Operate(o))
    ensures TaskOk(DoOperate(s, o))
  {
    assert Last(DoOperate(s, o).log) == D.Record(s.task.conn, s.task.buf[0], s.task.buf[1..], o);
  }

  lemma TaskReply(s: System, k: nat)
    requires TaskOk(s) && Enabled(s, SendReply(k))
    ensures TaskOk(DoSendReply(s, k))
  {
    S.StepInv(s.srv, S.Return);
  }

  /** Steps of the server itself leave the callback's data alone. */
  lemma TaskServer(s: System, st: S.Step)
    requires TaskOk(s) && S.Enabled(s.srv, st) && !st.Return? && !st.Halt? && st != S.Visit(S.Got)
    ensures TaskOk(s.(srv := S.Apply(s.srv, st)))
  {
    S.StepInv(s.srv, st);
  }

  lemma TaskStep(s: System, step: Step)
    requires TaskOk(s) && Enabled(s, step)
    ensures TaskOk(Apply(s, step))
  {
    hide TaskOk;
    match step
    case Server(st) => TaskServer(s, st);
    case AcceptConn(fd, conn) => TaskAccept(s, fd, conn);
    case Receive => TaskReceive(s);
    case Operate(o) => TaskOperate(s, o);
    case SendReply(k) => TaskReply(s, k);
    case _ => TaskElsewhere(s, step);
  }

  lemma TaskAccept(s: System, fd: int, conn: Conn)
    requires TaskOk(s) && Enabled(s, AcceptConn(fd, conn))
    ensures TaskOk(Apply(s, AcceptConn(fd, conn)))
  {
    S.StepInv(s.srv, S.Accept(fd, conn));
  }

  lemma TaskElsewhere(s: System, step: Step)
    requires TaskOk(s) && Enabled(s, step)
    requires !step.Server? && !step.AcceptConn? && !step.Receive? && !step.Operate? && !step.SendReply?
    ensures TaskOk(Apply(s, step))
  {
    if step.Reboot? {
      S.StepInv(s.srv, S.Halt);
    }
  }

  lemma LogStep(s: System, step: Step)
    requires LogOk(s) && TaskOk(s) && Enabled(s, step)
    ensures LogOk(Apply(s, step))
  {
    hide LogOk, TaskOk;
    match step
    case Operate(o) => LogOperate(s, o);
    case SendReply(k) => LogReply(s, k);
    case _ => LogElsewhere(s, step);
  }

  lemma LogElsewhere(s: System, step: Step)
    requires LogOk(s) && TaskOk(s) && Enabled(s, step) && !step.Operate? && !step.SendReply?
    ensures LogOk(Apply(s, step))
  {
    var t := Apply(s, step);
    assert t.flash == s.flash && t.log == s.log && t.replies == s.replies && t.initial == s.initial;
    assert t.task.Reply? <==> s.task.Reply?;
  }

  lemma LogOperate(s: System, o: D.Outcome)
    requires LogOk(s) && TaskOk(s) && Enabled(s, Operate(o))
    ensures LogOk(DoOperate(s, o))
  {
    D.OperateReplays(s.initial, s.log, s.flash, s.task.conn, s.task.buf[0], s.task.buf[1..], o);
  }

  lemma LogReply(s: System, k: nat)
    requires LogOk(s) && TaskOk(s) && Enabled(s, SendReply(k))
    ensures LogOk(DoSendReply(s, k))
  {
    TaskConnection(s);
  }
}
