/** The invariant tying host progress, stream contents, handler progress and flash contents together. */
module UpdateProof {
  import opened Protocol
  import opened UpdateSystem
  import S = ServerThreads
  import D = Dfu
  import H = HostSession

  /** What the handler is doing for one connection. */
  datatype Job = NoJob | Got(buf: seq<Byte>) | Answering(msg: seq<Byte>)

  function JobOf(task: Task, c: Conn): Job {
    if task.Request? && task.conn == c then Got(task.buf)
    else if task.Reply? && task.conn == c then Answering(task.msg)
    else NoJob
  }

  /** Everything the host-side invariant looks at, for the host's current connection. */
  datatype View = View(h: Host, inb: seq<Byte>, out: seq<Byte>, job: Job,
                       flash: D.Flash, log: seq<D.Entry>, committed: bool)

  function ViewOf(s: System): View {
    View(s.host, Get(s.inbox, s.host.conn), Get(s.outbox, s.host.conn), JobOf(s.task, s.host.conn),
         s.flash, s.log, Committed(s))
  }

  /** The result of the last command handled for a connection. */
  function LastOk(log: seq<D.Entry>, c: Conn): bool {
    if log == [] then false
    else if Last(log).conn == c then Last(log).ok
    else LastOk(log[..|log| - 1], c)
  }

  ghost predicate Started(log: seq<D.Entry>, c: Conn) {
    exists i :: 0 <= i < |log| && D.IsStartOf(log[i], c)
  }

  /** Since this connection's DFU_START, no other connection's command has changed what is staged. */
  ghost predicate Undisturbed(log: seq<D.Entry>, c: Conn) {
    forall i, j :: 0 <= i < j < |log| && D.IsStartOf(log[i], c) ==> !D.Alters(log[j], c)
  }

  /** Staged bytes while the exchange of phase `ph` has not yet reached the flash writer. */
  ghost predicate Before(fw: seq<Byte>, ph: H.Phase, staged: seq<Byte>) {
    match ph
    case Starting => true
    case Sending(off) => off <= |fw| && staged == fw[..off]
    case Ending => staged == fw
    case Done => staged == fw
  }

  /** Staged bytes once it has, with the given result. */
  ghost predicate After(fw: seq<Byte>, ph: H.Phase, ok: bool, f: D.Flash) {
    match ph
    case Starting => ok ==> f.staged == []
    case Sending(off) =>
      && off <= |fw| && fw[..off] <= f.staged <= fw[..H.ChunkEnd(fw, TCP_CHUNK, off)]
      && (ok ==> f.staged == fw[..H.ChunkEnd(fw, TCP_CHUNK, off)])
    case Ending => f.staged == fw && (ok ==> f.written == |f.staged|)
    case Done => f.staged == fw
  }

  predicate OnItsWay(v: View) {
    v.inb != [] || v.job.Got?
  }

  /** Image part: relevant only while undisturbed, and only once DFU_START has been handled. */
  ghost predicate ImageOk(v: View) {
    var c, fw := v.h.conn, v.h.fw;
    match v.h.pc
    case Ready(ph) =>
      && (ph != H.Starting ==> Started(v.log, c) && (Undisturbed(v.log, c) ==> Before(fw, ph, v.flash.staged)))
      && (ph == H.Done ==> v.committed)
    case Waiting(ph) =>
      if OnItsWay(v) then
        ph != H.Starting ==> Started(v.log, c) && (Undisturbed(v.log, c) ==> Before(fw, ph, v.flash.staged))
      else
        && Started(v.log, c)
        && (Undisturbed(v.log, c) ==> After(fw, ph, LastOk(v.log, c), v.flash))
        && (ph == H.Ending && v.job == NoJob && LastOk(v.log, c) ==> v.committed)
    case Failed(ph, _, _) =>
      ph != H.Starting ==>
        && Started(v.log, c)
        && (Undisturbed(v.log, c) ==>
              if OnItsWay(v) then Before(fw, ph, v.flash.staged)
              else After(fw, ph, false, v.flash))
  }

  /** Stream part: at most one message in flight, and where it is. */
  ghost predicate WireOk(v: View) {
    var c, fw := v.h.conn, v.h.fw;
    && H.PhaseOk(fw, TCP_CHUNK, v.h.pc.ph)
    && match v.h.pc
       case Ready(_) => v.inb == [] && v.out == [] && v.job == NoJob
       case Waiting(ph) =>
         var pkt := H.Packet(fw, TCP_CHUNK, ph);
         && !ph.Done?
         && (v.inb != [] ==> v.inb == pkt && v.out == [] && v.job == NoJob)
         && (v.job.Got? ==> v.inb == [] && v.out == [] && v.job.buf == pkt)
         && (v.job.Answering? ==>
               v.inb == [] && v.out == [] && v.job.msg == [H.Cmd(ph), Status(LastOk(v.log, c))])
         && v.out <= [H.Cmd(ph), Status(LastOk(v.log, c))]
       case Failed(ph, answered, whole) =>
         var pkt := H.Packet(fw, TCP_CHUNK, ph);
         && !ph.Done?
         && v.inb <= pkt && (v.inb != [] ==> v.job == NoJob)
         && (v.job.Got? ==> v.job.buf != [] && v.job.buf <= pkt)
         && (whole ==> (v.inb != [] ==> v.inb == pkt) && (v.job.Got? ==> v.job.buf == pkt))
         && (answered ==> v.inb == [] && v.job == NoJob)
  }

  /** The acknowledgements seen so far and those still needed always add up. */
  ghost predicate CountOk(v: View) {
    && H.PhaseOk(v.h.fw, TCP_CHUNK, v.h.pc.ph)
    && v.h.acks + H.ExchangesLeft(v.h.fw, TCP_CHUNK, v.h.pc.ph) == 2 + CeilDiv(|v.h.fw|, TCP_CHUNK)
  }

  ghost predicate HostInv(v: View) {
    WireOk(v) && ImageOk(v) && CountOk(v) && D.FlashOk(v.flash)
    && (v.committed ==> v.flash.written == |v.flash.staged| && !v.job.Got? && !v.job.Answering?)
  }

  // ---------------------------------------------------------------- the log grows

  lemma LogGrows(log: seq<D.Entry>, e: D.Entry, c: Conn)
    ensures Started(log, c) ==> Started(log + [e], c)
    ensures Undisturbed(log + [e], c) ==> Undisturbed(log, c)
    ensures Undisturbed(log + [e], c) && Started(log, c) ==> !D.Alters(e, c)
    ensures LastOk(log + [e], c) == if e.conn == c then e.ok else LastOk(log, c)
    ensures D.IsStartOf(e, c) ==> Started(log + [e], c)
  {
    var more := log + [e];
    assert more[..|log|] == log;
    assert forall i :: 0 <= i < |log| ==> more[i] == log[i];
    assert more[|log|] == e;
    if Started(log, c) {
      var i :| 0 <= i < |log| && D.IsStartOf(log[i], c);
      assert D.IsStartOf(more[i], c);
    }
    if Undisturbed(more, c) {
      forall i, j | 0 <= i < j < |log| && D.IsStartOf(log[i], c)
        ensures !D.Alters(log[j], c)
      {
        assert D.IsStartOf(more[i], c) && more[j] == log[j];
      }
    }
  }

  // ---------------------------------------------------------------- one lemma per kind of step

  /** The host sends its packet, whole or cut short. */
  lemma SendKeeps(v: View, k: nat)
    requires HostInv(v) && v.h.pc.Ready? && !v.h.pc.ph.Done?
    requires k <= |H.Packet(v.h.fw, TCP_CHUNK, v.h.pc.ph)|
    ensures var pkt := H.Packet(v.h.fw, TCP_CHUNK, v.h.pc.ph);
            var sent := v.(inb := v.inb + pkt[..k]);
            && (k == |pkt| ==> HostInv(sent.(h := v.h.(pc := Waiting(v.h.pc.ph)))))
            && HostInv(sent.(h := v.h.(pc := Failed(v.h.pc.ph, false, false))))
  {
    var pkt := H.Packet(v.h.fw, TCP_CHUNK, v.h.pc.ph);
    assert v.inb + pkt[..k] == pkt[..k];
    assert k == |pkt| ==> pkt[..k] == pkt;
    if v.h.pc.ph.Sending? {
      assert v.h.fw[..v.h.pc.ph.offset] <= v.h.fw[..H.ChunkEnd(v.h.fw, TCP_CHUNK, v.h.pc.ph.offset)];
    }
  }

  /** The device takes the request off the stream: by WireOk it is one message and fits the buffer. */
  lemma ReceiveKeeps(v: View)
    requires HostInv(v) && v.inb != [] && v.job == NoJob && !v.committed
    ensures |v.inb| <= MTU_SIZE
    ensures HostInv(v.(inb := [], job := Got(v.inb)))
  {
  }

  /** The flash call for this host's own request. */
  lemma OperateOwnKeeps(v: View, o: D.Outcome)
    requires HostInv(v) && v.job.Got? && v.job.buf != [] && !v.committed
    ensures var req, payload := v.job.buf[0], v.job.buf[1..];
            var e := D.Record(v.h.conn, req, payload, o);
            HostInv(v.(flash := D.Operate(v.flash, req, payload, o), log := v.log + [e],
                       job := Answering(D.ReplyTo(e))))
  {
    var c, fw, ph := v.h.conn, v.h.fw, v.h.pc.ph;
    var req, payload := v.job.buf[0], v.job.buf[1..];
    var e := D.Record(c, req, payload, o);
    LogGrows(v.log, e, c);
    var pkt := H.Packet(fw, TCP_CHUNK, ph);
    assert req == pkt[0] == H.Cmd(ph);
    if ph.Sending? {
      assert payload <= pkt[1..] == fw[ph.offset..H.ChunkEnd(fw, TCP_CHUNK, ph.offset)];
      AppendChunk(fw, ph.offset, H.ChunkEnd(fw, TCP_CHUNK, ph.offset), payload, D.Taken(payload, o));
    }
  }

  /** Appending some of the next chunk's bytes to an acknowledged prefix gives a longer prefix. */
  lemma AppendChunk(fw: seq<Byte>, off: nat, end: nat, payload: seq<Byte>, k: nat)
    requires off <= end <= |fw| && payload <= fw[off..end] && k <= |payload|
    ensures fw[..off] <= fw[..off] + payload[..k] <= fw[..end]
    ensures payload == fw[off..end] && k == |payload| ==> fw[..off] + payload[..k] == fw[..end]
  {
    assert payload[..k] == fw[off..off + k];
    assert fw[..off] + fw[off..off + k] == fw[..off + k];
  }

  /** The flash call for somebody else's request. */
  lemma OperateOtherKeeps(v: View, e: D.Entry, req: Byte, payload: seq<Byte>, o: D.Outcome)
    requires HostInv(v) && !v.committed && v.job == NoJob
    requires e.conn != v.h.conn && e == D.Record(e.conn, req, payload, o)
    ensures HostInv(v.(flash := D.Operate(v.flash, req, payload, o), log := v.log + [e]))
  {
    var c, f := v.h.conn, D.Operate(v.flash, req, payload, o);
    var w := v.(flash := f, log := v.log + [e]);
    LogGrows(v.log, e, c);
    assert !D.Alters(e, c) ==> f.staged == v.flash.staged;
    assert WireOk(w);
    assert !(v.h.pc.Waiting? && v.h.pc.ph == H.Ending && !OnItsWay(v) && LastOk(v.log, c));
    assert ImageOk(w);
  }

  /** The reply to this host's request, of which the socket takes k bytes. */
  lemma ReplyOwnKeeps(v: View, k: nat, final: bool)
    requires HostInv(v) && v.job.Answering? && k <= |v.job.msg| && !v.committed
    requires final ==> v.flash.written == |v.flash.staged|
    requires v.h.pc.Waiting? && v.h.pc.ph == H.Ending && LastOk(v.log, v.h.conn) ==> final
    ensures HostInv(v.(out := v.out + v.job.msg[..k], job := NoJob, committed := final))
  {
    assert v.h.pc.Waiting? ==> v.out + v.job.msg[..k] == v.job.msg[..k];
  }

  /** Two reply bytes have arrived and the host looks at them. */
  lemma AckKeeps(v: View)
    requires HostInv(v) && v.h.pc.Waiting? && |v.out| >= 2
    ensures v.out[..2] == v.out == [H.Cmd(v.h.pc.ph), Status(LastOk(v.log, v.h.conn))]
    ensures HostInv(v.(h := Judge(v.h, v.out[..2]), out := v.out[2..]))
  {
    var fw, ph := v.h.fw, v.h.pc.ph;
    H.PhaseAdvances(fw, TCP_CHUNK, ph);
    if ph.Sending? {
      var end := H.ChunkEnd(fw, TCP_CHUNK, ph.offset);
      assert end == |fw| ==> fw[..end] == fw;
    }
    if ph == H.Starting {
      assert fw[..0] == [];
    }
  }

  lemma GiveUpKeeps(v: View)
    requires HostInv(v) && v.h.pc.Waiting?
    ensures HostInv(v.(h := v.h.(pc := Failed(v.h.pc.ph, false, true))))
  {
  }

  lemma FreshStartKeeps(v: View, fw: seq<Byte>, c: Conn)
    requires HostInv(v)
    ensures HostInv(View(Host(fw, c, Ready(H.Starting), 0), [], [], NoJob, v.flash, v.log, v.committed))
  {
  }

  // ---------------------------------------------------------------- the whole invariant

  ghost predicate Inv(s: System) {
    FreshOk(s) && TaskOk(s) && LogOk(s) && HostInv(ViewOf(s))
  }

  lemma InitInv(s: System)
    requires Init(s)
    ensures Inv(s)
  {
    S.InitInv(s.srv);
  }

  lemma StepInv(s: System, step: Step)
    requires Inv(s) && Enabled(s, step)
    ensures Inv(Apply(s, step))
  {
    FreshStep(s, step);
    TaskStep(s, step);
    LogStep(s, step);
    HostStep(s, step);
  }

  /** What a recv changes of what concerns the host. */
  lemma ReceiveView(s: System)
    requires Inv(s) && Enabled(s, Receive)
    ensures var v, own := ViewOf(s), s.srv.open[s.srv.poll[s.srv.han.i]] == s.host.conn;
            && v.job == NoJob && !v.committed && (own ==> v.inb != [])
            && ViewOf(Apply(s, Receive)) == (if own then v.(inb := [], job := Got(v.inb)) else v)
  {
    var v := ViewOf(s);
    EntryConnection(s);
    if s.srv.open[s.srv.poll[s.srv.han.i]] == s.host.conn {
      ReceiveKeeps(v);
      assert v.inb[..|v.inb|] == v.inb && v.inb[|v.inb|..] == [];
    }
  }

  lemma ReceiveStep(s: System)
    requires Inv(s) && Enabled(s, Receive)
    ensures HostInv(ViewOf(Apply(s, Receive)))
  {
    ReceiveView(s);
    hide HostInv, FreshOk, TaskOk, LogOk, ViewOf, Apply;
    if s.srv.open[s.srv.poll[s.srv.han.i]] == s.host.conn {
      ReceiveKeeps(ViewOf(s));
    }
  }

  /** What the flash call changes of it. */
  lemma OperateView(s: System, o: D.Outcome)
    requires Inv(s) && Enabled(s, Operate(o))
    ensures var v, req, payload := ViewOf(s), s.task.buf[0], s.task.buf[1..];
            var e := D.Record(s.task.conn, req, payload, o);
            var w := v.(flash := D.Operate(v.flash, req, payload, o), log := v.log + [e]);
            && !v.committed && Apply(s, Operate(o)).log == s.log + [e]
            && v.job == (if s.task.conn == s.host.conn then Got(s.task.buf) else NoJob)
            && ViewOf(Apply(s, Operate(o))) ==
                 (if s.task.conn == s.host.conn then w.(job := Answering(D.ReplyTo(e))) else w)
  {
  }

  lemma OperateStep(s: System, o: D.Outcome)
    requires Inv(s) && Enabled(s, Operate(o))
    ensures HostInv(ViewOf(Apply(s, Operate(o))))
  {
    OperateView(s, o);
    hide HostInv, FreshOk, TaskOk, LogOk, ViewOf, Apply;
    var req, payload := s.task.buf[0], s.task.buf[1..];
    if s.task.conn == s.host.conn {
      OperateOwnKeeps(ViewOf(s), o);
    } else {
      OperateOtherKeeps(ViewOf(s), D.Record(s.task.conn, req, payload, o), req, payload, o);
    }
  }

  lemma ReplyStep(s: System, k: nat)
    requires Inv(s) && Enabled(s, SendReply(k))
    ensures HostInv(ViewOf(Apply(s, SendReply(k))))
  {
    var v := ViewOf(s);
    ReplyView(s, k);
    if s.task.conn == s.host.conn {
      AnsweredEntry(s);
      ReplyOwnKeeps(v, k, s.task.final);
    } else {
      OthersReplyKeeps(v, s.task.final);
    }
  }

  /** What sending a reply changes of what concerns the host. */
  lemma ReplyView(s: System, k: nat)
    requires Inv(s) && Enabled(s, SendReply(k))
    ensures var v, final := ViewOf(s), s.task.final;
            && !v.committed && (final ==> v.flash.written == |v.flash.staged|)
            && ViewOf(Apply(s, SendReply(k))) ==
                 (if s.task.conn == s.host.conn
                  then v.(out := v.out + s.task.msg[..k], job := NoJob, committed := final)
                  else v.(committed := final))
            && (s.task.conn == s.host.conn ==> v.job == Answering(s.task.msg))
            && (s.task.conn != s.host.conn ==> v.job == NoJob)
  {
    TaskConnection(s);
  }

  lemma OthersReplyKeeps(v: View, final: bool)
    requires HostInv(v) && !v.committed && v.job == NoJob && (final ==> v.flash.written == |v.flash.staged|)
    ensures HostInv(v.(committed := final))
  {
  }

  lemma HostSideStep(s: System, step: Step)
    requires Inv(s) && Enabled(s, step)
    requires step.HostSend? || step.HostSendShort? || step.HostRecv? || step.HostRecvFail?
    ensures HostInv(ViewOf(Apply(s, step)))
  {
    var t, v := Apply(s, step), ViewOf(s);
    match step
    case HostSend =>
      SendKeeps(v, |HostPacket(s)|);
      assert ViewOf(t) == v.(inb := v.inb + HostPacket(s)[..|HostPacket(s)|], h := t.host);
    case HostSendShort(k) =>
      SendKeeps(v, k);
      assert ViewOf(t) == v.(inb := v.inb + HostPacket(s)[..k], h := t.host);
    case HostRecv =>
      AckKeeps(v);
      assert ViewOf(t) == v.(h := Judge(v.h, v.out[..2]), out := v.out[2..]);
    case HostRecvFail => GiveUpKeeps(v);
  }

  lemma RestartStep(s: System, fw: seq<Byte>)
    requires Inv(s) && Enabled(s, HostRestart(fw))
    ensures HostInv(ViewOf(Apply(s, HostRestart(fw))))
  {
    FreshStartKeeps(ViewOf(s), fw, s.born);
    if s.task.Request? || s.task.Reply? {
      TaskConnection(s);
    }
  }

  /** Steps of the server and of other clients change nothing the host-side invariant looks at. */
  lemma ElsewhereStep(s: System, step: Step)
    requires Inv(s) && Enabled(s, step)
    requires step.Server? || step.AcceptConn? || step.RequestUpgrade? || step.Reboot? || step.ClientConnect?
             || step.ClientSend?
    ensures HostInv(ViewOf(Apply(s, step)))
  {
    assert ViewOf(Apply(s, step)) == ViewOf(s);
  }

  lemma HostStep(s: System, step: Step)
    requires Inv(s) && Enabled(s, step)
    ensures HostInv(ViewOf(Apply(s, step)))
  {
    hide Inv, HostInv, ViewOf;
    match step
    case Receive => ReceiveStep(s);
    case Operate(o) => OperateStep(s, o);
    case SendReply(k) => ReplyStep(s, k);
    case HostSend => HostSideStep(s, step);
    case HostSendShort(k) => HostSideStep(s, step);
    case HostRecv => HostSideStep(s, step);
    case HostRecvFail => HostSideStep(s, step);
    case HostRestart(fw) => RestartStep(s, fw);
    case _ => ElsewhereStep(s, step);
  }

  /** While a reply is being sent, the last log entry is the request it answers. */
  lemma AnsweredEntry(s: System)
    requires Inv(s) && s.task.Reply? && s.task.conn == s.host.conn
    ensures LastOk(s.log, s.host.conn) == Last(s.log).ok
    ensures s.host.pc.Waiting? && s.host.pc.ph == H.Ending && LastOk(s.log, s.host.conn) ==> s.task.final
  {
    var v := ViewOf(s);
    assert v.job == Answering(s.task.msg);
    assert s.task.msg[0] == Last(s.log).req;
  }

  lemma {:induction false} RunInv(s: System, steps: seq<Step>)
    requires Inv(s) && Executable(s, steps)
    ensures Inv(Exec(s, steps))
    decreases |steps|
  {
    if steps != [] {
      StepInv(s, steps[0]);
      RunInv(Apply(s, steps[0]), steps[1..]);
    }
  }
}
