/** What every run of the composed update system guarantees. */
module UpdateTheorems {
  import opened Protocol
  import opened UpdateSystem
  import opened UpdateProof
  import opened Chunking
  import S = ServerThreads
  import D = Dfu
  import H = HostSession

  lemma Reachable(s: System, steps: seq<Step>)
    requires Init(s) && Executable(s, steps)
    ensures Inv(Exec(s, steps))
  {
    InitInv(s);
    RunInv(s, steps);
  }

  predicate Succeeded(h: Host) {
    h.pc == Ready(H.Done)
  }

  /**
    * End to end: whatever the server threads interleave and whatever other connections do, if the
    * host has seen its DFU_END acknowledged and no other connection altered the staging area since
    * its DFU_START, the image on flash is its firmware, byte for byte, and all the device still does
    * is reboot into it. What was staged beforehand does not matter.
    */
  lemma AcknowledgedImageIsFirmware(s: System, steps: seq<Step>)
    requires Init(s) && Executable(s, steps)
    requires var t := Exec(s, steps); Succeeded(t.host) && Undisturbed(t.log, t.host.conn)
    ensures var t := Exec(s, steps); D.Image(t.flash) == t.host.fw && Committed(t)
  {
    Reachable(s, steps);
    var t := Exec(s, steps);
    assert t.flash.staged == t.host.fw && t.flash.written == |t.flash.staged|;
  }

  /** Bytes the host has seen acknowledged. */
  function Acked(h: Host): nat {
    match h.pc.ph
    case Starting => 0
    case Sending(off) => off
    case Ending => |h.fw|
    case Done => |h.fw|
  }

  /** The request of the current exchange is still in the stream or in the handler's hands. */
  predicate Unhandled(s: System) {
    Get(s.inbox, s.host.conn) != [] || (s.task.Request? && s.task.conn == s.host.conn)
  }

  /**
    * Framing without length fields: when the handler reads the updating host's stream it gets one
    * whole message and leaves nothing behind, because the stream never holds two. While a request
    * waits there is no reply in the other direction, and none being produced.
    */
  lemma OneWholeMessagePerRecv(s: System, steps: seq<Step>)
    requires Init(s) && Executable(s, steps)
    requires var t := Exec(s, steps);
             CanReceive(t) && t.srv.open[t.srv.poll[t.srv.han.i]] == t.host.conn
    ensures var t := Exec(s, steps);
            var u := DoReceive(t);
            && HostPhaseOk(t)
            && u.task.conn == t.host.conn && u.task.buf == Get(t.inbox, t.host.conn)
            && Get(u.inbox, t.host.conn) == []
            && |HostPacket(t)| <= MTU_SIZE
            && (t.host.pc.Waiting? ==> u.task.buf == HostPacket(t) && Get(t.outbox, t.host.conn) == [])
            && (t.host.pc.Failed? ==> u.task.buf <= HostPacket(t))
            && !t.host.pc.Ready?
  {
    Reachable(s, steps);
    var t := Exec(s, steps);
    EntryConnection(t);
    assert ViewOf(t).inb != [];
  }

  /**
    * The host never sees an acknowledgement for another command: the two bytes it reads echo its own
    * request and report the result of its own last command, and nothing follows them.
    */
  lemma AcknowledgementMatches(s: System, steps: seq<Step>)
    requires Init(s) && Executable(s, steps) && Enabled(Exec(s, steps), HostRecv)
    ensures var t := Exec(s, steps);
            && Get(t.outbox, t.host.conn) == [H.Cmd(t.host.pc.ph), Status(LastOk(t.log, t.host.conn))]
            && (Apply(t, HostRecv).host.pc.Failed? <==> !LastOk(t.log, t.host.conn))
            && (Apply(t, HostRecv).host.pc.Failed? ==> Apply(t, HostRecv).host.pc.answered)
  {
    Reachable(s, steps);
    AckKeeps(ViewOf(Exec(s, steps)));
  }

  lemma ScriptPosition(v: View)
    requires CountOk(v) && !v.h.pc.ph.Done?
    ensures var script := H.Script(v.h.fw, TCP_CHUNK);
            && v.h.acks < |script| == 2 + CeilDiv(|v.h.fw|, TCP_CHUNK)
            && H.Packet(v.h.fw, TCP_CHUNK, v.h.pc.ph) == script[v.h.acks]
  {
    H.PhaseFollowsScript(v.h.fw, TCP_CHUNK, v.h.pc.ph);
    H.ScriptLength(v.h.fw, TCP_CHUNK);
    H.PhaseAdvances(v.h.fw, TCP_CHUNK, v.h.pc.ph);
    hide H.Script, H.Packet, H.ExchangesLeft, H.NextPhase, CeilDiv;
  }

  /** Every packet the host sends is the next one of its script, by number of acknowledgements. */
  lemma HostFollowsScript(s: System, steps: seq<Step>)
    requires Init(s) && Executable(s, steps) && Enabled(Exec(s, steps), HostSend)
    ensures var t := Exec(s, steps);
            var script := H.Script(t.host.fw, TCP_CHUNK);
            && t.host.acks < |script| == 2 + CeilDiv(|t.host.fw|, TCP_CHUNK)
            && HostPacket(t) == script[t.host.acks]
  {
    Reachable(s, steps);
    ScriptPosition(ViewOf(Exec(s, steps)));
  }

  /** Replies match handled requests one for one, in order, to the connection that asked. */
  lemma RepliesMatchRequests(s: System, steps: seq<Step>)
    requires Init(s) && Executable(s, steps)
    ensures var t := Exec(s, steps);
            && |t.replies| <= |t.log| <= |t.replies| + 1
            && (|t.log| == |t.replies| + 1 <==> t.task.Reply?)
            && (forall i :: 0 <= i < |t.replies| ==>
                  t.replies[i] == Sent(To(t.log[i].conn), [t.log[i].req, Status(t.log[i].ok)]))
            && (forall i :: 0 <= i < |t.log| && t.log[i].ok ==> Recognised(t.log[i].req))
  {
    Reachable(s, steps);
  }

  /**
    * The staging area is a log of the DFU_DOWNLOAD payloads handled since the last successful
    * DFU_START, whoever sent them, in every run in which no write failed.
    */
  lemma StagedIsLogOfPayloads(s: System, steps: seq<Step>, from: nat)
    requires Init(s) && Executable(s, steps)
    requires var t := Exec(s, steps); D.NoWriteFailed(t.log) && D.SinceLastStart(t.log, from)
    ensures var t := Exec(s, steps);
            t.flash.staged == (if from == 0 then s.flash.staged else []) + Flatten(D.Payloads(t.log[from..]))
  {
    Reachable(s, steps);
    InitialKept(s, steps);
    D.StagedIsConcatenation(s.flash.staged, Exec(s, steps).log, from);
  }

  lemma {:induction false} InitialKept(s: System, steps: seq<Step>)
    requires Executable(s, steps)
    ensures Exec(s, steps).initial == s.initial
    decreases |steps|
  {
    if steps != [] {
      InitialKept(Apply(s, steps[0]), steps[1..]);
    }
  }

  /** The last command handled was a DFU_END whose flush worked. */
  predicate EndedWell(log: seq<D.Entry>) {
    log != [] && Last(log).req == DFU_END && Last(log).ok
  }

  lemma RebootSafeNow(t: System)
    requires Inv(t)
    ensures t.srv.han.Halted? || t.task.Restart? ==> t.upgraded
    ensures t.srv.han.Halted? || t.task.Restart? || t.task.Upgrade? ==>
              && EndedWell(t.log) && |t.replies| == |t.log|
              && t.replies[|t.log| - 1] == Sent(To(Last(t.log).conn), [DFU_END, SUCCESS])
              && D.Image(t.flash) == t.flash.staged
    ensures forall k :: Enabled(t, SendReply(k)) && !EndedWell(t.log) ==>
              Apply(t, SendReply(k)).task == NoTask && Apply(t, SendReply(k)).srv.han.Walking?
  {
    hide HostInv, FreshOk;
    assert t.flash.written == |t.flash.staged| ==> t.flash.staged[..t.flash.written] == t.flash.staged;
  }

  /**
    * A device that reboots has, in this order, flushed successfully as the last command it handled,
    * attempted the success reply for it, and requested the upgrade; nothing was staged in between, so
    * everything staged is on flash. After any other command the reply leads back to the handler's loop.
    */
  lemma RebootIsSafe(s: System, steps: seq<Step>)
    requires Init(s) && Executable(s, steps)
    ensures var t := Exec(s, steps);
            && (t.srv.han.Halted? || t.task.Restart? ==> t.upgraded)
            && (t.srv.han.Halted? || t.task.Restart? || t.task.Upgrade? ==>
                  && EndedWell(t.log)
                  && |t.replies| == |t.log|
                  && t.replies[|t.log| - 1] == Sent(To(Last(t.log).conn), [DFU_END, SUCCESS])
                  && D.Image(t.flash) == t.flash.staged)
            && (forall k :: Enabled(t, SendReply(k)) && !EndedWell(t.log) ==>
                  Apply(t, SendReply(k)).task == NoTask && Apply(t, SendReply(k)).srv.han.Walking?)
  {
    Reachable(s, steps);
    hide Executable, Exec, Init;
    RebootSafeNow(Exec(s, steps));
  }

  /**
    * Taken one system call at a time, with other steps possible in between, the handler does what the
    * update handlers do in one go: the same flash state, the same reply to the descriptor's connection,
    * and on to the upgrade request and the reboot in the same cases.
    */
  lemma HandlerStepsAreEffects(s: System, o: D.Outcome, k: nat)
    requires Inv(s) && s.task.Request? && k <= 2
    ensures var fd, req, payload := s.task.fd, s.task.buf[0], s.task.buf[1..];
            var es := D.EffectsOf(fd, req, payload, o.ok);
            && Enabled(s, Operate(o))
            && var t := Apply(s, Operate(o));
               && Enabled(t, SendReply(k))
               && D.Send(fd, t.task.msg) in es
               && t.flash == D.Operate(s.flash, req, payload, o)
               && var u := Apply(t, SendReply(k));
                  && u.replies == s.replies + [Sent(To(s.task.conn), t.task.msg)]
                  && (u.task.Upgrade? <==> D.Reboot in es)
                  && (!u.task.Upgrade? ==> u.task == NoTask && u.srv == S.Apply(s.srv, S.Return))
                  && (u.task.Upgrade? ==>
                        && Enabled(u, RequestUpgrade) && Enabled(Apply(u, RequestUpgrade), Reboot)
                        && Apply(Apply(u, RequestUpgrade), Reboot).srv.han.Halted?)
  {
    var fd, req, payload := s.task.fd, s.task.buf[0], s.task.buf[1..];
    D.EffectsDisciplined(fd, s.task.conn, req, payload, o);
    TaskConnection(s);
    var e := D.Record(s.task.conn, req, payload, o);
    var es := D.EffectsOf(fd, req, payload, o.ok);
    assert D.Send(fd, D.ReplyTo(e)) in es;
  }

  // ---------------------------------------------------------------- earlier attempts

  /** Connections that are not the host's never had a recognised command handled. */
  ghost predicate Polite(s: System) {
    forall i :: 0 <= i < |s.log| && s.log[i].conn !in s.hostConns ==> !Recognised(s.log[i].req)
  }

  /** Nothing of an earlier attempt is still on its way to the handler. */
  ghost predicate NothingLeftOver(s: System) {
    forall o :: o in s.hostConns && o != s.host.conn ==> Get(s.inbox, o) == [] && !JobOf(s.task, o).Got?
  }

  ghost predicate TidyOk(s: System) {
    s.tidy && Polite(s) ==> NothingLeftOver(s) && Undisturbed(s.log, s.host.conn)
  }

  lemma UndisturbedGrows(log: seq<D.Entry>, e: D.Entry, c: Conn)
    requires Undisturbed(log, c) && !D.Alters(e, c)
    ensures Undisturbed(log + [e], c)
  {
    var more := log + [e];
    forall i, j | 0 <= i < j < |more| && D.IsStartOf(more[i], c)
      ensures !D.Alters(more[j], c)
    {
      assert more[i] == log[i];
    }
  }

  /** Politeness looks back: it held before any step after which it holds. */
  lemma PoliteBefore(s: System, step: Step)
    requires Inv(s) && Enabled(s, step) && Polite(Apply(s, step))
    ensures Polite(s)
  {
    var t := Apply(s, step);
    forall i | 0 <= i < |s.log| && s.log[i].conn !in s.hostConns
      ensures !Recognised(s.log[i].req)
    {
      assert t.log[i] == s.log[i];
      assert s.log[i].conn < s.born;
    }
  }

  lemma TidyOperate(s: System, o: D.Outcome)
    requires Inv(s) && Enabled(s, Operate(o)) && NothingLeftOver(s) && Undisturbed(s.log, s.host.conn)
    requires Polite(Apply(s, Operate(o)))
    ensures NothingLeftOver(Apply(s, Operate(o))) && Undisturbed(Apply(s, Operate(o)).log, s.host.conn)
  {
    var t := Apply(s, Operate(o));
    assert JobOf(s.task, s.task.conn).Got?;
    assert t.log[|s.log|] == Last(t.log);
    UndisturbedGrows(s.log, Last(t.log), s.host.conn);
  }

  lemma TidyRestart(s: System, fw: seq<Byte>)
    requires Inv(s) && Enabled(s, HostRestart(fw)) && NothingLeftOver(s)
    requires Apply(s, HostRestart(fw)).tidy
    ensures NothingLeftOver(Apply(s, HostRestart(fw)))
    ensures Undisturbed(s.log, s.born)
  {
    assert WireOk(ViewOf(s));
    assert s.task.Request? ==> s.task.conn < s.born by {
      if s.task.Request? {
        TaskConnection(s);
      }
    }
  }

  lemma TidyStep(s: System, step: Step)
    requires Inv(s) && TidyOk(s) && Enabled(s, step)
    ensures TidyOk(Apply(s, step))
  {
    if Apply(s, step).tidy && Polite(Apply(s, step)) {
      PoliteBefore(s, step);
      assert Apply(s, step).tidy ==> s.tidy;
      TidyKept(s, step);
    }
  }

  lemma TidyKept(s: System, step: Step)
    requires Inv(s) && Enabled(s, step) && NothingLeftOver(s) && Undisturbed(s.log, s.host.conn)
    requires Apply(s, step).tidy && Polite(Apply(s, step))
    ensures NothingLeftOver(Apply(s, step)) && Undisturbed(Apply(s, step).log, Apply(s, step).host.conn)
  {
    hide Inv, Polite, NothingLeftOver, Undisturbed;
    match step
    case Operate(o) => TidyOperate(s, o);
    case HostRestart(fw) => TidyRestart(s, fw);
    case Receive => TidyReceive(s);
    case Server(_) => TidyServer(s, step);
    case _ => TidyElsewhere(s, step);
  }

  lemma TidyServer(s: System, step: Step)
    requires Enabled(s, step) && NothingLeftOver(s) && step.Server?
    ensures NothingLeftOver(Apply(s, step))
  {
  }

  lemma TidyReceive(s: System)
    requires Inv(s) && CanReceive(s) && NothingLeftOver(s)
    ensures NothingLeftOver(DoReceive(s))
  {
    EntryConnection(s);
  }

  /** The remaining steps put nothing into the streams of earlier attempts. */
  lemma TidyElsewhere(s: System, step: Step)
    requires Inv(s) && Enabled(s, step) && NothingLeftOver(s)
    requires !step.Operate? && !step.HostRestart? && !step.Receive? && !step.Server?
    ensures NothingLeftOver(Apply(s, step))
  {
  }

  lemma {:induction false} TidyRun(s: System, steps: seq<Step>)
    requires Inv(s) && TidyOk(s) && Executable(s, steps)
    ensures TidyOk(Exec(s, steps))
    decreases |steps|
  {
    if steps != [] {
      StepInv(s, steps[0]);
      TidyStep(s, steps[0]);
      TidyRun(Apply(s, steps[0]), steps[1..]);
    }
  }

  /**
    * Restarting: after any number of earlier attempts, each of which succeeded or ended with a FAILED
    * reply, and as long as other clients only had unrecognised commands handled, an attempt the host
    * sees succeed leaves exactly that attempt's firmware on flash, however much was staged before.
    */
  lemma RestartedAttemptIsExact(s: System, steps: seq<Step>)
    requires Init(s) && Executable(s, steps)
    requires var t := Exec(s, steps); t.tidy && Polite(t) && Succeeded(t.host)
    ensures var t := Exec(s, steps); D.Image(t.flash) == t.host.fw && Undisturbed(t.log, t.host.conn)
  {
    InitInv(s);
    TidyRun(s, steps);
    AcknowledgedImageIsFirmware(s, steps);
  }

  // ---------------------------------------------------------------- the server inside the system

  /** The server's part in one step of the system. */
  function ServerPart(s: System, step: Step): seq<S.Step>
    requires Enabled(s, step)
  {
    match step
    case Server(st) => [st]
    case AcceptConn(fd, conn) => [S.Accept(fd, conn)]
    case Receive => [S.Visit(S.Got)]
    case SendReply(_) => if s.task.final then [] else [S.Return]
    case Reboot => [S.Halt]
    case _ => []
  }

  function ServerParts(s: System, steps: seq<Step>): seq<S.Step>
    requires Executable(s, steps)
    decreases |steps|
  {
    if steps == [] then [] else ServerPart(s, steps[0]) + ServerParts(Apply(s, steps[0]), steps[1..])
  }

  lemma ServerPartStep(s: System, step: Step)
    requires Enabled(s, step)
    ensures var part := ServerPart(s, step);
            && |part| <= 1
            && (part == [] ==> Apply(s, step).srv == s.srv)
            && (part != [] ==> S.Enabled(s.srv, part[0]) && S.Apply(s.srv, part[0]) == Apply(s, step).srv)
  {
  }

  /**
    * Every run of the whole system is, seen by the server, a run of its two threads: all that holds
    * of server runs holds of the server inside the system.
    */
  lemma {:induction false} SystemRunsServer(s: System, steps: seq<Step>)
    requires Executable(s, steps)
    ensures S.Executable(s.srv, ServerParts(s, steps))
    ensures S.Exec(s.srv, ServerParts(s, steps)) == Exec(s, steps).srv
    decreases |steps|
  {
    if steps != [] {
      ServerPartStep(s, steps[0]);
      SystemRunsServer(Apply(s, steps[0]), steps[1..]);
      var part, rest := ServerPart(s, steps[0]), ServerParts(Apply(s, steps[0]), steps[1..]);
      if part == [] {
        assert part + rest == rest;
      } else {
        assert (part + rest)[1..] == rest;
      }
    }
  }

  // ---------------------------------------------------------------- progress

  /** Steps of the host's own round trips: send, recv by the device, flash call, reply, acknowledgement. */
  predicate IsOwn(s: System, step: Step)
    requires Enabled(s, step)
  {
    match step
    case HostSend => true
    case HostRecv => true
    case Receive => s.srv.open[s.srv.poll[s.srv.han.i]] == s.host.conn
    case Operate(_) => s.task.conn == s.host.conn
    case SendReply(_) => s.task.conn == s.host.conn
    case _ => false
  }

  /** Five own steps per outstanding exchange, less those the current one has already made. */
  function Remaining(h: Host, inb: seq<Byte>, job: Job): nat
    requires H.PhaseOk(h.fw, TCP_CHUNK, h.pc.ph)
  {
    var left := H.ExchangesLeft(h.fw, TCP_CHUNK, h.pc.ph);
    if !h.pc.Waiting? || left == 0 then 5 * left
    else if inb != [] then 5 * (left - 1) + 4
    else if job.Got? then 5 * (left - 1) + 3
    else if job.Answering? then 5 * (left - 1) + 2
    else 5 * (left - 1) + 1
  }

  function RemainingIn(s: System): nat
    requires H.PhaseOk(s.host.fw, TCP_CHUNK, s.host.pc.ph)
  {
    Remaining(s.host, Get(s.inbox, s.host.conn), JobOf(s.task, s.host.conn))
  }

  lemma OwnHostStep(s: System, step: Step)
    requires Inv(s) && Enabled(s, step) && (step.HostSend? || step.HostRecv?)
    requires !Apply(s, step).host.pc.Failed?
    ensures var t := Apply(s, step);
            && H.PhaseOk(t.host.fw, TCP_CHUNK, t.host.pc.ph)
            && RemainingIn(t) == RemainingIn(s) - 1
  {
    var v, t := ViewOf(s), Apply(s, step);
    H.PhaseAdvances(s.host.fw, TCP_CHUNK, s.host.pc.ph);
    if step.HostRecv? {
      AckKeeps(v);
      assert v.inb == [] && v.job == NoJob;
    } else {
      assert Get(t.inbox, s.host.conn) == HostPacket(s);
    }
  }

  lemma ReceiveCounts(s: System)
    requires Inv(s) && Enabled(s, Receive) && !s.host.pc.Failed?
    ensures HostPhaseOk(s)
    ensures RemainingIn(Apply(s, Receive)) == RemainingIn(s) - (if IsOwn(s, Receive) then 1 else 0)
  {
    var v, t := ViewOf(s), Apply(s, Receive);
    assert WireOk(v);
    EntryConnection(s);
    if IsOwn(s, Receive) {
      ReceiveKeeps(v);
      assert Get(t.inbox, s.host.conn) == [];
    }
  }

  lemma OperateCounts(s: System, o: D.Outcome)
    requires Inv(s) && Enabled(s, Operate(o)) && !s.host.pc.Failed?
    ensures HostPhaseOk(s)
    ensures RemainingIn(Apply(s, Operate(o))) == RemainingIn(s) - (if IsOwn(s, Operate(o)) then 1 else 0)
  {
    assert WireOk(ViewOf(s));
    TaskConnection(s);
  }

  lemma ReplyCounts(s: System, k: nat)
    requires Inv(s) && Enabled(s, SendReply(k)) && !s.host.pc.Failed?
    ensures HostPhaseOk(s)
    ensures RemainingIn(Apply(s, SendReply(k))) == RemainingIn(s) - (if IsOwn(s, SendReply(k)) then 1 else 0)
  {
    assert WireOk(ViewOf(s));
    TaskConnection(s);
  }

  lemma ElsewhereCounts(s: System, step: Step)
    requires Inv(s) && Enabled(s, step) && !s.host.pc.Failed? && !Apply(s, step).host.pc.Failed?
    requires step.Server? || step.AcceptConn? || step.RequestUpgrade? || step.Reboot? || step.ClientConnect?
             || step.ClientSend? || step.HostSendShort? || step.HostRecvFail?
    ensures var t := Apply(s, step); t.host == s.host && HostPhaseOk(s) && RemainingIn(t) == RemainingIn(s)
  {
    assert WireOk(ViewOf(s));
  }

  /** Own steps lower the measure by exactly one; no other step of a live session changes it. */
  lemma OwnStepsCountDown(s: System, step: Step)
    requires Inv(s) && Enabled(s, step) && !step.HostRestart?
    requires !s.host.pc.Failed? && !Apply(s, step).host.pc.Failed?
    ensures var t := Apply(s, step);
            && H.PhaseOk(t.host.fw, TCP_CHUNK, t.host.pc.ph) && t.host.fw == s.host.fw
            && RemainingIn(t) == RemainingIn(s) - (if IsOwn(s, step) then 1 else 0)
  {
    hide Inv, RemainingIn;
    match step
    case HostSend => OwnHostStep(s, step);
    case HostRecv => OwnHostStep(s, step);
    case Receive => ReceiveCounts(s);
    case Operate(o) => OperateCounts(s, o);
    case SendReply(k) => ReplyCounts(s, k);
    case _ => ElsewhereCounts(s, step);
  }

  function OwnSteps(s: System, steps: seq<Step>): nat
    requires Executable(s, steps)
    decreases |steps|
  {
    if steps == [] then 0
    else (if IsOwn(s, steps[0]) then 1 else 0) + OwnSteps(Apply(s, steps[0]), steps[1..])
  }

  /** The host neither gives up nor is restarted along the run. */
  predicate Unbroken(s: System, steps: seq<Step>)
    requires Executable(s, steps)
    decreases |steps|
  {
    !s.host.pc.Failed? &&
    (steps == [] || (!steps[0].HostRestart? && Unbroken(Apply(s, steps[0]), steps[1..])))
  }

  lemma {:induction false} OwnStepsRun(s: System, steps: seq<Step>)
    requires Inv(s) && Executable(s, steps) && Unbroken(s, steps)
    ensures var t := Exec(s, steps);
            && H.PhaseOk(t.host.fw, TCP_CHUNK, t.host.pc.ph) && t.host.fw == s.host.fw
            && OwnSteps(s, steps) + RemainingIn(t) == RemainingIn(s)
    decreases |steps|
  {
    if steps != [] {
      StepInv(s, steps[0]);
      OwnStepsCountDown(s, steps[0]);
      OwnStepsRun(Apply(s, steps[0]), steps[1..]);
    }
  }

  lemma LengthFacts(s: System)
    requires Inv(s)
    ensures var total := 2 + CeilDiv(|s.host.fw|, TCP_CHUNK);
            && HostPhaseOk(s) && s.host.acks <= total
            && (Succeeded(s.host) <==> s.host.acks == total)
            && (!s.host.pc.Failed? ==> (Succeeded(s.host) <==> RemainingIn(s) == 0))
            && (s.host.pc == Ready(H.Starting) ==> RemainingIn(s) == 5 * total)
  {
    assert CountOk(ViewOf(s)) && WireOk(ViewOf(s));
    if !s.host.pc.ph.Done? {
      H.PhaseAdvances(s.host.fw, TCP_CHUNK, s.host.pc.ph);
    }
  }

  /**
    * A session that does not fail makes at most five steps of its own per exchange, and when it has
    * succeeded it has made exactly 2 + ceil(n / 254) acknowledged exchanges, the empty firmware
    * included; what the rest of the system does in between never delays that count.
    */
  lemma SessionLength(s: System, steps: seq<Step>)
    requires Init(s) && Executable(s, steps) && Unbroken(s, steps)
    ensures var t, total := Exec(s, steps), 2 + CeilDiv(|s.host.fw|, TCP_CHUNK);
            && t.host.fw == s.host.fw
            && t.host.acks <= total && OwnSteps(s, steps) <= 5 * total
            && (Succeeded(t.host) <==> t.host.acks == total)
            && (Succeeded(t.host) <==> OwnSteps(s, steps) == 5 * total)
  {
    InitInv(s);
    OwnStepsRun(s, steps);
    Reachable(s, steps);
    LengthFacts(s);
    LengthFacts(Exec(s, steps));
  }
}
