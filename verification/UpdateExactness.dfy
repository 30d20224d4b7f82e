/**
  * Exactly when an acknowledged session leaves the right image. Beside the invariant of UpdateProof runs
  * a tally of the commands handled: what other connections threw away and staged, what was staged when
  * they last did so, and what the host has staged since. It determines the image in every run.
  */
module UpdateExactness {
  import opened Protocol
  import opened UpdateSystem
  import opened UpdateProof
  import opened UpdateTheorems
  import D = Dfu
  import H = HostSession

  /**
    * Seen from one connection since its DFU_START. `own`: bytes staged by its own commands. `lost`: own
    * bytes staged before another connection's last successful DFU_START. `foreign`: what others have
    * staged since that restart. `front`: all that was staged when another connection last altered the
    * area. `point`: own bytes by then. `since`: own bytes behind it.
    */
  datatype Tally = Tally(own: nat, lost: nat, foreign: seq<Byte>, front: seq<Byte>, point: nat, since: seq<Byte>)

  const NOTHING := Tally(0, 0, [], [], 0, [])

  /** The payload bytes a logged command staged. */
  function Staged(e: D.Entry): seq<Byte> {
    e.payload[..Min(e.taken, |e.payload|)]
  }

  function Count(y: Tally, e: D.Entry, own: bool, started: bool): Tally {
    if own then y.(own := y.own + |Staged(e)|, since := y.since + Staged(e))
    else if started && e.req == DFU_START && e.ok then Tally(y.own, y.own, [], [], y.own, [])
    else if started && Staged(e) != [] then
      y.(foreign := y.foreign + Staged(e), front := y.front + y.since + Staged(e), point := y.own, since := [])
    else y
  }

  ghost function TallyOf(log: seq<D.Entry>, c: Conn): Tally {
    if log == [] then NOTHING
    else
      var head, e := log[..|log| - 1], Last(log);
      Count(TallyOf(head, c), e, e.conn == c, Started(head, c))
  }

  /** Since this connection's DFU_START no other connection's DFU_START has succeeded. */
  ghost predicate NotRestarted(log: seq<D.Entry>, c: Conn) {
    forall i, j :: 0 <= i < j < |log| && D.IsStartOf(log[i], c) ==>
      !(log[j].conn != c && log[j].req == DFU_START && log[j].ok)
  }

  /** Only DFU_DOWNLOAD commands take bytes, and no more than they carry. */
  ghost predicate TakenOk(log: seq<D.Entry>) {
    forall i :: 0 <= i < |log| ==>
      (log[i].taken > 0 ==> log[i].req == DFU_DOWNLOAD) && log[i].taken <= |log[i].payload|
  }

  lemma TallyGrows(log: seq<D.Entry>, e: D.Entry, c: Conn)
    ensures TallyOf(log + [e], c) == Count(TallyOf(log, c), e, e.conn == c, Started(log, c))
    ensures Started(log + [e], c) <==> Started(log, c) || D.IsStartOf(e, c)
  {
    var more := log + [e];
    assert more[..|log|] == log && Last(more) == e;
    assert forall i :: 0 <= i < |log| ==> more[i] == log[i];
    if Started(log, c) {
      var i :| 0 <= i < |log| && D.IsStartOf(log[i], c);
      assert D.IsStartOf(more[i], c);
    }
    assert D.IsStartOf(e, c) ==> D.IsStartOf(more[|log|], c);
  }

  lemma RestartsGrow(log: seq<D.Entry>, e: D.Entry, c: Conn)
    ensures NotRestarted(log + [e], c) <==>
              NotRestarted(log, c) && !(Started(log, c) && e.conn != c && e.req == DFU_START && e.ok)
  {
    var more := log + [e];
    assert forall i :: 0 <= i < |log| ==> more[i] == log[i];
    if NotRestarted(more, c) {
      forall i, j | 0 <= i < j < |log| && D.IsStartOf(log[i], c)
        ensures !(log[j].conn != c && log[j].req == DFU_START && log[j].ok)
      {
        assert D.IsStartOf(more[i], c) && more[j] == log[j];
      }
      if Started(log, c) {
        var i :| 0 <= i < |log| && D.IsStartOf(log[i], c);
        assert D.IsStartOf(more[i], c) && more[|log|] == e;
      }
    }
  }

  /** Nobody interfered exactly if nobody restarted the staging and nobody added a byte. */
  lemma {:induction false} UndisturbedIsNoBytes(log: seq<D.Entry>, c: Conn)
    requires TakenOk(log)
    ensures Undisturbed(log, c) <==> NotRestarted(log, c) && TallyOf(log, c).foreign == []
    ensures NotRestarted(log, c) ==> TallyOf(log, c).lost == 0
  {
    if log != [] {
      var head, e := log[..|log| - 1], Last(log);
      assert log == head + [e];
      assert TakenOk(head) by {
        assert forall i :: 0 <= i < |head| ==> head[i] == log[i];
      }
      UndisturbedIsNoBytes(head, c);
      TallyGrows(head, e, c);
      RestartsGrow(head, e, c);
      LogGrows(head, e, c);
      assert e == log[|log| - 1] && (e.taken > 0 <==> Staged(e) != []);
      hide TallyOf, NotRestarted, Undisturbed, Started, TakenOk;
      if Undisturbed(head, c) && (Started(head, c) ==> !D.Alters(e, c)) {
        UndisturbedExtends(head, e, c);
      }
    }
  }

  lemma UndisturbedExtends(head: seq<D.Entry>, e: D.Entry, c: Conn)
    requires Undisturbed(head, c) && (Started(head, c) ==> !D.Alters(e, c))
    ensures Undisturbed(head + [e], c)
  {
    var more := head + [e];
    forall i, j | 0 <= i < j < |more| && D.IsStartOf(more[i], c)
      ensures !D.Alters(more[j], c)
    {
      assert more[i] == head[i];
    }
  }

  // ---------------------------------------------------------------- counting along a run

  /** Bytes the current exchange stages if it succeeds. */
  function ChunkLength(h: Host): nat {
    if h.pc.ph.Sending? && h.pc.ph.offset <= |h.fw|
    then H.ChunkEnd(h.fw, TCP_CHUNK, h.pc.ph.offset) - h.pc.ph.offset
    else 0
  }

  /** The tally accounts for every staged byte, and the host's bytes since the last interference are the
      stretch of the firmware they should be. */
  ghost predicate SharesOk(v: View) {
    var y := TallyOf(v.log, v.h.conn);
    && Counts(y, v.h.fw)
    && v.flash.staged == y.front + y.since
  }

  predicate Counts(y: Tally, fw: seq<Byte>) {
    && y.lost <= y.point <= y.own <= |fw|
    && y.since == fw[y.point..y.own]
    && |y.front| + y.lost == y.point + |y.foreign|
    && (y.point == y.lost ==> y.front == y.foreign)
    && (y.foreign == [] ==> y.point == y.lost)
  }

  /** The current exchange's command has been handled, or never reached the handler. */
  predicate Settled(v: View) {
    !v.h.pc.Ready? && !OnItsWay(v)
  }

  /** What the host has had staged itself, by its progress. Sent in full and without failed writes, a
      chunk is staged whole once it has been handled, whether the host has seen the reply or not. */
  ghost predicate BytesOk(v: View) {
    var c, own := v.h.conn, TallyOf(v.log, v.h.conn).own;
    if v.h.pc.ph == H.Starting then
      v.h.pc.Failed? || (own == 0 && if Settled(v) then LastOk(v.log, c) ==> SharesOk(v)
                                     else !Started(v.log, c) && TallyOf(v.log, c) == NOTHING)
    else
      && SharesOk(v) && Acked(v.h) <= own <= Acked(v.h) + ChunkLength(v.h)
      && (!Settled(v) ==> own == Acked(v.h))
      && (Settled(v) && ((v.h.pc.Waiting? && LastOk(v.log, c)) || (InFull(v.h) && D.NoWriteFailed(v.log))) ==>
            own == Acked(v.h) + ChunkLength(v.h))
  }

  /** The packet of the current exchange was sent in full. */
  predicate InFull(h: Host) {
    h.pc.Waiting? || (h.pc.Failed? && h.pc.whole)
  }

  lemma NoFailureBefore(log: seq<D.Entry>, e: D.Entry)
    requires D.NoWriteFailed(log + [e])
    ensures D.NoWriteFailed(log) && (e.req == DFU_DOWNLOAD ==> e.taken == |e.payload|)
  {
    assert (log + [e])[|log|] == e;
    assert forall i :: 0 <= i < |log| ==> (log + [e])[i] == log[i];
  }

  function AfterOwn(v: View, o: D.Outcome): View
    requires v.job.Got? && v.job.buf != []
  {
    var req, payload := v.job.buf[0], v.job.buf[1..];
    var e := D.Record(v.h.conn, req, payload, o);
    v.(flash := D.Operate(v.flash, req, payload, o), log := v.log + [e], job := Answering(D.ReplyTo(e)))
  }

  /** What the invariant of UpdateProof says about the request in the handler's hands. */
  lemma OwnRequestParts(v: View)
    requires HostInv(v) && v.job.Got? && v.job.buf != []
    ensures v.inb == [] && !v.h.pc.Ready? && !v.h.pc.ph.Done? && H.PhaseOk(v.h.fw, TCP_CHUNK, v.h.pc.ph)
    ensures var pkt := H.Packet(v.h.fw, TCP_CHUNK, v.h.pc.ph);
            && v.job.buf[0] == H.Cmd(v.h.pc.ph)
            && v.job.buf[1..] <= pkt[1..] && |pkt[1..]| == ChunkLength(v.h)
            && (InFull(v.h) ==> v.job.buf[1..] == pkt[1..])
  {
  }

  /** A command without payload leaves the tally as it is. */
  lemma MarkCounts(log: seq<D.Entry>, e: D.Entry, c: Conn)
    requires e.conn == c && e.taken == 0
    ensures TallyOf(log + [e], c) == TallyOf(log, c)
  {
    TallyGrows(log, e, c);
    var y := TallyOf(log, c);
    assert y.since + Staged(e) == y.since;
  }

  lemma NothingCounts(fw: seq<Byte>)
    ensures Counts(NOTHING, fw)
  {
  }

  /** The host's DFU_START is handled. */
  lemma OperateOwnStart(v: View, o: D.Outcome)
    requires HostInv(v) && BytesOk(v) && v.job.Got? && v.job.buf != [] && v.h.pc.ph.Starting?
    ensures BytesOk(AfterOwn(v, o))
  {
    OwnRequestParts(v);
    var e := Last(AfterOwn(v, o).log);
    LogGrows(v.log, e, v.h.conn);
    MarkCounts(v.log, e, v.h.conn);
    NothingCounts(v.h.fw);
    hide HostInv, D.NoWriteFailed, Undisturbed, Started, TallyOf, Counts;
  }

  /** The host's DFU_END is handled. */
  lemma OperateOwnEnd(v: View, o: D.Outcome)
    requires HostInv(v) && BytesOk(v) && v.job.Got? && v.job.buf != [] && v.h.pc.ph.Ending?
    ensures BytesOk(AfterOwn(v, o))
  {
    OwnRequestParts(v);
    var e := Last(AfterOwn(v, o).log);
    LogGrows(v.log, e, v.h.conn);
    MarkCounts(v.log, e, v.h.conn);
    hide HostInv, D.NoWriteFailed, Undisturbed, Started, TallyOf, Counts, LastOk;
  }

  /** The host's own chunk lengthens the stretch of firmware that is staged. */
  lemma OwnChunk(y: Tally, fw: seq<Byte>, off: nat, payload: seq<Byte>, k: nat)
    requires Counts(y, fw) && y.own == off && k <= |payload|
    requires payload <= fw[off..H.ChunkEnd(fw, TCP_CHUNK, off)]
    ensures Counts(y.(own := off + k, since := y.since + payload[..k]), fw)
    ensures y.front + y.since + payload[..k] == y.front + (y.since + payload[..k])
  {
    assert payload[..k] == fw[off..off + k];
    assert fw[y.point..off] + fw[off..off + k] == fw[y.point..off + k];
  }

  /** Others' bytes, or their restart, move the front to where the host has got. */
  lemma OthersBytes(y: Tally, fw: seq<Byte>, e: D.Entry)
    requires Counts(y, fw)
    ensures var z := Count(y, e, false, true);
            && Counts(z, fw) && z.own == y.own
            && z.front + z.since == if e.req == DFU_START && e.ok then [] else y.front + y.since + Staged(e)
  {
    assert fw[y.own..y.own] == [];
    var z := Count(y, e, false, true);
    if Staged(e) != [] {
      assert y.front + y.since + Staged(e) + [] == y.front + y.since + Staged(e);
    } else {
      assert y.front + y.since + [] == y.front + y.since;
    }
  }

  /** What the flash call for a chunk of the host's stages, and how the tally records it. */
  lemma OwnChunkShares(v: View, o: D.Outcome)
    requires v.job.Got? && v.job.buf != [] && v.job.buf[0] == DFU_DOWNLOAD
    requires SharesOk(v) && v.h.pc.ph.Sending? && v.h.pc.ph.offset <= |v.h.fw|
    requires TallyOf(v.log, v.h.conn).own == v.h.pc.ph.offset
    requires v.job.buf[1..] <= v.h.fw[v.h.pc.ph.offset..H.ChunkEnd(v.h.fw, TCP_CHUNK, v.h.pc.ph.offset)]
    ensures var w, k := AfterOwn(v, o), D.Taken(v.job.buf[1..], o);
            && SharesOk(w) && TallyOf(w.log, v.h.conn).own == v.h.pc.ph.offset + k
            && (o.ok || D.NoWriteFailed(w.log) ==> k == |v.job.buf[1..]|)
            && (LastOk(w.log, v.h.conn) ==> o.ok)
  {
    var w := AfterOwn(v, o);
    var c, payload, e := v.h.conn, v.job.buf[1..], Last(w.log);
    var y, k := TallyOf(v.log, c), D.Taken(payload, o);
    LogGrows(v.log, e, c);
    TallyGrows(v.log, e, c);
    if D.NoWriteFailed(w.log) {
      NoFailureBefore(v.log, e);
    }
    OwnChunk(y, v.h.fw, v.h.pc.ph.offset, payload, k);
    hide D.NoWriteFailed, TallyOf, Undisturbed, Started, LastOk, Counts;
    assert Staged(e) == payload[..k] && w.flash.staged == v.flash.staged + payload[..k];
  }

  /** A chunk of the host's is handled. */
  lemma OperateOwnChunk(v: View, o: D.Outcome)
    requires HostInv(v) && BytesOk(v) && v.job.Got? && v.job.buf != [] && v.h.pc.ph.Sending?
    ensures BytesOk(AfterOwn(v, o))
  {
    OwnRequestParts(v);
    OwnChunkShares(v, o);
    hide HostInv, D.NoWriteFailed, Started, TallyOf, SharesOk, LastOk, D.Operate, D.Taken, D.Record;
  }

  lemma OperateOwn(v: View, o: D.Outcome)
    requires HostInv(v) && BytesOk(v) && v.job.Got? && v.job.buf != []
    ensures BytesOk(AfterOwn(v, o))
  {
    OwnRequestParts(v);
    hide BytesOk, HostInv, AfterOwn;
    match v.h.pc.ph
    case Starting => OperateOwnStart(v, o);
    case Sending(_) => OperateOwnChunk(v, o);
    case Ending => OperateOwnEnd(v, o);
  }

  /** From its DFU_START on the session counts what others do. */
  lemma StartedBy(v: View)
    requires HostInv(v)
    ensures v.h.pc.ph != H.Starting || (v.h.pc.Waiting? && Settled(v)) ==> Started(v.log, v.h.conn)
  {
  }

  lemma OtherStaged(f: D.Flash, conn: Conn, req: Byte, payload: seq<Byte>, o: D.Outcome)
    ensures var e := D.Record(conn, req, payload, o);
            D.Operate(f, req, payload, o).staged == if e.req == DFU_START && e.ok then [] else f.staged + Staged(e)
  {
    assert f.staged + [] == f.staged;
  }

  lemma OperateOtherBytes(v: View, e: D.Entry, req: Byte, payload: seq<Byte>, o: D.Outcome)
    requires HostInv(v) && BytesOk(v) && v.job == NoJob
    requires e.conn != v.h.conn && e == D.Record(e.conn, req, payload, o)
    ensures BytesOk(v.(flash := D.Operate(v.flash, req, payload, o), log := v.log + [e]))
  {
    var c, y := v.h.conn, TallyOf(v.log, v.h.conn);
    LogGrows(v.log, e, c);
    TallyGrows(v.log, e, c);
    StartedBy(v);
    OtherStaged(v.flash, e.conn, req, payload, o);
    if D.NoWriteFailed(v.log + [e]) {
      NoFailureBefore(v.log, e);
    }
    if SharesOk(v) && Started(v.log, c) {
      OthersBytes(y, v.h.fw, e);
      assert SharesOk(v.(flash := D.Operate(v.flash, req, payload, o), log := v.log + [e]));
    }
    assert e.conn != c && !Started(v.log, c) ==> !Started(v.log + [e], c) && TallyOf(v.log + [e], c) == y;
    hide HostInv, D.Operate, D.Record, D.NoWriteFailed, TallyOf, Count, Counts, Staged, Started, LastOk, SharesOk;
  }

  lemma AckBytes(v: View)
    requires HostInv(v) && BytesOk(v) && v.h.pc.Waiting? && |v.out| >= 2
    ensures BytesOk(v.(h := Judge(v.h, v.out[..2]), out := v.out[2..]))
  {
    AckKeeps(v);
  }

  ghost predicate ExactInv(s: System) {
    Inv(s) && BytesOk(ViewOf(s)) && TakenOk(s.log)
  }

  lemma NoEntriesYet(log: seq<D.Entry>, c: Conn)
    requires forall i :: 0 <= i < |log| ==> log[i].conn != c
    ensures TallyOf(log, c) == NOTHING && !Started(log, c)
  {
    if log != [] {
      NoEntriesYet(log[..|log| - 1], c);
    }
  }

  lemma TakenGrows(log: seq<D.Entry>, e: D.Entry)
    requires TakenOk(log) && e.taken <= |e.payload| && (e.taken > 0 ==> e.req == DFU_DOWNLOAD)
    ensures TakenOk(log + [e])
  {
  }

  lemma ExactOperate(s: System, o: D.Outcome)
    requires ExactInv(s) && Enabled(s, Operate(o))
    ensures BytesOk(ViewOf(Apply(s, Operate(o)))) && TakenOk(Apply(s, Operate(o)).log)
  {
    OperateView(s, o);
    hide FreshOk, TaskOk, LogOk, ViewOf, Apply, BytesOk, HostInv;
    var v, req, payload := ViewOf(s), s.task.buf[0], s.task.buf[1..];
    var e := D.Record(s.task.conn, req, payload, o);
    TakenGrows(s.log, e);
    hide TakenOk, D.Operate, D.Record;
    if s.task.conn == s.host.conn {
      OperateOwn(v, o);
    } else {
      OperateOtherBytes(v, e, req, payload, o);
    }
  }

  /** What matters is whether the request is on its way, not where. */
  lemma SameBytes(v: View, w: View)
    requires BytesOk(v) && w.h == v.h && w.flash == v.flash && w.log == v.log && OnItsWay(w) == OnItsWay(v)
    ensures BytesOk(w)
  {
  }

  /** Moving the current request along stages nothing. */
  lemma ExactReceive(s: System)
    requires ExactInv(s) && Enabled(s, Receive)
    ensures BytesOk(ViewOf(Apply(s, Receive))) && Apply(s, Receive).log == s.log
  {
    ReceiveView(s);
    hide BytesOk, HostInv, TaskOk, LogOk, FreshOk, TakenOk, ViewOf;
    SameBytes(ViewOf(s), ViewOf(Apply(s, Receive)));
  }

  lemma ExactReply(s: System, k: nat)
    requires ExactInv(s) && Enabled(s, SendReply(k))
    ensures BytesOk(ViewOf(Apply(s, SendReply(k)))) && Apply(s, SendReply(k)).log == s.log
  {
    var v, w := ViewOf(s), ViewOf(Apply(s, SendReply(k)));
    ReplyView(s, k);
    hide BytesOk, HostInv, TaskOk, LogOk, FreshOk, TakenOk, Committed, ViewOf;
    SameBytes(v, w);
  }

  lemma ExactSend(s: System, step: Step)
    requires ExactInv(s) && Enabled(s, step) && (step.HostSend? || step.HostSendShort?)
    ensures BytesOk(ViewOf(Apply(s, step))) && Apply(s, step).log == s.log
  {
    var v, t := ViewOf(s), Apply(s, step);
    assert WireOk(v);
    if step.HostSend? {
      assert ViewOf(t) == v.(inb := t.inbox[s.host.conn], h := t.host);
      assert t.inbox[s.host.conn] == [] + HostPacket(s)[..|HostPacket(s)|];
      assert |t.inbox[s.host.conn]| >= 1;
    }
  }

  /** Giving up changes nothing of what was sent and staged. */
  lemma GivenUpBytes(v: View)
    requires HostInv(v) && BytesOk(v) && v.h.pc.Waiting?
    ensures BytesOk(v.(h := v.h.(pc := Failed(v.h.pc.ph, false, true))))
  {
  }

  lemma ExactElsewhere(s: System, step: Step)
    requires ExactInv(s) && Enabled(s, step)
    requires step.Server? || step.AcceptConn? || step.RequestUpgrade? || step.Reboot?
             || step.ClientConnect? || step.ClientSend? || step.HostRecvFail?
    ensures BytesOk(ViewOf(Apply(s, step))) && Apply(s, step).log == s.log
  {
    hide BytesOk, HostInv, TaskOk, LogOk;
    if step.HostRecvFail? {
      GivenUpBytes(ViewOf(s));
    } else {
      assert ViewOf(Apply(s, step)) == ViewOf(s);
    }
  }

  lemma ExactAck(s: System)
    requires ExactInv(s) && Enabled(s, HostRecv)
    ensures BytesOk(ViewOf(Apply(s, HostRecv))) && Apply(s, HostRecv).log == s.log
  {
    var v := ViewOf(s);
    AckBytes(v);
    assert ViewOf(Apply(s, HostRecv)) == v.(h := Judge(v.h, v.out[..2]), out := v.out[2..]);
  }

  lemma ExactRestart(s: System, fw: seq<Byte>)
    requires ExactInv(s) && Enabled(s, HostRestart(fw))
    ensures BytesOk(ViewOf(Apply(s, HostRestart(fw)))) && Apply(s, HostRestart(fw)).log == s.log
  {
    NoEntriesYet(s.log, s.born);
  }

  lemma ExactKept(s: System, step: Step)
    requires ExactInv(s) && Enabled(s, step)
    ensures BytesOk(ViewOf(Apply(s, step))) && TakenOk(Apply(s, step).log)
  {
    hide Inv, BytesOk, TakenOk, ViewOf, Apply, Enabled;
    match step
    case Operate(o) => ExactOperate(s, o);
    case HostRecv => ExactAck(s);
    case HostRestart(fw) => ExactRestart(s, fw);
    case Receive => ExactReceive(s);
    case SendReply(k) => ExactReply(s, k);
    case HostSend => ExactSend(s, step);
    case HostSendShort(k) => ExactSend(s, step);
    case _ => ExactElsewhere(s, step);
  }

  lemma ExactStep(s: System, step: Step)
    requires ExactInv(s) && Enabled(s, step)
    ensures ExactInv(Apply(s, step))
  {
    StepInv(s, step);
    ExactKept(s, step);
    hide Inv, BytesOk, TakenOk, ViewOf, Apply, Enabled;
  }

  lemma {:induction false} ExactRun(s: System, steps: seq<Step>)
    requires ExactInv(s) && Executable(s, steps)
    ensures ExactInv(Exec(s, steps))
    decreases |steps|
  {
    if steps != [] {
      ExactStep(s, steps[0]);
      ExactRun(Apply(s, steps[0]), steps[1..]);
    }
  }

  /**
    * At every moment of an undisturbed session, also after the host has given up: the staged bytes are
    * a prefix of the firmware, between what has been acknowledged and the end of the one chunk whose
    * reply is outstanding. It is the shorter of the two while that chunk has not been handled, and the
    * longer one once it has been, if its reply says success, or if it was sent in full and no write has
    * failed. While the reply to a successful DFU_START is outstanding nothing is staged.
    */
  lemma StagedIsPrefix(s: System, steps: seq<Step>)
    requires Init(s) && Executable(s, steps)
    requires Undisturbed(Exec(s, steps).log, Exec(s, steps).host.conn)
    ensures var t := Exec(s, steps);
            var fw, a := t.host.fw, Acked(t.host);
            && a <= |fw|
            && var end := if t.host.pc.ph == H.Starting then 0 else H.ChunkEnd(fw, TCP_CHUNK, a);
               && (t.host.pc.ph != H.Starting ==> fw[..a] <= t.flash.staged <= fw[..end])
               && (t.host.pc.ph != H.Starting && (t.host.pc.Ready? || Unhandled(t)) ==> t.flash.staged == fw[..a])
               && (t.host.pc.Waiting? && !Unhandled(t) && LastOk(t.log, t.host.conn) ==> t.flash.staged == fw[..end])
               && (t.host.pc.ph != H.Starting && InFull(t.host) && !Unhandled(t) && D.NoWriteFailed(t.log) ==>
                     t.flash.staged == fw[..end])
  {
    InitInv(s);
    ExactRun(s, steps);
    var t := Exec(s, steps);
    UndisturbedIsNoBytes(t.log, t.host.conn);
    hide Executable, Exec, Init, FreshOk, TaskOk, LogOk, Undisturbed, NotRestarted, TakenOk, D.NoWriteFailed;
    PrefixNow(ViewOf(t));
  }

  lemma PrefixNow(v: View)
    requires HostInv(v) && BytesOk(v)
    requires TallyOf(v.log, v.h.conn).foreign == [] && TallyOf(v.log, v.h.conn).lost == 0
    ensures var fw, a, c := v.h.fw, Acked(v.h), v.h.conn;
            && a <= |fw|
            && var end := if v.h.pc.ph == H.Starting then 0 else H.ChunkEnd(fw, TCP_CHUNK, a);
               && (v.h.pc.ph != H.Starting ==> fw[..a] <= v.flash.staged <= fw[..end])
               && (v.h.pc.ph != H.Starting && !Settled(v) ==> v.flash.staged == fw[..a])
               && (v.h.pc.Waiting? && Settled(v) && LastOk(v.log, c) ==> v.flash.staged == fw[..end])
               && (v.h.pc.ph != H.Starting && InFull(v.h) && Settled(v) && D.NoWriteFailed(v.log) ==>
                     v.flash.staged == fw[..end])
  {
    hide D.NoWriteFailed;
    var own := TallyOf(v.log, v.h.conn).own;
    if SharesOk(v) {
      assert v.flash.staged == v.h.fw[..own];
    }
  }

  lemma SharesAtEnd(v: View)
    requires HostInv(v) && BytesOk(v) && Succeeded(v.h)
    ensures var y := TallyOf(v.log, v.h.conn);
            Counts(y, v.h.fw) && y.own == |v.h.fw| && D.Image(v.flash) == y.front + y.since
  {
    assert ImageOk(v);
  }

  /** The front is what it is said to be: when another connection has just altered the area, it is what is
      staged, and the point is what the host has had staged; until the next time neither changes. */
  lemma FrontIsStaged(s: System, steps: seq<Step>)
    requires Init(s) && Executable(s, steps) && Exec(s, steps).host.pc.ph != H.Starting
    ensures var t := Exec(s, steps);
            var c := t.host.conn;
            var y := TallyOf(t.log, c);
            && (t.log != [] && D.Alters(Last(t.log), c) ==> t.flash.staged == y.front && y.point == y.own)
            && (t.log != [] && !D.Alters(Last(t.log), c) ==>
                  var before := TallyOf(t.log[..|t.log| - 1], c); y.front == before.front && y.point == before.point)
  {
    InitInv(s);
    ExactRun(s, steps);
    hide Executable, Exec, Init;
    if Exec(s, steps).log != [] {
      FrontNow(Exec(s, steps));
    }
  }

  lemma FrontNow(t: System)
    requires ExactInv(t) && t.host.pc.ph != H.Starting && t.log != []
    ensures var c := t.host.conn;
            var y, before := TallyOf(t.log, c), TallyOf(t.log[..|t.log| - 1], c);
            && (D.Alters(Last(t.log), c) ==> t.flash.staged == y.front && y.point == y.own)
            && (!D.Alters(Last(t.log), c) ==> y.front == before.front && y.point == before.point)
  {
    var v, e := ViewOf(t), Last(t.log);
    StartedBy(v);
    assert SharesOk(v) && TakenOk(t.log) && e == t.log[|t.log| - 1];
    hide Inv, TallyOf, TakenOk, Counts;
    assert t.log == t.log[..|t.log| - 1] + [e];
    FrontMoves(t.log[..|t.log| - 1], e, t.host.conn);
  }

  /** One more command moves the front exactly if it is another connection's and alters the area. */
  lemma FrontMoves(head: seq<D.Entry>, e: D.Entry, c: Conn)
    requires Started(head + [e], c) && e.taken <= |e.payload| && (e.taken > 0 ==> e.req == DFU_DOWNLOAD)
    ensures var y, before := TallyOf(head + [e], c), TallyOf(head, c);
            && (D.Alters(e, c) ==> y.front + y.since == y.front && y.point == y.own)
            && (!D.Alters(e, c) ==> y.front == before.front && y.point == before.point)
  {
    TallyGrows(head, e, c);
    hide TallyOf, Started;
    assert e.taken > 0 <==> Staged(e) != [];
    var y := TallyOf(head + [e], c);
    assert y.since == [] ==> y.front + y.since == y.front;
  }

  /** A common rest decides nothing. */
  lemma SameRest(a: seq<Byte>, fw: seq<Byte>, k: nat)
    requires k <= |fw|
    ensures a + fw[k..] == fw <==> a == fw[..k]
  {
    assert fw[..k] + fw[k..] == fw;
    if a + fw[k..] == fw {
      assert a == (a + fw[k..])[..|a|];
    }
  }

  /**
    * Exactly what an acknowledged session leaves on flash, in every run: what was staged when another
    * connection last altered the area, and behind it the rest of the firmware. So the image is the
    * firmware if and only if at that moment the staged bytes happened to be the firmware's prefix of the
    * length the host had sent. Counting: it is as long as the firmware, less the bytes thrown away, plus
    * those others have staged since; if these were all handled before the host's next bytes, they are
    * what the image begins with. Unless others both threw bytes away and put some in place, it is the
    * firmware if and only if the two counts are equal; short of any restart, if and only if the session
    * was undisturbed.
    */
  lemma AcknowledgedImageExactly(s: System, steps: seq<Step>)
    requires Init(s) && Executable(s, steps) && Succeeded(Exec(s, steps).host)
    ensures var t := Exec(s, steps);
            var fw, image, y := t.host.fw, D.Image(t.flash), TallyOf(t.log, t.host.conn);
            && y.lost <= y.point <= |fw| && image == y.front + fw[y.point..]
            && (image == fw <==> y.front == fw[..y.point])
            && |image| + y.lost == |fw| + |y.foreign|
            && (y.point == y.lost ==> image == y.foreign + fw[y.lost..])
            && (y.foreign == [] || y.lost == 0 ==> (image == fw <==> |y.foreign| == y.lost))
            && (NotRestarted(t.log, t.host.conn) ==> (image == fw <==> Undisturbed(t.log, t.host.conn)))
  {
    InitInv(s);
    ExactRun(s, steps);
    var t := Exec(s, steps);
    hide Executable, Exec, BytesOk, HostInv, Init, FreshOk, TaskOk, LogOk, Undisturbed, NotRestarted, TakenOk, TallyOf;
    UndisturbedIsNoBytes(t.log, t.host.conn);
    SharesAtEnd(ViewOf(t));
    ImageFromTally(TallyOf(t.log, t.host.conn), t.host.fw);
  }

  lemma ImageFromTally(y: Tally, fw: seq<Byte>)
    requires Counts(y, fw) && y.own == |fw|
    ensures var image := y.front + y.since;
            && image == y.front + fw[y.point..]
            && (image == fw <==> y.front == fw[..y.point])
            && |image| + y.lost == |fw| + |y.foreign|
            && (y.foreign == [] || y.lost == 0 ==> (image == fw <==> |y.foreign| == y.lost))
  {
    SameRest(y.front, fw, y.point);
    assert y.since == fw[y.point..];
    if y.foreign == [] && y.lost == 0 {
      assert y.front == fw[..0];
    }
  }
}
