/**
  * Runs that exist: what other connections, and earlier attempts of the same host, can do to a session
  * that is then acknowledged to its end all the same.
  */
module UpdateInterference {
  import opened Protocol
  import opened Chunking
  import opened UpdateSystem
  import opened UpdateProof
  import opened UpdateTheorems
  import opened UpdateExactness
  import opened UpdateProgress
  import opened SlotTable
  import S = ServerThreads
  import D = Dfu
  import H = HostSession

  // ---------------------------------------------------------------- serving another connection

  /** A request other than DFU_END that one recv takes whole. */
  predicate Plain(pkt: seq<Byte>) {
    1 <= |pkt| <= MTU_SIZE && pkt[0] != DFU_END
  }

  /** The log entry of a request whose flash call works. */
  function Handled(c: Conn, pkt: seq<Byte>): D.Entry
    requires pkt != []
  {
    D.Record(c, pkt[0], pkt[1..], ALL_GOOD)
  }

  lemma OperateOther(s: System, c: Conn) returns (t: System)
    requires Inv(s) && CanReceive(s) && s.srv.open[s.srv.poll[s.srv.han.i]] == c && Plain(Get(s.inbox, c))
    ensures Leads(s, t) && Inv(t) && t.task.Reply? && t.task.conn == c && !t.task.final
    ensures t == s.(srv := t.srv, task := t.task, inbox := s.inbox[c := []], flash := t.flash, log := t.log)
    ensures t.srv == s.srv.(han := S.InCallback(s.srv.han.i, s.srv.han.ev))
    ensures var pkt := Get(s.inbox, c);
            t.flash == D.Operate(s.flash, pkt[0], pkt[1..], ALL_GOOD) && t.log == s.log + [Handled(c, pkt)]
  {
    hide Inv;
    var pkt := Get(s.inbox, c);
    LeadsSame(s);
    LeadsOn(s, s, Receive);
    var a := Apply(s, Receive);
    assert pkt[..|pkt|] == pkt;
    LeadsOn(s, a, Operate(ALL_GOOD));
    t := Apply(a, Operate(ALL_GOOD));
    LeadsKeepsInv(s, t);
  }

  /** With the host at rest, the handler serves the request waiting in the stream of another connection. */
  lemma AnswerOther(s: System, c: Conn) returns (t: System)
    requires AtRest(s) && c != s.host.conn && exists fd :: S.Live(s.srv, fd, c)
    requires Plain(Get(s.inbox, c))
    ensures Leads(s, t) && AtRest(t) && SameTable(s.srv, t.srv) && t.inbox == s.inbox[c := []]
    ensures t.host == s.host && t.hostConns == s.hostConns && t.born == s.born
    ensures var pkt := Get(s.inbox, c);
            t.flash == D.Operate(s.flash, pkt[0], pkt[1..], ALL_GOOD) && t.log == s.log + [Handled(c, pkt)]
  {
    hide Inv, Leads;
    var a, k := WakeStage(s, c);
    var b := ArriveStage(a, k);
    LeadsTrans(s, a, b);
    var d := OperateOther(b, c);
    LeadsTrans(s, b, d);
    var e := ReplyStage(d);
    LeadsTrans(s, d, e);
    t := SettleStage(e, b.srv.han.i + 1, b.srv.han.ev);
    LeadsTrans(s, e, t);
    var fd :| S.Live(s.srv, fd, s.host.conn);
    assert S.Live(t.srv, fd, s.host.conn);
  }

  /** Another client's connection in the table, with nothing in its stream. */
  ghost predicate Beside(s: System, c: Conn) {
    && AtRest(s) && c != s.host.conn && c !in s.hostConns && c < s.born
    && Get(s.inbox, c) == [] && exists fd :: S.Live(s.srv, fd, c)
  }

  predicate Requests(pkts: seq<seq<Byte>>) {
    forall i :: 0 <= i < |pkts| ==> Plain(pkts[i])
  }

  function Entries(c: Conn, pkts: seq<seq<Byte>>): seq<D.Entry>
    requires Requests(pkts)
  {
    seq(|pkts|, i requires 0 <= i < |pkts| => assert Plain(pkts[i]); Handled(c, pkts[i]))
  }

  lemma EntriesNext(c: Conn, pkts: seq<seq<Byte>>)
    requires Requests(pkts) && pkts != []
    ensures var head, pkt := pkts[..|pkts| - 1], pkts[|pkts| - 1];
            Requests(head) && Plain(pkt) && Entries(c, pkts) == Entries(c, head) + [Handled(c, pkt)]
  {
    assert forall i :: 0 <= i < |pkts| - 1 ==> pkts[..|pkts| - 1][i] == pkts[i] && Plain(pkts[i]);
    assert Plain(pkts[|pkts| - 1]);
  }

  /** The other client sends requests one by one and the handler serves them. */
  lemma {:induction false} AnswerAll(s: System, c: Conn, pkts: seq<seq<Byte>>) returns (t: System)
    requires Beside(s, c) && Requests(pkts)
    ensures Leads(s, t) && Beside(t, c) && t.host == s.host
    ensures t.log == s.log + Entries(c, pkts)
    ensures t.flash.staged == D.Replay(s.flash.staged, Entries(c, pkts))
    decreases |pkts|
  {
    hide Inv, AtRest, Leads, Beside;
    if pkts == [] {
      LeadsSame(s);
      t := s;
      assert Entries(c, pkts) == [];
    } else {
      var head, pkt := pkts[..|pkts| - 1], pkts[|pkts| - 1];
      EntriesNext(c, pkts);
      var a := AnswerAll(s, c, head);
      t := AnswerNext(a, c, pkt);
      LeadsTrans(s, a, t);
      assert s.log + Entries(c, head) + [Handled(c, pkt)] == s.log + Entries(c, pkts);
      D.OperateReplays(s.flash.staged, Entries(c, head), a.flash, c, pkt[0], pkt[1..], ALL_GOOD);
    }
  }

  lemma AnswerNext(s: System, c: Conn, pkt: seq<Byte>) returns (t: System)
    requires Beside(s, c) && Plain(pkt)
    ensures Leads(s, t) && Beside(t, c) && t.host == s.host
    ensures t.log == s.log + [Handled(c, pkt)] && t.flash == D.Operate(s.flash, pkt[0], pkt[1..], ALL_GOOD)
  {
    hide Inv;
    LeadsSame(s);
    LeadsOn(s, s, ClientSend(c, pkt));
    var a := Apply(s, ClientSend(c, pkt));
    LeadsKeepsInv(s, a);
    assert [] + pkt == pkt;
    t := AnswerOther(a, c);
    LeadsTrans(s, a, t);
    var fd :| S.Live(s.srv, fd, c);
    LiveStays(s.srv, t.srv, fd, c);
  }

  /** From rest, the session runs to its end and the device reboots. */
  lemma FinishAround(s: System) returns (t: System)
    requires AtRest(s) && (s.host.pc.ph.Sending? || s.host.pc.ph.Ending?)
    ensures Leads(s, t) && Inv(t) && Succeeded(t.host) && t.srv.han.Halted?
    ensures t.host.fw == s.host.fw && t.host.conn == s.host.conn && t.hostConns == s.hostConns
    ensures s.log <= t.log && OwnFrom(t.log, |s.log|, s.host.conn)
    ensures Acked(s.host) <= |s.host.fw|
    ensures D.Image(t.flash) == s.flash.staged + s.host.fw[Acked(s.host)..]
  {
    RestPhase(s);
    hide Inv, Leads, OwnFrom, Executable, Exec, Enabled, Apply, LogOk, TaskOk, HostInv, FreshOk;
    var a := FinishFrom(s);
    t := RebootStage(a);
    LeadsTrans(s, a, t);
    NothingMore(s.flash.staged, s.host.fw);
  }

  lemma NothingMore(staged: seq<Byte>, fw: seq<Byte>)
    ensures staged + fw[|fw|..] == staged
  {
  }

  lemma RestPhase(s: System)
    requires AtRest(s)
    ensures HostPhaseOk(s)
  {
    assert WireOk(ViewOf(s));
  }

  /**
    * One byte from any other connection, a request of an earlier attempt included, cuts the image short:
    * handled while some of the host's bytes have been acknowledged, a DFU_START throws exactly those
    * away, and the session can still be acknowledged to its end.
    */
  lemma RestartTruncates(s: System, c: Conn)
    requires AtRest(s) && c != s.host.conn && exists fd :: S.Live(s.srv, fd, c)
    requires Get(s.inbox, c) == [DFU_START]
    requires (s.host.pc.ph.Sending? || s.host.pc.ph.Ending?) && Acked(s.host) > 0
    ensures exists t :: Leads(s, t) && Succeeded(t.host) && t.host.fw == s.host.fw && t.srv.han.Halted?
                        && Acked(s.host) <= |s.host.fw|
                        && D.Image(t.flash) == s.host.fw[Acked(s.host)..] != s.host.fw
  {
    hide Inv;
    var a := AnswerOther(s, c);
    var t := FinishAround(a);
    LeadsTrans(s, a, t);
    var rest := s.host.fw[Acked(s.host)..];
    assert [] + rest == rest && |rest| < |s.host.fw|;
  }

  // ---------------------------------------------------------------- a second host

  /** Where a session of this firmware can stand between two chunks. */
  predicate CutPoint(fw: seq<Byte>, off: nat) {
    off == |fw| || (off < |fw| && off % TCP_CHUNK == 0)
  }

  /** The offset at the loop test behind this phase's exchange. */
  function OffsetAfter(fw: seq<Byte>, ph: H.Phase): nat {
    if ph.Sending? && ph.offset <= |fw| then H.ChunkEnd(fw, TCP_CHUNK, ph.offset) else 0
  }

  /** A whole chunk from one cut point never passes the next. */
  lemma NextCut(fw: seq<Byte>, ph: H.Phase, off: nat)
    requires H.PhaseOk(fw, TCP_CHUNK, ph) && CutPoint(fw, off)
    requires ph.Starting? || (ph.Sending? && ph.offset < off)
    ensures OffsetAfter(fw, ph) <= off && (ph.Sending? ==> OffsetAfter(fw, ph) > ph.offset)
    ensures H.NextPhase(fw, TCP_CHUNK, ph) == H.AtOffset(fw, OffsetAfter(fw, ph))
  {
    if ph.Sending? {
      H.NextOffset(fw, TCP_CHUNK, ph.offset);
    }
  }

  /** The host's exchanges, one by one, up to a given offset. */
  lemma {:induction false} ReachOffset(s: System, off: nat) returns (t: System)
    requires AtRest(s) && CutPoint(s.host.fw, off)
    requires s.host.pc.ph.Starting? || (s.host.pc.ph == H.AtOffset(s.host.fw, Acked(s.host)) && Acked(s.host) <= off)
    ensures Leads(s, t) && AtRest(t) && SameTable(s.srv, t.srv) && SameStreams(s, t)
    ensures t.host.fw == s.host.fw && t.host.conn == s.host.conn && t.hostConns == s.hostConns && t.born == s.born
    ensures t.host.pc == Ready(H.AtOffset(s.host.fw, off))
    decreases if s.host.pc.ph.Starting? then |s.host.fw| + 1 else |s.host.fw| - Acked(s.host)
  {
    RestPhase(s);
    hide Inv, Leads;
    if s.host.pc.ph.Starting? || Acked(s.host) < off {
      var a := Exchange(s);
      NextCut(s.host.fw, s.host.pc.ph, off);
      t := ReachOffset(a, off);
      LeadsTrans(s, a, t);
    } else {
      LeadsSame(s);
      t := s;
    }
  }

  lemma SlotOneFree(slots: seq<Slot>)
    requires |slots| >= 2 && slots[0].active && !slots[1].active
    ensures FirstFree(slots) == 1
  {
  }

  /** From power-up: the host's connection is in the first slot and another client has connected. */
  lemma OneConnected(s: System) returns (t: System)
    requires Init(s) && |s.srv.slots| >= 2
    ensures Leads(s, t) && Inv(t) && t.host == s.host && t.host.pc.Ready? && t.host.conn == 0
    ensures t.srv.han.Idle? && t.srv.acc.Accepting? && t.srv.open == map[3 := 0]
    ensures |t.srv.slots| == |t.srv.who| >= 2 && t.srv.slots[0] == Slot(3, true) && t.srv.who[0] == 0
    ensures FirstFree(t.srv.slots) == 1
    ensures 1 in t.backlog && 1 !in t.srv.accepted && 1 !in t.hostConns && t.born == 2 && Get(t.inbox, 1) == []
  {
    InitInv(s);
    assert FirstFree(s.srv.slots) == 0;
    hide Inv, Leads;
    var a := AdmitStage(s, 3, 0);
    LeadsOn(s, a, ClientConnect);
    t := Apply(a, ClientConnect);
    LeadsKeepsInv(s, t);
    BornFresh(a);
    SlotOneFree(t.srv.slots);
  }

  /** From power-up: both connections are in the table. */
  lemma TwoConnected(s: System) returns (t: System)
    requires Init(s) && |s.srv.slots| >= 2
    ensures Leads(s, t) && Beside(t, 1) && t.host == s.host
  {
    hide Inv, Leads, Init;
    var a := OneConnected(s);
    t := AdmitStage(a, 4, 1);
    LeadsTrans(s, a, t);
    assert t.srv.slots[0] == Slot(3, true) && t.srv.who[0] == 0;
    assert S.Live(t.srv, 3, 0);
  }

  /** DFU_START and the chunks. */
  function Download(fw: seq<Byte>): seq<seq<Byte>> {
    [[DFU_START]] + H.Packets(fw, TCP_CHUNK)
  }

  lemma DownloadPackets(fw: seq<Byte>)
    ensures var pkts, chunks := Download(fw), Chunks(fw, TCP_CHUNK);
            && |pkts| == |chunks| + 1 && pkts[0] == [DFU_START] && Requests(pkts)
            && (forall i :: 0 <= i < |chunks| ==> pkts[i + 1] == [DFU_DOWNLOAD] + chunks[i])
  {
    ChunksRoundTrip(fw, TCP_CHUNK);
  }

  /** How the device records them when all goes well. */
  lemma DownloadEntries(c: Conn, fw: seq<Byte>)
    ensures Requests(Download(fw))
    ensures var log, chunks := Entries(c, Download(fw)), Chunks(fw, TCP_CHUNK);
            && |log| == |chunks| + 1 && log[0] == D.Entry(c, DFU_START, [], true, 0)
            && (forall i :: 0 <= i < |chunks| ==> log[i + 1] == D.Entry(c, DFU_DOWNLOAD, chunks[i], true, |chunks[i]|))
  {
    DownloadPackets(fw);
    var log, chunks := Entries(c, Download(fw)), Chunks(fw, TCP_CHUNK);
    forall i | 0 <= i < |chunks|
      ensures log[i + 1] == D.Entry(c, DFU_DOWNLOAD, chunks[i], true, |chunks[i]|)
    {
      assert log[i + 1] == Handled(c, Download(fw)[i + 1]);
      assert ([DFU_DOWNLOAD] + chunks[i])[1..] == chunks[i];
    }
  }

  /** What a host's whole session up to DFU_END stages, whatever was staged before. */
  lemma DownloadStages(start: seq<Byte>, c: Conn, fw: seq<Byte>)
    ensures Requests(Download(fw))
    ensures D.Replay(start, Entries(c, Download(fw))) == fw
  {
    DownloadEntries(c, fw);
    var log, chunks := Entries(c, Download(fw)), Chunks(fw, TCP_CHUNK);
    assert D.SinceLastStart(log, 1) && D.NoWriteFailed(log) by {
      assert forall i :: 1 <= i < |log| ==> log[i] == D.Entry(c, DFU_DOWNLOAD, chunks[i - 1], true, |chunks[i - 1]|);
    }
    hide Entries, Download, Chunks, D.SinceLastStart, D.NoWriteFailed;
    D.StagedIsConcatenation(start, log, 1);
    PayloadsAre(log[1..], chunks);
    ChunksRoundTrip(fw, TCP_CHUNK);
    assert [] + fw == fw;
  }

  lemma {:induction false} PayloadsAre(log: seq<D.Entry>, parts: seq<seq<Byte>>)
    requires |log| == |parts|
    requires forall i :: 0 <= i < |log| ==> log[i].req == DFU_DOWNLOAD && log[i].payload == parts[i]
    ensures D.Payloads(log) == parts
    decreases |log|
  {
    if log != [] {
      var m := |log| - 1;
      PayloadsAre(log[..m], parts[..m]);
      assert parts[..m] + [parts[m]] == parts;
    }
  }

  /** Own commands and chunks of others throw nothing away. */
  lemma {:induction false} LostStays(log: seq<D.Entry>, more: seq<D.Entry>, c: Conn)
    requires log <= more
    requires forall i :: |log| <= i < |more| ==> more[i].conn == c || more[i].req != DFU_START
    ensures TallyOf(more, c).lost == TallyOf(log, c).lost
    decreases |more|
  {
    if |more| > |log| {
      var head := more[..|more| - 1];
      assert forall i :: 0 <= i < |head| ==> head[i] == more[i];
      LostStays(log, head, c);
    } else {
      assert more == log;
    }
  }

  /** From this reply on, these requests of the connection were answered with success, one after the
      other. */
  predicate AnsweredFrom(s: System, from: nat, c: Conn, pkts: seq<seq<Byte>>) {
    && from + |pkts| <= |s.replies|
    && forall i :: 0 <= i < |pkts| ==> pkts[i] != [] && s.replies[from + i] == Sent(To(c), [pkts[i][0], SUCCESS])
  }

  /** Each of these requests of the connection was answered with success, by a reply of its own. */
  ghost predicate Answered(s: System, c: Conn, pkts: seq<seq<Byte>>) {
    exists from :: AnsweredFrom(s, from, c, pkts)
  }

  /** What has been handled when the device has halted has been answered. */
  lemma HandledIsAnswered(t: System, from: nat, c: Conn, pkts: seq<seq<Byte>>)
    requires Inv(t) && t.srv.han.Halted?
    requires Requests(pkts) && forall i :: 0 <= i < |pkts| ==> Plain(pkts[i]) && Recognised(pkts[i][0])
    requires from + |pkts| <= |t.log| && t.log[from..from + |pkts|] == Entries(c, pkts)
    ensures Answered(t, c, pkts)
  {
    forall i | 0 <= i < |pkts|
      ensures pkts[i] != [] && t.replies[from + i] == Sent(To(c), [pkts[i][0], SUCCESS])
    {
      assert t.log[from + i] == t.log[from..from + |pkts|][i] == Handled(c, pkts[i]);
    }
    assert AnsweredFrom(t, from, c, pkts);
  }

  /** The host has reached the offset and another client is connected. */
  lemma OtherAtOffset(s: System, off: nat) returns (t: System)
    requires Init(s) && |s.srv.slots| >= 2 && CutPoint(s.host.fw, off)
    ensures Leads(s, t) && Beside(t, 1) && t.host.fw == s.host.fw && t.host.conn == 0
    ensures t.host.pc == Ready(H.AtOffset(s.host.fw, off))
  {
    hide Inv, Leads;
    var a := TwoConnected(s);
    t := ReachOffset(a, off);
    LeadsTrans(s, a, t);
    var fd :| S.Live(a.srv, fd, 1);
    LiveStays(a.srv, t.srv, fd, 1);
  }

  lemma OwnAtOffset(s: System, b: System, off: nat)
    requires Init(s) && Leads(s, b) && b.host.pc == Ready(H.AtOffset(b.host.fw, off)) && off <= |b.host.fw|
    ensures TallyOf(b.log, b.host.conn).own == off && Started(b.log, b.host.conn)
  {
    InitInv(s);
    var steps :| Executable(s, steps) && Exec(s, steps) == b;
    ExactRun(s, steps);
    assert BytesOk(ViewOf(b)) && ImageOk(ViewOf(b));
  }

  /** A second host's DFU_START throws away what the first has staged, and its chunks nothing. */
  lemma LostBehind(log: seq<D.Entry>, other: seq<Byte>, more: seq<D.Entry>)
    requires Started(log, 0) && Requests(Download(other)) && log + Entries(1, Download(other)) <= more
    requires OwnFrom(more, |log| + |Download(other)|, 0)
    ensures TallyOf(more, 0).lost == TallyOf(log, 0).own
  {
    DownloadEntries(1, other);
    var entries := Entries(1, Download(other));
    assert forall i :: 0 <= i < |entries| ==> more[|log| + i] == (log + entries)[|log| + i] == entries[i];
    hide Entries, Download;
    TallyGrows(log, entries[0], 0);
    var head := log + [entries[0]];
    assert head <= more;
    forall i | |head| <= i < |more| ensures more[i].conn == 0 || more[i].req != DFU_START {
      if i < |log| + |entries| {
        assert more[i] == entries[i - |log| - 1 + 1];
      }
    }
    LostStays(head, more, 0);
  }

  /** So many of the host's bytes were thrown away, and so many staged by others since. */
  ghost predicate CountsAre(t: System, lost: nat, foreign: nat) {
    TallyOf(t.log, t.host.conn).lost == lost && |TallyOf(t.log, t.host.conn).foreign| == foreign
  }

  /**
    * Two hosts at once: wherever the first stands in its session, a second one can run its whole
    * download, have every request answered with success, and leave the first to go on. The first is
    * acknowledged to the end, and the image is the second firmware followed by what the first still
    * sent; behind the last chunk it is the second firmware and nothing else.
    */
  lemma SecondHostReplaces(s: System, off: nat, other: seq<Byte>)
    requires Init(s) && |s.srv.slots| >= 2 && CutPoint(s.host.fw, off)
    ensures exists t :: Leads(s, t) && Succeeded(t.host) && t.host.fw == s.host.fw && t.srv.han.Halted?
                        && D.Image(t.flash) == other + s.host.fw[off..] && Answered(t, 1, Download(other))
                        && CountsAre(t, off, |other|)
  {
    hide Inv, Leads;
    var b := OtherAtOffset(s, off);
    var pkts := Download(other);
    DownloadStages(b.flash.staged, 1, other);
    var d := AnswerAll(b, 1, pkts);
    LeadsTrans(s, b, d);
    var t := FinishAround(d);
    LeadsTrans(s, d, t);
    assert t.log[|b.log|..|b.log| + |pkts|] == Entries(1, pkts);
    HandledIsAnswered(t, |b.log|, 1, pkts);
    OwnAtOffset(s, b, off);
    LostBehind(b.log, other, t.log);
    AddedAtEnd(s, t);
    assert |D.Image(t.flash)| == |other| + |s.host.fw| - off;
  }

  lemma AddedAtEnd(s: System, t: System)
    requires Init(s) && Leads(s, t) && Succeeded(t.host)
    ensures var y := TallyOf(t.log, t.host.conn); |D.Image(t.flash)| + y.lost == |t.host.fw| + |y.foreign|
  {
    var steps :| Executable(s, steps) && Exec(s, steps) == t;
    AcknowledgedImageExactly(s, steps);
  }

  /**
    * When bytes were thrown away and as many put in their place, no count decides: for every firmware of
    * more than one chunk there are two runs with the same counts, one ending with the right image, one
    * with a wrong one.
    */
  lemma EqualCountsDecideNothing(s: System)
    requires Init(s) && |s.srv.slots| >= 2 && |s.host.fw| > TCP_CHUNK
    ensures exists t, u :: Leads(s, t) && Leads(s, u) && Succeeded(t.host) && Succeeded(u.host)
                           && t.host.fw == u.host.fw == s.host.fw
                           && CountsAre(t, TCP_CHUNK, TCP_CHUNK) && CountsAre(u, TCP_CHUNK, TCP_CHUNK)
                           && D.Image(t.flash) == s.host.fw && D.Image(u.flash) != s.host.fw
  {
    hide Leads, Init;
    var fw := s.host.fw;
    var same := fw[..TCP_CHUNK];
    var changed := same[0 := if same[0] == 0 then 1 else 0];
    SecondHostReplaces(s, TCP_CHUNK, same);
    SecondHostReplaces(s, TCP_CHUNK, changed);
    var t :| Leads(s, t) && Succeeded(t.host) && t.host.fw == fw && t.srv.han.Halted?
             && D.Image(t.flash) == same + fw[TCP_CHUNK..] && Answered(t, 1, Download(same))
             && CountsAre(t, TCP_CHUNK, |same|);
    var u :| Leads(s, u) && Succeeded(u.host) && u.host.fw == fw && u.srv.han.Halted?
             && D.Image(u.flash) == changed + fw[TCP_CHUNK..] && Answered(u, 1, Download(changed))
             && CountsAre(u, TCP_CHUNK, |changed|);
    assert same + fw[TCP_CHUNK..] == fw;
    assert (changed + fw[TCP_CHUNK..])[0] != fw[0];
  }

  // ---------------------------------------------------------------- an attempt given up

  lemma PoliteAppends(s: System, t: System)
    requires t.log != [] && t.log == s.log + [Last(t.log)] && t.hostConns == s.hostConns
    requires Last(t.log).conn in s.hostConns
    ensures Polite(s) ==> Polite(t)
  {
    assert forall i :: 0 <= i < |s.log| ==> t.log[i] == s.log[i];
  }

  lemma PoliteOwn(s: System, t: System)
    requires s.log <= t.log && OwnFrom(t.log, |s.log|, s.host.conn) && t.hostConns == s.hostConns
    requires s.host.conn in s.hostConns
    ensures Polite(s) ==> Polite(t)
  {
    forall i | 0 <= i < |t.log| && t.log[i].conn !in t.hostConns && Polite(s)
      ensures !Recognised(t.log[i].req)
    {
      assert i < |s.log| && t.log[i] == s.log[i];
    }
  }

  /** The host sends, gives up waiting, and is run again with another firmware. */
  lemma GiveUpStage(s: System, fw: seq<Byte>) returns (t: System)
    requires AtRest(s) && s.host.pc.ph.Sending?
    ensures Leads(s, t) && Inv(t) && t.srv == s.srv && t.log == s.log && t.flash == s.flash
    ensures HostPhaseOk(s) && Get(t.inbox, s.host.conn) == HostPacket(s)
    ensures t.host == Host(fw, s.born, Ready(H.Starting), 0) && s.born in t.backlog && s.born !in s.srv.accepted
    ensures t.hostConns == s.hostConns + {s.born} && s.host.conn < s.born
  {
    hide Inv;
    var a := SendStage(s);
    LeadsOn(s, a, HostRecvFail);
    var b := Apply(a, HostRecvFail);
    LeadsOn(s, b, HostRestart(fw));
    t := Apply(b, HostRestart(fw));
    LeadsKeepsInv(s, t);
    BornFresh(s);
  }

  /** The second attempt's connection is admitted beside the first one's, and its DFU_START served. */
  lemma SecondAttempt(s: System, first: Conn) returns (t: System)
    requires Inv(s) && s.srv.han.Idle? && s.srv.acc.Accepting? && s.srv.open == map[3 := first]
    requires S.Live(s.srv, 3, first) && |s.srv.who| == |s.srv.slots| >= 2
    requires s.srv.slots[0] == Slot(3, true) && !s.srv.slots[1].active
    requires s.host.pc == Ready(H.Starting) && s.host.conn != first
    requires s.host.conn in s.backlog && s.host.conn !in s.srv.accepted
    ensures Leads(s, t) && AtRest(t) && S.Live(t.srv, 3, first)
    ensures Exchanged(s, t, H.Starting)
  {
    hide Inv;
    assert FirstFree(s.srv.slots) == 1;
    var a := AdmitStage(s, 4, s.host.conn);
    t := Exchange(a);
    LeadsTrans(s, a, t);
    assert S.Live(a.srv, 3, first) by {
      var j :| 0 <= j < |s.srv.slots| && s.srv.slots[j].active && s.srv.slots[j].fd == 3 && s.srv.who[j] == first;
      assert a.srv.slots[j] == s.srv.slots[j] && a.srv.who[j] == first;
    }
    LiveStays(a.srv, t.srv, 3, first);
  }

  /** Where things stand when a first attempt has been given up with a DFU_DOWNLOAD on the wire of
      connection 0 and the tool has just been run again. */
  ghost predicate GivenUp(s: System, chunk: seq<Byte>) {
    && Inv(s) && s.srv.han.Idle? && s.srv.acc.Accepting? && s.srv.open == map[3 := 0]
    && S.Live(s.srv, 3, 0) && |s.srv.who| == |s.srv.slots| >= 2
    && s.srv.slots[0] == Slot(3, true) && !s.srv.slots[1].active
    && s.host.pc == Ready(H.Starting) && s.host.conn != 0
    && s.host.conn in s.backlog && s.host.conn !in s.srv.accepted
    && Get(s.inbox, 0) == [DFU_DOWNLOAD] + chunk && {0, s.host.conn} <= s.hostConns && Polite(s)
  }

  lemma FirstAttemptGivenUp(s: System, fw: seq<Byte>) returns (t: System)
    requires Init(s) && |s.srv.slots| >= 2 && s.host.fw != []
    ensures Leads(s, t) && t.host.fw == fw && GivenUp(t, s.host.fw[..H.ChunkEnd(s.host.fw, TCP_CHUNK, 0)])
  {
    hide Inv;
    InitInv(s);
    var a := AdmitStage(s, 3, 0);
    var b := Exchange(a);
    LeadsTrans(s, a, b);
    PoliteAppends(a, b);
    LiveStays(a.srv, b.srv, 3, 0);
    t := GiveUpStage(b, fw);
    LeadsTrans(s, b, t);
    assert FirstFree(s.srv.slots) == 0;
    assert Polite(t) by {
      forall i | 0 <= i < |t.log| && t.log[i].conn !in t.hostConns
        ensures !Recognised(t.log[i].req)
      {
        assert b.log[i].conn !in b.hostConns;
      }
    }
  }

  /** From there the second attempt runs to success around the leftover. */
  lemma LeftoverStaged(s: System, chunk: seq<Byte>) returns (t: System)
    requires GivenUp(s, chunk) && |chunk| < MTU_SIZE
    ensures Leads(s, t) && Inv(t) && Succeeded(t.host) && t.host.fw == s.host.fw && Polite(t)
    ensures t.flash.staged == chunk + s.host.fw
  {
    hide Inv;
    var e := SecondAttempt(s, 0);
    PoliteAppends(s, e);
    var g := AnswerOther(e, 0);
    LeadsTrans(s, e, g);
    PoliteAppends(e, g);
    assert ([DFU_DOWNLOAD] + chunk)[1..] == chunk && [] + chunk == chunk;
    assert chunk[..|chunk|] == chunk;
    t := FinishFrom(g);
    LeadsTrans(s, g, t);
    PoliteOwn(g, t);
    assert g.host.pc == Ready(H.AtOffset(s.host.fw, 0));
    assert s.host.fw[0..] == s.host.fw;
  }

  /**
    * Giving up on a request and trying again is not safe, although only the host's own connections are
    * involved: for every first firmware with at least one byte and every second one there is a run in
    * which the second attempt is acknowledged to the end and the image on flash is a chunk of the first
    * firmware followed by the second. RestartedAttemptIsExact therefore asks for tidiness with reason.
    */
  lemma GivenUpAttemptCanCorrupt(s: System, fw: seq<Byte>)
    requires Init(s) && |s.srv.slots| >= 2 && s.host.fw != []
    ensures exists t :: Leads(s, t) && Succeeded(t.host) && t.host.fw == fw && Polite(t)
                        && D.Image(t.flash) == s.host.fw[..H.ChunkEnd(s.host.fw, TCP_CHUNK, 0)] + fw
                        && D.Image(t.flash) != fw
  {
    var chunk := s.host.fw[..H.ChunkEnd(s.host.fw, TCP_CHUNK, 0)];
    var a := FirstAttemptGivenUp(s, fw);
    var b := LeftoverStaged(a, chunk);
    LeadsTrans(s, a, b);
    var t := RebootStage(b);
    LeadsTrans(s, b, t);
    assert |chunk + fw| > |fw|;
  }
}
