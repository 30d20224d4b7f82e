/**
  * A session that has not gone wrong can always be completed: wherever the host is in its exchange and
  * the handler in its loop, some continuation brings the host to success.
  */
module UpdateProgress {
  import opened Protocol
  import opened UpdateSystem
  import opened UpdateProof
  import opened UpdateTheorems
  import opened SlotTable
  import S = ServerThreads
  import D = Dfu
  import H = HostSession

  /** Some run leads from s to t. */
  ghost predicate Leads(s: System, t: System) {
    exists steps :: Executable(s, steps) && Exec(s, steps) == t
  }

  lemma LeadsSame(s: System)
    ensures Leads(s, s)
  {
    assert Executable(s, []) && Exec(s, []) == s;
  }

  lemma {:induction false} ExecAppend(s: System, a: seq<Step>, b: seq<Step>)
    requires Executable(s, a) && Executable(Exec(s, a), b)
    ensures Executable(s, a + b) && Exec(s, a + b) == Exec(Exec(s, a), b)
    decreases |a|
  {
    hide Apply, Enabled;
    if a == [] {
      assert a + b == b;
    } else {
      ExecAppend(Apply(s, a[0]), a[1..], b);
      assert (a + b)[1..] == a[1..] + b;
    }
  }

  lemma LeadsOn(s: System, t: System, step: Step)
    requires Leads(s, t) && Enabled(t, step)
    ensures Leads(s, Apply(t, step))
  {
    var steps :| Executable(s, steps) && Exec(s, steps) == t;
    assert Executable(Apply(t, step), []);
    assert [step][0] == step && [step][1..] == [];
    assert Executable(t, [step]);
    ExecAppend(s, steps, [step]);
  }

  lemma LeadsKeepsInv(s: System, t: System)
    requires Inv(s) && Leads(s, t)
    ensures Inv(t)
  {
    var steps :| Executable(s, steps) && Exec(s, steps) == t;
    RunInv(s, steps);
  }

  /** The handler idle, the host between two exchanges, its connection in the table. */
  ghost predicate AtRest(s: System) {
    && Inv(s) && s.srv.han.Idle? && s.host.pc.Ready?
    && exists fd :: S.Live(s.srv, fd, s.host.conn)
  }

  /** The handler idle, the host waiting for the reply to a request that is still in its stream. */
  ghost predicate RequestWaits(s: System) {
    && Inv(s) && s.srv.han.Idle? && s.host.pc.Waiting? && Get(s.inbox, s.host.conn) != []
    && exists fd :: S.Live(s.srv, fd, s.host.conn)
  }

  /** Nothing happened to the table, the accept thread or the descriptors. */
  ghost predicate SameTable(v: S.Server, w: S.Server) {
    w.slots == v.slots && w.who == v.who && w.acc == v.acc && w.open == v.open && w.accepted == v.accepted
  }

  lemma BornFresh(s: System)
    requires Inv(s)
    ensures s.host.conn < s.born && s.born !in s.srv.accepted
  {
  }

  /** A connection in the table stays there as long as the table does not change. */
  lemma LiveStays(v: S.Server, w: S.Server, fd: int, c: Conn)
    requires S.Live(v, fd, c) && SameTable(v, w)
    ensures S.Live(w, fd, c)
  {
  }

  /** Poll reports input on entry k only. */
  function OnlyInput(n: nat, k: nat): seq<S.Events> {
    seq(n, i => S.Events(false, i == k))
  }

  function At(s: System, i: nat, ev: seq<S.Events>): System {
    s.(srv := s.srv.(han := S.Walking(i, ev)))
  }

  /** The handler passes entries without events one by one. */
  lemma {:induction false} PassQuietEntries(s: System, b: System, i: nat, m: nat, ev: seq<S.Events>)
    requires |b.srv.slots| == |b.srv.who| == |b.srv.poll| && |ev| == b.srv.n && i <= m <= b.srv.n <= |b.srv.poll|
    requires forall j :: i <= j < m ==> !ev[j].hup && !ev[j].input
    requires Leads(s, At(b, i, ev))
    ensures Leads(s, At(b, m, ev))
    decreases m - i
  {
    if i < m {
      LeadsOn(s, At(b, i, ev), Server(S.Visit(S.NoData)));
      assert Apply(At(b, i, ev), Server(S.Visit(S.NoData))) == At(b, i + 1, ev);
      PassQuietEntries(s, b, i + 1, m, ev);
    }
  }

  /** A connection in the table has an entry in the snapshot the handler would take now. */
  lemma SnapshotHas(v: S.Server, c: Conn) returns (k: nat)
    requires S.TableOk(v) && exists fd :: S.Live(v, fd, c)
    ensures v.numActive > 0 && k < v.numActive && k < |S.ActiveConns(v)| == |ActiveFds(v.slots)| == v.numActive
    ensures S.ActiveConns(v)[k] == c
    ensures ActiveFds(v.slots)[k] in v.open && v.open[ActiveFds(v.slots)[k]] == c
  {
    var fd :| S.Live(v, fd, c);
    var j :| 0 <= j < |v.slots| && v.slots[j].active && v.slots[j].fd == fd && v.who[j] == c;
    ActiveIdxExact(v.slots);
    assert j in ActiveIdx(v.slots);
    k :| 0 <= k < |ActiveIdx(v.slots)| && ActiveIdx(v.slots)[k] == j;
  }

  /** The streams of the other connections hold what they held. */
  ghost predicate SameStreams(s: System, t: System) {
    forall c :: c != s.host.conn ==> Get(t.inbox, c) == Get(s.inbox, c)
  }

  /** The staged bytes after the flash call of phase `ph` has succeeded. */
  function StagedAfter(staged: seq<Byte>, fw: seq<Byte>, ph: H.Phase): seq<Byte>
    requires H.PhaseOk(fw, TCP_CHUNK, ph)
  {
    match ph
    case Starting => []
    case Sending(off) => staged + fw[off..H.ChunkEnd(fw, TCP_CHUNK, off)]
    case Ending => staged
    case Done => staged
  }

  /** The host puts its packet on the wire. */
  lemma SendStage(s: System) returns (t: System)
    requires AtRest(s) && !s.host.pc.ph.Done?
    ensures Leads(s, t) && Inv(t) && t == s.(inbox := t.inbox, host := t.host)
    ensures t.host == s.host.(pc := Waiting(s.host.pc.ph)) && HostPhaseOk(s)
    ensures Get(t.inbox, s.host.conn) == HostPacket(s) != []
    ensures SameStreams(s, t)
  {
    assert WireOk(ViewOf(s));
    LeadsSame(s);
    LeadsOn(s, s, HostSend);
    t := Apply(s, HostSend);
    StepInv(s, HostSend);
    hide Leads, Inv, HostInv, ImageOk, TaskOk, LogOk, FreshOk;
    var pkt := HostPacket(s);
    assert [] + pkt[..|pkt|] == pkt;
  }

  /** The handler sees a non-zero count and takes its snapshot; connection c has entry number k. */
  lemma WakeStage(s: System, c: Conn) returns (t: System, k: nat)
    requires Inv(s) && s.srv.han.Idle? && exists fd :: S.Live(s.srv, fd, c)
    ensures Leads(s, t) && Inv(t) && t == s.(srv := t.srv) && t.srv.han.Polling?
    ensures k < t.srv.n && t.srv.n <= |t.srv.poll|
    ensures t.srv.poll[k] in t.srv.open && t.srv.open[t.srv.poll[k]] == c
    ensures SameTable(s.srv, t.srv)
  {
    k := SnapshotHas(s.srv, c);
    LeadsSame(s);
    LeadsOn(s, s, Server(S.Guard));
    var b := Apply(s, Server(S.Guard));
    LeadsOn(s, b, Server(S.TakeSnapshot));
    t := Apply(b, Server(S.TakeSnapshot));
    LeadsKeepsInv(s, t);
    assert t.srv.poll[k] == ActiveFds(s.srv.slots)[k];
  }

  /** Poll reports input on entry k alone; the handler passes the entries before it. */
  lemma ArriveStage(s: System, k: nat) returns (t: System)
    requires Inv(s) && s.srv.han.Polling? && k < s.srv.n <= |s.srv.poll|
    ensures Leads(s, t) && Inv(t) && t == At(s, k, OnlyInput(s.srv.n, k))
    ensures S.Enabled(t.srv, S.Visit(S.Got))
  {
    var ev := OnlyInput(s.srv.n, k);
    LeadsSame(s);
    LeadsOn(s, s, Server(S.Poll(1, ev)));
    assert Apply(s, Server(S.Poll(1, ev))) == At(s, 0, ev);
    PassQuietEntries(s, s, 0, k, ev);
    t := At(s, k, ev);
    LeadsKeepsInv(s, t);
  }

  /** The host's request is in its stream, the handler idle: the handler gets to read it. */
  lemma RequestReachesHandler(s: System) returns (t: System)
    requires RequestWaits(s)
    ensures Leads(s, t) && Inv(t) && CanReceive(t)
    ensures t.srv.open[t.srv.poll[t.srv.han.i]] == s.host.conn
    ensures t.srv.han.ev == OnlyInput(t.srv.n, t.srv.han.i)
    ensures t == s.(srv := t.srv) && SameTable(s.srv, t.srv)
  {
    hide Inv;
    var b, k := WakeStage(s, s.host.conn);
    t := ArriveStage(b, k);
    LeadsTrans(s, b, t);
  }

  /** A flash call that succeeds. */
  const ALL_GOOD := D.Outcome(true, 0, 0)

  lemma ReceiveStage(s: System) returns (t: System)
    requires Inv(s) && CanReceive(s) && s.host.pc.Waiting?
    requires s.srv.open[s.srv.poll[s.srv.han.i]] == s.host.conn
    ensures Leads(s, t) && Inv(t) && HostPhaseOk(s) && t == s.(srv := t.srv, task := t.task, inbox := t.inbox)
    ensures t.task.Request? && t.task.conn == s.host.conn && t.task.buf == HostPacket(s)
    ensures t.srv == s.srv.(han := S.InCallback(s.srv.han.i, s.srv.han.ev)) && SameStreams(s, t)
  {
    hide Inv;
    RequestIsPacket(s);
    LeadsSame(s);
    LeadsOn(s, s, Receive);
    t := Apply(s, Receive);
    LeadsKeepsInv(s, t);
    var pkt := HostPacket(s);
    assert pkt[..|pkt|] == pkt;
  }

  lemma RequestIsPacket(s: System)
    requires Inv(s) && s.host.pc.Waiting? && Get(s.inbox, s.host.conn) != []
    ensures HostPhaseOk(s) && Get(s.inbox, s.host.conn) == HostPacket(s) && |HostPacket(s)| <= MTU_SIZE
  {
    assert WireOk(ViewOf(s));
  }

  lemma OperateStage(s: System) returns (t: System)
    requires Inv(s) && s.host.pc.Waiting? && s.task.Request? && s.task.conn == s.host.conn
    requires HostPhaseOk(s) && s.task.buf == HostPacket(s) && !s.host.pc.ph.Done?
    ensures Leads(s, t) && Inv(t) && t == s.(task := t.task, flash := t.flash, log := t.log)
    ensures t.task.Reply? && t.task.conn == s.host.conn && (t.task.final <==> s.host.pc.ph == H.Ending)
    ensures t.log != [] && t.log == s.log + [Last(t.log)] && Last(t.log).conn == s.host.conn && Last(t.log).ok
    ensures t.flash.staged == StagedAfter(s.flash.staged, s.host.fw, s.host.pc.ph)
  {
    LeadsSame(s);
    LeadsOn(s, s, Operate(ALL_GOOD));
    t := Apply(s, Operate(ALL_GOOD));
    StepInv(s, Operate(ALL_GOOD));
    var payload := s.task.buf[1..];
    assert payload[..|payload|] == payload;
  }

  lemma ReplyStage(s: System) returns (t: System)
    requires Inv(s) && s.task.Reply?
    ensures Leads(s, t) && Inv(t) && t == s.(srv := t.srv, task := t.task, outbox := t.outbox, replies := t.replies)
    ensures s.host.pc.Waiting? && s.task.conn == s.host.conn ==> |Get(t.outbox, s.host.conn)| >= 2
    ensures s.task.conn != s.host.conn ==> Get(t.outbox, s.host.conn) == Get(s.outbox, s.host.conn)
    ensures if s.task.final then t.task == Upgrade
            else t.task == NoTask && t.srv == s.srv.(han := S.Walking(s.srv.han.i + 1, s.srv.han.ev))
  {
    TaskConnection(s);
    LeadsSame(s);
    LeadsOn(s, s, SendReply(2));
    t := Apply(s, SendReply(2));
    StepInv(s, SendReply(2));
  }

  lemma AckStage(s: System) returns (t: System)
    requires Inv(s) && s.host.pc.Waiting? && |Get(s.outbox, s.host.conn)| >= 2 && LastOk(s.log, s.host.conn)
    ensures Leads(s, t) && Inv(t) && HostPhaseOk(s) && t == s.(host := t.host, outbox := t.outbox)
    ensures t.host == s.host.(pc := Ready(H.NextPhase(s.host.fw, TCP_CHUNK, s.host.pc.ph)), acks := s.host.acks + 1)
  {
    AckKeeps(ViewOf(s));
    LeadsSame(s);
    LeadsOn(s, s, HostRecv);
    t := Apply(s, HostRecv);
    StepInv(s, HostRecv);
  }

  lemma SessionNotDone(s: System)
    requires Inv(s) && s.host.pc.Waiting?
    ensures !s.host.pc.ph.Done?
  {
    assert WireOk(ViewOf(s));
  }

  /** What an exchange that goes well changes, from the moment the host has sent. */
  ghost predicate Exchanged(s: System, t: System, ph: H.Phase) {
    && H.PhaseOk(s.host.fw, TCP_CHUNK, ph)
    && t.host == s.host.(pc := Ready(H.NextPhase(s.host.fw, TCP_CHUNK, ph)), acks := s.host.acks + 1)
    && t.log != [] && t.log == s.log + [Last(t.log)] && Last(t.log).conn == s.host.conn
    && t.flash.staged == StagedAfter(s.flash.staged, s.host.fw, ph)
    && t.hostConns == s.hostConns && t.born == s.born && SameStreams(s, t)
  }

  /** The handler reads the request, does its flash work, replies in full; the host reads the reply. */
  lemma HandlerAnswers(s: System) returns (t: System)
    requires Inv(s) && CanReceive(s) && s.host.pc.Waiting?
    requires s.srv.open[s.srv.poll[s.srv.han.i]] == s.host.conn
    ensures Leads(s, t) && Inv(t) && Exchanged(s, t, s.host.pc.ph)
    ensures if s.host.pc.ph == H.Ending then t.task == Upgrade
            else t.srv == s.srv.(han := S.Walking(s.srv.han.i + 1, s.srv.han.ev))
  {
    hide Inv;
    SessionNotDone(s);
    var a := ReceiveStage(s);
    var b := OperateStage(a);
    LeadsTrans(s, a, b);
    var d := ReplyStage(b);
    LeadsTrans(s, b, d);
    t := AckStage(d);
    LeadsTrans(s, d, t);
  }

  lemma LeadsTrans(s: System, t: System, u: System)
    requires Leads(s, t) && Leads(t, u)
    ensures Leads(s, u)
  {
    var a :| Executable(s, a) && Exec(s, a) == t;
    var b :| Executable(t, b) && Exec(t, b) == u;
    ExecAppend(s, a, b);
  }

  /** The handler passes the rest of its snapshot and goes idle. */
  lemma SettleStage(s: System, i: nat, ev: seq<S.Events>) returns (t: System)
    requires Inv(s) && s.srv.han == S.Walking(i, ev) && i > 0 && ev == OnlyInput(s.srv.n, i - 1)
    ensures Leads(s, t) && Inv(t) && t == s.(srv := s.srv.(han := S.Idle))
  {
    assert At(s, i, ev) == s;
    LeadsSame(s);
    PassQuietEntries(s, s, i, s.srv.n, ev);
    var last := At(s, s.srv.n, ev);
    LeadsOn(s, last, Server(S.Visit(S.NoData)));
    t := Apply(last, Server(S.Visit(S.NoData)));
    assert t == s.(srv := s.srv.(han := S.Idle));
    LeadsKeepsInv(s, t);
  }

  /** After an exchange that was not the last, the handler settles and the host is at rest again. */
  lemma RestStage(s: System, a: System, b: System) returns (t: System)
    requires Inv(a) && CanReceive(a) && a.srv.open[a.srv.poll[a.srv.han.i]] == b.host.conn
    requires a.srv.han.ev == OnlyInput(a.srv.n, a.srv.han.i)
    requires Leads(s, b) && Inv(b) && b.host.pc.Ready?
    requires b.srv == a.srv.(han := S.Walking(a.srv.han.i + 1, a.srv.han.ev))
    ensures Leads(s, t) && AtRest(t) && t == b.(srv := b.srv.(han := S.Idle))
  {
    hide Leads, HostInv, LogOk, FreshOk;
    var fd := a.srv.poll[a.srv.han.i];
    EntryConnection(a);
    assert S.Live(a.srv, fd, b.host.conn);
    t := SettleStage(b, a.srv.han.i + 1, a.srv.han.ev);
    LeadsTrans(s, b, t);
    assert S.Live(t.srv, fd, b.host.conn);
  }

  /** The rest of an exchange whose request is in the stream; the handler is idle again behind it,
      unless it was the last one. */
  lemma ServeRequest(s: System) returns (t: System)
    requires RequestWaits(s)
    ensures Leads(s, t) && Inv(t) && Exchanged(s, t, s.host.pc.ph)
    ensures s.host.pc.ph != H.Ending ==> AtRest(t) && SameTable(s.srv, t.srv)
  {
    hide Inv;
    var a := RequestReachesHandler(s);
    t := HandlerAnswers(a);
    LeadsTrans(s, a, t);
    if s.host.pc.ph != H.Ending {
      t := RestStage(s, a, t);
    }
  }

  /** One whole exchange. */
  lemma Exchange(s: System) returns (t: System)
    requires AtRest(s) && !s.host.pc.ph.Done?
    ensures Leads(s, t) && Inv(t) && Exchanged(s, t, s.host.pc.ph)
    ensures s.host.pc.ph != H.Ending ==> AtRest(t) && SameTable(s.srv, t.srv)
  {
    hide Inv;
    var a := SendStage(s);
    t := ServeRequest(a);
    LeadsTrans(s, a, t);
  }

  /** The staged bytes when a session has run to its end from phase `ph` on. */
  function StagedAtEnd(staged: seq<Byte>, fw: seq<Byte>, ph: H.Phase): seq<Byte> {
    match ph
    case Starting => fw
    case Sending(off) => if off <= |fw| then staged + fw[off..] else staged
    case Ending => staged
    case Done => staged
  }

  lemma StagedStepwise(staged: seq<Byte>, fw: seq<Byte>, ph: H.Phase)
    requires H.PhaseOk(fw, TCP_CHUNK, ph)
    ensures StagedAtEnd(StagedAfter(staged, fw, ph), fw, H.NextPhase(fw, TCP_CHUNK, ph)) == StagedAtEnd(staged, fw, ph)
  {
    match ph
    case Starting => assert [] + fw[0..] == fw;
    case Sending(off) =>
      var end := H.ChunkEnd(fw, TCP_CHUNK, off);
      assert staged + fw[off..end] + fw[end..] == staged + fw[off..];
    case Ending =>
    case Done =>
  }

  predicate OwnFrom(log: seq<D.Entry>, from: nat, c: Conn) {
    forall i :: from <= i < |log| ==> log[i].conn == c
  }

  /** A connection's own commands do not disturb its session. */
  lemma OwnKeepUndisturbed(log: seq<D.Entry>, more: seq<D.Entry>, c: Conn)
    requires Undisturbed(log, c) && log <= more && OwnFrom(more, |log|, c)
    ensures Undisturbed(more, c)
  {
    forall i, j | 0 <= i < j < |more| && D.IsStartOf(more[i], c)
      ensures !D.Alters(more[j], c)
    {
      if j < |log| {
        assert log[i] == more[i] && log[j] == more[j];
      }
    }
  }

  lemma OwnNone(log: seq<D.Entry>, c: Conn)
    ensures OwnFrom(log, |log|, c)
  {
  }

  lemma OwnOneMore(a: seq<D.Entry>, b: seq<D.Entry>, d: seq<D.Entry>, c: Conn)
    requires b != [] && b == a + [Last(b)] && Last(b).conn == c
    requires b <= d && OwnFrom(d, |b|, c)
    ensures a <= d && OwnFrom(d, |a|, c)
  {
    assert d[|a|] == b[|a|];
  }

  /** From rest the session runs to its end, one exchange after the other. */
  lemma {:induction false} FinishFrom(s: System) returns (t: System)
    requires AtRest(s) && !s.host.pc.ph.Done?
    ensures Leads(s, t) && Inv(t) && Succeeded(t.host)
    ensures t.host.fw == s.host.fw && t.host.conn == s.host.conn && t.hostConns == s.hostConns
    ensures s.log <= t.log && OwnFrom(t.log, |s.log|, s.host.conn)
    ensures t.flash.staged == StagedAtEnd(s.flash.staged, s.host.fw, s.host.pc.ph)
    decreases if HostPhaseOk(s) then H.ExchangesLeft(s.host.fw, TCP_CHUNK, s.host.pc.ph) else 0
  {
    hide Inv, Leads, OwnFrom;
    t := Exchange(s);
    OwnNone(t.log, s.host.conn);
    OwnOneMore(s.log, t.log, t.log, s.host.conn);
    StagedStepwise(s.flash.staged, s.host.fw, s.host.pc.ph);
    H.PhaseAdvances(s.host.fw, TCP_CHUNK, s.host.pc.ph);
    if s.host.pc.ph != H.Ending {
      var u := FinishFrom(t);
      LeadsTrans(s, t, u);
      OwnOneMore(s.log, t.log, u.log, s.host.conn);
      t := u;
    }
  }

  lemma CommittedAtEnd(s: System)
    requires Inv(s) && Succeeded(s.host)
    ensures Committed(s) && D.Image(s.flash) == s.flash.staged
    ensures Undisturbed(s.log, s.host.conn) ==> s.flash.staged == s.host.fw
    ensures s.task.Upgrade? || (s.task.Restart? && s.upgraded) || (s.srv.han.Halted? && s.upgraded)
    ensures s.task.Upgrade? || s.task.Restart? ==> S.Enabled(s.srv, S.Halt)
  {
    assert ImageOk(ViewOf(s));
  }

  /** A host told of success: the device can do nothing but request the upgrade and reboot. */
  lemma RebootStage(s: System) returns (t: System)
    requires Inv(s) && Succeeded(s.host)
    ensures Leads(s, t) && Inv(t) && t.srv.han.Halted? && t.upgraded
    ensures D.Image(t.flash) == t.flash.staged
    ensures t == s.(srv := t.srv, task := t.task, upgraded := t.upgraded)
  {
    CommittedAtEnd(s);
    hide Inv, Committed;
    LeadsSame(s);
    t := s;
    if t.task.Upgrade? {
      LeadsOn(s, t, RequestUpgrade);
      t := Apply(t, RequestUpgrade);
    }
    if t.task.Restart? {
      LeadsOn(s, t, Reboot);
      t := Apply(t, Reboot);
    }
    LeadsKeepsInv(s, t);
  }

  // ---------------------------------------------------------------- from the middle of things

  /** The connection is in the table, and poll has reported no hang-up for it in the rest of the walk. */
  ghost predicate StaysServed(v: S.Server, c: Conn) {
    && (exists fd :: S.Live(v, fd, c))
    && (v.han.Walking? || v.han.InCallback? ==>
          forall k :: v.han.i <= k < v.n && k < |v.ids| && k < |v.han.ev| && v.ids[k] == c ==>
            !v.han.ev[k].hup || (v.han.InCallback? && k == v.han.i))
  }

  /** A turn of the handler's loop that reads nothing leaves a served connection served. */
  lemma PassKeepsServed(v: S.Server, c: Conn)
    requires S.Inv(v) && v.han.Walking? && StaysServed(v, c)
    ensures S.Enabled(v, S.Visit(S.NoData))
    ensures var w := S.Apply(v, S.Visit(S.NoData));
            && StaysServed(w, c) && w.n == v.n
            && w.han == (if v.han.i >= v.n then S.Idle else S.Walking(v.han.i + 1, v.han.ev))
  {
    var i, w := v.han.i, S.Apply(v, S.Visit(S.NoData));
    var fd :| S.Live(v, fd, c);
    if i < v.n && v.han.ev[i].hup {
      assert S.Live(v, v.poll[i], v.ids[i]);
      S.RemoveClientInv(v, v.poll[i], v.ids[i]);
      assert S.Live(S.RemoveClient(v, v.poll[i]), fd, c);
    }
    assert S.Live(w, fd, c);
  }

  /** The handler can always finish its walk without reading anything. */
  lemma WalkStage(s: System, c: Conn) returns (t: System)
    requires Inv(s) && s.srv.han.Walking? && StaysServed(s.srv, c)
    ensures Leads(s, t) && Inv(t) && t == s.(srv := t.srv) && t.srv.han.Idle? && StaysServed(t.srv, c)
    decreases s.srv.n - s.srv.han.i
  {
    assert S.Inv(s.srv);
    PassKeepsServed(s.srv, c);
    LeadsSame(s);
    LeadsOn(s, s, Server(S.Visit(S.NoData)));
    t := Apply(s, Server(S.Visit(S.NoData)));
    LeadsKeepsInv(s, t);
    if !t.srv.han.Idle? {
      var u := WalkStage(t, c);
      LeadsTrans(s, t, u);
      t := u;
    }
  }

  /** Poll times out. */
  lemma TimeoutStage(s: System, c: Conn) returns (t: System)
    requires Inv(s) && s.srv.han.Polling? && StaysServed(s.srv, c)
    ensures Leads(s, t) && Inv(t) && t == s.(srv := t.srv) && t.srv.han.Idle? && StaysServed(t.srv, c)
  {
    assert 0 <= s.srv.n;
    var step := Server(S.Poll(0, OnlyInput(s.srv.n, 0)));
    LeadsSame(s);
    LeadsOn(s, s, step);
    t := Apply(s, step);
    LeadsKeepsInv(s, t);
    var fd :| S.Live(s.srv, fd, c);
    assert S.Live(t.srv, fd, c);
  }

  /** Outside its callback the handler can always get back to the top of its loop. */
  lemma IdleStage(s: System, c: Conn) returns (t: System)
    requires Inv(s) && s.task.NoTask? && !s.srv.han.Halted? && StaysServed(s.srv, c)
    ensures Leads(s, t) && Inv(t) && t == s.(srv := t.srv) && t.srv.han.Idle? && StaysServed(t.srv, c)
  {
    assert !s.srv.han.InCallback?;
    LeadsSame(s);
    t := s;
    if s.srv.han.Walking? {
      t := WalkStage(s, c);
    } else if s.srv.han.Polling? {
      t := TimeoutStage(s, c);
    } else if s.srv.han.Counted? {
      var step := Server(S.TakeSnapshot);
      LeadsOn(s, s, step);
      var a := Apply(s, step);
      LeadsKeepsInv(s, a);
      var fd :| S.Live(s.srv, fd, c);
      assert S.Live(a.srv, fd, c);
      t := TimeoutStage(a, c);
      LeadsTrans(s, a, t);
    }
  }

  /**
    * Nothing stands in the way of the session: its connection is served, its last request was not
    * refused and the reply to it not lost, and the device is not about to reboot for somebody else.
    */
  ghost predicate OnCourse(s: System) {
    && Inv(s) && StaysServed(s.srv, s.host.conn)
    && !s.host.pc.Failed? && !s.host.pc.ph.Done?
    && (s.host.pc.Waiting? && !Unhandled(s) ==>
          && LastOk(s.log, s.host.conn)
          && (JobOf(s.task, s.host.conn).Answering? || |Get(s.outbox, s.host.conn)| >= 2))
    && (s.task.Reply? && s.task.final ==> s.task.conn == s.host.conn)
    && (Committed(s) ==> s.host.pc == Waiting(H.Ending) && !Unhandled(s))
  }

  /** Where a session ends well. */
  ghost predicate Finished(s: System, t: System) {
    && Leads(s, t) && Inv(t) && Succeeded(t.host)
    && t.host.fw == s.host.fw && t.host.conn == s.host.conn
    && Undisturbed(t.log, t.host.conn)
  }

  lemma FinishedTrans(s: System, t: System, u: System)
    requires Leads(s, t) && Finished(t, u) && t.host.fw == s.host.fw && t.host.conn == s.host.conn
    ensures Finished(s, u)
  {
    LeadsTrans(s, t, u);
  }

  lemma FinishAtRest(s: System) returns (t: System)
    requires AtRest(s) && !s.host.pc.ph.Done? && Undisturbed(s.log, s.host.conn)
    ensures Finished(s, t)
  {
    t := FinishFrom(s);
    OwnKeepUndisturbed(s.log, t.log, s.host.conn);
  }

  lemma FinishRequest(s: System) returns (t: System)
    requires RequestWaits(s) && Undisturbed(s.log, s.host.conn)
    ensures Finished(s, t)
  {
    hide Inv, Leads;
    t := ServeRequest(s);
    OwnKeepUndisturbed(s.log, t.log, s.host.conn);
    SessionNotDone(s);
    if s.host.pc.ph != H.Ending {
      NotDoneNext(s.host.fw, s.host.pc.ph);
      var u := FinishAtRest(t);
      FinishedTrans(s, t, u);
      t := u;
    }
  }

  lemma NotDoneNext(fw: seq<Byte>, ph: H.Phase)
    requires H.PhaseOk(fw, TCP_CHUNK, ph) && !ph.Done?
    ensures H.NextPhase(fw, TCP_CHUNK, ph).Done? <==> ph == H.Ending
  {
  }

  /** The complete reply is there to be read; the handler is idle or the device committed. */
  lemma FinishReply(s: System) returns (t: System)
    requires Inv(s) && s.host.pc.Waiting? && |Get(s.outbox, s.host.conn)| >= 2 && LastOk(s.log, s.host.conn)
    requires s.host.pc.ph != H.Ending ==> s.srv.han.Idle? && exists fd :: S.Live(s.srv, fd, s.host.conn)
    requires Undisturbed(s.log, s.host.conn)
    ensures Finished(s, t)
  {
    hide Inv, Leads;
    SessionNotDone(s);
    t := AckStage(s);
    if s.host.pc.ph != H.Ending {
      NotDoneNext(s.host.fw, s.host.pc.ph);
      var u := FinishAtRest(t);
      FinishedTrans(s, t, u);
      t := u;
    }
  }

  lemma FinishOutsideCallback(s: System) returns (t: System)
    requires OnCourse(s) && s.task.NoTask? && !Committed(s) && Undisturbed(s.log, s.host.conn)
    ensures Finished(s, t)
  {
    var a := IdleStage(s, s.host.conn);
    hide Inv, Leads, Committed;
    if s.host.pc.Ready? {
      t := FinishAtRest(a);
    } else if Unhandled(s) {
      t := FinishRequest(a);
    } else {
      t := FinishReply(a);
    }
    FinishedTrans(s, a, t);
  }

  /** The host's request has been handled; the handler replies in full and the host reads the reply. */
  lemma OwnReply(s: System) returns (t: System)
    requires OnCourse(s) && JobOf(s.task, s.host.conn).Answering? && Undisturbed(s.log, s.host.conn)
    ensures Finished(s, t)
  {
    OwnReplyFacts(s);
    var a := ReplyStage(s);
    t := AckStage(a);
    LeadsTrans(s, a, t);
    if s.host.pc.ph != H.Ending {
      NotDoneNext(s.host.fw, s.host.pc.ph);
      StillOnCourse(s, t);
      var u := FinishOutsideCallback(t);
      FinishedTrans(s, t, u);
      t := u;
    }
  }

  lemma OwnReplyFacts(s: System)
    requires OnCourse(s) && JobOf(s.task, s.host.conn).Answering?
    ensures s.host.pc.Waiting? && LastOk(s.log, s.host.conn) && !s.host.pc.ph.Done? && HostPhaseOk(s)
    ensures s.task.final <==> s.host.pc.ph == H.Ending
  {
    assert WireOk(ViewOf(s));
    assert s.task.msg[0] == Last(s.log).req;
    AnsweredEntry(s);
  }

  /** Returning from the callback with the host between exchanges leaves the session on course. */
  lemma StillOnCourse(s: System, t: System)
    requires Inv(t) && t.task.NoTask? && t.host.conn == s.host.conn && StaysServed(s.srv, s.host.conn)
    requires s.srv.han.InCallback? && t.srv == s.srv.(han := S.Walking(s.srv.han.i + 1, s.srv.han.ev))
    requires t.host.pc.Ready? && !t.host.pc.ph.Done?
    ensures OnCourse(t) && !Committed(t)
  {
    var fd :| S.Live(s.srv, fd, s.host.conn);
    assert S.Live(t.srv, fd, s.host.conn);
  }

  lemma OwnRequest(s: System) returns (t: System)
    requires OnCourse(s) && JobOf(s.task, s.host.conn).Got? && Undisturbed(s.log, s.host.conn)
    ensures Finished(s, t)
  {
    assert WireOk(ViewOf(s));
    var a := OperateStage(s);
    OwnKeepUndisturbed(s.log, a.log, s.host.conn);
    LastOfOwn(a.log, s.host.conn);
    t := OwnReply(a);
    FinishedTrans(s, a, t);
  }

  lemma LastOfOwn(log: seq<D.Entry>, c: Conn)
    requires log != [] && Last(log).conn == c
    ensures LastOk(log, c) == Last(log).ok
  {
  }

  /** A flash call that fails and takes nothing. */
  const REFUSED := D.Outcome(false, 0, 0)

  /** Somebody else's request can be refused, which disturbs nothing. */
  lemma OthersRequest(s: System) returns (t: System)
    requires OnCourse(s) && s.task.Request? && s.task.conn != s.host.conn && Undisturbed(s.log, s.host.conn)
    ensures Finished(s, t)
  {
    LeadsSame(s);
    LeadsOn(s, s, Operate(REFUSED));
    var a := Apply(s, Operate(REFUSED));
    StepInv(s, Operate(REFUSED));
    LogGrows(s.log, Last(a.log), s.host.conn);
    UndisturbedGrows(s.log, Last(a.log), s.host.conn);
    t := OthersReply(a);
    FinishedTrans(s, a, t);
  }

  lemma OthersReply(s: System) returns (t: System)
    requires OnCourse(s) && s.task.Reply? && s.task.conn != s.host.conn && Undisturbed(s.log, s.host.conn)
    ensures Finished(s, t)
  {
    var a := ReplyStage(s);
    var fd :| S.Live(s.srv, fd, s.host.conn);
    assert S.Live(a.srv, fd, s.host.conn);
    t := FinishOutsideCallback(a);
    FinishedTrans(s, a, t);
  }

  /** A session on course can be finished, wherever the host and the handler are. */
  lemma SessionFinishes(s: System) returns (t: System)
    requires OnCourse(s) && Undisturbed(s.log, s.host.conn)
    ensures Finished(s, t)
  {
    if Committed(s) {
      t := FinishReply(s);
    } else {
      match s.task
      case NoTask => t := FinishOutsideCallback(s);
      case Request(_, c, _) => if c == s.host.conn { t := OwnRequest(s); } else { t := OthersRequest(s); }
      case Reply(_, c, _, _) => if c == s.host.conn { t := OwnReply(s); } else { t := OthersReply(s); }
      case _ => assert false;
    }
  }

  /**
    * Whatever else the table, the streams and the staging area hold, and wherever the host is in its
    * exchange and the handler in its loop or its callback: a session on course that has not been
    * disturbed can still finish. Some continuation ends with the host told of success, its firmware on
    * flash, and the device rebooted after requesting the upgrade.
    */
  lemma SessionCanFinish(s: System)
    requires OnCourse(s) && Undisturbed(s.log, s.host.conn)
    ensures exists t :: Leads(s, t) && Succeeded(t.host) && t.host.fw == s.host.fw
                        && D.Image(t.flash) == s.host.fw && t.srv.han.Halted? && t.upgraded
  {
    var a := SessionFinishes(s);
    CommittedAtEnd(a);
    var t := RebootStage(a);
    LeadsTrans(s, a, t);
  }

  /** Accept a waiting connection and put it into the first slot. */
  lemma AdmitStage(s: System, fd: int, c: Conn) returns (t: System)
    requires Inv(s) && s.srv.acc.Accepting? && !s.srv.han.Halted?
    requires fd >= 0 && fd !in s.srv.open && c in s.backlog && c !in s.srv.accepted
    requires FirstFree(s.srv.slots) < |s.srv.slots|
    ensures Leads(s, t) && Inv(t) && t == s.(srv := t.srv, backlog := t.backlog)
    ensures t.srv.han == s.srv.han && t.srv.acc.Accepting? && S.Live(t.srv, fd, c)
    ensures t.srv.open == s.srv.open[fd := c]
    ensures t.srv.slots == Insert(s.srv.slots, fd) && t.srv.who == s.srv.who[FirstFree(s.srv.slots) := c]
  {
    var k := FirstFree(s.srv.slots);
    LeadsSame(s);
    LeadsOn(s, s, AcceptConn(fd, c));
    var a := Apply(s, AcceptConn(fd, c));
    LeadsOn(s, a, Server(S.LockedInsert));
    t := Apply(a, Server(S.LockedInsert));
    LeadsKeepsInv(s, t);
    assert t.srv.slots[k].active && t.srv.slots[k].fd == fd && t.srv.who[k] == c;
  }

  /** From power-up with at least one slot: every firmware, the empty one included, can be installed. */
  lemma EveryFirmwareCanBeInstalled(s: System)
    requires Init(s) && |s.srv.slots| > 0
    ensures exists t :: Leads(s, t) && Succeeded(t.host) && D.Image(t.flash) == s.host.fw && t.srv.han.Halted?
  {
    InitInv(s);
    var b := AdmitStage(s, 3, 0);
    assert Undisturbed(b.log, 0);
    SessionCanFinish(b);
    var t :| Leads(b, t) && Succeeded(t.host) && t.host.fw == b.host.fw
             && D.Image(t.flash) == b.host.fw && t.srv.han.Halted? && t.upgraded;
    LeadsTrans(s, b, t);
  }
}
