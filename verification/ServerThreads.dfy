/**
  * The accept thread and the handler thread of the TCP server, interleaved step by step over the
  * shared client table. `open` is the kernel's descriptor table: it gives each open descriptor the
  * identity of the connection behind it, so that reuse of a descriptor number is visible.
  */
module ServerThreads {
  import opened Protocol
  import opened SlotTable

  datatype AcceptPc = Accepting | Holding(fd: int) | Rejecting(fd: int)

  datatype Events = Events(hup: bool, input: bool)

  /** Where the handler thread is. Walking and InCallback carry the loop index and the poll events. */
  datatype HandlerPc =
    | Idle
    | Counted
    | Polling
    | Walking(i: nat, ev: seq<Events>)
    | InCallback(i: nat, ev: seq<Events>)
    | Halted

  /**
    * `slots`, `numActive`: the shared record. `poll`, `n`: the handler's own poll array and count.
    * History only: `who` (connection each slot was last filled for), `ids` (connections behind the
    * first `n` poll entries when the snapshot was taken), `accepted`, `closed`, and `badCloses`
    * (closes of a descriptor that was not open).
    */
  datatype Server = Server(
    slots: seq<Slot>, numActive: int,
    acc: AcceptPc, han: HandlerPc,
    poll: seq<int>, n: int,
    open: map<int, Conn>,
    who: seq<Conn>, ids: seq<Conn>,
    accepted: set<Conn>, closed: seq<Conn>, badCloses: nat)

  /** What a non-blocking recv reports: bytes, end of stream, or an error such as no data. */
  datatype Recv = Got | Eof | NoData

  datatype Step =
    | Accept(fd: int, conn: Conn)
    | LockedInsert
    | CloseRejected
    | Guard
    | TakeSnapshot
    | Poll(res: int, ev: seq<Events>)
    | Visit(rx: Recv)
    | Return
    | Halt

  ghost predicate Init(v: Server) {
    && |v.slots| == |v.who| == |v.poll|
    && (forall i :: 0 <= i < |v.slots| ==> !v.slots[i].active)
    && v.numActive == 0 && v.acc == Accepting && v.han == Idle
    && v.open == map[] && v.accepted == {} && v.closed == [] && v.badCloses == 0
  }

  predicate Enabled(v: Server, step: Step) {
    && |v.slots| == |v.who| == |v.poll|
    && v.han != Halted
    && match step
       case Accept(fd, conn) => v.acc == Accepting && fd >= 0 && fd !in v.open && conn !in v.accepted
       case LockedInsert => v.acc.Holding? && v.acc.fd in v.open
       case CloseRejected => v.acc.Rejecting?
       case Guard => v.han == Idle
       case TakeSnapshot => v.han == Counted
       case Poll(_, ev) => v.han == Polling && |ev| == v.n
       case Visit(_) => v.han.Walking? && (v.han.i < v.n ==> v.han.i < |v.poll| && v.han.i < |v.han.ev|)
       case Return => v.han.InCallback?
       case Halt => v.han.InCallback?
  }

  function Close(v: Server, fd: int): Server {
    if fd in v.open then v.(open := v.open - {fd}, closed := v.closed + [v.open[fd]])
    else v.(badCloses := v.badCloses + 1)
  }

  /** `remove_client`: the lowest slot with this fd, whether or not it is active. */
  function RemoveClient(v: Server, fd: int): Server {
    if FirstWithFd(v.slots, fd) < |v.slots| then
      Close(v.(slots := Remove(v.slots, fd), numActive := v.numActive - 1), fd)
    else v
  }

  /** The locked part of `add_client`. */
  function TryInsert(v: Server, fd: int): Server
    requires |v.slots| == |v.who| && fd in v.open
  {
    var k := FirstFree(v.slots);
    if k < |v.slots| then
      v.(slots := Insert(v.slots, fd), who := v.who[k := v.open[fd]],
         numActive := v.numActive + 1, acc := Accepting)
    else v.(acc := Rejecting(fd))
  }

  /** The connections of the active slots, in slot order. */
  function ActiveConns(v: Server): seq<Conn>
    requires |v.slots| == |v.who|
  {
    seq(|ActiveIdx(v.slots)|, k requires 0 <= k < |ActiveIdx(v.slots)| => v.who[ActiveIdx(v.slots)[k]])
  }

  /** One turn of the loop over the poll array: hang-up is looked at first, then input. */
  function VisitEntry(v: Server, rx: Recv): Server
    requires Enabled(v, Visit(rx))
  {
    var i, ev := v.han.i, v.han.ev;
    if i >= v.n then v.(han := Idle)
    else if ev[i].hup || (ev[i].input && rx == Eof) then
      RemoveClient(v, v.poll[i]).(han := Walking(i + 1, ev))
    else if ev[i].input && rx == Got then v.(han := InCallback(i, ev))
    else v.(han := Walking(i + 1, ev))
  }

  function Apply(v: Server, step: Step): Server
    requires Enabled(v, step)
  {
    match step
    case Accept(fd, conn) =>
      v.(open := v.open[fd := conn], accepted := v.accepted + {conn}, acc := Holding(fd))
    case LockedInsert => TryInsert(v, v.acc.fd)
    case CloseRejected => Close(v, v.acc.fd).(acc := Accepting)
    case Guard => if v.numActive == 0 then v else v.(han := Counted)
    case TakeSnapshot =>
      v.(poll := Snapshot(v.slots, v.poll), n := v.numActive, ids := ActiveConns(v), han := Polling)
    case Poll(res, ev) => v.(han := if res <= 0 then Idle else Walking(0, ev))
    case Visit(rx) => VisitEntry(v, rx)
    case Return => v.(han := Walking(v.han.i + 1, v.han.ev))
    case Halt => v.(han := Halted)
  }

  /** A run is any list of steps, each enabled where it is taken: every interleaving is one. */
  predicate Executable(v: Server, steps: seq<Step>)
    decreases |steps|
  {
    steps == [] || (Enabled(v, steps[0]) && Executable(Apply(v, steps[0]), steps[1..]))
  }

  function Exec(v: Server, steps: seq<Step>): Server
    requires Executable(v, steps)
    decreases |steps|
  {
    if steps == [] then v else Exec(Apply(v, steps[0]), steps[1..])
  }

  // ---------------------------------------------------------------- the invariant

  /** The descriptor the accept thread holds outside the table, if any. */
  function Held(acc: AcceptPc): set<int> {
    if acc.Accepting? then {} else {acc.fd}
  }

  /** Some active slot holds this descriptor and was filled for this connection. */
  ghost predicate Live(v: Server, fd: int, id: Conn) {
    exists j :: 0 <= j < |v.slots| && j < |v.who| && v.slots[j].active && v.slots[j].fd == fd && v.who[j] == id
  }

  ghost predicate TableOk(v: Server) {
    && |v.slots| == |v.who| == |v.poll|
    && v.numActive == |ActiveIdx(v.slots)|
    && StaleFree(v.slots)
    && forall j :: 0 <= j < |v.slots| && v.slots[j].active ==>
         v.slots[j].fd in v.open && v.open[v.slots[j].fd] == v.who[j]
  }

  /** The open descriptors are exactly the active slots' and the held one, each owned once. */
  ghost predicate OpenOk(v: Server) {
    && (forall fd :: fd in v.open <==> fd in Held(v.acc) || ActiveFd(v.slots, fd))
    && (forall fd :: fd in Held(v.acc) ==> !ActiveFd(v.slots, fd))
  }

  /** Some descriptor is open on this connection. */
  ghost predicate IsOpen(v: Server, c: Conn) {
    exists f :: f in v.open && v.open[f] == c
  }

  /** Every accepted connection is open under one descriptor or was closed, once, never both. */
  ghost predicate LedgerOk(v: Server) {
    && v.badCloses == 0
    && (forall f, g :: f in v.open && g in v.open && f != g ==> v.open[f] != v.open[g])
    && (forall i, j :: 0 <= i < j < |v.closed| ==> v.closed[i] != v.closed[j])
    && (forall c :: c in v.accepted <==> c in v.closed || IsOpen(v, c))
    && (forall c :: c in v.closed ==> !IsOpen(v, c))
  }

  /** Snapshot entries from index `from` on still denote the connections they were taken for. */
  ghost predicate SnapshotLive(v: Server, from: nat) {
    && 0 <= v.n <= |v.poll| && |v.ids| == v.n && from <= v.n
    && (forall k :: from <= k < v.n ==> Live(v, v.poll[k], v.ids[k]))
    && (forall k, l :: 0 <= k < l < v.n ==> v.poll[k] != v.poll[l])
  }

  ghost predicate HandlerOk(v: Server) {
    match v.han
    case Idle => true
    case Counted => v.numActive > 0
    case Polling => SnapshotLive(v, 0)
    case Walking(i, ev) => SnapshotLive(v, i) && |ev| == v.n
    case InCallback(i, ev) => SnapshotLive(v, i) && |ev| == v.n && i < v.n
    case Halted => true
  }

  ghost predicate Inv(v: Server) {
    TableOk(v) && OpenOk(v) && LedgerOk(v) && HandlerOk(v)
  }

  lemma InitInv(v: Server)
    requires Init(v)
    ensures Inv(v)
  {
    NoneActive(v.slots);
    assert TableOk(v);
    assert OpenOk(v);
    assert LedgerOk(v);
  }

  lemma AcceptInv(v: Server, fd: int, conn: Conn)
    requires Inv(v) && Enabled(v, Accept(fd, conn))
    ensures Inv(Apply(v, Accept(fd, conn)))
  {
    var w := Apply(v, Accept(fd, conn));
    assert OpenOk(w);
    forall c ensures IsOpen(w, c) <==> IsOpen(v, c) || c == conn {
      if IsOpen(v, c) {
        var f :| f in v.open && v.open[f] == c;
        assert f in w.open && w.open[f] == c;
      }
      assert fd in w.open && w.open[fd] == conn;
    }
    assert LedgerOk(w);
    SameTable(v, w);
  }

  /** The handler's view survives any step that leaves the table and the handler's own data alone. */
  lemma SameTable(v: Server, w: Server)
    requires HandlerOk(v)
    requires w.slots == v.slots && w.who == v.who && w.numActive == v.numActive
    requires w.han == v.han && w.poll == v.poll && w.n == v.n && w.ids == v.ids
    ensures HandlerOk(w)
  {
    forall fd, id | Live(v, fd, id) ensures Live(w, fd, id) {}
  }

  /** Filling a free slot adds exactly that descriptor and leaves every live pair live. */
  lemma FillSlot(v: Server, fd: int)
    requires |v.slots| == |v.who| && fd in v.open && FirstFree(v.slots) < |v.slots|
    ensures var w := TryInsert(v, fd);
            && (forall g :: ActiveFd(w.slots, g) <==> ActiveFd(v.slots, g) || g == fd)
            && (forall g, id :: Live(v, g, id) ==> Live(w, g, id))
  {
    var k := FirstFree(v.slots);
    var w := TryInsert(v, fd);
    assert w.slots[k].active && w.slots[k].fd == fd;
    forall g ensures ActiveFd(w.slots, g) <==> ActiveFd(v.slots, g) || g == fd {
      if ActiveFd(v.slots, g) {
        var j :| 0 <= j < |v.slots| && v.slots[j].active && v.slots[j].fd == g;
        assert w.slots[j] == v.slots[j];
      }
    }
    forall g, id | Live(v, g, id) ensures Live(w, g, id) {
      var j :| 0 <= j < |v.slots| && v.slots[j].active && v.slots[j].fd == g && v.who[j] == id;
      assert w.slots[j] == v.slots[j] && w.who[j] == id;
    }
  }

  /** The handler's view survives any step that keeps live pairs live and does not count down. */
  lemma LiveKept(v: Server, w: Server)
    requires HandlerOk(v) && w.numActive >= v.numActive && |w.poll| == |v.poll|
    requires w.han == v.han && w.poll == v.poll && w.n == v.n && w.ids == v.ids
    requires forall g, id :: Live(v, g, id) ==> Live(w, g, id)
    ensures HandlerOk(w)
  {
  }

  lemma InsertInv(v: Server)
    requires Inv(v) && Enabled(v, LockedInsert)
    ensures Inv(Apply(v, LockedInsert))
  {
    var fd, k := v.acc.fd, FirstFree(v.slots);
    var w := Apply(v, LockedInsert);
    assert fd in Held(v.acc);
    if k < |v.slots| {
      InsertKeepsStaleFree(v.slots, fd);
      ActiveCountUpdate(v.slots, k, fd);
      FillSlot(v, fd);
      assert TableOk(w);
      assert OpenOk(w);
      SameLedger(v, w);
      LiveKept(v, w);
    } else {
      SameLedger(v, w);
      SameTable(v, w);
    }
  }

  lemma SameLedger(v: Server, w: Server)
    requires LedgerOk(v)
    requires w.open == v.open && w.accepted == v.accepted && w.closed == v.closed && w.badCloses == v.badCloses
    ensures LedgerOk(w)
  {
    forall c ensures IsOpen(w, c) <==> IsOpen(v, c) {}
  }

  /** Closing a descriptor that is open moves exactly its connection to the closed ones. */
  lemma CloseLedger(v: Server, fd: int)
    requires LedgerOk(v) && fd in v.open
    ensures LedgerOk(Close(v, fd))
  {
    var w := Close(v, fd);
    forall c ensures IsOpen(w, c) <==> IsOpen(v, c) && c != v.open[fd] {
      if IsOpen(v, c) && c != v.open[fd] {
        var f :| f in v.open && v.open[f] == c;
        assert f in w.open && w.open[f] == c;
      }
      if IsOpen(w, c) {
        var f :| f in w.open && w.open[f] == c;
        assert f in v.open && v.open[f] == c && f != fd;
      }
    }
    assert IsOpen(v, v.open[fd]);
    forall c ensures c in w.closed <==> c in v.closed || c == v.open[fd] {
      if c == v.open[fd] { assert w.closed[|v.closed|] == c; }
      if c in v.closed {
        var i :| 0 <= i < |v.closed| && v.closed[i] == c;
        assert w.closed[i] == c;
      }
    }
  }

  lemma CloseRejectedInv(v: Server)
    requires Inv(v) && Enabled(v, CloseRejected)
    ensures Inv(Apply(v, CloseRejected))
  {
    var fd := v.acc.fd;
    var w := Apply(v, CloseRejected);
    assert fd in Held(v.acc);
    CloseLedger(v, fd);
    assert LedgerOk(w);
    assert TableOk(w) by {
      forall j | 0 <= j < |v.slots| && v.slots[j].active
        ensures v.slots[j].fd in w.open && w.open[v.slots[j].fd] == w.who[j]
      {
        assert ActiveFd(v.slots, v.slots[j].fd);
      }
    }
    SameTable(v, w);
  }

  /** Clearing slot j removes exactly its descriptor; every other live pair stays live. */
  lemma ClearSlot(v: Server, j: nat)
    requires |v.slots| == |v.who| && StaleFree(v.slots) && j < |v.slots| && v.slots[j].active
    ensures var fd := v.slots[j].fd;
            var w := v.(slots := v.slots[j := Slot(fd, false)]);
            && w.slots == Remove(v.slots, fd)
            && |ActiveIdx(w.slots)| == |ActiveIdx(v.slots)| - 1
            && (forall g :: ActiveFd(w.slots, g) <==> ActiveFd(v.slots, g) && g != fd)
            && (forall g, c :: g != fd && Live(v, g, c) ==> Live(w, g, c))
  {
    var fd := v.slots[j].fd;
    var cleared := v.slots[j := Slot(fd, false)];
    RemovalHitsOwnSlotIffStaleFree(v.slots);
    ActiveCountUpdate(cleared, j, fd);
    assert cleared[j := Slot(fd, true)] == v.slots;
    ClearedFds(v.slots, j);
    var w := v.(slots := cleared);
    forall g, c | g != fd && Live(v, g, c) ensures Live(w, g, c) {
      var i :| 0 <= i < |v.slots| && v.slots[i].active && v.slots[i].fd == g && v.who[i] == c;
      assert w.slots[i] == v.slots[i];
    }
  }

  lemma ClearedFds(slots: seq<Slot>, j: nat)
    requires StaleFree(slots) && j < |slots| && slots[j].active
    ensures var fd := slots[j].fd;
            var cleared := slots[j := Slot(fd, false)];
            forall g :: ActiveFd(cleared, g) <==> ActiveFd(slots, g) && g != fd
  {
    var fd := slots[j].fd;
    var cleared := slots[j := Slot(fd, false)];
    forall g ensures ActiveFd(cleared, g) <==> ActiveFd(slots, g) && g != fd {
      if ActiveFd(slots, g) && g != fd {
        var i :| 0 <= i < |slots| && slots[i].active && slots[i].fd == g;
        assert cleared[i] == slots[i];
      }
      if ActiveFd(cleared, g) {
        var i :| 0 <= i < |cleared| && cleared[i].active && cleared[i].fd == g;
        assert slots[i].active && slots[i].fd == g;
      }
    }
  }

  /** With its slot cleared and its descriptor closed, the other slots' descriptors are as open as before. */
  lemma ClearedSlotsOpen(v: Server, w: Server, fd: int)
    requires TableOk(v) && |w.slots| == |v.slots| && w.who == v.who && w.open == v.open - {fd}
    requires forall i :: 0 <= i < |w.slots| && w.slots[i].active ==> v.slots[i] == w.slots[i]
    requires !ActiveFd(w.slots, fd)
    ensures forall i :: 0 <= i < |w.slots| && w.slots[i].active ==>
              w.slots[i].fd in w.open && w.open[w.slots[i].fd] == w.who[i]
  {
    forall i | 0 <= i < |w.slots| && w.slots[i].active
      ensures w.slots[i].fd in w.open && w.open[w.slots[i].fd] == w.who[i]
    {
      assert v.slots[i] == w.slots[i];
      assert ActiveFd(w.slots, w.slots[i].fd);
    }
  }

  /**
    * Removing a live descriptor clears that connection's own slot and closes that connection;
    * every other live pair stays live.
    */
  lemma RemoveClientInv(v: Server, fd: int, id: Conn)
    requires TableOk(v) && OpenOk(v) && LedgerOk(v) && Live(v, fd, id)
    ensures var w := RemoveClient(v, fd);
            && TableOk(w) && OpenOk(w) && LedgerOk(w)
            && w.closed == v.closed + [id] && !ActiveFd(w.slots, fd)
            && (forall g, c :: g != fd && Live(v, g, c) ==> Live(w, g, c))
  {
    var w := RemoveClient(v, fd);
    var j :| 0 <= j < |v.slots| && v.slots[j].active && v.slots[j].fd == fd && v.who[j] == id;
    RemovalHitsOwnSlotIffStaleFree(v.slots);
    RemoveKeepsStaleFree(v.slots, fd);
    ClearSlot(v, j);
    var mid := v.(slots := v.slots[j := Slot(fd, false)]);
    var dec := mid.(numActive := v.numActive - 1);
    SameLedger(v, dec);
    CloseLedger(dec, fd);
    assert w == Close(dec, fd);
    hide LedgerOk;
    assert ActiveFd(v.slots, fd);
    assert OpenOk(w) && TableOk(w) by {
      hide Live;
      assert fd !in Held(v.acc);
      ClearedSlotsOpen(v, w, fd);
    }
    forall g, c | g != fd && Live(v, g, c) ensures Live(w, g, c) {
      assert Live(mid, g, c);
    }
  }

  /** The snapshot belongs to the handler alone. */
  lemma SameBooks(v: Server, w: Server)
    requires TableOk(v) && OpenOk(v) && LedgerOk(v)
    requires w == v.(poll := w.poll, n := w.n, ids := w.ids, han := w.han) && |w.poll| == |v.poll|
    ensures TableOk(w) && OpenOk(w) && LedgerOk(w)
  {
    SameLedger(v, w);
  }

  lemma SnapshotInv(v: Server)
    requires Inv(v) && Enabled(v, TakeSnapshot)
    ensures Inv(Apply(v, TakeSnapshot))
  {
    var w := Apply(v, TakeSnapshot);
    SameBooks(v, w);
    hide OpenOk, LedgerOk;
    SnapshotDistinct(v.slots);
    ActiveIdxExact(v.slots);
    var idx := ActiveIdx(v.slots);
    forall k | 0 <= k < w.n ensures Live(w, w.poll[k], w.ids[k]) {
      assert idx[k] in idx && w.poll[k] == v.slots[idx[k]].fd && w.ids[k] == v.who[idx[k]];
    }
    assert SnapshotLive(w, 0) by {
      assert forall k :: 0 <= k < w.n ==> w.poll[k] == ActiveFds(v.slots)[k];
    }
  }

  lemma VisitInv(v: Server, rx: Recv)
    requires Inv(v) && Enabled(v, Visit(rx))
    ensures Inv(Apply(v, Visit(rx)))
  {
    hide TableOk, OpenOk, LedgerOk;
    var i, ev := v.han.i, v.han.ev;
    if i < v.n && (ev[i].hup || (ev[i].input && rx == Eof)) {
      VisitRemoves(v);
    } else {
      MovedHandler(v, Apply(v, Visit(rx)));
    }
  }

  /** Removing the entry at hand leaves the later entries live. */
  lemma VisitRemoves(v: Server)
    requires Inv(v) && v.han.Walking? && v.han.i < v.n
    ensures Inv(RemoveClient(v, v.poll[v.han.i]).(han := Walking(v.han.i + 1, v.han.ev)))
  {
    var i := v.han.i;
    var fd, id := v.poll[i], v.ids[i];
    assert Live(v, fd, id);
    RemoveClientInv(v, fd, id);
    var r := RemoveClient(v, fd);
    var w := r.(han := Walking(i + 1, v.han.ev));
    MovedHandler(r, w);
    forall k | i + 1 <= k < v.n ensures Live(w, w.poll[k], w.ids[k]) {
      assert v.poll[k] != fd;
      assert Live(r, v.poll[k], v.ids[k]);
    }
  }

  lemma MovedHandler(v: Server, w: Server)
    requires w == v.(han := w.han) && TableOk(v) && OpenOk(v) && LedgerOk(v)
    ensures TableOk(w) && OpenOk(w) && LedgerOk(w)
    ensures forall g, c :: Live(v, g, c) ==> Live(w, g, c)
  {
    SameLedger(v, w);
    forall g, c | Live(v, g, c) ensures Live(w, g, c) {}
  }

  lemma StepInv(v: Server, step: Step)
    requires Inv(v) && Enabled(v, step)
    ensures Inv(Apply(v, step))
  {
    match step
    case Accept(fd, conn) => AcceptInv(v, fd, conn);
    case LockedInsert => InsertInv(v);
    case CloseRejected => CloseRejectedInv(v);
    case Guard =>
    case TakeSnapshot => SnapshotInv(v);
    case Poll(res, ev) =>
    case Visit(rx) => VisitInv(v, rx);
    case Return =>
    case Halt =>
  }

  lemma {:induction false} RunInv(v: Server, steps: seq<Step>)
    requires Inv(v) && Executable(v, steps)
    ensures Inv(Exec(v, steps))
    decreases |steps|
  {
    if steps != [] {
      StepInv(v, steps[0]);
      RunInv(Apply(v, steps[0]), steps[1..]);
    }
  }

  // ---------------------------------------------------------------- what every run guarantees

  lemma Reachable(v: Server, steps: seq<Step>)
    requires Init(v) && Executable(v, steps)
    ensures Inv(Exec(v, steps))
  {
    InitInv(v);
    RunInv(v, steps);
  }

  /**
    * Whatever numbers accept hands out, the fd-only search for an active connection's descriptor
    * finds that connection's own slot, although inactive slots keep stale descriptors.
    */
  lemma RemovalFindsOwnSlot(v: Server, steps: seq<Step>, j: nat)
    requires Init(v) && Executable(v, steps)
    requires var w := Exec(v, steps); j < |w.slots| && w.slots[j].active
    ensures var w := Exec(v, steps);
            && FirstWithFd(w.slots, w.slots[j].fd) == j
            && (forall i :: 0 <= i < j ==> w.slots[i].fd != w.slots[j].fd)
  {
    Reachable(v, steps);
    RemovalHitsOwnSlotIffStaleFree(Exec(v, steps).slots);
  }

  /**
    * While the handler walks its snapshot without the lock, the entry it looks at and all later
    * ones still denote, under the same descriptor, the connections they were taken for.
    */
  lemma SnapshotStaysValid(v: Server, steps: seq<Step>, k: nat)
    requires Init(v) && Executable(v, steps)
    requires var w := Exec(v, steps);
             (w.han.Walking? || w.han.InCallback?) && w.han.i <= k < w.n
    ensures var w := Exec(v, steps);
            && k < |w.poll| && k < |w.ids| && k < |w.han.ev|
            && w.poll[k] in w.open && w.open[w.poll[k]] == w.ids[k]
            && Live(w, w.poll[k], w.ids[k])
  {
    Reachable(v, steps);
    var w := Exec(v, steps);
    assert Live(w, w.poll[k], w.ids[k]);
  }

  /** A turn of the handler's loop is never blocked, and closes the entry's connection or nothing. */
  lemma VisitTouchesOwnConnection(v: Server, steps: seq<Step>, rx: Recv)
    requires Init(v) && Executable(v, steps) && Exec(v, steps).han.Walking?
    ensures var w := Exec(v, steps);
            && Enabled(w, Visit(rx))
            && (w.han.i < w.n ==> w.han.i < |w.ids| && w.han.i < |w.poll|)
            && var u := Apply(w, Visit(rx));
               if w.han.i < w.n && (w.han.ev[w.han.i].hup || (w.han.ev[w.han.i].input && rx == Eof))
               then u.closed == w.closed + [w.ids[w.han.i]]
                    && u.open == w.open - {w.poll[w.han.i]} && u.numActive == w.numActive - 1
               else u.closed == w.closed && u.open == w.open && u.slots == w.slots
  {
    Reachable(v, steps);
    var w := Exec(v, steps);
    if w.han.i < w.n {
      SnapshotStaysValid(v, steps, w.han.i);
      RemoveClientInv(w, w.poll[w.han.i], w.ids[w.han.i]);
      var j :| 0 <= j < |w.slots| && w.slots[j].active && w.slots[j].fd == w.poll[w.han.i];
    }
  }

  /**
    * No descriptor leaks and none is closed twice: the open client descriptors are the active
    * slots' plus the one the accept thread holds, and every accepted connection is either open
    * under one descriptor or has been closed exactly once.
    */
  lemma DescriptorConservation(v: Server, steps: seq<Step>)
    requires Init(v) && Executable(v, steps)
    ensures var w := Exec(v, steps);
            && (forall fd :: fd in w.open <==> fd in Held(w.acc) || fd in ActiveFds(w.slots))
            && (forall fd :: fd in Held(w.acc) ==> fd !in ActiveFds(w.slots))
            && w.badCloses == 0
            && (forall i, j :: 0 <= i < j < |w.closed| ==> w.closed[i] != w.closed[j])
            && (forall c :: c in w.accepted <==> (c in w.closed) != IsOpen(w, c))
            && (forall f, g :: f in w.open && g in w.open && w.open[f] == w.open[g] ==> f == g)
  {
    Reachable(v, steps);
    var w := Exec(v, steps);
    forall fd ensures fd in ActiveFds(w.slots) <==> ActiveFd(w.slots, fd) {
      ActiveFdsExact(w.slots, fd);
    }
  }

  lemma ActiveFdsExact(slots: seq<Slot>, fd: int)
    ensures fd in ActiveFds(slots) <==> ActiveFd(slots, fd)
  {
    ActiveIdxExact(slots);
    var idx := ActiveIdx(slots);
    if fd in ActiveFds(slots) {
      var k :| 0 <= k < |idx| && ActiveFds(slots)[k] == fd;
      assert idx[k] in idx;
    }
    if ActiveFd(slots, fd) {
      var i :| 0 <= i < |slots| && slots[i].active && slots[i].fd == fd;
      assert i in idx;
      var k :| 0 <= k < |idx| && idx[k] == i;
      assert ActiveFds(slots)[k] == fd;
    }
  }

  /**
    * The counter is the number of active slots in every state, and the snapshot it sizes lists
    * exactly the active descriptors, in slot order, pairwise distinct, within the poll array.
    */
  lemma CounterAndSnapshotExact(v: Server, steps: seq<Step>)
    requires Init(v) && Executable(v, steps)
    ensures var w := Exec(v, steps);
            && w.numActive == |ActiveFds(w.slots)| && 0 <= w.numActive <= |w.slots|
            && (w.han == Counted ==>
                && w.numActive > 0
                && Enabled(w, TakeSnapshot)
                && var u := Apply(w, TakeSnapshot);
                   && 0 <= u.n <= |u.poll|
                   && u.poll[..u.n] == ActiveFds(w.slots)
                   && u.ids == ActiveConns(w)
                   && (forall k, l :: 0 <= k < l < u.n ==> u.poll[k] != u.poll[l]))
  {
    Reachable(v, steps);
    var w := Exec(v, steps);
    if w.han == Counted {
      SnapshotInv(w);
      var u := Apply(w, TakeSnapshot);
      assert u.poll[..u.n] == ActiveFds(w.slots);
    }
  }
}
