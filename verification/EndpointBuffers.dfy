/**
  * The USB class driver's endpoint buffers: who owns each one, across every sequence of completions,
  * errors, and allocation or enqueue failures.
  */
module EndpointBuffers {
  import opened Protocol
  import opened BulkIn

  /** A live buffer belongs to the class code, or to the stack: armed for OUT, or queued for IN. */
  datatype Owner = InClass | ArmedOut | QueuedIn

  datatype Queued = Queued(id: nat, msg: seq<Byte>, zlp: bool)

  /** A call of the receive callback: whether the class still had the buffer then, and which OUT buffers
      were armed. */
  datatype Callback = Callback(held: bool, armed: set<nat>)

  /** `owner`: live buffers. `queued`: IN transfers handed to the stack, in order. `delivered`: data
      passed to the receive callback, in order. `calls`: history of its calls. `freed`, `badFrees`:
      history of the frees. */
  datatype Pool = Pool(owner: map<nat, Owner>, next: nat, callback: bool,
                       queued: seq<Queued>, delivered: seq<seq<Byte>>, calls: seq<Callback>,
                       freed: seq<nat>, badFrees: nat)

  /** `alloc` and `enq` say whether the allocation and the enqueue inside the call succeed. */
  datatype Event =
    | Enable(alloc: bool, enq: bool)
    | SetRx(on: bool)
    | Send(msg: seq<Byte>, alloc: bool, enq: bool)
    | DoneOut(id: nat, err: bool, data: seq<Byte>, alloc: bool, enq: bool)
    | DoneIn(id: nat, err: bool)

  function Free(p: Pool, id: nat): Pool {
    if id in p.owner then p.(owner := p.owner - {id}, freed := p.freed + [id])
    else p.(badFrees := p.badFrees + 1)
  }

  function StartReceiving(p: Pool, alloc: bool, enq: bool): Pool {
    if !alloc then p
    else
      var q := p.(owner := p.owner[p.next := InClass], next := p.next + 1);
      if enq then q.(owner := q.owner[p.next := ArmedOut]) else Free(q, p.next)
  }

  function DoSend(p: Pool, msg: seq<Byte>, alloc: bool, enq: bool): Pool {
    if !alloc then p
    else
      var q := p.(owner := p.owner[p.next := InClass], next := p.next + 1);
      if enq then
        q.(owner := q.owner[p.next := QueuedIn], queued := q.queued + [Queued(p.next, msg, WantsZlp(|msg|))])
      else Free(q, p.next)
  }

  function Armed(p: Pool): set<nat> {
    set id | id in p.owner && p.owner[id] == ArmedOut
  }

  function Deliver(p: Pool, id: nat, data: seq<Byte>): Pool {
    if p.callback then
      p.(delivered := p.delivered + [data[..Min(|data|, FS_MPS)]],
         calls := p.calls + [Callback(id in p.owner && p.owner[id] == InClass, Armed(p))])
    else p
  }

  /** A completed transfer comes back to the class. */
  function Request(p: Pool, id: nat, isOut: bool, err: bool, data: seq<Byte>, alloc: bool, enq: bool): Pool {
    var q := p.(owner := p.owner[id := InClass]);
    if err then
      if isOut then StartReceiving(Free(q, id), alloc, enq) else Free(q, id)
    else if isOut then Free(Deliver(StartReceiving(q, alloc, enq), id, data), id)
    else Free(q, id)
  }

  /** The stack completes only what it owns. */
  predicate Enabled(p: Pool, ev: Event) {
    match ev
    case DoneOut(id, _, _, _, _) => id in p.owner && p.owner[id] == ArmedOut
    case DoneIn(id, _) => id in p.owner && p.owner[id] == QueuedIn
    case _ => true
  }

  function Apply(p: Pool, ev: Event): Pool
    requires Enabled(p, ev)
  {
    match ev
    case Enable(alloc, enq) => StartReceiving(p, alloc, enq)
    case SetRx(on) => p.(callback := on)
    case Send(msg, alloc, enq) => DoSend(p, msg, alloc, enq)
    case DoneOut(id, err, data, alloc, enq) => Request(p, id, true, err, data, alloc, enq)
    case DoneIn(id, err) => Request(p, id, false, err, [], false, false)
  }

  predicate Executable(p: Pool, evs: seq<Event>)
    decreases |evs|
  {
    evs == [] || (Enabled(p, evs[0]) && Executable(Apply(p, evs[0]), evs[1..]))
  }

  function Exec(p: Pool, evs: seq<Event>): Pool
    requires Executable(p, evs)
    decreases |evs|
  {
    if evs == [] then p else Exec(Apply(p, evs[0]), evs[1..])
  }

  /** Between calls the class holds nothing back, and every buffer ever allocated is either owned by
      the stack or was freed, once. */
  ghost predicate PoolOk(p: Pool) {
    && p.badFrees == 0
    && (forall id :: id in p.owner ==> id < p.next && p.owner[id] != InClass && id !in p.freed)
    && (forall id :: id in p.freed ==> id < p.next)
    && (forall id :: 0 <= id < p.next ==> id in p.owner || id in p.freed)
    && (forall i, j :: 0 <= i < j < |p.freed| ==> p.freed[i] != p.freed[j])
  }

  lemma FreeOwn(p: Pool, id: nat)
    requires id in p.owner && id < p.next && p.badFrees == 0 && id !in p.freed
    requires forall k :: k in p.owner && k != id ==> k < p.next && p.owner[k] != InClass && k !in p.freed
    requires forall k :: k in p.freed ==> k < p.next
    requires forall k :: 0 <= k < p.next ==> k in p.owner || k in p.freed
    requires forall i, j :: 0 <= i < j < |p.freed| ==> p.freed[i] != p.freed[j]
    ensures PoolOk(Free(p, id))
  {
    var q := Free(p, id);
    assert q.freed[|p.freed|] == id;
    assert forall k :: k in q.freed <==> k in p.freed || k == id;
  }

  lemma StartKeeps(p: Pool, alloc: bool, enq: bool)
    requires PoolOk(p)
    ensures var q := StartReceiving(p, alloc, enq);
            && PoolOk(q) && q.callback == p.callback && q.delivered == p.delivered && q.calls == p.calls
            && q.queued == p.queued && q.freed == p.freed + (if alloc && !enq then [p.next] else [])
            && Armed(q) == Armed(p) + (if alloc && enq then {p.next} else {})
            && (forall id :: id in p.owner ==> id in q.owner && q.owner[id] == p.owner[id])
  {
    if alloc && !enq {
      var q := p.(owner := p.owner[p.next := InClass], next := p.next + 1);
      FreeOwn(q, p.next);
    }
  }

  lemma StepKeeps(p: Pool, ev: Event)
    requires PoolOk(p) && Enabled(p, ev)
    ensures PoolOk(Apply(p, ev))
  {
    match ev
    case Enable(alloc, enq) => StartKeeps(p, alloc, enq);
    case SetRx(on) =>
    case Send(msg, alloc, enq) =>
      if alloc && !enq {
        FreeOwn(p.(owner := p.owner[p.next := InClass], next := p.next + 1), p.next);
      }
    case DoneOut(id, err, data, alloc, enq) => DoneOutKeeps(p, ev);
    case DoneIn(id, err) =>
      FreeOwn(p.(owner := p.owner[id := InClass]), id);
  }

  lemma FailedOutKeeps(p: Pool, id: nat, alloc: bool, enq: bool)
    requires PoolOk(p) && id in p.owner && p.owner[id] == ArmedOut
    ensures var q := Request(p, id, true, true, [], alloc, enq);
            && PoolOk(q) && q.callback == p.callback && q.delivered == p.delivered && q.calls == p.calls
            && q.queued == p.queued && Armed(q) == Armed(p) - {id} + (if alloc && enq then {p.next} else {})
            && q.freed == p.freed + [id] + (if alloc && !enq then [p.next] else [])
  {
    var held := p.(owner := p.owner[id := InClass]);
    FreeOwn(held, id);
    var f := Free(held, id);
    assert Armed(f) == Armed(p) - {id};
    StartKeeps(f, alloc, enq);
  }

  lemma GoodOutKeeps(p: Pool, id: nat, data: seq<Byte>, alloc: bool, enq: bool)
    requires PoolOk(p) && id in p.owner && p.owner[id] == ArmedOut
    ensures var q := Request(p, id, true, false, data, alloc, enq);
            && PoolOk(q) && q.callback == p.callback
            && q.delivered == p.delivered + (if p.callback then [data[..Min(|data|, FS_MPS)]] else [])
            && q.calls == p.calls + (if p.callback then [Callback(true, Armed(q))] else [])
            && Armed(q) == Armed(p) - {id} + (if alloc && enq then {p.next} else {})
            && q.freed == p.freed + (if alloc && !enq then [p.next] else []) + [id] && q.queued == p.queued
  {
    StartKeeps(p, alloc, enq);
    ArmingCommutes(p, id, alloc, enq);
    var a := StartReceiving(p, alloc, enq);
    DeliverAndFree(a, id, data);
    assert id != p.next;
    hide PoolOk, StartReceiving, Deliver, Free, Armed;
  }

  /** The completed buffer's data are delivered and the buffer is freed. */
  lemma DeliverAndFree(a: Pool, id: nat, data: seq<Byte>)
    requires PoolOk(a) && id in a.owner && a.owner[id] == ArmedOut
    ensures var q := Free(Deliver(a.(owner := a.owner[id := InClass]), id, data), id);
            && PoolOk(q) && q.callback == a.callback && Armed(q) == Armed(a) - {id}
            && q.calls == a.calls + (if a.callback then [Callback(true, Armed(q))] else [])
            && q.delivered == a.delivered + (if a.callback then [data[..Min(|data|, FS_MPS)]] else [])
            && q.freed == a.freed + [id] && q.queued == a.queued
  {
    var b := Deliver(a.(owner := a.owner[id := InClass]), id, data);
    FreeOwn(b, id);
    assert Armed(b) == Armed(Free(b, id)) == Armed(a) - {id};
  }

  /** Arming a new buffer does not care whether the completed one is still held. */
  lemma ArmingCommutes(p: Pool, id: nat, alloc: bool, enq: bool)
    requires id in p.owner && p.next !in p.owner
    ensures var a := StartReceiving(p, alloc, enq);
            StartReceiving(p.(owner := p.owner[id := InClass]), alloc, enq) == a.(owner := a.owner[id := InClass])
  {
    assert id != p.next;
    var h := p.owner[id := InClass];
    assert h[p.next := InClass][p.next := ArmedOut] == p.owner[p.next := InClass][p.next := ArmedOut][id := InClass];
    assert h[p.next := InClass] - {p.next} == (p.owner[p.next := InClass] - {p.next})[id := InClass];
  }

  /** An OUT completion frees its buffer and leaves one new buffer armed if re-arming succeeded. */
  lemma DoneOutKeeps(p: Pool, ev: Event)
    requires PoolOk(p) && ev.DoneOut? && Enabled(p, ev)
    ensures var q := Apply(p, ev);
            && PoolOk(q) && q.callback == p.callback && ev.id in q.freed
            && Armed(q) == Armed(p) - {ev.id} + (if ev.alloc && ev.enq then {p.next} else {})
            && q.delivered == p.delivered + (if !ev.err && p.callback then [ev.data[..Min(|ev.data|, FS_MPS)]] else [])
            && q.calls == p.calls + (if !ev.err && p.callback then [Callback(true, Armed(q))] else [])
            && q.queued == p.queued
  {
    if ev.err {
      FailedOutKeeps(p, ev.id, ev.alloc, ev.enq);
    } else {
      GoodOutKeeps(p, ev.id, ev.data, ev.alloc, ev.enq);
    }
  }

  lemma {:induction false} RunKeeps(p: Pool, evs: seq<Event>)
    requires PoolOk(p) && Executable(p, evs)
    ensures PoolOk(Exec(p, evs))
    decreases |evs|
  {
    if evs != [] {
      StepKeeps(p, evs[0]);
      RunKeeps(Apply(p, evs[0]), evs[1..]);
    }
  }

  /** The stack may complete any buffer it owns, well or badly, with any data, at any time, and every
      allocation and enqueue may succeed or fail. */
  lemma StackMayDoAnything(p: Pool)
    requires PoolOk(p)
    ensures forall alloc, enq :: Enabled(p, Enable(alloc, enq))
    ensures forall msg, alloc, enq :: Enabled(p, Send(msg, alloc, enq))
    ensures forall on :: Enabled(p, SetRx(on))
    ensures forall id, err :: id in p.owner && id !in Armed(p) ==> Enabled(p, DoneIn(id, err))
    ensures forall id, err, data, alloc, enq :: id in Armed(p) ==> Enabled(p, DoneOut(id, err, data, alloc, enq))
  {
  }

  const INITIAL := Pool(map[], 0, false, [], [], [], [], 0)

  /** Over every run each buffer has one owner, is freed exactly once, and none is lost. */
  lemma EveryBufferFreedOnce(evs: seq<Event>)
    requires Executable(INITIAL, evs)
    ensures var q := Exec(INITIAL, evs);
            && q.badFrees == 0
            && (forall id :: 0 <= id < q.next ==> (id in q.owner) != (id in q.freed))
            && (forall i, j :: 0 <= i < j < |q.freed| ==> q.freed[i] != q.freed[j])
            && (forall id :: id in q.owner ==> q.owner[id] != InClass)
  {
    RunKeeps(INITIAL, evs);
  }

  /** Armed OUT buffers gained by successful enables and lost by completions that could not re-arm. */
  function Balance(evs: seq<Event>): int {
    if evs == [] then 0
    else
      (match evs[0]
       case Enable(alloc, enq) => if alloc && enq then 1 else 0
       case DoneOut(_, _, _, alloc, enq) => if alloc && enq then 0 else -1
       case _ => 0) + Balance(evs[1..])
  }

  lemma ArmedStep(p: Pool, ev: Event)
    requires PoolOk(p) && Enabled(p, ev)
    ensures |Armed(Apply(p, ev))| == |Armed(p)| + Balance([ev])
  {
    assert [ev][1..] == [];
    assert p.next !in Armed(p);
    match ev
    case Enable(alloc, enq) => StartKeeps(p, alloc, enq);
    case DoneOut(id, err, data, alloc, enq) =>
      DoneOutKeeps(p, ev);
      assert |Armed(p) - {id}| == |Armed(p)| - 1;
    case _ => OthersLeaveArmed(p, ev);
  }

  lemma OthersLeaveArmed(p: Pool, ev: Event)
    requires PoolOk(p) && Enabled(p, ev) && !ev.Enable? && !ev.DoneOut?
    ensures Armed(Apply(p, ev)) == Armed(p)
  {
    var q := Apply(p, ev);
    forall id ensures id in Armed(q) <==> id in Armed(p) {
    }
  }

  /** The number of armed OUT buffers is exactly that balance, in every run. */
  lemma {:induction false} ArmedIsBalance(p: Pool, evs: seq<Event>)
    requires PoolOk(p) && Executable(p, evs)
    ensures |Armed(Exec(p, evs))| == |Armed(p)| + Balance(evs)
    decreases |evs|
  {
    if evs != [] {
      StepKeeps(p, evs[0]);
      ArmedStep(p, evs[0]);
      assert [evs[0]][1..] == [];
      assert Balance([evs[0]]) + Balance(evs[1..]) == Balance(evs);
      ArmedIsBalance(Apply(p, evs[0]), evs[1..]);
    }
  }

  /** At every point of the run at most one OUT buffer is armed. */
  predicate AtMostOneArmed(p: Pool, evs: seq<Event>)
    requires Executable(p, evs)
    decreases |evs|
  {
    |Armed(p)| <= 1 && (evs == [] || AtMostOneArmed(Apply(p, evs[0]), evs[1..]))
  }

  /** Enable is never called, with both its calls succeeding, while an OUT buffer is armed. */
  predicate EnabledOnlyWhenIdle(p: Pool, evs: seq<Event>)
    requires Executable(p, evs)
    decreases |evs|
  {
    evs == [] ||
    (!(evs[0].Enable? && evs[0].alloc && evs[0].enq && Armed(p) != {})
     && EnabledOnlyWhenIdle(Apply(p, evs[0]), evs[1..]))
  }

  /** The driver does not guard against being enabled twice; that is exactly what it relies on. */
  lemma {:induction false} OneArmedIffEnabledWhenIdle(p: Pool, evs: seq<Event>)
    requires PoolOk(p) && |Armed(p)| <= 1 && Executable(p, evs)
    ensures AtMostOneArmed(p, evs) <==> EnabledOnlyWhenIdle(p, evs)
    decreases |evs|
  {
    if evs != [] {
      var ev, q := evs[0], Apply(p, evs[0]);
      StepKeeps(p, ev);
      ArmedStep(p, ev);
      assert [ev][1..] == [];
      assert |Armed(p)| == 0 <==> Armed(p) == {};
      if |Armed(q)| <= 1 {
        OneArmedIffEnabledWhenIdle(q, evs[1..]);
      }
    }
  }

  lemma NoneArmed(p: Pool)
    requires Armed(p) == {}
    ensures forall id :: id in p.owner ==> p.owner[id] != ArmedOut
  {
    assert forall id :: id in p.owner && p.owner[id] == ArmedOut ==> id in Armed(p);
  }

  /**
    * The driver never retries: once no OUT buffer is armed, nothing but another enable brings
    * reception back, whatever is sent, completed or reconfigured.
    */
  lemma {:induction false} DeafUntilEnabled(p: Pool, evs: seq<Event>)
    requires PoolOk(p) && Armed(p) == {} && Executable(p, evs)
    requires forall i :: 0 <= i < |evs| ==> !evs[i].Enable?
    ensures Armed(Exec(p, evs)) == {} && Exec(p, evs).delivered == p.delivered
    decreases |evs|
  {
    if evs != [] {
      var ev := evs[0];
      StepKeeps(p, ev);
      ArmedStep(p, ev);
      assert [ev][1..] == [];
      NoneArmed(p);
      DeafUntilEnabled(Apply(p, ev), evs[1..]);
    }
  }

  /** What the callback should have seen: good OUT completions while it was set, cut to one packet. */
  function Expected(callback: bool, evs: seq<Event>): seq<seq<Byte>>
    decreases |evs|
  {
    if evs == [] then []
    else
      match evs[0]
      case SetRx(on) => Expected(on, evs[1..])
      case DoneOut(_, err, data, _, _) =>
        (if !err && callback then [data[..Min(|data|, FS_MPS)]] else []) + Expected(callback, evs[1..])
      case _ => Expected(callback, evs[1..])
  }

  lemma DeliveredElsewhere(p: Pool, ev: Event)
    requires Enabled(p, ev) && !ev.DoneOut?
    ensures Apply(p, ev).delivered == p.delivered
    ensures Apply(p, ev).callback == (if ev.SetRx? then ev.on else p.callback)
  {
  }

  lemma DeliveredStep(p: Pool, evs: seq<Event>)
    requires PoolOk(p) && evs != [] && Enabled(p, evs[0])
    ensures var q := Apply(p, evs[0]);
            q.delivered + Expected(q.callback, evs[1..]) == p.delivered + Expected(p.callback, evs)
  {
    var ev, q := evs[0], Apply(p, evs[0]);
    if ev.DoneOut? {
      DoneOutKeeps(p, ev);
      hide PoolOk, Apply, Enabled;
      var got := if !ev.err && p.callback then [ev.data[..Min(|ev.data|, FS_MPS)]] else [];
      Regroup(p.delivered, got, Expected(p.callback, evs[1..]));
    } else {
      DeliveredElsewhere(p, ev);
      hide PoolOk, Apply, Enabled;
    }
  }

  lemma Regroup<T>(a: seq<T>, b: seq<T>, c: seq<T>)
    ensures a + b + c == a + (b + c)
  {
  }

  /** Re-arming before the callback neither loses, repeats nor reorders received data. */
  lemma {:induction false} DeliveredInOrder(p: Pool, evs: seq<Event>)
    requires PoolOk(p) && Executable(p, evs)
    ensures Exec(p, evs).delivered == p.delivered + Expected(p.callback, evs)
    decreases |evs|
  {
    if evs != [] {
      StepKeeps(p, evs[0]);
      DeliveredStep(p, evs);
      DeliveredInOrder(Apply(p, evs[0]), evs[1..]);
    }
  }

  /** The calls there should have been: one for each good OUT completion while the callback was set, with
      the buffer still held, and with those OUT buffers armed that are armed when the completion is over. */
  function ExpectedCalls(p: Pool, evs: seq<Event>): seq<Callback>
    requires Executable(p, evs)
    decreases |evs|
  {
    if evs == [] then []
    else
      (if evs[0].DoneOut? && !evs[0].err && p.callback then [Callback(true, Armed(Apply(p, evs[0])))] else []) +
      ExpectedCalls(Apply(p, evs[0]), evs[1..])
  }

  lemma CallsStep(p: Pool, ev: Event)
    requires PoolOk(p) && Enabled(p, ev)
    ensures Apply(p, ev).calls ==
            p.calls + (if ev.DoneOut? && !ev.err && p.callback then [Callback(true, Armed(Apply(p, ev)))] else [])
  {
    if ev.DoneOut? {
      DoneOutKeeps(p, ev);
    }
  }

  /**
    * When the callback looks at the data, their buffer has not been freed yet, and re-arming is already
    * done: the armed buffers are those that will be armed when the completion is over.
    */
  lemma {:induction false} CallbackBetweenRearmAndFree(p: Pool, evs: seq<Event>)
    requires PoolOk(p) && Executable(p, evs)
    ensures Exec(p, evs).calls == p.calls + ExpectedCalls(p, evs)
    decreases |evs|
  {
    if evs != [] {
      var ev, q := evs[0], Apply(p, evs[0]);
      StepKeeps(p, ev);
      CallsStep(p, ev);
      hide PoolOk, Apply, Enabled, Armed;
      CallbackBetweenRearmAndFree(q, evs[1..]);
      Regroup(p.calls, q.calls[|p.calls|..], ExpectedCalls(q, evs[1..]));
    }
  }

  // ---------------------------------------------------------------- the IN side

  /** The messages the stack was given to send, in order: allocation and enqueue succeeded. */
  function Sent(evs: seq<Event>): seq<seq<Byte>> {
    if evs == [] then []
    else (if evs[0].Send? && evs[0].alloc && evs[0].enq then [evs[0].msg] else []) + Sent(evs[1..])
  }

  /** The packets the controller makes of the queued transfers. */
  function OnTheWire(queued: seq<Queued>): seq<seq<Byte>> {
    if queued == [] then [] else Wire(queued[0].msg, queued[0].zlp) + OnTheWire(queued[1..])
  }

  lemma {:induction false} OnTheWireAppend(a: seq<Queued>, b: seq<Queued>)
    ensures OnTheWire(a + b) == OnTheWire(a) + OnTheWire(b)
    decreases |a|
  {
    if a == [] {
      assert a + b == b;
    } else {
      OnTheWireAppend(a[1..], b);
      assert (a + b)[1..] == a[1..] + b;
    }
  }

  /** One event queues at most one transfer: the message sent, under the class's rule. */
  lemma QueuedStep(p: Pool, ev: Event)
    requires PoolOk(p) && Enabled(p, ev)
    ensures Apply(p, ev).queued == p.queued +
              (if ev.Send? && ev.alloc && ev.enq then [Queued(p.next, ev.msg, WantsZlp(|ev.msg|))] else [])
  {
    if ev.DoneOut? {
      DoneOutKeeps(p, ev);
    }
  }

  lemma OneMoreSent(queued: seq<Queued>, id: nat, msg: seq<Byte>, done: seq<seq<Byte>>)
    requires FeedAll(Rx([], []), OnTheWire(queued)) == Rx(done, [])
    ensures FeedAll(Rx([], []), OnTheWire(queued + [Queued(id, msg, WantsZlp(|msg|))])) == Rx(done + [msg], [])
  {
    var last := [Queued(id, msg, WantsZlp(|msg|))];
    OnTheWireAppend(queued, last);
    FeedAppend(Rx([], []), OnTheWire(queued), OnTheWire(last));
    FramingRoundTrip(done, [msg]);
    assert [msg][1..] == [] && last[1..] == [];
    assert Transmit([msg]) == OnTheWire(last);
  }

  lemma {:induction false} ReceiverGetsFrom(p: Pool, evs: seq<Event>, done: seq<seq<Byte>>)
    requires PoolOk(p) && Executable(p, evs) && FeedAll(Rx([], []), OnTheWire(p.queued)) == Rx(done, [])
    ensures FeedAll(Rx([], []), OnTheWire(Exec(p, evs).queued)) == Rx(done + Sent(evs), [])
    decreases |evs|
  {
    if evs == [] {
      assert done + [] == done;
    } else {
      var ev := evs[0];
      StepKeeps(p, ev);
      QueuedStep(p, ev);
      if ev.Send? && ev.alloc && ev.enq {
        OneMoreSent(p.queued, p.next, ev.msg, done);
        ReceiverGetsFrom(Apply(p, ev), evs[1..], done + [ev.msg]);
        Regroup(done, [ev.msg], Sent(evs[1..]));
      } else {
        assert p.queued + [] == p.queued;
        ReceiverGetsFrom(Apply(p, ev), evs[1..], done);
        assert [] + Sent(evs[1..]) == Sent(evs[1..]);
      }
    }
  }

  /**
    * Framing of the driver itself: over every run a receiver gets, from the packets of what was queued,
    * exactly the messages whose sending succeeded, in order and with their boundaries.
    */
  lemma ReceiverGetsWhatWasSent(evs: seq<Event>)
    requires Executable(INITIAL, evs)
    ensures FeedAll(Rx([], []), OnTheWire(Exec(INITIAL, evs).queued)) == Rx(Sent(evs), [])
  {
    ReceiverGetsFrom(INITIAL, evs, []);
    assert [] + Sent(evs) == Sent(evs);
  }

  /** A completed IN transfer, good or bad, gives its buffer back and does nothing else. */
  lemma InCompletionOnlyFrees(p: Pool, id: nat, err: bool, data: seq<Byte>, alloc: bool, enq: bool)
    requires PoolOk(p) && id in p.owner && p.owner[id] == QueuedIn
    ensures var q := Request(p, id, false, err, data, alloc, enq);
            && q.owner == p.owner - {id} && q.freed == p.freed + [id] && q.badFrees == p.badFrees
            && q.next == p.next && q.callback == p.callback
            && q.queued == p.queued && q.delivered == p.delivered && q.calls == p.calls
  {
  }

  // ---------------------------------------------------------------- the driver

  /** The driver's own state, kept in mutable fields; View relates it to the pool above. */
  class CustomClass {
    var owner: map<nat, Owner>
    var next: nat
    var rxCallback: bool
    var queued: seq<Queued>
    var delivered: seq<seq<Byte>>
    ghost var calls: seq<Callback>
    var freed: seq<nat>
    var badFrees: nat

    ghost function View(): Pool
      reads this
    {
      Pool(owner, next, rxCallback, queued, delivered, calls, freed, badFrees)
    }

    constructor ()
      ensures View() == INITIAL
    {
      owner, next, rxCallback, queued, delivered, freed, badFrees := map[], 0, false, [], [], [], 0;
      calls := [];
    }

    method AllocBuf(alloc: bool) returns (ok: bool, buf: nat)
      modifies this
      ensures ok == alloc
      ensures alloc ==> buf == old(next)
                        && View() == old(View()).(owner := old(owner)[buf := InClass], next := old(next) + 1)
      ensures !alloc ==> View() == old(View())
    {
      ok, buf := alloc, next;
      if alloc {
        owner := owner[buf := InClass];
        next := next + 1;
      }
    }

    method FreeBuf(buf: nat)
      modifies this
      ensures View() == Free(old(View()), buf)
    {
      if buf in owner {
        owner := owner - {buf};
        freed := freed + [buf];
      } else {
        badFrees := badFrees + 1;
      }
    }

    method SendMessage(msg: seq<Byte>, alloc: bool, enq: bool) returns (ret: int)
      modifies this
      ensures View() == DoSend(old(View()), msg, alloc, enq)
      ensures ret == 0 <==> alloc && enq
    {
      var ok, buf := AllocBuf(alloc);
      if !ok {
        return -1;
      }
      var zlp := false;
      if |msg| > 0 && |msg| % FS_MPS == 0 {
        zlp := true;
      }
      if enq {
        owner := owner[buf := QueuedIn];
        queued := queued + [Queued(buf, msg, zlp)];
        return 0;
      }
      FreeBuf(buf);
      return -1;
    }

    method Arm(alloc: bool, enq: bool) returns (ret: int)
      modifies this
      ensures View() == StartReceiving(old(View()), alloc, enq)
      ensures ret == 0 <==> alloc && enq
    {
      var ok, buf := AllocBuf(alloc);
      if !ok {
        return -1;
      }
      if enq {
        owner := owner[buf := ArmedOut];
        return 0;
      }
      FreeBuf(buf);
      return -1;
    }

    /** A completion: on an error free first, otherwise re-arm, deliver, and free last. */
    method Complete(buf: nat, isOut: bool, err: bool, data: seq<Byte>, alloc: bool, enq: bool)
      requires buf in owner
      modifies this
      ensures View() == Request(old(View()), buf, isOut, err, data, alloc, enq)
    {
      owner := owner[buf := InClass];
      if err {
        FreeBuf(buf);
        if isOut {
          var _ := Arm(alloc, enq);
        }
        return;
      }
      if isOut {
        var _ := Arm(alloc, enq);
        if rxCallback {
          calls := calls + [Callback(buf in owner && owner[buf] == InClass, Armed(View()))];
          delivered := delivered + [data[..Min(|data|, FS_MPS)]];
        }
      }
      FreeBuf(buf);
    }
  }
}
