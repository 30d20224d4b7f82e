/**
  * The USB receive path end to end: a packet the host has sent completes an armed OUT buffer, the class
  * driver re-arms, calls the receive callback with the data, and frees the buffer; the callback queues
  * the data for the worker. The callback is registered before the device is enabled and stays set.
  */
module UsbPath {
  import opened FrameQueue
  import E = EndpointBuffers
  import R = UsbReceive

  datatype Path = Path(pool: E.Pool, pipe: R.Pipe)

  /** Arrive: a good OUT completion, which consumes a packet and runs the callback. */
  datatype Step =
    | Driver(ev: E.Event)
    | Arrive(id: nat, alloc: bool, enq: bool, heapOk: bool)
    | Elsewhere(step: R.Step)

  function Start(heap: nat): Path {
    Path(E.INITIAL.(callback := true), R.Start(heap, true))
  }

  /** Each host message is one packet. */
  predicate Enabled(p: Path, step: Step) {
    match step
    case Driver(ev) => E.Enabled(p.pool, ev) && !ev.SetRx? && !(ev.DoneOut? && !ev.err)
    case Arrive(id, alloc, enq, heapOk) =>
      && R.Enabled(p.pipe, R.Deliver(heapOk))
      && E.Enabled(p.pool, E.DoneOut(id, false, p.pipe.wire[0], alloc, enq))
    case Elsewhere(st) =>
      R.Enabled(p.pipe, st) && !st.Deliver?
  }

  function Apply(p: Path, step: Step): Path
    requires Enabled(p, step)
  {
    match step
    case Driver(ev) => p.(pool := E.Apply(p.pool, ev))
    case Arrive(id, alloc, enq, heapOk) =>
      Path(E.Apply(p.pool, E.DoneOut(id, false, p.pipe.wire[0], alloc, enq)), R.Apply(p.pipe, R.Deliver(heapOk)))
    case Elsewhere(st) => p.(pipe := R.Apply(p.pipe, st))
  }

  predicate Executable(p: Path, steps: seq<Step>)
    decreases |steps|
  {
    steps == [] || (Enabled(p, steps[0]) && Executable(Apply(p, steps[0]), steps[1..]))
  }

  function Exec(p: Path, steps: seq<Step>): Path
    requires Executable(p, steps)
    decreases |steps|
  {
    if steps == [] then p else Exec(Apply(p, steps[0]), steps[1..])
  }

  /** A packet on its way completes any armed buffer, whatever the driver is refused then; everything else
      goes on as in the two parts alone. */
  lemma PathMayDoAnything(p: Path)
    ensures forall id, alloc, enq :: p.pipe.wire != [] && id in E.Armed(p.pool) ==>
              Enabled(p, Arrive(id, alloc, enq, true)) || Enabled(p, Arrive(id, alloc, enq, false))
    ensures forall ev: E.Event :: E.Enabled(p.pool, ev) && !ev.SetRx? && !(ev.DoneOut? && !ev.err) ==>
              Enabled(p, Driver(ev))
    ensures forall st: R.Step :: R.Enabled(p.pipe, st) && !st.Deliver? ==> Enabled(p, Elsewhere(st))
  {
    if p.pipe.wire != [] {
      R.PipeMayDoAnything(p.pipe);
    }
  }

  ghost predicate Inv(p: Path) {
    && E.PoolOk(p.pool) && p.pool.callback && R.Inv(p.pipe) && p.pipe.patient
    && p.pool.delivered == p.pipe.received
  }

  lemma StepInv(p: Path, step: Step)
    requires Inv(p) && Enabled(p, step)
    ensures Inv(Apply(p, step)) && Apply(p, step).pipe.heap == p.pipe.heap
  {
    match step
    case Driver(ev) =>
      E.StepKeeps(p.pool, ev);
      E.DeliveredStep(p.pool, [ev]);
      assert [ev][1..] == [];
    case Arrive(id, alloc, enq, heapOk) =>
      var data := p.pipe.wire[0];
      R.StepInv(p.pipe, R.Deliver(heapOk));
      E.DoneOutKeeps(p.pool, E.DoneOut(id, false, data, alloc, enq));
      assert data[..|data|] == data;
    case Elsewhere(st) => R.StepInv(p.pipe, st);
  }

  lemma {:induction false} RunInv(p: Path, steps: seq<Step>)
    requires Inv(p) && Executable(p, steps)
    ensures Inv(Exec(p, steps)) && Exec(p, steps).pipe.heap == p.pipe.heap
    decreases |steps|
  {
    if steps != [] {
      StepInv(p, steps[0]);
      RunInv(Apply(p, steps[0]), steps[1..]);
    }
  }

  /**
    * Whatever transfers fail and whatever allocations and enqueues the driver is refused, with a host
    * that waits and room for two full frames the handler sees the packets the endpoint received, all of them,
    * in order and whole; every endpoint buffer has one owner or has been freed once.
    */
  lemma HandlerSeesWhatTheEndpointReceived(heap: nat, steps: seq<Step>)
    requires heap >= 2 * R.FULL_FRAME && Executable(Start(heap), steps)
    ensures var p := Exec(Start(heap), steps);
            && p.pipe.q.handled + p.pipe.q.fifo == p.pool.delivered
            && p.pipe.q.dropped == [] && Live(p.pipe.q) <= 2
            && E.PoolOk(p.pool)
  {
    RunInv(Start(heap), steps);
  }

  /** Once the driver has failed to re-arm, nothing reaches the handler any more until it is enabled. */
  lemma {:induction false} StallsWithoutArmedBuffer(p: Path, steps: seq<Step>)
    requires Inv(p) && Executable(p, steps) && E.Armed(p.pool) == {}
    requires forall i :: 0 <= i < |steps| ==> !(steps[i].Driver? && steps[i].ev.Enable?)
    ensures Exec(p, steps).pipe.received == p.pipe.received
    decreases |steps|
  {
    if steps != [] {
      var step := steps[0];
      E.NoneArmed(p.pool);
      StepInv(p, step);
      if step.Driver? {
        E.ArmedStep(p.pool, step.ev);
        assert [step.ev][1..] == [];
      }
      StallsWithoutArmedBuffer(Apply(p, step), steps[1..]);
    }
  }
}
