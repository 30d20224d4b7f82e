/**
  * What a run of the two server threads does step by step: what the accept thread makes of a connection,
  * and which poll entries the handler processes, when, and what it does with each.
  */
module ServerRuns {
  import opened Protocol
  import opened SlotTable
  import opened ServerThreads

  // ---------------------------------------------------------------- the accept thread

  /** Admission: a free slot takes the connection and the thread accepts again; a full table is left as
      it is and the thread goes on to close the connection, which changes nothing else. */
  lemma AdmittedIffRoom(v: Server)
    requires Inv(v) && Enabled(v, LockedInsert)
    ensures var w, fd := Apply(v, LockedInsert), v.acc.fd;
            && w.slots == Insert(v.slots, fd) && w.open == v.open && w.closed == v.closed
            && (w.acc == Accepting <==> exists i :: 0 <= i < |v.slots| && !v.slots[i].active)
            && (w.acc == Accepting ==> Live(w, fd, v.open[fd]) && w.numActive == v.numActive + 1)
            && (w.acc != Accepting ==>
                  && w == v.(acc := Rejecting(fd)) && Enabled(w, CloseRejected)
                  && var u := Apply(w, CloseRejected);
                     u == v.(acc := Accepting, open := v.open - {fd}, closed := v.closed + [v.open[fd]]))
  {
    var w, k := Apply(v, LockedInsert), FirstFree(v.slots);
    if k < |v.slots| {
      assert w.slots[k] == Slot(v.acc.fd, true) && w.who[k] == v.open[v.acc.fd];
    }
    InsertExact(v.slots, v.acc.fd, k);
  }

  /** Removing a client is the locked removal of its slot, a count down and a close. */
  lemma RemovalIsRemove(v: Server, fd: int, id: Conn)
    requires TableOk(v) && OpenOk(v) && LedgerOk(v) && Live(v, fd, id)
    ensures RemoveClient(v, fd) ==
            v.(slots := Remove(v.slots, fd), numActive := v.numActive - 1,
               open := v.open - {fd}, closed := v.closed + [id])
  {
    RemoveClientInv(v, fd, id);
    var j :| 0 <= j < |v.slots| && v.slots[j].active && v.slots[j].fd == fd && v.who[j] == id;
    assert FirstWithFd(v.slots, fd) <= j;
  }

  // ---------------------------------------------------------------- one turn of the handler's loop

  /** Every turn goes on with the next entry, except that bytes received are handed to the callback first. */
  lemma TurnGoesOn(v: Server, rx: Recv)
    requires Inv(v) && v.han.Walking? && v.han.i < v.n
    ensures Enabled(v, Visit(rx))
    ensures var i, ev := v.han.i, v.han.ev;
            var w := Apply(v, Visit(rx));
            && w.n == v.n && w.poll == v.poll && w.ids == v.ids
            && w.han == (if !ev[i].hup && ev[i].input && rx == Got then InCallback(i, ev) else Walking(i + 1, ev))
            && (w.han.InCallback? ==> w == v.(han := w.han) && Apply(w, Return) == v.(han := Walking(i + 1, ev)))
  {
  }

  /** The head of the loop: the thread sleeps on exactly while no slot is active, and processes entries
      exactly if poll reports some, from the first. */
  lemma LoopHead(v: Server, res: int, ev: seq<Events>)
    requires Inv(v)
    ensures Enabled(v, Guard) ==>
              Apply(v, Guard) ==
                (if forall i :: 0 <= i < |v.slots| ==> !v.slots[i].active then v else v.(han := Counted))
    ensures Enabled(v, Poll(res, ev)) ==>
              Apply(v, Poll(res, ev)) == v.(han := if res > 0 then Walking(0, ev) else Idle)
  {
    ActiveIdxExact(v.slots);
    if v.numActive > 0 {
      assert ActiveIdx(v.slots)[0] in ActiveIdx(v.slots);
    }
  }

  // ---------------------------------------------------------------- a whole pass

  function Between(i: nat, j: nat): seq<nat>
    requires i <= j
  {
    seq(j - i, k requires 0 <= k => i + k)
  }

  /** The entries whose turn comes along a run, in order. */
  function Turns(v: Server, steps: seq<Step>): seq<nat>
    requires Executable(v, steps)
    decreases |steps|
  {
    if steps == [] then []
    else
      (if steps[0].Visit? && v.han.i < v.n then [v.han.i] else []) + Turns(Apply(v, steps[0]), steps[1..])
  }

  predicate NoPoll(steps: seq<Step>) {
    forall k :: 0 <= k < |steps| ==> !steps[k].Poll?
  }

  /** Where the handler is between two polls, seen from the loop index. */
  predicate OutsideWalk(han: HandlerPc) {
    han.Idle? || han.Counted? || han.Polling?
  }

  /** The entry the handler's next turn is for. */
  function NextEntry(han: HandlerPc): nat
    requires han.Walking? || han.InCallback?
  {
    if han.Walking? then han.i else han.i + 1
  }

  lemma {:induction false} NoTurnsOutside(v: Server, steps: seq<Step>)
    requires OutsideWalk(v.han) && Executable(v, steps) && NoPoll(steps)
    ensures Turns(v, steps) == [] && OutsideWalk(Exec(v, steps).han)
    decreases |steps|
  {
    if steps != [] {
      var rest := steps[1..];
      assert forall k :: 0 <= k < |rest| ==> rest[k] == steps[k + 1];
      NoTurnsOutside(Apply(v, steps[0]), rest);
    }
  }

  /** What one step between two polls does to the walk. */
  lemma WalkStep(v: Server, step: Step)
    requires Inv(v) && (v.han.Walking? || v.han.InCallback?) && Enabled(v, step) && !step.Poll?
    ensures var w := Apply(v, step);
            var turn := step.Visit? && v.han.i < v.n;
            && NextEntry(v.han) <= v.n
            && (w.han.Walking? || w.han.InCallback? ==>
                  && w.n == v.n && w.poll == v.poll && w.ids == v.ids && w.han.ev == v.han.ev
                  && NextEntry(w.han) == NextEntry(v.han) + (if turn then 1 else 0))
            && (turn ==> NextEntry(v.han) == v.han.i && (w.han.Walking? || w.han.InCallback?))
            && (OutsideWalk(w.han) ==> NextEntry(v.han) == v.n)
            && (w.han.Walking? || w.han.InCallback? || w.han.Halted? || OutsideWalk(w.han))
  {
    if step.Visit? && v.han.i < v.n {
      TurnGoesOn(v, step.rx);
    }
  }

  lemma NoPollRest(steps: seq<Step>)
    requires NoPoll(steps) && steps != []
    ensures NoPoll(steps[1..]) && !steps[0].Poll?
  {
    assert forall k :: 0 <= k < |steps| - 1 ==> steps[1..][k] == steps[k + 1];
  }

  lemma BetweenMore(i: nat, k: nat, j: nat)
    requires i <= k <= i + 1 && k <= j
    ensures Between(i, j) == (if k == i + 1 then [i] else []) + Between(k, j)
  {
  }

  predicate InWalk(han: HandlerPc) {
    han.Walking? || han.InCallback?
  }

  /** From a walking state, these turns lead to a state like `w`. */
  predicate WalkedTo(v: Server, w: Server, turns: seq<nat>)
    requires InWalk(v.han)
  {
    var from := NextEntry(v.han);
    && from + |turns| <= v.n && turns == Between(from, from + |turns|)
    && (InWalk(w.han) ==>
          && NextEntry(w.han) == from + |turns|
          && w.n == v.n && w.poll == v.poll && w.ids == v.ids && w.han.ev == v.han.ev)
    && (OutsideWalk(w.han) ==> from + |turns| == v.n)
  }

  /** One more turn, or none, in front. */
  lemma WalkedOn(v: Server, w: Server, end: Server, turn: bool, turns: seq<nat>)
    requires InWalk(v.han) && InWalk(w.han) && WalkedTo(w, end, turns)
    requires w.n == v.n && w.poll == v.poll && w.ids == v.ids && w.han.ev == v.han.ev
    requires NextEntry(w.han) == NextEntry(v.han) + (if turn then 1 else 0)
    ensures WalkedTo(v, end, (if turn then [NextEntry(v.han)] else []) + turns)
  {
    BetweenMore(NextEntry(v.han), NextEntry(w.han), NextEntry(w.han) + |turns|);
  }

  lemma {:induction false} PassFrom(v: Server, steps: seq<Step>)
    requires Inv(v) && InWalk(v.han) && Executable(v, steps) && NoPoll(steps)
    ensures WalkedTo(v, Exec(v, steps), Turns(v, steps))
    decreases |steps|
  {
    if steps == [] {
      NothingWalked(v);
    } else {
      var w, rest := Apply(v, steps[0]), steps[1..];
      NoPollRest(steps);
      WalkStep(v, steps[0]);
      StepInv(v, steps[0]);
      if InWalk(w.han) {
        hide Inv, Apply, Enabled, NoPoll, WalkedTo, NextEntry;
        PassFrom(w, rest);
        WalkedOn(v, w, Exec(w, rest), steps[0].Visit? && v.han.i < v.n, Turns(w, rest));
      } else if OutsideWalk(w.han) {
        NoTurnsOutside(w, rest);
        hide Inv, Apply, NoPoll;
        assert Between(v.n, v.n) == [];
      } else {
        HaltedForGood(w, rest);
        hide Inv, Apply, NoPoll;
        assert Between(NextEntry(v.han), NextEntry(v.han)) == [];
      }
    }
  }

  lemma NothingWalked(v: Server)
    requires Inv(v) && InWalk(v.han)
    ensures WalkedTo(v, v, [])
  {
  }

  lemma HaltedForGood(v: Server, steps: seq<Step>)
    requires v.han.Halted? && Executable(v, steps)
    ensures steps == [] && Turns(v, steps) == []
  {
  }

  /**
    * A pass over the poll array: from the moment poll has reported something until the next poll, whatever
    * the accept thread does in between and whatever hang-ups, ends of stream, errors and requests the
    * entries bring, the entries 0, 1, 2, ... have their turn once each, in order, and the handler is back
    * at the head of its loop only when all of them have.
    */
  lemma PassVisitsEachEntryOnce(v: Server, steps: seq<Step>)
    requires Inv(v) && v.han.Walking? && v.han.i == 0 && Executable(v, steps) && NoPoll(steps)
    ensures var w, turns := Exec(v, steps), Turns(v, steps);
            && 0 <= |turns| <= v.n && turns == Between(0, |turns|)
            && (w.han.Walking? ==> w.han.i == |turns|) && (w.han.InCallback? ==> w.han.i + 1 == |turns|)
            && (w.han.Walking? || w.han.InCallback? ==>
                  w.n == v.n && w.poll == v.poll && w.ids == v.ids && w.han.ev == v.han.ev)
            && (OutsideWalk(w.han) ==> turns == Between(0, v.n))
  {
    PassFrom(v, steps);
    hide Inv, Executable, Exec, Turns, NoPoll, Between;
  }
}
