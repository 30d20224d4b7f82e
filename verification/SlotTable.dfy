/** The TCP server's client table: the pure operations on its slots, and the table itself. */
module SlotTable {

  datatype Slot = Slot(fd: int, active: bool)

  /** The slot `add_client` picks: the lowest inactive one, or |slots| if there is none. */
  function FirstFree(slots: seq<Slot>): (k: nat)
    ensures k <= |slots|
    ensures forall i :: 0 <= i < k ==> slots[i].active
    ensures k < |slots| ==> !slots[k].active
  {
    if slots == [] || !slots[0].active then 0 else 1 + FirstFree(slots[1..])
  }

  /** The slot `remove_client` picks: the lowest whose fd matches, active or not. */
  function FirstWithFd(slots: seq<Slot>, fd: int): (k: nat)
    ensures k <= |slots|
    ensures forall i :: 0 <= i < k ==> slots[i].fd != fd
    ensures k < |slots| ==> slots[k].fd == fd
  {
    if slots == [] || slots[0].fd == fd then 0 else 1 + FirstWithFd(slots[1..], fd)
  }

  function Insert(slots: seq<Slot>, fd: int): seq<Slot> {
    var k := FirstFree(slots);
    if k < |slots| then slots[k := Slot(fd, true)] else slots
  }

  function Remove(slots: seq<Slot>, fd: int): seq<Slot> {
    var k := FirstWithFd(slots, fd);
    if k < |slots| then slots[k := slots[k].(active := false)] else slots
  }

  /** Indices of the active slots, in slot order. */
  function ActiveIdx(slots: seq<Slot>): (idx: seq<nat>)
    ensures |idx| <= |slots|
    ensures forall k :: 0 <= k < |idx| ==> idx[k] < |slots|
  {
    if slots == [] then []
    else
      var m := |slots| - 1;
      ActiveIdx(slots[..m]) + (if slots[m].active then [m] else [])
  }

  /** They are increasing, and they are the active slots: all of them and no other. */
  lemma {:induction false} ActiveIdxExact(slots: seq<Slot>)
    ensures var idx := ActiveIdx(slots);
            && (forall k, l :: 0 <= k < l < |idx| ==> idx[k] < idx[l])
            && (forall i :: i in idx <==> 0 <= i < |slots| && slots[i].active)
  {
    if slots != [] {
      var m := |slots| - 1;
      ActiveIdxExact(slots[..m]);
      assert forall i :: 0 <= i < m ==> slots[..m][i] == slots[i];
    }
  }

  lemma {:induction false} NoneActive(slots: seq<Slot>)
    requires forall i :: 0 <= i < |slots| ==> !slots[i].active
    ensures ActiveIdx(slots) == []
  {
    if slots != [] {
      NoneActive(slots[..|slots| - 1]);
    }
  }

  /** The descriptors of the active slots, in slot order. */
  function ActiveFds(slots: seq<Slot>): (fds: seq<int>)
    ensures |fds| == |ActiveIdx(slots)|
  {
    seq(|ActiveIdx(slots)|, k requires 0 <= k < |ActiveIdx(slots)| => slots[ActiveIdx(slots)[k]].fd)
  }

  /** The poll array after a snapshot: active descriptors first, older contents behind them. */
  function Snapshot(slots: seq<Slot>, poll: seq<int>): (p: seq<int>)
    requires |poll| == |slots|
    ensures |p| == |poll|
  {
    ActiveFds(slots) + poll[|ActiveFds(slots)|..]
  }

  ghost predicate ActiveFd(slots: seq<Slot>, fd: int) {
    exists i :: 0 <= i < |slots| && slots[i].active && slots[i].fd == fd
  }

  /** No slot below an active one carries its descriptor, not even as a stale leftover. */
  ghost predicate StaleFree(slots: seq<Slot>) {
    forall i, j :: 0 <= i < j < |slots| && slots[j].active ==> slots[i].fd != slots[j].fd
  }

  /**
    * Exactly this invariant makes the fd-only match safe: removal picks every active connection's
    * own slot if and only if no lower slot carries its descriptor.
    */
  lemma RemovalHitsOwnSlotIffStaleFree(slots: seq<Slot>)
    ensures StaleFree(slots) <==>
            forall j :: 0 <= j < |slots| && slots[j].active ==> FirstWithFd(slots, slots[j].fd) == j
  {
    if forall j :: 0 <= j < |slots| && slots[j].active ==> FirstWithFd(slots, slots[j].fd) == j {
      forall i, j | 0 <= i < j < |slots| && slots[j].active
        ensures slots[i].fd != slots[j].fd
      {
        assert FirstWithFd(slots, slots[j].fd) == j;
      }
    }
  }

  /** First-fit insertion of a descriptor no active slot has keeps the invariant. */
  lemma InsertKeepsStaleFree(slots: seq<Slot>, fd: int)
    requires StaleFree(slots) && !ActiveFd(slots, fd)
    ensures StaleFree(Insert(slots, fd))
  {
    var after, k := Insert(slots, fd), FirstFree(slots);
    forall i, j | 0 <= i < j < |after| && after[j].active
      ensures after[i].fd != after[j].fd
    {
      if j == k {
        assert slots[i].active;
      } else if i == k {
        assert slots[j].active && slots[j].fd != fd;
      }
    }
  }

  /** Removal keeps it for any descriptor at all. */
  lemma RemoveKeepsStaleFree(slots: seq<Slot>, fd: int)
    requires StaleFree(slots)
    ensures StaleFree(Remove(slots, fd))
  {
    var after := Remove(slots, fd);
    assert forall i :: 0 <= i < |slots| ==> after[i].fd == slots[i].fd;
  }

  /** A full table is left alone; otherwise the lowest inactive slot changes and no other. */
  lemma InsertExact(slots: seq<Slot>, fd: int, k: nat)
    requires k <= |slots| && (forall i :: 0 <= i < k ==> slots[i].active) && (k < |slots| ==> !slots[k].active)
    ensures Insert(slots, fd) == if k == |slots| then slots else slots[k := Slot(fd, true)]
  {
    assert FirstFree(slots) == k;
  }

  /** Without the descriptor the table is left alone; otherwise the lowest slot that carries it becomes
      inactive, keeps its number, and no other changes. */
  lemma RemoveExact(slots: seq<Slot>, fd: int, k: nat)
    requires k <= |slots| && (forall i :: 0 <= i < k ==> slots[i].fd != fd) && (k < |slots| ==> slots[k].fd == fd)
    ensures Remove(slots, fd) == if k == |slots| then slots else slots[k := Slot(fd, false)]
  {
    assert FirstWithFd(slots, fd) == k;
  }

  /** The poll array starts with the active slots' descriptors in slot order; behind them it is as before. */
  lemma SnapshotExact(slots: seq<Slot>, poll: seq<int>)
    requires |poll| == |slots|
    ensures var idx, p := ActiveIdx(slots), Snapshot(slots, poll);
            && (forall k, l :: 0 <= k < l < |idx| ==> idx[k] < idx[l])
            && (forall i :: i in idx <==> 0 <= i < |slots| && slots[i].active)
            && (forall k :: 0 <= k < |poll| ==> p[k] == if k < |idx| then slots[idx[k]].fd else poll[k])
  {
    ActiveIdxExact(slots);
  }

  /** Taking a slot out of use lowers the number of active slots by one; the reverse raises it. */
  lemma {:induction false} ActiveCountUpdate(slots: seq<Slot>, k: nat, fd: int)
    requires k < |slots| && !slots[k].active
    ensures |ActiveIdx(slots[k := Slot(fd, true)])| == |ActiveIdx(slots)| + 1
  {
    var after, m := slots[k := Slot(fd, true)], |slots| - 1;
    if k == m {
      assert after[..m] == slots[..m];
    } else {
      ActiveCountUpdate(slots[..m], k, fd);
      assert after[..m] == slots[..m][k := Slot(fd, true)];
    }
  }

  /** Under the invariant the snapshot lists pairwise distinct descriptors. */
  lemma SnapshotDistinct(slots: seq<Slot>)
    requires StaleFree(slots)
    ensures forall k, l :: 0 <= k < l < |ActiveFds(slots)| ==> ActiveFds(slots)[k] != ActiveFds(slots)[l]
  {
    var idx := ActiveIdx(slots);
    ActiveIdxExact(slots);
    forall k, l | 0 <= k < l < |ActiveFds(slots)|
      ensures ActiveFds(slots)[k] != ActiveFds(slots)[l]
    {
      assert idx[k] < idx[l] && idx[l] in idx;
    }
  }

  /** One more slot scanned: the snapshot of a prefix grows by that slot's descriptor if active. */
  lemma ActiveFdsStep(slots: seq<Slot>, i: nat)
    requires i < |slots|
    ensures ActiveFds(slots[..i + 1]) ==
            ActiveFds(slots[..i]) + (if slots[i].active then [slots[i].fd] else [])
  {
    var a, b := slots[..i + 1], slots[..i];
    assert a[..i] == b;
    var ia, ib := ActiveIdx(a), ActiveIdx(b);
    assert ia == ib + (if slots[i].active then [i] else []);
    assert forall k :: 0 <= k < |ib| ==> a[ia[k]] == b[ib[k]];
  }

  lemma Overwrite(done: seq<int>, was: seq<int>, x: int)
    requires |done| < |was|
    ensures (done + was[|done|..])[|done| := x] == done + [x] + was[|done| + 1..]
  {
  }

  /**
    * The server's shared record: the slot array and the counter beside it. `closes` records the
    * descriptors handed to zsock_close, in order. Each method is one critical section of the
    * server's mutex, except that Add closes a rejected descriptor after releasing it.
    */
  class ClientTable {
    const slots: array<Slot>
    var numActive: int
    var closes: seq<int>

    constructor (maxClients: nat)
      ensures fresh(slots) && slots.Length == maxClients
      ensures forall i :: 0 <= i < maxClients ==> slots[i] == Slot(0, false)
      ensures numActive == 0 && closes == []
    {
      slots := new Slot[maxClients](_ => Slot(0, false));
      numActive := 0;
      closes := [];
    }

    method Add(fd: int) returns (accepted: bool)
      modifies this, slots
      ensures slots[..] == Insert(old(slots[..]), fd)
      ensures accepted <==> FirstFree(old(slots[..])) < slots.Length
      ensures numActive == old(numActive) + (if accepted then 1 else 0)
      ensures closes == old(closes) + (if accepted then [] else [fd])
    {
      ghost var was := slots[..];
      for i := 0 to slots.Length
        invariant slots[..] == was && i <= FirstFree(was)
        invariant numActive == old(numActive) && closes == old(closes)
      {
        if !slots[i].active {
          assert was[i] == slots[i];
          slots[i] := Slot(fd, true);
          numActive := numActive + 1;
          return true;
        }
        assert was[i].active;
      }
      closes := closes + [fd];
      return false;
    }

    method Drop(fd: int)
      modifies this, slots
      ensures slots[..] == Remove(old(slots[..]), fd)
      ensures var hit := FirstWithFd(old(slots[..]), fd) < slots.Length;
              && numActive == old(numActive) - (if hit then 1 else 0)
              && closes == old(closes) + (if hit then [fd] else [])
    {
      ghost var was := slots[..];
      for i := 0 to slots.Length
        invariant slots[..] == was && i <= FirstWithFd(was, fd)
        invariant numActive == old(numActive) && closes == old(closes)
      {
        assert was[i] == slots[i];
        if slots[i].fd == fd {
          slots[i] := slots[i].(active := false);
          numActive := numActive - 1;
          closes := closes + [fd];
          return;
        }
      }
    }

    /** Fills the handler's poll array in place and reports how many entries it may poll. */
    method TakeSnapshot(poll: array<int>) returns (n: int)
      requires poll.Length == slots.Length
      modifies poll
      ensures poll[..] == Snapshot(slots[..], old(poll[..]))
      ensures n == numActive
    {
      ghost var table, was, done := slots[..], poll[..], [];
      var next := 0;
      for i := 0 to slots.Length
        invariant done == ActiveFds(table[..i]) && next == |done| <= i
        invariant poll[..] == done + was[next..]
      {
        ActiveFdsStep(table, i);
        if slots[i].active {
          Overwrite(done, was, slots[i].fd);
          poll[next] := slots[i].fd;
          next, done := next + 1, done + [slots[i].fd];
        }
      }
      assert table[..slots.Length] == table;
      n := numActive;
    }
  }
}
