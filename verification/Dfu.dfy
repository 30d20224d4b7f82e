/**
  * The device side of the update protocol: the flash writer's contract, the command handlers, and
  * the staged image seen as a log of the commands handled.
  */
module Dfu {
  import opened Protocol
  import opened Chunking

  // ---------------------------------------------------------------- the flash writer

  /** `staged`: bytes the writer has taken since its last initialisation. `written`: how many of
      them are on flash; the rest still sit in its block buffer. */
  datatype Flash = Flash(staged: seq<Byte>, written: nat)

  /** How one call to the writer turned out. `taken` and `written` matter only where the contract
      leaves them open: bytes taken by a failed write, bytes on flash after an unfinished one. */
  datatype Outcome = Outcome(ok: bool, taken: nat, written: nat)

  ghost predicate FlashOk(f: Flash) {
    f.written <= |f.staged|
  }

  /** The image on flash. */
  function Image(f: Flash): seq<Byte> {
    f.staged[..Min(f.written, |f.staged|)]
  }

  function Clamp(x: nat, lo: nat, hi: nat): nat {
    if x < lo then lo else if x > hi then hi else x
  }

  function InitFlash(f: Flash, o: Outcome): Flash {
    if o.ok then Flash([], 0) else f
  }

  function Taken(data: seq<Byte>, o: Outcome): (k: nat)
    ensures k <= |data|
  {
    if o.ok then |data| else Min(o.taken, |data|)
  }

  function WriteFlash(f: Flash, data: seq<Byte>, o: Outcome): Flash {
    var staged := f.staged + data[..Taken(data, o)];
    Flash(staged, Clamp(o.written, f.written, |staged|))
  }

  function FlushFlash(f: Flash, o: Outcome): Flash {
    if o.ok then f.(written := |f.staged|) else f.(written := Clamp(o.written, f.written, |f.staged|))
  }

  /** Only bytes that are on flash make up the image, in the order they were staged. */
  lemma ImageIsWhatIsWritten(f: Flash)
    requires FlashOk(f)
    ensures |Image(f)| == f.written && Image(f) <= f.staged
  {
  }

  /** What the contract leaves open, and no more: every state it allows is some outcome's. */
  lemma InitContract(f: Flash, g: Flash)
    ensures (exists o: Outcome :: InitFlash(f, o) == g) <==> g == Flash([], 0) || g == f
  {
    assert InitFlash(f, Outcome(true, 0, 0)) == Flash([], 0) && InitFlash(f, Outcome(false, 0, 0)) == f;
  }

  /** A write appends its data, or when it fails a prefix; nothing written is taken back. */
  lemma WriteContract(f: Flash, data: seq<Byte>, ok: bool, g: Flash)
    requires FlashOk(f)
    ensures (exists o: Outcome :: o.ok == ok && WriteFlash(f, data, o) == g) <==>
              && f.staged <= g.staged <= f.staged + data && (ok ==> g.staged == f.staged + data)
              && f.written <= g.written <= |g.staged|
  {
    if exists o: Outcome :: o.ok == ok && WriteFlash(f, data, o) == g {
      var o: Outcome :| o.ok == ok && WriteFlash(f, data, o) == g;
      assert data == data[..Taken(data, o)] + data[Taken(data, o)..];
    }
    if f.staged <= g.staged <= f.staged + data && (ok ==> g.staged == f.staged + data)
       && f.written <= g.written <= |g.staged| {
      var k := |g.staged| - |f.staged|;
      assert g.staged == f.staged + data[..k];
      assert WriteFlash(f, data, Outcome(ok, k, g.written)) == g;
    }
  }

  /** A flush changes nothing that is staged; when it works all of it is on flash. */
  lemma FlushContract(f: Flash, ok: bool, g: Flash)
    requires FlashOk(f)
    ensures (exists o: Outcome :: o.ok == ok && FlushFlash(f, o) == g) <==>
              g.staged == f.staged && f.written <= g.written <= |f.staged| && (ok ==> g.written == |f.staged|)
  {
    if g.staged == f.staged && f.written <= g.written <= |f.staged| && (ok ==> g.written == |f.staged|) {
      assert FlushFlash(f, Outcome(ok, 0, g.written)) == g;
    }
  }

  // ---------------------------------------------------------------- one command

  /** A handled command: who sent it, what it was, whether it succeeded, how many payload bytes
      ended up staged. */
  datatype Entry = Entry(conn: Conn, req: Byte, payload: seq<Byte>, ok: bool, taken: nat)

  /** The flash work `dfu_handle` does for a request. Unrecognised requests do none. */
  function Operate(f: Flash, req: Byte, payload: seq<Byte>, o: Outcome): Flash {
    if req == DFU_START then InitFlash(f, o)
    else if req == DFU_DOWNLOAD then WriteFlash(f, payload, o)
    else if req == DFU_END then FlushFlash(f, o)
    else f
  }

  function Record(conn: Conn, req: Byte, payload: seq<Byte>, o: Outcome): Entry {
    Entry(conn, req, payload, Recognised(req) && o.ok,
          if req == DFU_DOWNLOAD then Taken(payload, o) else 0)
  }

  /** The two reply bytes: the request echoed, then the result. */
  function ReplyTo(e: Entry): seq<Byte> {
    [e.req, Status(e.ok)]
  }

  // ---------------------------------------------------------------- the staged image as a log

  function Replay(start: seq<Byte>, log: seq<Entry>): seq<Byte> {
    if log == [] then start
    else
      var e := log[|log| - 1];
      var before := Replay(start, log[..|log| - 1]);
      if e.req == DFU_START && e.ok then []
      else if e.req == DFU_DOWNLOAD && e.taken <= |e.payload| then before + e.payload[..e.taken]
      else before
  }

  /** Handling one command extends the log by its record and the staged bytes by its replay. */
  lemma OperateReplays(start: seq<Byte>, log: seq<Entry>, f: Flash, conn: Conn, req: Byte,
                       payload: seq<Byte>, o: Outcome)
    requires f.staged == Replay(start, log)
    ensures Operate(f, req, payload, o).staged == Replay(start, log + [Record(conn, req, payload, o)])
  {
    assert (log + [Record(conn, req, payload, o)])[..|log|] == log;
  }

  /** The payloads of the DFU_DOWNLOAD commands in a stretch of the log, in handling order. */
  function Payloads(log: seq<Entry>): seq<seq<Byte>> {
    if log == [] then []
    else
      var e := log[|log| - 1];
      Payloads(log[..|log| - 1]) + (if e.req == DFU_DOWNLOAD then [e.payload] else [])
  }

  /** Every DFU_DOWNLOAD in the log staged its whole payload: no write failed. */
  ghost predicate NoWriteFailed(log: seq<Entry>) {
    forall i :: 0 <= i < |log| && log[i].req == DFU_DOWNLOAD ==> log[i].taken == |log[i].payload|
  }

  /** `from` is just behind the last successful DFU_START, or 0 if there has been none. */
  ghost predicate SinceLastStart(log: seq<Entry>, from: nat) {
    && from <= |log|
    && (from > 0 ==> log[from - 1].req == DFU_START && log[from - 1].ok)
    && (forall i :: from <= i < |log| ==> !(log[i].req == DFU_START && log[i].ok))
  }

  /**
    * Staging is a log: whoever sent the commands and however they interleave, as long as no write
    * fails the staged bytes are the payloads handled since the last successful DFU_START, joined.
    */
  lemma {:induction false} StagedIsConcatenation(start: seq<Byte>, log: seq<Entry>, from: nat)
    requires SinceLastStart(log, from) && NoWriteFailed(log)
    ensures Replay(start, log) == (if from == 0 then start else []) + Flatten(Payloads(log[from..]))
    decreases |log|
  {
    var base := if from == 0 then start else [];
    if from == |log| {
      assert log[from..] == [];
      assert base + [] == base;
    } else {
      var head, e := log[..|log| - 1], log[|log| - 1];
      StagedIsConcatenation(start, head, from);
      StagedOneMore(start, head, e, from, base);
      assert head + [e] == log;
    }
  }

  lemma StagedOneMore(start: seq<Byte>, head: seq<Entry>, e: Entry, from: nat, base: seq<Byte>)
    requires from <= |head| && Replay(start, head) == base + Flatten(Payloads(head[from..]))
    requires e.req == DFU_DOWNLOAD ==> e.taken == |e.payload|
    requires !(e.req == DFU_START && e.ok)
    ensures Replay(start, head + [e]) == base + Flatten(Payloads((head + [e])[from..]))
  {
    assert (head + [e])[from..] == head[from..] + [e];
    FlattenOneMore(head[from..], e);
    ReplayOneMore(start, head, e);
    var more := if e.req == DFU_DOWNLOAD then e.payload else [];
    assert base + Flatten(Payloads(head[from..])) + more == base + (Flatten(Payloads(head[from..])) + more);
  }

  lemma ReplayOneMore(start: seq<Byte>, log: seq<Entry>, e: Entry)
    requires e.req == DFU_DOWNLOAD ==> e.taken == |e.payload|
    requires !(e.req == DFU_START && e.ok)
    ensures Replay(start, log + [e]) == Replay(start, log) + (if e.req == DFU_DOWNLOAD then e.payload else [])
  {
    assert (log + [e])[..|log|] == log;
    assert e.req == DFU_DOWNLOAD ==> e.payload[..e.taken] == e.payload;
    assert Replay(start, log) + [] == Replay(start, log);
  }

  lemma FlattenOneMore(log: seq<Entry>, e: Entry)
    ensures Flatten(Payloads(log + [e])) ==
            Flatten(Payloads(log)) + (if e.req == DFU_DOWNLOAD then e.payload else [])
  {
    assert (log + [e])[..|log|] == log;
    var last := if e.req == DFU_DOWNLOAD then [e.payload] else [];
    FlattenAppend(Payloads(log), last);
    FlattenOne(e.payload);
  }

  lemma FlattenOne(part: seq<Byte>)
    ensures Flatten([part]) == part
  {
    assert [part][1..] == [];
    assert Flatten([part]) == part + Flatten([]);
  }

  /** Unrecognised commands never change what is staged, wherever they fall in the log. */
  lemma {:induction false} UnrecognisedInert(start: seq<Byte>, a: seq<Entry>, e: Entry, b: seq<Entry>)
    requires !Recognised(e.req)
    ensures Replay(start, a + [e] + b) == Replay(start, a + b)
    decreases |b|
  {
    if b == [] {
      assert a + [e] + b == a + [e] && a + b == a;
      assert (a + [e])[..|a|] == a;
    } else {
      var m := |b| - 1;
      UnrecognisedInert(start, a, e, b[..m]);
      assert (a + [e] + b)[..|a| + 1 + m] == a + [e] + b[..m];
      assert (a + b)[..|a| + m] == a + b[..m];
    }
  }

  /** A command of another connection that changes what is staged. */
  predicate Alters(e: Entry, c: Conn) {
    e.conn != c && ((e.req == DFU_START && e.ok) || (e.req == DFU_DOWNLOAD && e.taken > 0))
  }

  predicate IsStartOf(e: Entry, c: Conn) {
    e.conn == c && e.req == DFU_START
  }

  // ---------------------------------------------------------------- the handlers

  datatype Effect =
    | FlashInit(ok: bool)
    | FlashWrite(data: seq<Byte>, ok: bool)
    | FlashFlush(ok: bool)
    | Send(fd: int, msg: seq<Byte>)
    | RequestUpgrade
    | Reboot

  /** What handling one request does, in order, as seen from outside. */
  function EffectsOf(fd: int, req: Byte, payload: seq<Byte>, ok: bool): seq<Effect> {
    var answer := Send(fd, [req, Status(Recognised(req) && ok)]);
    if req == DFU_START then [FlashInit(ok), answer]
    else if req == DFU_DOWNLOAD then [FlashWrite(payload, ok), answer]
    else if req == DFU_END then
      [FlashFlush(ok), answer] + (if ok then [RequestUpgrade, Reboot] else [])
    else [answer]
  }

  /** The static flash context and the handlers around it. `effects` records every call made. */
  class Updater {
    var flash: Flash
    var effects: seq<Effect>

    constructor (f: Flash)
      ensures flash == f && effects == []
    {
      flash, effects := f, [];
    }

    method Respond(fd: int, msg: seq<Byte>)
      modifies this
      ensures effects == old(effects) + [Send(fd, msg)] && flash == old(flash)
    {
      effects := effects + [Send(fd, msg)];
    }

    method Start(fd: int, o: Outcome)
      modifies this
      ensures flash == Operate(old(flash), DFU_START, [], o)
      ensures effects == old(effects) + EffectsOf(fd, DFU_START, [], o.ok)
    {
      var status := SUCCESS;
      flash := InitFlash(flash, o);
      effects := effects + [FlashInit(o.ok)];
      if !o.ok {
        status := FAILED;
      }
      Respond(fd, [DFU_START, status]);
    }

    method Download(fd: int, buf: seq<Byte>, o: Outcome)
      modifies this
      ensures flash == Operate(old(flash), DFU_DOWNLOAD, buf, o)
      ensures effects == old(effects) + EffectsOf(fd, DFU_DOWNLOAD, buf, o.ok)
    {
      var status := SUCCESS;
      flash := WriteFlash(flash, buf, o);
      effects := effects + [FlashWrite(buf, o.ok)];
      if !o.ok {
        status := FAILED;
      }
      Respond(fd, [DFU_DOWNLOAD, status]);
    }

    method End(fd: int, o: Outcome)
      modifies this
      ensures flash == Operate(old(flash), DFU_END, [], o)
      ensures effects == old(effects) + EffectsOf(fd, DFU_END, [], o.ok)
    {
      flash := FlushFlash(flash, o);
      effects := effects + [FlashFlush(o.ok)];
      if !o.ok {
        Respond(fd, [DFU_END, FAILED]);
        return;
      }
      Respond(fd, [DFU_END, SUCCESS]);
      effects := effects + [RequestUpgrade];
      effects := effects + [Reboot];
    }

    /** `dfu_handle`: range check, then dispatch on the command byte. */
    method Handle(fd: int, req: Byte, buf: seq<Byte>, o: Outcome)
      modifies this
      ensures flash == Operate(old(flash), req, buf, o)
      ensures effects == old(effects) + EffectsOf(fd, req, buf, o.ok)
    {
      if req < DFU_START || req > DFU_END {
        Respond(fd, [req, FAILED]);
        return;
      }
      if req - DFU_START == 0 {
        Start(fd, o);
      } else if req - DFU_START == 1 {
        Download(fd, buf, o);
      } else {
        End(fd, o);
      }
    }

    /** `tcp_received`: the first byte is the command, the rest is its payload. The server calls it only
        with the bytes of a recv that returned some. */
    method Received(fd: int, buf: seq<Byte>, o: Outcome)
      requires |buf| > 0
      modifies this
      ensures flash == Operate(old(flash), buf[0], buf[1..], o)
      ensures effects == old(effects) + EffectsOf(fd, buf[0], buf[1..], o.ok)
    {
      Handle(fd, buf[0], buf[1..], o);
    }
  }

  /** A call to the flash writer, and one that worked. */
  predicate FlashCall(e: Effect) {
    e.FlashInit? || e.FlashWrite? || e.FlashFlush?
  }

  predicate FlashCallWorked(e: Effect) {
    (e.FlashInit? && e.ok) || (e.FlashWrite? && e.ok) || (e.FlashFlush? && e.ok)
  }

  /** What one recorded call does to the flash writer. */
  function PlayOne(f: Flash, e: Effect, o: Outcome): Flash {
    match e
    case FlashInit(ok) => InitFlash(f, o.(ok := ok))
    case FlashWrite(data, ok) => WriteFlash(f, data, o.(ok := ok))
    case FlashFlush(ok) => FlushFlash(f, o.(ok := ok))
    case _ => f
  }

  /** The flash writer's state after the calls recorded in a list of effects. */
  function Play(f: Flash, es: seq<Effect>, o: Outcome): Flash
    decreases |es|
  {
    if es == [] then f else Play(PlayOne(f, es[0], o), es[1..], o)
  }

  lemma {:induction false} OthersDoNothing(f: Flash, es: seq<Effect>, o: Outcome)
    requires forall i :: 0 <= i < |es| ==> !FlashCall(es[i])
    ensures Play(f, es, o) == f
    decreases |es|
  {
    if es != [] {
      OthersDoNothing(f, es[1..], o);
    }
  }

  /** The calls a request makes are the ones that do its work: played on the writer they give the state
      that the command's flash work is said to leave. */
  lemma EffectsDoTheWork(f: Flash, fd: int, req: Byte, payload: seq<Byte>, o: Outcome)
    ensures Play(f, EffectsOf(fd, req, payload, o.ok), o) == Operate(f, req, payload, o)
  {
    var es := EffectsOf(fd, req, payload, o.ok);
    assert o.(ok := o.ok) == o;
    if Recognised(req) {
      OthersDoNothing(Operate(f, req, payload, o), es[1..], o);
    } else {
      OthersDoNothing(f, es, o);
    }
  }

  /**
    * A request is answered once, with two bytes that echo it and say success exactly when a flash call
    * was made and worked; at most one flash call is made, before the reply; only a DFU_END whose flush
    * worked goes on to reboot, and then only after the reply and the upgrade request, in that order.
    */
  lemma EffectsDisciplined(fd: int, conn: Conn, req: Byte, payload: seq<Byte>, o: Outcome)
    ensures var es := EffectsOf(fd, req, payload, o.ok);
            var e := Record(conn, req, payload, o);
            && (exists k :: 0 <= k < |es| && k <= 1 && es[k] == Send(fd, ReplyTo(e))
                  && (forall j :: 0 <= j < |es| && j != k ==> !es[j].Send?)
                  && (forall j :: 0 <= j < |es| && FlashCall(es[j]) ==> j < k)
                  && (e.ok <==> k > 0 && FlashCallWorked(es[0]))
                  && (Reboot in es ==> k == 1 && es[0] == FlashFlush(true) && es[2..] == [RequestUpgrade, Reboot]))
            && (Reboot in es <==> req == DFU_END && e.ok)
            && (RequestUpgrade in es <==> Reboot in es)
  {
    var es := EffectsOf(fd, req, payload, o.ok);
    var e := Record(conn, req, payload, o);
    var k := if Recognised(req) then 1 else 0;
    assert es[k] == Send(fd, ReplyTo(e));
    if req == DFU_END && o.ok {
      assert es == [FlashFlush(true), Send(fd, ReplyTo(e)), RequestUpgrade, Reboot];
      assert es[3] == Reboot && es[2] == RequestUpgrade;
    }
  }
}
