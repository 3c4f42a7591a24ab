/**
 The server's session wrapper as steps on its strand: sends, completions of the one asynchronous write
 and the one asynchronous read, and closing.

 Step is the specification of one step. What the peer gets, in order, is completed.
 */
module TcpSession {
  import opened Bytes

  const MAX_QUEUE: nat := 1000

  type Buffer = seq<Byte>

  /** Why the handler was told that the session is gone. */
  datatype Reason = ReadError | WriteError | QueueOverflow

  /**
   writing and reading say that an asynchronous operation is in flight; the write in flight is always of
   the buffer it was started on, which is recorded in inFlight. handling says that the handler is working
   on received data: it may send and close, and only when it returns is the next read started.
   */
  datatype State = State(
    started: bool,
    open: bool,
    queue: seq<Buffer>,
    writing: bool,
    inFlight: Buffer,
    reading: bool,
    handling: bool,
    sent: seq<Buffer>,
    completed: seq<Buffer>,
    disconnects: seq<Reason>)

  datatype Event =
    | Start
    | Send(data: Buffer)
    | Close
    | WriteDone(failed: bool)
    | ReadDone(failed: bool)
    | Handled

  /**
   Completions come only from operations in flight, and not while the handler is at work, which occupies
   the strand; reading is started once.
   */
  predicate Enabled(s: State, e: Event) {
    match e
    case Start => !s.started
    case WriteDone(_) => s.writing && !s.handling
    case ReadDone(_) => s.reading
    case Handled => s.handling
    case _ => true
  }

  const INITIAL := State(false, true, [], false, [], false, false, [], [], [])

  function AfterWrite(s: State): State {
    if s.queue == [] || !s.open then s else s.(writing := true, inFlight := s.queue[0])
  }

  function AfterRead(s: State): State {
    if s.open then s.(reading := true) else s
  }

  function AfterClose(s: State, reasons: seq<Reason>): State {
    if !s.open then s else s.(open := false, disconnects := s.disconnects + reasons)
  }

  function OnSend(s: State, data: Buffer): State {
    var s' := s.(queue := s.queue + [data], sent := s.sent + [data]);
    if |s'.queue| > MAX_QUEUE then AfterClose(s', [QueueOverflow])
    else if |s'.queue| == 1 then AfterWrite(s')
    else s'
  }

  function OnWriteDone(s: State, failed: bool): State
    requires s.queue != []
  {
    var s' := s.(writing := false);
    if failed then s'.(disconnects := s.disconnects + [WriteError])
    else
      var popped := s'.(queue := s.queue[1..], completed := s.completed + [s.inFlight]);
      if popped.queue != [] then AfterWrite(popped) else popped
  }

  function OnReadDone(s: State, failed: bool): State {
    var s' := s.(reading := false);
    if failed then s'.(disconnects := s.disconnects + [ReadError]) else s'.(handling := true)
  }

  function Step(s: State, e: Event): State
    requires Enabled(s, e) && Inv(s)
  {
    match e
    case Start => AfterRead(s.(started := true))
    case Send(data) => OnSend(s, data)
    case Close => AfterClose(s, [])
    case WriteDone(failed) => OnWriteDone(s, failed)
    case ReadDone(failed) => OnReadDone(s, failed)
    case Handled => AfterRead(s.(handling := false))
  }

  // ------------------------------------------------------------------- invariant

  predicate Told(s: State, r: Reason) {
    r in s.disconnects
  }

  predicate Failed(s: State) {
    Told(s, WriteError)
  }

  /**
   The peer has got what was sent, in order, but for what is queued; the write in flight is of the head of
   the queue; an open session without a write error keeps writing while it has something to write, and one
   without a read error keeps reading.
   */
  predicate Inv(s: State) {
    && s.sent == s.completed + s.queue
    && (s.writing ==> s.queue != [] && s.inFlight == s.queue[0] && !Failed(s))
    && (s.open && !Failed(s) && s.queue != [] ==> s.writing)
    && (s.open ==> |s.queue| <= MAX_QUEUE && !Told(s, QueueOverflow))
    && (s.reading || s.handling || !s.started ==> !Told(s, ReadError))
    && (s.reading || s.handling ==> s.started)
    && !(s.reading && s.handling)
    && (s.started && s.open && !Told(s, ReadError) && !s.handling ==> s.reading)
    && (Failed(s) ==> s.queue != [])
    && NoRepeats(s.disconnects)
  }

  predicate NoRepeats(rs: seq<Reason>) {
    forall i, j | 0 <= i < j < |rs| :: rs[i] != rs[j]
  }

  lemma WriteDoneKeepsInv(s: State, failed: bool)
    requires Inv(s) && s.writing
    ensures Inv(OnWriteDone(s, failed))
  {
    if !failed {
      assert s.queue == [s.queue[0]] + s.queue[1..];
    }
  }

  lemma SendKeepsInv(s: State, data: Buffer)
    requires Inv(s)
    ensures Inv(OnSend(s, data))
  {
    assert s.completed + (s.queue + [data]) == s.sent + [data];
  }

  lemma StepKeepsInv(s: State, e: Event)
    requires Inv(s) && Enabled(s, e)
    ensures Inv(Step(s, e))
  {
    if e.WriteDone? {
      WriteDoneKeepsInv(s, e.failed);
    } else if e.Send? {
      SendKeepsInv(s, e.data);
    }
  }

  // ------------------------------------------------------------------ the session

  class Session {
    var started: bool
    var open: bool
    var writeQueue: seq<Buffer>
    /** The operations in flight, and the buffer that the write was started on. */
    var writing: bool
    var inFlight: Buffer
    var reading: bool
    var handling: bool

    ghost var sent: seq<Buffer>
    ghost var completed: seq<Buffer>
    ghost var disconnects: seq<Reason>

    ghost function Abs(): State
      reads this
    {
      State(started, open, writeQueue, writing, inFlight, reading, handling, sent, completed, disconnects)
    }

    constructor ()
      ensures Abs() == INITIAL && Inv(Abs())
    {
      started, open, writeQueue, writing, inFlight, reading, handling := false, true, [], false, [], false, false;
      sent, completed, disconnects := [], [], [];
    }

    method DoRead()
      modifies this
      ensures Abs() == AfterRead(old(Abs()))
    {
      if !open {
        return;
      }
      reading := true;
    }

    method DoWrite()
      modifies this
      ensures Abs() == AfterWrite(old(Abs()))
    {
      if writeQueue == [] || !open {
        return;
      }
      writing := true;
      inFlight := writeQueue[0];
    }

    method DoClose(reasons: seq<Reason>)
      modifies this
      ensures Abs() == AfterClose(old(Abs()), reasons)
    {
      if !open {
        return;
      }
      open := false;
      disconnects := disconnects + reasons;
    }

    method StartReading()
      requires Inv(Abs()) && Enabled(Abs(), Start)
      modifies this
      ensures Abs() == Step(old(Abs()), Start) && Inv(Abs())
    {
      StepKeepsInv(Abs(), Start);
      started := true;
      DoRead();
    }

    method Send(data: Buffer)
      requires Inv(Abs())
      modifies this
      ensures Abs() == Step(old(Abs()), Event.Send(data)) && Inv(Abs())
    {
      StepKeepsInv(Abs(), Event.Send(data));
      writeQueue := writeQueue + [data];
      sent := sent + [data];
      if |writeQueue| > MAX_QUEUE {
        DoClose([QueueOverflow]);
        return;
      }
      if |writeQueue| == 1 {
        DoWrite();
      }
    }

    method Close()
      requires Inv(Abs())
      modifies this
      ensures Abs() == Step(old(Abs()), Event.Close) && Inv(Abs())
    {
      StepKeepsInv(Abs(), Event.Close);
      DoClose([]);
    }

    method OnWriteDone(failed: bool)
      requires Inv(Abs()) && writing && !handling
      modifies this
      ensures Abs() == Step(old(Abs()), WriteDone(failed)) && Inv(Abs())
    {
      StepKeepsInv(Abs(), WriteDone(failed));
      writing := false;
      if failed {
        disconnects := disconnects + [WriteError];
        return;
      }
      completed := completed + [inFlight];
      writeQueue := writeQueue[1..];
      if writeQueue != [] {
        DoWrite();
      }
    }

    method OnReadDone(failed: bool)
      requires Inv(Abs()) && reading
      modifies this
      ensures Abs() == Step(old(Abs()), ReadDone(failed)) && Inv(Abs())
    {
      StepKeepsInv(Abs(), ReadDone(failed));
      reading := false;
      if failed {
        disconnects := disconnects + [ReadError];
        return;
      }
      handling := true;
    }

    /** The handler has returned, whatever it sent and whether or not it closed the session. */
    method OnHandled()
      requires Inv(Abs()) && handling
      modifies this
      ensures Abs() == Step(old(Abs()), Handled) && Inv(Abs())
    {
      StepKeepsInv(Abs(), Handled);
      handling := false;
      DoRead();
    }
  }

  // ------------------------------------------------------------------ whole runs

  predicate Possible(s: State, es: seq<Event>)
    requires Inv(s)
    decreases |es|
  {
    es != [] ==>
      && Enabled(s, es[0])
      && (StepKeepsInv(s, es[0]); Possible(Step(s, es[0]), es[1..]))
  }

  function Run(s: State, es: seq<Event>): State
    requires Inv(s) && Possible(s, es)
    decreases |es|
  {
    if es == [] then s
    else
      StepKeepsInv(s, es[0]);
      Run(Step(s, es[0]), es[1..])
  }

  lemma {:induction false} RunKeepsInv(s: State, es: seq<Event>)
    requires Inv(s) && Possible(s, es)
    ensures Inv(Run(s, es))
    decreases |es|
  {
    if es != [] {
      StepKeepsInv(s, es[0]);
      RunKeepsInv(Step(s, es[0]), es[1..]);
    }
  }

  /** In every run the peer has got a prefix of what was sent, and the rest is queued in order. */
  lemma FifoInEveryRun(es: seq<Event>)
    requires Possible(INITIAL, es)
    ensures var s := Run(INITIAL, es);
      && s.completed <= s.sent && s.queue == s.sent[|s.completed|..]
      && (s.writing ==> s.queue != [] && s.inFlight == s.sent[|s.completed|])
      && (s.open && !Failed(s) && s.completed != s.sent ==> s.writing)
      && (s.open ==> |s.sent| - |s.completed| <= 1000)
  {
    RunKeepsInv(INITIAL, es);
    var s := Run(INITIAL, es);
    if s.completed == s.sent {
      assert |s.queue| == 0;
    }
  }

  // ------------------------------------------------------------------- draining

  function Completions(n: nat): seq<Event> {
    seq(n, _ => WriteDone(false))
  }

  lemma {:induction false} DrainsIdle(s: State)
    requires Inv(s) && s.open && !Failed(s) && !s.handling
    ensures Possible(s, Completions(|s.queue|))
    ensures var s' := Run(s, Completions(|s.queue|)); s'.completed == s.sent == s'.sent && s'.queue == []
    decreases |s.queue|
  {
    if s.queue != [] {
      var e := WriteDone(false);
      StepKeepsInv(s, e);
      assert Completions(|s.queue|)[1..] == Completions(|s.queue| - 1);
      DrainsIdle(Step(s, e));
    }
  }

  /** The handler's return, if it is at work, and a completion for each buffer in the queue. */
  function Draining(s: State): seq<Event> {
    if s.handling then [Handled] + Completions(|s.queue|) else Completions(|s.queue|)
  }

  /** If the peer keeps taking data, everything that is queued goes out. */
  lemma Drains(s: State)
    requires Inv(s) && s.open && !Failed(s)
    ensures Possible(s, Draining(s))
    ensures var s' := Run(s, Draining(s)); s'.completed == s.sent == s'.sent && s'.queue == []
  {
    if s.handling {
      StepKeepsInv(s, Handled);
      assert Draining(s)[1..] == Completions(|s.queue|);
      DrainsIdle(Step(s, Handled));
    } else {
      DrainsIdle(s);
    }
  }

  /** After a write error nothing is ever written again, although the session is not closed. */
  lemma {:induction false} StuckAfterWriteError(s: State, es: seq<Event>)
    requires Inv(s) && Failed(s) && Possible(s, es)
    ensures Run(s, es).completed == s.completed && !Run(s, es).writing && Failed(Run(s, es))
    decreases |es|
  {
    if es != [] {
      StepKeepsInv(s, es[0]);
      StuckAfterWriteError(Step(s, es[0]), es[1..]);
    }
  }

  // ------------------------------------------------------------- notifications

  /** The state before event i of the run. */
  function Before(s: State, es: seq<Event>, i: nat): State
    requires Inv(s) && Possible(s, es) && i <= |es|
    decreases |es|
  {
    if i == 0 then s
    else
      StepKeepsInv(s, es[0]);
      Before(Step(s, es[0]), es[1..], i - 1)
  }

  /** A packet is sent on an open session that has a thousand packets queued. */
  predicate Overflows(s: State, e: Event) {
    e.Send? && s.open && |s.queue| == 1000
  }

  ghost predicate SomeOverflow(s: State, es: seq<Event>)
    requires Inv(s) && Possible(s, es)
  {
    exists i :: 0 <= i < |es| && Overflows(Before(s, es, i), es[i])
  }

  lemma SomeOverflowCons(s: State, es: seq<Event>)
    requires Inv(s) && Possible(s, es) && es != []
    ensures SomeOverflow(s, es) <==> Overflows(s, es[0]) || (StepKeepsInv(s, es[0]); SomeOverflow(Step(s, es[0]), es[1..]))
  {
    StepKeepsInv(s, es[0]);
    var s', rest := Step(s, es[0]), es[1..];
    assert forall i | 0 < i < |es| :: es[i] == rest[i - 1] && Before(s, es, i) == Before(s', rest, i - 1);
    if Overflows(s, es[0]) {
      assert Overflows(Before(s, es, 0), es[0]);
    } else if SomeOverflow(s', rest) {
      var i :| 0 <= i < |rest| && Overflows(Before(s', rest, i), rest[i]);
      assert Overflows(Before(s, es, i + 1), es[i + 1]);
    }
  }

  lemma ReasonsOfStep(s: State, e: Event)
    requires Inv(s) && Enabled(s, e)
    ensures var s' := Step(s, e);
      && (Told(s', ReadError) <==> Told(s, ReadError) || e == ReadDone(true))
      && (Told(s', WriteError) <==> Told(s, WriteError) || e == WriteDone(true))
      && (Told(s', QueueOverflow) <==> Told(s, QueueOverflow) || Overflows(s, e))
  {
  }

  /** Which reasons a run adds to those reported: exactly those that have come up in it. */
  lemma {:induction false} ReasonsOfRun(s: State, es: seq<Event>)
    requires Inv(s) && Possible(s, es)
    ensures var s' := Run(s, es);
      && (Told(s', ReadError) <==> Told(s, ReadError) || ReadDone(true) in es)
      && (Told(s', WriteError) <==> Told(s, WriteError) || WriteDone(true) in es)
      && (Told(s', QueueOverflow) <==> Told(s, QueueOverflow) || SomeOverflow(s, es))
    decreases |es|
  {
    if es != [] {
      StepKeepsInv(s, es[0]);
      ReasonsOfStep(s, es[0]);
      SomeOverflowCons(s, es);
      ReasonsOfRun(Step(s, es[0]), es[1..]);
      assert es == [es[0]] + es[1..];
    }
  }

  function One(b: bool): nat {
    if b then 1 else 0
  }

  /**
   In every run from the start, the handler is told once for a failed read, once for a failed write and
   once for a queue that overflowed, for each that came up. So it is told at most once exactly if at most
   one of the three came up.
   */
  lemma ToldOncePerReason(es: seq<Event>)
    requires Possible(INITIAL, es)
    ensures var s := Run(INITIAL, es);
      && (Told(s, ReadError) <==> ReadDone(true) in es)
      && (Told(s, WriteError) <==> WriteDone(true) in es)
      && (Told(s, QueueOverflow) <==> SomeOverflow(INITIAL, es))
      && NoRepeats(s.disconnects)
      && |s.disconnects| == One(ReadDone(true) in es) + One(WriteDone(true) in es) + One(SomeOverflow(INITIAL, es))
  {
    ReasonsOfRun(INITIAL, es);
    RunKeepsInv(INITIAL, es);
    CountReasons(Run(INITIAL, es).disconnects);
  }

  lemma {:induction false} CountReasons(rs: seq<Reason>)
    requires NoRepeats(rs)
    ensures |rs| == One(ReadError in rs) + One(WriteError in rs) + One(QueueOverflow in rs)
  {
    if rs != [] {
      var init, last := rs[..|rs| - 1], rs[|rs| - 1];
      CountReasons(init);
      assert rs == init + [last] && last !in init;
      assert forall r: Reason :: r in rs <==> r in init || r == last;
      assert last == ReadError || last == WriteError || last == QueueOverflow;
    }
  }

  // ------------------------------------------------- what is open, read and written

  /** A session that has been started, not closed and not failed to read is reading, unless its handler is at work. */
  lemma ReadsOn(es: seq<Event>)
    requires Possible(INITIAL, es)
    ensures var s := Run(INITIAL, es);
      s.open && Start in es && ReadDone(true) !in es && !s.handling ==> s.reading
  {
    RunKeepsInv(INITIAL, es);
    ReasonsOfRun(INITIAL, es);
    StartedIff(INITIAL, es);
  }

  lemma {:induction false} StartedIff(s: State, es: seq<Event>)
    requires Inv(s) && Possible(s, es)
    ensures Run(s, es).started <==> s.started || Start in es
    decreases |es|
  {
    if es != [] {
      StepKeepsInv(s, es[0]);
      StartedIff(Step(s, es[0]), es[1..]);
      assert es == [es[0]] + es[1..];
    }
  }

  /** A session is open until it is closed or its queue overflows. */
  lemma {:induction false} OpenUntil(s: State, es: seq<Event>)
    requires Inv(s) && Possible(s, es)
    ensures Run(s, es).open <==> s.open && Close !in es && !SomeOverflow(s, es)
    decreases |es|
  {
    if es != [] {
      StepKeepsInv(s, es[0]);
      SomeOverflowCons(s, es);
      OpenUntil(Step(s, es[0]), es[1..]);
      assert es == [es[0]] + es[1..];
    }
  }

  /** The packets of the send calls, in order. */
  function Sends(es: seq<Event>): seq<Buffer> {
    if es == [] then [] else (if es[0].Send? then [es[0].data] else []) + Sends(es[1..])
  }

  lemma SendsCons(sent: seq<Buffer>, es: seq<Event>)
    requires es != []
    ensures sent + Sends(es) == sent + (if es[0].Send? then [es[0].data] else []) + Sends(es[1..])
  {
  }

  function Successes(es: seq<Event>): nat {
    if es == [] then 0 else (if es[0] == WriteDone(false) then 1 else 0) + Successes(es[1..])
  }

  lemma SentByStep(s: State, e: Event)
    requires Inv(s) && Enabled(s, e)
    ensures Step(s, e).sent == s.sent + if e.Send? then [e.data] else []
    ensures |Step(s, e).completed| == |s.completed| + if e == WriteDone(false) then 1 else 0
  {
  }

  /** Nothing sent is forgotten, not even on a closed session, and each successful write completes one packet. */
  lemma {:induction false} SentAndCompleted(s: State, es: seq<Event>)
    requires Inv(s) && Possible(s, es)
    ensures Run(s, es).sent == s.sent + Sends(es)
    ensures |Run(s, es).completed| == |s.completed| + Successes(es)
    decreases |es|
  {
    if es != [] {
      StepKeepsInv(s, es[0]);
      SentByStep(s, es[0]);
      SentAndCompleted(Step(s, es[0]), es[1..]);
      SendsCons(s.sent, es);
    }
  }

  // ------------------------------------------------------- a run with all three reasons

  const PACKET: Buffer := [0x69, 0x00]

  function Burst(n: nat): seq<Event> {
    seq(n, _ => Send(PACKET))
  }

  lemma {:induction false} RunAppend(s: State, es: seq<Event>, fs: seq<Event>)
    requires Inv(s) && Possible(s, es)
    requires (RunKeepsInv(s, es); Possible(Run(s, es), fs))
    ensures Possible(s, es + fs) && Run(s, es + fs) == (RunKeepsInv(s, es); Run(Run(s, es), fs))
    decreases |es|
  {
    if es == [] {
      assert es + fs == fs;
    } else {
      StepKeepsInv(s, es[0]);
      RunAppend(Step(s, es[0]), es[1..], fs);
      assert (es + fs)[1..] == es[1..] + fs;
    }
  }

  lemma {:induction false} BurstFills(s: State, n: nat)
    requires Inv(s) && s.open && |s.queue| + n == MAX_QUEUE + 1 && n >= 1
    ensures Possible(s, Burst(n))
    ensures var s' := Run(s, Burst(n));
      !s'.open && s'.writing == (s.writing || s.queue == []) && s'.reading == s.reading && s'.handling == s.handling
      && s'.disconnects == s.disconnects + [QueueOverflow]
    decreases n
  {
    var e := Send(PACKET);
    StepKeepsInv(s, e);
    assert Burst(n)[1..] == Burst(n - 1);
    if n > 1 {
      BurstFills(Step(s, e), n - 1);
    } else {
      assert Burst(0) == [];
    }
  }

  /** Three is reached: the overflow closes the socket, which aborts the write and the read in flight. */
  lemma DisconnectedThreeTimes() returns (es: seq<Event>)
    ensures Possible(INITIAL, es) && Run(INITIAL, es).disconnects == [QueueOverflow, WriteError, ReadError]
  {
    StepKeepsInv(INITIAL, Start);
    var s1 := Step(INITIAL, Start);
    BurstFills(s1, MAX_QUEUE + 1);
    var s2 := Run(s1, Burst(MAX_QUEUE + 1));
    RunKeepsInv(s1, Burst(MAX_QUEUE + 1));
    var tail := [WriteDone(true), ReadDone(true)];
    StepKeepsInv(s2, tail[0]);
    StepKeepsInv(Step(s2, tail[0]), tail[1]);
    assert tail[1..] == [ReadDone(true)] && tail[1..][1..] == [];
    RunAppend(s1, Burst(MAX_QUEUE + 1), tail);
    es := [Start] + (Burst(MAX_QUEUE + 1) + tail);
    assert es[1..] == Burst(MAX_QUEUE + 1) + tail;
  }
}
