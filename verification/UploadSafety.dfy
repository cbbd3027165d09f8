/** What holds over every run of the upload, whatever the server, the socket and the user do. */
module UploadSafety {
  import opened Text
  import opened UploadProtocol
  import opened Words

  function RunFrom(job: Job, aborted: bool, events: seq<Event>): Client {
    Run(job, Start(aborted), events)
  }

  lemma {:induction false} RunConcat(job: Job, c: Client, a: seq<Event>, b: seq<Event>)
    ensures Run(job, c, a + b) == Run(job, Run(job, c, a), b)
    decreases |b|
  {
    if b == [] {
      assert a + b == a;
    } else {
      assert (a + b)[..|a + b| - 1] == a + b[..|b| - 1];
      RunConcat(job, c, a, b[..|b| - 1]);
    }
  }

  // ---------- settling ----------

  lemma StepFreezes(job: Job, c: Client, e: Event)
    requires Inv(job, c) && c.settled
    ensures var d := Step(job, c, e); d.settled && d.outcomes == c.outcomes && d.wire == c.wire
  {
  }

  lemma {:induction false} RunFreezes(job: Job, c: Client, events: seq<Event>)
    requires Inv(job, c) && c.settled
    ensures var d := Run(job, c, events); Inv(job, d) && d.settled && d.outcomes == c.outcomes && d.wire == c.wire
    decreases |events|
  {
    if events != [] {
      var early := events[..|events| - 1];
      RunFreezes(job, c, early);
      StepFreezes(job, Run(job, c, early), events[|events| - 1]);
      StepKeepsInv(job, Run(job, c, early), events[|events| - 1]);
    }
  }

  /** What a caller may rely on at any moment, and what a callback may change. */
  ghost predicate Safe(job: Job, c: Client, d: Client) {
    && Inv(job, d)
    && (c.settled ==> d.settled && d.outcomes == c.outcomes && d.wire == c.wire)
  }

  lemma StepIsSafe(job: Job, c: Client, e: Event)
    requires Inv(job, c)
    ensures Safe(job, c, Step(job, c, e))
  {
    StepKeepsInv(job, c, e);
    if c.settled {
      StepFreezes(job, c, e);
    }
  }

  /**
    The promise settles at most once, and from then on nothing that happens changes the outcome or
    puts another frame on the wire.
  */
  lemma SettlesOnce(job: Job, aborted: bool, events: seq<Event>, more: seq<Event>)
    ensures |RunFrom(job, aborted, events).outcomes| <= 1
    ensures var c, d := RunFrom(job, aborted, events), RunFrom(job, aborted, events + more);
            c.settled ==> d.outcomes == c.outcomes && d.wire == c.wire
  {
    RunKeepsInv(job, aborted, events);
    RunConcat(job, Start(aborted), events, more);
    if RunFrom(job, aborted, events).settled {
      RunFreezes(job, RunFrom(job, aborted, events), more);
    }
  }

  // ---------- the pump ----------

  /** How many steps of the run started the pump. */
  function Starts(job: Job, c: Client, events: seq<Event>): nat
    decreases |events|
  {
    if events == [] then 0
    else
      var early := events[..|events| - 1];
      var before := Run(job, c, early);
      var after := Step(job, before, events[|events| - 1]);
      Starts(job, c, early) + (if before.pump == NotStarted && after.pump != NotStarted then 1 else 0)
  }

  lemma StepKeepsPumping(job: Job, c: Client, e: Event)
    requires Inv(job, c) && c.pumping
    ensures Step(job, c, e).pumping
  {
  }

  lemma {:induction false} PumpStartsOnce(job: Job, aborted: bool, events: seq<Event>)
    ensures Starts(job, Start(aborted), events) == if RunFrom(job, aborted, events).pumping then 1 else 0
    decreases |events|
  {
    if events != [] {
      var early, e := events[..|events| - 1], events[|events| - 1];
      PumpStartsOnce(job, aborted, early);
      RunKeepsInv(job, aborted, early);
      RunKeepsInv(job, aborted, events);
      if RunFrom(job, aborted, early).pumping {
        StepKeepsPumping(job, RunFrom(job, aborted, early), e);
      }
    }
  }

  // ---------- what goes out ----------

  /** Before every end frame lies the whole body. */
  ghost predicate EndsAfterBody(job: Job, wire: seq<Frame>) {
    forall i :: 0 <= i < |wire| && wire[i] == EndFrame ==> Payload(wire[..i]) == job.body
  }

  /** Nothing goes out or one frame does, on an open socket, the end frame only behind the whole body. */
  ghost predicate Appends(job: Job, c: Client, d: Client) {
    d.wire == c.wire || exists f :: SendsFrame(job, c, d, f)
  }

  ghost predicate SendsFrame(job: Job, c: Client, d: Client, f: Frame) {
    d.wire == c.wire + [f] && c.socket == Open && (f == EndFrame ==> Payload(c.wire) == job.body)
  }

  lemma PumpAppends(job: Job, c: Client)
    requires Inv(job, c)
    ensures Appends(job, c, OnPump(job, c))
  {
    assert c.pump == Ending && c.socket == Open ==> SendsFrame(job, c, OnPump(job, c), EndFrame);
  }

  lemma ReadAppends(job: Job, c: Client, r: Read)
    requires Inv(job, c)
    ensures Appends(job, c, OnRead(job, c, r))
  {
    if OnRead(job, c, r).wire != c.wire {
      assert SendsFrame(job, c, OnRead(job, c, r), Chunk(job.body[c.sent..c.sent + r.size]));
    }
  }

  lemma MessageAppends(job: Job, c: Client, m: ServerFrame)
    requires Inv(job, c)
    ensures Appends(job, c, OnMessage(job, c, m))
  {
    if OnMessage(job, c, m).wire != c.wire {
      assert SendsFrame(job, c, OnMessage(job, c, m), StartFrame);
    }
  }

  lemma StepAppends(job: Job, c: Client, e: Event)
    requires Inv(job, c)
    ensures Appends(job, c, Step(job, c, e))
  {
    match e
    case PumpStep => PumpAppends(job, c);
    case ReadDone(r) => ReadAppends(job, c, r);
    case Message(m) => MessageAppends(job, c, m);
    case _ =>
  }

  lemma {:induction false} RunEndsAfterBody(job: Job, aborted: bool, events: seq<Event>)
    ensures EndsAfterBody(job, RunFrom(job, aborted, events).wire)
    decreases |events|
  {
    if events != [] {
      var early, e := events[..|events| - 1], events[|events| - 1];
      RunEndsAfterBody(job, aborted, early);
      RunKeepsInv(job, aborted, early);
      var c, d := RunFrom(job, aborted, early), RunFrom(job, aborted, events);
      StepAppends(job, c, e);
      if d.wire != c.wire {
        var f :| SendsFrame(job, c, d, f);
        forall i | 0 <= i < |d.wire| && d.wire[i] == EndFrame
          ensures Payload(d.wire[..i]) == job.body
        {
          assert d.wire[..i] == c.wire[..i];
          if i == |c.wire| {
            assert c.wire[..i] == c.wire;
          }
        }
      }
    }
  }

  /**
    At every moment of every run: the body bytes on the wire are a prefix of the body, and while the
    socket is open all that was sent; there is at most one end frame, and only behind the whole body;
    body bytes waiting in the socket never exceed the high-water mark by more than one chunk.
  */
  lemma BodyGoesOutInOrder(job: Job, aborted: bool, events: seq<Event>)
    ensures var c := RunFrom(job, aborted, events);
            && Payload(c.wire) <= job.body
            && c.sent <= |job.body|
            && (c.socket == Open ==> Payload(c.wire) == job.body[..c.sent])
            && Ends(c.wire) <= 1
            && EndsAfterBody(job, c.wire)
            && c.bodyBuffered <= WS_BUFFER_HIGH + c.lastChunk
  {
    RunKeepsInv(job, aborted, events);
    RunEndsAfterBody(job, aborted, events);
  }

  /** A failed handshake has sent nothing of the body, so the caller may upload another way. */
  lemma HandshakeFailureSentNothing(job: Job, aborted: bool, events: seq<Event>, more: seq<Event>)
    requires Rejected(HandshakeFailed) in RunFrom(job, aborted, events).outcomes
    ensures Payload(RunFrom(job, aborted, events + more).wire) == []
    ensures Ends(RunFrom(job, aborted, events + more).wire) == 0
  {
    RunKeepsInv(job, aborted, events);
    SettlesOnce(job, aborted, events, more);
  }

  // ---------- progress ----------

  /** Every reported number lies between the offset and the total. */
  lemma ProgressStaysInRange(job: Job, aborted: bool, events: seq<Event>)
    requires job.offset <= job.total
    ensures var p := RunFrom(job, aborted, events).progress;
            forall i :: 0 <= i < |p| ==> job.offset <= p[i] <= job.total
  {
    RunKeepsInv(job, aborted, events);
  }

  /** No more is reported than the bytes on the wire that have left the socket's buffer. */
  ghost predicate Earned(job: Job, d: Client, p: int) {
    p <= job.offset + (|Payload(d.wire)| - d.bodyBuffered)
  }

  /** The offset and the bytes of the body that have left the socket, less text that waits, and at most the total. */
  function Delivered(job: Job, d: Client): int {
    Min(job.total, job.offset + Max(0, |Payload(d.wire)| - d.bodyBuffered - d.textBuffered))
  }

  /** What the step `e` from `c` to `d` may report: the offset, the total, or what is delivered. */
  ghost predicate ReportIs(job: Job, c: Client, e: Event, d: Client, p: int) {
    || (e == Message(Go) && p == job.offset)
    || (e == Message(Done) && p == job.total)
    || (e == PumpStep && c.pump == Ending && p == job.total)
    || (e.ReadDone? && p == Delivered(job, d) && Earned(job, d, p))
  }

  lemma ReportIsEarned(job: Job, d: Client)
    requires d.sent == |Payload(d.wire)| + d.dropped && d.bodyBuffered <= |Payload(d.wire)|
    ensures Reported(job, d) == Delivered(job, d) && Earned(job, d, Reported(job, d))
  {
  }

  lemma ChunkReports(job: Job, c: Client, data: seq<byte>)
    requires Inv(job, c) && c.pump == Reading && c.sent + |data| <= |job.body|
    requires data == job.body[c.sent..c.sent + |data|]
    ensures var d := TakeChunk(job, c, data);
            d.progress == c.progress + [Delivered(job, d)] && Earned(job, d, Delivered(job, d))
  {
    SendKeepsWire(job, c, data);
    ReportIsEarned(job, TakeChunk(job, c, data));
  }

  lemma ReadSomeReports(job: Job, c: Client, size: nat)
    requires Inv(job, c) && c.pump == Reading && 0 < size && c.sent + size <= |job.body|
    ensures var d := OnRead(job, c, NextChunk(size));
            d.progress == c.progress + [Delivered(job, d)] && Earned(job, d, Delivered(job, d))
  {
    ReadIsTake(job, c, size);
    var data := job.body[c.sent..c.sent + size];
    assert |data| == size;
    ChunkReports(job, c, data);
  }

  lemma ReadReports(job: Job, c: Client, r: Read)
    requires Inv(job, c)
    ensures var d := OnRead(job, c, r);
            if d.sent == c.sent then d.progress == c.progress
            else d.progress == c.progress + [Delivered(job, d)] && Earned(job, d, Delivered(job, d))
  {
    if c.pump == Reading && r.NextChunk? && 0 < r.size && c.sent + r.size <= |job.body| {
      ReadSomeReports(job, c, r.size);
    }
  }

  lemma StepReports(job: Job, c: Client, e: Event)
    requires Inv(job, c)
    ensures var d := Step(job, c, e);
            d.progress == c.progress || exists p :: d.progress == c.progress + [p] && ReportIs(job, c, e, d, p)
  {
    var d := Step(job, c, e);
    match e
    case ReadDone(r) =>
      ReadReports(job, c, r);
      assert d.progress != c.progress ==> ReportIs(job, c, e, d, Delivered(job, d));
    case PumpStep =>
      assert c.pump == Ending ==> d.progress == c.progress + [job.total] && ReportIs(job, c, e, d, job.total);
    case Message(f) =>
      assert f == Go ==> ReportIs(job, c, e, d, job.offset);
      assert f == Done ==> ReportIs(job, c, e, d, job.total);
    case _ =>
  }

  /** The event at place `k` reported `p`, as the report at place `i`. */
  ghost predicate ReportedBy(job: Job, aborted: bool, events: seq<Event>, k: nat, i: nat, p: int)
    requires k < |events|
  {
    var c := RunFrom(job, aborted, events[..k]);
    var d := Step(job, c, events[k]);
    |c.progress| == i && d.progress == c.progress + [p] && ReportIs(job, c, events[k], d, p)
  }

  lemma ReportedEarlier(job: Job, aborted: bool, events: seq<Event>, n: nat, k: nat, i: nat, p: int)
    requires k < n <= |events| && ReportedBy(job, aborted, events[..n], k, i, p)
    ensures ReportedBy(job, aborted, events, k, i, p)
  {
    assert events[..n][..k] == events[..k];
  }

  /**
    Over every run: each reported number was reported by one event, and it is the offset as the pump
    starts, the total as it ends or as the server is done, or what has left the socket.
  */
  lemma {:induction false} ProgressIsEarned(job: Job, aborted: bool, events: seq<Event>, i: nat) returns (k: nat)
    requires i < |RunFrom(job, aborted, events).progress|
    ensures k < |events| && ReportedBy(job, aborted, events, k, i, RunFrom(job, aborted, events).progress[i])
    decreases |events|
  {
    var n := |events| - 1;
    var c := RunFrom(job, aborted, events[..n]);
    RunKeepsInv(job, aborted, events[..n]);
    StepReports(job, c, events[n]);
    if i < |c.progress| {
      k := ProgressIsEarned(job, aborted, events[..n], i);
      ReportedEarlier(job, aborted, events, n, k, i, c.progress[i]);
    } else {
      k := n;
    }
  }

  lemma EndFrames(job: Job, c: Client)
    requires c.pump == Ending
    ensures var d := OnPump(job, c);
            && (d.wire == c.wire || d.wire == c.wire + [EndFrame])
            && d.progress == c.progress + [job.total] && d.bodyBuffered == c.bodyBuffered
  {
  }

  /** At its end the pump sends no more of the body, and reports the total. */
  lemma EndReports(job: Job, c: Client)
    requires c.pump == Ending
    ensures var d := OnPump(job, c);
            && d.progress == c.progress + [job.total]
            && Payload(d.wire) == Payload(c.wire) && d.bodyBuffered == c.bodyBuffered
  {
    EndFrames(job, c);
    WireSnoc(c.wire, EndFrame);
  }

  /**
    The total that the pump reports at its end is earned just when it leaves room for what still waits
    in the buffer and for what a closing socket has discarded.
  */
  lemma LastReportEarnedIff(job: Job, c: Client)
    requires Inv(job, c) && c.pump == Ending
    ensures var d := OnPump(job, c);
            && d.progress == c.progress + [job.total]
            && (Earned(job, d, job.total) <==> job.total + c.bodyBuffered + c.dropped <= job.offset + |job.body|)
  {
    EndReports(job, c);
    assert c.sent == |job.body| && c.sent == |Payload(c.wire)| + c.dropped;
  }

  // An upload of one byte that nothing drains.

  function Started(job: Job): Client {
    Client(true, false, true, false, false, Open, Reading, 0, [], 0, 0, 0, 0, [job.offset], [])
  }

  function ByteSent(job: Job): Client {
    Client(true, false, true, false, false, Open, Waiting, 1, [Chunk(job.body)], 1, 0, 0, 1,
           [job.offset, job.offset], [])
  }

  lemma StepStarts(job: Job)
    ensures var c := Step(job, Step(job, Start(false), SocketOpened), Message(Go));
            Step(job, Step(job, c, PumpStep), PumpStep) == Started(job)
  {
  }

  lemma StepSends(job: Job)
    requires |job.body| == 1 && job.total == job.offset + 1
    ensures Step(job, Step(job, Started(job), ReadDone(NextChunk(1))), PumpStep) == ByteSent(job)
  {
    assert job.body[0..1] == job.body;
    assert Reported(job, SendChunk(Started(job), job.body)) == job.offset;
  }

  lemma StepFlushes(job: Job)
    requires |job.body| == 1
    ensures Step(job, Step(job, ByteSent(job), PumpStep), ReadDone(NoMore)) == ByteSent(job).(pump := Flushing)
    ensures Step(job, ByteSent(job).(pump := Flushing), PumpStep) == ByteSent(job).(pump := Ending)
  {
  }

  lemma RunMore(job: Job, c: Client, past: seq<Event>, a: Event, b: Event)
    ensures Run(job, c, past + [a, b]) == Step(job, Step(job, Run(job, c, past), a), b)
  {
    RunConcat(job, c, past, [a, b]);
    RunTwo(job, Run(job, c, past), a, b);
  }

  lemma RunOneMore(job: Job, c: Client, past: seq<Event>, a: Event)
    ensures Run(job, c, past + [a]) == Step(job, Run(job, c, past), a)
  {
    assert (past + [a])[..|past|] == past;
  }

  lemma RunsToEnd(job: Job, c: Client) returns (events: seq<Event>)
    requires |job.body| == 1 && job.total == job.offset + 1 && c == Start(false)
    ensures Run(job, c, events) == ByteSent(job).(pump := Ending)
  {
    StepStarts(job);
    StepSends(job);
    StepFlushes(job);
    RunTwo(job, c, SocketOpened, Message(Go));
    events := [SocketOpened, Message(Go)];
    RunMore(job, c, events, PumpStep, PumpStep);
    events := events + [PumpStep, PumpStep];
    RunMore(job, c, events, ReadDone(NextChunk(1)), PumpStep);
    events := events + [ReadDone(NextChunk(1)), PumpStep];
    RunMore(job, c, events, PumpStep, ReadDone(NoMore));
    events := events + [PumpStep, ReadDone(NoMore)];
    RunOneMore(job, c, events, PumpStep);
    events := events + [PumpStep];
  }

  /** In some run the pump reports the whole upload while its only byte still waits in the buffer. */
  lemma LastReportNotEarned(job: Job) returns (events: seq<Event>)
    requires |job.body| == 1 && job.total == job.offset + 1
    ensures var c := RunFrom(job, false, events);
            && c.pump == Ending
            && OnPump(job, c).progress == c.progress + [job.total]
            && !Earned(job, OnPump(job, c), job.total)
  {
    events := RunsToEnd(job, Start(false));
    RunKeepsInv(job, false, events);
    LastReportEarnedIff(job, RunFrom(job, false, events));
  }

  // ---------- an upload can always be finished ----------

  /** The socket empties its buffer. */
  function DrainAll(c: Client): Event {
    SocketDrained(c.bodyBuffered, c.textBuffered)
  }

  ghost predicate Alive(job: Job, c: Client) {
    && Inv(job, c) && c.socket == Open && !c.aborted && c.pumping && c.pump != Stopped
  }

  lemma Advance(job: Job, c: Client, e: Event)
    requires Alive(job, c)
    requires e.SocketDrained? || e.PumpStep? || (e.ReadDone? && e.read != ReadFailed)
    ensures Alive(job, Step(job, c, e))
  {
    StepKeepsInv(job, c, e);
  }

  function Rank(p: Pump): nat {
    match p
    case AtTop => 5
    case Waiting => 4
    case Reading => 3
    case Flushing => 2
    case Ending => 1
    case _ => 0
  }

  /** An event, on an empty buffer, that brings the upload closer to its end. */
  function NextEvent(job: Job, c: Client): Event {
    if c.pump == Reading then
      ReadDone(if c.sent >= |job.body| then NoMore else NextChunk(1))
    else PumpStep
  }

  lemma EmptyBuffer(job: Job, c: Client)
    requires Alive(job, c)
    ensures var d := Step(job, c, DrainAll(c));
            Alive(job, d) && Buffered(d) == 0 && d.sent == c.sent && d.pump == c.pump
  {
    Advance(job, c, DrainAll(c));
  }

  lemma Closer(job: Job, c: Client)
    requires Alive(job, c) && Buffered(c) == 0 && c.pump != Finished
    ensures var d := Step(job, c, NextEvent(job, c));
            && Alive(job, d)
            && (d.sent > c.sent || (d.sent == c.sent && Rank(d.pump) < Rank(c.pump)))
  {
    Advance(job, c, NextEvent(job, c));
  }

  /** No reachable state of a running upload is a dead end: the whole body can still go out. */
  lemma {:induction false} CanFinish(job: Job, c: Client) returns (events: seq<Event>)
    requires Alive(job, c)
    ensures var d := Run(job, c, events); d.pump == Finished && Payload(d.wire) == job.body && Ends(d.wire) == 1
    decreases |job.body| - c.sent, Rank(c.pump)
  {
    if c.pump == Finished {
      events := [];
    } else {
      EmptyBuffer(job, c);
      var d := Step(job, c, DrainAll(c));
      Closer(job, d);
      var e := Step(job, d, NextEvent(job, d));
      var rest := CanFinish(job, e);
      events := [DrainAll(c), NextEvent(job, d)] + rest;
      var two := [DrainAll(c), NextEvent(job, d)];
      RunConcat(job, c, two, rest);
      RunTwo(job, c, DrainAll(c), NextEvent(job, d));
    }
  }

  lemma RunTwo(job: Job, c: Client, a: Event, b: Event)
    ensures Run(job, c, [a, b]) == Step(job, Step(job, c, a), b)
  {
    assert [a, b][..1] == [a];
    assert [a][..0] == [];
    assert Run(job, c, [a]) == Step(job, c, a);
  }
}
