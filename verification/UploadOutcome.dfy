/**
  How an upload ends (`lib/guest-file-transfer.ts`): the outcome of every run, told from what has happened to
  the call and not from how its callbacks are written.
*/
module UploadOutcome {
  import opened Text
  import opened UploadProtocol
  import opened UploadSafety
  import opened Words

  // ---------- what the events say ----------

  /** The connection has been opened, and since then the other side has not begun to close it. */
  predicate OpenAfter(past: seq<Event>) {
    && SocketOpened in past
    && forall i, j :: 0 <= i < j < |past| && past[i] == SocketOpened ==> past[j] != PeerClosing
  }

  /** The failure of a connection, before and after the server's "go". */
  function Lost(past: seq<Event>): Failure {
    if Message(Go) in past then UploadFailed else HandshakeFailed
  }

  /** What the next event makes of a call that is not settled; `stuck` says that the pump cannot go on. */
  function Verdict(past: seq<Event>, e: Event, stuck: bool): Option<Outcome> {
    match e
    case Message(Done) => Some(Resolved)
    case Message(Garbled) => Some(Rejected(UploadFailed))
    case Message(ErrorFrame) => Some(Rejected(UploadFailed))
    case SignalAborted => Some(Rejected(Aborted))
    case SocketError => Some(Rejected(Lost(past)))
    case SocketClosed => Some(Rejected(Lost(past)))
    case TimeoutFired => if Message(Go) in past then None else Some(Rejected(HandshakeFailed))
    case PumpStep => if stuck then Some(Rejected(UploadFailed)) else None
    case ReadDone(ReadFailed) => if stuck then Some(Rejected(UploadFailed)) else None
    case _ => None
  }

  /**
    The pump cannot go on: it is at the head of its loop or about to end, and the socket is not open; or it
    has asked for the next chunk, and the stream fails.
  */
  ghost predicate Stuck(job: Job, past: seq<Event>, e: Event) {
    var at := RunFrom(job, false, past).pump;
    || (e == PumpStep && (at == AtTop || at == Ending) && !OpenAfter(past))
    || (e == ReadDone(ReadFailed) && at == Reading)
  }

  ghost function VerdictAt(job: Job, events: seq<Event>, k: nat): Option<Outcome>
    requires k < |events|
  {
    Verdict(events[..k], events[k], Stuck(job, events[..k], events[k]))
  }

  /** The first event that says anything decides. */
  ghost predicate Decides(job: Job, events: seq<Event>, k: nat) {
    && k < |events| && VerdictAt(job, events, k).Some?
    && forall i :: 0 <= i < k ==> VerdictAt(job, events, i).None?
  }

  ghost predicate Undecided(job: Job, events: seq<Event>) {
    forall i :: 0 <= i < |events| ==> VerdictAt(job, events, i).None?
  }

  // ---------- a call that is not settled ----------

  ghost predicate Live(c: Client, past: seq<Event>) {
    && c.listening && !c.settled && !c.aborted && c.outcomes == []
    && (c.pumping <==> Message(Go) in past) && (c.armed <==> !c.pumping)
    && (c.socket == Connecting <==> SocketOpened !in past) && (c.socket == Open <==> OpenAfter(past))
  }

  lemma PastGrows(past: seq<Event>, e: Event)
    ensures Message(Go) in past + [e] <==> Message(Go) in past || e == Message(Go)
    ensures SocketOpened in past + [e] <==> SocketOpened in past || e == SocketOpened
    ensures OpenAfter(past + [e]) <==>
      if SocketOpened in past then OpenAfter(past) && e != PeerClosing else e == SocketOpened
  {
    var more := past + [e];
    if SocketOpened !in past && e == SocketOpened {
      assert more[|past|] == SocketOpened;
    }
    if OpenAfter(more) {
      forall i, j | 0 <= i < j < |past| && past[i] == SocketOpened
        ensures past[j] != PeerClosing
      {
        assert more[i] == SocketOpened && more[j] == past[j];
      }
      if SocketOpened in past {
        var i :| 0 <= i < |past| && past[i] == SocketOpened;
        assert more[i] == SocketOpened && more[|past|] == e;
      }
    }
  }

  lemma LiveMessage(job: Job, c: Client, past: seq<Event>, f: ServerFrame)
    requires Inv(job, c) && Live(c, past)
    ensures var d, v := Step(job, c, Message(f)), Verdict(past, Message(f), false);
            if v.None? then Live(d, past + [Message(f)]) else d.settled && d.outcomes == [v.value]
  {
    PastGrows(past, Message(f));
  }

  ghost predicate AtLoss(c: Client, e: Event, open: bool) {
    || (e == PumpStep && (c.pump == AtTop || c.pump == Ending) && !open)
    || (e == ReadDone(ReadFailed) && c.pump == Reading)
  }

  lemma LivePump(job: Job, c: Client, past: seq<Event>)
    requires Inv(job, c) && Live(c, past)
    ensures var d := OnPump(job, c);
            if AtLoss(c, PumpStep, OpenAfter(past)) then d.settled && d.outcomes == [Rejected(UploadFailed)]
            else Live(d, past + [PumpStep])
  {
    PastGrows(past, PumpStep);
  }

  lemma TakeKeepsRest(job: Job, c: Client, data: seq<byte>)
    ensures var d := TakeChunk(job, c, data);
            && d.listening == c.listening && d.settled == c.settled && d.aborted == c.aborted
            && d.outcomes == c.outcomes && d.pumping == c.pumping && d.armed == c.armed && d.socket == c.socket
  {
  }

  lemma LiveRead(job: Job, c: Client, past: seq<Event>, r: Read)
    requires Inv(job, c) && Live(c, past)
    ensures var d := OnRead(job, c, r);
            if AtLoss(c, ReadDone(r), OpenAfter(past)) then d.settled && d.outcomes == [Rejected(UploadFailed)]
            else Live(d, past + [ReadDone(r)])
  {
    PastGrows(past, ReadDone(r));
    if c.pump == Reading && r.NextChunk? && 0 < r.size && c.sent + r.size <= |job.body| {
      ReadIsTake(job, c, r.size);
      TakeKeepsRest(job, c, job.body[c.sent..c.sent + r.size]);
    }
  }

  lemma LiveOther(job: Job, c: Client, past: seq<Event>, e: Event)
    requires Inv(job, c) && Live(c, past) && !e.Message? && !e.PumpStep? && !e.ReadDone?
    ensures var d, v := Step(job, c, e), Verdict(past, e, false);
            if v.None? then Live(d, past + [e]) else d.settled && d.outcomes == [v.value]
  {
    PastGrows(past, e);
  }

  lemma LiveStep(job: Job, past: seq<Event>, e: Event)
    requires Live(RunFrom(job, false, past), past)
    ensures var d, v := RunFrom(job, false, past + [e]), Verdict(past, e, Stuck(job, past, e));
            if v.None? then Live(d, past + [e]) else d.settled && d.outcomes == [v.value]
  {
    var c := RunFrom(job, false, past);
    RunKeepsInv(job, false, past);
    RunOneMore(job, Start(false), past, e);
    match e
    case Message(f) => LiveMessage(job, c, past, f);
    case PumpStep => LivePump(job, c, past);
    case ReadDone(r) => LiveRead(job, c, past, r);
    case _ => LiveOther(job, c, past, e);
  }

  lemma UndecidedPrefix(job: Job, events: seq<Event>, n: nat)
    requires n <= |events|
    ensures Undecided(job, events[..n]) <==> forall i :: 0 <= i < n ==> VerdictAt(job, events, i).None?
  {
    forall i | 0 <= i < n
      ensures VerdictAt(job, events[..n], i) == VerdictAt(job, events, i)
    {
      assert events[..n][..i] == events[..i];
    }
  }

  lemma {:induction false} UndecidedIsLive(job: Job, events: seq<Event>)
    requires Undecided(job, events)
    ensures Live(RunFrom(job, false, events), events)
    decreases |events|
  {
    if events != [] {
      var n := |events| - 1;
      UndecidedPrefix(job, events, n);
      UndecidedIsLive(job, events[..n]);
      assert VerdictAt(job, events, n).None?;
      LiveStep(job, events[..n], events[n]);
      assert events == events[..n] + [events[n]];
    }
  }

  // ---------- the outcome of every run ----------

  /** The event that decides gives the outcome, whatever follows. */
  lemma DecidedOutcome(job: Job, events: seq<Event>, k: nat)
    requires Decides(job, events, k)
    ensures RunFrom(job, false, events).outcomes == [VerdictAt(job, events, k).value]
  {
    UndecidedPrefix(job, events, k);
    UndecidedIsLive(job, events[..k]);
    LiveStep(job, events[..k], events[k]);
    OutcomeStays(job, events, k);
  }

  lemma OutcomeStays(job: Job, events: seq<Event>, k: nat)
    requires k < |events| && RunFrom(job, false, events[..k] + [events[k]]).settled
    ensures RunFrom(job, false, events).outcomes == RunFrom(job, false, events[..k] + [events[k]]).outcomes
  {
    var here := events[..k] + [events[k]];
    SettlesOnce(job, false, here, events[k + 1..]);
    assert events == here + events[k + 1..];
  }

  lemma {:induction false} FirstVerdict(job: Job, events: seq<Event>, n: nat) returns (k: nat)
    requires n < |events| && VerdictAt(job, events, n).Some?
    ensures k <= n && Decides(job, events, k)
  {
    k := n;
    if i :| 0 <= i < n && VerdictAt(job, events, i).Some? {
      k := FirstVerdict(job, events, i);
    }
  }

  /**
    The outcome of every run: none while no event has said anything, and else what the first one said. A call
    whose signal was aborted before is rejected at once, whatever happens.
  */
  lemma OutcomeOfRun(job: Job, aborted: bool, events: seq<Event>)
    ensures aborted ==> RunFrom(job, aborted, events).outcomes == [Rejected(Aborted)]
    ensures !aborted && Undecided(job, events) ==> RunFrom(job, aborted, events).outcomes == []
    ensures !aborted ==> forall k :: Decides(job, events, k) ==>
              RunFrom(job, aborted, events).outcomes == [VerdictAt(job, events, k).value]
    ensures Undecided(job, events) || exists k :: Decides(job, events, k)
  {
    if aborted {
      SettlesOnce(job, true, [], events);
      assert [] + events == events;
    } else {
      if Undecided(job, events) {
        UndecidedIsLive(job, events);
      }
      forall k | Decides(job, events, k)
        ensures RunFrom(job, false, events).outcomes == [VerdictAt(job, events, k).value]
      {
        DecidedOutcome(job, events, k);
      }
    }
    if n :| 0 <= n < |events| && VerdictAt(job, events, n).Some? {
      var k := FirstVerdict(job, events, n);
    }
  }

  /** Success is reported exactly for a "done" frame that arrives before anything else has settled the call. */
  lemma ResolvedIff(job: Job, aborted: bool, events: seq<Event>)
    ensures Resolved in RunFrom(job, aborted, events).outcomes <==>
            !aborted && exists k :: 0 <= k < |events| && events[k] == Message(Done) && Decides(job, events, k)
  {
    OutcomeOfRun(job, aborted, events);
    if !aborted && !Undecided(job, events) {
      var k :| Decides(job, events, k);
      forall i | Decides(job, events, i)
        ensures i == k
      {
      }
    }
  }

  predicate LosesEarly(events: seq<Event>, k: nat)
    requires k < |events|
  {
    && Message(Go) !in events[..k]
    && (events[k] == SocketError || events[k] == SocketClosed || events[k] == TimeoutFired)
  }

  /** The caller may try another way exactly when the connection was lost, or late, before the server's "go". */
  lemma HandshakeFailedIff(job: Job, aborted: bool, events: seq<Event>)
    ensures Rejected(HandshakeFailed) in RunFrom(job, aborted, events).outcomes <==>
            !aborted && exists k :: 0 <= k < |events| && Decides(job, events, k) && LosesEarly(events, k)
  {
    OutcomeOfRun(job, aborted, events);
    if !aborted && !Undecided(job, events) {
      var k :| Decides(job, events, k);
      forall i | Decides(job, events, i)
        ensures i == k
      {
      }
    }
  }

  // ---------- the answers to "ready" and "go", and the reports ----------

  function StartFrames(wire: seq<Frame>): nat {
    if wire == [] then 0
    else StartFrames(wire[..|wire| - 1]) + (if wire[|wire| - 1].StartFrame? then 1 else 0)
  }

  /** How many "ready" frames have found the call undecided and the connection open. */
  ghost function Readies(job: Job, events: seq<Event>): nat
    decreases |events|
  {
    if events == [] then 0
    else
      var past := events[..|events| - 1];
      Readies(job, past)
      + (if events[|events| - 1] == Message(Ready) && Undecided(job, past) && OpenAfter(past) then 1 else 0)
  }

  lemma StartFramesSnoc(wire: seq<Frame>, f: Frame)
    ensures StartFrames(wire + [f]) == StartFrames(wire) + (if f.StartFrame? then 1 else 0)
  {
    assert (wire + [f])[..|wire|] == wire;
  }

  lemma PumpWire(job: Job, c: Client)
    ensures var d := OnPump(job, c); d.wire == c.wire || d.wire == c.wire + [EndFrame]
  {
  }

  lemma PumpStartFrames(job: Job, c: Client)
    ensures StartFrames(OnPump(job, c).wire) == StartFrames(c.wire)
  {
    PumpWire(job, c);
    StartFramesSnoc(c.wire, EndFrame);
  }

  lemma ReadWire(job: Job, c: Client, r: Read)
    ensures var d := OnRead(job, c, r); d.wire == c.wire || exists data :: d.wire == c.wire + [Chunk(data)]
  {
  }

  lemma ReadStartFrames(job: Job, c: Client, r: Read)
    ensures StartFrames(OnRead(job, c, r).wire) == StartFrames(c.wire)
  {
    ReadWire(job, c, r);
    if OnRead(job, c, r).wire != c.wire {
      var data :| OnRead(job, c, r).wire == c.wire + [Chunk(data)];
      StartFramesSnoc(c.wire, Chunk(data));
    }
  }

  lemma MessageStartFrames(job: Job, c: Client, f: ServerFrame)
    ensures StartFrames(OnMessage(job, c, f).wire) ==
            StartFrames(c.wire) + (if f == Ready && c.socket == Open then 1 else 0)
  {
    StartFramesSnoc(c.wire, StartFrame);
  }

  lemma StepStartFrames(job: Job, c: Client, e: Event)
    ensures StartFrames(Step(job, c, e).wire) ==
            StartFrames(c.wire) + (if e == Message(Ready) && c.listening && c.socket == Open then 1 else 0)
  {
    match e
    case Message(f) => MessageStartFrames(job, c, f);
    case PumpStep => PumpStartFrames(job, c);
    case ReadDone(r) => ReadStartFrames(job, c, r);
    case _ =>
  }

  /** Every "ready" that finds the call undecided and the connection open is answered once, and no other. */
  lemma {:induction false} ReadyIsAnswered(job: Job, events: seq<Event>)
    ensures StartFrames(RunFrom(job, false, events).wire) == Readies(job, events)
    decreases |events|
  {
    if events != [] {
      var n := |events| - 1;
      var past, e := events[..n], events[n];
      ReadyIsAnswered(job, past);
      StepStartFrames(job, RunFrom(job, false, past), e);
      OpenIff(job, past);
    }
  }

  /** The connection is open for the call exactly when it is undecided and the events say so. */
  lemma OpenIff(job: Job, past: seq<Event>)
    ensures var c := RunFrom(job, false, past);
            c.listening && c.socket == Open <==> Undecided(job, past) && OpenAfter(past)
  {
    RunKeepsInv(job, false, past);
    OutcomeOfRun(job, false, past);
    if Undecided(job, past) {
      UndecidedIsLive(job, past);
    }
  }

  lemma StepPumping(job: Job, c: Client, e: Event)
    requires Inv(job, c)
    ensures var d := Step(job, c, e);
            d.listening == c.listening && (d.pumping <==> c.pumping || (c.listening && e == Message(Go)))
  {
    if e.ReadDone? {
      ReadPumping(job, c, e.read);
    }
  }

  lemma ReadPumping(job: Job, c: Client, r: Read)
    ensures var d := OnRead(job, c, r); d.listening == c.listening && d.pumping == c.pumping
  {
  }

  /** The pump has been started exactly when a "go" has come, unless the signal was aborted before. */
  lemma {:induction false} PumpStartsIff(job: Job, aborted: bool, events: seq<Event>)
    ensures RunFrom(job, aborted, events).pump != NotStarted <==> !aborted && Message(Go) in events
    ensures RunFrom(job, aborted, events).listening == !aborted
    decreases |events|
  {
    RunKeepsInv(job, aborted, events);
    if events != [] {
      var past, e := events[..|events| - 1], events[|events| - 1];
      PumpStartsIff(job, aborted, past);
      RunKeepsInv(job, aborted, past);
      StepPumping(job, RunFrom(job, aborted, past), e);
      assert events == past + [e];
    }
  }

  /** A pump that waits stays where it is just while more than 8 MiB wait in an open socket. */
  lemma PumpWaitsIff(job: Job, c: Client)
    requires Inv(job, c) && (c.pump == Waiting || c.pump == Flushing)
    ensures var d := OnPump(job, c);
            if c.socket == Open && c.bodyBuffered + c.textBuffered + c.dropped > 8_388_608 && !c.aborted then d == c
            else d.pump != c.pump
  {
  }

  lemma FailCloses(c: Client, f: Failure)
    requires !c.settled
    ensures Fail(c, f).settled && Fail(c, f).socket == if c.socket == Closed then Closed else Closing
  {
  }

  lemma EndCloses(job: Job, c: Client)
    requires !c.settled && c.pump == Ending && OnPump(job, c).settled
    ensures OnPump(job, c).socket == if c.socket == Closed then Closed else Closing
  {
    FailCloses(c.(progress := c.progress + [job.total]), UploadFailed);
  }

  lemma HeadCloses(job: Job, c: Client)
    requires !c.settled && c.pump == AtTop && OnPump(job, c).settled
    ensures OnPump(job, c).socket == if c.socket == Closed then Closed else Closing
  {
    FailCloses(c, if c.aborted then Aborted else UploadFailed);
  }

  lemma WaitCloses(job: Job, c: Client)
    requires !c.settled && (c.pump == Waiting || c.pump == Flushing) && OnPump(job, c).settled
    ensures OnPump(job, c).socket == if c.socket == Closed then Closed else Closing
  {
    FailCloses(c, Aborted);
  }

  lemma PumpCloses(job: Job, c: Client)
    requires !c.settled && OnPump(job, c).settled
    ensures OnPump(job, c).socket == if c.socket == Closed then Closed else Closing
  {
    if c.pump == Ending {
      EndCloses(job, c);
    } else if c.pump == AtTop {
      HeadCloses(job, c);
    } else if c.pump == Waiting || c.pump == Flushing {
      WaitCloses(job, c);
    }
  }

  lemma ReadCloses(job: Job, c: Client, r: Read)
    requires !c.settled && OnRead(job, c, r).settled
    ensures OnRead(job, c, r).socket == if c.socket == Closed then Closed else Closing
  {
    FailCloses(c, UploadFailed);
  }

  /** The event that settles the call has the socket closed. */
  lemma SettlingCloses(job: Job, c: Client, e: Event)
    requires !c.settled && Step(job, c, e).settled
    ensures Step(job, c, e).socket == if c.socket == Closed || e == SocketClosed then Closed else Closing
  {
    match e
    case PumpStep => PumpCloses(job, c);
    case ReadDone(r) => ReadCloses(job, c, r);
    case _ =>
  }

  // ---------- from the list of events alone ----------

  /** No stream fails, and the pump only runs before the "go" or while the connection is open. */
  predicate Smooth(events: seq<Event>) {
    forall i :: 0 <= i < |events| ==>
      && events[i] != ReadDone(ReadFailed)
      && (events[i] == PumpStep ==> Message(Go) !in events[..i] || OpenAfter(events[..i]))
  }

  /** The outcome that a list of events tells, when the pump is never stuck. */
  function Told(events: seq<Event>): seq<Outcome>
    decreases |events|
  {
    if events == [] then []
    else
      var past, e := events[..|events| - 1], events[|events| - 1];
      var earlier := Told(past);
      if earlier != [] then earlier
      else
        var v := Verdict(past, e, false);
        if v.Some? then [v.value] else []
  }

  lemma SmoothIsNotStuck(job: Job, past: seq<Event>, e: Event)
    requires Live(RunFrom(job, false, past), past)
    requires e != ReadDone(ReadFailed) && (e == PumpStep ==> Message(Go) !in past || OpenAfter(past))
    ensures !Stuck(job, past, e)
  {
    RunKeepsInv(job, false, past);
  }

  /** As long as the pump is not stuck the outcome is a function of what has happened, in the order it has. */
  lemma {:induction false} OutcomeIsTold(job: Job, events: seq<Event>)
    requires Smooth(events)
    ensures RunFrom(job, false, events).outcomes == Told(events)
    ensures Told(events) == [] ==> Live(RunFrom(job, false, events), events)
    decreases |events|
  {
    if events != [] {
      var n := |events| - 1;
      var past, e := events[..n], events[n];
      assert events == past + [e];
      SmoothPast(events, n);
      OutcomeIsTold(job, past);
      if Told(past) == [] {
        SmoothIsNotStuck(job, past, e);
        LiveStep(job, past, e);
      } else {
        RunKeepsInv(job, false, past);
        SettlesOnce(job, false, past, [e]);
      }
    }
  }

  lemma SmoothPast(events: seq<Event>, n: nat)
    requires Smooth(events) && n <= |events|
    ensures Smooth(events[..n])
  {
    forall i | 0 <= i < n
      ensures events[..n][i] == events[i] && events[..n][..i] == events[..i]
    {
    }
  }
}
