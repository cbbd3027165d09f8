/** The closure of `putBlobOverWebSocket` as an object: its variables, and a method per callback. */
module UploadClient {
  import opened Text
  import opened UploadProtocol
  import opened UploadSafety
  import opened UploadOutcome
  import opened Words

  class Upload {
    const job: Job
    var listening: bool
    var settled: bool
    var pumping: bool
    var armed: bool
    var aborted: bool
    var socket: ReadyState
    var pump: Pump
    var sent: nat
    var wire: seq<Frame>
    var bodyBuffered: nat
    var textBuffered: nat
    var dropped: nat
    var lastChunk: nat
    var progress: seq<int>
    var outcomes: seq<Outcome>

    function View(): Client
      reads this
    {
      Client(listening, settled, pumping, armed, aborted, socket, pump, sent, wire, bodyBuffered, textBuffered,
             dropped, lastChunk, progress, outcomes)
    }

    /** At most one outcome, a prefix of the body on the wire, a bounded buffer, progress in range. */
    ghost predicate Valid()
      reads this
    {
      Inv(job, View())
    }

    constructor (job: Job, aborted: bool)
      ensures this.job == job && Valid()
      ensures View() == Start(aborted)
    {
      this.job := job;
      this.aborted := aborted;
      listening, settled, pumping, armed := true, false, false, true;
      socket, pump, sent, wire := Connecting, NotStarted, 0, [];
      bodyBuffered, textBuffered, dropped, lastChunk := 0, 0, 0, 0;
      progress, outcomes := [], [];
      new;
      if aborted {
        FailWith(Aborted);
        listening := false;
      }
      InitialInv(job, aborted);
    }

    method CloseWs()
      modifies this`socket
      ensures socket == CloseSocket(old(socket))
    {
      if socket != Closed {
        socket := Closing;
      }
    }

    /** The flag, the timer, the socket and the promise, as `fail` and a "done" frame leave them. */
    method Settle(o: Outcome)
      modifies this`settled, this`armed, this`socket, this`outcomes
      ensures settled && !armed && socket == CloseSocket(old(socket)) && outcomes == old(outcomes) + [o]
    {
      settled := true;
      armed := false;
      outcomes := outcomes + [o];
      CloseWs();
    }

    method FailWith(f: Failure)
      modifies this
      ensures View() == Fail(old(View()), f)
    {
      if settled {
        return;
      }
      Settle(Rejected(f));
    }

    method OnAbort()
      requires Valid()
      modifies this
      ensures Valid()
      ensures View() == Step(job, old(View()), SignalAborted)
      ensures old(settled) ==> settled && outcomes == old(outcomes) && wire == old(wire)
    {
      StepIsSafe(job, View(), SignalAborted);
      var first := !aborted;
      aborted := true;
      if listening && first {
        FailWith(Aborted);
      }
    }

    method OnTimeout()
      requires Valid()
      modifies this
      ensures Valid()
      ensures View() == Step(job, old(View()), TimeoutFired)
      ensures old(settled) ==> settled && outcomes == old(outcomes) && wire == old(wire)
    {
      StepIsSafe(job, View(), TimeoutFired);
      if !armed {
        return;
      }
      armed := false;
      if !pumping {
        FailWith(HandshakeFailed);
      }
    }

    method OnError()
      requires Valid()
      modifies this
      ensures Valid()
      ensures View() == Step(job, old(View()), SocketError)
      ensures old(settled) ==> settled && outcomes == old(outcomes) && wire == old(wire)
    {
      StepIsSafe(job, View(), SocketError);
      if listening {
        FailWith(if pumping then UploadFailed else HandshakeFailed);
      }
    }

    method OnClose()
      requires Valid()
      modifies this
      ensures Valid()
      ensures View() == Step(job, old(View()), SocketClosed)
      ensures old(settled) ==> settled && outcomes == old(outcomes) && wire == old(wire)
    {
      StepIsSafe(job, View(), SocketClosed);
      socket := Closed;
      if listening && !settled {
        FailWith(if pumping then UploadFailed else HandshakeFailed);
      }
    }

    method OnReady()
      modifies this
      ensures View() == OnMessage(job, old(View()), Ready)
    {
      if socket != Open {
        return;
      }
      wire := wire + [StartFrame];
      textBuffered := textBuffered + job.startSize;
    }

    method OnGo()
      modifies this
      ensures View() == OnMessage(job, old(View()), Go)
    {
      if pumping {
        return;
      }
      pumping := true;
      armed := false;
      progress := progress + [job.offset];
      pump := AtTop;
    }

    method OnDone()
      modifies this
      ensures View() == OnMessage(job, old(View()), Done)
    {
      if settled {
        return;
      }
      progress := progress + [job.total];
      Settle(Resolved);
    }

    method HandleFrame(f: ServerFrame)
      requires Valid()
      modifies this
      ensures Valid()
      ensures View() == Step(job, old(View()), Message(f))
      ensures old(settled) ==> settled && outcomes == old(outcomes) && wire == old(wire)
    {
      StepIsSafe(job, View(), Message(f));
      if !listening {
        return;
      }
      match f
      case Binary =>
      case Garbled => FailWith(UploadFailed);
      case ErrorFrame => FailWith(UploadFailed);
      case Ready => OnReady();
      case Go => OnGo();
      case Done => OnDone();
      case Unknown =>
    }

    /** `throw` inside `pump`: its `catch` calls `fail`. */
    method StopWith(f: Failure)
      modifies this
      ensures View() == Stop(old(View()), f)
    {
      FailWith(f);
      pump := Stopped;
    }

    method LoopHead()
      requires pump == AtTop
      modifies this
      ensures View() == OnPump(job, old(View()))
    {
      if aborted {
        StopWith(Aborted);
      } else if socket != Open {
        StopWith(UploadFailed);
      } else {
        pump := Waiting;
      }
    }

    /** One turn of the loop in `waitWsBuffered`, or the way out of it. */
    method WaitBuffered()
      requires pump == Waiting || pump == Flushing
      modifies this
      ensures View() == OnPump(job, old(View()))
    {
      if socket == Open && bodyBuffered + textBuffered + dropped > WS_BUFFER_HIGH {
        if aborted {
          StopWith(Aborted);
        }
      } else {
        pump := if pump == Waiting then Reading else Ending;
      }
    }

    method SendEnd()
      requires pump == Ending
      modifies this
      ensures View() == OnPump(job, old(View()))
    {
      progress := progress + [job.total];
      if socket != Open {
        StopWith(UploadFailed);
      } else {
        wire := wire + [EndFrame];
        textBuffered := textBuffered + job.endSize;
        pump := Finished;
      }
    }

    /** The stretch of `pump` up to the next `await`, when it is not waiting for the stream. */
    method PumpOn()
      requires Valid()
      modifies this
      ensures Valid()
      ensures View() == Step(job, old(View()), PumpStep)
      ensures old(settled) ==> settled && outcomes == old(outcomes) && wire == old(wire)
    {
      StepIsSafe(job, View(), PumpStep);
      match pump
      case AtTop => LoopHead();
      case Waiting => WaitBuffered();
      case Flushing => WaitBuffered();
      case Ending => SendEnd();
      case _ =>
    }

    /** `ws.send(value)` and the running count. */
    method SendValue(value: seq<byte>)
      modifies this
      ensures View() == SendChunk(old(View()), value)
    {
      sent := sent + |value|;
      if socket == Open {
        wire := wire + [Chunk(value)];
        bodyBuffered := bodyBuffered + |value|;
        lastChunk := |value|;
      } else {
        dropped := dropped + |value|;
      }
    }

    method SendNext(size: nat)
      requires sent + size <= |job.body|
      modifies this
      ensures View() == TakeChunk(job, old(View()), job.body[old(sent)..old(sent) + size])
    {
      SendValue(job.body[sent..sent + size]);
      var buffered := bodyBuffered + textBuffered + dropped;
      progress := progress + [Min(job.total, job.offset + Max(0, sent - buffered))];
      pump := AtTop;
    }

    method OnChunk(size: nat)
      requires pump == Reading
      modifies this
      ensures View() == OnRead(job, old(View()), NextChunk(size))
    {
      if sent + size <= |job.body| {
        if size == 0 {
          pump := AtTop;
        } else {
          ReadIsTake(job, View(), size);
          SendNext(size);
        }
      }
    }

    method OnEnd()
      requires pump == Reading
      modifies this
      ensures View() == OnRead(job, old(View()), NoMore)
    {
      if sent >= |job.body| {
        pump := Flushing;
      }
    }

    /** The stretch of `pump` after the stream has answered. */
    method PumpRead(r: Read)
      requires Valid()
      modifies this
      ensures Valid()
      ensures View() == Step(job, old(View()), ReadDone(r))
      ensures old(settled) ==> settled && outcomes == old(outcomes) && wire == old(wire)
    {
      StepIsSafe(job, View(), ReadDone(r));
      if pump != Reading {
        return;
      }
      match r
      case ReadFailed => StopWith(UploadFailed);
      case NoMore => OnEnd();
      case NextChunk(size) => OnChunk(size);
    }

    /** What the browser does to the socket on its own, and the callback it makes. */
    method Handle(e: Event)
      requires Valid()
      modifies this
      ensures Valid()
      ensures View() == Step(job, old(View()), e)
      ensures old(settled) ==> settled && outcomes == old(outcomes) && wire == old(wire)
    {
      StepIsSafe(job, View(), e);
      match e
      case SocketOpened =>
        if socket == Connecting {
          socket := Open;
        }
      case PeerClosing =>
        if socket == Open {
          socket := Closing;
        }
      case SocketDrained(b, t) =>
        bodyBuffered := Max(0, bodyBuffered - b);
        textBuffered := Max(0, textBuffered - t);
      case SocketError => OnError();
      case SocketClosed => OnClose();
      case Message(f) => HandleFrame(f);
      case SignalAborted => OnAbort();
      case TimeoutFired => OnTimeout();
      case PumpStep => PumpOn();
      case ReadDone(r) => PumpRead(r);
    }
  }

  /** Any run of callbacks is a run of the protocol and keeps what it promises. */
  method Drive(u: Upload, events: seq<Event>)
    requires u.Valid()
    modifies u
    ensures u.Valid() && u.View() == Run(u.job, old(u.View()), events)
    ensures old(u.settled) ==> u.settled && u.outcomes == old(u.outcomes) && u.wire == old(u.wire)
  {
    ghost var start := u.View();
    for i := 0 to |events|
      invariant u.Valid() && u.View() == Run(u.job, start, events[..i])
      invariant old(u.settled) ==> u.settled && u.outcomes == old(u.outcomes) && u.wire == old(u.wire)
    {
      RunStep(u.job, start, events, i);
      u.Handle(events[i]);
    }
    assert events[..|events|] == events;
  }

  lemma RunStep(job: Job, c: Client, events: seq<Event>, i: nat)
    requires i < |events|
    ensures Run(job, c, events[..i + 1]) == Step(job, Run(job, c, events[..i]), events[i])
  {
    assert events[..i + 1][..i] == events[..i];
  }

  /** The whole upload as one call: the object ends in the state of the protocol after these events. */
  method RunUpload(job: Job, aborted: bool, events: seq<Event>) returns (u: Upload)
    ensures fresh(u) && u.job == job && u.Valid() && u.View() == RunFrom(job, aborted, events)
    ensures aborted ==> u.outcomes == [Rejected(Aborted)]
    ensures !aborted && Undecided(job, events) ==> u.outcomes == []
    ensures !aborted ==> forall k :: Decides(job, events, k) ==> u.outcomes == [VerdictAt(job, events, k).value]
  {
    OutcomeOfRun(job, aborted, events);
    u := new Upload(job, aborted);
    Drive(u, events);
  }
}
