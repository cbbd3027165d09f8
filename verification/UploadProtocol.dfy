/**
  The upload over a WebSocket of `lib/guest-file-transfer.ts` as a state machine: one transition per
  callback of the browser and per stretch of `pump` between two `await`s. The server's frames, the
  socket, the stream, the abort signal and the timer are free to act in any order.
*/
module UploadProtocol {
  import opened Text
  import opened Words

  const WS_BUFFER_HIGH: nat := 8 * 1024 * 1024

  /** What the call was made with; the two sizes are those of the JSON text frames. */
  datatype Job = Job(body: seq<byte>, offset: nat, total: nat, startSize: nat, endSize: nat)

  datatype ReadyState = Connecting | Open | Closing | Closed

  datatype Failure = HandshakeFailed | Aborted | UploadFailed

  datatype Outcome = Resolved | Rejected(failure: Failure)

  datatype Frame = StartFrame | Chunk(data: seq<byte>) | EndFrame

  /** Where `pump` is suspended. */
  datatype Pump =
    | NotStarted
    | AtTop      // the head of the loop
    | Waiting    // in waitWsBuffered, before a read
    | Reading    // awaiting reader.read()
    | Flushing   // in waitWsBuffered, after the last read
    | Ending     // about to send the end frame
    | Finished
    | Stopped    // an exception went to fail()

  datatype Client = Client(
    listening: bool,          // the handlers are installed
    settled: bool,
    pumping: bool,
    armed: bool,              // the handshake timer runs
    aborted: bool,            // the state of the abort signal
    socket: ReadyState,
    pump: Pump,
    sent: nat,                // bytes passed to ws.send
    wire: seq<Frame>,         // frames the open socket took, in order
    bodyBuffered: nat,        // the parts of ws.bufferedAmount: body bytes,
    textBuffered: nat,        // text frames,
    dropped: nat,             // and bytes discarded by a socket that is closing
    lastChunk: nat,           // the size of the last chunk taken
    progress: seq<int>,       // calls of onProgress
    outcomes: seq<Outcome>)   // calls of resolve and reject

  datatype ServerFrame = Binary | Garbled | ErrorFrame | Ready | Go | Done | Unknown

  datatype Read = NextChunk(size: nat) | NoMore | ReadFailed

  datatype Event =
    | SocketOpened
    | PeerClosing
    | SocketDrained(body: nat, text: nat)
    | SocketError
    | SocketClosed
    | Message(frame: ServerFrame)
    | SignalAborted
    | TimeoutFired
    | PumpStep
    | ReadDone(read: Read)

  // ---------- transitions ----------

  function Buffered(c: Client): nat {
    c.bodyBuffered + c.textBuffered + c.dropped
  }

  function CloseSocket(s: ReadyState): ReadyState {
    if s == Closed then Closed else Closing
  }

  function Fail(c: Client, f: Failure): Client {
    if c.settled then c
    else c.(settled := true, armed := false, socket := CloseSocket(c.socket), outcomes := c.outcomes + [Rejected(f)])
  }

  function Stop(c: Client, f: Failure): Client {
    Fail(c, f).(pump := Stopped)
  }

  function Initial(): Client {
    Client(true, false, false, true, false, Connecting, NotStarted, 0, [], 0, 0, 0, 0, [], [])
  }

  /** The promise executor: with a signal that is already aborted it returns before installing handlers. */
  function Start(aborted: bool): Client {
    if aborted then Fail(Initial().(listening := false, aborted := true), Aborted) else Initial()
  }

  function OnMessage(job: Job, c: Client, f: ServerFrame): Client {
    match f
    case Binary => c
    case Garbled => Fail(c, UploadFailed)
    case ErrorFrame => Fail(c, UploadFailed)
    case Ready =>
      if c.socket != Open then c
      else c.(wire := c.wire + [StartFrame], textBuffered := c.textBuffered + job.startSize)
    case Go =>
      if c.pumping then c
      else c.(pumping := true, armed := false, pump := AtTop, progress := c.progress + [job.offset])
    case Done =>
      if c.settled then c
      else c.(settled := true, armed := false, progress := c.progress + [job.total],
              outcomes := c.outcomes + [Resolved], socket := CloseSocket(c.socket))
    case Unknown => c
  }

  /** `ws.send(value)`: an open socket takes the bytes, a closing one discards them. */
  function SendChunk(c: Client, data: seq<byte>): Client {
    if c.socket == Open then
      c.(wire := c.wire + [Chunk(data)], bodyBuffered := c.bodyBuffered + |data|, lastChunk := |data|,
         sent := c.sent + |data|)
    else c.(dropped := c.dropped + |data|, sent := c.sent + |data|)
  }

  function Reported(job: Job, c: Client): int {
    Min(job.total, job.offset + Max(0, c.sent - Buffered(c)))
  }

  function Report(job: Job, c: Client): Client {
    c.(progress := c.progress + [Reported(job, c)])
  }

  function OnPump(job: Job, c: Client): Client {
    match c.pump
    case AtTop =>
      if c.aborted then Stop(c, Aborted)
      else if c.socket != Open then Stop(c, UploadFailed)
      else c.(pump := Waiting)
    case Waiting =>
      if c.socket == Open && Buffered(c) > WS_BUFFER_HIGH then
        if c.aborted then Stop(c, Aborted) else c
      else c.(pump := Reading)
    case Flushing =>
      if c.socket == Open && Buffered(c) > WS_BUFFER_HIGH then
        if c.aborted then Stop(c, Aborted) else c
      else c.(pump := Ending)
    case Ending =>
      var d := c.(progress := c.progress + [job.total]);
      if d.socket != Open then Stop(d, UploadFailed)
      else d.(wire := d.wire + [EndFrame], textBuffered := d.textBuffered + job.endSize, pump := Finished)
    case _ => c
  }

  /** Send the next bytes of the body, report, go back to the head of the loop. */
  function TakeChunk(job: Job, c: Client, data: seq<byte>): Client {
    Report(job, SendChunk(c, data).(pump := AtTop))
  }

  /** The stream hands the body over in pieces of any size and ends after the last byte. */
  function OnRead(job: Job, c: Client, r: Read): Client {
    if c.pump != Reading then c
    else match r
      case ReadFailed => Stop(c, UploadFailed)
      case NoMore => if c.sent >= |job.body| then c.(pump := Flushing) else c
      case NextChunk(size) =>
        if c.sent + size > |job.body| then c
        else if size == 0 then c.(pump := AtTop)
        else TakeChunk(job, c, job.body[c.sent..c.sent + size])
  }

  function Step(job: Job, c: Client, e: Event): Client {
    match e
    case SocketOpened => if c.socket == Connecting then c.(socket := Open) else c
    case PeerClosing => if c.socket == Open then c.(socket := Closing) else c
    case SocketDrained(b, t) =>
      c.(bodyBuffered := Max(0, c.bodyBuffered - b), textBuffered := Max(0, c.textBuffered - t))
    case SocketError =>
      if c.listening then Fail(c, if c.pumping then UploadFailed else HandshakeFailed) else c
    case SocketClosed =>
      var d := c.(socket := Closed);
      if c.listening && !c.settled then Fail(d, if c.pumping then UploadFailed else HandshakeFailed) else d
    case Message(f) => if c.listening then OnMessage(job, c, f) else c
    case SignalAborted =>
      var d := c.(aborted := true);
      if c.listening && !c.aborted then Fail(d, Aborted) else d
    case TimeoutFired =>
      if !c.armed then c
      else
        var d := c.(armed := false);
        if c.pumping then d else Fail(d, HandshakeFailed)
    case PumpStep => OnPump(job, c)
    case ReadDone(r) => OnRead(job, c, r)
  }

  function Run(job: Job, c: Client, events: seq<Event>): Client
    decreases |events|
  {
    if events == [] then c
    else Step(job, Run(job, c, events[..|events| - 1]), events[|events| - 1])
  }

  // ---------- the invariant ----------

  /** The body bytes among the frames, in the order sent. */
  function Payload(wire: seq<Frame>): seq<byte> {
    if wire == [] then []
    else
      var f := wire[|wire| - 1];
      Payload(wire[..|wire| - 1]) + (if f.Chunk? then f.data else [])
  }

  function Ends(wire: seq<Frame>): nat {
    if wire == [] then 0
    else Ends(wire[..|wire| - 1]) + (if wire[|wire| - 1].EndFrame? then 1 else 0)
  }

  lemma WireSnoc(wire: seq<Frame>, f: Frame)
    ensures Payload(wire + [f]) == Payload(wire) + (if f.Chunk? then f.data else [])
    ensures Ends(wire + [f]) == Ends(wire) + (if f.EndFrame? then 1 else 0)
  {
    assert (wire + [f])[..|wire|] == wire;
  }

  ghost predicate SettleInv(c: Client) {
    && |c.outcomes| == (if c.settled then 1 else 0)
    && (c.settled ==> c.socket == Closing || c.socket == Closed)
    && (c.armed ==> !c.settled && !c.pumping)
    && (!c.listening ==> c.settled && !c.pumping)
    && (c.pumping <==> c.pump != NotStarted)
    && (c.pump == Stopped ==> c.settled)
    && (c.socket == Connecting ==> c.pump == NotStarted || c.pump == AtTop)
  }

  ghost predicate WireInv(job: Job, c: Client) {
    && Payload(c.wire) <= job.body
    && c.sent == |Payload(c.wire)| + c.dropped <= |job.body|
    && (c.dropped > 0 ==> c.socket == Closing || c.socket == Closed)
    && c.bodyBuffered <= |Payload(c.wire)|
    && (!c.pumping ==> c.sent == 0)
    && Ends(c.wire) == (if c.pump == Finished then 1 else 0)
    && (c.pump == Flushing || c.pump == Ending || c.pump == Finished ==> c.sent == |job.body|)
    && (c.pump == Finished ==> Payload(c.wire) == job.body)
    && (Rejected(HandshakeFailed) in c.outcomes ==> Payload(c.wire) == [] && Ends(c.wire) == 0)
  }

  ghost predicate BufferInv(c: Client) {
    && c.bodyBuffered <= WS_BUFFER_HIGH + c.lastChunk
    && ((c.pump == Reading || c.pump == Ending) && c.socket == Open ==> c.bodyBuffered <= WS_BUFFER_HIGH)
  }

  ghost predicate ProgressInv(job: Job, c: Client) {
    job.offset <= job.total ==> forall i :: 0 <= i < |c.progress| ==> job.offset <= c.progress[i] <= job.total
  }

  ghost predicate Inv(job: Job, c: Client) {
    SettleInv(c) && WireInv(job, c) && BufferInv(c) && ProgressInv(job, c)
  }

  lemma InitialInv(job: Job, aborted: bool)
    ensures Inv(job, Start(aborted))
  {
  }

  lemma FailKeepsInv(job: Job, c: Client, f: Failure)
    requires Inv(job, c)
    requires f == HandshakeFailed ==> !c.pumping
    ensures Inv(job, Fail(c, f)) && Fail(c, f).settled
  {
  }

  lemma StopKeepsInv(job: Job, c: Client, f: Failure)
    requires Inv(job, c) && c.pumping && c.pump != Finished && f != HandshakeFailed
    ensures Inv(job, Stop(c, f))
  {
    FailKeepsInv(job, c, f);
  }

  lemma StartKeepsWire(job: Job, c: Client)
    requires WireInv(job, c)
    ensures WireInv(job, c.(wire := c.wire + [StartFrame]))
  {
    WireSnoc(c.wire, StartFrame);
  }

  lemma TextKeepsInv(job: Job, c: Client, wire: seq<Frame>, text: nat)
    requires Inv(job, c) && WireInv(job, c.(wire := wire))
    ensures Inv(job, c.(wire := wire, textBuffered := text))
  {
  }

  lemma ReadyKeepsInv(job: Job, c: Client)
    requires Inv(job, c)
    ensures Inv(job, OnMessage(job, c, Ready))
  {
    StartKeepsWire(job, c);
    TextKeepsInv(job, c, c.wire + [StartFrame], c.textBuffered + job.startSize);
  }

  lemma GoKeepsInv(job: Job, c: Client)
    requires Inv(job, c) && c.listening
    ensures Inv(job, OnMessage(job, c, Go))
  {
  }

  lemma DoneKeepsInv(job: Job, c: Client)
    requires Inv(job, c) && c.listening
    ensures Inv(job, OnMessage(job, c, Done))
  {
  }

  lemma MessageKeepsInv(job: Job, c: Client, f: ServerFrame)
    requires Inv(job, c) && c.listening
    ensures Inv(job, OnMessage(job, c, f))
  {
    match f
    case Ready => ReadyKeepsInv(job, c);
    case Go => GoKeepsInv(job, c);
    case Done => DoneKeepsInv(job, c);
    case Garbled => FailKeepsInv(job, c, UploadFailed);
    case ErrorFrame => FailKeepsInv(job, c, UploadFailed);
    case _ =>
  }

  /** A pump that is suspended before the end may move on to another place of the loop. */
  lemma MovesKeepInv(job: Job, c: Client, p: Pump)
    requires Inv(job, c) && c.pumping && c.pump != Finished && c.pump != Stopped
    requires p == Waiting ==> c.socket == Open
    requires p == AtTop || p == Waiting || (p == Reading && (c.socket == Open ==> c.bodyBuffered <= WS_BUFFER_HIGH))
    requires c.socket == Connecting ==> p == AtTop
    ensures Inv(job, c.(pump := p))
  {
  }

  lemma TopKeepsInv(job: Job, c: Client)
    requires Inv(job, c) && c.pump == AtTop
    ensures Inv(job, OnPump(job, c))
  {
    if c.aborted {
      StopKeepsInv(job, c, Aborted);
    } else if c.socket != Open {
      StopKeepsInv(job, c, UploadFailed);
    } else {
      MovesKeepInv(job, c, Waiting);
    }
  }

  lemma WaitKeepsInv(job: Job, c: Client)
    requires Inv(job, c) && c.pump == Waiting
    ensures Inv(job, OnPump(job, c))
  {
    if c.socket == Open && Buffered(c) > WS_BUFFER_HIGH {
      StopKeepsInv(job, c, Aborted);
    } else {
      MovesKeepInv(job, c, Reading);
    }
  }

  lemma FlushKeepsInv(job: Job, c: Client)
    requires Inv(job, c) && c.pump == Flushing
    ensures Inv(job, OnPump(job, c))
  {
    if c.socket == Open && Buffered(c) > WS_BUFFER_HIGH {
      StopKeepsInv(job, c, Aborted);
    }
  }

  lemma PumpKeepsInv(job: Job, c: Client)
    requires Inv(job, c)
    ensures Inv(job, OnPump(job, c))
  {
    match c.pump
    case AtTop => TopKeepsInv(job, c);
    case Waiting => WaitKeepsInv(job, c);
    case Flushing => FlushKeepsInv(job, c);
    case Ending => EndKeepsInv(job, c);
    case _ =>
  }

  lemma EndKeepsInv(job: Job, c: Client)
    requires Inv(job, c) && c.pump == Ending
    ensures Inv(job, OnPump(job, c))
  {
    var d := c.(progress := c.progress + [job.total]);
    if c.socket == Open {
      WireSnoc(c.wire, EndFrame);
    } else {
      StopKeepsInv(job, d, UploadFailed);
    }
  }

  /** What is sent next continues the body. */
  lemma PayloadGrows(body: seq<byte>, payload: seq<byte>, size: nat)
    requires payload <= body && |payload| + size <= |body|
    ensures payload + body[|payload|..|payload| + size] <= body
  {
    assert body[..|payload| + size] == payload + body[|payload|..|payload| + size];
  }

  /** What an open socket takes. */
  lemma TakenKeepsWire(job: Job, c: Client, data: seq<byte>)
    requires WireInv(job, c) && c.pumping && c.socket == Open && c.pump == Reading
    requires Rejected(HandshakeFailed) !in c.outcomes
    requires c.sent + |data| <= |job.body| && data == job.body[c.sent..c.sent + |data|]
    ensures WireInv(job, SendChunk(c, data).(pump := AtTop))
  {
    WireSnoc(c.wire, Chunk(data));
    PayloadGrows(job.body, Payload(c.wire), |data|);
  }

  /** What a socket that is closing discards. */
  lemma LostKeepsWire(job: Job, c: Client, data: seq<byte>)
    requires WireInv(job, c) && c.pumping && (c.socket == Closing || c.socket == Closed) && c.pump == Reading
    requires c.sent + |data| <= |job.body|
    ensures WireInv(job, SendChunk(c, data).(pump := AtTop))
  {
  }

  lemma ReportKeepsWire(job: Job, c: Client)
    requires WireInv(job, c)
    ensures WireInv(job, Report(job, c))
  {
  }

  lemma ChunkKeepsWire(job: Job, c: Client, data: seq<byte>)
    requires Inv(job, c) && c.pump == Reading && c.sent + |data| <= |job.body|
    requires data == job.body[c.sent..c.sent + |data|]
    ensures WireInv(job, SendChunk(c, data).(pump := AtTop))
  {
    if c.socket == Open {
      TakenKeepsWire(job, c, data);
    } else {
      LostKeepsWire(job, c, data);
    }
  }

  lemma SendKeepsWire(job: Job, c: Client, data: seq<byte>)
    requires Inv(job, c) && c.pump == Reading && c.sent + |data| <= |job.body|
    requires data == job.body[c.sent..c.sent + |data|]
    ensures WireInv(job, TakeChunk(job, c, data))
  {
    ChunkKeepsWire(job, c, data);
    ReportKeepsWire(job, SendChunk(c, data).(pump := AtTop));
  }

  lemma ReportKeepsProgress(job: Job, c: Client)
    requires ProgressInv(job, c)
    ensures ProgressInv(job, Report(job, c))
  {
    assert job.offset <= job.total ==> job.offset <= Reported(job, c) <= job.total;
  }

  lemma SendKeepsSettled(job: Job, c: Client, data: seq<byte>)
    requires SettleInv(c) && BufferInv(c) && c.pump == Reading
    ensures SettleInv(TakeChunk(job, c, data)) && BufferInv(TakeChunk(job, c, data))
  {
  }

  lemma SendKeepsInv(job: Job, c: Client, data: seq<byte>)
    requires Inv(job, c) && c.pump == Reading && c.sent + |data| <= |job.body|
    requires data == job.body[c.sent..c.sent + |data|]
    ensures Inv(job, TakeChunk(job, c, data))
  {
    SendKeepsWire(job, c, data);
    ReportKeepsProgress(job, SendChunk(c, data).(pump := AtTop));
    SendKeepsSettled(job, c, data);
  }

  lemma NextChunkKeepsInv(job: Job, c: Client, size: nat)
    requires Inv(job, c) && c.pump == Reading && c.sent + size <= |job.body|
    ensures Inv(job, TakeChunk(job, c, job.body[c.sent..c.sent + size]))
  {
    var data := job.body[c.sent..c.sent + size];
    assert |data| == size;
    SendKeepsInv(job, c, data);
  }

  lemma NoChunkKeepsInv(job: Job, c: Client)
    requires Inv(job, c) && c.pump == Reading
    ensures Inv(job, c.(pump := AtTop))
    ensures c.sent >= |job.body| ==> Inv(job, c.(pump := Flushing))
  {
  }

  lemma ReadIsTake(job: Job, c: Client, size: nat)
    requires c.pump == Reading && 0 < size && c.sent + size <= |job.body|
    ensures OnRead(job, c, NextChunk(size)) == TakeChunk(job, c, job.body[c.sent..c.sent + size])
  {
  }

  lemma ReadSomeKeepsInv(job: Job, c: Client, size: nat)
    requires Inv(job, c) && c.pump == Reading && 0 < size && c.sent + size <= |job.body|
    ensures Inv(job, OnRead(job, c, NextChunk(size)))
  {
    ReadIsTake(job, c, size);
    NextChunkKeepsInv(job, c, size);
  }

  lemma ReadChunkKeepsInv(job: Job, c: Client, size: nat)
    requires Inv(job, c) && c.pump == Reading
    ensures Inv(job, OnRead(job, c, NextChunk(size)))
  {
    if size == 0 {
      NoChunkKeepsInv(job, c);
    } else if c.sent + size <= |job.body| {
      ReadSomeKeepsInv(job, c, size);
    }
  }

  lemma ReadEndKeepsInv(job: Job, c: Client)
    requires Inv(job, c) && c.pump == Reading
    ensures Inv(job, OnRead(job, c, NoMore)) && Inv(job, OnRead(job, c, ReadFailed))
  {
    NoChunkKeepsInv(job, c);
    StopKeepsInv(job, c, UploadFailed);
  }

  lemma ReadKeepsInv(job: Job, c: Client, r: Read)
    requires Inv(job, c)
    ensures Inv(job, OnRead(job, c, r))
  {
    if c.pump == Reading {
      if r.NextChunk? {
        ReadChunkKeepsInv(job, c, r.size);
      } else {
        ReadEndKeepsInv(job, c);
      }
    }
  }

  lemma ErrorKeepsInv(job: Job, c: Client)
    requires Inv(job, c)
    ensures Inv(job, Step(job, c, SocketError))
  {
    FailKeepsInv(job, c, if c.pumping then UploadFailed else HandshakeFailed);
  }

  lemma CloseKeepsInv(job: Job, c: Client)
    requires Inv(job, c)
    ensures Inv(job, Step(job, c, SocketClosed))
  {
    FailKeepsInv(job, c.(socket := Closed), if c.pumping then UploadFailed else HandshakeFailed);
  }

  lemma AbortKeepsInv(job: Job, c: Client)
    requires Inv(job, c)
    ensures Inv(job, Step(job, c, SignalAborted))
  {
    FailKeepsInv(job, c.(aborted := true), Aborted);
  }

  lemma TimeoutKeepsInv(job: Job, c: Client)
    requires Inv(job, c)
    ensures Inv(job, Step(job, c, TimeoutFired))
  {
    if c.armed {
      FailKeepsInv(job, c.(armed := false), HandshakeFailed);
    }
  }

  lemma SocketKeepsInv(job: Job, c: Client, e: Event)
    requires Inv(job, c) && (e.SocketOpened? || e.PeerClosing? || e.SocketDrained?)
    ensures Inv(job, Step(job, c, e))
  {
  }

  lemma StepKeepsInv(job: Job, c: Client, e: Event)
    requires Inv(job, c)
    ensures Inv(job, Step(job, c, e))
  {
    match e
    case Message(f) => if c.listening { MessageKeepsInv(job, c, f); }
    case PumpStep => PumpKeepsInv(job, c);
    case ReadDone(r) => ReadKeepsInv(job, c, r);
    case SocketError => ErrorKeepsInv(job, c);
    case SocketClosed => CloseKeepsInv(job, c);
    case SignalAborted => AbortKeepsInv(job, c);
    case TimeoutFired => TimeoutKeepsInv(job, c);
    case _ => SocketKeepsInv(job, c, e);
  }

  lemma {:induction false} RunKeepsInv(job: Job, aborted: bool, events: seq<Event>)
    ensures Inv(job, Run(job, Start(aborted), events))
    decreases |events|
  {
    if events == [] {
      InitialInv(job, aborted);
    } else {
      RunKeepsInv(job, aborted, events[..|events| - 1]);
      StepKeepsInv(job, Run(job, Start(aborted), events[..|events| - 1]), events[|events| - 1]);
    }
  }
}
