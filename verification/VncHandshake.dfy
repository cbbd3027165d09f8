/** The consumer of Proxmox's VNC acknowledgement (`lib/vnc-handshake.ts`), folded over the chunks of a stream. */
module VncHandshake {
  import opened Text
  import opened Words

  const LIMIT: nat := 16
  const CR: byte := 0x0d
  const LF: byte := 0x0a

  /** One answer of the consumer: keep buffering, pass `rest` on, or give up. */
  datatype Outcome = Pending(rest: seq<byte>) | Done(rest: seq<byte>) | Failed(rest: seq<byte>)

  predicate StartsRfb(s: seq<byte>) {
    |s| >= 4 && s[..4] == [0x52, 0x46, 0x42, 0x20]
  }

  predicate StartsOk(s: seq<byte>) {
    |s| >= 2 && s[0] == 0x4f && s[1] == 0x4b
  }

  /** How much of a buffer that starts with "OK" is dropped. */
  function Skip(buf: seq<byte>): (n: nat)
    requires |buf| >= 2
    ensures 2 <= n <= |buf|
  {
    var skip := if |buf| > 2 && buf[2] == CR then 3 else 2;
    if |buf| > skip && buf[skip] == LF then skip + 1 else skip
  }

  /** `consumeProxmoxVncHandshake(previous, chunk)` */
  function Consume(previous: seq<byte>, chunk: seq<byte>): Outcome {
    var buf := previous + chunk;
    if StartsRfb(buf) then Done(buf)
    else if |buf| < 2 then Pending(buf)
    else if StartsOk(buf) then Done(buf[Skip(buf)..])
    else if |buf| >= LIMIT then Failed(buf)
    else Pending(buf)
  }

  // ---------- a connection ----------

  /**
    What a connection does with its next chunk: while nothing is settled the consumer sees it, after a
    pass it is forwarded as it is, after a failure the connection is closed and it is ignored.
  */
  function Receive(state: Outcome, chunk: seq<byte>): Outcome {
    match state
    case Pending(rest) => Consume(rest, chunk)
    case Done(out) => Done(out + chunk)
    case Failed(_) => state
  }

  function Run(chunks: seq<seq<byte>>): Outcome {
    if chunks == [] then Pending([])
    else Receive(Run(chunks[..|chunks| - 1]), chunks[|chunks| - 1])
  }

  function Flat(chunks: seq<seq<byte>>): seq<byte> {
    if chunks == [] then [] else Flat(chunks[..|chunks| - 1]) + chunks[|chunks| - 1]
  }

  // ---------- the verdict belongs to the stream ----------

  datatype Verdict = Waits | Passes | Fails

  function VerdictOf(o: Outcome): Verdict {
    match o
    case Pending(_) => Waits
    case Done(_) => Passes
    case Failed(_) => Fails
  }

  /** What a connection that has received the bytes `s` has decided. */
  function StreamVerdict(s: seq<byte>): Verdict {
    if StartsRfb(s) || StartsOk(s) then Passes
    else if |s| >= LIMIT then Fails
    else Waits
  }

  lemma PrefixesDecide(s: seq<byte>, t: seq<byte>)
    ensures StartsRfb(s) ==> StartsRfb(s + t)
    ensures StartsOk(s) ==> StartsOk(s + t)
    ensures |s| >= LIMIT && !StartsRfb(s) && !StartsOk(s) ==> !StartsRfb(s + t) && !StartsOk(s + t)
  {
    if |s| >= 4 {
      assert (s + t)[..4] == s[..4];
    }
  }

  /** However the stream is cut, the verdict is that of its bytes, and what waits is all of them. */
  lemma {:induction false} VerdictIsOfTheStream(chunks: seq<seq<byte>>)
    ensures VerdictOf(Run(chunks)) == StreamVerdict(Flat(chunks))
    ensures Run(chunks).Pending? ==> Run(chunks).rest == Flat(chunks) && |Run(chunks).rest| < LIMIT
    decreases |chunks|
  {
    if chunks != [] {
      var early, last := chunks[..|chunks| - 1], chunks[|chunks| - 1];
      VerdictIsOfTheStream(early);
      PrefixesDecide(Flat(early), last);
    }
  }

  /** A stream of sixteen bytes or more is decided, the same way for every cut. */
  lemma LongStreamsAreDecided(chunks: seq<seq<byte>>, others: seq<seq<byte>>)
    requires Flat(chunks) == Flat(others) && |Flat(chunks)| >= LIMIT
    ensures !Run(chunks).Pending?
    ensures Run(chunks).Done? <==> Run(others).Done?
  {
    VerdictIsOfTheStream(chunks);
    VerdictIsOfTheStream(others);
  }

  // ---------- what is passed on ----------

  /** The number of bytes in the buffer that first holds two. */
  function Cut(chunks: seq<seq<byte>>): nat
    decreases |chunks|
  {
    if chunks == [] then 0
    else
      var early := chunks[..|chunks| - 1];
      if |Flat(early)| >= 2 then Cut(early) else |Flat(chunks)|
  }

  lemma {:induction false} CutBounds(chunks: seq<seq<byte>>)
    ensures |Flat(chunks)| >= 2 ==> 2 <= Cut(chunks) <= |Flat(chunks)|
    decreases |chunks|
  {
    if chunks != [] {
      CutBounds(chunks[..|chunks| - 1]);
    }
  }

  /** The bytes a connection drops: an acknowledgement's line end counts only if it came in time. */
  function Dropped(chunks: seq<seq<byte>>): nat
    requires |Flat(chunks)| >= 2
  {
    if StartsRfb(Flat(chunks)) then 0 else Min(Skip(Flat(chunks)), Cut(chunks))
  }

  lemma SkipOfPrefix(s: seq<byte>, n: nat)
    requires 2 <= n <= |s|
    ensures Skip(s[..n]) == Min(Skip(s), n)
  {
  }

  lemma NotBoth(s: seq<byte>)
    requires StartsOk(s)
    ensures !StartsRfb(s)
  {
    assert |s| >= 4 ==> s[..4][0] == s[0];
  }

  lemma DroppedGrows(chunks: seq<seq<byte>>)
    requires chunks != [] && |Flat(chunks[..|chunks| - 1])| >= 2
    requires StreamVerdict(Flat(chunks[..|chunks| - 1])) == Passes
    ensures Dropped(chunks) == Dropped(chunks[..|chunks| - 1])
  {
    var early, last := chunks[..|chunks| - 1], chunks[|chunks| - 1];
    PrefixesDecide(Flat(early), last);
    if StartsOk(Flat(early)) {
      NotBoth(Flat(early));
      NotBoth(Flat(chunks));
      CutBounds(early);
      var n := |Flat(early)|;
      assert Flat(chunks)[..n] == Flat(early);
      SkipOfPrefix(Flat(chunks), n);
    }
  }

  /** What was passed on is the stream without what was dropped. */
  lemma {:induction false} PassedOnIsTheRest(chunks: seq<seq<byte>>)
    requires Run(chunks).Done?
    ensures |Flat(chunks)| >= 2
    ensures Dropped(chunks) <= |Flat(chunks)| && Run(chunks).rest == Flat(chunks)[Dropped(chunks)..]
    decreases |chunks|
  {
    var early, last := chunks[..|chunks| - 1], chunks[|chunks| - 1];
    VerdictIsOfTheStream(early);
    if Run(early).Done? {
      PassedOnIsTheRest(early);
      PassedBefore(chunks);
    } else {
      assert chunks == early + [last];
      PassesNow(early, last);
    }
  }

  lemma DropThenAppend(s: seq<byte>, t: seq<byte>, n: nat)
    requires n <= |s|
    ensures (s + t)[n..] == s[n..] + t
  {
  }

  /** Once the handshake has passed, chunks are only appended. */
  lemma PassedBefore(chunks: seq<seq<byte>>)
    requires chunks != [] && |Flat(chunks[..|chunks| - 1])| >= 2
    requires Run(chunks[..|chunks| - 1]).Done?
    requires StreamVerdict(Flat(chunks[..|chunks| - 1])) == Passes
    requires var early := chunks[..|chunks| - 1];
             Dropped(early) <= |Flat(early)| && Run(early).rest == Flat(early)[Dropped(early)..]
    ensures |Flat(chunks)| >= 2 && Dropped(chunks) <= |Flat(chunks)|
    ensures Run(chunks).rest == Flat(chunks)[Dropped(chunks)..]
  {
    var early, last := chunks[..|chunks| - 1], chunks[|chunks| - 1];
    DroppedGrows(chunks);
    DropThenAppend(Flat(early), last, Dropped(early));
  }

  /** The chunk that settles the handshake also settles what is dropped. */
  lemma PassesNow(early: seq<seq<byte>>, last: seq<byte>)
    requires Run(early) == Pending(Flat(early)) && StreamVerdict(Flat(early)) == Waits
    requires Consume(Flat(early), last).Done?
    ensures |Flat(early + [last])| >= 2
    ensures Consume(Flat(early), last).rest == Flat(early + [last])[Dropped(early + [last])..]
  {
    var chunks := early + [last];
    assert chunks[..|chunks| - 1] == early;
    var s := Flat(chunks);
    if !StartsRfb(s) {
      assert |Flat(early)| < 2;
      assert Cut(chunks) == |s|;
    }
  }

  predicate StartsWith(s: seq<byte>, c: byte) {
    s != [] && s[0] == c
  }

  /** Of a stream that starts with "OK" and arrives whole, that and one line end are dropped: CR, LF, or CR and LF. */
  lemma AcknowledgementIsDropped(x: seq<byte>)
    ensures !StartsWith(x, CR) && !StartsWith(x, LF) ==> Run([[0x4f, 0x4b] + x]) == Done(x)
    ensures Run([[0x4f, 0x4b, LF] + x]) == Done(x) == Run([[0x4f, 0x4b, CR, LF] + x])
    ensures !StartsWith(x, LF) ==> Run([[0x4f, 0x4b, CR] + x]) == Done(x)
  {
    WholeIsDropped([0x4f, 0x4b], x);
    WholeIsDropped([0x4f, 0x4b, LF], x);
    WholeIsDropped([0x4f, 0x4b, CR, LF], x);
    WholeIsDropped([0x4f, 0x4b, CR], x);
  }

  lemma WholeIsDropped(ack: seq<byte>, x: seq<byte>)
    requires StartsOk(ack)
    ensures Skip(ack + x) == |ack| ==> Run([ack + x]) == Done(x)
  {
    var s := ack + x;
    assert s[0] == 0x4f;
    NotBoth(s);
    RunWhole(s);
    assert s[|ack|..] == x;
  }

  const RFB: seq<byte> := [0x52, 0x46, 0x42, 0x20]
  const OK: seq<byte> := [0x4f, 0x4b]

  lemma StartsIff(s: seq<byte>)
    ensures (RFB <= s <==> StartsRfb(s)) && (OK <= s <==> StartsOk(s))
  {
    assert RFB <= s <==> |s| >= 4 && s[..4] == RFB;
  }

  /** A stream that starts with "RFB " is passed on as it is, however it is cut. */
  lemma RfbIsPassedOn(chunks: seq<seq<byte>>)
    requires RFB <= Flat(chunks)
    ensures Run(chunks) == Done(Flat(chunks))
  {
    var s := Flat(chunks);
    StartsIff(s);
    VerdictIsOfTheStream(chunks);
    PassedOnIsTheRest(chunks);
    assert s[0..] == s;
  }

  /** Anything else waits for sixteen bytes, and then fails. */
  lemma OthersFailAtSixteen(chunks: seq<seq<byte>>)
    requires !(RFB <= Flat(chunks)) && !(OK <= Flat(chunks))
    ensures Run(chunks).Pending? <==> |Flat(chunks)| < 16
    ensures Run(chunks).Failed? <==> |Flat(chunks)| >= 16
  {
    VerdictIsOfTheStream(chunks);
    StartsIff(Flat(chunks));
  }

  predicate IsAcknowledgement(ack: seq<byte>) {
    || ack == []
    || ack == [0x4f, 0x4b]
    || ack == [0x4f, 0x4b, CR]
    || ack == [0x4f, 0x4b, LF]
    || ack == [0x4f, 0x4b, CR, LF]
  }

  /** Only an acknowledgement is ever dropped: "OK", then at most one CR and one LF. */
  lemma OnlyAcknowledgementIsDropped(chunks: seq<seq<byte>>)
    requires Run(chunks).Done?
    ensures var s := Flat(chunks);
            exists ack :: s == ack + Run(chunks).rest && IsAcknowledgement(ack)
  {
    VerdictIsOfTheStream(chunks);
    PassedOnIsTheRest(chunks);
    DroppedIsAcknowledgement(chunks);
    SplitsInTwo(Flat(chunks), Dropped(chunks), Run(chunks).rest);
  }

  lemma SplitsInTwo(s: seq<byte>, n: nat, rest: seq<byte>)
    requires n <= |s| && rest == s[n..] && IsAcknowledgement(s[..n])
    ensures exists ack :: s == ack + rest && IsAcknowledgement(ack)
  {
    assert s == s[..n] + rest;
  }

  lemma DroppedIsAcknowledgement(chunks: seq<seq<byte>>)
    requires StreamVerdict(Flat(chunks)) == Passes
    ensures Dropped(chunks) <= |Flat(chunks)| && IsAcknowledgement(Flat(chunks)[..Dropped(chunks)])
  {
    CutBounds(chunks);
    if !StartsRfb(Flat(chunks)) {
      SkippedIsAcknowledgement(Flat(chunks), Dropped(chunks));
    }
  }

  lemma SkippedIsAcknowledgement(s: seq<byte>, n: nat)
    requires StartsOk(s) && 2 <= n <= Skip(s)
    ensures IsAcknowledgement(s[..n])
  {
    assert n == 2 ==> s[..n] == [0x4f, 0x4b];
    assert n == 3 ==> s[..n] == [0x4f, 0x4b, s[2]];
    assert n == 4 ==> s[..n] == [0x4f, 0x4b, s[2], s[3]];
  }

  /**
    A cut passes on what the uncut stream passes on just when the first buffer of two bytes holds all
    that is dropped.
  */
  lemma SameAsWholeIff(chunks: seq<seq<byte>>)
    requires StartsOk(Flat(chunks))
    ensures Run(chunks).Done? && Run([Flat(chunks)]).Done?
    ensures Run(chunks).rest == Run([Flat(chunks)]).rest <==> Skip(Flat(chunks)) <= Cut(chunks)
  {
    var s := Flat(chunks);
    NotBoth(s);
    VerdictIsOfTheStream(chunks);
    PassedOnIsTheRest(chunks);
    CutBounds(chunks);
    RunWhole(s);
    var a, b := Dropped(chunks), Skip(s);
    assert a <= b && |s[a..]| == |s| - a && |s[b..]| == |s| - b;
  }

  lemma RunWhole(s: seq<byte>)
    ensures Run([s]) == Consume([], s) && Flat([s]) == s
  {
    assert [s][..0] == [];
    assert [] + s == s;
  }

  /** Every cut passes on the same bytes. */
  ghost predicate CutsDoNotMatter(s: seq<byte>) {
    forall chunks :: Flat(chunks) == s ==> Run(chunks) == Run([s])
  }

  predicate LineEndAfterOk(s: seq<byte>) {
    StartsOk(s) && |s| > 2 && (s[2] == CR || s[2] == LF)
  }

  /** Where a stream is cut matters just for those that start with "OK" and a CR or LF, among those that pass. */
  lemma CutsDoNotMatterIff(s: seq<byte>)
    requires StreamVerdict(s) == Passes
    ensures CutsDoNotMatter(s) <==> !LineEndAfterOk(s)
  {
    if LineEndAfterOk(s) {
      var chunks := [s[..2], s[2..]];
      TwoChunks(s[..2], s[2..]);
      assert s[..2] + s[2..] == s;
      SameAsWholeIff(chunks);
      assert Run(chunks) != Run([s]);
    } else {
      forall chunks | Flat(chunks) == s
        ensures Run(chunks) == Run([s])
      {
        VerdictIsOfTheStream(chunks);
        PassedOnIsTheRest(chunks);
        CutBounds(chunks);
        RunWhole(s);
        VerdictIsOfTheStream([s]);
        PassedOnIsTheRest([s]);
        CutBounds([s]);
      }
    }
  }

  /** "OK" and LF in two chunks: the LF is passed on, which it is not in one. */
  lemma LateLineEndIsPassedOn()
    ensures Run([[0x4f, 0x4b], [LF]]) == Done([LF]) && Run([[0x4f, 0x4b, LF]]) == Done([])
  {
    RunWhole([0x4f, 0x4b]);
    RunWhole([0x4f, 0x4b, LF]);
    RunMore([[0x4f, 0x4b]], [LF]);
  }

  lemma RunMore(chunks: seq<seq<byte>>, chunk: seq<byte>)
    ensures Run(chunks + [chunk]) == Receive(Run(chunks), chunk)
  {
    assert (chunks + [chunk])[..|chunks|] == chunks;
  }

  lemma TwoChunks(a: seq<byte>, b: seq<byte>)
    requires |a| == 2
    ensures Flat([a, b]) == a + b && Cut([a, b]) == 2
  {
    RunWhole(a);
    assert [a, b][..1] == [a];
    assert [a][..0] == [];
  }
}
