/** The conn object of conn.go: its methods, each tied to the steps of the protocol model. */
module ConnObject {
  import opened Bytes
  import opened Protocol
  import opened ProtocolInvariant
  import opened ProtocolCalls
  import T = ProtocolTheorems
  import H = Header
  import S = Serving

  datatype Error = NoError | Eof | ClosedPipe | Timeout | ServerClosed | FrameTooBig

  // ----- how Conn.Write cuts its data into frames

  /** The payloads of the frames that carry `s`: all full but the last. */
  function Chunks(s: seq<byte>): seq<seq<byte>>
    decreases |s|
  {
    if |s| <= FRAME_MAX_PAYLOAD then [s] else [s[..FRAME_MAX_PAYLOAD]] + Chunks(s[FRAME_MAX_PAYLOAD..])
  }

  lemma {:induction false} ChunksFacts(s: seq<byte>)
    ensures Flatten(Chunks(s)) == s
    ensures |Chunks(s)| == (if s == [] then 1 else (|s| + FRAME_MAX_PAYLOAD - 1) / FRAME_MAX_PAYLOAD)
    ensures forall i :: 0 <= i < |Chunks(s)| - 1 ==> |Chunks(s)[i]| == FRAME_MAX_PAYLOAD
    ensures |Chunks(s)[|Chunks(s)| - 1]| <= FRAME_MAX_PAYLOAD
    decreases |s|
  {
    if |s| <= FRAME_MAX_PAYLOAD {
      assert [s][1..] == [] && s + Flatten([]) == s;
    } else {
      var head, rest := s[..FRAME_MAX_PAYLOAD], s[FRAME_MAX_PAYLOAD..];
      ChunksFacts(rest);
      assert Chunks(s)[1..] == Chunks(rest);
      assert head + rest == s;
    }
  }

  /** Data frames of one session with the given payloads. */
  function DataFrames(session: nat, payloads: seq<seq<byte>>): seq<Frame> {
    if payloads == [] then [] else [Data(session, payloads[0])] + DataFrames(session, payloads[1..])
  }

  lemma NoDataFrames(session: nat)
    ensures DataFrames(session, []) == []
  {
  }

  lemma {:induction false} DataFramesAppend(session: nat, payloads: seq<seq<byte>>, p: seq<byte>)
    ensures DataFrames(session, payloads + [p]) == DataFrames(session, payloads) + [Data(session, p)]
  {
    if payloads == [] {
      assert payloads + [p] == [p] && [p][1..] == [];
    } else {
      assert (payloads + [p])[1..] == payloads[1..] + [p];
      DataFramesAppend(session, payloads[1..], p);
    }
  }

  function Payload(b: Buffer): seq<byte> { if b.Filled? then b.payload else [] }

  /** How many bytes of a write are in `k` full frames, when `buffered` bytes were in fdw before it. */
  function BytesHanded(k: nat, buffered: nat): int {
    if k == 0 then 0 else k * FRAME_MAX_PAYLOAD - buffered
  }

  lemma {:induction false} FullLength(frames: seq<seq<byte>>)
    requires forall i :: 0 <= i < |frames| ==> |frames[i]| == FRAME_MAX_PAYLOAD
    ensures |Flatten(frames)| == |frames| * FRAME_MAX_PAYLOAD
  {
    if frames != [] { FullLength(frames[1..]); }
  }

  /** That number is what the frames hold beyond the bytes that were buffered. */
  lemma BytesHandedMeans(buffered: seq<byte>, p: seq<byte>, frames: seq<seq<byte>>)
    requires |frames| < |Chunks(buffered + p)| && frames <= Chunks(buffered + p)
    ensures BytesHanded(|frames|, |buffered|) == if frames == [] then 0 else |Flatten(frames)| - |buffered|
  {
    ChunksFacts(buffered + p);
    assert forall i :: 0 <= i < |frames| ==> frames[i] == Chunks(buffered + p)[i];
    FullLength(frames);
  }

  /** One byte more than fits in a frame: a full frame is handed over before the last flush. */
  lemma ZeroIsWrong(p: seq<byte>)
    requires |p| == FRAME_MAX_PAYLOAD + 1
    ensures BytesHanded(|Chunks([] + p)| - 1, 0) == FRAME_MAX_PAYLOAD
  {
    ChunksFacts([] + p);
  }

  /**
    The 0 that Write reports when its last flush fails is the number of bytes of p handed
    over exactly when everything fits in one frame, or fdw was full before and p fits in one.
   */
  lemma ZeroIsExactIff(buffered: seq<byte>, p: seq<byte>)
    requires |buffered| <= FRAME_MAX_PAYLOAD
    ensures BytesHanded(|Chunks(buffered + p)| - 1, |buffered|) == 0
      <==> |buffered| + |p| <= FRAME_MAX_PAYLOAD
           || (|buffered| == FRAME_MAX_PAYLOAD && |p| <= FRAME_MAX_PAYLOAD)
  {
    ChunksFacts(buffered + p);
  }

  lemma ChunksExist(s: seq<byte>)
    ensures Chunks(s) != []
  {
  }

  lemma ChunksOne(s: seq<byte>)
    requires |s| <= FRAME_MAX_PAYLOAD
    ensures Chunks(s) == [s]
  {
  }

  lemma ChunksUnfold(s: seq<byte>)
    requires |s| > FRAME_MAX_PAYLOAD
    ensures Chunks(s) == [s[..FRAME_MAX_PAYLOAD]] + Chunks(s[FRAME_MAX_PAYLOAD..])
    ensures Chunks(s[FRAME_MAX_PAYLOAD..]) != []
  {
  }

  /** Cutting off one full frame keeps frames and remainder together the chunks of everything. */
  lemma CutOne(frames: seq<seq<byte>>, whole: seq<byte>, target: seq<seq<byte>>)
    requires frames + Chunks(whole) == target && |whole| > FRAME_MAX_PAYLOAD
    ensures (frames + [whole[..FRAME_MAX_PAYLOAD]]) + Chunks(whole[FRAME_MAX_PAYLOAD..]) == target
    ensures |frames| + 1 < |target| && frames + [whole[..FRAME_MAX_PAYLOAD]] <= target
  {
    hide Chunks;
    ChunksUnfold(whole);
    var full, rest := whole[..FRAME_MAX_PAYLOAD], Chunks(whole[FRAME_MAX_PAYLOAD..]);
    assert frames + ([full] + rest) == (frames + [full]) + rest;
  }

  // ----- what a call does, in steps of the protocol model

  /** One frame sent against the window. */
  function Sent(e: Endpoint, p: seq<byte>): Endpoint {
    e.(fdw := Unset, window := e.window - 1, sentLog := Extend(e.sentLog, p), out := e.out + [Data(e.session, p)])
  }

  lemma SentIsFlushThenHandOver(W: nat, r: Rules, e0: Endpoint, events: seq<Event>, e: Endpoint)
    requires PerformAll(W, r, e0, events) == Next(e)
    requires e.fdw.Filled? && |e.fdw.payload| <= FRAME_MAX_PAYLOAD
    requires e.writer == Idle && !e.gotFinal && !e.closed && e.window > 0
    ensures PerformAll(W, r, e0, events + [Own(Flush), Own(Debit), Own(HandOver)]) == Next(Sent(e, e.fdw.payload))
  {
    hide PerformAll, Extend;
    var p := e.fdw.payload;
    var e1 := e.(writer := Admitted(p), fdw := Unset);
    var e2 := e1.(window := e.window - 1, writer := Committed(p));
    Then(W, r, e0, events, e, Own(Flush));
    Then(W, r, e0, events + [Own(Flush)], e1, Own(Debit));
    Then(W, r, e0, events + [Own(Flush)] + [Own(Debit)], e2, Own(HandOver));
    assert events + [Own(Flush)] + [Own(Debit)] + [Own(HandOver)] == events + [Own(Flush), Own(Debit), Own(HandOver)];
  }

  lemma Extended(log: seq<seq<byte>>, p: seq<byte>)
    ensures Extend(log, p) != []
  {
  }

  /** An ack is taken off ackCh. */
  lemma AckConsumed(W: nat, r: Rules, e0: Endpoint, events: seq<Event>, e: Endpoint)
    requires PerformAll(W, r, e0, events) == Next(e)
    requires Sending(e) && !e.sentFinal && e.acks > 0 && e.window < W
    ensures PerformAll(W, r, e0, events + [Own(ConsumeAck)]) == Next(e.(acks := e.acks - 1, window := e.window + 1))
  {
    hide PerformAll;
    Then(W, r, e0, events, e, Own(ConsumeAck));
  }

  /** The next frame is opened for reading, and acked. */
  function Taken(e: Endpoint): Endpoint
    requires e.inbox != []
  {
    e.(fp := e.inbox[0], inbox := e.inbox[1..], out := e.out + [Ack(e.session)])
  }

  lemma UnreadGrows(e: Endpoint)
    ensures e.fp == [] ==> Unread(e) == Flatten(e.inbox)
  {
  }

  lemma TakenUnread(e: Endpoint)
    requires e.inbox != [] && e.fp == []
    ensures Unread(Taken(e)) == Unread(e)
  {
  }

  lemma TakenIsPopThenAck(W: nat, r: Rules, e0: Endpoint, events: seq<Event>, e: Endpoint)
    requires PerformAll(W, r, e0, events) == Next(e)
    requires e.inbox != [] && e.fp == [] && !e.acking && !(r.quietAfterClose && e.sentFinal)
    ensures PerformAll(W, r, e0, events + [Own(PopFrame), Own(WriteAck)]) == Next(Taken(e))
  {
    hide PerformAll;
    var e1 := e.(fp := e.inbox[0], inbox := e.inbox[1..], acking := true);
    Then(W, r, e0, events, e, Own(PopFrame));
    Then(W, r, e0, events + [Own(PopFrame)], e1, Own(WriteAck));
    assert events + [Own(PopFrame)] + [Own(WriteAck)] == events + [Own(PopFrame), Own(WriteAck)];
  }

  /** The front of the open frame is returned to the reader. */
  lemma DataRead(W: nat, r: Rules, e0: Endpoint, events: seq<Event>, e: Endpoint, n: nat)
    requires PerformAll(W, r, e0, events) == Next(e)
    requires !e.acking && n <= |e.fp| && !(r.quietAfterClose && e.sentFinal)
    ensures var e', all := e.(fp := e.fp[n..], readLog := Extend(e.readLog, e.fp[..n])), events + [Own(Read(n))];
      && PerformAll(W, r, e0, all) == Next(e')
      && ArrivedBytes(all) == ArrivedBytes(events) && ArrivedPayloads(all) == ArrivedPayloads(events)
      && Unread(e) == e.fp[..n] + Unread(e')
  {
    hide PerformAll, ArrivedBytes, Flatten, Extend;
    Then(W, r, e0, events, e, Own(Read(n)));
    OwnOne(events, Own(Read(n)));
    FrontUnread(e.fp, Flatten(e.inbox), n);
  }

  lemma {:induction false} OwnOne(events: seq<Event>, a: Event)
    requires a.Own?
    ensures ArrivedBytes(events + [a]) == ArrivedBytes(events)
    ensures ArrivedPayloads(events + [a]) == ArrivedPayloads(events)
  {
    ArrivedConcat(events, [a]);
    ArrivedOne(a);
    PayloadsConcat(events, [a]);
    PayloadsOne(a);
  }

  lemma {:induction false} Accumulated(past: seq<Event>, more: seq<Event>, unread: seq<byte>, queue: seq<seq<byte>>)
    ensures (unread + ArrivedBytes(past)) + ArrivedBytes(more) == unread + ArrivedBytes(past + more)
    ensures (queue + ArrivedPayloads(past)) + ArrivedPayloads(more) == queue + ArrivedPayloads(past + more)
  {
    ArrivedConcat(past, more);
    PayloadsConcat(past, more);
  }

  lemma QueueMoved(taken: seq<seq<byte>>, queue: seq<seq<byte>>, more: seq<seq<byte>>, first: seq<seq<byte>>,
                   rest: seq<seq<byte>>)
    requires queue + more == first + rest
    ensures (taken + queue) + more == (taken + first) + rest
  {
    assert (taken + queue) + more == taken + (queue + more);
    assert (taken + first) + rest == taken + (first + rest);
  }

  lemma EmptyFlatten()
    ensures Flatten([]) == []
  {
  }

  /** The frame being read is the last one taken, and those before it were empty. */
  predicate Opened(taken: seq<seq<byte>>, before: seq<byte>, frame: seq<byte>) {
    && (taken == [] ==> frame == before)
    && (taken != [] ==> before == [] && frame == taken[|taken| - 1])
    && forall i :: 0 <= i < |taken| - 1 ==> taken[i] == []
  }

  lemma FrontUnread(fp: seq<byte>, inbox: seq<byte>, n: nat)
    requires n <= |fp|
    ensures fp + inbox == fp[..n] + (fp[n..] + inbox)
  {
  }

  lemma NothingUnread(e: Endpoint)
    ensures e.fp == [] && e.inbox == [] ==> Unread(e) == []
  {
  }

  /** What Close leaves behind once it holds both locks. */
  function Closed(W: nat, e: Endpoint): Endpoint {
    var frames := if e.fdw.Filled? then [] else [Final(e.session, e.gotFinal)];
    var x := e.(sentFinal := true, fdw := Unset, out := e.out + frames);
    if e.gotFinal then Reset(W, x) else x
  }

  lemma CloseFinished(W: nat, r: Rules, e0: Endpoint, events: seq<Event>, e: Endpoint)
    requires PerformAll(W, r, e0, events) == Next(e) && r.atomicFinal && r.flushFirst == !e.fdw.Filled?
    requires e.closed && !e.sentFinal && e.writer == Idle && !e.acking
    ensures PerformAll(W, r, e0, events + [Own(CloseFinish)]) == Next(Closed(W, e))
  {
    hide PerformAll;
    assert e.out + [] == e.out;
    Then(W, r, e0, events, e, Own(CloseFinish));
  }

  lemma {:induction false} OwnOnly(events: seq<Event>, a: Event, b: Event)
    requires a.Own? && b.Own?
    ensures ArrivedBytes(events + [a, b]) == ArrivedBytes(events)
    ensures ArrivedPayloads(events + [a, b]) == ArrivedPayloads(events)
  {
    assert events + [a, b] == (events + [a]) + [b];
    OwnOne(events, a);
    OwnOne(events + [a], b);
  }

  function Acks(session: nat, k: nat): seq<Frame> { seq(k, _ => Ack(session)) }

  lemma NoAcks(session: nat)
    ensures Acks(session, 0) == []
  {
  }

  lemma AckAdded(w: seq<Frame>, session: nat, k: nat)
    ensures w + Acks(session, k) + [Ack(session)] == w + Acks(session, k + 1)
  {
  }

  /** What holds of an endpoint between two calls on it. */
  predicate AtRest(W: nat, e: Endpoint) {
    && 1 <= W <= MAX_SEND_WINDOW && 0 <= e.window && e.window + e.acks <= W
    && e.sentLog != [] && e.readLog != [] && e.writer == Idle && !e.acking
    && e.closed == e.sentFinal && (e.closed ==> e.fdw == Unset) && !(e.sentFinal && e.gotFinal)
  }

  /** In every state the protocol can reach, an endpoint that is in no call is at rest. */
  lemma InvAtRest(W: Windows, s: System)
    requires Allowed(W) && Inv(W, s)
    requires s.a.writer == Idle && !s.a.acking && (s.a.closed ==> s.a.sentFinal)
    ensures AtRest(W.a, s.a)
  {
  }

  /**
    A call made in a state the system can reach, during which the next frames on the wire
    may arrive, leads to a state the system can reach.
   */
  lemma CallStaysReachable(W: Windows, s: System, events: seq<Event>, e: Endpoint)
    requires T.Reachable(W, s) && PerformAll(W.a, STRICT, s.a, events) == Next(e) && Arrived(events) <= s.ba
    ensures s.a.out <= e.out
    ensures T.Reachable(W, System(e, s.b, s.ab + e.out[|s.a.out|..], s.ba[|Arrived(events)|..]))
  {
    hide Run, PerformAll, Arrived;
    CallIsRun(W, STRICT, s, events, e);
    var schedule :| Run(W, STRICT, Init(W), schedule) == Next(s);
    RunConcat(W, STRICT, Init(W), schedule, s, Schedule(events));
  }

  /** What can interrupt a call: a deadline that has passed, the muxer going down, a Close waiting for the locks. */
  datatype Signals = Signals(writeExpired: bool, readExpired: bool, aborted: bool, closing: bool)

  predicate Later(s: Signals, t: Signals) {
    && (s.writeExpired ==> t.writeExpired) && (s.readExpired ==> t.readExpired)
    && (s.aborted ==> t.aborted) && (s.closing ==> t.closing)
  }

  class Conn {
    const W: nat
    var signals: Signals
    var sendWindow: int
    var ackCh: nat
    var readCh: seq<seq<byte>>
    var localClosed: bool
    var localSentFinal: bool
    var remoteSentFinal: bool
    var fdw: Buffer
    var fp: seq<byte>
    var written: seq<Frame>        // everything passed to mux.ConnWrite
    var session: nat               // history, as in the protocol model
    ghost var sentLog: seq<seq<byte>>
    ghost var readLog: seq<seq<byte>>
    ghost var seen: seq<Frame>

    constructor (window: nat)
      requires 1 <= window <= MAX_SEND_WINDOW
      ensures Valid() && W == window && State() == Fresh(window) && signals == Signals(false, false, false, false)
    {
      W, signals := window, Signals(false, false, false, false);
      sendWindow, ackCh, readCh := window, 0, [];
      localClosed, localSentFinal, remoteSentFinal := false, false, false;
      fdw, fp, written := Unset, [], [];
      session, sentLog, readLog, seen := 0, [[]], [[]], [];
    }

    /** The endpoint of the protocol model that this object represents between two calls. */
    ghost function State(): Endpoint
      reads this
    {
      Base(fdw, localSentFinal)
    }

    /**
      The same while flushLocked, which has already set fdw to nil, or Close, which has
      already set localSentFinal, is on its way.
     */
    ghost function Base(fd: Buffer, sent: bool): Endpoint
      reads this
    {
      Endpoint(sendWindow, ackCh, readCh, fp, fd, localClosed, sent, remoteSentFinal,
               Idle, false, session, sentLog, readLog, written, seen)
    }

    ghost predicate Valid()
      reads this
    {
      AtRest(W, State())
    }

    /** What also holds in the middle of Close. */
    ghost predicate Credited()
      reads this
    {
      && 1 <= W <= MAX_SEND_WINDOW && 0 <= sendWindow && sendWindow + ackCh <= W
      && sentLog != [] && readLog != [] && (localSentFinal ==> localClosed)
    }

    // ----- frames arriving

    /** Nobody is in the middle of Close, and no lock is held. */
    ghost predicate Calm()
      reads this
    {
      localClosed == localSentFinal && !(localSentFinal && remoteSentFinal)
    }

    method SubmitFrame(fd: seq<byte>) returns (panic: Option<Panic>)
      requires |fd| >= 4 && Calm()
      modifies this
      ensures match S.Receive(W, old(State()), fd)
              case Next(e) => panic == None && State() == e && Calm()
              case Panicked(p) => panic == Some(p)
              case Blocked => false
      ensures panic == None && old(Valid()) && (H.IsAck(fd) ==> old(sendWindow + ackCh) < W) ==> Valid()
    {
      panic := None;
      if H.HasFlow(fd) {
        if H.IsAck(fd) {
          seen := seen + [Ack(session)];
          if ackCh < MAX_SEND_WINDOW { ackCh := ackCh + 1; } else { panic := Some(AckWouldBlock); }
        } else if H.IsFinal(fd) {
          seen := seen + [Final(session, H.HasHead(fd))];
          panic := ReceivedFinal(H.SizeValue(fd));
        }
        return;
      }
      seen := seen + [Data(session, fd[4..])];
      if remoteSentFinal {
        panic := Some(FrameAfterFinal);
      } else if |readCh| < MAX_SEND_WINDOW {
        readCh := readCh + [fd[4..]];
      } else {
        panic := Some(DataWouldBlock);
      }
    }

    method ReceivedFinal(size: nat) returns (panic: Option<Panic>)
      modifies this
      ensures size != 0 ==> panic == Some(FinalHasSize)
      ensures size == 0 && old(remoteSentFinal) ==> panic == Some(MultipleFinals)
      ensures size == 0 && !old(remoteSentFinal) && !old(localSentFinal) ==>
        panic == None && State() == old(State()).(gotFinal := true)
      ensures size == 0 && !old(remoteSentFinal) && old(localSentFinal) ==>
        match RecycleLocked(W, old(State()).(gotFinal := true))
        case Next(e) => panic == None && State() == e
        case Panicked(p) => panic == Some(p)
        case Blocked => false
    {
      if size != 0 { return Some(FinalHasSize); }
      if remoteSentFinal { return Some(MultipleFinals); }
      remoteSentFinal := true;
      if localSentFinal {
        panic := Recycle();
      } else {
        panic := None;
      }
    }

    method Recycle() returns (panic: Option<Panic>)
      modifies this
      ensures match RecycleLocked(W, old(State()))
              case Next(e) => panic == None && State() == e
              case Panicked(p) => panic == Some(p) && State() == old(State())
              case Blocked => false
    {
      if !localClosed { return Some(RecycleNotClosed); }
      if fdw != Unset { return Some(RecycleDataLeft); }
      if !localSentFinal { return Some(RecycleNoLocalFinal); }
      if !remoteSentFinal { return Some(RecycleNoRemoteFinal); }
      ForceRecycle();
      panic := None;
    }

    method DrainChannels()
      modifies this`ackCh, this`readCh
      ensures ackCh == 0 && readCh == []
    {
      while ackCh > 0
        invariant 0 <= ackCh
      {
        ackCh := ackCh - 1;
      }
      while |readCh| > 0
        invariant ackCh == 0
        decreases |readCh|
      {
        readCh := readCh[1..];
      }
    }

    method ForceRecycle()
      modifies this
      ensures State() == Reset(W, old(State())) && signals == Signals(false, false, old(signals).aborted, false)
    {
      DrainChannels();
      localClosed, localSentFinal, remoteSentFinal, sendWindow := false, false, false, W;
      fdw, fp := Unset, [];
      session, sentLog, readLog := session + 1, sentLog + [[]], readLog + [[]];
      signals := Signals(false, false, signals.aborted, false);
    }

    // ----- what happens while a call is in progress

    /** An error has its cause. */
    ghost predicate Excused(err: Error)
      reads this
    {
      match err
      case NoError => true
      case FrameTooBig => true
      case Eof => remoteSentFinal
      case ClosedPipe => localClosed || signals.closing
      case Timeout => signals.writeExpired
      case ServerClosed => signals.aborted
    }

    /** Nothing in the way of writing. */
    ghost predicate Clear()
      reads this
    {
      !localClosed && !remoteSentFinal && !signals.writeExpired && !signals.aborted && !signals.closing
    }

    /** Deadlines pass, the muxer goes down, another goroutine calls Close: any of them, or none. */
    method Interrupts()
      modifies this`signals
      ensures Later(old(signals), signals)
    {
      var write, read, abort, close := *, *, *, *;
      signals := Signals(signals.writeExpired || write, signals.readExpired || read,
                         signals.aborted || abort, signals.closing || close);
    }

    /**
      The muxer submits one frame, or none, to a conn whose wmu or rmu is held: an ack within
      the credit, a data frame, or a final that need not wait for Close or for the lock.
     */
    method ArriveOne(ghost r: Rules, ghost fd: Buffer, ghost sent: bool) returns (ghost events: seq<Event>)
      requires Credited() && (sent ==> localSentFinal)
      modifies this`ackCh, this`readCh, this`remoteSentFinal, this`seen
      ensures Credited() && |events| <= 1 && (localClosed ==> remoteSentFinal == old(remoteSentFinal))
      ensures PerformAll(W, r, old(Base(fd, sent)), events) == Next(Base(fd, sent))
      ensures Flatten(readCh) == Flatten(old(readCh)) + ArrivedBytes(events)
      ensures readCh == old(readCh) + ArrivedPayloads(events)
      ensures |readCh| <= |old(readCh)| + |events| && (old(remoteSentFinal) ==> remoteSentFinal)
    {
      hide PerformAll, Flatten, ArrivedBytes, Arrived, ArrivedPayloads;
      ghost var e := Base(fd, sent);
      events := [];
      NothingArrived();
      if {
        case sendWindow + ackCh < W =>
          events := [Arrive(Ack(session))];
          ackCh := ackCh + 1;
        case !remoteSentFinal && |readCh| < MAX_SEND_WINDOW =>
          var p: seq<byte> := *;
          events := [Arrive(Data(session, p))];
          FlattenAppend(readCh, p);
          readCh := readCh + [p];
        case !remoteSentFinal && !localClosed =>
          var isAck := *;
          events := [Arrive(Final(session, isAck))];
          remoteSentFinal := true;
        case true =>
      }
      PayloadsOne(Own(Drop));
      if events == [] {
        PerformNone(W, r, e);
      } else {
        seen := seen + [events[0].frame];
        PerformOne(W, r, e, events[0]);
        ArrivedOne(events[0]);
        PayloadsOne(events[0]);
      }
    }

    /** Up to `limit` frames arrive, and the call may be interrupted. */
    method Arrivals(limit: nat, ghost r: Rules, ghost fd: Buffer, ghost sent: bool)
      returns (left: nat, ghost events: seq<Event>)
      requires Credited() && (sent ==> localSentFinal)
      modifies this`ackCh, this`readCh, this`remoteSentFinal, this`seen, this`signals
      ensures Credited() && (localClosed ==> remoteSentFinal == old(remoteSentFinal))
      ensures PerformAll(W, r, old(Base(fd, sent)), events) == Next(Base(fd, sent))
      ensures Flatten(readCh) == Flatten(old(readCh)) + ArrivedBytes(events)
      ensures readCh == old(readCh) + ArrivedPayloads(events) && Later(old(signals), signals)
      ensures left + |readCh| <= limit + |old(readCh)| && (old(remoteSentFinal) ==> remoteSentFinal)
    {
      hide PerformAll, Flatten, ArrivedBytes, ArrivedPayloads;
      left, events := limit, [];
      PayloadsOne(Own(Drop));
      PerformNone(W, r, Base(fd, sent));
      NothingArrived();
      while left > 0
        invariant Credited() && (localClosed ==> remoteSentFinal == old(remoteSentFinal))
        invariant PerformAll(W, r, old(Base(fd, sent)), events) == Next(Base(fd, sent))
        invariant Flatten(readCh) == Flatten(old(readCh)) + ArrivedBytes(events)
        invariant readCh == old(readCh) + ArrivedPayloads(events) && signals == old(signals)
        invariant left + |readCh| <= limit + |old(readCh)| && (old(remoteSentFinal) ==> remoteSentFinal)
      {
        var more: bool := *;
        if !more { break; }
        ghost var before := Base(fd, sent);
        ghost var arrived := ArriveOne(r, fd, sent);
        PerformConcat(W, r, old(Base(fd, sent)), events, before, arrived);
        ArrivedConcat(events, arrived);
        PayloadsConcat(events, arrived);
        left, events := left - 1, events + arrived;
      }
      Interrupts();
    }

    // ----- writing

    method WriteStart() returns (err: Error, ghost events: seq<Event>)
      requires Valid()
      modifies this`fdw, this`ackCh, this`readCh, this`remoteSentFinal, this`seen, this`signals
      ensures Valid() && PerformAll(W, STRICT, old(State()), events) == Next(State())
      ensures err == NoError <==> !remoteSentFinal && !localClosed && !signals.closing && !signals.writeExpired
      ensures fdw == (if err == NoError && old(fdw) == Unset then Blank else old(fdw))
      ensures (err == Eof <==> remoteSentFinal) && Excused(err) && err != ServerClosed && err != FrameTooBig
      ensures Later(old(signals), signals) && (old(remoteSentFinal) ==> remoteSentFinal)
    {
      hide PerformAll;
      var limit: nat := *;
      var _, arrived := Arrivals(limit, STRICT, fdw, localSentFinal);
      events := arrived;
      if remoteSentFinal { return Eof, events; }
      if {
        case localClosed || signals.closing => err := ClosedPipe;
        case signals.writeExpired => err := Timeout;
        case !localClosed && !signals.closing && !signals.writeExpired =>
          ghost var e := State();
          if fdw == Unset { fdw := Blank; }
          err := NoError;
          Then(W, STRICT, old(State()), events, e, Own(Start));
          events := events + [Own(Start)];
      }
    }

    /** Flow control around one frame, which flushLocked has taken out of fdw. */
    method WriteFrame(fd: Buffer, ghost r: Rules) returns (err: Error, ghost events: seq<Event>)
      requires Credited() && fdw == Unset
      modifies this`sendWindow, this`ackCh, this`readCh, this`remoteSentFinal, this`seen, this`signals
      modifies this`written, this`sentLog
      ensures Credited() && (localClosed ==> remoteSentFinal == old(remoteSentFinal))
      ensures PerformAll(W, r, old(Base(fd, false)), events)
        == Next(Base(if err == NoError && fd.Filled? then Unset else fd, false))
      ensures err == NoError && fd.Filled? ==>
        && written == old(written) + [Data(session, fd.payload)] && sentLog == Extend(old(sentLog), fd.payload)
        && |fd.payload| <= FRAME_MAX_PAYLOAD
      ensures err != NoError || !fd.Filled? ==> written == old(written) && sentLog == old(sentLog)
      ensures !fd.Filled? ==> err == NoError && State() == old(State())
      ensures err == FrameTooBig <==> |Payload(fd)| > FRAME_MAX_PAYLOAD
      ensures fd.Filled? && |fd.payload| <= FRAME_MAX_PAYLOAD ==> (err == NoError <==> Clear())
      ensures Excused(err) && Later(old(signals), signals) && (old(remoteSentFinal) ==> remoteSentFinal)
    {
      hide PerformAll, Extend, Flatten;
      err, events := NoError, [];
      PerformNone(W, r, Base(fd, false));
      if !fd.Filled? { return; }  // an empty blank frame is freed
      if |fd.payload| > FRAME_MAX_PAYLOAD { return FrameTooBig, events; }
      var sent := false;
      while err == NoError && !sent
        invariant Credited() && (localClosed ==> remoteSentFinal == old(remoteSentFinal))
        invariant PerformAll(W, r, old(Base(fd, false)), events) == Next(Base(if sent then Unset else fd, false))
        invariant err != FrameTooBig && Excused(err) && (sent ==> err == NoError && Clear())
        invariant Later(old(signals), signals) && (old(remoteSentFinal) ==> remoteSentFinal)
        invariant written == old(written) + (if sent then [Data(session, fd.payload)] else [])
        invariant sentLog == if sent then Extend(old(sentLog), fd.payload) else old(sentLog)
        decreases !sent, err == NoError, W - sendWindow
      {
        ghost var more;
        err, sent, more := TrySend(fd, r, old(Base(fd, false)), events);
        events := more;
      }
    }

    /** One round of the loop of writeFrame. */
    method TrySend(fd: Buffer, ghost r: Rules, ghost e0: Endpoint, ghost past: seq<Event>)
      returns (err: Error, sent: bool, ghost events: seq<Event>)
      requires Credited() && fd.Filled? && |fd.payload| <= FRAME_MAX_PAYLOAD
      requires PerformAll(W, r, e0, past) == Next(Base(fd, false))
      modifies this`sendWindow, this`ackCh, this`readCh, this`remoteSentFinal, this`seen, this`signals
      modifies this`written, this`sentLog
      ensures Credited() && (localClosed ==> remoteSentFinal == old(remoteSentFinal))
      ensures PerformAll(W, r, e0, events) == Next(Base(if sent then Unset else fd, false))
      ensures sent ==>
        && err == NoError && Clear() && written == old(written) + [Data(session, fd.payload)]
        && sentLog == Extend(old(sentLog), fd.payload)
      ensures !sent ==> written == old(written) && sentLog == old(sentLog)
      ensures !sent && err == NoError ==> sendWindow > old(sendWindow)
      ensures err != FrameTooBig && Excused(err)
      ensures Later(old(signals), signals) && (old(remoteSentFinal) ==> remoteSentFinal)
    {
      hide PerformAll, Extend, Flatten;
      ghost var before := Base(fd, false);
      var limit: nat := *;
      var _, arrived := Arrivals(limit, r, fd, false);
      PerformConcat(W, r, e0, past, before, arrived);
      err, sent, events := NoError, false, past + arrived;
      if {
        case ackCh > 0 =>
          events := ConsumeAck(fd, r, e0, events);
        case localClosed || signals.closing => err := ClosedPipe;
        case signals.aborted => err := ServerClosed;
        case signals.writeExpired => err := Timeout;
        case ackCh == 0 && !localClosed && !signals.closing && !signals.aborted && !signals.writeExpired =>
          if remoteSentFinal {
            err := Eof;
          } else if sendWindow > 0 {
            events := Send(fd, r, e0, events);
            sent := true;
          } else {
            if {  // a blocking wait
              case true =>
                events := AwaitAck(fd, r, e0, events);
                events := ConsumeAck(fd, r, e0, events);
              case true => signals, err := signals.(closing := true), ClosedPipe;
              case true => signals, err := signals.(aborted := true), ServerClosed;
              case true => signals, err := signals.(writeExpired := true), Timeout;
            }
          }
      }
    }

    /** The window allows it: the frame is handed over. */
    method Send(fd: Buffer, ghost r: Rules, ghost e0: Endpoint, ghost past: seq<Event>)
      returns (ghost events: seq<Event>)
      requires Credited() && fd.Filled? && |fd.payload| <= FRAME_MAX_PAYLOAD
      requires PerformAll(W, r, e0, past) == Next(Base(fd, false))
      requires !remoteSentFinal && !localClosed && sendWindow > 0
      modifies this`sendWindow, this`written, this`sentLog
      ensures Credited() && PerformAll(W, r, e0, events) == Next(Base(Unset, false))
      ensures written == old(written) + [Data(session, fd.payload)] && sentLog == Extend(old(sentLog), fd.payload)
      ensures sendWindow == old(sendWindow) - 1
    {
      hide PerformAll, Extend;
      SentIsFlushThenHandOver(W, r, e0, past, Base(fd, false));
      Extended(sentLog, fd.payload);
      sendWindow := sendWindow - 1;
      written, sentLog := written + [Data(session, fd.payload)], Extend(sentLog, fd.payload);
      events := past + [Own(Action.Flush), Own(Debit), Own(HandOver)];
    }

    method AwaitAck(ghost fd: Buffer, ghost r: Rules, ghost e0: Endpoint, ghost past: seq<Event>)
      returns (ghost events: seq<Event>)
      requires Credited() && PerformAll(W, r, e0, past) == Next(Base(fd, false)) && sendWindow + ackCh < W
      modifies this`ackCh, this`seen
      ensures Credited() && PerformAll(W, r, e0, events) == Next(Base(fd, false)) && ackCh == old(ackCh) + 1
    {
      hide PerformAll;
      Then(W, r, e0, past, Base(fd, false), Arrive(Ack(session)));
      ackCh, seen, events := ackCh + 1, seen + [Ack(session)], past + [Arrive(Ack(session))];
    }

    method ConsumeAck(ghost fd: Buffer, ghost r: Rules, ghost e0: Endpoint, ghost past: seq<Event>)
      returns (ghost events: seq<Event>)
      requires Credited() && PerformAll(W, r, e0, past) == Next(Base(fd, false)) && ackCh > 0
      requires fd.Filled? && |fd.payload| <= FRAME_MAX_PAYLOAD
      modifies this`ackCh, this`sendWindow
      ensures Credited() && PerformAll(W, r, e0, events) == Next(Base(fd, false)) && sendWindow == old(sendWindow) + 1
    {
      hide PerformAll;
      AckConsumed(W, r, e0, past, Base(fd, false));
      ackCh, sendWindow, events := ackCh - 1, sendWindow + 1, past + [Own(Action.ConsumeAck)];
    }

    /** fdw is gone either way; a frame that could not be sent is still there in the protocol's view, to be dropped. */
    method FlushLocked(ghost r: Rules) returns (err: Error, ghost events: seq<Event>)
      requires Credited()
      modifies this`sendWindow, this`ackCh, this`readCh, this`remoteSentFinal, this`seen, this`signals
      modifies this`written, this`sentLog, this`fdw
      ensures Credited() && fdw == Unset && (localClosed ==> remoteSentFinal == old(remoteSentFinal))
      ensures PerformAll(W, r, old(Base(fdw, false)), events)
        == Next(Base(if err == NoError && old(fdw).Filled? then Unset else old(fdw), false))
      ensures err == NoError && old(fdw).Filled? ==>
        && written == old(written) + [Data(session, old(fdw).payload)]
        && sentLog == Extend(old(sentLog), old(fdw).payload)
      ensures err != NoError || !old(fdw).Filled? ==> written == old(written) && sentLog == old(sentLog)
      ensures !old(fdw).Filled? ==> err == NoError && State() == old(State()).(fdw := Unset)
      ensures err == FrameTooBig <==> |Payload(old(fdw))| > FRAME_MAX_PAYLOAD
      ensures old(fdw).Filled? && |Payload(old(fdw))| <= FRAME_MAX_PAYLOAD ==> (err == NoError <==> Clear())
      ensures Excused(err) && Later(old(signals), signals) && (old(remoteSentFinal) ==> remoteSentFinal)
    {
      hide PerformAll, Extend, Flatten;
      err, events := NoError, [];
      PerformNone(W, r, Base(fdw, false));
      if fdw != Unset {
        var fd := fdw;
        fdw := Unset;
        err, events := WriteFrame(fd, r);
      }
    }

    /** flushLocked as its callers outside Close see it: a frame that was not sent is dropped. */
    method Flush() returns (err: Error, ghost events: seq<Event>)
      requires Valid()
      modifies this`sendWindow, this`ackCh, this`readCh, this`remoteSentFinal, this`seen, this`signals
      modifies this`written, this`sentLog, this`fdw
      ensures Valid() && fdw == Unset && PerformAll(W, STRICT, old(State()), events) == Next(State())
      ensures err == NoError && old(fdw).Filled? ==>
        written == old(written) + [Data(session, old(fdw).payload)]
      ensures err != NoError || !old(fdw).Filled? ==> written == old(written)
      ensures !old(fdw).Filled? ==> err == NoError
      ensures err == FrameTooBig <==> |Payload(old(fdw))| > FRAME_MAX_PAYLOAD
      ensures old(fdw).Filled? && |Payload(old(fdw))| <= FRAME_MAX_PAYLOAD ==> (err == NoError <==> Clear())
      ensures Excused(err) && Later(old(signals), signals) && (old(remoteSentFinal) ==> remoteSentFinal)
    {
      hide PerformAll, Extend, Flatten;
      ghost var fd, e0 := fdw, State();
      PerformNone(W, STRICT, e0);
      if fdw == Unset { return NoError, []; }
      err, events := FlushLocked(STRICT);
      if err != NoError || !fd.Filled? {
        Then(W, STRICT, e0, events, Base(fd, false), Own(Drop));
        events := events + [Own(Drop)];
      }
    }

    /** The loop body of write: fills fdw to the brim, flushes it, and starts the next frame. */
    method CutFrame(rest: seq<byte>) returns (m: nat, handed: bool, err: Error, ghost events: seq<Event>)
      requires Valid() && fdw != Unset && !localClosed && !remoteSentFinal
      requires |Payload(fdw)| <= FRAME_MAX_PAYLOAD && |rest| > FRAME_MAX_PAYLOAD - |Payload(fdw)|
      modifies this`sendWindow, this`ackCh, this`readCh, this`remoteSentFinal, this`seen, this`signals
      modifies this`written, this`sentLog, this`fdw
      ensures Valid() && m == FRAME_MAX_PAYLOAD - |Payload(old(fdw))|
      ensures PerformAll(W, STRICT, old(State()), events) == Next(State())
      ensures handed ==> written == old(written) + [Data(session, Payload(old(fdw)) + rest[..m])]
      ensures !handed ==> written == old(written) && err != NoError
      ensures err == NoError ==> fdw == Blank && !localClosed && !remoteSentFinal
      ensures Excused(err) && err != FrameTooBig && (err != NoError ==> !Clear())
      ensures err != NoError ==> fdw == Unset
    {
      hide PerformAll;
      ghost var e0 := State();
      PerformNone(W, STRICT, e0);
      events := [];
      m := FRAME_MAX_PAYLOAD - |Payload(fdw)|;
      if m > 0 {
        events := Append(rest[..m], e0, events);
      }
      assert fdw == Filled(Payload(old(fdw)) + rest[..m]);
      ghost var e1, more := State(), [];
      err, more := Flush();
      PerformConcat(W, STRICT, e0, events, e1, more);
      events := events + more;
      handed := err == NoError;
      if handed {
        ghost var e2 := State();
        err, more := WriteStart();
        PerformConcat(W, STRICT, e0, events, e2, more);
        events := events + more;
      }
    }

    /** Sets the body flag of fdw and appends to it. */
    method Append(p: seq<byte>, ghost e0: Endpoint, ghost past: seq<Event>) returns (ghost events: seq<Event>)
      requires Valid() && fdw != Unset && !localClosed && !remoteSentFinal
      requires PerformAll(W, STRICT, e0, past) == Next(State())
      modifies this`fdw
      ensures Valid() && fdw == Filled(Payload(old(fdw)) + p) && PerformAll(W, STRICT, e0, events) == Next(State())
    {
      hide PerformAll;
      Then(W, STRICT, e0, past, State(), Own(Fill(p)));
      events := past + [Own(Fill(p))];
      fdw := Filled(Payload(fdw) + p);
    }

    /** Where the loop of write stands on its way to the frames `target`. */
    ghost predicate Cutting(target: seq<seq<byte>>, size: nat, buffered: nat,
                            frames: seq<seq<byte>>, rest: seq<byte>, n: int)
      reads this
    {
      && fdw != Unset && !localClosed && !remoteSentFinal && |Payload(fdw)| <= FRAME_MAX_PAYLOAD
      && frames + Chunks(Payload(fdw) + rest) == target
      && n == BytesHanded(|frames|, buffered)
      && n + |rest| == size
      && |Payload(fdw)| == (if frames == [] then buffered else 0)
    }

    /** One round of the loop of write, with the frames handed over so far. */
    method CutRound(rest: seq<byte>, n: int, ghost target: seq<seq<byte>>, ghost size: nat, ghost buffered: nat,
                    ghost frames: seq<seq<byte>>)
      returns (rest': seq<byte>, n': int, err: Error, ghost frames': seq<seq<byte>>, ghost events: seq<Event>)
      requires Valid() && Cutting(target, size, buffered, frames, rest, n)
      requires |rest| > FRAME_MAX_PAYLOAD - |Payload(fdw)|
      modifies this`sendWindow, this`ackCh, this`readCh, this`remoteSentFinal, this`seen, this`signals
      modifies this`written, this`sentLog, this`fdw
      ensures Valid() && PerformAll(W, STRICT, old(State()), events) == Next(State())
      ensures err == NoError ==> Cutting(target, size, buffered, frames', rest', n')
      ensures |frames'| < |target| && frames' <= target && n' == BytesHanded(|frames'|, buffered)
      ensures frames' == frames ==> written == old(written)
      ensures frames' != frames ==>
        |frames'| == |frames| + 1 && frames < frames' && written == old(written) + [Data(session, frames'[|frames|])]
      ensures |rest'| <= |rest| && (err != NoError ==> !Clear())
      ensures err == NoError && |rest'| == |rest| ==> |Payload(fdw)| < |Payload(old(fdw))|
    {
      hide PerformAll;
      ghost var whole := Payload(fdw) + rest;
      CutOne(frames, whole, target);
      var m, handed;
      m, handed, err, events := CutFrame(rest);
      assert whole[..FRAME_MAX_PAYLOAD] == whole[..FRAME_MAX_PAYLOAD - m] + rest[..m];
      assert whole[FRAME_MAX_PAYLOAD..] == rest[m..];
      rest', n', frames' := rest[m..], n, frames;
      if handed {
        frames' := frames + [whole[..FRAME_MAX_PAYLOAD]];
        n' := n + m;
      }
      assert [] + rest' == rest';
    }

    /** The loop of write: hands over full frames until the rest fits. */
    method WriteFull(p: seq<byte>, ghost target: seq<seq<byte>>, ghost buffered: nat)
      returns (rest: seq<byte>, n: int, err: Error, ghost frames: seq<seq<byte>>, ghost events: seq<Event>)
      requires Valid() && fdw != Unset && !localClosed && !remoteSentFinal && |Payload(fdw)| <= FRAME_MAX_PAYLOAD
      requires target == Chunks(Payload(fdw) + p) && buffered == |Payload(fdw)|
      modifies this`sendWindow, this`ackCh, this`readCh, this`remoteSentFinal, this`seen, this`signals
      modifies this`written, this`sentLog, this`fdw
      ensures Valid() && PerformAll(W, STRICT, old(State()), events) == Next(State())
      ensures err == NoError ==>
        Cutting(target, |p|, buffered, frames, rest, n) && |rest| <= FRAME_MAX_PAYLOAD - |Payload(fdw)|
      ensures |frames| < |target| && frames <= target && n == BytesHanded(|frames|, buffered)
      ensures written == old(written) + DataFrames(session, frames) && (err != NoError ==> !Clear())
    {
      hide Chunks, DataFrames, PerformAll;
      ChunksExist(Payload(fdw) + p);
      NoDataFrames(session);
      ghost var e0 := State();
      PerformNone(W, STRICT, e0);
      n, frames, rest, err, events := 0, [], p, NoError, [];
      assert [] + target == target;
      while err == NoError && |rest| > FRAME_MAX_PAYLOAD - |Payload(fdw)|
        invariant Valid() && PerformAll(W, STRICT, e0, events) == Next(State())
        invariant err == NoError ==> Cutting(target, |p|, buffered, frames, rest, n)
        invariant |frames| < |target| && frames <= target && n == BytesHanded(|frames|, buffered)
        invariant written == old(written) + DataFrames(session, frames) && (err != NoError ==> !Clear())
        decreases |rest|, if err == NoError then |Payload(fdw)| + 1 else 0
      {
        ghost var handed, e, more := frames, State(), [];
        rest, n, err, frames, more := CutRound(rest, n, target, |p|, buffered, frames);
        PerformConcat(W, STRICT, e0, events, e, more);
        events := events + more;
        if frames != handed {
          assert frames == handed + [frames[|handed|]];
          DataFramesAppend(session, handed, frames[|handed|]);
        }
      }
    }

    /** A frame that has outgrown its size, after a record too long for it: nothing more can be sent in it. */
    method WriteOutgrown(p: seq<byte>) returns (n: int, err: Error, ghost events: seq<Event>)
      requires Valid() && fdw != Unset && !localClosed && !remoteSentFinal && |Payload(fdw)| > FRAME_MAX_PAYLOAD
      modifies this`sendWindow, this`ackCh, this`readCh, this`remoteSentFinal, this`seen, this`signals
      modifies this`written, this`sentLog, this`fdw
      ensures Valid() && PerformAll(W, STRICT, old(State()), events) == Next(State()) && written == old(written)
      ensures err == NoError ==> n == |p| && fdw == Filled(Payload(old(fdw)) + p)
      ensures err != NoError ==> n == 0 && fdw == Unset && err == FrameTooBig
    {
      hide PerformAll;
      ghost var e0 := State();
      PerformNone(W, STRICT, e0);
      var available: nat := *;  // append has moved the frame to a larger array
      if |p| <= available {
        events := Append(p, e0, []);
        return |p|, NoError, events;
      }
      events := [];
      if available > 0 { events := Append(p[..available], e0, events); }
      ghost var e1, more := State(), [];
      n := 0;
      err, more := Flush();
      PerformConcat(W, STRICT, e0, events, e1, more);
      events := events + more;
    }

    /**
      Cuts p into frames, leaving the last one in fdw. `frames` are the payloads handed to
      the muxer, and `events` the steps of the protocol that the call consists of.
     */
    method WriteInner(p: seq<byte>)
      returns (n: int, err: Error, ghost frames: seq<seq<byte>>, ghost events: seq<Event>)
      requires Valid()
      modifies this`sendWindow, this`ackCh, this`readCh, this`remoteSentFinal, this`seen, this`signals
      modifies this`written, this`sentLog, this`fdw
      ensures Valid() && PerformAll(W, STRICT, old(State()), events) == Next(State())
      ensures written == old(written) + DataFrames(session, frames)
      ensures err == NoError ==> fdw.Filled? && n == |p| && !localClosed
      ensures |Payload(old(fdw))| <= FRAME_MAX_PAYLOAD && err != NoError ==> !Clear()
      ensures old(remoteSentFinal) ==> err == Eof && n == 0 && frames == [] && fdw == old(fdw)
      ensures |Payload(old(fdw))| <= FRAME_MAX_PAYLOAD ==>
        if err == NoError then
          frames + [fdw.payload] == Chunks(Payload(old(fdw)) + p) && |fdw.payload| <= FRAME_MAX_PAYLOAD
        else
          && |frames| < |Chunks(Payload(old(fdw)) + p)| && frames <= Chunks(Payload(old(fdw)) + p)
          && n == BytesHanded(|frames|, |Payload(old(fdw))|)
      ensures |Payload(old(fdw))| > FRAME_MAX_PAYLOAD ==>
        frames == [] && if err == NoError then fdw == Filled(Payload(old(fdw)) + p) else n == 0
    {
      hide PerformAll, Chunks, DataFrames;
      ghost var e0 := State();
      NoDataFrames(session);
      ChunksExist(Payload(fdw) + p);
      frames, n := [], 0;
      err, events := WriteStart();
      if err == NoError {
        ghost var e1, more := State(), [];
        if |Payload(fdw)| > FRAME_MAX_PAYLOAD {
          n, err, more := WriteOutgrown(p);
          PerformConcat(W, STRICT, e0, events, e1, more);
          events := events + more;
        } else {
          var rest;
          rest, n, err, frames, more := WriteFull(p, Chunks(Payload(fdw) + p), |Payload(fdw)|);
          PerformConcat(W, STRICT, e0, events, e1, more);
          events := events + more;
          if err == NoError {
            ChunksOne(Payload(fdw) + rest);
            events := Append(rest, e0, events);
            n := n + |rest|;
          }
        }
      }
    }

    /**
      On success every byte buffered or given is in frames handed to the muxer. If cutting
      fails, n counts the bytes of p handed over; if the last flush fails, n is 0. A frame
      that had outgrown its size before fails, and hands over nothing.
     */
    method Write(p: seq<byte>)
      returns (n: int, err: Error, ghost frames: seq<seq<byte>>, ghost lastFailed: bool, ghost events: seq<Event>)
      requires Valid()
      modifies this`sendWindow, this`ackCh, this`readCh, this`remoteSentFinal, this`seen, this`signals
      modifies this`written, this`sentLog, this`fdw
      ensures Valid() && PerformAll(W, STRICT, old(State()), events) == Next(State())
      ensures written == old(written) + DataFrames(session, frames)
      ensures err == NoError ==> n == |p| && fdw == Unset && frames == Chunks(Payload(old(fdw)) + p)
      ensures err != NoError && |Payload(old(fdw))| <= FRAME_MAX_PAYLOAD ==>
        && |frames| < |Chunks(Payload(old(fdw)) + p)| && frames <= Chunks(Payload(old(fdw)) + p)
        && n == (if lastFailed then 0 else BytesHanded(|frames|, |Payload(old(fdw))|))
        && (lastFailed ==> |frames| == |Chunks(Payload(old(fdw)) + p)| - 1)
      ensures |Payload(old(fdw))| > FRAME_MAX_PAYLOAD ==> err != NoError && frames == [] && n == 0
      ensures |Payload(old(fdw))| <= FRAME_MAX_PAYLOAD ==> (err == NoError <==> Clear())
      ensures old(remoteSentFinal) ==> err == Eof && n == 0 && frames == [] && fdw == old(fdw)
    {
      hide Chunks, DataFrames, PerformAll;
      ghost var e0 := State();
      n, err, frames, events := WriteInner(p);
      lastFailed := false;
      if err == NoError {
        ghost var last, e1, more := fdw.payload, State(), [];
        DataFramesAppend(session, frames, last);
        err, more := Flush();
        PerformConcat(W, STRICT, e0, events, e1, more);
        events := events + more;
        if err != NoError {
          n, lastFailed := 0, true;
        } else {
          frames := frames + [last];
        }
      }
    }

    // ----- reading

    /** Reading is trusted to stop once the final is written. */
    ghost function ReadRules(): Rules
      reads this
    {
      Rules(true, !localSentFinal, true)
    }

    /** Waits until a frame, the peer's final, or an interruption comes. */
    method AwaitFrame(limit: nat, ghost r: Rules) returns (left: nat, ghost events: seq<Event>)
      requires Valid() && readCh == [] && !remoteSentFinal && !localClosed
      modifies this`readCh, this`remoteSentFinal, this`seen, this`signals
      ensures Valid() && PerformAll(W, r, old(State()), events) == Next(State())
      ensures readCh == ArrivedPayloads(events) && Flatten(readCh) == ArrivedBytes(events)
      ensures left + |readCh| <= limit && Later(old(signals), signals)
      ensures readCh != [] || remoteSentFinal || signals.readExpired || signals.aborted || signals.closing
    {
      hide PerformAll, Flatten, ArrivedBytes, ArrivedPayloads;
      ghost var e := State();
      left, events := limit, [];
      PerformNone(W, r, e);
      NothingArrived();
      PayloadsOne(Own(Drop));
      if {
        case limit > 0 =>
          left := limit - 1;
          events := DataArrives(r);
        case true =>
          events := FinalArrives(r);
        case true => signals := signals.(readExpired := true);
        case true => signals := signals.(aborted := true);
        case true => signals := signals.(closing := true);
      }
      EmptyFlatten();
    }

    method DataArrives(ghost r: Rules) returns (ghost events: seq<Event>)
      requires Valid() && readCh == [] && !remoteSentFinal
      modifies this`readCh, this`seen
      ensures Valid() && PerformAll(W, r, old(State()), events) == Next(State())
      ensures |readCh| == 1 && readCh == ArrivedPayloads(events) && Flatten(readCh) == ArrivedBytes(events)
    {
      hide PerformAll, Flatten, ArrivedBytes, ArrivedPayloads;
      var p: seq<byte> := *;
      ghost var event := Arrive(Data(session, p));
      FlattenAppend([], p);
      EmptyFlatten();
      assert [] + [p] == [p] && readCh + [p] == [p];
      PerformOne(W, r, State(), event);
      ArrivedOne(event);
      PayloadsOne(event);
      events := [event];
      readCh, seen := [p], seen + [Data(session, p)];
    }

    method FinalArrives(ghost r: Rules) returns (ghost events: seq<Event>)
      requires Valid() && !remoteSentFinal && !localClosed
      modifies this`remoteSentFinal, this`seen
      ensures Valid() && remoteSentFinal && PerformAll(W, r, old(State()), events) == Next(State())
      ensures ArrivedPayloads(events) == [] && ArrivedBytes(events) == []
    {
      hide PerformAll, ArrivedBytes, ArrivedPayloads;
      var isAck := *;
      ghost var event := Arrive(Final(session, isAck));
      PerformOne(W, r, State(), event);
      ArrivedOne(event);
      PayloadsOne(event);
      events := [event];
      remoteSentFinal, seen := true, seen + [Final(session, isAck)];
    }

    /** Frames arrive, and if that is not enough to go on, one more thing is waited for. */
    method Await(limit: nat, ghost r: Rules) returns (left: nat, ghost events: seq<Event>)
      requires Valid()
      modifies this`readCh, this`ackCh, this`remoteSentFinal, this`seen, this`signals
      ensures Valid() && PerformAll(W, r, old(State()), events) == Next(State())
      ensures readCh == old(readCh) + ArrivedPayloads(events)
      ensures Flatten(readCh) == Flatten(old(readCh)) + ArrivedBytes(events)
      ensures left + |readCh| <= limit + |old(readCh)| && Later(old(signals), signals)
      ensures readCh != [] || remoteSentFinal || localClosed
        || signals.readExpired || signals.aborted || signals.closing
    {
      hide PerformAll, Flatten, ArrivedBytes, ArrivedPayloads;
      ghost var e0 := State();
      left, events := Arrivals(limit, r, fdw, localSentFinal);
      if |readCh| == 0 && !remoteSentFinal && !localClosed
         && !signals.readExpired && !signals.aborted && !signals.closing {
        ghost var e1, more := State(), [];
        left, more := AwaitFrame(left, r);
        PerformConcat(W, r, e0, events, e1, more);
        ArrivedConcat(events, more);
        PayloadsConcat(events, more);
        EmptyFlatten();
        events := events + more;
      }
    }

    method ReadFrame(limit: nat) returns (err: Error, left: nat, ghost events: seq<Event>)
      requires Valid() && fp == []
      modifies this`fp, this`readCh, this`written, this`ackCh, this`remoteSentFinal, this`seen, this`signals
      ensures Valid() && PerformAll(W, ReadRules(), old(State()), events) == Next(State())
      ensures Unread(State()) == Unread(old(State())) + ArrivedBytes(events)
      ensures old(readCh) + ArrivedPayloads(events) == (if err == NoError then [fp] else []) + readCh
      ensures written == old(written) + (if err == NoError then [Ack(session)] else [])
      ensures left + |readCh| + (if err == NoError then 1 else 0) <= limit + |old(readCh)|
      ensures err != NoError ==> fp == []
      ensures ReadExcused(err)
    {
      hide PerformAll, ArrivedBytes, ArrivedPayloads, Unread, Flatten;
      UnreadGrows(State());
      left, events := Await(limit, ReadRules());
      err := NoError;
      ghost var e := State();
      UnreadGrows(e);
      if {
        case |readCh| > 0 =>
          events := TakeFrame(old(State()), events);
        case |readCh| == 0 && remoteSentFinal => err := Eof;  // readCh is closed
        case signals.readExpired => err := Timeout;
        case signals.aborted => err := ServerClosed;
        case localClosed || signals.closing => err := ClosedPipe;
      }
    }

    /** Opens the next frame in readCh, and acks it. */
    method TakeFrame(ghost e0: Endpoint, ghost past: seq<Event>) returns (ghost events: seq<Event>)
      requires Valid() && fp == [] && readCh != [] && PerformAll(W, ReadRules(), e0, past) == Next(State())
      modifies this`fp, this`readCh, this`written
      ensures Valid() && PerformAll(W, ReadRules(), e0, events) == Next(State())
      ensures old(readCh) == [fp] + readCh && written == old(written) + [Ack(session)]
      ensures Unread(State()) == Unread(old(State()))
      ensures ArrivedBytes(events) == ArrivedBytes(past) && ArrivedPayloads(events) == ArrivedPayloads(past)
    {
      hide PerformAll, ArrivedBytes, ArrivedPayloads, Unread;
      TakenIsPopThenAck(W, ReadRules(), e0, past, State());
      OwnOnly(past, Own(PopFrame), Own(WriteAck));
      TakenUnread(State());
      events := past + [Own(PopFrame), Own(WriteAck)];
      fp, readCh := readCh[0], readCh[1..];
      written := written + [Ack(session)];
    }

    /** An error of reading has its cause. */
    ghost predicate ReadExcused(err: Error)
      reads this
    {
      match err
      case NoError => true
      case Eof => readCh == [] && remoteSentFinal
      case ClosedPipe => localClosed || signals.closing
      case Timeout => signals.readExpired
      case ServerClosed => signals.aborted
      case FrameTooBig => false
    }

    /** Skips empty frames; every frame taken, empty or not, is acked. `taken` are the frames opened. */
    method LoadFrameReader() returns (err: Error, ghost taken: seq<seq<byte>>, ghost events: seq<Event>)
      requires Valid()
      modifies this`fp, this`readCh, this`written, this`ackCh, this`remoteSentFinal, this`seen, this`signals
      ensures Valid() && PerformAll(W, ReadRules(), old(State()), events) == Next(State())
      ensures Unread(State()) == Unread(old(State())) + ArrivedBytes(events)
      ensures old(readCh) + ArrivedPayloads(events) == taken + readCh && Opened(taken, old(fp), fp)
      ensures written == old(written) + Acks(session, |taken|)
      ensures (err == NoError) == (fp != []) && ReadExcused(err)
    {
      hide PerformAll, ArrivedBytes, ArrivedPayloads, Unread, Acks;
      err, taken, events := NoError, [], [];
      NoAcks(session);
      var left: nat := *;  // the frames that arrive before the call returns
      ghost var e0 := State();
      PerformNone(W, ReadRules(), e0);
      NothingArrived();
      PayloadsOne(Own(Drop));
      while |fp| == 0 && err == NoError
        invariant Valid() && PerformAll(W, ReadRules(), e0, events) == Next(State())
        invariant Unread(State()) == Unread(e0) + ArrivedBytes(events)
        invariant old(readCh) + ArrivedPayloads(events) == taken + readCh && Opened(taken, old(fp), fp)
        invariant written == old(written) + Acks(session, |taken|)
        invariant (fp != [] ==> err == NoError) && ReadExcused(err)
        decreases left + |readCh|, err == NoError
      {
        ghost var e, more := State(), [];
        err, left, more := ReadFrame(left);
        PerformConcat(W, ReadRules(), e0, events, e, more);
        Accumulated(events, more, Unread(e0), old(readCh));
        AckAdded(old(written), session, |taken|);
        ghost var first := if err == NoError then [fp] else [];
        QueueMoved(taken, e.inbox, ArrivedPayloads(more), first, readCh);
        events := events + more;
        taken := taken + first;
      }
    }

    /**
      Returns the front of the open frame, all of it if it fits; what is read is exactly what
      leaves the unread bytes.
     */
    method Read(size: nat)
      returns (data: seq<byte>, err: Error, ghost taken: seq<seq<byte>>, ghost events: seq<Event>)
      requires Valid()
      modifies this`fp, this`readCh, this`written, this`ackCh, this`remoteSentFinal, this`seen, this`signals
      modifies this`readLog
      ensures Valid() && PerformAll(W, ReadRules(), old(State()), events) == Next(State())
      ensures Unread(old(State())) + ArrivedBytes(events) == data + Unread(State())
      ensures old(readCh) + ArrivedPayloads(events) == taken + readCh && Opened(taken, old(fp), data + fp)
      ensures written == old(written) + Acks(session, |taken|)
      ensures err == NoError ==> data + fp != [] && |data| == (if size < |data + fp| then size else |data + fp|)
      ensures err != NoError ==> data == [] && fp == []
      ensures readLog == (if err == NoError then Extend(old(readLog), data) else old(readLog))
      ensures ReadExcused(err) && (err == Eof ==> Unread(State()) == [])
    {
      hide PerformAll, ArrivedBytes, ArrivedPayloads, Unread, Extend, Flatten;
      data := [];
      ghost var e0 := State();
      err, taken, events := LoadFrameReader();
      NothingUnread(State());
      if err == NoError {
        ghost var e := State();
        data := fp[..if size < |fp| then size else |fp|];
        fp := fp[|data|..];
        assert data + fp == e.fp;
        readLog := Extend(readLog, data);
        DataRead(W, ReadRules(), e0, events, e, |data|);
        Extended(e.readLog, data);
        events := events + [Own(Action.Read(|data|))];
      }
    }

    // ----- closing

    /** Acks may be consumed while fdw is flushed, which leads to `e`; then the final is marked as sent, and written. */
    method WriteFinalLocked(isAck: bool, ghost r: Rules) returns (ghost consumed: seq<Event>, ghost e: Endpoint)
      requires Credited() && localClosed && !localSentFinal && isAck == remoteSentFinal
      modifies this`sendWindow, this`ackCh, this`readCh, this`remoteSentFinal, this`seen, this`signals
      modifies this`written, this`sentLog, this`fdw, this`localSentFinal
      ensures Credited() && localSentFinal && fdw == Unset
      ensures PerformAll(W, r, old(State()), consumed) == Next(e) && e == Base(old(fdw), false).(out := old(written))
      ensures remoteSentFinal == old(remoteSentFinal) && sentLog == old(sentLog)
      ensures written == old(written) + (if old(fdw).Filled? then [] else [Final(session, isAck)])
    {
      hide PerformAll, Extend, Flatten;
      ghost var e0 := State();
      PerformNone(W, r, e0);
      localSentFinal := true;
      var err, more := FlushLocked(r);
      consumed := if old(fdw).Filled? then more else [];
      e := Base(old(fdw), false);
      if err == NoError {
        written := written + [Final(session, isAck)];
      }
    }

    /** Close once it holds both locks. */
    method CloseLocked(ghost r: Rules) returns (panic: Option<Panic>, ghost consumed: seq<Event>, ghost e: Endpoint)
      requires Credited() && localClosed && !localSentFinal
      modifies this
      ensures panic == None && PerformAll(W, r, old(State()), consumed) == Next(e)
      ensures e == old(State()).(window := e.window, acks := e.acks, inbox := e.inbox, seen := e.seen)
      ensures State() == Closed(W, e) && Valid()
    {
      hide PerformAll, Extend, Flatten;
      panic := None;
      if !remoteSentFinal {
        consumed, e := WriteFinalLocked(false, r);
      } else {
        consumed, e := WriteFinalLocked(true, r);
        panic := Recycle();
      }
    }

    /**
      Close is the model's CloseBegin and CloseFinish, with any acks that flushLocked consumes
      between them; a frame left in fdw is lost together with the final frame.
     */
    method Close() returns (err: Error, panic: Option<Panic>, ghost events: seq<Event>)
      requires Valid()
      modifies this
      ensures Valid() && panic == None && err == (if old(localClosed) then ClosedPipe else NoError)
      ensures PerformAll(W, Rules(!old(fdw).Filled?, true, true), old(State()), events) == Next(State())
      ensures old(localClosed) ==> events == []
      ensures !old(localClosed) ==>
        && written == old(written) + (if old(fdw).Filled? then [] else [Final(old(session), old(remoteSentFinal))])
        && session == old(session) + (if old(remoteSentFinal) then 1 else 0) && localClosed == !old(remoteSentFinal)
    {
      hide PerformAll, Extend, Flatten;
      panic, events := None, [];
      ghost var r, e0 := Rules(!fdw.Filled?, true, true), State();
      PerformNone(W, r, e0);
      if localClosed { return ClosedPipe, panic, events; }
      err := NoError;
      localClosed := true;
      ghost var e1, consumed, e2 := State(), [], State();
      PerformOne(W, r, e0, Own(CloseBegin));
      panic, consumed, e2 := CloseLocked(r);
      PerformConcat(W, r, e0, [Own(CloseBegin)], e1, consumed);
      CloseFinished(W, r, e0, [Own(CloseBegin)] + consumed, e2);
      events := [Own(CloseBegin)] + consumed + [Own(CloseFinish)];
    }
  }
}
