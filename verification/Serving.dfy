/**
  The reading loop of muxer.go over the conns of one side: frames are read off the
  byte stream, control frames answered, and all others submitted to their conn, which
  may refuse them with a panic.
 */
module Serving {
  import opened Bytes
  import opened Header
  import opened Varint
  import opened Framing
  import P = Protocol

  type Conns = seq<P.Endpoint>

  // ----- SubmitFrame on bytes

  /**
    SubmitFrame tells frames apart by their flags. A reserved flow frame is ignored; a final
    with its size value set panics, once receivedFinal has got hold of cmu.
   */
  function Receive(W: nat, e: P.Endpoint, fd: FrameBytes): P.Outcome<P.Endpoint>
    requires |fd| >= 4
  {
    if HasFlow(fd) then
      if IsAck(fd) then P.Submit(W, e, P.Ack(e.session))
      else if !IsFinal(fd) then P.Next(e)
      else if SizeValue(fd) != 0 && !P.Closing(e) then P.Panicked(P.FinalHasSize)
      else P.Submit(W, e, P.Final(e.session, HasHead(fd)))
    else P.Submit(W, e, P.Data(e.session, fd[4..]))
  }

  /** Some frames submitted one after the other. */
  function AcceptAll(W: nat, e: P.Endpoint, fs: seq<FrameBytes>): P.Outcome<P.Endpoint>
    decreases |fs|
  {
    if fs == [] then P.Next(e)
    else if |fs[0]| < 4 then P.Blocked
    else match Receive(W, e, fs[0])
      case Next(e') => AcceptAll(W, e', fs[1..])
      case Blocked => P.Blocked
      case Panicked(p) => P.Panicked(p)
  }

  // ----- the loop

  /** Why the loop ends; SubmitWaits is a final that waits for a Close or a lock. */
  datatype Stop =
    | EndOfInput | BadSize | ControlError | PongPanic | IdOutOfRange
    | SubmitPanic(why: P.Panic) | SubmitWaits

  datatype Reaction = Goes(conns: Conns, frames: seq<FrameBytes>, pongs: seq<FrameBytes>) | Stops(stop: Stop)

  /** The body of the loop once a frame is read. */
  function React(W: nat, fd: FrameBytes, conns: Conns): Reaction
    requires |fd| >= 4
  {
    if IsMuxerControl(fd) then
      if IsPing(fd) then Goes(conns, [], [PongOf(fd)])
      else if !IsPong(fd) then Stops(ControlError)
      else if PongReads(fd) then Goes(conns, [], [])
      else Stops(PongPanic)
    else if ConnId(fd) >= |conns| then Stops(IdOutOfRange)
    else match Receive(W, conns[ConnId(fd)], fd)
      case Next(e) => Goes(conns[ConnId(fd) := e], [fd], [])
      case Panicked(p) => Stops(SubmitPanic(p))
      case Blocked => Stops(SubmitWaits)
  }

  datatype Served = Served(
    conns: Conns, frames: seq<FrameBytes>, pongs: seq<FrameBytes>, bytes: nat, stop: Stop)

  /** Muxer.ReadFrom: the conns afterwards, the frames they took, the pongs queued, and why it stopped. */
  function Serve(W: nat, s: seq<byte>, conns: Conns): Served
    decreases |s|
  {
    var r := ReadFrame([], s);
    if r.err == ShortRead then Served(conns, [], [], |s|, EndOfInput)
    else if r.err != NoError then Served(conns, [], [], |r.fd|, BadSize)
    else match React(W, r.fd, conns)
      case Stops(stop) => Served(conns, [], [], |r.fd|, stop)
      case Goes(conns', frames, pongs) =>
        var t := Serve(W, r.rest, conns');
        Served(t.conns, frames + t.frames, pongs + t.pongs, |r.fd| + t.bytes, t.stop)
  }

  /** A frame at the front of the stream gets its reaction, and the rest is served after it. */
  lemma {:induction false} ServeOne(W: nat, fd: FrameBytes, rest: seq<byte>, conns: Conns)
    requires WellFormed(fd)
    ensures |Sized(fd)| >= 4
    ensures var f := Sized(fd);
      Serve(W, f + rest, conns)
      == match React(W, f, conns)
         case Stops(stop) => Served(conns, [], [], |f|, stop)
         case Goes(conns', frames, pongs) =>
           var t := Serve(W, rest, conns');
           Served(t.conns, frames + t.frames, pongs + t.pongs, |f| + t.bytes, t.stop)
  {
    hide ReadFrame, React, Sized;
    LongEnough(fd);
    SizedReads(fd, rest);
  }

  /** For any input at all: a conn ends as the frames handed to it, and no others, leave it. */
  lemma {:induction false} ServedIsAccepted(W: nat, s: seq<byte>, conns: Conns, id: nat)
    requires id < |conns|
    ensures var v := Serve(W, s, conns);
      |v.conns| == |conns| && AcceptAll(W, conns[id], OfConn(v.frames, id)) == P.Next(v.conns[id])
    decreases |s|
  {
    hide ReadFrame, Receive, OfConn, AcceptAll, IsPing, IsPong, PongOf, PongReads, ConnId;
    var r := ReadFrame([], s);
    NothingTaken(W, conns[id], id);
    if r.err == NoError && React(W, r.fd, conns).Goes? {
      var o := React(W, r.fd, conns);
      ServedIsAccepted(W, r.rest, o.conns, id);
      var t := Serve(W, r.rest, o.conns);
      assert [] + t.frames == t.frames && [] + OfConn(t.frames, id) == OfConn(t.frames, id);
      OfConnCons(r.fd, t.frames, id);
      AcceptCons(W, conns[id], r.fd, OfConn(t.frames, id));
    }
  }

  lemma {:induction false} NothingTaken(W: nat, e: P.Endpoint, id: nat)
    ensures AcceptAll(W, e, OfConn([], id)) == P.Next(e)
  {
  }

  // ----- which streams are served whole

  /** A frame of a conn, or a ping or pong. */
  predicate Addressed(fd: FrameBytes, count: nat) {
    WellFormed(fd) && (ConnId(fd) < count || IsPing(fd) || IsPong(fd))
  }

  predicate AllAddressed(fs: seq<FrameBytes>, count: nat) {
    forall i :: 0 <= i < |fs| ==> Addressed(fs[i], count)
  }

  predicate PongsRead(fs: seq<FrameBytes>) {
    forall i :: 0 <= i < |fs| && |fs[i]| >= 4 && IsPong(fs[i]) ==> PongReads(fs[i])
  }

  /** Every conn accepts its own frames, in their order, whatever comes between them. */
  predicate Accepts(W: nat, conns: Conns, fs: seq<FrameBytes>) {
    forall id :: 0 <= id < |conns| ==> AcceptAll(W, conns[id], OfConn(AllSized(fs), id)).Next?
  }

  /** What the first frame does for the rest: each conn's frames are still to be accepted from where it is. */
  predicate SameTask(W: nat, conns: Conns, fs: seq<FrameBytes>, conns': Conns, rest: seq<FrameBytes>) {
    && |conns'| == |conns|
    && forall id :: 0 <= id < |conns| ==>
         AcceptAll(W, conns[id], OfConn(AllSized(fs), id)) == AcceptAll(W, conns'[id], OfConn(AllSized(rest), id))
  }

  lemma {:induction false} AcceptCons(W: nat, e: P.Endpoint, f: FrameBytes, fs: seq<FrameBytes>)
    requires |f| >= 4
    ensures AcceptAll(W, e, [f] + fs)
      == match Receive(W, e, f)
         case Next(e') => AcceptAll(W, e', fs)
         case Blocked => P.Blocked
         case Panicked(p) => P.Panicked(p)
  {
    hide Receive;
    assert ([f] + fs)[1..] == fs;
  }

  lemma {:induction false} FirstFrame(W: nat, fs: seq<FrameBytes>, conns: Conns)
    requires fs != [] && 1 <= |conns| <= MUXER_CONN_ID && Addressed(fs[0], |conns|)
    ensures |Sized(fs[0])| >= 4
    ensures var f := Sized(fs[0]);
      match React(W, f, conns)
      case Goes(conns', frames, pongs) =>
        && SameTask(W, conns, fs, conns', fs[1..])
        && (IsPong(fs[0]) ==> PongReads(fs[0]))
        && frames == (if ConnId(f) < |conns| then [f] else []) && pongs == (if IsPing(f) then [PongOf(f)] else [])
      case Stops(stop) =>
        || (stop == PongPanic && IsPong(fs[0]) && !PongReads(fs[0]))
        || ((stop.SubmitPanic? || stop == SubmitWaits) && !Accepts(W, conns, fs))
  {
    hide Receive, Sized, AcceptAll, OfConn, DecodeInt64;
    var f, rest := Sized(fs[0]), AllSized(fs[1..]);
    LongEnough(fs[0]);
    SameControl(fs[0]);
    forall id | 0 <= id < |conns|
      ensures AcceptAll(W, conns[id], OfConn(AllSized(fs), id))
        == if ConnId(f) != id then AcceptAll(W, conns[id], OfConn(rest, id))
           else match Receive(W, conns[id], f)
             case Next(e') => AcceptAll(W, e', OfConn(rest, id))
             case Blocked => P.Blocked
             case Panicked(p) => P.Panicked(p)
    {
      OfConnCons(f, rest, id);
      AcceptCons(W, conns[id], f, OfConn(rest, id));
      assert [] + OfConn(rest, id) == OfConn(rest, id);
    }
  }

  /** What a stream that is served whole does. */
  predicate Whole(W: nat, fs: seq<FrameBytes>, conns: Conns, v: Served) {
    && v.stop == EndOfInput && v.bytes == |WireBytes(fs)| && v.pongs == Pongs(fs) && |v.conns| == |conns|
    && forall id :: 0 <= id < |conns| ==>
         && OfConn(v.frames, id) == OfConn(AllSized(fs), id)
         && AcceptAll(W, conns[id], OfConn(AllSized(fs), id)) == P.Next(v.conns[id])
  }

  lemma {:induction false} WholeCons(W: nat, fs: seq<FrameBytes>, conns: Conns, conns': Conns,
                                     frames: seq<FrameBytes>, t: Served)
    requires fs != [] && |Sized(fs[0])| >= 4 && SameTask(W, conns, fs, conns', fs[1..])
    requires frames == (if ConnId(Sized(fs[0])) < |conns| then [Sized(fs[0])] else []) && Whole(W, fs[1..], conns', t)
    ensures var f := Sized(fs[0]);
      var pongs := if IsPing(f) then [PongOf(f)] else [];
      Whole(W, fs, conns, Served(t.conns, frames + t.frames, pongs + t.pongs, |f| + t.bytes, t.stop))
  {
    hide Sized, AcceptAll, OfConn, IsPing, PongOf;
    forall id | 0 <= id < |conns| ensures OfConn(frames + t.frames, id) == OfConn(AllSized(fs), id) {
      OneMoreFrame(fs, frames, t.frames, |conns|, id);
    }
  }

  lemma {:induction false} ServeNothing(W: nat, conns: Conns)
    ensures Whole(W, [], conns, Serve(W, WireBytes([]), conns)) && Accepts(W, conns, [])
  {
    assert ReadFrame([], []).err == ShortRead;
  }

  /** The loop over well-formed frames, with control payloads of any content, and conns in any state. */
  lemma {:induction false} ServeFrames(W: nat, fs: seq<FrameBytes>, conns: Conns)
    requires 1 <= |conns| <= MUXER_CONN_ID && AllAddressed(fs, |conns|)
    ensures var v := Serve(W, WireBytes(fs), conns);
      if PongsRead(fs) && Accepts(W, conns, fs) then Whole(W, fs, conns, v)
      else v.stop == PongPanic || v.stop.SubmitPanic? || v.stop == SubmitWaits
    decreases |fs|
  {
    hide Serve, React, Sized, AcceptAll, OfConn, PongReads, WellFormed, Whole;
    if fs == [] {
      ServeNothing(W, conns);
    } else {
      assert Addressed(fs[0], |conns|);
      LongEnough(fs[0]);
      FirstFrame(W, fs, conns);
      ServeOne(W, fs[0], WireBytes(fs[1..]), conns);
      var o := React(W, Sized(fs[0]), conns);
      if o.Goes? {
        ServeFrames(W, fs[1..], o.conns);
        RestTask(W, fs, conns, o.conns);
        if PongsRead(fs) && Accepts(W, conns, fs) {
          WholeCons(W, fs, conns, o.conns, o.frames, Serve(W, WireBytes(fs[1..]), o.conns));
        }
      }
    }
  }

  lemma {:induction false} RestTask(W: nat, fs: seq<FrameBytes>, conns: Conns, conns': Conns)
    requires fs != [] && SameTask(W, conns, fs, conns', fs[1..])
    requires |fs[0]| >= 4 && (IsPong(fs[0]) ==> PongReads(fs[0]))
    ensures Accepts(W, conns, fs) == Accepts(W, conns', fs[1..]) && PongsRead(fs) == PongsRead(fs[1..])
  {
    hide AcceptAll, OfConn, AllSized, PongReads;
    assert fs == [fs[0]] + fs[1..];
  }

  /**
    Of frames with control payloads of any content, to conns in any state, the loop reads all
    if and only if every pong can be read and every conn accepts its own frames. Otherwise it
    ends in the pong handler's panic, in a panic of SubmitFrame, or waiting for a Close.
   */
  lemma {:induction false} ServedWholeIff(W: nat, fs: seq<FrameBytes>, conns: Conns)
    requires 1 <= |conns| <= MUXER_CONN_ID && AllAddressed(fs, |conns|)
    ensures var stop := Serve(W, WireBytes(fs), conns).stop;
      && (stop == EndOfInput <==> PongsRead(fs) && Accepts(W, conns, fs))
      && (stop == EndOfInput || stop == PongPanic || stop.SubmitPanic? || stop == SubmitWaits)
  {
    hide Serve, Accepts, PongsRead;
    ServeFrames(W, fs, conns);
  }

  /**
    Writing any interleaving of the frames of any number of conns to one byte stream and
    reading it back gives every conn exactly its own frames, in order, with their sizes set,
    and leaves it as submitting them to it alone would; every ping is answered; and all
    bytes are consumed.
   */
  lemma {:induction false} MuxerRefinesFifos(W: nat, fs: seq<FrameBytes>, conns: Conns)
    requires 1 <= |conns| <= MUXER_CONN_ID && AllAddressed(fs, |conns|) && PongsRead(fs) && Accepts(W, conns, fs)
    ensures var v := Serve(W, WireBytes(fs), conns);
      && v.stop == EndOfInput && v.bytes == |WireBytes(fs)| && v.pongs == Pongs(fs) && |v.conns| == |conns|
      && forall id :: 0 <= id < |conns| ==>
           && OfConn(v.frames, id) == OfConn(AllSized(fs), id)
           && P.Next(v.conns[id]) == AcceptAll(W, conns[id], OfConn(AllSized(fs), id))
  {
    hide Serve, Accepts, PongsRead;
    ServeFrames(W, fs, conns);
  }

  // ----- pongs

  /**
    A pong is survived exactly when its payload begins with an integer: some byte among
    its first ten lacks the high bit, and the groups up to it fit in 64 bits.
   */
  lemma {:induction false} PongSurvivedIff(W: nat, fd: FrameBytes, rest: seq<byte>, conns: Conns)
    requires WellFormed(fd) && IsPong(fd)
    ensures var f, t := Sized(fd), Serve(W, rest, conns);
      Serve(W, f + rest, conns)
      == if PongReads(fd) then t.(bytes := |f| + t.bytes) else Served(conns, [], [], |f|, PongPanic)
    ensures var i := Terminator(fd[4..]);
      PongReads(fd) <==> i.Some? && i.value <= 9 && Value(fd[4..][..i.value + 1]) < UINT64
  {
    hide Serve, Value, Terminator, Sized, PongReads;
    ServeOne(W, fd, rest, conns);
    SameControl(fd);
    var t := Serve(W, rest, conns);
    assert [] + t.frames == t.frames && [] + t.pongs == t.pongs;
    PongReadsIff(fd);
  }

  lemma {:induction false} PongReadsIff(fd: FrameBytes)
    requires |fd| >= 4
    ensures var i := Terminator(fd[4..]);
      PongReads(fd) <==> i.Some? && i.value <= 9 && Value(fd[4..][..i.value + 1]) < UINT64
  {
    hide Value, Terminator;
    AcceptedIff(fd[4..]);
    var d := DecodeUint64(fd[4..]);
    if d.Some? { DecodedMeaning(fd[4..], d.value.0, d.value.1); }
  }

  /** A pong without a payload is well-formed, and ends the reading loop with a panic. */
  lemma {:induction false} EmptyPongPanics(W: nat, rest: seq<byte>, conns: Conns)
    ensures var fd := [0x00, 0x00, 0x7F, 0xFF];
      WellFormed(fd) && IsPong(fd) && Serve(W, fd + rest, conns) == Served(conns, [], [], 4, PongPanic)
  {
    hide Serve;
    var fd: FrameBytes := [0x00, 0x00, 0x7F, 0xFF];
    assert Sized(fd) == fd && fd[4..] == [];
    PongSurvivedIff(W, fd, rest, conns);
  }

  lemma {:induction false} PingIsPing(t: int)
    requires IsInt64(t)
    ensures var ping := PingAt(t);
      WellFormed(ping) && IsPing(ping) && HasPayload(ping) && ping[4..] == EncodeInt64(t)
  {
    hide EncodeInt64, Pack, Unpack;
    var v := View(0, false, true, false, MUXER_CONN_ID);
    UnpackPack(v);
    UnpackPrefix(Pack(v), EncodeInt64(t));
    Int64Short(t);
    FlagsOf(PingAt(t));
  }

  lemma {:induction false} PongIsPong(ping: FrameBytes)
    requires Complete(ping) && IsPing(ping)
    ensures WellFormed(PongOf(ping)) && IsPong(PongOf(ping)) && Sized(PongOf(ping)) == PongOf(ping)
  {
    hide PongOf, Unpack;
    PongAnswers(ping);
    FlagsOf(ping);
    FlagsOf(PongOf(ping));
    AlreadySized(PongOf(ping));
  }

  /** Our own ping is answered, and the answer survived: the other side echoes what Ping wrote. */
  lemma {:induction false} OwnPingReturns(t: int)
    requires IsInt64(t)
    ensures WellFormed(PingAt(t)) && |Sized(PingAt(t))| >= 4 && IsPing(Sized(PingAt(t)))
    ensures var pong := PongOf(Sized(PingAt(t)));
      WellFormed(pong) && IsPong(pong) && Sized(pong) == pong && DecodeInt64(pong[4..]) == Some((t, []))
  {
    hide PingAt, Sized, PongOf, Unpack, EncodeInt64, DecodeInt64;
    var ping := PingAt(t);
    PingIsPing(t);
    SizedKeeps(ping);
    SameControl(ping);
    Int64RoundTrip(t, []);
    assert EncodeInt64(t) + [] == EncodeInt64(t);
    PongAnswers(Sized(ping));
    PongIsPong(Sized(ping));
  }

  // ----- what ends the loop otherwise

  /** A panic frame or a reserved control frame. */
  lemma {:induction false} ControlRefused(W: nat, fd: FrameBytes, rest: seq<byte>, conns: Conns)
    requires WellFormed(fd) && IsMuxerControl(fd) && !IsPing(fd) && !IsPong(fd)
    ensures Serve(W, Sized(fd) + rest, conns) == Served(conns, [], [], |fd|, ControlError)
  {
    hide Serve, Sized;
    LongEnough(fd);
    SameControl(fd);
    ServeOne(W, fd, rest, conns);
  }

  /** A frame for a conn there is no place for. */
  lemma {:induction false} UnknownConnRefused(W: nat, fd: FrameBytes, rest: seq<byte>, conns: Conns)
    requires WellFormed(fd) && |conns| <= ConnId(fd) < MUXER_CONN_ID
    ensures Serve(W, Sized(fd) + rest, conns) == Served(conns, [], [], |fd|, IdOutOfRange)
  {
    hide Serve, Sized;
    LongEnough(fd);
    SameControl(fd);
    ServeOne(W, fd, rest, conns);
  }

  /** A header that announces more than a frame may hold, after its four bytes. */
  lemma {:induction false} BigFrameRefused(W: nat, h: FrameBytes, rest: seq<byte>, conns: Conns)
    requires |h| == 4 && HasPayload(h) && SizeValue(h) > FRAME_MAX_PAYLOAD
    ensures ReadFrame([], h + rest) == ReadResult(h, rest, FrameTooBig)
    ensures Serve(W, h + rest, conns) == Served(conns, [], [], 4, BadSize)
  {
    assert [] + (h + rest) == h + rest;
    SameHeader(h, h + rest);
    ReadErrors([], h + rest);
    var r := ReadFrame([], h + rest);
    assert r.fd + r.rest == h + rest && r.fd == h;
    assert (h + rest)[4..] == rest;
  }

  // ----- what SubmitFrame does, flag by flag

  /** An ack is one more token in ackCh, and nothing else. */
  lemma {:induction false} AckMeans(W: nat, e: P.Endpoint, fd: FrameBytes)
    requires |fd| >= 4 && HasFlow(fd) && !HasBody(fd) && !HasHead(fd)
    ensures e.acks < P.MAX_SEND_WINDOW ==>
      var o := Receive(W, e, fd); o.Next? && o.next == e.(acks := e.acks + 1, seen := o.next.seen)
    ensures e.acks >= P.MAX_SEND_WINDOW ==> Receive(W, e, fd) == P.Panicked(P.AckWouldBlock)
  {
  }

  /** The reserved flow frame is ignored. */
  lemma {:induction false} ReservedIgnored(W: nat, e: P.Endpoint, fd: FrameBytes)
    requires |fd| >= 4 && HasFlow(fd) && !HasBody(fd) && HasHead(fd)
    ensures Receive(W, e, fd) == P.Next(e)
  {
  }

  /** Data is queued behind what is queued already, unless the peer has closed or the queue is full. */
  lemma {:induction false} DataMeans(W: nat, e: P.Endpoint, fd: FrameBytes)
    requires |fd| >= 4 && !HasFlow(fd)
    ensures e.gotFinal ==> Receive(W, e, fd) == P.Panicked(P.FrameAfterFinal)
    ensures !e.gotFinal && |e.inbox| >= P.MAX_SEND_WINDOW ==> Receive(W, e, fd) == P.Panicked(P.DataWouldBlock)
    ensures !e.gotFinal && |e.inbox| < P.MAX_SEND_WINDOW ==>
      var o := Receive(W, e, fd); o.Next? && o.next == e.(inbox := e.inbox + [fd[4..]], seen := o.next.seen)
  {
  }

  /** An end that has closed, and waits for the peer to do so. */
  predicate AwaitsFinal(e: P.Endpoint) {
    e.closed && e.sentFinal && !e.gotFinal && e.fdw == P.Unset && e.writer == P.Idle && !e.acking
  }

  /**
    A final waits for a Close that is busy; it panics if its size is set or if it is the second;
    it is noted by an end that has not closed; and it starts a new session at one that has, with
    a whole window and nothing left of the old one.
   */
  lemma {:induction false} FinalMeans(W: nat, e: P.Endpoint, fd: FrameBytes)
    requires |fd| >= 4 && HasFlow(fd) && HasBody(fd)
    ensures P.Closing(e) ==> Receive(W, e, fd) == P.Blocked
    ensures !P.Closing(e) && SizeValue(fd) != 0 ==> Receive(W, e, fd) == P.Panicked(P.FinalHasSize)
    ensures !P.Closing(e) && SizeValue(fd) == 0 && e.gotFinal ==> Receive(W, e, fd) == P.Panicked(P.MultipleFinals)
    ensures !P.Closing(e) && SizeValue(fd) == 0 && !e.gotFinal && !e.sentFinal ==>
      var o := Receive(W, e, fd); o.Next? && o.next == e.(gotFinal := true, seen := o.next.seen)
    ensures SizeValue(fd) == 0 && AwaitsFinal(e) ==>
      var o := Receive(W, e, fd);
      && o.Next? && o.next.window == W && o.next.acks == 0 && o.next.inbox == [] && o.next.fp == []
      && !o.next.closed && !o.next.sentFinal && !o.next.gotFinal && o.next.session == e.session + 1
  {
  }

  // ----- frames a conn refuses

  /** A final with its size value set ends the loop in a panic, whatever state its conn is in, unless Close is busy. */
  lemma {:induction false} SizedFinalPanics(W: nat, rest: seq<byte>, conns: Conns)
    requires |conns| > 1 && !P.Closing(conns[1])
    ensures var fd := [0x00, 0x01, 0xC0, 0x01];
      WellFormed(fd) && Serve(W, fd + rest, conns) == Served(conns, [], [], 4, SubmitPanic(P.FinalHasSize))
  {
    hide Serve;
    var fd: FrameBytes := [0x00, 0x01, 0xC0, 0x01];
    assert Sized(fd) == fd;
    ServeOne(W, fd, rest, conns);
  }

  /** A second final, or data after one, ends it too, if the owner has not closed. */
  lemma {:induction false} AfterFinalPanics(W: nat, rest: seq<byte>, conns: Conns)
    requires |conns| > 1 && !conns[1].closed && !conns[1].sentFinal && !conns[1].gotFinal
    ensures var fin, data := [0x00, 0x00, 0xC0, 0x01], [0x00, 0x00, 0x40, 0x01];
      && Serve(W, fin + (fin + rest), conns).stop == SubmitPanic(P.MultipleFinals)
      && Serve(W, fin + (data + rest), conns).stop == SubmitPanic(P.FrameAfterFinal)
  {
    hide Serve;
    var fin: FrameBytes, data: FrameBytes := [0x00, 0x00, 0xC0, 0x01], [0x00, 0x00, 0x40, 0x01];
    assert Sized(fin) == fin && Sized(data) == data && data[4..] == [];
    ServeOne(W, fin, fin + rest, conns);
    ServeOne(W, fin, data + rest, conns);
    var o := React(W, fin, conns);
    ServeOne(W, fin, rest, o.conns);
    ServeOne(W, data, rest, o.conns);
  }

  // ----- while the stream is still being read

  /** The bytes of a frame that has begun to arrive and is not complete. */
  predicate Partial(part: seq<byte>, fs: seq<FrameBytes>) {
    if fs == [] then part == [] else part < Sized(fs[0])
  }

  /** The stream of fs is cut into x and y, inside or before frame n, of which `part` has arrived. */
  predicate CutAt(W: nat, fs: seq<FrameBytes>, conns: Conns, x: seq<byte>, y: seq<byte>, n: nat, part: seq<byte>) {
    && n <= |fs| && Partial(part, fs[n..])
    && x == WireBytes(fs[..n]) + part && part + y == WireBytes(fs[n..])
    && (n < |fs| ==> ReadFrame(part, y) == ReadResult(Sized(fs[n]), WireBytes(fs[n + 1..]), NoError))
    && var v := Serve(W, x, conns);
    && v.stop == EndOfInput && v.bytes == |x| && v.pongs == Pongs(fs[..n]) && |v.conns| == |conns|
    && (forall id :: 0 <= id < |conns| ==> OfConn(v.frames, id) == OfConn(AllSized(fs[..n]), id))
    && SameTask(W, conns, fs, v.conns, fs[n..])
  }

  /** Reading the beginning of a frame waits for the rest of it, and finds it. */
  lemma {:induction false} CutFrame(fd: FrameBytes, tail: seq<byte>, x: seq<byte>, y: seq<byte>)
    requires WellFormed(fd) && x + y == Sized(fd) + tail && |x| < |Sized(fd)|
    ensures x < Sized(fd) && ReadFrame([], x).err == ShortRead
    ensures ReadFrame(x, y) == ReadResult(Sized(fd), tail, NoError)
  {
    hide ReadFrame, Sized;
    var f := Sized(fd);
    SizedKeeps(fd);
    assert x == (f + tail)[..|x|] == f[..|x|];
    assert f == (x + y)[..|f|] && (x + y)[|f|..] == tail;
    ResumeOnce(f, x, y);
    assert [] + x == x;
    ResumeOnce(f, [], x);
  }

  lemma {:induction false} CutInside(W: nat, fs: seq<FrameBytes>, conns: Conns, x: seq<byte>, y: seq<byte>)
    requires fs != [] && WellFormed(fs[0]) && x + y == WireBytes(fs) && |x| < |Sized(fs[0])|
    ensures CutAt(W, fs, conns, x, y, 0, x)
  {
    hide ReadFrame, Sized, OfConn, AcceptAll;
    CutFrame(fs[0], WireBytes(fs[1..]), x, y);
    assert fs[0..] == fs && fs[..0] == [] && [] + x == x;
  }

  lemma {:induction false} CutNothing(W: nat, conns: Conns, x: seq<byte>, y: seq<byte>)
    requires x + y == WireBytes([])
    ensures CutAt(W, [], conns, x, y, 0, [])
  {
    hide OfConn, AcceptAll;
    assert x == [] && y == [];
    assert ReadFrame([], []).err == ShortRead;
  }

  lemma {:induction false} CutAfter(W: nat, fs: seq<FrameBytes>, conns: Conns, conns': Conns,
                                    x: seq<byte>, y: seq<byte>, n: nat, part: seq<byte>)
    requires fs != [] && 1 <= |conns| <= MUXER_CONN_ID && Addressed(fs[0], |conns|)
    requires |Sized(fs[0])| >= 4 && React(W, Sized(fs[0]), conns).Goes? && React(W, Sized(fs[0]), conns).conns == conns'
    requires CutAt(W, fs[1..], conns', x, y, n, part)
    ensures CutAt(W, fs, conns, Sized(fs[0]) + x, y, n + 1, part)
  {
    hide Serve, ReadFrame, React, Sized, OfConn, AcceptAll, IsPing, PongOf, PongReads, Partial,
      WireBytes, Pongs, AllSized;
    var f, t := Sized(fs[0]), Serve(W, x, conns');
    FirstFrame(W, fs, conns);
    ServeOne(W, fs[0], x, conns);
    CutIndices(fs, n);
    FrontOf(fs[..n + 1]);
    assert f + (WireBytes(fs[1..][..n]) + part) == (f + WireBytes(fs[1..][..n])) + part;
    forall id | 0 <= id < |conns|
      ensures OfConn(Serve(W, f + x, conns).frames, id) == OfConn(AllSized(fs[..n + 1]), id)
    {
      OneMoreFrame(fs[..n + 1], React(W, f, conns).frames, t.frames, |conns|, id);
    }
  }

  lemma {:induction false} FrontOf(fs: seq<FrameBytes>)
    requires fs != [] && |Sized(fs[0])| >= 4
    ensures WireBytes(fs) == Sized(fs[0]) + WireBytes(fs[1..])
    ensures Pongs(fs) == (if IsPing(Sized(fs[0])) then [PongOf(Sized(fs[0]))] else []) + Pongs(fs[1..])
  {
  }

  lemma {:induction false} OneMoreFrame(fs: seq<FrameBytes>, first: seq<FrameBytes>, taken: seq<FrameBytes>,
                                        count: nat, id: nat)
    requires fs != [] && |Sized(fs[0])| >= 4 && id < count
    requires first == (if ConnId(Sized(fs[0])) < count then [Sized(fs[0])] else [])
    requires OfConn(taken, id) == OfConn(AllSized(fs[1..]), id)
    ensures OfConn(first + taken, id) == OfConn(AllSized(fs), id)
  {
    hide Sized, OfConn;
    var f := Sized(fs[0]);
    OfConnCons(f, AllSized(fs[1..]), id);
    OfConnCons(f, taken, id);
    assert [] + taken == taken && [] + OfConn(taken, id) == OfConn(taken, id);
  }

  lemma {:induction false} CutIndices(fs: seq<FrameBytes>, n: nat)
    requires fs != [] && n <= |fs[1..]|
    ensures fs[n + 1..] == fs[1..][n..] && fs[..n + 1][1..] == fs[1..][..n] && fs[..n + 1][0] == fs[0]
    ensures n < |fs[1..]| ==> fs[n + 2..] == fs[1..][n + 1..] && fs[n + 1] == fs[1..][n]
  {
  }

  lemma {:induction false} CutFront(f: seq<byte>, tail: seq<byte>, x: seq<byte>, y: seq<byte>)
    requires x + y == f + tail && |f| <= |x|
    ensures f + x[|f|..] == x && x[|f|..] + y == tail
  {
    assert x[..|f|] == (f + tail)[..|f|] == f;
    assert x[|f|..] + y == (f + tail)[|f|..] == tail;
  }

  /**
    Wherever a stream that its conns accept is cut, what was read before the cut is the first
    n frames whole, each conn having taken its own among them, and part of the next; what
    follows is the rest of that frame, which reading resumes, and the frames after it, which
    each conn accepts from where it is, ending as it would have without the cut.
   */
  lemma {:induction false} MuxerOnline(W: nat, fs: seq<FrameBytes>, conns: Conns, x: seq<byte>, y: seq<byte>)
    returns (n: nat, part: seq<byte>)
    requires 1 <= |conns| <= MUXER_CONN_ID && AllAddressed(fs, |conns|) && PongsRead(fs) && Accepts(W, conns, fs)
    requires x + y == WireBytes(fs)
    ensures CutAt(W, fs, conns, x, y, n, part)
    decreases |fs|
  {
    hide CutAt, Sized, Serve, React, ReadFrame, PongReads, AcceptAll, OfConn, WellFormed;
    if fs == [] {
      n, part := 0, [];
      CutNothing(W, conns, x, y);
    } else if |x| < |Sized(fs[0])| {
      n, part := 0, x;
      assert Addressed(fs[0], |conns|);
      CutInside(W, fs, conns, x, y);
    } else {
      var f := Sized(fs[0]);
      assert Addressed(fs[0], |conns|);
      LongEnough(fs[0]);
      FirstFrame(W, fs, conns);
      CutFront(f, WireBytes(fs[1..]), x, y);
      var conns' := React(W, f, conns).conns;
      RestTask(W, fs, conns, conns');
      n, part := MuxerOnline(W, fs[1..], conns', x[|f|..], y);
      CutAfter(W, fs, conns, conns', x[|f|..], y, n, part);
      n := n + 1;
    }
  }
}
