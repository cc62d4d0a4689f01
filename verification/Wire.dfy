/**
  The wires of the conn protocol, realised by the muxer's byte stream: the frames
  every conn hands over are encoded, multiplexed, parsed, dispatched and submitted,
  and arrive as the per-conn FIFO the protocol model assumes.
 */
module Wire {
  import opened Bytes
  import opened Header
  import opened Framing
  import opened Serving
  import P = Protocol

  type ConnNumber = x: nat | x <= 0x1FFF

  /** A frame of the model with its 13-bit conn ID; data frames carry a head record, body bytes, or both. */
  datatype Tagged = Tagged(id: ConnNumber, frame: P.Frame, head: bool, body: bool)

  predicate Sendable(t: Tagged, count: nat) {
    && t.id < count
    && (t.frame.Data? ==> (t.head || t.body) && |t.frame.payload| <= FRAME_MAX_PAYLOAD)
  }

  /** The frame as conn.go builds it: makeFinalFrame, writeAckFrame, or fdw; its size is not set yet. */
  function Encode(t: Tagged): FrameBytes {
    match t.frame
    case Data(_, p) => Pack(View(0, false, t.body, t.head, t.id)) + p
    case Ack(_) => Pack(View(0, true, false, false, t.id))
    case Final(_, isAck) => Pack(View(0, true, true, isAck, t.id))
  }

  function EncodeAll(ts: seq<Tagged>): seq<FrameBytes> {
    if ts == [] then [] else [Encode(ts[0])] + EncodeAll(ts[1..])
  }

  /** The frames one conn handed over, among those of all conns. */
  function FramesOf(ts: seq<Tagged>, id: nat): seq<P.Frame> {
    if ts == [] then []
    else (if ts[0].id == id then [ts[0].frame] else []) + FramesOf(ts[1..], id)
  }

  /** Bytes carry no session number: a frame is taken for one of the session its receiver is in. */
  function InSession(f: P.Frame, session: nat): P.Frame {
    match f
    case Data(_, p) => P.Data(session, p)
    case Ack(_) => P.Ack(session)
    case Final(_, isAck) => P.Final(session, isAck)
  }

  /** The protocol's deliveries of some frames, one after the other. */
  function SubmitAll(W: nat, e: P.Endpoint, fs: seq<P.Frame>): P.Outcome<P.Endpoint>
    decreases |fs|
  {
    if fs == [] then P.Next(e)
    else match P.Submit(W, e, InSession(fs[0], e.session))
      case Next(e') => SubmitAll(W, e', fs[1..])
      case Blocked => P.Blocked
      case Panicked(p) => P.Panicked(p)
  }

  // ----- one frame

  lemma {:induction false} EncodeView(t: Tagged)
    ensures |Encode(t)| >= 4
    ensures Unpack(Encode(t)) == match t.frame
      case Data(_, _) => View(0, false, t.body, t.head, t.id)
      case Ack(_) => View(0, true, false, false, t.id)
      case Final(_, isAck) => View(0, true, true, isAck, t.id)
    ensures Encode(t)[4..] == if t.frame.Data? then t.frame.payload else []
  {
    hide Pack, Unpack;
    var v := match t.frame
      case Data(_, _) => View(0, false, t.body, t.head, t.id)
      case Ack(_) => View(0, true, false, false, t.id)
      case Final(_, isAck) => View(0, true, true, isAck, t.id);
    UnpackPack(v);
    if t.frame.Data? { UnpackPrefix(Pack(v), t.frame.payload); }
  }

  /** One frame through the muxer's writer and SubmitFrame's case distinction is the protocol's delivery of it. */
  lemma {:induction false} OneFrame(W: nat, t: Tagged, count: nat, e: P.Endpoint)
    requires count <= MUXER_CONN_ID && Sendable(t, count)
    ensures WellFormed(Encode(t)) && Addressed(Encode(t), count)
    ensures var f := Sized(Encode(t));
      && |f| >= 4 && !IsMuxerControl(f) && ConnId(f) == t.id
      && Receive(W, e, f) == P.Submit(W, e, InSession(t.frame, e.session))
  {
    hide Encode, P.Submit;
    EncodeView(t);
    var fd := Encode(t);
    assert Unpack(fd).id == t.id;
    SizedKeeps(fd);
    FlowFrames(Sized(fd));
  }

  // ----- all frames of a stream

  lemma {:induction false} AllEncoded(ts: seq<Tagged>, count: nat)
    requires count <= MUXER_CONN_ID && forall i :: 0 <= i < |ts| ==> Sendable(ts[i], count)
    ensures AllAddressed(EncodeAll(ts), count) && PongsRead(EncodeAll(ts))
  {
    hide Encode, Addressed, PongReads, Sized, Receive;
    if ts != [] {
      OneFrame(1, ts[0], count, P.Fresh(1));
      SameControl(Encode(ts[0]));
      AllEncoded(ts[1..], count);
    }
  }

  /** What a conn accepts off the stream is what the protocol delivers to it. */
  lemma {:induction false} AcceptedIsSubmitted(W: nat, ts: seq<Tagged>, count: nat, id: nat, e: P.Endpoint)
    requires count <= MUXER_CONN_ID && forall i :: 0 <= i < |ts| ==> Sendable(ts[i], count)
    ensures AcceptAll(W, e, OfConn(AllSized(EncodeAll(ts)), id)) == SubmitAll(W, e, FramesOf(ts, id))
    decreases |ts|
  {
    hide Encode, Sized, Receive, P.Submit, OfConn, InSession, Sendable, WellFormed, Addressed;
    if ts == [] {
      NoFrames(id);
    } else {
      var f, rest, mine := Sized(Encode(ts[0])), AllSized(EncodeAll(ts[1..])), FramesOf(ts[1..], id);
      assert Sendable(ts[0], count);
      OneFrame(W, ts[0], count, e);
      assert EncodeAll(ts)[1..] == EncodeAll(ts[1..]);
      OfConnCons(f, rest, id);
      if ts[0].id == id {
        AcceptCons(W, e, f, OfConn(rest, id));
        assert ([ts[0].frame] + mine)[1..] == mine;
        var o := Receive(W, e, f);
        if o.Next? { AcceptedIsSubmitted(W, ts[1..], count, id, o.next); }
      } else {
        assert [] + OfConn(rest, id) == OfConn(rest, id) && [] + mine == mine;
        AcceptedIsSubmitted(W, ts[1..], count, id, e);
      }
    }
  }

  lemma {:induction false} NoFrames(id: nat)
    ensures OfConn([], id) == []
  {
  }

  /** Every conn accepts its own frames, in the protocol's terms. */
  predicate Submits(W: nat, conns: Conns, ts: seq<Tagged>) {
    forall id :: 0 <= id < |conns| ==> SubmitAll(W, conns[id], FramesOf(ts, id)).Next?
  }

  lemma {:induction false} AcceptsIsSubmits(W: nat, ts: seq<Tagged>, conns: Conns)
    requires 1 <= |conns| <= MUXER_CONN_ID && forall i :: 0 <= i < |ts| ==> Sendable(ts[i], |conns|)
    ensures Accepts(W, conns, EncodeAll(ts)) == Submits(W, conns, ts)
    ensures forall id :: 0 <= id < |conns| ==>
      AcceptAll(W, conns[id], OfConn(AllSized(EncodeAll(ts)), id)) == SubmitAll(W, conns[id], FramesOf(ts, id))
  {
    hide AcceptAll, SubmitAll, OfConn, FramesOf, EncodeAll, AllSized, Sendable;
    forall id | 0 <= id < |conns|
      ensures AcceptAll(W, conns[id], OfConn(AllSized(EncodeAll(ts)), id)) == SubmitAll(W, conns[id], FramesOf(ts, id))
    {
      AcceptedIsSubmitted(W, ts, |conns|, id, conns[id]);
    }
  }

  /**
    For any interleaving of the frames of any number of conns, and conns in any state, the
    reading loop takes the whole stream if and only if the protocol delivers each conn's own
    frames to it without a panic, and then leaves every conn as those deliveries do.
   */
  lemma {:induction false} ByteStreamIsWires(W: nat, ts: seq<Tagged>, conns: Conns)
    requires 1 <= |conns| <= MUXER_CONN_ID && forall i :: 0 <= i < |ts| ==> Sendable(ts[i], |conns|)
    ensures var v := Serve(W, WireBytes(EncodeAll(ts)), conns);
      && (v.stop == EndOfInput <==> Submits(W, conns, ts))
      && (v.stop == EndOfInput ==>
            && v.bytes == |WireBytes(EncodeAll(ts))| && |v.conns| == |conns|
            && forall id :: 0 <= id < |conns| ==> SubmitAll(W, conns[id], FramesOf(ts, id)) == P.Next(v.conns[id]))
  {
    hide Serve, AcceptAll, SubmitAll, OfConn, FramesOf, EncodeAll, AllSized, WireBytes, Sendable, Addressed;
    AllEncoded(ts, |conns|);
    AcceptsIsSubmits(W, ts, conns);
    ServeFrames(W, EncodeAll(ts), conns);
  }

  // ----- while the stream is still being read

  lemma {:induction false} EncodeAllAt(ts: seq<Tagged>, n: nat)
    requires n <= |ts|
    ensures |EncodeAll(ts)| == |ts|
    ensures EncodeAll(ts)[..n] == EncodeAll(ts[..n]) && EncodeAll(ts)[n..] == EncodeAll(ts[n..])
    decreases |ts|
  {
    hide Encode;
    if n == 0 {
      if ts != [] { EncodeAllAt(ts[1..], 0); }
      assert ts[..0] == [] && ts[0..] == ts && EncodeAll(ts)[0..] == EncodeAll(ts);
    } else {
      EncodeAllAt(ts[1..], n - 1);
      assert ts[..n][1..] == ts[1..][..n - 1] && ts[n..] == ts[1..][n - 1..];
      assert EncodeAll(ts)[..n] == [Encode(ts[0])] + EncodeAll(ts[1..])[..n - 1];
      assert EncodeAll(ts)[n..] == EncodeAll(ts[1..])[n - 1..];
    }
  }

  /**
    Wherever a stream that its conns accept is cut, each conn has been delivered the first of
    its own frames, and serving the bytes not yet handed on delivers the others.
   */
  lemma {:induction false} OnlineWires(W: nat, ts: seq<Tagged>, conns: Conns, x: seq<byte>, y: seq<byte>)
    returns (n: nat, part: seq<byte>)
    requires 1 <= |conns| <= MUXER_CONN_ID && forall i :: 0 <= i < |ts| ==> Sendable(ts[i], |conns|)
    requires Submits(W, conns, ts) && x + y == WireBytes(EncodeAll(ts))
    ensures n <= |ts| && x == WireBytes(EncodeAll(ts[..n])) + part && part + y == WireBytes(EncodeAll(ts[n..]))
    ensures var v := Serve(W, x, conns);
      && |v.conns| == |conns| && |Serve(W, part + y, v.conns).conns| == |conns|
      && forall id :: 0 <= id < |conns| ==>
           && P.Next(v.conns[id]) == SubmitAll(W, conns[id], FramesOf(ts[..n], id))
           && P.Next(Serve(W, part + y, v.conns).conns[id]) == SubmitAll(W, conns[id], FramesOf(ts, id))
           && P.Next(Serve(W, part + y, v.conns).conns[id]) == SubmitAll(W, v.conns[id], FramesOf(ts[n..], id))
  {
    hide Sendable, Serve, Encode, EncodeAll, OfConn, AcceptAll, SubmitAll, FramesOf, ReadFrame,
      WireBytes, AllSized, Addressed;
    AllEncoded(ts, |conns|);
    AcceptsIsSubmits(W, ts, conns);
    n, part := MuxerOnline(W, EncodeAll(ts), conns, x, y);
    EncodeAllAt(ts, 0);
    EncodeAllAt(ts, n);
    var now := Serve(W, x, conns).conns;
    AcceptsIsSubmits(W, ts[n..], now);
    AllEncoded(ts[n..], |conns|);
    ServeFrames(W, EncodeAll(ts[n..]), now);
    forall id | 0 <= id < |conns| ensures P.Next(now[id]) == SubmitAll(W, conns[id], FramesOf(ts[..n], id)) {
      ServedIsAccepted(W, x, conns, id);
      AcceptedIsSubmitted(W, ts[..n], |conns|, id, conns[id]);
    }
  }
}
