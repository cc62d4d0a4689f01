/** Frames as bytes: FrameData.WriteTo and FrameData.ReadFrom (framedata.go), and the control frames (muxer.go). */
module Framing {
  import opened Bytes
  import opened Header
  import opened Varint

  type FrameBytes = seq<byte>

  // ----- writing one frame

  /** What WriteTo accepts and the reader can find the end of. */
  predicate WellFormed(fd: FrameBytes) {
    |fd| >= 4 && if HasPayload(fd) then |fd| <= FRAME_MAX_SIZE else |fd| == 4
  }

  /** The frame with its size value set to its payload length, where it has a payload. */
  function Sized(fd: FrameBytes): FrameBytes {
    if |fd| >= 4 && HasPayload(fd) then [((|fd| - 4) / 256) % 256, (|fd| - 4) % 256] + fd[2..] else fd
  }

  lemma SizedKeeps(fd: FrameBytes)
    requires WellFormed(fd)
    ensures |Sized(fd)| == |fd| && Sized(fd)[4..] == fd[4..] && WellFormed(Sized(fd))
    ensures Unpack(Sized(fd)) == if HasPayload(fd) then Unpack(fd).(size := |fd| - 4) else Unpack(fd)
    ensures Complete(Sized(fd))
  {
  }

  // ----- reading one frame

  datatype ReadError = NoError | ShortRead | FrameTooSmall | FrameTooBig

  datatype ReadResult = ReadResult(fd: FrameBytes, rest: seq<byte>, err: ReadError)

  /** io.ReadFull of the bytes missing up to `end`, from what the reader has. */
  function Pull(fd: FrameBytes, end: nat, avail: seq<byte>): (r: ReadResult)
    requires |fd| <= end
    ensures fd + avail == r.fd + r.rest && fd <= r.fd
    ensures if r.err == ShortRead then r.rest == [] else r.err == NoError && |r.fd| == end
  {
    var want := end - |fd|;
    if want <= |avail| then ReadResult(fd + avail[..want], avail[want..], NoError)
    else ReadResult(fd + avail, [], ShortRead)
  }

  /** FrameData.ReadFrom: continues a frame that may be partly read already. */
  function ReadFrame(fd: FrameBytes, avail: seq<byte>): (r: ReadResult)
    ensures fd + avail == r.fd + r.rest && fd <= r.fd
    ensures if r.err == ShortRead then r.rest == [] else |r.fd| >= 4
  {
    var h := if |fd| < 4 then Pull(fd, 4, avail) else ReadResult(fd, avail, NoError);
    if h.err != NoError || !HasPayload(h.fd) then h
    else
      var end := 4 + SizeValue(h.fd);
      if end < |h.fd| then h.(err := FrameTooSmall)
      else if end > FRAME_MAX_SIZE then h.(err := FrameTooBig)
      else Pull(h.fd, end, h.rest)
  }

  /** A frame whose length is the one its header gives. */
  predicate Complete(fd: FrameBytes) {
    |fd| >= 4 && |fd| <= FRAME_MAX_SIZE && |fd| == 4 + if HasPayload(fd) then SizeValue(fd) else 0
  }

  /** Only the first four bytes of a frame are looked at. */
  lemma SameHeader(f: FrameBytes, g: FrameBytes)
    requires |f| >= 4 && |g| >= 4 && f[..4] == g[..4]
    ensures HasPayload(f) == HasPayload(g) && SizeValue(f) == SizeValue(g)
  {
    assert forall i :: 0 <= i < 4 ==> f[i] == f[..4][i] && g[i] == g[..4][i];
  }

  /**
    From any point inside a complete frame, ReadFrom either finishes exactly that frame
    and leaves what follows, or takes all there is and asks for more.
   */
  lemma ResumeOnce(frame: FrameBytes, fd: FrameBytes, avail: seq<byte>)
    requires Complete(frame) && fd <= frame
    ensures frame <= fd + avail ==>
      ReadFrame(fd, avail) == ReadResult(frame, (fd + avail)[|frame|..], NoError)
    ensures fd + avail < frame ==> ReadFrame(fd, avail) == ReadResult(fd + avail, [], ShortRead)
  {
    var all := fd + avail;
    if |all| >= 4 && (frame <= all || all < frame) {
      var h := if |fd| < 4 then Pull(fd, 4, avail) else ReadResult(fd, avail, NoError);
      assert h.fd + h.rest == all && h.err == NoError && |h.fd| >= 4;
      assert h.fd[..4] == all[..4] == frame[..4];
      SameHeader(h.fd, frame);
      assert h.fd <= frame || h.fd == frame;
      if HasPayload(frame) {
        assert ReadFrame(fd, avail) == Pull(h.fd, |frame|, h.rest);
        if frame <= all {
          assert h.fd + h.rest[..|frame| - |h.fd|] == all[..|frame|];
          assert h.rest[|frame| - |h.fd|..] == all[|frame|..];
        }
      }
    }
  }

  /**
    What ReadFrom reports, for any bytes: with less than a header it asks for more; a frame that
    already holds more than its header says is too small, one whose header says more than
    FrameMaxSize is too big, and neither takes any byte beyond the header; otherwise it asks
    for more exactly when the frame is not complete.
   */
  lemma ReadErrors(fd: FrameBytes, avail: seq<byte>)
    ensures var r, all := ReadFrame(fd, avail), fd + avail;
      && (|all| < 4 ==> r == ReadResult(all, [], ShortRead))
      && (|all| >= 4 && !HasPayload(all) ==> r.err == NoError && |r.fd| == (if |fd| < 4 then 4 else |fd|))
      && (|all| >= 4 && HasPayload(all) ==>
            var held, end := if |fd| < 4 then 4 else |fd|, 4 + SizeValue(all);
            && (r.err == FrameTooSmall <==> end < held)
            && (r.err == FrameTooBig <==> end >= held && SizeValue(all) > FRAME_MAX_PAYLOAD)
            && (r.err == ShortRead <==> held <= end <= FRAME_MAX_SIZE && |all| < end)
            && (r.err == NoError ==> r.fd == all[..end])
            && (r.err == FrameTooSmall || r.err == FrameTooBig ==> r.fd == all[..held]))
  {
    var all := fd + avail;
    if |all| >= 4 {
      var h := if |fd| < 4 then Pull(fd, 4, avail) else ReadResult(fd, avail, NoError);
      assert h.fd + h.rest == all && h.err == NoError && h.fd == all[..|h.fd|];
      SameHeader(h.fd, all);
      var end := 4 + SizeValue(all);
      if HasPayload(all) && |h.fd| <= end <= FRAME_MAX_SIZE {
        var p := Pull(h.fd, end, h.rest);
        assert p.fd + p.rest == all && p.fd == all[..|p.fd|];
      }
    }
  }

  // ----- resuming over any split of the bytes

  datatype Resumed = Resumed(fd: FrameBytes, consumed: nat, done: bool)

  /** Calls ReadFrom once per chunk, each call seeing only its chunk, until one succeeds. */
  function ReadChunks(fd: FrameBytes, chunks: seq<seq<byte>>): Resumed
    decreases |chunks|
  {
    if chunks == [] then Resumed(fd, 0, false)
    else
      var r := ReadFrame(fd, chunks[0]);
      var n := |r.fd| - |fd|;
      if r.err == ShortRead then
        var t := ReadChunks(r.fd, chunks[1..]);
        t.(consumed := n + t.consumed)
      else Resumed(r.fd, n, r.err == NoError)
  }

  lemma {:induction false} ResumeFrom(frame: FrameBytes, fd: FrameBytes, chunks: seq<seq<byte>>)
    requires Complete(frame) && fd < frame && frame <= fd + Flatten(chunks)
    ensures ReadChunks(fd, chunks) == Resumed(frame, |frame| - |fd|, true)
    decreases |chunks|
  {
    hide ReadFrame, Complete;
    var c, tail := chunks[0], Flatten(chunks[1..]);
    var all := fd + c;
    assert fd + Flatten(chunks) == all + tail;
    ResumeOnce(frame, fd, c);
    if |all| >= |frame| {
      assert frame == (all + tail)[..|frame|] == all[..|frame|];
    } else {
      assert all == (all + tail)[..|all|] == frame[..|all|];
      ResumeFrom(frame, all, chunks[1..]);
    }
  }

  /** However its bytes are split, a frame is built the same, and no byte past its end is consumed. */
  lemma ResumableReading(frame: FrameBytes, rest: seq<byte>, chunks: seq<seq<byte>>)
    requires Complete(frame) && Flatten(chunks) == frame + rest
    ensures ReadChunks([], chunks) == Resumed(frame, |frame|, true)
    ensures ReadFrame([], frame + rest) == ReadResult(frame, rest, NoError)
  {
    assert [] + (frame + rest) == frame + rest;
    ResumeFrom(frame, [], chunks);
    ResumeOnce(frame, [], frame + rest);
    assert (frame + rest)[|frame|..] == rest;
  }

  // ----- the muxer

  /** The control frames that do not end the reading loop: pings, and pongs whose payload can be read. */
  predicate IsPing(fd: FrameBytes)
    requires |fd| >= 4
  {
    IsMuxerControl(fd) && !HasFlow(fd) && HasBody(fd) && !HasHead(fd)
  }

  predicate IsPong(fd: FrameBytes)
    requires |fd| >= 4
  {
    IsMuxerControl(fd) && !HasFlow(fd) && HasBody(fd) && HasHead(fd)
  }

  /** The pong handler reads an integer from the payload, and panics if there is none. */
  predicate PongReads(fd: FrameBytes)
    requires |fd| >= 4
  {
    DecodeInt64(fd[4..]).Some?
  }

  /** The pong that answers a ping: the same frame with the head flag set. */
  function PongOf(fd: FrameBytes): FrameBytes
    requires |fd| >= 4 && IsPing(fd)
  {
    fd[2 := 96 + fd[2] % 32]
  }

  lemma PongAnswers(fd: FrameBytes)
    requires |fd| >= 4 && IsPing(fd)
    ensures |PongOf(fd)| == |fd| && PongOf(fd)[4..] == fd[4..]
    ensures Unpack(PongOf(fd)) == Unpack(fd).(head := true) && IsPong(PongOf(fd))
  {
    Digits(0, 1, 1, fd[2] % 32);
  }

  /** The frames of one conn, in order. */
  function OfConn(fs: seq<FrameBytes>, id: nat): seq<FrameBytes> {
    if fs == [] then []
    else (if |fs[0]| >= 4 && ConnId(fs[0]) == id then [fs[0]] else []) + OfConn(fs[1..], id)
  }

  /** The bytes Muxer.WriteTo puts on the stream. */
  function WireBytes(fs: seq<FrameBytes>): seq<byte> {
    if fs == [] then [] else Sized(fs[0]) + WireBytes(fs[1..])
  }

  function AllSized(fs: seq<FrameBytes>): seq<FrameBytes> {
    if fs == [] then [] else [Sized(fs[0])] + AllSized(fs[1..])
  }

  /** The pongs owed for the pings among some frames. */
  function Pongs(fs: seq<FrameBytes>): seq<FrameBytes> {
    if fs == [] then []
    else (if |Sized(fs[0])| >= 4 && IsPing(Sized(fs[0])) then [PongOf(Sized(fs[0]))] else []) + Pongs(fs[1..])
  }

  /** A sized frame is read back off the front of any stream. */
  lemma SizedReads(fd: FrameBytes, rest: seq<byte>)
    requires WellFormed(fd)
    ensures ReadFrame([], Sized(fd) + rest) == ReadResult(Sized(fd), rest, NoError)
  {
    var f := Sized(fd);
    SizedKeeps(fd);
    assert Flatten([f + rest]) == f + rest by { assert [f + rest][1..] == [] && (f + rest) + [] == f + rest; }
    ResumableReading(f, rest, [f + rest]);
  }

  /** Setting the size does not change who a frame is for, nor its payload. */
  lemma SameControl(fd: FrameBytes)
    requires WellFormed(fd)
    ensures var f := Sized(fd);
      && |f| >= 4 && ConnId(f) == ConnId(fd)
      && IsPing(f) == IsPing(fd) && IsPong(f) == IsPong(fd) && PongReads(f) == PongReads(fd)
  {
    hide DecodeInt64;
    var f := Sized(fd);
    SizedKeeps(fd);
    assert Unpack(f).id == Unpack(fd).id && Unpack(f).flow == Unpack(fd).flow
      && Unpack(f).body == Unpack(fd).body && Unpack(f).head == Unpack(fd).head;
  }

  /** The frame Ping sends: the time it is sent at. */
  function PingAt(t: int): FrameBytes
    requires IsInt64(t)
  {
    Pack(View(0, false, true, false, MUXER_CONN_ID)) + EncodeInt64(t)
  }

  lemma FlagsOf(fd: FrameBytes)
    requires |fd| >= 4
    ensures var v := Unpack(fd);
      && IsPing(fd) == (v.id == MUXER_CONN_ID && !v.flow && v.body && !v.head)
      && IsPong(fd) == (v.id == MUXER_CONN_ID && !v.flow && v.body && v.head)
      && HasPayload(fd) == (!v.flow && (v.body || v.head)) && SizeValue(fd) == v.size
  {
  }

  lemma AlreadySized(fd: FrameBytes)
    requires Complete(fd)
    ensures WellFormed(fd) && Sized(fd) == fd
  {
  }

  lemma OfConnCons(f: FrameBytes, fs: seq<FrameBytes>, id: nat)
    ensures OfConn([f] + fs, id) == (if |f| >= 4 && ConnId(f) == id then [f] else []) + OfConn(fs, id)
  {
    assert ([f] + fs)[1..] == fs;
  }

  lemma LongEnough(fd: FrameBytes)
    requires WellFormed(fd)
    ensures |Sized(fd)| == |fd| >= 4
  {
  }
}
