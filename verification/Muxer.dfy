/** The loops of muxer.go and framedata.go that move frames to and from a byte stream. */
module MuxerLoops {
  import opened Bytes
  import opened Header
  import opened Framing
  import opened Serving
  import FrameParsing
  import P = Protocol
  import C = ConnObject

  /** An io.Writer: it reports an error if it takes only part of what it is given, and may do so even after all. */
  class Sink {
    var out: seq<byte>
    var errors: nat  // how often it has reported one

    constructor ()
      ensures out == [] && errors == 0
    {
      out, errors := [], 0;
    }

    method Write(p: seq<byte>) returns (m: nat, ok: bool)
      modifies this
      ensures m <= |p| && (ok ==> m == |p|)
      ensures out == old(out) + p[..m] && errors == old(errors) + (if ok then 0 else 1)
    {
      m :| 0 <= m <= |p|;
      ok := *;
      if m < |p| { ok := false; }
      if !ok { errors := errors + 1; }
      out := out + p[..m];
    }
  }

  /** An io.Reader that ends. */
  class Source {
    var data: seq<byte>

    constructor (s: seq<byte>)
      ensures data == s
    {
      data := s;
    }

    /** io.ReadFull */
    method ReadFull(want: nat) returns (p: seq<byte>, ok: bool)
      modifies this
      ensures ok == (want <= |old(data)|) && p == (if ok then old(data)[..want] else old(data))
      ensures data == old(data)[|p|..]
    {
      ok := want <= |data|;
      p := if ok then data[..want] else data;
      data := data[|p|..];
    }
  }

  // ----- FrameData.WriteTo and FrameData.ReadFrom

  datatype WriteResult = Written | TooBig | WriterFailed

  /** An incomplete header panics; the loop ends because a short write is an error. */
  method WriteTo(fd: FrameBytes, w: Sink) returns (n: nat, r: WriteResult)
    requires |fd| >= 4
    modifies w
    ensures HasPayload(fd) && |fd| > FRAME_MAX_SIZE ==> r == TooBig && n == 0 && w.out == old(w.out)
    ensures WellFormed(fd) ==>
      && n <= |fd| && w.out == old(w.out) + Sized(fd)[..n]
      && (r == Written ==> n == |fd|) && r != TooBig
      && w.errors == old(w.errors) + (if r == WriterFailed then 1 else 0)
  {
    var frame := fd;
    if HasPayload(fd) {
      if |fd| - 4 > FRAME_MAX_PAYLOAD { return 0, TooBig; }
      frame := [((|fd| - 4) / 256) % 256, (|fd| - 4) % 256] + fd[2..];
    }
    n := 0;
    while n < |frame|
      invariant n <= |frame| && w.out == old(w.out) + frame[..n] && w.errors == old(w.errors)
      decreases |frame| - n
    {
      var m, ok := w.Write(frame[n..]);
      assert frame[..n] + frame[n..][..m] == frame[..n + m];
      n := n + m;
      if !ok { return n, WriterFailed; }
    }
    r := Written;
  }

  method ReadFrom(fd: FrameBytes, r: Source) returns (frame: FrameBytes, n: nat, err: ReadError)
    modifies r
    ensures ReadFrame(fd, old(r.data)) == ReadResult(frame, r.data, err)
    ensures n == |frame| - |fd|
  {
    frame, n, err := fd, 0, NoError;
    if |frame| < 4 {
      var p, ok := r.ReadFull(4 - |frame|);
      frame, n := frame + p, |p|;
      if !ok { return frame, n, ShortRead; }
    }
    if HasPayload(frame) {
      var end := 4 + SizeValue(frame);
      if end < |frame| { return frame, n, FrameTooSmall; }
      if end > FRAME_MAX_SIZE { return frame, n, FrameTooBig; }
      var p, ok := r.ReadFull(end - |frame|);
      frame, n := frame + p, n + |p|;
      if !ok { err := ShortRead; }
    }
  }

  // ----- the muxer loops

  /** Serving the whole input is what was done so far, followed by serving the rest from where the conns are. */
  ghost predicate ServedSoFar(whole: Served, frames: seq<FrameBytes>, pongs: seq<FrameBytes>, n: nat, rest: Served) {
    whole == Served(rest.conns, frames + rest.frames, pongs + rest.pongs, n + rest.bytes, rest.stop)
  }

  lemma {:induction false} ServeStart(W: nat, s: seq<byte>, conns: Conns)
    ensures ServedSoFar(Serve(W, s, conns), [], [], 0, Serve(W, s, conns))
  {
    hide Serve;
    var t := Serve(W, s, conns);
    assert [] + t.frames == t.frames && [] + t.pongs == t.pongs;
  }

  lemma {:induction false} ServeEnds(W: nat, whole: Served, frames: seq<FrameBytes>, pongs: seq<FrameBytes>, n: nat,
                                     s: seq<byte>, conns: Conns, why: Stop)
    requires ServedSoFar(whole, frames, pongs, n, Serve(W, s, conns))
    requires var r := ReadFrame([], s);
      if r.err == ShortRead then why == EndOfInput
      else if r.err != NoError then why == BadSize
      else React(W, r.fd, conns) == Stops(why)
    ensures whole == Served(conns, frames, pongs, n + |ReadFrame([], s).fd|, why)
  {
    hide ReadFrame, React;
    assert frames + [] == frames && pongs + [] == pongs;
  }

  lemma {:induction false} ServeGoesOn(W: nat, whole: Served, frames: seq<FrameBytes>, pongs: seq<FrameBytes>, n: nat,
                                       s: seq<byte>, conns: Conns)
    requires ServedSoFar(whole, frames, pongs, n, Serve(W, s, conns))
    requires ReadFrame([], s).err == NoError && React(W, ReadFrame([], s).fd, conns).Goes?
    ensures var r := ReadFrame([], s);
      var o := React(W, r.fd, conns);
      ServedSoFar(whole, frames + o.frames, pongs + o.pongs, n + |r.fd|, Serve(W, r.rest, o.conns))
  {
    hide ReadFrame, React;
    var r := ReadFrame([], s);
    var o := React(W, r.fd, conns);
    var t := Serve(W, r.rest, o.conns);
    assert frames + (o.frames + t.frames) == (frames + o.frames) + t.frames;
    assert pongs + (o.pongs + t.pongs) == (pongs + o.pongs) + t.pongs;
  }

  class Muxer {
    const W: nat
    var lookup: seq<C.Conn>  // connLookup, by conn ID
    var writeCh: seq<FrameBytes>

    constructor (count: nat, window: nat)
      requires 1 <= count <= MUXER_CONN_ID && 1 <= window <= P.MAX_SEND_WINDOW
      ensures Valid() && fresh(lookup) && |lookup| == count && W == window && writeCh == []
      ensures forall id :: 0 <= id < count ==> lookup[id].State() == P.Fresh(window)
    {
      W, lookup, writeCh := window, [], [];
      new;
      for i := 0 to count
        invariant |lookup| == i && writeCh == [] && fresh(lookup)
        invariant forall j :: 0 <= j < i ==>
          lookup[j].W == W && lookup[j].Calm() && lookup[j].State() == P.Fresh(window)
        invariant forall j, k :: 0 <= j < k < i ==> lookup[j] != lookup[k]
      {
        var conn := new C.Conn(window);
        lookup := lookup + [conn];
      }
    }

    /** The conns are distinct, have one window size, and none is in the middle of Close. */
    ghost predicate Valid()
      reads this, lookup
    {
      && 1 <= |lookup| <= MUXER_CONN_ID
      && (forall i :: 0 <= i < |lookup| ==> lookup[i].W == W && lookup[i].Calm())
      && (forall i, j :: 0 <= i < j < |lookup| ==> lookup[i] != lookup[j])
    }

    /** The states of the conns. */
    ghost predicate Holds(conns: Conns)
      reads this, lookup
    {
      |conns| == |lookup| && forall i :: 0 <= i < |conns| ==> lookup[i].State() == conns[i]
    }

    /** The body of the read loop once a frame is read. */
    method Dispatch(fd: FrameBytes, ghost conns: Conns) returns (stop: Option<Stop>)
      requires |fd| >= 4 && Valid() && Holds(conns)
      modifies this`writeCh, lookup
      ensures match React(W, fd, conns)
              case Stops(why) =>
                && stop == Some(why) && writeCh == old(writeCh) && why != SubmitWaits
                && (!why.SubmitPanic? ==> Valid() && Holds(conns))
              case Goes(conns', _, pongs) => stop == None && writeCh == old(writeCh) + pongs && Valid() && Holds(conns')
    {
      hide Receive, ConnId, PongOf;
      stop := None;
      if IsMuxerControl(fd) {
        if IsPing(fd) {
          writeCh := writeCh + [PongOf(fd)];
        } else if IsPong(fd) {
          var fp := new FrameParsing.FrameParser(fd[4..]);
          var sent := fp.ReadInt64();
          if sent == None { stop := Some(PongPanic); }
        } else {
          stop := Some(ControlError);
        }
      } else {
        var id := ConnId(fd);
        if id >= |lookup| { return Some(IdOutOfRange); }
        var panic := lookup[id].SubmitFrame(fd);
        if panic.Some? { stop := Some(SubmitPanic(panic.value)); }
      }
    }

    /**
      Reads frames until the input ends, or a frame is refused, and submits each to the conn of
      its ID. `conns` are the states of the conns at the start.
     */
    method ReadLoop(r: Source, ghost conns: Conns) returns (n: nat, stop: Stop)
      requires Valid() && Holds(conns)
      modifies this`writeCh, lookup, r
      ensures var v := Serve(W, old(r.data), conns);
        && n == v.bytes && stop == v.stop && writeCh == old(writeCh) + v.pongs && stop != SubmitWaits
        && (!stop.SubmitPanic? ==> Valid() && Holds(v.conns))
    {
      hide ReadFrame, Serve, React;
      ghost var whole, now := Serve(W, r.data, conns), conns;
      ghost var frames: seq<FrameBytes>, pongs: seq<FrameBytes> := [], [];
      n := 0;
      ServeStart(W, r.data, conns);
      while true
        invariant ServedSoFar(whole, frames, pongs, n, Serve(W, r.data, now))
        invariant writeCh == old(writeCh) + pongs && Valid() && Holds(now)
        decreases |r.data|
      {
        ghost var before := r.data;
        var fd, m, err := ReadFrom([], r);
        if err == ShortRead {
          ServeEnds(W, whole, frames, pongs, n, before, now, EndOfInput);
          return n + m, EndOfInput;
        }
        if err != NoError {
          ServeEnds(W, whole, frames, pongs, n, before, now, BadSize);
          return n + m, BadSize;
        }
        var o := Dispatch(fd, now);
        if o.Some? {
          ServeEnds(W, whole, frames, pongs, n, before, now, o.value);
          return n + m, o.value;
        }
        ServeGoesOn(W, whole, frames, pongs, n, before, now);
        ghost var reaction := React(W, fd, now);
        n, now, frames, pongs := n + m, reaction.conns, frames + reaction.frames, pongs + reaction.pongs;
      }
    }

    /** Writes the frames arriving on the write channel, until one cannot be written. */
    method WriteLoop(fs: seq<FrameBytes>, w: Sink) returns (n: nat, ok: bool)
      requires forall i :: 0 <= i < |fs| ==> WellFormed(fs[i])
      modifies w
      ensures ok <==> w.errors == old(w.errors)
      ensures ok ==> w.out == old(w.out) + WireBytes(fs) && n == |WireBytes(fs)|
      ensures old(w.out) <= w.out <= old(w.out) + WireBytes(fs) && n == |w.out| - |old(w.out)|
    {
      hide Sized, WellFormed;
      n := 0;
      for i := 0 to |fs|
        invariant w.out + WireBytes(fs[i..]) == old(w.out) + WireBytes(fs) && n == |w.out| - |old(w.out)|
        invariant old(w.out) <= w.out && w.errors == old(w.errors)
      {
        ghost var before := w.out;
        AnyFrameLongEnough(fs[i]);
        var m, r := WriteTo(fs[i], w);
        n := n + m;
        assert fs[i..][1..] == fs[i + 1..];
        ghost var f, tail := Sized(fs[i]), WireBytes(fs[i + 1..]);
        assert before + (f + tail) == (before + f) + tail;
        if r != Written {
          assert (before + f[..m]) + (f[m..] + tail) == before + (f + tail);
          return n, false;
        }
        assert f[..m] == f;
      }
      assert fs[|fs|..] == [];
      ok := true;
    }
  }

  lemma AnyFrameLongEnough(fd: FrameBytes)
    requires WellFormed(fd)
    ensures |fd| >= 4 && |Sized(fd)| == |fd|
  {
  }
}
