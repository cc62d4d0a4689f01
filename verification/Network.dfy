/**
  Two muxers, any number of conns, one byte stream in each direction. Conns act as in
  the protocol model, and what they hand over is appended to the stream as bytes; the
  muxers ping each other; each reading loop takes the next frame off its stream and
  submits it. Nothing ever breaks, and each conn by itself makes a run of the protocol.
 */
module Network {
  import opened Bytes
  import opened Header
  import opened Varint
  import opened Framing
  import opened Serving
  import opened Wire
  import opened Protocol
  import T = ProtocolTheorems
  import F = ProtocolFlow
  import C = ProtocolCalls

  type Time = t: int | IsInt64(t)

  // ----- steps

  datatype Net = Net(a: Conns, b: Conns, ab: seq<byte>, ba: seq<byte>)

  datatype Deed =
    | Own(id: nat, action: Action, head: bool, body: bool)  // a step of a conn; the flags of the frame it sends, if any
    | Ping(time: Time)
    | ReadNext                                               // one round of the reading loop

  datatype Turn = Turn(left: bool, deed: Deed)

  datatype NetOutcome = Runs(net: Net) | Waits | Breaks(stop: Stop)

  /** What is on a stream, frame by frame. */
  datatype Item = ConnFrame(t: Tagged) | PingItem(time: Time) | PongItem(time: Time)

  function ItemFrame(i: Item): FrameBytes {
    match i
    case ConnFrame(t) => Encode(t)
    case PingItem(time) => PingAt(time)
    case PongItem(time) => OwnPingReturns(time); PongOf(Sized(PingAt(time)))
  }

  function ItemFrames(xs: seq<Item>): seq<FrameBytes> {
    if xs == [] then [] else [ItemFrame(xs[0])] + ItemFrames(xs[1..])
  }

  function Tag(id: ConnNumber, frames: seq<Frame>, head: bool, body: bool): seq<Item> {
    if frames == [] then [] else [ConnFrame(Tagged(id, frames[0], head, body))] + Tag(id, frames[1..], head, body)
  }

  function StreamBytes(xs: seq<Item>): seq<byte> { WireBytes(ItemFrames(xs)) }

  /** One step of the left side. */
  function LeftTurn(W: Windows, n: Net, d: Deed): NetOutcome {
    match d
    case Own(id, a, head, body) =>
      if id >= |n.a| || |n.a| > MUXER_CONN_ID || a == Deliver || !(head || body) then Waits
      else (match Act(W.a, STRICT, n.a[id], a)
        case Next(m) => Runs(n.(a := n.a[id := m.e], ab := n.ab + StreamBytes(Tag(id, m.frames, head, body))))
        case Blocked => Waits
        case Panicked(p) => Breaks(SubmitPanic(p)))
    case Ping(time) => Runs(n.(ab := n.ab + Sized(PingAt(time))))
    case ReadNext =>
      var r := ReadFrame([], n.ba);
      if r.err == ShortRead then Waits
      else if r.err != NoError then Breaks(BadSize)
      else match React(W.a, r.fd, n.a)
        case Stops(stop) => if stop == SubmitWaits then Waits else Breaks(stop)
        case Goes(conns, _, pongs) => Runs(Net(conns, n.b, n.ab + WireBytes(pongs), r.rest))
  }

  function SwapNet(n: Net): Net { Net(n.b, n.a, n.ba, n.ab) }

  function NetStep(W: Windows, n: Net, t: Turn): NetOutcome {
    if t.left then LeftTurn(W, n, t.deed)
    else match LeftTurn(Flip(W), SwapNet(n), t.deed)
      case Runs(n') => Runs(SwapNet(n'))
      case Waits => Waits
      case Breaks(stop) => Breaks(stop)
  }

  /** A step that has to wait where it is scheduled is skipped. */
  function NetRun(W: Windows, n: Net, schedule: seq<Turn>): NetOutcome
    decreases |schedule|
  {
    if schedule == [] then Runs(n)
    else match NetStep(W, n, schedule[0])
      case Runs(n') => NetRun(W, n', schedule[1..])
      case Waits => NetRun(W, n, schedule[1..])
      case Breaks(stop) => Breaks(stop)
  }

  function NetInit(W: Windows, count: nat): Net {
    Net(seq(count, _ => Fresh(W.a)), seq(count, _ => Fresh(W.b)), [], [])
  }

  // ----- the projection to one conn

  /** The frames of one conn that are still on a stream. */
  function Pending(xs: seq<Item>, id: nat): seq<Frame> {
    if xs == [] then []
    else (if xs[0].ConnFrame? && xs[0].t.id == id then [xs[0].t.frame] else []) + Pending(xs[1..], id)
  }

  /** The two ends of one conn, and its frames on the streams. */
  function Conn(n: Net, xs: seq<Item>, ys: seq<Item>, id: nat): System
    requires id < |n.a| && id < |n.b|
  {
    System(n.a[id], n.b[id], Pending(xs, id), Pending(ys, id))
  }

  predicate AllOk(xs: seq<Item>, count: nat) {
    forall i :: 0 <= i < |xs| && xs[i].ConnFrame? ==> Sendable(xs[i].t, count)
  }

  /** The streams are the bytes of xs and ys, and each conn is in a state its protocol can reach. */
  ghost predicate Projects(W: Windows, n: Net, xs: seq<Item>, ys: seq<Item>) {
    && 1 <= |n.a| == |n.b| <= MUXER_CONN_ID
    && n.ab == StreamBytes(xs) && n.ba == StreamBytes(ys) && AllOk(xs, |n.a|) && AllOk(ys, |n.a|)
    && forall id :: 0 <= id < |n.a| ==> T.Reachable(W, Conn(n, xs, ys, id))
  }

  // ----- streams

  lemma {:induction false} StreamConcat(xs: seq<Item>, more: seq<Item>)
    ensures StreamBytes(xs + more) == StreamBytes(xs) + StreamBytes(more)
  {
    hide ItemFrame, Sized;
    if xs == [] {
      assert xs + more == more;
    } else {
      assert (xs + more)[1..] == xs[1..] + more;
      StreamConcat(xs[1..], more);
      FrontBytes(xs);
      FrontBytes(xs + more);
    }
  }

  lemma {:induction false} FrontBytes(xs: seq<Item>)
    requires xs != []
    ensures StreamBytes(xs) == Sized(ItemFrame(xs[0])) + StreamBytes(xs[1..])
  {
    hide ItemFrame, Sized;
    assert ItemFrames(xs)[1..] == ItemFrames(xs[1..]);
  }

  lemma {:induction false} OneItem(i: Item)
    ensures StreamBytes([i]) == Sized(ItemFrame(i))
  {
    hide ItemFrame, Sized;
    FrontBytes([i]);
    assert [i][1..] == [];
    assert Sized(ItemFrame(i)) + [] == Sized(ItemFrame(i));
  }

  lemma {:induction false} PendingConcat(xs: seq<Item>, more: seq<Item>, id: nat)
    ensures Pending(xs + more, id) == Pending(xs, id) + Pending(more, id)
  {
    if xs == [] {
      assert xs + more == more;
    } else {
      assert (xs + more)[1..] == xs[1..] + more;
      PendingConcat(xs[1..], more, id);
      var head := if xs[0].ConnFrame? && xs[0].t.id == id then [xs[0].t.frame] else [];
      assert head + (Pending(xs[1..], id) + Pending(more, id)) == (head + Pending(xs[1..], id)) + Pending(more, id);
    }
  }

  lemma {:induction false} PendingCons(i: Item, xs: seq<Item>, id: nat)
    ensures Pending([i] + xs, id) == (if i.ConnFrame? && i.t.id == id then [i.t.frame] else []) + Pending(xs, id)
  {
    assert ([i] + xs)[1..] == xs;
  }

  lemma {:induction false} PendingTag(id: ConnNumber, frames: seq<Frame>, head: bool, body: bool, other: nat)
    ensures Pending(Tag(id, frames, head, body), other) == if other == id then frames else []
    decreases |frames|
  {
    if frames != [] {
      var first, rest := ConnFrame(Tagged(id, frames[0], head, body)), Tag(id, frames[1..], head, body);
      PendingTag(id, frames[1..], head, body, other);
      PendingCons(first, rest, other);
    }
  }

  lemma {:induction false} TagOk(id: ConnNumber, frames: seq<Frame>, head: bool, body: bool, count: nat)
    requires id < count && (head || body) && T.FramesFit(frames)
    ensures AllOk(Tag(id, frames, head, body), count)
    decreases |frames|
  {
    if frames != [] { TagOk(id, frames[1..], head, body, count); }
  }

  // ----- one step of one conn

  lemma {:induction false} ReachableStep(W: Windows, s: System, m: Move)
    requires T.Reachable(W, s)
    ensures !Step(W, STRICT, s, m).Panicked?
    ensures Step(W, STRICT, s, m).Next? ==> T.Reachable(W, Step(W, STRICT, s, m).next)
  {
    hide Step;
    T.ReachableInv(W, s);
    T.StepKeeps(W, s, m);
    if Step(W, STRICT, s, m).Next? {
      var schedule :| Run(W, STRICT, Init(W), schedule) == Next(s);
      C.RunConcat(W, STRICT, Init(W), schedule, s, [m]);
      assert [m][1..] == [];
      assert Run(W, STRICT, Init(W), schedule + [m]) == Step(W, STRICT, s, m);
    }
  }

  /** The other conns do not notice. */
  lemma {:induction false} OthersSame(W: Windows, n: Net, xs: seq<Item>, ys: seq<Item>,
                                      n': Net, xs': seq<Item>, ys': seq<Item>, id: nat)
    requires Projects(W, n, xs, ys) && id < |n.a| && n'.b == n.b && |n'.a| == |n.a| && n'.a == n.a[id := n'.a[id]]
    requires n'.ab == StreamBytes(xs') && n'.ba == StreamBytes(ys') && AllOk(xs', |n.a|) && AllOk(ys', |n.a|)
    requires forall k :: 0 <= k < |n.a| && k != id ==>
      Pending(xs', k) == Pending(xs, k) && Pending(ys', k) == Pending(ys, k)
    requires T.Reachable(W, Conn(n', xs', ys', id))
    ensures Projects(W, n', xs', ys')
  {
    hide T.Reachable, StreamBytes, AllOk, Pending;
    forall k | 0 <= k < |n.a| ensures T.Reachable(W, Conn(n', xs', ys', k)) {
      if k != id { assert Conn(n', xs', ys', k) == Conn(n, xs, ys, k); }
    }
  }

  lemma {:induction false} OwnTurn(W: Windows, n: Net, xs: seq<Item>, ys: seq<Item>, d: Deed) returns (xs': seq<Item>)
    requires Projects(W, n, xs, ys) && d.Own?
    ensures match LeftTurn(W, n, d)
            case Runs(n') => Projects(W, n', xs', ys)
            case Waits => true
            case Breaks(_) => false
  {
    hide T.Reachable, StreamBytes, Act, AllOk, Pending, T.FramesFit;
    xs' := xs;
    var id := d.id;
    if id < |n.a| && d.action != Deliver && (d.head || d.body) {
      var s := Conn(n, xs, ys, id);
      ReachableStep(W, s, Move(true, d.action));
      var o := Act(W.a, STRICT, n.a[id], d.action);
      if o.Next? {
        var m := o.next;
        var more := Tag(id, m.frames, d.head, d.body);
        xs' := xs + more;
        StreamConcat(xs, more);
        SentOk(W, n, s, d, m);
        AllOkConcat(xs, more, |n.a|);
        forall k | 0 <= k < |n.a|
          ensures Pending(xs', k) == if k == id then Pending(xs, k) + m.frames else Pending(xs, k)
        {
          PendingConcat(xs, more, k);
          PendingTag(id, m.frames, d.head, d.body, k);
          assert Pending(xs, k) + [] == Pending(xs, k);
        }
        OthersSame(W, n, xs, ys, LeftTurn(W, n, d).net, xs', ys, id);
      }
    }
  }

  lemma {:induction false} AllOkConcat(xs: seq<Item>, more: seq<Item>, count: nat)
    requires AllOk(xs, count) && AllOk(more, count)
    ensures AllOk(xs + more, count)
  {
  }

  /** What a conn sends can be framed. */
  lemma {:induction false} SentOk(W: Windows, n: Net, s: System, d: Deed, m: Emit)
    requires d.Own? && d.id < |n.a| <= MUXER_CONN_ID && d.action != Deliver && (d.head || d.body)
    requires T.Reachable(W, System(m.e, s.b, s.ab + m.frames, s.ba)) && Act(W.a, STRICT, s.a, d.action) == Next(m)
    ensures AllOk(Tag(d.id, m.frames, d.head, d.body), |n.a|)
  {
    hide T.Reachable, Act;
    T.EveryFrameFits(W, System(m.e, s.b, s.ab + m.frames, s.ba));
    C.ActOut(W.a, STRICT, s.a, d.action);
    assert forall i :: 0 <= i < |m.frames| ==> m.frames[i] == m.e.out[|s.a.out| + i];
    TagOk(d.id, m.frames, d.head, d.body, |n.a|);
  }

  // ----- one round of the reading loop

  lemma {:induction false} FrontRead(xs: seq<Item>)
    requires xs != [] && WellFormed(ItemFrame(xs[0]))
    ensures ReadFrame([], StreamBytes(xs)) == ReadResult(Sized(ItemFrame(xs[0])), StreamBytes(xs[1..]), NoError)
  {
    hide ReadFrame, Sized, StreamBytes, ItemFrame;
    FrontBytes(xs);
    SizedReads(ItemFrame(xs[0]), StreamBytes(xs[1..]));
  }

  lemma {:induction false} NothingToRead()
    ensures ReadFrame([], StreamBytes([])).err == ShortRead
  {
  }

  lemma {:induction false} TailOk(ys: seq<Item>, count: nat)
    requires ys != [] && AllOk(ys, count)
    ensures AllOk(ys[1..], count) && (ys[0].ConnFrame? ==> Sendable(ys[0].t, count))
    ensures forall k ::
      Pending(ys, k) == (if ys[0].ConnFrame? && ys[0].t.id == k then [ys[0].t.frame] else []) + Pending(ys[1..], k)
  {
  }

  /** A frame arrives in the session it was sent in, so the conn is delivered the very frame. */
  lemma {:induction false} Delivered(W: Windows, s: System, f: Frame, rest: seq<Frame>)
    requires T.Reachable(W, s) && s.ba == [f] + rest
    ensures InSession(f, s.a.session) == f
    ensures LeftStep(W, STRICT, s, Deliver) == match Submit(W.a, s.a, f)
      case Next(e) => Next(System(e, s.b, s.ab, rest))
      case Blocked => Blocked
      case Panicked(p) => Panicked(p)
  {
    hide Submit;
    T.SessionIsolation(W, s);
    assert s.ba[0] == f && s.ba[1..] == rest;
  }

  lemma {:induction false} ConnTurn(W: Windows, n: Net, xs: seq<Item>, ys: seq<Item>)
    requires Projects(W, n, xs, ys) && ys != [] && ys[0].ConnFrame?
    ensures match LeftTurn(W, n, ReadNext)
            case Runs(n') => Projects(W, n', xs, ys[1..])
            case Waits => true
            case Breaks(_) => false
  {
    hide T.Reachable, StreamBytes, ReadFrame, Receive, Submit, AllOk, Pending,
      Sendable, Encode, Sized, WellFormed, InSession;
    var t := ys[0].t;
    TailOk(ys, |n.a|);
    assert t.id < |n.a| by { SendableId(t, |n.a|); }
    var s := Conn(n, xs, ys, t.id);
    OneFrame(W.a, t, |n.a|, n.a[t.id]);
    FrontRead(ys);
    Delivered(W, s, t.frame, Pending(ys[1..], t.id));
    ReachableStep(W, s, Move(true, Deliver));
    var o := LeftTurn(W, n, ReadNext);
    assert n.ab + WireBytes([]) == n.ab;
    if o.Runs? {
      forall k ensures k != t.id ==> Pending(ys[1..], k) == Pending(ys, k) {
        assert [] + Pending(ys[1..], k) == Pending(ys[1..], k);
      }
      OthersSame(W, n, xs, ys, o.net, xs, ys[1..], t.id);
    }
  }

  /** A frame on a stream can be read at once, except a final for an end in the middle of Close. */
  lemma {:induction false} NetDelivers(W: Windows, n: Net, xs: seq<Item>, ys: seq<Item>)
    requires Projects(W, n, xs, ys) && ys != []
    ensures (ys[0].ConnFrame? ==> ys[0].t.id < |n.a|)
    ensures LeftTurn(W, n, ReadNext).Runs?
      || (ys[0].ConnFrame? && ys[0].t.frame.Final? && Closing(n.a[ys[0].t.id]))
    ensures LeftTurn(W, n, ReadNext).Runs? ==> LeftTurn(W, n, ReadNext).net.ba == StreamBytes(ys[1..])
  {
    hide T.Reachable, StreamBytes, ReadFrame, Receive, AllOk, Pending, Sendable, Encode, Sized, WellFormed;
    TailOk(ys, |n.a|);
    if ys[0].ConnFrame? {
      var t := ys[0].t;
      assert t.id < |n.a| by { SendableId(t, |n.a|); }
      OneFrame(W.a, t, |n.a|, n.a[t.id]);
      FrontRead(ys);
      ConnTurn(W, n, xs, ys);
      OnlyFinalsWait(W, Conn(n, xs, ys, t.id), t.frame);
    } else {
      var _ := ControlTurn(W, n, xs, ys);
    }
  }

  /** A ping that is read is answered on the other stream, by a pong with its time; a pong changes nothing more. */
  lemma {:induction false} NetAnswers(W: Windows, n: Net, xs: seq<Item>, ys: seq<Item>)
    requires Projects(W, n, xs, ys) && ys != [] && !ys[0].ConnFrame?
    ensures var o := LeftTurn(W, n, ReadNext);
      && o.Runs? && o.net.a == n.a && o.net.b == n.b && o.net.ba == StreamBytes(ys[1..])
      && o.net.ab == StreamBytes(if ys[0].PingItem? then xs + [PongItem(ys[0].time)] else xs)
  {
    hide T.Reachable, StreamBytes, ReadFrame, Receive, Sized, PingAt, PongOf, WireBytes, DecodeInt64, AllOk, Pending;
    var _ := ControlTurn(W, n, xs, ys);
    OwnPingReturns(ys[0].time);
    SameControl(PingAt(ys[0].time));
    FrontRead(ys);
  }

  /** A conn may take any step of its own that its protocol allows, and what it sends goes on the stream, last. */
  lemma {:induction false} NetActs(W: Windows, n: Net, xs: seq<Item>, ys: seq<Item>, d: Deed)
    requires Projects(W, n, xs, ys) && d.Own? && d.id < |n.a| && d.action != Deliver && (d.head || d.body)
    ensures LeftTurn(W, n, d).Runs? <==> Act(W.a, STRICT, n.a[d.id], d.action).Next?
    ensures LeftTurn(W, n, d).Runs? ==>
      var m, net := Act(W.a, STRICT, n.a[d.id], d.action).next, LeftTurn(W, n, d).net;
      && net.a == n.a[d.id := m.e] && net.b == n.b && net.ba == n.ba
      && net.ab == StreamBytes(xs + Tag(d.id, m.frames, d.head, d.body))
  {
    hide Act, StreamBytes, T.Reachable, AllOk, Pending;
    var o := Act(W.a, STRICT, n.a[d.id], d.action);
    if o.Next? { StreamConcat(xs, Tag(d.id, o.next.frames, d.head, d.body)); }
  }

  lemma {:induction false} OnlyFinalsWait(W: Windows, s: System, f: Frame)
    requires T.Reachable(W, s)
    ensures Submit(W.a, s.a, InSession(f, s.a.session)) == Blocked ==> f.Final? && Closing(s.a)
  {
    hide Run, T.Reachable;
    T.ReachableInv(W, s);
  }

  lemma {:induction false} SendableId(t: Tagged, count: nat)
    requires Sendable(t, count)
    ensures t.id < count
  {
  }

  /** Control frames leave the conns alone. */
  lemma {:induction false} ConnsSame(W: Windows, n: Net, xs: seq<Item>, ys: seq<Item>,
                                     n': Net, xs': seq<Item>, ys': seq<Item>)
    requires Projects(W, n, xs, ys) && n'.a == n.a && n'.b == n.b
    requires n'.ab == StreamBytes(xs') && n'.ba == StreamBytes(ys') && AllOk(xs', |n.a|) && AllOk(ys', |n.a|)
    requires forall k :: 0 <= k < |n.a| ==> Pending(xs', k) == Pending(xs, k) && Pending(ys', k) == Pending(ys, k)
    ensures Projects(W, n', xs', ys')
  {
    hide T.Reachable, StreamBytes, AllOk, Pending;
    forall k | 0 <= k < |n.a| ensures T.Reachable(W, Conn(n', xs', ys', k)) {
      assert Conn(n', xs', ys', k) == Conn(n, xs, ys, k);
    }
  }

  /** A control frame put on a stream. */
  lemma {:induction false} ControlSent(xs: seq<Item>, i: Item, count: nat)
    requires AllOk(xs, count) && !i.ConnFrame?
    ensures AllOk(xs + [i], count) && StreamBytes(xs + [i]) == StreamBytes(xs) + Sized(ItemFrame(i))
    ensures forall k :: Pending(xs + [i], k) == Pending(xs, k)
  {
    hide StreamBytes, ItemFrame, Sized;
    StreamConcat(xs, [i]);
    OneItem(i);
    forall k ensures Pending(xs + [i], k) == Pending(xs, k) {
      PendingConcat(xs, [i], k);
      assert [i][1..] == [];
    }
  }

  lemma {:induction false} PingTurn(W: Windows, n: Net, xs: seq<Item>, ys: seq<Item>, time: Time)
    requires Projects(W, n, xs, ys)
    ensures LeftTurn(W, n, Ping(time)).Runs? && Projects(W, LeftTurn(W, n, Ping(time)).net, xs + [PingItem(time)], ys)
  {
    hide T.Reachable, StreamBytes, Sized, PingAt, AllOk, Pending;
    ControlSent(xs, PingItem(time), |n.a|);
    ConnsSame(W, n, xs, ys, LeftTurn(W, n, Ping(time)).net, xs + [PingItem(time)], ys);
  }

  lemma {:induction false} ControlTurn(W: Windows, n: Net, xs: seq<Item>, ys: seq<Item>) returns (xs': seq<Item>)
    requires Projects(W, n, xs, ys) && ys != [] && !ys[0].ConnFrame?
    ensures LeftTurn(W, n, ReadNext).Runs? && Projects(W, LeftTurn(W, n, ReadNext).net, xs', ys[1..])
    ensures xs' == if ys[0].PingItem? then xs + [PongItem(ys[0].time)] else xs
  {
    hide T.Reachable, StreamBytes, ReadFrame, Receive, AllOk, Pending, Sized, PingAt, PongOf, WireBytes, DecodeInt64;
    var time := ys[0].time;
    OwnPingReturns(time);
    TailOk(ys, |n.a|);
    FrontRead(ys);
    forall k ensures Pending(ys[1..], k) == Pending(ys, k) { assert [] + Pending(ys[1..], k) == Pending(ys[1..], k); }
    var pong := PongOf(Sized(PingAt(time)));
    SameControl(PingAt(time));
    OnePong(pong);
    if ys[0].PingItem? {
      xs' := xs + [PongItem(time)];
      ControlSent(xs, PongItem(time), |n.a|);
    } else {
      xs' := xs;
      assert n.ab + [] == n.ab;
    }
    ConnsSame(W, n, xs, ys, LeftTurn(W, n, ReadNext).net, xs', ys[1..]);
  }

  lemma {:induction false} OnePong(pong: FrameBytes)
    ensures WireBytes([pong]) == Sized(pong) && WireBytes([]) == []
  {
    assert [pong][1..] == [] && Sized(pong) + [] == Sized(pong);
  }

  lemma {:induction false} LeftTurnKeeps(W: Windows, n: Net, xs: seq<Item>, ys: seq<Item>, d: Deed)
    returns (xs': seq<Item>, ys': seq<Item>)
    requires Projects(W, n, xs, ys)
    ensures match LeftTurn(W, n, d)
            case Runs(n') => Projects(W, n', xs', ys')
            case Waits => true
            case Breaks(_) => false
  {
    xs', ys' := xs, ys;
    match d
    case Own(_, _, _, _) =>
      hide LeftTurn, Projects;
      xs' := OwnTurn(W, n, xs, ys, d);
    case Ping(time) =>
      hide LeftTurn, Projects;
      PingTurn(W, n, xs, ys, time);
      xs' := xs + [PingItem(time)];
    case ReadNext =>
      if ys == [] {
        hide T.Reachable, ReadFrame;
        NothingToRead();
      } else {
        hide LeftTurn, Projects;
        ys' := ys[1..];
        if ys[0].ConnFrame? { ConnTurn(W, n, xs, ys); } else { xs' := ControlTurn(W, n, xs, ys); }
      }
  }

  // ----- the right side, and runs

  function OtherWay(schedule: seq<Move>): seq<Move> {
    if schedule == [] then [] else [Move(!schedule[0].left, schedule[0].action)] + OtherWay(schedule[1..])
  }

  /** Seen from the other side, a run is a run. */
  lemma {:induction false} RunOtherWay(W: Windows, s: System, schedule: seq<Move>, t: System)
    requires Run(W, STRICT, s, schedule) == Next(t)
    ensures Run(Flip(W), STRICT, Swap(s), OtherWay(schedule)) == Next(Swap(t))
    decreases |schedule|
  {
    hide LeftStep;
    if schedule != [] {
      var m := schedule[0];
      var o := Step(W, STRICT, s, m);
      assert OtherWay(schedule)[1..] == OtherWay(schedule[1..]);
      assert Swap(Swap(s)) == s && Flip(Flip(W)) == W;
      RunOtherWay(W, if o.Next? then o.next else s, schedule[1..], t);
    }
  }

  lemma {:induction false} ReachableOtherWay(W: Windows, s: System)
    requires T.Reachable(W, s)
    ensures T.Reachable(Flip(W), Swap(s))
  {
    hide Run;
    var schedule :| Run(W, STRICT, Init(W), schedule) == Next(s);
    RunOtherWay(W, Init(W), schedule, s);
    assert Swap(Init(W)) == Init(Flip(W));
  }

  lemma {:induction false} ProjectsOtherWay(W: Windows, n: Net, xs: seq<Item>, ys: seq<Item>)
    requires Projects(W, n, xs, ys)
    ensures Projects(Flip(W), SwapNet(n), ys, xs)
  {
    hide T.Reachable, StreamBytes, AllOk, Pending;
    forall id | 0 <= id < |n.a| ensures T.Reachable(Flip(W), Conn(SwapNet(n), ys, xs, id)) {
      ReachableOtherWay(W, Conn(n, xs, ys, id));
    }
  }

  lemma {:induction false} NetStepKeeps(W: Windows, n: Net, xs: seq<Item>, ys: seq<Item>, t: Turn)
    returns (xs': seq<Item>, ys': seq<Item>)
    requires Projects(W, n, xs, ys)
    ensures match NetStep(W, n, t)
            case Runs(n') => Projects(W, n', xs', ys')
            case Waits => true
            case Breaks(_) => false
  {
    hide LeftTurn, Projects;
    if t.left {
      xs', ys' := LeftTurnKeeps(W, n, xs, ys, t.deed);
    } else {
      ProjectsOtherWay(W, n, xs, ys);
      ys', xs' := LeftTurnKeeps(Flip(W), SwapNet(n), ys, xs, t.deed);
      var o := LeftTurn(Flip(W), SwapNet(n), t.deed);
      if o.Runs? { ProjectsOtherWay(Flip(W), o.net, ys', xs'); }
    }
  }

  lemma {:induction false} NetRunKeeps(W: Windows, n: Net, xs: seq<Item>, ys: seq<Item>, schedule: seq<Turn>)
    returns (xs': seq<Item>, ys': seq<Item>)
    requires Projects(W, n, xs, ys)
    ensures var o := NetRun(W, n, schedule); o.Runs? && Projects(W, o.net, xs', ys')
    decreases |schedule|
  {
    hide NetStep, Projects;
    xs', ys' := xs, ys;
    if schedule != [] {
      xs', ys' := NetStepKeeps(W, n, xs, ys, schedule[0]);
      var o := NetStep(W, n, schedule[0]);
      if o.Runs? {
        xs', ys' := NetRunKeeps(W, o.net, xs', ys', schedule[1..]);
      } else {
        xs', ys' := NetRunKeeps(W, n, xs, ys, schedule[1..]);
      }
    }
  }

  lemma {:induction false} InitProjects(W: Windows, count: nat)
    requires Allowed(W) && 1 <= count <= MUXER_CONN_ID
    ensures Projects(W, NetInit(W, count), [], [])
  {
    assert Run(W, STRICT, Init(W), []) == Next(Init(W));
    forall id | 0 <= id < count ensures T.Reachable(W, Conn(NetInit(W, count), [], [], id)) {
      assert Conn(NetInit(W, count), [], [], id) == Init(W);
    }
  }

  /**
    For every number of conns, every pair of window sizes and every interleaving of the conns'
    own steps, of pings and of the two reading loops, no conn panics, no frame is refused and
    no stream misread. What is left on the streams is the bytes of some frames, and with those
    of them that are its own, each conn is in a state that a run of its protocol alone reaches.
   */
  lemma {:induction false} NetNeverBreaks(W: Windows, count: nat, schedule: seq<Turn>)
    returns (xs: seq<Item>, ys: seq<Item>)
    requires Allowed(W) && 1 <= count <= MUXER_CONN_ID
    ensures var o := NetRun(W, NetInit(W, count), schedule);
      && o.Runs? && |o.net.a| == |o.net.b| == count
      && o.net.ab == StreamBytes(xs) && o.net.ba == StreamBytes(ys)
      && forall id :: 0 <= id < count ==> T.Reachable(W, Conn(o.net, xs, ys, id))
  {
    hide T.Reachable, StreamBytes;
    InitProjects(W, count);
    xs, ys := NetRunKeeps(W, NetInit(W, count), [], [], schedule);
    CountKept(W, NetInit(W, count), schedule);
  }

  lemma {:induction false} TurnCount(W: Windows, n: Net, d: Deed)
    ensures LeftTurn(W, n, d).Runs? ==>
      |LeftTurn(W, n, d).net.a| == |n.a| && LeftTurn(W, n, d).net.b == n.b
  {
    hide ReadFrame, Receive, Act, StreamBytes, WireBytes;
  }

  lemma {:induction false} CountKept(W: Windows, n: Net, schedule: seq<Turn>)
    ensures var o := NetRun(W, n, schedule); o.Runs? ==> |o.net.a| == |n.a| && |o.net.b| == |n.b|
    decreases |schedule|
  {
    hide LeftTurn;
    if schedule != [] {
      var t := schedule[0];
      TurnCount(W, n, t.deed);
      TurnCount(Flip(W), SwapNet(n), t.deed);
      var o := NetStep(W, n, t);
      CountKept(W, if o.Runs? then o.net else n, schedule[1..]);
    }
  }

  /**
    In particular, per conn and session: what one side has read of any conn is a prefix of what
    the other has written to it, however many conns share the stream.
   */
  lemma {:induction false} NetPipes(W: Windows, count: nat, schedule: seq<Turn>, id: nat)
    requires Allowed(W) && id < count <= MUXER_CONN_ID
    ensures var o := NetRun(W, NetInit(W, count), schedule);
      && o.Runs? && |o.net.a| == |o.net.b| == count
      && var a, b := o.net.a[id], o.net.b[id];
      && |a.sentLog| == |a.readLog| == a.session + 1 && |b.sentLog| == |b.readLog| == b.session + 1
      && forall k :: 0 <= k <= a.session && k <= b.session ==>
           b.readLog[k] <= a.sentLog[k] && a.readLog[k] <= b.sentLog[k]
  {
    hide T.Reachable, StreamBytes, NetRun;
    var xs, ys := NetNeverBreaks(W, count, schedule);
    T.TransparentPipe(W, Conn(NetRun(W, NetInit(W, count), schedule).net, xs, ys, id));
  }
}
