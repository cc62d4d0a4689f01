/**
  The conn protocol of conn.go as a labelled transition system: two endpoints
  of one conn ID, joined by two FIFO wires (the muxer's byte stream, seen
  through the frames of this ID).

  Each atomic step is a region of conn.go between two lock operations. The
  fields `session`, `sentLog`, `readLog`, `out` and `seen`, and the session
  number on every frame, are history: no guard of a step ever looks at them.
 */
module Protocol {
  import opened Bytes

  const MAX_SEND_WINDOW: nat := 8

  datatype Frame =
    | Data(session: nat, payload: seq<byte>)
    | Ack(session: nat)
    | Final(session: nat, isAck: bool)

  /** `fdw`: nil, a header without head or body flag, or a frame with data in it. */
  datatype Buffer = Unset | Blank | Filled(payload: seq<byte>)

  /**
    A writer inside writeFrame: it has seen a positive window, or it has also taken one
    unit of it and is about to call ConnWrite.
   */
  datatype Writer = Idle | Admitted(payload: seq<byte>) | Committed(payload: seq<byte>)

  datatype Endpoint = Endpoint(
    window: int,              // sendWindow
    acks: nat,                // tokens in ackCh
    inbox: seq<seq<byte>>,    // payloads queued in readCh
    fp: seq<byte>,            // unread rest of the frame being read
    fdw: Buffer,
    closed: bool,             // localClosed is closed
    sentFinal: bool,          // localSentFinal
    gotFinal: bool,           // remoteSentFinal; readCh is closed
    writer: Writer,           // holds wmu between the window check and ConnWrite
    acking: bool,             // holds rmu between popping a frame and its ack
    session: nat,
    sentLog: seq<seq<byte>>,  // per session: payload bytes handed to the muxer
    readLog: seq<seq<byte>>,  // per session: payload bytes returned to the reader
    out: seq<Frame>,          // every frame ever handed to the muxer
    seen: seq<Frame>)         // every frame ever submitted to this endpoint

  datatype Panic =
    | AckWouldBlock | DataWouldBlock | FrameAfterFinal | FinalHasSize | MultipleFinals
    | WindowNegative | WindowOverflow
    | RecycleNotClosed | RecycleDataLeft | RecycleNoLocalFinal | RecycleNoRemoteFinal

  datatype Outcome<+T> = Next(next: T) | Blocked | Panicked(why: Panic)

  datatype Action =
    | Start               // writeStart alone
    | Fill(p: seq<byte>)  // writeStart, set the body flag, append
    | Flush               // writeFrame up to the window test
    | Debit               // the window decrement
    | Drop                // writeFrame gives up (deadline, EOF, closed) and frees fdw
    | HandOver            // ConnWrite of the committed frame
    | ConsumeAck
    | PopFrame            // readFrame takes a frame from readCh
    | WriteAck
    | Read(n: nat)
    | CloseBegin          // close(localClosed)
    | CloseFinish         // Close once it holds wmu and rmu
    | Recycle             // recycleLocked, when not part of CloseFinish
    | Deliver             // SubmitFrame of the next frame on the incoming wire

  /**
    What the owner of a conn is trusted to do.
    flushFirst: a conn is closed with no unsent data in fdw.
    quietAfterClose: nothing is read once the final frame is written.
    atomicFinal: writing the final ack and recycling is one step.
   */
  datatype Rules = Rules(flushFirst: bool, quietAfterClose: bool, atomicFinal: bool)

  const STRICT := Rules(true, true, true)

  function Fresh(window: int): Endpoint {
    Endpoint(window, 0, [], [], Unset, false, false, false, Idle, false, 0, [[]], [[]], [], [])
  }

  // ----- history bookkeeping

  /** The last entry of a per-session log, extended by some bytes. */
  function Extend(log: seq<seq<byte>>, p: seq<byte>): seq<seq<byte>> {
    if log == [] then [p] else log[..|log| - 1] + [log[|log| - 1] + p]
  }

  // ----- recycling (conn.go, canRecycleLocked and forceRecycleLocked)

  function CanRecycle(e: Endpoint): Option<Panic> {
    if !e.closed then Some(RecycleNotClosed)
    else if e.fdw != Unset then Some(RecycleDataLeft)
    else if !e.sentFinal then Some(RecycleNoLocalFinal)
    else if !e.gotFinal then Some(RecycleNoRemoteFinal)
    else None
  }

  function Reset(W: nat, e: Endpoint): Endpoint {
    e.(window := W, acks := 0, inbox := [], fp := [], fdw := Unset,
       closed := false, sentFinal := false, gotFinal := false,
       session := e.session + 1, sentLog := e.sentLog + [[]], readLog := e.readLog + [[]])
  }

  function RecycleLocked(W: nat, e: Endpoint): Outcome<Endpoint> {
    match CanRecycle(e)
    case Some(p) => Panicked(p)
    case None => Next(Reset(W, e))
  }

  // ----- frames arriving (conn.go, SubmitFrame and receivedFinal)

  /** Close holds cmu: it has begun, and has not written its final or not recycled yet. */
  predicate Closing(e: Endpoint) { e.closed && (!e.sentFinal || e.gotFinal) }

  function Submit(W: nat, e: Endpoint, f: Frame): Outcome<Endpoint> {
    var e := e.(seen := e.seen + [f]);
    match f
    case Ack(_) =>
      if e.acks >= MAX_SEND_WINDOW then Panicked(AckWouldBlock)
      else Next(e.(acks := e.acks + 1))
    case Data(_, payload) =>
      if e.gotFinal then Panicked(FrameAfterFinal)
      else if |e.inbox| >= MAX_SEND_WINDOW then Panicked(DataWouldBlock)
      else Next(e.(inbox := e.inbox + [payload]))
    case Final(_, _) =>
      if Closing(e) then Blocked
      else if e.gotFinal then Panicked(MultipleFinals)
      else
        var e := e.(gotFinal := true);
        if !e.sentFinal then Next(e)
        else if e.writer != Idle || e.acking then Blocked  // wmu or rmu is held
        else RecycleLocked(W, e)
  }

  // ----- the endpoint's own steps; the result carries the frames handed to the muxer

  datatype Emit = Emit(e: Endpoint, frames: seq<Frame>)

  function Quiet(e: Endpoint): Outcome<Emit> { Next(Emit(e, [])) }

  function Send(e: Endpoint, f: Frame): Emit { Emit(e.(out := e.out + [f]), [f]) }

  function FillBuffer(e: Endpoint, p: seq<byte>): Outcome<Emit> {
    var held := if e.fdw.Filled? then e.fdw.payload else [];
    if e.writer != Idle || e.gotFinal || e.closed then Blocked
    else Quiet(e.(fdw := Filled(held + p)))
  }

  /** A frame that is too big, like one that may not be sent, can only be dropped. */
  function FlushBuffer(e: Endpoint): Outcome<Emit> {
    if e.writer != Idle || !e.fdw.Filled? || e.gotFinal || e.closed || e.window <= 0 then Blocked
    else if |e.fdw.payload| > FRAME_MAX_PAYLOAD then Blocked
    else Quiet(e.(writer := Admitted(e.fdw.payload), fdw := Unset))
  }

  function DebitWindow(e: Endpoint): Outcome<Emit> {
    if !e.writer.Admitted? then Blocked
    else if e.window - 1 < 0 then Panicked(WindowNegative)
    else Quiet(e.(window := e.window - 1, writer := Committed(e.writer.payload)))
  }

  function HandOverFrame(e: Endpoint): Outcome<Emit> {
    if !e.writer.Committed? then Blocked
    else
      var p := e.writer.payload;
      Next(Send(e.(writer := Idle, sentLog := Extend(e.sentLog, p)), Data(e.session, p)))
  }

  /** A frame is being sent that is not too big: the only time writeFrame looks at ackCh. */
  predicate Sending(e: Endpoint) {
    e.writer == Idle && e.fdw.Filled? && |e.fdw.payload| <= FRAME_MAX_PAYLOAD
  }

  function ConsumeToken(W: nat, e: Endpoint): Outcome<Emit> {
    if !Sending(e) || e.sentFinal || e.acks == 0 then Blocked
    else if e.window + 1 > W then Panicked(WindowOverflow)
    else Quiet(e.(acks := e.acks - 1, window := e.window + 1))
  }

  function Pop(r: Rules, e: Endpoint): Outcome<Emit> {
    if e.acking || e.fp != [] || e.inbox == [] || (r.quietAfterClose && e.sentFinal) then Blocked
    else Quiet(e.(fp := e.inbox[0], inbox := e.inbox[1..], acking := true))
  }

  function AckFrame(e: Endpoint): Outcome<Emit> {
    if !e.acking then Blocked else Next(Send(e.(acking := false), Ack(e.session)))
  }

  function ReadBytes(r: Rules, e: Endpoint, n: nat): Outcome<Emit> {
    if e.acking || n > |e.fp| || (r.quietAfterClose && e.sentFinal) then Blocked
    else Quiet(e.(fp := e.fp[n..], readLog := Extend(e.readLog, e.fp[..n])))
  }

  /**
    Close after `localClosed` is closed and both locks are held. writeFinalLocked
    marks the final as sent before it flushes; a filled fdw fails to flush because
    the conn is closed, and then no final frame is written.
   */
  function Finish(W: nat, r: Rules, e: Endpoint): Outcome<Emit> {
    if !e.closed || e.sentFinal || e.writer != Idle || e.acking || (r.flushFirst && e.fdw.Filled?) then Blocked
    else
      var flushed := e.(sentFinal := true, fdw := Unset);
      var s := if e.fdw.Filled? then Emit(flushed, []) else Send(flushed, Final(e.session, e.gotFinal));
      if !e.gotFinal || !r.atomicFinal then Next(s)
      else match RecycleLocked(W, s.e)
        case Next(e') => Next(Emit(e', s.frames))
        case Blocked => Blocked
        case Panicked(p) => Panicked(p)
  }

  function LateRecycle(W: nat, e: Endpoint): Outcome<Emit> {
    if !e.sentFinal || !e.gotFinal then Blocked
    else match RecycleLocked(W, e)
      case Next(e') => Quiet(e')
      case Blocked => Blocked
      case Panicked(p) => Panicked(p)
  }

  function Act(W: nat, r: Rules, e: Endpoint, a: Action): Outcome<Emit>
    requires a != Deliver
  {
    match a
    case Start =>
      if e.writer != Idle || e.gotFinal || e.closed then Blocked
      else Quiet(if e.fdw == Unset then e.(fdw := Blank) else e)
    case Fill(p) => FillBuffer(e, p)
    case Flush => FlushBuffer(e)
    case Debit => DebitWindow(e)
    case Drop => if e.writer != Idle then Blocked else Quiet(e.(fdw := Unset))
    case HandOver => HandOverFrame(e)
    case ConsumeAck => ConsumeToken(W, e)
    case PopFrame => Pop(r, e)
    case WriteAck => AckFrame(e)
    case Read(n) => ReadBytes(r, e, n)
    case CloseBegin => if e.closed then Blocked else Quiet(e.(closed := true))
    case CloseFinish => Finish(W, r, e)
    case Recycle => LateRecycle(W, e)
  }

  // ----- the two-endpoint system

  datatype System = System(a: Endpoint, b: Endpoint, ab: seq<Frame>, ba: seq<Frame>)

  /** SendWindowSize of the two processes. */
  datatype Windows = Windows(a: nat, b: nat)

  predicate Allowed(W: Windows) { 1 <= W.a <= MAX_SEND_WINDOW && 1 <= W.b <= MAX_SEND_WINDOW }

  function Flip(W: Windows): Windows { Windows(W.b, W.a) }

  function Swap(s: System): System { System(s.b, s.a, s.ba, s.ab) }

  function Init(W: Windows): System { System(Fresh(W.a), Fresh(W.b), [], []) }

  /** One step of the endpoint on the left. */
  function LeftStep(W: Windows, r: Rules, s: System, a: Action): Outcome<System> {
    if a == Deliver then
      if s.ba == [] then Blocked
      else match Submit(W.a, s.a, s.ba[0])
        case Next(e) => Next(System(e, s.b, s.ab, s.ba[1..]))
        case Blocked => Blocked
        case Panicked(p) => Panicked(p)
    else match Act(W.a, r, s.a, a)
      case Next(m) => Next(System(m.e, s.b, s.ab + m.frames, s.ba))
      case Blocked => Blocked
      case Panicked(p) => Panicked(p)
  }

  datatype Move = Move(left: bool, action: Action)

  function Step(W: Windows, r: Rules, s: System, m: Move): Outcome<System> {
    if m.left then LeftStep(W, r, s, m.action)
    else match LeftStep(Flip(W), r, Swap(s), m.action)
      case Next(t) => Next(Swap(t))
      case Blocked => Blocked
      case Panicked(p) => Panicked(p)
  }

  /** A run follows a schedule; a move that is blocked where it is scheduled is skipped. */
  function Run(W: Windows, r: Rules, s: System, schedule: seq<Move>): Outcome<System>
    decreases |schedule|
  {
    if schedule == [] then Next(s)
    else match Step(W, r, s, schedule[0])
      case Next(t) => Run(W, r, t, schedule[1..])
      case Blocked => Run(W, r, s, schedule[1..])
      case Panicked(p) => Panicked(p)
  }
}
