/**
  Ownership of frame buffers. Frames are passed around by reference and returned to
  a global pool (framepool.go) from many places in conn.go and muxer.go; the state
  here is the references themselves, so that a buffer could be in two places at once.
 */
module Pool {
  import opened Bytes

  datatype Buf = Buf(id: nat, cap: nat, len: nat)

  /** The variable or queue a reference is in. */
  datatype Place = Fdw(c: nat) | Fdr(c: nat) | ReadCh(c: nat) | Writer | Reader | Made

  datatype Ref = Ref(place: Place, buf: Buf)

  datatype State = State(pool: seq<Buf>, refs: seq<Ref>, next: nat)

  datatype Action =
    | WriteStart(c: nat)          // conn.writeStart
    | Append(i: nat, n: nat)      // data or a record appended to fdw; append may reallocate
    | FlushSend(i: nat)           // writeFrame, ConnWrite succeeds
    | FlushFail(i: nat)           // writeFrame gives up and frees the frame
    | FlushTooBig(i: nat)         // writeFrame returns ErrFrameTooBig without freeing
    | EmitFlow                    // writeAckFrame, makeFinalFrame
    | MakePing(n: nat)            // Muxer.Ping takes a frame and writes the time into it
    | MakeHijacked                // Hijack makes a frame of its own
    | MadeSend(i: nat)            // Ping or Hijack hands it to the muxer
    | MadeFree(i: nat)            // or gives up and frees it
    | MuxWrite(i: nat)            // Muxer.WriteTo writes a frame and frees it
    | MuxAlloc                    // Muxer.ReadFrom takes an empty frame
    | MuxFill(i: nat, n: nat)     // FrameData.ReadFrom
    | MuxSubmit(i: nat, c: nat)   // SubmitFrame queues a data frame
    | MuxConsume(i: nat)          // acks, finals, pongs and failed reads are freed
    | MuxIgnore(i: nat)           // a reserved flow frame is neither queued nor freed
    | MuxPong(i: nat)             // a ping is turned into a pong and sent back
    | ReadDone(i: nat)            // readFrame frees fdr
    | ReadTake(i: nat)            // readFrame takes a frame from readCh
    | DrainOne(i: nat)            // forceRecycleLocked frees what is left in readCh
    | ForgetFdr(i: nat)           // forceRecycleLocked sets fdr to nil

  function Init(): State { State([], [], 0) }

  predicate Holds(s: State, p: Place) { exists i :: 0 <= i < |s.refs| && s.refs[i].place == p }

  function Without(refs: seq<Ref>, i: nat): seq<Ref>
    requires i < |refs|
  {
    refs[..i] + refs[i + 1..]
  }

  /** FrameDataAlloc and FrameDataAllocID: from the pool, or new. */
  function Alloc(s: State, p: Place, len: nat): State {
    if s.pool != [] then State(s.pool[1..], s.refs + [Ref(p, s.pool[0].(len := len))], s.next)
    else New(s.(pool := []), p, len)
  }

  /** NewFrameDataID */
  function New(s: State, p: Place, len: nat): State {
    s.(refs := s.refs + [Ref(p, Buf(s.next, FRAME_MAX_SIZE, len))], next := s.next + 1)
  }

  /** FrameDataFree: into the pool, or to the collector when the pool is full. */
  function Free(max: nat, s: State, i: nat): State
    requires i < |s.refs|
  {
    var b := s.refs[i].buf;
    State(if |s.pool| < max then s.pool + [b] else s.pool, Without(s.refs, i), s.next)
  }

  function Drop(s: State, i: nat): State
    requires i < |s.refs|
  {
    s.(refs := Without(s.refs, i))
  }

  function Pass(s: State, i: nat, p: Place): State
    requires i < |s.refs|
  {
    s.(refs := s.refs[i := s.refs[i].(place := p)])
  }

  /** Go's append: in place while it fits, otherwise into a new, larger array. */
  function Grow(s: State, i: nat, n: nat): State
    requires i < |s.refs|
  {
    var b := s.refs[i].buf;
    if b.len + n <= b.cap then s.(refs := s.refs[i := s.refs[i].(buf := b.(len := b.len + n))])
    else s.(refs := s.refs[i := s.refs[i].(buf := Buf(s.next, 2 * (b.len + n), b.len + n))], next := s.next + 1)
  }

  predicate At(s: State, i: nat, f: Place -> bool) { i < |s.refs| && f(s.refs[i].place) }

  predicate IsFdw(p: Place) { p.Fdw? }
  predicate IsFdr(p: Place) { p.Fdr? }
  predicate IsReadCh(p: Place) { p.ReadCh? }
  predicate IsWriter(p: Place) { p.Writer? }
  predicate IsReader(p: Place) { p.Reader? }
  predicate IsMade(p: Place) { p.Made? }

  predicate Enabled(s: State, a: Action) {
    match a
    case WriteStart(c) => !Holds(s, Fdw(c))
    case Append(i, _) => At(s, i, IsFdw)
    case FlushSend(i) => At(s, i, IsFdw) && s.refs[i].buf.len <= FRAME_MAX_SIZE
    case FlushFail(i) => At(s, i, IsFdw) && s.refs[i].buf.len <= FRAME_MAX_SIZE
    case FlushTooBig(i) => At(s, i, IsFdw) && s.refs[i].buf.len > FRAME_MAX_SIZE
    case EmitFlow => true
    case MakePing(n) => n <= 10
    case MakeHijacked => true
    case MadeSend(i) => At(s, i, IsMade)
    case MadeFree(i) => At(s, i, IsMade)
    case MuxWrite(i) => At(s, i, IsWriter)
    case MuxAlloc => !Holds(s, Reader)
    case MuxFill(i, n) => At(s, i, IsReader) && s.refs[i].buf.len + n <= FRAME_MAX_SIZE
    case MuxSubmit(i, _) => At(s, i, IsReader)
    case MuxConsume(i) => At(s, i, IsReader)
    case MuxIgnore(i) => At(s, i, IsReader)
    case MuxPong(i) => At(s, i, IsReader)
    case ReadDone(i) => At(s, i, IsFdr)
    case ReadTake(i) => At(s, i, IsReadCh) && !Holds(s, Fdr(s.refs[i].place.c))
    case DrainOne(i) => At(s, i, IsReadCh)
    case ForgetFdr(i) => At(s, i, IsFdr)
  }

  function Do(max: nat, s: State, a: Action): State
    requires Enabled(s, a)
  {
    match a
    case WriteStart(c) => Alloc(s, Fdw(c), 4)
    case Append(i, n) => Grow(s, i, n)
    case FlushSend(i) => Pass(s, i, Writer)
    case FlushFail(i) => Free(max, s, i)
    case FlushTooBig(i) => Drop(s, i)
    case EmitFlow => Alloc(s, Writer, 4)
    case MakePing(n) => Alloc(s, Made, 4 + n)
    case MakeHijacked => New(s, Made, 5)
    case MadeSend(i) => Pass(s, i, Writer)
    case MadeFree(i) => Free(max, s, i)
    case MuxWrite(i) => Free(max, s, i)
    case MuxAlloc => Alloc(s, Reader, 0)
    case MuxFill(i, n) => Grow(s, i, n)
    case MuxSubmit(i, c) => Pass(s, i, ReadCh(c))
    case MuxConsume(i) => Free(max, s, i)
    case MuxIgnore(i) => Drop(s, i)
    case MuxPong(i) => Pass(s, i, Writer)
    case ReadDone(i) => Free(max, s, i)
    case ReadTake(i) => Pass(s, i, Fdr(s.refs[i].place.c))
    case DrainOne(i) => Free(max, s, i)
    case ForgetFdr(i) => Drop(s, i)
  }

  /** Actions that are not enabled where they are scheduled are skipped. */
  function Run(max: nat, s: State, actions: seq<Action>): State
    decreases |actions|
  {
    if actions == [] then s
    else Run(max, if Enabled(s, actions[0]) then Do(max, s, actions[0]) else s, actions[1..])
  }

  // ----- the invariant

  /** No two references, pooled or held, are to the same buffer. */
  predicate Apart(pool: seq<Buf>, refs: seq<Ref>) {
    && (forall i, j :: 0 <= i < j < |pool| ==> pool[i].id != pool[j].id)
    && (forall i, j :: 0 <= i < j < |refs| ==> refs[i].buf.id != refs[j].buf.id)
    && (forall i, j :: 0 <= i < |pool| && 0 <= j < |refs| ==> pool[i].id != refs[j].buf.id)
  }

  predicate Known(s: State) {
    && (forall i :: 0 <= i < |s.pool| ==> s.pool[i].id < s.next)
    && (forall i :: 0 <= i < |s.refs| ==> s.refs[i].buf.id < s.next)
  }

  /** Only an fdw that has outgrown a frame has another capacity than FrameMaxSize. */
  predicate Sized(pool: seq<Buf>, refs: seq<Ref>) {
    && (forall i :: 0 <= i < |pool| ==> pool[i].cap == FRAME_MAX_SIZE)
    && (forall i :: 0 <= i < |refs| ==>
          (refs[i].buf.cap == FRAME_MAX_SIZE && refs[i].buf.len <= FRAME_MAX_SIZE)
          || (refs[i].place.Fdw? && refs[i].buf.len > FRAME_MAX_SIZE))
  }

  predicate Inv(s: State) { Apart(s.pool, s.refs) && Known(s) && Sized(s.pool, s.refs) }

  lemma NewKeeps(s: State, p: Place, len: nat)
    requires Inv(s) && len <= FRAME_MAX_SIZE
    ensures Inv(New(s, p, len))
  {
  }

  lemma AllocKeeps(s: State, p: Place, len: nat)
    requires Inv(s) && len <= FRAME_MAX_SIZE
    ensures Inv(Alloc(s, p, len))
  {
    hide New;
    if s.pool == [] { NewKeeps(s, p, len); }
  }

  lemma DropKeeps(s: State, i: nat)
    requires Inv(s) && i < |s.refs|
    ensures Inv(Drop(s, i))
    ensures forall j :: 0 <= j < |Without(s.refs, i)| ==> Without(s.refs, i)[j].buf.id != s.refs[i].buf.id
  {
    var w := Without(s.refs, i);
    assert forall j :: 0 <= j < |w| ==> w[j] == s.refs[if j < i then j else j + 1];
  }

  lemma FreeKeeps(max: nat, s: State, i: nat)
    requires Inv(s) && i < |s.refs| && s.refs[i].buf.cap == FRAME_MAX_SIZE
    ensures Inv(Free(max, s, i))
  {
    DropKeeps(s, i);
  }

  lemma PassKeeps(s: State, i: nat, p: Place)
    requires Inv(s) && i < |s.refs| && s.refs[i].buf.len <= FRAME_MAX_SIZE
    ensures Inv(Pass(s, i, p))
  {
  }

  lemma GrowKeeps(s: State, i: nat, n: nat)
    requires Inv(s) && i < |s.refs|
    requires s.refs[i].place.Fdw? || s.refs[i].buf.len + n <= FRAME_MAX_SIZE
    ensures Inv(Grow(s, i, n))
  {
  }

  lemma ActionKeeps(max: nat, s: State, a: Action)
    requires Inv(s) && Enabled(s, a)
    ensures Inv(Do(max, s, a))
  {
    hide Apart, Known, New, Alloc, Free, Drop, Pass, Grow, Holds;
    match a
    case WriteStart(c) => AllocKeeps(s, Fdw(c), 4);
    case Append(i, n) => GrowKeeps(s, i, n);
    case FlushSend(i) => PassKeeps(s, i, Writer);
    case FlushFail(i) => FreeKeeps(max, s, i);
    case FlushTooBig(i) => DropKeeps(s, i);
    case EmitFlow => AllocKeeps(s, Writer, 4);
    case MakePing(n) => AllocKeeps(s, Made, 4 + n);
    case MakeHijacked => NewKeeps(s, Made, 5);
    case MadeSend(i) => PassKeeps(s, i, Writer);
    case MadeFree(i) => FreeKeeps(max, s, i);
    case MuxWrite(i) => FreeKeeps(max, s, i);
    case MuxAlloc => AllocKeeps(s, Reader, 0);
    case MuxFill(i, n) => GrowKeeps(s, i, n);
    case MuxSubmit(i, c) => PassKeeps(s, i, ReadCh(c));
    case MuxConsume(i) => FreeKeeps(max, s, i);
    case MuxIgnore(i) => DropKeeps(s, i);
    case MuxPong(i) => PassKeeps(s, i, Writer);
    case ReadDone(i) => FreeKeeps(max, s, i);
    case ReadTake(i) => PassKeeps(s, i, Fdr(s.refs[i].place.c));
    case DrainOne(i) => FreeKeeps(max, s, i);
    case ForgetFdr(i) => DropKeeps(s, i);
  }

  lemma {:induction false} RunKeeps(max: nat, s: State, actions: seq<Action>)
    requires Inv(s)
    ensures Inv(Run(max, s, actions))
    decreases |actions|
  {
    hide Inv, Enabled, Do;
    if actions != [] {
      if Enabled(s, actions[0]) {
        ActionKeeps(max, s, actions[0]);
        RunKeeps(max, Do(max, s, actions[0]), actions[1..]);
      } else {
        RunKeeps(max, s, actions[1..]);
      }
    }
  }

  /**
    After any run each buffer has at most one owner, the pool included, so no buffer is
    freed twice; and a frame begun by writeStart has exactly FrameMaxPayloadSize bytes free.
   */
  lemma BuffersOwnedOnce(max: nat, actions: seq<Action>)
    ensures var s := Run(max, Init(), actions);
      && Apart(s.pool, s.refs)
      && (forall i :: 0 <= i < |s.pool| ==> s.pool[i].cap == FRAME_MAX_SIZE)
      && (forall c :: Enabled(s, WriteStart(c)) ==>
            var t := Do(max, s, WriteStart(c));
            |t.refs| == |s.refs| + 1 && t.refs[|s.refs|].place == Fdw(c)
            && t.refs[|s.refs|].buf.cap - t.refs[|s.refs|].buf.len == FRAME_MAX_PAYLOAD)
  {
    RunKeeps(max, Init(), actions);
  }

  /** The places where the code lets go of a buffer without freeing it. */
  predicate Forgets(a: Action) { a.FlushTooBig? || a.MuxIgnore? || a.ForgetFdr? }

  /** Actions that take a buffer, and so may make one. */
  predicate Takes(a: Action) { a.WriteStart? || a.EmitFlow? || a.MakePing? || a.MuxAlloc? }

  /**
    Nowhere else is a buffer lost while the pool has room, and one is made only by Hijack, or
    when one is taken and the pool is empty.
   */
  lemma BuffersKept(max: nat, s: State, a: Action)
    requires Enabled(s, a) && |s.pool| < max
    ensures var t := Do(max, s, a);
      |t.pool| + |t.refs| == |s.pool| + |s.refs|
        + (if Forgets(a) then -1 else if a.MakeHijacked? || (Takes(a) && s.pool == []) then 1 else 0)
  {
  }
}
