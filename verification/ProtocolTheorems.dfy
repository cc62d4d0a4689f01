/** What holds in every run of the conn protocol, for every schedule and window size. */
module ProtocolTheorems {
  import opened Bytes
  import opened Protocol
  import opened ProtocolInvariant
  import ProtocolFlow
  import ProtocolPipe

  // ----- whole-run history

  /** Everything written is either submitted at the other end, in order, or still on the wire. */
  predicate History(x: Endpoint, y: Endpoint, xy: seq<Frame>) {
    && y.seen + xy == x.out
    && Stream(x.out, 0, FinalsSent(x))
    && Stream(y.seen, 0, FinalsGot(y))
    && AcksAnswer(x)
    && FramesFit(x.out)
  }

  /** A final marked as an ack answers the peer's final of the same session. */
  predicate AcksAnswer(e: Endpoint) {
    forall i :: 0 <= i < |e.out| && e.out[i].Final? && e.out[i].isAck ==> e.out[i].session < FinalsGot(e)
  }

  /** Every data frame fits the size field of its header. */
  predicate FramesFit(w: seq<Frame>) {
    forall i :: 0 <= i < |w| && w[i].Data? ==> |w[i].payload| <= FRAME_MAX_PAYLOAD
  }

  predicate Histories(s: System) { History(s.a, s.b, s.ab) && History(s.b, s.a, s.ba) }

  lemma Recorded(x: Endpoint, y: Endpoint, xy: seq<Frame>, x': Endpoint, f: Frame)
    requires History(x, y, xy) && f.session == FinalsSent(x) && FinalsGot(x') == FinalsGot(x)
    requires x'.out == x.out + [f] && FinalsSent(x') == (if f.Final? then f.session + 1 else f.session)
    requires f.Final? && f.isAck ==> f.session < FinalsGot(x)
    requires f.Data? ==> |f.payload| <= FRAME_MAX_PAYLOAD
    ensures History(x', y, xy + [f])
  {
    hide Stream, DataIn, AcksIn, BytesIn;
    StreamAppend(x.out, 0, FinalsSent(x), f);
    assert y.seen + (xy + [f]) == (y.seen + xy) + [f];
  }

  lemma Received(x: Endpoint, y: Endpoint, xy: seq<Frame>, y': Endpoint)
    requires History(x, y, xy) && xy != [] && xy[0].session == FinalsGot(y)
    requires y'.seen == y.seen + [xy[0]]
    requires FinalsGot(y') == (if xy[0].Final? then xy[0].session + 1 else xy[0].session)
    ensures History(x, y', xy[1..])
  {
    hide Stream, DataIn, AcksIn, BytesIn;
    StreamAppend(y.seen, 0, FinalsGot(y), xy[0]);
    assert (y.seen + [xy[0]]) + xy[1..] == y.seen + xy;
  }

  lemma DeliverKeeps(W: Windows, s: System)
    requires Inv(W, s) && Histories(s)
    ensures var o := LeftStep(W, STRICT, s, Deliver); o.Next? ==> Histories(o.next)
  {
    hide Stream, DataIn, AcksIn, BytesIn;
    var o := LeftStep(W, STRICT, s, Deliver);
    if o.Next? {
      ProtocolFlow.Facts(W, s);
      Received(s.b, s.a, s.ba, o.next.a);
    }
  }

  /** A step hands over at most one frame, numbered by the finals written before it. */
  predicate Records(e: Endpoint, m: Emit) {
    && |m.frames| <= 1 && m.e.out == e.out + m.frames && m.e.seen == e.seen
    && FinalsGot(m.e) == FinalsGot(e)
    && (m.frames == [] ==> FinalsSent(m.e) == FinalsSent(e))
    && (m.frames != [] ==> var f := m.frames[0];
         && f.session == FinalsSent(e) && FinalsSent(m.e) == (if f.Final? then f.session + 1 else f.session)
         && (f.Final? && f.isAck ==> f.session < FinalsGot(e))
         && (f.Data? ==> |f.payload| <= FRAME_MAX_PAYLOAD))
  }

  lemma ActRecords(W: nat, e: Endpoint, a: Action)
    requires a != Deliver && !(e.sentFinal && e.gotFinal)
    requires e.sentFinal ==> e.writer == Idle && !e.acking
    requires e.writer != Idle ==> |e.writer.payload| <= FRAME_MAX_PAYLOAD
    requires Act(W, STRICT, e, a).Next?
    ensures Records(e, Act(W, STRICT, e, a).next)
  {
    hide Extend;
    assert e.out + [] == e.out;
  }

  lemma EmitKeeps(s: System, m: Emit)
    requires Histories(s) && Records(s.a, m)
    ensures Histories(System(m.e, s.b, s.ab + m.frames, s.ba))
  {
    hide Stream, DataIn, AcksIn, BytesIn;
    if m.frames == [] {
      assert s.ab + m.frames == s.ab && s.a.out + m.frames == s.a.out;
    } else {
      assert m.frames == [m.frames[0]];
      Recorded(s.a, s.b, s.ab, m.e, m.frames[0]);
    }
  }

  lemma ActKeeps(W: Windows, s: System, a: Action)
    requires Histories(s) && a != Deliver && !(s.a.sentFinal && s.a.gotFinal)
    requires s.a.sentFinal ==> s.a.writer == Idle && !s.a.acking
    requires s.a.writer != Idle ==> |s.a.writer.payload| <= FRAME_MAX_PAYLOAD
    ensures var o := LeftStep(W, STRICT, s, a); o.Next? ==> Histories(o.next)
  {
    hide Stream, DataIn, AcksIn, BytesIn;
    var o := Act(W.a, STRICT, s.a, a);
    if o.Next? {
      ActRecords(W.a, s.a, a);
      EmitKeeps(s, o.next);
    }
  }

  // ----- every run

  lemma SwapInv(W: Windows, s: System)
    ensures Inv(W, s) == Inv(Flip(W), Swap(s))
    ensures Histories(s) == Histories(Swap(s))
  {
    hide Stream, DataIn, AcksIn, BytesIn, Flatten;
  }

  lemma LeftKeeps(W: Windows, s: System, a: Action)
    requires Allowed(W) && Inv(W, s) && Histories(s)
    ensures var o := LeftStep(W, STRICT, s, a);
      !o.Panicked? && (o.Next? ==> Inv(W, o.next) && Histories(o.next))
  {
    hide Stream, DataIn, AcksIn, BytesIn;
    ProtocolFlow.FlowSafe(W, s, a);
    ProtocolFlow.Facts(W, s);
    ProtocolPipe.PipeSafe(s, a, W);
    if a == Deliver { DeliverKeeps(W, s); } else { ActKeeps(W, s, a); }
  }

  lemma StepKeeps(W: Windows, s: System, m: Move)
    requires Allowed(W) && Inv(W, s) && Histories(s)
    ensures var o := Step(W, STRICT, s, m);
      !o.Panicked? && (o.Next? ==> Inv(W, o.next) && Histories(o.next))
  {
    hide Stream, DataIn, AcksIn, BytesIn;
    if m.left {
      LeftKeeps(W, s, m.action);
    } else {
      SwapInv(W, s);
      LeftKeeps(Flip(W), Swap(s), m.action);
      var o := LeftStep(Flip(W), STRICT, Swap(s), m.action);
      if o.Next? { SwapInv(Flip(W), o.next); }
    }
  }

  lemma {:induction false} RunKeeps(W: Windows, s: System, schedule: seq<Move>)
    requires Allowed(W) && Inv(W, s) && Histories(s)
    ensures var o := Run(W, STRICT, s, schedule); o.Next? && Inv(W, o.next) && Histories(o.next)
    decreases |schedule|
  {
    if schedule != [] {
      StepKeeps(W, s, schedule[0]);
      var o := Step(W, STRICT, s, schedule[0]);
      RunKeeps(W, if o.Next? then o.next else s, schedule[1..]);
    }
  }

  /** No schedule of the two endpoints reaches any of the panics of conn.go. */
  lemma NoPanic(W: Windows, schedule: seq<Move>)
    requires Allowed(W)
    ensures var o := Run(W, STRICT, Init(W), schedule); o.Next? && Inv(W, o.next) && Histories(o.next)
  {
    assert Flatten([]) == [];
    RunKeeps(W, Init(W), schedule);
  }

  ghost predicate Reachable(W: Windows, s: System) {
    Allowed(W) && exists schedule :: Run(W, STRICT, Init(W), schedule) == Next(s)
  }

  lemma ReachableInv(W: Windows, s: System)
    requires Reachable(W, s)
    ensures Inv(W, s) && Histories(s)
  {
    var schedule :| Run(W, STRICT, Init(W), schedule) == Next(s);
    NoPanic(W, schedule);
  }

  // ----- session isolation

  /** Sessions never drift by more than one, and a frame arrives in the session that sent it. */
  lemma SessionIsolation(W: Windows, s: System)
    requires Reachable(W, s)
    ensures -1 <= s.a.session - s.b.session <= 1
    ensures s.ab != [] ==> s.ab[0].session == s.b.session
    ensures s.ba != [] ==> s.ba[0].session == s.a.session
  {
    hide Stream, DataIn, AcksIn, BytesIn;
    ReachableInv(W, s);
    SwapInv(W, s);
    ProtocolFlow.Facts(W, s);
    ProtocolFlow.Facts(Flip(W), Swap(s));
  }

  // ----- credit

  /** Window, frames in flight, frames queued, acks in flight and ack tokens of data from x to y. */
  function Credits(x: Endpoint, y: Endpoint, xy: seq<Frame>, yx: seq<Frame>): int {
    Held(x) + DataIn(xy, x.session)
    + (if x.session == y.session then Owed(y) else 0) + AcksIn(yx, x.session)
  }

  /** The credit of a direction is its sender's window size until the receiver has recycled, and never more. */
  lemma CreditConservation(W: Windows, s: System)
    requires Reachable(W, s)
    ensures Credits(s.a, s.b, s.ab, s.ba) <= W.a && Credits(s.b, s.a, s.ba, s.ab) <= W.b
    ensures s.b.session <= s.a.session ==> Credits(s.a, s.b, s.ab, s.ba) == W.a
    ensures s.a.session <= s.b.session ==> Credits(s.b, s.a, s.ba, s.ab) == W.b
    ensures 0 <= s.a.window <= W.a && s.a.acks <= W.a && |s.a.inbox| <= W.b
    ensures 0 <= s.b.window <= W.b && s.b.acks <= W.b && |s.b.inbox| <= W.a
  {
    hide Stream, BytesIn;
    ReachableInv(W, s);
    ProtocolFlow.Facts(W, s);
  }

  // ----- the pipe

  /** A reader that would be told io.EOF: nothing unread, and the peer's final has arrived. */
  predicate AtEof(e: Endpoint) { e.fp == [] && e.inbox == [] && e.gotFinal && !e.acking }

  /**
    In every session, what one side has read is a prefix of what the other has sent;
    at EOF it is everything the other side sent, and that side sends no more.
   */
  lemma TransparentPipe(W: Windows, s: System)
    requires Reachable(W, s)
    ensures |s.a.sentLog| == |s.a.readLog| == s.a.session + 1
    ensures |s.b.sentLog| == |s.b.readLog| == s.b.session + 1
    ensures forall k :: 0 <= k <= s.a.session && k <= s.b.session ==> s.b.readLog[k] <= s.a.sentLog[k]
    ensures forall k :: 0 <= k <= s.a.session && k <= s.b.session ==> s.a.readLog[k] <= s.b.sentLog[k]
    ensures s.b.session > s.a.session ==> s.b.readLog[s.b.session] == []
    ensures s.a.session > s.b.session ==> s.a.readLog[s.a.session] == []
    ensures AtEof(s.b) ==>
      s.a.session == s.b.session && s.a.sentFinal && s.b.readLog[s.b.session] == s.a.sentLog[s.b.session]
    ensures AtEof(s.a) ==>
      s.a.session == s.b.session && s.b.sentFinal && s.a.readLog[s.a.session] == s.b.sentLog[s.a.session]
  {
    ReachableInv(W, s);
    OneWayPipe(W, s);
    SwapInv(W, s);
    OneWayPipe(Flip(W), Swap(s));
  }

  lemma PrefixPipe(sent: seq<seq<byte>>, read: seq<seq<byte>>, unread: seq<byte>, xy: seq<Frame>)
    requires Pipe(sent, read, unread, xy)
    ensures forall k :: 0 <= k < |sent| && k < |read| ==> read[k] <= sent[k]
    ensures |read| <= |sent| && unread == [] && xy == [] ==> read[|read| - 1] == sent[|read| - 1]
  {
    var ys := |read| - 1;
    if ys < |sent| {
      assert read[ys] + unread + BytesIn(xy, ys) == read[ys] + (unread + BytesIn(xy, ys));
    }
    forall k | 0 <= k < |sent| && k < |read| ensures read[k] <= sent[k] {
      if k < ys { assert read[k] <= sent[k]; }
    }
  }

  lemma OneWayPipe(W: Windows, s: System)
    requires Inv(W, s)
    ensures forall k :: 0 <= k <= s.a.session && k <= s.b.session ==> s.b.readLog[k] <= s.a.sentLog[k]
    ensures s.b.session > s.a.session ==> s.b.readLog[s.b.session] == []
    ensures AtEof(s.b) ==>
      s.a.session == s.b.session && s.a.sentFinal && s.b.readLog[s.b.session] == s.a.sentLog[s.b.session]
  {
    hide Stream, DataIn, AcksIn, BytesIn;
    ProtocolFlow.Facts(W, s);
    assert AtEof(s.b) ==> Unread(s.b) == [];
    PrefixPipe(s.a.sentLog, s.b.readLog, Unread(s.b), s.ab);
  }

  // ----- the closing handshake

  function FinalCount(w: seq<Frame>): nat {
    if w == [] then 0 else (if w[0].Final? then 1 else 0) + FinalCount(w[1..])
  }

  lemma {:induction false} StreamCounts(w: seq<Frame>, n: nat, m: nat)
    requires Stream(w, n, m)
    ensures FinalCount(w) == m - n
  {
    if w != [] { StreamCounts(w[1..], if w[0].Final? then n + 1 else n, m); }
  }

  lemma {:induction false} StreamOrders(w: seq<Frame>, n: nat, m: nat, i: nat, j: nat)
    requires Stream(w, n, m) && i < j < |w| && w[i].Final?
    ensures w[i].session < w[j].session
  {
    var n' := if w[0].Final? then n + 1 else n;
    StreamGrows(w[1..], n', m);
    assert w[j] == w[1..][j - 1];
    if i > 0 {
      assert w[i] == w[1..][i - 1];
      StreamOrders(w[1..], n', m, i - 1, j - 1);
    }
  }

  /**
    Over its whole run an endpoint writes nothing in a session after that session's
    final, so at most one final per session; and the number of times it has recycled
    is the smaller of the finals it has written and the finals it has received. A final
    ack is only written in answer to a final.
   */
  predicate ClosesInOrder(e: Endpoint) {
    && (forall i, j :: 0 <= i < j < |e.out| && e.out[i].Final? ==> e.out[i].session < e.out[j].session)
    && FinalCount(e.out) == e.session + (if e.sentFinal then 1 else 0)
    && FinalCount(e.seen) == e.session + (if e.gotFinal then 1 else 0)
    && AcksAnswer(e)
    && e.session == (if FinalCount(e.out) <= FinalCount(e.seen) then FinalCount(e.out) else FinalCount(e.seen))
  }

  lemma LeftCloses(W: Windows, s: System)
    requires Inv(W, s) && Histories(s)
    ensures ClosesInOrder(s.a)
  {
    StreamCounts(s.a.out, 0, FinalsSent(s.a));
    StreamCounts(s.a.seen, 0, FinalsGot(s.a));
    forall i, j | 0 <= i < j < |s.a.out| && s.a.out[i].Final? ensures s.a.out[i].session < s.a.out[j].session {
      StreamOrders(s.a.out, 0, FinalsSent(s.a), i, j);
    }
  }

  lemma ClosingHandshake(W: Windows, s: System)
    requires Reachable(W, s)
    ensures ClosesInOrder(s.a) && ClosesInOrder(s.b)
    ensures s.b.seen + s.ab == s.a.out && s.a.seen + s.ba == s.b.out
  {
    ReachableInv(W, s);
    SwapInv(W, s);
    LeftCloses(W, s);
    LeftCloses(Flip(W), Swap(s));
  }

  // ----- a writer stops at the peer's final

  /** Data frames of a session handed over, or certain to be: one may be past the window test. */
  function Spent(e: Endpoint, k: nat): nat {
    DataIn(e.out, k) + (if e.session == k && e.writer != Idle then 1 else 0)
  }

  /** No more data may be sent in a session: the peer's final of it has come, or it was closed here. */
  predicate Stopped(e: Endpoint, k: nat) { k < FinalsGot(e) || (k == e.session && e.closed) }

  lemma {:induction false} ActSpends(W: nat, e: Endpoint, a: Action, k: nat)
    requires a != Deliver && Stopped(e, k)
    ensures var o := Act(W, STRICT, e, a); o.Next? ==> Spent(o.next.e, k) <= Spent(e, k) && Stopped(o.next.e, k)
  {
    hide DataIn, AcksIn, BytesIn, Extend;
    CountsAppend(e.out, Ack(e.session), k);
    CountsAppend(e.out, Final(e.session, e.gotFinal), k);
    if a == HandOver && e.writer.Committed? { CountsAppend(e.out, Data(e.session, e.writer.payload), k); }
  }

  lemma {:induction false} StepSpends(W: Windows, s: System, m: Move, k: nat)
    requires Stopped(s.a, k)
    ensures var o := Step(W, STRICT, s, m); o.Next? ==> Spent(o.next.a, k) <= Spent(s.a, k) && Stopped(o.next.a, k)
  {
    hide DataIn, Act;
    if m.left && m.action != Deliver { ActSpends(W.a, s.a, m.action, k); }
  }

  lemma {:induction false} RunSpends(W: Windows, s: System, schedule: seq<Move>, k: nat)
    requires Stopped(s.a, k)
    ensures var o := Run(W, STRICT, s, schedule); o.Next? ==> Spent(o.next.a, k) <= Spent(s.a, k)
    decreases |schedule|
  {
    hide Step, Spent;
    if schedule != [] {
      StepSpends(W, s, schedule[0], k);
      var o := Step(W, STRICT, s, schedule[0]);
      RunSpends(W, if o.Next? then o.next else s, schedule[1..], k);
    }
  }

  /**
    Once an end has seen the peer's final of a session, it hands over in that session at most
    the one data frame that was already past its window test, over any continuation of the run.
   */
  lemma {:induction false} QuietAfterFinal(W: Windows, s: System, schedule: seq<Move>, k: nat)
    requires Reachable(W, s) && k < FinalCount(s.a.seen)
    ensures var o := Run(W, STRICT, s, schedule);
      && o.Next?
      && DataIn(o.next.a.out, k) <= DataIn(s.a.out, k) + (if s.a.session == k && s.a.writer != Idle then 1 else 0)
  {
    hide DataIn, Run;
    ReachableInv(W, s);
    ClosingHandshake(W, s);
    RunSpends(W, s, schedule, k);
    RunKeeps(W, s, schedule);
  }

  /** The same once Close has begun. */
  lemma {:induction false} QuietAfterClose(W: Windows, s: System, schedule: seq<Move>)
    requires Reachable(W, s) && s.a.closed
    ensures var o, k := Run(W, STRICT, s, schedule), s.a.session;
      o.Next? && DataIn(o.next.a.out, k) <= DataIn(s.a.out, k) + (if s.a.writer != Idle then 1 else 0)
  {
    hide DataIn, Run;
    ReachableInv(W, s);
    RunSpends(W, s, schedule, s.a.session);
    RunKeeps(W, s, schedule);
  }

  /** The window moves down by a frame past its test, up by an ack taken while a frame is to be sent, and not else. */
  lemma {:induction false} WindowMoves(W: nat, e: Endpoint, a: Action)
    requires a != Deliver && Act(W, STRICT, e, a).Next?
    ensures var t := Act(W, STRICT, e, a).next.e;
      || (t.window == e.window && t.acks == e.acks)
      || (t.window == e.window - 1 && t.acks == e.acks && e.writer.Admitted? && t.writer.Committed?)
      || (t.window == e.window + 1 && t.acks == e.acks - 1 && Sending(e))
      || (t.session == e.session + 1 && t.window == W && t.acks == 0)
  {
    hide Extend;
  }

  /** The panics of a step are there, in any state: what excludes them is the invariant. */
  lemma {:induction false} PanicsAreThere(W: nat, e: Endpoint)
    ensures e.writer.Admitted? && e.window <= 0 ==> Act(W, STRICT, e, Debit) == Panicked(WindowNegative)
    ensures Sending(e) && !e.sentFinal && e.acks > 0 && e.window >= W ==>
      Act(W, STRICT, e, ConsumeAck) == Panicked(WindowOverflow)
    ensures RecycleLocked(W, e).Next? <==> e.closed && e.fdw == Unset && e.sentFinal && e.gotFinal
    ensures !e.closed ==> RecycleLocked(W, e) == Panicked(RecycleNotClosed)
    ensures e.closed && e.fdw != Unset ==> RecycleLocked(W, e) == Panicked(RecycleDataLeft)
  {
  }

  /** Everything an endpoint ever hands to the muxer can be framed. */
  lemma EveryFrameFits(W: Windows, s: System)
    requires Reachable(W, s)
    ensures FramesFit(s.a.out) && FramesFit(s.b.out)
  {
    ReachableInv(W, s);
  }

  /** Once the wires are empty, a side waiting for a final has a peer that was told so and has not closed. */
  lemma NoCloseDeadlock(W: Windows, s: System)
    requires Reachable(W, s) && s.ab == [] && s.ba == []
    ensures s.a.session == s.b.session
    ensures s.a.sentFinal == s.b.gotFinal && s.b.sentFinal == s.a.gotFinal
    ensures !(s.a.sentFinal && s.b.sentFinal)
  {
    ReachableInv(W, s);
  }
}
