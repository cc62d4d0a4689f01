/** While both ends are open, the flow control cannot deadlock. */
module ProtocolProgress {
  import opened Bytes
  import opened Protocol
  import opened ProtocolInvariant
  import opened ProtocolTheorems
  import ProtocolFlow

  predicate Open(s: System) {
    !s.a.closed && !s.b.closed && !s.a.gotFinal && !s.b.gotFinal
  }

  /** The moves that only drain what is in flight. */
  predicate Draining(a: Action) {
    a.Debit? || a.HandOver? || a.ConsumeAck? || a.PopFrame? || a.WriteAck? || a.Deliver? || (a.Read? && a.n > 0)
  }

  // ----- the weight of everything in flight

  function QueueWeight(q: seq<seq<byte>>): nat {
    if q == [] then 0 else 4 + |q[0]| + QueueWeight(q[1..])
  }

  function FrameWeight(f: Frame): nat {
    if f.Data? then 5 + |f.payload| else 2
  }

  function WireWeight(w: seq<Frame>): nat {
    if w == [] then 0 else FrameWeight(w[0]) + WireWeight(w[1..])
  }

  function EndWeight(e: Endpoint): nat {
    (match e.writer
     case Idle => 0
     case Admitted(p) => 7 + |p|
     case Committed(p) => 6 + |p|)
    + QueueWeight(e.inbox) + |e.fp| + (if e.acking then 3 else 0) + e.acks
  }

  function Weight(s: System): nat {
    EndWeight(s.a) + EndWeight(s.b) + WireWeight(s.ab) + WireWeight(s.ba)
  }

  lemma {:induction false} QueueAppend(q: seq<seq<byte>>, p: seq<byte>)
    ensures QueueWeight(q + [p]) == QueueWeight(q) + 4 + |p|
  {
    if q == [] {
      assert q + [p] == [p] && [p][1..] == [];
    } else {
      assert (q + [p])[1..] == q[1..] + [p];
      QueueAppend(q[1..], p);
    }
  }

  lemma {:induction false} WireAppend(w: seq<Frame>, f: Frame)
    ensures WireWeight(w + [f]) == WireWeight(w) + FrameWeight(f)
  {
    if w == [] {
      assert w + [f] == [f] && [f][1..] == [];
    } else {
      assert (w + [f])[1..] == w[1..] + [f];
      WireAppend(w[1..], f);
    }
  }

  // ----- every draining move makes progress

  lemma OpenWires(W: Windows, s: System)
    requires Inv(W, s) && Open(s)
    ensures s.a.session == s.b.session
    ensures s.ba != [] ==> !s.ba[0].Final?
  {
    ProtocolFlow.Facts(W, s);
    if s.ba != [] && s.ba[0].Final? {
      StreamGrows(s.ba[1..], FinalsGot(s.a) + 1, FinalsSent(s.b));
      assert false;
    }
  }

  lemma DrainOwn(W: Windows, s: System, a: Action)
    requires Inv(W, s) && Open(s) && Draining(a) && a != Deliver
    ensures var o := LeftStep(W, STRICT, s, a); o.Next? ==> Open(o.next) && Weight(o.next) < Weight(s)
  {
    hide Inv, WireWeight;
    assert s.ab + [] == s.ab;
    if a.HandOver? && s.a.writer.Committed? {
      WireAppend(s.ab, Data(s.a.session, s.a.writer.payload));
    } else if a.WriteAck? {
      WireAppend(s.ab, Ack(s.a.session));
    }
  }

  lemma DrainDeliver(W: Windows, s: System)
    requires Inv(W, s) && Open(s)
    ensures var o := LeftStep(W, STRICT, s, Deliver); o.Next? ==> Open(o.next) && Weight(o.next) < Weight(s)
  {
    hide Inv, QueueWeight;
    OpenWires(W, s);
    if s.ba != [] && s.ba[0].Data? { QueueAppend(s.a.inbox, s.ba[0].payload); }
  }

  lemma DrainLeft(W: Windows, s: System, a: Action)
    requires Inv(W, s) && Open(s) && Draining(a)
    ensures var o := LeftStep(W, STRICT, s, a); o.Next? ==> Open(o.next) && Weight(o.next) < Weight(s)
  {
    if a == Deliver { DrainDeliver(W, s); } else { DrainOwn(W, s, a); }
  }

  lemma DrainStep(W: Windows, s: System, m: Move)
    requires Allowed(W) && Inv(W, s) && Histories(s) && Open(s) && Draining(m.action)
    ensures var o := Step(W, STRICT, s, m);
      o.Next? ==> Open(o.next) && Inv(W, o.next) && Histories(o.next) && Weight(o.next) < Weight(s)
  {
    hide Stream, WireWeight, QueueWeight;
    StepKeeps(W, s, m);
    SwapInv(W, s);
    DrainLeft(if m.left then W else Flip(W), if m.left then s else Swap(s), m.action);
  }

  // ----- where draining ends

  /** Acks stay in ackCh until there is a frame to send: only writeFrame consumes them. */
  predicate IdleEnd(e: Endpoint) {
    e.writer == Idle && e.inbox == [] && e.fp == [] && !e.acking && (Sending(e) ==> e.acks == 0)
  }

  predicate Drained(s: System) {
    IdleEnd(s.a) && IdleEnd(s.b) && s.ab == [] && s.ba == []
  }

  function LeftMove(s: System): Action {
    if s.a.writer.Admitted? then Debit
    else if s.a.writer.Committed? then HandOver
    else if s.a.acking then WriteAck
    else if s.a.fp != [] then Read(|s.a.fp|)
    else if s.a.inbox != [] then PopFrame
    else if s.a.acks > 0 && Sending(s.a) then ConsumeAck
    else Deliver
  }

  lemma LeftMoveEnabled(W: Windows, s: System)
    requires Allowed(W) && Inv(W, s) && Histories(s) && Open(s)
    requires !IdleEnd(s.a) || s.ba != []
    ensures Draining(LeftMove(s)) && LeftStep(W, STRICT, s, LeftMove(s)).Next?
  {
    hide Stream, WireWeight, QueueWeight;
    OpenWires(W, s);
    LeftKeeps(W, s, LeftMove(s));
  }

  /** As long as anything is in flight, some draining move is enabled: nobody waits for nothing. */
  lemma SomeMoveEnabled(W: Windows, s: System) returns (m: Move)
    requires Allowed(W) && Inv(W, s) && Histories(s) && Open(s) && !Drained(s)
    ensures Draining(m.action) && Step(W, STRICT, s, m).Next?
  {
    hide Stream, WireWeight, QueueWeight;
    if !IdleEnd(s.a) || s.ba != [] {
      m := Move(true, LeftMove(s));
      LeftMoveEnabled(W, s);
    } else {
      m := Move(false, LeftMove(Swap(s)));
      SwapInv(W, s);
      LeftMoveEnabled(Flip(W), Swap(s));
    }
  }

  /** All credit is back: in the window, or in acks the next writeFrame will consume. */
  predicate CreditBack(W: nat, e: Endpoint) {
    e.window + e.acks == W && (Sending(e) ==> e.window == W)
  }

  /** Nothing in flight, all credit back, and everything sent in this session has been read. */
  predicate Whole(W: Windows, s: System) {
    && Drained(s) && CreditBack(W.a, s.a) && CreditBack(W.b, s.b)
    && s.a.session == s.b.session
    && |s.a.sentLog| == |s.a.readLog| == |s.b.sentLog| == |s.b.readLog| == s.a.session + 1
    && s.b.readLog[s.b.session] == s.a.sentLog[s.a.session]
    && s.a.readLog[s.a.session] == s.b.sentLog[s.b.session]
  }

  lemma DrainedIsWhole(W: Windows, s: System)
    requires Inv(W, s) && Open(s) && Drained(s)
    ensures Whole(W, s)
  {
    hide Stream;
    OpenWires(W, s);
    assert Unread(s.a) == [] && Unread(s.b) == [];
    PrefixPipe(s.a.sentLog, s.b.readLog, Unread(s.b), s.ab);
    PrefixPipe(s.b.sentLog, s.a.readLog, Unread(s.a), s.ba);
  }

  /** A schedule in which every move drains and none is blocked. */
  predicate DrainRun(W: Windows, s: System, schedule: seq<Move>)
    decreases |schedule|
  {
    schedule != [] ==>
      && Draining(schedule[0].action)
      && var o := Step(W, STRICT, s, schedule[0]);
      && o.Next? && DrainRun(W, o.next, schedule[1..])
  }

  lemma {:induction false} DrainBounded(W: Windows, s: System, schedule: seq<Move>)
    requires Allowed(W) && Inv(W, s) && Histories(s) && Open(s) && DrainRun(W, s, schedule)
    ensures |schedule| <= Weight(s)
    ensures var o := Run(W, STRICT, s, schedule); o.Next? && Open(o.next) && Inv(W, o.next)
    decreases |schedule|
  {
    if schedule != [] {
      DrainStep(W, s, schedule[0]);
      DrainBounded(W, Step(W, STRICT, s, schedule[0]).next, schedule[1..]);
    }
  }

  lemma {:induction false} DrainExists(W: Windows, s: System) returns (schedule: seq<Move>)
    requires Allowed(W) && Inv(W, s) && Histories(s) && Open(s)
    ensures DrainRun(W, s, schedule)
    ensures var o := Run(W, STRICT, s, schedule); o.Next? && Drained(o.next)
    decreases Weight(s)
  {
    if Drained(s) {
      schedule := [];
    } else {
      var m := SomeMoveEnabled(W, s);
      DrainStep(W, s, m);
      var rest := DrainExists(W, Step(W, STRICT, s, m).next);
      schedule := [m] + rest;
      assert schedule[1..] == rest;
    }
  }

  lemma {:induction false} DrainConcat(W: Windows, s: System, first: seq<Move>, rest: seq<Move>)
    requires DrainRun(W, s, first) && Run(W, STRICT, s, first).Next?
    requires DrainRun(W, Run(W, STRICT, s, first).next, rest)
    ensures DrainRun(W, s, first + rest)
    ensures Run(W, STRICT, s, first + rest) == Run(W, STRICT, Run(W, STRICT, s, first).next, rest)
    decreases |first|
  {
    hide Step;
    if first == [] {
      assert first + rest == rest;
    } else {
      assert (first + rest)[1..] == first[1..] + rest;
      DrainConcat(W, Step(W, STRICT, s, first[0]).next, first[1..], rest);
    }
  }

  /**
    From every reachable state with both ends open, draining moves in any order
    cannot go on for longer than the weight in flight, and however they were
    chosen so far, they can be completed to a run after which all credit is back
    at its sender and every byte sent has been read.
   */
  lemma NoWindowDeadlock(W: Windows, s: System, schedule: seq<Move>) returns (rest: seq<Move>)
    requires Reachable(W, s) && Open(s) && DrainRun(W, s, schedule)
    ensures DrainRun(W, s, schedule + rest) && |schedule + rest| <= Weight(s)
    ensures var o := Run(W, STRICT, s, schedule + rest); o.Next? && Whole(W, o.next)
  {
    ReachableInv(W, s);
    DrainBounded(W, s, schedule);
    RunKeeps(W, s, schedule);
    rest := DrainExists(W, Run(W, STRICT, s, schedule).next);
    DrainConcat(W, s, schedule, rest);
    DrainBounded(W, s, schedule + rest);
    DrainedIsWhole(W, Run(W, STRICT, s, schedule + rest).next);
  }

  /** The credit a writer with an empty window lacks is all in its own direction, on its way back. */
  lemma BlockedWriterHasCredit(W: Windows, s: System)
    requires Reachable(W, s) && Open(s) && Sending(s.a) && s.a.window == 0
    ensures DataIn(s.ab, s.a.session) + Owed(s.b) + AcksIn(s.ba, s.a.session) + s.a.acks == W.a > 0
  {
    hide Stream, WireWeight, QueueWeight;
    ReachableInv(W, s);
    OpenWires(W, s);
  }

  /** What a blocked writer waits for: deliveries, its peer's reads and acks, and acks it consumes itself. */
  predicate Helping(m: Move) {
    if m.left then m.action == Deliver || m.action == ConsumeAck
    else m.action == Deliver || m.action == PopFrame || m.action == WriteAck || (m.action.Read? && m.action.n > 0)
  }

  /** The next such move, following the credit backwards from the writer. */
  function HelpMove(s: System): Move {
    if s.a.acks > 0 then Move(true, ConsumeAck)
    else if AcksIn(s.ba, s.a.session) > 0 then Move(true, Deliver)
    else if s.b.acking then Move(false, WriteAck)
    else if s.b.fp != [] then Move(false, Read(|s.b.fp|))
    else if s.b.inbox != [] then Move(false, PopFrame)
    else Move(false, Deliver)
  }

  lemma HelpMoveEnabled(W: Windows, s: System)
    requires Allowed(W) && Inv(W, s) && Histories(s) && Open(s) && Sending(s.a) && s.a.window == 0
    ensures Helping(HelpMove(s)) && Draining(HelpMove(s).action)
    ensures var o := Step(W, STRICT, s, HelpMove(s));
      && o.Next? && o.next.a.fdw == s.a.fdw && o.next.a.writer == Idle
      && o.next.a.window == (if s.a.acks > 0 then 1 else 0)
  {
    hide Stream, WireWeight, QueueWeight, PipeInv;
    OpenWires(W, s);
    SwapInv(W, s);
    OpenWires(Flip(W), Swap(s));
    StepKeeps(W, s, HelpMove(s));
  }

  lemma {:induction false} UnblockFrom(W: Windows, s: System) returns (schedule: seq<Move>)
    requires Allowed(W) && Inv(W, s) && Histories(s) && Open(s) && Sending(s.a) && s.a.window == 0
    ensures forall i :: 0 <= i < |schedule| ==> Helping(schedule[i])
    ensures var o := Run(W, STRICT, s, schedule); o.Next? && FlushBuffer(o.next.a).Next? && o.next.a.fdw == s.a.fdw
    decreases Weight(s)
  {
    hide Inv, Histories, Step, WireWeight, QueueWeight, Helping;
    var m := HelpMove(s);
    HelpMoveEnabled(W, s);
    DrainStep(W, s, m);
    var t := Step(W, STRICT, s, m).next;
    var rest := [];
    if s.a.acks == 0 { rest := UnblockFrom(W, t); }
    schedule := [m] + rest;
    assert schedule[1..] == rest;
  }

  /**
    A writer blocked on an empty window is unblocked by deliveries, by its peer reading and
    acking, and by acks it consumes itself, and by nothing else: after such a run the window
    test passes for the very frame it was waiting with.
   */
  lemma WriterUnblocks(W: Windows, s: System) returns (schedule: seq<Move>)
    requires Reachable(W, s) && Open(s) && Sending(s.a) && s.a.window == 0
    ensures forall i :: 0 <= i < |schedule| ==> Helping(schedule[i])
    ensures var o := Run(W, STRICT, s, schedule); o.Next? && FlushBuffer(o.next.a).Next? && o.next.a.fdw == s.a.fdw
  {
    ReachableInv(W, s);
    schedule := UnblockFrom(W, s);
  }

  // ----- the closing handshake completes

  /** No Close is between closing localClosed and writing its final. */
  predicate Settled(s: System) {
    (s.a.closed ==> s.a.sentFinal) && (s.b.closed ==> s.b.sentFinal)
  }

  lemma DeliverLeft(W: Windows, s: System)
    requires Allowed(W) && Inv(W, s) && Histories(s) && Settled(s) && s.ba != []
    ensures var o := LeftStep(W, STRICT, s, Deliver);
      && o.Next? && Settled(o.next) && o.next.ab == s.ab && o.next.ba == s.ba[1..]
      && FinalsSent(o.next.a) == FinalsSent(s.a) && o.next.b == s.b
  {
    hide Stream, Credit, Ahead, PipeInv;
    LeftKeeps(W, s, Deliver);
  }

  lemma DeliverOne(W: Windows, s: System) returns (m: Move)
    requires Allowed(W) && Inv(W, s) && Histories(s) && Settled(s)
    requires s.ab != [] || s.ba != []
    ensures m.action == Deliver
    ensures var o := Step(W, STRICT, s, m);
      && o.Next? && Inv(W, o.next) && Histories(o.next) && Settled(o.next)
      && |o.next.ab| + |o.next.ba| < |s.ab| + |s.ba|
      && FinalsSent(o.next.a) == FinalsSent(s.a) && FinalsSent(o.next.b) == FinalsSent(s.b)
  {
    hide Inv, Histories;
    SwapInv(W, s);
    m := Move(s.ba != [], Deliver);
    StepKeeps(W, s, m);
    DeliverLeft(if m.left then W else Flip(W), if m.left then s else Swap(s));
  }

  lemma {:induction false} DeliverAll(W: Windows, s: System) returns (schedule: seq<Move>)
    requires Allowed(W) && Inv(W, s) && Histories(s) && Settled(s)
    ensures forall i :: 0 <= i < |schedule| ==> schedule[i].action == Deliver
    ensures var o := Run(W, STRICT, s, schedule);
      && o.Next? && Inv(W, o.next) && o.next.ab == [] && o.next.ba == []
      && FinalsSent(o.next.a) == FinalsSent(s.a) && FinalsSent(o.next.b) == FinalsSent(s.b)
    decreases |s.ab| + |s.ba|
  {
    hide Inv, Histories;
    if s.ab == [] && s.ba == [] {
      schedule := [];
    } else {
      var m := DeliverOne(W, s);
      var rest := DeliverAll(W, Step(W, STRICT, s, m).next);
      schedule := [m] + rest;
      assert schedule[1..] == rest;
    }
  }

  /**
    From every reachable state with no Close half done, delivering what is on the wires
    brings both ends to the same session: the number of sessions both have closed. In
    particular, two ends that each wait for the other's final both recycle.
   */
  lemma ClosingCompletes(W: Windows, s: System) returns (schedule: seq<Move>)
    requires Reachable(W, s) && Settled(s)
    ensures forall i :: 0 <= i < |schedule| ==> schedule[i].action == Deliver
    ensures var o := Run(W, STRICT, s, schedule);
      && o.Next? && o.next.ab == [] && o.next.ba == []
      && o.next.a.session == o.next.b.session
      && o.next.a.session == (if FinalsSent(s.a) <= FinalsSent(s.b) then FinalsSent(s.a) else FinalsSent(s.b))
      && (s.a.sentFinal && s.b.sentFinal && s.a.session == s.b.session ==>
            o.next.a.session == s.a.session + 1 && !o.next.a.sentFinal && !o.next.b.sentFinal)
  {
    ReachableInv(W, s);
    schedule := DeliverAll(W, s);
  }
}
