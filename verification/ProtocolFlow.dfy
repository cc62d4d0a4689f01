/** Every step of the conn protocol keeps the flow part of the invariant, and no step panics. */
module ProtocolFlow {
  import opened Bytes
  import opened Protocol
  import opened ProtocolInvariant

  /** A step that does not panic, and whose result, if it is not blocked, keeps the invariant. */
  predicate Safe(W: Windows, o: Outcome<System>) {
    match o
    case Next(t) => FlowInv(W, t)
    case Blocked => true
    case Panicked(_) => false
  }

  lemma Facts(W: Windows, s: System)
    requires FlowInv(W, s)
    ensures s.a.session <= s.b.session + 1 && s.b.session <= s.a.session + 1
    ensures s.a.session > s.b.session ==> s.ba == [] && s.b.sentFinal && !s.a.gotFinal && !s.b.gotFinal
    ensures s.b.session > s.a.session ==> s.ab == [] && s.a.sentFinal && !s.a.gotFinal && !s.b.gotFinal
    ensures s.b.gotFinal ==> s.ab == [] && s.a.session == s.b.session && s.a.sentFinal
    ensures s.a.gotFinal ==> s.ba == [] && s.a.session == s.b.session && s.b.sentFinal
    ensures s.ba != [] ==> s.ba[0].session == s.a.session && !s.a.gotFinal
    ensures forall i :: 0 <= i < |s.ab| ==> s.b.session <= s.ab[i].session <= s.a.session
    ensures forall i :: 0 <= i < |s.ba| ==> s.a.session <= s.ba[i].session <= s.b.session
  {
    hide Stream, DataIn, AcksIn;
    WireFacts(s.a, s.b, s.ab, s.ba);
    WireFacts(s.b, s.a, s.ba, s.ab);
  }

  /** The flow invariant looks at an endpoint only through these projections. */
  lemma SameFlow(W: Windows, s: System, e: Endpoint)
    requires FlowInv(W, s) && Local(W.a, e)
    requires e.session == s.a.session && e.sentFinal == s.a.sentFinal && e.gotFinal == s.a.gotFinal
    requires Held(e) == Held(s.a) && Owed(e) == Owed(s.a) && e.acks == s.a.acks
    ensures FlowInv(W, System(e, s.b, s.ab + [], s.ba))
  {
    hide Stream, DataIn, AcksIn;
    assert s.ab + [] == s.ab;
  }

  lemma QuietSteps(W: Windows, s: System, a: Action)
    requires FlowInv(W, s)
    requires a.Start? || a.Fill? || a.Drop? || a.Flush? || a.Debit?
      || a.PopFrame? || a.Read? || a.CloseBegin? || a.Recycle?
    ensures Safe(W, LeftStep(W, STRICT, s, a))
  {
    hide Stream, DataIn, AcksIn;
    var o := Act(W.a, STRICT, s.a, a);
    assert !o.Panicked?;
    if o.Next? {
      assert o.next.frames == [];
      SameFlow(W, s, o.next.e);
    }
  }

  lemma ConsumeStep(W: Windows, s: System)
    requires FlowInv(W, s)
    ensures Safe(W, LeftStep(W, STRICT, s, ConsumeAck))
  {
    hide Stream, DataIn, AcksIn;
    assert s.ab + [] == s.ab;
    Facts(W, s);
  }

  // ----- steps that put a frame on the wire

  lemma WireAppend(w: seq<Frame>, taken: nat, session: nat, f: Frame)
    requires Wire(w, taken, session, session) && f.session == session
    ensures Wire(w + [f], taken, if f.Final? then session + 1 else session, session)
  {
    StreamAppend(w, taken, session, f);
  }

  /** Writing one frame of the current session, with the credit it carries leaving the endpoint. */
  lemma Emitted(W: Windows, s: System, e: Endpoint, f: Frame)
    requires FlowInv(W, s) && Local(W.a, e) && !s.a.sentFinal
    requires f.session == e.session == s.a.session && e.sentFinal == f.Final? && e.gotFinal == s.a.gotFinal
    requires Held(e) + (if f.Data? then 1 else 0) == Held(s.a) && e.acks == s.a.acks
    requires Owed(e) + (if f.Ack? then 1 else 0) == Owed(s.a)
    ensures FlowInv(W, System(e, s.b, s.ab + [f], s.ba))
  {
    hide Stream, DataIn, AcksIn, Wire, Local;
    EmittedWire(W, s, e, f);
    MeasuresAppend(s.ab, f, s.a.session);
    MeasuresAppend(s.ab, f, s.b.session);
  }

  lemma EmittedWire(W: Windows, s: System, e: Endpoint, f: Frame)
    requires FlowInv(W, s) && !s.a.sentFinal
    requires f.session == e.session == s.a.session && e.sentFinal == f.Final? && e.gotFinal == s.a.gotFinal
    ensures s.b.session <= s.a.session
    ensures Wire(s.ab + [f], FinalsGot(s.b), FinalsSent(e), e.session)
    ensures Wire(s.ba, FinalsGot(e), FinalsSent(s.b), s.b.session)
  {
    hide Stream, DataIn, AcksIn;
    Facts(W, s);
    WireAppend(s.ab, FinalsGot(s.b), s.a.session, f);
  }

  lemma HandOverStep(W: Windows, s: System)
    requires FlowInv(W, s)
    ensures Safe(W, LeftStep(W, STRICT, s, HandOver))
  {
    hide Wire, Credit, Ahead;
    if s.a.writer.Committed? {
      var m := HandOverFrame(s.a).next;
      Emitted(W, s, m.e, m.frames[0]);
    }
  }

  lemma AckStep(W: Windows, s: System)
    requires FlowInv(W, s)
    ensures Safe(W, LeftStep(W, STRICT, s, WriteAck))
  {
    hide Wire, Credit, Ahead;
    if s.a.acking {
      var m := AckFrame(s.a).next;
      Emitted(W, s, m.e, m.frames[0]);
    }
  }

  // ----- recycling

  /** Both finals of x's session are done, and x has not been reset yet. */
  predicate Ready(W: Windows, x: Endpoint, y: Endpoint, xy: seq<Frame>, yx: seq<Frame>) {
    && x.sentFinal && x.gotFinal && x.closed && x.fdw == Unset && x.writer == Idle && !x.acking
    && 0 <= x.window && |x.sentLog| == |x.readLog| == x.session + 1
    && Local(W.b, y) && x.session <= y.session <= x.session + 1
    && Wire(xy, FinalsGot(y), FinalsSent(x), x.session) && Wire(yx, FinalsGot(x), FinalsSent(y), y.session)
    && (y.session == x.session ==> y.sentFinal && yx == [])
    && (y.session > x.session ==> xy == [])
    && Credit(W.a, x.session, y.session, Held(x), Owed(y), xy, yx)
    && Credit(W.b, y.session, x.session, Held(y), Owed(x), yx, xy)
    && Ahead(y.session, x.session, y.acks, Owed(y), yx)
  }

  lemma RecycleStep(W: Windows, x: Endpoint, y: Endpoint, xy: seq<Frame>, yx: seq<Frame>)
    requires Ready(W, x, y, xy, yx)
    ensures RecycleLocked(W.a, x).Next?
    ensures FlowInv(W, System(RecycleLocked(W.a, x).next, y, xy, yx))
  {
    hide Stream, DataIn, AcksIn;
    NoneOfSession(xy, x.session + 1);
  }

  lemma FinishRecycles(W: Windows, s: System)
    requires FlowInv(W, s) && s.a.gotFinal && s.a.closed && !s.a.acking && s.a.writer == Idle
    ensures var f := Final(s.a.session, true);
      Ready(W, Send(s.a.(sentFinal := true, fdw := Unset), f).e, s.b, s.ab + [f], s.ba)
  {
    hide Stream, DataIn, AcksIn;
    Facts(W, s);
    var f := Final(s.a.session, true);
    MeasuresAppend(s.ab, f, s.a.session);
    MeasuresAppend(s.ab, f, s.b.session);
    WireAppend(s.ab, FinalsGot(s.b), s.a.session, f);
  }

  lemma FinishStep(W: Windows, s: System)
    requires FlowInv(W, s)
    ensures Safe(W, LeftStep(W, STRICT, s, CloseFinish))
  {
    hide Wire, Credit, Ahead;
    var e := s.a;
    if Finish(W.a, STRICT, e) != Blocked {
      var f := Final(e.session, e.gotFinal);
      var x := Send(e.(sentFinal := true, fdw := Unset), f).e;
      if e.gotFinal {
        FinishRecycles(W, s);
        RecycleStep(W, x, s.b, s.ab + [f], s.ba);
      } else {
        Emitted(W, s, x, f);
      }
    }
  }

  // ----- delivery

  lemma DeliverAck(W: Windows, s: System)
    requires Allowed(W) && FlowInv(W, s) && s.ba != [] && s.ba[0].Ack?
    ensures Safe(W, LeftStep(W, STRICT, s, Deliver))
  {
    Facts(W, s);
  }

  lemma DeliverData(W: Windows, s: System)
    requires Allowed(W) && FlowInv(W, s) && s.ba != [] && s.ba[0].Data?
    ensures Safe(W, LeftStep(W, STRICT, s, Deliver))
  {
    Facts(W, s);
  }

  lemma DeliverFinal(W: Windows, s: System)
    requires FlowInv(W, s) && s.ba != [] && s.ba[0].Final?
    ensures Safe(W, LeftStep(W, STRICT, s, Deliver))
  {
    Facts(W, s);
    var e := s.a.(seen := s.a.seen + [s.ba[0]], gotFinal := true);
    var rest := s.ba[1..];
    StreamGrows(rest, FinalsGot(e), FinalsSent(s.b));
    assert rest != [] ==> rest[0].session <= s.b.session;
    if e.sentFinal {
      RecycleStep(W, e, s.b, s.ab, rest);
    }
  }

  lemma FlowSafe(W: Windows, s: System, a: Action)
    requires Allowed(W) && FlowInv(W, s)
    ensures Safe(W, LeftStep(W, STRICT, s, a))
  {
    hide Flow;
    match a
    case HandOver => HandOverStep(W, s);
    case WriteAck => AckStep(W, s);
    case CloseFinish => FinishStep(W, s);
    case ConsumeAck => ConsumeStep(W, s);
    case Deliver =>
      if s.ba != [] {
        match s.ba[0]
        case Final(_, _) => DeliverFinal(W, s);
        case Ack(_) => DeliverAck(W, s);
        case Data(_, _) => DeliverData(W, s);
      }
    case _ => QuietSteps(W, s, a);
  }
}
