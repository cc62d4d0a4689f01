/**
  Each of the three rules the protocol trusts its owners to follow is needed:
  dropping any one of them, and keeping the other two, lets some run break, for
  every window size.
 */
module ProtocolAssumptions {
  import opened Bytes
  import opened Protocol

  lemma {:induction false} RunSnoc(W: Windows, r: Rules, s: System, schedule: seq<Move>, m: Move)
    requires Run(W, r, s, schedule).Next?
    ensures var t := Run(W, r, s, schedule).next;
      Run(W, r, s, schedule + [m]) == (if Step(W, r, t, m).Blocked? then Next(t) else Step(W, r, t, m))
    decreases |schedule|
  {
    if schedule == [] {
      assert schedule + [m] == [m] && [m][1..] == [];
    } else {
      assert (schedule + [m])[1..] == schedule[1..] + [m];
      var o := Step(W, r, s, schedule[0]);
      RunSnoc(W, r, if o.Next? then o.next else s, schedule[1..], m);
    }
  }

  lemma RunNothing(W: Windows, r: Rules)
    ensures Run(W, r, Init(W), []) == Next(Init(W))
  {
  }

  /** Continues a run from the initial state by one enabled move. */
  lemma Go(W: Windows, r: Rules, schedule: seq<Move>, s: System, m: Move, t: System) returns (longer: seq<Move>)
    requires Run(W, r, Init(W), schedule) == Next(s) && Step(W, r, s, m) == Next(t)
    ensures Run(W, r, Init(W), longer) == Next(t)
  {
    longer := schedule + [m];
    RunSnoc(W, r, Init(W), schedule, m);
  }

  /** The left end sends one frame of one byte. */
  lemma GoSend(W: Windows, r: Rules, schedule: seq<Move>, s: System, x: byte) returns (longer: seq<Move>)
    requires Run(W, r, Init(W), schedule) == Next(s)
    requires s.a.writer == Idle && s.a.fdw == Unset && !s.a.gotFinal && !s.a.closed && s.a.window > 0
    ensures Run(W, r, Init(W), longer)
      == Next(s.(a := s.a.(window := s.a.window - 1, sentLog := Extend(s.a.sentLog, [x]),
                           out := s.a.out + [Data(s.a.session, [x])]),
                 ab := s.ab + [Data(s.a.session, [x])]))
  {
    hide Run;
    assert [] + [x] == [x] && s.ab + [] == s.ab;
    var s1 := s.(a := s.a.(fdw := Filled([x])));
    longer := Go(W, r, schedule, s, Move(true, Fill([x])), s1);
    var s2 := s1.(a := s1.a.(fdw := Unset, writer := Admitted([x])));
    longer := Go(W, r, longer, s1, Move(true, Flush), s2);
    var s3 := s2.(a := s2.a.(window := s.a.window - 1, writer := Committed([x])));
    longer := Go(W, r, longer, s2, Move(true, Debit), s3);
    longer := Go(W, r, longer, s3, Move(true, HandOver), Step(W, r, s3, Move(true, HandOver)).next);
  }

  /** The right end closes before it has received a final. */
  lemma GoCloseRight(W: Windows, r: Rules, schedule: seq<Move>, s: System) returns (longer: seq<Move>)
    requires Run(W, r, Init(W), schedule) == Next(s)
    requires s.b.writer == Idle && s.b.fdw == Unset && !s.b.gotFinal && !s.b.closed && !s.b.sentFinal && !s.b.acking
    ensures var f := Final(s.b.session, false);
      Run(W, r, Init(W), longer)
      == Next(s.(b := s.b.(closed := true, sentFinal := true, out := s.b.out + [f]), ba := s.ba + [f]))
  {
    hide Run;
    assert s.ba + [] == s.ba;
    var s1 := s.(b := s.b.(closed := true));
    longer := Go(W, r, schedule, s, Move(false, CloseBegin), s1);
    longer := Go(W, r, longer, s1, Move(false, CloseFinish), Step(W, r, s1, Move(false, CloseFinish)).next);
  }

  /**
    Closing with data in fdw, whatever it is, writes no final: the peer stays behind and is
    sent frames of the next session. The data may be a record too big to be sent.
   */
  lemma FlushFirstNeeded(W: Windows, p: seq<byte>) returns (schedule: seq<Move>)
    requires Allowed(W)
    ensures var o := Run(W, STRICT.(flushFirst := false), Init(W), schedule);
      o.Next? && |o.next.ab| == 1 && o.next.ab[0].session == 1 && o.next.b.session == 0
  {
    hide Run;
    var r, s, f := STRICT.(flushFirst := false), Init(W), Final(0, false);
    var s3 := s.(a := s.a.(closed := true, sentFinal := true));
    schedule := GoCloseUnflushed(W, p);
    var s5 := s3.(b := s3.b.(closed := true, sentFinal := true, out := [f]), ba := [f]);
    assert [] + [f] == [f] && [f][1..] == [];
    schedule := GoCloseRight(W, r, schedule, s3);
    var s6 := s5.(a := Reset(W.a, s5.a.(seen := [f], gotFinal := true)), ba := []);
    schedule := Go(W, r, schedule, s5, Move(true, Deliver), s6);
    schedule := GoSend(W, r, schedule, s6, 2);
  }

  lemma GoCloseUnflushed(W: Windows, p: seq<byte>) returns (schedule: seq<Move>)
    requires Allowed(W)
    ensures Run(W, STRICT.(flushFirst := false), Init(W), schedule)
      == Next(Init(W).(a := Fresh(W.a).(closed := true, sentFinal := true)))
  {
    hide Run;
    var r, s := STRICT.(flushFirst := false), Init(W);
    assert s.ab + [] == s.ab && [] + p == p;
    var s1 := s.(a := s.a.(fdw := Filled(p)));
    RunNothing(W, r);
    schedule := Go(W, r, [], s, Move(true, Fill(p)), s1);
    var s2 := s1.(a := s1.a.(closed := true));
    schedule := Go(W, r, schedule, s1, Move(true, CloseBegin), s2);
    var s3 := s2.(a := s2.a.(sentFinal := true, fdw := Unset));
    schedule := Go(W, r, schedule, s2, Move(true, CloseFinish), s3);
  }

  /** The left end sends a frame, and the right end closes with that frame unread. */
  lemma GoUnread(W: Windows, r: Rules) returns (schedule: seq<Move>, s: System)
    requires Allowed(W)
    ensures Run(W, r, Init(W), schedule) == Next(s)
    ensures s.a == Fresh(W.a).(window := W.a - 1, sentLog := s.a.sentLog, out := s.a.out) && s.ba == [Final(0, false)]
    ensures s.b == Fresh(W.b).(inbox := [[1]], closed := true, sentFinal := true, out := s.b.out, seen := s.b.seen)
  {
    hide Run;
    var f, d := Final(0, false), Data(0, [1]);
    assert [] + [d] == [d] && [d][1..] == [] && [] + [[1]] == [[1]] && [] + [f] == [f];
    RunNothing(W, r);
    schedule := GoSend(W, r, [], Init(W), 1);
    var s1 := Run(W, r, Init(W), schedule).next;
    var s2 := s1.(b := s1.b.(inbox := [[1]], seen := [d]), ab := []);
    schedule := Go(W, r, schedule, s1, Move(false, Deliver), s2);
    schedule := GoCloseRight(W, r, schedule, s2);
    s := s2.(b := s2.b.(closed := true, sentFinal := true, out := [f]), ba := [f]);
  }

  /** The left end takes the final of the right end, closes, and recycles. */
  lemma GoRecycleLeft(W: Windows, r: Rules, schedule: seq<Move>, s: System) returns (longer: seq<Move>, t: System)
    requires r.atomicFinal && Run(W, r, Init(W), schedule) == Next(s)
    requires s.a == Fresh(W.a).(window := s.a.window, sentLog := s.a.sentLog, out := s.a.out)
    requires s.ba == [Final(0, false)]
    ensures Run(W, r, Init(W), longer) == Next(t)
    ensures t.a.session == 1 && t.a.window == W.a && t.a.acks == 0 && t.a.writer == Idle && t.a.fdw == Unset
    ensures !t.a.sentFinal && !t.a.closed && !t.a.gotFinal
    ensures t.b == s.b && t.ba == []
  {
    hide Run;
    var f, g := Final(0, false), Final(0, true);
    assert [] + [f] == [f] && [f][1..] == [] && s.ab + [] == s.ab;
    var s5 := s.(a := s.a.(gotFinal := true, seen := [f]), ba := []);
    longer := Go(W, r, schedule, s, Move(true, Deliver), s5);
    var s6 := s5.(a := s5.a.(closed := true));
    longer := Go(W, r, longer, s5, Move(true, CloseBegin), s6);
    t := s6.(a := Reset(W.a, s6.a.(sentFinal := true, out := s6.a.out + [g])), ab := s6.ab + [g]);
    longer := Go(W, r, longer, s6, Move(true, CloseFinish), t);
  }

  /** The right end reads a queued frame, although it has written its final. */
  lemma GoLateAck(W: Windows, r: Rules, schedule: seq<Move>, s: System) returns (longer: seq<Move>, t: System)
    requires !r.quietAfterClose && Run(W, r, Init(W), schedule) == Next(s)
    requires s.b.inbox != [] && s.b.fp == [] && !s.b.acking && s.ba == []
    ensures Run(W, r, Init(W), longer) == Next(t)
    ensures t.a == s.a && t.ba == [Ack(s.b.session)]
  {
    hide Run;
    var k := Ack(s.b.session);
    assert s.ba + [] == s.ba && [] + [k] == [k];
    var s1 := s.(b := s.b.(fp := s.b.inbox[0], inbox := s.b.inbox[1..], acking := true));
    longer := Go(W, r, schedule, s, Move(false, PopFrame), s1);
    t := s1.(b := s1.b.(acking := false, out := s1.b.out + [k]), ba := [k]);
    longer := Go(W, r, longer, s1, Move(false, WriteAck), t);
  }

  /** An ack written after the final arrives in the peer's next session and overflows its window. */
  lemma QuietAfterCloseNeeded(W: Windows) returns (schedule: seq<Move>)
    requires Allowed(W)
    ensures Run(W, STRICT.(quietAfterClose := false), Init(W), schedule) == Panicked(WindowOverflow)
  {
    hide Run;
    var r, k := STRICT.(quietAfterClose := false), Ack(0);
    var s;
    schedule, s := GoUnread(W, r);
    schedule, s := GoRecycleLeft(W, r, schedule, s);
    schedule, s := GoLateAck(W, r, schedule, s);
    assert [k][1..] == [];
    var t := s.(a := s.a.(acks := 1, seen := s.a.seen + [k]), ba := []);
    schedule := Go(W, r, schedule, s, Move(true, Deliver), t);
    assert [] + [2] == [2] && t.ab + [] == t.ab;
    var u := t.(a := t.a.(fdw := Filled([2])));
    schedule := Go(W, r, schedule, t, Move(true, Fill([2])), u);
    RunSnoc(W, r, Init(W), schedule, Move(true, ConsumeAck));
    schedule := schedule + [Move(true, ConsumeAck)];
  }

  /** The right end closes, and the left end has taken its final. */
  lemma GoTold(W: Windows, r: Rules) returns (schedule: seq<Move>, s: System)
    requires Allowed(W)
    ensures Run(W, r, Init(W), schedule) == Next(s)
    ensures s == System(Fresh(W.a).(gotFinal := true, seen := [Final(0, false)]),
                        Fresh(W.b).(closed := true, sentFinal := true, out := [Final(0, false)]), [], [])
  {
    hide Run;
    var f := Final(0, false);
    assert [] + [f] == [f] && [f][1..] == [];
    RunNothing(W, r);
    schedule := GoCloseRight(W, r, [], Init(W));
    var t := Init(W).(b := Fresh(W.b).(closed := true, sentFinal := true, out := [f]), ba := [f]);
    s := t.(a := t.a.(gotFinal := true, seen := [f]), ba := []);
    schedule := Go(W, r, schedule, t, Move(true, Deliver), s);
  }

  /** Then the left end writes the final ack, without recycling yet. */
  lemma GoHalfClosed(W: Windows, r: Rules) returns (schedule: seq<Move>, s: System)
    requires Allowed(W) && !r.atomicFinal
    ensures Run(W, r, Init(W), schedule) == Next(s)
    ensures s.a.gotFinal && s.ab == [Final(0, true)] && s.ba == []
    ensures s.b == Fresh(W.b).(closed := true, sentFinal := true, out := [Final(0, false)])
  {
    hide Run;
    var g, s3 := Final(0, true), Init(W);
    schedule, s3 := GoTold(W, r);
    assert [] + [g] == [g] && s3.ab + [] == s3.ab;
    var s4 := s3.(a := s3.a.(closed := true));
    schedule := Go(W, r, schedule, s3, Move(true, CloseBegin), s4);
    s := s4.(a := s4.a.(sentFinal := true, out := [g]), ab := [g]);
    schedule := Go(W, r, schedule, s4, Move(true, CloseFinish), s);
  }

  /** Then the right end recycles. */
  lemma GoHalfRecycled(W: Windows, r: Rules) returns (schedule: seq<Move>, s: System)
    requires Allowed(W) && !r.atomicFinal
    ensures Run(W, r, Init(W), schedule) == Next(s)
    ensures s.a.gotFinal && s.ba == []
    ensures s.b == Fresh(W.b).(session := 1, sentLog := s.b.sentLog, readLog := s.b.readLog,
                             out := s.b.out, seen := s.b.seen)
  {
    hide Run;
    var t;
    schedule, t := GoHalfClosed(W, r);
    var g := Final(0, true);
    assert [] + [g] == [g] && [g][1..] == [];
    s := t.(b := Reset(W.b, t.b.(gotFinal := true, seen := [g])), ab := []);
    schedule := Go(W, r, schedule, t, Move(false, Deliver), s);
  }

  /** The right end sends a frame. */
  lemma GoSendRight(W: Windows, r: Rules, schedule: seq<Move>, s: System) returns (longer: seq<Move>, t: System)
    requires Run(W, r, Init(W), schedule) == Next(s) && s.ba == []
    requires s.b.writer == Idle && s.b.fdw == Unset && !s.b.gotFinal && !s.b.closed && s.b.window > 0
    ensures Run(W, r, Init(W), longer) == Next(t) && t.a == s.a && t.ba == [Data(s.b.session, [1])]
  {
    hide Run;
    assert s.ba + [] == s.ba && [] + [1] == [1];
    var s1 := s.(b := s.b.(fdw := Filled([1])));
    longer := Go(W, r, schedule, s, Move(false, Fill([1])), s1);
    var s2 := s1.(b := s1.b.(fdw := Unset, writer := Admitted([1])));
    longer := Go(W, r, longer, s1, Move(false, Flush), s2);
    var s3 := s2.(b := s2.b.(window := s2.b.window - 1, writer := Committed([1])));
    longer := Go(W, r, longer, s2, Move(false, Debit), s3);
    t := Step(W, r, s3, Move(false, HandOver)).next;
    longer := Go(W, r, longer, s3, Move(false, HandOver), t);
  }

  /** Between writing the final ack and recycling, the peer can already start the next session. */
  lemma AtomicFinalNeeded(W: Windows) returns (schedule: seq<Move>)
    requires Allowed(W)
    ensures Run(W, STRICT.(atomicFinal := false), Init(W), schedule) == Panicked(FrameAfterFinal)
  {
    hide Run;
    var r := STRICT.(atomicFinal := false);
    var s;
    schedule, s := GoHalfRecycled(W, r);
    schedule, s := GoSendRight(W, r, schedule, s);
    RunSnoc(W, r, Init(W), schedule, Move(true, Deliver));
    schedule := schedule + [Move(true, Deliver)];
  }
}
