/**
  Close writes the final ack and then recycles, and the peer may act in between.
  Here that is two steps, as in the code, and the question is which runs it breaks.

  The key is that a half-closed endpoint can be settled, that is recycled ahead of
  time, without anyone but a racing frame noticing: runs of the two-step protocol are
  runs of the atomic one.
 */
module ProtocolRace {
  import opened Bytes
  import opened Protocol
  import opened ProtocolInvariant
  import opened ProtocolTheorems
  import ProtocolFlow

  /** The owners keep their rules, and recycling is a step of its own. */
  const RACY := STRICT.(atomicFinal := false)

  /** Close has written the final ack and has not recycled yet. */
  predicate HalfClosed(e: Endpoint) { e.sentFinal && e.gotFinal }

  function Settle(W: nat, e: Endpoint): Endpoint { if HalfClosed(e) then Reset(W, e) else e }

  function Settled(W: Windows, s: System): System { System(Settle(W.a, s.a), Settle(W.b, s.b), s.ab, s.ba) }

  predicate Recyclable(e: Endpoint) { HalfClosed(e) ==> CanRecycle(e) == None && e.writer == Idle && !e.acking }

  predicate RaceInv(W: Windows, s: System) {
    Recyclable(s.a) && Recyclable(s.b) && Inv(W, Settled(W, s)) && Histories(Settled(W, s))
  }

  /** A data frame is about to arrive at a half-closed endpoint. */
  predicate Races(s: System, m: Move) {
    var e, w := if m.left then s.a else s.b, if m.left then s.ba else s.ab;
    m.action == Deliver && HalfClosed(e) && w != [] && w[0].Data?
  }

  // ----- one step

  /** Away from the half-closed state the two protocols take the same steps, up to settling. */
  lemma SameAct(W: nat, e: Endpoint, a: Action)
    requires a != Deliver && !HalfClosed(e)
    ensures match Act(W, RACY, e, a)
            case Next(m) => Recyclable(m.e) && Act(W, STRICT, e, a) == Next(Emit(Settle(W, m.e), m.frames))
            case Blocked => Act(W, STRICT, e, a) == Blocked
            case Panicked(p) => Act(W, STRICT, e, a) == Panicked(p)
  {
  }

  lemma SameStep(W: Windows, s: System, a: Action)
    requires RaceInv(W, s) && !HalfClosed(s.a)
    ensures match LeftStep(W, RACY, s, a)
            case Next(t) =>
              Recyclable(t.a) && Recyclable(t.b) && LeftStep(W, STRICT, Settled(W, s), a) == Next(Settled(W, t))
            case Blocked => true
            case Panicked(p) => LeftStep(W, STRICT, Settled(W, s), a) == Panicked(p)
  {
    hide Inv, Histories, Act;
    if a != Deliver { SameAct(W.a, s.a, a); }
  }

  /** A half-closed endpoint only waits to be recycled; of its arrivals, a data frame panics and a final waits. */
  lemma HalfClosedStep(W: Windows, s: System, a: Action)
    requires RaceInv(W, s) && HalfClosed(s.a)
    ensures match LeftStep(W, RACY, s, a)
            case Next(t) => Recyclable(t.a) && t.b == s.b && Settled(W, t) == Settled(W, s) && !Races(s, Move(true, a))
            case Blocked => !Races(s, Move(true, a))
            case Panicked(p) => p == FrameAfterFinal && Races(s, Move(true, a)) && s.ba[0].session == s.a.session + 1
  {
    hide Stream, Histories, PipeInv;
    assert s.ab + [] == s.ab;
    ProtocolFlow.Facts(W, Settled(W, s));
  }

  lemma LeftRace(W: Windows, s: System, a: Action)
    requires Allowed(W) && RaceInv(W, s)
    ensures match LeftStep(W, RACY, s, a)
            case Next(t) => RaceInv(W, t) && !Races(s, Move(true, a))
            case Blocked => !Races(s, Move(true, a))
            case Panicked(p) => p == FrameAfterFinal && Races(s, Move(true, a)) && s.ba[0].session == s.a.session + 1
  {
    hide Inv, Histories, LeftStep, Settled, Recyclable;
    if HalfClosed(s.a) {
      HalfClosedStep(W, s, a);
    } else {
      SameStep(W, s, a);
      LeftKeeps(W, Settled(W, s), a);
    }
  }

  lemma SwapRace(W: Windows, s: System)
    ensures RaceInv(W, s) == RaceInv(Flip(W), Swap(s))
  {
    hide Inv, Histories, Settle;
    SwapInv(W, Settled(W, s));
  }

  lemma StepRace(W: Windows, s: System, m: Move)
    requires Allowed(W) && RaceInv(W, s)
    ensures match Step(W, RACY, s, m)
            case Next(t) => RaceInv(W, t) && !Races(s, m)
            case Blocked => !Races(s, m)
            case Panicked(p) => p == FrameAfterFinal && Races(s, m)
  {
    hide RaceInv, LeftStep, HalfClosed;
    if m.left {
      LeftRace(W, s, m.action);
    } else {
      SwapRace(W, s);
      LeftRace(Flip(W), Swap(s), m.action);
      var o := LeftStep(Flip(W), RACY, Swap(s), m.action);
      if o.Next? { SwapRace(Flip(W), o.next); }
    }
  }

  /** At some point of the run, the scheduled move races. */
  predicate RacesAlong(W: Windows, s: System, schedule: seq<Move>)
    decreases |schedule|
  {
    && schedule != []
    && (Races(s, schedule[0])
        || var o := Step(W, RACY, s, schedule[0]);
           RacesAlong(W, if o.Next? then o.next else s, schedule[1..]))
  }

  lemma {:induction false} RunRace(W: Windows, s: System, schedule: seq<Move>)
    requires Allowed(W) && RaceInv(W, s)
    ensures match Run(W, RACY, s, schedule)
            case Next(t) => RaceInv(W, t) && !RacesAlong(W, s, schedule)
            case Blocked => false
            case Panicked(p) => p == FrameAfterFinal && RacesAlong(W, s, schedule)
    decreases |schedule|
  {
    hide RaceInv, Step, Races;
    if schedule != [] {
      StepRace(W, s, schedule[0]);
      var o := Step(W, RACY, s, schedule[0]);
      if !o.Panicked? { RunRace(W, if o.Next? then o.next else s, schedule[1..]); }
    }
  }

  ghost predicate RaceReachable(W: Windows, s: System) {
    Allowed(W) && exists schedule :: Run(W, RACY, Init(W), schedule) == Next(s)
  }

  lemma InitRace(W: Windows)
    requires Allowed(W)
    ensures RaceInv(W, Init(W))
  {
    RunsFromInit(W);
    assert Settled(W, Init(W)) == Init(W);
  }

  lemma RunsFromInit(W: Windows)
    requires Allowed(W)
    ensures Inv(W, Init(W)) && Histories(Init(W))
  {
    NoPanic(W, []);
  }

  /**
    In every reachable state of the two-step protocol, a step panics if and only if it
    delivers a data frame to a half-closed endpoint; that frame is of the peer's next
    session, and the panic is "received frame after final". Recycled ahead of time, the
    state is one the atomic protocol's invariant describes.
   */
  lemma RaceExactly(W: Windows, s: System, m: Move)
    requires RaceReachable(W, s)
    ensures Step(W, RACY, s, m).Panicked? <==> Races(s, m)
    ensures Step(W, RACY, s, m).Panicked? ==> Step(W, RACY, s, m) == Panicked(FrameAfterFinal)
    ensures Races(s, m) ==>
      if m.left then s.ba[0].session == s.a.session + 1 else s.ab[0].session == s.b.session + 1
    ensures Inv(W, Settled(W, s)) && Histories(Settled(W, s))
  {
    hide Run, Step, LeftStep, Inv, Histories;
    var schedule :| Run(W, RACY, Init(W), schedule) == Next(s);
    InitRace(W);
    RunRace(W, Init(W), schedule);
    StepRace(W, s, m);
    SwapRace(W, s);
    LeftRace(if m.left then W else Flip(W), if m.left then s else Swap(s), m.action);
  }

  /** The same over whole runs. */
  lemma RunPanicsIff(W: Windows, schedule: seq<Move>)
    requires Allowed(W)
    ensures Run(W, RACY, Init(W), schedule).Panicked? <==> RacesAlong(W, Init(W), schedule)
  {
    InitRace(W);
    RunRace(W, Init(W), schedule);
  }

  // ----- a discipline that avoids the race

  /**
    The left end opens every session and closes it second; the right end sends nothing
    in a session before a data frame of that session has reached it.
   */
  predicate Orderly(s: System, m: Move) {
    if m.left then m.action == CloseBegin ==> s.a.gotFinal
    else m.action == Flush ==> DataIn(s.b.seen, s.b.session) > 0
  }

  predicate OutBounded(e: Endpoint) { forall i :: 0 <= i < |e.out| ==> e.out[i].session <= e.session }

  predicate Second(e: Endpoint) { e.closed ==> e.gotFinal }

  /** Unless data has arrived in this session, none has been sent in it. */
  predicate Answers(e: Endpoint) {
    DataIn(e.seen, e.session) == 0 ==> e.writer == Idle && DataIn(e.out, e.session) == 0
  }

  predicate OrderlyInv(W: Windows, s: System) {
    && RaceInv(W, s) && OutBounded(s.a) && OutBounded(s.b)
    && Second(s.a) && !s.b.gotFinal && Answers(s.b)
  }

  lemma {:induction false} DataInSplit(v: seq<Frame>, w: seq<Frame>, k: nat)
    ensures DataIn(v + w, k) == DataIn(v, k) + DataIn(w, k)
  {
    if v == [] {
      assert v + w == w;
    } else {
      assert (v + w)[1..] == v[1..] + w;
      DataInSplit(v[1..], w, k);
    }
  }

  lemma NoRace(W: Windows, s: System, m: Move)
    requires OrderlyInv(W, s)
    ensures !Races(s, m)
  {
    hide Stream, PipeInv, Credit, Ahead;
    if Races(s, m) {
      var t, k := Settled(W, s), s.a.session + 1;
      ProtocolFlow.Facts(W, t);
      assert s.b.session == k && DataIn(s.ba, k) > 0;
      DataInSplit(s.a.seen, s.ba, k);
      DataInSplit(s.b.seen, s.ab, k);
      NoneOfSession(s.a.out, k);
      assert false;
    }
  }

  lemma OrderlyLeft(W: Windows, s: System, a: Action)
    requires OrderlyInv(W, s) && Orderly(s, Move(true, a))
    ensures var o := LeftStep(W, RACY, s, a); o.Next? ==> OutBounded(o.next.a) && Second(o.next.a) && o.next.b == s.b
  {
    hide Stream, PipeInv, Credit, Ahead;
  }

  /** A final reaches the right end only after that end has written its own. */
  lemma FinalAnswers(W: Windows, s: System)
    requires OrderlyInv(W, s) && s.ab != [] && s.ab[0].Final?
    ensures s.b.sentFinal
  {
    hide PipeInv, Credit, Ahead;
    var t := Settled(W, s);
    ProtocolFlow.Facts(W, t);
    StreamGrows(s.ab[1..], FinalsGot(t.b) + 1, FinalsSent(t.a));
  }

  lemma OrderlyDeliver(W: Windows, s: System)
    requires OrderlyInv(W, s) && s.ab != []
    ensures var o := Submit(W.b, s.b, s.ab[0]); o.Next? ==> OutBounded(o.next) && !o.next.gotFinal && Answers(o.next)
  {
    hide Stream, PipeInv, Credit, Ahead;
    var f := s.ab[0];
    SwapInv(W, Settled(W, s));
    ProtocolFlow.Facts(Flip(W), Swap(Settled(W, s)));
    MeasuresAppend(s.b.seen, f, s.b.session);
    if f.Final? {
      FinalAnswers(W, s);
      NoneOfSession(s.b.out, s.b.session + 1);
    }
  }

  lemma OrderlyAct(W: nat, e: Endpoint, a: Action)
    requires OutBounded(e) && !e.gotFinal && Answers(e) && a != Deliver
    requires a == Flush ==> DataIn(e.seen, e.session) > 0
    ensures var o := Act(W, RACY, e, a); o.Next? ==> OutBounded(o.next.e) && !o.next.e.gotFinal && Answers(o.next.e)
  {
    hide DataIn, AcksIn, BytesIn, Extend;
    MeasuresAppend(e.out, Ack(e.session), e.session);
    MeasuresAppend(e.out, Final(e.session, false), e.session);
  }

  lemma OrderlyStep(W: Windows, s: System, m: Move)
    requires Allowed(W) && OrderlyInv(W, s) && Orderly(s, m)
    ensures var o := Step(W, RACY, s, m); !o.Panicked? && (o.Next? ==> OrderlyInv(W, o.next))
  {
    hide RaceInv, Races, Act, Submit, OutBounded, Second, Answers;
    StepRace(W, s, m);
    NoRace(W, s, m);
    if m.left {
      OrderlyLeft(W, s, m.action);
    } else if m.action != Deliver {
      OrderlyAct(W.b, s.b, m.action);
    } else if s.ab != [] {
      OrderlyDeliver(W, s);
    }
  }

  /** Every move of the schedule is orderly in the state it is made in. */
  predicate OrderlyRun(W: Windows, s: System, schedule: seq<Move>)
    decreases |schedule|
  {
    schedule != [] ==>
      && Orderly(s, schedule[0])
      && var o := Step(W, RACY, s, schedule[0]);
      OrderlyRun(W, if o.Next? then o.next else s, schedule[1..])
  }

  lemma {:induction false} OrderlyRunKeeps(W: Windows, s: System, schedule: seq<Move>)
    requires Allowed(W) && OrderlyInv(W, s) && OrderlyRun(W, s, schedule)
    ensures var o := Run(W, RACY, s, schedule); o.Next? && OrderlyInv(W, o.next)
    decreases |schedule|
  {
    hide OrderlyInv, Step, Orderly;
    if schedule != [] {
      OrderlyStep(W, s, schedule[0]);
      var o := Step(W, RACY, s, schedule[0]);
      OrderlyRunKeeps(W, if o.Next? then o.next else s, schedule[1..]);
    }
  }

  /**
    If only the end that closes second opens sessions, no run of the two-step protocol
    panics, and what holds of the atomic protocol holds at its end.
   */
  lemma OpenerClosesSecond(W: Windows, schedule: seq<Move>)
    requires Allowed(W) && OrderlyRun(W, Init(W), schedule)
    ensures var o := Run(W, RACY, Init(W), schedule);
      o.Next? && Inv(W, Settled(W, o.next)) && Histories(Settled(W, o.next))
  {
    InitRace(W);
    OrderlyRunKeeps(W, Init(W), schedule);
  }
}
