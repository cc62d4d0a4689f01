/**
  What one endpoint does during a call, as a sequence of steps of the conn protocol:
  steps of its own, and frames submitted to it meanwhile.
 */
module ProtocolCalls {
  import opened Bytes
  import opened Protocol
  import opened ProtocolInvariant

  datatype Event = Own(action: Action) | Arrive(frame: Frame)

  function Perform(W: nat, r: Rules, e: Endpoint, event: Event): Outcome<Endpoint> {
    match event
    case Arrive(f) => Submit(W, e, f)
    case Own(a) =>
      if a == Deliver then Blocked
      else match Act(W, r, e, a)
        case Next(m) => Next(m.e)
        case Blocked => Blocked
        case Panicked(p) => Panicked(p)
  }

  /** All events in order, if none of them is blocked and none panics. */
  function PerformAll(W: nat, r: Rules, e: Endpoint, events: seq<Event>): Outcome<Endpoint>
    decreases |events|
  {
    if events == [] then Next(e)
    else match Perform(W, r, e, events[0])
      case Next(e') => PerformAll(W, r, e', events[1..])
      case Blocked => Blocked
      case Panicked(p) => Panicked(p)
  }

  lemma PerformNone(W: nat, r: Rules, e: Endpoint)
    ensures PerformAll(W, r, e, []) == Next(e)
  {
  }

  lemma PerformOne(W: nat, r: Rules, e: Endpoint, event: Event)
    ensures PerformAll(W, r, e, [event]) == Perform(W, r, e, event)
  {
    hide Perform;
    assert [event][1..] == [];
  }

  lemma {:induction false} PerformConcat(W: nat, r: Rules, e: Endpoint, first: seq<Event>, e': Endpoint,
                                         rest: seq<Event>)
    requires PerformAll(W, r, e, first) == Next(e')
    ensures PerformAll(W, r, e, first + rest) == PerformAll(W, r, e', rest)
    decreases |first|
  {
    hide Perform;
    if first == [] {
      assert first + rest == rest;
    } else {
      assert (first + rest)[1..] == first[1..] + rest;
      PerformConcat(W, r, Perform(W, r, e, first[0]).next, first[1..], e', rest);
    }
  }

  /** Goes on by one event. */
  lemma Then(W: nat, r: Rules, e: Endpoint, events: seq<Event>, e': Endpoint, event: Event)
    requires PerformAll(W, r, e, events) == Next(e')
    ensures PerformAll(W, r, e, events + [event]) == Perform(W, r, e', event)
  {
    hide Perform, PerformAll;
    PerformConcat(W, r, e, events, e', [event]);
    PerformOne(W, r, e', event);
  }

  // ----- what arrived

  function FrameOf(event: Event): seq<Frame> { if event.Arrive? then [event.frame] else [] }

  function BytesOf(event: Event): seq<byte> {
    if event.Arrive? && event.frame.Data? then event.frame.payload else []
  }

  function PayloadOf(event: Event): seq<seq<byte>> {
    if event.Arrive? && event.frame.Data? then [event.frame.payload] else []
  }

  /** The payloads of the data frames that arrived. */
  function ArrivedPayloads(events: seq<Event>): seq<seq<byte>> {
    if events == [] then [] else PayloadOf(events[0]) + ArrivedPayloads(events[1..])
  }

  lemma {:induction false} PayloadsConcat(first: seq<Event>, rest: seq<Event>)
    ensures ArrivedPayloads(first + rest) == ArrivedPayloads(first) + ArrivedPayloads(rest)
  {
    hide PayloadOf;
    if first == [] {
      assert first + rest == rest;
    } else {
      assert (first + rest)[1..] == first[1..] + rest;
      PayloadsConcat(first[1..], rest);
      var p, q := PayloadOf(first[0]), ArrivedPayloads(first[1..]);
      assert p + (q + ArrivedPayloads(rest)) == (p + q) + ArrivedPayloads(rest);
    }
  }

  lemma {:induction false} PayloadsOne(event: Event)
    ensures ArrivedPayloads([event]) == PayloadOf(event) && ArrivedPayloads([]) == []
  {
    assert [event][1..] == [];
  }

  function Arrived(events: seq<Event>): seq<Frame> {
    if events == [] then [] else FrameOf(events[0]) + Arrived(events[1..])
  }

  function ArrivedBytes(events: seq<Event>): seq<byte> {
    if events == [] then [] else BytesOf(events[0]) + ArrivedBytes(events[1..])
  }

  lemma {:induction false} ArrivedConcat(first: seq<Event>, rest: seq<Event>)
    ensures ArrivedBytes(first + rest) == ArrivedBytes(first) + ArrivedBytes(rest)
    ensures Arrived(first + rest) == Arrived(first) + Arrived(rest)
  {
    hide FrameOf, BytesOf;
    if first == [] {
      assert first + rest == rest;
    } else {
      assert (first + rest)[1..] == first[1..] + rest;
      ArrivedConcat(first[1..], rest);
      var b, f := BytesOf(first[0]), FrameOf(first[0]);
      assert b + (ArrivedBytes(first[1..]) + ArrivedBytes(rest)) == (b + ArrivedBytes(first[1..])) + ArrivedBytes(rest);
      assert f + (Arrived(first[1..]) + Arrived(rest)) == (f + Arrived(first[1..])) + Arrived(rest);
    }
  }

  lemma ArrivedOne(event: Event)
    ensures ArrivedBytes([event]) == BytesOf(event) && Arrived([event]) == FrameOf(event)
  {
    assert [event][1..] == [];
  }

  // ----- a call is a run of the two-endpoint system

  function Schedule(events: seq<Event>): seq<Move> {
    if events == [] then []
    else [Move(true, if events[0].Arrive? then Deliver else events[0].action)] + Schedule(events[1..])
  }

  lemma ActOut(W: nat, r: Rules, e: Endpoint, a: Action)
    requires a != Deliver && Act(W, r, e, a).Next?
    ensures var m := Act(W, r, e, a).next; m.e.out == e.out + m.frames
  {
    assert e.out + [] == e.out;
  }

  lemma SubmitOut(W: nat, e: Endpoint, f: Frame)
    ensures Submit(W, e, f).Next? ==> Submit(W, e, f).next.out == e.out
  {
  }

  lemma EventIsMove(W: Windows, r: Rules, s: System, event: Event)
    requires Perform(W.a, r, s.a, event).Next?
    requires event.Arrive? ==> s.ba != [] && s.ba[0] == event.frame
    ensures var e := Perform(W.a, r, s.a, event).next;
      && s.a.out <= e.out
      && Step(W, r, s, Move(true, if event.Arrive? then Deliver else event.action))
         == Next(System(e, s.b, s.ab + e.out[|s.a.out|..], if event.Arrive? then s.ba[1..] else s.ba))
  {
    hide Act, Submit;
    if event.Arrive? {
      SubmitOut(W.a, s.a, event.frame);
      var e := Submit(W.a, s.a, event.frame).next;
      assert s.ab + e.out[|s.a.out|..] == s.ab;
    } else {
      ActOut(W.a, r, s.a, event.action);
      var m := Act(W.a, r, s.a, event.action).next;
      assert m.e.out[|s.a.out|..] == m.frames;
    }
  }

  /**
    If the frames that arrive during a call are the next ones on the wire, the call is a
    run: the endpoint ends as the call leaves it, what it handed over is on its wire, and
    the frames that arrived are off the other.
   */
  lemma {:induction false} CallIsRun(W: Windows, r: Rules, s: System, events: seq<Event>, e: Endpoint)
    requires PerformAll(W.a, r, s.a, events) == Next(e) && Arrived(events) <= s.ba
    ensures s.a.out <= e.out
    ensures Run(W, r, s, Schedule(events))
      == Next(System(e, s.b, s.ab + e.out[|s.a.out|..], s.ba[|Arrived(events)|..]))
    decreases |events|
  {
    hide Perform, Step, Arrived, Schedule;
    ScheduleFront(events);
    if events == [] {
      NothingArrived();
      assert s.ab + e.out[|s.a.out|..] == s.ab;
    } else {
      var ev, rest := events[0], events[1..];
      FrontArrived(events, s.ba);
      EventIsMove(W, r, s, ev);
      var e1 := Perform(W.a, r, s.a, ev).next;
      var t := System(e1, s.b, s.ab + e1.out[|s.a.out|..], if ev.Arrive? then s.ba[1..] else s.ba);
      CallIsRun(W, r, t, rest, e);
      OutGrows(s.ab, s.a.out, e1.out, e.out);
      assert t.ba[|Arrived(rest)|..] == s.ba[|Arrived(events)|..];
    }
  }

  lemma {:induction false} ScheduleFront(events: seq<Event>)
    ensures events == [] ==> Schedule(events) == []
    ensures events != [] ==>
      var schedule := Schedule(events);
      && schedule != [] && schedule[1..] == Schedule(events[1..])
      && schedule[0] == Move(true, if events[0].Arrive? then Deliver else events[0].action)
  {
  }

  lemma OutGrows(w: seq<Frame>, a: seq<Frame>, b: seq<Frame>, c: seq<Frame>)
    requires a <= b <= c
    ensures a <= c && (w + b[|a|..]) + c[|b|..] == w + c[|a|..]
  {
    assert c[|a|..] == b[|a|..] + c[|b|..];
  }

  lemma {:induction false} RunConcat(W: Windows, r: Rules, s: System, first: seq<Move>, t: System, rest: seq<Move>)
    requires Run(W, r, s, first) == Next(t)
    ensures Run(W, r, s, first + rest) == Run(W, r, t, rest)
    decreases |first|
  {
    hide Step;
    if first == [] {
      assert first + rest == rest;
    } else {
      assert (first + rest)[1..] == first[1..] + rest;
      var o := Step(W, r, s, first[0]);
      RunConcat(W, r, if o.Next? then o.next else s, first[1..], t, rest);
    }
  }

  lemma NothingArrived()
    ensures Arrived([]) == [] && ArrivedBytes([]) == []
  {
  }

  lemma FrontArrived(events: seq<Event>, w: seq<Frame>)
    requires events != [] && Arrived(events) <= w
    ensures var ev := events[0];
      && (ev.Arrive? ==> w != [] && w[0] == ev.frame && |Arrived(events)| == 1 + |Arrived(events[1..])|)
      && (!ev.Arrive? ==> Arrived(events) == Arrived(events[1..]))
      && Arrived(events[1..]) <= (if ev.Arrive? then w[1..] else w)
  {
    var rest := Arrived(events[1..]);
    if events[0].Arrive? {
      assert Arrived(events) == [events[0].frame] + rest;
      assert w[..|rest| + 1] == [events[0].frame] + rest;
      assert w[1..][..|rest|] == w[..|rest| + 1][1..] == rest;
    } else {
      assert [] + rest == rest;
    }
  }
}
