/**
  connDeadline of conn.go: `set` and `wait` under a mutex, and a timer whose
  callback closes the current cancel channel without taking that mutex.

  Timers and callbacks live in the runtime: dropping the reference in d.timer stops
  neither, so both are counted apart from it.
 */
module Deadline {
  import opened Bytes

  datatype When = Never | Future | Past

  datatype State = State(
    cancel: nat,          // the current channel, by serial number
    next: nat,            // channels made so far
    closed: set<nat>,
    timer: bool,          // d.timer is not nil
    armed: nat,           // timers that have yet to go off
    callbacks: nat,       // callbacks started that have yet to close d.cancel
    setter: Option<When>, // the set call that holds the mutex, if any
    returned: set<nat>)   // every channel wait has ever returned

  datatype Step =
    | SetEnter(w: When)   // takes the mutex, and stops the timer if it has not gone off
    | SetFinish           // the rest of set, which waits on cancel if the timer had gone off
    | Expire              // a timer goes off and starts its callback
    | Callback            // close(d.cancel)
    | Wait

  datatype Outcome = Next(s: State) | Blocked | DoubleClose

  function Init(): State { State(0, 1, {}, false, 0, 0, None, {}) }

  function Close(s: State): Outcome {
    if s.cancel in s.closed then DoubleClose else Next(s.(closed := s.closed + {s.cancel}))
  }

  /** A new open channel, if the current one is closed. */
  function Reopened(s: State): State {
    if s.cancel in s.closed then s.(cancel := s.next, next := s.next + 1) else s
  }

  function Finish(s: State, w: When): Outcome {
    var s := s.(timer := false, setter := None);
    match w
    case Never => Next(Reopened(s))
    case Future => Next(Reopened(s).(timer := true, armed := s.armed + 1))
    case Past => if s.cancel in s.closed then Next(s) else Close(s)
  }

  function Do(s: State, step: Step): Outcome {
    match step
    case SetEnter(w) =>
      if s.setter != None then Blocked
      else if s.timer && s.armed > 0 then Next(s.(setter := Some(w), timer := false, armed := s.armed - 1))
      else Next(s.(setter := Some(w)))
    case SetFinish =>
      if s.setter == None || (s.timer && s.cancel !in s.closed) then Blocked
      else Finish(s, s.setter.value)
    case Expire => if s.armed > 0 then Next(s.(armed := s.armed - 1, callbacks := s.callbacks + 1)) else Blocked
    case Callback => if s.callbacks > 0 then Close(s.(callbacks := s.callbacks - 1)) else Blocked
    case Wait => if s.setter != None then Blocked else Next(s.(returned := s.returned + {s.cancel}))
  }

  function Run(s: State, steps: seq<Step>): Outcome
    decreases |steps|
  {
    if steps == [] then Next(s)
    else match Do(s, steps[0])
      case Next(t) => Run(t, steps[1..])
      case Blocked => Run(s, steps[1..])
      case DoubleClose => DoubleClose
  }

  /**
    At most one timer or callback is under way, the one d.timer refers to, and it faces an
    open channel; every channel ever made is the current one or closed.
   */
  predicate Inv(s: State) {
    && s.cancel < s.next && (forall c :: c in s.closed ==> c < s.next)
    && s.armed + s.callbacks <= 1
    && (s.armed + s.callbacks > 0 ==> s.timer && s.cancel !in s.closed)
    && (s.timer && s.armed + s.callbacks == 0 ==> s.cancel in s.closed)
    && (s.setter != None ==> s.armed == 0)
    && (forall c :: 0 <= c < s.next ==> c == s.cancel || c in s.closed)
    && (forall c :: c in s.returned ==> c < s.next)
  }

  lemma StepKeeps(s: State, step: Step)
    requires Inv(s)
    ensures var o := Do(s, step); o != DoubleClose && (o.Next? ==> Inv(o.s) && s.closed <= o.s.closed)
  {
  }

  lemma {:induction false} RunKeeps(s: State, steps: seq<Step>)
    requires Inv(s)
    ensures Run(s, steps).Next? && Inv(Run(s, steps).s)
    decreases |steps|
  {
    if steps != [] {
      StepKeeps(s, steps[0]);
      var o := Do(s, steps[0]);
      RunKeeps(if o.Next? then o.s else s, steps[1..]);
    }
  }

  /**
    Over every interleaving of set, wait, expiry and callback: no channel is closed twice,
    a timer or callback under way has an open channel to close, and no waiter holds a channel
    that is neither current nor closed.
   */
  lemma DeadlineSafety(steps: seq<Step>)
    ensures var o := Run(Init(), steps);
      && o.Next?
      && (o.s.armed + o.s.callbacks > 0 ==> o.s.cancel !in o.s.closed)
      && (forall c :: c in o.s.returned ==> c == o.s.cancel || c in o.s.closed)
  {
    RunKeeps(Init(), steps);
  }

  ghost predicate Reachable(s: State) { exists steps :: Run(Init(), steps) == Next(s) }

  lemma ReachableInv(s: State)
    requires Reachable(s)
    ensures Inv(s)
  {
    var steps :| Run(Init(), steps) == Next(s);
    RunKeeps(Init(), steps);
  }

  /**
    No timer or callback outlives the deadline it was started for: at most one is under way,
    and it is the current timer's; and when set returns, none of an earlier deadline is left.
   */
  lemma NothingOutlivesItsDeadline(s: State)
    requires Reachable(s)
    ensures s.armed + s.callbacks <= (if s.timer then 1 else 0)
    ensures s.setter != None && Do(s, SetFinish).Next? ==>
      Do(s, SetFinish).s.callbacks == 0 && Do(s, SetFinish).s.armed == (if s.setter == Some(Future) then 1 else 0)
  {
    ReachableInv(s);
  }

  /** Not waiting for the callback would not do: a run whose set goes ahead, and then closes again. */
  lemma SetMustWait()
    ensures var started := Run(Init(), [SetEnter(Future), SetFinish, Expire, SetEnter(Past)]);
      && started.Next? && Do(started.s, SetFinish) == Blocked
      && Finish(started.s, Past).Next? && Do(Finish(started.s, Past).s, Callback) == DoubleClose
  {
    var s1 := Do(Init(), SetEnter(Future)).s;
    var s2 := Do(s1, SetFinish).s;
    var s3 := Do(s2, Expire).s;
    var s4 := Do(s3, SetEnter(Past)).s;
    assert Run(s3, [SetEnter(Past)]) == Next(s4) by { assert Run(s4, []) == Next(s4); }
    assert Run(s2, [Expire, SetEnter(Past)]) == Next(s4) by {
      assert [Expire, SetEnter(Past)][1..] == [SetEnter(Past)];
    }
    assert Run(s1, [SetFinish, Expire, SetEnter(Past)]) == Next(s4) by {
      assert [SetFinish, Expire, SetEnter(Past)][1..] == [Expire, SetEnter(Past)];
    }
    assert [SetEnter(Future), SetFinish, Expire, SetEnter(Past)][1..] == [SetFinish, Expire, SetEnter(Past)];
  }

  /** A set call that waits for the callback always gets it, and an expired deadline wakes every waiter. */
  lemma NobodyStranded(s: State)
    requires Reachable(s)
    ensures s.setter != None ==> Do(s, SetFinish).Next? || Do(s, Callback).Next?
    ensures s.armed > 0 ==> Do(s, Expire).Next? && Do(Do(s, Expire).s, Callback).Next?
    ensures Do(s, Callback).Next? ==> s.returned <= Do(s, Callback).s.closed
    ensures s.setter == Some(Past) && Do(s, SetFinish).Next? ==> s.returned <= Do(s, SetFinish).s.closed
  {
    ReachableInv(s);
  }

  /**
    What set promises: a zero or future time leaves the deadline unexpired, with a timer
    running exactly for a future time, and keeps a channel that is still open; a past time
    leaves it expired, with no timer.
   */
  lemma SetMeans(s: State)
    requires Reachable(s) && s.setter != None && Do(s, SetFinish).Next?
    ensures var t := Do(s, SetFinish).s;
      && (t.cancel in t.closed <==> s.setter == Some(Past))
      && (t.timer <==> s.setter == Some(Future)) && (t.armed == 1 <==> s.setter == Some(Future)) && t.callbacks == 0
      && (s.cancel !in s.closed ==> t.cancel == s.cancel)
      && t.setter == None && t.returned == s.returned
  {
    ReachableInv(s);
  }

  /** Wait returns the current channel, so one that is closed exactly when the deadline has expired. */
  lemma WaitMeans(s: State)
    requires s.setter == None
    ensures var o := Do(s, Wait); o.Next? && o.s == s.(returned := s.returned + {s.cancel})
  {
  }
}
