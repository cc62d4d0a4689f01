/**
  The conn ID allocator of muxer.go: a queue of released conns and a counter
  advanced by compare-and-swap, used by any number of goroutines at once.
 */
module Allocator {
  import opened Bytes

  /** Where a goroutine is inside NewConn. */
  datatype Pc = Outside | Looking | Loaded(last: nat)

  datatype State = State(
    free: seq<nat>,       // mux.conns
    last: nat,            // mux.connLastID
    out: set<nat>,        // IDs handed out by NewConn and not yet released
    pcs: map<nat, Pc>)    // goroutines inside NewConn

  datatype Step =
    | Call(t: nat)        // the receive from mux.conns, or its default case
    | Load(t: nat)        // the atomic load, and the test against MaxConnID
    | Swap(t: nat)        // the compare-and-swap
    | Release(id: nat)    // ConnRelease by the owner of a conn

  datatype Effect = Next(s: State, handed: set<nat>) | Blocked | Panicked

  function At(s: State, t: nat): Pc { if t in s.pcs then s.pcs[t] else Outside }

  function Move(s: State, t: nat, pc: Pc): State { s.(pcs := s.pcs[t := pc]) }

  function Init(): State { State([], 0, {}, map[]) }

  /** One atomic step, with the IDs it hands out. */
  function Do(max: nat, s: State, step: Step): Effect {
    match step
    case Call(t) =>
      if At(s, t) != Outside then Blocked
      else if s.free != [] then Next(s.(free := s.free[1..], out := s.out + {s.free[0]}), {s.free[0]})
      else Next(Move(s, t, Looking), {})
    case Load(t) =>
      if At(s, t) != Looking then Blocked
      else if s.last >= max then Next(Move(s, t, Outside), {})  // NewConn returns nil
      else Next(Move(s, t, Loaded(s.last)), {})
    case Swap(t) =>
      if !At(s, t).Loaded? then Blocked
      else if s.last != At(s, t).last then Next(Move(s, t, Looking), {})
      else
        var id := s.last + 1;
        Next(Move(s, t, Outside).(last := id, out := s.out + {id}), {id})
    case Release(id) =>
      if id !in s.out then Blocked
      else if |s.free| >= max then Panicked
      else Next(s.(free := s.free + [id], out := s.out - {id}), {})
  }

  function Run(max: nat, s: State, steps: seq<Step>): Effect
    decreases |steps|
  {
    if steps == [] then Next(s, {})
    else match Do(max, s, steps[0])
      case Next(t, _) => Run(max, t, steps[1..])
      case Blocked => Run(max, s, steps[1..])
      case Panicked => Panicked
  }

  // ----- the invariant

  predicate Distinct(q: seq<nat>) { forall i, j :: 0 <= i < j < |q| ==> q[i] != q[j] }

  /** IDs 1..last are each in exactly one of the two places, and there only once. */
  ghost predicate Partition(free: seq<nat>, out: set<nat>, last: nat) {
    && Distinct(free)
    && (forall x :: x in free ==> x !in out)
    && (forall x :: x in free || x in out <==> 1 <= x <= last)
  }

  /** A goroutine's loaded value is not ahead of the counter, and below the limit. */
  predicate LoadsBehind(max: nat, pcs: map<nat, Pc>, last: nat) {
    forall t :: t in pcs && pcs[t].Loaded? ==> pcs[t].last <= last && pcs[t].last < max
  }

  ghost predicate Inv(max: nat, s: State) {
    s.last <= max && Partition(s.free, s.out, s.last) && LoadsBehind(max, s.pcs, s.last)
  }

  function Elems(q: seq<nat>): set<nat> { set x | x in q }

  function UpTo(n: nat): (r: set<nat>)
    ensures |r| == n && forall x :: x in r <==> 1 <= x <= n
  {
    if n == 0 then {} else UpTo(n - 1) + {n}
  }

  lemma {:induction false} DistinctSize(q: seq<nat>)
    requires Distinct(q)
    ensures |Elems(q)| == |q|
  {
    if q != [] {
      DistinctSize(q[1..]);
      assert Elems(q) == {q[0]} + Elems(q[1..]);
      assert q[0] !in q[1..];
    }
  }

  /** Counting the two places together gives the counter. */
  lemma Counted(free: seq<nat>, out: set<nat>, last: nat)
    requires Partition(free, out, last)
    ensures |free| + |out| == last
  {
    DistinctSize(free);
    assert Elems(free) !! out;
    assert Elems(free) + out == UpTo(last);
  }

  lemma Popped(free: seq<nat>, out: set<nat>, last: nat)
    requires Partition(free, out, last) && free != []
    ensures free[0] !in out && Partition(free[1..], out + {free[0]}, last)
  {
    assert forall x :: x in free <==> x == free[0] || x in free[1..];
    assert free[0] !in free[1..];
  }

  lemma Minted(free: seq<nat>, out: set<nat>, last: nat)
    requires Partition(free, out, last)
    ensures last + 1 !in out && Partition(free, out + {last + 1}, last + 1)
  {
    assert !(last + 1 in free || last + 1 in out);
  }

  lemma Pushed(free: seq<nat>, out: set<nat>, last: nat, id: nat)
    requires Partition(free, out, last) && id in out
    ensures |free| < last && Partition(free + [id], out - {id}, last)
  {
    Counted(free, out, last);
    assert |out| >= 1;
    assert forall x :: x in free + [id] <==> x in free || x == id;
  }

  lemma StepKeeps(max: nat, s: State, step: Step)
    requires Inv(max, s)
    ensures var e := Do(max, s, step);
      !e.Panicked? && (e.Next? ==> Inv(max, e.s) && e.handed !! s.out && s.last <= e.s.last)
  {
    hide Partition;
    match step
    case Call(t) => if s.free != [] { Popped(s.free, s.out, s.last); }
    case Load(t) =>
    case Swap(t) => Minted(s.free, s.out, s.last);
    case Release(id) => if id in s.out { Pushed(s.free, s.out, s.last, id); }
  }

  /** AvailableConns: released conns, and IDs never used. */
  function Available(max: nat, s: State): int {
    |s.free| + (if s.last < max then max - s.last else 0)
  }

  lemma {:induction false} RunKeeps(max: nat, s: State, steps: seq<Step>)
    requires Inv(max, s)
    ensures var e := Run(max, s, steps); e.Next? && Inv(max, e.s)
    decreases |steps|
  {
    if steps != [] {
      StepKeeps(max, s, steps[0]);
      var e := Do(max, s, steps[0]);
      RunKeeps(max, if e.Next? then e.s else s, steps[1..]);
    }
  }

  /**
    Over every interleaving of NewConn and ConnRelease: no release panics, every ID ever
    created is either free once or handed out, and AvailableConns counts exactly the IDs
    that are not handed out.
   */
  lemma IdsConserved(max: nat, steps: seq<Step>)
    ensures var e := Run(max, Init(), steps);
      && e.Next? && Inv(max, e.s)
      && |e.s.free| + |e.s.out| == e.s.last <= max && (e.s.out != {} ==> |e.s.free| < max)
      && (forall id :: id in e.s.out ==> 1 <= id <= max)
      && Available(max, e.s) == max - |e.s.out|
  {
    RunKeeps(max, Init(), steps);
    var s := Run(max, Init(), steps).s;
    Counted(s.free, s.out, s.last);
  }

  lemma {:induction false} CounterGrows(max: nat, s: State, steps: seq<Step>)
    requires Inv(max, s)
    ensures var e := Run(max, s, steps); e.Next? && Inv(max, e.s) && s.last <= e.s.last
    decreases |steps|
  {
    hide Inv, Do;
    if steps != [] {
      StepKeeps(max, s, steps[0]);
      var e := Do(max, s, steps[0]);
      CounterGrows(max, if e.Next? then e.s else s, steps[1..]);
    }
  }

  /**
    AvailableConns reads the queue's length in state s and the counter after some more steps.
    What it returns is never negative and never more than was available in s, and is exactly
    that when no ID was created in between, whatever else was handed out or released.
   */
  lemma AvailableReadTwice(max: nat, s: State, steps: seq<Step>)
    requires Reachable(max, s)
    ensures var e := Run(max, s, steps);
      && e.Next?
      && var count := |s.free| + (if e.s.last < max then max - e.s.last else 0);
      && 0 <= count <= max - |s.out|
      && (count == max - |s.out| <==> e.s.last == s.last)
  {
    ReachableInv(max, s);
    CounterGrows(max, s, steps);
    Counted(s.free, s.out, s.last);
  }

  ghost predicate Reachable(max: nat, s: State) {
    exists steps :: Run(max, Init(), steps) == Next(s, {})
  }

  lemma ReachableInv(max: nat, s: State)
    requires Reachable(max, s)
    ensures Inv(max, s)
  {
    var steps :| Run(max, Init(), steps) == Next(s, {});
    IdsConserved(max, steps);
  }

  /** In every reachable state, what NewConn hands out next is in nobody else's hands. */
  lemma NeverHandedOutTwice(max: nat, s: State, step: Step)
    requires Reachable(max, s)
    ensures var e := Do(max, s, step); e.Next? ==> e.handed !! s.out && e.handed <= e.s.out
  {
    ReachableInv(max, s);
    StepKeeps(max, s, step);
  }

  /** A release goes to the end of the queue, or panics if the queue is full. */
  lemma ReleaseMeans(max: nat, s: State, id: nat)
    requires id in s.out
    ensures |s.free| >= max ==> Do(max, s, Release(id)) == Panicked
    ensures |s.free| < max ==>
      Do(max, s, Release(id)) == Next(s.(free := s.free + [id], out := s.out - {id}), {})
  {
  }

  /** The goroutine a step belongs to. */
  function Actor(step: Step): Option<nat> {
    match step
    case Call(t) => Some(t)
    case Load(t) => Some(t)
    case Swap(t) => Some(t)
    case Release(_) => None
  }

  /**
    A goroutine leaves NewConn with exactly one ID, or with nil, and nil only when all IDs
    have been created; what it does moves no other goroutine.
   */
  lemma NilMeansExhausted(max: nat, s: State, step: Step, t: nat)
    requires Reachable(max, s) && Do(max, s, step).Next?
    ensures var e := Do(max, s, step);
      && (At(s, t) != Outside && At(e.s, t) == Outside && e.handed == {} ==> s.last == max)
      && (At(s, t) != At(e.s, t) ==> Actor(step) == Some(t))
      && (e.handed != {} ==> |e.handed| == 1 && Actor(step).Some? && At(e.s, Actor(step).value) == Outside)
      && (Actor(step) == Some(t) && At(e.s, t) == Outside && s.last < max ==> e.handed != {})
  {
    ReachableInv(max, s);
  }

  /**
    A compare-and-swap fails only because another goroutine has advanced the counter since
    the load, and the goroutine then looks again; so every retry loads a larger value.
   */
  lemma RetryMeansProgress(max: nat, s: State, t: nat)
    requires Reachable(max, s) && At(s, t).Loaded?
    ensures var e := Do(max, s, Swap(t));
      && e.Next? && (e.handed == {} <==> At(s, t).last < s.last) && At(s, t).last <= s.last <= max
      && At(e.s, t) == (if e.handed == {} then Looking else Outside)
  {
    ReachableInv(max, s);
  }

  /** What a goroutine gets when it is left alone from the load on. */
  function AloneFromLoad(max: nat, s: State, t: nat): set<nat> {
    var loaded := Do(max, s, Load(t));
    if !loaded.Next? || !At(loaded.s, t).Loaded? then {}
    else var swapped := Do(max, loaded.s, Swap(t)); if swapped.Next? then swapped.handed else {}
  }

  /** What it gets when it is left alone from wherever it is in NewConn, or before it calls it. */
  function NewConnAlone(max: nat, s: State, t: nat): set<nat> {
    var first := Do(max, s, if At(s, t) == Outside then Call(t) else Swap(t));
    if At(s, t) == Looking then AloneFromLoad(max, s, t)
    else if !first.Next? then {}
    else if first.handed != {} then first.handed
    else AloneFromLoad(max, first.s, t)
  }

  lemma LoadObtains(max: nat, s: State, t: nat)
    requires At(s, t) == Looking
    ensures AloneFromLoad(max, s, t) == (if s.last < max then {s.last + 1} else {})
  {
  }

  /** From wherever it is, a goroutine left alone gets an ID if and only if one is left to create. */
  lemma LeftAloneObtains(max: nat, s: State, t: nat)
    requires Reachable(max, s) && At(s, t) != Outside
    ensures NewConnAlone(max, s, t) == (if s.last < max then {s.last + 1} else {})
    ensures NewConnAlone(max, s, t) !! s.out
  {
    hide AloneFromLoad;
    ReachableInv(max, s);
    if At(s, t) == Looking { LoadObtains(max, s, t); }
    if At(s, t).Loaded? && At(s, t).last != s.last { LoadObtains(max, Do(max, s, Swap(t)).s, t); }
    Minted(s.free, s.out, s.last);
  }

  /** AvailableConns is positive exactly when NewConn, left alone, returns a conn. */
  lemma AvailableMeansObtainable(max: nat, s: State, t: nat)
    requires Reachable(max, s) && At(s, t) == Outside
    ensures Available(max, s) > 0 <==> NewConnAlone(max, s, t) != {}
  {
    ReachableInv(max, s);
    if s.free != [] {
      assert s.free[0] in Do(max, s, Call(t)).handed;
    } else if s.last < max {
      assert s.last + 1 in NewConnAlone(max, s, t);
    }
  }
}
