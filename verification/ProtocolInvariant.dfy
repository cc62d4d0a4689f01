/**
  The inductive invariant of the conn protocol.

  Its backbone is `Stream`: on each wire, the session of a frame is the number
  of final frames before it, counted from the finals the receiver has taken and
  ending at the finals the sender has written.
 */
module ProtocolInvariant {
  import opened Bytes
  import opened Protocol

  // ----- measures of a wire

  /** Frames number their sessions by the finals before them, from `n` up to `m`. */
  predicate Stream(w: seq<Frame>, n: nat, m: nat) {
    if w == [] then n == m
    else w[0].session == n && Stream(w[1..], if w[0].Final? then n + 1 else n, m)
  }

  function DataIn(w: seq<Frame>, k: nat): nat {
    if w == [] then 0
    else (if w[0].Data? && w[0].session == k then 1 else 0) + DataIn(w[1..], k)
  }

  function AcksIn(w: seq<Frame>, k: nat): nat {
    if w == [] then 0
    else (if w[0].Ack? && w[0].session == k then 1 else 0) + AcksIn(w[1..], k)
  }

  function BytesIn(w: seq<Frame>, k: nat): seq<byte> {
    if w == [] then []
    else (if w[0].Data? && w[0].session == k then w[0].payload else []) + BytesIn(w[1..], k)
  }

  lemma {:induction false} CountsAppend(w: seq<Frame>, f: Frame, k: nat)
    ensures DataIn(w + [f], k) == DataIn(w, k) + (if f.Data? && f.session == k then 1 else 0)
    ensures AcksIn(w + [f], k) == AcksIn(w, k) + (if f.Ack? && f.session == k then 1 else 0)
  {
    if w == [] {
      assert w + [f] == [f] && [f][1..] == [];
    } else {
      assert (w + [f])[1..] == w[1..] + [f];
      CountsAppend(w[1..], f, k);
    }
  }

  lemma {:induction false} BytesAppend(w: seq<Frame>, f: Frame, k: nat)
    ensures BytesIn(w + [f], k) == BytesIn(w, k) + (if f.Data? && f.session == k then f.payload else [])
  {
    if w == [] {
      assert w + [f] == [f] && [f][1..] == [];
    } else {
      assert (w + [f])[1..] == w[1..] + [f];
      BytesAppend(w[1..], f, k);
      var first := if w[0].Data? && w[0].session == k then w[0].payload else [];
      var last := if f.Data? && f.session == k then f.payload else [];
      assert first + (BytesIn(w[1..], k) + last) == (first + BytesIn(w[1..], k)) + last;
    }
  }

  lemma {:induction false} MeasuresAppend(w: seq<Frame>, f: Frame, k: nat)
    ensures DataIn(w + [f], k) == DataIn(w, k) + (if f.Data? && f.session == k then 1 else 0)
    ensures AcksIn(w + [f], k) == AcksIn(w, k) + (if f.Ack? && f.session == k then 1 else 0)
    ensures BytesIn(w + [f], k) == BytesIn(w, k) + (if f.Data? && f.session == k then f.payload else [])
  {
    hide DataIn, AcksIn, BytesIn;
    CountsAppend(w, f, k);
    BytesAppend(w, f, k);
  }

  lemma {:induction false} StreamAppend(w: seq<Frame>, n: nat, m: nat, f: Frame)
    requires Stream(w, n, m) && f.session == m
    ensures Stream(w + [f], n, if f.Final? then m + 1 else m)
  {
    if w == [] {
      assert w + [f] == [f] && [f][1..] == [];
    } else {
      assert (w + [f])[1..] == w[1..] + [f];
      StreamAppend(w[1..], if w[0].Final? then n + 1 else n, m, f);
    }
  }

  lemma {:induction false} StreamGrows(w: seq<Frame>, n: nat, m: nat)
    requires Stream(w, n, m)
    ensures n <= m
    ensures forall i :: 0 <= i < |w| ==> n <= w[i].session <= m
  {
    if w != [] {
      StreamGrows(w[1..], if w[0].Final? then n + 1 else n, m);
      forall i | 0 <= i < |w| ensures n <= w[i].session <= m {
        if i > 0 { assert w[i] == w[1..][i - 1]; }
      }
    }
  }

  lemma {:induction false} NoneOfSession(w: seq<Frame>, k: nat)
    requires forall i :: 0 <= i < |w| ==> w[i].session != k
    ensures DataIn(w, k) == 0 && AcksIn(w, k) == 0 && BytesIn(w, k) == []
  {
    if w != [] {
      forall i | 0 <= i < |w[1..]| ensures w[1..][i].session != k { assert w[1..][i] == w[i + 1]; }
      NoneOfSession(w[1..], k);
    }
  }

  // ----- the invariant

  function FinalsSent(e: Endpoint): nat { e.session + if e.sentFinal then 1 else 0 }
  function FinalsGot(e: Endpoint): nat { e.session + if e.gotFinal then 1 else 0 }

  /** Send credit at the sender: the window, a committed frame, and acks not yet consumed. */
  function Held(e: Endpoint): int { e.window + (if e.writer.Committed? then 1 else 0) + e.acks }

  /** Acks the receiver still has to write. */
  function Owed(e: Endpoint): nat { |e.inbox| + if e.acking then 1 else 0 }

  /** Bytes received and not yet read. */
  function Unread(e: Endpoint): seq<byte> { e.fp + Flatten(e.inbox) }

  predicate Local(W: nat, e: Endpoint) {
    && 0 <= e.window <= W
    && |e.sentLog| == |e.readLog| == e.session + 1
    && !(e.sentFinal && e.gotFinal)
    && (e.writer.Admitted? ==> e.window > 0)
    && (e.writer != Idle ==> |e.writer.payload| <= FRAME_MAX_PAYLOAD)
    && (e.sentFinal ==> e.closed && e.fdw == Unset && e.writer == Idle && !e.acking)
  }

  /** The wire of a sender in session `session`, between finals taken and finals written. */
  predicate Wire(w: seq<Frame>, taken: nat, written: nat, session: nat) {
    Stream(w, taken, written) && forall i :: 0 <= i < |w| ==> w[i].session <= session
  }

  /** Credit of data flowing from x to y, in sessions xs and ys. */
  predicate Credit(W: nat, xs: nat, ys: nat, held: int, owed: nat, xy: seq<Frame>, yx: seq<Frame>) {
    if xs == ys then held + DataIn(xy, xs) + owed + AcksIn(yx, xs) == W
    else if xs > ys then held + DataIn(xy, xs) == W && owed + DataIn(xy, ys) <= W
    else held + AcksIn(yx, xs) <= W
  }

  /** A side that recycled first has received nothing yet in its new session. */
  predicate Ahead(xs: nat, ys: nat, acks: nat, owed: nat, xy: seq<Frame>) {
    xs > ys ==> acks == 0 && owed == 0 && AcksIn(xy, xs) == 0
  }

  /**
    What y has read, still holds, or will receive of its current session is what x
    sent in that session; of an earlier session, what y read is a prefix.
   */
  predicate Pipe(sent: seq<seq<byte>>, read: seq<seq<byte>>, unread: seq<byte>, xy: seq<Frame>) {
    && sent != [] && read != []
    && var xs, ys := |sent| - 1, |read| - 1;
    && (ys <= xs ==> read[ys] + unread + BytesIn(xy, ys) == sent[ys])
    && (ys < xs ==> BytesIn(xy, xs) == sent[xs])
    && (ys > xs ==> read[ys] == [] && unread == [])
    && (forall k :: 0 <= k < ys && k <= xs ==> read[k] <= sent[k])
  }

  predicate Flow(W: nat, x: Endpoint, y: Endpoint, xy: seq<Frame>, yx: seq<Frame>) {
    && Local(W, x)
    && Wire(xy, FinalsGot(y), FinalsSent(x), x.session)
    && Credit(W, x.session, y.session, Held(x), Owed(y), xy, yx)
    && Ahead(x.session, y.session, x.acks, Owed(x), xy)
  }

  predicate FlowInv(W: Windows, s: System) {
    Flow(W.a, s.a, s.b, s.ab, s.ba) && Flow(W.b, s.b, s.a, s.ba, s.ab)
  }

  predicate PipeInv(s: System) {
    && Pipe(s.a.sentLog, s.b.readLog, Unread(s.b), s.ab)
    && Pipe(s.b.sentLog, s.a.readLog, Unread(s.a), s.ba)
  }

  predicate Inv(W: Windows, s: System) { FlowInv(W, s) && PipeInv(s) }

  // ----- what the wire conditions alone imply

  lemma {:induction false} WireFacts(x: Endpoint, y: Endpoint, xy: seq<Frame>, yx: seq<Frame>)
    requires Wire(xy, FinalsGot(y), FinalsSent(x), x.session)
    requires Wire(yx, FinalsGot(x), FinalsSent(y), y.session)
    requires !(x.sentFinal && x.gotFinal) && !(y.sentFinal && y.gotFinal)
    ensures x.session <= y.session + 1 && y.session <= x.session + 1
    ensures x.session > y.session ==> yx == [] && y.sentFinal && !x.gotFinal && !y.gotFinal
    ensures y.gotFinal ==> xy == [] && x.session == y.session && x.sentFinal
    ensures xy != [] ==> xy[0].session == y.session && !y.gotFinal
    ensures forall i :: 0 <= i < |xy| ==> y.session <= xy[i].session
  {
    StreamGrows(xy, FinalsGot(y), FinalsSent(x));
    StreamGrows(yx, FinalsGot(x), FinalsSent(y));
    assert yx != [] ==> yx[0].session <= y.session;
    assert xy != [] ==> xy[0].session <= x.session;
  }
}
