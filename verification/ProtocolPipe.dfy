/** Every step of the conn protocol keeps the byte pipe between the two endpoints. */
module ProtocolPipe {
  import opened Bytes
  import opened Protocol
  import opened ProtocolInvariant

  /** What the flow invariant tells about sessions and wires. */
  predicate Shape(s: System) {
    && |s.a.sentLog| == |s.a.readLog| == s.a.session + 1
    && |s.b.sentLog| == |s.b.readLog| == s.b.session + 1
    && s.a.session <= s.b.session + 1 && s.b.session <= s.a.session + 1
    && (s.b.session > s.a.session ==> s.ab == [] && s.a.sentFinal && s.a.writer == Idle)
    && (s.a.session > s.b.session ==> s.ba == [] && !s.a.gotFinal)
    && (s.ba != [] ==> s.ba[0].session == s.a.session)
    && (forall i :: 0 <= i < |s.ab| ==> s.ab[i].session <= s.a.session)
  }

  predicate Kept(o: Outcome<System>) {
    o.Next? ==> PipeInv(o.next)
  }

  lemma Silent(s: System, a: Action, W: Windows)
    requires PipeInv(s)
    requires a.Start? || a.Fill? || a.Drop? || a.CloseBegin? || a.Flush? || a.Debit? || a.ConsumeAck?
    ensures Kept(LeftStep(W, STRICT, s, a))
  {
    hide BytesIn, Flatten;
    assert s.ab + [] == s.ab;
  }

  lemma PopStep(s: System, W: Windows)
    requires PipeInv(s)
    ensures Kept(LeftStep(W, STRICT, s, PopFrame))
  {
    assert s.ab + [] == s.ab;
    assert s.a.inbox != [] && s.a.fp == [] ==>
      s.a.inbox[0] + Flatten(s.a.inbox[1..]) == Unread(s.a);
  }

  /** Moving unread bytes to the read log keeps the pipe. */
  lemma PipeRead(sent: seq<seq<byte>>, read: seq<seq<byte>>, p: seq<byte>, rest: seq<byte>, xy: seq<Frame>)
    requires Pipe(sent, read, p + rest, xy)
    ensures Pipe(sent, Extend(read, p), rest, xy)
  {
    hide BytesIn;
    var ys := |read| - 1;
    assert read[ys] + (p + rest) + BytesIn(xy, ys) == (read[ys] + p) + rest + BytesIn(xy, ys);
    forall k | 0 <= k < ys && k < |sent| ensures Extend(read, p)[k] <= sent[k] {
      assert read[k] <= sent[k];
    }
  }

  lemma ReadStep(s: System, n: nat, W: Windows)
    requires PipeInv(s)
    ensures Kept(LeftStep(W, STRICT, s, Read(n)))
  {
    hide BytesIn, Flatten;
    assert s.ab + [] == s.ab;
    if n <= |s.a.fp| {
      var rest := s.a.fp[n..] + Flatten(s.a.inbox);
      assert Unread(s.a) == s.a.fp[..n] + rest;
      PipeRead(s.b.sentLog, s.a.readLog, s.a.fp[..n], rest, s.ba);
    }
  }

  lemma PipeSent(sent: seq<seq<byte>>, read: seq<seq<byte>>, unread: seq<byte>, xy: seq<Frame>, p: seq<byte>)
    requires Pipe(sent, read, unread, xy) && |read| <= |sent|
    ensures Pipe(Extend(sent, p), read, unread, xy + [Data(|sent| - 1, p)])
  {
    hide BytesIn;
    var xs, ys := |sent| - 1, |read| - 1;
    MeasuresAppend(xy, Data(xs, p), xs);
    MeasuresAppend(xy, Data(xs, p), ys);
    assert read[ys] + unread + (BytesIn(xy, ys) + p) == (read[ys] + unread + BytesIn(xy, ys)) + p;
    forall k | 0 <= k < ys && k <= xs ensures read[k] <= Extend(sent, p)[k] {
      assert read[k] <= sent[k];
    }
  }

  lemma HandOverStep(s: System, W: Windows)
    requires PipeInv(s) && Shape(s)
    ensures Kept(LeftStep(W, STRICT, s, HandOver))
  {
    hide BytesIn, Flatten;
    if s.a.writer.Committed? {
      PipeSent(s.a.sentLog, s.b.readLog, Unread(s.b), s.ab, s.a.writer.payload);
    }
  }

  /** A frame without payload leaves the pipe alone. */
  lemma PipeFlow(sent: seq<seq<byte>>, read: seq<seq<byte>>, unread: seq<byte>, xy: seq<Frame>, f: Frame)
    requires Pipe(sent, read, unread, xy) && !f.Data?
    ensures Pipe(sent, read, unread, xy + [f])
  {
    hide BytesIn;
    MeasuresAppend(xy, f, |sent| - 1);
    MeasuresAppend(xy, f, |read| - 1);
    assert BytesIn(xy, |read| - 1) + [] == BytesIn(xy, |read| - 1);
    assert BytesIn(xy, |sent| - 1) + [] == BytesIn(xy, |sent| - 1);
  }

  lemma AckStep(s: System, W: Windows)
    requires PipeInv(s)
    ensures Kept(LeftStep(W, STRICT, s, WriteAck))
  {
    hide BytesIn, Flatten;
    PipeFlow(s.a.sentLog, s.b.readLog, Unread(s.b), s.ab, Ack(s.a.session));
  }

  // ----- recycling

  lemma RecycledSender(sent: seq<seq<byte>>, read: seq<seq<byte>>, unread: seq<byte>, xy: seq<Frame>)
    requires |sent| <= |read| <= |sent| + 1
    requires |read| > |sent| ==> xy == []
    requires forall i :: 0 <= i < |xy| ==> xy[i].session < |sent|
    requires Pipe(sent, read, unread, xy)
    ensures Pipe(sent + [[]], read, unread, xy)
  {
    hide BytesIn;
    NoneOfSession(xy, |sent|);
    var sent', ys := sent + [[]], |read| - 1;
    if |read| > |sent| {
      assert [] + [] + BytesIn(xy, ys) == [];
    }
    forall k | 0 <= k < ys && k < |sent'| ensures read[k] <= sent'[k] {
      assert read[k] <= sent[k];
    }
  }

  lemma RecycledReader(sent: seq<seq<byte>>, read: seq<seq<byte>>, unread: seq<byte>, yx: seq<Frame>)
    requires |read| <= |sent| <= |read| + 1
    requires Pipe(sent, read, unread, yx)
    ensures Pipe(sent, read + [[]], [], yx)
  {
    hide BytesIn;
    var read', ys := read + [[]], |read| - 1;
    assert read[ys] <= sent[ys] by {
      assert read[ys] + unread + BytesIn(yx, ys) == read[ys] + (unread + BytesIn(yx, ys));
    }
    forall k | 0 <= k < |read'| - 1 && k < |sent| ensures read'[k] <= sent[k] {
      assert k < ys ==> read[k] <= sent[k];
    }
    if |sent| > |read| {
      assert [] + [] + BytesIn(yx, |read|) == BytesIn(yx, |read|);
    }
  }

  lemma RecycleStep(s: System, W: Windows)
    requires PipeInv(s)
    requires |s.a.sentLog| == |s.a.readLog| == s.a.session + 1
    requires |s.b.sentLog| == |s.b.readLog| == s.b.session + 1
    requires s.a.session <= s.b.session <= s.a.session + 1
    requires s.b.session > s.a.session ==> s.ab == []
    requires forall i :: 0 <= i < |s.ab| ==> s.ab[i].session <= s.a.session
    ensures PipeInv(s.(a := Reset(W.a, s.a)))
  {
    hide BytesIn;
    RecycledSender(s.a.sentLog, s.b.readLog, Unread(s.b), s.ab);
    RecycledReader(s.b.sentLog, s.a.readLog, Unread(s.a), s.ba);
    assert Unread(Reset(W.a, s.a)) == [];
  }

  lemma FinishStep(s: System, W: Windows)
    requires PipeInv(s) && Shape(s)
    ensures Kept(LeftStep(W, STRICT, s, CloseFinish))
  {
    hide BytesIn, Flatten;
    var e := s.a;
    var f := Final(e.session, e.gotFinal);
    PipeFlow(s.a.sentLog, s.b.readLog, Unread(s.b), s.ab, f);
    if e.gotFinal && Finish(W.a, STRICT, e).Next? {
      RecycleStep(System(Send(e.(sentFinal := true, fdw := Unset), f).e, s.b, s.ab + [f], s.ba), W);
    }
  }

  // ----- delivery

  lemma PipeTake(sent: seq<seq<byte>>, read: seq<seq<byte>>, unread: seq<byte>, yx: seq<Frame>)
    requires Pipe(sent, read, unread, yx)
    requires yx != [] && |read| <= |sent| && yx[0].session == |read| - 1
    ensures Pipe(sent, read, unread + (if yx[0].Data? then yx[0].payload else []), yx[1..])
  {
    var p := if yx[0].Data? then yx[0].payload else [];
    var ys := |read| - 1;
    assert read[ys] + unread + (p + BytesIn(yx[1..], ys)) == read[ys] + (unread + p) + BytesIn(yx[1..], ys);
    assert ys < |sent| - 1 ==> [] + BytesIn(yx[1..], |sent| - 1) == BytesIn(yx[1..], |sent| - 1);
  }

  lemma DeliverStep(s: System, W: Windows)
    requires PipeInv(s) && Shape(s)
    ensures Kept(LeftStep(W, STRICT, s, Deliver))
  {
    hide BytesIn, Flatten;
    if s.ba != [] && LeftStep(W, STRICT, s, Deliver).Next? {
      var e, f, rest := s.a, s.ba[0], s.ba[1..];
      PipeTake(s.b.sentLog, e.readLog, Unread(e), s.ba);
      match f
      case Data(_, p) =>
        FlattenAppend(e.inbox, p);
        assert e.fp + (Flatten(e.inbox) + p) == Unread(e) + p;
      case Ack(_) =>
        assert Unread(e) + [] == Unread(e);
      case Final(_, _) =>
        assert Unread(e) + [] == Unread(e);
        if e.sentFinal {
          RecycleStep(System(e.(seen := e.seen + [f], gotFinal := true), s.b, s.ab, rest), W);
        }
    }
  }

  lemma PipeSafe(s: System, a: Action, W: Windows)
    requires PipeInv(s) && Shape(s) && !(s.a.sentFinal && s.a.gotFinal)
    ensures Kept(LeftStep(W, STRICT, s, a))
  {
    hide BytesIn, Flatten, Pipe;
    match a
    case HandOver => HandOverStep(s, W);
    case PopFrame => PopStep(s, W);
    case WriteAck => AckStep(s, W);
    case Read(n) => ReadStep(s, n, W);
    case CloseFinish => FinishStep(s, W);
    case Deliver => DeliverStep(s, W);
    case Recycle =>
    case _ => Silent(s, a, W);
  }
}
