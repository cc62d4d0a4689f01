/**
  The integer encodings of framedata.go and frameparser.go: base-128 varints,
  least significant group first, and zigzag.
 */
module Varint {
  import opened Bytes

  const UINT64: int := 0x1_0000_0000_0000_0000
  const INT63: int := 0x8000_0000_0000_0000

  // ----- powers of two and bitwise or

  function Pow2(n: nat): (r: nat)
    ensures r > 0
  {
    if n == 0 then 1 else 2 * Pow2(n - 1)
  }

  lemma {:induction false} Pow2Add(m: nat, n: nat)
    ensures Pow2(m + n) == Pow2(m) * Pow2(n)
  {
    if m > 0 {
      Pow2Add(m - 1, n);
      assert Pow2(m + n) == 2 * Pow2(m - 1 + n);
      assert 2 * (Pow2(m - 1) * Pow2(n)) == (2 * Pow2(m - 1)) * Pow2(n);
    }
  }

  lemma {:induction false} Pow2Grows(m: nat, n: nat)
    requires m <= n
    ensures Pow2(m) <= Pow2(n)
  {
    if m < n { Pow2Grows(m, n - 1); }
  }

  /** Bitwise or of naturals. */
  function Or(x: nat, y: nat): nat {
    if x == 0 then y else if y == 0 then x
    else (if x % 2 == 1 || y % 2 == 1 then 1 else 0) + 2 * Or(x / 2, y / 2)
  }

  /** On disjoint bits, or is addition. */
  lemma {:induction false} OrDisjoint(x: nat, y: nat, s: nat)
    requires x < Pow2(s)
    ensures Or(x, y * Pow2(s)) == x + y * Pow2(s)
  {
    if x > 0 && y > 0 {
      var z := y * Pow2(s - 1);
      assert y * Pow2(s) == 2 * z;
      OrDisjoint(x / 2, y, s - 1);
    }
  }

  // ----- the meaning of a varint

  /** The sum of (b_i mod 128) * 128^i. */
  function Value(s: seq<byte>): nat {
    if s == [] then 0 else s[0] % 128 + 128 * Value(s[1..])
  }

  lemma {:induction false} ValueSnoc(s: seq<byte>, b: byte)
    ensures Value(s + [b]) == Value(s) + (b % 128) * Pow2(7 * |s|)
  {
    if s == [] {
      assert s + [b] == [b] && [b][1..] == [];
    } else {
      assert (s + [b])[1..] == s[1..] + [b];
      ValueSnoc(s[1..], b);
      Pow2Add(7, 7 * |s[1..]|);
      assert Pow2(7) == 128;
      assert 128 * ((b % 128) * Pow2(7 * |s[1..]|)) == (b % 128) * (128 * Pow2(7 * |s[1..]|));
    }
  }

  lemma {:induction false} ValueBound(s: seq<byte>)
    ensures Value(s) < Pow2(7 * |s|)
  {
    if s != [] {
      ValueBound(s[1..]);
      Pow2Add(7, 7 * |s[1..]|);
      assert Pow2(7) == 128;
    }
  }

  /** The index of the first byte without its high bit. */
  function Terminator(s: seq<byte>): (r: Option<nat>)
    ensures r.Some? ==> r.value < |s| && s[r.value] < 128 && forall i :: 0 <= i < r.value ==> s[i] >= 128
    ensures r.None? ==> forall i :: 0 <= i < |s| ==> s[i] >= 128
  {
    if s == [] then None
    else if s[0] < 128 then Some(0)
    else match Terminator(s[1..])
      case None => None
      case Some(i) =>
        assert s[i + 1] == s[1..][i];
        assert forall j :: 0 < j < i + 1 ==> s[j] == s[1..][j - 1];
        Some(i + 1)
  }

  /** The value at the front of `s` and what follows it; None where ReadUint64 panics. */
  function DecodeUint64(s: seq<byte>): Option<(nat, seq<byte>)> {
    match Terminator(s)
    case None => None
    case Some(i) =>
      if i > 9 || (i == 9 && s[i] > 1) then None
      else Some((Value(s[..i + 1]), s[i + 1..]))
  }

  function EncodeUint64(x: nat): seq<byte> {
    if x < 128 then [x] else [x % 128 + 128] + EncodeUint64(x / 128)
  }

  // ----- laws

  lemma Pow2Table()
    ensures Pow2(7) == 128 && Pow2(63) == INT63 && Pow2(64) == UINT64
  {
    assert Pow2(8) == 256;
    Pow2Add(8, 8);
    Pow2Add(16, 16);
    Pow2Add(32, 32);
    assert Pow2(64) == 2 * Pow2(63);
  }

  /** Nine groups always fit; with ten, exactly when the last is at most one. */
  lemma {:induction false} FitsIff(s: seq<byte>)
    requires 1 <= |s| <= 10
    ensures Value(s) < UINT64 <==> (|s| == 10 ==> s[9] % 128 <= 1)
  {
    Pow2Table();
    if |s| < 10 {
      ValueBound(s);
      Pow2Grows(7 * |s|, 63);
    } else {
      assert s == s[..9] + [s[9]];
      ValueSnoc(s[..9], s[9]);
      ValueBound(s[..9]);
    }
  }

  /** A terminated prefix is accepted exactly when it has at most ten bytes and its value fits in 64 bits. */
  lemma {:induction false} AcceptedIff(s: seq<byte>)
    ensures DecodeUint64(s).Some? <==>
      Terminator(s).Some? && Terminator(s).value <= 9 && Value(s[..Terminator(s).value + 1]) < UINT64
  {
    if Terminator(s).Some? && Terminator(s).value <= 9 {
      FitsIff(s[..Terminator(s).value + 1]);
    }
  }

  /** What an accepted encoding means: its own bytes, at most ten of them, add up to the value. */
  lemma {:induction false} DecodedMeaning(s: seq<byte>, x: nat, rest: seq<byte>)
    requires DecodeUint64(s) == Some((x, rest))
    ensures x < UINT64 && 1 <= |s| - |rest| <= 10
    ensures s[|s| - |rest|..] == rest && x == Value(s[..|s| - |rest|])
  {
    AcceptedIff(s);
  }

  /** A byte with its high bit, in front. */
  lemma GroupInFront(x: nat, tail: seq<byte>, rest: seq<byte>)
    ensures var s := [x % 128 + 128] + tail;
      && Value(s) == x % 128 + 128 * Value(tail)
      && Terminator(s + rest) == match Terminator(tail + rest) { case Some(i) => Some(i + 1) case None => None }
  {
    var head := x % 128 + 128;
    assert ([head] + tail)[1..] == tail && head % 128 == x % 128;
    assert ([head] + tail + rest)[1..] == tail + rest;
  }

  lemma {:induction false} EncodedShape(x: nat, rest: seq<byte>)
    ensures var n := |EncodeUint64(x)|;
      Terminator(EncodeUint64(x) + rest) == Some(n - 1) && Value(EncodeUint64(x)) == x
  {
    if x < 128 {
      assert ([x] + rest)[0] == x && [x][1..] == [];
    } else {
      hide Value, Terminator;
      EncodedShape(x / 128, rest);
      GroupInFront(x, EncodeUint64(x / 128), rest);
    }
  }

  lemma {:induction false} EncodedLength(x: nat, k: nat)
    requires k >= 1 && x < Pow2(7 * k)
    ensures |EncodeUint64(x)| <= k
  {
    assert Pow2(7) == 128;
    if x >= 128 {
      Pow2Add(7, 7 * (k - 1));
      EncodedLength(x / 128, k - 1);
    }
  }

  lemma {:induction false} Uint64RoundTrip(x: nat, rest: seq<byte>)
    requires x < UINT64
    ensures DecodeUint64(EncodeUint64(x) + rest) == Some((x, rest))
  {
    var e := EncodeUint64(x);
    EncodedShape(x, rest);
    Pow2Table();
    Pow2Grows(64, 70);
    EncodedLength(x, 10);
    assert (e + rest)[..|e|] == e && (e + rest)[|e|..] == rest;
    AcceptedIff(e + rest);
  }

  /** No accepted encoding of a value is shorter than the one WriteUint64 emits. */
  lemma {:induction false} EncodingMinimal(s: seq<byte>, x: nat, rest: seq<byte>)
    requires DecodeUint64(s) == Some((x, rest))
    ensures |EncodeUint64(x)| <= |s| - |rest|
  {
    DecodedMeaning(s, x, rest);
    ValueBound(s[..|s| - |rest|]);
    EncodedLength(x, |s| - |rest|);
  }

  // ----- zigzag

  predicate IsInt64(x: int) { -INT63 <= x < INT63 }

  /** Go's uint64(x) << 1, complemented when x is negative. */
  function ZigZag(x: int): nat
    requires IsInt64(x)
  {
    var shifted := ((x % 0x1_0000_0000_0000_0000) * 2) % 0x1_0000_0000_0000_0000;
    if x < 0 then 0xFFFF_FFFF_FFFF_FFFF - shifted else shifted
  }

  /** Go's int64(u >> 1), complemented when u is odd. */
  function UnZigZag(u: nat): int
    requires u < UINT64
  {
    if u % 2 == 1 then -1 - u / 2 else u / 2
  }

  lemma ZigZagMeaning(x: int)
    requires IsInt64(x)
    ensures ZigZag(x) == if x >= 0 then 2 * x else -2 * x - 1
    ensures ZigZag(x) < UINT64 && UnZigZag(ZigZag(x)) == x
  {
    if x < 0 { assert x % UINT64 == x + UINT64; }
  }

  lemma ZigZagOnto(u: nat)
    requires u < UINT64
    ensures IsInt64(UnZigZag(u)) && ZigZag(UnZigZag(u)) == u
  {
    ZigZagMeaning(UnZigZag(u));
  }

  function EncodeInt64(x: int): seq<byte>
    requires IsInt64(x)
  {
    EncodeUint64(ZigZag(x))
  }

  function DecodeInt64(s: seq<byte>): Option<(int, seq<byte>)> {
    match DecodeUint64(s)
    case None => None
    case Some((u, rest)) => if u < UINT64 then Some((UnZigZag(u), rest)) else None
  }

  lemma Int64Short(x: int)
    requires IsInt64(x)
    ensures 1 <= |EncodeInt64(x)| <= 10
  {
    ZigZagMeaning(x);
    Pow2Table();
    Pow2Grows(64, 70);
    EncodedLength(ZigZag(x), 10);
  }

  lemma Int64RoundTrip(x: int, rest: seq<byte>)
    requires IsInt64(x)
    ensures DecodeInt64(EncodeInt64(x) + rest) == Some((x, rest))
  {
    ZigZagMeaning(x);
    Uint64RoundTrip(ZigZag(x), rest);
  }

  // ----- one step of the reading loop

  /** v << s in 64 bits. */
  function Shift64(v: nat, s: nat): nat { (v * Pow2(s)) % UINT64 }

  lemma {:induction false} GroupFits(v: nat, i: nat)
    requires v < 128 && (i < 9 || (i == 9 && v <= 1))
    ensures v * Pow2(7 * i) < UINT64
  {
    Pow2Table();
    if i < 9 {
      Pow2Add(7, 7 * i);
      Pow2Grows(7 + 7 * i, 63);
    }
  }

  /** One `|=` of the reading loop adds the next group, as long as it fits in 64 bits. */
  lemma {:induction false} GroupAdded(s: seq<byte>, i: nat)
    requires i < |s| && (i < 9 || (i == 9 && s[i] % 128 <= 1))
    ensures Or(Value(s[..i]), Shift64(s[i] % 128, 7 * i)) == Value(s[..i + 1])
  {
    hide Value, Or, Pow2;
    var low, v := Value(s[..i]), s[i] % 128;
    assert Value(s[..i + 1]) == low + v * Pow2(7 * i) by {
      assert s[..i + 1] == s[..i] + [s[i]];
      ValueSnoc(s[..i], s[i]);
    }
    assert Shift64(v, 7 * i) == v * Pow2(7 * i) by { GroupFits(v, i); }
    assert low < Pow2(7 * i) by { ValueBound(s[..i]); }
    OrDisjoint(low, v, 7 * i);
  }
}
