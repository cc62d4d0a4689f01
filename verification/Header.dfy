/**
  The four-byte frame header of frameheader.go: a 16-bit size, three flags and a
  13-bit conn ID. Masks and shifts on one byte are written as the divisions and
  remainders they are.
 */
module Header {
  import opened Bytes

  const MUXER_CONN_ID: nat := 0x1FFF

  type Bits = seq<byte>

  function SizeValue(h: Bits): nat
    requires |h| >= 4
  {
    h[0] as int * 256 + h[1]
  }

  function ConnId(h: Bits): nat
    requires |h| >= 4
  {
    (h[2] as int % 32) * 256 + h[3]
  }

  predicate HasFlow(h: Bits)
    requires |h| >= 4
  {
    h[2] / 128 == 1
  }

  predicate HasBody(h: Bits)
    requires |h| >= 4
  {
    (h[2] / 64) % 2 == 1
  }

  predicate HasHead(h: Bits)
    requires |h| >= 4
  {
    (h[2] / 32) % 2 == 1
  }

  predicate HasPayload(h: Bits)
    requires |h| >= 4
  {
    !HasFlow(h) && (HasBody(h) || HasHead(h))
  }

  /** h[2] & 0xE0 == 0x80 */
  predicate IsAck(h: Bits)
    requires |h| >= 4
  {
    (h[2] / 32) * 32 == 0x80
  }

  /** h[2] & 0xC0 == 0xC0 */
  predicate IsFinal(h: Bits)
    requires |h| >= 4
  {
    (h[2] / 64) * 64 == 0xC0
  }

  predicate IsMuxerControl(h: Bits)
    requires |h| >= 4
  {
    ConnId(h) == MUXER_CONN_ID
  }

  /** b with one flag bit, of the given weight, set. */
  function SetBit(b: byte, weight: byte): byte
    requires weight in {32, 64, 128}
  {
    if (b / weight) % 2 == 1 then b else b + weight
  }

  /** A byte from its three flag bits and its five ID bits. */
  lemma Digits(f: int, d: int, h: int, r: int)
    requires 0 <= f <= 1 && 0 <= d <= 1 && 0 <= h <= 1 && 0 <= r < 32
    ensures var x := 128 * f + 64 * d + 32 * h + r;
      x / 128 == f && (x / 64) % 2 == d && (x / 32) % 2 == h && x % 32 == r
  {
    var x := 128 * f + 64 * d + 32 * h + r;
    assert x / 128 == f && x / 64 == 2 * f + d && x / 32 == 4 * f + 2 * d + h;
  }

  /** Setting one flag leaves the other flags and the ID bits alone. */
  lemma SetBitAlone(b: byte, weight: byte)
    requires weight in {32, 64, 128}
    ensures var c := SetBit(b, weight);
      && c / 128 == (if weight == 128 then 1 else b / 128)
      && (c / 64) % 2 == (if weight == 64 then 1 else (b / 64) % 2)
      && (c / 32) % 2 == (if weight == 32 then 1 else (b / 32) % 2)
      && c % 32 == b % 32
  {
    var f, d, h, r := b / 128, (b / 64) % 2, (b / 32) % 2, b % 32;
    assert b == 128 * f + 64 * d + 32 * h + r;
    Digits(if weight == 128 then 1 else f, if weight == 64 then 1 else d, if weight == 32 then 1 else h, r);
    assert weight == 128 ==> SetBit(b, 128) == 128 + 64 * d + 32 * h + r;
    assert weight == 64 ==> SetBit(b, 64) == 128 * f + 64 + 32 * h + r;
    assert weight == 32 ==> SetBit(b, 32) == 128 * f + 64 * d + 32 + r;
  }

  /** The masks of the source, as the arithmetic used here. */
  lemma MasksAreDivisions(v: bv8)
    ensures var b: byte := v as int;
      && (v & 0xE0) as int == (b / 32) * 32 && (v & 0xC0) as int == (b / 64) * 64 && (v & 0x1F) as int == b % 32
      && (v & 0x80 == 0x80 <==> b / 128 == 1)
      && (v & 0x40 == 0x40 <==> (b / 64) % 2 == 1)
      && (v & 0x20 == 0x20 <==> (b / 32) % 2 == 1)
  {
  }

  /** Setting each of the three flag bits. */
  lemma SetFlowBit(v: bv8)
    ensures var b: byte := v as int; (v | 0x80) as int == SetBit(b, 128)
  {
  }

  lemma SetBodyBit(v: bv8)
    ensures var b: byte := v as int; (v | 0x40) as int == SetBit(b, 64)
  {
  }

  lemma SetHeadBit(v: bv8)
    ensures var b: byte := v as int; (v | 0x20) as int == SetBit(b, 32)
  {
  }

  /** The flags are the top three bits of the third byte. */
  lemma TopBits(b: byte, c: byte)
    requires b / 32 == c / 32
    ensures b / 128 == c / 128 && b / 64 == c / 64
  {
    assert b / 64 == (b / 32) / 2 && c / 64 == (c / 32) / 2;
    assert b / 128 == (b / 32) / 4 && c / 128 == (c / 32) / 4;
  }

  // ----- the header as a record

  datatype View = View(size: nat, flow: bool, body: bool, head: bool, id: nat)

  predicate Fits(v: View) { v.size < 0x10000 && v.id <= MUXER_CONN_ID }

  function Unpack(h: Bits): View
    requires |h| >= 4
  {
    View(SizeValue(h), HasFlow(h), HasBody(h), HasHead(h), ConnId(h))
  }

  lemma UnpackPrefix(h: Bits, more: seq<byte>)
    requires |h| >= 4
    ensures Unpack(h + more) == Unpack(h)
  {
  }

  function Flag(b: bool, weight: nat): nat { if b then weight else 0 }

  function Pack(v: View): Bits
    requires Fits(v)
  {
    [v.size / 256, v.size % 256,
     Flag(v.flow, 128) + Flag(v.body, 64) + Flag(v.head, 32) + v.id / 256, v.id % 256]
  }

  /** Every header is one record and every record one header. */
  lemma UnpackPack(v: View)
    requires Fits(v)
    ensures |Pack(v)| == 4 && Unpack(Pack(v)) == v
  {
    var b := Pack(v)[2];
    assert b / 32 == Flag(v.flow, 4) + Flag(v.body, 2) + Flag(v.head, 1) && b % 32 == v.id / 256;
  }

  lemma PackUnpack(h: Bits)
    requires |h| == 4
    ensures Fits(Unpack(h)) && Pack(Unpack(h)) == h
  {
    var w := Unpack(h);
    assert Flag(w.flow, 128) + Flag(w.body, 64) + Flag(w.head, 32) == (h[2] / 32) * 32;
  }

  /** The flow frames of the protocol are told apart by their flags alone. */
  lemma FlowFrames(h: Bits)
    requires |h| >= 4
    ensures IsAck(h) <==> HasFlow(h) && !HasBody(h) && !HasHead(h)
    ensures IsFinal(h) <==> HasFlow(h) && HasBody(h)
    ensures !(IsAck(h) && IsFinal(h)) && !(HasPayload(h) && HasFlow(h))
  {
  }
}
