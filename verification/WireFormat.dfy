/**
  What goes over the wire, byte by byte. Round trips do not tell one format from
  another; these examples do.
 */
module WireFormat {
  import opened Bytes
  import opened Header
  import opened Varint
  import opened Strings
  import opened Records
  import opened Framing
  import opened Wire
  import P = Protocol

  /** Size first, high byte first; then flow, body and head flag, and thirteen bits of ID. */
  lemma HeaderBytes()
    ensures Unpack([0x12, 0x34, 0x41, 0x02]) == View(0x1234, false, true, false, 0x102)
    ensures Unpack([0x00, 0x05, 0x80, 0x07]) == View(5, true, false, false, 7)
    ensures Unpack([0x00, 0x00, 0x3F, 0xFF]) == View(0, false, false, true, 0x1FFF)
  {
  }

  /** The flow frames of conn 1, and a data frame with its size set. */
  lemma FrameBytesOfConnOne(k: nat)
    ensures Encode(Tagged(1, P.Ack(k), false, false)) == [0x00, 0x00, 0x80, 0x01]
    ensures Encode(Tagged(1, P.Final(k, false), false, false)) == [0x00, 0x00, 0xC0, 0x01]
    ensures Encode(Tagged(1, P.Final(k, true), false, false)) == [0x00, 0x00, 0xE0, 0x01]
    ensures Sized(Encode(Tagged(1, P.Data(k, [7, 8, 9]), false, true))) == [0x00, 0x03, 0x40, 0x01, 7, 8, 9]
    ensures Sized(Encode(Tagged(1, P.Data(k, [7, 8, 9]), true, false))) == [0x00, 0x03, 0x20, 0x01, 7, 8, 9]
  {
  }

  /** A ping sent at time 1, and the pong that answers it. */
  lemma PingBytes()
    ensures Sized(PingAt(1)) == [0x00, 0x01, 0x5F, 0xFF, 0x02]
    ensures IsPing([0x00, 0x01, 0x5F, 0xFF, 0x02])
    ensures PongOf([0x00, 0x01, 0x5F, 0xFF, 0x02]) == [0x00, 0x01, 0x7F, 0xFF, 0x02]
  {
    assert ZigZag(1) == 2;
  }

  /** Least significant group first. */
  lemma NumberBytes()
    ensures EncodeUint64(300) == [0xAC, 0x02]
    ensures EncodeInt64(-1) == [0x01] && EncodeInt64(1) == [0x02] && EncodeInt64(-150) == [0xAB, 0x02]
  {
    assert EncodeUint64(2) == [2];
    assert ZigZag(-1) == 1 && ZigZag(1) == 2 && ZigZag(-150) == 299;
  }

  /** Lengths from 0x80 on take two bytes, high byte first with its high bit set; NULL and the empty string differ. */
  lemma StringBytes()
    ensures EncodeLen(0x7F) == Some([0x7F]) && EncodeLen(0x1234) == Some([0x92, 0x34])
    ensures EncodeString(Null) == [0, 0] && EncodeString(Chars([])) == [0, 1]
    ensures EncodeString(Chars([104, 105])) == [2, 104, 105]
    ensures EncodeEntries([Entry([97], [[98], []])]) == [1, 97, 1, 98, 0, 1, 0, 0, 0, 0]
  {
    assert EncodeTexts([]) == [0, 0];
    var empty: seq<Text>, two: seq<Text> := [[]], [[98], []];
    assert empty[1..] == [] && EncodeTexts(empty) == [0, 1, 0, 0];
    assert two[1..] == empty && EncodeTexts(two) == [1, 98, 0, 1, 0, 0];
    assert [Entry([97], [[98], []])][1..] == [] && EncodeEntries([]) == [0, 0];
  }

  /** GET /a?q=x, with scheme "ws", host "h", one field F: v, and a length of 3. */
  function ExampleRequest(): Request {
    Request([71, 69, 84], [119, 115], [47, 97], map[[113] := [[120]]], map[[70] := [[118]]], [104], 3)
  }

  lemma ExampleNormal(lib: Library)
    requires lib.clean([47, 97]) == [47, 97] && forall t :: lib.parseInt(t).Some? ==> IsInt64(lib.parseInt(t).value)
    ensures var r := ExampleRequest();
      Writable(lib, r) && NormalPath(lib, r.path) == [47, 97] && NormalHost(r) == [104] && NormalLength(lib, r) == 3
  {
    assert Slashes([47, 97]) == [47, 97];
    assert HOST != [70] && CONTENT_LENGTH != [70] by { assert |HOST| == 4 && |CONTENT_LENGTH| == 14; }
  }

  lemma RequestExample(lib: Library)
    requires lib.clean([47, 97]) == [47, 97] && forall t :: lib.parseInt(t).Some? ==> IsInt64(lib.parseInt(t).value)
    ensures Writable(lib, ExampleRequest())
    ensures RequestPayload(lib, ExampleRequest(), [[113]], [[70]], [])
      == Some([3] + ([3, 71, 69, 84] + [2, 119, 115] + [0] + [2, 47, 97]
                     + [1, 113, 1, 120, 0, 0, 0, 0] + [1, 70, 1, 118, 0, 0, 0, 0] + [1, 104] + [6]))
  {
    ExampleNormal(lib);
    RequestPieces();
    OneKey(113, 120, map[[113] := [[120]]]);
    OneKey(70, 118, map[[70] := [[118]]]);
    hide EncodeString, EncodeEntries, EntriesOf, EncodeInt64, NormalPath, NormalHost, NormalLength, Writable;
    var record := RequestBytes(lib, ExampleRequest(), [[113]], [[70]]);
    assert [] + [REQUEST_RECORD] + record == [3] + record;
  }

  lemma RequestPieces()
    ensures EncodeString(Chars([71, 69, 84])) == [3, 71, 69, 84] && EncodeString(Chars([119, 115])) == [2, 119, 115]
    ensures EncodeString(Chars([47, 97])) == [2, 47, 97] && EncodeString(Chars([104])) == [1, 104]
    ensures EncodeInt64(3) == [6] && EncodeInt64(-1) == [1] && EncodeLen(404) == Some([0x81, 0x94])
  {
    assert ZigZag(3) == 6 && EncodeUint64(6) == [6];
    assert ZigZag(-1) == 1 && EncodeUint64(1) == [1];
  }

  lemma OneKey(k: byte, v: byte, m: Values)
    requires m == map[[k] := [[v]]]
    ensures EncodeEntries(EntriesOf([[k]], m)) == [1, k, 1, v, 0, 0, 0, 0]
  {
    assert [[k]][1..] == [] && EntriesOf([[k]], m) == [Entry([k], [[v]])];
    assert [[v]][1..] == [] && EncodeTexts([]) == [0, 0] && EncodeTexts([[v]]) == [1, v, 0, 0];
    assert [Entry([k], [[v]])][1..] == [] && EncodeEntries([]) == [0, 0];
  }

  /** Status 404 with one field F: v and no known length. */
  lemma ResponseExample()
    ensures ResponsePayload(404, -1, map[[70] := [[118]]], [[70]], [])
      == Some([4] + [0x81, 0x94] + [1, 70, 1, 118, 0, 0, 0, 0] + [1])
  {
    OneKey(70, 118, map[[70] := [[118]]]);
    RequestPieces();
    hide EncodeEntries, EntriesOf, EncodeInt64, EncodeLen;
    var record := [0x81, 0x94] + [1, 70, 1, 118, 0, 0, 0, 0] + [1];
    assert ResponseBytes(404, -1, map[[70] := [[118]]], [[70]]) == record;
    assert [] + [RESPONSE_RECORD] + record == [4] + [0x81, 0x94] + [1, 70, 1, 118, 0, 0, 0, 0] + [1];
  }
}
