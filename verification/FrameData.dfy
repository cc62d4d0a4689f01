/** FrameData: the byte buffer that frames and records are built in. */
module FrameBuffers {
  import opened Bytes
  import opened Header
  import opened Varint
  import opened Strings
  import opened Records

  /** byte(b) | 0x80 */
  function SetHigh(b: byte): byte { if b < 128 then b + 128 else b }

  datatype WriteResult = Fits | TooBig | Panicked

  lemma SameFlags(h: Bits)
    requires |h| >= 4
    ensures var v := Unpack(h); HasFlow(h) == v.flow && HasBody(h) == v.body && HasHead(h) == v.head
  {
  }

  /** A record appended to a frame with the head flag set. */
  lemma Headed(h: Bits, record: seq<byte>)
    requires |h| >= 4
    ensures Unpack(h + record) == Unpack(h) && (h + record)[4..] == h[4..] + record
    ensures HasFlow(h + record) == Unpack(h).flow && HasHead(h + record) == Unpack(h).head
  {
    UnpackPrefix(h, record);
  }

  class FrameData {
    var buf: seq<byte>

    constructor (connId: nat)
      requires connId < MUXER_CONN_ID
      ensures buf == Pack(View(0, false, false, false, connId)) && Flagged()
    {
      buf := [0, 0, connId / 256, connId % 256];
    }

    // ----- header setters

    method SetSizeValue(n: nat)
      requires |buf| >= 4
      modifies this
      ensures |buf| == old(|buf|) && buf[4..] == old(buf[4..])
      ensures Unpack(buf) == Unpack(old(buf)).(size := n % 0x10000)
    {
      buf := [(n / 256) % 256, n % 256] + buf[2..];
    }

    /** SetSizeValue of the frame itself: the size becomes its payload's; a frame without a header panics. */
    method SetPayloadSize() returns (panic: bool)
      modifies this
      ensures panic <==> |old(buf)| < 4
      ensures panic ==> buf == old(buf)
      ensures !panic ==>
        && |buf| == |old(buf)| && buf[4..] == old(buf)[4..]
        && Unpack(buf) == Unpack(old(buf)).(size := |buf[4..]| % 0x10000)
        && (|buf| <= FRAME_MAX_SIZE ==> SizeValue(buf) == |buf[4..]|)
    {
      if |buf| < 4 { return true; }
      SetSizeValue(|buf| - 4);
      panic := false;
    }

    method SetConnId(connId: nat)
      requires |buf| >= 4 && connId <= MUXER_CONN_ID
      modifies this
      ensures |buf| == old(|buf|) && buf[4..] == old(buf[4..])
      ensures Unpack(buf) == Unpack(old(buf)).(id := connId)
    {
      var b := (buf[2] / 32) * 32 + connId / 256;
      TopBits(b, buf[2]);
      assert b % 32 == connId / 256;
      buf := buf[2 := b][3 := connId % 256];
    }

    method SetFlow()
      requires |buf| >= 4
      modifies this
      ensures |buf| == old(|buf|) && buf[4..] == old(buf[4..])
      ensures Unpack(buf) == Unpack(old(buf)).(flow := true)
    {
      hide SetBit;
      SetBitAlone(buf[2], 128);
      buf := buf[2 := SetBit(buf[2], 128)];
    }

    method SetBody()
      requires |buf| >= 4
      modifies this
      ensures |buf| == old(|buf|) && buf[4..] == old(buf[4..])
      ensures Unpack(buf) == Unpack(old(buf)).(body := true)
    {
      hide SetBit;
      SetBitAlone(buf[2], 64);
      buf := buf[2 := SetBit(buf[2], 64)];
    }

    method SetHead()
      requires |buf| >= 4
      modifies this
      ensures |buf| == old(|buf|) && buf[4..] == old(buf[4..])
      ensures Unpack(buf) == Unpack(old(buf)).(head := true)
    {
      hide SetBit;
      SetBitAlone(buf[2], 32);
      buf := buf[2 := SetBit(buf[2], 32)];
    }

    method SetMuxerControl(flow: bool, body: bool, head: bool)
      requires |buf| >= 4
      modifies this
      ensures |buf| == old(|buf|) && buf[4..] == old(buf[4..])
      ensures Unpack(buf) == View(SizeValue(old(buf)), flow, body, head, MUXER_CONN_ID)
    {
      buf := buf[2 := Flag(flow, 128) + Flag(body, 64) + Flag(head, 32) + buf[2] % 32];
      SetConnId(MUXER_CONN_ID);
    }

    // ----- values

    method WriteUint64(x: nat)
      requires x < UINT64
      modifies this
      ensures buf == old(buf) + EncodeUint64(x)
    {
      var y := x;
      while y >= 0x80
        invariant buf + EncodeUint64(y) == old(buf) + EncodeUint64(x)
      {
        ghost var before, tail := buf, EncodeUint64(y / 128);
        buf := buf + [SetHigh(y % 256)];
        assert SetHigh(y % 256) == y % 128 + 128;
        assert before + ([y % 128 + 128] + tail) == (before + [y % 128 + 128]) + tail;
        y := y / 128;
      }
      buf := buf + [y];
    }

    method WriteInt64(x: int)
      requires IsInt64(x)
      modifies this
      ensures buf == old(buf) + EncodeInt64(x)
    {
      var ux := ((x % 0x1_0000_0000_0000_0000) * 2) % 0x1_0000_0000_0000_0000;
      if x < 0 {
        ux := 0xFFFF_FFFF_FFFF_FFFF - ux;
      }
      WriteUint64(ux);
    }

    method WriteLen(x: int) returns (ok: bool)
      modifies this
      ensures ok == (0 <= x <= MAX_LEN)
      ensures buf == old(buf) + (if EncodeLen(x).Some? then EncodeLen(x).value else [])
    {
      if x < 0 {
        ok := false;
      } else if x < 0x80 {
        buf, ok := buf + [x], true;
      } else if x <= 0x7fff {
        buf, ok := buf + [SetHigh(x / 256), x % 256], true;
      } else {
        ok := false;
      }
    }

    method WriteString(s: Text) returns (ok: bool)
      modifies this
      ensures ok == Encodable(Chars(s)) && buf == old(buf) + EncodeString(Chars(s))
    {
      if |s| == 0 {
        buf := buf + [0, 1];
        return true;
      }
      ok := WriteLen(|s|);
      if ok {
        LenRoundTrip(|s|, []);
        assert old(buf) + EncodeLen(|s|).value + s == old(buf) + (EncodeLen(|s|).value + s);
        buf := buf + s;
      }
    }

    method WriteStringNull()
      modifies this
      ensures buf == old(buf) + EncodeString(Null)
    {
      buf := buf + [0, 0];
    }

    /** One key of a map with its values, as both record writers emit it. */
    method WriteEntry(k: Text, vv: seq<Text>)
      modifies this
      ensures buf == old(buf) + (EncodeString(Chars(k)) + EncodeTexts(vv))
    {
      hide EncodeString;
      ghost var base := buf + EncodeString(Chars(k));
      var _ := WriteString(k);
      for i := 0 to |vv|
        invariant buf + EncodeTexts(vv[i..]) == base + EncodeTexts(vv)
      {
        ghost var before := buf;
        var _ := WriteString(vv[i]);
        assert vv[i..][1..] == vv[i + 1..];
        assert before + (EncodeString(Chars(vv[i])) + EncodeTexts(vv[i + 1..]))
            == (before + EncodeString(Chars(vv[i]))) + EncodeTexts(vv[i + 1..]);
      }
      assert vv[|vv|..] == [];
      WriteStringNull();
      assert base + EncodeTexts(vv) == old(buf) + (EncodeString(Chars(k)) + EncodeTexts(vv));
    }

    /** What remains to be written of a map once the first i keys are done. */
    ghost predicate Remaining(m: Values, order: seq<Text>, i: nat, base: seq<byte>)
      requires i <= |order|
      reads this
    {
      buf + EncodeEntries(EntriesOf(order[i..], m)) == base + EncodeEntries(EntriesOf(order, m))
    }

    method WriteKey(m: Values, order: seq<Text>, i: nat, ghost base: seq<byte>)
      requires i < |order| && order[i] in m && Remaining(m, order, i, base)
      modifies this
      ensures Remaining(m, order, i + 1, base)
    {
      hide EncodeString, EncodeTexts;
      ghost var before, e := buf, EncodeString(Chars(order[i])) + EncodeTexts(m[order[i]]);
      ghost var tail := EncodeEntries(EntriesOf(order[i + 1..], m));
      WriteEntry(order[i], m[order[i]]);
      assert order[i..][1..] == order[i + 1..];
      assert EntriesOf(order[i..], m)[1..] == EntriesOf(order[i + 1..], m);
      assert before + (e + tail) == (before + e) + tail;
    }

    method WriteMap(m: Values, order: seq<Text>)
      requires Enumerates(order, m)
      modifies this
      ensures buf == old(buf) + EncodeEntries(EntriesOf(order, m))
    {
      hide EncodeEntries, EntriesOf;
      assert order[0..] == order;
      for i := 0 to |order|
        invariant Remaining(m, order, i, old(buf))
      {
        WriteKey(m, order, i, old(buf));
      }
      FinishMap(m, order, old(buf));
    }

    method FinishMap(m: Values, order: seq<Text>, ghost base: seq<byte>)
      requires Remaining(m, order, |order|, base)
      modifies this
      ensures buf == base + EncodeEntries(EntriesOf(order, m))
    {
      assert order[|order|..] == [];
      WriteStringNull();
    }

    // ----- records

    /** The header loop of WriteRequest, which also settles content length and host. */
    method WriteRequestHeader(lib: Library, r: Request, order: seq<Text>) returns (panic: bool, n: int, host: Text)
      requires Typed(lib, r) && Enumerates(order, r.header)
      modifies this
      ensures panic <==> !(LengthIndexable(r) && HostIndexable(r))
      ensures !panic ==>
        && buf == old(buf) + EncodeEntries(EntriesOf(order, r.header))
        && n == NormalLength(lib, r) && IsInt64(n) && host == NormalHost(r)
    {
      hide EncodeString, EncodeEntries, EntriesOf;
      n, host, panic := r.contentLength, r.host, false;
      var haveLength, haveHost := false, false;
      assert order[0..] == order;
      for i := 0 to |order|
        invariant Remaining(r.header, order, i, old(buf))
        invariant haveLength == (CONTENT_LENGTH in order[..i]) && haveHost == (HOST in order[..i])
        invariant (haveLength ==> LengthIndexable(r)) && (haveHost ==> HostIndexable(r))
        invariant n == (if haveLength then NormalLength(lib, r) else r.contentLength)
        invariant host == (if haveHost then NormalHost(r) else r.host)
      {
        var k := order[i];
        assert k in r.header;
        assert order[..i + 1] == order[..i] + [k];
        if !haveLength && k == CONTENT_LENGTH {
          haveLength := true;
          if n < 0 {
            if |r.header[k]| == 0 { return true, n, host; }
            var parsed := lib.parseInt(r.header[k][0]);
            if parsed.Some? { n := parsed.value; }
          }
        }
        if !haveHost && k == HOST {
          haveHost := true;
          if host == [] {
            if |r.header[k]| == 0 { return true, n, host; }
            host := r.header[k][0];
          }
        }
        WriteKey(r.header, order, i, old(buf));
      }
      assert order[..|order|] == order;
      FinishMap(r.header, order, old(buf));
      if !haveLength && n < 0 { n := -1; }
    }

    method WriteRequest(lib: Library, r: Request, q: seq<Text>, h: seq<Text>) returns (res: WriteResult)
      requires |buf| >= 4 && Typed(lib, r) && Enumerates(q, r.query) && Enumerates(h, r.header)
      modifies this
      ensures res == Panicked <==> !Indexable(lib, r)
      ensures res != Panicked ==>
        && |buf| >= 4 && Unpack(buf) == Unpack(old(buf)).(head := true) && (old(Flagged()) ==> Flagged())
        && buf[4..] == old(buf[4..]) + [REQUEST_RECORD] + RequestBytes(lib, r, q, h)
        && (res == Fits <==> RequestPayload(lib, r, q, h, old(buf[4..])) == Some(buf[4..]))
    {
      hide RequestBytes, Unpack, Indexable, Typed, Enumerates;
      ghost var was := buf;
      SetHead();
      ghost var start := buf;
      buf := buf + [REQUEST_RECORD];
      var panic := WriteRequestRecord(lib, r, q, h);
      if panic { return Panicked; }
      ghost var record := RequestBytes(lib, r, q, h);
      assert buf == start + ([REQUEST_RECORD] + record);
      Headed(start, [REQUEST_RECORD] + record);
      SameFlags(was);
      assert buf[4..] == was[4..] + [REQUEST_RECORD] + record;
      res := if |buf| > FRAME_MAX_SIZE then TooBig else Fits;
    }

    /** What follows the record type. */
    method WriteRequestRecord(lib: Library, r: Request, q: seq<Text>, h: seq<Text>) returns (panic: bool)
      requires Typed(lib, r) && Enumerates(q, r.query) && Enumerates(h, r.header)
      modifies this
      ensures panic <==> !Indexable(lib, r)
      ensures !panic ==> buf == old(buf) + RequestBytes(lib, r, q, h)
    {
      hide EncodeString, EncodeEntries, EncodeInt64, EntriesOf, NormalPath, NormalHost, NormalLength;
      panic := WriteRequestTarget(lib, r);
      if panic { return; }
      WriteMap(r.query, q);
      var n, host;
      panic, n, host := WriteRequestHeader(lib, r, h);
      if panic { return; }
      if host == [] {
        WriteStringNull();
      } else {
        var _ := WriteString(host);
      }
      WriteInt64(n);
    }

    method WriteRequestTarget(lib: Library, r: Request) returns (panic: bool)
      modifies this
      ensures panic <==> !PathIndexable(lib, r.path)
      ensures !panic ==>
        buf == old(buf) + (EncodeString(Chars(r.verb)) + EncodeString(Chars(r.scheme))
                           + [0] + EncodeString(Chars(NormalPath(lib, r.path))))
    {
      hide EncodeString;
      var _ := WriteString(r.verb);
      var _ := WriteString(r.scheme);
      var np := lib.clean(Slashes(r.path));
      if np != [SLASH] {
        if |r.path| == 0 { return true; }
        if r.path[|r.path| - 1] == SLASH { np := np + [SLASH]; }
      }
      var _ := WriteLen(0);
      var _ := WriteString(np);
      panic := false;
    }

    /** Body data, as Conn.write and Conn.ReadFrom put it into a frame. */
    method AppendBody(p: seq<byte>)
      requires |buf| >= 4
      modifies this
      ensures |buf| >= 4 && Unpack(buf) == Unpack(old(buf)).(body := true) && buf[4..] == old(buf[4..]) + p
      ensures old(Flagged()) ==> Flagged()
    {
      hide Unpack;
      SetBody();
      ghost var start := buf;
      buf := buf + p;
      UnpackPrefix(start, p);
      SameFlags(buf);
      SameFlags(old(buf));
    }

    /** Not a flow frame, and no payload without a flag: what writeFrame panics without. */
    ghost predicate Flagged()
      reads this
    {
      |buf| >= 4 && !HasFlow(buf) && (|buf| > 4 ==> HasBody(buf) || HasHead(buf))
    }

    method WriteResponse(code: int, n: int, header: Values, h: seq<Text>) returns (res: WriteResult)
      requires |buf| >= 4 && IsInt64(n) && Enumerates(h, header)
      modifies this
      ensures |buf| >= 4 && Unpack(buf) == Unpack(old(buf)).(head := true) && (old(Flagged()) ==> Flagged())
      ensures buf[4..] == old(buf[4..]) + [RESPONSE_RECORD] + ResponseBytes(code, n, header, h)
      ensures res != Panicked && (res == Fits <==> ResponsePayload(code, n, header, h, old(buf[4..])) == Some(buf[4..]))
    {
      hide EncodeLen, EncodeEntries, EncodeInt64, EntriesOf, Unpack;
      SameFlags(buf);
      SetHead();
      ghost var start := buf;
      buf := buf + [RESPONSE_RECORD];
      var _ := WriteLen(code);
      WriteMap(header, h);
      WriteInt64(n);
      assert buf == start + ([RESPONSE_RECORD] + ResponseBytes(code, n, header, h));
      Headed(start, [RESPONSE_RECORD] + ResponseBytes(code, n, header, h));
      assert buf[4..] == old(buf[4..]) + [RESPONSE_RECORD] + ResponseBytes(code, n, header, h);
      res := if |buf| > FRAME_MAX_SIZE then TooBig else Fits;
    }
  }
}
