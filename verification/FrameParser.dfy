/** FrameParser of frameparser.go: a cursor over the payload of one frame. */
module FrameParsing {
  import opened Bytes
  import opened Varint
  import opened Strings
  import opened Records

  // ----- accumulating maps entry by entry

  lemma {:induction false} AddEachSnoc(m: Values, k: Text, vs: seq<Text>, v: Text)
    ensures AddEach(m, k, vs + [v]) == AddEach(m, k, vs)[k := Get(AddEach(m, k, vs), k) + [v]]
  {
    AddEachResult(m, k, vs);
    AddEachResult(m, k, vs + [v]);
    assert Get(m, k) + (vs + [v]) == (Get(m, k) + vs) + [v];
  }

  lemma {:induction false} AddEntriesSnoc(rename: Text -> Text, m: Values, es: seq<Entry>, e: Entry)
    ensures AddEntries(rename, m, es + [e]) == AddEach(AddEntries(rename, m, es), rename(e.key), e.values)
    decreases |es|
  {
    hide AddEach;
    if es == [] {
      assert es + [e] == [e] && [e][1..] == [];
    } else {
      assert (es + [e])[1..] == es[1..] + [e];
      AddEntriesSnoc(rename, AddEach(m, rename(es[0].key), es[0].values), es[1..], e);
    }
  }

  /** What was read so far, followed by what the rest decodes to, is what the whole decodes to. */
  ghost predicate TextsSoFar(whole: seq<byte>, done: seq<Text>, rest: seq<byte>) {
    match DecodeTexts(rest)
    case None => DecodeTexts(whole) == None
    case Some((vs, after)) => DecodeTexts(whole) == Some((done + vs, after))
  }

  ghost predicate EntriesSoFar(whole: seq<byte>, done: seq<Entry>, rest: seq<byte>) {
    match DecodeEntries(rest)
    case None => DecodeEntries(whole) == None
    case Some((es, after)) => DecodeEntries(whole) == Some((done + es, after))
  }

  lemma TextsStart(whole: seq<byte>)
    ensures TextsSoFar(whole, [], whole) && EntriesSoFar(whole, [], whole)
  {
    if DecodeTexts(whole).Some? { assert [] + DecodeTexts(whole).value.0 == DecodeTexts(whole).value.0; }
    if DecodeEntries(whole).Some? { assert [] + DecodeEntries(whole).value.0 == DecodeEntries(whole).value.0; }
  }

  lemma TextsStep(whole: seq<byte>, done: seq<Text>, rest: seq<byte>, v: Text, rest': seq<byte>)
    requires TextsSoFar(whole, done, rest) && DecodeString(rest) == Some((Chars(v), rest'))
    ensures TextsSoFar(whole, done + [v], rest')
  {
    hide DecodeString;
    if DecodeTexts(rest').Some? {
      var vs := DecodeTexts(rest').value.0;
      assert done + ([v] + vs) == (done + [v]) + vs;
    }
  }

  lemma EntriesStep(whole: seq<byte>, done: seq<Entry>, rest: seq<byte>, k: Text, s1: seq<byte>,
                    vs: seq<Text>, rest': seq<byte>)
    requires EntriesSoFar(whole, done, rest)
    requires DecodeString(rest) == Some((Chars(k), s1)) && DecodeTexts(s1) == Some((vs, rest'))
    ensures EntriesSoFar(whole, done + [Entry(k, vs)], rest')
  {
    hide DecodeString, DecodeTexts;
    if DecodeEntries(rest').Some? {
      var es := DecodeEntries(rest').value.0;
      assert done + ([Entry(k, vs)] + es) == (done + [Entry(k, vs)]) + es;
    }
  }

  class FrameParser {
    var fp: seq<byte>

    constructor (payload: seq<byte>)
      ensures fp == payload
    {
      fp := payload;
    }

    /** Reads into a buffer of the given size. */
    method Read(size: nat) returns (p: seq<byte>)
      modifies this
      ensures old(fp) == p + fp && |p| == (if size < |old(fp)| then size else |old(fp)|)
    {
      var n := if size < |fp| then size else |fp|;
      p := fp[..n];
      fp := fp[n..];
    }

    method ReadUint64() returns (r: Option<nat>)
      modifies this
      ensures match DecodeUint64(old(fp))
              case None => r == None
              case Some((x, rest)) => r == Some(x) && fp == rest
    {
      hide Value, Or;
      var x: nat, s: nat := 0, 0;
      ValueOfNothing();
      for i := 0 to |fp|
        invariant fp == old(fp) && s == 7 * i
        invariant i <= 9 ==> x == Value(fp[..i])
        invariant forall j :: 0 <= j < i ==> fp[j] >= 0x80
      {
        var b := fp[i];
        if i < 9 || (i == 9 && b <= 1) { GroupAdded(fp, i); }
        if b < 0x80 {
          assert Terminator(fp) == Some(i);
          if i > 9 || (i == 9 && b > 1) { return None; }
          fp := fp[i + 1..];
          return Some(Or(x, Shift64(b, s)));
        }
        x := Or(x, Shift64(b % 128, s));
        s := s + 7;
      }
      r := None;
    }

    method ReadInt64() returns (r: Option<int>)
      modifies this
      ensures match DecodeInt64(old(fp))
              case None => r == None
              case Some((x, rest)) => r == Some(x) && fp == rest
    {
      ghost var d := DecodeUint64(fp);
      if d.Some? { DecodedMeaning(fp, d.value.0, d.value.1); }
      var u := ReadUint64();
      if u == None { return None; }
      var ix: int := u.value / 2;
      if u.value % 2 != 0 { ix := -1 - ix; }
      r := Some(ix);
    }

    method ReadLen() returns (r: Option<nat>)
      modifies this
      ensures match DecodeLen(old(fp))
              case None => r == None
              case Some((n, rest)) => r == Some(n) && fp == rest
    {
      if |fp| < 1 { return None; }
      var n: nat := fp[0];
      if n < 0x80 {
        fp := fp[1..];
      } else {
        if |fp| < 2 { return None; }
        n := (n % 128) * 256 + fp[1];
        fp := fp[2..];
      }
      r := Some(n);
    }

    method ReadString() returns (r: Option<Str>)
      modifies this
      ensures match DecodeString(old(fp))
              case None => r == None
              case Some((t, rest)) => r == Some(t) && fp == rest
    {
      hide DecodeLen;
      var n := ReadLen();
      if n == None { return None; }
      if n.value < 1 {
        var code := ReadLen();
        if code == None || code.value > 1 { return None; }
        r := Some(if code.value < 1 then Null else Chars([]));
      } else {
        if n.value > |fp| { return None; }
        r := Some(Chars(fp[..n.value]));
        fp := fp[n.value..];
      }
    }

    method ReadRoute() returns (r: Option<Str>)
      modifies this
      ensures match DecodeRoute(old(fp))
              case None => r == None
              case Some((t, rest)) => r == Some(t) && fp == rest
    {
      hide DecodeString;
      var n := ReadLen();
      if n == None || n.value != 0 { return None; }
      r := ReadString();
    }

    /** The inner loop of both record readers: adds values under a key until NULL. */
    method ReadValues(m: Values, k: Text) returns (r: Option<Values>)
      modifies this
      ensures match DecodeTexts(old(fp))
              case None => r == None
              case Some((vs, rest)) => r == Some(AddEach(m, k, vs)) && fp == rest
    {
      hide DecodeString, AddEach;
      var acc := m;
      ghost var done: seq<Text> := [];
      TextsStart(fp);
      NothingAdded(m, k);
      while true
        invariant TextsSoFar(old(fp), done, fp) && acc == AddEach(m, k, done)
        decreases |fp|
      {
        ghost var before := fp;
        var t := ReadString();
        if t == None { return None; }
        if t.value == Null {
          assert done + [] == done;
          return Some(acc);
        }
        TextsStep(old(fp), done, before, t.value.text, fp);
        AddEachSnoc(m, k, done, t.value.text);
        done := done + [t.value.text];
        acc := acc[k := Get(acc, k) + [t.value.text]];
      }
    }

    /** The outer loop: keys until NULL. Also tells whether some key is `watch`. */
    method ReadMap(rename: Text -> Text, m: Values, watch: Text) returns (r: Option<Values>, has: bool)
      modifies this
      ensures match DecodeEntries(old(fp))
              case None => r == None
              case Some((es, rest)) => r == Some(AddEntries(rename, m, es)) && fp == rest && has == HasKey(es, watch)
    {
      hide DecodeString, DecodeTexts, AddEach, AddEntries;
      var acc := m;
      has := false;
      ghost var done: seq<Entry> := [];
      TextsStart(fp);
      NoEntries(rename, m);
      while true
        invariant EntriesSoFar(old(fp), done, fp) && acc == AddEntries(rename, m, done)
        invariant has == HasKey(done, watch)
        decreases |fp|
      {
        ghost var before := fp;
        var t := ReadString();
        if t == None { return None, has; }
        if t.value == Null {
          assert done + [] == done;
          return Some(acc), has;
        }
        var k := t.value.text;
        if !has && k == watch { has := true; }
        ghost var s1 := fp;
        var added := ReadValues(acc, rename(k));
        if added == None { return None, has; }
        ghost var e := Entry(k, DecodeTexts(s1).value.0);
        EntriesStep(old(fp), done, before, k, s1, e.values, fp);
        AddEntriesSnoc(rename, m, done, e);
        HasKeySnoc(done, e, watch);
        done := done + [e];
        acc := added.value;
      }
    }

    method ReadRequest(lib: Library) returns (r: Parsed<Decoded>)
      modifies this
      ensures match DecodeRequest(lib, old(fp))
              case Panic => r == Panic
              case BadUrl => r == BadUrl
              case Good(req, rest) => r == Good(req, rest) && fp == rest
    {
      hide DecodeString, DecodeEntries, DecodeInt64, DecodeRoute, AddEntries, HasKey;
      var verb := ReadString();
      if verb == None { return Panic; }
      var scheme := ReadString();
      if scheme == None { return Panic; }
      var uri := ReadRoute();
      if uri == None { return Panic; }
      var url := lib.parseUrl(TextOf(uri.value));
      if url == None { return BadUrl; }
      var query, _ := ReadMap(Identity, map[], CONTENT_LENGTH);
      if query == None { return Panic; }
      var header, _ := ReadMap(lib.canonical, map[], CONTENT_LENGTH);
      if header == None { return Panic; }
      var host := ReadString();
      if host == None { return Panic; }
      var n := ReadInt64();
      if n == None { return Panic; }
      r := Good(Decoded(TextOf(verb.value), TextOf(scheme.value), TextOf(uri.value), url.value,
                        query.value, WithLength(lib, header.value, n.value), TextOf(host.value), n.value), fp);
    }

    method ProxyResponse(lib: Library, h: Values) returns (r: Option<Response>)
      modifies this
      ensures match DecodeResponse(lib, h, old(fp))
              case None => r == None
              case Some((response, rest)) => r == Some(response) && fp == rest
    {
      hide DecodeLen, DecodeEntries, DecodeInt64, AddEntries, HasKey;
      var status := ReadLen();
      if status == None { return None; }
      var header, hasLength := ReadMap(lib.canonical, h, CONTENT_LENGTH);
      if header == None { return None; }
      var n := ReadInt64();
      if n == None { return None; }
      var fields := header.value;
      if n.value >= 0 && !hasLength {
        fields := fields[CONTENT_LENGTH := [if n.value == 0 then [48] else lib.formatInt(n.value)]];
      }
      r := Some(Response(status.value, fields));
    }

    /** None where there is no byte to read, which panics. */
    method ReadRecordType() returns (r: Option<byte>)
      modifies this
      ensures r == (if old(fp) == [] then None else Some(old(fp)[0]))
      ensures old(fp) != [] ==> fp == old(fp)[1..]
    {
      if |fp| == 0 { return None; }
      r := Some(fp[0]);
      fp := fp[1..];
    }

    /** The case distinction of Conn.Serve. */
    method Serve(lib: Library, head: bool) returns (r: Incoming)
      modifies this
      ensures r == ServeRecord(lib, head, old(fp))
    {
      hide DecodeRequest;
      if !head { return MissingHead; }
      var kind := ReadRecordType();
      if kind == None { return NoRecord; }
      if kind.value == REQUEST_RECORD {
        var parsed := ReadRequest(lib);
        r := RequestIn(parsed);
      } else if kind.value == HIJACKED_RECORD {
        r := HijackedIn;
      } else {
        r := UnhandledIn(kind.value);
      }
    }

    /** The case distinction of Conn.ProxyResponse. */
    method ReadAnswer(lib: Library, h: Values, head: bool) returns (r: Answer)
      modifies this
      ensures r == AnswerRecord(lib, h, head, old(fp))
    {
      hide DecodeResponse;
      if !head { return NoHeader; }
      var kind := ReadRecordType();
      if kind == None { return NoAnswer; }
      if kind.value == RESPONSE_RECORD {
        var response := ProxyResponse(lib, h);
        r := ResponseIn(if response == None then None else Some((response.value, fp)));
      } else if kind.value == HIJACKED_RECORD {
        r := UpgradeIn;
      } else {
        r := UnhandledAnswer(kind.value);
      }
    }
  }

  lemma ValueOfNothing()
    ensures forall s: seq<byte> :: s == [] ==> Value(s) == 0
  {
  }

  lemma NothingAdded(m: Values, k: Text)
    ensures AddEach(m, k, []) == m
  {
  }

  lemma NoEntries(rename: Text -> Text, m: Values)
    ensures AddEntries(rename, m, []) == m
  {
  }

  lemma HasKeySnoc(es: seq<Entry>, e: Entry, k: Text)
    ensures HasKey(es + [e], k) == (HasKey(es, k) || e.key == k)
  {
    if i :| 0 <= i < |es| && es[i].key == k { assert (es + [e])[i].key == k; }
    if e.key == k { assert (es + [e])[|es|].key == k; }
  }
}
