/**
  Lengths, strings, NULL and key-value-value lists on the wire (framedata.go,
  frameparser.go). Decoders return None where the parser panics.
 */
module Strings {
  import opened Bytes

  type Text = seq<byte>

  /** What ReadString returns: a string, or the NULL marker. */
  datatype Str = Null | Chars(text: Text)

  const MAX_LEN: nat := 0x7fff

  // ----- lengths

  /** None where WriteLen returns an error. */
  function EncodeLen(x: int): Option<seq<byte>> {
    if x < 0 then None
    else if x < 0x80 then Some([x])
    else if x <= 0x7fff then Some([x / 256 + 128, x % 256])
    else None
  }

  function DecodeLen(s: seq<byte>): (r: Option<(nat, seq<byte>)>)
    ensures r.Some? ==> |r.value.1| < |s| && r.value.0 <= MAX_LEN
  {
    if s == [] then None
    else if s[0] < 0x80 then Some((s[0], s[1..]))
    else if |s| < 2 then None
    else var n: nat := (s[0] as int % 128) * 256 + s[1]; Some((n, s[2..]))
  }

  /** WriteLen fails exactly outside 0..0x7fff, and ReadLen undoes it. */
  lemma LenRoundTrip(x: int, rest: seq<byte>)
    ensures EncodeLen(x).Some? <==> 0 <= x <= MAX_LEN
    ensures EncodeLen(x).Some? ==> DecodeLen(EncodeLen(x).value + rest) == Some((x, rest))
  {
    if 0 <= x < 0x80 {
      assert ([x] + rest)[1..] == rest;
    } else if 0x80 <= x <= MAX_LEN {
      assert ([x / 256 + 128, x % 256] + rest)[2..] == rest;
    }
  }

  // ----- strings

  predicate Encodable(t: Str) { t.Chars? ==> |t.text| <= MAX_LEN }

  /** A string that is too long writes nothing: WriteString fails before it appends. */
  function EncodeString(t: Str): seq<byte> {
    match t
    case Null => [0, 0]
    case Chars(text) =>
      if text == [] then [0, 1]
      else match EncodeLen(|text|)
        case None => []
        case Some(len) => len + text
  }

  function DecodeString(s: seq<byte>): (r: Option<(Str, seq<byte>)>)
    ensures r.Some? ==> |r.value.1| < |s|
  {
    match DecodeLen(s)
    case None => None
    case Some((n, rest)) =>
      if n < 1 then
        match DecodeLen(rest)
        case None => None
        case Some((code, rest')) =>
          if code > 1 then None  // unmapped string index
          else Some((if code < 1 then Null else Chars([]), rest'))
      else if n > |rest| then None
      else Some((Chars(rest[..n]), rest[n..]))
  }

  lemma MarkerRoundTrip(code: byte, rest: seq<byte>)
    requires code <= 1
    ensures DecodeString([0, code] + rest) == Some((if code == 0 then Null else Chars([]), rest))
  {
    assert ([0, code] + rest)[1..] == [code] + rest;
    assert ([code] + rest)[1..] == rest;
  }

  lemma StringRoundTrip(t: Str, rest: seq<byte>)
    requires Encodable(t)
    ensures DecodeString(EncodeString(t) + rest) == Some((t, rest))
  {
    if t.Chars? && t.text != [] {
      var more := t.text + rest;
      LenRoundTrip(|t.text|, more);
      var len := EncodeLen(|t.text|).value;
      assert (len + t.text) + rest == len + more;
      assert more[..|t.text|] == t.text && more[|t.text|..] == rest;
    } else {
      MarkerRoundTrip(if t == Null then 0 else 1, rest);
    }
  }

  /**
    What ReadString makes of any bytes, by the length they start with: too few bytes panic; a
    length of zero is followed by an index, 0 for NULL, 1 for the empty string, and no other.
   */
  lemma StringMeans(s: seq<byte>)
    ensures var d, n := DecodeString(s), DecodeLen(s);
      && (n.None? ==> d.None?)
      && (n.Some? && n.value.0 > 0 ==>
            var len, after := n.value.0, n.value.1;
            if len > |after| then d.None? else d == Some((Chars(after[..len]), after[len..])))
      && (n.Some? && n.value.0 == 0 ==>
            var index := DecodeLen(n.value.1);
            && (index.None? ==> d.None?)
            && (index.Some? && index.value.0 == 0 ==> d == Some((Null, index.value.1)))
            && (index.Some? && index.value.0 == 1 ==> d == Some((Chars([]), index.value.1)))
            && (index.Some? && index.value.0 > 1 ==> d.None?))
  {
  }

  /** What ReadLen makes of any bytes: seven bits, or fifteen with the high bit set, high byte first. */
  lemma LenMeans(s: seq<byte>)
    ensures s == [] ==> DecodeLen(s) == None
    ensures s != [] && s[0] < 0x80 ==> DecodeLen(s) == Some((s[0], s[1..]))
    ensures |s| == 1 && s[0] >= 0x80 ==> DecodeLen(s) == None
    ensures |s| >= 2 && s[0] >= 0x80 ==> DecodeLen(s) == Some(((s[0] as int - 0x80) * 0x100 + s[1], s[2..]))
  {
  }

  /** A string survives the wire exactly when it is shorter than 0x8000 bytes, whatever follows it. */
  lemma StringSurvivesIff(t: Str, rest: seq<byte>)
    ensures DecodeString(EncodeString(t) + rest) == Some((t, rest)) <==> Encodable(t)
  {
    if Encodable(t) {
      StringRoundTrip(t, rest);
    } else {
      LenRoundTrip(|t.text|, rest);
      assert [] + rest == rest;
    }
  }

  /** NULL, the empty string and all other strings have encodings none of which begins another. */
  lemma StringsPrefixFree(t: Str, u: Str)
    requires Encodable(t) && Encodable(u) && EncodeString(t) <= EncodeString(u)
    ensures t == u
  {
    var rest := EncodeString(u)[|EncodeString(t)|..];
    assert EncodeString(u) == EncodeString(t) + rest;
    StringRoundTrip(t, rest);
    StringRoundTrip(u, []);
    assert EncodeString(u) + [] == EncodeString(u);
  }

  // ----- key-value-value lists

  datatype Entry = Entry(key: Text, values: seq<Text>)

  predicate EncodableTexts(vs: seq<Text>) { forall i :: 0 <= i < |vs| ==> |vs[i]| <= MAX_LEN }

  predicate EncodableEntries(es: seq<Entry>) {
    forall i :: 0 <= i < |es| ==> |es[i].key| <= MAX_LEN && EncodableTexts(es[i].values)
  }

  function EncodeTexts(vs: seq<Text>): seq<byte> {
    if vs == [] then EncodeString(Null)
    else EncodeString(Chars(vs[0])) + EncodeTexts(vs[1..])
  }

  function EncodeEntries(es: seq<Entry>): seq<byte> {
    if es == [] then EncodeString(Null)
    else EncodeString(Chars(es[0].key)) + EncodeTexts(es[0].values) + EncodeEntries(es[1..])
  }

  function DecodeTexts(s: seq<byte>): (r: Option<(seq<Text>, seq<byte>)>)
    ensures r.Some? ==> |r.value.1| < |s|
    decreases |s|
  {
    match DecodeString(s)
    case None => None
    case Some((Null, rest)) => Some(([], rest))
    case Some((Chars(v), rest)) =>
      match DecodeTexts(rest)
      case None => None
      case Some((vs, rest')) => Some(([v] + vs, rest'))
  }

  function DecodeEntries(s: seq<byte>): (r: Option<(seq<Entry>, seq<byte>)>)
    ensures r.Some? ==> |r.value.1| < |s|
    decreases |s|
  {
    match DecodeString(s)
    case None => None
    case Some((Null, rest)) => Some(([], rest))
    case Some((Chars(k), rest)) =>
      match DecodeTexts(rest)
      case None => None
      case Some((vs, rest')) =>
        match DecodeEntries(rest')
        case None => None
        case Some((es, rest'')) => Some(([Entry(k, vs)] + es, rest''))
  }

  /** Bytes that DecodeString, DecodeTexts or DecodeEntries reads as the given value, whatever follows them. */
  ghost predicate ReadsString(d: seq<byte>, t: Str) {
    forall more :: DecodeString(d + more) == Some((t, more))
  }

  ghost predicate ReadsTexts(d: seq<byte>, vs: seq<Text>) {
    forall more :: DecodeTexts(d + more) == Some((vs, more))
  }

  ghost predicate ReadsEntries(d: seq<byte>, es: seq<Entry>) {
    forall more :: DecodeEntries(d + more) == Some((es, more))
  }

  lemma StringReads(t: Str)
    requires Encodable(t)
    ensures ReadsString(EncodeString(t), t)
  {
    forall more ensures DecodeString(EncodeString(t) + more) == Some((t, more)) { StringRoundTrip(t, more); }
  }

  lemma NullEndsList(d: seq<byte>)
    requires ReadsString(d, Null)
    ensures ReadsTexts(d, []) && ReadsEntries(d, [])
  {
  }

  lemma TextsCons(d: seq<byte>, v: Text, e: seq<byte>, vs: seq<Text>)
    requires ReadsString(d, Chars(v)) && ReadsTexts(e, vs)
    ensures ReadsTexts(d + e, [v] + vs)
  {
    hide DecodeString;
    forall more ensures DecodeTexts((d + e) + more) == Some(([v] + vs, more)) {
      assert (d + e) + more == d + (e + more);
    }
  }

  lemma EntriesCons(d: seq<byte>, k: Text, e: seq<byte>, vs: seq<Text>, f: seq<byte>, es: seq<Entry>)
    requires ReadsString(d, Chars(k)) && ReadsTexts(e, vs) && ReadsEntries(f, es)
    ensures ReadsEntries(d + e + f, [Entry(k, vs)] + es)
  {
    hide DecodeString;
    forall more ensures DecodeEntries((d + e + f) + more) == Some(([Entry(k, vs)] + es, more)) {
      assert (d + e + f) + more == d + (e + (f + more));
    }
  }

  lemma {:induction false} TextsRead(vs: seq<Text>)
    requires EncodableTexts(vs)
    ensures ReadsTexts(EncodeTexts(vs), vs)
  {
    if vs == [] {
      StringReads(Null);
      NullEndsList(EncodeString(Null));
    } else {
      StringReads(Chars(vs[0]));
      TextsRead(vs[1..]);
      TextsCons(EncodeString(Chars(vs[0])), vs[0], EncodeTexts(vs[1..]), vs[1..]);
      assert [vs[0]] + vs[1..] == vs;
    }
  }

  /** Nested lists, of any contents, are read back whatever follows them. */
  lemma {:induction false} EntriesRead(es: seq<Entry>)
    requires EncodableEntries(es)
    ensures ReadsEntries(EncodeEntries(es), es)
  {
    if es == [] {
      StringReads(Null);
      NullEndsList(EncodeString(Null));
    } else {
      StringReads(Chars(es[0].key));
      TextsRead(es[0].values);
      EntriesRead(es[1..]);
      EntriesCons(EncodeString(Chars(es[0].key)), es[0].key, EncodeTexts(es[0].values), es[0].values,
                  EncodeEntries(es[1..]), es[1..]);
      assert [Entry(es[0].key, es[0].values)] + es[1..] == es;
    }
  }

  /** A list is read back the same way whatever follows it. */
  lemma EntriesUnique(es: seq<Entry>, fs: seq<Entry>, r: seq<byte>, q: seq<byte>)
    requires EncodableEntries(es) && EncodableEntries(fs)
    requires EncodeEntries(es) + r == EncodeEntries(fs) + q
    ensures es == fs && r == q
  {
    EntriesRead(es);
    EntriesRead(fs);
  }
}
