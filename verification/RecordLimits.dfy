/**
  Exactly which records survive the wire. A string of 0x8000 bytes or more is not
  written, and the record writers ignore the error; these theorems say when the reader
  nevertheless recovers the record.
 */
module RecordLimits {
  import opened Bytes
  import opened Varint
  import opened Strings
  import opened Records

  // ----- what is read is short

  lemma StringShort(s: seq<byte>)
    ensures DecodeString(s).Some? ==> Encodable(DecodeString(s).value.0)
  {
  }

  lemma {:induction false} TextsShort(s: seq<byte>)
    ensures DecodeTexts(s).Some? ==> EncodableTexts(DecodeTexts(s).value.0)
    decreases |s|
  {
    hide DecodeString;
    StringShort(s);
    if DecodeString(s).Some? && DecodeString(s).value.0.Chars? { TextsShort(DecodeString(s).value.1); }
  }

  lemma {:induction false} EntriesShort(s: seq<byte>)
    ensures DecodeEntries(s).Some? ==> EncodableEntries(DecodeEntries(s).value.0)
    decreases |s|
  {
    hide DecodeString, DecodeTexts;
    StringShort(s);
    if DecodeString(s).Some? && DecodeString(s).value.0.Chars? {
      var s1 := DecodeString(s).value.1;
      TextsShort(s1);
      if DecodeTexts(s1).Some? { EntriesShort(DecodeTexts(s1).value.1); }
    }
  }

  lemma AddedOne(m: Values, key: Text, vs: seq<Text>, k: Text)
    ensures Get(AddEach(m, key, vs), k) == Get(m, k) + (if key == k then vs else [])
  {
    AddEachResult(m, key, vs);
  }

  /** Reading short entries adds only short values, and only under short keys. */
  lemma {:induction false} AddedShort(rename: Text -> Text, m: Values, es: seq<Entry>, k: Text) returns (vs: seq<Text>)
    requires EncodableEntries(es) && forall t :: |rename(t)| == |t|
    ensures Get(AddEntries(rename, m, es), k) == Get(m, k) + vs
    ensures EncodableTexts(vs) && (vs != [] ==> |k| <= MAX_LEN)
    decreases |es|
  {
    hide AddEach, Get;
    if es == [] {
      vs := [];
    } else {
      var e, m' := es[0], AddEach(m, rename(es[0].key), es[0].values);
      AddedOne(m, rename(e.key), e.values, k);
      var rest := AddedShort(rename, m', es[1..], k);
      var first := if rename(e.key) == k then e.values else [];
      assert |rename(e.key)| == |e.key| && EncodableTexts(first);
      vs := first + rest;
      assert (Get(m, k) + first) + rest == Get(m, k) + vs;
    }
  }

  /** Short values, under short keys; a key without values may still be too long to be written. */
  predicate Sparse(e: Entry) {
    EncodableTexts(e.values) && (e.values != [] ==> |e.key| <= MAX_LEN)
  }

  predicate SparseEntries(es: seq<Entry>) { forall i :: 0 <= i < |es| ==> Sparse(es[i]) }

  predicate SparseValues(m: Values) { forall k :: k in m ==> Sparse(Entry(k, m[k])) }

  /** If reading short entries on top of `h` gives what merging m gives, m was short; but for some keys, if need be. */
  lemma MergedShort(rename: Text -> Text, h: Values, m: Values, es: seq<Entry>, got: Values, skip: set<Text>)
    requires EncodableEntries(es) && forall t :: |rename(t)| == |t|
    requires forall k :: k in m && k !in skip ==> Get(got, k) == Get(AddEntries(rename, h, es), k)
    requires forall k :: k in m && k !in skip ==> Get(got, k) == Get(h, k) + m[k]
    ensures SparseValues(m - skip)
  {
    forall k | k in m && k !in skip ensures Sparse(Entry(k, m[k])) {
      var vs := AddedShort(rename, h, es, k);
      assert (Get(h, k) + m[k])[|Get(h, k)|..] == m[k] && (Get(h, k) + vs)[|Get(h, k)|..] == vs;
    }
  }

  // ----- a long key without values ends its list early

  lemma {:induction false} TextsEnd(vs: seq<Text>)
    ensures var d := EncodeTexts(vs); |d| >= 2 && d[|d| - 1] == 0
  {
    if vs != [] { TextsEnd(vs[1..]); }
  }

  lemma {:induction false} EntriesEnd(es: seq<Entry>)
    ensures var d := EncodeEntries(es); |d| >= 2 && d[|d| - 1] == 0
  {
    if es != [] { EntriesEnd(es[1..]); }
  }

  /** The list is read up to the first key that is too long, if any, and then what follows that key is left. */
  lemma {:induction false} FirstList(es: seq<Entry>, more: seq<byte>) returns (rest: seq<Entry>)
    requires SparseEntries(es)
    ensures var d := DecodeEntries(EncodeEntries(es) + more);
      && d.Some? && SparseEntries(rest)
      && d.value.1 == (if EncodableEntries(es) then more else EncodeEntries(rest) + more)
  {
    hide DecodeString, DecodeTexts, EncodeString, EncodeTexts;
    rest := [];
    if EncodableEntries(es) {
      EntriesRead(es);
    } else if |es[0].key| > MAX_LEN {
      rest := es[1..];
      LongKeyBytes(es);
      StringReads(Null);
      var tail := EncodeEntries(rest) + more;
      assert EncodeEntries(es) + more == EncodeString(Null) + tail;
    } else {
      rest := FirstList(es[1..], more);
      FirstEntry(es, more);
    }
  }

  /** Reading a list that starts with a short key goes on with the rest of the list. */
  lemma FirstEntry(es: seq<Entry>, more: seq<byte>)
    requires es != [] && Sparse(es[0]) && |es[0].key| <= MAX_LEN
    ensures var d, t := DecodeEntries(EncodeEntries(es) + more), DecodeEntries(EncodeEntries(es[1..]) + more);
      t.Some? ==> d.Some? && d.value.1 == t.value.1
  {
    hide DecodeString, DecodeTexts, EncodeString, EncodeTexts;
    var k, vs := es[0].key, es[0].values;
    StringReads(Chars(k));
    TextsRead(vs);
    var tail := EncodeEntries(es[1..]) + more;
    assert EncodeEntries(es) + more == EncodeString(Chars(k)) + (EncodeTexts(vs) + tail);
  }

  lemma LongKeyBytes(es: seq<Entry>)
    requires es != [] && Sparse(es[0]) && |es[0].key| > MAX_LEN
    ensures EncodeEntries(es) == EncodeString(Null) + EncodeEntries(es[1..])
  {
    hide EncodeString;
    LongText(es[0].key);
    assert es[0].values == [];
    assert [] + EncodeString(Null) == EncodeString(Null);
  }

  lemma LongText(t: Text)
    requires |t| > MAX_LEN
    ensures EncodeString(Chars(t)) == []
  {
  }

  /** An integer ends at the first byte without its high bit, so not after a zero. */
  lemma ZeroEnds(u: seq<byte>, v: seq<byte>, body: seq<byte>)
    requires u != [] && u[|u| - 1] == 0 && v != []
    ensures DecodeInt64(u + (v + body)).Some? ==> |DecodeInt64(u + (v + body)).value.1| > |body|
  {
    var s := u + (v + body);
    assert s[|u| - 1] == 0;
    if DecodeUint64(s).Some? { DecodedMeaning(s, DecodeUint64(s).value.0, DecodeUint64(s).value.1); }
  }

  function HostBytes(host: Text): seq<byte> { EncodeString(if host == [] then Null else Chars(host)) }

  /** What is left after the string at the front of a list ends in a zero, before whatever follows the list. */
  lemma ListFront(es: seq<Entry>, more: seq<byte>) returns (t: Str, u: seq<byte>)
    requires SparseEntries(es) && es != []
    ensures DecodeString(EncodeEntries(es) + more) == Some((t, u + more)) && u != [] && u[|u| - 1] == 0
  {
    hide DecodeString, EncodeString, EncodeTexts;
    var tail := EncodeEntries(es[1..]);
    EntriesEnd(es[1..]);
    assert Sparse(es[0]);
    if |es[0].key| > MAX_LEN {
      t, u := Null, tail;
      LongKeyBytes(es);
    } else {
      t, u := Chars(es[0].key), EncodeTexts(es[0].values) + tail;
    }
    StringReads(t);
    assert EncodeEntries(es) + more == EncodeString(t) + (u + more);
  }

  /** Taking the front of a list for the host, the reader does not come out right. */
  lemma HostMisread(es: seq<Entry>, y: seq<byte>, host: Text, num: seq<byte>, body: seq<byte>)
    requires SparseEntries(es) && num != []
    ensures var d := DecodeString(EncodeEntries(es) + (y + (HostBytes(host) + (num + body))));
      d.Some? && TextOf(d.value.0) == host && DecodeInt64(d.value.1).Some? ==>
        |DecodeInt64(d.value.1).value.1| > |body|
  {
    hide DecodeString, EncodeString, EncodeTexts, DecodeInt64, SparseEntries;
    var h := HostBytes(host);
    var more := y + (h + (num + body));
    if es == [] {
      StringReads(Null);
      if host == [] {
        NullBytes();
        assert more == (y + h) + (num + body);
        ZeroEnds(y + h, num, body);
      }
    } else {
      hide EncodeEntries, HostBytes;
      var t, u := ListFront(es, more);
      assert more == (y + (h + num)) + body;
      ZeroEnds(u, y + (h + num), body);
    }
  }

  lemma NullBytes()
    ensures EncodeString(Null) == [0, 0]
  {
  }

  /** If some key is too long to be written, the fields of a request do not come out right. */
  lemma FieldsMisread(q: seq<Entry>, h: seq<Entry>, host: Text, num: seq<byte>, body: seq<byte>)
    requires SparseEntries(q) && SparseEntries(h) && num != [] && !(EncodableEntries(q) && EncodableEntries(h))
    ensures var d := DecodeFields(EncodeEntries(q) + (EncodeEntries(h) + (HostBytes(host) + (num + body))));
      d.Some? ==> d.value.0.host != host || d.value.1 != body
  {
    hide DecodeString, DecodeEntries, EncodeEntries, DecodeInt64, EncodableEntries, HostBytes;
    var t := HostBytes(host) + (num + body);
    var more := EncodeEntries(h) + t;
    var q' := FirstList(q, more);
    if EncodableEntries(q) {
      var h' := FirstList(h, t);
      HostMisread(h', [], host, num, body);
      assert [] + t == t;
    } else {
      var q'' := FirstList(q', more);
      if EncodableEntries(q') {
        HostMisread(h, [], host, num, body);
        assert [] + t == t;
      } else {
        HostMisread(q'', EncodeEntries(h), host, num, body);
      }
    }
  }

  // ----- requests

  /** Facts about Go's libraries the converse needs: canonical keys keep their length, integers are short. */
  ghost predicate Ordinary(lib: Library) {
    (forall t :: |lib.canonical(t)| == |t|) && (forall n :: |lib.formatInt(n)| <= MAX_LEN)
  }

  /** The header fields that are read from the record: a known length replaces the Content-Length field. */
  function Carried(lib: Library, r: Request): Values
    requires Writable(lib, r)
  {
    if NormalLength(lib, r) >= 0 then r.header - {CONTENT_LENGTH} else r.header
  }

  ghost predicate Survives(lib: Library, r: Request) {
    && Writable(lib, r)
    && |r.verb| <= MAX_LEN && |r.scheme| <= MAX_LEN && |NormalPath(lib, r.path)| <= MAX_LEN
    && |NormalHost(r)| <= MAX_LEN && EncodableValues(r.query) && EncodableValues(Carried(lib, r))
  }

  /** The bytes a decoded request was read from hold only short strings. */
  lemma DecodedShort(lib: Library, s: seq<byte>) returns (q: seq<Entry>, h: seq<Entry>)
    requires DecodeRequest(lib, s).Good?
    ensures var d := DecodeRequest(lib, s).value;
      && |d.verb| <= MAX_LEN && |d.scheme| <= MAX_LEN && |d.uri| <= MAX_LEN && |d.host| <= MAX_LEN
      && EncodableEntries(q) && EncodableEntries(h)
      && d.query == AddEntries(Identity, map[], q)
      && d.header == WithLength(lib, AddEntries(lib.canonical, map[], h), d.contentLength)
      && lib.parseUrl(d.uri) == Some(d.url)
  {
    hide DecodeString, DecodeEntries, DecodeInt64, DecodeLen, AddEntries;
    StringShort(s);
    var s1 := DecodeString(s).value.1;
    StringShort(s1);
    var s2 := DecodeString(s1).value.1;
    StringShort(DecodeLen(s2).value.1);
    var s3 := DecodeTarget(s).value.1;
    EntriesShort(s3);
    var s4 := DecodeEntries(s3).value.1;
    EntriesShort(s4);
    StringShort(DecodeEntries(s4).value.1);
    q, h := DecodeEntries(s3).value.0, DecodeEntries(s4).value.0;
  }

  lemma QueryShort(lib: Library, r: Request, url: Text, q: seq<Entry>)
    requires Writable(lib, r) && EncodableEntries(q)
    requires Received(lib, r, url).query == AddEntries(Identity, map[], q)
    ensures SparseValues(r.query)
  {
    hide AddEntries, NormalPath, NormalHost, NormalLength, Sparse, WithLength;
    MergedShort(Identity, map[], r.query, q, Merge(map[], r.query), {});
    assert r.query - {} == r.query;
  }

  lemma HeaderShort(lib: Library, r: Request, url: Text, h: seq<Entry>)
    requires Writable(lib, r) && Ordinary(lib) && EncodableEntries(h)
    requires var d := Received(lib, r, url);
      d.header == WithLength(lib, AddEntries(lib.canonical, map[], h), d.contentLength)
    ensures SparseValues(Carried(lib, r))
  {
    hide AddEntries, NormalPath, NormalHost, NormalLength, Sparse;
    var d := Received(lib, r, url);
    var skip := if d.contentLength >= 0 then {CONTENT_LENGTH} else {};
    MergedShort(lib.canonical, map[], r.header, h, d.header, skip);
    assert r.header - {} == r.header;
  }

  /** What a recovered request tells at once; of its keys without values, nothing yet. */
  ghost predicate AlmostSurvives(lib: Library, r: Request) {
    && Writable(lib, r)
    && |r.verb| <= MAX_LEN && |r.scheme| <= MAX_LEN && |NormalPath(lib, r.path)| <= MAX_LEN
    && |NormalHost(r)| <= MAX_LEN && SparseValues(r.query) && SparseValues(Carried(lib, r))
  }

  lemma ReceivedShort(lib: Library, r: Request, url: Text, s: seq<byte>, body: seq<byte>)
    requires Writable(lib, r) && Ordinary(lib)
    requires DecodeRequest(lib, s) == Good(Received(lib, r, url), body)
    ensures AlmostSurvives(lib, r) && lib.parseUrl(NormalPath(lib, r.path)) == Some(url)
  {
    hide DecodeRequest, AddEntries, NormalPath, NormalHost, NormalLength, SparseValues, WithLength;
    var q, h := DecodedShort(lib, s);
    QueryShort(lib, r, url, q);
    HeaderShort(lib, r, url, h);
  }

  // ----- values that are written as nothing

  /** The values that are written at all. */
  function Short(vs: seq<Text>): (r: seq<Text>)
    ensures EncodableTexts(r)
  {
    if vs == [] then [] else (if |vs[0]| <= MAX_LEN then [vs[0]] else []) + Short(vs[1..])
  }

  lemma {:induction false} LongValuesVanish(vs: seq<Text>)
    ensures EncodeTexts(Short(vs)) == EncodeTexts(vs)
  {
    if vs != [] {
      var rest := Short(vs[1..]);
      LongValuesVanish(vs[1..]);
      if |vs[0]| <= MAX_LEN {
        assert ([vs[0]] + rest)[1..] == rest;
      } else {
        assert [] + rest == rest && [] + EncodeTexts(vs[1..]) == EncodeTexts(vs[1..]);
      }
    }
  }

  /** A map with one key's long values left out. */
  function Trimmed(m: Values, k: Text): Values {
    if k in m then m[k := Short(m[k])] else m
  }

  lemma {:induction false} TrimmedBytes(order: seq<Text>, m: Values, k: Text)
    ensures EncodeEntries(EntriesOf(order, Trimmed(m, k))) == EncodeEntries(EntriesOf(order, m))
  {
    if order != [] {
      hide EncodeString, Short;
      TrimmedBytes(order[1..], m, k);
      if order[0] in m { LongValuesVanish(m[order[0]]); }
      assert EntriesOf(order, m)[1..] == EntriesOf(order[1..], m);
      assert EntriesOf(order, Trimmed(m, k))[1..] == EntriesOf(order[1..], Trimmed(m, k));
    }
  }

  /** The request with its length settled and its Content-Length field trimmed: the same bytes, the same meaning. */
  function Tidy(lib: Library, r: Request): Request
    requires Writable(lib, r)
  {
    if NormalLength(lib, r) < 0 then r
    else r.(header := Trimmed(r.header, CONTENT_LENGTH), contentLength := NormalLength(lib, r))
  }

  lemma TidyWritable(lib: Library, r: Request)
    requires Writable(lib, r)
    ensures Writable(lib, Tidy(lib, r))
    ensures NormalLength(lib, Tidy(lib, r)) == NormalLength(lib, r) && NormalHost(Tidy(lib, r)) == NormalHost(r)
    ensures forall h :: Enumerates(h, r.header) ==> Enumerates(h, Tidy(lib, r).header)
  {
    assert CONTENT_LENGTH[1] != HOST[1] || |HOST| != |CONTENT_LENGTH|;
  }

  lemma TidySame(lib: Library, r: Request, q: seq<Text>, h: seq<Text>, url: Text)
    requires Writable(lib, r)
    ensures Writable(lib, Tidy(lib, r))
    ensures RequestBytes(lib, Tidy(lib, r), q, h) == RequestBytes(lib, r, q, h)
    ensures Received(lib, Tidy(lib, r), url) == Received(lib, r, url)
  {
    hide NormalPath, NormalHost, NormalLength, EncodeString, EncodeInt64, EncodeEntries;
    TidyWritable(lib, r);
    TrimmedBytes(h, r.header, CONTENT_LENGTH);
    var n := NormalLength(lib, r);
    if n >= 0 { TrimmedMerge(lib, r.header, n); }
  }

  lemma TrimmedMerge(lib: Library, m: Values, n: int)
    requires n >= 0
    ensures WithLength(lib, Merge(map[], Trimmed(m, CONTENT_LENGTH)), n) == WithLength(lib, Merge(map[], m), n)
  {
    var t := Trimmed(m, CONTENT_LENGTH);
    assert forall k :: k != CONTENT_LENGTH ==> Get(t, k) == Get(m, k) && (k in t <==> k in m);
    var a, b := Merge(map[], t), Merge(map[], m);
    assert forall k :: k != CONTENT_LENGTH ==> (k in a <==> k in b) && (k in a ==> a[k] == b[k]);
  }

  lemma TidyEncodable(lib: Library, r: Request)
    requires Writable(lib, r)
    ensures Survives(lib, r) <==> EncodableRequest(lib, Tidy(lib, r))
    ensures AlmostSurvives(lib, r) ==> SparseValues(Tidy(lib, r).header)
  {
    hide NormalPath, NormalHost, NormalLength;
    TidyWritable(lib, r);
    var m, c := Tidy(lib, r).header, Carried(lib, r);
    assert forall k :: k in c ==> k in m && m[k] == c[k];
    assert forall k :: k in m ==> k in c || (k == CONTENT_LENGTH && EncodableTexts(m[k]));
  }

  /** A map written in some order, as entries. */
  lemma AsEntries(order: seq<Text>, m: Values)
    requires Enumerates(order, m)
    ensures SparseValues(m) ==> SparseEntries(EntriesOf(order, m))
    ensures EncodableEntries(EntriesOf(order, m)) ==> EncodableValues(m)
  {
    EntriesOfAt(order, m);
    var es := EntriesOf(order, m);
    assert forall i :: 0 <= i < |order| ==> order[i] in m && es[i] == Entry(order[i], m[order[i]]);
    if EncodableEntries(es) {
      forall k | k in m ensures |k| <= MAX_LEN && EncodableTexts(m[k]) {
        assert k in order;
        var i :| 0 <= i < |order| && order[i] == k;
        assert es[i].key == k;
      }
    }
  }

  lemma TargetRead(lib: Library, r: Request, more: seq<byte>)
    requires AlmostSurvives(lib, r)
    ensures DecodeTarget(EncodeString(Chars(r.verb)) + (EncodeString(Chars(r.scheme))
              + ([0] + (EncodeString(Chars(NormalPath(lib, r.path))) + more))))
      == Some((Target(r.verb, r.scheme, NormalPath(lib, r.path)), more))
  {
    hide DecodeTarget, EncodeString, NormalPath, ReadsString;
    StringReads(Chars(r.verb));
    StringReads(Chars(r.scheme));
    StringReads(Chars(NormalPath(lib, r.path)));
    TargetCompose(EncodeString(Chars(r.verb)), Chars(r.verb), EncodeString(Chars(r.scheme)), Chars(r.scheme),
                  EncodeString(Chars(NormalPath(lib, r.path))), Chars(NormalPath(lib, r.path)), more);
  }

  /** A request whose long keys have no values is not recovered either. */
  lemma LongKeysMisread(lib: Library, r: Request, q: seq<Text>, h: seq<Text>, body: seq<byte>)
    requires AlmostSurvives(lib, r) && Enumerates(q, r.query) && Enumerates(h, r.header)
    requires SparseValues(r.header) && !(EncodableValues(r.query) && EncodableValues(r.header))
    ensures var d := DecodeRequest(lib, RequestBytes(lib, r, q, h) + body);
      d.Good? ==> d.value.host != NormalHost(r) || d.rest != body
  {
    hide DecodeTarget, DecodeFields, RequestBytes, EncodeString, EncodeEntries, EncodeInt64, AddEntries, HostBytes,
      NormalPath, NormalHost, NormalLength, EntriesOf, Enumerates, SparseEntries, EncodableEntries;
    LengthFits(lib, r);
    var host, num := NormalHost(r), EncodeInt64(NormalLength(lib, r));
    AsEntries(q, r.query);
    AsEntries(h, r.header);
    Int64Short(NormalLength(lib, r));
    FieldsMisread(EntriesOf(q, r.query), EntriesOf(h, r.header), host, num, body);
    var more := EncodeEntries(EntriesOf(q, r.query))
      + (EncodeEntries(EntriesOf(h, r.header)) + (HostBytes(host) + (num + body)));
    TargetRead(lib, r, more);
    RequestBytesSplit(lib, r, q, h, body, more);
  }

  lemma LengthFits(lib: Library, r: Request)
    requires Writable(lib, r)
    ensures IsInt64(NormalLength(lib, r))
  {
  }

  lemma RequestBytesSplit(lib: Library, r: Request, q: seq<Text>, h: seq<Text>, body: seq<byte>, more: seq<byte>)
    requires Writable(lib, r) && IsInt64(NormalLength(lib, r))
    requires more == EncodeEntries(EntriesOf(q, r.query)) + (EncodeEntries(EntriesOf(h, r.header))
      + (HostBytes(NormalHost(r)) + (EncodeInt64(NormalLength(lib, r)) + body)))
    ensures RequestBytes(lib, r, q, h) + body
      == EncodeString(Chars(r.verb)) + (EncodeString(Chars(r.scheme))
         + ([0] + (EncodeString(Chars(NormalPath(lib, r.path))) + more)))
  {
    hide EncodeString, EncodeEntries, EncodeInt64, EntriesOf, NormalPath, NormalHost, NormalLength;
  }

  /** The bytes of a request record, followed by anything, are read back if and only if the request survives. */
  lemma RequestBytesIff(lib: Library, r: Request, q: seq<Text>, h: seq<Text>, body: seq<byte>)
    requires Writable(lib, r) && Ordinary(lib) && Enumerates(q, r.query) && Enumerates(h, r.header)
    requires forall k :: k in r.header ==> lib.canonical(k) == k
    ensures (exists url :: DecodeRequest(lib, RequestBytes(lib, r, q, h) + body) == Good(Received(lib, r, url), body))
      <==> Survives(lib, r) && lib.parseUrl(NormalPath(lib, r.path)).Some?
  {
    hide DecodeRequest, RequestBytes, Received, NormalPath, Enumerates, EncodableRequest, Survives, AlmostSurvives;
    var s := RequestBytes(lib, r, q, h) + body;
    if url :| DecodeRequest(lib, s) == Good(Received(lib, r, url), body) {
      Recovered(lib, r, q, h, url, body);
    }
    if Survives(lib, r) && lib.parseUrl(NormalPath(lib, r.path)).Some? {
      var url := lib.parseUrl(NormalPath(lib, r.path)).value;
      TidySame(lib, r, q, h, url);
      TidyWritable(lib, r);
      TidyEncodable(lib, r);
      RequestRoundTrip(lib, Tidy(lib, r), q, h, body);
      assert DecodeRequest(lib, s) == Good(Received(lib, r, url), body);
    }
  }

  lemma Recovered(lib: Library, r: Request, q: seq<Text>, h: seq<Text>, url: Text, body: seq<byte>)
    requires Writable(lib, r) && Ordinary(lib) && Enumerates(q, r.query) && Enumerates(h, r.header)
    requires DecodeRequest(lib, RequestBytes(lib, r, q, h) + body) == Good(Received(lib, r, url), body)
    ensures Survives(lib, r) && lib.parseUrl(NormalPath(lib, r.path)) == Some(url)
  {
    hide DecodeRequest, RequestBytes, Enumerates, EncodableValues, SparseValues,
      NormalPath, NormalHost, NormalLength, WithLength;
    ReceivedShort(lib, r, url, RequestBytes(lib, r, q, h) + body, body);
    TidySame(lib, r, q, h, url);
    TidyWritable(lib, r);
    TidyEncodable(lib, r);
    var t := Tidy(lib, r);
    if !(EncodableValues(t.query) && EncodableValues(t.header)) {
      TidyAlmost(lib, r);
      LongKeysMisread(lib, t, q, h, body);
    }
  }

  lemma TidyAlmost(lib: Library, r: Request)
    requires AlmostSurvives(lib, r)
    ensures AlmostSurvives(lib, Tidy(lib, r))
  {
    hide NormalPath, NormalHost, NormalLength;
    TidyWritable(lib, r);
    TidyEncodable(lib, r);
  }

  // ----- the size of a record

  /** What one key and its values take. */
  function KeySize(m: Values, k: Text): nat { |EncodeString(Chars(k))| + |EncodeTexts(Get(m, k))| }

  function KeysSize(m: Values, order: seq<Text>): nat {
    if order == [] then 0 else KeySize(m, order[0]) + KeysSize(m, order[1..])
  }

  lemma {:induction false} MapSize(m: Values, order: seq<Text>)
    ensures |EncodeEntries(EntriesOf(order, m))| == 2 + KeysSize(m, order)
  {
    hide EncodeString, EncodeTexts, Get;
    if order == [] {
      NullBytes();
    } else {
      MapSize(m, order[1..]);
      assert EntriesOf(order, m)[1..] == EntriesOf(order[1..], m);
    }
  }

  lemma {:induction false} SizeWithout(m: Values, order: seq<Text>, i: nat)
    requires i < |order|
    ensures KeysSize(m, order) == KeySize(m, order[i]) + KeysSize(m, order[..i] + order[i + 1..])
    decreases |order|
  {
    hide KeySize;
    if i == 0 {
      assert order[..0] + order[1..] == order[1..];
    } else {
      var rest := order[..i] + order[i + 1..];
      SizeWithout(m, order[1..], i - 1);
      assert rest[0] == order[0] && rest[1..] == order[1..][..i - 1] + order[1..][i..];
    }
  }

  predicate Distinct(q: seq<Text>) { forall i, j :: 0 <= i < j < |q| ==> q[i] != q[j] }

  lemma {:induction false} Listed(q: seq<Text>)
    requires q != []
    ensures exists k :: k in q
  {
    assert q[0] in q;
  }

  /** Two orders of the same keys take the same room. */
  lemma {:induction false} SameKeysSameSize(m: Values, p: seq<Text>, q: seq<Text>)
    requires Distinct(p) && Distinct(q) && forall k :: k in p <==> k in q
    ensures KeysSize(m, p) == KeysSize(m, q)
    decreases |p|
  {
    hide KeySize;
    if p == [] {
      if q != [] { Listed(q); }
    } else {
      assert p[0] in q;
      var i :| 0 <= i < |q| && q[i] == p[0];
      var rest := q[..i] + q[i + 1..];
      SizeWithout(m, q, i);
      RestDistinct(p, q, i);
      SameKeysSameSize(m, p[1..], rest);
    }
  }

  lemma {:induction false} RestDistinct(p: seq<Text>, q: seq<Text>, i: nat)
    requires Distinct(p) && Distinct(q) && p != [] && i < |q| && q[i] == p[0] && forall k :: k in p <==> k in q
    ensures var rest := q[..i] + q[i + 1..];
      Distinct(p[1..]) && Distinct(rest) && forall k :: k in p[1..] <==> k in rest
  {
    var rest := q[..i] + q[i + 1..];
    assert forall j :: 0 <= j < |rest| ==> rest[j] == q[if j < i then j else j + 1];
    assert p[0] !in rest && p[0] !in p[1..];
    assert forall k :: k in p <==> k == p[0] || k in p[1..];
    forall k ensures k in q <==> k == q[i] || k in rest {
      if k in q && k != q[i] {
        var j :| 0 <= j < |q| && q[j] == k;
        assert rest[if j < i then j else j - 1] == k;
      }
    }
  }

  lemma {:induction false} MapSizeAnyOrder(m: Values, p: seq<Text>, q: seq<Text>)
    requires Enumerates(p, m) && Enumerates(q, m)
    ensures |EncodeEntries(EntriesOf(p, m))| == |EncodeEntries(EntriesOf(q, m))|
  {
    hide KeysSize;
    MapSize(m, p);
    MapSize(m, q);
    SameKeysSameSize(m, p, q);
  }

  /** Whether a request fits in a frame does not depend on the order in which its maps are met. */
  lemma {:induction false} RequestSizeAnyOrder(lib: Library, r: Request, q: seq<Text>, h: seq<Text>,
                                               q': seq<Text>, h': seq<Text>)
    requires Writable(lib, r) && Enumerates(q, r.query) && Enumerates(q', r.query)
    requires Enumerates(h, r.header) && Enumerates(h', r.header)
    ensures |RequestBytes(lib, r, q, h)| == |RequestBytes(lib, r, q', h')|
    ensures forall before ::
      RequestPayload(lib, r, q, h, before).Some? == RequestPayload(lib, r, q', h', before).Some?
  {
    hide EncodeString, EncodeEntries, EncodeInt64, EntriesOf, NormalPath, NormalHost, NormalLength, Enumerates;
    MapSizeAnyOrder(r.query, q, q');
    MapSizeAnyOrder(r.header, h, h');
  }

  lemma {:induction false} ResponseSizeAnyOrder(code: int, n: int, header: Values, h: seq<Text>, h': seq<Text>)
    requires IsInt64(n) && Enumerates(h, header) && Enumerates(h', header)
    ensures |ResponseBytes(code, n, header, h)| == |ResponseBytes(code, n, header, h')|
    ensures forall before ::
      ResponsePayload(code, n, header, h, before).Some? == ResponsePayload(code, n, header, h', before).Some?
  {
    hide EncodeLen, EncodeEntries, EncodeInt64, EntriesOf, Enumerates;
    MapSizeAnyOrder(header, h, h');
  }

  // ----- requests through a frame

  /**
    A request written to a frame that holds `before` is sent, and the reader, having taken
    `before`, takes the record for a request, gets the request and is left with the body.
   */
  ghost predicate RequestArrives(lib: Library, r: Request, q: seq<Text>, h: seq<Text>, before: seq<byte>,
                                 body: seq<byte>, d: Decoded)
    requires Writable(lib, r)
  {
    var p := RequestPayload(lib, r, q, h, before);
    && p.Some?
    && var s := (p.value + body)[|before|..];
    ServeRecord(lib, true, s) == RequestIn(Good(d, body)) && RequestMeans(lib, r, d)
  }

  /**
    A request is recovered if and only if it fits in the frame, its method, scheme, path, host
    and query, and the header fields that are read from the record, are all shorter than
    0x8000 bytes, and the path is one the URL parser accepts.
   */
  lemma {:induction false} RequestSurvivesIff(lib: Library, r: Request, q: seq<Text>, h: seq<Text>, before: seq<byte>,
                                              body: seq<byte>)
    requires Writable(lib, r) && Ordinary(lib) && Enumerates(q, r.query) && Enumerates(h, r.header)
    requires forall k :: k in r.header ==> lib.canonical(k) == k
    ensures (exists d :: RequestArrives(lib, r, q, h, before, body, d))
      <==> |before| + 1 + |RequestBytes(lib, r, q, h)| <= FRAME_MAX_PAYLOAD
           && Survives(lib, r) && lib.parseUrl(NormalPath(lib, r.path)).Some?
  {
    hide DecodeRequest, RequestBytes, Received, RequestMeans, NormalPath, Enumerates, Survives;
    var record := RequestBytes(lib, r, q, h);
    RequestBytesIff(lib, r, q, h, body);
    var s := ((before + [REQUEST_RECORD] + record) + body)[|before|..];
    assert s == [REQUEST_RECORD] + (record + body) && s[1..] == record + body;
    if d :| RequestArrives(lib, r, q, h, before, body, d) {
      ReceivedMeans(lib, r, d);
    }
    if url :| DecodeRequest(lib, record + body) == Good(Received(lib, r, url), body) {
      Recovered(lib, r, q, h, url, body);
      ReceivedUrl(lib, r, url);
      ReceivedMeans(lib, r, Received(lib, r, url));
      if |before| + 1 + |record| <= FRAME_MAX_PAYLOAD {
        assert RequestArrives(lib, r, q, h, before, body, Received(lib, r, url));
      }
    }
  }

  lemma {:induction false} ReceivedUrl(lib: Library, r: Request, url: Text)
    requires Writable(lib, r)
    ensures Received(lib, r, url).url == url
  {
  }

  /** Three values that are each short enough make a record that is too big for any frame. */
  lemma {:induction false} ThreeLongValues(lib: Library, v: Text, before: seq<byte>)
    requires |v| == MAX_LEN && lib.clean([SLASH]) == [SLASH]
    requires forall t :: lib.parseInt(t).Some? ==> IsInt64(lib.parseInt(t).value)
    ensures var r := Request([], [], [SLASH], map[], map[[88] := [v, v, v]], [], 0);
      Survives(lib, r) && RequestPayload(lib, r, [], [[88]], before) == None
  {
    var m: Values := map[[88] := [v, v, v]];
    var r := Request([], [], [SLASH], map[], m, [], 0);
    assert Slashes([SLASH]) == [SLASH];
    assert HOST != [88] && CONTENT_LENGTH != [88] by { assert |HOST| == 4 && |CONTENT_LENGTH| == 14; }
    assert m - {CONTENT_LENGTH} == m && EncodableTexts([v, v, v]);
    ThreeLongBytes(v);
    assert EntriesOf([[88]], m) == [Entry([88], [v, v, v])] by { assert [[88]][1..] == []; }
    assert |EncodeEntries([Entry([88], [v, v, v])])| >= |EncodeTexts([v, v, v])|;
  }

  lemma {:induction false} ThreeLongBytes(v: Text)
    requires |v| == MAX_LEN
    ensures |EncodeTexts([v, v, v])| > FRAME_MAX_PAYLOAD
  {
    assert |EncodeString(Chars(v))| == MAX_LEN + 2;
    assert [v, v, v][1..] == [v, v] && [v, v][1..] == [v] && [v][1..] == [];
    assert |EncodeTexts([v])| >= MAX_LEN;
    assert |EncodeTexts([v, v])| >= 2 * MAX_LEN;
  }

  /** A Content-Length field that is too long does no harm when the length is known. */
  lemma LongLengthHarmless(lib: Library, long: Text)
    requires |long| > MAX_LEN && lib.clean([SLASH]) == [SLASH]
    requires forall t :: lib.parseInt(t).Some? ==> IsInt64(lib.parseInt(t).value)
    ensures var r := Request([], [], [SLASH], map[], map[CONTENT_LENGTH := [long]], [], 5);
      Survives(lib, r) && !EncodableRequest(lib, r)
  {
    var r := Request([], [], [SLASH], map[], map[CONTENT_LENGTH := [long]], [], 5);
    assert Slashes([SLASH]) == [SLASH];
    assert HOST[0] != CONTENT_LENGTH[0];
    assert r.header - {CONTENT_LENGTH} == map[];
    assert r.header[CONTENT_LENGTH][0] == long;
    assert !EncodableTexts(r.header[CONTENT_LENGTH]);
  }

  /** A method that is too long is not written, and the reader panics on what follows it. */
  lemma LongMethodPanics(lib: Library)
    requires lib.clean([SLASH]) == [SLASH] && forall t :: lib.parseInt(t).Some? ==> IsInt64(lib.parseInt(t).value)
    ensures var r := Request(seq(0x8000, _ => 71), [], [SLASH], map[], map[], [], -1);
      Writable(lib, r) && DecodeRequest(lib, RequestBytes(lib, r, [], [])) == Panic
  {
    var r := Request(seq(0x8000, _ => 71), [], [SLASH], map[], map[], [], -1);
    assert Slashes([SLASH]) == [SLASH];
    var s := RequestBytes(lib, r, [], []);
    assert |EncodeString(Chars(r.verb))| == 0;
    assert s[..6] == [0, 1, 0, 1, 47, 0];
    assert s[2..][0] == 0 && s[2..][1] == 1;
    MarkerRoundTrip(1, s[2..]);
    assert [0, 1] + s[2..] == s;
    MarkerRoundTrip(1, s[4..]);
    assert [0, 1] + s[4..] == s[2..];
    assert s[4..][0] == 47;
  }

  // ----- responses

  /** Reading s gives the response with this status and header, and leaves the body. */
  ghost predicate ResponseRead(lib: Library, h0: Values, code: int, n: int, header: Values,
                               s: seq<byte>, body: seq<byte>) {
    var d, merged := DecodeResponse(lib, h0, s), Merge(h0, header);
    && d.Some? && d.value.1 == body && d.value.0.status == code
    && if CONTENT_LENGTH in header then d.value.0.header == merged else HeaderMeans(lib, merged, n, d.value.0.header)
  }

  lemma DecodedResponseShort(lib: Library, h0: Values, s: seq<byte>) returns (es: seq<Entry>, n: int)
    requires DecodeResponse(lib, h0, s).Some?
    ensures var d, added := DecodeResponse(lib, h0, s).value.0, AddEntries(lib.canonical, h0, es);
      && d.status <= MAX_LEN && EncodableEntries(es)
      && (d.header == added || d.header == WithLength(lib, added, n))
  {
    hide DecodeEntries, DecodeInt64, AddEntries, HasKey;
    var s1 := DecodeLen(s).value.1;
    EntriesShort(s1);
    es, n := DecodeEntries(s1).value.0, DecodeInt64(DecodeEntries(s1).value.1).value.0;
  }

  /** What merging a map gives, for each of its keys. */
  lemma MergeGets(h0: Values, header: Values)
    ensures forall k :: k in header ==> Get(Merge(h0, header), k) == Get(h0, k) + header[k]
  {
  }

  lemma HeaderReadShort(lib: Library, h0: Values, header: Values, got: Values, es: seq<Entry>, n: int)
    requires Ordinary(lib) && EncodableEntries(es)
    requires var added := AddEntries(lib.canonical, h0, es); got == added || got == WithLength(lib, added, n)
    requires forall k :: k in header ==> Get(got, k) == Get(h0, k) + header[k]
    ensures SparseValues(header)
  {
    hide AddEntries, EncodableTexts;
    var added := AddEntries(lib.canonical, h0, es);
    if CONTENT_LENGTH in header && Get(got, CONTENT_LENGTH) != Get(added, CONTENT_LENGTH) {
      LengthReplaced(lib, h0, header, got, n);
      MergedShort(lib.canonical, h0, header, es, got, {CONTENT_LENGTH});
      assert forall k :: k in header && k != CONTENT_LENGTH ==> k in header - {CONTENT_LENGTH};
    } else {
      MergedShort(lib.canonical, h0, header, es, got, {});
      assert header - {} == header;
    }
  }

  lemma ResponseReadShort(lib: Library, h0: Values, code: int, n: int, header: Values, s: seq<byte>, body: seq<byte>)
    requires Ordinary(lib) && ResponseRead(lib, h0, code, n, header, s, body)
    ensures 0 <= code <= MAX_LEN && SparseValues(header)
  {
    hide DecodeResponse, AddEntries, SparseValues, Merge;
    var es, n' := DecodedResponseShort(lib, h0, s);
    MergeGets(h0, header);
    HeaderReadShort(lib, h0, header, DecodeResponse(lib, h0, s).value.0.header, es, n');
  }

  /** A response whose long keys have no values is not recovered either. */
  lemma LongKeysMisreadResponse(lib: Library, h0: Values, code: int, n: int, header: Values, h: seq<Text>,
                                body: seq<byte>)
    requires 0 <= code <= MAX_LEN && IsInt64(n) && Enumerates(h, header)
    requires SparseValues(header) && !EncodableValues(header)
    ensures var d := DecodeResponse(lib, h0, ResponseBytes(code, n, header, h) + body); d.Some? ==> d.value.1 != body
  {
    hide EncodeLen, EncodeEntries, EncodeInt64, DecodeResponse, EntriesOf, Enumerates, SparseEntries, EncodableEntries;
    var es, num := EntriesOf(h, header), EncodeInt64(n);
    AsEntries(h, header);
    Int64Short(n);
    LenRoundTrip(code, []);
    LongKeyMisread(lib, h0, code, es, num, body);
    assert ResponseBytes(code, n, header, h) + body == EncodeLen(code).value + (EncodeEntries(es) + (num + body));
  }

  lemma LongKeyMisread(lib: Library, h0: Values, code: nat, es: seq<Entry>, num: seq<byte>, body: seq<byte>)
    requires EncodeLen(code).Some? && SparseEntries(es) && !EncodableEntries(es) && num != []
    ensures var d := DecodeResponse(lib, h0, EncodeLen(code).value + (EncodeEntries(es) + (num + body)));
      d.Some? ==> d.value.1 != body
  {
    hide DecodeLen, EncodeLen, DecodeEntries, EncodeEntries, DecodeInt64, AddEntries, HasKey,
      SparseEntries, EncodableEntries;
    var more := num + body;
    LenRoundTrip(code, EncodeEntries(es) + more);
    var rest := FirstList(es, more);
    EntriesEnd(rest);
    ZeroEnds(EncodeEntries(rest), num, body);
  }

  /** A Content-Length the reader sets itself is short. */
  lemma LengthReplaced(lib: Library, h0: Values, header: Values, got: Values, n: int)
    requires Ordinary(lib) && CONTENT_LENGTH in header
    requires Get(got, CONTENT_LENGTH) == Get(h0, CONTENT_LENGTH) + header[CONTENT_LENGTH]
    requires Get(got, CONTENT_LENGTH) == [lib.formatInt(n)] || Get(got, CONTENT_LENGTH) == [[48]]
    ensures EncodableTexts(header[CONTENT_LENGTH])
  {
    var vs := header[CONTENT_LENGTH];
    forall i | 0 <= i < |vs| ensures |vs[i]| <= MAX_LEN {
      assert vs[i] == Get(got, CONTENT_LENGTH)[|Get(h0, CONTENT_LENGTH)| + i];
    }
  }

  lemma ResponseBytesIff(lib: Library, h0: Values, code: int, n: int, header: Values, h: seq<Text>, body: seq<byte>)
    requires IsInt64(n) && Ordinary(lib) && Enumerates(h, header)
    requires forall k :: k in header ==> lib.canonical(k) == k
    ensures ResponseRead(lib, h0, code, n, header, ResponseBytes(code, n, header, h) + body, body)
      <==> 0 <= code <= MAX_LEN && EncodableValues(header)
  {
    hide DecodeResponse, ResponseBytes, Enumerates, EncodableValues, SparseValues;
    var s := ResponseBytes(code, n, header, h) + body;
    if ResponseRead(lib, h0, code, n, header, s, body) {
      ResponseReadShort(lib, h0, code, n, header, s, body);
      if !EncodableValues(header) { LongKeysMisreadResponse(lib, h0, code, n, header, h, body); }
    }
    if 0 <= code <= MAX_LEN && EncodableValues(header) {
      ResponseRoundTrip(lib, h0, code, n, header, h, body);
    }
  }

  /** A response written to a frame that holds `before` is sent, and read back, leaving the body. */
  ghost predicate ResponseArrives(lib: Library, h0: Values, code: int, n: int, header: Values, h: seq<Text>,
                                  before: seq<byte>, body: seq<byte>)
    requires IsInt64(n)
  {
    var p := ResponsePayload(code, n, header, h, before);
    && p.Some?
    && var s := (p.value + body)[|before|..];
    && AnswerRecord(lib, h0, true, s).ResponseIn? && |s| > 0
    && ResponseRead(lib, h0, code, n, header, s[1..], body)
  }

  /**
    A response is recovered if and only if it fits in the frame, its status is in 0..0x7fff and
    its header keys and values are all shorter than 0x8000 bytes.
   */
  lemma {:induction false} ResponseSurvivesIff(lib: Library, h0: Values, code: int, n: int, header: Values,
                                               h: seq<Text>, before: seq<byte>, body: seq<byte>)
    requires IsInt64(n) && Ordinary(lib) && Enumerates(h, header)
    requires forall k :: k in header ==> lib.canonical(k) == k
    ensures ResponseArrives(lib, h0, code, n, header, h, before, body)
      <==> |before| + 1 + |ResponseBytes(code, n, header, h)| <= FRAME_MAX_PAYLOAD
           && 0 <= code <= MAX_LEN && EncodableValues(header)
  {
    hide ResponseRead, ResponseBytes, Enumerates, EncodableValues;
    var record := ResponseBytes(code, n, header, h);
    ResponseBytesIff(lib, h0, code, n, header, h, body);
    var s := ((before + [RESPONSE_RECORD] + record) + body)[|before|..];
    assert s == [RESPONSE_RECORD] + (record + body) && s[1..] == record + body;
  }
}
