/**
  The HTTP request and response records of framedata.go and frameparser.go.

  Map iteration order is a parameter: an encoding takes the keys in any order.
  Functions of Go's libraries that the records use are fields of `Library`.
 */
module Records {
  import opened Bytes
  import opened Varint
  import opened Strings

  type Values = map<Text, seq<Text>>

  datatype Library = Library(
    clean: Text -> Text,              // path.Clean
    parseUrl: Text -> Option<Text>,   // url.Parse
    canonical: Text -> Text,          // textproto.CanonicalMIMEHeaderKey
    parseInt: Text -> Option<int>,    // strconv.ParseInt
    formatInt: int -> Text)           // strconv.FormatInt

  const CONTENT_LENGTH: Text := [67, 111, 110, 116, 101, 110, 116, 45, 76, 101, 110, 103, 116, 104]
  const HOST: Text := [72, 111, 115, 116]
  const SLASH: byte := 47
  const BACKSLASH: byte := 92
  const REQUEST_RECORD: byte := 3
  const RESPONSE_RECORD: byte := 4
  const HIJACKED_RECORD: byte := 7

  // ----- maps of values

  function Get(m: Values, k: Text): seq<Text> { if k in m then m[k] else [] }

  function AddEach(m: Values, k: Text, vs: seq<Text>): Values
    decreases |vs|
  {
    if vs == [] then m else AddEach(m[k := Get(m, k) + [vs[0]]], k, vs[1..])
  }

  /** What the reading loops build: every value added under its key, as `rename` spells it. */
  function AddEntries(rename: Text -> Text, m: Values, es: seq<Entry>): Values
    decreases |es|
  {
    if es == [] then m
    else AddEntries(rename, AddEach(m, rename(es[0].key), es[0].values), es[1..])
  }

  ghost predicate Enumerates(order: seq<Text>, m: Values) {
    && (forall k :: k in order <==> k in m)
    && (forall i, j :: 0 <= i < j < |order| ==> order[i] != order[j])
  }

  /** The entries of a map, in the order given. */
  function EntriesOf(order: seq<Text>, m: Values): seq<Entry> {
    if order == [] then [] else [Entry(order[0], Get(m, order[0]))] + EntriesOf(order[1..], m)
  }

  /** Two maps joined, the values of the first before those of the second; a key without values is lost. */
  function Merge(h: Values, m: Values): Values {
    map k | k in h.Keys + m.Keys && (k in h || m[k] != []) :: Get(h, k) + Get(m, k)
  }

  lemma {:induction false} AddEachResult(m: Values, k: Text, vs: seq<Text>)
    ensures AddEach(m, k, vs) == (if vs == [] then m else m[k := Get(m, k) + vs])
    decreases |vs|
  {
    if vs != [] {
      AddEachResult(m[k := Get(m, k) + [vs[0]]], k, vs[1..]);
      assert Get(m, k) + [vs[0]] + vs[1..] == Get(m, k) + vs;
      assert vs[1..] == [] ==> Get(m, k) + [vs[0]] == Get(m, k) + vs;
    }
  }

  function Only(order: seq<Text>, m: Values): Values {
    map k | k in order && k in m :: m[k]
  }

  lemma MergeFirst(h: Values, m: Values, k: Text, order: seq<Text>)
    requires order != [] && order[0] == k && k in m && k !in order[1..]
    ensures Merge(if m[k] == [] then h else h[k := Get(h, k) + m[k]], Only(order[1..], m)) == Merge(h, Only(order, m))
  {
    var h' := if m[k] == [] then h else h[k := Get(h, k) + m[k]];
    var o, o' := Only(order, m), Only(order[1..], m);
    assert forall x :: x in order <==> x == k || x in order[1..];
    assert o' == o - {k};
    assert o[k] == m[k];
    MergeMoved(h, o, k);
  }

  lemma MergeMoved(h: Values, o: Values, k: Text)
    requires k in o
    ensures Merge(if o[k] == [] then h else h[k := Get(h, k) + o[k]], o - {k}) == Merge(h, o)
  {
    var h' := if o[k] == [] then h else h[k := Get(h, k) + o[k]];
    var a, b := Merge(h', o - {k}), Merge(h, o);
    assert Get(h', k) == Get(h, k) + o[k];
    assert Get(h', k) + [] == Get(h', k);
    forall x ensures (x in a <==> x in b) && (x in a && x in b ==> a[x] == b[x]) {
      if x != k { assert Get(h', x) == Get(h, x) && Get(o - {k}, x) == Get(o, x); }
    }
  }

  lemma {:induction false} AddEntriesResult(rename: Text -> Text, h: Values, m: Values, order: seq<Text>)
    requires forall i :: 0 <= i < |order| ==> order[i] in m && rename(order[i]) == order[i]
    requires forall i, j :: 0 <= i < j < |order| ==> order[i] != order[j]
    ensures AddEntries(rename, h, EntriesOf(order, m)) == Merge(h, Only(order, m))
    decreases |order|
  {
    hide Merge, Only, AddEach;
    if order == [] {
      MergeNone(h, m);
    } else {
      var k := order[0];
      AddEachResult(h, k, m[k]);
      AddEntriesResult(rename, AddEach(h, k, m[k]), m, order[1..]);
      MergeFirst(h, m, k, order);
      assert EntriesOf(order, m)[1..] == EntriesOf(order[1..], m);
    }
  }

  lemma MergeNone(h: Values, m: Values)
    ensures Merge(h, Only([], m)) == h
  {
    assert forall k :: k in h ==> h[k] + [] == h[k];
  }

  /** Reading the entries of a map, in any order, into `h` merges the map into `h`. */
  lemma AddMap(rename: Text -> Text, h: Values, m: Values, order: seq<Text>)
    requires Enumerates(order, m) && forall k :: k in m ==> rename(k) == k
    ensures AddEntries(rename, h, EntriesOf(order, m)) == Merge(h, m)
  {
    AddEntriesResult(rename, h, m, order);
    assert Only(order, m) == m;
  }

  predicate EncodableValues(m: Values) {
    forall k :: k in m ==> |k| <= MAX_LEN && EncodableTexts(m[k])
  }

  lemma {:induction false} EntriesEncodable(order: seq<Text>, m: Values)
    requires EncodableValues(m) && forall i :: 0 <= i < |order| ==> order[i] in m
    ensures EncodableEntries(EntriesOf(order, m))
  {
    if order != [] { EntriesEncodable(order[1..], m); }
  }

  /** A map written in any order is read back as its entries, with what follows it untouched. */
  lemma MapReads(order: seq<Text>, m: Values)
    requires EncodableValues(m) && Enumerates(order, m)
    ensures ReadsEntries(EncodeEntries(EntriesOf(order, m)), EntriesOf(order, m))
  {
    EntriesEncodable(order, m);
    EntriesRead(EntriesOf(order, m));
  }

  lemma {:induction false} KeyListed(order: seq<Text>, m: Values, k: Text)
    ensures (exists i :: 0 <= i < |order| && order[i] == k)
      <==> (exists i :: 0 <= i < |EntriesOf(order, m)| && EntriesOf(order, m)[i].key == k)
  {
    EntriesOfAt(order, m);
    if i :| 0 <= i < |order| && order[i] == k {
      assert EntriesOf(order, m)[i].key == k;
    }
    if i :| 0 <= i < |EntriesOf(order, m)| && EntriesOf(order, m)[i].key == k {
      assert order[i] == k;
    }
  }

  lemma {:induction false} EntriesOfAt(order: seq<Text>, m: Values)
    ensures |EntriesOf(order, m)| == |order|
    ensures forall i :: 0 <= i < |order| ==> EntriesOf(order, m)[i] == Entry(order[i], Get(m, order[i]))
  {
    if order != [] { EntriesOfAt(order[1..], m); }
  }

  // ----- requests

  datatype Request = Request(
    verb: Text, scheme: Text, path: Text, query: Values, header: Values, host: Text, contentLength: int)

  datatype Decoded = Decoded(
    verb: Text, scheme: Text, uri: Text, url: Text, query: Values, header: Values, host: Text, contentLength: int)

  function Slashes(p: Text): Text {
    seq(|p|, i requires 0 <= i < |p| => if p[i] == BACKSLASH then SLASH else p[i])
  }

  /** The last byte of the path is looked at unless the cleaned path is a slash. */
  predicate PathIndexable(lib: Library, path: Text) { path != [] || lib.clean(Slashes(path)) == [SLASH] }

  predicate LengthIndexable(r: Request) {
    CONTENT_LENGTH in r.header && r.contentLength < 0 ==> r.header[CONTENT_LENGTH] != []
  }

  predicate HostIndexable(r: Request) { HOST in r.header && r.host == [] ==> r.header[HOST] != [] }

  /** What WriteRequest indexes without a check; where this fails, it panics. */
  predicate Indexable(lib: Library, r: Request) {
    PathIndexable(lib, r.path) && LengthIndexable(r) && HostIndexable(r)
  }

  function NormalPath(lib: Library, path: Text): Text
    requires PathIndexable(lib, path)
  {
    var np := lib.clean(Slashes(path));
    if np != [SLASH] && path[|path| - 1] == SLASH then np + [SLASH] else np
  }

  /** A Content-Length header stands in for an unknown length; otherwise unknown is -1. */
  function NormalLength(lib: Library, r: Request): int
    requires LengthIndexable(r)
  {
    if r.contentLength >= 0 then r.contentLength
    else if CONTENT_LENGTH !in r.header then -1
    else match lib.parseInt(r.header[CONTENT_LENGTH][0])
      case Some(n) => n
      case None => r.contentLength
  }

  function NormalHost(r: Request): Text
    requires HostIndexable(r)
  {
    if r.host == [] && HOST in r.header then r.header[HOST][0] else r.host
  }

  /** Lengths are of type int64, in the request and from ParseInt. */
  ghost predicate Typed(lib: Library, r: Request) {
    IsInt64(r.contentLength) && forall t :: lib.parseInt(t).Some? ==> IsInt64(lib.parseInt(t).value)
  }

  ghost predicate Writable(lib: Library, r: Request) { Indexable(lib, r) && Typed(lib, r) }

  /** The record WriteRequest appends after its type byte, given the orders in which it meets the two maps. */
  function RequestBytes(lib: Library, r: Request, q: seq<Text>, h: seq<Text>): seq<byte>
    requires Writable(lib, r)
  {
    var host := NormalHost(r);
    EncodeString(Chars(r.verb)) + EncodeString(Chars(r.scheme))
    + [0] + EncodeString(Chars(NormalPath(lib, r.path)))
    + EncodeEntries(EntriesOf(q, r.query)) + EncodeEntries(EntriesOf(h, r.header))
    + EncodeString(if host == [] then Null else Chars(host)) + EncodeInt64(NormalLength(lib, r))
  }

  /** The payload of the frame after WriteRequest, given what was in it before; None where it returns ErrFrameTooBig. */
  function RequestPayload(lib: Library, r: Request, q: seq<Text>, h: seq<Text>, before: seq<byte>): Option<seq<byte>>
    requires Writable(lib, r)
  {
    var p := before + [REQUEST_RECORD] + RequestBytes(lib, r, q, h);
    if |p| > FRAME_MAX_PAYLOAD then None else Some(p)
  }

  datatype Parsed<T> = Good(value: T, rest: seq<byte>) | BadUrl | Panic

  function TextOf(t: Str): Text { if t == Null then [] else t.text }

  /** Method, scheme and route; a route index other than 0 panics. */
  datatype Target = Target(verb: Text, scheme: Text, uri: Text)

  function DecodeRoute(s: seq<byte>): Option<(Str, seq<byte>)> {
    match DecodeLen(s)
    case None => None
    case Some((n, rest)) => if n == 0 then DecodeString(rest) else None
  }

  /** A route is a string after a zero; any other index panics. */
  lemma RouteMeans(s: seq<byte>)
    ensures DecodeRoute([0] + s) == DecodeString(s)
    ensures s != [] && 0 < s[0] < 0x80 ==> DecodeRoute(s) == None
  {
    assert ([0] + s)[1..] == s;
  }

  function DecodeTarget(s: seq<byte>): Option<(Target, seq<byte>)> {
    match DecodeString(s)
    case None => None
    case Some((verb, s1)) =>
      match DecodeString(s1)
      case None => None
      case Some((scheme, s2)) =>
        match DecodeRoute(s2)
        case None => None
        case Some((uri, s3)) => Some((Target(TextOf(verb), TextOf(scheme), TextOf(uri)), s3))
  }

  datatype Fields = Fields(query: seq<Entry>, header: seq<Entry>, host: Text, contentLength: int)

  function DecodeFields(s: seq<byte>): Option<(Fields, seq<byte>)> {
    match DecodeEntries(s)
    case None => None
    case Some((query, s1)) =>
      match DecodeEntries(s1)
      case None => None
      case Some((header, s2)) =>
        match DecodeString(s2)
        case None => None
        case Some((host, s3)) =>
          match DecodeInt64(s3)
          case None => None
          case Some((n, rest)) => Some((Fields(query, header, TextOf(host), n), rest))
  }

  /** Sets the Content-Length header of a known length. */
  function WithLength(lib: Library, h: Values, n: int): Values {
    if n < 0 then h else h[CONTENT_LENGTH := [if n == 0 then [48] else lib.formatInt(n)]]
  }

  function Identity(t: Text): Text { t }

  function DecodeRequest(lib: Library, s: seq<byte>): Parsed<Decoded> {
    match DecodeTarget(s)
    case None => Panic
    case Some((target, s1)) =>
      match lib.parseUrl(target.uri)
      case None => BadUrl
      case Some(url) =>
        match DecodeFields(s1)
        case None => Panic
        case Some((f, rest)) =>
          Good(Decoded(target.verb, target.scheme, target.uri, url,
                       AddEntries(Identity, map[], f.query),
                       WithLength(lib, AddEntries(lib.canonical, map[], f.header), f.contentLength),
                       f.host, f.contentLength), rest)
  }

  // ----- the request round trip

  ghost predicate EncodableRequest(lib: Library, r: Request) {
    && Writable(lib, r)
    && |r.verb| <= MAX_LEN && |r.scheme| <= MAX_LEN && |NormalPath(lib, r.path)| <= MAX_LEN
    && |NormalHost(r)| <= MAX_LEN && EncodableValues(r.query) && EncodableValues(r.header)
  }

  ghost predicate ReadsInt64(d: seq<byte>, n: int) {
    forall more :: DecodeInt64(d + more) == Some((n, more))
  }

  lemma Int64Reads(n: int)
    requires IsInt64(n)
    ensures ReadsInt64(EncodeInt64(n), n)
  {
    forall more ensures DecodeInt64(EncodeInt64(n) + more) == Some((n, more)) { Int64RoundTrip(n, more); }
  }

  lemma TargetCompose(a: seq<byte>, verb: Str, b: seq<byte>, scheme: Str, c: seq<byte>, uri: Str, more: seq<byte>)
    requires ReadsString(a, verb) && ReadsString(b, scheme) && ReadsString(c, uri)
    ensures DecodeTarget(a + (b + ([0] + (c + more))))
      == Some((Target(TextOf(verb), TextOf(scheme), TextOf(uri)), more))
  {
    hide DecodeString;
    assert ([0] + (c + more))[1..] == c + more;
    assert DecodeRoute([0] + (c + more)) == Some((uri, more));
  }

  lemma FieldsCompose(d: seq<byte>, q: seq<Entry>, e: seq<byte>, h: seq<Entry>, f: seq<byte>, host: Str,
                      g: seq<byte>, n: int, more: seq<byte>)
    requires ReadsEntries(d, q) && ReadsEntries(e, h) && ReadsString(f, host) && ReadsInt64(g, n)
    ensures DecodeFields(d + (e + (f + (g + more)))) == Some((Fields(q, h, TextOf(host), n), more))
  {
    hide DecodeString, DecodeEntries, DecodeInt64;
  }

  /** The request as the other side sees it: normalised, with its keys without values gone. */
  function Received(lib: Library, r: Request, url: Text): Decoded
    requires Writable(lib, r)
  {
    var n := NormalLength(lib, r);
    Decoded(r.verb, r.scheme, NormalPath(lib, r.path), url,
            Merge(map[], r.query), WithLength(lib, Merge(map[], r.header), n), NormalHost(r), n)
  }

  // ----- keys of any spelling

  /** The values of all entries whose key is spelled K by `rename`, in order. */
  function ValuesUnder(rename: Text -> Text, es: seq<Entry>, key: Text): seq<Text> {
    if es == [] then []
    else (if rename(es[0].key) == key then es[0].values else []) + ValuesUnder(rename, es[1..], key)
  }

  lemma AddedUnder(m: Values, k: Text, vs: seq<Text>, key: Text)
    ensures Get(AddEach(m, k, vs), key) == Get(m, key) + (if k == key then vs else [])
    ensures key in AddEach(m, k, vs) <==> key in m || (k == key && vs != [])
  {
    AddEachResult(m, k, vs);
  }

  /** What reading a list into a map does, for any keys: values are collected under the keys as renamed. */
  lemma {:induction false} AddedValues(rename: Text -> Text, m: Values, es: seq<Entry>, key: Text)
    ensures Get(AddEntries(rename, m, es), key) == Get(m, key) + ValuesUnder(rename, es, key)
    ensures key in AddEntries(rename, m, es) <==> key in m || ValuesUnder(rename, es, key) != []
    decreases |es|
  {
    hide AddEach, Get;
    if es != [] {
      var e := es[0];
      AddedUnder(m, rename(e.key), e.values, key);
      AddedValues(rename, AddEach(m, rename(e.key), e.values), es[1..], key);
      var first, rest := if rename(e.key) == key then e.values else [], ValuesUnder(rename, es[1..], key);
      assert (Get(m, key) + first) + rest == Get(m, key) + (first + rest);
    }
  }

  /** A map with exactly these values under each key, added to what was there. */
  ghost predicate Collects(rename: Text -> Text, m: Values, es: seq<Entry>, got: Values) {
    forall key :: Get(got, key) == Get(m, key) + ValuesUnder(rename, es, key)
      && (key in got <==> key in m || ValuesUnder(rename, es, key) != [])
  }

  lemma {:induction false} EntriesCollect(rename: Text -> Text, m: Values, es: seq<Entry>)
    ensures Collects(rename, m, es, AddEntries(rename, m, es))
  {
    hide AddEntries, Get, ValuesUnder;
    forall key
      ensures Get(AddEntries(rename, m, es), key) == Get(m, key) + ValuesUnder(rename, es, key)
        && (key in AddEntries(rename, m, es) <==> key in m || ValuesUnder(rename, es, key) != [])
    {
      AddedValues(rename, m, es, key);
    }
  }

  /** What ReadRequest collects: the query under its keys as they are, the header under its keys in canonical form. */
  lemma {:induction false} RequestCollects(lib: Library, s: seq<byte>)
    returns (query: seq<Entry>, header: seq<Entry>, collected: Values)
    requires DecodeRequest(lib, s).Good?
    ensures var d := DecodeRequest(lib, s).value;
      && Collects(Identity, map[], query, d.query)
      && Collects(lib.canonical, map[], header, collected) && HeaderMeans(lib, collected, d.contentLength, d.header)
    ensures var t := DecodeTarget(s).value.1;
      && DecodeEntries(t).Some? && DecodeEntries(t).value.0 == query
      && DecodeEntries(DecodeEntries(t).value.1).Some? && DecodeEntries(DecodeEntries(t).value.1).value.0 == header
  {
    hide DecodeTarget, DecodeEntries, DecodeString, DecodeInt64, AddEntries, Collects, HeaderMeans, WithLength;
    var f := DecodeFields(DecodeTarget(s).value.1).value.0;
    query, header := f.query, f.header;
    collected := AddEntries(lib.canonical, map[], header);
    EntriesCollect(Identity, map[], query);
    EntriesCollect(lib.canonical, map[], header);
    WithLengthMeans(lib, collected, f.contentLength, WithLength(lib, collected, f.contentLength));
  }

  // ----- what the other side gets, without saying how

  /** The same text with every backslash turned. */
  predicate Turned(path: Text, plain: Text) {
    |plain| == |path| && forall i :: 0 <= i < |path| ==> plain[i] == (if path[i] == BACKSLASH then SLASH else path[i])
  }

  predicate EndsInSlash(t: Text) { t != [] && t[|t| - 1] == SLASH }

  /** The cleaned path; a slash at the end that cleaning took away is put back. */
  ghost predicate UriFrom(lib: Library, path: Text, plain: Text, uri: Text) {
    var c := lib.clean(plain);
    if EndsInSlash(path) && c != [SLASH] then |uri| == |c| + 1 && uri[..|c|] == c && EndsInSlash(uri) else uri == c
  }

  ghost predicate UriMeans(lib: Library, path: Text, uri: Text) {
    exists plain :: Turned(path, plain) && UriFrom(lib, path, plain, uri)
  }

  /** The host of the request, or else its first Host field, or else none. */
  predicate HostMeans(r: Request, host: Text) {
    && (r.host != [] ==> host == r.host)
    && (r.host == [] && HOST in r.header ==> r.header[HOST] != [] && host == r.header[HOST][0])
    && (r.host == [] && HOST !in r.header ==> host == [])
  }

  /** The length of the request if it is known, or else what its first Content-Length field says, or else -1. */
  predicate LengthMeans(lib: Library, r: Request, n: int) {
    && (r.contentLength >= 0 ==> n == r.contentLength)
    && (r.contentLength < 0 && CONTENT_LENGTH !in r.header ==> n == -1)
    && (r.contentLength < 0 && CONTENT_LENGTH in r.header ==>
          && r.header[CONTENT_LENGTH] != []
          && var parsed := lib.parseInt(r.header[CONTENT_LENGTH][0]);
          n == if parsed.Some? then parsed.value else r.contentLength)
  }

  /** The Content-Length field is the known length, in decimal, and all other fields are untouched. */
  ghost predicate HeaderMeans(lib: Library, h: Values, n: int, header: Values) {
    && (n < 0 ==> header == h)
    && (n == 0 ==> CONTENT_LENGTH in header && header[CONTENT_LENGTH] == [[48]])
    && (n > 0 ==> CONTENT_LENGTH in header && header[CONTENT_LENGTH] == [lib.formatInt(n)])
    && (forall k :: k != CONTENT_LENGTH ==> (k in header <==> k in h) && (k in h && k in header ==> header[k] == h[k]))
  }

  lemma WithLengthMeans(lib: Library, h: Values, n: int, header: Values)
    ensures header == WithLength(lib, h, n) <==> HeaderMeans(lib, h, n, header)
  {
    if HeaderMeans(lib, h, n, header) && n >= 0 {
      assert header.Keys == WithLength(lib, h, n).Keys;
    }
  }

  lemma PathMeans(lib: Library, path: Text, uri: Text)
    requires PathIndexable(lib, path)
    ensures uri == NormalPath(lib, path) <==> UriMeans(lib, path, uri)
  {
    var plain := Slashes(path);
    var c := lib.clean(plain);
    assert Turned(path, plain);
    assert forall other :: Turned(path, other) ==> other == plain;
    if |uri| == |c| + 1 && uri[..|c|] == c && EndsInSlash(uri) { assert uri == c + [SLASH]; }
    assert (c + [SLASH])[..|c|] == c;
    assert uri == NormalPath(lib, path) <==> UriFrom(lib, path, plain, uri);
  }

  /** The request as the other side gets it. */
  ghost predicate RequestMeans(lib: Library, r: Request, d: Decoded) {
    && d.verb == r.verb && d.scheme == r.scheme
    && UriMeans(lib, r.path, d.uri) && lib.parseUrl(d.uri) == Some(d.url)
    && d.query == Merge(map[], r.query) && HostMeans(r, d.host)
    && LengthMeans(lib, r, d.contentLength) && HeaderMeans(lib, Merge(map[], r.header), d.contentLength, d.header)
  }

  /** These determine what is received. */
  lemma ReceivedMeans(lib: Library, r: Request, d: Decoded)
    requires Writable(lib, r)
    ensures RequestMeans(lib, r, d)
      <==> d == Received(lib, r, d.url) && lib.parseUrl(NormalPath(lib, r.path)) == Some(d.url)
  {
    hide Merge, UriMeans, HeaderMeans, WithLength, NormalPath;
    PathMeans(lib, r.path, d.uri);
    WithLengthMeans(lib, Merge(map[], r.header), d.contentLength, d.header);
  }

  /**
    Where cleaning leaves a slash at the end only of the root, as path.Clean does, the path
    received ends in a slash exactly when the path sent did, or is the root.
   */
  lemma TrailingSlashKept(lib: Library, path: Text, uri: Text)
    requires UriMeans(lib, path, uri) && forall t :: EndsInSlash(lib.clean(t)) ==> lib.clean(t) == [SLASH]
    ensures EndsInSlash(uri) <==> EndsInSlash(path) || uri == [SLASH]
  {
  }

  lemma RequestParts(lib: Library, a: seq<byte>, b: seq<byte>, c: seq<byte>, d: seq<byte>, e: seq<byte>,
                     f: seq<byte>, g: seq<byte>, t: Target, q: seq<Entry>, h: seq<Entry>, host: Str, n: int,
                     body: seq<byte>)
    requires ReadsString(a, Chars(t.verb)) && ReadsString(b, Chars(t.scheme)) && ReadsString(c, Chars(t.uri))
    requires ReadsEntries(d, q) && ReadsEntries(e, h) && ReadsString(f, host) && ReadsInt64(g, n)
    ensures DecodeRequest(lib, (a + b + [0] + c + d + e + f + g) + body)
      == match lib.parseUrl(t.uri)
         case None => BadUrl
         case Some(url) =>
           Good(Decoded(t.verb, t.scheme, t.uri, url, AddEntries(Identity, map[], q),
                        WithLength(lib, AddEntries(lib.canonical, map[], h), n), TextOf(host), n), body)
  {
    hide DecodeString, DecodeEntries, DecodeInt64, DecodeTarget, DecodeFields, AddEntries;
    var s1 := d + (e + (f + (g + body)));
    TargetCompose(a, Chars(t.verb), b, Chars(t.scheme), c, Chars(t.uri), s1);
    FieldsCompose(d, q, e, h, f, host, g, n, body);
    assert (a + b + [0] + c + d + e + f + g) + body == a + (b + ([0] + (c + s1)));
  }

  /** ReadRequest after WriteRequest, for every request and every order of its two maps, before any body. */
  lemma RequestRoundTrip(lib: Library, r: Request, q: seq<Text>, h: seq<Text>, body: seq<byte>)
    requires EncodableRequest(lib, r) && Enumerates(q, r.query) && Enumerates(h, r.header)
    requires forall k :: k in r.header ==> lib.canonical(k) == k
    ensures DecodeRequest(lib, RequestBytes(lib, r, q, h) + body)
      == match lib.parseUrl(NormalPath(lib, r.path))
         case None => BadUrl
         case Some(url) => Good(Received(lib, r, url), body)
    ensures var d := DecodeRequest(lib, RequestBytes(lib, r, q, h) + body);
      d == BadUrl || (d.Good? && d.rest == body && RequestMeans(lib, r, d.value))
  {
    hide DecodeRequest, RequestMeans, Merge, WithLength, EncodeString, EncodeEntries, EncodeInt64, EntriesOf,
      AddEntries, ReadsString, ReadsEntries, ReadsInt64;
    var t := Target(r.verb, r.scheme, NormalPath(lib, r.path));
    var host, n := if NormalHost(r) == [] then Null else Chars(NormalHost(r)), NormalLength(lib, r);
    StringReads(Chars(t.verb));
    StringReads(Chars(t.scheme));
    StringReads(Chars(t.uri));
    MapReads(q, r.query);
    MapReads(h, r.header);
    StringReads(host);
    Int64Reads(n);
    RequestParts(lib, EncodeString(Chars(t.verb)), EncodeString(Chars(t.scheme)), EncodeString(Chars(t.uri)),
                 EncodeEntries(EntriesOf(q, r.query)), EncodeEntries(EntriesOf(h, r.header)),
                 EncodeString(host), EncodeInt64(n), t, EntriesOf(q, r.query), EntriesOf(h, r.header), host, n, body);
    AddMap(Identity, map[], r.query, q);
    AddMap(lib.canonical, map[], r.header, h);
    var url := lib.parseUrl(t.uri);
    if url.Some? { ReceivedMeans(lib, r, Received(lib, r, url.value)); }
  }

  // ----- responses

  /** The record WriteResponse appends after its type byte; a code WriteLen rejects writes nothing. */
  function ResponseBytes(code: int, n: int, header: Values, h: seq<Text>): seq<byte>
    requires IsInt64(n)
  {
    var status := EncodeLen(code);
    (if status.Some? then status.value else []) + EncodeEntries(EntriesOf(h, header)) + EncodeInt64(n)
  }

  /** The same for WriteResponse. */
  function ResponsePayload(code: int, n: int, header: Values, h: seq<Text>, before: seq<byte>): Option<seq<byte>>
    requires IsInt64(n)
  {
    var p := before + [RESPONSE_RECORD] + ResponseBytes(code, n, header, h);
    if |p| > FRAME_MAX_PAYLOAD then None else Some(p)
  }

  predicate HasKey(es: seq<Entry>, k: Text) { exists i :: 0 <= i < |es| && es[i].key == k }

  datatype Response = Response(status: nat, header: Values)

  /** ProxyResponse, given the headers already set on the response writer. */
  function DecodeResponse(lib: Library, h: Values, s: seq<byte>): Option<(Response, seq<byte>)> {
    match DecodeLen(s)
    case None => None
    case Some((status, s1)) =>
      match DecodeEntries(s1)
      case None => None
      case Some((es, s2)) =>
        match DecodeInt64(s2)
        case None => None
        case Some((n, rest)) =>
          var header := AddEntries(lib.canonical, h, es);
          Some((Response(status, if HasKey(es, CONTENT_LENGTH) then header else WithLength(lib, header, n)), rest))
  }

  /**
    What ProxyResponse collects: the header under its keys in canonical form. Whether it already
    has a length goes by the spelling on the wire.
   */
  lemma {:induction false} ResponseCollects(lib: Library, h: Values, s: seq<byte>)
    returns (header: seq<Entry>, collected: Values, n: int)
    requires DecodeResponse(lib, h, s).Some?
    ensures var d := DecodeResponse(lib, h, s).value.0;
      && Collects(lib.canonical, h, header, collected)
      && if exists i :: 0 <= i < |header| && header[i].key == CONTENT_LENGTH then d.header == collected
         else HeaderMeans(lib, collected, n, d.header)
    ensures var t := DecodeLen(s).value.1; DecodeEntries(t).Some? && DecodeEntries(t).value.0 == header
  {
    hide DecodeLen, DecodeEntries, DecodeInt64, AddEntries, Collects, HeaderMeans, WithLength;
    var t := DecodeEntries(DecodeLen(s).value.1).value;
    header, n := t.0, DecodeInt64(t.1).value.0;
    collected := AddEntries(lib.canonical, h, header);
    EntriesCollect(lib.canonical, h, header);
    WithLengthMeans(lib, collected, n, WithLength(lib, collected, n));
  }

  lemma ResponseParts(lib: Library, h0: Values, code: nat, d: seq<byte>, es: seq<Entry>, g: seq<byte>, n: int,
                      body: seq<byte>)
    requires code <= MAX_LEN && ReadsEntries(d, es) && ReadsInt64(g, n)
    ensures DecodeResponse(lib, h0, (EncodeLen(code).value + d + g) + body)
      == Some((Response(code, if HasKey(es, CONTENT_LENGTH) then AddEntries(lib.canonical, h0, es)
                              else WithLength(lib, AddEntries(lib.canonical, h0, es), n)), body))
  {
    hide DecodeEntries, DecodeInt64, AddEntries, EncodeLen, DecodeLen;
    LenRoundTrip(code, d + (g + body));
    assert (EncodeLen(code).value + d + g) + body == EncodeLen(code).value + (d + (g + body));
  }

  /** ProxyResponse after WriteResponse, for every order of the header map, before any body. */
  lemma ResponseRoundTrip(lib: Library, h0: Values, code: int, n: int, header: Values, h: seq<Text>, body: seq<byte>)
    requires 0 <= code <= MAX_LEN && IsInt64(n) && EncodableValues(header) && Enumerates(h, header)
    requires forall k :: k in header ==> lib.canonical(k) == k
    ensures DecodeResponse(lib, h0, ResponseBytes(code, n, header, h) + body)
        == Some((Response(code, if CONTENT_LENGTH in header then Merge(h0, header)
                                else WithLength(lib, Merge(h0, header), n)), body))
    ensures var d := DecodeResponse(lib, h0, ResponseBytes(code, n, header, h) + body);
      && d.Some? && d.value.1 == body && d.value.0.status == code
      && if CONTENT_LENGTH in header then d.value.0.header == Merge(h0, header)
         else HeaderMeans(lib, Merge(h0, header), n, d.value.0.header)
  {
    hide DecodeResponse, Merge, WithLength, HeaderMeans, EncodeEntries, EncodeInt64, EntriesOf, AddEntries,
      ReadsEntries, ReadsInt64;
    LenRoundTrip(code, []);
    MapReads(h, header);
    Int64Reads(n);
    ResponseParts(lib, h0, code, EncodeEntries(EntriesOf(h, header)), EntriesOf(h, header), EncodeInt64(n), n, body);
    AddMap(lib.canonical, h0, header, h);
    KeyListed(h, header, CONTENT_LENGTH);
    assert CONTENT_LENGTH in h <==> CONTENT_LENGTH in header;
    WithLengthMeans(lib, Merge(h0, header), n, WithLength(lib, Merge(h0, header), n));
  }

  /** A map is read back whole exactly when all its keys have values. */
  lemma MergeWhole(m: Values)
    ensures Merge(map[], m) == m <==> forall k :: k in m ==> m[k] != []
  {
    assert forall k :: k in m ==> [] + m[k] == m[k];
    if k :| k in m && m[k] == [] { assert k !in Merge(map[], m); }
  }

  // ----- which record it is

  /** What Conn.Serve makes of the first frame of a session. */
  datatype Incoming =
    | RequestIn(parsed: Parsed<Decoded>) | HijackedIn | UnhandledIn(kind: byte)
    | MissingHead | NoRecord  // NoRecord panics: there is no record type to read

  function ServeRecord(lib: Library, head: bool, payload: seq<byte>): Incoming {
    if !head then MissingHead
    else if payload == [] then NoRecord
    else if payload[0] == REQUEST_RECORD then RequestIn(DecodeRequest(lib, payload[1..]))
    else if payload[0] == HIJACKED_RECORD then HijackedIn
    else UnhandledIn(payload[0])
  }

  /** What Conn.ProxyResponse makes of the first frame of an answer. */
  datatype Answer =
    | ResponseIn(decoded: Option<(Response, seq<byte>)>) | UpgradeIn | UnhandledAnswer(kind: byte)
    | NoHeader  // the frame has no head: status 0
    | NoAnswer  // panics

  function AnswerRecord(lib: Library, h: Values, head: bool, payload: seq<byte>): Answer {
    if !head then NoHeader
    else if payload == [] then NoAnswer
    else if payload[0] == RESPONSE_RECORD then ResponseIn(DecodeResponse(lib, h, payload[1..]))
    else if payload[0] == HIJACKED_RECORD then UpgradeIn
    else UnhandledAnswer(payload[0])
  }

  /** A request is taken for a request, a response for a response, and neither for the other. */
  lemma RecordsToldApart(lib: Library, h: Values, record: seq<byte>)
    ensures ServeRecord(lib, true, [REQUEST_RECORD] + record) == RequestIn(DecodeRequest(lib, record))
    ensures AnswerRecord(lib, h, true, [RESPONSE_RECORD] + record) == ResponseIn(DecodeResponse(lib, h, record))
    ensures ServeRecord(lib, true, [RESPONSE_RECORD] + record).UnhandledIn?
    ensures AnswerRecord(lib, h, true, [REQUEST_RECORD] + record).UnhandledAnswer?
    ensures ServeRecord(lib, true, [HIJACKED_RECORD] + record) == HijackedIn
    ensures AnswerRecord(lib, h, true, [HIJACKED_RECORD] + record) == UpgradeIn
  {
    hide DecodeRequest, DecodeResponse;
    assert ([REQUEST_RECORD] + record)[1..] == record && ([RESPONSE_RECORD] + record)[1..] == record;
  }
}
