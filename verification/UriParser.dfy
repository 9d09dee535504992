/** Parsing of datasource URIs (RFC 3986). Characters are bytes; those outside ASCII are
    neither spaces nor letters. */
module UriParser {
  import opened Ascii
  import opened Common

  datatype Reason =
    | EmptyUri | EmptyAfterFragment | RelativePath | EmptyScheme | InvalidScheme | FileNotAbsolute
    | EmptyHost | EmptyKey | EmptyQueryKey | Truncated | Malformed

  datatype Result<T> = Ok(value: T) | Fail(reason: Reason)

  datatype Parsed = Parsed(scheme: string, host: string, path: string, query: map<string, string>)

  // ---- Percent-encoding (section 2.1 of RFC 3986) ----------------------------------------------------

  function HexValue(c: char): int {
    if '0' <= c <= '9' then c as int - '0' as int
    else if 'a' <= c <= 'f' then 10 + (c as int - 'a' as int)
    else if 'A' <= c <= 'F' then 10 + (c as int - 'A' as int)
    else -1
  }

  function Push(c: char, r: Result<string>): Result<string> {
    match r case Ok(s) => Ok([c] + s) case Fail(e) => Fail(e)
  }

  function Decode(s: string): Result<string> {
    if s == "" then Ok("")
    else if s[0] != '%' then Push(s[0], Decode(s[1..]))
    else if |s| < 3 then Fail(Truncated)
    else
      var hi, lo := HexValue(s[1]), HexValue(s[2]);
      if hi < 0 || lo < 0 then Fail(Malformed) else Push((16 * hi + lo) as char, Decode(s[3..]))
  }

  function Join(a: string, r: Result<string>): Result<string> {
    match r case Ok(s) => Ok(a + s) case Fail(e) => Fail(e)
  }

  method PercentDecode(s: string) returns (r: Result<string>)
    ensures r == Decode(s)
  {
    var out: string := "";
    var i := 0;
    assert s[0..] == s;
    assert Join("", Decode(s)) == Decode(s) by { JoinNothing(Decode(s)); }
    while i < |s|
      invariant 0 <= i <= |s| && Join(out, Decode(s[i..])) == Decode(s)
    {
      var c := s[i];
      var rest := s[i..];
      assert rest[1..] == s[i + 1..];
      if c != '%' {
        JoinPush(out, c, Decode(s[i + 1..]));
        out := out + [c];
        i := i + 1;
      } else {
        if i + 2 >= |s| { return Fail(Truncated); }
        var hi, lo := HexValue(s[i + 1]), HexValue(s[i + 2]);
        if hi < 0 || lo < 0 { return Fail(Malformed); }
        assert rest[3..] == s[i + 3..];
        JoinPush(out, (16 * hi + lo) as char, Decode(s[i + 3..]));
        out := out + [(16 * hi + lo) as char];
        i := i + 3;
      }
    }
    assert out + "" == out;
    return Ok(out);
  }

  lemma JoinNothing(r: Result<string>)
    ensures Join("", r) == r
  {
    if r.Ok? { assert "" + r.value == r.value; }
  }

  lemma JoinPush(a: string, c: char, r: Result<string>)
    ensures Join(a, Push(c, r)) == Join(a + [c], r)
  {
    if r.Ok? { assert a + ([c] + r.value) == (a + [c]) + r.value; }
  }

  predicate IsByte(c: char) { c as int < 256 }

  predicate IsBytes(s: string) { forall i :: 0 <= i < |s| ==> IsByte(s[i]) }

  /** The unreserved characters (section 2.3 of RFC 3986), and the slash where it may stay. */
  predicate Stays(c: char, slash: bool) {
    'a' <= c <= 'z' || 'A' <= c <= 'Z' || '0' <= c <= '9' || c == '-' || c == '.' || c == '_' || c == '~' ||
      (slash && c == '/')
  }

  function HexDigit(d: nat): char
    requires d < 16
  {
    if d < 10 then '0' + d as char else 'A' + (d - 10) as char
  }

  function EncodeChar(c: char, slash: bool): string
    requires IsByte(c)
  {
    if Stays(c, slash) then [c] else ['%', HexDigit(c as int / 16), HexDigit(c as int % 16)]
  }

  function Encode(s: string, slash: bool): string
    requires IsBytes(s)
  {
    if s == "" then "" else EncodeChar(s[0], slash) + Encode(s[1..], slash)
  }

  lemma HexRoundTrip(d: nat)
    requires d < 16
    ensures HexValue(HexDigit(d)) == d
  {
  }

  lemma DecodeEncodedChar(c: char, slash: bool, rest: string)
    requires IsByte(c)
    ensures Decode(EncodeChar(c, slash) + rest) == Push(c, Decode(rest))
  {
    var e := EncodeChar(c, slash);
    var s := e + rest;
    if Stays(c, slash) {
      assert s[1..] == rest;
    } else {
      HexRoundTrip(c as int / 16);
      HexRoundTrip(c as int % 16);
      assert s[0] == '%' && s[1] == e[1] && s[2] == e[2] && s[3..] == rest;
      assert 16 * (c as int / 16) + c as int % 16 == c as int;
    }
  }

  /** Decoding inverts encoding. */
  lemma {:induction false} DecodeEncode(s: string, slash: bool)
    requires IsBytes(s)
    ensures Decode(Encode(s, slash)) == Ok(s)
    decreases |s|
  {
    if s != "" {
      DecodeEncode(s[1..], slash);
      DecodeEncodedChar(s[0], slash, Encode(s[1..], slash));
      assert [s[0]] + s[1..] == s;
    }
  }

  /** An encoded text holds unreserved characters, percent signs and kept slashes only. */
  lemma {:induction false} EncodedChars(s: string, slash: bool)
    requires IsBytes(s)
    ensures forall i :: 0 <= i < |Encode(s, slash)| ==> Stays(Encode(s, slash)[i], slash) || Encode(s, slash)[i] == '%'
    ensures s != "" ==> Encode(s, slash) != "" && (slash && s[0] == '/' ==> Encode(s, slash)[0] == '/')
    decreases |s|
  {
    if s != "" { EncodedChars(s[1..], slash); }
  }

  // ---- Splitting -----------------------------------------------------------------------------------

  /** The text before the first `c`, and the text after it if there is one. */
  function Cut(s: string, c: char): (string, Option<string>) {
    if s == "" then ("", None)
    else if s[0] == c then ("", Some(s[1..]))
    else var r := Cut(s[1..], c); ([s[0]] + r.0, r.1)
  }

  lemma {:induction false} CutThere(a: string, c: char, b: string)
    requires c !in a
    ensures Cut(a + [c] + b, c) == (a, Some(b))
    decreases |a|
  {
    var s := a + [c] + b;
    if a == "" {
      assert s[1..] == b;
    } else {
      assert s[1..] == a[1..] + [c] + b;
      CutThere(a[1..], c, b);
      assert [a[0]] + a[1..] == a;
    }
  }

  lemma {:induction false} CutNot(a: string, c: char)
    requires c !in a
    ensures Cut(a, c) == (a, None)
    decreases |a|
  {
    if a != "" {
      CutNot(a[1..], c);
      assert [a[0]] + a[1..] == a;
    }
  }

  predicate StartsDelim(s: string) { |s| >= 3 && s[0] == ':' && s[1] == '/' && s[2] == '/' }

  /** The text before the first "://" and after it. */
  function CutDelim(s: string): Option<(string, string)> {
    if s == "" then None
    else if StartsDelim(s) then Some(("", s[3..]))
    else match CutDelim(s[1..]) case Some(r) => Some(([s[0]] + r.0, r.1)) case None => None
  }

  lemma {:induction false} CutDelimThere(a: string, b: string)
    requires '/' !in a
    ensures CutDelim(a + "://" + b) == Some((a, b))
    decreases |a|
  {
    var s := a + "://" + b;
    if a == "" {
      assert StartsDelim(s) && s[3..] == b;
    } else {
      assert s[1..] == a[1..] + "://" + b;
      assert |a| > 1 ==> s[1] == a[1] && a[1] in a;
      CutDelimThere(a[1..], b);
      assert [a[0]] + a[1..] == a;
    }
  }

  // ---- Queries -----------------------------------------------------------------------------------------

  type Query = map<string, string>

  /** One segment: a key, and after an equals sign its value. */
  function Segment(seg: string, m: Query): Result<Query> {
    var (key, val) := Cut(seg, '=');
    if key == "" then Fail(EmptyQueryKey)
    else match Decode(key)
      case Fail(e) => Fail(e)
      case Ok(k) =>
        (match Decode(if val.Some? then val.value else "")
         case Fail(e) => Fail(e)
         case Ok(v) => Ok(m[k := v]))
  }

  lemma {:induction false} CutShorter(s: string, c: char)
    ensures Cut(s, c).1.Some? ==> |Cut(s, c).1.value| < |s|
    ensures |Cut(s, c).0| <= |s|
  {
    if s != "" && s[0] != c { CutShorter(s[1..], c); }
  }

  /** Segments separated by ampersands, empty ones ignored, the last of a key winning. */
  function QueryOf(s: string, m: Query): Result<Query>
    decreases |s|
  {
    if s == "" then Ok(m)
    else
      CutShorter(s, '&');
      var (seg, rest) := Cut(s, '&');
      var r := if seg == "" then Ok(m) else Segment(seg, m);
      match r
      case Fail(e) => Fail(e)
      case Ok(m') => if rest.Some? then QueryOf(rest.value, m') else Ok(m')
  }

  method ParseSegment(seg: string, m: Query) returns (r: Result<Query>)
    ensures r == Segment(seg, m)
  {
    hide Cut, Decode;
    var eq := FindFrom(seg, '=', 0);
    CutFound(seg, '=', 0, eq);
    assert seg[0..] == seg && seg[0..eq] == seg[..eq];
    var key := seg[..eq];
    var val := if eq < |seg| then seg[eq + 1..] else "";
    if key == "" { return Fail(EmptyQueryKey); }
    var k := PercentDecode(key);
    if k.Fail? { return Fail(k.reason); }
    var v := PercentDecode(val);
    if v.Fail? { return Fail(v.reason); }
    return Ok(m[k.value := v.value]);
  }

  /** The query from `i` on, past its end included. */
  function QueryFrom(query: string, i: nat, m: Query): Result<Query> {
    QueryOf(if i <= |query| then query[i..] else "", m)
  }

  /** One segment of the query. */
  lemma QueryTurn(query: string, i: nat, end: nat, m: Query)
    requires i < |query| && i <= end <= |query| && (end < |query| ==> query[end] == '&')
    requires forall k :: i <= k < end ==> query[k] != '&'
    ensures var r := if i == end then Ok(m) else Segment(query[i..end], m);
            QueryFrom(query, i, m) == if r.Fail? then Fail(r.reason) else QueryFrom(query, end + 1, r.value)
  {
    CutFound(query, '&', i, end);
    hide Cut, Segment;
  }

  method ParseQuery(query: string) returns (r: Result<Query>)
    ensures r == QueryOf(query, map[])
  {
    hide QueryOf, Segment;
    var out: Query := map[];
    var i := 0;
    assert query[0..] == query;
    while i < |query|
      invariant 0 <= i && QueryFrom(query, 0, map[]) == QueryFrom(query, i, out)
    {
      var end := FindFrom(query, '&', i);
      QueryTurn(query, i, end, out);
      var seg := query[i..end];
      i := end + 1;
      if seg != "" {
        var more := ParseSegment(seg, out);
        if more.Fail? { return Fail(more.reason); }
        out := more.value;
      }
    }
    QueryEnds(query, i, out);
    return Ok(out);
  }

  lemma QueryEnds(query: string, i: nat, m: Query)
    requires i >= |query|
    ensures QueryFrom(query, i, m) == Ok(m)
  {
  }

  /** The position of the first `c` from `i` on, or the text's end. */
  method FindFrom(s: string, c: char, i: nat) returns (p: nat)
    requires i <= |s|
    ensures i <= p <= |s| && (p < |s| ==> s[p] == c) && forall k :: i <= k < p ==> s[k] != c
  {
    p := i;
    while p < |s| && s[p] != c
      invariant i <= p <= |s| && forall k :: i <= k < p ==> s[k] != c
    {
      p := p + 1;
    }
  }

  lemma CutFound(s: string, c: char, i: nat, p: nat)
    requires i <= p <= |s| && (p < |s| ==> s[p] == c) && forall k :: i <= k < p ==> s[k] != c
    ensures Cut(s[i..], c) == (s[i..p], if p < |s| then Some(s[p + 1..]) else None)
  {
    if p < |s| {
      assert s[i..] == s[i..p] + [c] + s[p + 1..];
      CutThere(s[i..p], c, s[p + 1..]);
    } else {
      assert s[i..] == s[i..p];
      CutNot(s[i..p], c);
    }
  }

  // ---- The parser ----------------------------------------------------------------------------------

  const FILE := "file"

  predicate IsValidScheme(s: string) {
    s != "" && forall i :: 0 <= i < |s| ==> !IsSpace(s[i]) && s[i] !in "/?#&="
  }

  function LowerCase(s: string): string { seq(|s|, i requires 0 <= i < |s| => Lower(s[i])) }

  /** The same letters, none of them a capital. */
  lemma LowerCaseIs(s: string)
    ensures Alike(LowerCase(s), s) && forall i :: 0 <= i < |s| ==> LowerCase(s)[i] !in CAPITAL
  {
    hide Lower, SameLetter, CAPITAL;
    forall i | 0 <= i < |s| ensures SameLetter(LowerCase(s)[i], s[i]) && LowerCase(s)[i] !in CAPITAL {
      LowerIsSmall(s[i]);
    }
  }

  /** Decodes the path, then the query if it is not empty. */
  function Finish(scheme: string, host: string, path: string, query: Option<string>): Result<Parsed> {
    match Decode(path)
    case Fail(e) => Fail(e)
    case Ok(p) =>
      if query.None? || query.value == "" then Ok(Parsed(scheme, host, p, map[]))
      else match QueryOf(query.value, map[])
        case Fail(e) => Fail(e)
        case Ok(q) => Ok(Parsed(scheme, host, p, q))
  }

  function ParseRest(scheme: string, rest: string): Result<Parsed> {
    var (place, query) := Cut(rest, '?');
    if scheme == FILE then
      if place == "" || place[0] != '/' then Fail(FileNotAbsolute) else Finish(scheme, "", place, query)
    else
      var (host, key) := Cut(place, '/');
      if host == "" then Fail(EmptyHost)
      else if key.None? || key.value == "" then Fail(EmptyKey)
      else Finish(scheme, host, key.value, query)
  }

  function Parse(uri: string): Result<Parsed> {
    if uri == "" then Fail(EmptyUri)
    else
      var (u, _) := Cut(uri, '#');
      if u == "" then Fail(EmptyAfterFragment)
      else if u[0] == '/' then
        var (path, query) := Cut(u, '?');
        Finish(FILE, "", path, query)
      else match CutDelim(u)
        case None => Fail(RelativePath)
        case Some((scheme, rest)) =>
          if scheme == "" then Fail(EmptyScheme)
          else if !IsValidScheme(scheme) then Fail(InvalidScheme)
          else ParseRest(LowerCase(scheme), rest)
  }

  // ---- Printing, and parsing what was printed ---------------------------------------------------------

  type Pairs = seq<(string, string)>

  predicate ArePairs(qs: Pairs) {
    forall i :: 0 <= i < |qs| ==> qs[i].0 != "" && IsBytes(qs[i].0) && IsBytes(qs[i].1)
  }

  function PrintPair(q: (string, string)): string
    requires IsBytes(q.0) && IsBytes(q.1)
  {
    Encode(q.0, false) + "=" + Encode(q.1, false)
  }

  function PrintQuery(qs: Pairs): string
    requires ArePairs(qs)
  {
    if qs == [] then ""
    else if |qs| == 1 then PrintPair(qs[0])
    else PrintPair(qs[0]) + "&" + PrintQuery(qs[1..])
  }

  function Tail(qs: Pairs): string
    requires ArePairs(qs)
  {
    if qs == [] then "" else "?" + PrintQuery(qs)
  }

  /** Later pairs replace earlier ones of the same key. */
  function LastWins(qs: Pairs, m: Query): Query {
    if qs == [] then m else LastWins(qs[1..], m[qs[0].0 := qs[0].1])
  }

  lemma PairChars(q: (string, string))
    requires q.0 != "" && IsBytes(q.0) && IsBytes(q.1)
    ensures '&' !in PrintPair(q) && '#' !in PrintPair(q) && PrintPair(q) != ""
    ensures '=' !in Encode(q.0, false) && Encode(q.0, false) != ""
  {
    EncodedChars(q.0, false);
    EncodedChars(q.1, false);
  }

  lemma SegmentPrinted(q: (string, string), m: Query)
    requires q.0 != "" && IsBytes(q.0) && IsBytes(q.1)
    ensures Segment(PrintPair(q), m) == Ok(m[q.0 := q.1])
  {
    PairChars(q);
    CutThere(Encode(q.0, false), '=', Encode(q.1, false));
    DecodeEncode(q.0, false);
    DecodeEncode(q.1, false);
  }

  /** A printed query reads back, the last pair of a key winning. */
  lemma {:induction false} QueryPrinted(qs: Pairs, m: Query)
    requires ArePairs(qs)
    ensures QueryOf(PrintQuery(qs), m) == Ok(LastWins(qs, m))
    ensures '#' !in PrintQuery(qs) && (qs != [] ==> PrintQuery(qs) != "")
    decreases |qs|
  {
    if qs != [] {
      var q := qs[0];
      PairChars(q);
      SegmentPrinted(q, m);
      var m' := m[q.0 := q.1];
      QueryPrinted(qs[1..], m');
      if |qs| == 1 {
        CutNot(PrintPair(q), '&');
      } else {
        CutThere(PrintPair(q), '&', PrintQuery(qs[1..]));
      }
    }
  }

  /** Path and printed query come back. */
  lemma FinishPrinted(scheme: string, host: string, path: string, qs: Pairs)
    requires IsBytes(path) && ArePairs(qs)
    ensures Finish(scheme, host, Encode(path, true), if qs == [] then None else Some(PrintQuery(qs)))
              == Ok(Parsed(scheme, host, path, LastWins(qs, map[])))
  {
    DecodeEncode(path, true);
    QueryPrinted(qs, map[]);
  }

  lemma CutTail(place: string, qs: Pairs)
    requires '?' !in place && ArePairs(qs)
    ensures Cut(place + Tail(qs), '?') == (place, if qs == [] then None else Some(PrintQuery(qs)))
  {
    if qs == [] {
      assert place + "" == place;
      CutNot(place, '?');
    } else {
      assert place + Tail(qs) == place + ['?'] + PrintQuery(qs);
      CutThere(place, '?', PrintQuery(qs));
    }
  }

  lemma PathChars(path: string)
    requires IsBytes(path)
    ensures '?' !in Encode(path, true) && '#' !in Encode(path, true)
  {
    EncodedChars(path, true);
  }

  lemma TailChars(qs: Pairs)
    requires ArePairs(qs)
    ensures '#' !in Tail(qs)
  {
    QueryPrinted(qs, map[]);
  }

  predicate IsHost(host: string) { host != "" && '/' !in host && '?' !in host && '#' !in host }

  function PrintObject(scheme: string, host: string, key: string, qs: Pairs): string
    requires IsBytes(key) && ArePairs(qs)
  {
    scheme + "://" + ((host + "/" + Encode(key, true)) + Tail(qs))
  }

  /** Every object URI reads back, its scheme in lower case: any scheme but file, any host, any
      key that is not empty (slashes in front and repeated ones included), any query pairs. */
  lemma ObjectRoundTrip(scheme: string, host: string, key: string, qs: Pairs)
    requires IsValidScheme(scheme) && LowerCase(scheme) != FILE && IsHost(host)
    requires key != "" && IsBytes(key) && ArePairs(qs)
    ensures Parse(PrintObject(scheme, host, key, qs)) == Ok(Parsed(LowerCase(scheme), host, key, LastWins(qs, map[])))
  {
    var k := Encode(key, true);
    var place := host + "/" + k;
    var rest := place + Tail(qs);
    PathChars(key);
    TailChars(qs);
    EncodedChars(key, true);
    PlaceRoundTrip(LowerCase(scheme), host, key, qs);
    SchemeChars(scheme);
    SchemeRoundTrip(scheme, rest);
    assert '#' !in place;
    assert '#' !in rest;
  }

  lemma PlaceRoundTrip(scheme: string, host: string, key: string, qs: Pairs)
    requires scheme != FILE && IsHost(host) && key != "" && IsBytes(key) && ArePairs(qs)
    ensures ParseRest(scheme, (host + "/" + Encode(key, true)) + Tail(qs)) ==
            Ok(Parsed(scheme, host, key, LastWins(qs, map[])))
  {
    var place := host + "/" + Encode(key, true);
    PathChars(key);
    EncodedChars(key, true);
    assert '?' !in place;
    CutTail(place, qs);
    CutThere(host, '/', Encode(key, true));
    FinishPrinted(scheme, host, key, qs);
  }

  lemma SchemeChars(scheme: string)
    requires IsValidScheme(scheme)
    ensures '/' !in scheme && '#' !in scheme && scheme != "" && scheme[0] != '/'
  {
    forall i | 0 <= i < |scheme| ensures scheme[i] != '/' && scheme[i] != '#' {
      assert scheme[i] !in "/?#&=";
      assert "/?#&="[0] == '/' && "/?#&="[2] == '#';
    }
  }

  /** A scheme in front is found, taken off and put into lower case. */
  lemma SchemeRoundTrip(scheme: string, rest: string)
    requires IsValidScheme(scheme) && '#' !in rest
    ensures Parse(scheme + "://" + rest) == ParseRest(LowerCase(scheme), rest)
  {
    var uri := scheme + "://" + rest;
    SchemeChars(scheme);
    assert '#' !in "://";
    assert '#' !in uri;
    CutNot(uri, '#');
    assert uri[0] == scheme[0];
    CutDelimThere(scheme, rest);
    hide ParseRest, IsValidScheme, LowerCase, Cut, CutDelim;
  }

  /** Absolute paths read back, with the file scheme in front, in any case, or without. */
  lemma FileRoundTrip(scheme: string, path: string, qs: Pairs)
    requires IsValidScheme(scheme) && LowerCase(scheme) == FILE
    requires path != "" && path[0] == '/' && IsBytes(path) && ArePairs(qs)
    ensures Parse(Encode(path, true) + Tail(qs)) == Ok(Parsed(FILE, "", path, LastWins(qs, map[])))
    ensures Parse(scheme + "://" + (Encode(path, true) + Tail(qs))) == Ok(Parsed(FILE, "", path, LastWins(qs, map[])))
  {
    var place := Encode(path, true);
    var uri := place + Tail(qs);
    PathChars(path);
    TailChars(qs);
    EncodedChars(path, true);
    assert '#' !in uri && uri[0] == '/';
    CutNot(uri, '#');
    CutTail(place, qs);
    FinishPrinted(FILE, "", path, qs);
    SchemeRoundTrip(scheme, uri);
    hide Finish, Cut, Encode, Tail;
  }

  lemma FileIsScheme()
    ensures IsValidScheme(FILE) && LowerCase(FILE) == FILE
  {
    assert LowerCase(FILE) == FILE;
  }

  /** Any query map can be listed, and its listing reads back as the map. */
  lemma {:induction false} AnyMapListed(m: Query) returns (qs: Pairs)
    requires forall k :: k in m ==> k != "" && IsBytes(k) && IsBytes(m[k])
    ensures ArePairs(qs) && LastWins(qs, map[]) == m
    ensures forall i :: 0 <= i < |qs| ==> qs[i].0 in m && m[qs[i].0] == qs[i].1
    decreases |m|
  {
    if m == map[] {
      qs := [];
    } else {
      var k :| k in m;
      var rest := m - {k};
      assert |rest| < |m|;
      var qs' := AnyMapListed(rest);
      qs := qs' + [(k, m[k])];
      LastWinsAppend(qs', (k, m[k]), map[]);
      assert m == rest[k := m[k]];
    }
  }

  lemma {:induction false} LastWinsAppend(qs: Pairs, q: (string, string), m: Query)
    ensures LastWins(qs + [q], m) == LastWins(qs, m)[q.0 := q.1]
    decreases |qs|
  {
    if qs == [] {
      assert qs + [q] == [q];
      assert LastWins([q][1..], m[q.0 := q.1]) == m[q.0 := q.1];
    } else {
      assert (qs + [q])[1..] == qs[1..] + [q];
      LastWinsAppend(qs[1..], q, m[qs[0].0 := qs[0].1]);
    }
  }
}
