/** Which texts the URI parser refuses and why, and what escapes in any spelling mean. */
module UriForms {
  import opened Ascii
  import opened Common
  import opened UriParser

  // ---- Percent-encoding -----------------------------------------------------------------

  const HEX_SMALL := "0123456789abcdef"
  const HEX_CAPITAL := "0123456789ABCDEF"

  /** `c` is the hexadecimal digit of value `k`, in either case. */
  predicate IsHexDigit(c: char, k: nat) { k < 16 && (c == HEX_SMALL[k] || c == HEX_CAPITAL[k]) }

  ghost predicate IsHex(c: char) { exists k: nat :: IsHexDigit(c, k) }

  lemma HexAt(k: nat)
    requires k < 16
    ensures |HEX_SMALL| == |HEX_CAPITAL| == 16
    ensures HEX_SMALL[k] as int == if k < 10 then '0' as int + k else 'a' as int + (k - 10)
    ensures HEX_CAPITAL[k] as int == if k < 10 then '0' as int + k else 'A' as int + (k - 10)
  {
  }

  /** A character has a digit's value exactly when it is that digit, in either case. */
  lemma HexValueIff(c: char, k: nat)
    requires k < 16
    ensures HexValue(c) == k <==> IsHexDigit(c, k)
  {
    HexAt(k);
    hide HEX_SMALL, HEX_CAPITAL;
  }

  lemma NoHexValueIff(c: char)
    ensures -1 <= HexValue(c) < 16 && (HexValue(c) == -1 <==> !IsHex(c)) && (IsHex(c) ==> c != '%')
  {
    hide IsHexDigit;
    if HexValue(c) >= 0 { HexValueIff(c, HexValue(c)); }
    if k: nat :| IsHexDigit(c, k) {
      DigitBelow(c, k);
      HexValueIff(c, k);
    }
  }

  lemma DigitBelow(c: char, k: nat)
    requires IsHexDigit(c, k)
    ensures k < 16
  {
  }

  /** A percent sign without two hexadecimal digits behind it. */
  ghost predicate Bad(s: string, i: nat) {
    i < |s| && s[i] == '%' && !(i + 2 < |s| && IsHex(s[i + 1]) && IsHex(s[i + 2]))
  }

  lemma BadLater(s: string, n: nat, i: nat)
    requires n <= |s|
    ensures Bad(s[n..], i) <==> Bad(s, n + i)
  {
    hide IsHex;
  }

  /** Decoding succeeds exactly when every percent sign starts an escape. */
  lemma {:induction false} DecodeOkIff(s: string)
    ensures Decode(s).Ok? <==> forall i: nat :: !Bad(s, i)
    decreases |s|
  {
    if Decode(s).Fail? {
      var i := DecodeFails(s);
    } else {
      DecodeSucceeds(s);
    }
  }

  lemma {:induction false} DecodeSucceeds(s: string)
    requires Decode(s).Ok?
    ensures forall i: nat :: !Bad(s, i)
    decreases |s|
  {
    hide IsHex, HexValue;
    if s != "" {
      var n := if s[0] == '%' then 3 else 1;
      if s[0] == '%' { NoHexValueIff(s[1]); NoHexValueIff(s[2]); }
      DecodeSucceeds(s[n..]);
      forall i: nat ensures !Bad(s, i) {
        if i >= n { BadLater(s, n, i - n); }
      }
    }
  }

  /** The first percent sign that starts no escape decides the error. */
  lemma {:induction false} DecodeFails(s: string) returns (i: nat)
    requires Decode(s).Fail?
    ensures Bad(s, i) && forall j: nat :: j < i ==> !Bad(s, j)
    ensures Decode(s) == Fail(if i + 2 >= |s| then Truncated else Malformed)
    decreases |s|
  {
    hide IsHex, HexValue;
    if s[0] == '%' && |s| >= 3 { NoHexValueIff(s[1]); NoHexValueIff(s[2]); }
    if s[0] == '%' && (|s| < 3 || HexValue(s[1]) < 0 || HexValue(s[2]) < 0) {
      i := 0;
    } else {
      var n := if s[0] == '%' then 3 else 1;
      var k := DecodeFails(s[n..]);
      i := n + k;
      BadLater(s, n, k);
      forall j: nat | j < i ensures !Bad(s, j) {
        if j >= n { BadLater(s, n, j - n); }
      }
    }
  }

  /** A character as it is written: itself, or an escape of two digits in either case. */
  datatype Piece = Itself(c: char) | Escape(hi: char, lo: char, h: nat, l: nat)

  predicate IsPiece(p: Piece) {
    match p
    case Itself(c) => c != '%'
    case Escape(hi, lo, h, l) => IsHexDigit(hi, h) && IsHexDigit(lo, l)
  }

  function Spelling(p: Piece): string {
    match p case Itself(c) => [c] case Escape(hi, lo, _, _) => ['%', hi, lo]
  }

  function Meaning(p: Piece): char
    requires IsPiece(p)
  {
    match p case Itself(c) => c case Escape(_, _, h, l) => (16 * h + l) as char
  }

  function Spelled(ps: seq<Piece>): string {
    if ps == [] then "" else Spelling(ps[0]) + Spelled(ps[1..])
  }

  function Meant(ps: seq<Piece>): string
    requires forall i :: 0 <= i < |ps| ==> IsPiece(ps[i])
  {
    if ps == [] then "" else [Meaning(ps[0])] + Meant(ps[1..])
  }

  /** A text decodes to what its characters and escapes mean, however they are spelled. */
  lemma {:induction false} DecodeSpelled(ps: seq<Piece>)
    requires forall i :: 0 <= i < |ps| ==> IsPiece(ps[i])
    ensures Decode(Spelled(ps)) == Ok(Meant(ps))
    decreases |ps|
  {
    hide IsHexDigit, HexValue;
    if ps != [] {
      var p, rest := ps[0], Spelled(ps[1..]);
      DecodeSpelled(ps[1..]);
      var s := Spelling(p) + rest;
      if p.Itself? {
        assert s[1..] == rest;
      } else {
        DigitBelow(p.hi, p.h);
        DigitBelow(p.lo, p.l);
        HexValueIff(p.hi, p.h);
        HexValueIff(p.lo, p.l);
        assert s[0] == '%' && s[1] == p.hi && s[2] == p.lo && s[3..] == rest;
      }
    }
  }

  // ---- Schemes -------------------------------------------------------------------------------

  /** A scheme may hold anything but blanks and five delimiters. */
  lemma ValidSchemeIff(s: string)
    ensures IsValidScheme(s) <==>
            s != "" && forall i :: 0 <= i < |s| ==>
              s[i] !in BLANKS && s[i] != '/' && s[i] != '?' && s[i] != '#' && s[i] != '&' && s[i] != '='
  {
    hide BLANKS, IsSpace;
    forall i | 0 <= i < |s| ensures IsSpace(s[i]) <==> s[i] in BLANKS {
      IsSpaceIff(s[i]);
    }
    var d := "/?#&=";
    assert d[0] == '/' && d[1] == '?' && d[2] == '#' && d[3] == '&' && d[4] == '=';
    assert forall c :: c in d <==> c == '/' || c == '?' || c == '#' || c == '&' || c == '=';
  }

  /** The case of the scheme's letters decides nothing. */
  lemma SchemeAnyCase(scheme: string, other: string, rest: string)
    requires Alike(scheme, other) && IsValidScheme(scheme) && IsValidScheme(other) && '#' !in rest
    ensures Parse(scheme + "://" + rest) == Parse(other + "://" + rest)
  {
    SchemeRoundTrip(scheme, rest);
    SchemeRoundTrip(other, rest);
    hide Parse, ParseRest, SameLetter, Lower, IsValidScheme;
    forall i | 0 <= i < |scheme| ensures Lower(scheme[i]) == Lower(other[i]) {
      LowerIff(scheme[i], other[i]);
    }
    assert LowerCase(scheme) == LowerCase(other);
  }

  /** A scheme in front is refused exactly when it is empty or not a valid one. */
  lemma SchemeRefused(scheme: string, rest: string)
    requires scheme != "" && '/' !in scheme && '#' !in scheme && '#' !in rest
    ensures Parse(scheme + "://" + rest) == Fail(InvalidScheme) <==> !IsValidScheme(scheme)
  {
    hide Cut, CutDelim, ParseRest, IsValidScheme, LowerCase;
    var uri := scheme + "://" + rest;
    assert '#' !in "://";
    assert '#' !in uri;
    CutNot(uri, '#');
    assert uri[0] == scheme[0];
    CutDelimThere(scheme, rest);
    RestReasons(LowerCase(scheme), rest);
  }

  // ---- Refused texts ---------------------------------------------------------------------------

  /** The text holds no "://". */
  ghost predicate NoDelim(s: string) { forall i :: 0 <= i <= |s| ==> !StartsDelim(s[i..]) }

  lemma {:induction false} CutDelimNot(s: string)
    ensures CutDelim(s).None? <==> NoDelim(s)
    decreases |s|
  {
    if s == "" {
      assert s[0..] == s;
    } else {
      CutDelimNot(s[1..]);
      assert s[0..] == s;
      if NoDelim(s) {
        forall i | 0 <= i <= |s[1..]| ensures !StartsDelim(s[1..][i..]) {
          assert s[1..][i..] == s[i + 1..];
        }
      }
      if NoDelim(s[1..]) && !StartsDelim(s) {
        forall i | 0 <= i <= |s| ensures !StartsDelim(s[i..]) {
          if i > 0 { assert s[i..] == s[1..][i - 1..]; }
        }
      }
    }
  }

  /** What follows a number sign is dropped; nothing before it is an error. */
  lemma FragmentDropped(uri: string, fragment: string)
    requires '#' !in uri
    ensures uri != "" ==> Parse(uri + "#" + fragment) == Parse(uri)
    ensures Parse("#" + fragment) == Fail(EmptyAfterFragment) && Parse("") == Fail(EmptyUri)
  {
    CutThere(uri, '#', fragment);
    CutThere("", '#', fragment);
    assert "" + ['#'] + fragment == "#" + fragment;
    CutNot(uri, '#');
    hide CutDelim, ParseRest, Finish, Cut;
  }

  /** Escapes are truncated or malformed, nothing else. */
  predicate EscapeError(r: Reason) { r == Truncated || r == Malformed }

  lemma DecodeReasons(s: string)
    ensures Decode(s).Fail? ==> EscapeError(Decode(s).reason)
  {
    if Decode(s).Fail? { var i := DecodeFails(s); }
    hide Decode;
  }

  lemma SegmentReasons(seg: string, m: Query)
    ensures Segment(seg, m).Fail? ==> EscapeError(Segment(seg, m).reason) || Segment(seg, m).reason == EmptyQueryKey
  {
    var (key, val) := Cut(seg, '=');
    DecodeReasons(key);
    DecodeReasons(if val.Some? then val.value else "");
    hide Decode, Cut;
  }

  lemma {:induction false} QueryReasons(s: string, m: Query)
    ensures QueryOf(s, m).Fail? ==> EscapeError(QueryOf(s, m).reason) || QueryOf(s, m).reason == EmptyQueryKey
    decreases |s|
  {
    hide Segment, Cut;
    if s != "" {
      CutShorter(s, '&');
      var (seg, rest) := Cut(s, '&');
      SegmentReasons(seg, m);
      var r := if seg == "" then Ok(m) else Segment(seg, m);
      if r.Ok? && rest.Some? { QueryReasons(rest.value, r.value); }
    }
  }

  lemma FinishReasons(scheme: string, host: string, path: string, query: Option<string>)
    ensures var r := Finish(scheme, host, path, query);
            r.Fail? ==> EscapeError(r.reason) || r.reason == EmptyQueryKey
  {
    DecodeReasons(path);
    if query.Some? { QueryReasons(query.value, map[]); }
    hide Decode, QueryOf;
  }

  /** A text that is no absolute path is refused as a relative path exactly when it holds no
      "://", and for its empty scheme exactly when it starts with that. */
  lemma RelativeRefused(uri: string)
    requires uri != "" && '#' !in uri && uri[0] != '/'
    ensures Parse(uri) == Fail(RelativePath) <==> NoDelim(uri)
    ensures Parse(uri) == Fail(EmptyScheme) <==> StartsDelim(uri)
  {
    hide Cut, ParseRest, Finish;
    CutNot(uri, '#');
    CutDelimNot(uri);
    var d := CutDelim(uri);
    if d.Some? {
      RestReasons(LowerCase(d.value.0), d.value.1);
      DelimFirst(uri);
    }
  }

  lemma DelimFirst(s: string)
    requires CutDelim(s).Some?
    ensures CutDelim(s).value.0 == "" <==> StartsDelim(s)
  {
  }

  /** Behind the scheme only the place, escapes and query keys can be wrong. */
  lemma RestReasons(scheme: string, rest: string)
    ensures var r := ParseRest(scheme, rest);
            r.Fail? ==>
              || r.reason == FileNotAbsolute || r.reason == EmptyHost || r.reason == EmptyKey
              || r.reason == EmptyQueryKey || EscapeError(r.reason)
  {
    hide Cut, Finish;
    var (place, query) := Cut(rest, '?');
    FinishReasons(scheme, "", place, query);
    var (host, key) := Cut(place, '/');
    if key.Some? { FinishReasons(scheme, host, key.value, query); }
  }

  /** A place and what follows it: nothing, or a question mark and a query. */
  predicate IsTail(tail: string) { tail == "" || (tail[0] == '?' && '#' !in tail) }

  lemma CutPlace(place: string, tail: string) returns (query: Option<string>)
    requires '?' !in place && IsTail(tail)
    ensures Cut(place + tail, '?') == (place, query)
  {
    if tail == "" {
      assert place + tail == place;
      CutNot(place, '?');
      query := None;
    } else {
      assert place + tail == place + ['?'] + tail[1..];
      CutThere(place, '?', tail[1..]);
      query := Some(tail[1..]);
    }
  }

  /** A file URI is refused for its path exactly when that is not absolute. */
  lemma FileRefused(scheme: string, place: string, tail: string)
    requires IsValidScheme(scheme) && LowerCase(scheme) == FILE
    requires '?' !in place && '#' !in place && IsTail(tail)
    ensures Parse(scheme + "://" + (place + tail)) == Fail(FileNotAbsolute) <==> place == "" || place[0] != '/'
  {
    hide Cut, Finish, Parse, IsValidScheme;
    SchemeRoundTrip(scheme, place + tail);
    var query := CutPlace(place, tail);
    FinishReasons(FILE, "", place, query);
  }

  /** An object URI is refused for its host exactly when that is empty, and for its key
      exactly when nothing follows the slash behind the host, or no slash does. */
  lemma ObjectRefused(scheme: string, place: string, tail: string)
    requires IsValidScheme(scheme) && LowerCase(scheme) != FILE
    requires '?' !in place && '#' !in place && IsTail(tail)
    ensures Parse(scheme + "://" + (place + tail)) == Fail(EmptyHost) <==> place == "" || place[0] == '/'
    ensures Parse(scheme + "://" + (place + tail)) == Fail(EmptyKey) <==>
            place != "" && place[0] != '/' && forall i :: 0 <= i < |place| - 1 ==> place[i] != '/'
  {
    hide Cut, Finish, Parse, IsValidScheme;
    SchemeRoundTrip(scheme, place + tail);
    var query := CutPlace(place, tail);
    var (host, key) := Cut(place, '/');
    KeyEmptyIff(place);
    if key.Some? { FinishReasons(LowerCase(scheme), host, key.value, query); }
  }

  lemma KeyEmptyIff(place: string)
    ensures var (host, key) := Cut(place, '/');
            && (host == "" <==> place == "" || place[0] == '/')
            && (key.None? || key.value == "" <==> forall i :: 0 <= i < |place| - 1 ==> place[i] != '/')
  {
    hide Cut;
    CutParts(place, '/');
    var (host, key) := Cut(place, '/');
    assert forall i :: 0 <= i < |host| ==> place[i] == host[i];
    if key.Some? {
      assert place[|host|] == '/';
    }
  }

  lemma {:induction false} CutParts(s: string, c: char)
    ensures var (a, b) := Cut(s, c);
            c !in a && if b.Some? then s == a + [c] + b.value else s == a
  {
    if s != "" && s[0] != c { CutParts(s[1..], c); }
  }

  // ---- Queries --------------------------------------------------------------------------------

  /** Empty segments are ignored, a key without a value has the empty one, and a value needs
      a key. */
  lemma QueryForms(key: string, val: string, rest: string, m: Query)
    requires key != "" && IsBytes(key) && '&' !in val
    ensures QueryOf("&" + rest, m) == QueryOf(rest, m)
    ensures QueryOf(Encode(key, false), m) == Ok(m[key := ""])
    ensures QueryOf(Encode(key, false) + "=", m) == Ok(m[key := ""])
    ensures QueryOf("=" + val, m) == Fail(EmptyQueryKey)
  {
    hide Decode, Encode, Cut;
    EmptySegment(rest, m);
    LoneKey(key, m);
    NoKey(val, m);
  }

  lemma EmptySegment(rest: string, m: Query)
    ensures QueryOf("&" + rest, m) == QueryOf(rest, m)
  {
    assert ("&" + rest)[1..] == rest;
  }

  lemma NoKey(val: string, m: Query)
    requires '&' !in val
    ensures QueryOf("=" + val, m) == Fail(EmptyQueryKey)
  {
    CutNot("=" + val, '&');
    hide Decode;
  }

  lemma LoneKey(key: string, m: Query)
    requires key != "" && IsBytes(key)
    ensures QueryOf(Encode(key, false), m) == Ok(m[key := ""])
    ensures QueryOf(Encode(key, false) + "=", m) == Ok(m[key := ""])
  {
    var k := Encode(key, false);
    EncodedChars(key, false);
    CutNot(k, '&');
    CutNot(k, '=');
    CutNot(k + "=", '&');
    assert k + "=" == k + ['='] + "";
    CutThere(k, '=', "");
    DecodeEncode(key, false);
    assert Decode("") == Ok("");
    hide Decode, Cut, Encode;
  }
}
