/** What letter case and character classes mean to the rewriter, told from the alphabet, and
    that the case of letters decides nothing. */
module SqlLetters {
  import opened Ascii
  import opened Common
  import opened SqlRewrite
  import opened SqlScan
  import opened SqlSites

  // ---- Character classes ---------------------------------------------------------------

  /** A text starts with another exactly when each of its characters is there, letter case
      aside. */
  lemma StartsWithIff(s: string, p: string)
    ensures StartsWith(s, p) <==> |p| <= |s| && forall i :: 0 <= i < |p| ==> SameLetter(s[i], p[i])
  {
    hide Lower, SameLetter;
    forall i | 0 <= i < |p| && i < |s| ensures Lower(s[i]) == Lower(p[i]) <==> SameLetter(s[i], p[i]) {
      LowerIff(s[i], p[i]);
    }
  }

  lemma IsIdentIff(c: char)
    ensures IsIdent(c) <==> c in SMALL || c in CAPITAL || c in DIGITS || c == '_'
  {
    hide SMALL, CAPITAL, DIGITS;
    AlphabetAt(0);
    DigitAt(0);
    if i :| 0 <= i < 26 && c == SMALL[i] { AlphabetAt(i); }
    if i :| 0 <= i < 26 && c == CAPITAL[i] { AlphabetAt(i); }
    if i :| 0 <= i < 10 && c == DIGITS[i] { DigitAt(i); }
    if 'a' <= c <= 'z' { AlphabetAt(c as int - 'a' as int); }
    if 'A' <= c <= 'Z' { AlphabetAt(c as int - 'A' as int); }
    if '0' <= c <= '9' { DigitAt(c as int - '0' as int); }
  }

  /** Skipping stops at the first character that is no blank, having passed only blanks. */
  lemma {:induction false} SkipSpaceIs(s: string) returns (gap: string)
    ensures AllBlank(gap) && s == gap + SkipSpace(s)
    ensures SkipSpace(s) != "" ==> SkipSpace(s)[0] !in BLANKS
    decreases |s|
  {
    hide BLANKS, IsSpace, SkipSpace, AllBlank;
    SkipTurn(s);
    if s != "" && IsSpace(s[0]) {
      var more := SkipSpaceIs(s[1..]);
      gap := [s[0]] + more;
      BlankInFront(s[0], more);
      Rejoined(s, more, SkipSpace(s));
    } else {
      gap := "";
      NoBlanks();
    }
  }

  lemma SkipTurn(s: string)
    ensures SkipSpace(s) == if s != "" && IsSpace(s[0]) then SkipSpace(s[1..]) else s
    ensures s != "" && !IsSpace(s[0]) ==> s[0] !in BLANKS
  {
    if s != "" { IsSpaceIff(s[0]); }
    hide BLANKS;
  }

  lemma BlankInFront(c: char, s: string)
    requires IsSpace(c) && AllBlank(s)
    ensures AllBlank([c] + s)
  {
    IsSpaceIff(c);
    hide BLANKS;
  }

  lemma Rejoined(s: string, more: string, rest: string)
    requires s != "" && s[1..] == more + rest
    ensures s == [s[0]] + more + rest
  {
  }

  lemma NoBlanks()
    ensures AllBlank("")
  {
  }

  // ---- Letter case decides nothing -------------------------------------------------------

  /** A letter's other case is a letter; all other characters stand for themselves. */
  lemma SameClass(a: char, b: char)
    requires SameLetter(a, b)
    ensures IsIdent(a) <==> IsIdent(b)
    ensures IsSpace(a) <==> IsSpace(b)
    ensures IsLetter(a) <==> IsLetter(b)
    ensures !IsLetter(a) ==> a == b
    ensures Lower(a) == Lower(b)
  {
    hide Pair;
    PairIff(a, b);
    PairIff(b, a);
  }

  lemma {:induction false} AlikeSkip(s: string, t: string)
    requires Alike(s, t)
    ensures Alike(SkipSpace(s), SkipSpace(t))
  {
    hide SameLetter, IsSpace;
    if s != "" {
      SameClass(s[0], t[0]);
      if IsSpace(s[0]) {
        AlikeTail(s, t, 1);
        AlikeSkip(s[1..], t[1..]);
      }
    }
  }

  lemma AlikeStarts(s: string, t: string, p: string)
    requires Alike(s, t)
    ensures StartsWith(s, p) <==> StartsWith(t, p)
  {
    hide SameLetter, Lower;
    forall i | 0 <= i < |s| ensures Lower(s[i]) == Lower(t[i]) {
      SameClass(s[i], t[i]);
    }
  }

  predicate AlikeOptions(a: Option<string>, b: Option<string>) {
    match (a, b)
    case (Some(s), Some(t)) => Alike(s, t)
    case (None, None) => true
    case _ => false
  }

  lemma {:induction false} AlikeLiteral(s: string, t: string)
    requires Alike(s, t)
    ensures AlikeOptions(LiteralBody(s), LiteralBody(t))
    decreases |s|
  {
    hide SameLetter, Alike;
    if s == "" {
      AlikeLength(s, t);
    } else {
      AlikeAt(s, t, 0);
      if |s| > 1 { AlikeAt(s, t, 1); }
      if s[0] != '\'' {
        AlikeTail(s, t, 1);
        AlikeLiteral(s[1..], t[1..]);
        if LiteralBody(s[1..]).Some? {
          AlikeCons(s[0], t[0], LiteralBody(s[1..]).value, LiteralBody(t[1..]).value);
        }
      } else if |s| > 1 && s[1] == '\'' {
        AlikeTail(s, t, 2);
        AlikeLiteral(s[2..], t[2..]);
        if LiteralBody(s[2..]).Some? {
          AlikeCons('\'', '\'', LiteralBody(s[2..]).value, LiteralBody(t[2..]).value);
        }
      } else {
        AlikeSelf("");
      }
    }
  }

  /** What the scan can tell of two characters in the same place. */
  lemma AlikeAt(s: string, t: string, i: nat)
    requires Alike(s, t) && i < |s|
    ensures |s| == |t| && SameLetter(s[i], t[i]) && (IsIdent(s[i]) <==> IsIdent(t[i]))
    ensures IsLetter(s[i]) <==> IsLetter(t[i])
    ensures !IsLetter(s[i]) ==> s[i] == t[i]
  {
    SameClass(s[i], t[i]);
    hide SameLetter;
  }

  lemma AlikeOwns(s: string, t: string)
    requires Alike(s, t)
    ensures OwnsArguments(s) <==> OwnsArguments(t)
  {
    hide Alike, SameLetter, SkipSpace, LiteralBody, StartsWith;
    var u, x := SkipSpace(s), SkipSpace(t);
    AlikeSkip(s, t);
    AlikeLength(u, x);
    if u != "" {
      AlikeAt(u, x, 0);
      AlikeTail(u, x, 1);
      AlikeSkip(u[1..], x[1..]);
      ArgumentsAlike(SkipSpace(u[1..]), SkipSpace(x[1..]));
    }
  }

  lemma ArgumentsAlike(a: string, b: string)
    requires Alike(a, b)
    ensures a != "" <==> b != ""
    ensures a != "" ==> (a[0] == '\'' <==> b[0] == '\'')
    ensures a != "" ==>
              (LiteralBody(a[1..]).Some? && StartsWith(LiteralBody(a[1..]).value, SCHEME) <==>
               LiteralBody(b[1..]).Some? && StartsWith(LiteralBody(b[1..]).value, SCHEME))
  {
    hide Alike, SameLetter, LiteralBody, StartsWith;
    AlikeLength(a, b);
    if a != "" {
      AlikeAt(a, b, 0);
      AlikeTail(a, b, 1);
      AlikeLiteral(a[1..], b[1..]);
      if LiteralBody(a[1..]).Some? {
        AlikeStarts(LiteralBody(a[1..]).value, LiteralBody(b[1..]).value, SCHEME);
      }
    }
  }

  lemma AlikeIsCall(prev: bool, s: string, t: string)
    requires Alike(s, t)
    ensures IsCall(prev, s) <==> IsCall(prev, t)
  {
    hide Alike, SameLetter, StartsWith, OwnsArguments, IsIdent;
    AlikeLength(s, t);
    AlikeStarts(s, t, NAME);
    StartsLong(s, NAME);
    StartsLong(t, NAME);
    if |NAME| <= |s| {
      AlikeTail(s, t, |NAME|);
      AlikeOwns(s[|NAME|..], t[|NAME|..]);
      if |NAME| < |s| { AlikeAt(s, t, |NAME|); }
    }
  }

  lemma StartsLong(s: string, p: string)
    ensures StartsWith(s, p) ==> |p| <= |s|
  {
  }

  /** The scan takes the same turn. */
  lemma AlikeNext(prev: bool, s: string, t: string, m: Mode)
    requires s != "" && t != "" && Alike(s, t)
    ensures Next(prev, s, m) == Next(prev, t, m)
  {
    hide Alike, SameLetter, IsCall, IsIdent;
    AlikeIsCall(prev, s, t);
    AlikeAt(s, t, 0);
    if |s| > 1 { AlikeAt(s, t, 1); }
  }

  /** Texts that differ in letter case only have the same number of calls. */
  lemma {:induction false} AlikeCalls(prev: bool, s: string, t: string, m: Mode)
    requires Alike(s, t)
    ensures Calls(prev, s, m) == Calls(prev, t, m)
    decreases |s|
  {
    hide Alike, SameLetter, Next, IsIdent, IsCall, IsLetter, Calls;
    AlikeLength(s, t);
    CallsTurn(prev, s, m);
    CallsTurn(prev, t, m);
    if s != "" {
      AlikeNext(prev, s, t, m);
      var n := Next(prev, s, m);
      AlikeAt(s, t, n.read - 1);
      AlikeTail(s, t, n.read);
      AlikeCalls(IsIdent(s[n.read - 1]), s[n.read..], t[n.read..], n.mode);
    }
  }

  lemma CallsTurn(prev: bool, s: string, m: Mode)
    ensures Calls(prev, s, m) ==
            if s == "" then 0
            else
              var n := Next(prev, s, m);
              (if n.call then 1 else 0) + Calls(IsIdent(s[n.read - 1]), s[n.read..], n.mode)
  {
    hide Next, IsIdent, IsCall;
  }

  lemma {:induction false} AlikeLex(q: string, r: string, p: nat)
    requires Alike(q, r) && p <= |q|
    ensures p <= |r| && LexAt(q, p) == LexAt(r, p)
    decreases p
  {
    hide Alike, SameLetter;
    AlikeLength(q, r);
    if p > 0 {
      AlikeAt(q, r, p - 1);
      AlikeLex(q, r, p - 1);
    }
  }

  /** Texts that differ in letter case only have the same sites. */
  lemma AlikeSites(q: string, r: string, p: nat)
    requires Alike(q, r)
    ensures IsSite(q, p) <==> IsSite(r, p)
  {
    hide Alike, SameLetter, LexAt, IsCall, IsIdent;
    AlikeLength(q, r);
    if p < |q| {
      AlikeLex(q, r, p);
      AlikeAt(q, r, p);
      if p > 0 { AlikeAt(q, r, p - 1); }
      AlikeTail(q, r, p);
      AlikeIsCall(Preceded(q, p), q[p..], r[p..]);
    }
  }

  // ---- What a call looks like ----------------------------------------------------------------

  /** A call as it is written: the name, blanks, a parenthesis, blanks, a literal, and what
      follows. */
  datatype Written = Written(name: string, gap: string, inner: string, value: string, rest: string)

  function Text(w: Written): string { w.name + (w.gap + ("(" + (w.inner + ("'" + Quoted(w))))) }

  /** The value with its quotes doubled, the closing quote and what follows. */
  function Quoted(w: Written): string { Escaped(w.value) + ("'" + w.rest) }

  /** The name and the scheme are the right ones, letter case aside, and the literal ends
      where it is closed. */
  predicate Proper(w: Written) {
    && Alike(w.name, NAME) && AllBlank(w.gap) && AllBlank(w.inner)
    && |SCHEME| <= |w.value| && Alike(w.value[..|SCHEME|], SCHEME)
    && (w.rest == "" || w.rest[0] != '\'')
  }

  lemma {:induction false} SkipBlanks(gap: string, s: string)
    requires AllBlank(gap) && (s == "" || s[0] !in BLANKS)
    ensures SkipSpace(gap + s) == s
    decreases |gap|
  {
    hide BLANKS, IsSpace;
    if gap == "" {
      assert gap + s == s;
      if s != "" { IsSpaceIff(s[0]); }
    } else {
      IsSpaceIff(gap[0]);
      assert (gap + s)[1..] == gap[1..] + s;
      SkipBlanks(gap[1..], s);
    }
  }

  lemma {:induction false} EscapedFront(c: char, v: string)
    ensures Escaped([c] + v) == (if c == '\'' then "''" else [c]) + Escaped(v)
    decreases |v|
  {
    var n := |v| - 1;
    if v == "" {
      assert [c] + v == [c] && [c][..0] == "";
    } else {
      assert ([c] + v)[..|[c] + v| - 1] == [c] + v[..n];
      EscapedFront(c, v[..n]);
    }
  }

  /** A literal's body is the escaped value, up to the quote that closes it. */
  lemma {:induction false} BodyOfEscaped(v: string, rest: string)
    requires rest == "" || rest[0] != '\''
    ensures LiteralBody(Escaped(v) + ("'" + rest)) == Some(v)
    decreases |v|
  {
    hide Escaped, LiteralBody;
    if v == "" {
      EscapedNothing();
      assert "" + ("'" + rest) == "'" + rest;
      LiteralParts('x', rest);
    } else {
      var c, u := v[0], v[1..];
      var more := Escaped(u) + ("'" + rest);
      assert v == [c] + u;
      EscapedFront(c, u);
      BodyOfEscaped(u, rest);
      assert Escaped(v) + ("'" + rest) == (if c == '\'' then "''" else [c]) + more;
      LiteralParts(c, more);
    }
  }

  lemma {:induction false} EscapedOfBody(s: string) returns (rest: string)
    requires LiteralBody(s).Some?
    ensures s == Escaped(LiteralBody(s).value) + ("'" + rest) && (rest == "" || rest[0] != '\'')
    decreases |s|
  {
    hide Escaped;
    if s[0] != '\'' {
      rest := EscapedOfBody(s[1..]);
      EscapedFront(s[0], LiteralBody(s[1..]).value);
    } else if |s| > 1 && s[1] == '\'' {
      rest := EscapedOfBody(s[2..]);
      EscapedFront('\'', LiteralBody(s[2..]).value);
      assert s == "''" + s[2..];
    } else {
      rest := s[1..];
      EscapedNothing();
    }
  }

  lemma BlankNotIdent(c: char)
    requires c in BLANKS
    ensures !IsIdent(c)
  {
    IsSpaceIff(c);
    hide BLANKS;
  }

  lemma OpenIsNone()
    ensures '(' !in BLANKS && '\'' !in BLANKS && !IsIdent('(')
  {
    IsSpaceIff('(');
    IsSpaceIff('\'');
    hide BLANKS;
  }

  lemma AlikeStartsWith(s: string, p: string)
    ensures StartsWith(s, p) <==> |p| <= |s| && Alike(s[..Min(|p|, |s|)], p)
  {
    hide SameLetter;
    StartsWithIff(s, p);
    hide StartsWith;
  }

  /** The argument part of a written call. */
  lemma WrittenOwns(w: Written)
    requires Proper(w)
    ensures OwnsArguments(w.gap + ("(" + (w.inner + ("'" + Quoted(w)))))
  {
    hide BLANKS, SkipSpace, LiteralBody, StartsWith, Alike, AllBlank;
    var inside := w.inner + ("'" + Quoted(w));
    OpenIsNone();
    SkipBlanks(w.gap, "(" + inside);
    SkipBlanks(w.inner, "'" + Quoted(w));
    assert ("(" + inside)[1..] == inside && ("'" + Quoted(w))[1..] == Quoted(w);
    BodyOfEscaped(w.value, w.rest);
    AlikeStartsWith(w.value, SCHEME);
  }

  /** Every call written this way is one. */
  lemma WrittenIsCall(w: Written)
    requires Proper(w)
    ensures IsCall(false, Text(w))
  {
    hide BLANKS, StartsWith, OwnsArguments, Escaped, IsIdent, SameLetter;
    var tail := w.gap + ("(" + (w.inner + ("'" + Quoted(w))));
    var s := Text(w);
    assert s == w.name + tail && |w.name| == |NAME|;
    assert s[..|NAME|] == w.name && s[|NAME|..] == tail;
    AlikeStartsWith(s, NAME);
    WrittenOwns(w);
    OpenIsNone();
    assert s[|NAME|] == tail[0];
    if w.gap != "" {
      assert tail[0] == w.gap[0];
      BlankNotIdent(w.gap[0]);
    }
  }

  lemma OwnedIsWritten(name: string, y: string) returns (w: Written)
    requires Alike(name, NAME) && OwnsArguments(y)
    ensures Proper(w) && w.name == name && y == w.gap + ("(" + (w.inner + ("'" + Quoted(w))))
  {
    hide BLANKS, SkipSpace, LiteralBody, StartsWith, Alike, Escaped, AllBlank;
    var u := SkipSpace(y);
    var gap := SkipSpaceIs(y);
    var a := SkipSpace(u[1..]);
    var inner := SkipSpaceIs(u[1..]);
    var value := LiteralBody(a[1..]).value;
    var rest := EscapedOfBody(a[1..]);
    AlikeStartsWith(value, SCHEME);
    w := Written(name, gap, inner, value, rest);
    HeadTail(u);
    HeadTail(a);
  }

  lemma HeadTail(s: string)
    requires s != ""
    ensures s == [s[0]] + s[1..]
  {
  }

  /** And every call is written this way. */
  lemma CallIsWritten(s: string) returns (w: Written)
    requires IsCall(false, s)
    ensures Proper(w) && Text(w) == s
  {
    hide Alike, StartsWith, OwnsArguments, Escaped, IsIdent;
    AlikeStartsWith(s, NAME);
    w := OwnedIsWritten(s[..|NAME|], s[|NAME|..]);
    assert s == s[..|NAME|] + s[|NAME|..];
  }

  /** A call stands exactly where no identifier runs on and the text is that of a call, in
      whatever case its letters are. */
  lemma CallIff(prev: bool, s: string)
    ensures IsCall(prev, s) <==> !prev && exists w: Written :: Proper(w) && Text(w) == s
  {
    hide Proper, Text;
    if IsCall(prev, s) {
      var w := CallIsWritten(s);
    }
    if w: Written :| Proper(w) && Text(w) == s {
      WrittenIsCall(w);
    }
  }

  /** The name and the scheme in capitals are the ones looked for, and the new name is the old
      one with a prefix. */
  lemma NamesInCapitals()
    ensures Alike("READ_PARQUET", NAME) && Alike("S3://", SCHEME) && NEW_NAME == "sirius_" + NAME
  {
    hide SameLetter;
    AlikeText("READ_PARQUET", NAME);
    AlikeText("S3://", SCHEME);
  }

  /** Texts are alike when their lower cases are the same. */
  lemma AlikeText(s: string, t: string)
    requires |s| == |t| && forall i :: 0 <= i < |s| ==> Lower(s[i]) == Lower(t[i])
    ensures Alike(s, t)
  {
    hide SameLetter, Lower;
    forall i | 0 <= i < |s| ensures SameLetter(s[i], t[i]) { LowerIff(s[i], t[i]); }
  }
}
