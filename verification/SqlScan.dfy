/** The rewriter itself: one scan over the query with an index, four mode flags and a
    growing result. */
module SqlScan {
  import opened Ascii
  import opened Common
  import opened SqlRewrite
  import opened SqlSites

  method EqualsPrefix(value: string, prefix: string) returns (b: bool)
    ensures b == StartsWith(value, prefix)
  {
    if |value| < |prefix| { return false; }
    var i := 0;
    while i < |prefix|
      invariant 0 <= i <= |prefix| && forall j :: 0 <= j < i ==> Lower(value[j]) == Lower(prefix[j])
    {
      if Lower(value[i]) != Lower(prefix[i]) { return false; }
      i := i + 1;
    }
    return true;
  }

  method SkipWhitespace(text: string, pos: nat) returns (p: nat)
    requires pos <= |text|
    ensures pos <= p <= |text| && text[p..] == SkipSpace(text[pos..])
  {
    p := pos;
    while p < |text| && IsSpace(text[p])
      invariant pos <= p <= |text| && SkipSpace(text[p..]) == SkipSpace(text[pos..])
    {
      assert text[p..][1..] == text[p + 1..];
      p := p + 1;
    }
  }

  function Prepend(l: string, o: Option<string>): Option<string> {
    match o case Some(m) => Some(l + m) case None => None
  }

  lemma BodyStep(text: string, i: nat)
    requires i < |text|
    ensures LiteralBody(text[i..]) ==
              if text[i] != '\'' then Prepend([text[i]], LiteralBody(text[i + 1..]))
              else if i + 1 < |text| && text[i + 1] == '\'' then Prepend("'", LiteralBody(text[i + 2..]))
              else Some("")
  {
    assert text[i..][1..] == text[i + 1..];
    if i + 1 < |text| { assert text[i..][2..] == text[i + 2..]; }
  }

  lemma PrependNothing(o: Option<string>)
    ensures Prepend("", o) == o
  {
    if o.Some? { assert "" + o.value == o.value; }
  }

  lemma PrependTwice(a: string, b: string, o: Option<string>)
    ensures Prepend(a, Prepend(b, o)) == Prepend(a + b, o)
  {
    if o.Some? { assert a + (b + o.value) == (a + b) + o.value; }
  }

  /** A value as a literal writes it: every quote doubled. */
  function Escaped(value: string): string {
    if value == "" then ""
    else
      var n := |value| - 1;
      Escaped(value[..n]) + if value[n] == '\'' then "''" else [value[n]]
  }

  lemma EscapedNothing()
    ensures Escaped("") == ""
  {
  }

  lemma EscapedMore(value: string, c: char)
    ensures Escaped(value + [c]) == Escaped(value) + if c == '\'' then "''" else [c]
  {
    assert (value + [c])[..|value|] == value;
  }

  /** The literal's value and the position behind it: between the quotes stands the value,
      escaped, and no further quote follows. */
  method ParseLiteral(text: string, pos: nat) returns (r: Option<(string, nat)>)
    requires pos <= |text|
    ensures r.Some? <==> pos < |text| && text[pos] == '\'' && LiteralBody(text[pos + 1..]).Some?
    ensures r.Some? ==> LiteralBody(text[pos + 1..]) == Some(r.value.0)
    ensures r.Some? ==> pos + 2 <= r.value.1 <= |text| && text[r.value.1 - 1] == '\''
    ensures r.Some? ==> text[pos + 1..r.value.1 - 1] == Escaped(r.value.0)
    ensures r.Some? ==> r.value.1 == |text| || text[r.value.1] != '\''
  {
    hide Escaped;
    if pos >= |text| || text[pos] != '\'' { return None; }
    var literal: string := "";
    EscapedNothing();
    var i := pos + 1;
    PrependNothing(LiteralBody(text[i..]));
    while i < |text|
      invariant pos + 1 <= i <= |text|
      invariant LiteralBody(text[pos + 1..]) == Prepend(literal, LiteralBody(text[i..]))
      invariant text[pos + 1..i] == Escaped(literal)
    {
      EscapedMore(literal, text[i]);
      BodyStep(text, i);
      hide LiteralBody;
      if text[i] == '\'' {
        if i + 1 < |text| && text[i + 1] == '\'' {
          PrependTwice(literal, "'", LiteralBody(text[i + 2..]));
          literal := literal + "'";
          i := i + 2;
        } else {
          assert literal + "" == literal;
          return Some((literal, i + 1));
        }
      } else {
        PrependTwice(literal, [text[i]], LiteralBody(text[i + 1..]));
        literal := literal + [text[i]];
        i := i + 1;
      }
    }
    return None;
  }

  method ShouldRewrite(query: string, namePos: nat) returns (b: bool)
    requires namePos + |NAME| <= |query|
    ensures b == OwnsArguments(query[namePos + |NAME|..])
  {
    var pos := SkipWhitespace(query, namePos + |NAME|);
    if pos >= |query| || query[pos] != '(' { return false; }
    assert query[pos..][1..] == query[pos + 1..];
    pos := SkipWhitespace(query, pos + 1);
    if pos < |query| { assert query[pos..][1..] == query[pos + 1..]; }
    var literal := ParseLiteral(query, pos);
    if literal.None? { return false; }
    b := EqualsPrefix(literal.value.0, SCHEME);
  }

  method StartsCall(query: string, i: nat) returns (b: bool)
    requires i < |query|
    ensures b == IsCall(Preceded(query, i), query[i..])
  {
    var s := query[i..];
    if i != 0 && IsIdent(query[i - 1]) { return false; }
    var named := EqualsPrefix(s, NAME);
    if !named { return false; }
    assert i + |NAME| < |query| ==> s[|NAME|] == query[i + |NAME|];
    if i + |NAME| < |query| && IsIdent(query[i + |NAME|]) { return false; }
    b := ShouldRewrite(query, i);
    assert s[|NAME|..] == query[i + |NAME|..];
  }

  /** At most the flag of the mode is set. */
  ghost predicate OneMode(single: bool, double: bool, line: bool, block: bool, m: Mode) {
    single == (m == Single) && double == (m == Double) && line == (m == Line) && block == (m == Block)
  }

  /** One turn of the scan, seen from the whole query. */
  lemma TurnOf(query: string, i: nat, m: Mode)
    requires i < |query|
    ensures var n := Next(Preceded(query, i), query[i..], m);
            && i + n.read <= |query|
            && Rewrite(Preceded(query, i), query[i..], m) ==
                 (if n.call then NEW_NAME else query[i..i + n.read]) +
                   Rewrite(Preceded(query, i + n.read), query[i + n.read..], n.mode)
  {
    hide Rewrite, Next, IsCall, IsIdent, NEW_NAME, Preceded;
    var n := Next(Preceded(query, i), query[i..], m);
    RewriteTurn(Preceded(query, i), query[i..], m);
    Slices(query, i, n.read);
  }

  lemma RewriteTurn(prev: bool, s: string, m: Mode)
    requires s != ""
    ensures var n := Next(prev, s, m);
            Rewrite(prev, s, m) ==
              (if n.call then NEW_NAME else s[..n.read]) + Rewrite(IsIdent(s[n.read - 1]), s[n.read..], n.mode)
  {
    hide Next, IsIdent, NEW_NAME;
  }

  lemma Slices(query: string, i: nat, n: nat)
    requires 1 <= n && i + n <= |query|
    ensures query[i..][n..] == query[i + n..] && query[i..][..n] == query[i..i + n]
    ensures IsIdent(query[i..][n - 1]) == Preceded(query, i + n)
  {
    hide IsIdent;
  }

  lemma Ends(query: string, m: Mode)
    ensures Rewrite(Preceded(query, 0), query[0..], Code) == Rewritten(query)
    ensures Rewrite(Preceded(query, |query|), query[|query|..], m) == ""
  {
    assert query[0..] == query;
  }

  method RewriteCalls(query: string) returns (rewritten: string)
    ensures rewritten == Rewritten(query)
  {
    hide Rewrite, Next, Preceded, IsCall, IsIdent;
    rewritten := "";
    var single, double, line, block := false, false, false, false;
    var i := 0;
    ghost var m := Code;
    Ends(query, m);
    assert "" + Rewritten(query) == Rewritten(query);
    while i < |query|
      invariant 0 <= i <= |query|
      invariant OneMode(single, double, line, block, m)
      invariant rewritten + Rewrite(Preceded(query, i), query[i..], m) == Rewritten(query)
    {
      ghost var n := Next(Preceded(query, i), query[i..], m);
      TurnOf(query, i, m);
      var piece: string;
      i, piece, single, double, line, block := TakeTurn(query, i, single, double, line, block, m);
      ghost var rest := Rewrite(Preceded(query, i), query[i..], n.mode);
      assert rewritten + (piece + rest) == (rewritten + piece) + rest;
      rewritten := rewritten + piece;
      m := n.mode;
    }
    Ends(query, m);
  }

  /** The body of the scan's loop: what it appends, where it goes on and in which mode. */
  method TakeTurn(query: string, i0: nat, single0: bool, double0: bool, line0: bool, block0: bool, ghost m: Mode)
    returns (i: nat, piece: string, single: bool, double: bool, line: bool, block: bool)
    requires i0 < |query| && OneMode(single0, double0, line0, block0, m)
    ensures var n := Next(Preceded(query, i0), query[i0..], m);
            && i == i0 + n.read <= |query| && OneMode(single, double, line, block, n.mode)
            && piece == if n.call then NEW_NAME else query[i0..i]
  {
    i, single, double, line, block := i0, single0, double0, line0, block0;
    ghost var s := query[i..];
    assert forall x :: Followed(s, x) <==> i + 1 < |query| && query[i + 1] == x;
    var c := query[i];
    piece := [c];
    assert query[i..i + 1] == [c];
    assert i + 1 < |query| ==> query[i..i + 2] == [c, query[i + 1]];
    if line {
      if c == '\n' { line := false; }
      i := i + 1;
    } else if block {
      if c == '*' && i + 1 < |query| && query[i + 1] == '/' {
        piece := [c, '/'];
        i := i + 2;
        block := false;
      } else {
        i := i + 1;
      }
    } else if single {
      if c == '\'' && i + 1 < |query| && query[i + 1] == '\'' {
        piece := [c, '\''];
        i := i + 2;
      } else {
        if c == '\'' { single := false; }
        i := i + 1;
      }
    } else if double {
      if c == '"' && i + 1 < |query| && query[i + 1] == '"' {
        piece := [c, '"'];
        i := i + 2;
      } else {
        if c == '"' { double := false; }
        i := i + 1;
      }
    } else if c == '-' && i + 1 < |query| && query[i + 1] == '-' {
      piece := "--";
      i := i + 2;
      line := true;
    } else if c == '/' && i + 1 < |query| && query[i + 1] == '*' {
      piece := "/*";
      i := i + 2;
      block := true;
    } else if c == '\'' {
      i := i + 1;
      single := true;
    } else if c == '"' {
      i := i + 1;
      double := true;
    } else {
      var call := StartsCall(query, i);
      if call {
        piece := NEW_NAME;
        i := i + |NAME|;
      } else {
        i := i + 1;
      }
    }
  }

  /** A query refers to such a call exactly when it has a site. */
  method ReferencesCalls(query: string) returns (b: bool)
    ensures b <==> exists p: nat :: IsSite(query, p)
  {
    var rewritten := RewriteCalls(query);
    b := rewritten != query;
    RewrittenIsSplice(query);
    ChangesIffSite(query);
  }

  lemma {:induction false} NoSiteCopies(q: string, i: nat)
    requires i <= |q| && forall p: nat :: i <= p ==> !IsSite(q, p)
    ensures Splice(q, i) == q[i..]
    decreases |q| - i
  {
    if i < |q| {
      NoSiteCopies(q, i + 1);
      assert q[i..] == [q[i]] + q[i + 1..];
    }
  }

  lemma {:induction false} SpliceNotShorter(q: string, i: nat)
    requires i <= |q|
    ensures |Splice(q, i)| >= |q| - i
    decreases |q| - i
  {
    if i < |q| {
      SpliceNotShorter(q, if IsSite(q, i) then i + |NAME| else i + 1);
    }
  }

  /** Up to the first site nothing changes, and the site makes the result longer. */
  lemma {:induction false} SiteLengthens(q: string, i: nat, p: nat)
    requires i <= p && IsSite(q, p)
    requires forall j: nat :: i <= j < p ==> !IsSite(q, j)
    ensures |Splice(q, i)| > |q| - i
    decreases p - i
  {
    if i < p {
      SiteLengthens(q, i + 1, p);
    } else {
      SpliceNotShorter(q, i + |NAME|);
    }
  }

  lemma ChangesIffSite(q: string)
    ensures Splice(q, 0) != q <==> exists p: nat :: IsSite(q, p)
  {
    if exists p: nat :: IsSite(q, p) {
      var p: nat :| IsSite(q, p);
      var first := FirstSite(q, p);
      SiteLengthens(q, 0, first);
    } else {
      NoSiteCopies(q, 0);
      assert q[0..] == q;
    }
  }

  lemma {:induction false} FirstSite(q: string, p: nat) returns (first: nat)
    requires IsSite(q, p)
    ensures IsSite(q, first) && forall j: nat :: j < first ==> !IsSite(q, j)
    decreases p
  {
    if exists j: nat :: j < p && IsSite(q, j) {
      var j: nat :| j < p && IsSite(q, j);
      first := FirstSite(q, j);
    } else {
      first := p;
    }
  }
}
