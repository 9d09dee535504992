/** The rewriting of remote parquet calls in a query text. The scan is defined on the text
    still to be read and on whether an identifier character precedes it. Characters are
    bytes and are classified as in the C locale. */
module SqlRewrite {
  import opened Ascii
  import opened Common

  const NAME := "read_parquet"
  const NEW_NAME := "sirius_read_parquet"
  const SCHEME := "s3://"

  predicate IsIdent(c: char) { 'a' <= c <= 'z' || 'A' <= c <= 'Z' || '0' <= c <= '9' || c == '_' }

  predicate StartsWith(s: string, p: string) {
    |p| <= |s| && forall i :: 0 <= i < |p| ==> Lower(s[i]) == Lower(p[i])
  }

  function SkipSpace(s: string): string {
    if s != "" && IsSpace(s[0]) then SkipSpace(s[1..]) else s
  }

  /** The value of a quoted literal whose opening quote was read; None if it is not closed. */
  function LiteralBody(s: string): Option<string> {
    if s == "" then None
    else if s[0] != '\'' then (match LiteralBody(s[1..]) case Some(l) => Some([s[0]] + l) case None => None)
    else if |s| > 1 && s[1] == '\'' then (match LiteralBody(s[2..]) case Some(l) => Some("'" + l) case None => None)
    else Some("")
  }

  /** The text after the name is a call whose first argument is a literal of the scheme. */
  predicate OwnsArguments(s: string) {
    var u := SkipSpace(s);
    && u != "" && u[0] == '('
    && var a := SkipSpace(u[1..]);
       a != "" && a[0] == '\'' && LiteralBody(a[1..]).Some? && StartsWith(LiteralBody(a[1..]).value, SCHEME)
  }

  predicate IsCall(prev: bool, s: string) {
    !prev && StartsWith(s, NAME) && (|s| == |NAME| || !IsIdent(s[|NAME|])) && OwnsArguments(s[|NAME|..])
  }

  datatype Mode = Code | Single | Double | Line | Block

  /** One turn of the scan: how much it reads, the mode after it, and whether that was a
      call's name. */
  datatype Turn = Turn(read: nat, mode: Mode, call: bool)

  predicate Followed(s: string, c: char) { |s| > 1 && s[1] == c }

  function Next(prev: bool, s: string, m: Mode): (t: Turn)
    requires s != ""
    ensures 1 <= t.read <= |s| && (t.call <==> m == Code && IsCall(prev, s)) &&
            (t.call ==> t.read == |NAME| && t.mode == Code)
  {
    var c := s[0];
    match m
    case Line => Turn(1, if c == '\n' then Code else Line, false)
    case Block => if c == '*' && Followed(s, '/') then Turn(2, Code, false) else Turn(1, Block, false)
    case Single =>
      if c == '\'' then if Followed(s, '\'') then Turn(2, Single, false) else Turn(1, Code, false)
        else Turn(1, Single, false)
    case Double =>
      if c == '"' then if Followed(s, '"') then Turn(2, Double, false) else Turn(1, Code, false)
        else Turn(1, Double, false)
    case Code =>
      if c == '-' && Followed(s, '-') then Turn(2, Line, false)
      else if c == '/' && Followed(s, '*') then Turn(2, Block, false)
      else if c == '\'' then Turn(1, Single, false)
      else if c == '"' then Turn(1, Double, false)
      else if IsCall(prev, s) then Turn(|NAME|, Code, true)
      else Turn(1, Code, false)
  }

  function Rewrite(prev: bool, s: string, m: Mode): string
    decreases |s|
  {
    if s == "" then ""
    else
      var t := Next(prev, s, m);
      (if t.call then NEW_NAME else s[..t.read]) + Rewrite(IsIdent(s[t.read - 1]), s[t.read..], t.mode)
  }

  function Rewritten(query: string): string { Rewrite(false, query, Code) }

  function Calls(prev: bool, s: string, m: Mode): nat
    decreases |s|
  {
    if s == "" then 0
    else
      var t := Next(prev, s, m);
      (if t.call then 1 else 0) + Calls(IsIdent(s[t.read - 1]), s[t.read..], t.mode)
  }

  /** Seven characters per call. */
  lemma {:induction false} RewriteLength(prev: bool, s: string, m: Mode)
    ensures |Rewrite(prev, s, m)| == |s| + 7 * Calls(prev, s, m)
    decreases |s|
  {
    hide IsCall, Next, IsIdent;
    if s != "" {
      var t := Next(prev, s, m);
      RewriteLength(IsIdent(s[t.read - 1]), s[t.read..], t.mode);
    }
  }

  lemma {:induction false} NoCallsCopies(prev: bool, s: string, m: Mode)
    requires Calls(prev, s, m) == 0
    ensures Rewrite(prev, s, m) == s
    decreases |s|
  {
    hide Rewrite, Next, IsCall, IsIdent;
    if s == "" {
      NothingRewritten(prev, m);
    } else {
      var t := Next(prev, s, m);
      assert !t.call;
      Copies(prev, s, m);
      NoCallsCopies(IsIdent(s[t.read - 1]), s[t.read..], t.mode);
      assert s == s[..t.read] + s[t.read..];
    }
  }

  /** The text changes exactly when it holds a call. */
  lemma ChangesIffCalls(query: string)
    ensures |Rewritten(query)| == |query| + 7 * Calls(false, query, Code)
    ensures Rewritten(query) != query <==> Calls(false, query, Code) > 0
  {
    RewriteLength(false, query, Code);
    if Calls(false, query, Code) == 0 { NoCallsCopies(false, query, Code); }
  }

  // ---- Idempotence -----------------------------------------------------------------------------

  /** The first character is kept, unless a call starts here. */
  lemma Head(prev: bool, s: string, m: Mode)
    ensures (s == "") <==> (Rewrite(prev, s, m) == "")
    ensures s != "" ==>
              var t := Rewrite(prev, s, m);
              t[0] == s[0] || (m == Code && IsCall(prev, s) && Lower(s[0]) == 'r' && t[0] == 's')
  {
    if s != "" && Next(prev, s, m).call { assert Lower(s[0]) == Lower(NAME[0]); }
  }

  /** A step that is not a call copies what it reads. */
  lemma Copies(prev: bool, s: string, m: Mode)
    requires s != "" && !Next(prev, s, m).call
    ensures var t := Next(prev, s, m);
            Rewrite(prev, s, m) == s[..t.read] + Rewrite(IsIdent(s[t.read - 1]), s[t.read..], t.mode)
  {
  }

  predicate Plain(c: char) { c != '-' && c != '/' && c != '\'' && c != '"' }

  /** A plain character that starts no call is copied and the scan stays in code. */
  lemma CodeChar(prev: bool, s: string)
    requires s != "" && Plain(s[0]) && !IsCall(prev, s)
    ensures Rewrite(prev, s, Code) == [s[0]] + Rewrite(IsIdent(s[0]), s[1..], Code)
  {
    assert s[..1] == [s[0]];
  }

  predicate Word(w: string) { forall i :: 0 <= i < |w| ==> IsIdent(w[i]) }

  lemma WordTail(w: string)
    requires Word(w) && w != ""
    ensures IsIdent(w[0]) && Word(w[1..])
  {
  }

  lemma WordChar(s: string)
    requires s != "" && IsIdent(s[0])
    ensures Rewrite(true, s, Code) == [s[0]] + Rewrite(true, s[1..], Code)
  {
    CodeChar(true, s);
  }

  /** After an identifier character, a word is copied. */
  lemma {:induction false} WordCopied(w: string, r: string)
    requires Word(w)
    ensures Rewrite(true, w + r, Code) == w + Rewrite(true, r, Code)
    decreases |w|
  {
    hide Rewrite, Word, IsIdent;
    if w == "" {
      assert w + r == r;
      assert w + Rewrite(true, r, Code) == Rewrite(true, r, Code);
    } else {
      WordTail(w);
      WordChar(w + r);
      assert (w + r)[1..] == w[1..] + r;
      WordCopied(w[1..], r);
      assert w + Rewrite(true, r, Code) == [w[0]] + (w[1..] + Rewrite(true, r, Code));
    }
  }

  lemma TakeCons(c: char, u: string, n: nat)
    requires 1 <= n <= |u| + 1
    ensures ([c] + u)[..n][1..] == u[..n - 1]
  {
  }

  lemma Rejoin(s: string, n: nat, r: string)
    requires 1 <= n <= |s|
    ensures [s[0]] + (s[1..][..n - 1] + r) == s[..n] + r && s[1..][n - 1..] == s[n..]
  {
    assert s[..n] == [s[0]] + s[1..][..n - 1];
  }

  lemma Second(a: string, b: string)
    requires 1 <= |a| <= 2
    ensures |a + b| > 1 ==> (a + b)[1] == if |a| == 2 then a[1] else b[0]
  {
  }

  /** A word at the front of the result was at the front of the text. */
  lemma {:induction false} WordWasThere(s: string, n: nat)
    requires n <= |Rewrite(true, s, Code)| && Word(Rewrite(true, s, Code)[..n])
    ensures n <= |s| && Rewrite(true, s, Code) == s[..n] + Rewrite(true, s[n..], Code)
    decreases n
  {
    var t := Rewrite(true, s, Code);
    if n == 0 {
      assert s[0..] == s;
      assert t == s[..0] + t;
    } else {
      Head(true, s, Code);
      WordTail(t[..n]);
      WordChar(s);
      hide *;
      TakeCons(s[0], Rewrite(true, s[1..], Code), n);
      WordWasThere(s[1..], n - 1);
      Rejoin(s, n, Rewrite(true, s[n..], Code));
    }
  }

  lemma {:induction false} SpaceKept(prev: bool, s: string) returns (p: bool)
    ensures SkipSpace(Rewrite(prev, s, Code)) == Rewrite(p, SkipSpace(s), Code)
    decreases |s|
  {
    var t := Rewrite(prev, s, Code);
    Head(prev, s, Code);
    if s != "" && IsSpace(s[0]) {
      assert Lower(s[0]) != Lower(NAME[0]);
      CodeChar(prev, s);
      assert t[1..] == Rewrite(IsIdent(s[0]), s[1..], Code);
      p := SpaceKept(IsIdent(s[0]), s[1..]);
      hide Rewrite;
      assert SkipSpace(t) == SkipSpace(t[1..]);
    } else {
      p := prev;
    }
  }

  function Prefixed(a: string, o: Option<string>): Option<string> {
    match o case Some(l) => Some(a + l) case None => None
  }

  /** How a literal's body goes on. */
  lemma LiteralParts(c: char, r: string)
    ensures c != '\'' ==> LiteralBody([c] + r) == Prefixed([c], LiteralBody(r))
    ensures LiteralBody("''" + r) == Prefixed("'", LiteralBody(r))
    ensures (r == "" || r[0] != '\'') ==> LiteralBody("'" + r) == Some("")
  {
    assert ([c] + r)[1..] == r;
    assert ("''" + r)[2..] == r;
  }

  /** One turn inside a literal. */
  lemma LiteralTurn(prev: bool, s: string)
    requires s != ""
    ensures var n := Next(prev, s, Single);
            && !n.call && 1 <= n.read <= 2
            && (n.mode == Single && n.read == 1 ==> s[0] != '\'')
            && (n.read == 2 ==> n.mode == Single && s[..2] == "''")
            && (n.mode != Single ==> n.mode == Code && n.read == 1 && s[0] == '\'' &&
                                     (s[1..] == "" || s[1..][0] != '\''))
  {
    hide IsCall;
  }

  /** A literal's value is the same in the result. */
  lemma {:induction false} LiteralKept(prev: bool, s: string)
    ensures LiteralBody(Rewrite(prev, s, Single)) == LiteralBody(s)
    decreases |s|
  {
    hide Rewrite, Next, IsIdent, LiteralBody, IsCall;
    if s == "" {
      NothingRewritten(prev, Single);
    } else {
      var n := Next(prev, s, Single);
      LiteralTurn(prev, s);
      Copies(prev, s, Single);
      var p := IsIdent(s[n.read - 1]);
      var rest := Rewrite(p, s[n.read..], n.mode);
      assert s == s[..n.read] + s[n.read..];
      LiteralParts(s[0], rest);
      LiteralParts(s[0], s[n.read..]);
      if n.read == 1 { assert s[..1] == [s[0]]; }
      if n.mode == Single {
        LiteralKept(p, s[n.read..]);
      } else {
        Head(p, s[1..], Code);
      }
    }
  }

  lemma ArgumentsKept(prev: bool, s: string)
    ensures OwnsArguments(Rewrite(prev, s, Code)) <==> OwnsArguments(s)
  {
    var p := SpaceKept(prev, s);
    var u := SkipSpace(s);
    Head(p, u, Code);
    if u != "" && u[0] == '(' {
      assert Lower(u[0]) != Lower(NAME[0]);
      CodeChar(p, u);
      assert Rewrite(p, u, Code)[1..] == Rewrite(IsIdent(u[0]), u[1..], Code);
      FirstArgumentKept(IsIdent(u[0]), u[1..]);
    }
  }

  predicate OwnsFirst(s: string) {
    var a := SkipSpace(s);
    a != "" && a[0] == '\'' && LiteralBody(a[1..]).Some? && StartsWith(LiteralBody(a[1..]).value, SCHEME)
  }

  lemma FirstArgumentKept(prev: bool, s: string)
    ensures OwnsFirst(Rewrite(prev, s, Code)) <==> OwnsFirst(s)
  {
    var p := SpaceKept(prev, s);
    var a := SkipSpace(s);
    Head(p, a, Code);
    if a != "" && a[0] == '\'' {
      Copies(p, a, Code);
      assert Rewrite(p, a, Code)[1..] == Rewrite(IsIdent(a[0]), a[1..], Single);
      LiteralKept(IsIdent(a[0]), a[1..]);
    }
  }

  /** Where the text has no call, neither has the result. */
  lemma NoNewCall(prev: bool, s: string)
    requires s != "" && Plain(s[0]) && !IsCall(prev, s)
    ensures !IsCall(prev, Rewrite(prev, s, Code))
  {
    var t := Rewrite(prev, s, Code);
    if !prev && StartsWith(t, NAME) {
      NameWasThere(s, t);
      ArgumentsKept(true, s[|NAME|..]);
      Head(true, s[|NAME|..], Code);
      hide Rewrite, OwnsArguments, StartsWith, IsIdent;
    }
  }

  /** A name at the front of the result was at the front of the text, and the rest of the
      result comes from the rest of the text. */
  lemma NameWasThere(s: string, t: string)
    requires s != "" && Plain(s[0]) && !IsCall(false, s) && t == Rewrite(false, s, Code) && StartsWith(t, NAME)
    ensures StartsWith(s, NAME) && t[|NAME|..] == Rewrite(true, s[|NAME|..], Code)
  {
    hide Rewrite, Word, IsIdent, IsCall, Plain, StartsWith;
    CodeChar(false, s);
    NameIsWord(t);
    WordTail(t[..|NAME|]);
    assert t[..|NAME|][0] == s[0];
    var t' := Rewrite(true, s[1..], Code);
    TakeCons(s[0], t', |NAME|);
    WordWasThere(s[1..], |NAME| - 1);
    var r := Rewrite(true, s[|NAME|..], Code);
    Rejoin(s, |NAME|, r);
    StartsWithSame(s, t, |NAME|, r);
  }

  lemma StartsWithSame(s: string, t: string, n: nat, r: string)
    requires n == |NAME| <= |s| && t == s[..n] + r && StartsWith(t, NAME)
    ensures StartsWith(s, NAME) && t[n..] == r
  {
    assert forall i :: 0 <= i < n ==> t[i] == s[i];
  }

  lemma NameIsWord(t: string)
    requires StartsWith(t, NAME)
    ensures |NAME| <= |t| && Word(t[..|NAME|])
  {
    forall i | 0 <= i < |NAME| ensures IsIdent(t[i]) {
      assert Lower(t[i]) == Lower(NAME[i]);
      assert IsIdent(NAME[i]) && NAME[i] == Lower(NAME[i]);
    }
  }

  /** Rewriting twice is rewriting once. */
  lemma {:induction false} Idempotent(prev: bool, s: string, m: Mode)
    ensures Rewrite(prev, Rewrite(prev, s, m), m) == Rewrite(prev, s, m)
    decreases |s|
  {
    hide *;
    if s == "" {
      NothingRewritten(prev, m);
    } else if Next(prev, s, m).call {
      Idempotent(true, s[|NAME|..], Code);
      CallRepeats(prev, s, m);
    } else {
      var n := Next(prev, s, m);
      Idempotent(IsIdent(s[n.read - 1]), s[n.read..], n.mode);
      Copies(prev, s, m);
      TurnRepeats(prev, s, m);
    }
  }

  lemma NothingRewritten(prev: bool, m: Mode)
    ensures Rewrite(prev, "", m) == "" && Rewrite(prev, Rewrite(prev, "", m), m) == ""
  {
  }

  lemma CallRepeats(prev: bool, s: string, m: Mode)
    requires s != "" && Next(prev, s, m).call
    ensures var rest := Rewrite(true, s[|NAME|..], Code);
            Rewrite(prev, s, m) == NEW_NAME + rest &&
              Rewrite(prev, Rewrite(prev, s, m), m) == NEW_NAME + Rewrite(true, rest, Code)
  {
    hide Rewrite, IsCall, IsIdent;
    Replaces(prev, s, m);
    NewNameKept(prev, Rewrite(true, s[|NAME|..], Code));
  }

  lemma Replaces(prev: bool, s: string, m: Mode)
    requires s != "" && Next(prev, s, m).call
    ensures m == Code && Rewrite(prev, s, m) == NEW_NAME + Rewrite(true, s[|NAME|..], Code)
    ensures IsIdent(s[|NAME| - 1])
  {
    CallIsWord(s);
  }

  lemma CallIsWord(s: string)
    requires StartsWith(s, NAME)
    ensures IsIdent(s[|NAME| - 1])
  {
    NameIsWord(s);
    assert s[..|NAME|][|NAME| - 1] == s[|NAME| - 1];
  }

  lemma NewNameKept(prev: bool, r: string)
    ensures Rewrite(prev, NEW_NAME + r, Code) == NEW_NAME + Rewrite(true, r, Code)
  {
    var t := NEW_NAME + r;
    assert t[0] == 's' && Lower(t[0]) != Lower(NAME[0]);
    CodeChar(prev, t);
    NewNameParts(r);
    hide *;
    WordCopied("irius_read_parquet", r);
  }

  lemma NewNameParts(r: string)
    ensures Word("irius_read_parquet") && (NEW_NAME + r)[1..] == "irius_read_parquet" + r
    ensures forall u: string :: NEW_NAME + u == ['s'] + ("irius_read_parquet" + u)
  {
    assert NEW_NAME == ['s'] + "irius_read_parquet";
    forall u: string ensures NEW_NAME + u == ['s'] + ("irius_read_parquet" + u) {
      assert (['s'] + "irius_read_parquet") + u == ['s'] + ("irius_read_parquet" + u);
    }
  }

  /** The characters the scan looks ahead for. */
  predicate LookedFor(c: char) { c == '-' || c == '*' || c == '/' || c == '\'' || c == '"' }

  lemma FollowedSame(prev: bool, s: string, m: Mode, c: char)
    requires s != "" && !Next(prev, s, m).call && LookedFor(c)
    ensures Followed(Rewrite(prev, s, m), c) <==> Followed(s, c)
  {
    hide Rewrite, IsCall, Next, IsIdent;
    var n := Next(prev, s, m);
    var p := IsIdent(s[n.read - 1]);
    var rest := Rewrite(p, s[n.read..], n.mode);
    ReadsAtMostTwo(prev, s, m);
    Copies(prev, s, m);
    Head(p, s[n.read..], n.mode);
    Second(s[..n.read], rest);
    Second(s[..n.read], s[n.read..]);
    assert s == s[..n.read] + s[n.read..];
  }

  lemma ReadsAtMostTwo(prev: bool, s: string, m: Mode)
    requires s != "" && !Next(prev, s, m).call
    ensures Next(prev, s, m).read <= 2
  {
  }

  /** Special characters start no call. */
  lemma SpecialStartsNoCall(prev: bool, s: string)
    requires s != "" && !Plain(s[0])
    ensures !IsCall(prev, s)
  {
    assert Lower(s[0]) != Lower(NAME[0]);
  }

  lemma SameTurn(prev: bool, s: string, t: string, m: Mode)
    requires s != "" && t != "" && s[0] == t[0] && (m == Code ==> !IsCall(prev, s) && !IsCall(prev, t))
    requires forall c :: LookedFor(c) ==> (Followed(t, c) <==> Followed(s, c))
    ensures Next(prev, t, m) == Next(prev, s, m)
  {
    hide IsCall;
    assert LookedFor('-') && LookedFor('*') && LookedFor('/') && LookedFor('\'') && LookedFor('"');
  }

  /** A turn that is not a call is taken again, alike, on the result. */
  lemma TurnRepeats(prev: bool, s: string, m: Mode)
    requires s != "" && !Next(prev, s, m).call
    ensures var n := Next(prev, s, m);
            var rest := Rewrite(IsIdent(s[n.read - 1]), s[n.read..], n.mode);
            Rewrite(prev, Rewrite(prev, s, m), m) == s[..n.read] + Rewrite(IsIdent(s[n.read - 1]), rest, n.mode)
  {
    hide Rewrite, Next, IsCall, IsIdent, LookedFor, Followed, Plain;
    var n := Next(prev, s, m);
    var p := IsIdent(s[n.read - 1]);
    var rest := Rewrite(p, s[n.read..], n.mode);
    var t := Rewrite(prev, s, m);
    Copies(prev, s, m);
    Head(prev, s, m);
    forall c | LookedFor(c) ensures Followed(t, c) <==> Followed(s, c) { FollowedSame(prev, s, m, c); }
    if m == Code {
      if Plain(s[0]) { NoNewCall(prev, s); } else { SpecialStartsNoCall(prev, t); }
    }
    assert t[0] == s[0];
    SameTurn(prev, s, t, m);
    Copies(prev, t, m);
    assert t[n.read..] == rest && t[..n.read] == s[..n.read];
    assert t[n.read - 1] == s[..n.read][n.read - 1];
  }

  lemma RewrittenIdempotent(query: string)
    ensures Rewritten(Rewritten(query)) == Rewritten(query)
    ensures Calls(false, Rewritten(query), Code) == 0
  {
    Idempotent(false, query, Code);
    RewriteLength(false, Rewritten(query), Code);
  }
}
