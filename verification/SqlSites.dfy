/** Where the rewriter's calls are, told without the rewriter: a finite automaton that reads
    one character at a time decides which characters of a query are code, and the result is
    the query with every call's name in code replaced. */
module SqlSites {
  import opened Common
  import opened SqlRewrite

  /** Code; code after a dash or slash that may open a comment; inside a literal or quoted
      name; after a quote that may close it; inside a comment; after a star that may end
      it. */
  datatype Lex = InCode | Dash | Slash | InSingle | SingleQuote | InDouble | DoubleQuote | InLine | InBlock | Star

  function FeedCode(c: char): Lex {
    match c case '-' => Dash case '/' => Slash case '\'' => InSingle case '"' => InDouble case _ => InCode
  }

  function Feed(l: Lex, c: char): Lex {
    match l
    case InCode => FeedCode(c)
    case Dash => if c == '-' then InLine else FeedCode(c)
    case Slash => if c == '*' then InBlock else FeedCode(c)
    case InSingle => if c == '\'' then SingleQuote else InSingle
    case SingleQuote => if c == '\'' then InSingle else FeedCode(c)
    case InDouble => if c == '"' then DoubleQuote else InDouble
    case DoubleQuote => if c == '"' then InDouble else FeedCode(c)
    case InLine => if c == '\n' then InCode else InLine
    case InBlock => if c == '*' then Star else InBlock
    case Star => if c == '/' then InCode else if c == '*' then Star else InBlock
  }

  /** The automaton's state before position `p`. */
  function LexAt(q: string, p: nat): Lex
    requires p <= |q|
  {
    if p == 0 then InCode else Feed(LexAt(q, p - 1), q[p - 1])
  }

  /** The character `c`, read in state `l`, is code. */
  predicate ReadsCode(l: Lex, c: char) {
    match l
    case InCode => true
    case Dash => c != '-'
    case Slash => c != '*'
    case SingleQuote => c != '\''
    case DoubleQuote => c != '"'
    case _ => false
  }

  predicate Preceded(q: string, p: nat)
    requires p <= |q|
  {
    p > 0 && IsIdent(q[p - 1])
  }

  /** A call's name stands at `p`, in code. */
  predicate IsSite(q: string, p: nat) {
    p < |q| && ReadsCode(LexAt(q, p), q[p]) && IsCall(Preceded(q, p), q[p..])
  }

  /** The query from `i` on with the names at its sites replaced. */
  function Splice(q: string, i: nat): string
    requires i <= |q|
    decreases |q| - i
  {
    if i == |q| then ""
    else if IsSite(q, i) then NEW_NAME + Splice(q, i + |NAME|)
    else [q[i]] + Splice(q, i + 1)
  }

  // ---- The scan and the automaton keep step ----------------------------------------------------------

  predicate Starts(s: string, c: char) { s != "" && s[0] == c }

  predicate InStep(m: Mode, l: Lex, s: string) {
    match m
    case Code =>
      || l == InCode || (l == Dash && !Starts(s, '-')) || (l == Slash && !Starts(s, '*'))
      || (l == SingleQuote && !Starts(s, '\'')) || (l == DoubleQuote && !Starts(s, '"'))
    case Single => l == InSingle
    case Double => l == InDouble
    case Line => l == InLine
    case Block => l == InBlock || (l == Star && !Starts(s, '/'))
  }

  lemma InStepReads(m: Mode, l: Lex, s: string)
    requires s != "" && InStep(m, l, s)
    ensures ReadsCode(l, s[0]) <==> m == Code
  {
  }

  /** One turn of at most two characters. */
  lemma TurnKeepsStep(prev: bool, s: string, m: Mode, l: Lex)
    requires s != "" && InStep(m, l, s) && !Next(prev, s, m).call
    ensures var n := Next(prev, s, m);
            && n.read <= 2
            && (n.read == 1 ==> InStep(n.mode, Feed(l, s[0]), s[1..]))
            && (n.read == 2 ==> InStep(n.mode, Feed(Feed(l, s[0]), s[1]), s[2..]) && !ReadsCode(Feed(l, s[0]), s[1]))
  {
    hide IsCall;
  }

  /** A word leaves the automaton in code. */
  lemma {:induction false} WordKeepsCode(q: string, i: nat, n: nat)
    requires 1 <= n && i + n <= |q| && Word(q[i..i + n]) && ReadsCode(LexAt(q, i), q[i])
    ensures LexAt(q, i + n) == InCode
    decreases n
  {
    assert IsIdent(q[i..i + n][n - 1]);
    assert LexAt(q, i + n) == Feed(LexAt(q, i + n - 1), q[i + n - 1]);
    if n > 1 {
      assert q[i..i + n - 1] == q[i..i + n][..n - 1];
      WordKeepsCode(q, i, n - 1);
    }
  }

  /** From any point the scan visits, it produces the spliced text. */
  lemma {:induction false} ScanSplices(q: string, i: nat, m: Mode)
    requires i <= |q| && InStep(m, LexAt(q, i), q[i..])
    ensures Rewrite(Preceded(q, i), q[i..], m) == Splice(q, i)
    decreases |q| - i
  {
    if i == |q| { return; }
    SiteIff(q, i, m);
    if Next(Preceded(q, i), q[i..], m).call {
      CallSplices(q, i, m);
      hide *;
    } else {
      TurnSplices(q, i, m);
      hide *;
    }
  }

  lemma {:induction false} TurnSplices(q: string, i: nat, m: Mode)
    requires i < |q| && InStep(m, LexAt(q, i), q[i..]) && !IsSite(q, i)
    requires !Next(Preceded(q, i), q[i..], m).call
    ensures Rewrite(Preceded(q, i), q[i..], m) == Splice(q, i)
    decreases |q| - i, 0
  {
    hide *;
    var s, prev := q[i..], Preceded(q, i);
    var n := Next(prev, s, m);
    TurnKeepsStep(prev, s, m, LexAt(q, i));
    Copies(prev, s, m);
    LexTwo(q, i, n.read);
    ScanSplices(q, i + n.read, n.mode);
    PrecededIs(q, i + n.read);
    SpliceCopies(q, i, n.read);
    assert s[n.read..] == q[i + n.read..] && s[n.read - 1] == q[i + n.read - 1];
    assert s[..n.read] == q[i..i + n.read];
  }

  lemma PrecededIs(q: string, p: nat)
    requires 0 < p <= |q|
    ensures Preceded(q, p) == IsIdent(q[p - 1])
  {
  }

  lemma SiteIff(q: string, i: nat, m: Mode)
    requires i < |q| && InStep(m, LexAt(q, i), q[i..])
    ensures IsSite(q, i) <==> Next(Preceded(q, i), q[i..], m).call
  {
    InStepReads(m, LexAt(q, i), q[i..]);
  }

  lemma LexTwo(q: string, i: nat, n: nat)
    requires i + n <= |q| && 1 <= n <= 2
    ensures LexAt(q, i + 1) == Feed(LexAt(q, i), q[i])
    ensures n == 2 ==> LexAt(q, i + 2) == Feed(Feed(LexAt(q, i), q[i]), q[i + 1])
  {
  }

  lemma SpliceOne(q: string, i: nat)
    requires i < |q| && !IsSite(q, i)
    ensures Splice(q, i) == [q[i]] + Splice(q, i + 1)
  {
    hide IsSite;
  }

  lemma SpliceCopies(q: string, i: nat, n: nat)
    requires 1 <= n <= 2 && i + n <= |q| && !IsSite(q, i) && (n == 2 ==> !ReadsCode(LexAt(q, i + 1), q[i + 1]))
    ensures Splice(q, i) == q[i..i + n] + Splice(q, i + n)
  {
    SpliceOne(q, i);
    if n == 2 { SpliceOne(q, i + 1); }
    hide *;
    if n == 2 {
      assert q[i..i + 2] == [q[i]] + [q[i + 1]];
      assert [q[i]] + ([q[i + 1]] + Splice(q, i + 2)) == ([q[i]] + [q[i + 1]]) + Splice(q, i + 2);
    } else {
      assert q[i..i + 1] == [q[i]];
    }
  }

  lemma {:induction false} CallSplices(q: string, i: nat, m: Mode)
    requires i < |q| && InStep(m, LexAt(q, i), q[i..]) && Next(Preceded(q, i), q[i..], m).call
    ensures Rewrite(Preceded(q, i), q[i..], m) == Splice(q, i)
    decreases |q| - i, 0
  {
    var s, prev, k := q[i..], Preceded(q, i), i + |NAME|;
    InStepReads(m, LexAt(q, i), s);
    assert IsSite(q, i);
    Replaces(prev, s, m);
    NameIsWord(s);
    assert s[..|NAME|] == q[i..k];
    WordKeepsCode(q, i, |NAME|);
    assert s[|NAME|..] == q[k..] && s[|NAME| - 1] == q[k - 1];
    ScanSplices(q, k, Code);
  }

  /** The rewriter replaces exactly the names at the sites and copies all else, whatever
      stands in literals, quoted names and comments. */
  lemma RewrittenIsSplice(q: string)
    ensures Rewritten(q) == Splice(q, 0)
  {
    ScanSplices(q, 0, Code);
    assert q[0..] == q;
  }
}
