/** Pattern and value strings: how a string is cut into tokens, and the rewriting of a
    pattern string in place.
 */
module TokenText {
  import opened Patterns
  import opened Seqs

  datatype Kind = Address | Amqp010 | Mqtt

  /** The separator characters of each kind of tree. */
  function Separators(k: Kind): set<char> {
    match k
    case Address => {'.', '/'}
    case Amqp010 => {'.'}
    case Mqtt => {'/'}
  }

  predicate IsSeparator(k: Kind, c: char) { c in Separators(k) }

  function MatchOne(k: Kind): char { if k.Mqtt? then '+' else '*' }

  const MATCH_GLOB := '#'

  /** Classify one token of a pattern string. */
  function Classify(k: Kind, token: string): Tok {
    if token == [MatchOne(k)] then One
    else if token == [MATCH_GLOB] then Many
    else Lit(token)
  }

  function ClassifyAll(k: Kind, tokens: seq<string>): Pattern {
    if tokens == [] then [] else [Classify(k, tokens[0])] + ClassifyAll(k, tokens[1..])
  }

  // ---------------------------------------------------------------- tokens of a string

  /** Position of the first separator at or after `i`, or the end of the text. */
  function TokenEnd(k: Kind, u: string, i: nat): (e: nat)
    requires i <= |u|
    ensures i <= e <= |u|
    ensures e < |u| ==> IsSeparator(k, u[e])
    decreases |u| - i
  {
    if i == |u| || IsSeparator(k, u[i]) then i else TokenEnd(k, u, i + 1)
  }

  function TokenLength(k: Kind, u: string): (e: nat)
    ensures e <= |u|
    ensures e < |u| ==> IsSeparator(k, u[e])
  {
    TokenEnd(k, u, 0)
  }

  /** The text of the first token and of the separator that ends it, if any. */
  function HeadLength(k: Kind, u: string): (n: nat)
    ensures TokenLength(k, u) <= n <= |u|
    ensures u != [] ==> n > 0
  {
    var e := TokenLength(k, u);
    if e == |u| then e else e + 1
  }

  /** The tokens of a text whose leading separators are gone. An empty token between two
      separators counts; nothing after a final separator does. */
  function Split(k: Kind, u: string): seq<string> {
    if u == [] then [] else [u[..TokenLength(k, u)]] + Split(k, u[HeadLength(k, u)..])
  }

  function LeadingSeparators(k: Kind, s: string): (n: nat)
    ensures n <= |s|
  {
    if s != [] && IsSeparator(k, s[0]) then 1 + LeadingSeparators(k, s[1..]) else 0
  }

  function Tokens(k: Kind, s: string): seq<string> {
    Split(k, s[LeadingSeparators(k, s)..])
  }

  /** The pattern that a string denotes. */
  function PatternOf(k: Kind, s: string): Pattern {
    ClassifyAll(k, Tokens(k, s))
  }

  // ---------------------------------------------------------------- token iterator

  /** The token at the head of the rest of a string; `begin` is at the end of the string
      once the tokens are used up. */
  datatype TokenIter = TokenIter(begin: nat, end: nat) {
    predicate Valid(k: Kind, s: string) {
      begin <= end <= |s| && end == begin + TokenLength(k, s[begin..])
    }

    predicate Done(s: string) { begin == |s| }

    function Rest(k: Kind, s: string): seq<string>
      requires Valid(k, s)
    {
      Split(k, s[begin..])
    }

    function Token(k: Kind, s: string): (t: string)
      requires Valid(k, s)
      ensures !Done(s) ==> Rest(k, s) != [] && t == Rest(k, s)[0]
    {
      assert s[begin..][..end - begin] == s[begin..end];
      s[begin..end]
    }

    function Next(k: Kind, s: string): (it: TokenIter)
      requires Valid(k, s)
      ensures it.Valid(k, s)
      ensures !Done(s) ==> it.Rest(k, s) == Rest(k, s)[1..] && begin < it.begin
      ensures Done(s) ==> it.Done(s)
    {
      if end == |s| then TokenIter(|s|, |s|)
      else
        assert s[begin..][HeadLength(k, s[begin..])..] == s[end + 1..];
        TokenIter(end + 1, end + 1 + TokenLength(k, s[end + 1..]))
    }
  }

  function IterInit(k: Kind, s: string): (it: TokenIter)
    ensures it.Valid(k, s)
    ensures it.Rest(k, s) == Tokens(k, s)
  {
    var b := LeadingSeparators(k, s);
    TokenIter(b, b + TokenLength(k, s[b..]))
  }

  lemma RestDone(k: Kind, s: string, it: TokenIter)
    requires it.Valid(k, s)
    ensures it.Done(s) <==> it.Rest(k, s) == []
  {
  }

  // ---------------------------------------------------------------- splitting at a separator

  predicate EndsAtSeparator(k: Kind, x: string) {
    x == [] || IsSeparator(k, x[|x| - 1])
  }

  lemma {:induction false} TokenEndAppend(k: Kind, x: string, u: string, i: nat)
    requires i < |x| && IsSeparator(k, x[|x| - 1])
    ensures TokenEnd(k, x + u, i) == TokenEnd(k, x, i) < |x|
    decreases |x| - i
  {
    if !IsSeparator(k, x[i]) { TokenEndAppend(k, x, u, i + 1); }
  }

  /** Just after a separator the tokens split into those before and those after. */
  lemma {:induction false} SplitAppend(k: Kind, x: string, u: string)
    requires EndsAtSeparator(k, x)
    ensures Split(k, x + u) == Split(k, x) + Split(k, u)
  {
    hide IsSeparator, Separators, TokenEnd;
    if x == [] {
      assert x + u == u;
    } else {
      var e, n := TokenLength(k, x), HeadLength(k, x);
      TokenEndAppend(k, x, u, 0);
      CutAppend(x, u, e);
      CutAppend(x, u, n);
      SplitAppend(k, x[n..], u);
      AppendAssoc([x[..e]], Split(k, x[n..]), Split(k, u));
    }
  }

  lemma {:induction false} ClassifyAppend(k: Kind, a: seq<string>, b: seq<string>)
    ensures ClassifyAll(k, a + b) == ClassifyAll(k, a) + ClassifyAll(k, b)
  {
    if a == [] {
      assert a + b == b;
    } else {
      assert (a + b)[1..] == a[1..] + b;
      ClassifyAppend(k, a[1..], b);
    }
  }

  function PatternFrom(k: Kind, u: string): Pattern {
    ClassifyAll(k, Split(k, u))
  }

  lemma PatternAppend(k: Kind, x: string, u: string)
    requires EndsAtSeparator(k, x)
    ensures PatternFrom(k, x + u) == PatternFrom(k, x) + PatternFrom(k, u)
  {
    SplitAppend(k, x, u);
    ClassifyAppend(k, Split(k, x), Split(k, u));
  }

  /** The first token comes off the front of a text, together with the separator after it. */
  lemma PatternHead(k: Kind, u: string)
    requires u != []
    ensures PatternFrom(k, u) == [Classify(k, u[..TokenLength(k, u)])] + PatternFrom(k, u[HeadLength(k, u)..])
  {
    assert Split(k, u)[1..] == Split(k, u[HeadLength(k, u)..]);
  }

  lemma {:induction false} LeadingSeparatorsOf(k: Kind, lead: string, y: string)
    requires forall i | 0 <= i < |lead| :: IsSeparator(k, lead[i])
    requires y != [] ==> !IsSeparator(k, y[0])
    ensures LeadingSeparators(k, lead + y) == |lead|
    ensures PatternOf(k, lead + y) == PatternFrom(k, y)
  {
    if lead == [] {
      assert lead + y == y;
    } else {
      assert (lead + y)[1..] == lead[1..] + y;
      LeadingSeparatorsOf(k, lead[1..], y);
    }
    assert (lead + y)[|lead|..] == y;
  }

  lemma {:induction false} LeadIsSeparators(k: Kind, s: string)
    ensures var n := LeadingSeparators(k, s);
            && (forall i | 0 <= i < n :: IsSeparator(k, s[i]))
            && (n < |s| ==> !IsSeparator(k, s[n]))
  {
    if s != [] && IsSeparator(k, s[0]) {
      LeadIsSeparators(k, s[1..]);
      var n := LeadingSeparators(k, s);
      forall i | 0 <= i < n ensures IsSeparator(k, s[i]) { if i > 0 { assert s[i] == s[1..][i - 1]; } }
    }
  }

  // ---------------------------------------------------------------- rewriting in place

  /** Rewriting the tail of a pattern is independent of what stands before it. */
  lemma {:induction false} NormalizeBehind(a: Pattern, b: Pattern, c: Pattern, owed: bool)
    requires forall o :: NormalizeFrom(b, o) == NormalizeFrom(c, o)
    ensures NormalizeFrom(a + b, owed) == NormalizeFrom(a + c, owed)
  {
    if a == [] {
      assert a + b == b && a + c == c;
    } else {
      assert (a + b)[1..] == a[1..] + b && (a + c)[1..] == a[1..] + c;
      NormalizeBehind(a[1..], b, c, if a[0].Lit? then false else owed || a[0].Many?);
    }
  }

  lemma NormalizeDropsGlob(a: Pattern, r: Pattern)
    ensures Normalize(a + ([Many] + ([Many] + r))) == Normalize(a + ([Many] + r))
  {
    assert ([Many] + ([Many] + r))[1..] == [Many] + r;
    assert ([Many] + r)[1..] == r;
    NormalizeBehind(a, [Many] + ([Many] + r), [Many] + r, false);
  }

  lemma NormalizeMovesGlob(a: Pattern, r: Pattern)
    ensures Normalize(a + ([Many] + ([One] + r))) == Normalize(a + ([One] + ([Many] + r)))
  {
    assert ([Many] + ([One] + r))[1..] == [One] + r;
    assert ([One] + r)[1..] == r;
    assert ([One] + ([Many] + r))[1..] == [Many] + r;
    assert ([Many] + r)[1..] == r;
    NormalizeBehind(a, [Many] + ([One] + r), [One] + ([Many] + r), false);
  }

  /** Move the text from `src` to the end down to `dest`, one character at a time. */
  method CopyDown(a: array<char>, n: nat, dest: nat, src: nat) returns (m: nat)
    requires dest <= src <= n <= a.Length
    modifies a
    ensures m == n - (src - dest)
    ensures a[..m] == old(a[..n])[..dest] + old(a[..n])[src..]
  {
    var d, s := dest, src;
    while s < n
      invariant src <= s <= n && d - dest == s - src
      invariant a[..d] == old(a[..dest]) + old(a[src..s])
      invariant a[s..n] == old(a[s..n])
    {
      assert a[s] == a[s..n][0] == old(a[s]);
      a[d] := a[s];
      assert old(a[src..s + 1]) == old(a[src..s]) + [old(a[s])];
      d, s := d + 1, s + 1;
    }
    m := d;
    assert old(a[..dest]) == old(a[..n])[..dest] && old(a[src..n]) == old(a[..n])[src..];
  }

  /** What the rewriting loop keeps: `x` is the text before the iterator and `u` the text
      from it on. What is behind is normal and open for a '#'; together they denote a
      pattern with the normal form of the original. */
  ghost predicate Rewriting(k: Kind, x: string, u: string, orig: Pattern) {
    && (x + u != [] ==> !IsSeparator(k, (x + u)[0]))
    && NormalForm(PatternFrom(k, x))
    && Normalize(PatternFrom(k, x) + PatternFrom(k, u)) == Normalize(orig)
    && (u != [] ==> EndsAtSeparator(k, x) && OpenForGlob(PatternFrom(k, x)))
  }

  predicate OpenForGlob(p: Pattern) { p == [] || !p[|p| - 1].Many? }

  lemma PatternOfHead(k: Kind, u: string)
    requires u != []
    ensures var n := HeadLength(k, u);
            && PatternFrom(k, u) != []
            && PatternFrom(k, u[..n]) == [PatternFrom(k, u)[0]]
            && PatternFrom(k, u[n..]) == PatternFrom(k, u)[1..]
  {
    var e, n := TokenLength(k, u), HeadLength(k, u);
    TokenEndOfHead(k, u, 0, n);
    PatternHead(k, u);
    PatternHead(k, u[..n]);
    assert u[..n][..e] == u[..e];
    assert u[..n][n..] == [];
  }

  lemma StepPattern(p: Pattern, q: Pattern)
    requires NormalForm(p) && OpenForGlob(p) && q != []
    ensures NormalForm(p + [q[0]])
    ensures (p + [q[0]]) + q[1..] == p + q
  {
    assert q == [q[0]] + q[1..];
  }

  /** Passing the next token keeps the invariant when that token is not a '#', or is a '#'
      that ends the text. */
  lemma StepOver(k: Kind, x: string, u: string, orig: Pattern)
    requires Rewriting(k, x, u, orig) && u != []
    requires PatternFrom(k, u) != [] && (PatternFrom(k, u)[0].Many? ==> HeadLength(k, u) == |u|)
    ensures var n := HeadLength(k, u); Rewriting(k, x + u[..n], u[n..], orig)
  {
    hide Split, ClassifyAll, TokenEnd, Normalize, NormalForm;
    var n := HeadLength(k, u);
    PatternAppend(k, x, u[..n]);
    PatternOfHead(k, u);
    StepPattern(PatternFrom(k, x), PatternFrom(k, u));
    Rejoin(x, u, n);
  }

  lemma {:induction false} TokenEndOfHead(k: Kind, u: string, i: nat, cut: nat)
    requires i <= |u| && TokenEnd(k, u, i) <= cut <= |u|
    ensures TokenEnd(k, u[..cut], i) == TokenEnd(k, u, i)
    decreases |u| - i
  {
    if i < |u| && !IsSeparator(k, u[i]) { TokenEndOfHead(k, u, i + 1, cut); }
  }

  lemma WildcardsSeparateNothing(k: Kind)
    ensures !IsSeparator(k, MATCH_GLOB) && !IsSeparator(k, MatchOne(k))
  {
  }

  lemma OneCharToken(k: Kind, v: string)
    requires v != [] && !IsSeparator(k, v[0])
    ensures TokenLength(k, v) == 1 <==> |v| == 1 || IsSeparator(k, v[1])
  {
    assert TokenEnd(k, v, 0) == TokenEnd(k, v, 1);
  }

  /** A text that starts with a one-character token. */
  lemma OneCharHead(k: Kind, u: string, c: char)
    requires u != [] && u[0] == c && !IsSeparator(k, c) && TokenLength(k, u) == 1
    ensures PatternFrom(k, u) == [Classify(k, [c])] + PatternFrom(k, u[HeadLength(k, u)..])
  {
    PatternHead(k, u);
    assert u[..1] == [c];
  }

  /** Two one-character tokens and a separator between them start the text. */
  predicate TwoHeads(k: Kind, u: string, c1: char, c2: char) {
    && |u| >= 3 && u[0] == c1 && IsSeparator(k, u[1]) && u[2] == c2
    && TokenLength(k, u[2..]) == 1
  }

  lemma TwoHeadsPattern(k: Kind, u: string, c1: char, c2: char)
    requires TwoHeads(k, u, c1, c2) && !IsSeparator(k, c1) && !IsSeparator(k, c2)
    ensures HeadLength(k, u) == 2
    ensures PatternFrom(k, u) == [Classify(k, [c1])] + PatternFrom(k, u[2..])
    ensures PatternFrom(k, u[2..]) == [Classify(k, [c2])] + PatternFrom(k, u[2..][HeadLength(k, u[2..])..])
  {
    OneCharToken(k, u);
    OneCharHead(k, u, c1);
    OneCharHead(k, u[2..], c2);
  }

  lemma NotNormalAt(p: Pattern, t: Tok, r: Pattern)
    requires !t.Lit?
    ensures !NormalForm(p + ([Many] + ([t] + r)))
  {
    var q := p + ([Many] + ([t] + r));
    assert q[|p|] == Many && q[|p| + 1] == t;
  }

  /** "#.#" becomes "#". */
  lemma DropGlob(k: Kind, x: string, u: string, orig: Pattern)
    requires Rewriting(k, x, u, orig) && TwoHeads(k, u, MATCH_GLOB, MATCH_GLOB)
    ensures Rewriting(k, x, u[2..], orig)
    ensures !NormalForm(PatternFrom(k, x) + PatternFrom(k, u))
  {
    WildcardsSeparateNothing(k);
    TwoHeadsPattern(k, u, MATCH_GLOB, MATCH_GLOB);
    var r := PatternFrom(k, u[2..][HeadLength(k, u[2..])..]);
    NormalizeDropsGlob(PatternFrom(k, x), r);
    NotNormalAt(PatternFrom(k, x), Many, r);
    assert (x + u[2..])[0] == if x == [] then MATCH_GLOB else (x + u)[0];
  }

  function Swapped(k: Kind, u: string): string
    requires |u| >= 3
  {
    [MatchOne(k), u[1], MATCH_GLOB] + u[3..]
  }

  lemma SwappedHeads(k: Kind, u: string)
    requires TwoHeads(k, u, MATCH_GLOB, MatchOne(k))
    ensures TwoHeads(k, Swapped(k, u), MatchOne(k), MATCH_GLOB)
    ensures HeadLength(k, Swapped(k, u)[2..]) == HeadLength(k, u[2..])
    ensures Swapped(k, u)[2..][HeadLength(k, u[2..])..] == u[2..][HeadLength(k, u[2..])..]
  {
    var v, v' := u[2..], Swapped(k, u)[2..];
    WildcardsSeparateNothing(k);
    OneCharToken(k, v);
    OneCharToken(k, v');
    assert v' == [MATCH_GLOB] + v[1..];
  }

  /** "#.*" becomes "*.#", and the "*" is then behind the iterator. */
  lemma MoveGlob(k: Kind, x: string, u: string, orig: Pattern)
    requires Rewriting(k, x, u, orig) && TwoHeads(k, u, MATCH_GLOB, MatchOne(k))
    ensures Rewriting(k, x + Swapped(k, u)[..2], Swapped(k, u)[2..], orig)
    ensures !NormalForm(PatternFrom(k, x) + PatternFrom(k, u))
  {
    var p, w := PatternFrom(k, x), Swapped(k, u);
    var r := PatternFrom(k, u[2..][HeadLength(k, u[2..])..]);
    WildcardsSeparateNothing(k);
    SwappedHeads(k, u);
    TwoHeadsPattern(k, u, MATCH_GLOB, MatchOne(k));
    TwoHeadsPattern(k, w, MatchOne(k), MATCH_GLOB);
    NormalizeMovesGlob(p, r);
    NotNormalAt(p, One, r);
    assert Rewriting(k, x, w, orig) by {
      assert (x + w)[0] == if x == [] then MatchOne(k) else (x + u)[0];
    }
    StepOver(k, x, w, orig);
  }

  /** A '#' before a literal stays where it is. */
  lemma KeepGlob(k: Kind, x: string, u: string, n: nat, m: nat, orig: Pattern)
    requires Rewriting(k, x, u, orig)
    requires u != [] && n == HeadLength(k, u) < |u| && m == HeadLength(k, u[n..])
    requires PatternFrom(k, u) != [] && PatternFrom(k, u)[0].Many?
    requires PatternFrom(k, u[n..]) != [] && PatternFrom(k, u[n..])[0].Lit?
    ensures Rewriting(k, x + u[..n + m], u[n + m..], orig)
  {
    var p, q := PatternFrom(k, x), PatternFrom(k, u);
    PatternOfHead(k, u);
    PatternOfHead(k, u[n..]);
    PatternAppend(k, x, u[..n]);
    PatternAppend(k, x + u[..n], u[n..][..m]);
    Cuts(x, u, n, m);
    KeepGlobPattern(p, q);
    assert q[1..][1..] == PatternFrom(k, u[n + m..]);
    assert PatternFrom(k, x + u[..n + m]) == (p + [q[0]]) + [q[1]];
    assert x + u != [];
    EndsAfterHead(k, x, u, n, m);
  }

  lemma EndsAfterHead(k: Kind, x: string, u: string, n: nat, m: nat)
    requires n <= |u| && m == HeadLength(k, u[n..]) && m > 0
    ensures u[n + m..] != [] ==> EndsAtSeparator(k, x + u[..n + m])
  {
  }

  lemma Cuts(x: string, u: string, n: nat, m: nat)
    requires n + m <= |u|
    ensures (x + u[..n]) + u[n..][..m] == x + u[..n + m]
    ensures u[n..][m..] == u[n + m..]
    ensures (x + u[..n + m]) + u[n + m..] == x + u
  {
  }

  lemma KeepGlobPattern(p: Pattern, q: Pattern)
    requires NormalForm(p) && OpenForGlob(p) && |q| >= 2 && q[0].Many? && q[1].Lit?
    ensures NormalForm((p + [q[0]]) + [q[1]])
    ensures OpenForGlob((p + [q[0]]) + [q[1]])
    ensures ((p + [q[0]]) + [q[1]]) + q[1..][1..] == p + q
  {
    assert q == [q[0]] + ([q[1]] + q[1..][1..]);
  }

  /** The iterator stands between `head` and `u` in the text. */
  ghost predicate StandsAt(k: Kind, t: string, it: TokenIter, head: string, u: string) {
    t == head + u && it.begin == |head| && it.Valid(k, t)
  }

  lemma {:induction false} AtIterator(k: Kind, t: string, it: TokenIter, head: string, u: string)
    requires StandsAt(k, t, it, head, u)
    ensures it.Done(t) <==> u == []
    ensures it.Token(k, t) == u[..TokenLength(k, u)]
    ensures it.end == it.begin + TokenLength(k, u)
    ensures StandsAt(k, t, it.Next(k, t), head + u[..HeadLength(k, u)], u[HeadLength(k, u)..])
    ensures u != [] ==> PatternFrom(k, u) != [] && PatternFrom(k, u)[0] == Classify(k, it.Token(k, t))
  {
    hide TokenEnd, IsSeparator, Split, PatternFrom;
    assert t[|head|..] == u;
    Rejoin(head, u, HeadLength(k, u));
    if u != [] { PatternHead(k, u); }
  }

  lemma TokenOfOne(k: Kind, u: string, c: char)
    requires u[..TokenLength(k, u)] == [c]
    ensures u != [] && u[0] == c && TokenLength(k, u) == 1
    ensures HeadLength(k, u) < |u| ==> HeadLength(k, u) == 2 && IsSeparator(k, u[1])
  {
    assert u[0] == u[..TokenLength(k, u)][0];
  }

  /** Everything the rewriting loop knows: the text splits into leading separators, the text
      `x` behind the iterator and the text `u` from it on. */
  datatype Progress = Progress(lead: string, x: string, u: string) {
    ghost predicate Holds(k: Kind, t: string, it: TokenIter, orig: Pattern) {
      && it.Valid(k, t) && StandsAt(k, t, it, lead + x, u)
      && (forall i | 0 <= i < |lead| :: IsSeparator(k, lead[i]))
      && Rewriting(k, x, u, orig)
    }
  }

  lemma Begin(k: Kind, t: string) returns (g: Progress)
    ensures g.Holds(k, t, IterInit(k, t), PatternOf(k, t))
  {
    hide TokenEnd, Split, ClassifyAll, IsSeparator, Rewriting, StandsAt;
    var b := LeadingSeparators(k, t);
    g := Progress(t[..b], "", t[b..]);
    LeadIsSeparators(k, t);
    NothingBehind(k, t[b..]);
    Halves(t, b);
    StandsAtNew(k, t[..b] + "", t[b..], IterInit(k, t));
  }

  lemma NothingBehind(k: Kind, u: string)
    requires u != [] ==> !IsSeparator(k, u[0])
    ensures Rewriting(k, "", u, PatternFrom(k, u))
  {
    hide NormalizeFrom;
    assert "" + u == u;
    assert PatternFrom(k, "") == [];
    assert PatternFrom(k, "") + PatternFrom(k, u) == PatternFrom(k, u);
  }

  lemma Halves(t: string, b: nat)
    requires b <= |t|
    ensures t == (t[..b] + "") + t[b..] && |t[..b] + ""| == b
  {
  }

  /** Passing one token. */
  lemma Pass(k: Kind, t: string, it: TokenIter, orig: Pattern, g: Progress) returns (g': Progress)
    requires g.Holds(k, t, it, orig) && !it.Done(t)
    requires it.Token(k, t) == [MATCH_GLOB] ==> it.Next(k, t).Done(t)
    ensures g'.Holds(k, t, it.Next(k, t), orig)
  {
    hide Rewriting, NormalForm, Normalize, Split, TokenEnd;
    AtIterator(k, t, it, g.lead + g.x, g.u);
    var n := HeadLength(k, g.u);
    StepOver(k, g.x, g.u, orig);
    AppendAssoc(g.lead, g.x, g.u[..n]);
    g' := Progress(g.lead, g.x + g.u[..n], g.u[n..]);
  }

  /** Passing a '#' and the literal after it. */
  lemma PassTwo(k: Kind, t: string, it: TokenIter, orig: Pattern, g: Progress) returns (g': Progress)
    requires g.Holds(k, t, it, orig) && !it.Done(t) && it.Token(k, t) == [MATCH_GLOB]
    requires !it.Next(k, t).Done(t) && Classify(k, it.Next(k, t).Token(k, t)).Lit?
    ensures g'.Holds(k, t, it.Next(k, t).Next(k, t), orig)
  {
    hide Rewriting, NormalForm, Normalize, Split, TokenEnd;
    AtIterator(k, t, it, g.lead + g.x, g.u);
    var n := HeadLength(k, g.u);
    AtIterator(k, t, it.Next(k, t), g.lead + g.x + g.u[..n], g.u[n..]);
    var m := HeadLength(k, g.u[n..]);
    KeepGlob(k, g.x, g.u, n, m, orig);
    Cuts(g.lead + g.x, g.u, n, m);
    AppendAssoc(g.lead, g.x, g.u[..n + m]);
    g' := Progress(g.lead, g.x + g.u[..n + m], g.u[n + m..]);
  }

  /** The text at the iterator starts with "# sep c". */
  lemma GlobThen(k: Kind, t: string, it: TokenIter, orig: Pattern, g: Progress, c: char)
    requires g.Holds(k, t, it, orig) && !it.Done(t) && it.Token(k, t) == [MATCH_GLOB]
    requires !it.Next(k, t).Done(t) && it.Next(k, t).Token(k, t) == [c]
    ensures TwoHeads(k, g.u, MATCH_GLOB, c)
    ensures it.Next(k, t).begin == it.begin + 2 < |t|
    ensures it.end == it.begin + 1 && it.Next(k, t).end == it.begin + 3
    ensures t == (g.lead + g.x) + g.u && |g.lead + g.x| == it.begin
  {
    AtIterator(k, t, it, g.lead + g.x, g.u);
    TokenOfOne(k, g.u, MATCH_GLOB);
    AtIterator(k, t, it.Next(k, t), g.lead + g.x + g.u[..2], g.u[2..]);
    TokenOfOne(k, g.u[2..], c);
  }

  lemma NotYetNormal(k: Kind, t: string, it: TokenIter, orig: Pattern, g: Progress)
    requires g.Holds(k, t, it, orig) && orig == PatternOf(k, t) && g.u != []
    ensures PatternFrom(k, g.x) + PatternFrom(k, g.u) == orig
  {
    AppendAssoc(g.lead, g.x, g.u);
    LeadingSeparatorsOf(k, g.lead, g.x + g.u);
    PatternAppend(k, g.x, g.u);
  }

  /** "#.#": cutting two characters out of the text. */
  lemma Drop(k: Kind, t: string, it: TokenIter, orig: Pattern, g: Progress) returns (g': Progress)
    requires g.Holds(k, t, it, orig) && !it.Done(t) && it.Token(k, t) == [MATCH_GLOB]
    requires !it.Next(k, t).Done(t) && it.Next(k, t).Token(k, t) == [MATCH_GLOB]
    ensures it.Next(k, t).begin == it.begin + 2 < |t|
    ensures g'.Holds(k, t[..it.begin] + t[it.begin + 2..], it, orig)
    ensures orig == PatternOf(k, t) ==> !NormalForm(orig)
  {
    hide Rewriting, PatternFrom, NormalForm, Normalize, Split, ClassifyAll, TokenEnd;
    GlobThen(k, t, it, orig, g, MATCH_GLOB);
    DropGlob(k, g.x, g.u, orig);
    if orig == PatternOf(k, t) { NotYetNormal(k, t, it, orig, g); }
    g' := Progress(g.lead, g.x, g.u[2..]);
    CutTwo(t, g.lead + g.x, g.u);
    StandsAtNew(k, g.lead + g.x, g.u[2..], it);
  }

  /** "#.*": exchanging the two wildcards. */
  lemma Move(k: Kind, t: string, it: TokenIter, orig: Pattern, g: Progress) returns (g': Progress)
    requires g.Holds(k, t, it, orig) && !it.Done(t) && it.Token(k, t) == [MATCH_GLOB]
    requires !it.Next(k, t).Done(t) && it.Next(k, t).Token(k, t) == [MatchOne(k)]
    ensures it.Next(k, t).begin == it.begin + 2 < |t|
    ensures g'.Holds(k, t[it.begin + 2 := MATCH_GLOB][it.begin := MatchOne(k)], it.Next(k, t), orig)
    ensures orig == PatternOf(k, t) ==> !NormalForm(orig)
  {
    hide Rewriting, PatternFrom, NormalForm, Normalize, Split, ClassifyAll, TokenEnd, TokenLength, StandsAt;
    GlobThen(k, t, it, orig, g, MatchOne(k));
    SwappedHeads(k, g.u);
    MoveGlob(k, g.x, g.u, orig);
    if orig == PatternOf(k, t) { NotYetNormal(k, t, it, orig, g); }
    var w := Swapped(k, g.u);
    g' := Progress(g.lead, g.x + w[..2], w[2..]);
    SwapTwo(k, t, g.lead + g.x, g.u);
    AppendAssoc(g.lead, g.x, w[..2]);
    StandsAtNew(k, g.lead + g.x + w[..2], w[2..], it.Next(k, t));
  }

  lemma StandsAtNew(k: Kind, head: string, u: string, it: TokenIter)
    requires it.begin == |head| && it.end == |head| + TokenLength(k, u)
    ensures it.Valid(k, head + u) && StandsAt(k, head + u, it, head, u)
  {
    assert (head + u)[|head|..] == u;
  }

  lemma CutTwo(t: string, head: string, u: string)
    requires t == head + u && |u| >= 2
    ensures t[..|head|] + t[|head| + 2..] == head + u[2..]
  {
  }

  lemma SwapTwo(k: Kind, t: string, head: string, u: string)
    requires t == head + u && |u| >= 3
    ensures t[|head| + 2 := MATCH_GLOB][|head| := MatchOne(k)] == (head + Swapped(k, u)[..2]) + Swapped(k, u)[2..]
  {
  }

  lemma Finish(k: Kind, t: string, it: TokenIter, orig: Pattern, g: Progress)
    requires g.Holds(k, t, it, orig) && it.Done(t)
    ensures PatternOf(k, t) == Normalize(orig)
    ensures orig == PatternOf(k, t) ==> NormalForm(orig)
  {
    AtIterator(k, t, it, g.lead + g.x, g.u);
    AppendAssoc(g.lead, g.x, g.u);
    LeadingSeparatorsOf(k, g.lead, g.x + g.u);
    assert g.x + g.u == g.x;
    assert PatternFrom(k, g.x) + PatternFrom(k, g.u) == PatternFrom(k, g.x);
    NormalFormIsFixed(PatternFrom(k, g.x));
  }

  method WriteTwo(a: array<char>, n: nat, i: nat, c: char, j: nat, d: char)
    requires i < n <= a.Length && j < n
    modifies a
    ensures a[..n] == old(a[..n])[i := c][j := d]
  {
    a[i] := c;
    a[j] := d;
  }

  /** Rewrite a pattern string of length `n` in place; the result has length `m`. Afterwards
      the string denotes the normal form of the pattern it denoted before. MQTT patterns are
      left alone. */
  method NormalizePattern(k: Kind, a: array<char>, n: nat) returns (m: nat, modified: bool)
    requires n <= a.Length
    modifies a
    ensures m <= n
    ensures PatternOf(k, a[..m])
         == if k.Mqtt? then PatternOf(k, old(a[..n])) else Normalize(PatternOf(k, old(a[..n])))
    ensures modified <==> !k.Mqtt? && !NormalForm(PatternOf(k, old(a[..n])))
    ensures !modified ==> a[..m] == old(a[..n])
  {
    hide Rewriting, PatternFrom, NormalForm, Normalize, Split, ClassifyAll, TokenEnd, IsSeparator, StandsAt,
         PatternOf, Tokens, LeadingSeparators;
    m, modified := n, false;
    if k.Mqtt? { return; }
    ghost var orig := PatternOf(k, a[..n]);
    var it := IterInit(k, a[..m]);
    ghost var g := Begin(k, a[..m]);
    while !it.Done(a[..m])
      invariant m <= n
      invariant g.Holds(k, a[..m], it, orig)
      invariant modified ==> !NormalForm(orig)
      invariant !modified ==> a[..m] == old(a[..n])
      decreases m - it.begin
    {
      var t := a[..m];
      var next := it.Next(k, t);
      if it.Token(k, t) == [MATCH_GLOB] {
        if next.Done(t) {
          g := Pass(k, t, it, orig, g);
          it := next;
          break;
        }
        var token := next.Token(k, t);
        if token == [MATCH_GLOB] {
          g := Drop(k, t, it, orig, g);
          m := CopyDown(a, m, it.begin, next.begin);
          modified := true;
        } else if token == [MatchOne(k)] {
          g := Move(k, t, it, orig, g);
          WriteTwo(a, m, next.begin, MATCH_GLOB, it.begin, MatchOne(k));
          it, modified := next, true;
        } else {
          g := PassTwo(k, t, it, orig, g);
          it := next.Next(k, t);
        }
      } else {
        g := Pass(k, t, it, orig, g);
        it := next;
      }
    }
    Finish(k, a[..m], it, orig, g);
  }
}
