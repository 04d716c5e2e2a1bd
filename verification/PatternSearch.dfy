/** The tree search as a function on the tree's shape: a node is the token path that leads to
    it. Every stored pattern is counted in the search result, and the order of the result is
    compared with the documented precedence.
 */
module PatternSearch {
  import opened Patterns
  import opened Seqs

  /** The paths of all nodes, and those of the nodes that end a stored pattern. */
  datatype Shape = Shape(nodes: set<Pattern>, ends: set<Pattern>) {
    ghost predicate Valid() {
      && [] in nodes
      && ends <= nodes
      && [] !in ends
      && forall p | p in nodes && p != [] :: p[..|p| - 1] in nodes
    }
  }

  ghost function Height(nodes: set<Pattern>): (h: nat)
    ensures forall p | p in nodes :: |p| <= h
  {
    if nodes == {} then 0
    else
      var p :| p in nodes;
      var h := Height(nodes - {p});
      if |p| > h then |p| else h
  }

  function Here(t: Shape, c: Pattern, v: Value): seq<Pattern> {
    if v == [] && c in t.ends then [c] else []
  }

  /** Everything below node `c`: the literal child first, then '*', then '#'. */
  function Below(t: Shape, c: Pattern, v: Value): seq<Pattern>
    requires c in t.nodes
    decreases Height(t.nodes) - |c|, |v|, 1
  {
    LitPart(t, c, v) + (OnePart(t, c, v) + ManyPart(t, c, v))
  }

  function LitPart(t: Shape, c: Pattern, v: Value): seq<Pattern>
    requires c in t.nodes
    decreases Height(t.nodes) - |c|, 0, 0
  {
    if v != [] && c + [Lit(v[0])] in t.nodes then VisitLit(t, c + [Lit(v[0])], v[1..]) else []
  }

  function OnePart(t: Shape, c: Pattern, v: Value): seq<Pattern>
    requires c in t.nodes
    decreases Height(t.nodes) - |c|, 0, 0
  {
    if v != [] && c + [One] in t.nodes then VisitOne(t, c + [One], v) else []
  }

  function ManyPart(t: Shape, c: Pattern, v: Value): seq<Pattern>
    requires c in t.nodes
    decreases Height(t.nodes) - |c|, 0, 0
  {
    if c + [Many] in t.nodes then VisitMany(t, c + [Many], v) else []
  }

  /** A literal or root node that has already taken its token. */
  function VisitLit(t: Shape, c: Pattern, v: Value): seq<Pattern>
    requires c in t.nodes
    decreases Height(t.nodes) - |c|, |v|, 2
  {
    Here(t, c, v) + Below(t, c, v)
  }

  function VisitOne(t: Shape, c: Pattern, v: Value): seq<Pattern>
    requires c in t.nodes
    decreases Height(t.nodes) - |c|, |v|, 2
  {
    if v == [] then [] else Here(t, c, v[1..]) + Below(t, c, v[1..])
  }

  /** A '#' node tries its children on every non-empty rest of the value and then reports
      itself. */
  function VisitMany(t: Shape, c: Pattern, v: Value): seq<Pattern>
    requires c in t.nodes
    decreases Height(t.nodes) - |c|, |v|, 2
  {
    if v == [] then (if c in t.ends then [c] else [])
    else Below(t, c, v) + VisitMany(t, c, v[1..])
  }

  /** A search that is never stopped, from the root. */
  function Search(t: Shape, v: Value): seq<Pattern>
    requires t.Valid()
  {
    Below(t, [], v)
  }

  // ---------------------------------------------------------------- counting

  function Count(s: seq<Pattern>, p: Pattern): nat {
    if s == [] then 0 else (if s[0] == p then 1 else 0) + Count(s[1..], p)
  }

  lemma {:induction false} CountAppend(a: seq<Pattern>, b: seq<Pattern>, p: Pattern)
    ensures Count(a + b, p) == Count(a, p) + Count(b, p)
  {
    if a == [] {
      assert a + b == b;
    } else {
      assert (a + b)[1..] == a[1..] + b;
      CountAppend(a[1..], b, p);
    }
  }

  lemma {:induction false} CountIn(s: seq<Pattern>, p: Pattern)
    ensures Count(s, p) > 0 <==> p in s
  {
    if s != [] { CountIn(s[1..], p); }
  }

  predicate IsPrefix(c: Pattern, p: Pattern) { |c| <= |p| && p[..|c|] == c }

  lemma {:induction false} AncestorIsNode(t: Shape, p: Pattern, n: nat)
    requires t.Valid() && p in t.nodes && n <= |p|
    ensures p[..n] in t.nodes
    decreases |p|
  {
    if n == |p| {
      assert p[..n] == p;
    } else {
      var q := p[..|p| - 1];
      AncestorIsNode(t, q, n);
      assert q[..n] == p[..n];
    }
  }

  /** What the tokens after node `c` would report, if `p` is stored below `c`. */
  function Due(t: Shape, c: Pattern, p: Pattern, v: Value): nat
  {
    if p in t.ends && IsPrefix(c, p) && c != p then Reports(p[|c|..], v) else 0
  }

  /** The child of `c` on the way to `p`. */
  lemma StepDown(t: Shape, c: Pattern, p: Pattern, k: Tok)
    requires t.Valid() && p in t.ends
    ensures IsPrefix(c + [k], p) <==> IsPrefix(c, p) && |c| < |p| && p[|c|] == k
    ensures IsPrefix(c + [k], p) ==> c + [k] in t.nodes && p[|c|..] == [k] + p[|c| + 1..]
  {
    if IsPrefix(c, p) && |c| < |p| && p[|c|] == k { assert p[..|c| + 1] == c + [k]; }
    if IsPrefix(c + [k], p) {
      assert p[..|c|] == (c + [k])[..|c|] == c;
      assert p[|c|] == (c + [k])[|c|];
      AncestorIsNode(t, p, |c| + 1);
    }
  }

  predicate StoredUnder(t: Shape, c: Pattern, p: Pattern) { p in t.ends && IsPrefix(c, p) }

  lemma {:induction false} VisitLitCount(t: Shape, c: Pattern, v: Value, p: Pattern)
    requires t.Valid() && c in t.nodes
    ensures Count(VisitLit(t, c, v), p) == if StoredUnder(t, c, p) then Reports(p[|c|..], v) else 0
    decreases Height(t.nodes) - |c|, |v|, 2
  {
    CountAppend(Here(t, c, v), Below(t, c, v), p);
    BelowCount(t, c, v, p);
    HereCount(t, c, v, p);
  }

  lemma HereCount(t: Shape, c: Pattern, v: Value, p: Pattern)
    ensures Count(Here(t, c, v), p) + Due(t, c, p, v) == if StoredUnder(t, c, p) then Reports(p[|c|..], v) else 0
  {
    if c == p { assert p[|c|..] == []; }
    assert Count([c], p) == if c == p then 1 else 0;
  }

  lemma {:induction false} VisitOneCount(t: Shape, c: Pattern, v: Value, p: Pattern)
    requires t.Valid() && c in t.nodes
    ensures Count(VisitOne(t, c, v), p)
         == if v != [] && StoredUnder(t, c, p) then Reports(p[|c|..], v[1..]) else 0
    decreases Height(t.nodes) - |c|, |v|, 2
  {
    if v != [] {
      CountAppend(Here(t, c, v[1..]), Below(t, c, v[1..]), p);
      BelowCount(t, c, v[1..], p);
      HereCount(t, c, v[1..], p);
    }
  }

  lemma {:induction false} VisitManyCount(t: Shape, c: Pattern, v: Value, p: Pattern)
    requires t.Valid() && c in t.nodes
    ensures Count(VisitMany(t, c, v), p)
         == if StoredUnder(t, c, p) then Reports([Many] + p[|c|..], v) else 0
    decreases Height(t.nodes) - |c|, |v|, 2
  {
    if StoredUnder(t, c, p) {
      var r := p[|c|..];
      assert ([Many] + r)[1..] == r;
      assert r == [] <==> c == p;
      assert [Many] + r == [Many] <==> r == [] by { if r != [] { assert |[Many] + r| > 1; } }
    }
    if v == [] {
      assert Count([c], p) == if c == p then 1 else 0;
    } else {
      CountAppend(Below(t, c, v), VisitMany(t, c, v[1..]), p);
      BelowCount(t, c, v, p);
      VisitManyCount(t, c, v[1..], p);
    }
  }

  lemma {:induction false} LitPartCount(t: Shape, c: Pattern, v: Value, p: Pattern)
    requires t.Valid() && c in t.nodes
    ensures Count(LitPart(t, c, v), p)
         == if v != [] && StoredUnder(t, c + [Lit(v[0])], p) then Reports(p[|c| + 1..], v[1..]) else 0
    decreases Height(t.nodes) - |c|, 0, 0
  {
    if v != [] {
      if c + [Lit(v[0])] in t.nodes { VisitLitCount(t, c + [Lit(v[0])], v[1..], p); }
      if p in t.ends { StepDown(t, c, p, Lit(v[0])); }
    }
  }

  lemma {:induction false} OnePartCount(t: Shape, c: Pattern, v: Value, p: Pattern)
    requires t.Valid() && c in t.nodes
    ensures Count(OnePart(t, c, v), p)
         == if v != [] && StoredUnder(t, c + [One], p) then Reports(p[|c| + 1..], v[1..]) else 0
    decreases Height(t.nodes) - |c|, 0, 0
  {
    var d := c + [One];
    if v != [] {
      if d in t.nodes { VisitOneCount(t, d, v, p); }
      if p in t.ends { StepDown(t, c, p, One); }
    }
  }

  lemma {:induction false} ManyPartCount(t: Shape, c: Pattern, v: Value, p: Pattern)
    requires t.Valid() && c in t.nodes
    ensures Count(ManyPart(t, c, v), p)
         == if StoredUnder(t, c + [Many], p) then Reports([Many] + p[|c| + 1..], v) else 0
    decreases Height(t.nodes) - |c|, 0, 0
  {
    if c + [Many] in t.nodes { VisitManyCount(t, c + [Many], v, p); }
    if p in t.ends { StepDown(t, c, p, Many); }
  }

  /** Below any node, a stored pattern is reported as often as its remaining tokens say. */
  lemma {:induction false} BelowCount(t: Shape, c: Pattern, v: Value, p: Pattern)
    requires t.Valid() && c in t.nodes
    ensures Count(Below(t, c, v), p) == Due(t, c, p, v)
    decreases Height(t.nodes) - |c|, |v|, 1
  {
    CountAppend(LitPart(t, c, v), OnePart(t, c, v) + ManyPart(t, c, v), p);
    CountAppend(OnePart(t, c, v), ManyPart(t, c, v), p);
    LitPartCount(t, c, v, p);
    OnePartCount(t, c, v, p);
    ManyPartCount(t, c, v, p);
    DueSplits(t, c, p, v);
  }

  /** What is due below a node is due to exactly one of its children. */
  lemma DueSplits(t: Shape, c: Pattern, p: Pattern, v: Value)
    requires t.Valid()
    ensures Due(t, c, p, v)
         == (if v != [] && StoredUnder(t, c + [Lit(v[0])], p) then Reports(p[|c| + 1..], v[1..]) else 0)
          + (if v != [] && StoredUnder(t, c + [One], p) then Reports(p[|c| + 1..], v[1..]) else 0)
          + (if StoredUnder(t, c + [Many], p) then Reports([Many] + p[|c| + 1..], v) else 0)
  {
    if p in t.ends {
      StepDown(t, c, p, One);
      StepDown(t, c, p, Many);
      if v != [] { StepDown(t, c, p, Lit(v[0])); }
      if IsPrefix(c, p) && c != p {
        assert |c| < |p|;
        var k := p[|c|];
        StepDown(t, c, p, k);
        if !k.Many? { ReportsHead(k, p[|c| + 1..], v); }
      }
    }
  }

  lemma ReportsHead(k: Tok, r: Pattern, v: Value)
    requires !k.Many?
    ensures Reports([k] + r, v) == if v != [] && (k.One? || k == Lit(v[0])) then Reports(r, v[1..]) else 0
  {
    var p := [k] + r;
    assert p[0] == k && p[1..] == r;
    assert p != [Many] by { assert [Many][0].Many?; }
    if v != [] { assert v[..1] == [v[0]]; }
  }

  /** A never-stopping search reports every stored pattern as often as `Reports` says, and
      nothing else. */
  lemma SearchCount(t: Shape, v: Value, p: Pattern)
    requires t.Valid()
    ensures Count(Search(t, v), p) == if p in t.ends then Reports(p, v) else 0
  {
    BelowCount(t, [], v, p);
    assert p[..0] == [] && p[0..] == p;
  }

  /** In a tree without patterns that end in "#.#" (normal-form patterns do not) the search
      reports each stored pattern once per alignment: never unless it matches, and exactly
      once if it matches and has at most one '#'. */
  lemma SearchReportsAlignments(t: Shape, v: Value, p: Pattern)
    requires t.Valid()
    requires forall q | q in t.ends :: !EndsInTwoGlobs(q)
    ensures Count(Search(t, v), p) == if p in t.ends then Alignments(p, v) else 0
    ensures p in Search(t, v) <==> p in t.ends && Matches(p, v)
    ensures p in t.ends && Matches(p, v) && Globs(p) <= 1 ==> Count(Search(t, v), p) == 1
  {
    SearchCount(t, v, p);
    CountIn(Search(t, v), p);
    if p in t.ends {
      ReportsAreAlignments(p, v);
      MatchesIffAligned(p, v);
      if Globs(p) <= 1 { OneGlobOneAlignment(p, v); }
    }
  }

  /** Without the normal form a match can be missed: "#.#" matches the empty value and is
      not reported. */
  lemma UnnormalizedPatternIsMissed()
    ensures Matches([Many, Many], [])
    ensures forall t: Shape | t.Valid() :: [Many, Many] !in Search(t, [])
  {
    MatchesIffAligned([Many, Many], []);
    AlignmentsOfNothing([Many, Many]);
    forall t: Shape | t.Valid() ensures [Many, Many] !in Search(t, []) {
      SearchCount(t, [], [Many, Many]);
      CountIn(Search(t, []), [Many, Many]);
      assert [Many, Many][0].Many?;
    }
  }

  // ---------------------------------------------------------------- precedence

  function Rank(k: Tok): nat { match k case Lit(_) => 0 case One => 1 case Many => 2 }

  /** `p` and `q` agree on their first `n` tokens, none of them '#', and then `p` ends or has
      the more specific token. */
  predicate Beats(p: Pattern, q: Pattern, n: nat) {
    && n <= |p| && n < |q|
    && p[..n] == q[..n]
    && (forall i | 0 <= i < n :: !p[i].Many?)
    && (n < |p| ==> Rank(p[n]) < Rank(q[n]))
  }

  /** Every report of `p` comes before every report of `q`. */
  ghost predicate Before(s: seq<Pattern>, p: Pattern, q: Pattern) {
    forall i, j | 0 <= i < |s| && 0 <= j < |s| && s[i] == p && s[j] == q :: i < j
  }

  lemma BeforeAppend(a: seq<Pattern>, b: seq<Pattern>, p: Pattern, q: Pattern)
    requires Before(a, p, q) && Before(b, p, q)
    requires q !in a || p !in b
    ensures Before(a + b, p, q)
  {
    var s := a + b;
    forall i, j | 0 <= i < |s| && 0 <= j < |s| && s[i] == p && s[j] == q ensures i < j {
      if i >= |a| { assert b[i - |a|] == p; if j >= |a| { assert b[j - |a|] == q; } }
    }
  }

  lemma BelowHolds(t: Shape, c: Pattern, v: Value, p: Pattern)
    requires t.Valid() && c in t.nodes
    ensures p in Below(t, c, v) ==> StoredUnder(t, c, p) && c != p
  {
    BelowCount(t, c, v, p);
    CountIn(Below(t, c, v), p);
  }

  /** Each part reports only patterns that go through its child. */
  lemma PartsHold(t: Shape, c: Pattern, v: Value, p: Pattern)
    requires t.Valid() && c in t.nodes && IsPrefix(c, p) && |c| < |p|
    ensures p in LitPart(t, c, v) ==> p[|c|].Lit?
    ensures p in OnePart(t, c, v) ==> p[|c|].One?
    ensures p in ManyPart(t, c, v) ==> p[|c|].Many?
  {
    CountIn(LitPart(t, c, v), p);
    CountIn(OnePart(t, c, v), p);
    CountIn(ManyPart(t, c, v), p);
    LitPartCount(t, c, v, p);
    OnePartCount(t, c, v, p);
    ManyPartCount(t, c, v, p);
    if p in t.ends {
      StepDown(t, c, p, One);
      StepDown(t, c, p, Many);
      if v != [] { StepDown(t, c, p, Lit(v[0])); }
    }
  }

  lemma PrefixOf(c: Pattern, p: Pattern, q: Pattern, n: nat)
    requires Beats(p, q, n) && |c| < n && IsPrefix(c, p) && IsPrefix(c, q)
    ensures p[|c|] == q[|c|] && !p[|c|].Many?
    ensures IsPrefix(c + [p[|c|]], p) && IsPrefix(c + [p[|c|]], q)
  {
    assert p[|c|] == p[..n][|c|] && q[|c|] == q[..n][|c|];
    assert p[..|c| + 1] == c + [p[|c|]] && q[..|c| + 1] == c + [p[|c|]];
  }

  /** At a node on the common path: if the node itself is `p` it is reported before
      everything below it. */
  lemma {:induction false} VisitPrecedence(t: Shape, c: Pattern, v: Value, p: Pattern, q: Pattern, n: nat)
    requires t.Valid() && c in t.nodes && Beats(p, q, n)
    requires |c| <= n && IsPrefix(c, p) && IsPrefix(c, q)
    ensures Before(VisitLit(t, c, v), p, q)
    decreases n - |c|, 1
  {
    if c == p {
      BelowHolds(t, c, v, p);
      assert Before(Here(t, c, v), p, q) && Before(Below(t, c, v), p, q);
    } else {
      BelowPrecedence(t, c, v, p, q, n);
    }
    BeforeAppend(Here(t, c, v), Below(t, c, v), p, q);
  }

  lemma {:induction false} BelowPrecedence(t: Shape, c: Pattern, v: Value, p: Pattern, q: Pattern, n: nat)
    requires t.Valid() && c in t.nodes && Beats(p, q, n)
    requires |c| <= n && IsPrefix(c, p) && IsPrefix(c, q) && c != p
    ensures Before(Below(t, c, v), p, q)
    decreases n - |c|, 0
  {
    var a, b, d := LitPart(t, c, v), OnePart(t, c, v), ManyPart(t, c, v);
    PartsHold(t, c, v, p);
    PartsHold(t, c, v, q);
    if |c| < n {
      PrefixOf(c, p, q, n);
      if v != [] {
        if c + [Lit(v[0])] in t.nodes && p[|c|] == Lit(v[0]) {
          VisitPrecedence(t, c + [Lit(v[0])], v[1..], p, q, n);
        } else {
          WrongLiteral(t, c, v, p);
        }
        if c + [One] in t.nodes && p[|c|] == One {
          VisitPrecedence(t, c + [One], v[1..], p, q, n);
          OneTakesOne(t, c + [One], v);
        }
      }
    }
    BeforeAppend(b, d, p, q);
    BeforeAppend(a, b + d, p, q);
  }

  lemma OneTakesOne(t: Shape, c: Pattern, v: Value)
    requires c in t.nodes && v != []
    ensures VisitOne(t, c, v) == VisitLit(t, c, v[1..])
  {
  }

  lemma WrongLiteral(t: Shape, c: Pattern, v: Value, p: Pattern)
    requires t.Valid() && c in t.nodes && IsPrefix(c, p) && |c| < |p| && v != []
    requires c + [Lit(v[0])] in t.nodes ==> p[|c|] != Lit(v[0])
    ensures p !in LitPart(t, c, v)
  {
    CountIn(LitPart(t, c, v), p);
    LitPartCount(t, c, v, p);
    if p in t.ends { StepDown(t, c, p, Lit(v[0])); }
  }

  /** The search reports the more specific of two patterns first, where the first difference
      is not preceded by '#'. */
  lemma SearchPrecedence(t: Shape, v: Value, p: Pattern, q: Pattern, n: nat)
    requires t.Valid() && Beats(p, q, n)
    ensures Before(Search(t, v), p, q)
  {
    if p == [] {
      BelowHolds(t, [], v, p);
    } else {
      BelowPrecedence(t, [], v, p, q, n);
    }
  }

  /** The first report of a search exists exactly when some stored pattern is reported, and no
      reported pattern beats it. */
  lemma FirstReportIsBest(t: Shape, v: Value)
    requires t.Valid()
    ensures Search(t, v) != [] <==> exists q :: q in t.ends && Reports(q, v) > 0
    ensures Search(t, v) != [] ==> Search(t, v)[0] in t.ends && Reports(Search(t, v)[0], v) > 0
    ensures Search(t, v) != [] ==>
              forall q, n: nat | q in t.ends && Reports(q, v) > 0 :: !Beats(q, Search(t, v)[0], n)
  {
    hide Beats, Search;
    var s := Search(t, v);
    forall q ensures q in s <==> q in t.ends && Reports(q, v) > 0 { SearchCount(t, v, q); CountIn(s, q); }
    if s != [] {
      assert s[0] in s;
      forall q, n: nat | q in t.ends && Reports(q, v) > 0 ensures !Beats(q, s[0], n) {
        assert q in s;
        var j :| 0 <= j < |s| && s[j] == q;
        if Beats(q, s[0], n) { SearchPrecedence(t, v, q, s[0], n); }
      }
    }
  }

  /** In a tree without patterns that end in "#.#" it exists exactly when some stored pattern
      matches, matches itself, and no stored match beats it. */
  lemma FirstMatchIsBest(t: Shape, v: Value)
    requires t.Valid()
    requires forall q | q in t.ends :: !EndsInTwoGlobs(q)
    ensures Search(t, v) != [] <==> exists q :: q in t.ends && Matches(q, v)
    ensures Search(t, v) != [] ==> Search(t, v)[0] in t.ends && Matches(Search(t, v)[0], v)
    ensures Search(t, v) != [] ==>
              forall q, n: nat | q in t.ends && Matches(q, v) :: !Beats(q, Search(t, v)[0], n)
  {
    hide Beats, Search, Matches, Reports, EndsInTwoGlobs;
    FirstReportIsBest(t, v);
    forall q | q in t.ends ensures Reports(q, v) > 0 <==> Matches(q, v) { ReportedIffMatching(q, v); }
  }

  lemma MatchesAreReported(v: Value)
    ensures forall q :: Reports(q, v) > 0 ==> Matches(q, v)
    ensures forall q | !EndsInTwoGlobs(q) :: Reports(q, v) > 0 <==> Matches(q, v)
  {
    hide Reports, Matches, EndsInTwoGlobs;
    forall q ensures (Reports(q, v) > 0 ==> Matches(q, v)) && (!EndsInTwoGlobs(q) && Matches(q, v) ==> Reports(q, v) > 0) {
      ReportedIffMatching(q, v);
    }
  }

  lemma ReportedIffMatching(q: Pattern, v: Value)
    ensures Reports(q, v) > 0 ==> Matches(q, v)
    ensures !EndsInTwoGlobs(q) && Matches(q, v) ==> Reports(q, v) > 0
  {
    hide EndsInTwoGlobs;
    MatchesIffAligned(q, v);
    FewerReports(q, v);
    if !EndsInTwoGlobs(q) { ReportsAreAlignments(q, v); }
  }

  /** After a '#' the order no longer follows the tokens: for the value a.c.a.b, a tree that
      stores "#.a.b" and "#.a.#" reports the latter first. */
  lemma GlobHidesPrecedence(t: Shape, v: Value)
    requires t.Valid()
    requires t.ends == {[Many, Lit("a"), Lit("b")], [Many, Lit("a"), Many]}
    requires v == ["a", "c", "a", "b"]
    ensures var p, q := [Many, Lit("a"), Lit("b")], [Many, Lit("a"), Many];
            && Matches(p, v) && Matches(q, v)
            && p[..2] == q[..2] && Rank(p[2]) < Rank(q[2])
            && Search(t, v) != [] && Search(t, v)[0] == q
  {
    var p, q := [Many, Lit("a"), Lit("b")], [Many, Lit("a"), Many];
    GlobExample(v, p, q);
    FirstUnderGlob(t, v, p, q);
  }

  /** Of two patterns below a leading '#', the one that matches the whole value after it is
      reported before one that does not. */
  lemma FirstUnderGlob(t: Shape, v: Value, p: Pattern, q: Pattern)
    requires t.Valid() && t.ends == {p, q} && v != []
    requires |p| > 1 && |q| > 1 && p[0] == Many && q[0] == Many
    requires Reports(p[1..], v) == 0 && Reports(q[1..], v) > 0
    ensures Search(t, v) != [] && Search(t, v)[0] == q
  {
    NoneStartsPlain(t, v);
    var c: Pattern := [Many];
    AncestorIsNode(t, q, 1);
    assert p[..1] == c && q[..1] == c && [] + [Many] == c;
    var s := Below(t, c, v);
    BelowCount(t, c, v, p);
    BelowCount(t, c, v, q);
    CountIn(s, p);
    CountIn(s, q);
    BelowHolds(t, c, v, s[0]);
    SearchStartsBelowGlob(t, v);
  }

  lemma SearchStartsBelowGlob(t: Shape, v: Value)
    requires t.Valid() && v != [] && [Many] in t.nodes
    requires LitPart(t, [], v) == [] && OnePart(t, [], v) == []
    ensures Below(t, [Many], v) <= Search(t, v)
  {
    assert [] + [Many] == [Many];
    assert ManyPart(t, [], v) == Below(t, [Many], v) + VisitMany(t, [Many], v[1..]);
    assert Search(t, v) == [] + ([] + ManyPart(t, [], v));
  }

  lemma NoneStartsPlain(t: Shape, v: Value)
    requires t.Valid() && forall p: Pattern | p in t.ends :: p != [] && p[0].Many?
    ensures LitPart(t, [], v) == [] && OnePart(t, [], v) == []
  {
    var a, b := LitPart(t, [], v), OnePart(t, [], v);
    if a != [] {
      assert a[0] in a;
      assert a[0] in Below(t, [], v);
      BelowHolds(t, [], v, a[0]);
      PartsHold(t, [], v, a[0]);
    }
    if b != [] {
      assert b[0] in b;
      assert b[0] in Below(t, [], v);
      BelowHolds(t, [], v, b[0]);
      PartsHold(t, [], v, b[0]);
    }
  }

  lemma GlobExample(v: Value, p: Pattern, q: Pattern)
    requires v == ["a", "c", "a", "b"]
    requires p == [Many, Lit("a"), Lit("b")] && q == [Many, Lit("a"), Many]
    ensures Matches(p, v) && Matches(q, v)
    ensures Reports(p[1..], v) == 0 && Reports(q[1..], v) == 1
  {
    var a, b := Lit("a"), Lit("b");
    assert p[1..] == [a] + [b] && q[1..] == [a] + [Many];
    ReportsHead(a, [b], v);
    ReportsHead(a, [Many], v);
    assert [b] == [b] + [];
    ReportsHead(b, [], v[1..]);
    ReportsHead(b, [], v[3..]);
    ReportsHead(a, [b], v[2..]);
    assert v[2..][1..] == v[3..];
    ReportsAreAlignments(p, v);
    ReportsAreAlignments(q, v);
    assert Reports(q, v) >= Reports(q[1..], v);
    assert v[1..][1..] == v[2..];
    assert Reports(p, v) >= Reports(p, v[1..]) >= Reports(p, v[2..]) >= Reports(p[1..], v[2..]);
    MatchesIffAligned(p, v);
    MatchesIffAligned(q, v);
  }

  // ---------------------------------------------------------------- stopping early

  /** Hand the reports of `s` to a callback one by one. `go` sees everything reported so far
      and answers whether to continue. */
  function Deliver(log: seq<Pattern>, s: seq<Pattern>, go: seq<Pattern> -> bool): (seq<Pattern>, bool)
    decreases |s|
  {
    if s == [] then (log, true)
    else if go(log + [s[0]]) then Deliver(log + [s[0]], s[1..], go)
    else (log + [s[0]], false)
  }

  lemma {:induction false} DeliverAppend(log: seq<Pattern>, a: seq<Pattern>, b: seq<Pattern>, go: seq<Pattern> -> bool)
    ensures Deliver(log, a + b, go)
         == (var (mid, more) := Deliver(log, a, go); if more then Deliver(mid, b, go) else (mid, false))
    decreases |a|
  {
    if a == [] {
      assert a + b == b;
    } else {
      assert (a + b)[1..] == a[1..] + b;
      DeliverAppend(log + [a[0]], a[1..], b, go);
    }
  }

  /** Stopping early only cuts the result short: what is reported is a prefix of the full
      result, and the callback answered "continue" on all but possibly the last report. */
  lemma {:induction false} DeliverIsPrefix(log: seq<Pattern>, s: seq<Pattern>, go: seq<Pattern> -> bool) returns (n: nat)
    ensures n <= |s|
    ensures Deliver(log, s, go).0 == log + s[..n]
    ensures forall i | 0 < i < n :: go(log + s[..i])
    ensures if Deliver(log, s, go).1 then n == |s| && (n > 0 ==> go(log + s[..n])) else n > 0 && !go(log + s[..n])
    decreases |s|
  {
    if s == [] {
      n := 0;
    } else {
      assert log + s[..1] == log + [s[0]];
      if go(log + [s[0]]) {
        var m := DeliverIsPrefix(log + [s[0]], s[1..], go);
        n := m + 1;
        forall i | 0 < i <= n ensures log + s[..i] == (log + [s[0]]) + s[1..][..i - 1] {
          assert s[..i] == [s[0]] + s[1..][..i - 1];
        }
      } else {
        n := 1;
      }
    }
  }
}
