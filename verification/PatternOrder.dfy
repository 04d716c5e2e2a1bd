/** The order in which a search reports two patterns, exactly, with any number of '#' before
    their first difference.
 */
module PatternOrder {
  import opened Patterns
  import opened PatternSearch
  import opened Seqs

  /** `p` and `q` agree on their first `n` tokens, and then `p` ends or has the more specific
      token. */
  predicate MoreSpecific(p: Pattern, q: Pattern, n: nat) {
    n <= |p| && n < |q| && p[..n] == q[..n] && (n < |p| ==> Rank(p[n]) < Rank(q[n]))
  }

  /** Does `q` overtake `p` below their common first `k` tokens? It does at a common '#' where
      its rest fits the value at once while that of `p` fits only, or also, further on. */
  predicate Overtakes(q: Pattern, p: Pattern, k: nat, n: nat, v: Value)
    requires MoreSpecific(p, q, n) && k <= n
    decreases n - k, |v|
  {
    if k == n || v == [] then false
    else if p[k].Many? then
      || (Reports(q[k + 1..], v) > 0 && Reports(p[k..], v[1..]) > 0)
      || Overtakes(q, p, k + 1, n, v)
      || Overtakes(q, p, k, n, v[1..])
    else Accepts(p[k], v[..1]) && Overtakes(q, p, k + 1, n, v[1..])
  }

  // ---------------------------------------------------------------- the order of two lists

  lemma BeforeOfParts(a: seq<Pattern>, b: seq<Pattern>, p: Pattern, q: Pattern)
    ensures Before(a + b, p, q) <==> Before(a, p, q) && Before(b, p, q) && !(q in a && p in b)
  {
    var s := a + b;
    if q in a && p in b {
      var j :| 0 <= j < |a| && a[j] == q;
      var i :| 0 <= i < |b| && b[i] == p;
      assert s[j] == q && s[|a| + i] == p;
    }
    if Before(s, p, q) {
      forall i, j | 0 <= i < |a| && 0 <= j < |a| && a[i] == p && a[j] == q ensures i < j {
        assert s[i] == p && s[j] == q;
      }
      forall i, j | 0 <= i < |b| && 0 <= j < |b| && b[i] == p && b[j] == q ensures i < j {
        assert s[|a| + i] == p && s[|a| + j] == q;
      }
    } else if Before(a, p, q) && Before(b, p, q) && !(q in a && p in b) {
      BeforeAppend(a, b, p, q);
    }
  }

  lemma BeforeWithout(s: seq<Pattern>, p: Pattern, q: Pattern)
    requires p !in s || q !in s
    ensures Before(s, p, q)
  {
  }

  // ---------------------------------------------------------------- one node

  /** Node `c` is on the way to both. */
  predicate OnTheWay(t: Shape, c: Pattern, p: Pattern, q: Pattern, n: nat) {
    && c in t.nodes && p in t.ends && q in t.ends && MoreSpecific(p, q, n)
    && |c| <= n && IsPrefix(c, p) && IsPrefix(c, q)
  }

  lemma OneStep(t: Shape, c: Pattern, p: Pattern, q: Pattern, n: nat)
    requires t.Valid() && OnTheWay(t, c, p, q, n) && |c| < n
    ensures p[|c|] == q[|c|] && OnTheWay(t, c + [p[|c|]], p, q, n)
  {
    assert p[|c|] == p[..n][|c|] && q[|c|] == q[..n][|c|];
    StepDown(t, c, p, p[|c|]);
    StepDown(t, c, q, q[|c|]);
  }

  /** Before any common '#' is passed, the order at a node that has taken its token is the
      order below it. */
  lemma {:induction false} VisitOrder(t: Shape, c: Pattern, v: Value, p: Pattern, q: Pattern, n: nat)
    requires t.Valid() && OnTheWay(t, c, p, q, n)
    ensures Before(VisitLit(t, c, v), p, q) <==> !Overtakes(q, p, |c|, n, v)
    decreases n - |c|, |v|, 1
  {
    hide Below, Overtakes;
    BeforeOfParts(Here(t, c, v), Below(t, c, v), p, q);
    if c == p {
      BelowHolds(t, c, v, p);
      NoneAtTheEnd(p, q, n, v);
    } else {
      BelowOrder(t, c, v, p, q, n);
    }
  }

  lemma NoneAtTheEnd(p: Pattern, q: Pattern, n: nat, v: Value)
    requires MoreSpecific(p, q, n)
    ensures !Overtakes(q, p, n, n, v)
  {
  }

  /** Where the patterns part, the more specific child comes first. */
  lemma {:induction false} PartingOrder(t: Shape, c: Pattern, v: Value, p: Pattern, q: Pattern)
    requires t.Valid() && OnTheWay(t, c, p, q, |c|) && c != p
    ensures Before(Below(t, c, v), p, q)
  {
    hide LitPart, OnePart, ManyPart;
    var a, b, d := LitPart(t, c, v), OnePart(t, c, v), ManyPart(t, c, v);
    PartsHold(t, c, v, p);
    PartsHold(t, c, v, q);
    BeforeOfParts(b, d, p, q);
    BeforeOfParts(a, b + d, p, q);
  }

  /** Below a node before the parting, both are reported by one child only. */
  lemma {:induction false} ChildOrder(t: Shape, c: Pattern, v: Value, p: Pattern, q: Pattern, n: nat)
    requires t.Valid() && OnTheWay(t, c, p, q, n) && |c| < n
    ensures Before(Below(t, c, v), p, q) <==>
            Before(if p[|c|].Lit? then LitPart(t, c, v) else if p[|c|].One? then OnePart(t, c, v) else ManyPart(t, c, v), p, q)
  {
    hide LitPart, OnePart, ManyPart;
    OneStep(t, c, p, q, n);
    var a, b, d := LitPart(t, c, v), OnePart(t, c, v), ManyPart(t, c, v);
    PartsHold(t, c, v, p);
    PartsHold(t, c, v, q);
    BeforeOfParts(b, d, p, q);
    BeforeOfParts(a, b + d, p, q);
  }

  lemma {:induction false} BelowOrder(t: Shape, c: Pattern, v: Value, p: Pattern, q: Pattern, n: nat)
    requires t.Valid() && OnTheWay(t, c, p, q, n) && c != p
    ensures Before(Below(t, c, v), p, q) <==> !Overtakes(q, p, |c|, n, v)
    decreases n - |c|, |v|, 0
  {
    hide Below, VisitLit, VisitMany, VisitOne, Before;
    if |c| == n {
      PartingOrder(t, c, v, p, q);
    } else {
      var k := p[|c|];
      OneStep(t, c, p, q, n);
      ChildOrder(t, c, v, p, q, n);
      if k.Many? {
        ManyOrder(t, c + [Many], v, p, q, n);
      } else if v == [] {
        BeforeWithout([], p, q);
      } else if !Accepts(k, v[..1]) {
        WrongLiteral(t, c, v, p);
        BeforeWithout(LitPart(t, c, v), p, q);
      } else {
        VisitOrder(t, c + [k], v[1..], p, q, n);
        if k.One? { OneTakesOne(t, c + [One], v); }
      }
    }
  }

  /** At a common '#' the rests of the value are tried from the longest down. */
  lemma {:induction false} ManyOrder(t: Shape, d: Pattern, v: Value, p: Pattern, q: Pattern, n: nat)
    requires t.Valid() && OnTheWay(t, d, p, q, n) && |d| > 0 && p[|d| - 1].Many? && q[|d| - 1].Many?
    ensures Before(VisitMany(t, d, v), p, q) <==> !Overtakes(q, p, |d| - 1, n, v)
    decreases n - |d|, |v|, 2
  {
    hide Below, Before, Reports;
    if v == [] {
      BeforeWithout(VisitMany(t, d, v), p, q);
    } else {
      BeforeOfParts(Below(t, d, v), VisitMany(t, d, v[1..]), p, q);
      ReportedBelow(t, d, v, q);
      ReportedLater(t, d, v[1..], p);
      ManyOrder(t, d, v[1..], p, q, n);
      if d == p {
        BelowHolds(t, d, v, p);
        BeforeWithout(Below(t, d, v), p, q);
        NoneAtTheEnd(p, q, n, v);
      } else {
        BelowOrder(t, d, v, p, q, n);
      }
    }
  }

  lemma ReportedBelow(t: Shape, d: Pattern, v: Value, q: Pattern)
    requires t.Valid() && d in t.nodes && q in t.ends && IsPrefix(d, q) && |d| < |q|
    ensures q in Below(t, d, v) <==> Reports(q[|d|..], v) > 0
  {
    BelowCount(t, d, v, q);
    CountIn(Below(t, d, v), q);
  }

  lemma ReportedLater(t: Shape, d: Pattern, v: Value, p: Pattern)
    requires t.Valid() && d in t.nodes && p in t.ends && IsPrefix(d, p) && |d| > 0 && p[|d| - 1].Many?
    ensures p in VisitMany(t, d, v) <==> Reports(p[|d| - 1..], v) > 0
  {
    VisitManyCount(t, d, v, p);
    CountIn(VisitMany(t, d, v), p);
    assert p[|d| - 1..] == [Many] + p[|d|..];
  }

  // ---------------------------------------------------------------- the search

  /** The search reports the more specific of two stored patterns first if and only if the other
      does not overtake it at a common '#'. */
  lemma {:induction false} SearchOrder(t: Shape, v: Value, p: Pattern, q: Pattern, n: nat)
    requires t.Valid() && p in t.ends && q in t.ends && MoreSpecific(p, q, n)
    ensures Before(Search(t, v), p, q) <==> !Overtakes(q, p, 0, n, v)
  {
    assert p[..0] == [] && q[..0] == [];
    BelowOrder(t, [], v, p, q, n);
  }

  predicate NoGlob(p: Pattern, from: nat, to: nat)
    requires from <= to <= |p|
  {
    forall i | from <= i < to :: !p[i].Many?
  }

  /** Without a common '#' there is no overtaking. */
  lemma {:induction false} NoGlobNoOvertaking(p: Pattern, q: Pattern, k: nat, n: nat, v: Value)
    requires MoreSpecific(p, q, n) && k <= n && NoGlob(p, k, n)
    ensures !Overtakes(q, p, k, n, v)
    decreases n - k
  {
    if k < n && v != [] { NoGlobNoOvertaking(p, q, k + 1, n, v[1..]); }
  }

  /** Tokens without '#' take as many tokens as they are. */
  lemma {:induction false} FixedLength(p: Pattern, k: nat, v: Value)
    requires k <= |p| && NoGlob(p, k, |p|)
    ensures Reports(p[k..], v) > 0 ==> |v| == |p| - k
    decreases |p| - k
  {
    if k < |p| && v != [] {
      assert p[k..][0] == p[k] && p[k..][1..] == p[k + 1..];
      FixedLength(p, k + 1, v[1..]);
    }
  }

  /** A '#' and a tail without '#' take at least as many tokens as the tail has. */
  lemma {:induction false} GlobLength(p: Pattern, m: nat, v: Value)
    requires m < |p| && p[m].Many? && NoGlob(p, m + 1, |p|)
    ensures Reports(p[m..], v) > 0 ==> |v| >= |p| - m - 1
    ensures v != [] && m + 1 < |p| ==> Reports(p[m..], v) == Reports(p[m + 1..], v) + Reports(p[m..], v[1..])
    decreases |v|
  {
    assert p[m..][0] == p[m] && p[m..][1..] == p[m + 1..];
    if m + 1 < |p| {
      assert p[m..] != [Many] by { assert |p[m..]| > 1; }
      FixedLength(p, m + 1, v);
      if v != [] { GlobLength(p, m, v[1..]); }
    }
  }

  /** At the only '#', the longer pattern is the one that starts its tail earlier. */
  lemma {:induction false} LongerOvertakes(p: Pattern, q: Pattern, m: nat, n: nat, v: Value)
    requires MoreSpecific(p, q, n) && m < n && p[m].Many? && q[m].Many?
    requires NoGlob(p, m + 1, |p|) && NoGlob(q, m + 1, |q|)
    ensures |p| >= |q| ==> !Overtakes(q, p, m, n, v)
    ensures |p| < |q| && Reports(p[m..], v) > 0 && Reports(q[m..], v) > 0 ==> Overtakes(q, p, m, n, v)
    decreases |v|
  {
    NoGlobNoOvertaking(p, q, m + 1, n, v);
    FixedLength(q, m + 1, v);
    GlobLength(q, m, v);
    GlobLength(p, m, v);
    if v != [] {
      GlobLength(p, m, v[1..]);
      FixedLength(p, m + 1, v);
      LongerOvertakes(p, q, m, n, v[1..]);
      if m + 1 == |p| { LoneGlob(p, m, v[1..]); }
    }
  }

  lemma LoneGlob(p: Pattern, m: nat, v: Value)
    requires m + 1 == |p| && p[m].Many?
    ensures Reports(p[m..], v) == 1
  {
    assert p[m..] == [Many];
  }

  lemma {:induction false} LongerOvertakesFrom(p: Pattern, q: Pattern, k: nat, m: nat, n: nat, v: Value)
    requires MoreSpecific(p, q, n) && k <= m < n && p[m].Many? && q[m].Many?
    requires NoGlob(p, k, m) && NoGlob(p, m + 1, |p|) && NoGlob(q, m + 1, |q|)
    requires Reports(p[k..], v) > 0 && Reports(q[k..], v) > 0
    ensures Overtakes(q, p, k, n, v) <==> |p| < |q|
    decreases m - k
  {
    if k == m {
      LongerOvertakes(p, q, m, n, v);
    } else {
      assert q[k] == q[..n][k] == p[..n][k] == p[k];
      assert p[k..] == [p[k]] + p[k + 1..] && q[k..] == [p[k]] + q[k + 1..];
      ReportsHead(p[k], p[k + 1..], v);
      ReportsHead(p[k], q[k + 1..], v);
      LongerOvertakesFrom(p, q, k + 1, m, n, v[1..]);
    }
  }

  /** Two patterns whose only '#' is token `m`, before their first difference: the more specific
      one is reported first if and only if it is not the shorter one. */
  lemma {:induction false} OneGlobOrder(t: Shape, v: Value, p: Pattern, q: Pattern, m: nat, n: nat)
    requires t.Valid() && MoreSpecific(p, q, n) && m < n && p[m].Many?
    requires NoGlob(p, 0, m) && NoGlob(p, m + 1, |p|) && NoGlob(q, m + 1, |q|)
    requires p in Search(t, v) && q in Search(t, v)
    ensures Before(Search(t, v), p, q) <==> |p| >= |q|
  {
    hide Search, Before, Overtakes;
    Reported(t, v, p);
    Reported(t, v, q);
    assert q[m] == q[..n][m] == p[..n][m] == p[m];
    SearchOrder(t, v, p, q, n);
    LongerOvertakesFrom(p, q, 0, m, n, v);
  }

  lemma Reported(t: Shape, v: Value, p: Pattern)
    requires t.Valid() && p in Search(t, v)
    ensures p in t.ends && Reports(p[0..], v) > 0
  {
    SearchCount(t, v, p);
    CountIn(Search(t, v), p);
    assert p[0..] == p;
  }

  // ---------------------------------------------------------------- what overtaking means

  /** The tokens from `k` to the common '#' at `i` take the first `j` tokens of the value; there the tail of
      `q` matches the rest, and that of `p`, from the '#' on, a shorter rest. */
  ghost predicate OvertakesAt(q: Pattern, p: Pattern, k: nat, n: nat, v: Value, i: nat, j: nat)
    requires MoreSpecific(p, q, n)
  {
    && k <= i < n && j < |v| && p[i].Many?
    && Matches(p[k..i + 1], v[..j]) && Matches(q[i + 1..], v[j..]) && Matches(p[i..], v[j + 1..])
  }

  /** How the first token matches. */
  lemma {:induction false} MatchesHead(r: Pattern, v: Value)
    requires r != []
    ensures r[0].Many? ==> (Matches(r, v) <==> Matches(r[1..], v) || (v != [] && Matches(r, v[1..])))
    ensures !r[0].Many? ==> (Matches(r, v) <==> v != [] && Accepts(r[0], v[..1]) && Matches(r[1..], v[1..]))
  {
    hide Matches;
    MatchesIffAligned(r, v);
    MatchesIffAligned(r[1..], v);
    if v != [] {
      MatchesIffAligned(r, v[1..]);
      MatchesIffAligned(r[1..], v[1..]);
    }
  }

  lemma {:induction false} GlobMatchesAll(v: Value)
    ensures Matches([Many], v)
  {
    hide Matches;
    MatchesIffAligned([Many], v);
    ReportsAreAlignments([Many], v);
  }

  /** The tokens from `k` to `i`, when the first of them takes nothing or one token. */
  lemma {:induction false} HeadOf(p: Pattern, k: nat, i: nat, v: Value, j: nat)
    requires k < i < |p| && j <= |v|
    ensures p[k].Many? ==>
              (Matches(p[k..i + 1], v[..j]) <==>
                 Matches(p[k + 1..i + 1], v[..j]) || (j > 0 && Matches(p[k..i + 1], v[1..][..j - 1])))
    ensures !p[k].Many? ==>
              (Matches(p[k..i + 1], v[..j]) <==> j > 0 && Accepts(p[k], v[..1]) && Matches(p[k + 1..i + 1], v[1..][..j - 1]))
  {
    hide Matches;
    var r := p[k..i + 1];
    assert r[0] == p[k] && r[1..] == p[k + 1..i + 1];
    MatchesHead(r, v[..j]);
    if j > 0 { assert v[..j][1..] == v[1..][..j - 1] && v[..j][..1] == v[..1]; }
  }

  lemma {:induction false} AtGlob(p: Pattern, k: nat, v: Value)
    requires k < |p| && p[k].Many?
    ensures Matches(p[k..k + 1], v)
  {
    hide Matches;
    assert p[k..k + 1] == [Many];
    GlobMatchesAll(v);
  }

  lemma {:induction false} OvertakenAtGlob(p: Pattern, q: Pattern, k: nat, n: nat, v: Value) returns (i: nat, j: nat)
    requires MoreSpecific(p, q, n) && k <= n && !EndsInTwoGlobs(p) && !EndsInTwoGlobs(q)
    requires Overtakes(q, p, k, n, v)
    ensures OvertakesAt(q, p, k, n, v, i, j)
    decreases n - k, |v|
  {
    hide Matches, Reports, EndsInTwoGlobs;
    if p[k].Many? && Reports(q[k + 1..], v) > 0 && Reports(p[k..], v[1..]) > 0 {
      i, j := k, 0;
      assert v[0..] == v;
      TailReported(q, k + 1, v);
      TailReported(p, k, v[1..]);
      AtGlob(p, k, v[..0]);
    } else if p[k].Many? && Overtakes(q, p, k + 1, n, v) {
      i, j := OvertakenAtGlob(p, q, k + 1, n, v);
      HeadOf(p, k, i, v, j);
    } else {
      i, j := OvertakenAtGlob(p, q, if p[k].Many? then k else k + 1, n, v[1..]);
      DropTwice(v, 1, j);
      DropTwice(v, 1, j + 1);
      j := j + 1;
      if i == k { AtGlob(p, k, v[..j]); } else { HeadOf(p, k, i, v, j); }
    }
  }

  lemma {:induction false} GlobOvertakes(p: Pattern, q: Pattern, k: nat, n: nat, v: Value, i: nat, j: nat)
    requires MoreSpecific(p, q, n) && k <= n && !EndsInTwoGlobs(p) && !EndsInTwoGlobs(q)
    requires OvertakesAt(q, p, k, n, v, i, j)
    ensures Overtakes(q, p, k, n, v)
    decreases n - k, |v|
  {
    hide Matches, Reports, EndsInTwoGlobs;
    if j > 0 {
      DropTwice(v, 1, j - 1);
      DropTwice(v, 1, j);
    }
    if k < i { HeadOf(p, k, i, v, j); }
    if k == i && j == 0 {
      assert v[0..] == v;
      TailReported(q, k + 1, v);
      TailReported(p, k, v[1..]);
    } else if k == i {
      AtGlob(p, k, v[1..][..j - 1]);
      GlobOvertakes(p, q, k, n, v[1..], i, j - 1);
    } else if !p[k].Many? {
      GlobOvertakes(p, q, k + 1, n, v[1..], i, j - 1);
    } else if Matches(p[k + 1..i + 1], v[..j]) {
      GlobOvertakes(p, q, k + 1, n, v, i, j);
    } else {
      GlobOvertakes(p, q, k, n, v[1..], i, j - 1);
    }
  }

  /** Overtaking in terms of matches, for patterns that do not end in "#.#". */
  lemma {:induction false} OvertakesIff(p: Pattern, q: Pattern, n: nat, v: Value)
    requires MoreSpecific(p, q, n) && !EndsInTwoGlobs(p) && !EndsInTwoGlobs(q)
    ensures Overtakes(q, p, 0, n, v) <==> exists i, j :: OvertakesAt(q, p, 0, n, v, i, j)
  {
    hide Overtakes, OvertakesAt, EndsInTwoGlobs;
    if Overtakes(q, p, 0, n, v) { var i, j := OvertakenAtGlob(p, q, 0, n, v); }
    forall i, j | OvertakesAt(q, p, 0, n, v, i, j) ensures Overtakes(q, p, 0, n, v) { GlobOvertakes(p, q, 0, n, v, i, j); }
  }

  lemma TailReported(p: Pattern, k: nat, v: Value)
    requires k <= |p| && !EndsInTwoGlobs(p)
    ensures Reports(p[k..], v) > 0 <==> Matches(p[k..], v)
  {
    var r := p[k..];
    assert !EndsInTwoGlobs(r);
    ReportsAreAlignments(r, v);
    MatchesIffAligned(r, v);
  }

  // ---------------------------------------------------------------- the first reports

  /** `p` is reported, and `q` is not reported before. */
  ghost predicate FirstBefore(s: seq<Pattern>, p: Pattern, q: Pattern) {
    exists i :: 0 <= i < |s| && s[i] == p && q !in s[..i]
  }

  /** Is `p` reported before `q`, if at all, below their common first `k` tokens? At a common '#' the
      longest rest of the value on which one of them is reported decides. */
  predicate ComesFirst(p: Pattern, q: Pattern, k: nat, n: nat, v: Value)
    requires MoreSpecific(p, q, n) && k <= n
    decreases n - k, |v|
  {
    if k == n then Reports(p[k..], v) > 0
    else if p[k].Many? then
      if v == [] then p == q[..k + 1]
      else if Reports(p[k + 1..], v) > 0 || Reports(q[k + 1..], v) > 0 then ComesFirst(p, q, k + 1, n, v)
      else ComesFirst(p, q, k, n, v[1..])
    else v != [] && Accepts(p[k], v[..1]) && ComesFirst(p, q, k + 1, n, v[1..])
  }

  lemma {:induction false} FirstOfParts(a: seq<Pattern>, b: seq<Pattern>, p: Pattern, q: Pattern)
    requires p != q
    ensures p in a || q in a ==> (FirstBefore(a + b, p, q) <==> FirstBefore(a, p, q))
    ensures p !in a && q !in a ==> (FirstBefore(a + b, p, q) <==> FirstBefore(b, p, q))
  {
    var s := a + b;
    if FirstBefore(a, p, q) {
      var i :| 0 <= i < |a| && a[i] == p && q !in a[..i];
      assert s[i] == p && s[..i] == a[..i];
    }
    if FirstBefore(b, p, q) && q !in a {
      var i :| 0 <= i < |b| && b[i] == p && q !in b[..i];
      assert s[|a| + i] == p && s[..|a| + i] == a + b[..i];
    }
    if FirstBefore(s, p, q) {
      var i :| 0 <= i < |s| && s[i] == p && q !in s[..i];
      if i < |a| {
        assert a[i] == p && a[..i] == s[..i];
      } else {
        assert b[i - |a|] == p && s[..i] == a + b[..i - |a|];
        if p in a { FirstOf(a, p, q); }
      }
    }
  }

  lemma {:induction false} FirstOf(a: seq<Pattern>, p: Pattern, q: Pattern)
    requires p in a && q !in a
    ensures FirstBefore(a, p, q)
  {
    var i :| 0 <= i < |a| && a[i] == p;
    assert q !in a[..i];
  }

  /** If all of one come before all of the other, the first do. */
  lemma {:induction false} AllBeforeFirst(s: seq<Pattern>, p: Pattern, q: Pattern)
    requires Before(s, p, q)
    ensures FirstBefore(s, p, q) <==> p in s
  {
    if p in s {
      var i :| 0 <= i < |s| && s[i] == p;
      forall j | 0 <= j < i ensures s[j] != q { }
      assert q !in s[..i];
    }
  }

  lemma {:induction false} NeverFirst(s: seq<Pattern>, p: Pattern, q: Pattern)
    requires p !in s
    ensures !FirstBefore(s, p, q)
  {
  }

  lemma {:induction false} VisitFirst(t: Shape, c: Pattern, v: Value, p: Pattern, q: Pattern, n: nat)
    requires t.Valid() && OnTheWay(t, c, p, q, n)
    ensures FirstBefore(VisitLit(t, c, v), p, q) <==> ComesFirst(p, q, |c|, n, v)
    decreases n - |c|, |v|, 1
  {
    hide Below, ComesFirst, FirstBefore;
    var a, b := Here(t, c, v), Below(t, c, v);
    Differ(p, q, n);
    FirstOfParts(a, b, p, q);
    if c == p {
      BelowHolds(t, c, v, p);
      NeverFirst(b, p, q);
      EndsHere(p, q, n, v);
      if v == [] { FirstOf(a, p, q); }
    } else {
      BelowFirst(t, c, v, p, q, n);
    }
  }

  lemma {:induction false} Differ(p: Pattern, q: Pattern, n: nat)
    requires MoreSpecific(p, q, n)
    ensures p != q
  {
  }

  lemma {:induction false} EndsHere(p: Pattern, q: Pattern, n: nat, v: Value)
    requires MoreSpecific(p, q, n) && n == |p|
    ensures ComesFirst(p, q, n, n, v) <==> v == []
  {
    assert p[n..] == [];
  }

  lemma {:induction false} PartingFirst(t: Shape, c: Pattern, v: Value, p: Pattern, q: Pattern)
    requires t.Valid() && OnTheWay(t, c, p, q, |c|) && c != p
    ensures FirstBefore(Below(t, c, v), p, q) <==> ComesFirst(p, q, |c|, |c|, v)
  {
    hide Below, FirstBefore, Before;
    PartingOrder(t, c, v, p, q);
    AllBeforeFirst(Below(t, c, v), p, q);
    ReportedBelow(t, c, v, p);
  }

  /** Below a node before the parting, both are reported by one child only. */
  lemma {:induction false} ChildFirst(t: Shape, c: Pattern, v: Value, p: Pattern, q: Pattern, n: nat)
    requires t.Valid() && OnTheWay(t, c, p, q, n) && |c| < n
    ensures FirstBefore(Below(t, c, v), p, q) <==>
            FirstBefore(if p[|c|].Lit? then LitPart(t, c, v) else if p[|c|].One? then OnePart(t, c, v) else ManyPart(t, c, v), p, q)
  {
    hide LitPart, OnePart, ManyPart, FirstBefore;
    OneStep(t, c, p, q, n);
    Differ(p, q, n);
    var a, b, d := LitPart(t, c, v), OnePart(t, c, v), ManyPart(t, c, v);
    PartsHold(t, c, v, p);
    PartsHold(t, c, v, q);
    FirstOfParts(b, d, p, q);
    FirstOfParts(a, b + d, p, q);
    if p !in a { NeverFirst(a, p, q); }
    if p !in b { NeverFirst(b, p, q); }
    if p !in d { NeverFirst(d, p, q); }
    if p !in b + d { NeverFirst(b + d, p, q); }
  }

  lemma {:induction false} BelowFirst(t: Shape, c: Pattern, v: Value, p: Pattern, q: Pattern, n: nat)
    requires t.Valid() && OnTheWay(t, c, p, q, n) && c != p
    ensures FirstBefore(Below(t, c, v), p, q) <==> ComesFirst(p, q, |c|, n, v)
    decreases n - |c|, |v|, 0
  {
    hide Below, VisitLit, VisitMany, VisitOne, FirstBefore, Reports;
    if |c| == n {
      PartingFirst(t, c, v, p, q);
    } else {
      var k := p[|c|];
      OneStep(t, c, p, q, n);
      ChildFirst(t, c, v, p, q, n);
      if k.Many? {
        ManyFirst(t, c + [Many], v, p, q, n);
      } else if v == [] {
        NeverFirst([], p, q);
      } else if !Accepts(k, v[..1]) {
        WrongLiteral(t, c, v, p);
        NeverFirst(LitPart(t, c, v), p, q);
      } else {
        VisitFirst(t, c + [k], v[1..], p, q, n);
        if k.One? { OneTakesOne(t, c + [One], v); }
      }
    }
  }

  lemma {:induction false} ManyFirst(t: Shape, d: Pattern, v: Value, p: Pattern, q: Pattern, n: nat)
    requires t.Valid() && OnTheWay(t, d, p, q, n) && |d| > 0 && p[|d| - 1].Many? && q[|d| - 1].Many?
    ensures FirstBefore(VisitMany(t, d, v), p, q) <==> ComesFirst(p, q, |d| - 1, n, v)
    decreases n - |d|, |v|, 2
  {
    hide Below, FirstBefore, Reports;
    Differ(p, q, n);
    if v == [] {
      if p == d { FirstOf(VisitMany(t, d, v), p, q); } else { NeverFirst(VisitMany(t, d, v), p, q); }
    } else {
      var a, b := Below(t, d, v), VisitMany(t, d, v[1..]);
      FirstOfParts(a, b, p, q);
      ReportedBelow(t, d, v, q);
      ManyFirst(t, d, v[1..], p, q, n);
      if d == p {
        BelowHolds(t, d, v, p);
        NeverFirst(a, p, q);
        EndsHere(p, q, n, v);
        NoTail(p, v);
      } else {
        ReportedBelow(t, d, v, p);
        BelowFirst(t, d, v, p, q, n);
      }
    }
  }

  lemma {:induction false} NoTail(p: Pattern, v: Value)
    requires v != []
    ensures Reports(p[|p|..], v) == 0
  {
    assert p[|p|..] == [];
  }

  /** Of two stored patterns, which is reported first is decided by the patterns and the value alone. */
  lemma {:induction false} FirstOrder(t: Shape, v: Value, p: Pattern, q: Pattern, n: nat)
    requires t.Valid() && p in t.ends && q in t.ends && MoreSpecific(p, q, n)
    ensures FirstBefore(Search(t, v), p, q) <==> ComesFirst(p, q, 0, n, v)
  {
    hide FirstBefore, ComesFirst;
    assert p[..0] == [] && q[..0] == [];
    BelowFirst(t, [], v, p, q, n);
  }

  /** The first report of all comes first against every stored pattern, in this sense. */
  lemma {:induction false} FirstReport(t: Shape, v: Value, q: Pattern, n: nat)
    requires t.Valid() && q in t.ends && Search(t, v) != []
    ensures Search(t, v)[0] in t.ends
    ensures MoreSpecific(Search(t, v)[0], q, n) ==> ComesFirst(Search(t, v)[0], q, 0, n, v)
    ensures MoreSpecific(q, Search(t, v)[0], n) ==> !ComesFirst(q, Search(t, v)[0], 0, n, v)
  {
    hide Search, ComesFirst;
    var s := Search(t, v);
    var p := s[0];
    assert p in s;
    Reported(t, v, p);
    if MoreSpecific(p, q, n) {
      FirstOrder(t, v, p, q, n);
      assert s[0] == p && q !in s[..0];
    }
    if MoreSpecific(q, p, n) {
      FirstOrder(t, v, q, p, n);
      NotBeforeFirst(s, q);
      Differ(q, p, n);
    }
  }

  /** A match that no other reported pattern beats, and that comes first against all stored ones. */
  ghost predicate Best(ends: set<Pattern>, v: Value, p: Pattern) {
    && p in ends && Matches(p, v)
    && (forall q, n: nat | q in ends && Reports(q, v) > 0 :: !Beats(q, p, n))
    && (forall q, n: nat | q in ends && MoreSpecific(q, p, n) :: !ComesFirst(q, p, 0, n, v))
    && (forall q, n: nat | q in ends && MoreSpecific(p, q, n) :: ComesFirst(p, q, 0, n, v))
  }

  /** The first report is the best, and there is one exactly if anything is reported. */
  lemma {:induction false} FirstIsBest(t: Shape, v: Value)
    requires t.Valid()
    ensures Search(t, v) != [] <==> exists q :: q in t.ends && Reports(q, v) > 0
    ensures Search(t, v) != [] ==> Best(t.ends, v, Search(t, v)[0])
  {
    hide Search, ComesFirst, MoreSpecific, Reports, Matches, Beats;
    FirstReportIsBest(t, v);
    MatchesAreReported(v);
    if Search(t, v) != [] {
      forall q, n: nat | q in t.ends
        ensures MoreSpecific(q, Search(t, v)[0], n) ==> !ComesFirst(q, Search(t, v)[0], 0, n, v)
        ensures MoreSpecific(Search(t, v)[0], q, n) ==> ComesFirst(Search(t, v)[0], q, 0, n, v)
      {
        FirstReport(t, v, q, n);
      }
    }
  }

  lemma {:induction false} NotBeforeFirst(s: seq<Pattern>, q: Pattern)
    requires s != [] && q != s[0]
    ensures !FirstBefore(s, q, s[0])
  {
    forall i | 0 <= i < |s| && s[i] == q ensures s[0] in s[..i] { assert i > 0 && s[..i][0] == s[0]; }
  }
}
