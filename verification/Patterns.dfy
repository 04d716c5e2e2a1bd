/** Wildcard patterns as sequences of tokens: what they mean, in how many ways a
    pattern lines up with a value, and the normal form that patterns are rewritten to
    before they are stored.

    `One` is the "match exactly one" wildcard ('*', or '+' for MQTT) and `Many` is the
    "match zero or more" wildcard ('#').
 */
module Patterns {
  import opened Seqs

  datatype Tok = Lit(text: string) | One | Many

  type Pattern = seq<Tok>
  type Value = seq<string>

  // ---------------------------------------------------------------- meaning

  /** A token accepts a run of consecutive value tokens. */
  predicate Accepts(t: Tok, run: Value) {
    match t
    case Lit(s) => run == [s]
    case One => |run| == 1
    case Many => true
  }

  /** `w[i]` is how many tokens of `v` the i-th token of `p` takes. */
  predicate IsAlignment(p: Pattern, v: Value, w: seq<nat>) {
    if p == [] then v == [] && w == []
    else
      && w != []
      && w[0] <= |v|
      && Accepts(p[0], v[..w[0]])
      && IsAlignment(p[1..], v[w[0]..], w[1..])
  }

  /** The documented meaning of a pattern: some way to line it up with the value exists. */
  ghost predicate Matches(p: Pattern, v: Value) {
    exists w :: IsAlignment(p, v, w)
  }

  /** The number of alignments, by recursion on the pattern and the value. */
  function Alignments(p: Pattern, v: Value): nat
    decreases |p|, |v|
  {
    if p == [] then (if v == [] then 1 else 0)
    else if p[0].Many? then
      Alignments(p[1..], v) + (if v == [] then 0 else Alignments(p, v[1..]))
    else if v != [] && Accepts(p[0], v[..1]) then Alignments(p[1..], v[1..])
    else 0
  }

  function Prepend(k: nat, ws: set<seq<nat>>): set<seq<nat>> {
    set w | w in ws :: [k] + w
  }

  function Widen(ws: set<seq<nat>>): set<seq<nat>> {
    set w | w in ws && w != [] :: [w[0] + 1] + w[1..]
  }

  lemma PrependSize(k: nat, ws: set<seq<nat>>)
    ensures |Prepend(k, ws)| == |ws|
  {
    if ws != {} {
      var w :| w in ws;
      PrependSize(k, ws - {w});
      assert Prepend(k, ws) == Prepend(k, ws - {w}) + {[k] + w};
      assert [k] + w !in Prepend(k, ws - {w}) by {
        forall x | x in ws - {w} ensures [k] + x != [k] + w {
          assert ([k] + x)[1..] == x && ([k] + w)[1..] == w;
        }
      }
    }
  }

  lemma InPrepend(k: nat, ws: set<seq<nat>>, w: seq<nat>)
    ensures w in Prepend(k, ws) <==> w != [] && w[0] == k && w[1..] in ws
  {
    if w != [] && w[0] == k && w[1..] in ws { assert w == [k] + w[1..]; }
  }

  lemma InWiden(ws: set<seq<nat>>, w: seq<nat>)
    ensures w in Widen(ws) <==> w != [] && w[0] > 0 && [w[0] - 1] + w[1..] in ws
  {
    if w != [] && w[0] > 0 {
      var x := [w[0] - 1] + w[1..];
      assert w == [x[0] + 1] + x[1..];
    }
    if w in Widen(ws) {
      var y :| y in ws && y != [] && w == [y[0] + 1] + y[1..];
      assert y == [w[0] - 1] + w[1..];
    }
  }

  lemma WidenSize(ws: set<seq<nat>>)
    requires [] !in ws
    ensures |Widen(ws)| == |ws|
  {
    if ws != {} {
      var w :| w in ws;
      WidenSize(ws - {w});
      var up := [w[0] + 1] + w[1..];
      assert [up[0] - 1] + up[1..] == w;
      forall x ensures x in Widen(ws) <==> x in Widen(ws - {w}) || x == up {
        InWiden(ws, x);
        InWiden(ws - {w}, x);
        if x != [] && x[0] > 0 && [x[0] - 1] + x[1..] == w { assert x == up; }
      }
      InWiden(ws - {w}, up);
      assert Widen(ws) == Widen(ws - {w}) + {up};
    }
  }

  /** All alignments, collected; `AlignmentsAreCounted` ties it to the two notions above. */
  ghost function AlignmentSet(p: Pattern, v: Value): set<seq<nat>>
    decreases |p|, |v|
  {
    if p == [] then (if v == [] then {[]} else {})
    else if p[0].Many? then
      Prepend(0, AlignmentSet(p[1..], v)) + (if v == [] then {} else Widen(AlignmentSet(p, v[1..])))
    else if v != [] && Accepts(p[0], v[..1]) then Prepend(1, AlignmentSet(p[1..], v[1..]))
    else {}
  }

  /** The collection holds exactly the alignments. */
  lemma {:induction false} AlignmentSetIsExact(p: Pattern, v: Value, w: seq<nat>)
    ensures w in AlignmentSet(p, v) <==> IsAlignment(p, v, w)
    decreases |p|, |v|, 1
  {
    hide Prepend, Widen;
    if w != [] { assert w == [w[0]] + w[1..]; }
    if p == [] {
    } else if p[0].Many? {
      ManySetIsExact(p, v, w);
    } else {
      if v != [] && Accepts(p[0], v[..1]) {
        InPrepend(1, AlignmentSet(p[1..], v[1..]), w);
        if w != [] { AlignmentSetIsExact(p[1..], v[1..], w[1..]); }
      }
      if w != [] && w[0] <= |v| && Accepts(p[0], v[..w[0]]) { assert w[0] == 1; }
    }
  }

  lemma {:induction false} ManySetIsExact(p: Pattern, v: Value, w: seq<nat>)
    requires p != [] && p[0].Many?
    ensures w in AlignmentSet(p, v) <==> IsAlignment(p, v, w)
    decreases |p|, |v|, 0
  {
    hide Prepend, Widen;
    InPrepend(0, AlignmentSet(p[1..], v), w);
    if v != [] { InWiden(AlignmentSet(p, v[1..]), w); }
    assert v[0..] == v;
    if w != [] {
      AlignmentSetIsExact(p[1..], v, w[1..]);
      if v != [] && w[0] > 0 {
        AlignmentSetIsExact(p, v[1..], [w[0] - 1] + w[1..]);
        if w[0] <= |v| { assert v[1..][w[0] - 1..] == v[w[0]..]; }
      }
    }
  }

  /** `Alignments` counts the distinct alignments, so it is positive exactly on a match. */
  lemma {:induction false} AlignmentsAreCounted(p: Pattern, v: Value)
    ensures |AlignmentSet(p, v)| == Alignments(p, v)
    decreases |p|, |v|
  {
    if p != [] {
      if p[0].Many? {
        AlignmentsAreCounted(p[1..], v);
        PrependSize(0, AlignmentSet(p[1..], v));
        if v != [] {
          AlignmentsAreCounted(p, v[1..]);
          AlignmentSetIsExact(p, v[1..], []);
          WidenSize(AlignmentSet(p, v[1..]));
          forall w ensures w !in Prepend(0, AlignmentSet(p[1..], v)) || w !in Widen(AlignmentSet(p, v[1..])) {
            InPrepend(0, AlignmentSet(p[1..], v), w);
            InWiden(AlignmentSet(p, v[1..]), w);
          }
        }
      } else if v != [] && Accepts(p[0], v[..1]) {
        AlignmentsAreCounted(p[1..], v[1..]);
        PrependSize(1, AlignmentSet(p[1..], v[1..]));
      }
    }
  }

  lemma MatchesIffAligned(p: Pattern, v: Value)
    ensures Matches(p, v) <==> Alignments(p, v) > 0
  {
    AlignmentsAreCounted(p, v);
    if Matches(p, v) {
      var w :| IsAlignment(p, v, w);
      AlignmentSetIsExact(p, v, w);
    }
    if Alignments(p, v) > 0 {
      assert AlignmentSet(p, v) != {};
      var w :| w in AlignmentSet(p, v);
      AlignmentSetIsExact(p, v, w);
    }
  }

  function Globs(p: Pattern): nat {
    if p == [] then 0 else (if p[0].Many? then 1 else 0) + Globs(p[1..])
  }

  /** With at most one '#' there is at most one way to line the pattern up. */
  lemma {:induction false} OneGlobOneAlignment(p: Pattern, v: Value)
    requires Globs(p) <= 1
    ensures Alignments(p, v) <= 1
    ensures Globs(p) == 0 && |p| != |v| ==> Alignments(p, v) == 0
    ensures |v| + 1 < |p| ==> Alignments(p, v) == 0
    decreases |p|, |v|
  {
    if p != [] {
      if p[0].Many? {
        OneGlobOneAlignment(p[1..], v);
        if v != [] {
          OneGlobOneAlignment(p, v[1..]);
          if |v| == |p[1..]| { ShortValueMissesManySuffix(p, v[1..]); }
        }
      } else if v != [] {
        OneGlobOneAlignment(p[1..], v[1..]);
      }
    }
  }

  lemma {:induction false} ShortValueMissesManySuffix(p: Pattern, v: Value)
    requires p != [] && p[0].Many? && Globs(p[1..]) == 0 && |v| < |p[1..]|
    ensures Alignments(p, v) == 0
    decreases |p|, |v|
  {
    OneGlobOneAlignment(p[1..], v);
    if v != [] { ShortValueMissesManySuffix(p, v[1..]); }
  }

  // ---------------------------------------------------------------- what the search reports

  /** How often the tree search reports a stored pattern. The only difference from
      `Alignments` is that tokens after a '#' are never tried on an exhausted value. */
  function Reports(p: Pattern, v: Value): nat
    decreases |p|, |v|
  {
    if p == [] then (if v == [] then 1 else 0)
    else if p == [Many] then 1
    else if p[0].Many? then
      if v == [] then 0 else Reports(p[1..], v) + Reports(p, v[1..])
    else if v != [] && Accepts(p[0], v[..1]) then Reports(p[1..], v[1..])
    else 0
  }

  /** The patterns on which skipping the exhausted value loses something. */
  predicate EndsInTwoGlobs(p: Pattern) {
    |p| >= 2 && p[|p| - 1].Many? && p[|p| - 2].Many?
  }

  predicate AllMany(p: Pattern) {
    forall i | 0 <= i < |p| :: p[i].Many?
  }

  lemma {:induction false} AlignmentsOfNothing(p: Pattern)
    ensures Alignments(p, []) == if AllMany(p) then 1 else 0
  {
    if p != [] {
      AlignmentsOfNothing(p[1..]);
      assert AllMany(p) <==> p[0].Many? && AllMany(p[1..]) by {
        if p[0].Many? && AllMany(p[1..]) {
          forall i | 0 <= i < |p| ensures p[i].Many? { if i > 0 { assert p[i] == p[1..][i - 1]; } }
        }
      }
    }
  }

  lemma GlobsToTheEnd(p: Pattern)
    requires |p| >= 2 && p[0].Many? && AllMany(p[1..])
    ensures EndsInTwoGlobs(p)
  {
    assert p[|p| - 1] == p[1..][|p| - 2];
    if |p| > 2 { assert p[|p| - 2] == p[1..][|p| - 3]; }
  }

  lemma {:induction false} LoneGlobAlignsOnce(v: Value)
    ensures Alignments([Many], v) == 1
  {
    assert [Many][1..] == [];
    if v != [] { LoneGlobAlignsOnce(v[1..]); }
  }

  lemma {:induction false} ReportsAreAlignments(p: Pattern, v: Value)
    requires !EndsInTwoGlobs(p)
    ensures Reports(p, v) == Alignments(p, v)
    decreases |p|, |v|
  {
    if p == [Many] {
      LoneGlobAlignsOnce(v);
    } else if p != [] {
      assert !EndsInTwoGlobs(p[1..]);
      if p[0].Many? {
        if v == [] {
          AlignmentsOfNothing(p[1..]);
          if AllMany(p[1..]) { GlobsToTheEnd(p); }
        } else {
          ReportsAreAlignments(p[1..], v);
          ReportsAreAlignments(p, v[1..]);
        }
      } else if v != [] {
        ReportsAreAlignments(p[1..], v[1..]);
      }
    }
  }

  /** A value on which a pattern ending in "#.#" is reported too rarely: its tokens before
      the final run of '#', each taking one token. */
  ghost function Shortfall(p: Pattern): Value {
    if p == [] || AllMany(p) then []
    else [if p[0].Lit? then p[0].text else ""] + Shortfall(p[1..])
  }

  lemma {:induction false} FewerReports(p: Pattern, v: Value)
    ensures Reports(p, v) <= Alignments(p, v)
    decreases |p|, |v|
  {
    if p == [Many] {
      LoneGlobAlignsOnce(v);
    } else if p != [] {
      if p[0].Many? {
        if v != [] { FewerReports(p[1..], v); FewerReports(p, v[1..]); }
      } else if v != [] {
        FewerReports(p[1..], v[1..]);
      }
    }
  }

  lemma {:induction false} TwoGlobsAlone(p: Pattern)
    requires EndsInTwoGlobs(p)
    ensures |p| == 2 ==> AllMany(p)
  {
    if |p| == 2 { assert p == [Many, Many]; }
  }

  lemma {:induction false} TwoGlobsFallShort(p: Pattern)
    requires EndsInTwoGlobs(p)
    ensures Reports(p, Shortfall(p)) < Alignments(p, Shortfall(p))
  {
    var v := Shortfall(p);
    if AllMany(p) {
      AlignmentsOfNothing(p);
      assert p[0].Many? && p != [Many];
    } else {
      TwoGlobsAlone(p);
      assert EndsInTwoGlobs(p[1..]);
      TwoGlobsFallShort(p[1..]);
      assert v[1..] == Shortfall(p[1..]);
      if p[0].Many? {
        FewerReports(p[1..], v);
        FewerReports(p, v[1..]);
        // Taking nothing and taking one token both stay available: the latter falls short.
        TwoGlobsFallShortUnderGlob(p, v[1..]);
      }
    }
  }

  /** A leading '#' passes a shortfall of the rest on. */
  lemma {:induction false} TwoGlobsFallShortUnderGlob(p: Pattern, v: Value)
    requires |p| > 2 && p[0].Many? && Reports(p[1..], v) < Alignments(p[1..], v)
    ensures Reports(p, v) < Alignments(p, v)
  {
    if v != [] { FewerReports(p, v[1..]); }
  }

  /** The search counts alignments on every value exactly for the patterns that do not end
      in two adjacent '#' tokens. */
  lemma ReportsAreAlignmentsIff(p: Pattern)
    ensures (forall v :: Reports(p, v) == Alignments(p, v)) <==> !EndsInTwoGlobs(p)
  {
    if EndsInTwoGlobs(p) {
      TwoGlobsFallShort(p);
    } else {
      forall v ensures Reports(p, v) == Alignments(p, v) { ReportsAreAlignments(p, v); }
    }
  }

  // ---------------------------------------------------------------- normal form

  /** No '#' is followed by another wildcard. */
  predicate NormalForm(p: Pattern) {
    forall i | 0 <= i < |p| - 1 :: p[i].Many? ==> p[i + 1].Lit?
  }

  /** The rewriting as a fold: `owed` says a '#' was seen in the current wildcard run and is
      still to be written. */
  function NormalizeFrom(p: Pattern, owed: bool): Pattern {
    if p == [] then (if owed then [Many] else [])
    else match p[0]
      case Lit(_) => (if owed then [Many] else []) + [p[0]] + NormalizeFrom(p[1..], false)
      case One => [One] + NormalizeFrom(p[1..], owed)
      case Many => NormalizeFrom(p[1..], true)
  }

  function Normalize(p: Pattern): Pattern {
    NormalizeFrom(p, false)
  }

  lemma {:induction false} NormalizeFromIsNormal(p: Pattern, owed: bool)
    ensures NormalForm(NormalizeFrom(p, owed))
  {
    if p != [] { NormalizeFromIsNormal(p[1..], if p[0].Lit? then false else owed || p[0].Many?); }
  }

  /** Before a literal, or at the end, an owed '#' is written at once. */
  lemma OwedBeforeLiteral(b: Pattern)
    requires b == [] || b[0].Lit?
    ensures NormalizeFrom(b, true) == [Many] + Normalize(b)
  {
    if b != [] {
      assert [Many] + [b[0]] + NormalizeFrom(b[1..], false) == [Many] + ([] + [b[0]] + NormalizeFrom(b[1..], false));
    }
  }

  lemma {:induction false} NormalFormIsFixed(p: Pattern)
    requires NormalForm(p)
    ensures Normalize(p) == p
  {
    if p != [] {
      assert NormalForm(p[1..]);
      NormalFormIsFixed(p[1..]);
      if p[0].Many? {
        assert p[1..] != [] ==> p[1..][0].Lit?;
        OwedBeforeLiteral(p[1..]);
        assert p == [Many] + p[1..];
      }
    }
  }

  /** Normalizing reaches the normal form, is idempotent, and leaves alone exactly what is
      already normal. */
  lemma NormalizeReachesNormalForm(p: Pattern)
    ensures NormalForm(Normalize(p))
    ensures Normalize(Normalize(p)) == Normalize(p)
    ensures Normalize(p) == p <==> NormalForm(p)
    ensures !EndsInTwoGlobs(Normalize(p))
  {
    NormalizeFromIsNormal(p, false);
    NormalFormIsFixed(Normalize(p));
    if NormalForm(p) { NormalFormIsFixed(p); }
  }

  /** A '#' and the '*' after it may change places. */
  lemma {:induction false} SwapGlobWithOne(r: Pattern, v: Value)
    ensures Alignments([Many, One] + r, v) > 0 <==> Alignments([One, Many] + r, v) > 0
  {
    assert ([Many, One] + r)[1..] == [One] + r;
    assert ([One] + r)[1..] == r;
    assert ([One, Many] + r)[1..] == [Many] + r;
    assert ([Many] + r)[1..] == r;
    if v != [] { SwapGlobWithOne(r, v[1..]); }
  }

  lemma {:induction false} MergeGlobs(r: Pattern, v: Value)
    ensures Alignments([Many, Many] + r, v) > 0 <==> Alignments([Many] + r, v) > 0
  {
    assert ([Many, Many] + r)[1..] == [Many] + r;
    assert ([Many] + r)[1..] == r;
    if v != [] { MergeGlobs(r, v[1..]); }
  }

  /** Matching under one more leading token depends only on how the tail matches. */
  lemma {:induction false} LeadingToken(t: Tok, a: Pattern, b: Pattern, v: Value)
    requires forall u :: Alignments(a, u) > 0 <==> Alignments(b, u) > 0
    ensures Alignments([t] + a, v) > 0 <==> Alignments([t] + b, v) > 0
  {
    assert ([t] + a)[1..] == a && ([t] + b)[1..] == b;
    if v != [] { LeadingToken(t, a, b, v[1..]); }
  }

  ghost predicate SameValues(a: Pattern, b: Pattern) {
    forall u :: Alignments(a, u) > 0 <==> Alignments(b, u) > 0
  }

  lemma LeadingTokens(t: Tok, a: Pattern, b: Pattern)
    requires SameValues(a, b)
    ensures SameValues([t] + a, [t] + b)
  {
    forall u ensures Alignments([t] + a, u) > 0 <==> Alignments([t] + b, u) > 0 { LeadingToken(t, a, b, u); }
  }

  function Owed(owed: bool): Pattern { if owed then [Many] else [] }

  lemma {:induction false} NormalizeFromKeepsMeaning(p: Pattern, owed: bool)
    ensures SameValues(NormalizeFrom(p, owed), Owed(owed) + p)
  {
    if p == [] {
      assert Owed(owed) + p == Owed(owed);
    } else {
      var r := p[1..];
      assert p == [p[0]] + r;
      match p[0] {
        case Lit(_) =>
          NormalizeFromKeepsMeaning(r, false);
          NormalizeKeepsAtLit(p, owed);
        case One =>
          NormalizeFromKeepsMeaning(r, owed);
          NormalizeKeepsAtOne(p, owed);
        case Many =>
          NormalizeFromKeepsMeaning(r, true);
          if owed {
            assert Owed(owed) + p == [Many, Many] + r;
            forall u { MergeGlobs(r, u); }
          } else {
            assert Owed(owed) + p == p;
          }
      }
    }
  }

  lemma NormalizeKeepsAtLit(p: Pattern, owed: bool)
    requires p != [] && p[0].Lit? && SameValues(NormalizeFrom(p[1..], false), Owed(false) + p[1..])
    ensures SameValues(NormalizeFrom(p, owed), Owed(owed) + p)
  {
    var n := NormalizeFrom(p[1..], false);
    assert Owed(false) + p[1..] == p[1..];
    assert p == [p[0]] + p[1..];
    LeadingTokens(p[0], n, p[1..]);
    if owed {
      LeadingTokens(Many, [p[0]] + n, p);
      assert [Many] + [p[0]] + n == [Many] + ([p[0]] + n);
    } else {
      assert [] + [p[0]] + n == [p[0]] + n;
      assert Owed(owed) + p == p;
    }
  }

  lemma NormalizeKeepsAtOne(p: Pattern, owed: bool)
    requires p != [] && p[0].One? && SameValues(NormalizeFrom(p[1..], owed), Owed(owed) + p[1..])
    ensures SameValues(NormalizeFrom(p, owed), Owed(owed) + p)
  {
    var r := p[1..];
    LeadingTokens(One, NormalizeFrom(r, owed), Owed(owed) + r);
    hide Alignments;
    if owed {
      forall u ensures Alignments([Many, One] + r, u) > 0 <==> Alignments([One, Many] + r, u) > 0 { SwapGlobWithOne(r, u); }
      assert [One] + (Owed(owed) + r) == [One, Many] + r;
      assert Owed(owed) + p == [Many, One] + r;
    } else {
      assert [One] + (Owed(owed) + r) == p && Owed(owed) + p == p;
    }
  }

  /** Rewriting a pattern keeps the set of values it matches. */
  lemma NormalizeKeepsMeaning(p: Pattern, v: Value)
    ensures Matches(Normalize(p), v) <==> Matches(p, v)
  {
    NormalizeFromKeepsMeaning(p, false);
    assert Owed(false) + p == p;
    MatchesIffAligned(p, v);
    MatchesIffAligned(Normalize(p), v);
  }

  function Ones(n: nat): (r: Pattern)
    ensures |r| == n && forall i | 0 <= i < n :: r[i] == One
  {
    seq(n, _ => One)
  }

  function CountOnes(p: Pattern): nat {
    if p == [] then 0 else (if p[0].One? then 1 else 0) + CountOnes(p[1..])
  }

  lemma MoreOnes(n: nat, done: Pattern)
    ensures [One] + (Ones(n) + done) == Ones(n + 1) + done
  {
  }

  lemma {:induction false} NormalizeRunFrom(run: Pattern, b: Pattern, owed: bool)
    requires forall i | 0 <= i < |run| :: !run[i].Lit?
    requires b == [] || b[0].Lit?
    ensures NormalizeFrom(run + b, owed)
         == Ones(CountOnes(run)) + (Owed(owed || Globs(run) > 0) + Normalize(b))
  {
    if run == [] {
      assert run + b == b;
      assert Ones(0) == [];
      if owed { OwedBeforeLiteral(b); }
    } else {
      var tail := run[1..];
      var owed' := owed || run[0].Many?;
      CutAppend(run, b, 1);
      NormalizeRunFrom(tail, b, owed');
      NormalizeHead(run + b, owed);
      var done := Owed(owed' || Globs(tail) > 0) + Normalize(b);
      if run[0].One? { MoreOnes(CountOnes(tail), done); }
    }
  }

  /** A maximal wildcard run of k '*' and at least one '#' becomes k '*' and then one '#';
      a run without '#' and everything around the run are rewritten independently. */
  lemma {:induction false} NormalizeRun(a: Pattern, run: Pattern, b: Pattern)
    requires forall i | 0 <= i < |run| :: !run[i].Lit?
    requires a == [] || a[|a| - 1].Lit?
    requires b == [] || b[0].Lit?
    ensures Normalize(a + run + b)
         == Normalize(a) + (Ones(CountOnes(run)) + (Owed(Globs(run) > 0) + Normalize(b)))
  {
    AppendAssoc(a, run, b);
    NormalizeSplit(a, run + b, false);
    NormalizeRunFrom(run, b, false);
  }

  lemma NormalizeHead(p: Pattern, owed: bool)
    requires p != []
    ensures var head: Pattern :=
              if p[0].Lit? then (if owed then [Many] else []) + [p[0]] else if p[0].One? then [One] else [];
            NormalizeFrom(p, owed) == head + NormalizeFrom(p[1..], if p[0].Lit? then false else owed || p[0].Many?)
  {
  }

  lemma {:induction false} NormalizeSplit(a: Pattern, b: Pattern, owed: bool)
    requires if a == [] then !owed else a[|a| - 1].Lit?
    ensures NormalizeFrom(a + b, owed) == NormalizeFrom(a, owed) + Normalize(b)
  {
    if a == [] {
      assert a + b == b;
    } else {
      CutAppend(a, b, 1);
      var owed' := if a[0].Lit? then false else owed || a[0].Many?;
      NormalizeSplit(a[1..], b, owed');
      var head: Pattern := if a[0].Lit? then (if owed then [Many] else []) + [a[0]] else if a[0].One? then [One] else [];
      NormalizeHead(a, owed);
      NormalizeHead(a + b, owed);
      AppendAssoc(head, NormalizeFrom(a[1..], owed'), Normalize(b));
    }
  }
}
