/** The normal form is canonical: two patterns are rewritten to the same one if and only if they match the
    same values. So a pattern is found in a tree under every spelling of its meaning, and two patterns of
    different meaning are never taken for duplicates.
 */
module PatternForms {
  import opened Patterns
  import opened Seqs

  /** The pattern without its '#'. */
  function Thin(p: Pattern): Pattern {
    if p == [] then [] else (if p[0].Many? then [] else [p[0]]) + Thin(p[1..])
  }

  function WordOf(x: string, t: Tok): string { if t.Lit? then t.text else x }

  /** A shortest value that the pattern matches: `x` for every '*', nothing for a '#'. */
  function Word(x: string, p: Pattern): Value {
    if p == [] then [] else (if p[0].Many? then [] else [WordOf(x, p[0])]) + Word(x, p[1..])
  }

  predicate NotIn(x: string, p: Pattern) { forall i | 0 <= i < |p| :: p[i] != Lit(x) }

  ghost predicate Meets(p: Pattern, v: Value) { Alignments(p, v) > 0 }

  // ---------------------------------------------------------------- shortest values

  lemma {:induction false} ThinAt(x: string, p: Pattern, i: nat)
    requires i < |Thin(p)|
    ensures |Word(x, p)| == |Thin(p)| && !Thin(p)[i].Many? && Word(x, p)[i] == WordOf(x, Thin(p)[i])
    ensures NotIn(x, p) ==> Thin(p)[i] != Lit(x)
  {
    if p[0].Many? {
      ThinAt(x, p[1..], i);
    } else if i > 0 {
      ThinAt(x, p[1..], i - 1);
    } else {
      WordSize(x, p);
    }
  }

  lemma {:induction false} WordSize(x: string, p: Pattern)
    ensures |Word(x, p)| == |Thin(p)|
  {
    if p != [] { WordSize(x, p[1..]); }
  }

  lemma {:induction false} SameWord(x: string, p: Pattern, q: Pattern)
    requires Thin(p) == Thin(q)
    ensures Word(x, p) == Word(x, q)
  {
    WordSize(x, p);
    WordSize(x, q);
    forall i | 0 <= i < |Thin(p)| ensures Word(x, p)[i] == Word(x, q)[i] {
      ThinAt(x, p, i);
      ThinAt(x, q, i);
    }
  }

  lemma {:induction false} ThinAppend(p: Pattern, q: Pattern)
    ensures Thin(p + q) == Thin(p) + Thin(q)
  {
    if p == [] {
      assert p + q == q;
    } else {
      assert (p + q)[1..] == p[1..] + q;
      ThinAppend(p[1..], q);
    }
  }

  lemma {:induction false} WordMeets(x: string, p: Pattern)
    ensures Meets(p, Word(x, p))
  {
    if p != [] {
      WordMeets(x, p[1..]);
      if p[0].Many? {
        assert Word(x, p) == Word(x, p[1..]);
      } else {
        assert Word(x, p)[1..] == Word(x, p[1..]) && Word(x, p)[..1] == [WordOf(x, p[0])];
      }
    }
  }

  /** No value is shorter; and if a value is no longer, every '#' takes nothing. */
  lemma {:induction false} NoShorter(p: Pattern, v: Value)
    requires Meets(p, v)
    ensures |v| >= |Thin(p)|
    ensures |v| == |Thin(p)| ==> forall i | 0 <= i < |v| :: Thin(p)[i].One? || Thin(p)[i] == Lit(v[i])
    decreases |p|, |v|
  {
    if p == [] {
    } else if p[0].Many? {
      if Meets(p[1..], v) { NoShorter(p[1..], v); } else { NoShorter(p, v[1..]); }
    } else {
      NoShorter(p[1..], v[1..]);
      var t := Thin(p);
      assert t == [p[0]] + Thin(p[1..]);
      if |v| == |t| {
        forall i | 0 <= i < |v| ensures t[i].One? || t[i] == Lit(v[i]) {
          if i == 0 { assert v[..1] == [v[0]]; } else { assert v[i] == v[1..][i - 1] && t[i] == Thin(p[1..])[i - 1]; }
        }
      }
    }
  }

  lemma {:induction false} SameThin(x: string, p: Pattern, q: Pattern)
    requires SameValues(p, q) && NotIn(x, p) && NotIn(x, q)
    ensures Thin(p) == Thin(q)
  {
    hide Thin, Word, Alignments;
    WordMeets(x, p);
    WordMeets(x, q);
    WordSize(x, p);
    WordSize(x, q);
    NoShorter(q, Word(x, p));
    NoShorter(p, Word(x, q));
    forall i | 0 <= i < |Thin(p)| ensures Thin(p)[i] == Thin(q)[i] {
      ThinAt(x, p, i);
      ThinAt(x, q, i);
    }
  }

  // ---------------------------------------------------------------- where a '#' stands

  /** The first token and its word come off together. */
  lemma {:induction false} FirstOff(x: string, c: Pattern, p: Pattern, v: Value)
    requires c != [] && !c[0].Many?
    ensures Meets(c + p, Word(x, c) + v) <==> Meets(c[1..] + p, Word(x, c[1..]) + v)
  {
    hide Meets;
    TokenOff(c[0], c[1..] + p, WordOf(x, c[0]), Word(x, c[1..]) + v);
    assert c + p == [c[0]] + (c[1..] + p);
    assert Word(x, c) + v == [WordOf(x, c[0])] + (Word(x, c[1..]) + v);
  }

  lemma {:induction false} TokenOff(t: Tok, p: Pattern, s: string, v: Value)
    requires !t.Many? && Accepts(t, [s])
    ensures Meets([t] + p, [s] + v) <==> Meets(p, v)
  {
    assert ([t] + p)[1..] == p && ([s] + v)[1..] == v && ([s] + v)[..1] == [s];
  }

  lemma {:induction false} GlobOff(x: string, c: Pattern, p: Pattern, v: Value)
    requires c != [] && c[0].Many? && Word(x, c) + v != []
    ensures Word(x, c) == Word(x, c[1..])
    ensures Meets(c + p, Word(x, c) + v) <==> Meets(c[1..] + p, Word(x, c[1..]) + v) || Meets(c + p, (Word(x, c) + v)[1..])
  {
    assert (c + p)[0] == c[0] && (c + p)[1..] == c[1..] + p;
    assert Word(x, c) == Word(x, c[1..]);
  }

  /** One token more, at a '#', still matches. */
  lemma {:induction false} OneMore(x: string, c: Pattern, p: Pattern)
    requires p != [] && p[0].Many?
    ensures Meets(c + p, Word(x, c) + ([x] + Word(x, p)))
  {
    hide Meets, Alignments;
    var v := [x] + Word(x, p);
    if c == [] {
      assert c + p == p && Word(x, c) + v == v;
      WordMeets(x, p);
      GlobTakes(x, p);
    } else {
      OneMore(x, c[1..], p);
      if c[0].Many? { GlobOff(x, c, p, v); } else { FirstOff(x, c, p, v); }
    }
  }

  lemma {:induction false} GlobTakes(x: string, p: Pattern)
    requires p != [] && p[0].Many? && Meets(p, Word(x, p))
    ensures Meets(p, [x] + Word(x, p))
  {
    assert ([x] + Word(x, p))[1..] == Word(x, p);
  }

  /** The token accepts the word of the token after it, and the last one a new word. */
  predicate Shifts(x: string, t: Pattern, i: nat)
    requires i < |t|
  {
    t[i].One? || t[i] == Lit(if i + 1 < |t| then WordOf(x, t[i + 1]) else x)
  }

  lemma {:induction false} ShiftedIsOne(x: string, t: Pattern)
    requires t != [] && NotIn(x, t) && (forall i | 0 <= i < |t| :: !t[i].Many? && Shifts(x, t, i))
    ensures t[0].One?
  {
    assert Shifts(x, t, 0);
    if |t| > 1 {
      var u := t[1..];
      forall i | 0 <= i < |u| ensures !u[i].Many? && Shifts(x, u, i) { assert Shifts(x, t, i + 1); }
      ShiftedIsOne(x, u);
    }
  }

  /** A value with one token more after `c` that has lost its first one: what its tokens would have to be. */
  lemma {:induction false} ShiftedAt(x: string, c: Pattern, q: Pattern, i: nat)
    requires NotIn(x, c) && i < |Thin(c)| && Meets(c + q, (Word(x, c) + ([x] + Word(x, q)))[1..])
    ensures Thin(c)[i] != Lit(x) && !Thin(c)[i].Many? && Shifts(x, Thin(c), i)
  {
    hide Alignments, Thin, Word;
    var t, w := Thin(c), Word(x, c) + ([x] + Word(x, q));
    WordSize(x, c);
    WordSize(x, q);
    ThinAppend(c, q);
    NoShorter(c + q, w[1..]);
    ThinAt(x, c, i);
    assert t[i] == (t + Thin(q))[i] && w[1..][i] == w[i + 1];
    if i + 1 < |t| { ThinAt(x, c, i + 1); }
  }

  /** After a '#' comes a literal, so this cannot be. */
  lemma {:induction false} NotShifted(x: string, c: Pattern, q: Pattern)
    requires NotIn(x, c) && |c| > 1 && c[0].Many? && c[1].Lit?
    ensures !Meets(c + q, (Word(x, c) + ([x] + Word(x, q)))[1..])
  {
    hide Alignments, Word, Meets;
    var w := Word(x, c) + ([x] + Word(x, q));
    if Meets(c + q, w[1..]) {
      var t := Thin(c);
      assert t == Thin(c[1..]) && t != [] && t[0] == c[1];
      forall i | 0 <= i < |t| ensures t[i] != Lit(x) && !t[i].Many? && Shifts(x, t, i) { ShiftedAt(x, c, q, i); }
      ShiftedIsOne(x, t);
    }
  }

  /** One token more, where no '#' stands, does not match. */
  lemma {:induction false} NoneMore(x: string, c: Pattern, q: Pattern)
    requires NormalForm(c + q) && NotIn(x, c) && NotIn(x, q)
    requires (q == [] || q[0].Lit?) && (c != [] ==> !c[|c| - 1].Many?)
    ensures !Meets(c + q, Word(x, c) + ([x] + Word(x, q)))
    decreases |c|
  {
    hide Meets, Alignments, NormalForm;
    var v := [x] + Word(x, q);
    if c == [] {
      assert c + q == q && Word(x, c) + v == v;
      NoneFirst(x, q);
    } else {
      assert (c + q)[1..] == c[1..] + q;
      NormalTail(c + q);
      NoneMore(x, c[1..], q);
      if c[0].Many? {
        AfterGlob(c, q);
        NotShifted(x, c, q);
        GlobOff(x, c, q, v);
      } else {
        FirstOff(x, c, q, v);
      }
    }
  }

  lemma {:induction false} NoneFirst(x: string, q: Pattern)
    requires NotIn(x, q) && (q == [] || q[0].Lit?)
    ensures !Meets(q, [x] + Word(x, q))
  {
    assert ([x] + Word(x, q))[..1] == [x];
  }

  lemma {:induction false} AfterGlob(c: Pattern, q: Pattern)
    requires NormalForm(c + q) && c != [] && c[0].Many? && !c[|c| - 1].Many?
    ensures |c| > 1 && c[1].Lit?
  {
    assert (c + q)[0] == c[0] && (c + q)[1] == c[1];
  }

  lemma {:induction false} NormalTail(p: Pattern)
    requires p != [] && NormalForm(p)
    ensures NormalForm(p[1..])
  {
  }

  // ---------------------------------------------------------------- the theorem

  /** Behind a common beginning, only one of two patterns in normal form goes on with a '#'. */
  lemma {:induction false} GlobTells(x: string, c: Pattern, p: Pattern, q: Pattern)
    requires NormalForm(c + p) && NormalForm(c + q) && Thin(p) == Thin(q)
    requires NotIn(x, c) && NotIn(x, q)
    requires p != [] && p[0].Many? && (q == [] || !q[0].Many?)
    ensures !SameValues(c + p, c + q)
  {
    hide Alignments, Word;
    if c != [] { assert (c + p)[|c| - 1] == c[|c| - 1] && (c + p)[|c|] == p[0]; }
    if |p| > 1 { assert (c + p)[|c|] == p[0] && (c + p)[|c| + 1] == p[1]; }
    if q != [] { assert Thin(q)[0] == q[0]; }
    OneMore(x, c, p);
    SameWord(x, p, q);
    NoneMore(x, c, q);
  }

  lemma {:induction false} SameBehind(x: string, c: Pattern, p: Pattern, q: Pattern)
    requires NormalForm(c + p) && NormalForm(c + q) && Thin(p) == Thin(q) && SameValues(c + p, c + q)
    requires NotIn(x, c) && NotIn(x, p) && NotIn(x, q)
    ensures p == q
    decreases |p| + |q|
  {
    hide Alignments, SameValues, NormalForm;
    if p != [] && p[0].Many? && (q == [] || !q[0].Many?) {
      GlobTells(x, c, p, q);
    } else if q != [] && q[0].Many? && (p == [] || !p[0].Many?) {
      assert SameValues(c + q, c + p) by { Symmetric(c + p, c + q); }
      GlobTells(x, c, q, p);
    } else if p != [] && q != [] {
      assert p[0] == q[0] by { assert !p[0].Many? ==> Thin(p)[0] == p[0] && Thin(q)[0] == q[0]; }
      assert Thin(p[1..]) == Thin(q[1..]) by {
        assert if p[0].Many? then Thin(p) == Thin(p[1..]) && Thin(q) == Thin(q[1..])
               else Thin(p)[1..] == Thin(p[1..]) && Thin(q)[1..] == Thin(q[1..]);
      }
      assert (c + [p[0]]) + p[1..] == c + p && (c + [p[0]]) + q[1..] == c + q;
      SameBehind(x, c + [p[0]], p[1..], q[1..]);
      assert p == [p[0]] + p[1..] && q == [q[0]] + q[1..];
    }
  }

  lemma {:induction false} Symmetric(p: Pattern, q: Pattern)
    requires SameValues(p, q)
    ensures SameValues(q, p)
  {
  }

  /** A token that is longer than all the tokens of a pattern. */
  lemma {:induction false} NewToken(p: Pattern, least: nat) returns (x: string)
    ensures NotIn(x, p) && |x| >= least
    ensures forall i | 0 <= i < |p| && p[i].Lit? :: |p[i].text| < |x|
    decreases |p|
  {
    if p == [] {
      x := seq(least, _ => 'x');
    } else {
      x := NewToken(p[1..], if p[0].Lit? && |p[0].text| >= least then |p[0].text| + 1 else least);
      forall i | 0 <= i < |p| && p[i].Lit? ensures |p[i].text| < |x| { if i > 0 { assert p[i] == p[1..][i - 1]; } }
    }
  }

  /** Two patterns have the same normal form if and only if they match the same values. */
  lemma {:induction false} NormalFormIsCanonical(p: Pattern, q: Pattern)
    ensures Normalize(p) == Normalize(q) <==> forall v :: Matches(p, v) <==> Matches(q, v)
  {
    hide Normalize, NormalForm, Alignments, Matches;
    var n, m := Normalize(p), Normalize(q);
    forall v ensures Matches(n, v) <==> Matches(p, v) { NormalizeKeepsMeaning(p, v); }
    forall v ensures Matches(m, v) <==> Matches(q, v) { NormalizeKeepsMeaning(q, v); }
    if forall v :: Matches(p, v) <==> Matches(q, v) {
      assert SameValues(n, m) by {
        forall v ensures Alignments(n, v) > 0 <==> Alignments(m, v) > 0 {
          MatchesIffAligned(n, v);
          MatchesIffAligned(m, v);
          assert Matches(p, v) <==> Matches(q, v);
        }
      }
      var x := NewToken(n + m, 0);
      assert NotIn(x, n) && NotIn(x, m) by { InBoth(x, n, m); }
      NormalizeReachesNormalForm(p);
      NormalizeReachesNormalForm(q);
      SameThin(x, n, m);
      assert [] + n == n && [] + m == m;
      SameBehind(x, [], n, m);
    }
  }

  lemma {:induction false} InBoth(x: string, n: Pattern, m: Pattern)
    requires NotIn(x, n + m)
    ensures NotIn(x, n) && NotIn(x, m)
  {
    forall i | 0 <= i < |n| ensures n[i] != Lit(x) { assert (n + m)[i] == n[i]; }
    forall i | 0 <= i < |m| ensures m[i] != Lit(x) { assert (n + m)[|n| + i] == m[i]; }
  }
}
