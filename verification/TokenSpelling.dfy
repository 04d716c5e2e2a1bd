/** Where a text is cut, with the characters written out: '.' and '/' in an address, '.' in an AMQP 0-10
    binding key, '/' in an MQTT topic; and which tokens are wildcards.
 */
module TokenSpelling {
  import opened ParseTree
  import opened PatternForms
  import opened Patterns
  import opened Seqs
  import opened TokenText

  predicate CutsAt(k: Kind, c: char) {
    match k
    case Address => c == '.' || c == '/'
    case Amqp010 => c == '.'
    case Mqtt => c == '/'
  }

  predicate AllCut(k: Kind, s: string) { forall i | 0 <= i < |s| :: CutsAt(k, s[i]) }

  predicate NoneCut(k: Kind, s: string) { forall i | 0 <= i < |s| :: !CutsAt(k, s[i]) }

  /** Tokens, each with the separator after it; the last one may have none. */
  function Joined(ts: seq<string>, seps: string): string
    requires |seps| <= |ts| <= |seps| + 1
  {
    if ts == [] then "" else if seps == [] then ts[0] else ts[0] + ([seps[0]] + Joined(ts[1..], seps[1..]))
  }

  /** Any token may be empty but the first, and a last one that no separator follows. */
  predicate Spelled(k: Kind, ts: seq<string>, seps: string) {
    && |seps| <= |ts| <= |seps| + 1
    && AllCut(k, seps)
    && (forall i | 0 <= i < |ts| :: NoneCut(k, ts[i]))
    && (|ts| > |seps| ==> ts[|ts| - 1] != "")
  }

  lemma {:induction false} EndOfToken(k: Kind, t: string, rest: string, i: nat)
    requires NoneCut(k, t) && (rest != "" ==> CutsAt(k, rest[0])) && i <= |t|
    ensures TokenEnd(k, t + rest, i) == |t|
    decreases |t| - i
  {
    if i < |t| { EndOfToken(k, t, rest, i + 1); }
  }

  /** A token and the separator after it come off the front. */
  lemma {:induction false} SplitToken(k: Kind, t: string, c: char, more: string)
    requires NoneCut(k, t) && CutsAt(k, c)
    ensures Split(k, t + ([c] + more)) == [t] + Split(k, more)
  {
    hide TokenEnd;
    var u := t + ([c] + more);
    EndOfToken(k, t, [c] + more, 0);
    assert u[..|t|] == t && u[|t| + 1..] == more;
  }

  lemma {:induction false} SplitLast(k: Kind, t: string)
    requires NoneCut(k, t) && t != ""
    ensures Split(k, t) == [t]
  {
    hide TokenEnd;
    EndOfToken(k, t, "", 0);
    assert t + "" == t && t[..|t|] == t && t[|t|..] == [];
  }

  /** Without its separators in front, a text is cut into the tokens it is made of. */
  lemma {:induction false} SplitJoined(k: Kind, ts: seq<string>, seps: string)
    requires Spelled(k, ts, seps)
    ensures Split(k, Joined(ts, seps)) == ts
  {
    hide Split, CutsAt, NoneCut;
    if ts == [] {
      assert Split(k, "") == [] by { SplitNone(k); }
    } else if seps == [] {
      SplitLast(k, ts[0]);
    } else {
      assert Spelled(k, ts[1..], seps[1..]);
      SplitJoined(k, ts[1..], seps[1..]);
      SplitToken(k, ts[0], seps[0], Joined(ts[1..], seps[1..]));
    }
  }

  lemma SplitNone(k: Kind)
    ensures Split(k, "") == []
  {
  }

  lemma {:induction false} LeadOf(k: Kind, lead: string, y: string)
    requires AllCut(k, lead) && (y != "" ==> !CutsAt(k, y[0]))
    ensures LeadingSeparators(k, lead + y) == |lead|
  {
    if lead == "" {
      assert lead + y == y;
    } else {
      assert (lead + y)[1..] == lead[1..] + y;
      LeadOf(k, lead[1..], y);
    }
  }

  /** Separators, then tokens joined by separators, are cut into exactly those tokens. */
  lemma {:induction false} CutAtSeparators(k: Kind, lead: string, ts: seq<string>, seps: string)
    requires AllCut(k, lead) && Spelled(k, ts, seps) && (ts != [] ==> ts[0] != "")
    ensures Tokens(k, lead + Joined(ts, seps)) == ts
  {
    hide Split, CutsAt, LeadingSeparators;
    var y := Joined(ts, seps);
    if ts != [] { assert y[0] == ts[0][0]; }
    LeadOf(k, lead, y);
    assert (lead + y)[|lead|..] == y;
    SplitJoined(k, ts, seps);
  }

  /** Every text without separators in front is spelled by tokens and separators. */
  lemma {:induction false} SpellRest(k: Kind, u: string) returns (ts: seq<string>, seps: string)
    ensures Spelled(k, ts, seps) && Joined(ts, seps) == u
    ensures u != "" && !CutsAt(k, u[0]) ==> ts != [] && ts[0] != ""
    ensures u == "" ==> ts == []
  {
    hide CutsAt;
    var e := FirstCut(k, u);
    if u == "" {
      ts, seps := [], "";
    } else if e == |u| {
      ts, seps := [u], "";
    } else {
      var ts', seps' := SpellRest(k, u[e + 1..]);
      ts, seps := [u[..e]] + ts', [u[e]] + seps';
      assert ts[1..] == ts' && seps[1..] == seps';
      assert u == u[..e] + ([u[e]] + u[e + 1..]);
    }
  }

  lemma {:induction false} FirstCut(k: Kind, u: string) returns (e: nat)
    ensures e <= |u| && NoneCut(k, u[..e]) && (e < |u| ==> CutsAt(k, u[e]))
  {
    if u == "" || CutsAt(k, u[0]) {
      e := 0;
    } else {
      var e' := FirstCut(k, u[1..]);
      e := e' + 1;
      assert forall i | 0 < i < e :: u[..e][i] == u[1..][..e'][i - 1];
    }
  }

  lemma {:induction false} FirstKept(k: Kind, s: string) returns (e: nat)
    ensures e <= |s| && AllCut(k, s[..e]) && (e < |s| ==> !CutsAt(k, s[e]))
  {
    if s == "" || !CutsAt(k, s[0]) {
      e := 0;
    } else {
      var e' := FirstKept(k, s[1..]);
      e := e' + 1;
      assert forall i | 0 < i < e :: s[..e][i] == s[1..][..e'][i - 1];
    }
  }

  /** Every text whatever is separators, then its tokens joined by separators: the tokens hold every
      character that does not cut, in order, and nothing else. */
  lemma {:induction false} EveryTextIsSpelled(k: Kind, s: string) returns (lead: string, ts: seq<string>, seps: string)
    ensures AllCut(k, lead) && Spelled(k, ts, seps) && (ts != [] ==> ts[0] != "")
    ensures s == lead + Joined(ts, seps)
    ensures Tokens(k, s) == ts
  {
    hide CutsAt, Tokens;
    var e := FirstKept(k, s);
    lead := s[..e];
    ts, seps := SpellRest(k, s[e..]);
    assert s == s[..e] + s[e..];
    CutAtSeparators(k, lead, ts, seps);
  }

  // ---------------------------------------------------------------- wildcards

  lemma {:induction false} ClassifiedAt(k: Kind, ts: seq<string>, i: nat)
    requires i < |ts|
    ensures |ClassifyAll(k, ts)| == |ts|
    ensures ClassifyAll(k, ts)[i] == Classify(k, ts[i])
  {
    if |ts| > 1 { ClassifiedAt(k, ts[1..], if i > 0 then i - 1 else 0); }
  }

  /** A pattern text denotes one token per token of the text. "#" is the wildcard for any number of tokens.
      The wildcard for one token is "*", and "+" in an MQTT filter. Any other token stands for itself, so
      "*" does in an MQTT filter and "+" does elsewhere. */
  lemma {:induction false} WildcardsAreWhole(k: Kind, s: string)
    ensures var p, ts := PatternOf(k, s), Tokens(k, s);
            && |p| == |ts|
            && (forall i | 0 <= i < |ts| ::
                  && (p[i] == Many <==> ts[i] == "#")
                  && (p[i] == One <==> (if k == Mqtt then ts[i] == "+" else ts[i] == "*"))
                  && (p[i].Lit? ==> p[i].text == ts[i]))
  {
    hide Tokens;
    var ts := Tokens(k, s);
    forall i | 0 <= i < |ts|
      ensures |ClassifyAll(k, ts)| == |ts| && ClassifyAll(k, ts)[i] == Classify(k, ts[i])
    {
      ClassifiedAt(k, ts, i);
    }
  }

  /** What a tree takes: any text with a token in it, but for MQTT none with a "#" before the last token. */
  lemma {:induction false} TextsAccepted(k: Kind, s: string)
    ensures var ts := Tokens(k, s);
            Acceptable(k, PatternOf(k, s)) <==> ts != [] && (k == Mqtt ==> "#" !in ts[..|ts| - 1])
  {
    hide Tokens, ClassifyAll;
    WildcardsAreWhole(k, s);
    var ts := Tokens(k, s);
    if ts != [] && "#" in ts[..|ts| - 1] {
      var i :| 0 <= i < |ts| - 1 && ts[i] == "#";
      assert PatternOf(k, s)[i] == Many;
    }
  }

  /** Two texts are one pattern to a tree of addresses or of AMQP 0-10 keys if and only if they match the
      same values, however they are spelled; to an MQTT tree, if and only if their tokens are the same. */
  lemma {:induction false} SameKey(k: Kind, a: string, b: string)
    ensures KeyOfText(k, a) == KeyOfText(k, b) <==>
              if k == Mqtt then Tokens(k, a) == Tokens(k, b)
              else forall v :: Matches(PatternOf(k, a), v) <==> Matches(PatternOf(k, b), v)
  {
    hide Tokens, Normalize, Matches, PatternOf;
    if k == Mqtt {
      SameTokens(a, b);
    } else {
      NormalFormIsCanonical(PatternOf(k, a), PatternOf(k, b));
    }
  }

  lemma {:induction false} SameTokens(a: string, b: string)
    ensures PatternOf(Mqtt, a) == PatternOf(Mqtt, b) <==> Tokens(Mqtt, a) == Tokens(Mqtt, b)
  {
    hide Tokens, ClassifyAll;
    WildcardsAreWhole(Mqtt, a);
    WildcardsAreWhole(Mqtt, b);
    var p, u, v := PatternOf(Mqtt, a), Tokens(Mqtt, a), Tokens(Mqtt, b);
    if p == PatternOf(Mqtt, b) {
      forall i | 0 <= i < |u| ensures u[i] == v[i] { assert p[i] == One || p[i] == Many || p[i].Lit?; }
    }
  }
}
