/** Link-name rules: a comma-separated allow list is compiled into (control, prefix, suffix)
    triples, in which the place of the user name is marked, and a proposed name is approved
    against the triples.
 */
module Policy {
  import opened Seqs
  import opened Options

  const USER_KEY := "${user}"

  // ---------------------------------------------------------------- text

  predicate NoComma(s: string) { ',' !in s }

  /** Length of the text before the first comma. */
  function Span(s: string): (n: nat)
    ensures n <= |s| && NoComma(s[..n]) && (n < |s| ==> s[n] == ',')
  {
    if s == [] || s[0] == ',' then 0
    else
      var n := 1 + Span(s[1..]);
      assert s[..n] == [s[0]] + s[1..][..n - 1];
      n
  }

  predicate OccursAt(s: string, key: string, i: nat) { i + |key| <= |s| && s[i..i + |key|] == key }

  /** Where the key first occurs, at `i` or later. */
  function FirstFrom(s: string, key: string, i: nat): (r: Option<nat>)
    requires i <= |s|
    ensures r.None? ==> forall k | i <= k <= |s| :: !OccursAt(s, key, k)
    ensures r.Some? ==> i <= r.value && OccursAt(s, key, r.value) && forall k | i <= k < r.value :: !OccursAt(s, key, k)
    decreases |s| - i
  {
    if OccursAt(s, key, i) then Some(i)
    else if i == |s| then None
    else FirstFrom(s, key, i + 1)
  }

  // ---------------------------------------------------------------- the meaning of an allow list

  /** What follows the first rule and its comma. */
  function More(csv: string): (rest: string)
    ensures csv != [] ==> |rest| < |csv|
  {
    var n := Span(csv);
    if n == |csv| then [] else csv[n + 1..]
  }

  /** The rules of a list. A comma at the very end starts no further rule. */
  function Rules(csv: string): seq<string>
    decreases |csv|
  {
    if csv == [] then [] else [csv[..Span(csv)]] + Rules(More(csv))
  }

  /** A rule with the user name put in place of the first key. */
  function Subst(rule: string, user: string): string {
    match FirstFrom(rule, USER_KEY, 0)
    case None => rule
    case Some(i) => rule[..i] + user + rule[i + |USER_KEY|..]
  }

  /** A name that ends in '*' stands for all names that start with the rest. */
  predicate NameMatches(name: string, proposed: string)
    requires name != []
  {
    var n := |name| - 1;
    if name[n] == '*' then n <= |proposed| && proposed[..n] == name[..n] else proposed == name
  }

  // ---------------------------------------------------------------- triples

  datatype Rule = Rule(control: char, prefix: string, suffix: string)

  function CompileRule(token: string): Rule {
    match FirstFrom(token, USER_KEY, 0)
    case Some(i) =>
      if i == 0 then Rule('p', "", token[|USER_KEY|..])
      else if i == |token| - |USER_KEY| then Rule('s', token[..i], "")
      else Rule('e', token[..i], token[i + |USER_KEY|..])
    case None => if token == "*" then Rule('*', "", "") else Rule('a', token, "")
  }

  function CompileAll(tokens: seq<string>): seq<Rule> {
    if tokens == [] then [] else [CompileRule(tokens[0])] + CompileAll(tokens[1..])
  }

  /** The text of a triple. */
  function Text(r: Rule): string { [r.control] + "," + r.prefix + "," + r.suffix }

  function Texts(rs: seq<Rule>): string {
    if rs == [] then "" else Text(rs[0]) + if |rs| == 1 then "" else "," + Texts(rs[1..])
  }

  /** The name that a triple stands for. */
  function Generated(r: Rule, user: string): string {
    match r.control
    case 'a' => r.prefix
    case 'p' => user + r.suffix
    case 'e' => r.prefix + user + r.suffix
    case 's' => r.prefix + user
    case _ => []
  }

  predicate Known(control: char) { control in {'a', 'p', 'e', 's'} }

  predicate RuleMatches(r: Rule, user: string, proposed: string) {
    r.control == '*' || (Known(r.control) && Generated(r, user) != [] && NameMatches(Generated(r, user), proposed))
  }

  /** A compiled rule stands for the rule with the user name put in, and '*' for all names. */
  lemma {:induction false} CompiledMeaning(token: string, user: string, proposed: string)
    requires Subst(token, user) != []
    ensures RuleMatches(CompileRule(token), user, proposed) <==> NameMatches(Subst(token, user), proposed)
  {
    var r := CompileRule(token);
    match FirstFrom(token, USER_KEY, 0)
    case Some(i) =>
      assert Generated(r, user) == Subst(token, user);
    case None =>
      if token == "*" { assert proposed[..0] == token[..0]; }
  }

  // ---------------------------------------------------------------- compiling

  /** Number of commas. */
  function Commas(s: string): nat {
    if s == [] then 0 else (if s[0] == ',' then 1 else 0) + Commas(s[1..])
  }

  lemma {:induction false} CommasAfter(s: string)
    ensures Commas(s) == if Span(s) == |s| then 0 else 1 + Commas(More(s))
  {
    if s != [] && s[0] != ',' {
      CommasAfter(s[1..]);
      var n := Span(s);
      if n < |s| { assert s[1..][n..] == s[n + 1..]; }
    }
  }

  lemma {:induction false} CompileAllCons(tokens: seq<string>)
    requires tokens != []
    ensures CompileAll(tokens) == [CompileRule(tokens[0])] + CompileAll(tokens[1..])
    ensures CompileAll(tokens[1..]) == [] <==> |tokens| == 1
  {
  }

  lemma {:induction false} TextsCons(r: Rule, rs: seq<Rule>)
    ensures Texts([r] + rs) == Text(r) + if rs == [] then "" else "," + Texts(rs)
  {
    assert ([r] + rs)[1..] == rs;
  }

  /** The text for a list, from its first rule and the rest. */
  lemma {:induction false} CompiledHead(csv: string)
    requires csv != []
    ensures Texts(CompileAll(Rules(csv)))
         == Text(CompileRule(csv[..Span(csv)])) + if More(csv) == [] then "" else "," + Texts(CompileAll(Rules(More(csv))))
  {
    hide Text, CompileRule, Texts, CompileAll, Span, More;
    var rs := Rules(csv);
    assert rs[0] == csv[..Span(csv)] && rs[1..] == Rules(More(csv));
    CompileAllCons(rs);
    TextsCons(CompileRule(rs[0]), CompileAll(rs[1..]));
  }

  lemma {:induction false} TextSize(token: string)
    ensures |Text(CompileRule(token))| <= |token| + 3
  {
  }

  /** The size computed for the result is enough, the terminating zero included. */
  lemma {:induction false} SizeSuffices(csv: string)
    ensures |Texts(CompileAll(Rules(csv)))| + 1 <= |csv| + 3 * (Commas(csv) + 1) + 1
    decreases |csv|
  {
    hide Text, CompileRule, Texts, CompileAll, Rules;
    if csv == [] {
      NoRules();
    } else {
      CommasAfter(csv);
      TextSize(csv[..Span(csv)]);
      CompiledHead(csv);
      SizeSuffices(More(csv));
    }
  }

  lemma {:induction false} NoRules()
    ensures Texts(CompileAll(Rules(""))) == ""
  {
  }

  /** Compile an allow list. The result fits the buffer whose size is computed first. */
  method CompileAllowedCsv(csv: string) returns (result: string, resultSize: nat)
    ensures result == Texts(CompileAll(Rules(csv)))
    ensures |result| + 1 <= resultSize
  {
    hide Rules, CompileAll, Texts, CompileRule, Text, Commas, Span, More;
    var commas := CountCommas(csv);
    resultSize := |csv| + 3 * (commas + 1) + 1;
    SizeSuffices(csv);
    result := "";
    var sep, rest := "", csv;
    Nothing(csv);
    while rest != []
      invariant result + Tail(sep, rest) == Texts(CompileAll(Rules(csv)))
      decreases |rest|
    {
      var token := rest[..Span(rest)];
      NextRule(result, sep, rest);
      result := (result + sep) + Text(CompileRule(token));
      MoreIsShorter(rest);
      sep, rest := ",", More(rest);
    }
    assert result + "" == result;
  }

  lemma {:induction false} MoreIsShorter(csv: string)
    requires csv != []
    ensures |More(csv)| < |csv|
  {
  }

  /** What is still to be written for the rest of the list. */
  ghost function Tail(sep: string, rest: string): string {
    if rest == [] then "" else sep + Texts(CompileAll(Rules(rest)))
  }

  lemma {:induction false} Nothing(csv: string)
    ensures "" + Tail("", csv) == Texts(CompileAll(Rules(csv)))
  {
    hide Texts, CompileAll, Rules;
    NoRules();
    assert "" + ("" + Texts(CompileAll(Rules(csv)))) == Texts(CompileAll(Rules(csv)));
  }

  lemma {:induction false} NextRule(result: string, sep: string, rest: string)
    requires rest != []
    ensures result + Tail(sep, rest) == ((result + sep) + Text(CompileRule(rest[..Span(rest)]))) + Tail(",", More(rest))
  {
    hide Texts, CompileAll, Rules, Text, CompileRule, Span, More;
    CompiledHead(rest);
    FourParts(result, sep, Text(CompileRule(rest[..Span(rest)])), Tail(",", More(rest)));
  }

  lemma {:induction false} FourParts(a: string, b: string, c: string, d: string)
    ensures a + (b + (c + d)) == ((a + b) + c) + d
  {
  }

  method CountCommas(s: string) returns (n: nat)
    ensures n == Commas(s)
  {
    n := 0;
    var i := 0;
    assert s[0..] == s;
    while i < |s|
      invariant 0 <= i <= |s| && n + Commas(s[i..]) == Commas(s)
    {
      assert s[i..][1..] == s[i + 1..];
      if s[i] == ',' { n := n + 1; }
      i := i + 1;
    }
  }

  // ---------------------------------------------------------------- approving

  /** The first triple of a text, and what follows it; `None` if the text is malformed. */
  function ReadRule(s: string): (r: Option<(Rule, string)>)
    ensures r.Some? && s != [] ==> |r.value.1| < |s|
  {
    var n := Span(s);
    if n != 1 || |s| <= 2 then None
    else
      var s1 := s[2..];
      var k := Span(s1);
      if k == |s1| then None
      else
        var s2 := s1[k + 1..];
        var l := Span(s2);
        Some((Rule(s[0], s1[..k], s2[..l]), if l == |s2| then [] else s2[l + 1..]))
  }

  /** Does one of the triples in the text, before any that is malformed, match? */
  predicate Approved(user: string, allowed: string, proposed: string)
    decreases |allowed|
  {
    allowed != [] &&
    match ReadRule(allowed)
    case None => false
    case Some((r, rest)) =>
      if r.control == '*' then true
      else if !Known(r.control) then false
      else RuleMatches(r, user, proposed) || Approved(user, rest, proposed)
  }

  /** No triple makes an empty name, of which there is no last character to look at. */
  predicate NoEmptyName(user: string, allowed: string)
    decreases |allowed|
  {
    allowed == [] ||
    match ReadRule(allowed)
    case None => true
    case Some((r, rest)) => !Known(r.control) || (Generated(r, user) != [] && NoEmptyName(user, rest))
  }

  lemma {:induction false} ReadShrinks(s: string)
    requires s != []
    ensures ReadRule(s).Some? ==> |ReadRule(s).value.1| < |s|
  {
  }

  /** Compare the first `n` characters; a text that ends before differs. */
  method SameStart(a: string, b: string, n: nat) returns (same: bool)
    requires n <= |b|
    ensures same <==> n <= |a| && a[..n] == b[..n]
  {
    var i := 0;
    while i < n
      invariant 0 <= i <= n && i <= |a| && a[..i] == b[..i]
    {
      if i == |a| { return false; }
      if a[i] != b[i] {
        DifferAt(a, b, i, n);
        return false;
      }
      assert a[..i + 1] == a[..i] + [a[i]] && b[..i + 1] == b[..i] + [b[i]];
      i := i + 1;
    }
    return true;
  }

  lemma {:induction false} DifferAt(a: string, b: string, i: nat, n: nat)
    requires i < n <= |b| && i < |a| && a[i] != b[i]
    ensures n <= |a| ==> a[..n] != b[..n]
  {
    if n <= |a| { assert a[..n][i] == a[i] && b[..n][i] == b[i]; }
  }

  /** Approve a proposed name. */
  method ApproveLinkName(user: string, allowed: string, proposed: string) returns (result: bool)
    requires NoEmptyName(user, allowed)
    ensures result <==> proposed != [] && Approved(user, allowed, proposed)
  {
    hide ReadRule, Generated;
    result := false;
    if |proposed| == 0 || |allowed| == 0 { return; }
    var rest := allowed;
    while rest != []
      invariant NoEmptyName(user, rest) && Approved(user, rest, proposed) == Approved(user, allowed, proposed)
      decreases |rest|
    {
      var r := ReadRule(rest);
      ReadShrinks(rest);
      if r.None? { return false; }
      var rule := r.value.0;
      if rule.control == '*' { return true; }
      if !Known(rule.control) { return false; }
      var name := Generated(rule, user);
      if name[|name| - 1] != '*' {
        result := proposed == name;
      } else {
        result := SameStart(proposed, name, |name| - 1);
      }
      if result { return; }
      rest := r.value.1;
    }
  }

  // ---------------------------------------------------------------- compile, then approve

  lemma {:induction false} SpanIs(x: string, y: string)
    requires NoComma(x) && (y == [] || y[0] == ',')
    ensures Span(x + y) == |x|
  {
    if x == [] {
      assert x + y == y;
    } else {
      assert (x + y)[1..] == x[1..] + y;
      SpanIs(x[1..], y);
    }
  }

  predicate Clean(r: Rule) { r.control != ',' && NoComma(r.prefix) && NoComma(r.suffix) }

  /** A triple is read back from its text. */
  lemma {:induction false} ReadText(r: Rule, y: string)
    requires Clean(r) && (y == [] || y[0] == ',')
    ensures ReadRule(Text(r) + y) == Some((r, if y == [] then [] else y[1..]))
  {
    hide Span, Text, NoComma;
    var s := Text(r) + y;
    var s2 := r.suffix + y;
    var s1 := r.prefix + ("," + s2);
    Cuts(r, y);
    OneChar(r.control);
    SpanIs([r.control], "," + s1);
    SpanIs(r.prefix, "," + s2);
    SpanIs(r.suffix, y);
  }

  lemma {:induction false} OneChar(c: char)
    requires c != ','
    ensures NoComma([c])
  {
  }

  lemma {:induction false} Cuts(r: Rule, y: string)
    ensures var s := Text(r) + y; var s2 := r.suffix + y; var s1 := r.prefix + ("," + s2);
            && s == [r.control] + ("," + s1) && s[2..] == s1 && s[0] == r.control && |s| > 2
            && s1[..|r.prefix|] == r.prefix && s1[|r.prefix| + 1..] == s2 && |r.prefix| < |s1|
            && s2[..|r.suffix|] == r.suffix && (y != [] ==> s2[|r.suffix| + 1..] == y[1..])
  {
  }

  lemma {:induction false} CleanRule(token: string)
    requires NoComma(token)
    ensures Clean(CompileRule(token)) && (CompileRule(token).control == '*' || Known(CompileRule(token).control))
  {
  }

  /** Is the name allowed by one of the rules, the user name put in? */
  predicate Allowed(rules: seq<string>, user: string, proposed: string) {
    exists i :: 0 <= i < |rules| && Subst(rules[i], user) != [] && NameMatches(Subst(rules[i], user), proposed)
  }

  predicate Usable(rules: seq<string>, user: string) {
    forall i | 0 <= i < |rules| :: NoComma(rules[i]) && Subst(rules[i], user) != []
  }

  lemma {:induction false} AllowedCons(rules: seq<string>, user: string, proposed: string)
    requires rules != [] && Subst(rules[0], user) != []
    ensures Allowed(rules, user, proposed)
       <==> NameMatches(Subst(rules[0], user), proposed) || Allowed(rules[1..], user, proposed)
  {
    hide Subst, NameMatches;
    if Allowed(rules[1..], user, proposed) {
      var i :| 0 <= i < |rules[1..]| && Subst(rules[1..][i], user) != [] && NameMatches(Subst(rules[1..][i], user), proposed);
      assert rules[i + 1] == rules[1..][i];
    }
    if Allowed(rules, user, proposed) && !NameMatches(Subst(rules[0], user), proposed) {
      var i :| 0 <= i < |rules| && Subst(rules[i], user) != [] && NameMatches(Subst(rules[i], user), proposed);
      assert rules[i] == rules[1..][i - 1];
    }
  }

  lemma {:induction false} ApprovedRules(rules: seq<string>, user: string, proposed: string)
    requires Usable(rules, user)
    ensures NoEmptyName(user, Texts(CompileAll(rules)))
    ensures Approved(user, Texts(CompileAll(rules)), proposed) <==> Allowed(rules, user, proposed)
  {
    hide Subst, NameMatches, Text, CompileRule, ReadRule, RuleMatches, Generated, Span;
    if rules != [] {
      var token, rest := rules[0], rules[1..];
      var r, rs := CompileRule(token), CompileAll(rest);
      CompileAllCons(rules);
      TextsCons(r, rs);
      CleanRule(token);
      ReadText(r, if rs == [] then "" else "," + Texts(rs));
      NonEmptyText(r);
      assert rs != [] ==> ("," + Texts(rs))[1..] == Texts(rs);
      ApprovedRules(rest, user, proposed);
      AllowedCons(rules, user, proposed);
      CompiledMeaning(token, user, proposed);
      NameNotEmpty(token, user);
    }
  }

  lemma {:induction false} NonEmptyText(r: Rule)
    ensures Text(r) != []
  {
  }

  lemma {:induction false} NameNotEmpty(token: string, user: string)
    requires Subst(token, user) != []
    ensures Known(CompileRule(token).control) ==> Generated(CompileRule(token), user) != []
    ensures CompileRule(token).control == '*' ==> forall p :: NameMatches(Subst(token, user), p)
  {
  }

  lemma {:induction false} RulesHaveNoComma(csv: string)
    ensures forall i | 0 <= i < |Rules(csv)| :: NoComma(Rules(csv)[i])
    decreases |csv|
  {
    if csv != [] { RulesHaveNoComma(More(csv)); }
  }

  /** Compiling an allow list and then approving gives the same answer as putting the user name
      in place of the first key of every rule and comparing, for all lists and names; only
      rules that come out empty are not provided for. */
  lemma {:induction false} CompileThenApprove(csv: string, user: string, proposed: string)
    requires forall i | 0 <= i < |Rules(csv)| :: Subst(Rules(csv)[i], user) != []
    ensures NoEmptyName(user, Texts(CompileAll(Rules(csv))))
    ensures Approved(user, Texts(CompileAll(Rules(csv))), proposed) <==> Allowed(Rules(csv), user, proposed)
  {
    RulesHaveNoComma(csv);
    ApprovedRules(Rules(csv), user, proposed);
  }

  /** The two programs one after the other. */
  method Decide(csv: string, user: string, proposed: string) returns (result: bool)
    requires forall i | 0 <= i < |Rules(csv)| :: Subst(Rules(csv)[i], user) != []
    ensures result <==> proposed != [] && Allowed(Rules(csv), user, proposed)
  {
    hide Rules, CompileAll, Texts, Allowed, Approved, NoEmptyName;
    CompileThenApprove(csv, user, proposed);
    var compiled, _ := CompileAllowedCsv(csv);
    result := ApproveLinkName(user, compiled, proposed);
  }
}
