/** What an allow list says, with its characters written out: rules separated by ',', "${user}" for the name of
    the user, '*' at the end for any continuation. */
module PolicySpelling {
  import opened Policy
  import opened Seqs
  import opened Options

  predicate KeyHere(rule: string, i: nat) { i + 7 <= |rule| && rule[i..i + 7] == "${user}" }

  /** The rule is `pre`, the key and `post`, and the key is not in it further to the left. */
  predicate FirstKey(rule: string, pre: string, post: string) {
    rule == pre + "${user}" + post && forall i | 0 <= i < |pre| :: !KeyHere(rule, i)
  }

  ghost predicate HasKey(rule: string) { exists i: nat :: KeyHere(rule, i) }

  /** The name that a rule gives for a user: the first key, and only that, is replaced. */
  ghost predicate Gives(rule: string, user: string, name: string) {
    if HasKey(rule) then exists pre, post :: FirstKey(rule, pre, post) && name == pre + user + post
    else name == rule
  }

  predicate Covers(name: string, proposed: string)
    requires name != ""
  {
    if name[|name| - 1] == '*' then name[..|name| - 1] <= proposed else proposed == name
  }

  lemma {:induction false} GivesIsSubst(rule: string, user: string, name: string)
    ensures Gives(rule, user, name) <==> name == Subst(rule, user)
  {
    var r := FirstFrom(rule, USER_KEY, 0);
    assert r.Some? ==> KeyHere(rule, r.value);
    if HasKey(rule) {
      var i: nat :| KeyHere(rule, i);
      assert OccursAt(rule, USER_KEY, i);
      KeyFirst(rule, user, r.value);
      forall pre, post | FirstKey(rule, pre, post) ensures pre + user + post == Subst(rule, user) { KeyAt(rule, pre, post); }
    }
  }

  lemma {:induction false} KeyFirst(rule: string, user: string, i: nat)
    requires FirstFrom(rule, USER_KEY, 0) == Some(i)
    ensures FirstKey(rule, rule[..i], rule[i + 7..]) && Subst(rule, user) == rule[..i] + user + rule[i + 7..]
  {
    assert rule == rule[..i] + rule[i..i + 7] + rule[i + 7..];
    forall k | 0 <= k < i ensures !KeyHere(rule, k) { assert !OccursAt(rule, USER_KEY, k); }
  }

  lemma {:induction false} KeyAt(rule: string, pre: string, post: string)
    requires FirstKey(rule, pre, post)
    ensures FirstFrom(rule, USER_KEY, 0) == Some(|pre|) && rule[..|pre|] == pre && rule[|pre| + 7..] == post
  {
    assert OccursAt(rule, USER_KEY, |pre|) by { assert KeyHere(rule, |pre|); }
    assert KeyHere(rule, FirstFrom(rule, USER_KEY, 0).value);
  }

  lemma {:induction false} CoversIsMatch(name: string, proposed: string)
    requires name != ""
    ensures Covers(name, proposed) <==> NameMatches(name, proposed)
  {
  }

  /** Rules with commas between them. */
  function Listed(rules: seq<string>): string {
    if rules == [] then "" else if |rules| == 1 then rules[0] else rules[0] + ("," + Listed(rules[1..]))
  }

  lemma {:induction false} LastRule(rule: string)
    requires NoComma(rule) && rule != ""
    ensures Rules(rule) == [rule]
  {
    hide Span;
    SpanIs(rule, "");
    assert rule + "" == rule && rule[..|rule|] == rule;
    assert Rules("") == [];
  }

  lemma {:induction false} RuleOff(rule: string, rest: string)
    requires NoComma(rule)
    ensures Rules(rule + ("," + rest)) == [rule] + Rules(rest)
  {
    hide Span;
    var csv := rule + ("," + rest);
    SpanIs(rule, "," + rest);
    assert csv[..|rule|] == rule && csv[|rule| + 1..] == rest;
  }

  /** A list has exactly the rules it is made of. Only an empty one at its end would not be seen. */
  lemma {:induction false} RulesListed(rules: seq<string>)
    requires (forall i | 0 <= i < |rules| :: ',' !in rules[i]) && (rules != [] ==> rules[|rules| - 1] != "")
    ensures Rules(Listed(rules)) == rules
  {
    hide Rules;
    if rules == [] {
      assert Rules("") == [] by { NoRules(); }
    } else if |rules| == 1 {
      LastRule(rules[0]);
    } else {
      RuleOff(rules[0], Listed(rules[1..]));
      RulesListed(rules[1..]);
    }
  }

  lemma {:induction false} NoRules()
    ensures Rules("") == []
  {
  }

  /** Compile a list of rules and approve a name: approved if and only if some rule gives a name that covers
      it. An empty name is never approved. */
  method DecideListed(rules: seq<string>, user: string, proposed: string) returns (result: bool)
    requires forall i | 0 <= i < |rules| :: ',' !in rules[i] && rules[i] != ""
    requires forall i | 0 <= i < |rules| :: !Gives(rules[i], user, "")
    ensures result <==>
            proposed != "" &&
            exists i, name :: 0 <= i < |rules| && Gives(rules[i], user, name) && name != "" && Covers(name, proposed)
  {
    hide Gives, Subst, NameMatches, Covers, Rules;
    RulesListed(rules);
    forall i | 0 <= i < |rules| ensures Subst(rules[i], user) != [] { GivesIsSubst(rules[i], user, ""); }
    result := Decide(Listed(rules), user, proposed);
    if Allowed(rules, user, proposed) {
      var i :| 0 <= i < |rules| && Subst(rules[i], user) != [] && NameMatches(Subst(rules[i], user), proposed);
      GivesIsSubst(rules[i], user, Subst(rules[i], user));
      CoversIsMatch(Subst(rules[i], user), proposed);
    }
    forall i, name | 0 <= i < |rules| && Gives(rules[i], user, name) && name != "" && Covers(name, proposed)
      ensures Allowed(rules, user, proposed)
    {
      GivesIsSubst(rules[i], user, name);
      CoversIsMatch(name, proposed);
    }
  }
}
