/** The names of the router annotations and the types of their values, written out. A section with a value of
    another type is refused; and of every section that is not, the values kept have these types. */
module AnnotationTypes {
  import opened Octets
  import opened Amqp
  import opened Parse
  import opened RoundTrip
  import opened Annotations
  import opened Hops
  import opened Seqs
  import opened Options

  predicate Spells(x: Octets, text: string) { |x| == |text| && forall i | 0 <= i < |x| :: x[i] as int == text[i] as int }

  lemma {:induction false} KeysSpelled()
    ensures Spells(KeyText(To), "x-opt-qd.to") && Spells(KeyText(Trace), "x-opt-qd.trace")
    ensures Spells(KeyText(Phase), "x-opt-qd.phase") && Spells(KeyText(Class), "x-opt-qd.class")
    ensures Spells(KeyText(Stream), "x-opt-qd.stream") && Spells(KeyText(Ingress), "x-opt-qd.ingress")
    ensures Spells(KeyText(Prefix), "x-opt-qd.")
  {
    KeyTextLength(To);
    KeyTextLength(Trace);
    KeyTextLength(Phase);
    KeyTextLength(Class);
    KeyTextLength(Stream);
    KeyTextLength(Ingress);
  }

  /** A key is taken for the name of a router annotation if and only if it is a symbol, in either form, with
      exactly that text. */
  lemma {:induction false} KeyTold(k: Key, tag: Octet, text: Octets)
    requires k != User
    ensures KeyOf(tag, text) == k <==> (tag == 0xa3 || tag == 0xb3) && text == KeyText(k)
  {
    hide KeyText;
    KeyOfText(k);
  }

  // ---------------------------------------------------------------- what is kept

  predicate Stringy(t: Parsed<Octets>) { t.Parsed? && (t.field.tag == 0xa1 || t.field.tag == 0xb1) }

  predicate ListOfStrings(t: Parsed<Octets>) {
    && t.Parsed? && (t.field.tag == 0x45 || t.field.tag == 0xc0 || t.field.tag == 0xd0)
    && forall i | 0 <= i < |t.children| :: Stringy(t.children[i])
  }

  predicate TypesOk(f: Found<Octets>) {
    && (f.to.Some? ==> Stringy(f.to.value)) && (f.ingress.Some? ==> Stringy(f.ingress.value))
    && (f.trace.Some? ==> ListOfStrings(f.trace.value))
  }

  lemma {:induction false} SetKeepsTypes(f: Found<Octets>, k: Key, t: Parsed<Octets>)
    requires TypesOk(f) && Complaint(k, t) == None
    ensures TypesOk(f.Set(k, t))
  {
  }

  lemma {:induction false} ReadKeepsTypes(strip: bool, s: Octets, n: nat, users: bool, acc: Found<Octets>)
    requires TypesOk(acc)
    ensures match ReadPairs(strip, s, n, users, acc) case Failed(_) => true case Good(f) => TypesOk(f)
    decreases n
  {
    hide ParseField, ParseValue, KeyOf, Complaint, Stringy, ListOfStrings, Found<Octets>.Set;
    if n > 0 && ParseField(s).Ok? {
      var s1 := ParseField(s).rest;
      var k := KeyOf(ParseField(s).field.tag, ParseField(s).field.value);
      if k == User && users {
        if ParseField(s1).Ok? {
          var s2 := ParseField(s1).rest;
          ReadKeepsTypes(strip, s2, n - 1, true,
                         acc.(userSize := acc.userSize + (if |s| < |s2| then 0 else |s| - |s2|), userCount := acc.userCount + 2));
        }
      } else if k == User {
        ReadKeepsTypes(strip, s1, n - 1, false, acc);
      } else if k == Prefix || k == Class {
        if ParseField(s1).Ok? { ReadKeepsTypes(strip, ParseField(s1).rest, n - 1, false, acc); }
      } else {
        var r := ParseValue(s1);
        if Complaint(k, r.tree) == None {
          SetKeepsTypes(acc, k, r.tree);
          ReadKeepsTypes(strip, r.rest, n - 1, false, acc.Set(k, r.tree));
        }
      }
    }
  }

  /** Whatever octets arrive: override and ingress are strings if they are kept, and the trace is a list of
      strings. */
  lemma {:induction false} ReceivedTypes(strip: bool, section: Option<Octets>)
    ensures match ParseAnnotations(strip, section) case Failed(_) => true case Good(a) => TypesOk(a.found)
  {
    hide ParseField, ReadPairs, Stringy, ListOfStrings;
    if section.Some? && ParseField(section.value).Ok? {
      var m := ParseField(section.value).field;
      ReadKeepsTypes(strip, m.value, m.count / 2, true, Nothing());
    }
  }

  // ---------------------------------------------------------------- what is refused

  /** The first router entry has the value that starts `v`. */
  predicate EntryAfterUsers(s: Octets, user: Octets, n: nat, k: Key, v: Octets) {
    && ParseField(s).Ok? && UserPairs(user, n)
    && ParseField(s).field.value == user + (KeyField(k) + v) && ParseField(s).field.count / 2 > n
  }

  lemma {:induction false} ReadFirst(strip: bool, user: Octets, n: nat, k: Key, v: Octets, more: nat)
    requires UserPairs(user, n) && k in {To, Trace, Phase, Stream, Ingress}
    ensures var acc := AddUser(Nothing(), |user|, 2 * n);
            var r := ParseValue(v);
            ReadPairs(strip, user + (KeyField(k) + v), n + (more + 1), true, Nothing()) ==
            if strip then Good(acc)
            else match Complaint(k, r.tree)
              case Some(e) => Failed(e)
              case None => ReadPairs(false, r.rest, more, false, acc.Set(k, r.tree))
  {
    hide ParseField, ParseValue, KeyOf, KeyText, Complaint, KeyField, UserPairs;
    ReadUserPairs(strip, user, n, KeyField(k) + v, more + 1, Nothing());
    FieldOfKey(k, v);
    KeyOfText(k);
  }

  /** A section is refused if it is not a map, or if the first router annotation in it has a value of the
      wrong type. A router that strips annotations does not look at them, and keeps those of the user. */
  lemma {:induction false} WrongTypesRefused(strip: bool, s: Octets, user: Octets, n: nat, k: Key, v: Octets)
    requires EntryAfterUsers(s, user, n, k, v) && k in {To, Trace, Ingress} && ParseValue(v).tree.IsOk()
    ensures var r := ParseAnnotations(strip, Some(s));
            var t := ParseValue(v).tree;
            var isMap := ParseField(s).field.tag == 0xc1 || ParseField(s).field.tag == 0xd1;
            && (!isMap ==> r == Failed(NotMap))
            && (isMap && strip ==> r == Good(Annotations(AddUser(Nothing(), |user|, 2 * n), user)))
            && (isMap && !strip && k == To && !Stringy(t) ==> r == Failed(ToNotString))
            && (isMap && !strip && k == Ingress && !Stringy(t) ==> r == Failed(IngressNotString))
            && (isMap && !strip && k == Trace && t.field.tag != 0x45 && t.field.tag != 0xc0 && t.field.tag != 0xd0 ==> r == Failed(TraceNotList))
            && (isMap && !strip && k == Trace && !ListOfStrings(t) ==> r == Failed(TraceNotList) || r == Failed(TraceEntryNotString))
  {
    hide ParseField, ParseValue, ReadPairs, KeyField, UserPairs;
    var m := ParseField(s).field;
    ReadFirst(strip, user, n, k, v, m.count / 2 - n - 1);
    assert (user + (KeyField(k) + v))[..|user|] == user;
  }
}
