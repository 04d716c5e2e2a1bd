/** Router annotations: the entries that each router adds to the message-annotations map, after
    the entries of the user. Composing on one router is undone by parsing on the next.
 */
module Annotations {
  import opened Octets
  import opened Amqp
  import opened Parse
  import opened RoundTrip
  import opened Seqs
  import opened Options

  // ---------------------------------------------------------------- keys

  datatype Key = Prefix | To | Trace | Phase | Class | Stream | Ingress | User

  /** "x-opt-qd." */
  const X_OPT_QD: Octets := [0x78, 0x2d, 0x6f, 0x70, 0x74, 0x2d, 0x71, 0x64, 0x2e]

  /** The part of a key after the common prefix. */
  function Suffix(k: Key): Octets {
    match k
    case To => [0x74, 0x6f]
    case Trace => [0x74, 0x72, 0x61, 0x63, 0x65]
    case Phase => [0x70, 0x68, 0x61, 0x73, 0x65]
    case Class => [0x63, 0x6c, 0x61, 0x73, 0x73]
    case Stream => [0x73, 0x74, 0x72, 0x65, 0x61, 0x6d]
    case Ingress => [0x69, 0x6e, 0x67, 0x72, 0x65, 0x73, 0x73]
    case _ => []
  }

  function KeyText(k: Key): Octets { X_OPT_QD + Suffix(k) }

  function KeyOf(tag: Octet, text: Octets): Key {
    if tag != SYM8 && tag != SYM32 then User
    else if text == KeyText(Prefix) then Prefix
    else if text == KeyText(To) then To
    else if text == KeyText(Trace) then Trace
    else if text == KeyText(Phase) then Phase
    else if text == KeyText(Class) then Class
    else if text == KeyText(Stream) then Stream
    else if text == KeyText(Ingress) then Ingress
    else User
  }

  lemma {:induction false} KeyTextLength(k: Key)
    ensures |KeyText(k)| == 9 + |Suffix(k)| <= 16
    ensures |Suffix(k)| > 0 ==> KeyText(k)[9] == Suffix(k)[0]
  {
  }

  lemma {:induction false} KeyOfText(k: Key)
    requires k != User
    ensures KeyOf(SYM8, KeyText(k)) == k
  {
    hide KeyText;
    KeyTextLength(Prefix);
    KeyTextLength(To);
    KeyTextLength(Trace);
    KeyTextLength(Phase);
    KeyTextLength(Class);
    KeyTextLength(Stream);
    KeyTextLength(Ingress);
  }

  // ---------------------------------------------------------------- parsing

  datatype AnnotationError =
    | BadField(error: ParseError)
    | NotMap
    | ToNotString
    | TraceNotList
    | TraceEntryNotString
    | IngressNotString

  datatype Result<+T> = Good(value: T) | Failed(error: AnnotationError)

  /** What a router keeps of the annotations it received. */
  datatype Found<V> = Found(
    to: Option<Parsed<V>>,
    trace: Option<Parsed<V>>,
    phase: Option<Parsed<V>>,
    stream: Option<Parsed<V>>,
    ingress: Option<Parsed<V>>,
    userSize: nat,
    userCount: nat)
  {
    function Set(k: Key, t: Parsed<V>): Found<V> {
      match k
      case To => this.(to := Some(t))
      case Trace => this.(trace := Some(t))
      case Phase => this.(phase := Some(t))
      case Stream => this.(stream := Some(t))
      case Ingress => this.(ingress := Some(t))
      case _ => this
    }
  }

  function Nothing<V>(): Found<V> { Found(None, None, None, None, None, 0, 0) }

  datatype Annotations = Annotations(found: Found<Octets>, user: Octets)

  predicate IsString<V>(t: Parsed<V>) { t.Parsed? && (t.field.tag == STR8 || t.field.tag == STR32) }

  /** Is the value of a router annotation acceptable? */
  function Complaint<V>(k: Key, t: Parsed<V>): Option<AnnotationError> {
    if !t.IsOk() then Some(BadField(t.Error().value))
    else match k
      case To => if IsString(t) then None else Some(ToNotString)
      case Ingress => if IsString(t) then None else Some(IngressNotString)
      case Trace =>
        if !IsListTag(t.field.tag) then Some(TraceNotList)
        else if forall i | 0 <= i < |t.children| :: IsString(t.children[i]) then None
        else Some(TraceEntryNotString)
      case _ => None
  }

  /** `n` more key-value pairs at `s`; `users` while no router key has been seen. */
  function ReadPairs(strip: bool, s: Octets, n: nat, users: bool, acc: Found<Octets>): Result<Found<Octets>>
    decreases n
  {
    if n == 0 then Good(acc)
    else match ParseField(s)
      case Err(e) => Failed(BadField(e))
      case Ok(key, s1) =>
        var k := KeyOf(key.tag, key.value);
        if k == User then
          if users then SkipUser(strip, s, s1, n, acc)
          else if strip then Good(acc)
          else ReadPairs(strip, s1, n - 1, false, acc)
        else if k == Prefix || k == Class then
          (match ParseField(s1)
           case Err(e) => Failed(BadField(e))
           case Ok(_, s2) => if strip then Good(acc) else ReadPairs(strip, s2, n - 1, false, acc))
        else if strip then Good(acc)
        else
          var r := ParseValue(s1);
          match Complaint(k, r.tree)
          case Some(e) => Failed(e)
          case None => ReadPairs(strip, r.rest, n - 1, false, acc.Set(k, r.tree))
  }

  /** The value of a user entry whose key came from `s` and left `s1`. */
  function SkipUser(strip: bool, s: Octets, s1: Octets, n: nat, acc: Found<Octets>): Result<Found<Octets>>
    requires n > 0
    decreases n, 0
  {
    match ParseField(s1)
    case Err(e) => Failed(BadField(e))
    case Ok(_, s2) =>
      ReadPairs(strip, s2, n - 1, true, acc.(userSize := acc.userSize + if |s| < |s2| then 0 else |s| - |s2|, userCount := acc.userCount + 2))
  }

  /** The whole section: `None` if the message has none. */
  function ParseAnnotations(strip: bool, section: Option<Octets>): Result<Annotations> {
    match section
    case None => Good(Annotations(Nothing(), []))
    case Some(s) =>
      match ParseField(s)
      case Err(e) => Failed(BadField(e))
      case Ok(m, _) =>
        if !IsMapTag(m.tag) then Failed(NotMap)
        else match ReadPairs(strip, m.value, m.count / 2, true, Nothing())
          case Failed(e) => Failed(e)
          case Good(f) => Good(Annotations(f, if f.userSize <= |m.value| then m.value[..f.userSize] else []))
  }

  // ---------------------------------------------------------------- user entries

  /** `s` is exactly `n` key-value pairs and no key belongs to the router. */
  predicate UserPairs(s: Octets, n: nat) {
    if n == 0 then s == []
    else match ParseField(s)
      case Err(_) => false
      case Ok(key, s1) =>
        KeyOf(key.tag, key.value) == User &&
        match ParseField(s1) case Err(_) => false case Ok(_, s2) => UserPairs(s2, n - 1)
  }

  function AddUser(f: Found<Octets>, size: nat, count: nat): Found<Octets> {
    f.(userSize := f.userSize + size, userCount := f.userCount + count)
  }

  /** User entries are passed over and counted, whatever follows. */
  lemma {:induction false} ReadUserPairs(strip: bool, s: Octets, n: nat, t: Octets, more: nat, acc: Found<Octets>)
    requires UserPairs(s, n)
    ensures ReadPairs(strip, s + t, n + more, true, acc) == ReadPairs(strip, t, more, true, AddUser(acc, |s|, 2 * n))
    decreases n
  {
    hide ParseField, ParseValue, KeyOf, Complaint;
    if n == 0 {
      assert s + t == t;
    } else {
      var s1 := ParseField(s).rest;
      var s2 := ParseField(s1).rest;
      FieldBefore(s, t);
      FieldBefore(s1, t);
      ReadUserPairs(strip, s2, n - 1, t, more, AddUser(acc, |s| - |s2|, 2));
    }
  }

  /** A field is read the same with more octets after it. */
  lemma {:induction false} FieldBefore(s: Octets, t: Octets)
    requires ParseField(s).Ok?
    ensures ParseField(s + t) == Ok(ParseField(s).field, ParseField(s).rest + t)
    ensures |ParseField(s).rest| < |s|
  {
    hide ParseField;
    var r := ParseField(s);
    FieldExact(s);
    FieldIsLocal(s, r.rest + t);
    AppendAssoc(s[..|s| - |r.rest|], r.rest, t);
  }

  /** Every pair takes at least two octets. */
  lemma {:induction false} UserPairsSize(s: Octets, n: nat)
    requires UserPairs(s, n)
    ensures 2 * n <= |s|
    decreases n
  {
    hide ParseField, KeyOf;
    if n > 0 {
      var s1 := ParseField(s).rest;
      FieldBefore(s, []);
      FieldBefore(s1, []);
      UserPairsSize(ParseField(s1).rest, n - 1);
    }
  }

  /** One more pair. */
  lemma {:induction false} UserPairsSnoc(s: Octets, n: nat, t: Octets)
    requires UserPairs(s, n) && UserPairs(t, 1)
    ensures UserPairs(s + t, n + 1)
    decreases n
  {
    hide ParseField, KeyOf;
    if n == 0 {
      assert s + t == t;
    } else {
      var s1 := ParseField(s).rest;
      FieldBefore(s, t);
      FieldBefore(s1, t);
      UserPairsSnoc(ParseField(s1).rest, n - 1, t);
    }
  }

  /** Whatever octets arrive, the part that the parser hands on as user annotations is exactly
      that many user pairs. */
  lemma {:induction false} ReadGivesUserPairs(strip: bool, s: Octets, n: nat, users: bool, acc: Found<Octets>, whole: Octets)
    requires acc.userSize <= |whole| && acc.userCount % 2 == 0
    requires users ==> s == whole[acc.userSize..]
    requires UserPairs(whole[..acc.userSize], acc.userCount / 2)
    ensures match ReadPairs(strip, s, n, users, acc)
            case Failed(_) => true
            case Good(f) => f.userSize <= |whole| && f.userCount % 2 == 0 && UserPairs(whole[..f.userSize], f.userCount / 2)
    decreases n
  {
    hide ParseField, ParseValue, KeyOf, Complaint;
    if n > 0 && ParseField(s).Ok? {
      var s1 := ParseField(s).rest;
      var k := KeyOf(ParseField(s).field.tag, ParseField(s).field.value);
      if k == User && users {
        if ParseField(s1).Ok? {
          var acc' := PairTaken(s, n, acc, whole);
          ReadGivesUserPairs(strip, ParseField(s1).rest, n - 1, true, acc', whole);
        }
      } else if k == User {
        ReadGivesUserPairs(strip, s1, n - 1, false, acc, whole);
      } else if k == Prefix || k == Class {
        if ParseField(s1).Ok? { ReadGivesUserPairs(strip, ParseField(s1).rest, n - 1, false, acc, whole); }
      } else {
        var r := ParseValue(s1);
        ReadGivesUserPairs(strip, r.rest, n - 1, false, acc.Set(k, r.tree), whole);
      }
    }
  }

  lemma {:induction false} PairTaken(s: Octets, n: nat, acc: Found<Octets>, whole: Octets) returns (acc': Found<Octets>)
    requires acc.userSize <= |whole| && s == whole[acc.userSize..] && acc.userCount % 2 == 0
    requires UserPairs(whole[..acc.userSize], acc.userCount / 2)
    requires ParseField(s).Ok? && KeyOf(ParseField(s).field.tag, ParseField(s).field.value) == User
    requires ParseField(ParseField(s).rest).Ok?
    ensures var s2 := ParseField(ParseField(s).rest).rest;
            && |s2| < |s|
            && acc' == acc.(userSize := acc.userSize + (|s| - |s2|), userCount := acc.userCount + 2)
            && acc'.userSize <= |whole| && s2 == whole[acc'.userSize..]
            && UserPairs(whole[..acc'.userSize], acc'.userCount / 2)
  {
    hide ParseField, KeyOf;
    var s1 := ParseField(s).rest;
    var s2 := ParseField(s1).rest;
    FieldExact(s);
    FieldExact(s1);
    var pair := s[..|s| - |s1|] + s1[..|s1| - |s2|];
    acc' := acc.(userSize := acc.userSize + (|s| - |s2|), userCount := acc.userCount + 2);
    TwoCuts(whole, acc.userSize, s, s1, s2);
    FieldIsLocal(s, s1[..|s1| - |s2|]);
    FieldIsLocal(s1, []);
    assert s1[..|s1| - |s2|] + [] == s1[..|s1| - |s2|];
    OnePair(pair);
    UserPairsSnoc(whole[..acc.userSize], acc.userCount / 2, pair);
  }

  lemma {:induction false} OnePair(p: Octets)
    requires ParseField(p).Ok? && KeyOf(ParseField(p).field.tag, ParseField(p).field.value) == User
    requires ParseField(ParseField(p).rest).Ok? && ParseField(ParseField(p).rest).rest == []
    ensures UserPairs(p, 1)
  {
    hide ParseField, KeyOf;
    assert UserPairs([], 0);
  }

  lemma {:induction false} TwoCuts(whole: Octets, at: nat, s: Octets, s1: Octets, s2: Octets)
    requires at <= |whole| && s == whole[at..] && |s2| <= |s1| <= |s|
    requires s == s[..|s| - |s1|] + s1 && s1 == s1[..|s1| - |s2|] + s2
    ensures var to := at + (|s| - |s2|);
            && to <= |whole| && s2 == whole[to..]
            && whole[..to] == whole[..at] + (s[..|s| - |s1|] + s1[..|s1| - |s2|])
  {
    assert s2 == s1[|s1| - |s2|..];
    assert s1 == s[|s| - |s1|..];
  }

  /** Any section that parses yields well-formed user annotations. */
  lemma {:induction false} UserPartIsWellFormed(strip: bool, section: Option<Octets>)
    ensures match ParseAnnotations(strip, section)
            case Failed(_) => true
            case Good(a) =>
              && |a.user| == a.found.userSize && a.found.userCount % 2 == 0
              && UserPairs(a.user, a.found.userCount / 2)
  {
    hide ParseField, ReadPairs;
    if section.Some? && ParseField(section.value).Ok? {
      var m := ParseField(section.value).field;
      assert m.value[..0] == [] && m.value[0..] == m.value;
      ReadGivesUserPairs(strip, m.value, m.count / 2, true, Nothing(), m.value);
    }
  }
}
