/** The annotation code as it runs: parsing through a cursor over the buffers of the received
    message, and composing into a header and a chain of new buffers with running totals of
    size and count.
 */
module AnnotationCode {
  import opened Octets
  import opened Amqp
  import opened BufferField
  import opened Compose
  import opened Parse
  import opened RoundTrip
  import opened Seqs
  import opened Annotations
  import Hops
  import opened Options

  // ---------------------------------------------------------------- what cursors mean

  predicate OptPlaced(bs: Buffers, t: Option<Parsed<Cursor>>) { t.Some? ==> TreePlaced(bs, t.value) }

  predicate FoundPlaced(bs: Buffers, f: Found<Cursor>) {
    OptPlaced(bs, f.to) && OptPlaced(bs, f.trace) && OptPlaced(bs, f.phase) && OptPlaced(bs, f.stream) && OptPlaced(bs, f.ingress)
  }

  function AbsOpt(bs: Buffers, t: Option<Parsed<Cursor>>): Option<Parsed<Octets>>
    requires OptPlaced(bs, t)
  {
    match t case None => None case Some(x) => Some(AbsTree(bs, x))
  }

  function AbsFound(bs: Buffers, f: Found<Cursor>): Found<Octets>
    requires FoundPlaced(bs, f)
  {
    Found(AbsOpt(bs, f.to), AbsOpt(bs, f.trace), AbsOpt(bs, f.phase), AbsOpt(bs, f.stream), AbsOpt(bs, f.ingress),
          f.userSize, f.userCount)
  }

  lemma {:induction false} AbsSet(bs: Buffers, f: Found<Cursor>, k: Key, t: Parsed<Cursor>)
    requires FoundPlaced(bs, f) && TreePlaced(bs, t)
    ensures FoundPlaced(bs, f.Set(k, t)) && AbsFound(bs, f.Set(k, t)) == AbsFound(bs, f).Set(k, AbsTree(bs, t))
  {
    hide TreePlaced, AbsTree;
  }

  lemma {:induction false} AbsChildren(bs: Buffers, ts: seq<Parsed<Cursor>>, i: nat)
    requires (forall j | 0 <= j < |ts| :: TreePlaced(bs, ts[j])) && i < |ts|
    ensures AbsAll(bs, ts)[i] == AbsTree(bs, ts[i])
  {
    if i > 0 { AbsChildren(bs, ts[1..], i - 1); }
  }

  lemma {:induction false} AbsIsString(bs: Buffers, t: Parsed<Cursor>)
    requires TreePlaced(bs, t)
    ensures IsString(AbsTree(bs, t)) <==> IsString(t)
  {
  }

  // ---------------------------------------------------------------- parsing

  /** Which key a symbol is: told apart by length first. */
  method KeyAt(bs: Buffers, tag: Octet, value: Cursor) returns (k: Key)
    requires Valid(bs, value)
    ensures k == KeyOf(tag, View(bs, value))
  {
    hide View, KeyText;
    ghost var text := View(bs, value);
    Lengths();
    assert text[..|text|] == text;
    if tag != SYM8 && tag != SYM32 { return User; }
    match value.remaining {
      case 9 => k := Try(bs, value, Prefix);
      case 11 => k := Try(bs, value, To);
      case 14 =>
        k := Try(bs, value, Trace);
        if k == User { k := Try(bs, value, Phase); }
        if k == User { k := Try(bs, value, Class); }
      case 15 => k := Try(bs, value, Stream);
      case 16 => k := Try(bs, value, Ingress);
      case _ => k := User;
    }
  }

  lemma {:induction false} Lengths()
    ensures |KeyText(Prefix)| == 9 && |KeyText(To)| == 11 && |KeyText(Trace)| == 14 && |KeyText(Phase)| == 14
    ensures |KeyText(Class)| == 14 && |KeyText(Stream)| == 15 && |KeyText(Ingress)| == 16
  {
  }

  method Try(bs: Buffers, value: Cursor, k: Key) returns (r: Key)
    requires Valid(bs, value) && |KeyText(k)| == value.remaining
    ensures r == if View(bs, value) == KeyText(k) then k else User
  {
    hide View, KeyText;
    var eq, rest := Equal(bs, value, KeyText(k));
    assert View(bs, value)[..|View(bs, value)|] == View(bs, value);
    r := if eq then k else User;
  }

  method AllStrings(ts: seq<Parsed<Cursor>>) returns (ok: bool)
    ensures ok <==> forall i | 0 <= i < |ts| :: IsString(ts[i])
  {
    ok := true;
    var i := 0;
    while i < |ts| && ok
      invariant 0 <= i <= |ts|
      invariant ok <==> forall j | 0 <= j < i :: IsString(ts[j])
    {
      ok := IsString(ts[i]);
      i := i + 1;
    }
  }

  method Check(bs: Buffers, k: Key, t: Parsed<Cursor>) returns (r: Option<AnnotationError>)
    requires TreePlaced(bs, t)
    ensures r == Complaint(k, AbsTree(bs, t))
  {
    if !t.IsOk() { return Some(BadField(t.Error().value)); }
    r := None;
    match k {
      case To => if !IsString(t) { r := Some(ToNotString); }
      case Ingress => if !IsString(t) { r := Some(IngressNotString); }
      case Trace =>
        if !IsListTag(t.field.tag) { return Some(TraceNotList); }
        var ok := AllStrings(t.children);
        if !ok { r := Some(TraceEntryNotString); }
        ChildrenAreStrings(bs, t.children);
      case _ =>
    }
  }

  lemma {:induction false} ChildrenAreStrings(bs: Buffers, ts: seq<Parsed<Cursor>>)
    requires forall j | 0 <= j < |ts| :: TreePlaced(bs, ts[j])
    ensures (forall i | 0 <= i < |ts| :: IsString(ts[i])) <==> (forall i | 0 <= i < |ts| :: IsString(AbsAll(bs, ts)[i]))
  {
    forall i | 0 <= i < |ts| ensures IsString(ts[i]) <==> IsString(AbsAll(bs, ts)[i]) {
      AbsChildren(bs, ts, i);
      AbsIsString(bs, ts[i]);
    }
    if !forall i | 0 <= i < |ts| :: IsString(ts[i]) {
      var i :| 0 <= i < |ts| && !IsString(ts[i]);
      assert !IsString(AbsAll(bs, ts)[i]);
    }
  }

  datatype Step = Stop(result: Result<Found<Cursor>>) | Go(rest: Cursor, users: bool, acc: Found<Cursor>)

  function AbsResult(bs: Buffers, r: Result<Found<Cursor>>): Result<Found<Octets>>
    requires r.Good? ==> FoundPlaced(bs, r.value)
  {
    match r case Failed(e) => Failed(e) case Good(f) => Good(AbsFound(bs, f))
  }

  /** A step of the loop does what the reference does with the first of `n` pairs. */
  ghost predicate StepOk(bs: Buffers, strip: bool, s: Octets, n: nat, users: bool, acc: Found<Octets>, step: Step) {
    n > 0 &&
    match step
    case Stop(r) => (r.Good? ==> FoundPlaced(bs, r.value)) && AbsResult(bs, r) == ReadPairs(strip, s, n, users, acc)
    case Go(rest, users', acc') =>
      && Valid(bs, rest) && FoundPlaced(bs, acc')
      && ReadPairs(strip, View(bs, rest), n - 1, users', AbsFound(bs, acc')) == ReadPairs(strip, s, n, users, acc)
  }

  /** One key and its value. */
  method OnePair(bs: Buffers, f: Cursor, ghost n: nat, strip: bool, users: bool, acc: Found<Cursor>) returns (step: Step)
    requires Valid(bs, f) && FoundPlaced(bs, acc) && n > 0
    ensures StepOk(bs, strip, View(bs, f), n, users, AbsFound(bs, acc), step)
  {
    hide View, ParseField, ParseValue, KeyOf, Complaint, AbsFound, FoundPlaced, AbsTree, TreePlaced;
    ghost var s := View(bs, f);
    var r := ParseAmqpField(bs, f);
    if r.Err? { return Stop(Failed(BadField(r.error))); }
    var key, f1 := r.field, r.rest;
    var k := KeyAt(bs, key.tag, key.value);
    if k == User {
      if users {
        step := UserValue(bs, f, n, strip, acc, key, f1);
      } else if strip {
        step := Stop(Good(acc));
      } else {
        step := Go(f1, false, acc);
      }
    } else if k == Prefix || k == Class {
      var skip := ParseAmqpField(bs, f1);
      if skip.Err? { return Stop(Failed(BadField(skip.error))); }
      step := if strip then Stop(Good(acc)) else Go(skip.rest, false, acc);
    } else if strip {
      step := Stop(Good(acc));
    } else {
      step := RouterValue(bs, f1, n, k, acc);
    }
  }

  /** The value of a router entry. */
  method RouterValue(bs: Buffers, f1: Cursor, ghost n: nat, k: Key, acc: Found<Cursor>) returns (step: Step)
    requires Valid(bs, f1) && FoundPlaced(bs, acc) && n > 0
    ensures match Complaint(k, ParseValue(View(bs, f1)).tree)
            case Some(e) => step == Stop(Failed(e))
            case None =>
              && step.Go? && !step.users && Valid(bs, step.rest) && FoundPlaced(bs, step.acc)
              && View(bs, step.rest) == ParseValue(View(bs, f1)).rest
              && AbsFound(bs, step.acc) == AbsFound(bs, acc).Set(k, ParseValue(View(bs, f1)).tree)
  {
    hide View, ParseValue, AbsFound, FoundPlaced, AbsTree, TreePlaced;
    var t, rest := ParseInternal(bs, f1);
    var e := Check(bs, k, t);
    if e.Some? { return Stop(Failed(e.value)); }
    AbsSet(bs, acc, k, t);
    AbsStatus(bs, t);
    step := Go(rest, false, acc.Set(k, t));
  }

  lemma {:induction false} AbsStatus(bs: Buffers, t: Parsed<Cursor>)
    requires TreePlaced(bs, t)
    ensures AbsTree(bs, t).Parsed? <==> t.Parsed?
  {
  }

  /** The value of a user entry: only its length is of interest. */
  method UserValue(bs: Buffers, f: Cursor, ghost n: nat, strip: bool, acc: Found<Cursor>, key: Field<Cursor>, f1: Cursor)
    returns (step: Step)
    requires Valid(bs, f) && Valid(bs, f1) && FoundPlaced(bs, acc) && n > 0
    requires ParseField(View(bs, f)).Ok? && ParseField(View(bs, f)).rest == View(bs, f1)
    requires ParseField(View(bs, f)).field.tag == key.tag && ParseField(View(bs, f)).field.size == key.size
    ensures match step
            case Stop(r) => r.Failed? && SkipUser(strip, View(bs, f), View(bs, f1), n, AbsFound(bs, acc)) == Failed(r.error)
            case Go(rest, users, acc') =>
              && users && Valid(bs, rest) && FoundPlaced(bs, acc')
              && SkipUser(strip, View(bs, f), View(bs, f1), n, AbsFound(bs, acc))
              == ReadPairs(strip, View(bs, rest), n - 1, true, AbsFound(bs, acc'))
  {
    hide View, ParseField, ReadPairs, AbsTree, TreePlaced, SizeWidth;
    var user := ParseAmqpField(bs, f1);
    if user.Err? { return Stop(Failed(BadField(user.error))); }
    var keyLength := 1 + SizeWidth(key.tag) + key.size;
    var valueLength := 1 + SizeWidth(user.field.tag) + user.field.size;
    FieldExact(View(bs, f));
    FieldExact(View(bs, f1));
    step := Go(user.rest, true, acc.(userSize := acc.userSize + (keyLength + valueLength), userCount := acc.userCount + 2));
  }

  /** The loop over the pairs of the map. */
  method ReadAllPairs(bs: Buffers, f: Cursor, n: nat, strip: bool) returns (r: Result<Found<Cursor>>)
    requires Valid(bs, f)
    ensures r.Good? ==> FoundPlaced(bs, r.value)
    ensures AbsResult(bs, r) == ReadPairs(strip, View(bs, f), n, true, Nothing())
  {
    hide View, AbsFound, FoundPlaced;
    var cur, users, acc := f, true, Nothing();
    NothingPlaced(bs);
    for i := 0 to n
      invariant Valid(bs, cur) && FoundPlaced(bs, acc)
      invariant ReadPairs(strip, View(bs, cur), n - i, users, AbsFound(bs, acc))
             == ReadPairs(strip, View(bs, f), n, true, Nothing())
    {
      var step := OnePair(bs, cur, n - i, strip, users, acc);
      if step.Stop? { return step.result; }
      cur, users, acc := step.rest, step.users, step.acc;
    }
    r := Good(acc);
  }

  lemma {:induction false} NothingPlaced(bs: Buffers)
    ensures FoundPlaced(bs, Nothing()) && AbsFound(bs, Nothing()) == Nothing()
  {
  }

  predicate UserPlaced(bs: Buffers, user: Option<Cursor>) { user.Some? ==> Placed(bs, user.value) }

  function UserView(bs: Buffers, user: Option<Cursor>): Octets
    requires UserPlaced(bs, user)
  {
    if user.Some? then View(bs, user.value) else []
  }

  /** Parse the message-annotations section of a message that lies in a chain of buffers. */
  method ParseSection(bs: Buffers, section: Option<Cursor>, strip: bool) returns (r: Result<Found<Cursor>>, user: Option<Cursor>)
    requires section.Some? ==> Valid(bs, section.value)
    ensures UserPlaced(bs, user) && (r.Good? ==> FoundPlaced(bs, r.value))
    ensures ParseAnnotations(strip, if section.Some? then Some(View(bs, section.value)) else None)
         == match r case Failed(e) => Failed(e) case Good(f) => Good(Annotations(AbsFound(bs, f), UserView(bs, user)))
  {
    hide View, ParseField, ReadPairs, AbsFound, FoundPlaced;
    r, user := Good(Nothing()), None;
    NothingPlaced(bs);
    if section.None? { return; }
    var m := ParseAmqpField(bs, section.value);
    if m.Err? { return Failed(BadField(m.error)), None; }
    if !IsMapTag(m.field.tag) { return Failed(NotMap), None; }
    r := ReadAllPairs(bs, m.field.value, m.field.count / 2, strip);
    if r.Good? {
      UserFits(strip, View(bs, m.field.value), m.field.count / 2);
      SameUserSize(bs, r.value);
      Shorten(bs, m.field.value, r.value.userSize);
      user := Some(m.field.value.(remaining := r.value.userSize));
    }
  }

  lemma {:induction false} UserFits(strip: bool, s: Octets, n: nat)
    ensures match ReadPairs(strip, s, n, true, Nothing()) case Failed(_) => true case Good(f) => f.userSize <= |s|
  {
    hide ReadPairs, ParseField, KeyOf;
    assert s[..0] == [] && s[0..] == s;
    ReadGivesUserPairs(strip, s, n, true, Nothing(), s);
  }

  lemma {:induction false} SameUserSize(bs: Buffers, f: Found<Cursor>)
    requires FoundPlaced(bs, f)
    ensures AbsFound(bs, f).userSize == f.userSize && AbsFound(bs, f).userCount == f.userCount
  {
  }

  // ---------------------------------------------------------------- composing

  /** Copy a field to the end of a chain, buffer by buffer. */
  method AppendField(dest: Buffers, capacity: nat, bs: Buffers, f: Cursor) returns (dest': Buffers)
    requires capacity > 0 && Fits(dest, capacity) && Placed(bs, f)
    ensures Fits(dest', capacity) && Flat(dest') == Flat(dest) + View(bs, f)
  {
    hide View, Flat;
    dest' := dest;
    ghost var v := View(bs, f);
    ghost var done := 0;
    var cur := f;
    assert v[..0] == [] && v[0..] == v && Flat(dest) + [] == Flat(dest);
    while cur.remaining > 0
      invariant Placed(bs, cur) && Fits(dest', capacity) && done + cur.remaining == |v|
      invariant View(bs, cur) == v[done..] && Flat(dest') == Flat(dest) + v[..done]
      decreases if cur.remaining > 0 then |bs| - cur.buf else 0
    {
      var avail := |bs[cur.buf]| - cur.off;
      var len := if cur.remaining < avail then cur.remaining else avail;
      StepInside(bs, cur, len);
      CopyStep(v, done, len);
      AppendAssoc(Flat(dest), v[..done], v[done..][..len]);
      dest' := InsertInto(dest', bs[cur.buf][cur.off..cur.off + len], capacity);
      cur := Cursor(cur.buf, cur.off + len, cur.remaining - len);
      done := done + len;
      if cur.remaining > 0 {
        StepToNext(bs, cur);
        cur := Cursor(cur.buf + 1, 0, cur.remaining);
      }
    }
    assert v[..done] == v;
  }

  function StrHeader(n: nat): Octets
    requires n < U32
  {
    if n <= 255 then [STR8, n as Octet] else [STR32] + Be32(n)
  }

  lemma {:induction false} StrHeaderOk(text: Octets)
    requires Hops.StrFits(text)
    ensures StrHeader(|text|) + text == Hops.StrField(text)
  {
  }

  /** The router entries written so far, with the totals that go into the map header. */
  datatype Draft = Draft(trailer: Buffers, size: nat, count: nat)

  ghost predicate Holds(d: Draft, capacity: nat, user: Octets, count: nat, es: seq<Hops.Entry>) {
    && Fits(d.trailer, capacity) && Flat(d.trailer) == Hops.AllEntries(es)
    && d.size == |user| + |Hops.AllEntries(es)| && d.count == count + 2 * |es|
  }

  /** Key and value of one entry. The value is a header and octets at hand. */
  method AddEntry(d: Draft, capacity: nat, k: Key, head: Octets, text: Octets,
                  ghost user: Octets, ghost count: nat, ghost es: seq<Hops.Entry>) returns (d': Draft)
    requires capacity > 0 && Holds(d, capacity, user, count, es)
    ensures Holds(d', capacity, user, count, es + [Hops.Entry(k, head + text)])
  {
    hide Hops.AllEntries, Flat, KeyText;
    var t := InsertInto(d.trailer, Hops.KeyField(k), capacity);
    t := InsertInto(t, head, capacity);
    t := InsertInto(t, text, capacity);
    d' := Draft(t, d.size + |Hops.KeyField(k)| + |head| + |text|, d.count + 2);
    Appended(es, k, head, text);
  }

  /** The same with a value that is copied from the received message. */
  method AddCopiedEntry(d: Draft, capacity: nat, k: Key, head: Octets, bs: Buffers, f: Cursor, tail: Octets,
                        ghost user: Octets, ghost count: nat, ghost es: seq<Hops.Entry>) returns (d': Draft)
    requires capacity > 0 && Holds(d, capacity, user, count, es) && Placed(bs, f)
    ensures Holds(d', capacity, user, count, es + [Hops.Entry(k, head + (View(bs, f) + tail))])
  {
    hide Hops.AllEntries, Flat, KeyText, View;
    var t := InsertInto(d.trailer, Hops.KeyField(k), capacity);
    t := InsertInto(t, head, capacity);
    t := AppendField(t, capacity, bs, f);
    t := InsertInto(t, tail, capacity);
    d' := Draft(t, d.size + |Hops.KeyField(k)| + |head| + f.remaining + |tail|, d.count + 2);
    Appended(es, k, head, View(bs, f) + tail);
    AppendAssoc(Flat(d.trailer) + Hops.KeyField(k) + head, View(bs, f), tail);
  }

  lemma {:induction false} Appended(es: seq<Hops.Entry>, k: Key, head: Octets, text: Octets)
    ensures Hops.AllEntries(es + [Hops.Entry(k, head + text)])
         == ((Hops.AllEntries(es) + Hops.KeyField(k)) + head) + text
  {
    hide KeyText;
    var e := Hops.Entry(k, head + text);
    if es == [] {
      assert es + [e] == [e] && [e][1..] == [];
      AppendAssoc(Hops.KeyField(k), head, text);
      assert Hops.AllEntries(es) + Hops.KeyField(k) == Hops.KeyField(k);
      assert Hops.EntryOctets(e) + Hops.AllEntries([]) == Hops.EntryOctets(e);
    } else {
      CutAppend(es, [e], 1);
      Appended(es[1..], k, head, text);
      FourParts(Hops.EntryOctets(es[0]), Hops.AllEntries(es[1..]), Hops.KeyField(k), head, text);
    }
  }

  lemma {:induction false} FourParts(a: Octets, b: Octets, c: Octets, d: Octets, e: Octets)
    ensures a + (((b + c) + d) + e) == (((a + b) + c) + d) + e
  {
  }

  /** Phase, streaming flag and address override. */
  method AddRouting(bs: Buffers, found: Found<Cursor>, m: Hops.Send, capacity: nat, size: nat, count: nat, ghost user: Octets)
    returns (d: Draft)
    requires capacity > 0 && FoundPlaced(bs, found) && size == |user| && m.phase < 128
    requires var to := Hops.ToSend(AbsFound(bs, found), m); to.Some? ==> Hops.StrFits(to.value)
    ensures Holds(d, capacity, user, count, Hops.RoutingEntries(m.phase, m.streaming, Hops.ToSend(AbsFound(bs, found), m)))
  {
    hide View, Hops.AllEntries, Flat, TreePlaced, Hops.StrField, Holds;
    d := Draft([], size, count);
    EmptyDraft(capacity, user, count);
    ghost var es := [];
    if m.phase > 0 {
      d := AddEntry(d, capacity, Phase, [], [SMALLINT, m.phase as Octet], user, count, es);
      assert [] + [SMALLINT, m.phase as Octet] == [SMALLINT, m.phase as Octet];
      es := es + [Hops.Entry(Phase, [SMALLINT, m.phase as Octet])];
    }
    if m.streaming {
      d := AddEntry(d, capacity, Stream, [], [SMALLINT, 1], user, count, es);
      assert [] + [SMALLINT, 1] == [SMALLINT, 1];
      es := es + [Hops.Entry(Stream, [SMALLINT, 1])];
    }
    if m.to.Some? {
      StrHeaderOk(m.to.value);
      d := AddEntry(d, capacity, To, StrHeader(|m.to.value|), m.to.value, user, count, es);
      es := es + [Hops.Entry(To, Hops.StrField(m.to.value))];
    } else if found.to.Some? && found.to.value.Parsed? {
      var to := found.to.value.field.value;
      ValuePlaced(bs, found.to.value);
      StrHeaderOk(View(bs, to));
      d := AddCopiedEntry(d, capacity, To, StrHeader(to.remaining), bs, to, [], user, count, es);
      assert View(bs, to) + [] == View(bs, to);
      es := es + [Hops.Entry(To, Hops.StrField(View(bs, to)))];
    }
    assert es == Hops.RoutingEntries(m.phase, m.streaming, Hops.ToSend(AbsFound(bs, found), m));
  }

  lemma {:induction false} ValuePlaced(bs: Buffers, t: Parsed<Cursor>)
    requires TreePlaced(bs, t) && t.Parsed?
    ensures Placed(bs, t.field.value) && |AbsAll(bs, t.children)| == |t.children|
    ensures AbsTree(bs, t).Parsed? && AbsTree(bs, t).field.value == View(bs, t.field.value)
    ensures AbsTree(bs, t).children == AbsAll(bs, t.children)
  {
  }

  lemma {:induction false} EmptyDraft(capacity: nat, user: Octets, count: nat)
    ensures Holds(Draft([], |user|, count), capacity, user, count, [])
  {
  }

  /** The ingress router: the one received, unless it is reset, else this one. */
  method AddIngress(d: Draft, bs: Buffers, found: Found<Cursor>, m: Hops.Send, id: Octets, capacity: nat,
                    ghost user: Octets, ghost count: nat, ghost es: seq<Hops.Entry>) returns (d': Draft)
    requires capacity > 0 && FoundPlaced(bs, found) && Holds(d, capacity, user, count, es)
    requires Hops.StrFits(Hops.IngressToSend(AbsFound(bs, found), m, id))
    ensures Holds(d', capacity, user, count, es + [Hops.IngressEntry(Hops.IngressToSend(AbsFound(bs, found), m, id))])
  {
    hide View, Hops.AllEntries, Flat, TreePlaced, Hops.StrField, Holds;
    if found.ingress.Some? && found.ingress.value.Parsed? && !m.resetIngress {
      var ingress := found.ingress.value.field.value;
      ValuePlaced(bs, found.ingress.value);
      StrHeaderOk(View(bs, ingress));
      d' := AddCopiedEntry(d, capacity, Ingress, StrHeader(ingress.remaining), bs, ingress, [], user, count, es);
      assert View(bs, ingress) + [] == View(bs, ingress);
    } else {
      StrHeaderOk(id);
      d' := AddEntry(d, capacity, Ingress, StrHeader(|id|), id, user, count, es);
    }
  }

  /** The trace: the list received, unless it is reset, with this router at its end. The list
      header comes first, so size and count are computed before anything is written. */
  method AddTrace(d: Draft, bs: Buffers, found: Found<Cursor>, m: Hops.Send, id: Octets, capacity: nat,
                  ghost user: Octets, ghost count: nat, ghost es: seq<Hops.Entry>) returns (d': Draft)
    requires capacity > 0 && FoundPlaced(bs, found) && Holds(d, capacity, user, count, es)
    requires Hops.Fits(AbsFound(bs, found), m, id)
    ensures var f := AbsFound(bs, found);
            Holds(d', capacity, user, count, es + [Hops.TraceEntry(Hops.TraceCount(f, m), Hops.TraceBefore(f, m) + Hops.StrField(id))])
  {
    hide View, Hops.AllEntries, Flat, TreePlaced, Hops.StrField, Holds, AbsTree;
    if found.trace.Some? { AbsStatus(bs, found.trace.value); }
    var encodedId := StrHeader(|id|) + id;
    StrHeaderOk(id);
    var traceCount, traceLength := 1, |encodedId|;
    var useIncoming := found.trace.Some? && found.trace.value.Parsed? && !m.resetTrace;
    if useIncoming {
      var t := found.trace.value;
      ValuePlaced(bs, t);
      traceLength := traceLength + t.field.value.remaining;
      traceCount := traceCount + |t.children|;
      d' := AddCopiedEntry(d, capacity, Trace, Hops.ShortHeader(false, traceLength, traceCount), bs, t.field.value, encodedId, user, count, es);
    } else {
      assert [] + encodedId == encodedId;
      d' := AddEntry(d, capacity, Trace, Hops.ShortHeader(false, traceLength, traceCount), encodedId, user, count, es);
    }
  }

  /** The octets of the section on the wire, descriptor first. */
  function Wire(section: Option<Octets>): Octets {
    match section case None => [] case Some(s) => [0x00, SMALLULONG, 0x72] + s
  }

  /** All router entries. */
  method AddEntries(bs: Buffers, found: Found<Cursor>, m: Hops.Send, id: Octets, capacity: nat, ghost user: Octets) returns (d: Draft)
    requires capacity > 0 && FoundPlaced(bs, found) && |user| == found.userSize
    requires Hops.Fits(AbsFound(bs, found), m, id)
    ensures Holds(d, capacity, user, found.userCount, Hops.Entries(AbsFound(bs, found), m, id))
  {
    hide Hops.IngressToSend, Hops.TraceBefore, Hops.ToSend, AbsFound, FoundPlaced, Holds, Hops.TraceCount,
         Hops.RoutingEntries, Hops.StrField;
    ghost var f := AbsFound(bs, found);
    d := AddRouting(bs, found, m, capacity, found.userSize, found.userCount, user);
    ghost var es := Hops.RoutingEntries(m.phase, m.streaming, Hops.ToSend(f, m));
    if !m.filterIngress {
      d := AddIngress(d, bs, found, m, id, capacity, user, found.userCount, es);
      es := es + [Hops.IngressEntry(Hops.IngressToSend(f, m, id))];
    }
    if !m.filterTrace {
      d := AddTrace(d, bs, found, m, id, capacity, user, found.userCount, es);
      es := es + [Hops.TraceEntry(Hops.TraceCount(f, m), Hops.TraceBefore(f, m) + Hops.StrField(id))];
    }
    assert es == Hops.Entries(f, m, id);
  }

  /** Compose the router annotations of a message to be sent. What goes out is the header, then
      the user annotations as received, then the trailer. */
  method ComposeAnnotations(bs: Buffers, found: Found<Cursor>, user: Option<Cursor>, m: Hops.Send, id: Octets, capacity: nat)
    returns (header: Octets, trailer: Buffers)
    requires capacity > 0 && FoundPlaced(bs, found) && UserPlaced(bs, user)
    requires |UserView(bs, user)| == found.userSize
    requires Hops.CanSend(Annotations(AbsFound(bs, found), UserView(bs, user)), m, id)
    ensures (header + UserView(bs, user)) + Flat(trailer)
         == Wire(Hops.Section(Annotations(AbsFound(bs, found), UserView(bs, user)), m, id))
  {
    hide Hops.Fits, AbsFound, FoundPlaced, Hops.Entries, Hops.AllEntries, Flat, UserView, UserPlaced,
         Hops.ShortHeader;
    ghost var u := UserView(bs, user);
    ghost var f := AbsFound(bs, found);
    SameUserSize(bs, found);
    var d := AddEntries(bs, found, m, id, capacity, u);
    ghost var body := Hops.MapBody(Annotations(f, u), m, id);
    assert |body| == d.size && Hops.MapCount(Annotations(f, u), m, id) == d.count && body == u + Flat(d.trailer);
    trailer := d.trailer;
    header := [];
    if d.size > 0 {
      header := [0x00, SMALLULONG, 0x72] + Hops.ShortHeader(true, d.size, d.count);
      ThreeParts([0x00, SMALLULONG, 0x72], Hops.ShortHeader(true, d.size, d.count), u, Flat(trailer));
    } else {
      assert ([] + u) + Flat(trailer) == [];
    }
  }

  lemma {:induction false} ThreeParts(a: Octets, b: Octets, c: Octets, d: Octets)
    ensures ((a + b) + c) + d == a + (b + (c + d))
  {
  }
}
