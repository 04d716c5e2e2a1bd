/** A message travels from router to router: each composes the annotations anew and the next
    one parses them.
 */
module Hops {
  import opened Octets
  import opened Amqp
  import opened Parse
  import opened RoundTrip
  import opened Seqs
  import opened Annotations
  import opened Options

  // ---------------------------------------------------------------- composing

  /** What the sending router decides about one copy of a message. */
  datatype Send = Send(
    phase: nat,
    streaming: bool,
    to: Option<Octets>,
    filterIngress: bool,
    filterTrace: bool,
    resetIngress: bool,
    resetTrace: bool)

  predicate StrFits(text: Octets) { |text| + 5 < U32 }

  function StrTerm(text: Octets): Term { LowerBytes(STR8, STR32, text) }

  function StrField(text: Octets): (s: Octets)
    requires StrFits(text)
    ensures |text| + 2 <= |s| <= |text| + 5
  {
    Encode(StrTerm(text))
  }

  /** A list or map in the 8-bit form when it fits, else in the 32-bit form. */
  function ShortHeader(isMap: bool, size: nat, count: nat): Octets
    requires size + 4 < U32 && count < U32 && (size < 255 ==> count < 256)
  {
    if size + 1 <= 255 then [ShortTag(isMap, size), (size + 1) as Octet, count as Octet]
    else [CompositeTag(isMap)] + Be32(size + 4) + Be32(count)
  }

  function ShortTag(isMap: bool, size: nat): Octet {
    if size + 1 > 255 then CompositeTag(isMap) else if isMap then MAP8 else LIST8
  }

  predicate Shortable(size: nat, count: nat) { size + 4 < U32 && count <= size }

  function ShortComposite(isMap: bool, count: nat, body: Octets): Octets
    requires Shortable(|body|, count)
  {
    ShortHeader(isMap, |body|, count) + body
  }

  function KeyField(k: Key): Octets { [SYM8, |KeyText(k)| as Octet] + KeyText(k) }

  datatype Entry = Entry(key: Key, value: Octets)

  function EntryOctets(e: Entry): Octets { KeyField(e.key) + e.value }

  function AllEntries(es: seq<Entry>): Octets {
    if es == [] then [] else EntryOctets(es[0]) + AllEntries(es[1..])
  }

  function ValueOrNone(t: Option<Parsed<Octets>>): Option<Octets> {
    if t.Some? && t.value.Parsed? then Some(t.value.field.value) else None
  }

  function ChildCount(t: Option<Parsed<Octets>>): nat {
    if t.Some? && t.value.Parsed? then |t.value.children| else 0
  }

  /** The address override to send: that of this copy before the one received. */
  function ToSend(f: Found<Octets>, m: Send): Option<Octets> {
    if m.to.Some? then m.to else ValueOrNone(f.to)
  }

  function IngressToSend(f: Found<Octets>, m: Send, id: Octets): Octets {
    var x := ValueOrNone(f.ingress);
    if x.Some? && !m.resetIngress then x.value else id
  }

  function TraceBefore(f: Found<Octets>, m: Send): Octets {
    var x := ValueOrNone(f.trace);
    if x.Some? && !m.resetTrace then x.value else []
  }

  function TraceCount(f: Found<Octets>, m: Send): nat {
    if m.resetTrace then 1 else 1 + ChildCount(f.trace)
  }

  /** The sizes fit the 32-bit fields, and no list claims more elements than it has octets. */
  predicate Fits(f: Found<Octets>, m: Send, id: Octets) {
    && m.phase < 128 && StrFits(id)
    && (ToSend(f, m).Some? ==> StrFits(ToSend(f, m).value))
    && StrFits(IngressToSend(f, m, id))
    && |TraceBefore(f, m) + StrField(id)| + 4 < U32
    && TraceCount(f, m) <= |TraceBefore(f, m) + StrField(id)|
  }

  /** The router entries, in the order they are written. */
  function Entries(f: Found<Octets>, m: Send, id: Octets): seq<Entry>
    requires Fits(f, m, id)
  {
    RoutingEntries(m.phase, m.streaming, ToSend(f, m))
    + (if m.filterIngress then [] else [IngressEntry(IngressToSend(f, m, id))])
    + (if m.filterTrace then [] else [TraceEntry(TraceCount(f, m), TraceBefore(f, m) + StrField(id))])
  }

  function RoutingEntries(phase: nat, streaming: bool, to: Option<Octets>): seq<Entry>
    requires phase < 128 && (to.Some? ==> StrFits(to.value))
  {
    (if phase > 0 then [Entry(Phase, [SMALLINT, phase as Octet])] else [])
    + (if streaming then [Entry(Stream, [SMALLINT, 1])] else [])
    + (if to.Some? then [Entry(To, StrField(to.value))] else [])
  }

  function IngressEntry(id: Octets): Entry
    requires StrFits(id)
  {
    Entry(Ingress, StrField(id))
  }

  function TraceEntry(count: nat, body: Octets): Entry
    requires Shortable(|body|, count)
  {
    Entry(Trace, ShortComposite(false, count, body))
  }

  function MapBody(a: Annotations, m: Send, id: Octets): Octets
    requires Fits(a.found, m, id)
  {
    a.user + AllEntries(Entries(a.found, m, id))
  }

  function MapCount(a: Annotations, m: Send, id: Octets): nat
    requires Fits(a.found, m, id)
  {
    a.found.userCount + 2 * |Entries(a.found, m, id)|
  }

  /** The section without its three-octet descriptor; `None` if there is nothing to send. */
  function Section(a: Annotations, m: Send, id: Octets): Option<Octets>
    requires Fits(a.found, m, id) && Shortable(|MapBody(a, m, id)|, MapCount(a, m, id))
  {
    if MapBody(a, m, id) == [] then None
    else Some(ShortComposite(true, MapCount(a, m, id), MapBody(a, m, id)))
  }

  // ---------------------------------------------------------------- parsing what was composed

  /** A short composite is read back. */
  lemma {:induction false} FieldOfShort(isMap: bool, count: nat, body: Octets, rest: Octets)
    requires Shortable(|body|, count) && (isMap ==> count % 2 == 0)
    ensures ParseField(ShortComposite(isMap, count, body) + rest)
         == Ok(Field(ShortTag(isMap, |body|), |body| + CountWidth(ShortTag(isMap, |body|)), count, body), rest)
  {
    if |body| + 1 <= 255 {
      var tag := if isMap then MAP8 else LIST8;
      var s := ShortComposite(isMap, count, body) + rest;
      SmallCuts(tag, (|body| + 1) as Octet, count as Octet, body, rest);
      BodyOf(tag, |body| + 1, count, body, rest);
    } else {
      FieldOfComposite(isMap, count, body, rest);
      assert ShortComposite(isMap, count, body) == CompositeHeader(isMap, |body|, count) + body;
    }
  }

  lemma {:induction false} SmallCuts(tag: Octet, x: Octet, y: Octet, body: Octets, rest: Octets)
    ensures var s := ([tag, x, y] + body) + rest;
            && s[0] == tag && s[1..][0] == x && s[1..][1..][0] == y
            && s[1..][1..][1..] == body + rest && |s| >= 3
  {
  }

  /** The value of an entry parses, exactly and acceptably. */
  predicate EntryOk(e: Entry) {
    && e.key in {To, Trace, Phase, Stream, Ingress}
    && var r := ParseValue(e.value);
       r.tree.IsOk() && r.rest == [] && Complaint(e.key, r.tree) == None
  }

  function SetAll(f: Found<Octets>, es: seq<Entry>): Found<Octets>
    decreases |es|
  {
    if es == [] then f else SetAll(f.Set(es[0].key, ParseValue(es[0].value).tree), es[1..])
  }

  lemma {:induction false} FieldOfKey(k: Key, rest: Octets)
    ensures ParseField(KeyField(k) + rest) == Ok(Field(SYM8, |KeyText(k)|, 0, KeyText(k)), rest)
  {
    hide KeyText, ParseField;
    KeyTextLength(k);
    FieldOfLeaf(SYM8, KeyText(k), rest);
    KeyIsLeaf(KeyText(k));
  }

  lemma {:induction false} KeyIsLeaf(text: Octets)
    requires |text| < 256
    ensures LeafHeader(SYM8, |text|) == [SYM8, |text| as Octet]
  {
  }

  /** One router entry. */
  lemma {:induction false} ReadEntry(e: Entry, rest: Octets, n: nat, users: bool, acc: Found<Octets>)
    requires EntryOk(e)
    ensures ReadPairs(false, EntryOctets(e) + rest, n + 1, users, acc)
         == ReadPairs(false, rest, n, false, acc.Set(e.key, ParseValue(e.value).tree))
  {
    hide ParseField, ParseValue, KeyOf, KeyText, Complaint, KeyField;
    AppendAssoc(KeyField(e.key), e.value, rest);
    FieldOfKey(e.key, e.value + rest);
    KeyOfText(e.key);
    ParseIsExact(e.value);
    ParseIsLocal(e.value, rest);
    assert ParseValue(e.value).tree.full == e.value by { assert ParseValue(e.value).tree.full + [] == ParseValue(e.value).tree.full; }
  }

  lemma {:induction false} ReadEntries(es: seq<Entry>, users: bool, acc: Found<Octets>)
    requires forall i | 0 <= i < |es| :: EntryOk(es[i])
    ensures ReadPairs(false, AllEntries(es), |es|, users, acc) == Good(SetAll(acc, es))
    decreases |es|
  {
    hide EntryOctets, EntryOk, ParseField, ParseValue, Found<Octets>.Set;
    if es != [] {
      ReadEntry(es[0], AllEntries(es[1..]), |es| - 1, users, acc);
      ReadEntries(es[1..], false, acc.Set(es[0].key, ParseValue(es[0].value).tree));
    }
  }

  // ---------------------------------------------------------------- one hop

  predicate WellFormed(a: Annotations) {
    && |a.user| == a.found.userSize && a.found.userCount % 2 == 0
    && UserPairs(a.user, a.found.userCount / 2)
  }

  /** The section as a whole: user entries come back octet for octet, the router entries as
      what they parse to. */
  lemma {:induction false} SectionParses(a: Annotations, m: Send, id: Octets)
    requires WellFormed(a) && Fits(a.found, m, id)
    requires forall i | 0 <= i < |Entries(a.found, m, id)| :: EntryOk(Entries(a.found, m, id)[i])
    requires Shortable(|MapBody(a, m, id)|, MapCount(a, m, id))
    ensures ParseAnnotations(false, Section(a, m, id))
         == Good(Annotations(SetAll(AddUser(Nothing(), |a.user|, a.found.userCount), Entries(a.found, m, id)), a.user))
  {
    hide ParseField, EntryOk, Entries, UserPairs, ShortComposite, ReadPairs, ParseValue;
    var es := Entries(a.found, m, id);
    var body, count := MapBody(a, m, id), MapCount(a, m, id);
    ReadUserPairs(false, a.user, a.found.userCount / 2, AllEntries(es), |es|, Nothing());
    ReadEntries(es, true, AddUser(Nothing(), |a.user|, a.found.userCount));
    SetAllKeepsUser(AddUser(Nothing(), |a.user|, a.found.userCount), es);
    UserPairsSize(a.user, a.found.userCount / 2);
    if body == [] {
      NoEntries(es);
    } else {
      FieldOfShort(true, count, body, []);
      assert ShortComposite(true, count, body) + [] == ShortComposite(true, count, body);
      assert body[..|a.user|] == a.user;
    }
  }

  lemma {:induction false} NoEntries(es: seq<Entry>)
    requires AllEntries(es) == []
    ensures es == []
  {
  }

  lemma {:induction false} SetAllKeepsUser(f: Found<Octets>, es: seq<Entry>)
    ensures SetAll(f, es).userSize == f.userSize && SetAll(f, es).userCount == f.userCount
    decreases |es|
  {
    hide ParseValue;
    if es != [] { SetAllKeepsUser(f.Set(es[0].key, ParseValue(es[0].value).tree), es[1..]); }
  }

  // ---------------------------------------------------------------- values of the entries

  lemma {:induction false} StrParses(text: Octets)
    requires StrFits(text)
    ensures Encodable(StrTerm(text)) && ParseValue(StrField(text)) == TreeResult(TreeOf(StrTerm(text)), [])
    ensures IsString(TreeOf(StrTerm(text))) && TreeOf(StrTerm(text)).IsOk() && TreeOf(StrTerm(text)).field.value == text
  {
    hide ParseValue, Encode;
    ParseLeaf(StrTerm(text), []);
    assert StrField(text) + [] == StrField(text);
  }

  function SmallIntTree(x: Octet): Parsed<Octets> {
    Parsed(None, Field(SMALLINT, 1, 0, [x]), [SMALLINT, x], [])
  }

  lemma {:induction false} SmallIntParses(x: Octet)
    ensures ParseValue([SMALLINT, x]) == TreeResult(SmallIntTree(x), [])
  {
    hide ParseValue;
    var t := Leaf(SMALLINT, [x]);
    assert Encode(t) == [SMALLINT, x];
    ParseLeaf(t, []);
    assert Encode(t) + [] == [SMALLINT, x];
  }

  function StrTerms(ids: seq<Octets>): (ts: seq<Term>)
    ensures |ts| == |ids|
  {
    if ids == [] then [] else [StrTerm(ids[0])] + StrTerms(ids[1..])
  }

  /** The octets that a trace of these router ids takes. */
  function TraceSize(ids: seq<Octets>): nat { SizeAll(StrTerms(ids)) }

  predicate IdsFit(ids: seq<Octets>) {
    (forall i | 0 <= i < |ids| :: StrFits(ids[i])) && TraceSize(ids) + 4 < U32
  }

  lemma {:induction false} StrTermsAre(ids: seq<Octets>)
    requires IdsFit(ids)
    ensures AllEncodable(StrTerms(ids))
    ensures forall i | 0 <= i < |ids| :: EvenMaps(StrTerms(ids)[i])
    ensures |TreesOf(StrTerms(ids))| == |ids| <= |EncodeAll(StrTerms(ids))| == TraceSize(ids)
    ensures forall i | 0 <= i < |ids| :: TreesOf(StrTerms(ids))[i] == TreeOf(StrTerm(ids[i]))
  {
    hide Encode, TreeOf;
    if ids != [] {
      StrTermsAre(ids[1..]);
      assert StrTerms(ids)[1..] == StrTerms(ids[1..]);
    }
  }

  lemma {:induction false} StrTermsSnoc(ids: seq<Octets>, id: Octets)
    ensures StrTerms(ids + [id]) == StrTerms(ids) + [StrTerm(id)]
  {
    if ids == [] {
      assert ids + [id] == [id];
    } else {
      CutAppend(ids, [id], 1);
      StrTermsSnoc(ids[1..], id);
    }
  }

  lemma {:induction false} TraceSnoc(ids: seq<Octets>, id: Octets)
    requires IdsFit(ids + [id])
    ensures IdsFit(ids) && StrFits(id) && AllEncodable(StrTerms(ids)) && AllEncodable(StrTerms(ids + [id]))
    ensures EncodeAll(StrTerms(ids + [id])) == EncodeAll(StrTerms(ids)) + StrField(id)
    ensures TraceSize(ids + [id]) == TraceSize(ids) + |StrField(id)|
  {
    hide Encode;
    StrTermsSnoc(ids, id);
    StrTermsAre(ids + [id]);
    assert id == (ids + [id])[|ids|];
    forall i | 0 <= i < |ids| ensures StrFits(ids[i]) { assert ids[i] == (ids + [id])[i]; }
    var ts := StrTerms(ids + [id]);
    EncodePrefix(ts, |ids|);
    assert ts[..|ids|] == StrTerms(ids) && ts[..|ids| + 1] == ts;
  }

  predicate TraceIs(t: Parsed<Octets>, ids: seq<Octets>)
    requires IdsFit(ids)
  {
    StrTermsAre(ids);
    && t.IsOk() && IsListTag(t.field.tag)
    && t.field.value == EncodeAll(StrTerms(ids)) && t.children == TreesOf(StrTerms(ids))
  }

  /** The trace list is read back with all its elements. */
  lemma {:induction false} TraceParses(ids: seq<Octets>)
    requires IdsFit(ids) && ids != []
    ensures AllEncodable(StrTerms(ids)) && Shortable(TraceSize(ids), |ids|) && |EncodeAll(StrTerms(ids))| == TraceSize(ids)
    ensures var r := ParseValue(ShortComposite(false, |ids|, EncodeAll(StrTerms(ids))));
            TraceIs(r.tree, ids) && r.rest == [] && Complaint(Trace, r.tree) == None
  {
    hide ParseField, ShortComposite, Encode, ParseItems, TreeOf;
    StrTermsAre(ids);
    var body := EncodeAll(StrTerms(ids));
    FieldOfShort(false, |ids|, body, []);
    assert ShortComposite(false, |ids|, body) + [] == ShortComposite(false, |ids|, body);
    ParseAllEncoded(StrTerms(ids));
    forall i | 0 <= i < |ids| ensures IsString(TreesOf(StrTerms(ids))[i]) { StrParses(ids[i]); }
  }

  // ---------------------------------------------------------------- what a hop keeps

  /** No filter and no reset. */
  predicate Plain(m: Send) {
    !m.filterIngress && !m.filterTrace && !m.resetIngress && !m.resetTrace && m.phase < 128
  }

  /** The message carries `count` user fields in the octets `user` and has passed the routers
      `ids`. */
  predicate Carries(a: Annotations, user: Octets, count: nat, ids: seq<Octets>) {
    && WellFormed(a) && a.user == user && a.found.userCount == count && IdsFit(ids)
    && (ids == [] ==> a.found.ingress == None && a.found.trace == None)
    && (ids != [] ==>
          && a.found.ingress == Some(TreeOf(StrTerm(ids[0])))
          && a.found.trace.Some? && TraceIs(a.found.trace.value, ids))
  }

  lemma {:induction false} SetAllAppend(f: Found<Octets>, a: seq<Entry>, b: seq<Entry>)
    ensures SetAll(f, a + b) == SetAll(SetAll(f, a), b)
    decreases |a|
  {
    hide ParseValue;
    if a == [] {
      assert a + b == b;
    } else {
      CutAppend(a, b, 1);
      SetAllAppend(f.Set(a[0].key, ParseValue(a[0].value).tree), a[1..], b);
    }
  }

  lemma {:induction false} EntriesSize(a: seq<Entry>, b: seq<Entry>)
    ensures |AllEntries(a + b)| == |AllEntries(a)| + |AllEntries(b)|
    ensures 2 * |a| <= |AllEntries(a)|
    decreases |a|
  {
    if a == [] {
      assert a + b == b;
    } else {
      CutAppend(a, b, 1);
      EntriesSize(a[1..], b);
    }
  }

  /** Setting one annotation. */
  lemma {:induction false} SetOne(f: Found<Octets>, e: Entry)
    ensures SetAll(f, [e]) == f.Set(e.key, ParseValue(e.value).tree)
  {
    hide ParseValue;
    assert [e][1..] == [];
  }

  predicate AllOk(es: seq<Entry>) { forall i | 0 <= i < |es| :: EntryOk(es[i]) }

  /** Phase, streaming flag and address override arrive as they were sent. */
  lemma {:induction false} RoutingArrives(f: Found<Octets>, phase: nat, streaming: bool, to: Option<Octets>)
    requires phase < 128 && (to.Some? ==> StrFits(to.value))
    requires f.phase == None && f.stream == None && f.to == None
    ensures AllOk(RoutingEntries(phase, streaming, to))
    ensures SetAll(f, RoutingEntries(phase, streaming, to))
         == f.(phase := if phase > 0 then Some(SmallIntTree(phase as Octet)) else None,
               stream := if streaming then Some(SmallIntTree(1)) else None,
               to := if to.Some? then Some(TreeOf(StrTerm(to.value))) else None)
  {
    hide ParseValue, StrField, TreeOf;
    var a := if phase > 0 then [Entry(Phase, [SMALLINT, phase as Octet])] else [];
    var b := if streaming then [Entry(Stream, [SMALLINT, 1])] else [];
    var c := if to.Some? then [Entry(To, StrField(to.value))] else [];
    SetAllAppend(f, a + b, c);
    SetAllAppend(f, a, b);
    if phase > 0 { SmallIntParses(phase as Octet); SetOne(f, a[0]); }
    if streaming { SmallIntParses(1); SetOne(SetAll(f, a), b[0]); }
    if to.Some? { StrParses(to.value); SetOne(SetAll(SetAll(f, a), b), c[0]); }
  }

  /** What the next router writes about the way so far. */
  lemma {:induction false} NextTrace(a: Annotations, user: Octets, count: nat, ids: seq<Octets>, m: Send, id: Octets)
    requires Carries(a, user, count, ids) && Plain(m) && IdsFit(ids + [id])
    ensures StrFits(id) && AllEncodable(StrTerms(ids + [id]))
    ensures TraceBefore(a.found, m) + StrField(id) == EncodeAll(StrTerms(ids + [id]))
    ensures TraceCount(a.found, m) == |ids + [id]| <= |EncodeAll(StrTerms(ids + [id]))| == TraceSize(ids + [id])
    ensures IngressToSend(a.found, m, id) == (ids + [id])[0] && StrFits((ids + [id])[0])
  {
    hide Encode, TreeOf, UserPairs;
    TraceSnoc(ids, id);
    StrTermsAre(ids + [id]);
    if ids == [] {
      assert EncodeAll(StrTerms(ids)) == [];
    } else {
      StrTermsAre(ids);
      StrParses(ids[0]);
    }
  }

  /** Can the annotations be written at all? */
  predicate CanSend(a: Annotations, m: Send, id: Octets) {
    Fits(a.found, m, id) && Shortable(|MapBody(a, m, id)|, MapCount(a, m, id))
  }

  /** What the next router finds, if this one can send and that one can parse. */
  function Forward(a: Annotations, m: Send, id: Octets): Option<Annotations> {
    if !CanSend(a, m, id) then None
    else match ParseAnnotations(false, Section(a, m, id)) case Failed(_) => None case Good(a') => Some(a')
  }

  /** An upper bound of the size of the section. */
  predicate Room(user: Octets, ids: seq<Octets>, to: nat) { |user| + to + 2 * TraceSize(ids) + 200 < U32 }

  lemma {:induction false} SectionSize(a: Annotations, m: Send, id: Octets)
    requires WellFormed(a) && Plain(m) && Fits(a.found, m, id)
    ensures |MapBody(a, m, id)| <= |a.user| + (if ToSend(a.found, m).Some? then |ToSend(a.found, m).value| else 0)
                                 + |IngressToSend(a.found, m, id)| + |TraceBefore(a.found, m) + StrField(id)| + 150
    ensures MapCount(a, m, id) <= |MapBody(a, m, id)|
    ensures |Entries(a.found, m, id)| >= 2
  {
    hide UserPairs, KeyText, StrField, ShortComposite;
    var f := a.found;
    var r := RoutingEntries(m.phase, m.streaming, ToSend(f, m));
    var ing, tr := IngressEntry(IngressToSend(f, m, id)), TraceEntry(TraceCount(f, m), TraceBefore(f, m) + StrField(id));
    RoutingSize(m.phase, m.streaming, ToSend(f, m));
    EntriesSize(r + [ing], [tr]);
    EntriesSize(r, [ing]);
    EntriesSize([tr], []);
    EntriesSize(Entries(f, m, id), []);
    OneEntrySize(ing);
    OneEntrySize(tr);
    TraceEntrySize(TraceCount(f, m), TraceBefore(f, m) + StrField(id));
    UserPairsSize(a.user, f.userCount / 2);
  }

  lemma {:induction false} OneEntrySize(e: Entry)
    ensures |AllEntries([e])| <= 18 + |e.value|
  {
    KeyTextLength(e.key);
    assert [e][1..] == [];
  }

  lemma {:induction false} TraceEntrySize(count: nat, body: Octets)
    requires Shortable(|body|, count)
    ensures |TraceEntry(count, body).value| <= 9 + |body|
  {
  }

  lemma {:induction false} RoutingSize(phase: nat, streaming: bool, to: Option<Octets>)
    requires phase < 128 && (to.Some? ==> StrFits(to.value))
    ensures |AllEntries(RoutingEntries(phase, streaming, to))| <= 63 + if to.Some? then |to.value| else 0
  {
    hide StrField, KeyText, AllEntries;
    var a := if phase > 0 then [Entry(Phase, [SMALLINT, phase as Octet])] else [];
    var b := if streaming then [Entry(Stream, [SMALLINT, 1])] else [];
    var c := if to.Some? then [Entry(To, StrField(to.value))] else [];
    EntriesSize(a + b, c);
    EntriesSize(a, b);
    NoEntriesSize();
    if phase > 0 { OneEntrySize(a[0]); }
    if streaming { OneEntrySize(b[0]); }
    if to.Some? { OneEntrySize(c[0]); StrSize(to.value); }
  }

  lemma {:induction false} NoEntriesSize()
    ensures AllEntries([]) == []
  {
  }

  lemma {:induction false} StrSize(text: Octets)
    requires StrFits(text)
    ensures |StrField(text)| <= |text| + 5
  {
  }

  // ---------------------------------------------------------------- one hop, any number of hops

  /** One hop: the next router finds the same user annotations, the same ingress router (or
      this one, if it is the first) and a trace longer by this router. */
  lemma {:induction false} HopKeeps(a: Annotations, user: Octets, count: nat, ids: seq<Octets>, m: Send, id: Octets, to: nat)
    requires Carries(a, user, count, ids) && Plain(m) && IdsFit(ids + [id])
    requires ToSend(a.found, m).Some? ==> |ToSend(a.found, m).value| <= to
    requires Room(user, ids + [id], to)
    ensures var r := Forward(a, m, id);
            && r.Some? && Carries(r.value, user, count, ids + [id])
            && ValueOrNone(r.value.found.to) == ToSend(a.found, m)
            && r.value.found.phase == (if m.phase > 0 then Some(SmallIntTree(m.phase as Octet)) else None)
            && (r.value.found.stream.Some? <==> m.streaming)
  {
    hide Encode, EncodeAll, TreeOf, TreesOf, UserPairs, ShortComposite, StrField, ParseValue, ParseAnnotations,
         SetAll, AllEntries, RoutingEntries;
    var f, all := a.found, ids + [id];
    NextTrace(a, user, count, ids, m, id);
    IdBelowTrace(all);
    SectionSize(a, m, id);
    var r := RoutingEntries(m.phase, m.streaming, ToSend(f, m));
    var ing, tr := IngressEntry(all[0]), TraceEntry(|all|, EncodeAll(StrTerms(all)));
    assert Entries(f, m, id) == r + [ing] + [tr];
    var f0 := AddUser(Nothing(), |user|, count);
    RoutingArrives(f0, m.phase, m.streaming, ToSend(f, m));
    TailArrives(SetAll(f0, r), all, ing, tr);
    SetAllAppend(f0, r + [ing], [tr]);
    SetAllAppend(f0, r, [ing]);
    SectionParses(a, m, id);
    if ToSend(f, m).Some? { StrParses(ToSend(f, m).value); }
  }

  lemma {:induction false} TailArrives(f: Found<Octets>, ids: seq<Octets>, ing: Entry, tr: Entry)
    requires IdsFit(ids) && ids != [] && AllEncodable(StrTerms(ids)) && StrFits(ids[0])
    requires Shortable(|EncodeAll(StrTerms(ids))|, |ids|)
    requires ing == IngressEntry(ids[0]) && tr == TraceEntry(|ids|, EncodeAll(StrTerms(ids)))
    ensures EntryOk(ing) && EntryOk(tr)
    ensures var t := ParseValue(tr.value).tree;
            && TraceIs(t, ids)
            && SetAll(SetAll(f, [ing]), [tr]) == f.(ingress := Some(TreeOf(StrTerm(ids[0]))), trace := Some(t))
  {
    hide ParseValue, TreeOf, EncodeAll, ShortComposite, StrField, TraceIs;
    StrParses(ids[0]);
    TraceParses(ids);
    TraceIsGood(ParseValue(tr.value).tree, ids);
    SetOne(f, ing);
    SetOne(SetAll(f, [ing]), tr);
  }

  lemma {:induction false} TraceIsGood(t: Parsed<Octets>, ids: seq<Octets>)
    requires IdsFit(ids) && TraceIs(t, ids)
    ensures t.IsOk()
  {
  }

  lemma {:induction false} IdBelowTrace(ids: seq<Octets>)
    requires ids != []
    ensures |ids[0]| <= TraceSize(ids)
  {
    var ts := StrTerms(ids);
    assert ts[0] == StrTerm(ids[0]) && SizeAll(ts) == Size(ts[0]) + SizeAll(ts[1..]);
  }

  /** A router on the way: its id, whether it is an edge router, the radius of the network as
      it knows it, and what it decides about the message. */
  datatype Hop = Hop(id: Octets, edge: bool, radius: nat, send: Send) {
    /** Edge routers pass on neither trace nor ingress. */
    function Sending(): Send { if edge then send.(filterIngress := true, filterTrace := true) else send }
  }

  datatype Outcome = Arrived(annotations: Annotations) | Released | Lost

  /** A message that has passed more routers than the radius plus one is released; any other
      is sent on. Edge routers do not look at the trace. */
  function Route(a: Annotations, h: Hop): Outcome {
    var distance := if h.edge then 0 else ChildCount(a.found.trace);
    if distance > h.radius + 1 then Released
    else match Forward(a, h.Sending(), h.id) case None => Lost case Some(a') => Arrived(a')
  }

  function Travel(a: Annotations, path: seq<Hop>): Outcome
    decreases |path|
  {
    if path == [] then Arrived(a)
    else match Route(a, path[0])
      case Arrived(a') => Travel(a', path[1..])
      case o => o
  }

  function Ids(path: seq<Hop>): (ids: seq<Octets>)
    ensures |ids| == |path|
  {
    if path == [] then [] else [path[0].id] + Ids(path[1..])
  }

  /** Interior routers, no filters, no resets, and address overrides of at most `to` octets. */
  predicate PlainPath(path: seq<Hop>, to: nat) {
    forall i | 0 <= i < |path| ::
      !path[i].edge && Plain(path[i].send) && (path[i].send.to.Some? ==> |path[i].send.to.value| <= to)
  }

  /** After `n` routers, no router of the path finds the trace too long for its radius. */
  predicate InRadius(n: nat, path: seq<Hop>) {
    forall i | 0 <= i < |path| :: n + i <= path[i].radius + 1
  }

  lemma {:induction false} PrefixFits(a: seq<Octets>, b: seq<Octets>)
    requires IdsFit(a + b)
    ensures IdsFit(a) && TraceSize(a) <= TraceSize(a + b)
    decreases |b|
  {
    if b == [] {
      assert a + b == a;
    } else {
      var c := b[..|b| - 1];
      assert a + b == (a + c) + [b[|b| - 1]];
      TraceSnoc(a + c, b[|b| - 1]);
      PrefixFits(a, c);
    }
  }

  lemma {:induction false} TravelFrom(a: Annotations, user: Octets, count: nat, ids: seq<Octets>, path: seq<Hop>, to: nat)
    requires Carries(a, user, count, ids) && PlainPath(path, to)
    requires ValueOrNone(a.found.to).Some? ==> |ValueOrNone(a.found.to).value| <= to
    requires IdsFit(ids + Ids(path)) && Room(user, ids + Ids(path), to)
    ensures var o := Travel(a, path);
            if InRadius(|ids|, path) then o.Arrived? && Carries(o.annotations, user, count, ids + Ids(path)) else o == Released
    decreases |path|
  {
    hide Forward, Carries, TraceSize, Plain;
    if path == [] {
      assert ids + Ids(path) == ids;
    } else {
      var h := path[0];
      var rest := path[1..];
      var ids' := ids + [h.id];
      assert ids + Ids(path) == ids' + Ids(rest);
      PrefixFits(ids', Ids(rest));
      Distance(a, user, count, ids);
      HopKeeps(a, user, count, ids, h.send, h.id, to);
      if |ids| <= h.radius + 1 {
        var a' := Forward(a, h.send, h.id).value;
        TravelFrom(a', user, count, ids', rest, to);
        assert InRadius(|ids|, path) <==> InRadius(|ids'|, rest) by { RadiusStep(|ids|, path); }
      } else {
        assert !InRadius(|ids|, path) by { assert |ids| + 0 > path[0].radius + 1; }
      }
    }
  }

  lemma {:induction false} RadiusStep(n: nat, path: seq<Hop>)
    requires path != [] && n <= path[0].radius + 1
    ensures InRadius(n, path) <==> InRadius(n + 1, path[1..])
  {
    if InRadius(n + 1, path[1..]) {
      forall i | 0 <= i < |path| ensures n + i <= path[i].radius + 1 {
        if i > 0 { assert path[i] == path[1..][i - 1]; }
      }
    }
  }

  lemma {:induction false} Distance(a: Annotations, user: Octets, count: nat, ids: seq<Octets>)
    requires Carries(a, user, count, ids)
    ensures ChildCount(a.found.trace) == |ids|
  {
    StrTermsAre(ids);
  }

  // ---------------------------------------------------------------- from the first router on

  /** Annotations without any router entry. */
  function UserOnly(user: Octets, count: nat): Annotations {
    Annotations(AddUser(Nothing(), |user|, count), user)
  }

  /** What is left when the router entries are taken off again: nothing, or the user entries
      under a header of their own. */
  function Restored(a: Annotations): Option<Octets>
    requires Shortable(|a.user|, a.found.userCount)
  {
    if a.found.userCount == 0 then None else Some(ShortComposite(true, a.found.userCount, a.user))
  }

  /** A section of user entries alone is taken as such; so is one restored from any well-formed
      annotations. */
  lemma {:induction false} RestoredParses(strip: bool, a: Annotations)
    requires WellFormed(a) && |a.user| + 4 < U32
    ensures Shortable(|a.user|, a.found.userCount)
    ensures ParseAnnotations(strip, Restored(a)) == Good(UserOnly(a.user, a.found.userCount))
  {
    hide ParseField, UserPairs, ShortComposite;
    var user, count := a.user, a.found.userCount;
    UserPairsSize(user, count / 2);
    ReadUserPairs(strip, user, count / 2, [], 0, Nothing());
    assert user + [] == user && user[..|user|] == user;
    if count == 0 {
      NoPairs(user);
    } else {
      FieldOfShort(true, count, user, []);
      assert ShortComposite(true, count, user) + [] == ShortComposite(true, count, user);
    }
  }

  lemma {:induction false} NoPairs(s: Octets)
    requires UserPairs(s, 0)
    ensures s == []
  {
  }

  /** The router ids in a trace. */
  function TraceList(t: Option<Parsed<Octets>>): seq<Octets> {
    if t.Some? && t.value.Parsed? then ChildValues(t.value.children) else []
  }

  function ChildValues(ts: seq<Parsed<Octets>>): seq<Octets> {
    if ts == [] then [] else [if ts[0].Parsed? then ts[0].field.value else []] + ChildValues(ts[1..])
  }

  lemma {:induction false} ChildValuesAre(ids: seq<Octets>)
    requires IdsFit(ids) && AllEncodable(StrTerms(ids))
    ensures ChildValues(TreesOf(StrTerms(ids))) == ids
  {
    hide Encode;
    if ids != [] {
      StrTermsAre(ids[1..]);
      assert StrTerms(ids)[1..] == StrTerms(ids[1..]);
      ChildValuesAre(ids[1..]);
      var ts := TreesOf(StrTerms(ids));
      assert ts[1..] == TreesOf(StrTerms(ids[1..])) && ts[0] == TreeOf(StrTerm(ids[0]));
      assert ids == [ids[0]] + ids[1..];
    }
  }

  /** Over any number of hops from a message without router annotations: the user annotations
      stay the same octet for octet, the ingress is the first router and the trace is the
      list of routers passed, in order. The message gets through exactly when no router finds
      it beyond its radius. */
  lemma {:induction false} Journey(user: Octets, count: nat, path: seq<Hop>, to: nat)
    requires count % 2 == 0 && UserPairs(user, count / 2) && PlainPath(path, to)
    requires IdsFit(Ids(path)) && Room(user, Ids(path), to)
    ensures var o := Travel(UserOnly(user, count), path);
            && (o.Arrived? <==> InRadius(0, path))
            && (!o.Arrived? ==> o == Released)
            && (o.Arrived? ==>
                  && o.annotations.user == user && o.annotations.found.userCount == count
                  && TraceList(o.annotations.found.trace) == Ids(path)
                  && (path != [] ==> ValueOrNone(o.annotations.found.ingress) == Some(path[0].id)))
  {
    hide Travel, UserPairs, Encode, TraceSize, TreesOf, TreeOf;
    var a := UserOnly(user, count);
    assert [] + Ids(path) == Ids(path);
    NoTrace(a, user, count);
    TravelFrom(a, user, count, [], path, to);
    if InRadius(0, path) && path != [] {
      var o := Travel(a, path).annotations;
      StrTermsAre(Ids(path));
      ChildValuesAre(Ids(path));
      StrParses(Ids(path)[0]);
    }
  }

  lemma {:induction false} NoTrace(a: Annotations, user: Octets, count: nat)
    requires count % 2 == 0 && UserPairs(user, count / 2) && a == UserOnly(user, count)
    ensures Carries(a, user, count, [])
  {
    hide UserPairs;
  }

  // ---------------------------------------------------------------- any message, any path

  /** A trace as it is written, whatever trace was received: one list that either fails to parse or
      has exactly the elements it claims. */
  lemma {:induction false} TraceValue(count: nat, body: Octets)
    requires Shortable(|body|, count)
    ensures var r := ParseValue(TraceEntry(count, body).value);
            && r.rest == [] && r.tree.Parsed? && r.tree.field.value == body
            && (r.tree.IsOk() ==> |r.tree.children| == count)
  {
    hide ParseField, ParseItems, ShortComposite;
    var s := ShortComposite(false, count, body);
    FieldOfShort(false, count, body, []);
    assert s + [] == s;
    ParseIsExact(s);
  }

  /** An entry the next router refuses, after any number that it takes. */
  lemma {:induction false} ReadRefused(es: seq<Entry>, e: Entry, users: bool, acc: Found<Octets>)
    requires AllOk(es) && e.key == Trace && Complaint(e.key, ParseValue(e.value).tree) != None
    ensures ReadPairs(false, AllEntries(es + [e]), |es| + 1, users, acc).Failed?
    decreases |es|
  {
    hide EntryOctets, EntryOk, ParseField, ParseValue, Found<Octets>.Set, Complaint;
    if es == [] {
      assert es + [e] == [e] && [e][1..] == [];
      assert AllEntries([e]) == EntryOctets(e) + AllEntries([]);
      assert AllEntries([]) == [];
      assert EntryOctets(e) + [] == EntryOctets(e);
      LastRefused(e, users, acc);
    } else {
      CutAppend(es, [e], 1);
      assert EntryOk(es[0]);
      ReadEntry(es[0], AllEntries(es[1..] + [e]), |es|, users, acc);
      ReadRefused(es[1..], e, false, acc.Set(es[0].key, ParseValue(es[0].value).tree));
    }
  }

  lemma {:induction false} LastRefused(e: Entry, users: bool, acc: Found<Octets>)
    requires e.key == Trace && Complaint(e.key, ParseValue(e.value).tree) != None
    ensures ReadPairs(false, EntryOctets(e), 1, users, acc).Failed?
  {
    hide ParseField, ParseValue, KeyOf, KeyText, Complaint, KeyField;
    FieldOfKey(e.key, e.value);
    KeyOfText(e.key);
  }

  /** If the trace does not parse, the whole section is refused. */
  lemma {:induction false} TraceRefused(a: Annotations, m: Send, id: Octets, es: seq<Entry>, tr: Entry)
    requires WellFormed(a) && CanSend(a, m, id) && AllOk(es) && Entries(a.found, m, id) == es + [tr]
    requires tr.key == Trace && Complaint(tr.key, ParseValue(tr.value).tree) != None
    ensures Forward(a, m, id) == None
  {
    hide ParseField, EntryOk, Entries, UserPairs, ShortComposite, ReadPairs, ParseValue, Complaint, EntryOctets;
    var all := es + [tr];
    var body, count := MapBody(a, m, id), MapCount(a, m, id);
    ReadUserPairs(false, a.user, a.found.userCount / 2, AllEntries(all), |all|, Nothing());
    ReadRefused(es, tr, true, AddUser(Nothing(), |a.user|, a.found.userCount));
    UserPairsSize(a.user, a.found.userCount / 2);
    EntriesSize(all, []);
    FieldOfShort(true, count, body, []);
    assert ShortComposite(true, count, body) + [] == ShortComposite(true, count, body);
  }

  function TraceToSend(f: Found<Octets>, m: Send, id: Octets): Entry
    requires Fits(f, m, id)
  {
    TraceEntry(TraceCount(f, m), TraceBefore(f, m) + StrField(id))
  }

  /** All entries but the trace parse, whatever was received, and arrive as they were sent. */
  lemma {:induction false} EntriesBeforeTrace(f0: Found<Octets>, f: Found<Octets>, m: Send, id: Octets) returns (es: seq<Entry>)
    requires Fits(f, m, id) && f0 == AddUser(Nothing(), f.userSize, f.userCount)
    ensures Entries(f, m, id) == es + (if m.filterTrace then [] else [TraceToSend(f, m, id)])
    ensures AllOk(es)
    ensures var g := SetAll(f0, es);
            && g.trace == None
            && g.userCount == f.userCount
            && ValueOrNone(g.to) == ToSend(f, m)
            && ValueOrNone(g.ingress) == (if m.filterIngress then None else Some(IngressToSend(f, m, id)))
            && g.phase == (if m.phase > 0 then Some(SmallIntTree(m.phase as Octet)) else None)
            && (g.stream.Some? <==> m.streaming)
  {
    hide ParseValue, StrField, TreeOf, TraceEntry, RoutingEntries, TraceBefore, TraceCount, ToSend, IngressToSend, StrTerm;
    var r := RoutingEntries(m.phase, m.streaming, ToSend(f, m));
    var i := if m.filterIngress then [] else [IngressEntry(IngressToSend(f, m, id))];
    RoutingArrives(f0, m.phase, m.streaming, ToSend(f, m));
    StrParses(IngressToSend(f, m, id));
    if ToSend(f, m).Some? { StrParses(ToSend(f, m).value); }
    es := r + i;
    SetAllAppend(f0, r, i);
    if !m.filterIngress { SetOne(SetAll(f0, r), i[0]); }
  }

  /** What the next router finds after any send: the user annotations as they were, and each
      router entry as this router decided about it. */
  predicate HopResult(a: Annotations, m: Send, id: Octets, a': Annotations)
    requires Fits(a.found, m, id)
  {
    var f, g := a.found, a'.found;
    && WellFormed(a') && a'.user == a.user && g.userCount == f.userCount
    && ValueOrNone(g.to) == ToSend(f, m)
    && ValueOrNone(g.ingress) == (if m.filterIngress then None else Some(IngressToSend(f, m, id)))
    && g.phase == (if m.phase > 0 then Some(SmallIntTree(m.phase as Octet)) else None)
    && (g.stream.Some? <==> m.streaming)
    && g.trace == (if m.filterTrace then None else Some(ParseValue(TraceToSend(f, m, id).value).tree))
    && ValueOrNone(g.trace) == (if m.filterTrace then None else Some(TraceBefore(f, m) + StrField(id)))
    && ChildCount(g.trace) == (if m.filterTrace then 0 else TraceCount(f, m))
  }

  /** One hop under any decisions of the router: a section that can be written is accepted by the
      next router exactly when its trace, if it has one, is a list of strings. */
  lemma {:induction false} HopArrives(a: Annotations, m: Send, id: Octets)
    requires WellFormed(a) && CanSend(a, m, id)
    ensures Forward(a, m, id).Some? <==>
            m.filterTrace || Complaint(Trace, ParseValue(TraceToSend(a.found, m, id).value).tree) == None
    ensures Forward(a, m, id).Some? ==> HopResult(a, m, id, Forward(a, m, id).value)
  {
    hide ParseValue, UserPairs, Entries, ParseAnnotations, SetAll, StrField, Complaint, Section, MapBody, MapCount,
         TraceBefore, TraceCount, ToSend, IngressToSend, EntryOk;
    var f := a.found;
    var tr := TraceToSend(f, m, id);
    var f0 := AddUser(Nothing(), f.userSize, f.userCount);
    var es := EntriesBeforeTrace(f0, f, m, id);
    UserPartIsWellFormed(false, Section(a, m, id));
    TraceValue(TraceCount(f, m), TraceBefore(f, m) + StrField(id));
    if m.filterTrace {
      assert es + [] == es;
      SectionParses(a, m, id);
    } else if Complaint(Trace, ParseValue(tr.value).tree) != None {
      TraceRefused(a, m, id, es, tr);
    } else {
      NoComplaint(tr);
      SectionParses(a, m, id);
      SetAllAppend(f0, es, [tr]);
      SetOne(SetAll(f0, es), tr);
    }
  }

  predicate HasValue(t: Option<Parsed<Octets>>) { t.Some? && t.value.Parsed? }

  predicate Says(t: Option<Parsed<Octets>>, x: Octets) { HasValue(t) && t.value.field.value == x }

  /** One hop, written out. The user annotations stay. An address override of this copy goes before the one
      received, and the received one is passed on if this copy has none. Unless it is filtered, the ingress
      is the one received, or this router if it is reset or there was none. Phase and streaming flag are
      those of this copy. The trace is filtered, begun anew or made longer. */
  lemma {:induction false} HopInFull(a: Annotations, m: Send, id: Octets)
    requires WellFormed(a) && Forward(a, m, id).Some?
    ensures var f, b := a.found, Forward(a, m, id).value;
            && b.user == a.user && b.found.userCount == f.userCount
            && (m.to.Some? ==> Says(b.found.to, m.to.value))
            && (m.to.None? && HasValue(f.to) ==> Says(b.found.to, f.to.value.field.value))
            && (m.to.None? && !HasValue(f.to) ==> !HasValue(b.found.to))
            && (m.filterIngress ==> !HasValue(b.found.ingress))
            && (!m.filterIngress && !m.resetIngress && HasValue(f.ingress) ==> Says(b.found.ingress, f.ingress.value.field.value))
            && (!m.filterIngress && (m.resetIngress || !HasValue(f.ingress)) ==> Says(b.found.ingress, id))
            && (m.phase == 0 ==> b.found.phase == None)
            && (m.phase > 0 ==> m.phase < 128 && Says(b.found.phase, [m.phase as Octet]))
            && (b.found.stream.Some? <==> m.streaming)
            && (m.filterTrace ==> b.found.trace == None)
            && (!m.filterTrace ==> HasValue(b.found.trace))
            && (!m.filterTrace && m.resetTrace ==> |b.found.trace.value.children| == 1)
            && (!m.filterTrace && !m.resetTrace && HasValue(f.trace) ==>
                  |b.found.trace.value.children| == |f.trace.value.children| + 1)
            && (!m.filterTrace && !m.resetTrace && !HasValue(f.trace) ==> |b.found.trace.value.children| == 1)
  {
    hide WellFormed, Complaint, ParseValue, ParseAnnotations, TraceToSend, StrField, MapBody, MapCount;
    HopArrives(a, m, id);
  }

  /** An edge router releases nothing, and passes on neither trace nor ingress; what it sends has no way
      behind it as far as the next router can tell. */
  lemma {:induction false} EdgeRouter(a: Annotations, h: Hop)
    requires WellFormed(a) && h.edge
    ensures var o := Route(a, h);
            && o != Released
            && (o.Arrived? ==> o.annotations.found.trace == None && !HasValue(o.annotations.found.ingress) && o.annotations.user == a.user)
  {
    hide WellFormed, Forward;
    if Forward(a, h.Sending(), h.id).Some? { HopInFull(a, h.Sending(), h.id); }
  }

  /** An interior router releases a message exactly if its trace has more elements than the radius plus one. */
  lemma {:induction false} InteriorRouter(a: Annotations, h: Hop)
    requires !h.edge
    ensures Route(a, h) == Released <==> HasValue(a.found.trace) && |a.found.trace.value.children| > h.radius + 1
  {
    hide Forward;
  }

  /** A router that keeps the trace makes it longer by one, whatever trace it received and whatever
      else it changes. */
  lemma {:induction false} HopLengthens(a: Annotations, m: Send, id: Octets)
    requires WellFormed(a) && !m.filterTrace && !m.resetTrace && Forward(a, m, id).Some?
    ensures var a' := Forward(a, m, id).value;
            WellFormed(a') && ChildCount(a'.found.trace) == ChildCount(a.found.trace) + 1
  {
    hide WellFormed, Complaint, ParseValue, ParseAnnotations, Fits;
    HopArrives(a, m, id);
  }

  lemma {:induction false} NoComplaint(e: Entry)
    requires e.key == Trace && ParseValue(e.value).rest == [] && Complaint(e.key, ParseValue(e.value).tree) == None
    ensures EntryOk(e) && ParseValue(e.value).tree.IsOk()
  {
    hide ParseValue;
  }

  /** Interior routers that neither filter nor reset the trace. */
  predicate KeepsTrace(path: seq<Hop>) {
    forall i | 0 <= i < |path| :: !path[i].edge && !path[i].send.filterTrace && !path[i].send.resetTrace
  }

  /** If no router knows a radius above `r`, no message passes more than `r + 2` routers, those
      in the trace it came with included: whatever annotations it came with, whatever path it
      takes, and whatever the routers do with ingress and address. */
  lemma {:induction false} RadiusBound(a: Annotations, path: seq<Hop>, r: nat)
    requires WellFormed(a) && KeepsTrace(path)
    requires forall i | 0 <= i < |path| :: path[i].radius <= r
    ensures Travel(a, path).Arrived? && path != [] ==> ChildCount(a.found.trace) + |path| <= r + 2
    decreases |path|
  {
    hide Forward, WellFormed;
    if path != [] && Route(a, path[0]).Arrived? {
      HopLengthens(a, path[0].send, path[0].id);
      RadiusBound(Forward(a, path[0].send, path[0].id).value, path[1..], r);
    }
  }

  /** In particular for a message that no router has annotated. */
  lemma {:induction false} RadiusBoundFromStart(user: Octets, count: nat, path: seq<Hop>, r: nat)
    requires count % 2 == 0 && UserPairs(user, count / 2) && KeepsTrace(path)
    requires forall i | 0 <= i < |path| :: path[i].radius <= r
    ensures Travel(UserOnly(user, count), path).Arrived? ==> |path| <= r + 2
  {
    hide UserPairs, Travel;
    RadiusBound(UserOnly(user, count), path, r);
  }
}
