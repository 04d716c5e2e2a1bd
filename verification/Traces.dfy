/** The trace as a list of routers. A received list may have octets behind its elements, which the
    parser does not look at; the next router then reads those before the id that is appended.
 */
module Traces {
  import opened Octets
  import opened Amqp
  import opened Parse
  import opened RoundTrip
  import opened Seqs
  import opened Annotations
  import opened Hops
  import opened Options

  // ---------------------------------------------------------------- received traces

  /** A trace that the parser has accepted: a list of strings, read from its value. */
  ghost predicate IsTrace(t: Parsed<Octets>) {
    && t.IsOk() && IsListTag(t.field.tag)
    && ParseItems(t.field.value, t.field.count) == ListResult(t.children, None)
    && forall i | 0 <= i < |t.children| :: IsString(t.children[i])
  }

  ghost predicate TraceRead(f: Found<Octets>) { f.trace.Some? ==> IsTrace(f.trace.value) }

  lemma {:induction false} AcceptedTrace(s: Octets)
    requires Complaint(Trace, ParseValue(s).tree) == None
    ensures IsTrace(ParseValue(s).tree)
  {
    hide ParseField, ParseItems;
  }

  lemma {:induction false} ReadKeepsTrace(strip: bool, s: Octets, n: nat, users: bool, acc: Found<Octets>)
    requires TraceRead(acc)
    ensures match ReadPairs(strip, s, n, users, acc) case Failed(_) => true case Good(f) => TraceRead(f)
    decreases n
  {
    hide ParseField, ParseValue, KeyOf, Complaint, IsTrace;
    if n > 0 && ParseField(s).Ok? {
      var s1 := ParseField(s).rest;
      var k := KeyOf(ParseField(s).field.tag, ParseField(s).field.value);
      if k == User && users {
        if ParseField(s1).Ok? {
          var s2 := ParseField(s1).rest;
          ReadKeepsTrace(strip, s2, n - 1, true,
                         acc.(userSize := acc.userSize + (if |s| < |s2| then 0 else |s| - |s2|), userCount := acc.userCount + 2));
        }
      } else if k == User {
        ReadKeepsTrace(strip, s1, n - 1, false, acc);
      } else if k == Prefix || k == Class {
        if ParseField(s1).Ok? { ReadKeepsTrace(strip, ParseField(s1).rest, n - 1, false, acc); }
      } else {
        var r := ParseValue(s1);
        if Complaint(k, r.tree) == None {
          if k == Trace { AcceptedTrace(s1); }
          ReadKeepsTrace(strip, r.rest, n - 1, false, acc.Set(k, r.tree));
        }
      }
    }
  }

  /** Whatever octets arrive, the trace that is kept of them is one. */
  lemma {:induction false} ReceivedTrace(strip: bool, section: Option<Octets>)
    ensures match ParseAnnotations(strip, section) case Failed(_) => true case Good(a) => TraceRead(a.found)
  {
    hide ParseField, ReadPairs, IsTrace;
    if section.Some? && ParseField(section.value).Ok? {
      var m := ParseField(section.value).field;
      ReadKeepsTrace(strip, m.value, m.count / 2, true, Nothing());
    }
  }

  // ---------------------------------------------------------------- one more element

  /** The octets behind the elements. */
  function Leftover(t: Parsed<Octets>): Octets {
    if t.Parsed? && Fulls(t.children) <= t.field.value then t.field.value[|Fulls(t.children)|..] else []
  }

  /** What lies between the elements of the received trace and the id that is appended. */
  function Between(f: Found<Octets>, m: Send): Octets {
    if f.trace.Some? && !m.resetTrace then Leftover(f.trace.value) else []
  }

  /** The elements that this router passes on. */
  function Elements(f: Found<Octets>, m: Send): seq<Parsed<Octets>> {
    if f.trace.Some? && f.trace.value.Parsed? && !m.resetTrace then f.trace.value.children else []
  }

  function Passed(f: Found<Octets>, m: Send): seq<Octets> { if m.resetTrace then [] else TraceList(f.trace) }

  /** The elements of a list are read again, and then one more. */
  lemma {:induction false} ItemsThen(s: Octets, n: nat, z: Octets)
    requires ParseItems(s, n).failed == None
    ensures var l, r := ParseItems(s, n), ParseValue(z).tree;
            ParseItems(Fulls(l.trees) + z, n + 1) == ListResult(l.trees + [r], if r.IsOk() then None else r.Error())
    decreases n
  {
    hide ParseValue;
    var l, r := ParseItems(s, n), ParseValue(z).tree;
    if n == 0 {
      assert [] + z == z;
      OneItem(z);
    } else {
      var h := ParseValue(s);
      var cs := ParseItems(h.rest, n - 1).trees;
      assert l.trees[1..] == cs;
      ParseIsExact(s);
      ParseIsLocal(s, Fulls(cs) + z);
      OkIsParsed(h.tree);
      AppendAssoc(h.tree.full, Fulls(cs), z);
      ItemsThen(h.rest, n - 1, z);
      AppendAssoc([h.tree], cs, [r]);
    }
  }

  lemma {:induction false} OkIsParsed(t: Parsed<Octets>)
    ensures t.IsOk() ==> t.Parsed?
  {
  }

  lemma {:induction false} OneItem(z: Octets)
    ensures var r := ParseValue(z).tree;
            ParseItems(z, 1) == ListResult([] + [r], if r.IsOk() then None else r.Error())
  {
    hide ParseValue;
    var r := ParseValue(z);
    assert ParseItems(r.rest, 0) == ListResult([], None);
  }

  /** What the next router reads of a trace that is sent: the elements passed on, and then whatever
      begins behind them. */
  lemma {:induction false} SentTrace(f: Found<Octets>, m: Send, id: Octets)
    requires Fits(f, m, id) && TraceRead(f)
    ensures var r := ParseValue(Between(f, m) + StrField(id)).tree;
            var t := ParseValue(TraceToSend(f, m, id).value).tree;
            && t.Parsed? && t.failed == (if r.IsOk() then None else r.Error())
            && t.children == Elements(f, m) + [r]
            && t.field.value == TraceBefore(f, m) + StrField(id)
  {
    hide ParseValue, ParseItems, StrField, ShortComposite, Fulls, Parsed<Octets>.Error;
    var s, n := TraceBefore(f, m), TraceCount(f, m) - 1;
    BeforeIs(f, m);
    ItemsThen(s, n, Between(f, m) + StrField(id));
    AppendAssoc(Fulls(Elements(f, m)), Between(f, m), StrField(id));
    TraceTree(n + 1, s + StrField(id));
  }

  lemma {:induction false} BeforeIs(f: Found<Octets>, m: Send)
    requires TraceRead(f)
    ensures TraceCount(f, m) == |Elements(f, m)| + 1
    ensures ParseItems(TraceBefore(f, m), |Elements(f, m)|) == ListResult(Elements(f, m), None)
    ensures TraceBefore(f, m) == Fulls(Elements(f, m)) + Between(f, m)
  {
    hide ParseItems, Fulls;
    if f.trace.Some? && !m.resetTrace {
      var t := f.trace.value;
      ItemsAreExact(t.field.value, t.field.count);
    } else {
      NoItems();
    }
  }

  lemma {:induction false} NoItems()
    ensures ParseItems([], 0) == ListResult([], None) && Fulls([]) == []
  {
  }

  lemma {:induction false} TraceTree(count: nat, body: Octets)
    requires Shortable(|body|, count)
    ensures var t, l := ParseValue(TraceEntry(count, body).value).tree, ParseItems(body, count);
            && t.Parsed? && t.failed == l.failed && t.children == l.trees
            && t.field.value == body && t.field.count == count && IsListTag(t.field.tag)
  {
    hide ParseField, ParseItems, ShortComposite;
    var s := ShortComposite(false, count, body);
    FieldOfShort(false, count, body, []);
    assert s + [] == s;
  }

  // ---------------------------------------------------------------- which router it says

  /** The octets start with this text as a string, in the 8-bit or the 32-bit form. */
  predicate Spells(z: Octets, id: Octets)
    requires StrFits(id)
  {
    (|id| < 256 && LeafHeader(STR8, |id|) + id <= z) || LeafHeader(STR32, |id|) + id <= z
  }

  /** That is to say, they are read as this string. */
  lemma {:induction false} ReadsAs(z: Octets, id: Octets)
    requires StrFits(id)
    ensures var r := ParseValue(z).tree; Spells(z, id) <==> r.IsOk() && IsString(r) && r.field.value == id
  {
    hide ParseField, LeafHeader;
    if |id| < 256 && LeafHeader(STR8, |id|) + id <= z { SpelledIsRead(STR8, z, id); }
    if LeafHeader(STR32, |id|) + id <= z { SpelledIsRead(STR32, z, id); }
    if ParseField(z).Ok? { ReadIsSpelled(z); }
  }

  lemma {:induction false} SpelledIsRead(tag: Octet, z: Octets, id: Octets)
    requires StrFits(id) && ((tag == STR8 && |id| < 256) || tag == STR32) && LeafHeader(tag, |id|) + id <= z
    ensures var r := ParseValue(z).tree; r.IsOk() && IsString(r) && r.field.value == id
  {
    hide ParseField, LeafHeader;
    var x := LeafHeader(tag, |id|) + id;
    assert z == x + z[|x|..];
    FieldOfLeaf(tag, id, z[|x|..]);
    assert ParseItems(id, 0) == ListResult([], None);
  }

  lemma {:induction false} ReadIsSpelled(z: Octets)
    requires ParseField(z).Ok?
    ensures var f := ParseField(z).field;
            && (f.tag == STR8 ==> |f.value| < 256 && LeafHeader(STR8, |f.value|) + f.value <= z)
            && (f.tag == STR32 ==> |f.value| < U32 && LeafHeader(STR32, |f.value|) + f.value <= z)
  {
    hide ParseField;
    var f := ParseField(z).field;
    FieldExact(z);
    if f.tag == STR8 || f.tag == STR32 { HeaderIsSpelled(z); }
  }

  lemma {:induction false} HeaderIsSpelled(z: Octets)
    requires ParseField(z).Ok? && (ParseField(z).field.tag == STR8 || ParseField(z).field.tag == STR32)
    ensures var f := ParseField(z).field; var w := SizeWidth(f.tag);
            && |f.value| < (if f.tag == STR8 then 256 else U32) && |z| >= 1 + w + |f.value|
            && z[..1 + w] == LeafHeader(f.tag, |f.value|) && z[1 + w..1 + w + |f.value|] == f.value
  {
    hide ParseField, ParseBody;
    var f := ParseField(z).field;
    var w, n := SizeWidth(f.tag), |f.value|;
    FieldExact(z);
    SizeRead(z);
    assert z[1..][..w] == z[1..1 + w];
    if w == 4 { Be32De32(z[1..5]); }
    assert z[..1 + w] == [z[0]] + z[1..1 + w];
    assert z[..1 + w + n][1 + w..] == z[1 + w..1 + w + n];
  }

  /** The size in the field is the one that its header gives. */
  lemma {:induction false} SizeRead(z: Octets)
    requires ParseField(z).Ok?
    ensures z != [] && |z| >= HeaderLength(z[0]) && ParseField(z).field.size == SizeIn(z) && ParseField(z).field.tag == z[0]
  {
    hide Number, FixedWidth;
  }

  lemma {:induction false} Be32De32(s: Octets)
    requires |s| == 4
    ensures De32(s) < U32 && Be32(De32(s)) == s
  {
    De32Be32(De32(s));
    SameNumber(s, Be32(De32(s)));
  }

  lemma {:induction false} SameNumber(s: Octets, t: Octets)
    requires |s| == |t| == 4 && De32(s) == De32(t)
    ensures s == t
  {
    assert s[0] == t[0] && s[1] == t[1] && s[2] == t[2] && s[3] == t[3];
  }

  // ---------------------------------------------------------------- one hop

  /** One hop, for all flags and all received annotations: the next router reads the elements passed on
      and one more. It is this router if and only if nothing lies between, or what lies there happens to
      spell this router's id. */
  lemma {:induction false} TraceAfterHop(a: Annotations, m: Send, id: Octets)
    requires WellFormed(a) && TraceRead(a.found) && CanSend(a, m, id)
    ensures var z := Between(a.found, m) + StrField(id);
            var r := ParseValue(z).tree;
            && (Forward(a, m, id).Some? <==> m.filterTrace || (r.IsOk() && IsString(r)))
            && (Forward(a, m, id).Some? ==>
                  var g := Forward(a, m, id).value.found;
                  && TraceRead(g)
                  && (m.filterTrace ==> TraceList(g.trace) == [])
                  && (!m.filterTrace ==> TraceList(g.trace) == Passed(a.found, m) + [r.field.value])
                  && (!m.filterTrace ==>
                        (TraceList(g.trace) == Passed(a.found, m) + [id] <==> Between(a.found, m) == [] || Spells(z, id))))
  {
    hide ParseValue, WellFormed, StrField, ParseAnnotations, Section, MapBody, MapCount, IsTrace, Spells, TraceToSend, Fulls,
         TraceBefore, Between;
    var f := a.found;
    var z := Between(f, m) + StrField(id);
    var r := ParseValue(z).tree;
    HopArrives(a, m, id);
    SentTrace(f, m, id);
    ReceivedTrace(false, Section(a, m, id));
    StringsInside(f, m, id);
    ReadsAs(z, id);
    NothingBetween(id);
    if Between(f, m) == [] { assert [] + StrField(id) == StrField(id); }
    ListOfTrace(f, m, r);
    if r.Parsed? { SameEnd(Passed(f, m), r.field.value, id); }
  }

  lemma {:induction false} SameEnd(xs: seq<Octets>, x: Octets, y: Octets)
    ensures xs + [x] == xs + [y] <==> x == y
  {
    assert (xs + [x])[|xs|] == x && (xs + [y])[|xs|] == y;
  }

  /** The trace is acceptable exactly if its last element is. */
  lemma {:induction false} StringsInside(f: Found<Octets>, m: Send, id: Octets)
    requires Fits(f, m, id) && TraceRead(f)
    ensures var r := ParseValue(Between(f, m) + StrField(id)).tree;
            Complaint(Trace, ParseValue(TraceToSend(f, m, id).value).tree) == None <==> r.IsOk() && IsString(r)
  {
    hide ParseValue, StrField, Between, TraceBefore, ParseItems, TraceEntry;
    SentTrace(f, m, id);
    TraceTree(TraceCount(f, m), TraceBefore(f, m) + StrField(id));
    var t, r := ParseValue(TraceToSend(f, m, id).value).tree, ParseValue(Between(f, m) + StrField(id)).tree;
    var n := |t.children| - 1;
    assert t.children[n] == r;
    if r.IsOk() && IsString(r) {
      forall i | 0 <= i < |t.children| ensures IsString(t.children[i]) { if i < n { assert t.children[i] == f.trace.value.children[i]; } }
    }
  }

  lemma {:induction false} NothingBetween(id: Octets)
    requires StrFits(id)
    ensures var r := ParseValue(StrField(id)).tree; r.IsOk() && IsString(r) && r.field.value == id
  {
    hide ParseValue, StrField, TreeOf;
    StrParses(id);
  }

  lemma {:induction false} ListOfTrace(f: Found<Octets>, m: Send, r: Parsed<Octets>)
    requires TraceRead(f)
    ensures ChildValues(Elements(f, m)) == Passed(f, m)
    ensures ChildValues(Elements(f, m) + [r]) == Passed(f, m) + [if r.Parsed? then r.field.value else []]
  {
    ValuesSnoc(Elements(f, m), r);
  }

  lemma {:induction false} ValuesSnoc(ts: seq<Parsed<Octets>>, r: Parsed<Octets>)
    ensures ChildValues(ts + [r]) == ChildValues(ts) + [if r.Parsed? then r.field.value else []]
  {
    if ts == [] {
      assert ts + [r] == [r] && [r][1..] == [];
    } else {
      CutAppend(ts, [r], 1);
      ValuesSnoc(ts[1..], r);
    }
  }

  // ---------------------------------------------------------------- octets behind the elements

  /** A list of one empty string, with the string "x" behind it. */
  const ODD_TRACE: Octets := [0xa1, 0x00, 0xa1, 0x01, 0x78]

  lemma {:induction false} OddTraceIsRead()
    ensures var t := ParseValue(TraceEntry(1, ODD_TRACE).value).tree;
            IsTrace(t) && TraceList(Some(t)) == [[]] && Leftover(t) == [0xa1, 0x01, 0x78]
  {
    hide ParseValue, Encode, TraceEntry, TreeOf;
    var empty, rest := StrField([]), [0xa1, 0x01, 0x78];
    Short();
    assert ODD_TRACE == empty + rest;
    ParseLeaf(StrTerm([]), rest);
    StrParses([]);
    var c := ParseValue(ODD_TRACE).tree;
    OneItem(ODD_TRACE);
    TraceTree(1, ODD_TRACE);
    assert ChildValues([c]) == [[]] by { ValuesSnoc([], c); assert [] + [c] == [c]; }
    assert Fulls([c]) == empty by { assert [c][1..] == [] && empty + [] == empty; OddFull(c); }
  }

  /** How two short strings are written. */
  lemma {:induction false} Short()
    ensures StrField([]) == [0xa1, 0x00] && StrField([0x78]) == [0xa1, 0x01, 0x78]
  {
  }

  lemma {:induction false} OddFull(c: Parsed<Octets>)
    requires c == TreeOf(StrTerm([]))
    ensures c.Parsed? && c.full == StrField([])
  {
  }

  /** After a router that appends its id to this trace, the next one reads "x" in its place. */
  lemma {:induction false} TraceWithLeftover(a: Annotations, m: Send, id: Octets)
    requires WellFormed(a) && CanSend(a, m, id) && !m.filterTrace && !m.resetTrace
    requires a.found.trace == Some(ParseValue(TraceEntry(1, ODD_TRACE).value).tree)
    ensures TraceRead(a.found) && TraceList(a.found.trace) == [[]]
    ensures Forward(a, m, id).Some? && TraceList(Forward(a, m, id).value.found.trace) == [[], [0x78]]
  {
    hide ParseValue, WellFormed, CanSend, Encode, IsTrace, TraceEntry, TreeOf, Leftover, TraceList, Forward;
    OddTraceIsRead();
    Short();
    Sendable(a, m, id);
    TraceAfterHop(a, m, id);
    StrParses([0x78]);
    ParseLeaf(StrTerm([0x78]), StrField(id));
    assert [[]] + [[0x78]] == [[], [0x78]];
  }

  lemma {:induction false} Sendable(a: Annotations, m: Send, id: Octets)
    requires CanSend(a, m, id)
    ensures StrFits(id)
  {
  }

  // ---------------------------------------------------------------- any path

  /** Nothing lies behind the elements of the trace. */
  ghost predicate Tight(f: Found<Octets>) { TraceRead(f) && (f.trace.Some? ==> Leftover(f.trace.value) == []) }

  /** A router that keeps such a trace appends itself, and leaves such a trace. */
  lemma {:induction false} TightHop(a: Annotations, m: Send, id: Octets)
    requires WellFormed(a) && Tight(a.found) && !m.filterTrace && !m.resetTrace && Forward(a, m, id).Some?
    ensures var a' := Forward(a, m, id).value;
            WellFormed(a') && Tight(a'.found) && TraceList(a'.found.trace) == TraceList(a.found.trace) + [id]
  {
    hide ParseValue, StrField, ParseAnnotations, Section, MapBody, MapCount, IsTrace, TraceToSend, Fulls, TraceBefore, UserPairs,
         TraceList, TreeOf;
    var f := a.found;
    TraceAfterHop(a, m, id);
    HopArrives(a, m, id);
    SentTrace(f, m, id);
    BeforeIs(f, m);
    StrParses(id);
    assert [] + StrField(id) == StrField(id) && Fulls(Elements(f, m)) + [] == Fulls(Elements(f, m));
    var r := ParseValue(StrField(id)).tree;
    FullsSnoc(Elements(f, m), r);
    StrFull(id);
  }

  lemma {:induction false} StrFull(id: Octets)
    requires StrFits(id)
    ensures Encodable(StrTerm(id)) && TreeOf(StrTerm(id)).Parsed? && TreeOf(StrTerm(id)).full == StrField(id)
  {
    hide Encode;
  }

  lemma {:induction false} FullsSnoc(ts: seq<Parsed<Octets>>, r: Parsed<Octets>)
    ensures Fulls(ts + [r]) == Fulls(ts) + if r.Parsed? then r.full else []
  {
    if ts == [] {
      assert ts + [r] == [r] && [r][1..] == [];
    } else {
      CutAppend(ts, [r], 1);
      FullsSnoc(ts[1..], r);
    }
  }

  /** Over any path of routers that keep the trace, from any annotations whose trace has nothing behind its
      elements: the trace is what it was, followed by the routers passed, in order. */
  lemma {:induction false} RoutersInOrder(a: Annotations, path: seq<Hop>)
    requires WellFormed(a) && Tight(a.found) && KeepsTrace(path)
    ensures var o := Travel(a, path);
            o.Arrived? ==> Tight(o.annotations.found) && TraceList(o.annotations.found.trace) == TraceList(a.found.trace) + Ids(path)
    decreases |path|
  {
    hide Forward, WellFormed, Tight, TraceList;
    if path == [] {
      assert TraceList(a.found.trace) + [] == TraceList(a.found.trace);
    } else if Route(a, path[0]).Arrived? {
      var h := path[0];
      TightHop(a, h.send, h.id);
      RoutersInOrder(Forward(a, h.send, h.id).value, path[1..]);
      AppendAssoc(TraceList(a.found.trace), [h.id], Ids(path[1..]));
    }
  }
}
