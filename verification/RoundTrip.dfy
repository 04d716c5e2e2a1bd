/** Composing and parsing are inverse to each other, and what the parser says about arbitrary
    octets: it reads nothing outside the field, gives each field exactly the octets it
    consumed, and builds at most one node per octet. */
module RoundTrip {
  import opened Octets
  import opened Amqp
  import opened Parse
  import opened Seqs
  import opened Options

  // ---------------------------------------------------------------- single fields

  lemma {:induction false} FieldOfLeaf(tag: Octet, body: Octets, rest: Octets)
    requires LeafOk(tag, body)
    ensures CountWidth(tag) == 0 && (SizeWidth(tag) == 1 ==> |body| < 0x100) && (SizeWidth(tag) == 4 ==> |body| < U32)
    ensures ParseField((LeafHeader(tag, |body|) + body) + rest) == Ok(Field(tag, |body|, 0, body), rest)
  {
    var w := SizeWidth(tag);
    var h := LeafHeader(tag, |body|);
    var s := (h + body) + rest;
    assert s[0] == tag;
    Tail(h, body, rest);
    if w == 4 { De32Be32(|body|); NumberAt(tag, Be32(|body|), body, rest); }
    BodyOf(tag, |body|, 0, body, rest);
    assert (body + rest)[0..] == body + rest;
  }

  lemma {:induction false} Tail(h: Octets, body: Octets, rest: Octets)
    requires h != []
    ensures var s := (h + body) + rest;
            && s[0] == h[0] && s[1..][|h| - 1..] == body + rest
            && (forall i | 0 <= i < |h| - 1 :: s[1..][i] == h[i + 1])
  {
  }

  lemma {:induction false} NumberAt(tag: Octet, n: Octets, body: Octets, rest: Octets)
    requires |n| == 4
    ensures ((([tag] + n) + body) + rest)[1..][..4] == n
  {
  }

  lemma {:induction false} BodyOf(tag: Octet, size: nat, count: nat, body: Octets, rest: Octets)
    requires !IsMapTag(tag) || count % 2 == 0
    requires CountWidth(tag) + |body| == size
    ensures ParseBody(tag, size, count, body + rest) == Ok(Field(tag, size, count, body), rest)
  {
    assert (body + rest)[..|body|] == body && (body + rest)[|body|..] == rest;
  }

  /** The header of a composite is read back; a map with an odd number of elements fails. */
  lemma {:induction false} FieldOfComposite(isMap: bool, count: nat, body: Octets, rest: Octets)
    requires 4 + |body| < U32 && count < U32
    ensures ParseField((CompositeHeader(isMap, |body|, count) + body) + rest)
         == if isMap && count % 2 == 1 then Err(OddMap)
            else Ok(Field(CompositeTag(isMap), 4 + |body|, count, body), rest)
  {
    var tag := CompositeTag(isMap);
    var x, y := Be32(4 + |body|), Be32(count);
    De32Be32(4 + |body|);
    De32Be32(count);
    CompositeCuts(tag, x, y, body, rest);
    if !(isMap && count % 2 == 1) { BodyOf(tag, 4 + |body|, count, body, rest); }
  }

  lemma {:induction false} CompositeCuts(tag: Octet, x: Octets, y: Octets, body: Octets, rest: Octets)
    requires |x| == 4 && |y| == 4
    ensures var s := (([tag] + x + y) + body) + rest;
            && s[0] == tag && s[1..][..4] == x
            && s[1..][4..] == y + (body + rest)
            && s[1..][4..][..4] == y && s[1..][4..][4..] == body + rest
  {
  }

  // ---------------------------------------------------------------- compose, then parse

  /** The tree that parsing a term's encoding must give. */
  function TreeOf(t: Term): Parsed<Octets>
    requires Encodable(t)
    decreases t, 1
  {
    match t
    case Leaf(tag, body) => Parsed(None, Field(tag, |body|, 0, body), Encode(t), [])
    case Node(isMap, items) =>
      Parsed(None, Field(CompositeTag(isMap), 4 + SizeAll(items), |items|, EncodeAll(items)), Encode(t), TreesOf(items))
  }

  function TreesOf(ts: seq<Term>): (r: seq<Parsed<Octets>>)
    requires AllEncodable(ts)
    ensures |r| == |ts|
    decreases ts, 0
  {
    if ts == [] then [] else [TreeOf(ts[0])] + TreesOf(ts[1..])
  }

  /** Every map in the term has an even number of elements. */
  predicate EvenMaps(t: Term) {
    match t
    case Leaf(_, _) => true
    case Node(isMap, items) => (isMap ==> |items| % 2 == 0) && forall i | 0 <= i < |items| :: EvenMaps(items[i])
  }

  lemma {:induction false} WholeField(s: Octets, rest: Octets)
    ensures (s + rest)[..|s + rest| - |rest|] == s
  {
  }

  lemma {:induction false} ParseLeaf(t: Term, rest: Octets)
    requires Encodable(t) && t.Leaf?
    ensures ParseValue(Encode(t) + rest) == TreeResult(TreeOf(t), rest)
  {
    hide ParseField, Be32;
    FieldOfLeaf(t.tag, t.body, rest);
    WholeField(Encode(t), rest);
    assert ParseItems(t.body, 0) == ListResult([], None);
  }

  function NodeTree(t: Term, l: ListResult): Parsed<Octets>
    requires Encodable(t) && t.Node?
  {
    Parsed(l.failed, Field(CompositeTag(t.isMap), 4 + SizeAll(t.items), |t.items|, EncodeAll(t.items)), Encode(t), l.trees)
  }

  lemma {:induction false} ParseNode(t: Term, rest: Octets, l: ListResult)
    requires Encodable(t) && t.Node? && AllEncodable(t.items) && l == ParseItems(EncodeAll(t.items), |t.items|)
    ensures t.isMap && |t.items| % 2 == 1 ==> ParseValue(Encode(t) + rest).tree == Bad(OddMap)
    ensures !(t.isMap && |t.items| % 2 == 1) ==> ParseValue(Encode(t) + rest) == TreeResult(NodeTree(t, l), rest)
  {
    hide ParseField, ParseItems, Be32;
    CountBelowSize(t.items);
    FieldOfComposite(t.isMap, |t.items|, EncodeAll(t.items), rest);
    WholeField(Encode(t), rest);
  }

  /** Parsing what was composed gives back the composed term, whatever follows it. */
  lemma {:induction false} ParseEncoded(t: Term, rest: Octets)
    requires Encodable(t) && EvenMaps(t)
    ensures ParseValue(Encode(t) + rest) == TreeResult(TreeOf(t), rest)
    decreases t, 1
  {
    match t
    case Leaf(_, _) => ParseLeaf(t, rest);
    case Node(_, items) =>
      ParseAllEncoded(items);
      ParseNode(t, rest, ParseItems(EncodeAll(items), |items|));
  }

  lemma {:induction false} ParseAllEncoded(ts: seq<Term>)
    requires AllEncodable(ts) && forall i | 0 <= i < |ts| :: EvenMaps(ts[i])
    ensures ParseItems(EncodeAll(ts), |ts|) == ListResult(TreesOf(ts), None)
    decreases ts, 0
  {
    if ts != [] {
      ParseEncoded(ts[0], EncodeAll(ts[1..]));
      assert TreeOf(ts[0]).IsOk();
      ParseAllEncoded(ts[1..]);
    }
  }

  /** A map with an odd number of elements, anywhere in the term, makes the parse fail. */
  lemma {:induction false} ParseOdd(t: Term, rest: Octets)
    requires Encodable(t) && !EvenMaps(t)
    ensures ParseValue(Encode(t) + rest).tree.Error() == Some(OddMap)
    decreases t, 1
  {
    var items := t.items;
    if !(t.isMap && |items| % 2 == 1) {
      var i :| 0 <= i < |items| && !EvenMaps(items[i]);
      ParseAllOdd(items, i);
    }
    ParseNode(t, rest, ParseItems(EncodeAll(items), |items|));
  }

  lemma {:induction false} ParseAllOdd(ts: seq<Term>, i: nat)
    requires AllEncodable(ts) && i < |ts| && !EvenMaps(ts[i])
    ensures ParseItems(EncodeAll(ts), |ts|).failed == Some(OddMap)
    decreases ts, 0
  {
    hide ParseValue;
    if EvenMaps(ts[0]) {
      ParseEncoded(ts[0], EncodeAll(ts[1..]));
      assert TreeOf(ts[0]).IsOk();
      ParseAllOdd(ts[1..], i - 1);
    } else {
      ParseOdd(ts[0], EncodeAll(ts[1..]));
    }
  }

  /** Compose then parse succeeds exactly when all maps are even, and then it is the
      identity. */
  lemma {:induction false} ComposeParseIff(t: Term, rest: Octets)
    requires Encodable(t)
    ensures ParseValue(Encode(t) + rest).tree.IsOk() <==> EvenMaps(t)
    ensures EvenMaps(t) ==> ParseValue(Encode(t) + rest) == TreeResult(TreeOf(t), rest)
  {
    if EvenMaps(t) { ParseEncoded(t, rest); } else { ParseOdd(t, rest); }
  }

  /** The term that a tree of written forms came from. */
  function TermOf(t: Parsed<Octets>): Term
    decreases t, 1
  {
    if t.Bad? then Leaf(0, [])
    else if t.field.tag == LIST32 then Node(false, TermsOf(t.children))
    else if t.field.tag == MAP32 then Node(true, TermsOf(t.children))
    else Leaf(t.field.tag, t.field.value)
  }

  function TermsOf(ts: seq<Parsed<Octets>>): seq<Term>
    decreases ts, 0
  {
    if ts == [] then [] else [TermOf(ts[0])] + TermsOf(ts[1..])
  }

  /** No part of a term is lost in the tree. */
  lemma {:induction false} TermOfTree(t: Term)
    requires Encodable(t)
    ensures TermOf(TreeOf(t)) == t
    decreases t, 1
  {
    if t.Node? { TermsOfTrees(t.items); }
  }

  lemma {:induction false} TermsOfTrees(ts: seq<Term>)
    requires AllEncodable(ts)
    ensures TermsOf(TreesOf(ts)) == ts
    decreases ts, 0
  {
    if ts != [] {
      TermOfTree(ts[0]);
      TermsOfTrees(ts[1..]);
      assert TreesOf(ts)[1..] == TreesOf(ts[1..]);
    }
  }

  // ---------------------------------------------------------------- arbitrary octets

  function Nodes(t: Parsed<Octets>): nat
    decreases t, 1
  {
    if t.Bad? then 1 else 1 + NodesAll(t.children)
  }

  function NodesAll(ts: seq<Parsed<Octets>>): nat
    decreases ts, 0
  {
    if ts == [] then 0 else Nodes(ts[0]) + NodesAll(ts[1..])
  }

  /** At most one node per octet, plus one for an error. */
  lemma {:induction false} NodeBound(s: Octets)
    ensures var r := ParseValue(s);
            Nodes(r.tree) <= if r.tree.IsOk() then |s| - |r.rest| else |s| + 1
    decreases |s|, 0
  {
    FieldShrinks(s);
    match ParseField(s)
    case Err(_) =>
    case Ok(f, rest) => NodeBoundAll(f.value, f.count);
  }

  lemma {:induction false} NodeBoundAll(s: Octets, count: nat)
    ensures NodesAll(ParseItems(s, count).trees) <= if ParseItems(s, count).failed == None then |s| else |s| + 1
    decreases |s|, 1
  {
    hide ParseValue;
    if count > 0 {
      NodeBound(s);
      var r := ParseValue(s);
      if r.tree.IsOk() {
        NodeBoundAll(r.rest, count - 1);
        assert ParseItems(s, count).trees[1..] == ParseItems(r.rest, count - 1).trees;
      } else {
        assert ParseItems(s, count).trees[1..] == [];
      }
    }
  }

  /** The octets of the fields in a row. */
  function Fulls(ts: seq<Parsed<Octets>>): Octets {
    if ts == [] then [] else (if ts[0].Parsed? then ts[0].full else []) + Fulls(ts[1..])
  }

  /** A good field is its header followed by its value, its size is that of the value and the
      count field, and its elements are good fields that lie in a row at the start of the
      value. */
  ghost predicate Exact(t: Parsed<Octets>) {
    && t.IsOk()
    && |t.full| == 1 + SizeWidth(t.field.tag) + CountWidth(t.field.tag) + |t.field.value|
    && t.full[|t.full| - |t.field.value|..] == t.field.value
    && t.full[0] == t.field.tag
    && t.field.size == CountWidth(t.field.tag) + |t.field.value|
    && |t.children| == t.field.count
    && (forall i | 0 <= i < |t.children| :: Exact(t.children[i]))
    && Fulls(t.children) <= t.field.value
  }

  lemma {:induction false} FieldExact(s: Octets)
    requires ParseField(s).Ok?
    ensures var f, rest := ParseField(s).field, ParseField(s).rest;
            var n := |s| - |rest|;
            && 0 < n <= |s| && s == s[..n] + rest
            && n == 1 + SizeWidth(f.tag) + CountWidth(f.tag) + |f.value|
            && s[..n][n - |f.value|..] == f.value && s[0] == f.tag
            && f.size == CountWidth(f.tag) + |f.value|
  {
    hide Number, FixedWidth, Subcategory;
    var f, rest := ParseField(s).field, ParseField(s).rest;
    var w, c := SizeWidth(s[0]), CountWidth(s[0]);
    DropTwice(s, 1, w);
    DropTwice(s, 1 + w, c);
    Cuts(s, 1 + w + c, |f.value|);
  }

  lemma {:induction false} Cuts(s: Octets, at: nat, n: nat)
    requires at + n <= |s|
    ensures s[..at + n][at..] == s[at..][..n]
    ensures s == s[..at + n] + s[at..][n..]
  {
  }

  /** The parser consumes exactly the octets of the field it returns. */
  lemma {:induction false} ParseIsExact(s: Octets)
    ensures var r := ParseValue(s);
            r.tree.IsOk() ==> Exact(r.tree) && s == r.tree.full + r.rest
    decreases |s|, 0
  {
    var r := ParseValue(s);
    if r.tree.IsOk() {
      FieldExact(s);
      FieldShrinks(s);
      var f := ParseField(s).field;
      ItemsAreExact(f.value, f.count);
    }
  }

  lemma {:induction false} ItemsAreExact(s: Octets, count: nat)
    ensures var l := ParseItems(s, count);
            l.failed == None ==>
              && |l.trees| == count && Fulls(l.trees) <= s
              && forall i | 0 <= i < |l.trees| :: Exact(l.trees[i])
    decreases |s|, 1
  {
    hide ParseValue;
    var l := ParseItems(s, count);
    if l.failed == None && count > 0 {
      ParseIsExact(s);
      var r := ParseValue(s);
      ItemsAreExact(r.rest, count - 1);
      var l' := ParseItems(r.rest, count - 1);
      assert l.trees[1..] == l'.trees && l.trees[0] == r.tree;
      assert r.tree.full + Fulls(l'.trees) <= r.tree.full + r.rest;
    }
  }

  /** A good field parses the same wherever it stands: only its own octets are read. */
  lemma {:induction false} ParseIsLocal(s: Octets, t: Octets)
    requires ParseValue(s).tree.IsOk()
    ensures var r := ParseValue(s);
            ParseValue(r.tree.full + t) == TreeResult(r.tree, t)
  {
    var r := ParseValue(s);
    FieldExact(s);
    FieldIsLocal(s, t);
    WholeField(r.tree.full, t);
  }

  /** The octets of tag, size and count. */
  function HeaderLength(tag: Octet): nat { 1 + SizeWidth(tag) + CountWidth(tag) }

  function SizeIn(s: Octets): nat
    requires s != [] && |s| >= HeaderLength(s[0])
  {
    if SizeWidth(s[0]) == 0 then FixedWidth(s[0]) else Number(s[1..], SizeWidth(s[0]))
  }

  function CountIn(s: Octets): nat
    requires s != [] && |s| >= HeaderLength(s[0])
  {
    if CountWidth(s[0]) == 0 then 0 else Number(s[1 + SizeWidth(s[0])..], CountWidth(s[0]))
  }

  /** What the header says, and that the rest of the parse is `ParseBody`. */
  lemma {:induction false} AfterHeader(s: Octets)
    requires s != [] && Subcategory(s[0]) >= 4 && |s| >= HeaderLength(s[0])
    ensures ParseField(s) == ParseBody(s[0], SizeIn(s), CountIn(s), s[HeaderLength(s[0])..])
  {
    hide Number, FixedWidth, ParseBody;
    DropTwice(s, 1, SizeWidth(s[0]));
    DropTwice(s, 1 + SizeWidth(s[0]), CountWidth(s[0]));
  }

  lemma {:induction false} FieldIsLocal(s: Octets, t: Octets)
    requires ParseField(s).Ok?
    ensures var r := ParseField(s);
            |r.rest| <= |s| && ParseField(s[..|s| - |r.rest|] + t) == Ok(r.field, t)
  {
    hide Number, FixedWidth, SizeWidth, CountWidth;
    var r := ParseField(s);
    FieldExact(s);
    AfterHeader(s);
    var u := s[..|s| - |r.rest|] + t;
    var h := HeaderLength(s[0]);
    SameHeader(s, u, SizeWidth(s[0]), CountWidth(s[0]));
    AfterHeader(u);
    assert u[h..] == r.field.value + t;
    BodyOf(s[0], r.field.size, r.field.count, r.field.value, t);
  }

  lemma {:induction false} SameHeader(s: Octets, u: Octets, w: nat, c: nat)
    requires s != [] && u != [] && w == SizeWidth(s[0]) && c == CountWidth(s[0])
    requires 1 + w + c <= |s| && 1 + w + c <= |u| && s[..1 + w + c] == u[..1 + w + c]
    ensures u[0] == s[0] && SizeIn(s) == SizeIn(u) && CountIn(s) == CountIn(u)
  {
    hide Number;
    assert s[0] == s[..1 + w + c][0] && u[0] == u[..1 + w + c][0];
    assert s[..1 + w] == s[..1 + w + c][..1 + w] && u[..1 + w] == u[..1 + w + c][..1 + w];
    SameFront(s, u, 1, w);
    SameFront(s, u, 1 + w, c);
  }

  lemma {:induction false} SameFront(s: Octets, u: Octets, at: nat, w: nat)
    requires w == 0 || w == 1 || w == 4
    requires at + w <= |s| && at + w <= |u| && s[..at + w] == u[..at + w]
    ensures w > 0 ==> Number(s[at..], w) == Number(u[at..], w)
  {
    if w > 0 {
      assert s[at..][..w] == s[..at + w][at..];
      assert u[at..][..w] == u[..at + w][at..];
      assert s[at..][0] == s[at..][..w][0] && u[at..][0] == u[at..][..w][0];
    }
  }
}
