/** The parse tree: patterns are normalized, added, looked up and removed one token at a time,
    and values are searched for all patterns that match. Over every run of operations the tree
    is a finite map from normalized patterns to payloads.
 */
module ParseTree {
  import opened Patterns
  import opened PatternSearch
  import opened PatternOrder
  import opened PatternStore
  import opened TokenText
  import opened HashTable
  import opened Seqs
  import opened Options

  const PREFIX_LIMIT: nat := 0x1_0000_0000

  /** The 32-bit prefix counter wraps around. */
  function Bump(n: nat): nat { if n + 1 == PREFIX_LIMIT then 0 else n + 1 }

  datatype AddResult = Added | Invalid | Duplicate

  /** The key under which a pattern string is stored. */
  function KeyOfText(k: Kind, text: string): Pattern {
    if k.Mqtt? then PatternOf(k, text) else Normalize(PatternOf(k, text))
  }

  /** What validation demands: some token, and in MQTT no '#' but the last. */
  predicate Acceptable(k: Kind, p: Pattern) {
    p != [] && (k.Mqtt? ==> forall i | 0 <= i < |p| - 1 :: !p[i].Many?)
  }

  /** Every key of an acceptable pattern string is searched completely. */
  lemma AcceptableKeysAreComplete(k: Kind, text: string)
    requires Acceptable(k, PatternOf(k, text))
    ensures !EndsInTwoGlobs(KeyOfText(k, text))
  {
    NormalizeReachesNormalForm(PatternOf(k, text));
  }

  lemma {:induction false} AcceptableTail(k: Kind, tokens: seq<string>)
    requires tokens != [] && k.Mqtt? && !Classify(k, tokens[0]).Many?
    ensures tokens[1..] != [] ==> (Acceptable(k, ClassifyAll(k, tokens)) <==> Acceptable(k, ClassifyAll(k, tokens[1..])))
    ensures tokens[1..] == [] ==> Acceptable(k, ClassifyAll(k, tokens))
  {
    var p, q := ClassifyAll(k, tokens), ClassifyAll(k, tokens[1..]);
    assert p == [Classify(k, tokens[0])] + q;
    if tokens[1..] != [] && Acceptable(k, q) {
      forall i | 0 <= i < |p| - 1 ensures !p[i].Many? { if i > 0 { assert p[i] == q[i - 1]; } }
    }
    if Acceptable(k, p) {
      forall i | 0 <= i < |q| - 1 ensures !q[i].Many? { assert q[i] == p[i + 1]; }
    }
  }

  /** Check a pattern string before it is added. */
  method ValidatePattern(k: Kind, text: string) returns (valid: bool)
    ensures valid <==> Acceptable(k, PatternOf(k, text))
  {
    var it := IterInit(k, text);
    RestDone(k, text, it);
    if it.Done(text) { return false; }
    if !k.Mqtt? { return true; }
    while !it.Done(text)
      invariant it.Valid(k, text)
      invariant !it.Done(text) ==>
                  (Acceptable(k, ClassifyAll(k, it.Rest(k, text))) <==> Acceptable(k, PatternOf(k, text)))
      invariant it.Done(text) ==> Acceptable(k, PatternOf(k, text))
      decreases |text| - it.begin
    {
      var head := it.Token(k, text);
      ghost var rest := it.Rest(k, text);
      RestDone(k, text, it);
      it := it.Next(k, text);
      RestDone(k, text, it);
      if head == [MATCH_GLOB] {
        GlobLast(k, rest);
        return it.Done(text);
      }
      AcceptableTail(k, rest);
    }
    valid := true;
  }

  lemma GlobLast(k: Kind, tokens: seq<string>)
    requires k.Mqtt? && tokens != [] && tokens[0] == [MATCH_GLOB]
    ensures Acceptable(k, ClassifyAll(k, tokens)) <==> tokens[1..] == []
  {
    var p, q := ClassifyAll(k, tokens), ClassifyAll(k, tokens[1..]);
    assert p == [Many] + q;
    assert p[0].Many?;
    if tokens[1..] != [] { assert |q| > 0; }
  }

  // ---------------------------------------------------------------- the invariant

  /** The literal node at `p` owns its entry in the hash. */
  ghost predicate HandleOk(st: State, bs: Buckets<Id>, p: Pattern)
    requires st.Ok() && p in st.at && p != [] && p[|p| - 1].Lit?
  {
    && st.NodeOk(p) && Init(p) in st.at && st.NodeOk(Init(p))
    && st.nodes[st.at[p]].handle.Some?
    && Refers(bs, st.nodes[st.at[p]].handle.value, HKey(st.Prefix(Init(p)), p[|p| - 1].text))
  }

  ghost predicate HandlesOk(st: State, bs: Buckets<Id>)
    requires st.Ok()
  {
    forall p: Pattern {:trigger HandleOk(st, bs, p)} | p in st.at && p != [] && p[|p| - 1].Lit? :: HandleOk(st, bs, p)
  }

  ghost predicate IdsBelow(st: State, nextId: Id) {
    forall i | i in st.path :: i < nextId
  }

  /** Everything a tree keeps while an operation stands at node `c`, which may be an unmarked
      leaf; the hash table's own invariant is kept apart. */
  ghost predicate Good(st: State, bs: Buckets<Id>, nextId: Id, root: Id, c: Pattern) {
    && st.Ok() && st.Pruned(c) && HandlesOk(st, bs) && IdsBelow(st, nextId)
    && st.at[[]] == root
    && c in st.at && st.at[c] in st.nodes
  }

  /** Only MQTT trees hold patterns that are not in normal form. */
  ghost predicate NormalKeys(k: Kind, view: map<Pattern, nat>) {
    !k.Mqtt? ==> forall p | p in view :: NormalForm(p)
  }

  lemma KeyIsNormal(k: Kind, text: string)
    ensures !k.Mqtt? ==> NormalForm(KeyOfText(k, text))
  {
    NormalizeReachesNormalForm(PatternOf(k, text));
  }

  lemma AddHandles(st: State, p: Pattern, k: Tok, id: Id, h: Option<Handle>, bs: Buckets<Id>, bs': Buckets<Id>)
    requires CanAdd(st, p, k, id, h) && AddNode(st, p, k, id, h).Ok() && HandlesOk(st, bs)
    requires forall g, s | Refers(bs, g, s) :: Refers(bs', g, s)
    requires k.Lit? ==> h.Some? && Refers(bs', h.value, HKey(st.Prefix(p), k.text))
    ensures HandlesOk(AddNode(st, p, k, id, h), bs')
  {
    var st' := AddNode(st, p, k, id, h);
    LastOf(p, k);
    forall q: Pattern | q in st'.at && q != [] && q[|q| - 1].Lit? ensures HandleOk(st', bs', q) {
      assert st'.NodeOk(q);
      assert st'.NodeOk(Init(q));
      AddKeepsPrefix(st, p, k, id, h, Init(q));
      if q == p + [k] {
        assert Init(q) == p != q;
      } else {
        assert HandleOk(st, bs, q);
        assert st.at[q] != st.at[p] || q == p;
      }
    }
  }

  lemma NewNodeKeeps(st: State, p: Pattern, k: Tok, id: Id, h: Option<Handle>, bs: Buckets<Id>, bs': Buckets<Id>, root: Id)
    requires Good(st, bs, id, root, p) && p + [k] !in st.at
    requires forall g, s | Refers(bs, g, s) :: Refers(bs', g, s)
    requires k.Lit? ==> h.Some? && Refers(bs', h.value, HKey(st.Prefix(p), k.text))
    ensures Good(AddNode(st, p, k, id, h), bs', id + 1, root, p + [k])
    ensures AddNode(st, p, k, id, h).Stored() == st.Stored()
  {
    assert id !in st.path && id !in st.nodes;
    assert st.NodeOk(p);
    AddNodeOk(st, p, k, id, h);
    AddStored(st, p, k, id, h);
    AddPrunes(st, p, k, id, h);
    AddHandles(st, p, k, id, h, bs, bs');
    assert p + [k] != [];
  }

  lemma NewStateOk(st: State, bs: Buckets<Id>)
    requires st == State(map[0 := Node(One, false, [], 0, None, None, {}, None, 1, None)], map[[] := 0],
                         map[0 := []], map[], 2)
    ensures Good(st, bs, 1, 0, []) && st.Stored() == map[]
  {
    assert forall k: Tok :: [] + [k] !in st.at;
    assert st.NodeOk([]) by { assert forall m | m in st.path :: !IsLitChild([], st.path[m]); }
    assert st.HashOk([]) by {
      forall s: string ensures st.HashChild([], s) == st.Child([], Lit(s)) { }
    }
    assert forall p | p in st.at :: p == [];
    assert forall p | p in st.at :: st.NodeOk(p) && st.HashOk(p);
  }

  lemma KeyOwner(st: State, bs: Buckets<Id>, p: Pattern, q: Pattern)
    requires st.Ok() && HandlesOk(st, bs)
    requires p in st.at && p != [] && p[|p| - 1].Lit? && q in st.at && q != [] && q[|q| - 1].Lit?
    requires HandleOk(st, bs, p) && HandleOk(st, bs, q)
    requires st.nodes[st.at[p]].handle == st.nodes[st.at[q]].handle
    ensures p == q
  {
    HKeyInjective(st.Prefix(Init(p)), p[|p| - 1].text, st.Prefix(Init(q)), q[|q| - 1].text);
    SplitLast(p);
    SplitLast(q);
  }

  /** Freeing a literal node removes its hash entry and no other. */
  ghost predicate EntryGone(st: State, p: Pattern, bs: Buckets<Id>, bs': Buckets<Id>)
    requires p != [] && p in st.at && st.at[p] in st.nodes
  {
    forall g, s | Refers(bs, g, s) && (p[|p| - 1].Lit? ==> Some(g) != st.nodes[st.at[p]].handle) :: Refers(bs', g, s)
  }

  lemma RemoveHandles(st: State, p: Pattern, bs: Buckets<Id>, bs': Buckets<Id>)
    requires CanRemove(st, p) && RemoveNode(st, p).Ok() && HandlesOk(st, bs) && EntryGone(st, p, bs, bs')
    ensures HandlesOk(RemoveNode(st, p), bs')
  {
    var st' := RemoveNode(st, p);
    forall q: Pattern | q in st'.at && q != [] && q[|q| - 1].Lit? ensures HandleOk(st', bs', q) {
      assert st'.NodeOk(q);
      assert st'.NodeOk(Init(q));
      assert HandleOk(st, bs, q);
      assert st.NodeOk(q) && st.NodeOk(Init(q));
      RemoveKeepsPrefix(st, p, Init(q));
      assert q != Init(p) ==> st.at[q] != st.at[Init(p)];
      if p[|p| - 1].Lit? {
        assert HandleOk(st, bs, p);
        if st.nodes[st.at[q]].handle == st.nodes[st.at[p]].handle { KeyOwner(st, bs, p, q); }
      }
    }
  }

  lemma RemoveNodeKeeps(st: State, p: Pattern, bs: Buckets<Id>, bs': Buckets<Id>, nextId: Id, root: Id)
    requires Good(st, bs, nextId, root, p) && CanRemove(st, p) && !st.nodes[st.at[p]].end && EntryGone(st, p, bs, bs')
    ensures Good(RemoveNode(st, p), bs', nextId, root, Init(p))
    ensures RemoveNode(st, p).Stored() == st.Stored()
  {
    RemoveNodeOk(st, p);
    RemoveStored(st, p);
    RemovePrunes(st, p);
    RemoveHandles(st, p, bs, bs');
  }

  lemma MarkHandles(st: State, p: Pattern, end: bool, payload: nat, bs: Buckets<Id>)
    requires st.Ok() && p in st.at && p != [] && st.NodeOk(p) && MarkNode(st, p, end, payload).Ok() && HandlesOk(st, bs)
    ensures HandlesOk(MarkNode(st, p, end, payload), bs)
  {
    var st' := MarkNode(st, p, end, payload);
    forall q: Pattern | q in st'.at && q != [] && q[|q| - 1].Lit? ensures HandleOk(st', bs, q) {
      assert HandleOk(st, bs, q);
      MarkKeepsNodes(st, p, end, payload, q);
      MarkKeepsNodes(st, p, end, payload, Init(q));
    }
  }

  lemma MarkNodeKeeps(st: State, p: Pattern, end: bool, payload: nat, bs: Buckets<Id>, nextId: Id, root: Id, m: map<Pattern, nat>)
    requires Good(st, bs, nextId, root, if end then p else [])
    requires p in st.at && p != [] && st.NodeOk(p)
    requires m == if end then st.Stored()[p := payload] else st.Stored() - {p}
    ensures Good(MarkNode(st, p, end, payload), bs, nextId, root, if end then [] else p)
    ensures MarkNode(st, p, end, payload).Stored() == m
  {
    assert st.NodeOk([]);
    MarkNodeOk(st, p, end, payload);
    MarkStored(st, p, end, payload, m);
    MarkPrunes(st, p, end, payload);
    MarkHandles(st, p, end, payload, bs);
  }

  /** Standing at a node that needs no exception, an operation may stand anywhere. */
  lemma MoveTo(st: State, bs: Buckets<Id>, nextId: Id, root: Id, c: Pattern, d: Pattern)
    requires Good(st, bs, nextId, root, c) && st.NodeOk(c) && d in st.at && st.at[d] in st.nodes
    requires c == [] || !st.Childless(c) || st.nodes[st.at[c]].end
    ensures Good(st, bs, nextId, root, d)
  {
    NoException(st, c, d);
  }

  /** Below a missing node everything is missing. */
  lemma {:induction false} MissingBelow(st: State, c: Pattern, r: Pattern)
    requires st.Ok() && c !in st.at
    ensures c + r !in st.at
  {
    if r == [] {
      assert c + r == c;
    } else {
      var q := c + r;
      MissingBelow(st, c, r[..|r| - 1]);
      assert q[..|q| - 1] == c + r[..|r| - 1];
      if q in st.at { ParentInTree(st, q); }
    }
  }

  /** Taking one token off the rest of a pattern string. */
  lemma NextToken(k: Kind, text: string, it: TokenIter, c: Pattern)
    requires it.Valid(k, text) && !it.Done(text)
    ensures var t := Classify(k, it.Token(k, text));
            && ClassifyAll(k, it.Rest(k, text)) == [t] + ClassifyAll(k, it.Next(k, text).Rest(k, text))
            && c + ClassifyAll(k, it.Rest(k, text)) == (c + [t]) + ClassifyAll(k, it.Next(k, text).Rest(k, text))
  {
    RestDone(k, text, it);
    var t := Classify(k, it.Token(k, text));
    AppendAssoc(c, [t], ClassifyAll(k, it.Next(k, text).Rest(k, text)));
  }

  lemma NoTokens(k: Kind, text: string, it: TokenIter, c: Pattern)
    requires it.Valid(k, text) && it.Done(text)
    ensures c + ClassifyAll(k, it.Rest(k, text)) == c
  {
    RestDone(k, text, it);
  }

  /** The shape of the tree and its nodes agree. */
  lemma ShapeChild(st: State, c: Pattern, k: Tok)
    requires st.Ok() && c in st.at
    ensures st.NodeOk(c) && c in st.ShapeOf().nodes
    ensures c + [k] in st.ShapeOf().nodes <==> st.Child(c, k).Some?
    ensures c in st.ShapeOf().ends <==> st.nodes[st.at[c]].end
    ensures k.Lit? && st.Child(c, k).Some? ==> st.nodes[st.at[c]].kids != {}
  {
    assert st.NodeOk(c);
    if k.Lit? && st.Child(c, k).Some? {
      LastOf(c, k);
      assert st.NodeOk(c + [k]);
      var m := st.at[c + [k]];
      assert m in st.path && IsLitChild(c, st.path[m]);
      assert m in st.nodes[st.at[c]].kids;
    }
  }

  lemma DeliverFew(log: seq<Pattern>, p: Pattern, go: seq<Pattern> -> bool)
    ensures Deliver(log, [], go) == (log, true)
    ensures Deliver(log, [p], go) == (log + [p], go(log + [p]))
  {
    assert [p][1..] == [];
  }

  lemma BestIsStored(ends: set<Pattern>, v: Value, p: Pattern)
    requires Best(ends, v, p)
    ensures p in ends
  {
  }

  lemma NormalKeysAreComplete(k: Kind, view: map<Pattern, nat>)
    requires NormalKeys(k, view) && !k.Mqtt?
    ensures forall p | p in view :: !EndsInTwoGlobs(p)
  {
  }

  lemma FirstOnly(s: seq<Pattern>, go: seq<Pattern> -> bool)
    requires forall log :: !go(log)
    ensures Deliver([], s, go).0 == if s == [] then [] else [s[0]]
  {
  }

  /** What a callback has seen: the patterns in order, and the payload that came last. */
  datatype Log = Log(reports: seq<Pattern>, payload: nat)

  lemma NodeAndParent(st: State, bs: Buckets<Id>, c: Pattern)
    requires st.Ok() && HandlesOk(st, bs) && c in st.at && c != []
    ensures st.NodeOk(c) && Init(c) in st.at && st.NodeOk(Init(c))
    ensures c[|c| - 1].Lit? ==> HandleOk(st, bs, c)
  {
    assert st.NodeOk(c) && st.NodeOk(Init(c));
    if c[|c| - 1].Lit? { assert HandleOk(st, bs, c); }
  }

  class Tree {
    const kind: Kind
    const root: Id
    const hash: Table<Id>
    var nodes: map<Id, Node>
    var nextPrefix: nat
    var nextId: Id
    ghost var at: map<Pattern, Id>
    ghost var path: map<Id, Pattern>

    ghost function St(): State
      reads this, hash
    {
      State(nodes, at, path, hash.View, nextPrefix)
    }

    ghost predicate ValidAt(c: Pattern)
      reads this, hash
    {
      hash.Valid() && nextPrefix < PREFIX_LIMIT && Good(St(), hash.buckets, nextId, root, c)
    }

    /** The tree as a map. */
    ghost function View(): map<Pattern, nat>
      reads this, hash
      requires St().Ok()
    {
      St().Stored()
    }

    ghost predicate Valid()
      reads this, hash
    {
      ValidAt([]) && NormalKeys(kind, View())
    }

    constructor (kind: Kind)
      ensures Valid() && View() == map[]
      ensures this.kind == kind && nextPrefix == 2 && fresh(hash)
    {
      this.kind := kind;
      root := 0;
      hash := new Table(10);
      nodes := map[0 := Node(One, false, [], 0, None, None, {}, None, 1, None)];
      nextPrefix, nextId := 2, 1;
      at, path := map[[] := 0], map[0 := []];
      new;
      NewStateOk(St(), hash.buckets);
    }

    method FindChild(id: Id, token: string, ghost c: Pattern) returns (r: Option<Id>)
      requires hash.Valid() && St().Ok() && c in at && at[c] == id && id in nodes
      ensures r == St().Child(c, Lit(token))
    {
      r := hash.Retrieve(HKey(nodes[id].prefix, token));
      assert St().NodeOk(c) && St().HashOk(c);
      assert St().HashChild(c, token) == St().Child(c, Lit(token));
    }

    /** Enter a new literal node in the hash under its parent's prefix. */
    method EnterKey(id: Id, k: Tok, child: Id, ghost c: Pattern, ghost st: State) returns (h: Option<Handle>)
      requires hash.Valid() && st == St() && st.Ok() && c in st.at && st.at[c] == id && id in nodes && c + [k] !in st.at
      modifies hash
      ensures hash.Valid()
      ensures hash.View == if k.Lit? then old(hash.View)[HKey(nodes[id].prefix, k.text) := child] else old(hash.View)
      ensures k.Lit? ==> h.Some? && Refers(hash.buckets, h.value, HKey(nodes[id].prefix, k.text))
      ensures forall g, s | Refers(old(hash.buckets), g, s) :: Refers(hash.buckets, g, s)
    {
      h := None;
      if k.Lit? {
        assert st.NodeOk(c) && st.HashOk(c);
        assert st.HashChild(c, k.text) == st.Child(c, k);
        var r := hash.Insert(HKey(nodes[id].prefix, k.text), child);
        h := Some(r.handle);
      }
    }

    /** Create the child of a node for a token that has none. */
    method NewNode(id: Id, k: Tok, ghost c: Pattern) returns (child: Id)
      requires ValidAt(c) && at[c] == id && c + [k] !in at
      requires nextPrefix + 1 < PREFIX_LIMIT
      modifies this, hash
      ensures ValidAt(c + [k]) && at[c + [k]] == child
      ensures View() == old(View()) && nextPrefix == old(nextPrefix) + 1
    {
      hide State.PathsOk, State.NodesOk, State.HashesOk, State.PrefixesOk, State.UnusedOk, State.Pruned,
           State.Stored, HandlesOk, Attach, Table.Valid;
      child := nextId;
      ghost var st, bs := St(), hash.buckets;
      var h := EnterKey(id, k, child, c, st);
      NewNodeKeeps(st, c, k, child, h, bs, hash.buckets, root);
      ghost var st' := AddNode(st, c, k, child, h);
      nodes := Attach(nodes, id, k, child, nextPrefix, h);
      nextPrefix, nextId := Bump(nextPrefix), nextId + 1;
      at, path := st'.at, st'.path;
      assert St() == st';
    }

    /** The child of a node for a token: the wildcard pointers, or the hash. */
    method ChildOf(id: Id, k: Tok, ghost c: Pattern) returns (r: Option<Id>)
      requires hash.Valid() && St().Ok() && c in at && at[c] == id && id in nodes
      ensures r == St().Child(c, k)
    {
      assert St().NodeOk(c);
      match k {
        case One => r := nodes[id].one;
        case Many => r := nodes[id].glob;
        case Lit(s) => r := FindChild(id, s, c);
      }
    }

    /** Go down one token, adding the node if it is missing. */
    method Descend(id: Id, k: Tok, ghost c: Pattern) returns (child: Id)
      requires ValidAt(c) && at[c] == id && nextPrefix + 1 < PREFIX_LIMIT
      modifies this, hash
      ensures ValidAt(c + [k]) && at[c + [k]] == child
      ensures View() == old(View()) && old(nextPrefix) <= nextPrefix <= old(nextPrefix) + 1
    {
      var r := ChildOf(id, k, c);
      if r.None? {
        child := NewNode(id, k, c);
      } else {
        child := r.value;
        ghost var st := St();
        assert st.NodeOk(c) && st.NodeOk(c + [k]);
        ChildlessHasNoChild(st, c, k);
        MoveTo(st, hash.buckets, nextId, root, c, c + [k]);
      }
    }

    /** Put or clear the mark of the node at `c`. */
    method SetMark(id: Id, end: bool, payload: nat, c: Pattern)
      requires ValidAt(if end then c else []) && c in at && at[c] == id && c != []
      modifies this
      ensures ValidAt(if end then [] else c) && c in at && at[c] == id
      ensures View() == if end then old(View())[c := payload] else old(View()) - {c}
      ensures nextPrefix == old(nextPrefix)
    {
      ghost var st := St();
      assert st.NodeOk(c);
      ghost var m := if end then st.Stored()[c := payload] else st.Stored() - {c};
      MarkNodeKeeps(st, c, end, payload, hash.buckets, nextId, root, m);
      nodes := Mark(nodes, id, end, c, payload);
      assert St() == MarkNode(st, c, end, payload);
    }

    /** Add a pattern string with its payload. The string is rewritten in place; a duplicate
        or an empty pattern changes nothing. The prefix counter must not wrap around on the
        way. */
    method AddPattern(a: array<char>, n: nat, payload: nat) returns (r: AddResult)
      requires Valid() && n <= a.Length
      requires nextPrefix + |KeyOfText(kind, a[..n])| < PREFIX_LIMIT
      modifies this, hash, a
      ensures Valid()
      ensures var key := KeyOfText(kind, old(a[..n]));
              && r == (if key == [] then Invalid else if key in old(View()) then Duplicate else Added)
              && View() == (if r.Added? then old(View())[key := payload] else old(View()))
    {
      ghost var key := KeyOfText(kind, a[..n]);
      KeyIsNormal(kind, a[..n]);
      var m, _ := NormalizePattern(kind, a, n);
      var text := a[..m];
      var cur := WalkAdding(text, key);
      ghost var st := St();
      assert st.NodeOk(key);
      StoredAt(st, key);
      assert st.NodeOk([]);
      if cur == root {
        r := Invalid;
        assert st.path[root] == [];
      } else if nodes[cur].end {
        r := Duplicate;
        MoveTo(st, hash.buckets, nextId, root, key, []);
      } else {
        r := Added;
        SetMark(cur, true, payload, PatternOf(kind, text));
      }
    }

    /** Walk a normalized pattern string down the tree, adding nodes where they are missing. */
    method WalkAdding(text: string, ghost key: Pattern) returns (cur: Id)
      requires ValidAt([]) && key == PatternOf(kind, text) && nextPrefix + |key| < PREFIX_LIMIT
      modifies this, hash
      ensures ValidAt(key) && at[key] == cur && View() == old(View())
    {
      var it := IterInit(kind, text);
      cur := root;
      ghost var c: Pattern := [];
      assert c + ClassifyAll(kind, it.Rest(kind, text)) == key;
      while !it.Done(text)
        invariant it.Valid(kind, text)
        invariant ValidAt(c) && at[c] == cur && View() == old(View())
        invariant c + ClassifyAll(kind, it.Rest(kind, text)) == key
        invariant nextPrefix + |ClassifyAll(kind, it.Rest(kind, text))| < PREFIX_LIMIT
        decreases |text| - it.begin
      {
        var k := Classify(kind, it.Token(kind, text));
        NextToken(kind, text, it, c);
        cur := Descend(cur, k, c);
        c := c + [k];
        it := it.Next(kind, text);
      }
      NoTokens(kind, text, it, c);
    }

    /** Walk a normalized pattern string down the tree. */
    method Walk(text: string, ghost key: Pattern) returns (cur: Option<Id>)
      requires ValidAt([]) && key == PatternOf(kind, text)
      ensures cur == if key in at then Some(at[key]) else None
    {
      var it := IterInit(kind, text);
      cur := Some(root);
      ghost var c: Pattern := [];
      ghost var st := St();
      assert c + ClassifyAll(kind, it.Rest(kind, text)) == key;
      while cur.Some? && !it.Done(text)
        invariant it.Valid(kind, text)
        invariant cur.Some? ==> c in at && at[c] == cur.value && c + ClassifyAll(kind, it.Rest(kind, text)) == key
        invariant cur.None? ==> key !in at
        decreases cur.Some?, |text| - it.begin
      {
        var k := Classify(kind, it.Token(kind, text));
        NextToken(kind, text, it, c);
        assert st.NodeOk(c);
        cur := ChildOf(cur.value, k, c);
        c := c + [k];
        it := it.Next(kind, text);
        if cur.None? { MissingBelow(st, c, ClassifyAll(kind, it.Rest(kind, text))); }
      }
      if cur.Some? { NoTokens(kind, text, it, c); }
    }

    /** Look a pattern string up; the string is rewritten in place. */
    method GetPattern(a: array<char>, n: nat) returns (found: Option<Id>)
      requires Valid() && n <= a.Length
      modifies a
      ensures Valid() && View() == old(View())
      ensures var key := KeyOfText(kind, old(a[..n]));
              && (found.Some? <==> key in View())
              && (found.Some? ==> key in at && at[key] == found.value && found.value in nodes
                                  && nodes[found.value].payload == View()[key])
    {
      ghost var key := KeyOfText(kind, a[..n]);
      var m, _ := NormalizePattern(kind, a, n);
      found := Walk(a[..m], key);
      StoredAt(St(), key);
      if found.Some? {
        assert St().NodeOk(key);
        if !nodes[found.value].end { found := None; }
      }
    }

    /** Free a childless, unmarked node: unlink it from its parent and drop its hash entry. */
    method FreeLeaf(id: Id, ghost c: Pattern) returns (parent: Id)
      requires ValidAt(c) && at[c] == id && c != [] && !nodes[id].end && St().Childless(c)
      modifies this, hash
      ensures c[..|c| - 1] in at && ValidAt(Init(c)) && at[Init(c)] == parent
      ensures View() == old(View()) && |at| < |old(at)|
    {
      hide State.PathsOk, State.NodesOk, State.HashesOk, State.PrefixesOk, State.UnusedOk, State.Pruned,
           State.Stored, HandlesOk;
      ghost var st, bs := St(), hash.buckets;
      NodeAndParent(st, bs, c);
      parent := nodes[id].parent.value;
      var k := nodes[id].tok;
      if k.Lit? {
        var gone := hash.RemoveByHandle(nodes[id].handle.value);
      }
      RemoveNodeKeeps(st, c, bs, hash.buckets, nextId, root);
      nodes := Detach(nodes, parent, k, id);
      ghost var st' := RemoveNode(st, c);
      at, path := st'.at, st'.path;
      assert St() == st';
    }

    /** Remove a pattern: returns its payload and prunes the nodes that no longer lead to a
        pattern. */
    method RemovePattern(a: array<char>, n: nat) returns (payload: Option<nat>)
      requires Valid() && n <= a.Length
      modifies this, hash, a
      ensures Valid()
      ensures var key := KeyOfText(kind, old(a[..n]));
              && payload == (if key in old(View()) then Some(old(View())[key]) else None)
              && View() == old(View()) - {key}
    {
      ghost var key := KeyOfText(kind, a[..n]);
      var found := GetPattern(a, n);
      if found.None? {
        assert View() - {key} == View();
        return None;
      }
      var cur := found.value;
      payload := Some(nodes[cur].payload);
      ghost var c := key;
      StoredAt(St(), key);
      assert St().NodeOk([]);
      SetMark(cur, false, 0, nodes[cur].pattern);
      Prune(cur, key);
    }

    /** Free nodes upwards from `cur` while they lead nowhere. */
    method Prune(start: Id, ghost key: Pattern)
      requires ValidAt(key) && at[key] == start
      modifies this, hash
      ensures ValidAt([]) && View() == old(View())
    {
      var cur := start;
      ghost var c := key;
      while nodes[cur].parent.Some? && !nodes[cur].end
            && nodes[cur].one.None? && nodes[cur].glob.None? && nodes[cur].kids == {}
        invariant ValidAt(c) && at[c] == cur && View() == old(View())
        decreases |at|
      {
        assert St().NodeOk(c);
        cur := FreeLeaf(cur, c);
        c := Init(c);
      }
      assert St().NodeOk(c) && St().NodeOk([]);
      MoveTo(St(), hash.buckets, nextId, root, c, []);
    }

    ghost predicate Searchable(id: Id, c: Pattern)
      reads this, hash
    {
      hash.Valid() && St().Ok() && c in at && at[c] == id && id in nodes
    }

    ghost predicate Latest(log: Log)
      reads this, hash
      requires St().Ok()
    {
      if log.reports == [] then log.payload == 0
      else var p := log.reports[|log.reports| - 1]; p in View() && View()[p] == log.payload
    }

    /** Report a node if the value is used up and a pattern ends here. */
    method ReportHere(id: Id, done: bool, log: Log, go: seq<Pattern> -> bool, ghost v: Value, ghost c: Pattern)
      returns (log': Log, more: bool)
      requires Searchable(id, c) && Latest(log) && (done <==> v == [])
      ensures Latest(log')
      ensures (log'.reports, more) == Deliver(log.reports, Here(St().ShapeOf(), c, v), go)
    {
      ShapeChild(St(), c, One);
      DeliverFew(log.reports, c, go);
      if done && nodes[id].end {
        log' := Log(log.reports + [nodes[id].pattern], nodes[id].payload);
        more := go(log'.reports);
        StoredAt(St(), c);
      } else {
        return log, true;
      }
    }

    /** Search the sub-trees of a node: literal child, then '*', then '#'. Answers false to
        stop. */
    method FindChildren(text: string, id: Id, value: TokenIter, log: Log, go: seq<Pattern> -> bool, ghost c: Pattern)
      returns (log': Log, more: bool)
      requires Searchable(id, c) && Latest(log) && value.Valid(kind, text)
      ensures Latest(log')
      ensures (log'.reports, more) == Deliver(log.reports, Below(St().ShapeOf(), c, value.Rest(kind, text)), go)
      decreases Height(at.Keys) - |c|, 1
    {
      ghost var t, v := St().ShapeOf(), value.Rest(kind, text);
      ghost var a, b, d := LitPart(t, c, v), OnePart(t, c, v), ManyPart(t, c, v);
      RestDone(kind, text, value);
      DeliverAppend(log.reports, a, b + d, go);
      log', more := TryLit(text, id, value, log, go, c);
      if !more { return; }
      DeliverAppend(log'.reports, b, d, go);
      log', more := TryOne(text, id, value, log', go, c);
      if !more { return; }
      log', more := TryMany(text, id, value, log', go, c);
    }

    method TryLit(text: string, id: Id, value: TokenIter, log: Log, go: seq<Pattern> -> bool, ghost c: Pattern)
      returns (log': Log, more: bool)
      requires Searchable(id, c) && Latest(log) && value.Valid(kind, text)
      ensures Latest(log')
      ensures (log'.reports, more) == Deliver(log.reports, LitPart(St().ShapeOf(), c, value.Rest(kind, text)), go)
      decreases Height(at.Keys) - |c|, 0
    {
      DeliverFew(log.reports, c, go);
      RestDone(kind, text, value);
      log', more := log, true;
      if !value.Done(text) {
        var token := value.Token(kind, text);
        ShapeChild(St(), c, Lit(token));
        if nodes[id].kids != {} {
          var child := FindChild(id, token, c);
          if child.Some? {
            assert St().NodeOk(c + [Lit(token)]);
            log', more := FindToken(text, child.value, value.Next(kind, text), log, go, c + [Lit(token)]);
          }
        }
      }
    }

    method TryOne(text: string, id: Id, value: TokenIter, log: Log, go: seq<Pattern> -> bool, ghost c: Pattern)
      returns (log': Log, more: bool)
      requires Searchable(id, c) && Latest(log) && value.Valid(kind, text)
      ensures Latest(log')
      ensures (log'.reports, more) == Deliver(log.reports, OnePart(St().ShapeOf(), c, value.Rest(kind, text)), go)
      decreases Height(at.Keys) - |c|, 0
    {
      DeliverFew(log.reports, c, go);
      RestDone(kind, text, value);
      ShapeChild(St(), c, One);
      log', more := log, true;
      if !value.Done(text) && nodes[id].one.Some? {
        assert St().NodeOk(c + [One]);
        log', more := MatchOneToken(text, nodes[id].one.value, value, log, go, c + [One]);
      }
    }

    method TryMany(text: string, id: Id, value: TokenIter, log: Log, go: seq<Pattern> -> bool, ghost c: Pattern)
      returns (log': Log, more: bool)
      requires Searchable(id, c) && Latest(log) && value.Valid(kind, text)
      ensures Latest(log')
      ensures (log'.reports, more) == Deliver(log.reports, ManyPart(St().ShapeOf(), c, value.Rest(kind, text)), go)
      decreases Height(at.Keys) - |c|, 0
    {
      DeliverFew(log.reports, c, go);
      ShapeChild(St(), c, Many);
      log', more := log, true;
      if nodes[id].glob.Some? {
        assert St().NodeOk(c + [Many]);
        log', more := MatchGlob(text, nodes[id].glob.value, value, log, go, c + [Many]);
      }
    }

    /** A literal node, which has already taken its token. */
    method FindToken(text: string, id: Id, value: TokenIter, log: Log, go: seq<Pattern> -> bool, ghost c: Pattern)
      returns (log': Log, more: bool)
      requires Searchable(id, c) && Latest(log) && value.Valid(kind, text)
      ensures Latest(log')
      ensures (log'.reports, more) == Deliver(log.reports, VisitLit(St().ShapeOf(), c, value.Rest(kind, text)), go)
      decreases Height(at.Keys) - |c|, 2
    {
      ghost var t, v := St().ShapeOf(), value.Rest(kind, text);
      RestDone(kind, text, value);
      DeliverAppend(log.reports, Here(t, c, v), Below(t, c, v), go);
      log', more := ReportHere(id, value.Done(text), log, go, v, c);
      if more { log', more := FindChildren(text, id, value, log', go, c); }
    }

    /** A '*' node: takes exactly one token. */
    method MatchOneToken(text: string, id: Id, value: TokenIter, log: Log, go: seq<Pattern> -> bool, ghost c: Pattern)
      returns (log': Log, more: bool)
      requires Searchable(id, c) && Latest(log) && value.Valid(kind, text)
      ensures Latest(log')
      ensures (log'.reports, more) == Deliver(log.reports, VisitOne(St().ShapeOf(), c, value.Rest(kind, text)), go)
      decreases Height(at.Keys) - |c|, 2
    {
      DeliverFew(log.reports, c, go);
      RestDone(kind, text, value);
      if value.Done(text) { return log, true; }
      var next := value.Next(kind, text);
      ghost var t, v := St().ShapeOf(), next.Rest(kind, text);
      RestDone(kind, text, next);
      DeliverAppend(log.reports, Here(t, c, v), Below(t, c, v), go);
      log', more := ReportHere(id, next.Done(text), log, go, v, c);
      if more { log', more := FindChildren(text, id, next, log', go, c); }
    }

    /** A '#' node: tries its children on every non-empty rest of the value, then itself. */
    method MatchGlob(text: string, id: Id, value: TokenIter, log: Log, go: seq<Pattern> -> bool, ghost c: Pattern)
      returns (log': Log, more: bool)
      requires Searchable(id, c) && Latest(log) && value.Valid(kind, text)
      ensures Latest(log')
      ensures (log'.reports, more) == Deliver(log.reports, VisitMany(St().ShapeOf(), c, value.Rest(kind, text)), go)
      decreases Height(at.Keys) - |c|, 2
    {
      ghost var t := St().ShapeOf();
      ghost var goal := Deliver(log.reports, VisitMany(t, c, value.Rest(kind, text)), go);
      var it := value;
      log', more := log, true;
      while !it.Done(text)
        invariant it.Valid(kind, text) && Latest(log')
        invariant Deliver(log'.reports, VisitMany(t, c, it.Rest(kind, text)), go) == goal
        decreases |text| - it.begin
      {
        ghost var v := it.Rest(kind, text);
        RestDone(kind, text, it);
        DeliverAppend(log'.reports, Below(t, c, v), VisitMany(t, c, v[1..]), go);
        log', more := FindChildren(text, id, it, log', go, c);
        if !more { return; }
        it := it.Next(kind, text);
      }
      RestDone(kind, text, it);
      log', more := ReportHere(id, true, log', go, [], c);
    }

    /** Report every stored pattern that matches a value, until the callback says stop. The
        tree is searched through its pointers and its hash; the reports are those of the
        search on the tree's shape, cut short where the callback stops. */
    method SearchText(text: string, go: seq<Pattern> -> bool) returns (log: Log)
      requires Valid()
      ensures Latest(log)
      ensures St().ShapeOf().Valid() && St().ShapeOf().ends == View().Keys
      ensures log.reports == Deliver([], PatternSearch.Search(St().ShapeOf(), Tokens(kind, text)), go).0
    {
      ShapeIsValid(St());
      var more;
      log, more := FindChildren(text, root, IterInit(kind, text), Log([], 0), go, []);
    }

    /** The payload of the best match: found exactly when a stored pattern is reported and the best
        report has a payload. No other stored pattern beats it or comes first. A report is a match, and a match is reported unless its pattern ends
        in two globs, which only unvalidated patterns of MQTT trees do. */
    method RetrieveMatch(text: string) returns (found: bool, payload: nat, ghost best: Pattern)
      requires Valid()
      ensures found <==> payload != 0
      ensures (forall p | p in View() :: Reports(p, Tokens(kind, text)) == 0) ==> !found
      ensures (exists p :: p in View() && Reports(p, Tokens(kind, text)) > 0) ==>
                Best(View().Keys, Tokens(kind, text), best) && best in View() && View()[best] == payload
      ensures forall p | p in View() && !EndsInTwoGlobs(p) :: Reports(p, Tokens(kind, text)) > 0 <==> Matches(p, Tokens(kind, text))
      ensures !kind.Mqtt? ==> forall p | p in View() :: !EndsInTwoGlobs(p)
    {
      hide Reports, Matches, EndsInTwoGlobs, Best, PatternSearch.Search, NormalKeys, State.Ok;
      if !kind.Mqtt? { NormalKeysAreComplete(kind, View()); }
      var go := (log: seq<Pattern>) => false;
      var log := SearchText(text, go);
      ghost var s := PatternSearch.Search(St().ShapeOf(), Tokens(kind, text));
      FirstIsBest(St().ShapeOf(), Tokens(kind, text));
      MatchesAreReported(Tokens(kind, text));
      if s != [] { BestIsStored(St().ShapeOf().ends, Tokens(kind, text), s[0]); }
      payload := log.payload;
      found := payload != 0;
      best := if s == [] then [] else s[0];
      FirstOnly(s, go);
    }
  }
}
