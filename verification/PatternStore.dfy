/** The nodes of a parse tree as a value: pointers are node ids, literal children are found
    through hash keys "<prefix in hex>/<token>". Adding and removing single nodes keeps the
    pointers, the hash and the token paths in step.
 */
module PatternStore {
  import opened Patterns
  import opened PatternSearch
  import opened HashTable
  import opened Seqs
  import opened Options

  type Id = int

  datatype Node = Node(
    tok: Tok,               // token of the edge from the parent; arbitrary for the root
    end: bool,              // a pattern ends here
    pattern: Pattern,       // that pattern, normalized
    payload: nat,           // 0 is the null payload
    one: Option<Id>,
    glob: Option<Id>,
    kids: set<Id>,
    parent: Option<Id>,
    prefix: nat,
    handle: Option<Handle>)

  // ---------------------------------------------------------------- hash keys

  const HEX := "0123456789ABCDEF"

  /** Upper-case hexadecimal without leading zeros. */
  function Hex(n: nat): (s: string)
    ensures s != []
    ensures forall i | 0 <= i < |s| :: s[i] != '/'
  {
    if n < 16 then [HEX[n]] else Hex(n / 16) + [HEX[n % 16]]
  }

  function HKey(prefix: nat, token: string): string {
    Hex(prefix) + "/" + token
  }

  lemma HexDigitInjective(a: nat, b: nat)
    requires a < 16 && b < 16 && HEX[a] == HEX[b]
    ensures a == b
  {
  }

  lemma {:induction false} HexLast(a: nat)
    ensures var s := Hex(a);
            && s[|s| - 1] == HEX[a % 16]
            && (a < 16 <==> |s| == 1) && (a >= 16 ==> s[..|s| - 1] == Hex(a / 16))
  {
  }

  lemma {:induction false} HexInjective(a: nat, b: nat)
    requires Hex(a) == Hex(b)
    ensures a == b
  {
    HexLast(a);
    HexLast(b);
    HexDigitInjective(a % 16, b % 16);
    if a >= 16 && b >= 16 { HexInjective(a / 16, b / 16); }
  }

  /** Different parents or different tokens have different keys. */
  lemma HKeyInjective(p: nat, s: string, q: nat, t: string)
    ensures HKey(p, s) == HKey(q, t) <==> p == q && s == t
  {
    if HKey(p, s) == HKey(q, t) {
      var k := HKey(p, s);
      var m, n := |Hex(p)|, |Hex(q)|;
      assert k[m] == '/' && k[n] == '/';
      assert k[..m] == Hex(p) && k[..n] == Hex(q);
      assert m == n;
      HexInjective(p, q);
      assert k[m + 1..] == s && k[n + 1..] == t;
    }
  }

  // ---------------------------------------------------------------- the invariant

  /** The nodes and the ghost views of them: the id at each path, the path of each id, and the
      hash table as a map. */
  datatype State = State(nodes: map<Id, Node>, at: map<Pattern, Id>, path: map<Id, Pattern>,
                         hview: map<string, Id>, next: nat)
  {
    function Child(p: Pattern, k: Tok): Option<Id> {
      if p + [k] in at then Some(at[p + [k]]) else None
    }

    /** The node at path `p` and what it points to. */
    ghost predicate NodeOk(p: Pattern)
      requires p in at
    {
      && at[p] in nodes && at[p] in path && path[at[p]] == p
      && var n := nodes[at[p]];
      && (p == [] ==> n.parent == None && !n.end)
      && (p != [] ==> ParentOk(p, n))
      && (n.end ==> n.pattern == p)
      && n.one == Child(p, One)
      && n.glob == Child(p, Many)
      && (forall m :: m in n.kids <==> m in path && IsLitChild(p, path[m]))
      && n.prefix < next
    }

    ghost predicate ParentOk(p: Pattern, n: Node)
      requires p != []
    {
      && p[..|p| - 1] in at
      && n.parent == Some(at[p[..|p| - 1]])
      && n.tok == p[|p| - 1]
      && (n.tok.Lit? ==> n.handle.Some?)
    }

    function Prefix(p: Pattern): nat
      requires p in at && at[p] in nodes
    {
      nodes[at[p]].prefix
    }

    function HashChild(p: Pattern, s: string): Option<Id>
      requires p in at && at[p] in nodes
    {
      if HKey(Prefix(p), s) in hview then Some(hview[HKey(Prefix(p), s)]) else None
    }

    /** The hash finds exactly the literal children. */
    ghost predicate HashOk(p: Pattern)
      requires p in at && at[p] in nodes
    {
      forall s: string :: HashChild(p, s) == Child(p, Lit(s))
    }

    ghost predicate PathsOk() {
      && [] in at
      && (forall i | i in nodes :: i in path)
      && (forall i | i in path :: path[i] in at && at[path[i]] == i)
    }

    ghost predicate NodesOk() {
      forall p {:trigger NodeOk(p)} | p in at :: NodeOk(p)
    }

    ghost predicate HashesOk()
      requires NodesOk()
    {
      forall p {:trigger HashOk(p)} | p in at :: NodeOk(p) && HashOk(p)
    }

    ghost predicate PrefixesOk()
      requires NodesOk()
    {
      forall p, q {:trigger Prefix(p), Prefix(q)} | p in at && q in at ::
        NodeOk(p) && NodeOk(q) && (Prefix(p) == Prefix(q) ==> p == q)
    }

    ghost predicate UnusedOk() {
      forall n: nat, s {:trigger HKey(n, s)} | n >= next :: HKey(n, s) !in hview
    }

    ghost predicate Ok() {
      PathsOk() && NodesOk() && HashesOk() && PrefixesOk() && UnusedOk()
    }

    ghost predicate Childless(p: Pattern)
      requires p in at && at[p] in nodes
    {
      var n := nodes[at[p]]; n.one.None? && n.glob.None? && n.kids == {}
    }

    /** Every leaf other than the root, and other than `except`, ends a pattern. */
    ghost predicate Pruned(except: Pattern)
      requires Ok()
    {
      forall p {:trigger NodeOk(p)} | p in at && p != [] && p != except && NodeOk(p) && Childless(p) :: nodes[at[p]].end
    }

    /** The payload of the pattern that ends at `p`, if one does. */
    ghost function EndAt(p: Pattern): Option<nat>
      requires Ok()
    {
      if p in at && NodeOk(p) && nodes[at[p]].end then Some(nodes[at[p]].payload) else None
    }

    /** The tree as a finite map from patterns to payloads. */
    ghost function Stored(): map<Pattern, nat>
      requires Ok()
    {
      map p | p in at && EndAt(p).Some? :: EndAt(p).value
    }

    ghost function ShapeOf(): Shape
      requires Ok()
    {
      Shape(at.Keys, set p | p in at && EndAt(p).Some?)
    }
  }

  predicate IsLitChild(p: Pattern, q: Pattern) {
    q != [] && q[..|q| - 1] == p && q[|q| - 1].Lit?
  }

  lemma ShapeIsValid(st: State)
    requires st.Ok()
    ensures st.ShapeOf().Valid()
    ensures st.ShapeOf().ends == st.Stored().Keys
  {
    assert st.NodeOk([]);
    forall p | p in st.at && p != [] ensures p[..|p| - 1] in st.at {
      assert st.NodeOk(p);
    }
  }

  // ---------------------------------------------------------------- adding a node

  /** The node that `parent` becomes when the child `id` with token `k` is added. */
  function Linked(n: Node, k: Tok, id: Id): Node {
    match k
    case One => n.(one := Some(id))
    case Many => n.(glob := Some(id))
    case Lit(_) => n.(kids := n.kids + {id})
  }

  function Fresh(k: Tok, parent: Id, prefix: nat, h: Option<Handle>): Node {
    Node(k, false, [], 0, None, None, {}, Some(parent), prefix, h)
  }

  function Attach(nodes: map<Id, Node>, parent: Id, k: Tok, id: Id, prefix: nat, h: Option<Handle>): map<Id, Node>
    requires parent in nodes
  {
    nodes[parent := Linked(nodes[parent], k, id)][id := Fresh(k, parent, prefix, h)]
  }

  function AddNode(st: State, p: Pattern, k: Tok, id: Id, h: Option<Handle>): State
    requires p in st.at && st.at[p] in st.nodes
  {
    var parent := st.at[p];
    State(
      Attach(st.nodes, parent, k, id, st.next, h),
      st.at[p + [k] := id],
      st.path[id := p + [k]],
      if k.Lit? then st.hview[HKey(st.nodes[parent].prefix, k.text) := id] else st.hview,
      st.next + 1)
  }

  ghost predicate CanAdd(st: State, p: Pattern, k: Tok, id: Id, h: Option<Handle>) {
    && st.Ok() && p in st.at && st.NodeOk(p)
    && p + [k] !in st.at && id !in st.nodes && id !in st.path
    && (k.Lit? ==> h.Some?)
  }

  lemma AddNodeOk(st: State, p: Pattern, k: Tok, id: Id, h: Option<Handle>)
    requires CanAdd(st, p, k, id, h)
    ensures AddNode(st, p, k, id, h).Ok()
  {
    var st' := AddNode(st, p, k, id, h);
    AddNodesOk(st, p, k, id, h);
    AddPathsOk(st, p, k, id, h);
    AddHashesOk(st, p, k, id, h);
    AddPrefixesOk(st, p, k, id, h);
    AddUnusedOk(st, p, k, id, h);
  }

  lemma AddNodesOk(st: State, p: Pattern, k: Tok, id: Id, h: Option<Handle>)
    requires CanAdd(st, p, k, id, h)
    ensures AddNode(st, p, k, id, h).NodesOk()
  {
    var st' := AddNode(st, p, k, id, h);
    forall q | q in st'.at ensures st'.NodeOk(q) {
      if q == p + [k] { AddedNodeOk(st, p, k, id, h); } else { AddKeepsNodeOk(st, p, k, id, h, q); }
    }
  }

  lemma AddPathsOk(st: State, p: Pattern, k: Tok, id: Id, h: Option<Handle>)
    requires CanAdd(st, p, k, id, h)
    ensures AddNode(st, p, k, id, h).PathsOk()
  {
    var st' := AddNode(st, p, k, id, h);
    forall i | i in st'.path ensures st'.path[i] in st'.at && st'.at[st'.path[i]] == i {
      if i != id { assert st.path[i] in st.at && st.path[i] != p + [k]; }
    }
  }

  lemma AddHashesOk(st: State, p: Pattern, k: Tok, id: Id, h: Option<Handle>)
    requires CanAdd(st, p, k, id, h) && AddNode(st, p, k, id, h).NodesOk()
    ensures AddNode(st, p, k, id, h).HashesOk()
  {
    var st' := AddNode(st, p, k, id, h);
    forall q | q in st'.at ensures st'.NodeOk(q) && st'.HashOk(q) {
      assert st'.NodeOk(q);
      AddKeepsHashOk(st, p, k, id, h, q);
    }
  }

  lemma AddKeepsPrefix(st: State, p: Pattern, k: Tok, id: Id, h: Option<Handle>, q: Pattern)
    requires CanAdd(st, p, k, id, h) && q in AddNode(st, p, k, id, h).at && AddNode(st, p, k, id, h).NodeOk(q)
    ensures q != p + [k] ==> q in st.at && st.NodeOk(q) && AddNode(st, p, k, id, h).Prefix(q) == st.Prefix(q) < st.next
    ensures q == p + [k] ==> AddNode(st, p, k, id, h).Prefix(q) == st.next
  {
    if q != p + [k] {
      assert st.NodeOk(q);
      assert q != p ==> st.at[q] != st.at[p];
    }
  }

  lemma AddPrefixesOk(st: State, p: Pattern, k: Tok, id: Id, h: Option<Handle>)
    requires CanAdd(st, p, k, id, h) && AddNode(st, p, k, id, h).NodesOk()
    ensures AddNode(st, p, k, id, h).PrefixesOk()
  {
    var st' := AddNode(st, p, k, id, h);
    forall q, r | q in st'.at && r in st'.at
      ensures st'.NodeOk(q) && st'.NodeOk(r) && (st'.Prefix(q) == st'.Prefix(r) ==> q == r)
    {
      assert st'.NodeOk(q) && st'.NodeOk(r);
      AddKeepsPrefix(st, p, k, id, h, q);
      AddKeepsPrefix(st, p, k, id, h, r);
    }
  }

  lemma AddUnusedOk(st: State, p: Pattern, k: Tok, id: Id, h: Option<Handle>)
    requires CanAdd(st, p, k, id, h)
    ensures AddNode(st, p, k, id, h).UnusedOk()
  {
    var st' := AddNode(st, p, k, id, h);
    forall n: nat, s | n >= st'.next ensures HKey(n, s) !in st'.hview {
      if k.Lit? { HKeyInjective(n, s, st.Prefix(p), k.text); }
    }
  }

  lemma ParentInTree(st: State, q: Pattern)
    requires st.Ok() && q in st.at && q != []
    ensures q[..|q| - 1] in st.at
  {
    assert st.NodeOk(q);
  }

  lemma LastOf(p: Pattern, k: Tok)
    ensures (p + [k])[..|p + [k]| - 1] == p && (p + [k])[|p + [k]| - 1] == k
  {
  }

  lemma SplitLast(q: Pattern)
    requires q != []
    ensures q == q[..|q| - 1] + [q[|q| - 1]]
  {
  }

  /** Nothing hangs below a path that is not in the tree. */
  lemma NothingBelow(st: State, q: Pattern)
    requires st.Ok() && q !in st.at
    ensures forall j :: q + [j] !in st.at
    ensures forall m | m in st.path :: !IsLitChild(q, st.path[m])
  {
    forall j ensures q + [j] !in st.at {
      LastOf(q, j);
      if q + [j] in st.at { ParentInTree(st, q + [j]); }
    }
    forall m | m in st.path ensures !IsLitChild(q, st.path[m]) {
      if st.path[m] != [] { ParentInTree(st, st.path[m]); }
    }
  }

  lemma AddedNodeOk(st: State, p: Pattern, k: Tok, id: Id, h: Option<Handle>)
    requires CanAdd(st, p, k, id, h)
    ensures AddNode(st, p, k, id, h).NodeOk(p + [k])
  {
    var st' := AddNode(st, p, k, id, h);
    var q := p + [k];
    assert st.NodeOk(p);
    NothingBelow(st, q);
    LastOf(p, k);
    assert q + [One] != q && q + [Many] != q;
    assert !IsLitChild(q, q) by { assert |q[..|q| - 1]| != |q|; }
    assert forall m | m in st'.path :: m == id || st'.path[m] == st.path[m];
  }

  lemma AddKeepsNodeOk(st: State, p: Pattern, k: Tok, id: Id, h: Option<Handle>, q: Pattern)
    requires CanAdd(st, p, k, id, h) && q in st.at
    ensures AddNode(st, p, k, id, h).NodeOk(q)
  {
    var st' := AddNode(st, p, k, id, h);
    assert st.NodeOk(p) && st.NodeOk(q);
    LastOf(p, k);
    AddKeepsChild(st, p, k, id, h, q, One);
    AddKeepsChild(st, p, k, id, h, q, Many);
    assert q != p ==> st.at[q] != st.at[p];
    assert q != [] ==> st'.ParentOk(q, st'.nodes[st'.at[q]]);
    AddKeepsKids(st, p, k, id, h, q);
  }

  lemma AddKeepsKids(st: State, p: Pattern, k: Tok, id: Id, h: Option<Handle>, q: Pattern)
    requires CanAdd(st, p, k, id, h) && q in st.at && st.NodeOk(q)
    ensures var st' := AddNode(st, p, k, id, h);
            forall m :: m in st'.nodes[st.at[q]].kids <==> m in st'.path && IsLitChild(q, st'.path[m])
  {
    var st' := AddNode(st, p, k, id, h);
    LastOf(p, k);
    forall m ensures m in st'.nodes[st.at[q]].kids <==> m in st'.path && IsLitChild(q, st'.path[m]) {
      assert q != p ==> st.at[q] != st.at[p];
      assert id !in st.nodes[st.at[q]].kids;
    }
  }

  lemma AddKeepsChild(st: State, p: Pattern, k: Tok, id: Id, h: Option<Handle>, q: Pattern, j: Tok)
    requires CanAdd(st, p, k, id, h) && q in st.at
    ensures AddNode(st, p, k, id, h).Child(q, j) == if q == p && j == k then Some(id) else st.Child(q, j)
  {
    LastOf(p, k);
    LastOf(q, j);
  }

  lemma AddedHash(st: State, p: Pattern, k: Tok, id: Id, h: Option<Handle>, s: string)
    requires CanAdd(st, p, k, id, h) && AddNode(st, p, k, id, h).NodeOk(p + [k])
    ensures AddNode(st, p, k, id, h).HashChild(p + [k], s) == AddNode(st, p, k, id, h).Child(p + [k], Lit(s))
  {
    var q := p + [k];
    if k.Lit? { HKeyInjective(st.Prefix(p), k.text, st.next, s); }
    assert HKey(st.next, s) !in st.hview;
    NothingBelow(st, q);
    LastOf(q, Lit(s));
    assert q + [Lit(s)] != q;
  }

  lemma AddKeepsHash(st: State, p: Pattern, k: Tok, id: Id, h: Option<Handle>, q: Pattern, s: string)
    requires CanAdd(st, p, k, id, h) && q in st.at && st.NodeOk(q) && st.HashOk(q) && AddNode(st, p, k, id, h).NodeOk(q)
    requires AddNode(st, p, k, id, h).Prefix(q) == st.Prefix(q)
    ensures AddNode(st, p, k, id, h).HashChild(q, s) == AddNode(st, p, k, id, h).Child(q, Lit(s))
  {
    if k.Lit? { HKeyInjective(st.Prefix(p), k.text, st.Prefix(q), s); }
    AddKeepsChild(st, p, k, id, h, q, Lit(s));
    assert st.HashChild(q, s) == st.Child(q, Lit(s));
    assert st.Prefix(p) == st.Prefix(q) ==> p == q;
  }

  lemma AddKeepsHashOk(st: State, p: Pattern, k: Tok, id: Id, h: Option<Handle>, q: Pattern)
    requires CanAdd(st, p, k, id, h) && q in AddNode(st, p, k, id, h).at && AddNode(st, p, k, id, h).NodeOk(q)
    ensures AddNode(st, p, k, id, h).HashOk(q)
  {
    var st' := AddNode(st, p, k, id, h);
    AddKeepsPrefix(st, p, k, id, h, q);
    if q != p + [k] { assert st.NodeOk(q) && st.HashOk(q); }
    forall s: string ensures st'.HashChild(q, s) == st'.Child(q, Lit(s)) {
      if q == p + [k] { AddedHash(st, p, k, id, h, s); } else { AddKeepsHash(st, p, k, id, h, q, s); }
    }
  }

  // ---------------------------------------------------------------- removing a leaf

  function Init(p: Pattern): Pattern
    requires p != []
  {
    p[..|p| - 1]
  }

  function Unlinked(n: Node, k: Tok, id: Id): Node {
    match k
    case One => n.(one := None)
    case Many => n.(glob := None)
    case Lit(_) => n.(kids := n.kids - {id})
  }

  function Detach(nodes: map<Id, Node>, parent: Id, k: Tok, id: Id): map<Id, Node>
    requires parent in nodes
  {
    nodes[parent := Unlinked(nodes[parent], k, id)] - {id}
  }

  function RemoveNode(st: State, p: Pattern): State
    requires p != [] && p in st.at && Init(p) in st.at && st.at[Init(p)] in st.nodes
  {
    var id, parent, k := st.at[p], st.at[Init(p)], p[|p| - 1];
    State(
      Detach(st.nodes, parent, k, id),
      st.at - {p},
      st.path - {id},
      if k.Lit? then st.hview - {HKey(st.nodes[parent].prefix, k.text)} else st.hview,
      st.next)
  }

  ghost predicate CanRemove(st: State, p: Pattern) {
    && st.Ok() && p in st.at && p != [] && st.NodeOk(p) && st.Childless(p)
    && Init(p) in st.at && st.NodeOk(Init(p)) && st.at[p] != st.at[Init(p)]
  }

  lemma ChildlessHasNoChild(st: State, p: Pattern, k: Tok)
    requires st.Ok() && p in st.at && st.NodeOk(p)
    ensures st.Childless(p) ==> p + [k] !in st.at
  {
    LastOf(p, k);
    if p + [k] in st.at {
      assert st.NodeOk(p + [k]);
      assert st.Child(p, k) == Some(st.at[p + [k]]);
      if k.Lit? {
        var m := st.at[p + [k]];
        assert m in st.path && IsLitChild(p, st.path[m]);
        assert m in st.nodes[st.at[p]].kids;
      }
    }
  }

  lemma RemoveNodeOk(st: State, p: Pattern)
    requires CanRemove(st, p)
    ensures RemoveNode(st, p).Ok()
  {
    RemoveNodesOk(st, p);
    RemovePathsOk(st, p);
    RemoveHashesOk(st, p);
    RemovePrefixesOk(st, p);
  }

  lemma RemovePathsOk(st: State, p: Pattern)
    requires CanRemove(st, p)
    ensures RemoveNode(st, p).PathsOk()
  {
  }

  lemma RemoveNodesOk(st: State, p: Pattern)
    requires CanRemove(st, p)
    ensures RemoveNode(st, p).NodesOk()
  {
    var st' := RemoveNode(st, p);
    forall q | q in st'.at ensures st'.NodeOk(q) {
      assert st.NodeOk(q);
      RemoveKeepsNodeOk(st, p, q);
    }
  }

  lemma RemoveKeepsChild(st: State, p: Pattern, q: Pattern, j: Tok)
    requires CanRemove(st, p) && q in st.at && q != p
    ensures RemoveNode(st, p).Child(q, j) == if q == Init(p) && j == p[|p| - 1] then None else st.Child(q, j)
  {
    LastOf(q, j);
    SplitLast(p);
  }

  lemma RemoveKeepsNodeOk(st: State, p: Pattern, q: Pattern)
    requires CanRemove(st, p) && q in st.at && q != p && st.NodeOk(q)
    ensures RemoveNode(st, p).NodeOk(q)
  {
    var st' := RemoveNode(st, p);
    RemoveKeepsChild(st, p, q, One);
    RemoveKeepsChild(st, p, q, Many);
    assert st.at[q] != st.at[p];
    assert q != Init(p) ==> st.at[q] != st.at[Init(p)];
    if q != [] {
      SplitLast(q);
      ChildlessHasNoChild(st, p, q[|q| - 1]);
      assert st'.ParentOk(q, st'.nodes[st'.at[q]]);
    }
    RemoveKeepsKids(st, p, q);
  }

  lemma RemoveKeepsKids(st: State, p: Pattern, q: Pattern)
    requires CanRemove(st, p) && q in st.at && q != p && st.NodeOk(q)
    requires st.at[q] != st.at[p] && (q != Init(p) ==> st.at[q] != st.at[Init(p)])
    ensures var st' := RemoveNode(st, p);
            forall m :: m in st'.nodes[st.at[q]].kids <==> m in st'.path && IsLitChild(q, st'.path[m])
  {
    var st' := RemoveNode(st, p);
    var id := st.at[p];
    assert st.path[id] == p;
    assert id in st.nodes[st.at[q]].kids <==> IsLitChild(q, p);
  }

  lemma RemoveHashesOk(st: State, p: Pattern)
    requires CanRemove(st, p) && RemoveNode(st, p).NodesOk()
    ensures RemoveNode(st, p).HashesOk()
  {
    var st' := RemoveNode(st, p);
    forall q | q in st'.at ensures st'.NodeOk(q) && st'.HashOk(q) {
      assert st'.NodeOk(q) && st.NodeOk(q) && st.HashOk(q);
      RemoveKeepsPrefix(st, p, q);
      forall s: string ensures st'.HashChild(q, s) == st'.Child(q, Lit(s)) {
        RemoveKeepsHash(st, p, q, s);
      }
    }
  }

  lemma RemoveKeepsPrefix(st: State, p: Pattern, q: Pattern)
    requires CanRemove(st, p) && q in st.at && q != p && st.NodeOk(q) && RemoveNode(st, p).NodeOk(q)
    ensures RemoveNode(st, p).Prefix(q) == st.Prefix(q)
  {
    assert st.at[q] != st.at[p];
    assert q != Init(p) ==> st.at[q] != st.at[Init(p)];
  }

  lemma RemoveKeepsHash(st: State, p: Pattern, q: Pattern, s: string)
    requires CanRemove(st, p) && q in st.at && q != p && st.NodeOk(q) && RemoveNode(st, p).NodeOk(q)
    requires RemoveNode(st, p).Prefix(q) == st.Prefix(q) && st.HashOk(q)
    ensures RemoveNode(st, p).HashChild(q, s) == RemoveNode(st, p).Child(q, Lit(s))
  {
    RemoveKeepsChild(st, p, q, Lit(s));
    assert st.HashChild(q, s) == st.Child(q, Lit(s));
    var k := p[|p| - 1];
    if k.Lit? { HKeyInjective(st.Prefix(Init(p)), k.text, st.Prefix(q), s); }
  }

  lemma RemovePrefixesOk(st: State, p: Pattern)
    requires CanRemove(st, p) && RemoveNode(st, p).NodesOk()
    ensures RemoveNode(st, p).PrefixesOk()
  {
    var st' := RemoveNode(st, p);
    forall q, r | q in st'.at && r in st'.at
      ensures st'.NodeOk(q) && st'.NodeOk(r) && (st'.Prefix(q) == st'.Prefix(r) ==> q == r)
    {
      assert st'.NodeOk(q) && st'.NodeOk(r) && st.NodeOk(q) && st.NodeOk(r);
      RemoveKeepsPrefix(st, p, q);
      RemoveKeepsPrefix(st, p, r);
    }
  }

  // ---------------------------------------------------------------- marking a pattern's end

  function Mark(nodes: map<Id, Node>, id: Id, end: bool, pattern: Pattern, payload: nat): map<Id, Node>
    requires id in nodes
  {
    nodes[id := nodes[id].(end := end, pattern := pattern, payload := payload)]
  }

  function MarkNode(st: State, p: Pattern, end: bool, payload: nat): State
    requires p in st.at && st.at[p] in st.nodes
  {
    st.(nodes := Mark(st.nodes, st.at[p], end, p, payload))
  }

  lemma MarkKeepsNodes(st: State, p: Pattern, end: bool, payload: nat, q: Pattern)
    requires st.Ok() && p in st.at && p != [] && st.NodeOk(p) && q in st.at
    ensures st.NodeOk(q) && MarkNode(st, p, end, payload).NodeOk(q)
    ensures MarkNode(st, p, end, payload).Prefix(q) == st.Prefix(q)
    ensures MarkNode(st, p, end, payload).Childless(q) <==> st.Childless(q)
  {
    var st' := MarkNode(st, p, end, payload);
    assert st.NodeOk(q);
    assert q == [] ==> st.at[q] != st.at[p];
    assert q != [] ==> st'.ParentOk(q, st'.nodes[st'.at[q]]);
  }

  lemma MarkHashesOk(st: State, p: Pattern, end: bool, payload: nat)
    requires st.Ok() && p in st.at && p != [] && st.NodeOk(p) && MarkNode(st, p, end, payload).NodesOk()
    ensures MarkNode(st, p, end, payload).HashesOk()
  {
    var st' := MarkNode(st, p, end, payload);
    forall q | q in st'.at ensures st'.NodeOk(q) && st'.HashOk(q) {
      MarkKeepsNodes(st, p, end, payload, q);
      assert st.HashOk(q);
      forall s: string ensures st'.HashChild(q, s) == st'.Child(q, Lit(s)) {
        assert st.HashChild(q, s) == st.Child(q, Lit(s));
      }
    }
  }

  /** Marking changes nothing but the mark of one node. */
  lemma MarkNodeOk(st: State, p: Pattern, end: bool, payload: nat)
    requires st.Ok() && p in st.at && p != [] && st.NodeOk(p)
    ensures MarkNode(st, p, end, payload).Ok()
  {
    var st' := MarkNode(st, p, end, payload);
    forall q | q in st'.at ensures st'.NodeOk(q) { MarkKeepsNodes(st, p, end, payload, q); }
    MarkHashesOk(st, p, end, payload);
    forall q, r | q in st'.at && r in st'.at
      ensures st'.NodeOk(q) && st'.NodeOk(r) && (st'.Prefix(q) == st'.Prefix(r) ==> q == r)
    {
      MarkKeepsNodes(st, p, end, payload, q);
      MarkKeepsNodes(st, p, end, payload, r);
    }
  }

  // ---------------------------------------------------------------- what is stored, and pruning

  lemma StoredAt(st: State, q: Pattern)
    requires st.Ok()
    ensures q in st.Stored() <==> st.EndAt(q).Some?
    ensures q in st.Stored() ==> st.Stored()[q] == st.EndAt(q).value
  {
  }

  /** Two trees that agree on every pattern store the same map. */
  lemma SameStored(st: State, m: map<Pattern, nat>)
    requires st.Ok()
    requires forall q :: st.EndAt(q) == if q in m then Some(m[q]) else None
    ensures st.Stored() == m
  {
    forall q: Pattern
      ensures q in st.Stored() <==> q in m
      ensures q in m ==> st.Stored()[q] == m[q]
    {
      StoredAt(st, q);
      assert st.EndAt(q) == if q in m then Some(m[q]) else None;
    }
  }

  lemma AddKeepsEnd(st: State, p: Pattern, k: Tok, id: Id, h: Option<Handle>, q: Pattern)
    requires CanAdd(st, p, k, id, h) && AddNode(st, p, k, id, h).Ok()
    ensures AddNode(st, p, k, id, h).EndAt(q) == st.EndAt(q)
  {
    var st' := AddNode(st, p, k, id, h);
    if q in st.at {
      assert st'.NodeOk(q) && st.NodeOk(q);
      assert q != p ==> st.at[q] != st.at[p];
    }
  }

  lemma AddStored(st: State, p: Pattern, k: Tok, id: Id, h: Option<Handle>)
    requires CanAdd(st, p, k, id, h) && AddNode(st, p, k, id, h).Ok()
    ensures AddNode(st, p, k, id, h).Stored() == st.Stored()
  {
    var st', m := AddNode(st, p, k, id, h), st.Stored();
    forall q ensures st'.EndAt(q) == if q in m then Some(m[q]) else None {
      AddKeepsEnd(st, p, k, id, h, q);
      StoredAt(st, q);
    }
    SameStored(st', m);
  }

  lemma AddPrunes(st: State, p: Pattern, k: Tok, id: Id, h: Option<Handle>)
    requires CanAdd(st, p, k, id, h) && st.Pruned(p) && AddNode(st, p, k, id, h).Ok()
    ensures AddNode(st, p, k, id, h).Pruned(p + [k])
  {
    var st' := AddNode(st, p, k, id, h);
    forall q | q in st'.at && q != [] && q != p + [k] && st'.NodeOk(q) && st'.Childless(q)
      ensures st'.nodes[st'.at[q]].end
    {
      assert st.NodeOk(q);
      ChildlessHasNoChild(st', q, k);
      assert q != p;
      assert st.at[q] != st.at[p];
    }
  }

  lemma RemoveKeepsEnd(st: State, p: Pattern, q: Pattern)
    requires CanRemove(st, p) && !st.nodes[st.at[p]].end && RemoveNode(st, p).Ok()
    ensures RemoveNode(st, p).EndAt(q) == st.EndAt(q)
  {
    var st' := RemoveNode(st, p);
    if q in st.at && q != p {
      assert st'.NodeOk(q) && st.NodeOk(q);
      assert q != Init(p) ==> st.at[q] != st.at[Init(p)];
    }
  }

  lemma RemoveStored(st: State, p: Pattern)
    requires CanRemove(st, p) && !st.nodes[st.at[p]].end && RemoveNode(st, p).Ok()
    ensures RemoveNode(st, p).Stored() == st.Stored()
  {
    var st', m := RemoveNode(st, p), st.Stored();
    forall q ensures st'.EndAt(q) == if q in m then Some(m[q]) else None {
      RemoveKeepsEnd(st, p, q);
      StoredAt(st, q);
    }
    SameStored(st', m);
  }

  lemma RemovePrunes(st: State, p: Pattern)
    requires CanRemove(st, p) && st.Pruned(p) && RemoveNode(st, p).Ok()
    ensures RemoveNode(st, p).Pruned(Init(p))
  {
    var st' := RemoveNode(st, p);
    forall q | q in st'.at && q != [] && q != Init(p) && st'.NodeOk(q) && st'.Childless(q)
      ensures st'.nodes[st'.at[q]].end
    {
      assert st.NodeOk(q);
      assert st.at[q] != st.at[Init(p)];
      assert st'.nodes[st'.at[q]] == st.nodes[st.at[q]];
    }
  }

  lemma MarkEndAt(st: State, p: Pattern, end: bool, payload: nat, q: Pattern)
    requires st.Ok() && p in st.at && p != [] && st.NodeOk(p) && MarkNode(st, p, end, payload).Ok()
    ensures MarkNode(st, p, end, payload).EndAt(q)
         == if q != p then st.EndAt(q) else if end then Some(payload) else None
  {
    if q in st.at {
      MarkKeepsNodes(st, p, end, payload, q);
      assert q != p ==> st.at[q] != st.at[p];
    }
  }

  lemma MarkStored(st: State, p: Pattern, end: bool, payload: nat, m: map<Pattern, nat>)
    requires st.Ok() && p in st.at && p != [] && st.NodeOk(p) && MarkNode(st, p, end, payload).Ok()
    requires m == if end then st.Stored()[p := payload] else st.Stored() - {p}
    ensures MarkNode(st, p, end, payload).Stored() == m
  {
    var st' := MarkNode(st, p, end, payload);
    forall q ensures st'.EndAt(q) == if q in m then Some(m[q]) else None {
      MarkEndAt(st, p, end, payload, q);
      StoredAt(st, q);
    }
    SameStored(st', m);
  }

  lemma MarkPrunes(st: State, p: Pattern, end: bool, payload: nat)
    requires st.Ok() && p in st.at && p != [] && st.NodeOk(p) && st.Pruned(if end then p else [])
    requires MarkNode(st, p, end, payload).Ok()
    ensures MarkNode(st, p, end, payload).Pruned(if end then [] else p)
  {
    var st' := MarkNode(st, p, end, payload);
    forall q | q in st'.at && q != [] && (end || q != p) && st'.NodeOk(q) && st'.Childless(q)
      ensures st'.nodes[st'.at[q]].end
    {
      MarkKeepsNodes(st, p, end, payload, q);
      assert q != p ==> st.at[q] != st.at[p];
    }
  }

  /** A node that has a child, or ends a pattern, or is the root, needs no exception. */
  lemma NoException(st: State, p: Pattern, except: Pattern)
    requires st.Ok() && p in st.at && st.NodeOk(p) && st.Pruned(p)
    requires p == [] || !st.Childless(p) || st.nodes[st.at[p]].end
    ensures st.Pruned(except)
  {
  }
}
