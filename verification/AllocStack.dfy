/** The free lists of the pooled allocator: a stack of items kept in a chain of fixed-size
    chunks. Chunks are never unlinked when the stack shrinks; the next push uses them again.
 */
module AllocStack {
  import opened Seqs

  type Item = int

  const CHUNK: nat := 16

  type Chunk = seq<Item>

  /** The items of the chunks below the top one. */
  function Full(chunks: seq<Chunk>): seq<Item> {
    if chunks == [] then [] else Full(chunks[..|chunks| - 1]) + chunks[|chunks| - 1]
  }

  /** The state of a stack: the chain, the chunk on top, the items in it, and the total. */
  datatype Stack = Stack(chunks: seq<Chunk>, topChunk: nat, top: nat, size: nat) {
    predicate Valid() {
      && topChunk < |chunks| && top <= CHUNK
      && (forall i | 0 <= i < |chunks| :: |chunks[i]| == CHUNK)
      && size == topChunk * CHUNK + top
    }

    function Contents(): seq<Item>
      requires Valid()
    {
      Full(chunks[..topChunk]) + chunks[topChunk][..top]
    }
  }

  lemma {:induction false} FullLength(chunks: seq<Chunk>)
    requires forall i | 0 <= i < |chunks| :: |chunks[i]| == CHUNK
    ensures |Full(chunks)| == |chunks| * CHUNK
  {
    if chunks != [] { FullLength(chunks[..|chunks| - 1]); }
  }

  /** `size` is the number of items. */
  lemma {:induction false} SizeIsLength(s: Stack)
    requires s.Valid()
    ensures |s.Contents()| == s.size
  {
    FullLength(s.chunks[..s.topChunk]);
  }

  // ---------------------------------------------------------------- moving between chunks

  function Fresh(): Chunk { seq(CHUNK, _ => 0) }

  /** To the chunk below: an empty top chunk is the same as a full one below it. */
  function PrevChunk(s: Stack): Stack
    requires s.Valid() && s.top == 0 && s.size != 0
  {
    s.(topChunk := s.topChunk - 1, top := CHUNK)
  }

  lemma {:induction false} PrevKeeps(s: Stack)
    requires s.Valid() && s.top == 0 && s.size != 0
    ensures s.topChunk > 0 && PrevChunk(s).Valid() && PrevChunk(s).Contents() == s.Contents()
  {
    var below := s.chunks[..s.topChunk];
    assert below[..|below| - 1] == s.chunks[..s.topChunk - 1];
    var c := s.chunks[s.topChunk - 1];
    assert c[..CHUNK] == c && s.chunks[s.topChunk][..0] == [];
    assert Full(below) + [] == Full(below);
  }

  /** To the chunk above, which is linked already or has to be allocated. */
  function NextChunk(s: Stack): Stack
    requires s.Valid() && s.top == CHUNK
  {
    s.(chunks := if s.topChunk + 1 < |s.chunks| then s.chunks else s.chunks + [Fresh()], topChunk := s.topChunk + 1, top := 0)
  }

  lemma {:induction false} NextKeeps(s: Stack)
    requires s.Valid() && s.top == CHUNK
    ensures NextChunk(s).Valid() && NextChunk(s).Contents() == s.Contents()
  {
    var s' := NextChunk(s);
    var below := s'.chunks[..s'.topChunk];
    assert below[..|below| - 1] == s.chunks[..s.topChunk] && below[|below| - 1] == s.chunks[s.topChunk];
    var c := s.chunks[s.topChunk];
    assert c[..CHUNK] == c && s'.chunks[s'.topChunk][..0] == [];
    assert Full(below) + [] == Full(below);
  }

  /** Write items above the top of the top chunk. */
  function Put(s: Stack, xs: seq<Item>): Stack
    requires s.Valid() && s.top + |xs| <= CHUNK
  {
    var c := s.chunks[s.topChunk];
    s.(chunks := s.chunks[s.topChunk := c[..s.top] + xs + c[s.top + |xs|..]], top := s.top + |xs|, size := s.size + |xs|)
  }

  lemma {:induction false} PutAppends(s: Stack, xs: seq<Item>)
    requires s.Valid() && s.top + |xs| <= CHUNK
    ensures Put(s, xs).Valid() && Put(s, xs).Contents() == s.Contents() + xs
  {
    var s' := Put(s, xs);
    assert s'.chunks[..s'.topChunk] == s.chunks[..s.topChunk];
    var c := s.chunks[s.topChunk];
    assert s'.chunks[s'.topChunk][..s'.top] == c[..s.top] + xs;
    AppendAssoc(Full(s.chunks[..s.topChunk]), c[..s.top], xs);
  }

  /** Take the last `n` items of the top chunk. */
  function Take(s: Stack, n: nat): Stack
    requires s.Valid() && n <= s.top
  {
    s.(top := s.top - n, size := s.size - n)
  }

  lemma {:induction false} TakeRemoves(s: Stack, n: nat)
    requires s.Valid() && n <= s.top
    ensures Take(s, n).Valid()
    ensures s.Contents() == Take(s, n).Contents() + s.chunks[s.topChunk][s.top - n..s.top]
  {
    var c := s.chunks[s.topChunk];
    assert c[..s.top] == c[..s.top - n] + c[s.top - n..s.top];
    AppendAssoc(Full(s.chunks[..s.topChunk]), c[..s.top - n], c[s.top - n..s.top]);
  }

  /** Take the item on top, if there is one. */
  method PopStack(s: Stack) returns (ok: bool, item: Item, s': Stack)
    requires s.Valid()
    ensures s'.Valid() && (ok <==> s.Contents() != [])
    ensures if ok then s.Contents() == s'.Contents() + [item] else s' == s
  {
    hide Full;
    SizeIsLength(s);
    s' := s;
    if s.top == 0 {
      if s.size == 0 { return false, 0, s; }
      PrevKeeps(s);
      s' := PrevChunk(s);
    }
    TakeRemoves(s', 1);
    item := s'.chunks[s'.topChunk][s'.top - 1];
    assert s'.chunks[s'.topChunk][s'.top - 1..s'.top] == [item];
    s' := Take(s', 1);
    ok := true;
  }

  /** Put an item on top. Fails only if a chunk is needed and there is no memory for it. */
  method PushStack(s: Stack, item: Item, memory: bool) returns (ok: bool, s': Stack)
    requires s.Valid()
    ensures s'.Valid() && (memory ==> ok)
    ensures if ok then s'.Contents() == s.Contents() + [item] else s' == s
  {
    hide Full;
    s' := s;
    if s.top == CHUNK {
      if s.topChunk + 1 == |s.chunks| && !memory { return false, s; }
      NextKeeps(s);
      s' := NextChunk(s);
    }
    PutAppends(s', [item]);
    s' := Put(s', [item]);
    ok := true;
  }

  // ---------------------------------------------------------------- the stack object

  class LinkedStack {
    var chunks: seq<Chunk>
    var topChunk: nat
    var top: nat
    var size: nat

    ghost function State(): Stack
      reads this
    {
      Stack(chunks, topChunk, top, size)
    }

    ghost predicate Valid()
      reads this
    {
      State().Valid()
    }

    ghost function Contents(): seq<Item>
      reads this
      requires Valid()
    {
      State().Contents()
    }

    constructor ()
      ensures Valid() && Contents() == []
    {
      chunks, topChunk, top, size := [Fresh()], 0, 0, 0;
    }

    method Set(s: Stack)
      modifies this
      ensures State() == s
    {
      chunks, topChunk, top, size := s.chunks, s.topChunk, s.top, s.size;
    }

    /** Take the item on top, if there is one. */
    method Pop() returns (ok: bool, item: Item)
      requires Valid()
      modifies this
      ensures Valid() && (ok <==> old(Contents()) != [])
      ensures ok ==> old(Contents()) == Contents() + [item]
      ensures !ok ==> Contents() == old(Contents())
    {
      var s;
      ok, item, s := PopStack(Stack(chunks, topChunk, top, size));
      Set(s);
    }

    /** Put an item on top. Fails only if a chunk is needed and there is no memory for it. */
    method Push(item: Item, memory: bool) returns (ok: bool)
      requires Valid()
      modifies this
      ensures Valid()
      ensures memory ==> ok
      ensures Contents() == if ok then old(Contents()) + [item] else old(Contents())
    {
      var s;
      ok, s := PushStack(Stack(chunks, topChunk, top, size), item, memory);
      Set(s);
    }
  }

  /** One round of the move: as many items as lie in one chunk of both stacks. */
  method MoveOnce(from: Stack, to: Stack, remaining: nat, memory: bool) returns (ok: bool, f: Stack, t: Stack, xs: seq<Item>)
    requires from.Valid() && to.Valid() && 0 < remaining <= from.size
    ensures f.Valid() && t.Valid() && from.Contents() == f.Contents() + xs && t.Contents() == to.Contents() + xs
    ensures |xs| <= remaining && |to.chunks| <= |t.chunks| <= |to.chunks| + 1
    ensures if ok then |xs| > 0 && f.size == from.size - |xs| else !memory && |t.chunks| == |to.chunks|
    ensures !memory ==> |t.chunks| == |to.chunks|
  {
    hide Full;
    ok, f, t, xs := true, from, to, [];
    if f.top == 0 {
      PrevKeeps(f);
      f := PrevChunk(f);
    }
    if t.top == CHUNK {
      if t.topChunk + 1 == |t.chunks| && !memory {
        assert f.Contents() + [] == f.Contents() && t.Contents() + [] == t.Contents();
        return false, f, t, [];
      }
      NextKeeps(t);
      t := NextChunk(t);
    }
    var n := if f.top < remaining then f.top else remaining;
    n := if CHUNK - t.top < n then CHUNK - t.top else n;
    TakeRemoves(f, n);
    xs := f.chunks[f.topChunk][f.top - n..f.top];
    f := Take(f, n);
    PutAppends(t, xs);
    t := Put(t, xs);
  }

  /** What is left of the sequence `all` when its last items have been moved in rounds, in any
      order within a round. */
  lemma {:induction false} MovedMore(all: seq<Item>, k: nat, rest: seq<Item>, xs: seq<Item>, items: seq<Item>)
    requires k + |xs| <= |all| && all[..|all| - k] == rest + xs && multiset(items) == multiset(all[|all| - k..])
    ensures rest == all[..|all| - (k + |xs|)]
    ensures multiset(items + xs) == multiset(all[|all| - (k + |xs|)..])
  {
    assert all[|all| - (k + |xs|)..] == xs + all[|all| - k..] by {
      assert all[..|all| - k][|rest|..] == xs;
    }
    assert rest == (rest + xs)[..|rest|];
  }

  lemma {:induction false} NothingMoved(all: seq<Item>, to: seq<Item>)
    ensures all[..|all|] == all && multiset(all[|all|..]) == multiset([]) && to + [] == to
  {
  }

  /** The loop, on the states of the two stacks. `memory` chunks can be allocated. */
  method MoveLoop(from: Stack, to: Stack, want: nat, memory: nat) returns (f: Stack, t: Stack, remaining: nat, items: seq<Item>)
    requires from.Valid() && to.Valid() && want <= from.size == |from.Contents()|
    ensures f.Valid() && t.Valid() && remaining <= want && |items| == want - remaining
    ensures remaining > 0 ==> |t.chunks| == |to.chunks| + memory
    ensures |t.chunks| <= |to.chunks| + |items|
    ensures f.Contents() == from.Contents()[..|from.Contents()| - |items|]
    ensures t.Contents() == to.Contents() + items
    ensures multiset(items) == multiset(from.Contents()[|from.Contents()| - |items|..])
  {
    hide Full, Stack.Contents, Stack.Valid;
    ghost var all := from.Contents();
    f, t, remaining, items := from, to, want, [];
    NothingMoved(all, to.Contents());
    while remaining > 0
      invariant f.Valid() && t.Valid() && 0 <= remaining <= want && |items| == want - remaining && f.size == from.size - |items|
      invariant f.Contents() == all[..|all| - |items|] && t.Contents() == to.Contents() + items
      invariant multiset(items) == multiset(all[|all| - |items|..])
      invariant |to.chunks| <= |t.chunks| <= |to.chunks| + memory && |t.chunks| <= |to.chunks| + |items|
      decreases remaining
    {
      var ok, f1, t1, xs := MoveOnce(f, t, remaining, |t.chunks| < |to.chunks| + memory);
      MovedMore(all, |items|, f1.Contents(), xs, items);
      AppendAssoc(to.Contents(), items, xs);
      f, t, items, remaining := f1, t1, items + xs, remaining - |xs|;
      if !ok { return; }
    }
  }

  /** Move up to `length` items from one stack to another, in an order that does not matter.
      Exactly `length`, or all there are, are moved unless the memory for chunks runs out; the
      two stacks together always keep their items. */
  method UnorderedMove(from: LinkedStack, to: LinkedStack, length: nat, memory: nat) returns (moved: nat)
    requires from != to && from.Valid() && to.Valid()
    modifies from, to
    ensures from.Valid() && to.Valid()
    ensures moved <= length && moved <= |old(from.Contents())|
    ensures moved == length || moved == |old(from.Contents())| || |to.chunks| == |old(to.chunks)| + memory
    ensures |to.chunks| <= |old(to.chunks)| + moved
    ensures from.Contents() == old(from.Contents())[..|old(from.Contents())| - moved]
    ensures |to.Contents()| == |old(to.Contents())| + moved && to.Contents()[..|old(to.Contents())|] == old(to.Contents())
    ensures multiset(from.Contents()) + multiset(to.Contents()) == multiset(old(from.Contents())) + multiset(old(to.Contents()))
  {
    hide Full, Stack.Contents, Stack.Valid;
    var f, t := Stack(from.chunks, from.topChunk, from.top, from.size), Stack(to.chunks, to.topChunk, to.top, to.size);
    SizeIsLength(f);
    var want := if f.size < length then f.size else length;
    if want == 0 {
      assert f.Contents()[..|f.Contents()|] == f.Contents();
      return 0;
    }
    var f', t', left, items := MoveLoop(f, t, want, memory);
    moved := want - left;
    ghost var all := f.Contents();
    assert all == all[..|all| - moved] + all[|all| - moved..];
    from.Set(f');
    to.Set(t');
  }

  /** Empty a stack at the end of the program. */
  method Drain(s: LinkedStack) returns (n: nat)
    requires s.Valid()
    modifies s
    ensures s.Valid() && s.Contents() == [] && n == |old(s.Contents())|
  {
    hide Full, Stack.Contents, Stack.Valid;
    n := 0;
    var more, item := s.Pop();
    while more
      invariant s.Valid() && n + |s.Contents()| + (if more then 1 else 0) == |old(s.Contents())| && (!more ==> s.Contents() == [])
      decreases |s.Contents()|, more
    {
      n := n + 1;
      more, item := s.Pop();
    }
  }
}
