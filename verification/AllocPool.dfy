/** The pooled allocator: every thread has a free list of its own, a locked global list evens
    them out in batches, and the heap supplies what is missing. Any number of threads take
    their steps in any order; what a thread does between two uses of the lock is a step.
 */
module AllocPool {
  import opened Octets
  import opened Seqs
  import opened AllocStack

  datatype Config = Config(batch: nat, localMax: nat, globalMax: nat) {
    predicate Ok() { 1 <= batch <= localMax }
  }

  /** Where a thread is: outside the allocator, about to fetch a batch, about to take an item
      from the batch it fetched, or about to give a batch back. */
  datatype Pc = Idle | Refilling | Refilled | Spilling

  datatype Thread = Thread(pc: Pc, free: seq<Item>)

  /** The pool. `live` are the items in use and `heap` all items that came from the heap and
      have not gone back. `frees` and `epoch` record how often an item has been freed since it
      last came from the heap, and how often it came from there. `lost` counts the items that went
      back to the heap because memory for the thread's list was missing; the program does not
      count them. */
  datatype Pool = Pool(
    threads: seq<Thread>,
    global: seq<Item>,
    live: set<Item>,
    heap: set<Item>,
    sequence: map<Item, nat>,
    totalAlloc: nat,
    totalFree: nat,
    held: int,
    frees: map<Item, nat>,
    epoch: map<Item, nat>,
    lost: nat)

  function Init(): Pool { Pool([], [], {}, {}, map[], 0, 0, 0, map[], map[], 0) }

  // ---------------------------------------------------------------- the invariant

  /** The items in the lists of all threads. */
  function Bag(threads: seq<Thread>): multiset<Item> {
    if threads == [] then multiset{} else multiset(threads[0].free) + Bag(threads[1..])
  }

  predicate ThreadOk(c: Config, th: Thread) {
    match th.pc
    case Idle => |th.free| < c.localMax
    case Refilling => th.free == []
    case Refilled => |th.free| <= c.batch
    case Spilling => |th.free| == c.localMax
  }

  /** Every item from the heap is in exactly one place. */
  predicate Conserved(p: Pool) { multiset(p.live) + multiset(p.global) + Bag(p.threads) == multiset(p.heap) }

  predicate Counted(p: Pool) {
    && p.held == |p.live| + |Bag(p.threads)| + p.lost
    && p.totalAlloc == p.totalFree + |p.heap| + p.lost
  }

  predicate Sequenced(p: Pool) {
    && p.heap <= p.sequence.Keys && p.sequence.Keys == p.frees.Keys == p.epoch.Keys
    && forall x | x in p.sequence :: p.sequence[x] == p.frees[x] % U32
  }

  predicate Valid(c: Config, p: Pool) {
    && Conserved(p) && Counted(p) && Sequenced(p)
    && (forall t | 0 <= t < |p.threads| :: ThreadOk(c, p.threads[t]))
    && (c.globalMax != 0 ==> |p.global| <= c.globalMax)
  }

  // ---------------------------------------------------------------- steps

  function Last(s: seq<Item>, n: nat): seq<Item>
    requires n <= |s|
  {
    s[|s| - n..]
  }

  function But(s: seq<Item>, n: nat): seq<Item>
    requires n <= |s|
  {
    s[..|s| - n]
  }

  /** A thread uses the allocator for the first time. */
  function Join(p: Pool): Pool { p.(threads := p.threads + [Thread(Idle, [])]) }

  function SetThread(p: Pool, t: nat, th: Thread): Pool
    requires t < |p.threads|
  {
    p.(threads := p.threads[t := th])
  }

  /** Hand out the item on top of the thread's list. */
  function HandOut(p: Pool, t: nat): Pool
    requires t < |p.threads| && p.threads[t].free != []
  {
    var free := p.threads[t].free;
    SetThread(p, t, Thread(Idle, But(free, 1))).(live := p.live + {free[|free| - 1]})
  }

  /** Allocation: from the thread's own list, if that has an item. */
  function Alloc(p: Pool, t: nat): Pool
    requires t < |p.threads|
  {
    if p.threads[t].free != [] then HandOut(p, t) else SetThread(p, t, Thread(Refilling, []))
  }

  /** The last part of an allocation: an item of the batch, or none if the heap had nothing. */
  function Take(p: Pool, t: nat): Pool
    requires t < |p.threads|
  {
    if p.threads[t].free != [] then HandOut(p, t) else SetThread(p, t, Thread(Idle, []))
  }

  /** A batch from the global list, in some order. */
  function FromGlobal(c: Config, p: Pool, t: nat, xs: seq<Item>): Pool
    requires t < |p.threads| && |p.global| >= c.batch
  {
    SetThread(p, t, Thread(Refilled, p.threads[t].free + xs)).(global := But(p.global, c.batch), held := p.held + |xs|)
  }

  function Put(m: map<Item, nat>, xs: seq<Item>, n: nat): map<Item, nat> {
    map x | x in m.Keys + Items(xs) :: if x in Items(xs) then n else m[x]
  }

  function Items(xs: seq<Item>): set<Item> { set x | x in xs }

  function Raise(m: map<Item, nat>, xs: seq<Item>): map<Item, nat> {
    map x | x in m.Keys + Items(xs) :: (if x in m then m[x] else 0) + if x in Items(xs) then 1 else 0
  }

  /** A batch from the heap. */
  function FromHeap(c: Config, p: Pool, t: nat, xs: seq<Item>): Pool
    requires t < |p.threads|
  {
    SetThread(p, t, Thread(Refilled, p.threads[t].free + xs)).(
      heap := p.heap + Items(xs), held := p.held + |xs|, totalAlloc := p.totalAlloc + |xs|,
      sequence := Put(p.sequence, xs, 0), frees := Put(p.frees, xs, 0), epoch := Raise(p.epoch, xs))
  }

  function Refill(c: Config, p: Pool, t: nat, xs: seq<Item>): Pool
    requires t < |p.threads|
  {
    if |p.global| >= c.batch then FromGlobal(c, p, t, xs) else FromHeap(c, p, t, xs)
  }

  /** An item in use is freed: it goes onto the thread's list. */
  function Free(c: Config, p: Pool, t: nat, x: Item): Pool
    requires t < |p.threads| && x in p.sequence && x in p.frees
  {
    var free := p.threads[t].free + [x];
    SetThread(p, t, Thread(if |free| < c.localMax then Idle else Spilling, free)).(
      live := p.live - {x},
      sequence := p.sequence[x := (p.sequence[x] + 1) % U32],
      frees := p.frees[x := p.frees[x] + 1])
  }

  /** A free when the list cannot take the item: it goes back to the heap at once. */
  function Lose(p: Pool, x: Item): Pool
    requires x in p.sequence && x in p.frees
  {
    p.(live := p.live - {x}, heap := p.heap - {x}, lost := p.lost + 1,
       sequence := p.sequence[x := (p.sequence[x] + 1) % U32],
       frees := p.frees[x := p.frees[x] + 1])
  }

  /** A batch goes to the global list; what is too much there goes back to the heap. */
  function Spill(c: Config, p: Pool, t: nat, xs: seq<Item>): Pool
    requires t < |p.threads| && |p.threads[t].free| >= c.batch
  {
    var global := p.global + xs;
    var over := if c.globalMax != 0 && |global| > c.globalMax then |global| - c.globalMax else 0;
    SetThread(p, t, Thread(Idle, But(p.threads[t].free, c.batch))).(
      global := But(global, over), held := p.held - |xs|,
      heap := p.heap - Items(Last(global, over)), totalFree := p.totalFree + over)
  }

  datatype Event =
    | DoJoin
    | DoAlloc(thread: nat)
    | DoRefill(thread: nat, items: seq<Item>)
    | DoTake(thread: nat)
    | DoFree(thread: nat, item: Item)
    | DoLose(thread: nat, item: Item)
    | DoSpill(thread: nat, items: seq<Item>)

  predicate Distinct(xs: seq<Item>) { forall i, j | 0 <= i < j < |xs| :: xs[i] != xs[j] }

  predicate At(p: Pool, t: nat, pc: Pc) { t < |p.threads| && p.threads[t].pc == pc }

  /** When a step can happen. Only items in use are freed. A batch is moved in some order; the
      heap gives items that it has not given already, and fewer than a batch if it has no more. */
  predicate Enabled(c: Config, p: Pool, e: Event) {
    match e
    case DoJoin => true
    case DoAlloc(t) => At(p, t, Idle)
    case DoRefill(t, xs) =>
      && At(p, t, Refilling)
      && (if |p.global| >= c.batch then multiset(xs) == multiset(Last(p.global, c.batch))
          else |xs| <= c.batch && Distinct(xs) && Items(xs) !! p.heap)
    case DoTake(t) => At(p, t, Refilled)
    case DoFree(t, x) => At(p, t, Idle) && x in p.live
    case DoLose(t, x) => At(p, t, Idle) && x in p.live
    case DoSpill(t, xs) =>
      At(p, t, Spilling) && |p.threads[t].free| >= c.batch && multiset(xs) == multiset(Last(p.threads[t].free, c.batch))
  }

  // ---------------------------------------------------------------- bags

  lemma {:induction false} BagUpdate(threads: seq<Thread>, t: nat, th: Thread)
    requires t < |threads|
    ensures multiset(threads[t].free) <= Bag(threads)
    ensures Bag(threads[t := th]) == Bag(threads) - multiset(threads[t].free) + multiset(th.free)
  {
    var first, m, n := multiset(threads[0].free), multiset(threads[t].free), multiset(th.free);
    if t == 0 {
      assert threads[t := th][1..] == threads[1..];
      InHead(m, Bag(threads[1..]), n);
    } else {
      assert threads[t := th][1..] == threads[1..][t - 1 := th];
      BagUpdate(threads[1..], t - 1, th);
      InTail(first, Bag(threads[1..]), m, n);
    }
  }

  lemma {:induction false} InHead(m: multiset<Item>, b: multiset<Item>, n: multiset<Item>)
    ensures m <= m + b && n + b == (m + b) - m + n
  {
  }

  lemma {:induction false} InTail(a: multiset<Item>, b: multiset<Item>, m: multiset<Item>, n: multiset<Item>)
    requires m <= b
    ensures m <= a + b && a + (b - m + n) == (a + b) - m + n
  {
  }

  lemma {:induction false} BagSnoc(threads: seq<Thread>, th: Thread)
    ensures Bag(threads + [th]) == Bag(threads) + multiset(th.free)
  {
    if threads == [] {
      assert threads + [th] == [th] && [th][1..] == [];
    } else {
      CutAppend(threads, [th], 1);
      BagSnoc(threads[1..], th);
    }
  }

  lemma {:induction false} SplitBag(s: seq<Item>, n: nat)
    requires n <= |s|
    ensures multiset(s) == multiset(But(s, n)) + multiset(Last(s, n))
  {
    assert s == But(s, n) + Last(s, n);
  }

  lemma {:induction false} ItemsBag(xs: seq<Item>)
    requires Distinct(xs)
    ensures multiset(Items(xs)) == multiset(xs) && |Items(xs)| == |xs|
  {
    hide Items;
    NoneInEmpty();
    if xs != [] {
      var ys := xs[..|xs| - 1];
      var x := xs[|xs| - 1];
      ItemsBag(ys);
      ItemsSnoc(xs);
      OneMore(Items(ys), x);
    }
  }

  lemma {:induction false} NoneInEmpty()
    ensures Items([]) == {}
  {
  }

  lemma {:induction false} ItemsSnoc(xs: seq<Item>)
    requires xs != []
    ensures var ys, x := xs[..|xs| - 1], xs[|xs| - 1];
            && multiset(xs) == multiset(ys) + multiset{x} && Items(xs) == Items(ys) + {x}
            && (Distinct(xs) ==> x !in Items(ys))
  {
    assert xs == xs[..|xs| - 1] + [xs[|xs| - 1]];
  }

  /** Nothing is in two places, or twice in one. */
  lemma {:induction false} OnePlace(p: Pool, x: Item)
    requires Conserved(p)
    ensures multiset(p.live)[x] + multiset(p.global)[x] + Bag(p.threads)[x] == if x in p.heap then 1 else 0
  {
    assert (multiset(p.live) + multiset(p.global) + Bag(p.threads))[x] == multiset(p.heap)[x];
  }

  // ---------------------------------------------------------------- every step keeps the invariant

  lemma {:induction false} InitValid(c: Config)
    ensures Valid(c, Init())
  {
  }

  lemma {:induction false} JoinKeeps(c: Config, p: Pool)
    requires c.Ok() && Valid(c, p)
    ensures Valid(c, Join(p))
  {
    BagSnoc(p.threads, Thread(Idle, []));
  }

  /** The item handed out is in no other place, so nobody else has it. */
  lemma {:induction false} HandedOutOnce(p: Pool, t: nat)
    requires Conserved(p) && t < |p.threads| && p.threads[t].free != []
    ensures var free := p.threads[t].free; var x := free[|free| - 1];
            && x in p.heap && x !in p.live && x !in p.global && x !in But(free, 1)
            && forall u | 0 <= u < |p.threads| && u != t :: x !in p.threads[u].free
  {
    var free := p.threads[t].free;
    var x := free[|free| - 1];
    OnePlace(p, x);
    BagUpdate(p.threads, t, Thread(Idle, []));
    assert multiset(free)[x] > 0 by { assert free[|free| - 1] in multiset(free); }
    assert free == But(free, 1) + [x];
    assert multiset(free) == multiset(But(free, 1)) + multiset{x};
    forall u | 0 <= u < |p.threads| && u != t ensures x !in p.threads[u].free {
      var others := p.threads[t := Thread(Idle, [])];
      BagUpdate(others, u, Thread(Idle, []));
      assert others[u] == p.threads[u];
      assert Bag(others)[x] == 0;
      assert multiset(p.threads[u].free)[x] <= Bag(others)[x];
    }
  }

  // How multisets add up, apart from where they come from.

  type Ms = multiset<Item>

  lemma {:induction false} Shift(a: Ms, b: Ms, c: Ms, m: Ms, h: Ms)
    requires a + b + (c + m) == h
    ensures (a + m) + b + c == h
  {
  }

  lemma {:induction false} Shift2(a: Ms, b: Ms, c: Ms, m: Ms, h: Ms)
    requires a + (b + m) + c == h
    ensures a + b + (c + m) == h
  {
  }

  lemma {:induction false} Grow(a: Ms, b: Ms, c: Ms, m: Ms, h: Ms)
    requires a + b + c == h
    ensures a + b + (c + m) == h + m
  {
  }

  lemma {:induction false} ShiftOut(a: Ms, b: Ms, c: Ms, m: Ms, b': Ms, d: Ms, h: Ms)
    requires a + b + (c + m) == h && b + m == b' + d
    ensures (a + b' + c) + d == h
  {
    Shift3(a, b, c, m);
    assert (a + b' + c) + d == a + c + (b' + d);
    assert a + c + (b + m) == h;
  }

  lemma {:induction false} Shift3(a: Ms, b: Ms, c: Ms, m: Ms)
    ensures a + b + (c + m) == a + c + (b + m)
  {
  }

  lemma {:induction false} SizeOfSum(a: Ms, b: Ms)
    ensures |a + b| == |a| + |b|
  {
  }

  lemma {:induction false} Replaced(b: Ms, before: Ms, after: Ms, m: Ms)
    requires before <= b && before == after + m
    ensures b == (b - before + after) + m
  {
  }

  lemma {:induction false} Enlarged(b: Ms, before: Ms, after: Ms, m: Ms)
    requires before <= b && after == before + m
    ensures b - before + after == b + m
  {
  }

  /** The bag of all threads when one of them gives up, or gets, some items. */
  lemma {:induction false} BagLess(threads: seq<Thread>, t: nat, th: Thread, m: Ms)
    requires t < |threads| && multiset(threads[t].free) == multiset(th.free) + m
    ensures Bag(threads) == Bag(threads[t := th]) + m && |Bag(threads)| == |Bag(threads[t := th])| + |m|
  {
    hide Bag;
    BagUpdate(threads, t, th);
    Replaced(Bag(threads), multiset(threads[t].free), multiset(th.free), m);
    SizeOfSum(Bag(threads[t := th]), m);
  }

  lemma {:induction false} BagMore(threads: seq<Thread>, t: nat, th: Thread, m: Ms)
    requires t < |threads| && multiset(th.free) == multiset(threads[t].free) + m
    ensures Bag(threads[t := th]) == Bag(threads) + m && |Bag(threads[t := th])| == |Bag(threads)| + |m|
  {
    hide Bag;
    BagUpdate(threads, t, th);
    Enlarged(Bag(threads), multiset(threads[t].free), multiset(th.free), m);
    SizeOfSum(Bag(threads), m);
  }

  lemma {:induction false} LastItem(free: seq<Item>)
    requires free != []
    ensures multiset(free) == multiset(But(free, 1)) + multiset{free[|free| - 1]}
  {
    assert free == But(free, 1) + [free[|free| - 1]];
  }

  lemma {:induction false} OneMore(live: set<Item>, x: Item)
    requires x !in live
    ensures multiset(live + {x}) == multiset(live) + multiset{x} && |live + {x}| == |live| + 1
  {
  }

  lemma {:induction false} HandOutKeeps(c: Config, p: Pool, t: nat)
    requires c.Ok() && Valid(c, p) && t < |p.threads| && 0 < |p.threads[t].free| <= c.localMax
    ensures Valid(c, HandOut(p, t))
  {
    hide Bag;
    var p' := HandOut(p, t);
    var free := p.threads[t].free;
    var x := free[|free| - 1];
    HandedOutOnce(p, t);
    LastItem(free);
    BagLess(p.threads, t, p'.threads[t], multiset{x});
    OneMore(p.live, x);
    Shift(multiset(p.live), multiset(p.global), Bag(p'.threads), multiset{x}, multiset(p.heap));
  }

  lemma {:induction false} AllocKeeps(c: Config, p: Pool, t: nat)
    requires c.Ok() && Valid(c, p) && At(p, t, Idle)
    ensures Valid(c, Alloc(p, t))
  {
    hide Bag;
    assert ThreadOk(c, p.threads[t]);
    if p.threads[t].free != [] {
      HandOutKeeps(c, p, t);
    } else {
      BagMore(p.threads, t, Thread(Refilling, []), multiset{});
    }
  }

  lemma {:induction false} TakeKeeps(c: Config, p: Pool, t: nat)
    requires c.Ok() && Valid(c, p) && At(p, t, Refilled)
    ensures Valid(c, Take(p, t))
  {
    hide Bag;
    assert ThreadOk(c, p.threads[t]);
    if p.threads[t].free != [] {
      HandOutKeeps(c, p, t);
    } else {
      BagMore(p.threads, t, Thread(Idle, []), multiset{});
    }
  }

  lemma {:induction false} SameSize(xs: seq<Item>, ys: seq<Item>)
    requires multiset(xs) == multiset(ys)
    ensures |xs| == |ys|
  {
    assert |xs| == |multiset(xs)| && |ys| == |multiset(ys)|;
  }

  lemma {:induction false} FromGlobalKeeps(c: Config, p: Pool, t: nat, xs: seq<Item>)
    requires c.Ok() && Valid(c, p) && At(p, t, Refilling) && |p.global| >= c.batch
    requires multiset(xs) == multiset(Last(p.global, c.batch))
    ensures |xs| == c.batch && Valid(c, FromGlobal(c, p, t, xs))
  {
    hide Bag;
    assert ThreadOk(c, p.threads[t]);
    var p' := FromGlobal(c, p, t, xs);
    SameSize(xs, Last(p.global, c.batch));
    assert p'.threads[t].free == xs;
    BagMore(p.threads, t, p'.threads[t], multiset(xs));
    SplitBag(p.global, c.batch);
    Shift2(multiset(p.live), multiset(p'.global), Bag(p.threads), multiset(xs), multiset(p.heap));
  }

  lemma {:induction false} NewItems(heap: set<Item>, xs: seq<Item>)
    requires Distinct(xs) && Items(xs) !! heap
    ensures multiset(heap + Items(xs)) == multiset(heap) + multiset(xs) && |heap + Items(xs)| == |heap| + |xs|
  {
    ItemsBag(xs);
  }

  lemma {:induction false} FromHeapKeeps(c: Config, p: Pool, t: nat, xs: seq<Item>)
    requires c.Ok() && Valid(c, p) && At(p, t, Refilling) && |xs| <= c.batch && Distinct(xs) && Items(xs) !! p.heap
    requires |p.global| < c.batch
    ensures Valid(c, FromHeap(c, p, t, xs))
  {
    hide Bag, Sequenced, Distinct, Items, Put, Raise;
    assert ThreadOk(c, p.threads[t]);
    var p' := FromHeap(c, p, t, xs);
    assert p'.threads[t].free == xs;
    BagMore(p.threads, t, p'.threads[t], multiset(xs));
    NewItems(p.heap, xs);
    Grow(multiset(p.live), multiset(p.global), Bag(p.threads), multiset(xs), multiset(p.heap));
    NewSequences(c, p, t, xs);
  }

  lemma {:induction false} NewSequences(c: Config, p: Pool, t: nat, xs: seq<Item>)
    requires Sequenced(p) && t < |p.threads|
    ensures Sequenced(FromHeap(c, p, t, xs))
  {
  }

  lemma {:induction false} FreeKeeps(c: Config, p: Pool, t: nat, x: Item)
    requires c.Ok() && Valid(c, p) && At(p, t, Idle) && x in p.live
    ensures x in p.sequence && x in p.frees && Valid(c, Free(c, p, t, x))
  {
    hide Bag;
    assert ThreadOk(c, p.threads[t]);
    OnePlace(p, x);
    assert x in p.heap;
    var p' := Free(c, p, t, x);
    LastItem(p'.threads[t].free);
    assert But(p'.threads[t].free, 1) == p.threads[t].free;
    BagMore(p.threads, t, p'.threads[t], multiset{x});
    assert p.live == p'.live + {x};
    OneMore(p'.live, x);
    Shift4(multiset(p'.live), multiset(p.global), Bag(p.threads), multiset{x}, multiset(p.heap));
    NextSequence(p.frees[x]);
  }

  lemma {:induction false} LoseKeeps(c: Config, p: Pool, x: Item)
    requires c.Ok() && Valid(c, p) && x in p.live
    ensures x in p.sequence && x in p.frees && Valid(c, Lose(p, x))
  {
    hide Bag;
    OnePlace(p, x);
    var p' := Lose(p, x);
    assert p.live == p'.live + {x} && p.heap == p'.heap + {x};
    OneMore(p'.live, x);
    OneMore(p'.heap, x);
    OneLess(multiset(p'.live), multiset(p.global), Bag(p.threads), multiset{x}, multiset(p'.heap));
    NextSequence(p.frees[x]);
  }

  lemma {:induction false} OneLess(a: Ms, b: Ms, c: Ms, m: Ms, h: Ms)
    requires (a + m) + b + c == h + m
    ensures a + b + c == h
  {
    assert (a + m) + b + c == (a + b + c) + m;
    Cancel(a + b + c, h, m);
  }

  lemma {:induction false} Shift4(a: Ms, b: Ms, c: Ms, m: Ms, h: Ms)
    requires (a + m) + b + c == h
    ensures a + b + (c + m) == h
  {
  }

  lemma {:induction false} NextSequence(n: nat)
    ensures (n % U32 + 1) % U32 == (n + 1) % U32
  {
  }

  /** Items taken out of a set that has no other copy of them. */
  lemma {:induction false} TakenOut(rest: Ms, xs: seq<Item>, heap: set<Item>)
    requires rest + multiset(xs) == multiset(heap)
    ensures rest == multiset(heap - Items(xs)) && |heap| == |heap - Items(xs)| + |xs|
  {
    OnceEach(rest, xs, heap);
    ItemsBag(xs);
    var ys := Items(xs);
    assert multiset(heap) == multiset(heap - ys) + multiset(ys);
    Cancel(rest, multiset(heap - ys), multiset(xs));
  }

  lemma {:induction false} Cancel(a: Ms, b: Ms, m: Ms)
    requires a + m == b + m
    ensures a == b
  {
    assert a == (a + m) - m && b == (b + m) - m;
  }

  lemma {:induction false} OnceEach(rest: Ms, xs: seq<Item>, heap: set<Item>)
    requires rest + multiset(xs) == multiset(heap)
    ensures Distinct(xs) && Items(xs) <= heap
  {
    forall x | x in xs ensures x in heap { assert x in rest + multiset(xs); }
    forall i, j | 0 <= i < j < |xs| ensures xs[i] != xs[j] { TwiceCounts(xs, i, j, rest, heap); }
  }

  lemma {:induction false} TwiceCounts(xs: seq<Item>, i: nat, j: nat, rest: Ms, heap: set<Item>)
    requires i < j < |xs| && rest + multiset(xs) == multiset(heap)
    ensures xs[i] != xs[j]
  {
    var x := xs[j];
    assert xs == xs[..j] + [x] + xs[j + 1..];
    assert multiset(xs)[x] == multiset(xs[..j])[x] + 1 + multiset(xs[j + 1..])[x];
    assert (rest + multiset(xs))[x] == multiset(heap)[x];
    assert multiset(xs[..j])[x] == 0;
    assert xs[..j][i] in multiset(xs[..j]);
  }

  /** What is given up, and what is too much. */
  lemma {:induction false} SpillBags(c: Config, p: Pool, t: nat, xs: seq<Item>, over: nat)
    requires Conserved(p) && t < |p.threads| && |p.threads[t].free| >= c.batch && |xs| == c.batch
    requires multiset(xs) == multiset(Last(p.threads[t].free, c.batch)) && over <= |p.global + xs|
    ensures var th := Thread(Idle, But(p.threads[t].free, c.batch)); var bag := Bag(p.threads[t := th]);
            var heap := p.heap - Items(Last(p.global + xs, over));
            && multiset(p.live) + multiset(But(p.global + xs, over)) + bag == multiset(heap)
            && |Bag(p.threads)| == |bag| + c.batch && |p.heap| == |heap| + over
  {
    hide Bag, Items;
    var free, global := p.threads[t].free, p.global + xs;
    var th := Thread(Idle, But(free, c.batch));
    var bag := Bag(p.threads[t := th]);
    SplitBag(free, c.batch);
    BagLess(p.threads, t, th, multiset(xs));
    SplitBag(global, over);
    assert multiset(global) == multiset(p.global) + multiset(xs);
    ShiftOut(multiset(p.live), multiset(p.global), bag, multiset(xs), multiset(But(global, over)), multiset(Last(global, over)), multiset(p.heap));
    TakenOut(multiset(p.live) + multiset(But(global, over)) + bag, Last(global, over), p.heap);
  }

  lemma {:induction false} StillSequenced(c: Config, p: Pool, t: nat, xs: seq<Item>)
    requires Sequenced(p) && t < |p.threads| && |p.threads[t].free| >= c.batch
    ensures Sequenced(Spill(c, p, t, xs))
  {
  }

  lemma {:induction false} SpillKeeps(c: Config, p: Pool, t: nat, xs: seq<Item>)
    requires c.Ok() && Valid(c, p) && At(p, t, Spilling) && |p.threads[t].free| >= c.batch
    requires multiset(xs) == multiset(Last(p.threads[t].free, c.batch))
    ensures |xs| == c.batch && Valid(c, Spill(c, p, t, xs))
  {
    hide Bag, Items, Sequenced;
    assert ThreadOk(c, p.threads[t]);
    SameSize(xs, Last(p.threads[t].free, c.batch));
    StillSequenced(c, p, t, xs);
    var global := p.global + xs;
    var over := if c.globalMax != 0 && |global| > c.globalMax then |global| - c.globalMax else 0;
    SpillBags(c, p, t, xs, over);
  }

  // ---------------------------------------------------------------- all runs

  ghost function Step(c: Config, p: Pool, e: Event): Pool
    requires c.Ok() && Valid(c, p) && Enabled(c, p, e)
  {
    match e
    case DoJoin => Join(p)
    case DoAlloc(t) => Alloc(p, t)
    case DoRefill(t, xs) => Refill(c, p, t, xs)
    case DoTake(t) => Take(p, t)
    case DoFree(t, x) => FreeKeeps(c, p, t, x); Free(c, p, t, x)
    case DoLose(t, x) => LoseKeeps(c, p, x); Lose(p, x)
    case DoSpill(t, xs) => Spill(c, p, t, xs)
  }

  lemma {:induction false} StepKeeps(c: Config, p: Pool, e: Event)
    requires c.Ok() && Valid(c, p) && Enabled(c, p, e)
    ensures Valid(c, Step(c, p, e))
  {
    hide Conserved, Counted, Sequenced;
    match e
    case DoJoin => JoinKeeps(c, p);
    case DoAlloc(t) => AllocKeeps(c, p, t);
    case DoRefill(t, xs) => if |p.global| >= c.batch { FromGlobalKeeps(c, p, t, xs); } else { FromHeapKeeps(c, p, t, xs); }
    case DoTake(t) => TakeKeeps(c, p, t);
    case DoFree(t, x) => FreeKeeps(c, p, t, x);
    case DoLose(t, x) => LoseKeeps(c, p, x);
    case DoSpill(t, xs) => SpillKeeps(c, p, t, xs);
  }

  /** The heap is asked for more only by a thread that has no item left, when the global list has less than a
      batch, and then for at most a batch; it gets something back only when the global list has more than its
      limit, or when memory for a thread's list is missing. */
  lemma {:induction false} HeapIsLastResort(c: Config, p: Pool, e: Event)
    requires c.Ok() && Valid(c, p) && Enabled(c, p, e)
    ensures var p' := Step(c, p, e);
            && p.totalAlloc <= p'.totalAlloc <= p.totalAlloc + c.batch
            && (p'.totalAlloc > p.totalAlloc ==>
                  e.DoRefill? && p.threads[e.thread].free == [] && |p.global| < c.batch && p'.global == p.global)
            && (!(p'.heap >= p.heap) ==>
                  || (e.DoLose? && p'.heap == p.heap - {e.item})
                  || (e.DoSpill? && c.globalMax != 0 && |p.global| + c.batch > c.globalMax && |p'.global| == c.globalMax))
  {
    hide Conserved, Counted, Sequenced, Distinct;
    match e
    case DoRefill(t, xs) => if |p.global| >= c.batch { SameSize(xs, Last(p.global, c.batch)); }
    case DoFree(t, x) => FreeKeeps(c, p, t, x);
    case DoLose(t, x) => LoseKeeps(c, p, x);
    case DoSpill(t, xs) => SameSize(xs, Last(p.threads[t].free, c.batch));
    case _ =>
  }

  /** The state after some events; those that are not possible are passed over. */
  ghost function Run(c: Config, p: Pool, es: seq<Event>): (r: Pool)
    requires c.Ok() && Valid(c, p)
    ensures Valid(c, r)
    decreases |es|
  {
    if es == [] then p
    else if !Enabled(c, p, es[0]) then Run(c, p, es[1..])
    else
      StepKeeps(c, p, es[0]);
      Run(c, Step(c, p, es[0]), es[1..])
  }

  /** Two threads with the same item would make two references in the bag. */
  lemma {:induction false} TwoThreads(threads: seq<Thread>, t: nat, u: nat, x: Item)
    requires t < u < |threads| && x in threads[t].free && x in threads[u].free
    ensures Bag(threads)[x] >= 2
  {
    hide Bag;
    var none := Thread(Idle, []);
    BagUpdate(threads, t, none);
    BagUpdate(threads[t := none], u, none);
    assert threads[t := none][u] == threads[u];
    assert x in multiset(threads[t].free) && x in multiset(threads[u].free);
  }

  /** For any number of threads and any order of steps: no free list has an item twice, no two
      free lists share an item, and no item in use is in a free list. */
  lemma {:induction false} Disjoint(c: Config, es: seq<Event>, t: nat, u: nat)
    requires c.Ok()
    ensures Valid(c, Init())
    ensures var p := Run(c, Init(), es);
            && Distinct(p.global) && (forall x | x in p.global :: x !in p.live)
            && (t < |p.threads| ==>
                  && Distinct(p.threads[t].free)
                  && forall x | x in p.threads[t].free :: x !in p.live && x !in p.global)
            && (t < u < |p.threads| ==> forall x | x in p.threads[t].free :: x !in p.threads[u].free)
  {
    hide Bag, Counted, Sequenced, Run, Distinct;
    InitValid(c);
    var p := Run(c, Init(), es);
    GlobalApart(p);
    if t < |p.threads| {
      ThreadApart(p, t);
      if u < |p.threads| && t < u {
        forall x | x in p.threads[t].free ensures x !in p.threads[u].free {
          if x in p.threads[u].free { TwoThreads(p.threads, t, u, x); }
          OnePlace(p, x);
        }
      }
    }
  }

  lemma {:induction false} GlobalApart(p: Pool)
    requires Conserved(p)
    ensures Distinct(p.global) && forall x | x in p.global :: x !in p.live
  {
    hide Bag, Distinct;
    assert (multiset(p.live) + Bag(p.threads)) + multiset(p.global) == multiset(p.heap);
    OnceEach(multiset(p.live) + Bag(p.threads), p.global, p.heap);
    forall x | x in p.global ensures x !in p.live { OnePlace(p, x); assert x in multiset(p.global); }
  }

  lemma {:induction false} ThreadApart(p: Pool, t: nat)
    requires Conserved(p) && t < |p.threads|
    ensures Distinct(p.threads[t].free) && forall x | x in p.threads[t].free :: x !in p.live && x !in p.global
  {
    hide Bag, Distinct;
    var free := p.threads[t].free;
    BagUpdate(p.threads, t, Thread(Idle, []));
    Rest(multiset(p.live), multiset(p.global), Bag(p.threads), multiset(free), multiset(p.heap));
    OnceEach(multiset(p.live) + multiset(p.global) + (Bag(p.threads) - multiset(free)), free, p.heap);
    forall x | x in free ensures x !in p.live && x !in p.global {
      OnePlace(p, x);
      assert x in multiset(free);
      assert Bag(p.threads)[x] > 0;
    }
  }

  lemma {:induction false} Rest(a: Ms, b: Ms, c: Ms, m: Ms, h: Ms)
    requires a + b + c == h && m <= c
    ensures (a + b + (c - m)) + m == h
  {
  }

  /** In every reachable state the statistics are right, the lists keep their limits, and a
      thread that is about to move a batch has, or finds, a full batch. */
  lemma {:induction false} Statistics(c: Config, es: seq<Event>)
    requires c.Ok()
    ensures Valid(c, Init())
    ensures var p := Run(c, Init(), es);
            && p.totalAlloc - p.totalFree == p.held + |p.global|
            && p.held == |p.live| + |Bag(p.threads)| + p.lost
            && (forall t | 0 <= t < |p.threads| && p.threads[t].pc == Idle :: |p.threads[t].free| < c.localMax)
            && (forall t | 0 <= t < |p.threads| && p.threads[t].pc == Spilling :: |p.threads[t].free| >= c.batch)
            && (c.globalMax != 0 ==> |p.global| <= c.globalMax)
  {
    hide Bag, Sequenced, Run;
    InitValid(c);
    var p := Run(c, Init(), es);
    assert |multiset(p.heap)| == |p.heap| && |multiset(p.live)| == |p.live| && |multiset(p.global)| == |p.global|;
    SizeOfSum(multiset(p.live) + multiset(p.global), Bag(p.threads));
    SizeOfSum(multiset(p.live), multiset(p.global));
    forall t | 0 <= t < |p.threads| ensures ThreadOk(c, p.threads[t]) { }
  }

  // ---------------------------------------------------------------- sequence numbers

  predicate Frees(e: Event, x: Item) { (e.DoFree? || e.DoLose?) && e.item == x }

  /** No list lacks memory. */
  predicate NoneLost(es: seq<Event>) { forall i | 0 <= i < |es| :: !es[i].DoLose? }

  lemma {:induction false} StepSequence(c: Config, p: Pool, e: Event, x: Item)
    requires c.Ok() && Valid(c, p) && Enabled(c, p, e) && x in p.sequence
    ensures var p' := Step(c, p, e);
            && x in p'.epoch && x in p'.frees && x in p.epoch && x in p.frees && p'.epoch[x] >= p.epoch[x]
            && (p'.epoch[x] == p.epoch[x] ==> p'.frees[x] == p.frees[x] + if Frees(e, x) then 1 else 0)
            && (x in p.heap && c.globalMax == 0 && !e.DoLose? ==> x in p'.heap && p'.epoch[x] == p.epoch[x])
  {
    hide Bag, Conserved, Counted;
    match e
    case DoFree(t, y) => FreeKeeps(c, p, t, y);
    case DoLose(t, y) => LoseKeeps(c, p, y);
    case DoRefill(t, xs) =>
    case _ =>
  }

  /** Over any run: an item that has not been back to the heap has been freed at least as often
      as before. Without a limit on the global list no item goes back unless a list lacks memory. */
  lemma {:induction false} RunSequence(c: Config, p: Pool, es: seq<Event>, x: Item)
    requires c.Ok() && Valid(c, p) && x in p.sequence
    ensures var p' := Run(c, p, es);
            && x in p'.sequence && x in p'.epoch && x in p'.frees && x in p.epoch && x in p.frees
            && p'.epoch[x] >= p.epoch[x]
            && (p'.epoch[x] == p.epoch[x] ==> p'.frees[x] >= p.frees[x])
            && (x in p.heap && c.globalMax == 0 && NoneLost(es) ==> p'.epoch[x] == p.epoch[x])
    decreases |es|
  {
    hide Bag, Conserved, Counted, Step;
    if es != [] {
      if Enabled(c, p, es[0]) {
        StepKeeps(c, p, es[0]);
        StepSequence(c, p, es[0], x);
        RunSequence(c, Step(c, p, es[0]), es[1..], x);
      } else {
        RunSequence(c, p, es[1..], x);
      }
    }
  }

  /** A reference to an item recorded before it is freed can be told from the item later on:
      as long as the item has not been back to the heap, the sequence number is the old one if
      and only if the item has been freed a multiple of 2^32 times since; and it has been
      freed at least once. */
  lemma {:induction false} StaleReference(c: Config, p: Pool, t: nat, x: Item, es: seq<Event>)
    requires c.Ok() && Valid(c, p) && Enabled(c, p, DoFree(t, x))
    ensures Valid(c, Step(c, p, DoFree(t, x))) && x in p.sequence && x in p.frees && x in p.epoch
    ensures var p' := Run(c, Step(c, p, DoFree(t, x)), es);
            && x in p'.sequence && x in p'.epoch && x in p'.frees
            && (c.globalMax == 0 && NoneLost(es) ==> p'.epoch[x] == p.epoch[x])
            && (p'.epoch[x] == p.epoch[x] ==>
                  && p'.frees[x] > p.frees[x]
                  && (p'.sequence[x] == p.sequence[x] <==> (p'.frees[x] - p.frees[x]) % U32 == 0)
                  && (p'.frees[x] - p.frees[x] < U32 ==> p'.sequence[x] != p.sequence[x]))
  {
    hide Bag, Counted, Run;
    OnePlace(p, x);
    StepKeeps(c, p, DoFree(t, x));
    StepSequence(c, p, DoFree(t, x), x);
    var q := Step(c, p, DoFree(t, x));
    RunSequence(c, q, es, x);
    var p' := Run(c, q, es);
    SameModulo(p.frees[x], p'.frees[x]);
  }

  lemma {:induction false} SameModulo(a: nat, b: nat)
    ensures a % U32 == b % U32 <==> (b - a) % U32 == 0
  {
    var q, r := a / U32, b / U32;
    assert a == q * U32 + a % U32 && b == r * U32 + b % U32;
    assert b - a == (r - q) * U32 + (b % U32 - a % U32);
  }

  // ---------------------------------------------------------------- the end

  /** The items in the lists of all threads, as a set. */
  function FreeItems(threads: seq<Thread>): set<Item> {
    if threads == [] then {} else Items(threads[0].free) + FreeItems(threads[1..])
  }

  /** When the program ends, all free lists are given back to the heap. */
  function Finalize(p: Pool): Pool {
    p.(threads := [], global := [], heap := p.heap - Items(p.global) - FreeItems(p.threads),
       totalFree := p.totalFree + |p.global| + |Bag(p.threads)|)
  }

  lemma {:induction false} FreeItemsBag(threads: seq<Thread>, x: Item)
    ensures x in FreeItems(threads) <==> Bag(threads)[x] > 0
  {
    if threads != [] {
      FreeItemsBag(threads[1..], x);
      assert x in threads[0].free <==> x in multiset(threads[0].free);
    }
  }

  /** What has then not been given back is exactly what is in use. So is what the statistics report as
      still allocated, if and only if no item was lost to them. */
  lemma {:induction false} LeaksAreLiveItems(c: Config, p: Pool)
    requires Valid(c, p)
    ensures Finalize(p).heap == p.live
    ensures Finalize(p).totalAlloc - Finalize(p).totalFree == |p.live| + p.lost
  {
    hide Bag, Sequenced, FreeItems;
    forall x ensures x in Finalize(p).heap <==> x in p.live {
      OnePlace(p, x);
      FreeItemsBag(p.threads, x);
      assert x in p.global <==> x in multiset(p.global);
    }
    assert |multiset(p.heap)| == |p.heap| && |multiset(p.live)| == |p.live| && |multiset(p.global)| == |p.global|;
    SizeOfSum(multiset(p.live) + multiset(p.global), Bag(p.threads));
    SizeOfSum(multiset(p.live), multiset(p.global));
  }
}
