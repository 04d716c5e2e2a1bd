/** The allocator as it runs: the lists of the threads and the global list are chunked stacks,
    and each part of an allocation or a free that a thread does on its own, or under the lock,
    is a step of `AllocPool`. */
module AllocCode {
  import opened Octets
  import opened Options
  import opened Seqs
  import opened AllocStack
  import P = AllocPool
  import opened AllocPool

  // ---------------------------------------------------------------- moving batches

  /** A full batch from one stack to another, with memory for the chunks. */
  method MoveBatch(from: Stack, to: Stack, batch: nat) returns (f: Stack, t: Stack, items: seq<Item>)
    requires from.Valid() && to.Valid() && batch <= from.size
    ensures f.Valid() && t.Valid() && |from.Contents()| == from.size && |items| == batch
    ensures f.Contents() == But(from.Contents(), batch) && t.Contents() == to.Contents() + items
    ensures multiset(items) == multiset(Last(from.Contents(), batch))
  {
    hide Full, Stack.Contents, Stack.Valid;
    SizeIsLength(from);
    var left;
    f, t, left, items := MoveLoop(from, to, batch, batch);
  }

  /** A batch from the heap, one item at a time. */
  method PushAll(s: Stack, items: seq<Item>) returns (s': Stack)
    requires s.Valid()
    ensures s'.Valid() && s'.Contents() == s.Contents() + items
  {
    hide Full, Stack.Contents, Stack.Valid;
    s' := s;
    assert items[..0] == [] && s.Contents() + [] == s.Contents();
    for i := 0 to |items|
      invariant s'.Valid() && s'.Contents() == s.Contents() + items[..i]
    {
      var pushed;
      pushed, s' := PushStack(s', items[i], true);
      assert items[..i + 1] == items[..i] + [items[i]];
      AppendAssoc(s.Contents(), items[..i], [items[i]]);
    }
    assert items[..|items|] == items;
  }

  /** Drop items until the limit is kept. */
  method TrimStack(s: Stack, limit: nat) returns (s': Stack, n: nat)
    requires s.Valid()
    ensures s'.Valid() && |s.Contents()| == s.size
    ensures n == (if s.size > limit then s.size - limit else 0) && s'.Contents() == But(s.Contents(), n)
  {
    hide Full, Stack.Contents, Stack.Valid;
    SizeIsLength(s);
    ghost var all := s.Contents();
    s', n := s, 0;
    assert all[..|all|] == all;
    while s'.size > limit
      invariant s'.Valid() && n <= |all| && s'.Contents() == But(all, n) && s'.size == |all| - n
      invariant n == 0 || s'.size >= limit
      decreases s'.size
    {
      var ok, item, rest := PopStack(s');
      SizeIsLength(rest);
      assert rest.Contents() == But(all, n + 1) by { assert (rest.Contents() + [item])[..|all| - n - 1] == rest.Contents(); }
      s', n := rest, n + 1;
    }
  }

  /** Give back everything in a list. */
  method DrainStack(s: Stack) returns (n: nat)
    requires s.Valid()
    ensures n == |s.Contents()|
  {
    hide Full, Stack.Contents, Stack.Valid;
    n := 0;
    var more, item, rest := PopStack(s);
    while more
      invariant rest.Valid() && n + |rest.Contents()| + (if more then 1 else 0) == |s.Contents()| && (!more ==> rest.Contents() == [])
      decreases |rest.Contents()|, more
    {
      n := n + 1;
      more, item, rest := PopStack(rest);
    }
  }

  // ---------------------------------------------------------------- the pool object

  datatype ThreadPool = ThreadPool(pc: Pc, stack: Stack)

  predicate StacksOk(ts: seq<ThreadPool>) { forall i | 0 <= i < |ts| :: ts[i].stack.Valid() }

  function Threads(ts: seq<ThreadPool>): (r: seq<Thread>)
    requires StacksOk(ts)
    ensures |r| == |ts|
  {
    seq(|ts|, i requires 0 <= i < |ts| => Thread(ts[i].pc, ts[i].stack.Contents()))
  }

  lemma {:induction false} ThreadsUpdate(ts: seq<ThreadPool>, t: nat, tp: ThreadPool)
    requires StacksOk(ts) && t < |ts| && tp.stack.Valid()
    ensures StacksOk(ts[t := tp]) && Threads(ts[t := tp]) == Threads(ts)[t := Thread(tp.pc, tp.stack.Contents())]
  {
  }

  class TypePool {
    const config: Config
    var threads: seq<ThreadPool>
    var global: Stack
    var sequence: map<Item, nat>
    var totalAlloc: nat
    var totalFree: nat
    var held: int
    ghost var live: set<Item>
    ghost var heap: set<Item>
    ghost var frees: map<Item, nat>
    ghost var epoch: map<Item, nat>
    ghost var lost: nat

    ghost predicate Ok()
      reads this
    {
      StacksOk(threads) && global.Valid() && config.Ok()
    }

    /** The pool as `AllocPool` sees it. */
    ghost function State(): Pool
      reads this
      requires Ok()
    {
      Pool(Threads(threads), global.Contents(), live, heap, sequence, totalAlloc, totalFree, held, frees, epoch, lost)
    }

    ghost predicate Valid()
      reads this
    {
      Ok() && P.Valid(config, State())
    }

    constructor (config: Config)
      requires config.Ok()
      ensures Valid() && State() == Init() && this.config == config
    {
      this.config := config;
      threads, global := [], Stack([Fresh()], 0, 0, 0);
      sequence, totalAlloc, totalFree, held := map[], 0, 0, 0;
      live, heap, frees, epoch, lost := {}, {}, map[], map[], 0;
      new;
      InitValid(config);
    }

    /** Hand out the item on top of the thread's list. */
    method PopLocal(t: nat) returns (item: Option<Item>)
      requires Ok() && t < |threads|
      modifies this`threads, this`live
      ensures Ok() && item.Some? == (old(State()).threads[t].free != [])
      ensures item.Some? ==> State() == HandOut(old(State()), t) && live == old(live) + {item.value} && threads[t].pc == Idle
      ensures item.None? ==> State() == old(State())
    {
      hide Full, Stack.Contents, Stack.Valid;
      var ok, x, s := PopStack(threads[t].stack);
      item := None;
      if ok {
        item := Some(x);
        ThreadsUpdate(threads, t, ThreadPool(Idle, s));
        assert (s.Contents() + [x])[..|s.Contents()|] == s.Contents();
        threads := threads[t := ThreadPool(Idle, s)];
        live := live + {x};
      }
    }

    /** The first part of an allocation. */
    method TryAlloc(t: nat) returns (item: Option<Item>)
      requires Valid() && Enabled(config, State(), DoAlloc(t))
      modifies this
      ensures Valid() && State() == Step(config, old(State()), DoAlloc(t))
      ensures item.Some? <==> threads[t].pc == Idle
      ensures item.Some? ==> live == old(live) + {item.value} && item.value !in old(live)
    {
      hide Full, Stack.Contents, Stack.Valid, P.Valid;
      StepKeeps(config, State(), DoAlloc(t));
      ghost var p := State();
      item := PopLocal(t);
      if item.None? {
        ThreadsUpdate(threads, t, ThreadPool(Refilling, threads[t].stack));
        threads := threads[t := ThreadPool(Refilling, threads[t].stack)];
      } else {
        ItemIsNew(config, p, t);
      }
    }

    /** The part under the lock: a batch from the global list, or from the heap. */
    method Refill(t: nat, fromHeap: seq<Item>) returns (ghost xs: seq<Item>)
      requires Valid() && At(State(), t, Refilling)
      requires |fromHeap| <= config.batch && Distinct(fromHeap) && Items(fromHeap) !! heap
      modifies this
      ensures Enabled(config, old(State()), DoRefill(t, xs)) && (|old(State()).global| < config.batch ==> xs == fromHeap)
      ensures Valid() && State() == Step(config, old(State()), DoRefill(t, xs))
    {
      hide Full, Stack.Contents, Stack.Valid, P.Valid, Distinct, Items, AllocPool.Put, Raise;
      ghost var p := State();
      SizeIsLength(global);
      if global.size >= config.batch {
        var g, l, moved := MoveBatch(global, threads[t].stack, config.batch);
        xs := moved;
        StepKeeps(config, p, DoRefill(t, xs));
        ThreadsUpdate(threads, t, ThreadPool(Refilled, l));
        global, threads, held := g, threads[t := ThreadPool(Refilled, l)], held + config.batch;
      } else {
        xs := fromHeap;
        StepKeeps(config, p, DoRefill(t, xs));
        var l := PushAll(threads[t].stack, fromHeap);
        ThreadsUpdate(threads, t, ThreadPool(Refilled, l));
        threads := threads[t := ThreadPool(Refilled, l)];
        held, totalAlloc := held + |fromHeap|, totalAlloc + |fromHeap|;
        sequence := AllocPool.Put(sequence, fromHeap, 0);
        heap, frees, epoch := heap + Items(fromHeap), AllocPool.Put(frees, fromHeap, 0), Raise(epoch, fromHeap);
      }
    }

    /** The last part: an item of the batch, if there is one. */
    method TakeItem(t: nat) returns (item: Option<Item>)
      requires Valid() && Enabled(config, State(), DoTake(t))
      modifies this
      ensures Valid() && State() == Step(config, old(State()), DoTake(t))
      ensures item.Some? <==> old(State()).threads[t].free != []
      ensures item.Some? ==> live == old(live) + {item.value} && item.value !in old(live)
    {
      hide Full, Stack.Contents, Stack.Valid, P.Valid;
      ghost var p := State();
      StepKeeps(config, p, DoTake(t));
      item := PopLocal(t);
      if item.None? {
        ThreadsUpdate(threads, t, ThreadPool(Idle, threads[t].stack));
        threads := threads[t := ThreadPool(Idle, threads[t].stack)];
      } else {
        ItemIsNew(config, p, t);
      }
    }

    /** A whole allocation by one thread, with what the heap would give. The item is not in use by
        anybody. It fails only if neither list can help and the heap gives nothing. */
    method Alloc(t: nat, fromHeap: seq<Item>) returns (item: Option<Item>)
      requires Valid() && At(State(), t, Idle)
      requires |fromHeap| <= config.batch && Distinct(fromHeap) && Items(fromHeap) !! heap
      modifies this
      ensures Valid() && At(State(), t, Idle)
      ensures item.Some? ==> live == old(live) + {item.value} && item.value !in old(live)
      ensures item.None? ==> live == old(live)
      ensures item.None? <==> old(State()).threads[t].free == [] && |old(State()).global| < config.batch && fromHeap == []
    {
      hide Full, Stack.Contents, Stack.Valid, P.Valid, Distinct, Items;
      ghost var p := State();
      item := TryAlloc(t);
      if item.Some? { return; }
      ghost var p1 := State();
      ghost var xs := Refill(t, fromHeap);
      FilledUp(config, p1, t, xs);
      item := TakeItem(t);
    }

    /** The first part of a free: the item goes onto the thread's own list, or back to the heap if the
        list has no room and `memory` for more is missing. */
    method FreeLocal(t: nat, x: Item, memory: bool) returns (pushed: bool)
      requires Valid() && Enabled(config, State(), DoFree(t, x))
      modifies this
      ensures Valid() && (memory ==> pushed)
      ensures pushed ==> State() == Step(config, old(State()), DoFree(t, x))
      ensures !pushed ==> State() == Step(config, old(State()), DoLose(t, x))
    {
      hide Full, Stack.Contents, Stack.Valid, P.Valid, Free, Lose;
      ghost var p := State();
      Freeable(config, p, x);
      var s;
      pushed, s := PushStack(threads[t].stack, x, memory);
      if pushed {
        StepKeeps(config, p, DoFree(t, x));
        KeepItem(t, x, s);
      } else {
        StepKeeps(config, p, DoLose(t, x));
        LoseItem(x);
      }
    }

    /** The thread's list now has the item. */
    method KeepItem(t: nat, x: Item, s: Stack)
      requires Ok() && t < |threads| && x in sequence && x in frees
      requires s.Valid() && s.Contents() == threads[t].stack.Contents() + [x]
      modifies this
      ensures Ok() && State() == P.Free(config, old(State()), t, x)
    {
      hide Full, Stack.Contents, Stack.Valid;
      SizeIsLength(s);
      var pc := if s.size < config.localMax then Idle else Spilling;
      ThreadsUpdate(threads, t, ThreadPool(pc, s));
      threads := threads[t := ThreadPool(pc, s)];
      sequence := sequence[x := (sequence[x] + 1) % U32];
      live, frees := live - {x}, frees[x := frees[x] + 1];
    }

    /** The list is as it was, and not full. */
    method LoseItem(x: Item)
      requires Ok() && x in sequence && x in frees
      modifies this
      ensures Ok() && State() == P.Lose(old(State()), x)
    {
      hide Full, Stack.Contents, Stack.Valid;
      sequence := sequence[x := (sequence[x] + 1) % U32];
      live, heap, lost, frees := live - {x}, heap - {x}, lost + 1, frees[x := frees[x] + 1];
    }

    /** The part under the lock: a batch to the global list, and what is then too much there
        back to the heap. The batch is always full. */
    method Spill(t: nat) returns (ghost xs: seq<Item>)
      requires Valid() && At(State(), t, Spilling)
      modifies this
      ensures Enabled(config, old(State()), DoSpill(t, xs)) && |xs| == config.batch
      ensures Valid() && State() == Step(config, old(State()), DoSpill(t, xs))
    {
      hide Full, Stack.Contents, Stack.Valid, P.Valid, Items;
      ghost var p := State();
      ListIsFull(config, p, t);
      SizeIsLength(threads[t].stack);
      var l, g, moved := MoveBatch(threads[t].stack, global, config.batch);
      xs := moved;
      StepKeeps(config, p, DoSpill(t, xs));
      var dropped := 0;
      ghost var all := g.Contents();
      assert all == p.global + xs && But(all, 0) == all;
      if config.globalMax != 0 {
        g, dropped := TrimStack(g, config.globalMax);
      }
      ThreadsUpdate(threads, t, ThreadPool(Idle, l));
      threads, global := threads[t := ThreadPool(Idle, l)], g;
      held, totalFree := held - config.batch, totalFree + dropped;
      heap := heap - Items(Last(all, dropped));
    }

    /** A whole free by one thread. */
    method Dealloc(t: nat, x: Item, memory: bool)
      requires Valid() && At(State(), t, Idle) && x in live
      modifies this
      ensures Valid() && At(State(), t, Idle) && live == old(live) - {x}
    {
      hide Full, Stack.Contents, Stack.Valid, P.Valid, Items;
      var _ := FreeLocal(t, x, memory);
      if threads[t].pc == Spilling {
        ghost var xs := Spill(t);
      }
    }

    /** At the end of the program: first the global list, then those of the threads, one after the
        other. */
    method FinalizePool()
      requires Valid()
      modifies this
      ensures Ok() && State() == Finalize(old(State()))
    {
      hide Full, Stack.Contents, Stack.Valid, P.Valid, Items, Bag, FreeItems;
      ghost var p := State();
      var n := DrainStack(global);
      totalFree := totalFree + n;
      heap := heap - Items(p.global);
      global := EmptyStack();
      NothingFree();
      while threads != []
        invariant Ok()
        invariant totalFree + |Bag(Threads(threads))| == p.totalFree + |p.global| + |Bag(p.threads)|
        invariant heap - FreeItems(Threads(threads)) == p.heap - Items(p.global) - FreeItems(p.threads)
        invariant global.Contents() == []
        invariant p == old(State()) && State() == p.(threads := Threads(threads), global := [], heap := heap, totalFree := totalFree)
        decreases |threads|
      {
        HeadPool(threads);
        n := DrainStack(threads[0].stack);
        totalFree := totalFree + n;
        heap := heap - Items(threads[0].stack.Contents());
        threads := threads[1..];
      }
      assert Threads(threads) == [];
    }
  }

  method EmptyStack() returns (s: Stack)
    ensures s.Valid() && s.Contents() == []
  {
    s := Stack([Fresh()], 0, 0, 0);
  }

  lemma {:induction false} NothingFree()
    ensures |Bag([])| == 0 && FreeItems([]) == {}
  {
  }

  /** The first of the threads' lists, and the others. */
  lemma {:induction false} HeadPool(ts: seq<ThreadPool>)
    requires StacksOk(ts) && ts != []
    ensures StacksOk(ts[1..]) && Threads(ts)[1..] == Threads(ts[1..])
    ensures |Bag(Threads(ts))| == |ts[0].stack.Contents()| + |Bag(Threads(ts[1..]))|
    ensures FreeItems(Threads(ts)) == Items(ts[0].stack.Contents()) + FreeItems(Threads(ts[1..]))
  {
    hide Stack.Contents, Stack.Valid, Items;
    var free := ts[0].stack.Contents();
    assert Threads(ts)[1..] == Threads(ts[1..]);
    SizeOfSum(multiset(free), Bag(Threads(ts[1..])));
    assert |multiset(free)| == |free|;
  }

  lemma {:induction false} Freeable(c: Config, p: Pool, x: Item)
    requires P.Valid(c, p) && x in p.live
    ensures x in p.sequence && x in p.frees
  {
    OnePlace(p, x);
  }

  lemma {:induction false} ListIsFull(c: Config, p: Pool, t: nat)
    requires c.Ok() && P.Valid(c, p) && At(p, t, Spilling)
    ensures |p.threads[t].free| >= c.batch
  {
    assert ThreadOk(c, p.threads[t]);
  }

  /** After a refill there is nothing to take only if the heap gave nothing. */
  lemma {:induction false} FilledUp(c: Config, p: Pool, t: nat, xs: seq<Item>)
    requires c.Ok() && P.Valid(c, p) && Enabled(c, p, DoRefill(t, xs)) && p.threads[t].free == []
    ensures Step(c, p, DoRefill(t, xs)).threads[t].free == [] <==> |p.global| < c.batch && xs == []
  {
    if |p.global| >= c.batch { SameSize(xs, Last(p.global, c.batch)); }
  }

  lemma {:induction false} ItemIsNew(c: Config, p: Pool, t: nat)
    requires P.Valid(c, p) && t < |p.threads| && p.threads[t].free != []
    ensures p.threads[t].free[|p.threads[t].free| - 1] !in p.live
    ensures HandOut(p, t).live == p.live + {p.threads[t].free[|p.threads[t].free| - 1]}
  {
    HandedOutOnce(p, t);
  }
}
