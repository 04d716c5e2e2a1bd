/** When a sequence number tells a stale reference from a good one: exactly in pools that never
    give an item back to the heap.
 */
module AllocLives {
  import opened Octets
  import opened Seqs
  import opened AllocStack
  import opened AllocPool

  /** The state after some events from the start. */
  ghost function Reach(c: Config, es: seq<Event>): (p: Pool)
    requires c.Ok()
    ensures Valid(c, p)
  {
    InitValid(c);
    Run(c, Init(), es)
  }

  /** How often `x` is freed in a run. */
  ghost function Freed(c: Config, p: Pool, es: seq<Event>, x: Item): nat
    requires c.Ok() && Valid(c, p)
    decreases |es|
  {
    if es == [] then 0
    else if !Enabled(c, p, es[0]) then Freed(c, p, es[1..], x)
    else
      StepKeeps(c, p, es[0]);
      (if Frees(es[0], x) then 1 else 0) + Freed(c, Step(c, p, es[0]), es[1..], x)
  }

  /** The order in which a batch is moved from one list to another. */
  type Order = seq<Item> -> seq<Item>

  ghost predicate Rearranges(order: Order) { forall s :: multiset(order(s)) == multiset(s) }

  /** Every event of the run happens, batches are moved in the given order, and no list lacks memory. */
  ghost predicate Follows(c: Config, p: Pool, es: seq<Event>, order: Order)
    requires c.Ok() && Valid(c, p)
    decreases |es|
  {
    es != [] ==>
      && Enabled(c, p, es[0]) && InOrder(c, p, es[0], order)
      && (StepKeeps(c, p, es[0]); Follows(c, Step(c, p, es[0]), es[1..], order))
  }

  predicate InOrder(c: Config, p: Pool, e: Event, order: Order)
    requires Enabled(c, p, e)
  {
    match e
    case DoRefill(t, xs) => |p.global| >= c.batch ==> xs == order(Last(p.global, c.batch))
    case DoSpill(t, xs) => xs == order(Last(p.threads[t].free, c.batch))
    case DoLose(_, _) => false
    case _ => true
  }

  /** A reference to an item in use, recorded after `es` with the number that the item then has,
      is told from the item after `more` unless the item has not been freed since, or 2^32 times. */
  ghost predicate ToldApart(c: Config, es: seq<Event>, more: seq<Event>, x: Item)
    requires c.Ok()
  {
    var p := Reach(c, es);
    var p' := Run(c, p, more);
    x in p.live && 0 < Freed(c, p, more, x) < U32 ==>
      x in p.sequence && x in p'.sequence && p'.sequence[x] != p.sequence[x]
  }

  ghost predicate IsRun(c: Config, es: seq<Event>, more: seq<Event>, order: Order)
    requires c.Ok()
  {
    (InitValid(c); Follows(c, Init(), es, order)) && Follows(c, Reach(c, es), more, order)
  }

  /** The promise of the numbered references, over all runs. */
  ghost predicate Protects(c: Config, order: Order)
    requires c.Ok()
  {
    forall es, more, x | IsRun(c, es, more, order) :: ToldApart(c, es, more, x)
  }

  // ---------------------------------------------------------------- no limit: protected

  /** While an item stays out of the heap, its frees are counted. */
  lemma {:induction false} FreesAreCounted(c: Config, p: Pool, es: seq<Event>, order: Order, x: Item)
    requires c.Ok() && Valid(c, p) && c.globalMax == 0 && x in p.heap && x in p.sequence && Follows(c, p, es, order)
    ensures var p' := Run(c, p, es);
            x in p'.frees && x in p.frees && x in p'.sequence && p'.frees[x] == p.frees[x] + Freed(c, p, es, x)
    decreases |es|
  {
    hide Bag, Conserved, Counted, Step;
    if es != [] {
      StepKeeps(c, p, es[0]);
      StepSequence(c, p, es[0], x);
      FreesAreCounted(c, Step(c, p, es[0]), es[1..], order, x);
    }
  }

  lemma {:induction false} LiveIsNumbered(c: Config, p: Pool, x: Item)
    requires Valid(c, p) && x in p.live
    ensures x in p.heap && x in p.sequence
  {
    hide Bag, Counted;
    OnePlace(p, x);
  }

  lemma {:induction false} ProtectedWithoutLimit(c: Config, es: seq<Event>, more: seq<Event>, order: Order, x: Item)
    requires c.Ok() && c.globalMax == 0 && IsRun(c, es, more, order)
    ensures ToldApart(c, es, more, x)
  {
    hide Bag, Conserved, Counted, Run, Follows;
    var p := Reach(c, es);
    if x in p.live {
      LiveIsNumbered(c, p, x);
      FreesAreCounted(c, p, more, order, x);
      SameModulo(p.frees[x], Run(c, p, more).frees[x]);
    }
  }

  // ---------------------------------------------------------------- a limit: not protected

  /** One thread, outside the allocator. */
  predicate Solo(p: Pool, free: seq<Item>) { p.threads == [Thread(Idle, free)] }

  /** The events `es` lead from `p` to `p'`. */
  ghost predicate Leads(c: Config, p: Pool, es: seq<Event>, p': Pool, order: Order)
    requires c.Ok() && Valid(c, p)
  {
    Valid(c, p') && Run(c, p, es) == p' && Follows(c, p, es, order)
  }

  lemma {:induction false} LeadsNowhere(c: Config, p: Pool, order: Order)
    requires c.Ok() && Valid(c, p)
    ensures Leads(c, p, [], p, order)
    ensures forall x :: Freed(c, p, [], x) == 0
  {
  }

  lemma {:induction false} LeadsOne(c: Config, p: Pool, e: Event, order: Order)
    requires c.Ok() && Valid(c, p) && Enabled(c, p, e) && InOrder(c, p, e, order)
    ensures Valid(c, Step(c, p, e)) && Leads(c, p, [e], Step(c, p, e), order)
    ensures forall x :: Freed(c, p, [e], x) == if Frees(e, x) then 1 else 0
  {
    hide Valid, Step, InOrder, Enabled;
    StepKeeps(c, p, e);
    assert [e][1..] == [] && [e][0] == e;
    assert Follows(c, Step(c, p, e), [], order);
    assert Run(c, p, [e]) == Run(c, Step(c, p, e), []);
  }

  lemma {:induction false} RunAppend(c: Config, p: Pool, es: seq<Event>, more: seq<Event>, order: Order)
    requires c.Ok() && Valid(c, p) && Follows(c, p, es, order) && Follows(c, Run(c, p, es), more, order)
    ensures Run(c, p, es + more) == Run(c, Run(c, p, es), more) && Follows(c, p, es + more, order)
    ensures forall x :: Freed(c, p, es + more, x) == Freed(c, p, es, x) + Freed(c, Run(c, p, es), more, x)
    decreases |es|
  {
    hide Valid, Step, Enabled, InOrder;
    if es == [] {
      assert es + more == more;
    } else {
      CutAppend(es, more, 1);
      StepKeeps(c, p, es[0]);
      RunAppend(c, Step(c, p, es[0]), es[1..], more, order);
    }
  }

  lemma {:induction false} LeadsOn(c: Config, p: Pool, es: seq<Event>, p': Pool, more: seq<Event>, p'': Pool, order: Order)
    requires c.Ok() && Valid(c, p) && Valid(c, p') && Leads(c, p, es, p', order) && Leads(c, p', more, p'', order)
    ensures Leads(c, p, es + more, p'', order)
    ensures forall x :: Freed(c, p, es + more, x) == Freed(c, p, es, x) + Freed(c, p', more, x)
  {
    hide Valid, Run, Freed, Follows;
    RunAppend(c, p, es, more, order);
  }

  /** The heap has not given an item from `m` on. */
  ghost predicate UpTo(h: set<Item>, m: Item) { forall y | y in h :: y < m }

  /** It always has more. */
  lemma {:induction false} FreshItems(h: set<Item>, m: Item, n: nat) returns (xs: seq<Item>)
    requires UpTo(h, m)
    ensures |xs| == n && Distinct(xs) && Items(xs) !! h && UpTo(h + Items(xs), m + n)
  {
    xs := seq(n, i => m + i);
  }

  /** Fetch a batch `xs` and take the last of it. */
  lemma {:induction false} Fetch(c: Config, p: Pool, xs: seq<Item>, order: Order) returns (es: seq<Event>, p': Pool)
    requires c.Ok() && Valid(c, p) && Solo(p, []) && |xs| == c.batch && Rearranges(order)
    requires if |p.global| >= c.batch then xs == order(Last(p.global, c.batch)) else Distinct(xs) && Items(xs) !! p.heap
    ensures Valid(c, p') && Leads(c, p, es, p', order) && forall x :: Freed(c, p, es, x) == 0
    ensures Solo(p', But(xs, 1)) && p'.live == p.live + {xs[|xs| - 1]} && xs[|xs| - 1] !in p.live
    ensures if |p.global| >= c.batch then p'.sequence == p.sequence && p'.heap == p.heap && p'.global == But(p.global, c.batch)
            else p'.sequence == AllocPool.Put(p.sequence, xs, 0) && p'.heap == p.heap + Items(xs) && p'.global == p.global
  {
    hide Valid, Run, Freed, Items, AllocPool.Put, Leads, Distinct, Follows, Rearranges, Step, Enabled, InOrder;
    var e1, e2, e3 := DoAlloc(0), DoRefill(0, xs), DoTake(0);
    var p1 := GoRefill(c, p);
    AlwaysInOrder(c, p, e1, order);
    LeadsOne(c, p, e1, order);
    var p2 := GoFetch(c, p1, xs, order);
    LeadsOne(c, p1, e2, order);
    p' := GoTake(c, p2, xs);
    AlwaysInOrder(c, p2, e3, order);
    LeadsOne(c, p2, e3, order);
    LeadsOn(c, p, [e1], p1, [e2], p2, order);
    LeadsOn(c, p, [e1] + [e2], p2, [e3], p', order);
    es := [e1] + [e2] + [e3];
  }

  lemma {:induction false} AlwaysInOrder(c: Config, p: Pool, e: Event, order: Order)
    requires Enabled(c, p, e) && !e.DoRefill? && !e.DoSpill? && !e.DoLose?
    ensures InOrder(c, p, e, order)
  {
  }

  lemma {:induction false} GoRefill(c: Config, p: Pool) returns (p': Pool)
    requires c.Ok() && Valid(c, p) && Solo(p, [])
    ensures Enabled(c, p, DoAlloc(0)) && p' == Step(c, p, DoAlloc(0)) && p' == p.(threads := [Thread(Refilling, [])])
  {
    hide Valid;
    p' := Step(c, p, DoAlloc(0));
  }

  lemma {:induction false} GoFetch(c: Config, p: Pool, xs: seq<Item>, order: Order) returns (p': Pool)
    requires c.Ok() && Valid(c, p) && p.threads == [Thread(Refilling, [])] && |xs| == c.batch && Rearranges(order)
    requires if |p.global| >= c.batch then xs == order(Last(p.global, c.batch)) else Distinct(xs) && Items(xs) !! p.heap
    ensures Enabled(c, p, DoRefill(0, xs)) && InOrder(c, p, DoRefill(0, xs), order) && p' == Step(c, p, DoRefill(0, xs))
    ensures p'.threads == [Thread(Refilled, xs)] && p'.live == p.live
    ensures if |p.global| >= c.batch then p'.sequence == p.sequence && p'.heap == p.heap && p'.global == But(p.global, c.batch)
            else p'.sequence == AllocPool.Put(p.sequence, xs, 0) && p'.heap == p.heap + Items(xs) && p'.global == p.global
  {
    hide Valid, Items, AllocPool.Put, Raise, Distinct, Rearranges;
    if |p.global| >= c.batch { SameItems(Last(p.global, c.batch), order); }
    assert [] + xs == xs;
    p' := Step(c, p, DoRefill(0, xs));
  }

  lemma {:induction false} GoTake(c: Config, p: Pool, xs: seq<Item>) returns (p': Pool)
    requires c.Ok() && Valid(c, p) && p.threads == [Thread(Refilled, xs)] && xs != []
    ensures Enabled(c, p, DoTake(0)) && p' == Step(c, p, DoTake(0)) && xs[|xs| - 1] !in p.live
    ensures p' == p.(threads := [Thread(Idle, But(xs, 1))], live := p.live + {xs[|xs| - 1]})
  {
    hide Valid;
    Handed(c, p);
    p' := Step(c, p, DoTake(0));
  }

  lemma {:induction false} SameItems(s: seq<Item>, order: Order)
    requires Rearranges(order)
    ensures multiset(order(s)) == multiset(s)
  {
  }

  lemma {:induction false} Handed(c: Config, p: Pool)
    requires Valid(c, p) && |p.threads| == 1 && p.threads[0].free != []
    ensures p.threads[0].free[|p.threads[0].free| - 1] !in p.live
  {
    hide Bag, Counted, Sequenced;
    HandedOutOnce(p, 0);
  }

  /** Take an item from the list of the thread. */
  lemma {:induction false} TakeOwn(c: Config, p: Pool, free: seq<Item>, order: Order) returns (es: seq<Event>, p': Pool)
    requires c.Ok() && Valid(c, p) && Solo(p, free) && free != []
    ensures Valid(c, p') && Leads(c, p, es, p', order) && forall x :: Freed(c, p, es, x) == 0
    ensures Solo(p', But(free, 1)) && p'.live == p.live + {free[|free| - 1]} && free[|free| - 1] !in p.live
    ensures p'.sequence == p.sequence && p'.heap == p.heap && p'.global == p.global
  {
    hide Valid, Leads, Freed;
    p' := Step(c, p, DoAlloc(0));
    LeadsOne(c, p, DoAlloc(0), order);
    Handed(c, p);
    es := [DoAlloc(0)];
  }

  /** All these have the number that they came with. */
  ghost predicate Unused(p: Pool, xs: seq<Item>) {
    forall y | y in xs :: y in p.sequence && p.sequence[y] == 0
  }

  /** `got` are items in use that have never been freed. */
  ghost predicate Got(p: Pool, got: seq<Item>) {
    Distinct(got) && Unused(p, got) && forall y | y in got :: y in p.live
  }

  /** Take new items until at least `n` are in use and the thread's list is empty. */
  lemma {:induction false} TakeMany(c: Config, p: Pool, free: seq<Item>, got: seq<Item>, m: Item, n: nat, order: Order)
    returns (es: seq<Event>, p': Pool, got': seq<Item>, m': Item)
    requires c.Ok() && Valid(c, p) && Solo(p, free) && p.global == [] && Rearranges(order)
    requires Unused(p, free) && Got(p, got) && UpTo(p.heap, m)
    ensures Valid(c, p') && Leads(c, p, es, p', order) && Solo(p', []) && p'.global == []
    ensures Got(p', got') && UpTo(p'.heap, m') && |got'| >= n
    decreases if |got| < n then n - |got| else 0, |free|
  {
    hide Valid, Leads, Items, AllocPool.Put, UpTo, Rearranges, Freed;
    if |got| >= n && free == [] {
      LeadsNowhere(c, p, order);
      es, p', got', m' := [], p, got, m;
    } else {
      var es1, p1, top, free1, m1;
      if free != [] {
        es1, p1 := TakeOwn(c, p, free, order);
        top, free1, m1 := free[|free| - 1], But(free, 1), m;
      } else {
        var xs := FreshItems(p.heap, m, c.batch);
        es1, p1 := Fetch(c, p, xs, order);
        top, free1, m1 := xs[|xs| - 1], But(xs, 1), m + c.batch;
        PutZero(p.sequence, xs);
      }
      var es2;
      es2, p', got', m' := TakeMany(c, p1, free1, got + [top], m1, n, order);
      LeadsOn(c, p, es1, p1, es2, p', order);
      es := es1 + es2;
    }
  }

  lemma {:induction false} PutZero(m: map<Item, nat>, xs: seq<Item>)
    ensures forall y | y in xs :: y in AllocPool.Put(m, xs, 0) && AllocPool.Put(m, xs, 0)[y] == 0
    ensures forall y | y in m && m[y] == 0 :: y in AllocPool.Put(m, xs, 0) && AllocPool.Put(m, xs, 0)[y] == 0
  {
  }

  /** How many items in use it takes to make the global list overflow by freeing them, with `g` items
      there and `f` in the thread's list. */
  function Need(c: Config, g: nat, f: nat): nat
    requires c.Ok() && c.globalMax != 0 && g <= c.globalMax && f < c.localMax
    decreases c.globalMax - g, c.localMax - f
  {
    if f + 1 < c.localMax then 1 + Need(c, g, f + 1)
    else if g + c.batch > c.globalMax then 1
    else 1 + Need(c, g + c.batch, c.localMax - c.batch)
  }

  /** Free an item; the thread's list does not get full by that. */
  lemma {:induction false} FreeOne(c: Config, p: Pool, free: seq<Item>, y: Item, order: Order) returns (es: seq<Event>, p': Pool)
    requires c.Ok() && Valid(c, p) && Solo(p, free) && y in p.live && |free| + 1 < c.localMax
    ensures Valid(c, p') && Leads(c, p, es, p', order) && forall x :: Freed(c, p, es, x) == if x == y then 1 else 0
    ensures Solo(p', free + [y]) && p'.live == p.live - {y} && p'.heap == p.heap && p'.global == p.global
  {
    hide Valid, Leads, Freed;
    Numbered(c, p, y);
    var e := DoFree(0, y);
    p' := Step(c, p, e);
    LeadsOne(c, p, e, order);
    es := [e];
  }

  lemma {:induction false} Numbered(c: Config, p: Pool, y: Item)
    requires Valid(c, p) && y in p.live
    ensures y in p.heap && y in p.sequence && y in p.frees
  {
    LiveIsNumbered(c, p, y);
  }

  /** Free an item that makes the thread's list full: a batch goes to the global list. If that has no
      room for it, the last item goes back to the heap. */
  lemma {:induction false} FreeLast(c: Config, p: Pool, free: seq<Item>, y: Item, xs: seq<Item>, order: Order)
    returns (es: seq<Event>, p': Pool)
    requires c.Ok() && Valid(c, p) && Solo(p, free) && y in p.live && |free| + 1 == c.localMax && Rearranges(order)
    requires c.globalMax != 0 && xs == order(Last(free + [y], c.batch))
    ensures Valid(c, p') && Leads(c, p, es, p', order) && forall x :: Freed(c, p, es, x) == if x == y then 1 else 0
    ensures Solo(p', But(free + [y], c.batch)) && p'.live == p.live - {y} && |xs| == c.batch && p'.heap <= p.heap
    ensures |p.global| + c.batch <= c.globalMax ==> p'.global == p.global + xs
    ensures |p.global| + c.batch > c.globalMax ==> xs[|xs| - 1] !in p'.heap
  {
    hide Valid, Leads, Follows, Items, Freed;
    Numbered(c, p, y);
    var e := DoFree(0, y);
    var p1 := Step(c, p, e);
    LeadsOne(c, p, e, order);
    SameSize(xs, Last(free + [y], c.batch));
    var e2 := DoSpill(0, xs);
    p' := Step(c, p1, e2);
    LeadsOne(c, p1, e2, order);
    LeadsOn(c, p, [e], p1, [e2], p', order);
    es := [e] + [e2];
    var global := p.global + xs;
    if |global| > c.globalMax {
      var over := |global| - c.globalMax;
      InItems(Last(global, over), over - 1);
    }
  }

  lemma {:induction false} InItems(xs: seq<Item>, i: nat)
    requires i < |xs|
    ensures xs[i] in Items(xs)
  {
  }

  /** The last of a batch, once rearranged, is one of the batch. */
  lemma {:induction false} LastOf(s: seq<Item>, n: nat, order: Order) returns (x: Item)
    requires 0 < n <= |s| && Rearranges(order)
    ensures var xs := order(Last(s, n)); |xs| == n && x == xs[n - 1] && x in s
  {
    var ys := Last(s, n);
    var xs := order(ys);
    SameSize(xs, ys);
    x := xs[n - 1];
    assert x in multiset(xs);
    assert x in multiset(ys);
  }

  lemma {:induction false} Apart(c: Config, p: Pool, free: seq<Item>, got: seq<Item>)
    requires Valid(c, p) && Solo(p, free) && forall y | y in got :: y in p.live
    ensures forall y | y in free :: y !in got
  {
    hide Bag, Counted, Sequenced;
    ThreadApart(p, 0);
  }

  /** Free items in use until one goes back to the heap: one that was free before, or one of those
      freed, and then freed once. */
  lemma {:induction false} FreeMany(c: Config, p: Pool, free: seq<Item>, got: seq<Item>, order: Order)
    returns (es: seq<Event>, p': Pool, free': seq<Item>, x: Item)
    requires c.Ok() && Valid(c, p) && c.globalMax != 0 && Solo(p, free) && |free| < c.localMax && |p.global| <= c.globalMax
    requires |got| >= Need(c, |p.global|, |free|) && Distinct(got) && (forall y | y in got :: y in p.live) && Rearranges(order)
    ensures x in free || x in got
    ensures Valid(c, p') && Leads(c, p, es, p', order) && Freed(c, p, es, x) == if x in got then 1 else 0
    ensures Solo(p', free') && x !in p'.heap && p'.heap <= p.heap
    decreases c.globalMax - |p.global|, c.localMax - |free|
  {
    hide Valid, Leads, Rearranges, Freed;
    var rest, y := got[..|got| - 1], got[|got| - 1];
    assert got == rest + [y];
    Apart(c, p, free, got);
    var full := free + [y];
    if |free| + 1 == c.localMax && |p.global| + c.batch > c.globalMax {
      x := LastOf(full, c.batch, order);
      free' := But(full, c.batch);
      es, p' := FreeLast(c, p, free, y, order(Last(full, c.batch)), order);
    } else {
      var es1, p1, es2, free1;
      if |free| + 1 < c.localMax {
        free1 := full;
        es1, p1 := FreeOne(c, p, free, y, order);
      } else {
        free1 := But(full, c.batch);
        es1, p1 := FreeLast(c, p, free, y, order(Last(full, c.batch)), order);
      }
      es2, p', free', x := FreeMany(c, p1, free1, rest, order);
      LeadsOn(c, p, es1, p1, es2, p', order);
      es := es1 + es2;
    }
  }

  /** Use up the lists and fetch from the heap, which gives `x` out again. */
  lemma {:induction false} Again(c: Config, p: Pool, free: seq<Item>, order: Order, x: Item, m: Item) returns (es: seq<Event>, p': Pool)
    requires c.Ok() && Valid(c, p) && Solo(p, free) && Rearranges(order) && x !in p.heap && UpTo(p.heap + {x}, m)
    ensures Valid(c, p') && Leads(c, p, es, p', order) && Freed(c, p, es, x) == 0
    ensures x in p'.live && x in p'.sequence && p'.sequence[x] == 0
    decreases |free| + |p.global|
  {
    hide Valid, Leads, AllocPool.Put, Freed, Rearranges;
    if free != [] || |p.global| >= c.batch {
      var es1, p1, es2, free1;
      if free != [] {
        es1, p1 := TakeOwn(c, p, free, order);
        free1 := But(free, 1);
      } else {
        var top := LastOf(p.global, c.batch, order);
        var xs := order(Last(p.global, c.batch));
        es1, p1 := Fetch(c, p, xs, order);
        free1 := But(xs, 1);
      }
      es2, p' := Again(c, p1, free1, order, x, m);
      LeadsOn(c, p, es1, p1, es2, p', order);
      es := es1 + es2;
    } else {
      var ys := FreshItems(p.heap + {x}, m, c.batch - 1);
      var xs := ys + [x];
      FreshBatch(ys, x, p.heap);
      es, p' := Fetch(c, p, xs, order);
      PutZero(p.sequence, xs);
    }
  }

  lemma {:induction false} FreshBatch(ys: seq<Item>, x: Item, h: set<Item>)
    requires Distinct(ys) && Items(ys) !! h + {x} && x !in h
    ensures Distinct(ys + [x]) && Items(ys + [x]) !! h
  {
    forall i | 0 <= i < |ys| ensures ys[i] != x { assert ys[i] in Items(ys); }
    forall y | y in ys + [x] ensures y !in h { if y in ys { assert y in Items(ys); } }
  }

  /** In every pool with a limit, and whatever the order in which batches are moved, there is a run in
      which an item is freed once, goes back to the heap, and is handed out again with the number it
      had. */
  lemma {:induction false} StaleAccepted(c: Config, order: Order) returns (es: seq<Event>, more: seq<Event>, x: Item)
    requires c.Ok() && c.globalMax != 0 && Rearranges(order)
    ensures IsRun(c, es, more, order)
    ensures var p := Reach(c, es);
            var p' := Run(c, p, more);
            && x in p.live && x in p'.live && Freed(c, p, more, x) == 1
            && x in p.sequence && x in p'.sequence && p'.sequence[x] == p.sequence[x]
  {
    hide Valid, Freed, Rearranges, Run, Follows;
    InitValid(c);
    var p1 := Step(c, Init(), DoJoin);
    LeadsOne(c, Init(), DoJoin, order);
    var es2, p2, got, m := TakeMany(c, p1, [], [], 0, Need(c, 0, 0), order);
    LeadsOn(c, Init(), [DoJoin], p1, es2, p2, order);
    es := [DoJoin] + es2;
    var es3, p3, free3;
    es3, p3, free3, x := FreeMany(c, p2, [], got, order);
    Numbered(c, p2, x);
    var es4, p4 := Again(c, p3, free3, order, x, m);
    LeadsOn(c, p2, es3, p3, es4, p4, order);
    more := es3 + es4;
  }

  /** A recorded number tells a stale reference from a good one on all runs if and only if the pool
      never gives items back to the heap, that is, has no limit on its global list. */
  lemma {:induction false} ProtectsIff(c: Config, order: Order)
    requires c.Ok() && Rearranges(order)
    ensures Protects(c, order) <==> c.globalMax == 0
  {
    hide ToldApart, IsRun, Rearranges;
    if c.globalMax == 0 {
      forall es, more, x | IsRun(c, es, more, order) ensures ToldApart(c, es, more, x) {
        ProtectedWithoutLimit(c, es, more, order, x);
      }
    } else {
      var es, more, x := StaleAccepted(c, order);
      NotToldApart(c, es, more, x);
    }
  }

  lemma {:induction false} NotToldApart(c: Config, es: seq<Event>, more: seq<Event>, x: Item)
    requires c.Ok()
    requires var p := Reach(c, es);
             x in p.live && Freed(c, p, more, x) == 1 && x in p.sequence && x in Run(c, p, more).sequence
             && Run(c, p, more).sequence[x] == p.sequence[x]
    ensures !ToldApart(c, es, more, x)
  {
    hide Run, Freed, Valid;
  }
}
