/** The bucketed hash table: buckets are lists of items, a key lives in the bucket its hash
    selects, and an inserted item can later be removed through its handle.
 */
module HashTable {
  import opened Options

  const HASH_INIT: nat := 5381

  /** hash * 33 + octet, in 32 bits. */
  function HashStep(h: nat, c: char): nat {
    (h * 33 + c as int) % 0x1_0000_0000
  }

  function HashFrom(h: nat, key: string): nat
    decreases |key|
  {
    if key == [] then h else HashFrom(HashStep(h, key[0]), key[1..])
  }

  function Hash(key: string): nat { HashFrom(HASH_INIT, key) }

  /** `id` tells items apart, as their addresses do. */
  datatype Item<V> = Item(key: string, val: V, id: nat)

  datatype Handle = Handle(bucket: nat, id: nat)

  datatype InsertResult = Inserted(handle: Handle) | AlreadyExists

  // ---------------------------------------------------------------- one bucket

  function Lookup<V>(chain: seq<Item<V>>, key: string): Option<V> {
    if chain == [] then None
    else if chain[0].key == key then Some(chain[0].val)
    else Lookup(chain[1..], key)
  }

  function KeyOf<V>(chain: seq<Item<V>>, id: nat): Option<string> {
    if chain == [] then None
    else if chain[0].id == id then Some(chain[0].key)
    else KeyOf(chain[1..], id)
  }

  /** Keys and ids in a bucket are distinct, and the bucket is the right one. */
  ghost predicate ChainOk<V>(chain: seq<Item<V>>, b: nat, n: nat, nextId: nat) {
    && n > 0
    && (forall i | 0 <= i < |chain| :: Hash(chain[i].key) % n == b && chain[i].id < nextId)
    && (forall i, j | 0 <= i < j < |chain| :: chain[i].key != chain[j].key && chain[i].id != chain[j].id)
  }

  lemma {:induction false} LookupAt<V>(chain: seq<Item<V>>, i: nat)
    requires i < |chain| && forall j, k | 0 <= j < k < |chain| :: chain[j].key != chain[k].key
    ensures Lookup(chain, chain[i].key) == Some(chain[i].val)
  {
    if i > 0 { LookupAt(chain[1..], i - 1); }
  }

  lemma {:induction false} LookupAbsent<V>(chain: seq<Item<V>>, key: string)
    requires forall j | 0 <= j < |chain| :: chain[j].key != key
    ensures Lookup(chain, key) == None
  {
    if chain != [] { LookupAbsent(chain[1..], key); }
  }

  lemma {:induction false} LookupAppend<V>(chain: seq<Item<V>>, it: Item<V>, key: string)
    ensures Lookup(chain + [it], key)
         == if Lookup(chain, key).Some? then Lookup(chain, key) else if it.key == key then Some(it.val) else None
  {
    if chain == [] {
      assert chain + [it] == [it] && [it][1..] == [];
    } else {
      assert (chain + [it])[1..] == chain[1..] + [it];
      LookupAppend(chain[1..], it, key);
    }
  }

  function Without<V>(chain: seq<Item<V>>, i: nat): seq<Item<V>>
    requires i < |chain|
  {
    chain[..i] + chain[i + 1..]
  }

  lemma {:induction false} LookupWithout<V>(chain: seq<Item<V>>, i: nat, key: string)
    requires i < |chain| && forall j, k | 0 <= j < k < |chain| :: chain[j].key != chain[k].key
    ensures Lookup(Without(chain, i), key) == if key == chain[i].key then None else Lookup(chain, key)
  {
    if i == 0 {
      assert Without(chain, i) == chain[1..];
      if key == chain[0].key { LookupAbsent(chain[1..], key); }
    } else {
      assert Without(chain, i)[1..] == Without(chain[1..], i - 1);
      LookupWithout(chain[1..], i - 1, key);
    }
  }

  lemma {:induction false} KeyOfAt<V>(chain: seq<Item<V>>, i: nat)
    requires i < |chain| && forall j, k | 0 <= j < k < |chain| :: chain[j].id != chain[k].id
    ensures KeyOf(chain, chain[i].id) == Some(chain[i].key)
  {
    if i > 0 { KeyOfAt(chain[1..], i - 1); }
  }

  lemma {:induction false} KeyOfAbsent<V>(chain: seq<Item<V>>, id: nat)
    requires forall j | 0 <= j < |chain| :: chain[j].id != id
    ensures KeyOf(chain, id) == None
  {
    if chain != [] { KeyOfAbsent(chain[1..], id); }
  }

  lemma {:induction false} KeyOfAppend<V>(chain: seq<Item<V>>, it: Item<V>, id: nat)
    ensures KeyOf(chain + [it], id)
         == if KeyOf(chain, id).Some? then KeyOf(chain, id) else if it.id == id then Some(it.key) else None
  {
    if chain == [] {
      assert chain + [it] == [it] && [it][1..] == [];
    } else {
      assert (chain + [it])[1..] == chain[1..] + [it];
      KeyOfAppend(chain[1..], it, id);
    }
  }

  lemma {:induction false} KeyOfWithout<V>(chain: seq<Item<V>>, i: nat, id: nat)
    requires i < |chain| && forall j, k | 0 <= j < k < |chain| :: chain[j].id != chain[k].id
    ensures KeyOf(Without(chain, i), id) == if id == chain[i].id then None else KeyOf(chain, id)
  {
    if i == 0 {
      assert Without(chain, i) == chain[1..];
      if id == chain[0].id { KeyOfAbsent(chain[1..], id); }
    } else {
      assert Without(chain, i)[1..] == Without(chain[1..], i - 1);
      KeyOfWithout(chain[1..], i - 1, id);
    }
  }

  // ---------------------------------------------------------------- all buckets

  type Buckets<V> = seq<seq<Item<V>>>

  function Find<V>(bs: Buckets<V>, key: string): Option<V>
    requires |bs| > 0
  {
    Lookup(bs[Hash(key) % |bs|], key)
  }

  function Get<V>(m: map<string, V>, key: string): Option<V> {
    if key in m then Some(m[key]) else None
  }

  ghost predicate TableOk<V>(bs: Buckets<V>, nextId: nat, view: map<string, V>) {
    && |bs| > 0
    && (forall b | 0 <= b < |bs| :: ChainOk(bs[b], b, |bs|, nextId))
    && (forall k :: Find(bs, k) == Get(view, k))
  }

  /** The handle still refers to the item of this key. */
  ghost predicate Refers<V>(bs: Buckets<V>, h: Handle, key: string) {
    h.bucket < |bs| && KeyOf(bs[h.bucket], h.id) == Some(key)
  }

  lemma InsertKeeps<V>(bs: Buckets<V>, nextId: nat, view: map<string, V>, key: string, val: V)
    requires TableOk(bs, nextId, view) && key !in view
    ensures var b := Hash(key) % |bs|;
            var bs' := bs[b := bs[b] + [Item(key, val, nextId)]];
            && TableOk(bs', nextId + 1, view[key := val])
            && (forall h, k | Refers(bs, h, k) :: Refers(bs', h, k))
            && Refers(bs', Handle(b, nextId), key)
  {
    var b := Hash(key) % |bs|;
    var it := Item(key, val, nextId);
    var bs' := bs[b := bs[b] + [it]];
    assert Find(bs, key) == None;
    forall k ensures Find(bs', k) == Get(view[key := val], k) {
      LookupAppend(bs[b], it, k);
      assert Find(bs, k) == Get(view, k);
    }
    assert ChainOk(bs[b], b, |bs|, nextId);
    AppendOk(bs[b], b, |bs|, nextId, it);
    forall h, k | Refers(bs, h, k) ensures Refers(bs', h, k) { KeyOfAppend(bs[b], it, h.id); }
    KeyOfAppend(bs[b], it, nextId);
    KeyOfAbsent(bs[b], nextId);
  }

  lemma AppendOk<V>(chain: seq<Item<V>>, b: nat, n: nat, nextId: nat, it: Item<V>)
    requires ChainOk(chain, b, n, nextId) && it.id == nextId && Hash(it.key) % n == b
    requires Lookup(chain, it.key) == None
    ensures ChainOk(chain + [it], b, n, nextId + 1)
  {
    forall i | 0 <= i < |chain| ensures chain[i].key != it.key { LookupAt(chain, i); }
  }

  /** The item of a handle. */
  lemma {:induction false} KeyOfIs<V>(chain: seq<Item<V>>, id: nat) returns (i: nat)
    requires KeyOf(chain, id).Some?
    ensures i < |chain| && chain[i].id == id && chain[i].key == KeyOf(chain, id).value
  {
    if chain[0].id == id {
      i := 0;
    } else {
      i := KeyOfIs(chain[1..], id);
      i := i + 1;
    }
  }

  lemma {:induction false} ReferredIsStored<V>(bs: Buckets<V>, nextId: nat, view: map<string, V>, h: Handle, key: string)
    requires TableOk(bs, nextId, view)
    ensures Refers(bs, h, key) ==> key in view
  {
    if Refers(bs, h, key) {
      var i := KeyOfIs(bs[h.bucket], h.id);
      assert ChainOk(bs[h.bucket], h.bucket, |bs|, nextId);
      LookupAt(bs[h.bucket], i);
      assert Find(bs, key) == Get(view, key);
    }
  }

  /** An item has one handle. */
  lemma {:induction false} OneHandle<V>(bs: Buckets<V>, nextId: nat, view: map<string, V>, h: Handle, b: nat, i: nat)
    requires TableOk(bs, nextId, view) && b < |bs| && i < |bs[b]| && Refers(bs, h, bs[b][i].key)
    ensures h == Handle(b, bs[b][i].id)
  {
    var j := KeyOfIs(bs[h.bucket], h.id);
    assert ChainOk(bs[h.bucket], h.bucket, |bs|, nextId) && ChainOk(bs[b], b, |bs|, nextId);
    assert h.bucket == Hash(bs[b][i].key) % |bs| == b;
    assert j == i;
  }

  lemma RemoveKeeps<V>(bs: Buckets<V>, nextId: nat, view: map<string, V>, b: nat, i: nat)
    requires TableOk(bs, nextId, view) && b < |bs| && i < |bs[b]|
    ensures var it := bs[b][i];
            var bs' := bs[b := Without(bs[b], i)];
            && it.key in view && view[it.key] == it.val
            && TableOk(bs', nextId, view - {it.key})
            && (forall h, k | Refers(bs, h, k) && h != Handle(b, it.id) :: Refers(bs', h, k))
            && (forall k :: !Refers(bs', Handle(b, it.id), k))
  {
    var it := bs[b][i];
    var bs' := bs[b := Without(bs[b], i)];
    assert ChainOk(bs[b], b, |bs|, nextId);
    LookupAt(bs[b], i);
    assert Find(bs, it.key) == Get(view, it.key);
    forall k ensures Find(bs', k) == Get(view - {it.key}, k) {
      LookupWithout(bs[b], i, k);
      assert Find(bs, k) == Get(view, k);
    }
    WithoutOk(bs[b], b, |bs|, nextId, i);
    forall h: Handle { KeyOfWithout(bs[b], i, h.id); }
  }

  lemma WithoutOk<V>(chain: seq<Item<V>>, b: nat, n: nat, nextId: nat, i: nat)
    requires ChainOk(chain, b, n, nextId) && i < |chain|
    ensures ChainOk(Without(chain, i), b, n, nextId)
  {
  }

  class Table<V(0)> {
    var buckets: Buckets<V>
    var size: nat
    var nextId: nat
    /** The table as a map; `Valid` ties it to the buckets. */
    ghost var View: map<string, V>

    ghost predicate Valid()
      reads this
    {
      TableOk(buckets, nextId, View) && size == |View|
    }

    constructor (exponent: nat)
      ensures Valid() && View == map[]
    {
      new;
      var n := 1;
      for i := 0 to exponent
        invariant n > 0
      {
        n := n * 2;
      }
      buckets := seq(n, _ => []);
      size, nextId, View := 0, 0, map[];
    }

    /** Walk the bucket that a hash selects. The key is there if it is in the table and the hash selects
        the same bucket as the key's own. */
    method FindInChain(key: string, hash: nat) returns (b: nat, i: nat)
      requires Valid()
      ensures b < |buckets| && b == hash % |buckets| && i <= |buckets[b]|
      ensures i < |buckets[b]| <==> key in View && hash % |buckets| == Hash(key) % |buckets|
      ensures i < |buckets[b]| ==> buckets[b][i].key == key && buckets[b][i].val == View[key]
    {
      b := hash % |buckets|;
      var chain := buckets[b];
      assert ChainOk(chain, b, |buckets|, nextId);
      assert Find(buckets, key) == Get(View, key);
      i := 0;
      while i < |chain| && chain[i].key != key
        invariant i <= |chain|
        invariant forall j | 0 <= j < i :: chain[j].key != key
      {
        i := i + 1;
      }
      if i < |chain| { LookupAt(chain, i); } else { LookupAbsent(chain, key); }
    }

    method RetrieveWithHash(key: string, hash: nat) returns (r: Option<V>)
      requires Valid()
      ensures r == if key in View && hash % |buckets| == Hash(key) % |buckets| then Some(View[key]) else None
    {
      var b, i := FindInChain(key, hash);
      r := if i < |buckets[b]| then Some(buckets[b][i].val) else None;
    }

    method Retrieve(key: string) returns (r: Option<V>)
      requires Valid()
      ensures r == if key in View then Some(View[key]) else None
    {
      r := RetrieveWithHash(key, Hash(key));
    }

    /** Insert at the tail of the bucket unless the key is there already. The handle of an
        earlier item stays good. */
    method Insert(key: string, val: V) returns (r: InsertResult)
      requires Valid()
      modifies this
      ensures Valid()
      ensures if key in old(View) then r.AlreadyExists? && View == old(View)
              else r.Inserted? && View == old(View)[key := val] && Refers(buckets, r.handle, key)
      ensures forall h, k | Refers(old(buckets), h, k) :: Refers(buckets, h, k)
    {
      var b, i := FindInChain(key, Hash(key));
      if i < |buckets[b]| { return AlreadyExists; }
      InsertKeeps(buckets, nextId, View, key, val);
      r := Inserted(Handle(b, nextId));
      buckets := buckets[b := buckets[b] + [Item(key, val, nextId)]];
      size, nextId, View := size + 1, nextId + 1, View[key := val];
    }

    /** Remove the item a handle refers to. A handle whose item is gone finds nothing. */
    method RemoveByHandle(h: Handle) returns (found: bool)
      requires Valid()
      modifies this
      ensures Valid()
      ensures found <==> exists k :: Refers(old(buckets), h, k)
      ensures !found ==> View == old(View)
      ensures forall k | Refers(old(buckets), h, k) :: k in old(View) && View == old(View) - {k}
      ensures forall g, k | Refers(old(buckets), g, k) && g != h :: Refers(buckets, g, k)
      ensures forall k :: !Refers(buckets, h, k)
    {
      if h.bucket >= |buckets| { return false; }
      var chain := buckets[h.bucket];
      assert ChainOk(chain, h.bucket, |buckets|, nextId);
      var i := 0;
      while i < |chain| && chain[i].id != h.id
        invariant i <= |chain|
        invariant forall j | 0 <= j < i :: chain[j].id != h.id
      {
        i := i + 1;
      }
      if i == |chain| {
        KeyOfAbsent(chain, h.id);
        return false;
      }
      KeyOfAt(chain, i);
      assert Refers(buckets, h, chain[i].key);
      RemoveKeeps(buckets, nextId, View, h.bucket, i);
      found := true;
      buckets := buckets[h.bucket := Without(chain, i)];
      size, View := size - 1, View - {chain[i].key};
    }

    /** Remove an item by its key. Its handle then refers to nothing; all others stay good. */
    method Remove(key: string) returns (found: bool)
      requires Valid()
      modifies this
      ensures Valid()
      ensures found <==> key in old(View)
      ensures View == old(View) - {key}
      ensures forall h, k | Refers(old(buckets), h, key) :: !Refers(buckets, h, k)
      ensures forall h, k | Refers(old(buckets), h, k) && k != key :: Refers(buckets, h, k)
    {
      var b, i := FindInChain(key, Hash(key));
      found := i < |buckets[b]|;
      if !found {
        assert View - {key} == View;
        forall h ensures !Refers(buckets, h, key) { ReferredIsStored(buckets, nextId, View, h, key); }
        return;
      }
      RemoveKeeps(buckets, nextId, View, b, i);
      KeyOfAt(buckets[b], i);
      forall h | Refers(buckets, h, key) ensures h == Handle(b, buckets[b][i].id) { OneHandle(buckets, nextId, View, h, b, i); }
      buckets := buckets[b := Without(buckets[b], i)];
      size, View := size - 1, View - {key};
    }
  }
}
