/** The composer: octets are appended to a chain of buffers of bounded capacity. The size and
    count of a composite are written as zeros when it is opened and overwritten when it is
    closed, wherever in the chain those octets lie.
 */
module Compose {
  import opened Octets
  import opened Amqp
  import opened Seqs

  /** A place in the chain: a buffer and an offset into it, which may be its end. */
  datatype Loc = Loc(buf: nat, off: nat)

  /** An open composite. */
  datatype Composite = Composite(isMap: bool, count: nat, length: nat, lengthAt: Loc, countAt: Loc)

  // ---------------------------------------------------------------- places in the chain

  function Pos(bs: Buffers, l: Loc): nat
    requires l.buf < |bs|
  {
    |Flat(bs[..l.buf])| + l.off
  }

  predicate LocOk(bs: Buffers, l: Loc, room: nat) {
    l.buf < |bs| && l.off <= |bs[l.buf]| && Pos(bs, l) + room <= |Flat(bs)|
  }

  /** As far as sizes go, only the last buffer has grown and buffers have been added behind
      it. */
  ghost predicate Extends(bs: Buffers, bs': Buffers) {
    && |bs| <= |bs'|
    && (forall i | 0 <= i < |bs| :: |bs[i]| <= |bs'[i]|)
    && (forall i | 0 <= i < |bs| - 1 :: |bs[i]| == |bs'[i]|)
    && |Flat(bs)| <= |Flat(bs')|
  }

  lemma {:induction false} ExtendsTrans(a: Buffers, b: Buffers, c: Buffers)
    requires Extends(a, b) && Extends(b, c)
    ensures Extends(a, c)
  {
  }

  lemma {:induction false} ExtendsKeepsLoc(bs: Buffers, bs': Buffers, l: Loc, room: nat)
    requires Extends(bs, bs') && LocOk(bs, l, room)
    ensures LocOk(bs', l, room) && Pos(bs', l) == Pos(bs, l)
  {
    SameSizesFlat(bs[..l.buf], bs'[..l.buf]);
  }

  /** Overwriting changes no sizes. */
  ghost predicate SameSizes(bs: Buffers, bs': Buffers) {
    |bs| == |bs'| && forall i | 0 <= i < |bs| :: |bs[i]| == |bs'[i]|
  }

  lemma {:induction false} SameSizesFlat(bs: Buffers, bs': Buffers)
    requires SameSizes(bs, bs')
    ensures |Flat(bs)| == |Flat(bs')|
  {
    if bs != [] {
      assert forall i | 0 <= i < |bs[1..]| :: |bs[1..][i]| == |bs'[1..][i]|;
      SameSizesFlat(bs[1..], bs'[1..]);
    }
  }

  lemma {:induction false} SameSizesExtends(bs: Buffers, bs': Buffers)
    requires SameSizes(bs, bs')
    ensures Extends(bs, bs')
  {
    SameSizesFlat(bs, bs');
  }

  lemma {:induction false} PosOfEnd(bs: Buffers)
    requires bs != []
    ensures Pos(bs, Loc(|bs| - 1, |bs[|bs| - 1]|)) == |Flat(bs)|
  {
    FlatAt(bs, |bs| - 1);
    assert bs[|bs| - 1 + 1..] == [];
  }

  predicate Fits(bs: Buffers, capacity: nat) {
    forall i | 0 <= i < |bs| :: |bs[i]| <= capacity
  }

  lemma {:induction false} GrowTail(bs: Buffers, bs0: Buffers, x: Octets, capacity: nat)
    requires bs != [] && Fits(bs, capacity) && |bs[|bs| - 1]| + |x| <= capacity && Extends(bs0, bs)
    ensures var bs' := bs[|bs| - 1 := bs[|bs| - 1] + x];
            Extends(bs0, bs') && Fits(bs', capacity) && Flat(bs') == Flat(bs) + x
  {
    FlatGrowTail(bs, x);
  }

  lemma {:induction false} NewTail(bs: Buffers, bs0: Buffers, capacity: nat)
    requires Fits(bs, capacity) && Extends(bs0, bs) && (bs != [] ==> |bs[|bs| - 1]| >= capacity)
    ensures var bs' := bs + [[]];
            Extends(bs0, bs') && Fits(bs', capacity) && Flat(bs') == Flat(bs)
  {
    FlatNewTail(bs);
  }

  // ---------------------------------------------------------------- overwriting

  /** Overwrite the next octet, stepping to the following buffer at the end of one. */
  method Overwrite(bs: Buffers, l: Loc, x: Octet) returns (bs': Buffers, l': Loc)
    requires LocOk(bs, l, 1)
    ensures SameSizes(bs, bs') && LocOk(bs', l', 0)
    ensures Flat(bs') == Flat(bs)[Pos(bs, l) := x]
    ensures Pos(bs', l') == Pos(bs, l) + 1
  {
    var buf: nat, cursor: nat := l.buf, l.off;
    while cursor >= |bs[buf]|
      invariant buf < |bs| && cursor <= |bs[buf]|
      invariant Pos(bs, Loc(buf, cursor)) == Pos(bs, l)
      decreases |bs| - buf
    {
      NextBuffer(bs, buf);
      buf, cursor := buf + 1, 0;
    }
    FlatSet(bs, buf, cursor, x);
    bs' := bs[buf := bs[buf][cursor := x]];
    l' := Loc(buf, cursor + 1);
    assert bs'[..buf] == bs[..buf];
    SameSizesFlat(bs, bs');
  }

  lemma {:induction false} NextBuffer(bs: Buffers, buf: nat)
    requires buf < |bs| && |Flat(bs[..buf])| + |bs[buf]| < |Flat(bs)|
    ensures buf + 1 < |bs|
    ensures |Flat(bs[..buf + 1])| == |Flat(bs[..buf])| + |bs[buf]|
  {
    FlatAt(bs, buf);
    assert bs[..buf + 1] == bs[..buf] + [bs[buf]];
    FlatAppend(bs[..buf], [bs[buf]]);
    FlatOne(bs[buf]);
  }

  /** The flat contents with a run of octets replaced. */
  function Patch(s: Octets, at: nat, x: Octets): (r: Octets)
    requires at + |x| <= |s|
    ensures |r| == |s|
  {
    s[..at] + x + s[at + |x|..]
  }

  lemma {:induction false} PatchMore(s: Octets, at: nat, x: Octets, y: Octet)
    requires at + |x| < |s|
    ensures Patch(s, at, x)[at + |x| := y] == Patch(s, at, x + [y])
  {
  }

  method Overwrite32(bs: Buffers, l: Loc, value: nat) returns (bs': Buffers)
    requires LocOk(bs, l, 4) && value < U32
    ensures SameSizes(bs, bs')
    ensures Flat(bs') == Patch(Flat(bs), Pos(bs, l), Be32(value))
  {
    var x := Be32(value);
    var at := l;
    bs' := bs;
    assert Patch(Flat(bs), Pos(bs, l), x[..0]) == Flat(bs);
    for i := 0 to 4
      invariant SameSizes(bs, bs') && LocOk(bs', at, 4 - i)
      invariant Pos(bs', at) == Pos(bs, l) + i
      invariant Flat(bs') == Patch(Flat(bs), Pos(bs, l), x[..i])
    {
      PatchMore(Flat(bs), Pos(bs, l), x[..i], x[i]);
      assert x[..i] + [x[i]] == x[..i + 1];
      bs', at := Overwrite(bs', at, x[i]);
    }
    assert x[..4] == x;
  }

  // ---------------------------------------------------------------- the composed field

  /** Octets and one more element are accounted to the innermost open composite. */
  function Account(stack: seq<Composite>, octets: nat, elements: nat): seq<Composite> {
    if stack == [] then []
    else [stack[0].(length := stack[0].length + octets, count := stack[0].count + elements)] + stack[1..]
  }

  /** The places of the size and the count are eight consecutive octets of the chain, from
      position `mark` on. */
  ghost predicate CompositeOk(bs: Buffers, c: Composite, mark: nat) {
    && LocOk(bs, c.lengthAt, 8) && LocOk(bs, c.countAt, 4)
    && Pos(bs, c.lengthAt) == mark && Pos(bs, c.countAt) == mark + 4
  }

  ghost predicate StackOk(bs: Buffers, stack: seq<Composite>, marks: seq<nat>) {
    |stack| == |marks| && forall i | 0 <= i < |stack| :: CompositeOk(bs, stack[i], marks[i])
  }

  lemma {:induction false} ExtendsKeepsStack(bs: Buffers, bs': Buffers, stack: seq<Composite>, marks: seq<nat>, octets: nat, elements: nat)
    requires Extends(bs, bs') && StackOk(bs, stack, marks)
    ensures StackOk(bs', Account(stack, octets, elements), marks)
  {
    var stack' := Account(stack, octets, elements);
    forall i | 0 <= i < |stack'| ensures CompositeOk(bs', stack'[i], marks[i]) {
      assert CompositeOk(bs, stack[i], marks[i]);
      ExtendsKeepsLoc(bs, bs', stack[i].lengthAt, 8);
      ExtendsKeepsLoc(bs, bs', stack[i].countAt, 4);
    }
  }

  /** Append octets to a chain, filling the last buffer before starting another. */
  method InsertInto(bs: Buffers, x: Octets, capacity: nat) returns (bs': Buffers)
    requires capacity > 0 && Fits(bs, capacity)
    ensures Fits(bs', capacity) && Extends(bs, bs') && Flat(bs') == Flat(bs) + x
    ensures x != [] ==> bs' != []
  {
    var i := 0;
    bs' := bs;
    assert Flat(bs) + x[..0] == Flat(bs);
    while i < |x|
      invariant 0 <= i <= |x|
      invariant Fits(bs', capacity) && Extends(bs, bs') && Flat(bs') == Flat(bs) + x[..i]
      invariant i > 0 ==> bs' != []
    {
      if bs' == [] || |bs'[|bs'| - 1]| == capacity {
        NewTail(bs', bs, capacity);
        bs' := bs' + [[]];
      }
      var room := capacity - |bs'[|bs'| - 1]|;
      var n := if room > |x| - i then |x| - i else room;
      GrowTail(bs', bs, x[i..i + n], capacity);
      InsertStep(Flat(bs), x, i, n);
      bs' := bs'[|bs'| - 1 := bs'[|bs'| - 1] + x[i..i + n]];
      i := i + n;
    }
    assert x[..i] == x;
  }

  class ComposedField {
    const capacity: nat
    var buffers: Buffers
    var stack: seq<Composite>   // innermost first
    /** Where in the contents the size of each open composite is. */
    ghost var marks: seq<nat>

    ghost predicate Valid()
      reads this
    {
      capacity > 0 && Fits(buffers, capacity) && StackOk(buffers, stack, marks)
    }

    ghost function Contents(): Octets
      reads this
    {
      Flat(buffers)
    }

    constructor (capacity: nat)
      requires capacity > 0
      ensures Valid() && Contents() == [] && stack == [] && marks == [] && this.capacity == capacity
    {
      this.capacity := capacity;
      buffers, stack, marks := [], [], [];
    }

    /** A header and the octets after it, as one element of the innermost composite. */
    method InsertElement(header: Octets, x: Octets)
      requires Valid()
      modifies this
      ensures Valid() && Contents() == old(Contents()) + (header + x)
      ensures stack == Account(old(stack), |header| + |x|, 1) && marks == old(marks)
    {
      var bs1 := InsertInto(buffers, header, capacity);
      var bs2 := InsertInto(bs1, x, capacity);
      ExtendsTrans(buffers, bs1, bs2);
      ExtendsKeepsStack(buffers, bs2, stack, marks, |header| + |x|, 1);
      AppendAssoc(Flat(buffers), header, x);
      buffers, stack := bs2, Account(stack, |header| + |x|, 1);
    }

    /** A primitive value in the form chosen for it. */
    method InsertLeaf(tag: Octet, body: Octets)
      requires Valid() && LeafOk(tag, body) && 1 + SizeWidth(tag) + |body| < U32
      modifies this
      ensures Valid() && Contents() == old(Contents()) + Encode(Leaf(tag, body))
      ensures stack == Account(old(stack), Size(Leaf(tag, body)), 1) && marks == old(marks)
    {
      InsertElement(LeafHeader(tag, |body|), body);
    }

    /** Open a list or a map. The octets of its header go to the account of the enclosing
        composite, if any. */
    method StartComposite(isMap: bool)
      requires Valid()
      modifies this
      ensures Valid() && |stack| > 0 && stack[1..] == Account(old(stack), 9, 0)
      ensures Contents() == old(Contents()) + ([CompositeTag(isMap)] + Zeros(8))
      ensures marks == [|old(Contents())| + 1] + old(marks)
      ensures stack[0].length == 4 && stack[0].count == 0
    {
      var bs1 := InsertInto(buffers, [CompositeTag(isMap)], capacity);
      var lengthAt := Loc(|bs1| - 1, |bs1[|bs1| - 1]|);
      var bs2 := InsertInto(bs1, Zeros(4), capacity);
      var countAt := Loc(|bs2| - 1, |bs2[|bs2| - 1]|);
      var bs3 := InsertInto(bs2, Zeros(4), capacity);
      var c := Composite(isMap, 0, 4, lengthAt, countAt);
      HeaderPlaced(buffers, bs1, bs2, bs3, c);
      HeaderOctets(Flat(buffers), CompositeTag(isMap));
      ExtendsKeepsStack(buffers, bs3, stack, marks, 9, 0);
      ghost var mark := |Flat(buffers)| + 1;
      PushOk(bs3, c, mark, Account(stack, 9, 0), marks);
      buffers, stack, marks := bs3, [c] + Account(stack, 9, 0), [mark] + marks;
    }

    /** Close the innermost composite: write its size and count over the zeros. */
    method EndComposite()
      requires Valid() && stack != [] && 4 <= stack[0].length < U32 && stack[0].count < U32
      modifies this
      ensures Valid() && stack == Account(old(stack)[1..], old(stack)[0].length - 4, 1)
      ensures |old(marks)| > 0 && marks == old(marks)[1..] && old(marks)[0] + 8 <= |old(Contents())|
      ensures Contents()
           == Patch(old(Contents()), old(marks)[0], Be32(old(stack)[0].length) + Be32(old(stack)[0].count))
    {
      hide Patch, Be32, Account;
      var c := stack[0];
      PopOk(buffers, stack, marks);
      var bs := Close(buffers, c, marks[0]);
      ExtendsKeepsStack(buffers, bs, stack[1..], marks[1..], c.length - 4, 1);
      buffers, stack, marks := bs, Account(stack[1..], c.length - 4, 1), marks[1..];
    }

    /** Compose a term of any depth. */
    method ComposeTerm(t: Term)
      requires Valid() && Encodable(t)
      modifies this
      ensures Valid() && Contents() == old(Contents()) + Encode(t)
      ensures stack == Account(old(stack), Size(t), 1) && marks == old(marks)
      decreases t
    {
      match t {
        case Leaf(tag, body) => InsertLeaf(tag, body);
        case Node(isMap, items) => ComposeNode(t, isMap, items);
      }
    }

    method ComposeNode(ghost t: Term, isMap: bool, items: seq<Term>)
      requires Valid() && t == Node(isMap, items) && Encodable(t)
      modifies this
      ensures Valid() && Contents() == old(Contents()) + Encode(t)
      ensures stack == Account(old(stack), Size(t), 1) && marks == old(marks)
      decreases t, 1
    {
      hide Encode, EncodeAll, Patch, Size, SizeAll, Be32, Encodable, AllEncodable, Flat;
      EncodedComposite(isMap, items);
      ghost var c0, s0, m0 := Contents(), stack, marks;
      StartComposite(isMap);
      ghost var s1 := stack;
      ComposeItems(t, items);
      StackBeforeEnd(s0, s1, SizeAll(items), |items|);
      EndComposite();
      CompositeEncoded(c0, isMap, items, EncodeAll(items), Be32(4 + SizeAll(items)), Be32(|items|));
      assert ([|c0| + 1] + m0)[1..] == m0;
    }

    /** Compose the elements of an open composite. */
    method ComposeItems(ghost t: Term, items: seq<Term>)
      requires Valid() && AllEncodable(items) && t.Node? && t.items == items
      modifies this
      ensures Valid() && Contents() == old(Contents()) + EncodeAll(items)
      ensures stack == Account(old(stack), SizeAll(items), |items|) && marks == old(marks)
      decreases t, 0
    {
      hide Encode, Size, Account, Flat;
      ghost var c0, s0, m0 := Contents(), stack, marks;
      AccountNothing(s0);
      for i := 0 to |items|
        invariant Valid()
        invariant AllEncodable(items[..i]) && Contents() == c0 + EncodeAll(items[..i])
        invariant stack == Account(s0, SizeAll(items[..i]), i) && marks == m0
      {
        EncodePrefix(items, i);
        ComposeTerm(items[i]);
        AccountMore(s0, SizeAll(items[..i]), i, Size(items[i]), 1);
        AppendAssoc(c0, EncodeAll(items[..i]), Encode(items[i]));
      }
      assert items[..|items|] == items;
    }
  }

  lemma {:induction false} StackBeforeEnd(s0: seq<Composite>, s1: seq<Composite>, octets: nat, elements: nat)
    requires s1 != [] && s1[1..] == Account(s0, 9, 0) && s1[0].length == 4 && s1[0].count == 0
    ensures var s2 := Account(s1, octets, elements);
            && s2 != [] && s2[0].length == 4 + octets && s2[0].count == elements
            && Account(s2[1..], octets, 1) == Account(s0, 9 + octets, 1)
  {
    var s2 := Account(s1, octets, elements);
    assert s2[1..] == s1[1..];
    AccountMore(s0, 9, 0, octets, 1);
  }

  lemma {:induction false} EncodedComposite(isMap: bool, items: seq<Term>)
    requires Encodable(Node(isMap, items))
    ensures AllEncodable(items) && |items| < U32
    ensures 4 + SizeAll(items) < U32 && Size(Node(isMap, items)) == 9 + SizeAll(items)
    ensures Encode(Node(isMap, items))
         == [CompositeTag(isMap)] + Be32(4 + SizeAll(items)) + Be32(|items|) + EncodeAll(items)
  {
    CountBelowSize(items);
  }

  /** Patching the zeros of an opened composite gives its encoding. */
  lemma {:induction false} CompositeEncoded(c0: Octets, isMap: bool, items: seq<Term>, body: Octets, x: Octets, y: Octets)
    requires Encodable(Node(isMap, items)) && AllEncodable(items) && |items| < U32
    requires body == EncodeAll(items) && x == Be32(4 + SizeAll(items)) && y == Be32(|items|)
    ensures Patch((c0 + ([CompositeTag(isMap)] + Zeros(8))) + body, |c0| + 1, x + y) == c0 + Encode(Node(isMap, items))
  {
    EncodedComposite(isMap, items);
    PatchHeader(c0, CompositeTag(isMap), body, x, y);
  }

  lemma {:induction false} PatchHeader(c0: Octets, tag: Octet, body: Octets, x: Octets, y: Octets)
    requires |x| == 4 && |y| == 4
    ensures Patch((c0 + ([tag] + Zeros(8))) + body, |c0| + 1, x + y) == c0 + ([tag] + x + y + body)
  {
  }

  lemma {:induction false} AccountNothing(stack: seq<Composite>)
    ensures Account(stack, 0, 0) == stack
  {
  }

  lemma {:induction false} AccountMore(stack: seq<Composite>, m: nat, e: nat, n: nat, f: nat)
    ensures Account(Account(stack, m, e), n, f) == Account(stack, m + n, e + f)
  {
    if stack != [] { assert Account(stack, m, e)[1..] == stack[1..]; }
  }

  /** Write the size and the count of a composite over its zeros. */
  method Close(bs: Buffers, c: Composite, ghost mark: nat) returns (bs': Buffers)
    requires CompositeOk(bs, c, mark) && c.length < U32 && c.count < U32
    ensures SameSizes(bs, bs') && Extends(bs, bs')
    ensures Flat(bs') == Patch(Flat(bs), mark, Be32(c.length) + Be32(c.count))
  {
    var bs1 := Overwrite32(bs, c.lengthAt, c.length);
    SameSizesExtends(bs, bs1);
    ExtendsKeepsLoc(bs, bs1, c.countAt, 4);
    bs' := Overwrite32(bs1, c.countAt, c.count);
    SameSizesExtends(bs, bs');
    PatchTwice(Flat(bs), mark, Be32(c.length), Be32(c.count));
  }

  lemma {:induction false} PopOk(bs: Buffers, stack: seq<Composite>, marks: seq<nat>)
    requires StackOk(bs, stack, marks) && stack != []
    ensures CompositeOk(bs, stack[0], marks[0]) && StackOk(bs, stack[1..], marks[1..])
  {
  }

  lemma {:induction false} PushOk(bs: Buffers, c: Composite, mark: nat, stack: seq<Composite>, marks: seq<nat>)
    requires CompositeOk(bs, c, mark) && StackOk(bs, stack, marks)
    ensures StackOk(bs, [c] + stack, [mark] + marks) && ([c] + stack)[1..] == stack
  {
  }

  /** The places noted while a header is written stay good. */
  lemma {:induction false} HeaderPlaced(bs0: Buffers, bs1: Buffers, bs2: Buffers, bs3: Buffers, c: Composite)
    requires Extends(bs0, bs1) && Extends(bs1, bs2) && Extends(bs2, bs3) && bs1 != [] && bs2 != []
    requires |Flat(bs1)| == |Flat(bs0)| + 1 && |Flat(bs2)| == |Flat(bs0)| + 5 && |Flat(bs3)| == |Flat(bs0)| + 9
    requires c.lengthAt == Loc(|bs1| - 1, |bs1[|bs1| - 1]|) && c.countAt == Loc(|bs2| - 1, |bs2[|bs2| - 1]|)
    ensures Extends(bs0, bs3) && CompositeOk(bs3, c, |Flat(bs0)| + 1)
  {
    PosOfEnd(bs1);
    PosOfEnd(bs2);
    ExtendsTrans(bs0, bs1, bs2);
    ExtendsTrans(bs0, bs2, bs3);
    ExtendsTrans(bs1, bs2, bs3);
    ExtendsKeepsLoc(bs1, bs3, c.lengthAt, 0);
    ExtendsKeepsLoc(bs2, bs3, c.countAt, 0);
  }

  function Zeros(n: nat): (s: Octets)
    ensures |s| == n
  {
    seq(n, _ => 0)
  }

  lemma {:induction false} HeaderOctets(s: Octets, tag: Octet)
    ensures ((s + [tag]) + Zeros(4)) + Zeros(4) == s + ([tag] + Zeros(8))
  {
  }

  lemma {:induction false} PatchTwice(s: Octets, at: nat, x: Octets, y: Octets)
    requires at + |x| + |y| <= |s|
    ensures Patch(Patch(s, at, x), at + |x|, y) == Patch(s, at, x + y)
  {
  }

  lemma {:induction false} InsertStep(s: Octets, x: Octets, i: nat, n: nat)
    requires i + n <= |x|
    ensures (s + x[..i]) + x[i..i + n] == s + x[..i + n]
  {
  }
}
