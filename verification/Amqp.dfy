/** AMQP data (section 1.6 of OASIS AMQP 1.0 Part 1, Types) in the forms that the composer
    writes: a term is a tree whose leaves carry a constructor octet and the octets of a
    primitive value; typed values are lowered to terms by choosing the shortest form.
 */
module Amqp {
  import opened Octets
  import opened Seqs

  const NULL: Octet := 0x40
  const TRUE: Octet := 0x41
  const FALSE: Octet := 0x42
  const UINT0: Octet := 0x43
  const ULONG0: Octet := 0x44
  const LIST0: Octet := 0x45
  const SMALLUINT: Octet := 0x52
  const SMALLULONG: Octet := 0x53
  const SMALLINT: Octet := 0x54
  const SMALLLONG: Octet := 0x55
  const BOOLEAN: Octet := 0x56
  const UINT: Octet := 0x70
  const INT: Octet := 0x71
  const ULONG: Octet := 0x80
  const LONG: Octet := 0x81
  const TIMESTAMP: Octet := 0x83
  const UUID: Octet := 0x98
  const VBIN8: Octet := 0xa0
  const STR8: Octet := 0xa1
  const SYM8: Octet := 0xa3
  const VBIN32: Octet := 0xb0
  const STR32: Octet := 0xb1
  const SYM32: Octet := 0xb3
  const LIST8: Octet := 0xc0
  const MAP8: Octet := 0xc1
  const LIST32: Octet := 0xd0
  const MAP32: Octet := 0xd1

  // ---------------------------------------------------------------- tags

  /** The subcategory of a tag, its upper four bits, fixes the layout of the field. */
  function Subcategory(tag: Octet): nat { tag as int / 16 }

  /** Octets of the size field. */
  function SizeWidth(tag: Octet): nat {
    if Subcategory(tag) < 0xA then 0 else if Subcategory(tag) % 2 == 0 then 1 else 4
  }

  /** Octets of the count field. */
  function CountWidth(tag: Octet): nat {
    if Subcategory(tag) < 0xC then 0 else if Subcategory(tag) % 2 == 0 then 1 else 4
  }

  /** Octets of a fixed-width value. */
  function FixedWidth(tag: Octet): nat {
    match Subcategory(tag)
    case 5 => 1
    case 6 => 2
    case 7 => 4
    case 8 => 8
    case 9 => 16
    case _ => 0
  }

  // ---------------------------------------------------------------- terms

  datatype Term = Leaf(tag: Octet, body: Octets) | Node(isMap: bool, items: seq<Term>)

  /** A leaf whose octets fit the layout that its tag announces. */
  predicate LeafOk(tag: Octet, body: Octets) {
    if SizeWidth(tag) == 0 then 4 <= Subcategory(tag) && |body| == FixedWidth(tag)
    else CountWidth(tag) == 0 && |body| < (if SizeWidth(tag) == 1 then 0x100 else U32)
  }

  predicate TermOk(t: Term) {
    match t
    case Leaf(tag, body) => LeafOk(tag, body)
    case Node(_, items) => forall i | 0 <= i < |items| :: TermOk(items[i])
  }

  /** The octets in front of the value of a leaf. */
  function LeafHeader(tag: Octet, n: nat): (s: Octets)
    requires SizeWidth(tag) == 1 ==> n < 0x100
    requires SizeWidth(tag) == 4 ==> n < U32
    ensures |s| == 1 + SizeWidth(tag)
  {
    if SizeWidth(tag) == 0 then [tag] else if SizeWidth(tag) == 1 then [tag, n as Octet] else [tag] + Be32(n)
  }

  function Size(t: Term): nat {
    match t
    case Leaf(tag, body) => 1 + SizeWidth(tag) + |body|
    case Node(_, items) => 9 + SizeAll(items)
  }

  function SizeAll(ts: seq<Term>): nat {
    if ts == [] then 0 else Size(ts[0]) + SizeAll(ts[1..])
  }

  /** What can be written: sizes and counts are 32-bit numbers. */
  predicate Encodable(t: Term) { TermOk(t) && Size(t) < U32 }

  predicate AllEncodable(ts: seq<Term>) {
    (forall i | 0 <= i < |ts| :: TermOk(ts[i])) && SizeAll(ts) < U32
  }

  lemma {:induction false} CountBelowSize(ts: seq<Term>)
    ensures |ts| <= SizeAll(ts)
  {
    if ts != [] { CountBelowSize(ts[1..]); }
  }

  function CompositeTag(isMap: bool): Octet { if isMap then MAP32 else LIST32 }

  /** The header of a composite: the size of all that follows the size field, and the number
      of elements. */
  function CompositeHeader(isMap: bool, size: nat, count: nat): (s: Octets)
    requires 4 + size < U32 && count < U32
    ensures |s| == 9
  {
    [CompositeTag(isMap)] + Be32(4 + size) + Be32(count)
  }

  function Encode(t: Term): (s: Octets)
    requires Encodable(t)
    ensures |s| == Size(t)
    decreases t, 1
  {
    match t
    case Leaf(tag, body) => LeafHeader(tag, |body|) + body
    case Node(isMap, items) =>
      CountBelowSize(items);
      CompositeHeader(isMap, SizeAll(items), |items|) + EncodeAll(items)
  }

  function EncodeAll(ts: seq<Term>): (s: Octets)
    requires AllEncodable(ts)
    ensures |s| == SizeAll(ts)
    decreases ts, 0
  {
    if ts == [] then [] else Encode(ts[0]) + EncodeAll(ts[1..])
  }

  lemma {:induction false} EncodeAllSnoc(ts: seq<Term>, t: Term)
    requires AllEncodable(ts + [t])
    ensures AllEncodable(ts) && Encodable(t)
    ensures SizeAll(ts + [t]) == SizeAll(ts) + Size(t)
    ensures EncodeAll(ts + [t]) == EncodeAll(ts) + Encode(t)
  {
    var w := ts + [t];
    assert w[|ts|] == t;
    if ts == [] {
      assert w == [t] && [t][1..] == [];
      assert Encode(t) + [] == Encode(t) && [] + Encode(t) == Encode(t);
    } else {
      CutAppend(ts, [t], 1);
      assert forall i | 0 <= i < |w[1..]| :: w[1..][i] == w[i + 1];
      assert forall i | 0 <= i < |ts| :: ts[i] == w[i];
      EncodeAllSnoc(ts[1..], t);
      AppendAssoc(Encode(ts[0]), EncodeAll(ts[1..]), Encode(t));
    }
  }

  lemma {:induction false} SizePrefix(ts: seq<Term>, i: nat)
    requires i <= |ts|
    ensures SizeAll(ts[..i]) <= SizeAll(ts)
  {
    if i > 0 {
      SizePrefix(ts[1..], i - 1);
      assert ts[..i][1..] == ts[1..][..i - 1];
    }
  }

  lemma {:induction false} EncodePrefix(ts: seq<Term>, i: nat)
    requires AllEncodable(ts) && i < |ts|
    ensures AllEncodable(ts[..i]) && AllEncodable(ts[..i + 1]) && Encodable(ts[i])
    ensures EncodeAll(ts[..i + 1]) == EncodeAll(ts[..i]) + Encode(ts[i])
    ensures SizeAll(ts[..i + 1]) == SizeAll(ts[..i]) + Size(ts[i])
  {
    SizePrefix(ts, i + 1);
    assert ts[..i + 1] == ts[..i] + [ts[i]];
    EncodeAllSnoc(ts[..i], ts[i]);
  }

  // ---------------------------------------------------------------- typed values

  datatype Scalar =
    | Null
    | Bool(b: bool)
    | UInt(n: nat)
    | ULong(n: nat)
    | Int(i: int)
    | Long(i: int)
    | Timestamp(n: nat)
    | Uuid(bytes: Octets)
    | Binary(bytes: Octets)
    | Str(bytes: Octets)
    | Symbol(bytes: Octets)

  datatype Value = Scalar(scalar: Scalar) | EmptyList | List(items: seq<Value>) | Map(items: seq<Value>)

  /** The ranges of the C types that carry the values. */
  predicate ScalarFits(s: Scalar) {
    match s
    case UInt(n) => n < U32
    case ULong(n) => n < U64
    case Timestamp(n) => n < U64
    case Int(i) => -0x8000_0000 <= i < 0x8000_0000
    case Long(i) => -0x8000_0000_0000_0000 <= i < 0x8000_0000_0000_0000
    case Uuid(bytes) => |bytes| == 16
    case Binary(bytes) => |bytes| < U32
    case Str(bytes) => |bytes| < U32
    case Symbol(bytes) => |bytes| < U32
    case _ => true
  }

  predicate InRange(v: Value) {
    match v
    case Scalar(s) => ScalarFits(s)
    case EmptyList => true
    case List(items) => forall i | 0 <= i < |items| :: InRange(items[i])
    case Map(items) => forall i | 0 <= i < |items| :: InRange(items[i])
  }

  /** The 8-bit form below 256 octets, else the 32-bit form. */
  function LowerBytes(tag8: Octet, tag32: Octet, bytes: Octets): Term {
    Leaf(if |bytes| < 256 then tag8 else tag32, bytes)
  }

  /** The form in which the composer writes a scalar. */
  function LowerScalar(s: Scalar): (t: Term)
    requires ScalarFits(s)
    ensures t.Leaf? && LeafOk(t.tag, t.body)
  {
    match s
    case Null => Leaf(NULL, [])
    case Bool(b) => Leaf(if b then TRUE else FALSE, [])
    case UInt(n) =>
      if n == 0 then Leaf(UINT0, []) else if n < 256 then Leaf(SMALLUINT, [n as Octet]) else Leaf(UINT, Be32(n))
    case ULong(n) =>
      if n == 0 then Leaf(ULONG0, []) else if n < 256 then Leaf(SMALLULONG, [n as Octet]) else Leaf(ULONG, Be64(n))
    case Int(i) =>
      if -128 <= i <= 127 then Leaf(SMALLINT, [ToUnsigned(i, 256) as Octet]) else Leaf(INT, Be32(ToUnsigned(i, U32)))
    case Long(i) =>
      if -128 <= i <= 127 then Leaf(SMALLLONG, [ToUnsigned(i, 256) as Octet]) else Leaf(LONG, Be64(ToUnsigned(i, U64)))
    case Timestamp(n) => Leaf(TIMESTAMP, Be64(n))
    case Uuid(bytes) => Leaf(UUID, bytes)
    case Binary(bytes) => LowerBytes(VBIN8, VBIN32, bytes)
    case Str(bytes) => LowerBytes(STR8, STR32, bytes)
    case Symbol(bytes) => LowerBytes(SYM8, SYM32, bytes)
  }

  /** The form in which the composer writes a value. */
  function Lower(v: Value): Term
    requires InRange(v)
    decreases v, 1
  {
    match v
    case Scalar(s) => LowerScalar(s)
    case EmptyList => Leaf(LIST0, [])
    case List(items) => Node(false, LowerAll(items))
    case Map(items) => Node(true, LowerAll(items))
  }

  function LowerAll(vs: seq<Value>): (ts: seq<Term>)
    requires forall i | 0 <= i < |vs| :: InRange(vs[i])
    ensures |ts| == |vs|
    decreases vs, 0
  {
    if vs == [] then [] else [Lower(vs[0])] + LowerAll(vs[1..])
  }
}
