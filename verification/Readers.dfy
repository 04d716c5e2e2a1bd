/** The scalar readers, and the round trip for typed values: what was composed, in buffers of
    any capacity, is parsed and read back as it was.
 */
module Readers {
  import opened Octets
  import opened Amqp
  import opened BufferField
  import opened Compose
  import opened Parse
  import opened RoundTrip
  import opened Seqs
  import opened Options

  const USHORT: Octet := 0x60
  const SHORT: Octet := 0x61
  const UBYTE: Octet := 0x50
  const BYTE: Octet := 0x51

  /** The number that octets denote, most significant first. */
  function Big(v: Octets): nat {
    if v == [] then 0 else Big(v[..|v| - 1]) * 0x100 + v[|v| - 1] as int
  }

  /** The signed number of one, two, four or eight octets. */
  function BigSigned(v: Octets): int {
    match |v|
    case 1 => ToSigned(Big(v), 0x100)
    case 2 => ToSigned(Big(v), 0x1_0000)
    case 4 => ToSigned(Big(v), U32)
    case 8 => ToSigned(Big(v), U64)
    case _ => 0
  }

  predicate IsUnsigned(tag: Octet) {
    tag in {ULONG, TIMESTAMP, UINT, USHORT, BOOLEAN, UBYTE, SMALLUINT, SMALLULONG}
  }

  predicate IsSigned(tag: Octet) { tag in {LONG, INT, SHORT, BYTE, BOOLEAN, SMALLLONG, SMALLINT} }

  predicate IsZero(tag: Octet) { tag in {FALSE, UINT0, ULONG0} }

  /** What the readers mean. A signed number can be read as unsigned if it is not negative, an
      unsigned one as signed if it is below the limit of its tag. Strings are not covered. */
  function ULongOf(tag: Octet, v: Octets): Option<nat> {
    if IsUnsigned(tag) then Some(Big(v))
    else if tag == TRUE then Some(1)
    else if IsZero(tag) then Some(0)
    else if IsSigned(tag) && BigSigned(v) >= 0 then Some(BigSigned(v))
    else None
  }

  function SignedLimit(tag: Octet): nat {
    if tag == USHORT then 0x8000
    else if tag == UINT then 0x8000_0000
    else if tag == ULONG then 0x8000_0000_0000_0000
    else 0x80
  }

  function LongOf(tag: Octet, v: Octets): Option<int> {
    if IsSigned(tag) then Some(BigSigned(v))
    else if tag == TRUE then Some(1)
    else if IsZero(tag) then Some(0)
    else if IsUnsigned(tag) && tag != TIMESTAMP && Big(v) < SignedLimit(tag) then Some(Big(v))
    else None
  }

  function BoolOf(tag: Octet, v: Octets): bool {
    tag == TRUE || (tag in {BYTE, BOOLEAN} && Big(v) != 0)
  }

  // ---------------------------------------------------------------- reading through a cursor

  lemma {:induction false} BigOfOne(v: Octets)
    requires |v| == 1
    ensures Big(v) == v[0] as int
  {
    assert v[..0] == [];
  }

  lemma {:induction false} BigAppend(u: Octets, v: Octets, x: Octet)
    requires v == u + [x]
    ensures Big(v) == Big(u) * 0x100 + x as int
  {
    assert v[..|v| - 1] == u;
  }

  lemma {:induction false} BigIsDe32(v: Octets)
    requires |v| == 4
    ensures Big(v) == De32(v)
  {
    BigOfOne(v[..1]);
    BigAppend(v[..1], v[..2], v[1]);
    BigAppend(v[..2], v[..3], v[2]);
    BigAppend(v[..3], v, v[3]);
  }

  lemma {:induction false} BigIsDe64(v: Octets)
    requires |v| == 8
    ensures Big(v) == De64(v)
  {
    BigIsDe32(v[..4]);
    BigIsDe32(v[4..]);
    BigAppend(v[..4], v[..5], v[4]);
    BigAppend(v[..5], v[..6], v[5]);
    BigAppend(v[..6], v[..7], v[6]);
    BigAppend(v[..7], v, v[7]);
  }

  method TakeUint64(bs: Buffers, f: Cursor) returns (n: nat)
    requires Valid(bs, f) && f.remaining == 8
    ensures n == Big(View(bs, f)) < U64
  {
    ghost var v := View(bs, f);
    var _, f1, hi := TakeUint32(bs, f);
    var _, _, lo := TakeUint32(bs, f1);
    n := hi * U32 + lo;
    assert v[4..][..4] == v[4..];
    BigIsDe64(v);
  }

  method TakeUint16(bs: Buffers, f: Cursor) returns (n: nat)
    requires Valid(bs, f) && f.remaining == 2
    ensures n == Big(View(bs, f)) < 0x1_0000
  {
    ghost var v := View(bs, f);
    var _, f1, hi := TakeOctet(bs, f);
    var _, _, lo := TakeOctet(bs, f1);
    n := hi as int * 0x100 + lo as int;
    assert v[1..][0] == v[1];
    BigOfOne(v[..1]);
    BigAppend(v[..1], v, v[1]);
  }

  method TakeBig(bs: Buffers, f: Cursor, width: nat) returns (n: nat)
    requires Valid(bs, f) && f.remaining == width && width in {1, 2, 4, 8}
    ensures n == Big(View(bs, f))
  {
    ghost var v := View(bs, f);
    match width {
      case 8 => n := TakeUint64(bs, f);
      case 4 =>
        var _, _, x := TakeUint32(bs, f);
        n := x;
        assert v[..4] == v;
        BigIsDe32(v);
      case 2 => n := TakeUint16(bs, f);
      case _ =>
        var _, _, x := TakeOctet(bs, f);
        n := x as int;
        BigOfOne(v);
    }
  }

  /** The octets of a signed number are taken as an unsigned number of their width, which is
      then converted. */
  method TakeSigned(bs: Buffers, f: Cursor, width: nat) returns (n: int)
    requires Valid(bs, f) && f.remaining == width && width in {1, 2, 4, 8}
    ensures n == BigSigned(View(bs, f))
  {
    var u := TakeBig(bs, f, width);
    n := ToSigned(u, match width case 1 => 0x100 case 2 => 0x1_0000 case 4 => U32 case _ => U64);
  }

  /** A value of a numeric tag has the width of the tag. */
  predicate WidthOk(tag: Octet, value: Cursor) { IsUnsigned(tag) || IsSigned(tag) ==> value.remaining == FixedWidth(tag) }

  /** Read a field as an unsigned number. */
  method AsULong(bs: Buffers, tag: Octet, value: Cursor) returns (r: Option<nat>)
    requires Valid(bs, value) && WidthOk(tag, value)
    ensures r == ULongOf(tag, View(bs, value))
  {
    hide Big, View;
    if IsUnsigned(tag) {
      var n := TakeBig(bs, value, FixedWidth(tag));
      return Some(n);
    }
    if tag == TRUE { return Some(1); }
    if IsZero(tag) { return Some(0); }
    if IsSigned(tag) {
      var i := TakeSigned(bs, value, FixedWidth(tag));
      if i >= 0 { return Some(i); }
    }
    return None;
  }

  method AsUInt(bs: Buffers, tag: Octet, value: Cursor) returns (r: Option<nat>)
    requires Valid(bs, value) && WidthOk(tag, value)
    ensures var n := ULongOf(tag, View(bs, value));
            r == if n.Some? && n.value < U32 then n else None
  {
    hide ULongOf, View;
    r := AsULong(bs, tag, value);
    if r.Some? && r.value >= U32 { r := None; }
  }

  /** Read a field as a signed number. */
  method AsLong(bs: Buffers, tag: Octet, value: Cursor) returns (r: Option<int>)
    requires Valid(bs, value) && WidthOk(tag, value)
    ensures r == LongOf(tag, View(bs, value))
  {
    hide Big, View;
    if IsSigned(tag) {
      var i := TakeSigned(bs, value, FixedWidth(tag));
      return Some(i);
    }
    if tag == TRUE { return Some(1); }
    if IsZero(tag) { return Some(0); }
    if IsUnsigned(tag) && tag != TIMESTAMP {
      var n := TakeBig(bs, value, FixedWidth(tag));
      if n < SignedLimit(tag) { return Some(n); }
    }
    return None;
  }

  method AsInt(bs: Buffers, tag: Octet, value: Cursor) returns (r: Option<int>)
    requires Valid(bs, value) && WidthOk(tag, value)
    ensures var n := LongOf(tag, View(bs, value));
            r == if n.Some? && -0x8000_0000 <= n.value < 0x8000_0000 then n else None
  {
    hide LongOf, View;
    r := AsLong(bs, tag, value);
    if r.Some? && !(-0x8000_0000 <= r.value < 0x8000_0000) { r := None; }
  }

  method AsBool(bs: Buffers, tag: Octet, value: Cursor) returns (b: bool)
    requires Valid(bs, value) && WidthOk(tag, value)
    ensures b == BoolOf(tag, View(bs, value))
  {
    if tag in {BYTE, BOOLEAN} {
      var n := TakeBig(bs, value, 1);
      return n != 0;
    }
    return tag == TRUE;
  }

  // ---------------------------------------------------------------- typed round trip

  /** The scalar that a field denotes, read with the reader of its type. */
  function ScalarOf(tag: Octet, v: Octets): Option<Scalar> {
    if tag == NULL then Some(Null)
    else if tag in {TRUE, FALSE, BOOLEAN} then Some(Bool(BoolOf(tag, v)))
    else if tag in {UINT0, SMALLUINT, UINT} then Some(UInt(ULongOf(tag, v).value))
    else if tag in {ULONG0, SMALLULONG, ULONG} then Some(ULong(ULongOf(tag, v).value))
    else if tag in {SMALLINT, INT} then Some(Int(LongOf(tag, v).value))
    else if tag in {SMALLLONG, LONG} then Some(Long(LongOf(tag, v).value))
    else if tag == TIMESTAMP then Some(Timestamp(ULongOf(tag, v).value))
    else if tag == UUID then Some(Uuid(v))
    else if tag in {VBIN8, VBIN32} then Some(Binary(v))
    else if tag in {STR8, STR32} then Some(Str(v))
    else if tag in {SYM8, SYM32} then Some(Symbol(v))
    else None
  }

  lemma {:induction false} BigOfBe32(n: nat)
    requires n < U32
    ensures Big(Be32(n)) == n
  {
    De32Be32(n);
    BigIsDe32(Be32(n));
  }

  lemma {:induction false} BigOfBe64(n: nat)
    requires n < U64
    ensures Big(Be64(n)) == n
  {
    De64Be64(n);
    BigIsDe64(Be64(n));
  }

  /** Every scalar is read back as it was written. */
  lemma {:induction false} ScalarRoundTrip(s: Scalar)
    requires ScalarFits(s)
    ensures ScalarOf(LowerScalar(s).tag, LowerScalar(s).body) == Some(s)
  {
    hide Big, Be32, Be64;
    match s
    case UInt(n) => NumberRoundTrip(n, U32);
    case ULong(n) => NumberRoundTrip(n, U64);
    case Timestamp(n) => BigOfBe64(n);
    case Int(i) => SignedNumberRoundTrip(i, U32);
    case Long(i) => SignedNumberRoundTrip(i, U64);
    case _ =>
  }

  lemma {:induction false} NumberRoundTrip(n: nat, modulus: nat)
    requires n < modulus && modulus in {U32, U64}
    ensures n < 256 ==> Big([n as Octet]) == n
    ensures Big(if modulus == U32 then Be32(n) else Be64(n)) == n
  {
    hide Big, Be32, Be64;
    if n < 256 { BigOfOne([n as Octet]); }
    if modulus == U32 { BigOfBe32(n); } else { BigOfBe64(n); }
  }

  lemma {:induction false} SignedNumberRoundTrip(i: int, modulus: nat)
    requires -(modulus as int) <= 2 * i < modulus && modulus in {U32, U64}
    ensures -128 <= i <= 127 ==> BigSigned([ToUnsigned(i, 256) as Octet]) == i
    ensures BigSigned(if modulus == U32 then Be32(ToUnsigned(i, U32)) else Be64(ToUnsigned(i, U64))) == i
  {
    hide Big, Be32, Be64;
    if -128 <= i <= 127 { SignedRoundTrip(i, 256); BigOfOne([ToUnsigned(i, 256) as Octet]); }
    SignedRoundTrip(i, modulus);
    if modulus == U32 { BigOfBe32(ToUnsigned(i, U32)); } else { BigOfBe64(ToUnsigned(i, U64)); }
  }

  /** The value that a good tree denotes. */
  function ValueOf(t: Parsed<Octets>): Option<Value>
    decreases t, 1
  {
    if !t.IsOk() then None
    else if t.field.tag == LIST0 then Some(EmptyList)
    else if IsListTag(t.field.tag) then Listed(ValuesOf(t.children), false)
    else if IsMapTag(t.field.tag) then Listed(ValuesOf(t.children), true)
    else match ScalarOf(t.field.tag, t.field.value) case None => None case Some(s) => Some(Scalar(s))
  }

  function Listed(vs: Option<seq<Value>>, isMap: bool): Option<Value> {
    match vs case None => None case Some(items) => Some(if isMap then Map(items) else List(items))
  }

  function ValuesOf(ts: seq<Parsed<Octets>>): Option<seq<Value>>
    decreases ts, 0
  {
    if ts == [] then Some([])
    else
      var v, vs := ValueOf(ts[0]), ValuesOf(ts[1..]);
      if v.Some? && vs.Some? then Some([v.value] + vs.value) else None
  }

  lemma {:induction false} ValueRoundTrip(v: Value)
    requires InRange(v) && Encodable(Lower(v))
    ensures ValueOf(TreeOf(Lower(v))) == Some(v)
    decreases v, 1
  {
    hide ScalarOf, LowerScalar, Encode, ValuesOf, LowerAll, TreesOf, LeafOk;
    match v
    case Scalar(s) => ScalarRoundTrip(s); LeafIsScalar(s);
    case EmptyList =>
    case List(items) => ValuesRoundTrip(items);
    case Map(items) => ValuesRoundTrip(items);
  }

  lemma {:induction false} LeafIsScalar(s: Scalar)
    requires ScalarFits(s)
    ensures LowerScalar(s).Leaf? && !IsListTag(LowerScalar(s).tag) && !IsMapTag(LowerScalar(s).tag)
  {
  }

  lemma {:induction false} ValuesRoundTrip(vs: seq<Value>)
    requires (forall i | 0 <= i < |vs| :: InRange(vs[i])) && AllEncodable(LowerAll(vs))
    ensures ValuesOf(TreesOf(LowerAll(vs))) == Some(vs)
    decreases vs, 0
  {
    hide ValueOf, TreeOf, Lower;
    if vs != [] {
      assert vs == [vs[0]] + vs[1..];
      var ts := LowerAll(vs);
      assert ts[0] == Lower(vs[0]) && ts[1..] == LowerAll(vs[1..]);
      ValueRoundTrip(vs[0]);
      ValuesRoundTrip(vs[1..]);
      assert TreesOf(ts)[1..] == TreesOf(ts[1..]);
    }
  }

  /** Compose a value into buffers of the given capacity and parse the buffers: the value
      comes back, for every value and every capacity, unless a map in it has an odd number of
      elements. */
  method ComposeThenParse(v: Value, capacity: nat) returns (bs: Buffers, tree: Parsed<Cursor>)
    requires capacity > 0 && InRange(v) && Encodable(Lower(v))
    ensures TreePlaced(bs, tree)
    ensures tree.IsOk() <==> EvenMaps(Lower(v))
    ensures ValueOf(AbsTree(bs, tree)) == if EvenMaps(Lower(v)) then Some(v) else None
  {
    hide Encode, Lower, ValueOf, ParseValue, AbsTree;
    var field := new ComposedField(capacity);
    field.ComposeTerm(Lower(v));
    bs := field.buffers;
    var f := WholeChain(bs);
    var rest;
    tree, rest := ParseInternal(bs, f);
    Recovered(v, Flat(bs));
    AbsKeepsStatus(bs, tree);
  }

  lemma {:induction false} AbsKeepsStatus(bs: Buffers, t: Parsed<Cursor>)
    requires TreePlaced(bs, t)
    ensures AbsTree(bs, t).IsOk() <==> t.IsOk()
  {
  }

  lemma {:induction false} Recovered(v: Value, s: Octets)
    requires InRange(v) && Encodable(Lower(v)) && s == [] + Encode(Lower(v))
    ensures var t := ParseValue(s).tree;
            && (t.IsOk() <==> EvenMaps(Lower(v)))
            && ValueOf(t) == if EvenMaps(Lower(v)) then Some(v) else None
  {
    hide Encode, Lower, ParseValue;
    assert s == Encode(Lower(v)) + [];
    ComposeParseIff(Lower(v), []);
    ValueRoundTrip(v);
  }

  /** A field that covers a whole chain. */
  method WholeChain(bs: Buffers) returns (f: Cursor)
    requires bs != []
    ensures Valid(bs, f) && View(bs, f) == Flat(bs)
  {
    WholeView(bs);
    f := Normalize(bs, Cursor(0, 0, |Flat(bs)|));
  }
}
