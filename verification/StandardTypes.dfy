/** The encodings of sections 1.6.1 to 1.6.24 of OASIS AMQP 1.0 Part 1 (Types), with their codes written
    out. Every form that the standard gives a number or a truth value is parsed and read back as that
    number or truth value, not only the form that the composer chooses; and what the composer writes is a
    form of the standard, and a shortest one.
 */
module StandardTypes {
  import opened Octets
  import opened Amqp
  import opened BufferField
  import opened Parse
  import opened Readers
  import opened Seqs
  import opened Options

  // ---------------------------------------------------------------- layouts

  /** A number in so many octets, most significant first. */
  function Digits(n: nat, width: nat): (s: Octets)
    ensures |s| == width
  {
    if width == 0 then [] else Digits(n / 0x100, width - 1) + [(n % 0x100) as Octet]
  }

  function Power(width: nat): nat { if width == 0 then 1 else 0x100 * Power(width - 1) }

  /** Octets of the value for the constructors of fixed width. */
  function Width(code: Octet): nat {
    if code < 0x50 then 0 else if code < 0x60 then 1 else if code < 0x70 then 2
    else if code < 0x80 then 4 else if code < 0x90 then 8 else 16
  }

  /** Compounds and arrays with one octet each for size and count; the others have four. */
  predicate Narrow(code: Octet) { code < 0xd0 || 0xe0 <= code < 0xf0 }

  /** A field: the constructor, the size of what follows the size field, the number of elements, the rest.
      Which of them are there, and how wide, is fixed by the constructor. */
  function Written(code: Octet, count: nat, body: Octets): Octets
    requires 0x40 <= code < 0xa0 ==> |body| == Width(code)
    requires 0xa0 <= code < 0xb0 ==> |body| < 0x100
    requires 0xc0 <= code && Narrow(code) ==> |body| < 0xff && count < 0x100
  {
    if code < 0xa0 then [code] + body
    else if code < 0xb0 then [code] + Digits(|body|, 1) + body
    else if code < 0xc0 then [code] + Digits(|body|, 4) + body
    else if Narrow(code) then [code] + Digits(|body| + 1, 1) + Digits(count, 1) + body
    else [code] + Digits(|body| + 4, 4) + Digits(count, 4) + body
  }

  lemma {:induction false} Powers()
    ensures Power(1) == 0x100 && Power(2) == 0x1_0000 && Power(4) == U32 && Power(8) == U64
  {
    assert Power(1) == 0x100 * Power(0);
    assert Power(2) == 0x100 * Power(1);
    assert Power(3) == 0x100 * Power(2);
    assert Power(4) == 0x100 * Power(3);
    assert Power(5) == 0x100 * Power(4);
    assert Power(6) == 0x100 * Power(5);
    assert Power(7) == 0x100 * Power(6);
  }

  /** The octets of a number denote that number. */
  lemma {:induction false} BigOfDigits(n: nat, width: nat)
    requires n < Power(width)
    ensures Big(Digits(n, width)) == n
  {
    if width > 0 {
      BigOfDigits(n / 0x100, width - 1);
      BigAppend(Digits(n / 0x100, width - 1), Digits(n, width), (n % 0x100) as Octet);
    }
  }

  lemma {:induction false} NumberOfDigits(n: nat, width: nat, rest: Octets)
    requires width in {1, 4} && n < (if width == 1 then 0x100 else U32)
    ensures Number(Digits(n, width) + rest, width) == n
  {
    hide Big, Power;
    var d := Digits(n, width);
    Powers();
    BigOfDigits(n, width);
    if width == 1 {
      BigOfOne(d);
    } else {
      BigIsDe32(d);
      assert (d + rest)[..4] == d;
    }
  }

  /** A field of any layout of the standard is parsed as such, and the parser stands behind it. Only a map
      with an odd number of elements is refused. */
  lemma {:induction false} StandardField(code: Octet, count: nat, body: Octets, rest: Octets)
    requires 0x40 <= code && count < U32 && |body| + 4 < U32
    requires code < 0xa0 ==> |body| == Width(code)
    requires 0xa0 <= code < 0xb0 ==> |body| < 0x100
    requires 0xc0 <= code && Narrow(code) ==> |body| < 0xff && count < 0x100
    requires code < 0xc0 ==> count == 0
    ensures var r := ParseField(Written(code, count, body) + rest);
            if (code == 0xc1 || code == 0xd1) && count % 2 == 1 then r == Err(OddMap)
            else r.Ok? && r.field.tag == code && r.field.count == count && r.field.value == body && r.rest == rest
  {
    hide Digits, Number;
    var s := Written(code, count, body) + rest;
    if code < 0xa0 {
      FixedLayout(code);
      assert s[1..] == body + rest;
      assert s[1..][0..] == s[1..];
      assert (body + rest)[..|body|] == body && (body + rest)[|body|..] == rest;
    } else if code < 0xc0 {
      VariableField(code, body, rest);
    } else {
      CompoundField(code, count, body, rest);
    }
  }

  lemma FixedLayout(code: Octet)
    requires 0x40 <= code < 0xa0
    ensures SizeWidth(code) == 0 && CountWidth(code) == 0 && FixedWidth(code) == Width(code)
    ensures 4 <= Subcategory(code) && !IsMapTag(code)
  {
  }

  lemma VariableLayout(code: Octet)
    requires 0xa0 <= code < 0xc0
    ensures SizeWidth(code) == (if code < 0xb0 then 1 else 4) && CountWidth(code) == 0
    ensures 4 <= Subcategory(code) && !IsMapTag(code)
  {
  }

  lemma CompoundLayout(code: Octet)
    requires 0xc0 <= code
    ensures var w := if Narrow(code) then 1 else 4; SizeWidth(code) == w && CountWidth(code) == w
    ensures 4 <= Subcategory(code) && (IsMapTag(code) <==> code == 0xc1 || code == 0xd1)
  {
  }

  lemma {:induction false} BodyCut(body: Octets, rest: Octets)
    ensures (body + rest)[..|body|] == body && (body + rest)[|body|..] == rest
  {
  }

  lemma {:induction false} VariableField(code: Octet, body: Octets, rest: Octets)
    requires 0xa0 <= code < 0xc0 && |body| < U32 && (code < 0xb0 ==> |body| < 0x100)
    ensures ParseField(Written(code, 0, body) + rest) == Ok(Field(code, |body|, 0, body), rest)
  {
    hide Digits, Number, SizeWidth, CountWidth, Subcategory, IsMapTag;
    var s, w := Written(code, 0, body) + rest, if code < 0xb0 then 1 else 4;
    VariableLayout(code);
    var d := Digits(|body|, w);
    NumberOfDigits(|body|, w, body + rest);
    assert s[1..] == d + (body + rest);
    BodyCut(d, body + rest);
    assert (body + rest)[0..] == body + rest;
    BodyCut(body, rest);
  }

  lemma {:induction false} CountedField(code: Octet, count: nat, body: Octets, rest: Octets)
    requires 0xc0 <= code && count < U32 && |body| + 4 < U32
    requires Narrow(code) ==> |body| < 0xff && count < 0x100
    ensures var w := if Narrow(code) then 1 else 4;
            ParseCount(code, |body| + w, Digits(count, w) + (body + rest)) ==
            if (code == 0xc1 || code == 0xd1) && count % 2 == 1 then Err(OddMap)
            else Ok(Field(code, |body| + w, count, body), rest)
  {
    hide Digits, Number, SizeWidth, CountWidth, Subcategory, IsMapTag;
    var w := if Narrow(code) then 1 else 4;
    CompoundLayout(code);
    NumberOfDigits(count, w, body + rest);
    BodyCut(Digits(count, w), body + rest);
    BodyCut(body, rest);
  }

  lemma {:induction false} CompoundField(code: Octet, count: nat, body: Octets, rest: Octets)
    requires 0xc0 <= code && count < U32 && |body| + 4 < U32
    requires Narrow(code) ==> |body| < 0xff && count < 0x100
    ensures var w := if Narrow(code) then 1 else 4;
            ParseField(Written(code, count, body) + rest) ==
            if (code == 0xc1 || code == 0xd1) && count % 2 == 1 then Err(OddMap)
            else Ok(Field(code, |body| + w, count, body), rest)
  {
    hide Digits, Number, SizeWidth, CountWidth, Subcategory, IsMapTag, ParseCount;
    var w := if Narrow(code) then 1 else 4;
    CompoundLayout(code);
    CountedField(code, count, body, rest);
    var d, more := Digits(|body| + w, w), Digits(count, w) + (body + rest);
    NumberOfDigits(|body| + w, w, more);
    assert Written(code, count, body) + rest == [code] + (d + more);
    BodyCut([code], d + more);
    BodyCut(d, more);
  }

  lemma {:induction false} CutVariable(code: Octet, body: Octets, n: nat)
    requires 0xa0 <= code < 0xc0 && |body| < U32 && (code < 0xb0 ==> |body| < 0x100) && 1 <= n < |Written(code, 0, body)|
    ensures ParseField(Written(code, 0, body)[..n]) == Err(if n < (if code < 0xb0 then 2 else 5) then NoLength else Truncated)
  {
    hide Digits, Number, SizeWidth, CountWidth, Subcategory, IsMapTag;
    var w := if code < 0xb0 then 1 else 4;
    VariableLayout(code);
    var d, s := Digits(|body|, w), Written(code, 0, body)[..n];
    assert Written(code, 0, body) == [code] + (d + body);
    if n >= 1 + w {
      var part := body[..n - 1 - w];
      assert s[1..] == d + part;
      NumberOfDigits(|body|, w, part);
      BodyCut(d, part);
      assert part[0..] == part;
    }
  }

  lemma {:induction false} CutCounted(code: Octet, count: nat, body: Octets, rest: Octets, odd: bool)
    requires 0xc0 <= code && count < U32 && |body| + 4 < U32 && odd == ((code == 0xc1 || code == 0xd1) && count % 2 == 1)
    requires Narrow(code) ==> |body| < 0xff && count < 0x100
    requires var w := if Narrow(code) then 1 else 4; rest < Digits(count, w) + body
    ensures var w := if Narrow(code) then 1 else 4;
            ParseCount(code, |body| + w, rest) == Err(if |rest| < w then NoCount else if odd then OddMap else Truncated)
  {
    hide Digits, Number, SizeWidth, CountWidth, Subcategory, IsMapTag;
    var w := if Narrow(code) then 1 else 4;
    CompoundLayout(code);
    var e := Digits(count, w);
    if |rest| >= w {
      var part := rest[w..];
      assert rest == e + part;
      NumberOfDigits(count, w, part);
      BodyCut(e, part);
    }
  }

  lemma {:induction false} CutCompound(code: Octet, count: nat, body: Octets, n: nat, odd: bool)
    requires 0xc0 <= code && count < U32 && |body| + 4 < U32 && odd == ((code == 0xc1 || code == 0xd1) && count % 2 == 1)
    requires Narrow(code) ==> |body| < 0xff && count < 0x100
    requires 1 <= n < |Written(code, count, body)|
    ensures var w := if Narrow(code) then 1 else 4;
            ParseField(Written(code, count, body)[..n]) ==
            Err(if n < 1 + w then NoLength else if n < 1 + 2 * w then NoCount else if odd then OddMap else Truncated)
  {
    hide Digits, Number, SizeWidth, CountWidth, Subcategory, IsMapTag, ParseCount;
    var w := if Narrow(code) then 1 else 4;
    CompoundLayout(code);
    var d, more := Digits(|body| + w, w), Digits(count, w) + body;
    CompoundWritten(code, count, body, d, more);
    CutHeader(code, d, more, n);
    if n >= 1 + w {
      var rest := more[..n - 1 - w];
      NumberOfDigits(|body| + w, w, rest);
      BodyCut(d, rest);
      CutCounted(code, count, body, rest, odd);
    }
  }

  lemma {:induction false} CompoundWritten(code: Octet, count: nat, body: Octets, d: Octets, more: Octets)
    requires 0xc0 <= code && (Narrow(code) ==> |body| < 0xff && count < 0x100)
    requires var w := if Narrow(code) then 1 else 4; d == Digits(|body| + w, w) && more == Digits(count, w) + body
    ensures Written(code, count, body) == [code] + (d + more)
  {
    hide Digits;
  }

  lemma {:induction false} CutHeader(code: Octet, d: Octets, more: Octets, n: nat)
    requires 1 <= n < 1 + |d| + |more|
    ensures var s := ([code] + (d + more))[..n];
            && s != [] && s[0] == code && |s[1..]| == n - 1
            && (n >= 1 + |d| ==> s[1..] == d + more[..n - 1 - |d|] && more[..n - 1 - |d|] < more)
  {
  }

  /** Below 0x40 there are no constructors. */
  lemma {:induction false} UnknownCode(s: Octets)
    requires s != []
    ensures ParseField(s) == Err(UnknownTag) <==> s[0] < 0x40
  {
  }

  /** A field that breaks off is refused, and the error says what is missing: the constructor, the size, the
      number of elements, or octets of the value. */
  lemma {:induction false} StandardFieldCut(code: Octet, count: nat, body: Octets, n: nat)
    requires 0x40 <= code && count < U32 && |body| + 4 < U32
    requires code < 0xa0 ==> |body| == Width(code)
    requires 0xa0 <= code < 0xb0 ==> |body| < 0x100
    requires 0xc0 <= code && Narrow(code) ==> |body| < 0xff && count < 0x100
    requires code < 0xc0 ==> count == 0
    requires n < |Written(code, count, body)|
    ensures var w := if code < 0xa0 then 0 else if code < 0xb0 || (0xc0 <= code && Narrow(code)) then 1 else 4;
            var header := if code < 0xc0 then 1 + w else 1 + 2 * w;
            ParseField(Written(code, count, body)[..n]) ==
            Err(if n == 0 then NoTag else if n < 1 + w then NoLength else if n < header then NoCount
                else if (code == 0xc1 || code == 0xd1) && count % 2 == 1 then OddMap else Truncated)
  {
    hide Digits, Number;
    if n > 0 {
      if code < 0xa0 {
        FixedLayout(code);
      } else if code < 0xc0 {
        CutVariable(code, body, n);
      } else {
        CutCompound(code, count, body, n, (code == 0xc1 || code == 0xd1) && count % 2 == 1);
      }
    }
  }

  // ---------------------------------------------------------------- numbers and truth values

  datatype Typed =
    | UByte(n: nat)
    | UShort(n: nat)
    | UInt(n: nat)
    | ULong(n: nat)
    | Byte(i: int)
    | Short(i: int)
    | Int(i: int)
    | Long(i: int)
    | Boolean(b: bool)
    | Timestamp(i: int)

  predicate Fits(v: Typed) {
    match v
    case UByte(n) => n < 0x100
    case UShort(n) => n < 0x1_0000
    case UInt(n) => n < 0x1_0000_0000
    case ULong(n) => n < 0x1_0000_0000_0000_0000
    case Byte(i) => -0x80 <= i < 0x80
    case Short(i) => -0x8000 <= i < 0x8000
    case Int(i) => -0x8000_0000 <= i < 0x8000_0000
    case Long(i) => -0x8000_0000_0000_0000 <= i < 0x8000_0000_0000_0000
    case Timestamp(i) => -0x8000_0000_0000_0000 <= i < 0x8000_0000_0000_0000
    case Boolean(_) => true
  }

  /** The octets of a number in two's complement. */
  function Twos(i: int, width: nat): Octets
    requires 0 <= i + Power(width)
  {
    Digits(if i < 0 then i + Power(width) else i, width)
  }

  /** The constructor `code` and the octets `body` are a form of the value. */
  predicate Encodes(code: Octet, body: Octets, v: Typed)
    requires Fits(v)
  {
    Powers();
    match v
    case UByte(n) => code == 0x50 && body == Digits(n, 1)
    case UShort(n) => code == 0x60 && body == Digits(n, 2)
    case UInt(n) =>
      || (code == 0x70 && body == Digits(n, 4))
      || (code == 0x52 && n < 0x100 && body == Digits(n, 1))
      || (code == 0x43 && n == 0 && body == [])
    case ULong(n) =>
      || (code == 0x80 && body == Digits(n, 8))
      || (code == 0x53 && n < 0x100 && body == Digits(n, 1))
      || (code == 0x44 && n == 0 && body == [])
    case Byte(i) => code == 0x51 && body == Twos(i, 1)
    case Short(i) => code == 0x61 && body == Twos(i, 2)
    case Int(i) =>
      || (code == 0x71 && body == Twos(i, 4))
      || (code == 0x54 && -0x80 <= i < 0x80 && body == Twos(i, 1))
    case Long(i) =>
      || (code == 0x81 && body == Twos(i, 8))
      || (code == 0x55 && -0x80 <= i < 0x80 && body == Twos(i, 1))
    case Boolean(b) =>
      || (code == 0x41 && b && body == [])
      || (code == 0x42 && !b && body == [])
      || (code == 0x56 && body == [if b then 1 else 0])
    case Timestamp(i) => code == 0x83 && body == Twos(i, 8)
  }

  /** The number to be read as unsigned: none if it is negative. A time is read as its octets. */
  function Unsigned(v: Typed): Option<int> {
    match v
    case UByte(n) => Some(n)
    case UShort(n) => Some(n)
    case UInt(n) => Some(n)
    case ULong(n) => Some(n)
    case Byte(i) => if i >= 0 then Some(i) else None
    case Short(i) => if i >= 0 then Some(i) else None
    case Int(i) => if i >= 0 then Some(i) else None
    case Long(i) => if i >= 0 then Some(i) else None
    case Boolean(b) => Some(if b then 1 else 0)
    case Timestamp(i) => Some(if i >= 0 then i else i + 0x1_0000_0000_0000_0000)
  }

  /** The number to be read as signed. An unsigned number is read if it is in the range of the signed type
      of the same width as its form: the short forms are read below 128 only. */
  function Signed(code: Octet, v: Typed): Option<int> {
    match v
    case UByte(n) => if n < 0x80 then Some(n) else None
    case UShort(n) => if n < 0x8000 then Some(n) else None
    case UInt(n) => if n < (if code == 0x70 then 0x8000_0000 else 0x80) then Some(n) else None
    case ULong(n) => if n < (if code == 0x80 then 0x8000_0000_0000_0000 else 0x80) then Some(n) else None
    case Byte(i) => Some(i)
    case Short(i) => Some(i)
    case Int(i) => Some(i)
    case Long(i) => Some(i)
    case Boolean(b) => Some(if b then 1 else 0)
    case Timestamp(_) => None
  }

  function Truth(v: Typed): bool {
    match v
    case Boolean(b) => b
    case Byte(i) => i != 0
    case _ => false
  }

  lemma {:induction false} TwosReadBack(i: int, width: nat)
    requires width in {1, 2, 4, 8} && 0 <= 2 * i + Power(width) && 2 * i < Power(width)
    ensures BigSigned(Twos(i, width)) == i
    ensures Big(Twos(i, width)) == if i < 0 then i + Power(width) else i
  {
    hide Big, Digits, Power;
    Powers();
    BigOfDigits(if i < 0 then i + Power(width) else i, width);
  }

  /** What the octets of a form denote, as unsigned and signed numbers. */
  lemma {:induction false} FormDenotes(code: Octet, body: Octets, v: Typed)
    requires Fits(v) && Encodes(code, body, v)
    ensures 0x40 <= code < 0xa0 && |body| == Width(code)
    ensures ULongOf(code, body) == Unsigned(v)
    ensures LongOf(code, body) == Signed(code, v)
    ensures BoolOf(code, body) == Truth(v)
  {
    hide Big, Digits, Power, BigSigned;
    Powers();
    match v
    case UByte(n) => BigOfDigits(n, 1);
    case UShort(n) => BigOfDigits(n, 2);
    case UInt(n) => if code == 0x70 { BigOfDigits(n, 4); } else if code == 0x52 { BigOfDigits(n, 1); }
    case ULong(n) => if code == 0x80 { BigOfDigits(n, 8); } else if code == 0x53 { BigOfDigits(n, 1); }
    case Byte(i) => TwosReadBack(i, 1);
    case Short(i) => TwosReadBack(i, 2);
    case Int(i) => TwosReadBack(i, if code == 0x71 then 4 else 1);
    case Long(i) => TwosReadBack(i, if code == 0x81 then 8 else 1);
    case Boolean(b) => if code == 0x56 { TruthOctet(b); }
    case Timestamp(i) => TwosReadBack(i, 8);
  }

  lemma {:induction false} TruthOctet(b: bool)
    ensures Big([if b then 1 else 0]) == (if b then 1 else 0) == BigSigned([if b then 1 else 0])
  {
    BigOfOne([if b then 1 else 0]);
  }

  /** Parse a number or a truth value in any form of the standard, wherever it lies in the buffers, and read
      it with every reader. */
  method ReadStandard(bs: Buffers, f: Cursor, ghost code: Octet, ghost body: Octets, ghost v: Typed, ghost rest: Octets)
    returns (u: Option<nat>, u32: Option<nat>, l: Option<int>, i32: Option<int>, b: bool, behind: Cursor)
    requires Valid(bs, f) && Fits(v) && Encodes(code, body, v) && View(bs, f) == [code] + body + rest
    ensures u == Unsigned(v)
    ensures u32 == if u.Some? && u.value < 0x1_0000_0000 then u else None
    ensures l == Signed(code, v)
    ensures i32 == if l.Some? && -0x8000_0000 <= l.value < 0x8000_0000 then l else None
    ensures b == Truth(v)
    ensures Valid(bs, behind) && View(bs, behind) == rest
  {
    hide Encodes, View, ParseField, ULongOf, LongOf, BoolOf;
    FormDenotes(code, body, v);
    StandardField(code, 0, body, rest);
    var r := ParseAmqpField(bs, f);
    match r {
      case Ok(field, rest') =>
        WidthOfForm(bs, field.tag, field.value);
        u := AsULong(bs, field.tag, field.value);
        u32 := AsUInt(bs, field.tag, field.value);
        l := AsLong(bs, field.tag, field.value);
        i32 := AsInt(bs, field.tag, field.value);
        b := AsBool(bs, field.tag, field.value);
        behind := rest';
      case Err(_) => assert false;
    }
  }

  lemma WidthOfForm(bs: Buffers, tag: Octet, value: Cursor)
    requires Valid(bs, value) && 0x40 <= tag < 0xa0 && |View(bs, value)| == Width(tag)
    ensures WidthOk(tag, value)
  {
    FixedLayout(tag);
  }

  // ---------------------------------------------------------------- what the composer writes

  /** Octets of one length that denote the same number are the same. */
  lemma {:induction false} SameNumber(u: Octets, v: Octets)
    requires |u| == |v| && Big(u) == Big(v)
    ensures u == v
  {
    if u != [] {
      var k := |u| - 1;
      SameNumber(u[..k], v[..k]);
      assert u == u[..k] + [u[k]] && v == v[..k] + [v[k]];
    }
  }

  lemma {:induction false} Be32IsDigits(n: nat)
    requires n < U32
    ensures Be32(n) == Digits(n, 4)
  {
    Powers();
    BigOfBe32(n);
    BigOfDigits(n, 4);
    SameNumber(Be32(n), Digits(n, 4));
  }

  lemma {:induction false} Be64IsDigits(n: nat)
    requires n < U64
    ensures Be64(n) == Digits(n, 8)
  {
    hide Be64, Digits, Big, Power;
    Powers();
    BigOfBe64(n);
    BigOfDigits(n, 8);
    Be64Size(n);
    SameNumber(Be64(n), Digits(n, 8));
  }

  lemma Be64Size(n: nat)
    requires n < U64
    ensures |Be64(n)| == 8 == |Digits(n, 8)|
  {
  }

  /** What the composer writes has the layout that its constructor announces, sizes and counts included. */
  lemma {:induction false} ComposedLayout(t: Term)
    requires Encodable(t)
    ensures t.Leaf? ==>
              && (0x40 <= t.tag < 0xa0 ==> |t.body| == Width(t.tag))
              && (0xa0 <= t.tag < 0xb0 ==> |t.body| < 0x100)
              && 0x40 <= t.tag < 0xc0
              && Encode(t) == Written(t.tag, 0, t.body)
    ensures t.Node? ==> AllEncodable(t.items) && Encode(t) == Written(if t.isMap then 0xd1 else 0xd0, |t.items|, EncodeAll(t.items))
  {
    hide Be32, Digits, EncodeAll;
    match t
    case Leaf(tag, body) =>
      if tag >= 0xa0 {
        if 0xb0 <= tag { Be32IsDigits(|body|); } else { OneDigit(|body|); }
      }
    case Node(isMap, items) =>
      CountBelowSize(items);
      Be32IsDigits(|items|);
      Be32IsDigits(4 + SizeAll(items));
  }

  lemma {:induction false} OneDigit(n: nat)
    requires n < 0x100
    ensures Digits(n, 1) == [n as Octet]
  {
    assert Digits(n / 0x100, 0) == [];
  }

  /** The scalar that the composer takes and the typed value are the same. */
  predicate Same(s: Amqp.Scalar, v: Typed) {
    match s
    case Bool(b) => v == Boolean(b)
    case UInt(n) => v == Typed.UInt(n)
    case ULong(n) => v == Typed.ULong(n)
    case Int(i) => v == Typed.Int(i)
    case Long(i) => v == Typed.Long(i)
    case Timestamp(n) => v.Timestamp? && n == if v.i < 0 then v.i + 0x1_0000_0000_0000_0000 else v.i
    case _ => false
  }

  /** The composer writes a form of the value it is given, and no form is shorter. */
  lemma {:induction false} ComposedIsShortest(s: Amqp.Scalar, v: Typed, code: Octet, body: Octets)
    requires Fits(v) && Same(s, v)
    ensures ScalarFits(s) && Encodes(LowerScalar(s).tag, LowerScalar(s).body, v)
    ensures Encodes(code, body, v) ==> |LowerScalar(s).body| <= |body|
  {
    hide Be32, Be64, Digits, Power;
    Powers();
    match s
    case UInt(n) => if n < 256 { OneDigit(n); } else { Be32IsDigits(n); }
    case ULong(n) => if n < 256 { OneDigit(n); } else { Be64IsDigits(n); }
    case Int(i) => if -128 <= i <= 127 { OneDigit(ToUnsigned(i, 256)); } else { Be32IsDigits(ToUnsigned(i, U32)); }
    case Long(i) => if -128 <= i <= 127 { OneDigit(ToUnsigned(i, 256)); } else { Be64IsDigits(ToUnsigned(i, U64)); }
    case Timestamp(n) => Be64IsDigits(n);
    case _ =>
  }

  /** The octets of a string of octets: 8-bit form below 256 octets, 32-bit form from there on. */
  function BytesWritten(code8: Octet, code32: Octet, bytes: Octets): Octets {
    if |bytes| < 0x100 then [code8] + Digits(|bytes|, 1) + bytes else [code32] + Digits(|bytes|, 4) + bytes
  }

  /** All that the composer writes besides numbers and truth values. */
  lemma {:induction false} ComposedValue(v: Value)
    requires InRange(v) && Encodable(Lower(v))
    ensures match v
            case Scalar(Null) => Encode(Lower(v)) == [0x40]
            case Scalar(Uuid(bytes)) => Encode(Lower(v)) == [0x98] + bytes && |bytes| == 16
            case Scalar(Binary(bytes)) => Encode(Lower(v)) == BytesWritten(0xa0, 0xb0, bytes)
            case Scalar(Str(bytes)) => Encode(Lower(v)) == BytesWritten(0xa1, 0xb1, bytes)
            case Scalar(Symbol(bytes)) => Encode(Lower(v)) == BytesWritten(0xa3, 0xb3, bytes)
            case EmptyList => Encode(Lower(v)) == [0x45]
            case List(items) => |Encode(Lower(v))| >= 9 && Encode(Lower(v))[0] == 0xd0 && Encode(Lower(v))[5..9] == Digits(|items|, 4)
            case Map(items) => |Encode(Lower(v))| >= 9 && Encode(Lower(v))[0] == 0xd1 && Encode(Lower(v))[5..9] == Digits(|items|, 4)
            case _ => true
  {
    hide Digits, Encode, EncodeAll;
    ComposedLayout(Lower(v));
  }
}
