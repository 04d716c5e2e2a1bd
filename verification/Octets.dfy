/** Octets, big-endian numbers, and chains of buffers seen as one flat octet sequence. */
module Octets {
  import opened Seqs

  newtype Octet = x: int | 0 <= x < 0x100

  type Octets = seq<Octet>

  // ---------------------------------------------------------------- numbers

  const U32: nat := 0x1_0000_0000
  const U64: nat := 0x1_0000_0000_0000_0000

  /** The four octets of a 32-bit number, most significant first. */
  function Be32(n: nat): (s: Octets)
    requires n < U32
    ensures |s| == 4
  {
    [(n / 0x100_0000) as Octet, (n / 0x1_0000 % 0x100) as Octet, (n / 0x100 % 0x100) as Octet, (n % 0x100) as Octet]
  }

  function De32(s: Octets): (n: nat)
    requires |s| == 4
    ensures n < U32
  {
    s[0] as int * 0x100_0000 + s[1] as int * 0x1_0000 + s[2] as int * 0x100 + s[3] as int
  }

  lemma {:induction false} De32Be32(n: nat)
    requires n < U32
    ensures De32(Be32(n)) == n
  {
    DigitsOf(n);
    var a := n / 0x100;
    var b := a / 0x100;
    var c := b / 0x100;
    assert n == 0x100 * a + n % 0x100;
    assert a == 0x100 * b + a % 0x100;
    assert b == 0x100 * c + b % 0x100;
  }

  lemma {:induction false} DigitsOf(n: nat)
    ensures n / 0x1_0000 == n / 0x100 / 0x100
    ensures n / 0x100_0000 == n / 0x100 / 0x100 / 0x100
  {
  }

  function Be64(n: nat): (s: Octets)
    requires n < U64
    ensures |s| == 8
  {
    Be32(n / U32) + Be32(n % U32)
  }

  function De64(s: Octets): (n: nat)
    requires |s| == 8
    ensures n < U64
  {
    De32(s[..4]) * U32 + De32(s[4..])
  }

  lemma {:induction false} De64Be64(n: nat)
    requires n < U64
    ensures De64(Be64(n)) == n
  {
    De32Be32(n / U32);
    De32Be32(n % U32);
    CutAppend(Be32(n / U32), Be32(n % U32), 4);
    assert Be64(n)[..4] == Be32(n / U32);
    assert Be64(n)[4..] == Be32(n % U32);
  }

  /** Two's complement: the unsigned image of a signed number of a given modulus. */
  function ToUnsigned(i: int, modulus: nat): (n: nat)
    requires -(modulus as int) <= i < modulus
    ensures i >= 0 ==> n == i
  {
    if i < 0 then i + modulus else i
  }

  function ToSigned(n: nat, modulus: nat): int {
    if 2 * n >= modulus then n - modulus else n
  }

  lemma {:induction false} SignedRoundTrip(i: int, modulus: nat)
    requires -(modulus as int) <= 2 * i < modulus
    ensures ToSigned(ToUnsigned(i, modulus), modulus) == i
  {
  }

  // ---------------------------------------------------------------- buffer chains

  type Buffers = seq<Octets>

  function Flat(bs: Buffers): Octets {
    if bs == [] then [] else bs[0] + Flat(bs[1..])
  }

  lemma {:induction false} FlatAppend(a: Buffers, b: Buffers)
    ensures Flat(a + b) == Flat(a) + Flat(b)
  {
    if a == [] {
      assert a + b == b;
    } else {
      CutAppend(a, b, 1);
      assert (a + b)[0] == a[0];
      FlatAppend(a[1..], b);
      AppendAssoc(a[0], Flat(a[1..]), Flat(b));
    }
  }

  lemma {:induction false} FlatOne(x: Octets)
    ensures Flat([x]) == x
  {
    assert [x][1..] == [];
    assert x + [] == x;
  }

  /** Flat contents before, in and after one buffer. */
  lemma {:induction false} FlatAt(bs: Buffers, i: nat)
    requires i < |bs|
    ensures Flat(bs) == Flat(bs[..i]) + (bs[i] + Flat(bs[i + 1..]))
    ensures Flat(bs[i..]) == bs[i] + Flat(bs[i + 1..])
  {
    assert bs == bs[..i] + bs[i..];
    FlatAppend(bs[..i], bs[i..]);
    assert bs[i..][0] == bs[i] && bs[i..][1..] == bs[i + 1..];
  }

  /** Adding octets to the last buffer adds them at the end. */
  lemma {:induction false} FlatGrowTail(bs: Buffers, x: Octets)
    requires bs != []
    ensures Flat(bs[|bs| - 1 := bs[|bs| - 1] + x]) == Flat(bs) + x
  {
    var n := |bs| - 1;
    var bs' := bs[n := bs[n] + x];
    FlatAt(bs, n);
    FlatAt(bs', n);
    assert bs'[..n] == bs[..n] && bs[n + 1..] == [] && bs'[n + 1..] == [];
    var a, b := Flat(bs[..n]), bs[n];
    assert a + ((b + x) + []) == (a + (b + [])) + x;
  }

  lemma {:induction false} FlatNewTail(bs: Buffers)
    ensures Flat(bs + [[]]) == Flat(bs)
  {
    FlatAppend(bs, [[]]);
    FlatOne([]);
  }

  /** Overwriting one octet of one buffer overwrites one octet of the flat contents. */
  lemma {:induction false} FlatSet(bs: Buffers, i: nat, j: nat, x: Octet)
    requires i < |bs| && j < |bs[i]|
    ensures |Flat(bs[..i])| + j < |Flat(bs)|
    ensures Flat(bs[i := bs[i][j := x]]) == Flat(bs)[|Flat(bs[..i])| + j := x]
  {
    var bs' := bs[i := bs[i][j := x]];
    FlatAt(bs, i);
    FlatAt(bs', i);
    assert bs'[..i] == bs[..i] && bs'[i + 1..] == bs[i + 1..];
    SetInside(Flat(bs[..i]), bs[i], Flat(bs[i + 1..]), j, x);
  }

  lemma {:induction false} SetInside(a: Octets, b: Octets, c: Octets, j: nat, x: Octet)
    requires j < |b|
    ensures a + (b[j := x] + c) == (a + (b + c))[|a| + j := x]
  {
  }
}
