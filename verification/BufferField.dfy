/** A field that lies in a chain of buffers: a place in the chain and a length. Every
    operation is a function of the octets of the field alone, however they are spread over
    buffers.
 */
module BufferField {
  import opened Octets
  import opened Seqs

  datatype Cursor = Cursor(buf: nat, off: nat, remaining: nat)

  /** All octets of the chain from a place on. */
  function From(bs: Buffers, buf: nat, off: nat): Octets
    requires buf < |bs| && off <= |bs[buf]|
  {
    bs[buf][off..] + Flat(bs[buf + 1..])
  }

  /** The field lies within the chain. */
  predicate Placed(bs: Buffers, f: Cursor) {
    f.buf < |bs| && f.off <= |bs[f.buf]| && f.remaining <= |From(bs, f.buf, f.off)|
  }

  /** A non-empty field points at an octet, never at the end of a buffer. */
  predicate Valid(bs: Buffers, f: Cursor) {
    Placed(bs, f) && (f.remaining > 0 ==> f.off < |bs[f.buf]|)
  }

  /** The octets of the field. */
  function View(bs: Buffers, f: Cursor): (s: Octets)
    requires Placed(bs, f)
    ensures |s| == f.remaining
  {
    From(bs, f.buf, f.off)[..f.remaining]
  }

  // ---------------------------------------------------------------- moving in the chain

  lemma {:induction false} StepInside(bs: Buffers, f: Cursor, n: nat)
    requires Placed(bs, f) && n <= f.remaining && f.off + n <= |bs[f.buf]|
    ensures var f' := Cursor(f.buf, f.off + n, f.remaining - n);
            && Placed(bs, f') && View(bs, f') == View(bs, f)[n..]
            && View(bs, f)[..n] == bs[f.buf][f.off..f.off + n]
  {
    var a, rest := bs[f.buf][f.off..], Flat(bs[f.buf + 1..]);
    CutAppend(a, rest, n);
    assert bs[f.buf][f.off + n..] == a[n..];
    assert a[..n] == bs[f.buf][f.off..f.off + n];
    TakeDrop(a + rest, n, f.remaining);
  }

  lemma {:induction false} TakeDrop(s: Octets, n: nat, m: nat)
    requires n <= m <= |s|
    ensures s[n..][..m - n] == s[..m][n..] && s[..m][..n] == s[..n]
  {
  }

  /** Cutting a field short. */
  lemma {:induction false} Shorten(bs: Buffers, f: Cursor, n: nat)
    requires Placed(bs, f) && n <= f.remaining
    ensures Placed(bs, f.(remaining := n)) && View(bs, f.(remaining := n)) == View(bs, f)[..n]
  {
    TakeDrop(From(bs, f.buf, f.off), n, f.remaining);
  }

  lemma {:induction false} StepToNext(bs: Buffers, f: Cursor)
    requires Placed(bs, f) && f.remaining > 0 && f.off == |bs[f.buf]|
    ensures f.buf + 1 < |bs|
    ensures var f' := Cursor(f.buf + 1, 0, f.remaining);
            Placed(bs, f') && View(bs, f') == View(bs, f)
  {
    var tail := bs[f.buf + 1..];
    assert bs[f.buf][f.off..] == [];
    assert [] + Flat(tail) == Flat(tail);
    assert tail != [];
    assert tail[1..] == bs[f.buf + 2..];
    assert bs[f.buf + 1][0..] == bs[f.buf + 1];
  }

  method Normalize(bs: Buffers, f: Cursor) returns (f': Cursor)
    requires Placed(bs, f)
    ensures Valid(bs, f') && View(bs, f') == View(bs, f)
  {
    f' := f;
    if f.remaining > 0 {
      while f'.off == |bs[f'.buf]|
        invariant Placed(bs, f') && f'.remaining == f.remaining && View(bs, f') == View(bs, f)
        decreases |bs| - f'.buf
      {
        StepToNext(bs, f');
        f' := Cursor(f'.buf + 1, 0, f'.remaining);
      }
    }
  }

  /** Copy up to `n` octets out of the field and move past them. */
  method Ncopy(bs: Buffers, f: Cursor, n: nat) returns (f': Cursor, dest: Octets)
    requires Valid(bs, f)
    ensures var m := if n <= f.remaining then n else f.remaining;
            Valid(bs, f') && dest == View(bs, f)[..m] && View(bs, f') == View(bs, f)[m..]
  {
    hide View, Flat;
    ghost var v := View(bs, f);
    var count := if n <= f.remaining then n else f.remaining;
    ghost var total := count;
    f', dest := f, [];
    assert v[0..] == v;
    while count > 0
      invariant Valid(bs, f') && 0 <= count <= f'.remaining && |dest| + count == total <= |v|
      invariant dest == v[..|dest|] && View(bs, f') == v[|dest|..]
      decreases count
    {
      var avail := |bs[f'.buf]| - f'.off;
      var step := if count < avail then count else avail;
      StepInside(bs, f', step);
      CopyStep(v, |dest|, step);
      dest := dest + bs[f'.buf][f'.off..f'.off + step];
      f' := Cursor(f'.buf, f'.off + step, f'.remaining - step);
      if count < avail { return; }
      count := count - avail;
      f' := Normalize(bs, f');
    }
  }

  lemma {:induction false} CopyStep(v: Octets, i: nat, n: nat)
    requires i + n <= |v|
    ensures v[..i] + v[i..][..n] == v[..i + n] && v[i..][n..] == v[i + n..]
  {
  }

  /** Move past up to `amount` octets. */
  method Advance(bs: Buffers, f: Cursor, amount: nat) returns (f': Cursor, moved: nat)
    requires Valid(bs, f)
    ensures moved == if amount <= f.remaining then amount else f.remaining
    ensures Valid(bs, f') && View(bs, f') == View(bs, f)[moved..]
  {
    hide View, Flat;
    ghost var v := View(bs, f);
    var count := if amount <= f.remaining then amount else f.remaining;
    ghost var total := count;
    f' := f;
    assert v[0..] == v;
    while count > 0
      invariant Valid(bs, f') && 0 <= count <= f'.remaining && f.remaining - f'.remaining + count == total
      invariant f'.remaining <= f.remaining && View(bs, f') == v[f.remaining - f'.remaining..]
      decreases count
    {
      var avail := |bs[f'.buf]| - f'.off;
      var step := if count < avail then count else avail;
      StepInside(bs, f', step);
      CopyStep(v, f.remaining - f'.remaining, step);
      f' := Cursor(f'.buf, f'.off + step, f'.remaining - step);
      if count < avail { return f', f.remaining - f'.remaining; }
      count := count - avail;
      f' := Normalize(bs, f');
    }
    moved := f.remaining - f'.remaining;
  }

  /** Take the first octet, if there is one. */
  method TakeOctet(bs: Buffers, f: Cursor) returns (ok: bool, f': Cursor, x: Octet)
    requires Valid(bs, f)
    ensures ok <==> View(bs, f) != []
    ensures Valid(bs, f')
    ensures ok ==> x == View(bs, f)[0] && View(bs, f') == View(bs, f)[1..]
    ensures !ok ==> f' == f
  {
    ok, f', x := f.remaining > 0, f, 0;
    if ok {
      StepInside(bs, f, 1);
      x := bs[f.buf][f.off];
      assert x == bs[f.buf][f.off..f.off + 1][0];
      f' := Normalize(bs, Cursor(f.buf, f.off + 1, f.remaining - 1));
    }
  }

  /** Take the next four octets as a number, if they are there. */
  method TakeUint32(bs: Buffers, f: Cursor) returns (ok: bool, f': Cursor, n: nat)
    requires Valid(bs, f)
    ensures ok <==> |View(bs, f)| >= 4
    ensures Valid(bs, f')
    ensures ok ==> n == De32(View(bs, f)[..4]) && View(bs, f') == View(bs, f)[4..]
    ensures !ok ==> f' == f
  {
    ok, f', n := f.remaining >= 4, f, 0;
    if ok {
      var octets;
      f', octets := Ncopy(bs, f, 4);
      n := De32(octets);
    }
  }

  /** Is the field at least as long as `data` and does it start with it? If so move past it. */
  method Equal(bs: Buffers, f: Cursor, data: Octets) returns (eq: bool, f': Cursor)
    requires Valid(bs, f)
    ensures eq <==> |data| <= f.remaining && View(bs, f)[..|data|] == data
    ensures Valid(bs, f')
    ensures View(bs, f') == if eq then View(bs, f)[|data|..] else View(bs, f)
  {
    f' := f;
    if f.remaining < |data| { return false, f; }
    ghost var v := View(bs, f);
    var i := 0;
    assert v[0..] == v;
    while i < |data|
      invariant 0 <= i <= |data| <= |v|
      invariant Valid(bs, f') && View(bs, f') == v[i..] && v[..i] == data[..i]
      decreases |data| - i
    {
      var avail := |bs[f'.buf]| - f'.off;
      var step := if |data| - i < avail then |data| - i else avail;
      StepInside(bs, f', step);
      CompareStep(v, data, i, step);
      if data[i..i + step] != bs[f'.buf][f'.off..f'.off + step] {
        return false, f;
      }
      f' := Cursor(f'.buf, f'.off + step, f'.remaining - step);
      i := i + step;
      f' := Normalize(bs, f');
    }
    eq := true;
  }

  lemma {:induction false} CompareStep(v: Octets, data: Octets, i: nat, n: nat)
    requires i + n <= |data| <= |v| && v[..i] == data[..i]
    ensures v[i..][..n] == data[i..i + n] <==> v[..i + n] == data[..i + n]
    ensures v[i..][n..] == v[i + n..]
    ensures v[i..][..n] != data[i..i + n] ==> v[..|data|] != data
  {
    assert v[..i + n] == v[..i] + v[i..][..n];
    assert data[..i + n] == data[..i] + data[i..i + n];
    if v[..|data|] == data {
      assert v[..i + n] == v[..|data|][..i + n];
    }
    if v[..i + n] == data[..i + n] {
      assert v[..i + n][i..] == v[i..][..n] && data[..i + n][i..] == data[i..i + n];
    }
  }

  /** The same octets, however they are split into buffers, give the same view. */
  lemma {:induction false} WholeView(bs: Buffers)
    requires bs != []
    ensures Placed(bs, Cursor(0, 0, |Flat(bs)|))
    ensures View(bs, Cursor(0, 0, |Flat(bs)|)) == Flat(bs)
  {
    assert bs[0][0..] == bs[0];
    assert From(bs, 0, 0) == Flat(bs);
  }
}
