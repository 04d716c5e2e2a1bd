/** Longest-prefix lookup: the hashes of all prefixes of an address that end before a separator
    are computed in one pass, and the table is then asked for the longest prefix first. Where the
    platform's characters are signed, that pass computes other hashes than the table does for
    octets from 0x80 on. */
module PrefixLookup {
  import opened HashTable
  import opened Options

  // ---------------------------------------------------------------- address views

  /** An address as an iterator shows it: characters put in front, then the address field. */
  datatype Iter = Iter(annotation: string, field: string) {
    function View(): string { annotation + field }

    /** Cut the view to a length. */
    function Trim(length: nat): (r: Iter)
      ensures r.View() == if length < |View()| then View()[..length] else View()
    {
      var viewLength := |annotation| + |field|;
      if viewLength <= length then this
      else if |annotation| > length then
        assert annotation[..length] + "" == View()[..length];
        Iter(annotation[..length], "")
      else
        assert annotation + field[..|field| - (viewLength - length)] == View()[..length];
        Iter(annotation, field[..|field| - (viewLength - length)])
    }
  }

  /** The separators, and the zero octet that ends the string of them. */
  predicate IsSeparator(c: char) { c == '.' || c == '/' || c == '\0' }

  /** A prefix of length `n` is bounded by a separator or is the whole view. */
  predicate Bounded(v: string, n: nat) { n == |v| || (n < |v| && IsSeparator(v[n])) }

  // ---------------------------------------------------------------- the reference

  predicate Stored<V>(m: map<string, V>, v: string, n: nat) { n <= |v| && Bounded(v, n) && v[..n] in m }

  /** Try the prefixes of length `n` and below, the longest first. */
  function Longest<V>(m: map<string, V>, v: string, n: nat): (r: Option<V>)
    requires n <= |v|
    ensures r.None? ==> forall k: nat | k <= n :: !Stored(m, v, k)
    ensures r.Some? ==> exists k: nat :: LongestStored(m, v, n, k) && r.value == m[v[..k]]
  {
    if Stored(m, v, n) then assert LongestStored(m, v, n, n); Some(m[v[..n]])
    else if n == 0 then None
    else
      var r := Longest(m, v, n - 1);
      assert r.Some? ==> exists k: nat :: LongestStored(m, v, n - 1, k) && r.value == m[v[..k]] && LongestStored(m, v, n, k);
      r
  }

  /** The prefix of length `k` is stored and no longer one, up to length `n`, is. */
  ghost predicate LongestStored<V>(m: map<string, V>, v: string, n: nat, k: nat) {
    k <= n && Stored(m, v, k) && forall l: nat | k < l <= n :: !Stored(m, v, l)
  }

  /** Prefixes that are not stored can be passed over. */
  lemma {:induction false} LongestSkips<V>(m: map<string, V>, v: string, n: nat, k: nat)
    requires k <= n <= |v| && forall l | k < l <= n :: !Stored(m, v, l)
    ensures Longest(m, v, n) == Longest(m, v, k)
  {
    if k < n { LongestSkips(m, v, n - 1, k); }
  }

  /** Where a prefix of a view may end: at its end, or before a '.', a '/' or a zero octet. */
  predicate EndsWhole(v: string, k: nat) { k == |v| || (k < |v| && (v[k] == '.' || v[k] == '/' || v[k] == '\0')) }

  /** The search finds the longest stored prefix that ends there, and nothing exactly if there is none. */
  lemma {:induction false} LongestIs<V>(m: map<string, V>, v: string)
    ensures match Longest(m, v, |v|)
            case None => forall k: nat | k <= |v| && EndsWhole(v, k) :: v[..k] !in m
            case Some(x) =>
              exists k: nat :: k <= |v| && EndsWhole(v, k) && v[..k] in m && m[v[..k]] == x
                               && forall l: nat | k < l <= |v| && EndsWhole(v, l) :: v[..l] !in m
  {
    var r := Longest(m, v, |v|);
    if r.Some? {
      var k: nat :| LongestStored(m, v, |v|, k) && r.value == m[v[..k]];
      assert EndsWhole(v, k);
      forall l: nat | k < l <= |v| && EndsWhole(v, l) ensures v[..l] !in m { assert !Stored(m, v, l); }
    } else {
      forall k: nat | k <= |v| && EndsWhole(v, k) ensures v[..k] !in m { assert !Stored(m, v, k); }
    }
  }

  // ---------------------------------------------------------------- segment hashes

  datatype Segment = Segment(hash: nat, length: nat)

  /** The value of a character, where characters may be signed. */
  function CharValue(signed: bool, c: char): int { if signed && 0x80 <= c as int < 0x100 then c as int - 0x100 else c as int }

  function SegmentStep(signed: bool, h: nat, c: char): nat { (h * 33 + CharValue(signed, c)) % 0x1_0000_0000 }

  function SegmentFrom(signed: bool, h: nat, key: string): nat
    decreases |key|
  {
    if key == [] then h else SegmentFrom(signed, SegmentStep(signed, h, key[0]), key[1..])
  }

  /** The hash of a prefix as the pass over the view computes it. */
  function SegmentHash(signed: bool, key: string): nat { SegmentFrom(signed, HASH_INIT, key) }

  lemma {:induction false} SegmentSnoc(signed: bool, h: nat, key: string, c: char)
    ensures SegmentFrom(signed, h, key + [c]) == SegmentStep(signed, SegmentFrom(signed, h, key), c)
    decreases |key|
  {
    hide SegmentStep;
    if key == [] {
      assert key + [c] == [c] && [c][1..] == [];
    } else {
      assert (key + [c])[1..] == key[1..] + [c];
      SegmentSnoc(signed, SegmentStep(signed, h, key[0]), key[1..], c);
    }
  }

  /** The segments found so far: hashes of prefixes, of increasing lengths, all those bounded by
      a separator below `n`. */
  ghost predicate SegmentsOf(signed: bool, v: string, n: nat, segments: seq<Segment>) {
    && (forall i | 0 <= i < |segments| :: SegmentOk(signed, v, n, segments[i]))
    && (forall i, j | 0 <= i < j < |segments| :: segments[i].length < segments[j].length)
    && (forall k | 0 <= k < n && k < |v| && IsSeparator(v[k]) :: HasLength(segments, k))
  }

  ghost predicate SegmentOk(signed: bool, v: string, n: nat, s: Segment) {
    s.length < n && s.length <= |v| && Bounded(v, s.length) && s.hash == SegmentHash(signed, v[..s.length])
  }

  ghost predicate HasLength(segments: seq<Segment>, k: nat) { exists i :: 0 <= i < |segments| && segments[i].length == k }

  lemma {:induction false} AddSegment(signed: bool, v: string, n: nat, segments: seq<Segment>, s: Segment)
    requires SegmentsOf(signed, v, n, segments) && SegmentOk(signed, v, n + 1, s) && s.length == n
    ensures SegmentsOf(signed, v, n + 1, segments + [s])
  {
    var more := segments + [s];
    forall i | 0 <= i < |more| ensures SegmentOk(signed, v, n + 1, more[i]) { if i < |segments| { assert SegmentOk(signed, v, n, segments[i]); } }
    forall i, j | 0 <= i < j < |more| ensures more[i].length < more[j].length { assert SegmentOk(signed, v, n, segments[i]); }
    forall k | 0 <= k < n + 1 && k < |v| && IsSeparator(v[k]) ensures HasLength(more, k) {
      if k == n {
        assert more[|segments|].length == k;
      } else {
        assert HasLength(segments, k);
        var i :| 0 <= i < |segments| && segments[i].length == k;
        assert more[i].length == k;
      }
    }
  }

  lemma {:induction false} PassOctet(signed: bool, v: string, n: nat, segments: seq<Segment>)
    requires SegmentsOf(signed, v, n, segments) && n < |v| && !IsSeparator(v[n])
    ensures SegmentsOf(signed, v, n + 1, segments)
  {
    forall i | 0 <= i < |segments| ensures SegmentOk(signed, v, n + 1, segments[i]) { assert SegmentOk(signed, v, n, segments[i]); }
  }

  /** One pass over the view. The hash of a separator goes into the running hash but not into
      that of the segment it ends. */
  method HashViewSegments(signed: bool, v: string) returns (segments: seq<Segment>)
    ensures SegmentsOf(signed, v, |v| + 1, segments) && segments != [] && segments[|segments| - 1].length == |v|
  {
    hide SegmentsOf, SegmentFrom, SegmentStep;
    segments := [];
    EmptySegments(signed, v);
    var hash, n := HASH_INIT, 0;
    while n < |v|
      invariant 0 <= n <= |v| && hash == SegmentHash(signed, v[..n]) && SegmentsOf(signed, v, n, segments)
    {
      if IsSeparator(v[n]) {
        AddSegment(signed, v, n, segments, Segment(hash, n));
        segments := segments + [Segment(hash, n)];
      } else {
        PassOctet(signed, v, n, segments);
      }
      SegmentSnoc(signed, HASH_INIT, v[..n], v[n]);
      assert v[..n + 1] == v[..n] + [v[n]];
      hash, n := SegmentStep(signed, hash, v[n]), n + 1;
    }
    AddSegment(signed, v, n, segments, Segment(hash, n));
    segments := segments + [Segment(hash, n)];
  }

  lemma {:induction false} EmptySegments(signed: bool, v: string)
    ensures SegmentsOf(signed, v, 0, []) && SegmentHash(signed, v[..0]) == HASH_INIT
  {
  }

  // ---------------------------------------------------------------- the lookup

  /** Between two neighbouring segments no prefix is bounded. */
  lemma {:induction false} NoneBetween(signed: bool, v: string, segments: seq<Segment>, j: nat, l: nat)
    requires SegmentsOf(signed, v, |v| + 1, segments) && j < |segments|
    requires l < segments[j].length && (j > 0 ==> segments[j - 1].length < l)
    ensures !Bounded(v, l)
  {
    assert SegmentOk(signed, v, |v| + 1, segments[j]);
    NotALength(segments, j, l);
    assert l < |v| && (IsSeparator(v[l]) ==> HasLength(segments, l));
  }

  lemma {:induction false} NotALength(segments: seq<Segment>, j: nat, l: nat)
    requires forall i, k | 0 <= i < k < |segments| :: segments[i].length < segments[k].length
    requires j < |segments| && l < segments[j].length && (j > 0 ==> segments[j - 1].length < l)
    ensures !HasLength(segments, l)
  {
    forall i | 0 <= i < |segments| ensures segments[i].length != l {
      if i < j { assert segments[i].length <= segments[j - 1].length; } else { assert segments[j].length <= segments[i].length; }
    }
  }

  /** A lookup with the hash from the pass over the view finds the bucket of the key. */
  predicate Visible(signed: bool, buckets: nat, key: string)
    requires buckets > 0
  {
    SegmentHash(signed, key) % buckets == Hash(key) % buckets
  }

  /** What of the table such lookups can find. */
  function VisibleIn<V>(signed: bool, buckets: nat, m: map<string, V>): map<string, V>
    requires buckets > 0
  {
    map key | key in m && Visible(signed, buckets, key) :: m[key]
  }

  /** Ask the table for the longest prefix first, cutting the view as the prefixes get shorter.
      The result is what a linear search of the table's visible contents would find. */
  method RetrievePrefix<V(0)>(signed: bool, table: Table<V>, it: Iter) returns (val: Option<V>)
    requires table.Valid()
    ensures |table.buckets| > 0 && val == Longest(VisibleIn(signed, |table.buckets|, table.View), it.View(), |it.View()|)
  {
    hide SegmentsOf, Longest, Iter.Trim, SegmentFrom, Hash;
    var v := it.View();
    var segments := HashViewSegments(signed, v);
    var cur, j := it, |segments|;
    assert v[..|v|] == v;
    ghost var m := VisibleIn(signed, |table.buckets|, table.View);
    while j > 0
      invariant 0 <= j <= |segments| && SegmentsOf(signed, v, |v| + 1, segments)
      invariant j > 0 ==> segments[j - 1].length <= |cur.View()| <= |v| && cur.View() == v[..|cur.View()|]
      invariant j > 0 ==> Longest(m, v, |v|) == Longest(m, v, segments[j - 1].length)
      invariant j == 0 ==> Longest(m, v, |v|) == None
    {
      j := j - 1;
      var s := segments[j];
      SegmentFacts(signed, v, segments, j);
      TrimTo(cur, s.length);
      cur := cur.Trim(s.length);
      assert cur.View() == v[..s.length];
      var found := table.RetrieveWithHash(cur.View(), s.hash);
      Try(signed, m, v, segments, j);
      if found.Some? { return found; }
    }
    val := None;
  }

  lemma {:induction false} TrimTo(it: Iter, n: nat)
    requires n <= |it.View()|
    ensures it.Trim(n).View() == it.View()[..n]
  {
    assert it.View()[..|it.View()|] == it.View();
  }

  lemma {:induction false} SegmentFacts(signed: bool, v: string, segments: seq<Segment>, j: nat)
    requires SegmentsOf(signed, v, |v| + 1, segments) && j < |segments|
    ensures segments[j].length <= |v| && segments[j].hash == SegmentHash(signed, v[..segments[j].length])
    ensures j > 0 ==> segments[j - 1].length < segments[j].length
  {
    assert SegmentOk(signed, v, |v| + 1, segments[j]);
  }

  /** If the prefix at a segment is not stored, the search goes on at the segment before. */
  lemma {:induction false} Try<V>(signed: bool, m: map<string, V>, v: string, segments: seq<Segment>, j: nat)
    requires SegmentsOf(signed, v, |v| + 1, segments) && j < |segments| && segments[j].length <= |v|
    ensures var n := segments[j].length;
            && (v[..n] in m ==> Longest(m, v, n) == Some(m[v[..n]]))
            && (v[..n] !in m && j > 0 ==> segments[j - 1].length <= n && Longest(m, v, n) == Longest(m, v, segments[j - 1].length))
            && (v[..n] !in m && j == 0 ==> Longest(m, v, n) == None)
  {
    var n := segments[j].length;
    assert SegmentOk(signed, v, |v| + 1, segments[j]);
    if v[..n] !in m {
      var k := if j > 0 then segments[j - 1].length else 0;
      if j > 0 || n > 0 {
        forall l | k < l <= n ensures !Stored(m, v, l) { if l < n { NoneBetween(signed, v, segments, j, l); } }
        LongestSkips(m, v, n, k);
      }
      if j == 0 && n > 0 { NoneBetween(signed, v, segments, 0, 0); }
    }
  }

  // ---------------------------------------------------------------- which keys are visible

  function High(c: char): nat { if 0x80 <= c as int < 0x100 then 1 else 0 }

  /** The number of octets from 0x80 on. */
  function Highs(key: string): nat { if key == [] then 0 else High(key[0]) + Highs(key[1..]) }

  /** The hash without reduction to 32 bits. */
  function WideFrom(signed: bool, z: int, key: string): int
    decreases |key|
  {
    if key == [] then z else WideFrom(signed, 33 * z + CharValue(signed, key[0]), key[1..])
  }

  lemma {:induction false} Reduced(signed: bool, h: nat, z: int, key: string)
    requires h == z % 0x1_0000_0000
    ensures SegmentFrom(signed, h, key) == WideFrom(signed, z, key) % 0x1_0000_0000
    decreases |key|
  {
    if key != [] {
      ReducedStep(z, CharValue(signed, key[0]));
      Reduced(signed, SegmentStep(signed, h, key[0]), 33 * z + CharValue(signed, key[0]), key[1..]);
    }
  }

  lemma {:induction false} ReducedStep(z: int, c: int)
    ensures ((z % 0x1_0000_0000) * 33 + c) % 0x1_0000_0000 == (33 * z + c) % 0x1_0000_0000
  {
    var q := z / 0x1_0000_0000;
    assert z == q * 0x1_0000_0000 + z % 0x1_0000_0000;
    assert 33 * z + c == (33 * q) * 0x1_0000_0000 + ((z % 0x1_0000_0000) * 33 + c);
  }

  /** Without signed characters the pass computes the table's hash. */
  lemma {:induction false} UnsignedIsHash(h: nat, key: string)
    ensures SegmentFrom(false, h, key) == HashFrom(h, key)
    decreases |key|
  {
    if key != [] { UnsignedIsHash(HashStep(h, key[0]), key[1..]); }
  }

  /** How far the two hashes are apart, in units of 256. */
  function Apart(t: int, key: string): int
    decreases |key|
  {
    if key == [] then t else Apart(33 * t + High(key[0]), key[1..])
  }

  lemma {:induction false} WideApart(z: int, t: int, key: string)
    ensures WideFrom(false, z, key) == WideFrom(true, z - 0x100 * t, key) + 0x100 * Apart(t, key)
    decreases |key|
  {
    if key != [] { WideApart(33 * z + CharValue(false, key[0]), 33 * t + High(key[0]), key[1..]); }
  }

  lemma {:induction false} ApartModulo(t: int, key: string)
    ensures (Apart(t, key) - t - Highs(key)) % 32 == 0
    decreases |key|
  {
    if key != [] {
      ApartModulo(33 * t + High(key[0]), key[1..]);
      OneMoreOctet(Apart(t, key), t, High(key[0]), Highs(key[1..]));
    }
  }

  lemma {:induction false} OneMoreOctet(a: int, t: int, h: nat, n: nat)
    requires (a - (33 * t + h) - n) % 32 == 0
    ensures (a - t - (h + n)) % 32 == 0
  {
    Shifted(a - (33 * t + h) - n, t, 32);
  }

  /** The bucket counts of tables with up to 2^13 buckets that have more than 256, in units of 256. */
  predicate Units(k: nat) { k == 2 || k == 4 || k == 8 || k == 16 || k == 32 }

  /** Where characters are not signed every key is visible. */
  lemma {:induction false} VisibleUnsigned(key: string, buckets: nat)
    requires buckets > 0
    ensures Visible(false, buckets, key)
  {
    UnsignedIsHash(HASH_INIT, key);
  }

  /** Where they are, every key is visible in a table whose size divides 256. */
  lemma {:induction false} VisibleInSmall(key: string, buckets: nat, d: nat)
    requires buckets > 0 && buckets * d == 0x100
    ensures Visible(true, buckets, key)
  {
    hide WideFrom, SegmentFrom, HashFrom, Apart;
    UnsignedIsHash(HASH_INIT, key);
    Reduced(false, HASH_INIT, HASH_INIT, key);
    Reduced(true, HASH_INIT, HASH_INIT, key);
    WideApart(HASH_INIT, 0, key);
    var z, s, t := WideFrom(false, HASH_INIT, key), WideFrom(true, HASH_INIT, key), Apart(0, key);
    assert (0x100_0000 * d) * buckets == 0x1_0000_0000 by { assert (0x100_0000 * d) * buckets == 0x100_0000 * (d * buckets); }
    TwoRemainders(z, 0x100_0000 * d, buckets);
    TwoRemainders(s, 0x100_0000 * d, buckets);
    assert (t * d) * buckets == 0x100 * t by { assert (t * d) * buckets == t * (d * buckets); }
    Shifted(s, t * d, buckets);
  }

  /** In a larger one, of 256 times `k` buckets, exactly those keys are whose number of octets from 0x80 on
      is a multiple of `k`. */
  lemma {:induction false} VisibleIff(key: string, k: nat)
    requires Units(k)
    ensures Visible(true, 0x100 * k, key) <==> Highs(key) % k == 0
  {
    hide WideFrom, SegmentFrom, HashFrom, Apart, Highs;
    UnsignedIsHash(HASH_INIT, key);
    Reduced(false, HASH_INIT, HASH_INIT, key);
    Reduced(true, HASH_INIT, HASH_INIT, key);
    WideApart(HASH_INIT, 0, key);
    ApartModulo(0, key);
    Remainders(WideFrom(false, HASH_INIT, key), WideFrom(true, HASH_INIT, key), Apart(0, key), Highs(key), k);
  }

  lemma {:induction false} Remainders(z: int, s: int, t: int, n: nat, k: nat)
    requires Units(k) && z == s + 0x100 * t && (t - n) % 32 == 0
    ensures (s % 0x1_0000_0000) % (0x100 * k) == (z % 0x1_0000_0000) % (0x100 * k) <==> n % k == 0
  {
    var m := 0x100 * k;
    var j := 32 / k;
    assert j * k == 32 && 0x1_0000_0000 == (0x8_0000 * j) * m;
    var u := (t - n) / 32;
    assert t == n + 32 * u;
    TwoRemainders(s, 0x8_0000 * j, m);
    TwoRemainders(z, 0x8_0000 * j, m);
    assert (u * j) * m == 0x2000 * u by { assert u * j * m == u * (j * m) && j * m == 0x2000; }
    Shifted(s + 0x100 * n, u * j, m);
    Scaled(s, n, k);
  }

  /** Adding a multiple leaves the remainder. */
  lemma {:induction false} Shifted(x: int, a: int, m: nat)
    requires m > 0
    ensures (x + a * m) % m == x % m
  {
    var q, r := x / m, x % m;
    assert x + a * m == (q + a) * m + r by { assert (q + a) * m == q * m + a * m; }
    Unique(x + a * m, q + a, r, m);
  }

  lemma {:induction false} Unique(x: int, q: int, r: int, m: nat)
    requires 0 <= r < m && x == q * m + r
    ensures x % m == r
  {
    var p, b := x / m, x % m;
    assert (q - p) * m == b - r by { assert (q - p) * m == q * m - p * m; }
    if q > p { assert (q - p) * m >= m by { Times(q - p, m); } }
    if q < p { assert (p - q) * m >= m by { Times(p - q, m); } }
  }

  lemma {:induction false} Times(a: int, m: nat)
    requires a >= 1
    ensures a * m >= m
  {
  }

  lemma {:induction false} TwoRemainders(x: int, a: nat, m: nat)
    requires m > 0 && a * m == 0x1_0000_0000
    ensures (x % 0x1_0000_0000) % m == x % m
  {
    var q := x / 0x1_0000_0000;
    assert x % 0x1_0000_0000 == x + (-q * a) * m by { assert (-q * a) * m == -q * (a * m); }
    Shifted(x, -q * a, m);
  }

  /** A multiple of 256 more makes the same remainder exactly if it is a multiple of all. */
  lemma {:induction false} Scaled(x: int, n: nat, k: nat)
    requires Units(k)
    ensures (x + 0x100 * n) % (0x100 * k) == x % (0x100 * k) <==> n % k == 0
  {
    var m := 0x100 * k;
    var q, r := n / k, n % k;
    assert x + 0x100 * n == (x + 0x100 * r) + q * m by { assert q * m == 0x100 * (q * k); }
    Shifted(x + 0x100 * r, q, m);
    SmallShift(x, r, k);
  }

  lemma {:induction false} SmallShift(x: int, r: nat, k: nat)
    requires Units(k) && r < k
    ensures (x + 0x100 * r) % (0x100 * k) == x % (0x100 * k) <==> r == 0
  {
    var m := 0x100 * k;
    var q, b := x / m, x % m;
    var y := b + 0x100 * r;
    if y < m { Unique(x + 0x100 * r, q, y, m); } else { Unique(x + 0x100 * r, q + 1, y - m, m); }
  }

  /** If all that is stored is visible, the longest stored prefix is found. */
  lemma {:induction false} AllVisible<V>(signed: bool, buckets: nat, m: map<string, V>)
    requires buckets > 0 && forall key | key in m :: Visible(signed, buckets, key)
    ensures VisibleIn(signed, buckets, m) == m
  {
  }
}
