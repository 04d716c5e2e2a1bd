/** Section recognition as it runs: a place in a chain of buffers that grows while the message
    is being checked.
 */
module SectionCode {
  import opened Octets
  import opened Amqp
  import opened BufferField
  import opened Parse
  import opened Seqs
  import opened Sections
  import opened Options

  /** A place in a chain: at an octet, or at the end of a buffer. */
  datatype Place = Place(buf: nat, off: nat)

  predicate Filled(bs: Buffers) { forall i | 0 <= i < |bs| :: bs[i] != [] }

  predicate PlaceOk(bs: Buffers, p: Place) { p.buf < |bs| && p.off <= |bs[p.buf]| }

  /** The position in the flat octets. */
  function At(bs: Buffers, p: Place): nat { |Flat(if p.buf <= |bs| then bs[..p.buf] else bs)| + p.off }

  lemma {:induction false} FromIsRest(bs: Buffers, p: Place)
    requires PlaceOk(bs, p)
    ensures At(bs, p) <= |Flat(bs)| && From(bs, p.buf, p.off) == Flat(bs)[At(bs, p)..]
  {
    assert bs == bs[..p.buf] + bs[p.buf..];
    FlatAppend(bs[..p.buf], bs[p.buf..]);
    assert bs[p.buf..][0] == bs[p.buf] && bs[p.buf..][1..] == bs[p.buf + 1..];
    CutAppend(bs[p.buf], Flat(bs[p.buf + 1..]), p.off);
    var a, b := Flat(bs[..p.buf]), Flat(bs[p.buf..]);
    assert (a + b)[|a| + p.off..] == b[p.off..];
  }

  /** The octets from a place on. */
  function Rest(bs: Buffers, p: Place): (s: Octets)
    requires PlaceOk(bs, p)
  {
    From(bs, p.buf, p.off)
  }

  lemma {:induction false} NextBuffer(bs: Buffers, p: Place)
    requires PlaceOk(bs, p) && p.off == |bs[p.buf]|
    ensures p.buf + 1 < |bs| ==>
              && Rest(bs, Place(p.buf + 1, 0)) == Rest(bs, p) && At(bs, Place(p.buf + 1, 0)) == At(bs, p)
              && (bs[p.buf + 1] != [] ==> Rest(bs, p) != [])
    ensures p.buf + 1 == |bs| ==> Rest(bs, p) == []
  {
    assert bs[p.buf][p.off..] == [];
    if p.buf + 1 < |bs| {
      var tail := bs[p.buf + 1..];
      assert tail[0] == bs[p.buf + 1] && tail[1..] == bs[p.buf + 2..];
      assert [] + Flat(tail) == Flat(tail);
      assert bs[p.buf + 1][0..] == bs[p.buf + 1];
      assert bs[..p.buf + 1] == bs[..p.buf] + [bs[p.buf]];
      FlatAppend(bs[..p.buf], [bs[p.buf]]);
      FlatOne(bs[p.buf]);
    } else {
      assert bs[p.buf + 1..] == [];
    }
  }

  lemma {:induction false} Forward(bs: Buffers, p: Place, n: nat)
    requires PlaceOk(bs, p) && p.off + n <= |bs[p.buf]|
    ensures Rest(bs, Place(p.buf, p.off + n)) == Rest(bs, p)[n..] && |Rest(bs, p)| >= n
    ensures At(bs, Place(p.buf, p.off + n)) == At(bs, p) + n
    ensures n > 0 ==> Rest(bs, p)[0] == bs[p.buf][p.off]
  {
    CutAppend(bs[p.buf][p.off..], Flat(bs[p.buf + 1..]), n);
    assert bs[p.buf][p.off + n..] == bs[p.buf][p.off..][n..];
  }

  // ---------------------------------------------------------------- moving

  /** Is there an octet at or after the place? If so stand on it. */
  method CanAdvance(bs: Buffers, p: Place) returns (ok: bool, p': Place)
    requires Filled(bs) && PlaceOk(bs, p)
    ensures PlaceOk(bs, p') && Rest(bs, p') == Rest(bs, p) && At(bs, p') == At(bs, p)
    ensures ok <==> Rest(bs, p) != []
    ensures ok ==> p'.off < |bs[p'.buf]|
  {
    hide From, At;
    if p.off < |bs[p.buf]| {
      Forward(bs, p, 1);
      return true, p;
    }
    NextBuffer(bs, p);
    if p.buf + 1 < |bs| {
      return true, Place(p.buf + 1, 0);
    }
    return false, p;
  }

  /** Move by a signed number of octets; a negative number moves nothing. */
  method Advance(bs: Buffers, p: Place, amount: int) returns (ok: bool, p': Place)
    requires Filled(bs) && PlaceOk(bs, p)
    ensures PlaceOk(bs, p')
    ensures ok <==> Rest(bs, p) != [] && (amount <= 0 || |Rest(bs, p)| >= amount)
    ensures ok ==> var n := if amount < 0 then 0 else amount;
                   Rest(bs, p') == Rest(bs, p)[n..] && At(bs, p') == At(bs, p) + n
  {
    hide From, At, Filled;
    ok, p' := CanAdvance(bs, p);
    if !ok { return; }
    ghost var r, at := Rest(bs, p), At(bs, p);
    var consume, remaining := amount, |bs[p'.buf]| - p'.off;
    ghost var n: nat := 0;
    assert r[0..] == r;
    while consume > 0
      invariant PlaceOk(bs, p') && n <= |r| && (consume > 0 ==> remaining == |bs[p'.buf]| - p'.off)
      invariant Rest(bs, p') == r[n..] && At(bs, p') == at + n
      invariant amount <= 0 ==> n == 0 && consume == amount
      invariant amount > 0 ==> n + consume == amount && consume >= 0
      decreases if consume > 0 then |bs| - p'.buf else 0
    {
      Forward(bs, p', if consume <= remaining then consume else remaining);
      if consume <= remaining {
        DropTwice(r, n, consume);
        p', n, consume := Place(p'.buf, p'.off + consume), n + consume, 0;
      } else {
        p' := Place(p'.buf, p'.off + remaining);
        NextBuffer(bs, p');
        if p'.buf + 1 == |bs| {
          assert |r[n..][remaining..]| == 0;
          return false, p';
        }
        DropTwice(r, n, remaining);
        consume, n, p' := consume - remaining, n + remaining, Place(p'.buf + 1, 0);
        remaining := |bs[p'.buf]|;
      }
    }
  }

  method NextOctet(bs: Buffers, p: Place) returns (ok: bool, p': Place, x: Octet)
    requires Filled(bs) && PlaceOk(bs, p)
    ensures PlaceOk(bs, p')
    ensures ok <==> Rest(bs, p) != []
    ensures ok ==> x == Rest(bs, p)[0] && Rest(bs, p') == Rest(bs, p)[1..] && At(bs, p') == At(bs, p) + 1
  {
    hide From, At, Filled;
    x := 0;
    ok, p' := CanAdvance(bs, p);
    if ok {
      Forward(bs, p', 1);
      x := bs[p'.buf][p'.off];
      var moved;
      moved, p' := Advance(bs, p', 1);
    }
  }

  // ---------------------------------------------------------------- one section

  /** Walk along the pattern; `p'` is then at the octet after it. */
  method MatchPattern(bs: Buffers, p: Place, pattern: Octets) returns (r: Status, p': Place)
    requires Filled(bs) && PlaceOk(bs, p) && p.off < |bs[p.buf]|
    ensures r == Compare(Rest(bs, p), pattern)
    ensures r == Match ==> |Rest(bs, p)| >= |pattern| && PlaceOk(bs, p')
    ensures r == Match ==> Rest(bs, p') == Rest(bs, p)[|pattern|..] && At(bs, p') == At(bs, p) + |pattern|
  {
    hide From, At;
    ghost var u, at := Rest(bs, p), At(bs, p);
    var idx := 0;
    p' := p;
    assert u[0..] == u && pattern[0..] == pattern;
    while idx < |pattern| && bs[p'.buf][p'.off] == pattern[idx]
      invariant 0 <= idx <= |pattern| && idx <= |u| && PlaceOk(bs, p') && p'.off < |bs[p'.buf]|
      invariant Rest(bs, p') == u[idx..] && At(bs, p') == at + idx
      invariant Compare(u[idx..], pattern[idx..]) == Compare(u, pattern)
    {
      Forward(bs, p', 1);
      DropTwice(u, idx, 1);
      DropTwice(pattern, idx, 1);
      p', idx := Place(p'.buf, p'.off + 1), idx + 1;
      if p'.off == |bs[p'.buf]| {
        NextBuffer(bs, p');
        if p'.buf + 1 == |bs| { return NeedMore, p'; }
        p' := Place(p'.buf + 1, 0);
      }
    }
    Forward(bs, p', 1);
    r := if idx < |pattern| then NoMatch else Match;
  }

  /** The size of the field whose tag has just been read, if enough octets are there. */
  method ReadSize(bs: Buffers, p: Place, tag: Octet) returns (ok: bool, size: nat, p': Place)
    requires Filled(bs) && PlaceOk(bs, p)
    ensures var w := SizeWidth(tag);
            && (ok <==> |Rest(bs, p)| >= w)
            && (ok ==> size == (if w == 0 then FixedWidth(tag) else Number(Rest(bs, p), w)) && size < U32)
            && (ok ==> PlaceOk(bs, p') && Rest(bs, p') == Rest(bs, p)[w..] && At(bs, p') == At(bs, p) + w)
  {
    hide From, At, Filled;
    ghost var u, at := Rest(bs, p), At(bs, p);
    p' := p;
    if SizeWidth(tag) == 0 {
      assert u[0..] == u;
      return true, FixedWidth(tag), p;
    }
    var octets := [];
    while |octets| < SizeWidth(tag)
      invariant |octets| <= SizeWidth(tag) && |octets| <= |u| && octets == u[..|octets|]
      invariant PlaceOk(bs, p') && Rest(bs, p') == u[|octets|..] && At(bs, p') == at + |octets|
    {
      var x;
      ok, p', x := NextOctet(bs, p');
      if !ok { return false, 0, p'; }
      DropTwice(u, |octets|, 1);
      octets := octets + [x];
    }
    ok := true;
    size := if SizeWidth(tag) == 1 then octets[0] as int else De32(octets);
  }

  /** Pass over the field whose tag is at the place. */
  method PassField(bs: Buffers, p: Place) returns (e: Extent, p': Place)
    requires Filled(bs) && PlaceOk(bs, p) && Rest(bs, p) != []
    ensures e == ExtentOf(Rest(bs, p))
    ensures e.whole ==> PlaceOk(bs, p') && At(bs, p') == At(bs, p) + e.used
  {
    hide From, At, Filled, Number, FixedWidth;
    ghost var v := Rest(bs, p);
    var _, p1, tag := NextOctet(bs, p);
    p' := p1;
    var some, p2 := CanAdvance(bs, p1);
    if !some && Subcategory(tag) != 4 { return Extent(false, 0, 0), p'; }
    var ok, consume, p3 := ReadSize(bs, p2, tag);
    if !ok { return Extent(false, 0, 0), p'; }
    var w := SizeWidth(tag);
    var length := Wrap32(1 + w + consume);
    p' := p3;
    assert w == 0 ==> v[1..][0..] == v[1..];
    if consume > 0 {
      ok, p' := Advance(bs, p3, if consume < 0x8000_0000 then consume else consume - U32);
      if !ok { return Extent(false, length, 0), p'; }
    }
    e := Extent(true, length, 1 + w + if consume < 0x8000_0000 then consume else 0);
  }

  /** A location as the program keeps it. */
  datatype Mark = Mark(place: Place, length: nat, hdrLength: nat, parsed: bool)

  function LocationOf(bs: Buffers, m: Mark): Location { Location(At(bs, m.place), m.length, m.hdrLength, m.parsed) }

  // ---------------------------------------------------------------- the buffers of a section

  /** The position of the first octet of buffer `i`. */
  function Start(bs: Buffers, i: nat): nat { |Flat(if i <= |bs| then bs[..i] else bs)| }

  /** Does buffer `i` hold an octet of the positions from `a` to before `b`? */
  predicate HoldsPartOf(bs: Buffers, i: nat, a: nat, b: nat) { a < b && Start(bs, i) < b && a < Start(bs, i + 1) }

  /** The buffers below `n` that do. */
  function BuffersBelow(bs: Buffers, n: nat, a: nat, b: nat): seq<nat> {
    if n == 0 then []
    else BuffersBelow(bs, n - 1, a, b) + if HoldsPartOf(bs, n - 1, a, b) then [n - 1] else []
  }

  function BuffersOf(bs: Buffers, a: nat, b: nat): seq<nat> { BuffersBelow(bs, |bs|, a, b) }

  lemma {:induction false} BuffersAre(bs: Buffers, n: nat, a: nat, b: nat, i: nat)
    ensures i in BuffersBelow(bs, n, a, b) <==> i < n && HoldsPartOf(bs, i, a, b)
  {
    hide HoldsPartOf;
    if n > 0 { BuffersAre(bs, n - 1, a, b, i); }
  }

  lemma {:induction false} NoBuffers(bs: Buffers, n: nat, a: nat)
    ensures BuffersBelow(bs, n, a, a) == []
  {
    if n > 0 { NoBuffers(bs, n - 1, a); }
  }

  lemma {:induction false} StartNext(bs: Buffers, i: nat)
    requires i < |bs|
    ensures Start(bs, i + 1) == Start(bs, i) + |bs[i]|
  {
    assert bs[..i + 1] == bs[..i] + [bs[i]];
    FlatAppend(bs[..i], [bs[i]]);
    FlatOne(bs[i]);
  }

  lemma {:induction false} StartGrows(bs: Buffers, i: nat, j: nat)
    requires i <= j <= |bs|
    ensures Start(bs, i) <= Start(bs, j)
    decreases j - i
  {
    if i < j {
      StartNext(bs, j - 1);
      StartGrows(bs, i, j - 1);
    }
  }

  /** None of the buffers from `m` to before `n` has a part in it. */
  lemma {:induction false} NoMore(bs: Buffers, m: nat, n: nat, a: nat, b: nat)
    requires m <= n <= |bs| && (b <= Start(bs, m) || Start(bs, n) <= a)
    ensures BuffersBelow(bs, n, a, b) == BuffersBelow(bs, m, a, b)
    decreases n
  {
    hide Start;
    if m < n {
      StartGrows(bs, m, n - 1);
      StartGrows(bs, n - 1, n);
      NoMore(bs, m, n - 1, a, b);
    }
  }

  /** Take a reference to every buffer from `start` on that holds an octet before the place `end`.
      If `end` is at the first octet of its buffer, that buffer is left out. Then count the buffers
      from the head of the chain to the last of these. */
  method ProtectBuffers(bs: Buffers, start: Place, end: Place) returns (held: seq<nat>, guarded: nat)
    requires Filled(bs) && PlaceOk(bs, start) && PlaceOk(bs, end) && start.off < |bs[start.buf]| && At(bs, start) < At(bs, end)
    ensures held == BuffersOf(bs, At(bs, start), At(bs, end))
    ensures held != [] && guarded == held[|held| - 1] + 1
  {
    hide HoldsPartOf, Start, At;
    ghost var a, b := At(bs, start), At(bs, end);
    PlaceBounds(bs, start, end);
    var last := end.buf;
    if last != start.buf && end.off == 0 { last := last - 1; }
    held := [];
    var cur := start.buf;
    NoMore(bs, 0, start.buf, a, b);
    while true
      invariant start.buf <= cur <= last
      invariant held == BuffersBelow(bs, cur, a, b)
      decreases last - cur
    {
      Holding(bs, start, end, cur);
      held := held + [cur];
      if cur == last { break; }
      cur := cur + 1;
    }
    NoMore(bs, last + 1, |bs|, a, b);
    cur, guarded := 0, 0;
    while true
      invariant 0 <= cur <= last && guarded == cur
      decreases last - cur
    {
      guarded := guarded + 1;
      if cur == last { break; }
      cur := cur + 1;
    }
  }

  lemma {:induction false} PlaceBounds(bs: Buffers, start: Place, end: Place)
    requires Filled(bs) && PlaceOk(bs, start) && PlaceOk(bs, end) && start.off < |bs[start.buf]| && At(bs, start) < At(bs, end)
    ensures start.buf <= end.buf && Start(bs, start.buf) <= At(bs, start)
    ensures At(bs, end) <= Start(bs, end.buf + 1) && (end.off == 0 ==> start.buf < end.buf && At(bs, end) == Start(bs, end.buf))
  {
    StartNext(bs, start.buf);
    StartNext(bs, end.buf);
    if end.buf < start.buf { StartGrows(bs, end.buf + 1, start.buf); }
  }

  lemma {:induction false} Holding(bs: Buffers, start: Place, end: Place, i: nat)
    requires Filled(bs) && PlaceOk(bs, start) && PlaceOk(bs, end) && start.off < |bs[start.buf]| && At(bs, start) < At(bs, end)
    requires start.buf <= i <= end.buf && (i == end.buf ==> end.off > 0)
    ensures HoldsPartOf(bs, i, At(bs, start), At(bs, end))
  {
    StartNext(bs, start.buf);
    StartNext(bs, i);
    StartGrows(bs, start.buf + 1, i + 1);
    if i < end.buf { StartGrows(bs, i + 1, end.buf); }
  }

  // ---------------------------------------------------------------- one section, continued

  /** The number of buffers that are kept out of the flow-control threshold: those up to the last that was
      protected. */
  function Recount(guarded: nat, held: seq<nat>): nat { if held == [] then guarded else held[|held| - 1] + 1 }

  /** Check for a section at the place. */
  method SectionCheck(bs: Buffers, p: Place, pattern: Octets, tags: set<Octet>, loc: Mark, protect: bool, guarded: nat)
    returns (r: Status, p': Place, loc': Mark, held: seq<nat>, guarded': nat)
    requires Filled(bs) && PlaceOk(bs, p)
    ensures PlaceOk(bs, p') && At(bs, p) <= |Flat(bs)|
    ensures var s := CheckSection(Flat(bs), At(bs, p), pattern, tags, LocationOf(bs, loc));
            r == s.status && LocationOf(bs, loc') == s.loc && At(bs, p') == s.pos
    ensures loc'.place == loc.place || PlaceOk(bs, loc'.place)
    ensures held == if protect then BuffersOf(bs, At(bs, p), At(bs, p')) else []
    ensures guarded' == Recount(guarded, held)
  {
    hide From, At, Filled, ExtentOf, Compare, BuffersBelow;
    FromIsRest(bs, p);
    NoBuffers(bs, |bs|, At(bs, p));
    loc', held, guarded' := loc, [], guarded;
    var some;
    some, p' := CanAdvance(bs, p);
    if !some { NoOctet(pattern); return NeedMore, p', loc, [], guarded; }
    var test;
    r, test := MatchPattern(bs, p', pattern);
    if r != Match { return; }
    CompareLength(Rest(bs, p), pattern);
    Standing(bs, test);
    var _, _, tag := NextOctet(bs, test);
    if tag !in tags || loc.parsed { return Invalid, p', loc, [], guarded; }
    var e, end := PassField(bs, test);
    loc' := Mark(p', e.length, |pattern|, e.whole);
    if !e.whole { return NeedMore, p', loc', [], guarded; }
    UsedSome(Rest(bs, test));
    if protect { held, guarded' := ProtectBuffers(bs, p', end); }
    return Match, end, loc', held, guarded';
  }

  lemma {:induction false} UsedSome(v: Octets)
    requires v != []
    ensures ExtentOf(v).whole ==> ExtentOf(v).used > 0
  {
  }

  lemma {:induction false} NoOctet(pattern: Octets)
    ensures Compare([], pattern) == NeedMore
  {
  }

  lemma {:induction false} Standing(bs: Buffers, p: Place)
    requires PlaceOk(bs, p)
    ensures At(bs, p) <= |Flat(bs)|
  {
    FromIsRest(bs, p);
  }

  // ---------------------------------------------------------------- the message

  /** The parsing state of a message: depth, place, marks, number of buffers guarded. */
  datatype Parsing = Parsing(depth: nat, place: Option<Place>, marks: seq<Mark>, guarded: nat)

  function PosOf(bs: Buffers, p: Option<Place>): nat { if p.Some? then At(bs, p.value) else 0 }

  function LocationsOf(bs: Buffers, ms: seq<Mark>): seq<Location> { seq(|ms|, i requires 0 <= i < |ms| => LocationOf(bs, ms[i])) }

  function ContentOf(bs: Buffers, q: Parsing): Content { Content(q.depth, PosOf(bs, q.place), LocationsOf(bs, q.marks)) }

  predicate ParsingOk(bs: Buffers, q: Parsing) {
    && Filled(bs) && q.depth <= SECTIONS && |q.marks| == SECTIONS
    && (q.place.Some? ==> PlaceOk(bs, q.place.value))
    && forall i | 0 <= i < |q.marks| :: q.marks[i].place == Place(0, 0) || PlaceOk(bs, q.marks[i].place)
  }

  lemma {:induction false} ContentIsOk(bs: Buffers, q: Parsing)
    requires ParsingOk(bs, q)
    ensures ContentOk(ContentOf(bs, q), Flat(bs))
  {
    if q.place.Some? { FromIsRest(bs, q.place.value); }
  }

  lemma {:induction false} PutMark(bs: Buffers, ms: seq<Mark>, i: nat, m: Mark)
    requires i < |ms|
    ensures LocationsOf(bs, ms[i := m]) == LocationsOf(bs, ms)[i := LocationOf(bs, m)]
  {
  }

  /** Check for one section, by the short and then the long form of its descriptor. */
  method DepthCheck(bs: Buffers, q: Parsing, complete: bool, k: nat, code: Octet, tags: set<Octet>, optional: bool, protect: bool)
    returns (v: Verdict, q': Parsing, held: seq<nat>)
    requires ParsingOk(bs, q) && q.place.Some? && 1 <= k <= SECTIONS
    ensures ParsingOk(bs, q') && q'.place.Some? && ContentOk(ContentOf(bs, q), Flat(bs))
    ensures Outcome(v, ContentOf(bs, q')) == CheckDepth(ContentOf(bs, q), Flat(bs), complete, k, code, tags, optional)
    ensures held == if protect then BuffersOf(bs, PosOf(bs, q.place), PosOf(bs, q'.place)) else []
    ensures q'.guarded == Recount(q.guarded, held)
  {
    hide CheckSection, At, From, Filled, BuffersBelow;
    ContentIsOk(bs, q);
    NoBuffers(bs, |bs|, PosOf(bs, q.place));
    if k <= q.depth { return DepthOk, q, []; }
    var p, m := q.place.value, q.marks[k - 1];
    var r, p', m', g;
    r, p', m', held, g := SectionCheck(bs, p, ShortPattern(code), tags, m, protect, q.guarded);
    if r == NoMatch {
      NoMatchKeeps(Flat(bs), At(bs, p), ShortPattern(code), tags, LocationOf(bs, m));
      r, p', m', held, g := SectionCheck(bs, p, LongPattern(code), tags, m, protect, q.guarded);
    }
    PutMark(bs, q.marks, k - 1, m');
    StayPut(Flat(bs), At(bs, p), ShortPattern(code), tags, LocationOf(bs, m));
    StayPut(Flat(bs), At(bs, p), LongPattern(code), tags, LocationOf(bs, m));
    q' := Parsing(q.depth, Some(p'), q.marks[k - 1 := m'], g);
    if r == Match || (optional && r == NoMatch) { return DepthOk, q'.(depth := k), held; }
    if r == NeedMore {
      if !complete { return DepthIncomplete, q', held; }
      FromIsRest(bs, p');
      var some, p'' := CanAdvance(bs, p');
      q' := q'.(place := Some(p''));
      if !some && optional { return DepthOk, q', held; }
    }
    return DepthInvalid, q', held;
  }

  lemma {:induction false} NoMatchKeeps(s: Octets, pos: nat, pattern: Octets, tags: set<Octet>, loc: Location)
    requires pos <= |s|
    ensures CheckSection(s, pos, pattern, tags, loc).status == NoMatch ==> CheckSection(s, pos, pattern, tags, loc).loc == loc
  {
  }

  lemma {:induction false} StayPut(s: Octets, pos: nat, pattern: Octets, tags: set<Octet>, loc: Location)
    requires pos <= |s|
    ensures CheckSection(s, pos, pattern, tags, loc).status != Match ==> CheckSection(s, pos, pattern, tags, loc).pos == pos
  {
  }

  method BodyCheck(bs: Buffers, q: Parsing, complete: bool) returns (v: Verdict, q': Parsing)
    requires ParsingOk(bs, q) && q.place.Some?
    ensures ParsingOk(bs, q') && q'.place.Some? && ContentOk(ContentOf(bs, q), Flat(bs))
    ensures Outcome(v, ContentOf(bs, q')) == CheckBody(ContentOf(bs, q), Flat(bs), complete) && q'.guarded == q.guarded
  {
    hide CheckDepth, ContentOf, ParsingOk;
    var none;
    v, q', none := DepthCheck(bs, q, complete, BODY, 0x77, TAGS_ANY, false, false);
    if v == DepthInvalid {
      v, q', none := DepthCheck(bs, q', complete, BODY, 0x75, TAGS_BINARY, false, false);
      if v == DepthInvalid {
        v, q', none := DepthCheck(bs, q', complete, BODY, 0x76, TAGS_LIST, true, false);
      }
    }
  }

  /** The buffers that the check of sections `k` to `depth` protects, section by section. Those of
      body and footer are not protected. */
  function HeldFrom(bs: Buffers, c: Content, complete: bool, k: nat, depth: nat): seq<nat>
    requires ContentOk(c, Flat(bs)) && 1 <= k && depth <= SECTIONS
    decreases SECTIONS + 1 - k
  {
    if k > depth then []
    else
      var o := CheckOne(c, Flat(bs), complete, k);
      (if k < BODY then BuffersOf(bs, c.pos, o.content.pos) else [])
      + (if o.verdict != DepthOk then [] else HeldFrom(bs, o.content, complete, k + 1, depth))
  }

  /** Parse the message down to a depth. */
  method MessageCheck(bs: Buffers, q: Parsing, complete: bool, depth: nat, freed: nat)
    returns (v: Verdict, q': Parsing, held: seq<nat>)
    requires Filled(bs) && (freed == 0 ==> ParsingOk(bs, q)) && depth <= SECTIONS
    ensures freed == 0 ==>
              && ParsingOk(bs, q') && ContentOk(ContentOf(bs, q), Flat(bs))
              && Outcome(v, ContentOf(bs, q')) == CheckMessage(ContentOf(bs, q), Flat(bs), complete, depth)
              && held == (if depth <= q.depth || bs == [] then []
                          else HeldFrom(bs, ContentOf(bs, q), complete, q.depth + 1, depth))
              && q'.guarded == Recount(q.guarded, held)
    ensures freed > 0 ==> q' == q && held == []
    ensures freed > 0 ==>
              v == if depth <= q.depth then DepthOk else if bs == [] && !complete then DepthIncomplete else DepthInvalid
  {
    hide CheckOne, At, From, BuffersOf, HeldFrom, CheckFrom, Flat, LocationsOf;
    if freed == 0 { ContentIsOk(bs, q); }
    SomeOctets(bs);
    q', held := q, [];
    if depth <= q.depth || depth == 0 { return DepthOk, q, []; }
    if |bs| == 0 || |bs[0]| == 0 {
      return if complete then DepthInvalid else DepthIncomplete, q, [];
    }
    if freed > 0 { return DepthInvalid, q, []; }
    if q.place.None? {
      q' := q.(place := Some(Place(0, 0)));
      AtStart(bs);
    }
    v, q', held := CheckLoop(bs, q', complete, depth);
  }

  /** Section by section, until one is not in order. */
  method CheckLoop(bs: Buffers, q: Parsing, complete: bool, depth: nat) returns (v: Verdict, q': Parsing, held: seq<nat>)
    requires ParsingOk(bs, q) && q.place.Some? && q.depth < depth <= SECTIONS
    ensures ParsingOk(bs, q') && ContentOk(ContentOf(bs, q), Flat(bs))
    ensures Outcome(v, ContentOf(bs, q')) == CheckFrom(ContentOf(bs, q), Flat(bs), complete, q.depth + 1, depth)
    ensures held == HeldFrom(bs, ContentOf(bs, q), complete, q.depth + 1, depth)
    ensures q'.guarded == Recount(q.guarded, held)
  {
    hide CheckOne, At, From, BuffersOf, HeldFrom, CheckFrom, Flat, ContentOf, ParsingOk, ContentOk;
    ContentIsOk(bs, q);
    v, q', held := DepthOk, q, [];
    var k := q.depth + 1;
    ghost var all := HeldFrom(bs, ContentOf(bs, q), complete, k, depth);
    assert [] + all == all;
    while k <= depth
      invariant 1 <= k <= depth + 1 && v == DepthOk && ParsingOk(bs, q') && q'.place.Some?
      invariant ContentOk(ContentOf(bs, q'), Flat(bs)) && ContentOk(ContentOf(bs, q), Flat(bs))
      invariant CheckFrom(ContentOf(bs, q'), Flat(bs), complete, k, depth) == CheckFrom(ContentOf(bs, q), Flat(bs), complete, q.depth + 1, depth)
      invariant held + HeldFrom(bs, ContentOf(bs, q'), complete, k, depth) == all && q'.guarded == Recount(q.guarded, held)
    {
      var more;
      CheckNext(bs, ContentOf(bs, q'), complete, k, depth);
      v, q', more := OneCheck(bs, q', complete, k);
      ContentIsOk(bs, q');
      AppendAssoc(held, more, if v != DepthOk then [] else HeldFrom(bs, ContentOf(bs, q'), complete, k + 1, depth));
      held := held + more;
      if v != DepthOk {
        assert held + [] == held;
        return;
      }
      k := k + 1;
    }
    CheckedAll(bs, ContentOf(bs, q'), complete, k, depth);
    assert held + [] == held;
  }

  lemma {:induction false} CheckNext(bs: Buffers, c: Content, complete: bool, k: nat, depth: nat)
    requires ContentOk(c, Flat(bs)) && 1 <= k <= depth <= SECTIONS
    ensures var o := CheckOne(c, Flat(bs), complete, k);
            && ContentOk(o.content, Flat(bs))
            && CheckFrom(c, Flat(bs), complete, k, depth) ==
               (if o.verdict != DepthOk then o else CheckFrom(o.content, Flat(bs), complete, k + 1, depth))
            && HeldFrom(bs, c, complete, k, depth) ==
               (if k < BODY then BuffersOf(bs, c.pos, o.content.pos) else [])
               + (if o.verdict != DepthOk then [] else HeldFrom(bs, o.content, complete, k + 1, depth))
  {
    hide CheckDepth, CheckBody, BuffersOf;
  }

  lemma {:induction false} CheckedAll(bs: Buffers, c: Content, complete: bool, k: nat, depth: nat)
    requires ContentOk(c, Flat(bs)) && 1 <= k && depth < k && depth <= SECTIONS
    ensures CheckFrom(c, Flat(bs), complete, k, depth) == Outcome(DepthOk, c) && HeldFrom(bs, c, complete, k, depth) == []
  {
  }

  lemma {:induction false} SomeOctets(bs: Buffers)
    requires Filled(bs)
    ensures Flat(bs) == [] <==> bs == []
  {
  }

  method OneCheck(bs: Buffers, q: Parsing, complete: bool, k: nat) returns (v: Verdict, q': Parsing, held: seq<nat>)
    requires ParsingOk(bs, q) && q.place.Some? && 1 <= k <= SECTIONS
    ensures ParsingOk(bs, q') && q'.place.Some? && ContentOk(ContentOf(bs, q), Flat(bs))
    ensures Outcome(v, ContentOf(bs, q')) == CheckOne(ContentOf(bs, q), Flat(bs), complete, k)
    ensures held == if k < BODY then BuffersOf(bs, ContentOf(bs, q).pos, ContentOf(bs, q').pos) else []
    ensures q'.guarded == Recount(q.guarded, held)
  {
    hide CheckDepth, CheckBody, ParsingOk, PosOf, LocationsOf, BuffersOf;
    if k == BODY {
      v, q' := BodyCheck(bs, q, complete);
      held := [];
    } else {
      v, q', held := DepthCheck(bs, q, complete, k, CodeOf(k), TagsOf(k), true, k < BODY);
    }
  }

  lemma {:induction false} AtStart(bs: Buffers)
    ensures At(bs, Place(0, 0)) == 0
  {
  }

  // ---------------------------------------------------------------- the message object

  /** The content of a message while it arrives. `freed` counts the buffers that sending has freed. */
  class MessageContent {
    var buffers: Buffers
    var complete: bool
    var parsing: Parsing
    var freed: nat

    ghost predicate Valid()
      reads this
    {
      Filled(buffers) && (freed == 0 ==> ParsingOk(buffers, parsing) && View().Valid())
    }

    /** The message as `Sections` sees it, as long as no buffer is gone. */
    ghost function View(): Inflow
      reads this
    {
      Inflow(ContentOf(buffers, parsing), Flat(buffers), complete)
    }

    constructor ()
      ensures Valid() && freed == 0 && View() == Inflow(Initial(), [], false)
    {
      buffers, complete, freed := [], false, 0;
      parsing := Parsing(0, None, seq(SECTIONS, _ => Mark(Place(0, 0), 0, 0, false)), 0);
    }

    /** A buffer full of octets comes in. */
    method Receive(octets: Octets)
      requires Valid() && octets != [] && !complete
      modifies this
      ensures Valid() && freed == old(freed) && buffers == old(buffers) + [octets]
      ensures freed == 0 ==> View() == old(View()).Step(Arrive(octets))
    {
      if freed == 0 {
        StepKeepsValid(View(), Arrive(octets));
        ArriveKeeps(buffers, octets, parsing);
      }
      FlatAppend(buffers, [octets]);
      FlatOne(octets);
      buffers := buffers + [octets];
    }

    /** No more octets will come. */
    method EndOfMessage()
      requires Valid()
      modifies this
      ensures Valid() && complete && freed == old(freed) && buffers == old(buffers) && parsing == old(parsing)
      ensures freed == 0 ==> View() == old(View()).Step(Complete)
    {
      complete := true;
    }

    /** Sending frees a buffer. */
    method FreeBuffer(i: nat)
      requires Valid() && i < |buffers|
      modifies this
      ensures Valid() && freed == old(freed) + 1 && parsing == old(parsing) && complete == old(complete)
      ensures buffers == old(buffers)[..i] + old(buffers)[i + 1..]
    {
      buffers, freed := buffers[..i] + buffers[i + 1..], freed + 1;
    }

    /** Parse the message down to a depth. Once sending has freed a buffer, what is not parsed yet is
        refused and nothing changes. */
    method CheckTo(depth: nat) returns (v: Verdict, held: seq<nat>)
      requires Valid() && depth <= SECTIONS
      modifies this
      ensures Valid() && buffers == old(buffers) && freed == old(freed) && complete == old(complete)
      ensures freed == 0 ==>
                && View() == old(View()).Step(Event.Check(depth)) && ContentOk(old(View()).content, Flat(buffers))
                && v == CheckMessage(old(View()).content, Flat(buffers), complete, depth).verdict
                && held == (if depth <= old(View()).content.depth || buffers == [] then []
                            else HeldFrom(buffers, old(View()).content, complete, old(View()).content.depth + 1, depth))
                && parsing.guarded == (if held == [] then old(parsing).guarded else held[|held| - 1] + 1)
      ensures freed > 0 ==> parsing == old(parsing) && held == []
      ensures freed > 0 ==>
                v == if depth <= parsing.depth then DepthOk else if buffers == [] && !complete then DepthIncomplete else DepthInvalid
    {
      hide CheckMessage, ParsingOk, Fresh, PosOf, LocationsOf, HeldFrom, Filled;
      if freed == 0 { StepKeepsValid(View(), Event.Check(depth)); }
      v, parsing, held := MessageCheck(buffers, parsing, complete, depth, freed);
    }
  }

  lemma {:induction false} ArriveKeeps(bs: Buffers, x: Octets, q: Parsing)
    requires ParsingOk(bs, q) && x != []
    ensures ParsingOk(bs + [x], q) && ContentOf(bs + [x], q) == ContentOf(bs, q)
  {
    hide Flat;
    var bs' := bs + [x];
    assert forall p: Place | PlaceOk(bs, p) :: PlaceOk(bs', p);
    if q.place.Some? { SameAt(bs, x, q.place.value); }
    forall i | 0 <= i < |q.marks| ensures LocationOf(bs', q.marks[i]) == LocationOf(bs, q.marks[i]) { SameAt(bs, x, q.marks[i].place); }
  }

  lemma {:induction false} SameAt(bs: Buffers, x: Octets, p: Place)
    requires p.buf <= |bs|
    ensures At(bs + [x], p) == At(bs, p)
  {
    assert (bs + [x])[..p.buf] == bs[..p.buf];
  }
}
