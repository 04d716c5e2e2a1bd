/** Parsed sections keep their buffers: what the check of a message protects is never freed by
    the receivers that send it.
 */
module Protection {
  import opened Octets
  import opened Seqs
  import S = Sections
  import opened SectionCode
  import F = Fanout
  import R = Recognition
  import opened Options

  // ---------------------------------------------------------------- which buffers

  /** Two adjacent stretches of a message. */
  lemma {:induction false} TwoStretches(bs: Buffers, i: nat, a: nat, b: nat, c: nat)
    requires Filled(bs) && i < |bs| && a <= b <= c
    ensures HoldsPartOf(bs, i, a, c) <==> HoldsPartOf(bs, i, a, b) || HoldsPartOf(bs, i, b, c)
  {
    hide Start;
    StartNext(bs, i);
  }

  /** How far sections `k` to `depth` reach that are not body or footer. */
  function ProtectedEnd(s: Octets, c: S.Content, complete: bool, k: nat, depth: nat): (end: nat)
    requires S.ContentOk(c, s) && 1 <= k && depth <= S.SECTIONS
    ensures c.pos <= end <= |s|
    decreases S.SECTIONS + 1 - k
  {
    if k > depth || k >= S.BODY then c.pos
    else
      var o := S.CheckOne(c, s, complete, k);
      if o.verdict != S.DepthOk then o.content.pos else ProtectedEnd(s, o.content, complete, k + 1, depth)
  }

  /** A check protects exactly the buffers that hold an octet of the sections it passes, other
      than body and footer. */
  lemma {:induction false} HeldIsExact(bs: Buffers, c: S.Content, complete: bool, k: nat, depth: nat, i: nat)
    requires Filled(bs) && S.ContentOk(c, Flat(bs)) && 1 <= k && depth <= S.SECTIONS
    ensures i in HeldFrom(bs, c, complete, k, depth) <==>
            i < |bs| && HoldsPartOf(bs, i, c.pos, ProtectedEnd(Flat(bs), c, complete, k, depth))
    decreases S.SECTIONS + 1 - k
  {
    hide HoldsPartOf, S.CheckOne, BuffersBelow;
    if k <= depth {
      var o := S.CheckOne(c, Flat(bs), complete, k);
      MovesOn(c, Flat(bs), complete, k);
      BuffersAre(bs, |bs|, c.pos, o.content.pos, i);
      NoPart(bs, i, c.pos);
      NoPart(bs, i, o.content.pos);
      if o.verdict == S.DepthOk {
        HeldIsExact(bs, o.content, complete, k + 1, depth, i);
        if i < |bs| { TwoStretches(bs, i, c.pos, o.content.pos, ProtectedEnd(Flat(bs), o.content, complete, k + 1, depth)); }
      }
    } else {
      NoPart(bs, i, c.pos);
    }
  }

  lemma {:induction false} NoPart(bs: Buffers, i: nat, a: nat)
    ensures !HoldsPartOf(bs, i, a, a)
  {
  }

  lemma {:induction false} MovesOn(c: S.Content, s: Octets, complete: bool, k: nat)
    requires S.ContentOk(c, s) && 1 <= k <= S.SECTIONS
    ensures c.pos <= S.CheckOne(c, s, complete, k).content.pos
  {
  }

  /** The last buffer of a stretch is the one in which it ends. */
  lemma {:induction false} LastBelow(bs: Buffers, n: nat, a: nat, b: nat)
    ensures var held := BuffersBelow(bs, n, a, b);
            && (held == [] ==> forall i | 0 <= i < n :: !HoldsPartOf(bs, i, a, b))
            && (held != [] ==> held[|held| - 1] < n && HoldsPartOf(bs, held[|held| - 1], a, b))
            && (held != [] ==> forall i | held[|held| - 1] < i < n :: !HoldsPartOf(bs, i, a, b))
  {
    hide HoldsPartOf;
    if n > 0 { LastBelow(bs, n - 1, a, b); }
  }

  /** The number of buffers up to the position `end`, the one with the last octet before it included. */
  predicate UpTo(bs: Buffers, n: nat, end: nat) { 0 < n <= |bs| && Start(bs, n - 1) < end <= Start(bs, n) }

  lemma {:induction false} LastOfStretch(bs: Buffers, a: nat, b: nat)
    requires Filled(bs) && a < b <= |Flat(bs)|
    ensures var held := BuffersOf(bs, a, b); held != [] && UpTo(bs, held[|held| - 1] + 1, b)
  {
    hide Start, BuffersBelow, Filled;
    LastBelow(bs, |bs|, a, b);
    WholeLength(bs);
    var i := BufferAt(bs, |bs|, a);
    StartGrows(bs, i, i + 1);
    var held := BuffersOf(bs, a, b);
    assert HoldsPartOf(bs, i, a, b);
    var m := held[|held| - 1];
    if m + 1 < |bs| {
      StartGrows(bs, m + 1, m + 2);
      assert !HoldsPartOf(bs, m + 1, a, b);
    }
  }

  lemma {:induction false} WholeLength(bs: Buffers)
    ensures Start(bs, |bs|) == |Flat(bs)| && Start(bs, 0) == 0
  {
    assert bs[..|bs|] == bs;
  }

  lemma {:induction false} BufferAt(bs: Buffers, n: nat, a: nat) returns (i: nat)
    requires n <= |bs| && a < Start(bs, n)
    ensures i < n && Start(bs, i) <= a < Start(bs, i + 1)
  {
    hide Start;
    if n == 0 { WholeLength(bs); }
    if a < Start(bs, n - 1) { i := BufferAt(bs, n - 1, a); } else { i := n - 1; }
  }

  /** The last buffer that a check protects is the one in which what it protects ends. */
  lemma {:induction false} LastHeld(bs: Buffers, c: S.Content, complete: bool, k: nat, depth: nat)
    requires Filled(bs) && S.ContentOk(c, Flat(bs)) && 1 <= k && depth <= S.SECTIONS
    ensures var held, end := HeldFrom(bs, c, complete, k, depth), ProtectedEnd(Flat(bs), c, complete, k, depth);
            if held == [] then end == c.pos else UpTo(bs, held[|held| - 1] + 1, end)
    decreases S.SECTIONS + 1 - k
  {
    hide UpTo, S.CheckOne, BuffersOf, Filled;
    if k <= depth {
      var o := S.CheckOne(c, Flat(bs), complete, k);
      MovesOn(c, Flat(bs), complete, k);
      if c.pos < o.content.pos { LastOfStretch(bs, c.pos, o.content.pos); } else { NoneOf(bs, c.pos); }
      if o.verdict == S.DepthOk { LastHeld(bs, o.content, complete, k + 1, depth); }
    }
  }

  lemma {:induction false} NoneOf(bs: Buffers, a: nat)
    ensures BuffersOf(bs, a, a) == []
  {
    NoBuffers(bs, |bs|, a);
  }

  // ---------------------------------------------------------------- a whole message

  lemma {:induction false} EndsAtBody(parts: seq<Option<R.Part>>, s: Octets, k: nat, c: S.Content)
    requires R.MessageOk(parts) && 1 <= k <= 6 && R.Found(parts, s, k, c)
    ensures S.ContentOk(c, s) && ProtectedEnd(s, c, true, k, 7) == R.At(parts, 6)
    decreases 6 - k
  {
    hide R.PartOk, S.CheckOne, R.At;
    R.StillOk(parts, s, k, c);
    if k < 6 {
      R.OptionalSection(parts, s, k, c);
      EndsAtBody(parts, s, k + 1, S.CheckOne(c, s, true, k).content);
    }
  }

  /** Checking a whole message, in buffers of whatever sizes, protects exactly the buffers that hold an octet
      before the body; and the last of them is the one in which the sections before the body end. So the
      number of buffers kept out of the flow-control threshold is the number up to that one. */
  lemma {:induction false} MessageProtected(parts: seq<Option<R.Part>>, bs: Buffers, i: nat)
    requires R.MessageOk(parts) && Filled(bs) && Flat(bs) == R.Wire(parts, 1)
    ensures S.ContentOk(S.Initial(), Flat(bs))
    ensures var held := HeldFrom(bs, S.Initial(), true, 1, 7);
            && (i in held <==> i < |bs| && |Flat(bs[..i])| < R.At(parts, 6))
            && (held == [] <==> R.At(parts, 6) == 0)
            && (held != [] ==> UpTo(bs, held[|held| - 1] + 1, R.At(parts, 6)))
  {
    hide HeldFrom, ProtectedEnd, R.Wire, R.At;
    var s := Flat(bs);
    assert s[0..] == s;
    assert R.At(parts, 1) == 0 by { R.AtFirst(parts); }
    assert R.Found(parts, s, 1, S.Initial());
    EndsAtBody(parts, s, 1, S.Initial());
    HeldIsExact(bs, S.Initial(), true, 1, 7, i);
    LastHeld(bs, S.Initial(), true, 1, 7);
    if i < |bs| { StartNext(bs, i); }
  }

  // ---------------------------------------------------------------- how long

  lemma {:induction false} AllThere(n: nat, i: nat)
    ensures i in F.Range(0, n) <==> i < n
  {
    if i < n { assert F.Range(0, n)[i] == i; }
  }

  /** What is protected while nothing has been freed outlives every run. */
  lemma {:induction false} HeldOutlives(s: F.Content, ids: seq<nat>, es: seq<F.Event>, i: nat)
    requires F.Valid(s) && s.list == F.Range(0, |s.log|) && (forall j | j in ids :: j < |s.log|) && i in ids
    ensures i in F.Run(F.Run(s, F.Protects(ids)), es).list
  {
    hide F.Valid, F.Run, F.Range, F.Protects;
    forall j | j in ids ensures j in s.list { AllThere(|s.log|, j); }
    F.ProtectSteps(s, ids);
    F.ProtectedOutlives(F.Run(s, F.Protects(ids)), es, i);
  }

  lemma {:induction false} BuffersFilled(s: F.Content)
    requires F.Valid(s)
    ensures Filled(s.log)
  {
  }

  /** A section that is found keeps all its buffers: whatever the receivers do afterwards, none of
      the buffers that hold one of its octets is freed. */
  lemma {:induction false} SectionOutlives(s: F.Content, pos: nat, pattern: Octets, tags: set<Octet>, loc: S.Location, es: seq<F.Event>, i: nat)
    requires F.Valid(s) && s.list == F.Range(0, |s.log|) && pos <= |Flat(s.log)| && i < |s.log|
    requires var r := S.CheckSection(Flat(s.log), pos, pattern, tags, loc);
             r.status == S.Match && HoldsPartOf(s.log, i, pos, r.pos)
    ensures var r := S.CheckSection(Flat(s.log), pos, pattern, tags, loc);
            && i in F.Run(F.Run(s, F.Protects(BuffersOf(s.log, pos, r.pos))), es).list
            && (S.ClaimedSize(Flat(s.log)[pos + r.loc.hdrLength..]) < 0x8000_0000 ==>
                  r.pos == r.loc.offset + r.loc.hdrLength + r.loc.length)
  {
    hide F.Valid, F.Run, F.Range, F.Protects, HoldsPartOf, BuffersBelow, S.CheckSection, S.ClaimedSize;
    var end := S.CheckSection(Flat(s.log), pos, pattern, tags, loc).pos;
    S.PassedAsLocated(Flat(s.log), pos, pattern, tags, loc);
    forall j | j in BuffersOf(s.log, pos, end) ensures j < |s.log| { BuffersAre(s.log, |s.log|, pos, end, j); }
    BuffersAre(s.log, |s.log|, pos, end, i);
    HeldOutlives(s, BuffersOf(s.log, pos, end), es, i);
  }

  /** The same for a check of the whole message. */
  lemma {:induction false} CheckedOutlives(s: F.Content, c: S.Content, complete: bool, depth: nat, es: seq<F.Event>, i: nat)
    requires F.Valid(s) && s.list == F.Range(0, |s.log|) && S.ContentOk(c, Flat(s.log)) && c.depth < depth <= S.SECTIONS
    requires i < |s.log| && HoldsPartOf(s.log, i, c.pos, ProtectedEnd(Flat(s.log), c, complete, c.depth + 1, depth))
    ensures i in F.Run(F.Run(s, F.Protects(HeldFrom(s.log, c, complete, c.depth + 1, depth))), es).list
  {
    hide F.Valid, F.Run, F.Range, F.Protects, HoldsPartOf, HeldFrom, ProtectedEnd;
    BuffersFilled(s);
    var held := HeldFrom(s.log, c, complete, c.depth + 1, depth);
    forall j | j in held ensures j < |s.log| { HeldIsExact(s.log, c, complete, c.depth + 1, depth, j); }
    HeldIsExact(s.log, c, complete, c.depth + 1, depth, i);
    HeldOutlives(s, held, es, i);
  }
}
