/** Recognition of the sections of a message (section 3.2 of OASIS AMQP 1.0 Part 3, Messaging)
    while its octets are still arriving. Here the octets are one flat sequence; the result is
    shown not to depend on how they arrive.
 */
module Sections {
  import opened Octets
  import opened Amqp
  import opened Parse
  import opened Seqs

  // ---------------------------------------------------------------- one section

  datatype Status = Invalid | Match | NoMatch | NeedMore

  /** Where a section lies. `length` counts from the tag on; it is a 32-bit number. */
  datatype Location = Location(offset: nat, length: nat, hdrLength: nat, parsed: bool)

  /** Do the octets start with the pattern, with at least one more octet after it? */
  function Compare(u: Octets, pattern: Octets): Status {
    if u == [] then NeedMore
    else if pattern == [] then Match
    else if u[0] != pattern[0] then NoMatch
    else Compare(u[1..], pattern[1..])
  }

  /** How far the field reaches that starts with the tag `v[0]`: whether all of it is there,
      the length noted for it, and the octets to move past. */
  datatype Extent = Extent(whole: bool, length: nat, used: nat)

  function Wrap32(n: nat): nat
    requires n < 2 * U32
  {
    if n < U32 then n else n - U32
  }

  /** The octets after tag and size field, of which `consume` belong to the field. The amount
      to move by is taken as a signed 32-bit number, so that from 2^31 on it is negative and
      nothing is moved. */
  function Body(width: nat, consume: nat, rest: Octets): Extent
    requires width <= 4 && consume < U32
  {
    var length := Wrap32(1 + width + consume);
    if consume == 0 then Extent(true, length, 1 + width)
    else if rest == [] then Extent(false, length, 0)
    else if consume >= 0x8000_0000 then Extent(true, length, 1 + width)
    else if |rest| < consume then Extent(false, length, 0)
    else Extent(true, length, 1 + width + consume)
  }

  function ExtentOf(v: Octets): (e: Extent)
    requires v != []
    ensures e.whole ==> 0 < e.used <= |v|
  {
    var rest := v[1..];
    var w := SizeWidth(v[0]);
    if rest == [] && Subcategory(v[0]) != 4 then Extent(false, 0, 0)
    else if w == 0 then Body(0, FixedWidth(v[0]), rest)
    else if |rest| < w then Extent(false, 0, 0)
    else Body(w, Number(rest, w), rest[w..])
  }

  datatype SectionResult = SectionResult(status: Status, loc: Location, pos: nat)

  /** Check for a section with the given descriptor at position `pos` of the octets `s`. */
  function CheckSection(s: Octets, pos: nat, pattern: Octets, tags: set<Octet>, loc: Location): (r: SectionResult)
    requires pos <= |s|
    ensures pos <= r.pos <= |s|
  {
    var u := s[pos..];
    var c := Compare(u, pattern);
    if c != Match then SectionResult(c, loc, pos)
    else
      CompareLength(u, pattern);
      var v := u[|pattern|..];
      if v[0] !in tags || loc.parsed then SectionResult(Invalid, loc, pos)
      else
        var e := ExtentOf(v);
        SectionResult(if e.whole then Match else NeedMore, Location(pos, e.length, |pattern|, e.whole),
                      if e.whole then pos + |pattern| + e.used else pos)
  }

  lemma {:induction false} CompareLength(u: Octets, pattern: Octets)
    requires Compare(u, pattern) == Match
    ensures |u| > |pattern|
    decreases |u|
  {
    if pattern != [] { CompareLength(u[1..], pattern[1..]); }
  }

  // ---------------------------------------------------------------- the message

  datatype Verdict = DepthOk | DepthIncomplete | DepthInvalid

  /** How far the message has been parsed, where parsing goes on, and where the sections are:
      header, delivery annotations, message annotations, properties, application properties,
      body, footer. */
  datatype Content = Content(depth: nat, pos: nat, locs: seq<Location>)

  const SECTIONS: nat := 7
  const BODY: nat := 6

  function Initial(): Content { Content(0, 0, seq(SECTIONS, _ => Location(0, 0, 0, false))) }

  const TAGS_LIST: set<Octet> := {0x45, 0xc0, 0xd0}
  const TAGS_MAP: set<Octet> := {0xc1, 0xd1}
  const TAGS_BINARY: set<Octet> := {0xa0, 0xb0}
  const TAGS_ANY: set<Octet> :=
    {0x45, 0xc0, 0xd0, 0xc1, 0xd1, 0xa0, 0xb0, 0xa1, 0xb1, 0xa3, 0xb3, 0xe0, 0xf0, 0x40, 0x56, 0x41, 0x42, 0x50, 0x60,
     0x70, 0x52, 0x43, 0x80, 0x53, 0x44, 0x51, 0x61, 0x71, 0x54, 0x81, 0x55, 0x72, 0x82, 0x74, 0x84, 0x94, 0x73, 0x83, 0x98}

  function ShortPattern(code: Octet): Octets { [0x00, 0x53, code] }

  function LongPattern(code: Octet): Octets { [0x00, 0x80, 0, 0, 0, 0, 0, 0, 0, code] }

  predicate ContentOk(c: Content, s: Octets) { c.depth <= SECTIONS && c.pos <= |s| && |c.locs| == SECTIONS }

  /** The short form of the descriptor, then the long one. */
  function EitherForm(s: Octets, pos: nat, code: Octet, tags: set<Octet>, loc: Location): (r: SectionResult)
    requires pos <= |s|
    ensures pos <= r.pos <= |s|
  {
    var r := CheckSection(s, pos, ShortPattern(code), tags, loc);
    if r.status == NoMatch then CheckSection(s, pos, LongPattern(code), tags, loc) else r
  }

  datatype Outcome = Outcome(verdict: Verdict, content: Content)

  /** Check for section `k`; `complete` if no more octets will come. */
  function CheckDepth(c: Content, s: Octets, complete: bool, k: nat, code: Octet, tags: set<Octet>, optional: bool): (o: Outcome)
    requires ContentOk(c, s) && 1 <= k <= SECTIONS
    ensures ContentOk(o.content, s)
  {
    if k <= c.depth then Outcome(DepthOk, c)
    else
      var r := EitherForm(s, c.pos, code, tags, c.locs[k - 1]);
      var c' := c.(locs := c.locs[k - 1 := r.loc]);
      match r.status
      case Match => Outcome(DepthOk, c'.(depth := k, pos := r.pos))
      case NoMatch => if optional then Outcome(DepthOk, c'.(depth := k)) else Outcome(DepthInvalid, c')
      case NeedMore =>
        if !complete then Outcome(DepthIncomplete, c')
        else if c.pos == |s| && optional then Outcome(DepthOk, c')
        else Outcome(DepthInvalid, c')
      case Invalid => Outcome(DepthInvalid, c')
  }

  /** The descriptor code and the tags of the sections other than the body. */
  function CodeOf(k: nat): Octet
    requires 1 <= k <= SECTIONS && k != BODY
  {
    if k == 7 then 0x78 else (0x6f + k) as Octet
  }

  function TagsOf(k: nat): set<Octet> { if k == 1 || k == 4 then TAGS_LIST else TAGS_MAP }

  /** A body is a value, or else data, or else a sequence, or else missing. */
  function CheckBody(c: Content, s: Octets, complete: bool): (o: Outcome)
    requires ContentOk(c, s)
    ensures ContentOk(o.content, s)
  {
    var o := CheckDepth(c, s, complete, BODY, 0x77, TAGS_ANY, false);
    if o.verdict != DepthInvalid then o
    else
      var o := CheckDepth(o.content, s, complete, BODY, 0x75, TAGS_BINARY, false);
      if o.verdict != DepthInvalid then o
      else CheckDepth(o.content, s, complete, BODY, 0x76, TAGS_LIST, true)
  }

  function CheckOne(c: Content, s: Octets, complete: bool, k: nat): (o: Outcome)
    requires ContentOk(c, s) && 1 <= k <= SECTIONS
    ensures ContentOk(o.content, s)
  {
    if k == BODY then CheckBody(c, s, complete) else CheckDepth(c, s, complete, k, CodeOf(k), TagsOf(k), true)
  }

  /** Sections `k` to `depth`, until one is not in order. */
  function CheckFrom(c: Content, s: Octets, complete: bool, k: nat, depth: nat): (o: Outcome)
    requires ContentOk(c, s) && 1 <= k && depth <= SECTIONS
    ensures ContentOk(o.content, s)
    decreases SECTIONS + 1 - k
  {
    if k > depth then Outcome(DepthOk, c)
    else
      var o := CheckOne(c, s, complete, k);
      if o.verdict != DepthOk then o else CheckFrom(o.content, s, complete, k + 1, depth)
  }

  /** Parse down to a depth. */
  function CheckMessage(c: Content, s: Octets, complete: bool, depth: nat): (o: Outcome)
    requires ContentOk(c, s) && depth <= SECTIONS
    ensures ContentOk(o.content, s)
  {
    if depth <= c.depth || depth == 0 then Outcome(DepthOk, c)
    else if s == [] then Outcome(if complete then DepthInvalid else DepthIncomplete, c)
    else CheckFrom(c, s, complete, c.depth + 1, depth)
  }

  // ---------------------------------------------------------------- more octets decide nothing anew

  lemma {:induction false} CompareStable(u: Octets, t: Octets, pattern: Octets)
    ensures Compare(u, pattern) != NeedMore ==> Compare(u + t, pattern) == Compare(u, pattern)
    decreases |u|
  {
    if u != [] {
      assert (u + t)[0] == u[0];
      if pattern != [] {
        CutAppend(u, t, 1);
        CompareStable(u[1..], t, pattern[1..]);
      }
    }
  }

  lemma {:induction false} ExtentStable(v: Octets, t: Octets)
    requires v != []
    ensures ExtentOf(v).whole ==> ExtentOf(v + t) == ExtentOf(v)
  {
    hide FixedWidth, Number;
    var w := SizeWidth(v[0]);
    assert (v + t)[0] == v[0];
    CutAppend(v, t, 1);
    if w > 0 && |v[1..]| >= w {
      CutAppend(v[1..], t, w);
      NumberStable(v[1..], t, w);
    }
  }

  lemma {:induction false} NumberStable(s: Octets, t: Octets, w: nat)
    requires (w == 1 || w == 4) && |s| >= w
    ensures Number(s + t, w) == Number(s, w)
  {
    assert (s + t)[..w] == s[..w] && (s + t)[0] == s[0];
  }

  /** A decided section stays decided; an undecided one leaves nothing behind that a later
      check would not write again. */
  lemma {:induction false} SectionStable(p: Octets, t: Octets, pos: nat, pattern: Octets, tags: set<Octet>, loc: Location)
    requires pos <= |p| && !loc.parsed
    ensures var r := CheckSection(p, pos, pattern, tags, loc);
            && (r.status != NeedMore ==> CheckSection(p + t, pos, pattern, tags, loc) == r)
            && (r.status == NeedMore ==> r.pos == pos && !r.loc.parsed)
            && (r.status == NeedMore ==> CheckSection(p + t, pos, pattern, tags, r.loc) == CheckSection(p + t, pos, pattern, tags, loc))
  {
    hide ExtentOf;
    var u := p[pos..];
    CutAppend(p, t, pos);
    CompareStable(u, t, pattern);
    if Compare(u, pattern) == Match {
      CompareLength(u, pattern);
      CutAppend(u, t, |pattern|);
      var v := u[|pattern|..];
      assert (v + t)[0] == v[0];
      ExtentStable(v, t);
    }
  }

  lemma {:induction false} EitherStable(p: Octets, t: Octets, pos: nat, code: Octet, tags: set<Octet>, loc: Location)
    requires pos <= |p| && !loc.parsed
    ensures var r := EitherForm(p, pos, code, tags, loc);
            && (r.status != NeedMore ==> EitherForm(p + t, pos, code, tags, loc) == r)
            && (r.status == NeedMore ==> r.pos == pos && !r.loc.parsed)
            && (r.status == NeedMore ==> EitherForm(p + t, pos, code, tags, r.loc) == EitherForm(p + t, pos, code, tags, loc))
            && (r.status == NoMatch || (r.status == NeedMore && pos == |p|) ==> r.loc == loc)
  {
    SectionStable(p, t, pos, ShortPattern(code), tags, loc);
    SectionStable(p, t, pos, LongPattern(code), tags, loc);
  }

  /** No section beyond the depth is marked as parsed. */
  predicate Fresh(c: Content, s: Octets) {
    ContentOk(c, s) && forall i | c.depth <= i < SECTIONS :: !c.locs[i].parsed
  }

  /** A check of section `k` before all octets are there. */
  lemma {:induction false} DepthStable(c: Content, p: Octets, t: Octets, b: bool, k: nat, code: Octet, tags: set<Octet>, optional: bool)
    requires Fresh(c, p) && c.depth < k <= SECTIONS
    ensures var o := CheckDepth(c, p, false, k, code, tags, optional);
            && (o.verdict != DepthIncomplete ==> CheckDepth(c, p + t, b, k, code, tags, optional) == o)
            && (o.verdict == DepthOk ==> o.content.depth == k && Fresh(o.content, p))
            && (o.verdict == DepthInvalid ==> o.content == c)
            && (o.verdict == DepthIncomplete ==>
                  && Fresh(o.content, p) && OtherLoc(c, o.content, k)
                  && CheckDepth(o.content, p + t, b, k, code, tags, optional) == CheckDepth(c, p + t, b, k, code, tags, optional))
  {
    hide EitherForm;
    EitherStable(p, t, c.pos, code, tags, c.locs[k - 1]);
    EitherLoc(p, c.pos, code, tags, c.locs[k - 1]);
    SameLoc(c, k);
    var r := EitherForm(p, c.pos, code, tags, c.locs[k - 1]);
    if r.status == NeedMore { PutTwice(c, k, r.loc, EitherForm(p + t, c.pos, code, tags, c.locs[k - 1]).loc); }
  }

  lemma {:induction false} SameLoc(c: Content, k: nat)
    requires 1 <= k <= |c.locs|
    ensures c.(locs := c.locs[k - 1 := c.locs[k - 1]]) == c
  {
  }

  lemma {:induction false} PutTwice(c: Content, k: nat, l: Location, l': Location)
    requires 1 <= k <= |c.locs|
    ensures c.locs[k - 1 := l][k - 1 := l'] == c.locs[k - 1 := l']
  {
  }

  /** Only a section that is recognized, in part or as a whole, changes its location. */
  lemma {:induction false} EitherLoc(s: Octets, pos: nat, code: Octet, tags: set<Octet>, loc: Location)
    requires pos <= |s|
    ensures var r := EitherForm(s, pos, code, tags, loc);
            r.status == NoMatch || r.status == Invalid || pos == |s| ==> r.loc == loc
  {
  }

  /** The same but for the location of section `k`. */
  predicate OtherLoc(c: Content, c': Content, k: nat) {
    && 1 <= k <= |c.locs| == |c'.locs| && !c.locs[k - 1].parsed && !c'.locs[k - 1].parsed
    && c' == c.(locs := c.locs[k - 1 := c'.locs[k - 1]])
  }

  /** What is noted about a section that is not parsed yet has no influence; it is written anew
      or kept. */
  lemma {:induction false} AnyLoc(c: Content, c': Content, s: Octets, b: bool, k: nat, code: Octet, tags: set<Octet>, optional: bool)
    requires ContentOk(c, s) && OtherLoc(c, c', k) && c.depth < k <= SECTIONS
    ensures var o, o' := CheckDepth(c, s, b, k, code, tags, optional), CheckDepth(c', s, b, k, code, tags, optional);
            && o.verdict == o'.verdict
            && (o.content == o'.content || (o.content == c && o'.content == c')
                || (o.content == c.(depth := k) && o'.content == c'.(depth := k)))
  {
    hide Compare, ExtentOf;
    SameLoc(c, k);
    SameLoc(c', k);
    PutTwice(c, k, c'.locs[k - 1], EitherForm(s, c.pos, code, tags, c.locs[k - 1]).loc);
  }

  /** A body of another kind stays one of another kind. */
  lemma {:induction false} PassedOver(c: Content, c': Content, p: Octets, t: Octets, b: bool, code: Octet, tags: set<Octet>)
    requires Fresh(c, p) && Fresh(c', p) && OtherLoc(c, c', BODY) && c.depth < BODY
    requires CheckDepth(c, p, false, BODY, code, tags, false).verdict == DepthInvalid
    ensures CheckDepth(c', p + t, b, BODY, code, tags, false) == Outcome(DepthInvalid, c')
  {
    hide CheckDepth;
    AnyLoc(c, c', p, false, BODY, code, tags, false);
    DepthStable(c', p, t, b, BODY, code, tags, false);
  }

  lemma {:induction false} BodyStable(c: Content, p: Octets, t: Octets, b: bool)
    requires Fresh(c, p) && c.depth < BODY
    ensures var o := CheckBody(c, p, false);
            && (o.verdict != DepthIncomplete ==> CheckBody(c, p + t, b) == o)
            && (o.verdict == DepthOk ==> o.content.depth == BODY && Fresh(o.content, p))
            && (o.verdict == DepthInvalid ==> o.content == c)
            && (o.verdict == DepthIncomplete ==>
                  && Fresh(o.content, p) && o.content.depth == c.depth
                  && CheckBody(o.content, p + t, b) == CheckBody(c, p + t, b))
  {
    hide CheckDepth;
    DepthStable(c, p, t, b, BODY, 0x77, TAGS_ANY, false);
    DepthStable(c, p, t, b, BODY, 0x75, TAGS_BINARY, false);
    DepthStable(c, p, t, b, BODY, 0x76, TAGS_LIST, true);
    var o1 := CheckDepth(c, p, false, BODY, 0x77, TAGS_ANY, false);
    if o1.verdict == DepthInvalid {
      var o2 := CheckDepth(c, p, false, BODY, 0x75, TAGS_BINARY, false);
      if o2.verdict == DepthIncomplete { PassedOver(c, o2.content, p, t, b, 0x77, TAGS_ANY); }
      if o2.verdict == DepthInvalid {
        var o3 := CheckDepth(c, p, false, BODY, 0x76, TAGS_LIST, true);
        if o3.verdict == DepthIncomplete {
          PassedOver(c, o3.content, p, t, b, 0x77, TAGS_ANY);
          PassedOver(c, o3.content, p, t, b, 0x75, TAGS_BINARY);
        }
      }
    }
  }

  lemma {:induction false} OneStable(c: Content, p: Octets, t: Octets, b: bool, k: nat)
    requires Fresh(c, p) && c.depth < k <= SECTIONS
    ensures var o := CheckOne(c, p, false, k);
            && (o.verdict != DepthIncomplete ==> CheckOne(c, p + t, b, k) == o)
            && (o.verdict == DepthOk ==> o.content.depth == k && Fresh(o.content, p))
            && (o.verdict == DepthInvalid ==> o.content == c)
            && (o.verdict == DepthIncomplete ==>
                  && Fresh(o.content, p) && o.content.depth == c.depth
                  && CheckOne(o.content, p + t, b, k) == CheckOne(c, p + t, b, k))
  {
    hide CheckDepth, CheckBody;
    if k == BODY { BodyStable(c, p, t, b); } else { DepthStable(c, p, t, b, k, CodeOf(k), TagsOf(k), true); }
  }

  /** An early check of sections `k` to `e` leaves a content from which a later check to any
      depth `d` gets the same verdict as without it; a later check of everything also ends in
      the same content. */
  lemma {:induction false} FromStable(c: Content, p: Octets, t: Octets, b: bool, k: nat, e: nat, d: nat)
    requires Fresh(c, p) && k == c.depth + 1 && e <= SECTIONS && k <= d <= SECTIONS && p != []
    ensures var c' := CheckFrom(c, p, false, k, e).content;
            && Fresh(c', p)
            && CheckMessage(c', p + t, b, d).verdict == CheckFrom(c, p + t, b, k, d).verdict
            && (d == SECTIONS ==> CheckMessage(c', p + t, b, d) == CheckFrom(c, p + t, b, k, d))
    decreases SECTIONS + 1 - k
  {
    hide CheckOne;
    if k <= e {
      OneStable(c, p, t, b, k);
      var o := CheckOne(c, p, false, k);
      if o.verdict == DepthOk {
        if d == k { DepthGrows(o.content, p, k + 1, e); } else { FromStable(o.content, p, t, b, k + 1, e, d); }
      }
    }
  }

  lemma {:induction false} DepthGrows(c: Content, p: Octets, k: nat, e: nat)
    requires Fresh(c, p) && k == c.depth + 1 && e <= SECTIONS
    ensures var c' := CheckFrom(c, p, false, k, e).content; Fresh(c', p) && c'.depth >= c.depth
    decreases SECTIONS + 1 - k
  {
    hide CheckOne;
    if k <= e {
      OneStable(c, p, [], false, k);
      var o := CheckOne(c, p, false, k);
      if o.verdict == DepthOk { DepthGrows(o.content, p, k + 1, e); }
    }
  }

  /** The same for whole checks. */
  lemma {:induction false} CheckStable(c: Content, p: Octets, t: Octets, b: bool, e: nat, d: nat)
    requires Fresh(c, p) && e <= SECTIONS && d <= SECTIONS
    ensures var c' := CheckMessage(c, p, false, e).content;
            && Fresh(c', p)
            && CheckMessage(c', p + t, b, d).verdict == CheckMessage(c, p + t, b, d).verdict
            && CheckMessage(c', p + t, b, SECTIONS) == CheckMessage(c, p + t, b, SECTIONS)
  {
    hide CheckFrom;
    if p != [] && c.depth < e {
      var k := c.depth + 1;
      if d <= c.depth { DepthGrows(c, p, k, e); } else { FromStable(c, p, t, b, k, e, d); }
      FromStable(c, p, t, b, k, e, SECTIONS);
    }
  }

  // ---------------------------------------------------------------- checks after the last octet

  lemma {:induction false} DepthAgain(c: Content, s: Octets, k: nat, code: Octet, tags: set<Octet>, optional: bool)
    requires Fresh(c, s) && c.depth < k <= SECTIONS
    ensures var o := CheckDepth(c, s, true, k, code, tags, optional);
            && o.verdict != DepthIncomplete
            && (c.pos == |s| ==> o == Outcome(if optional then DepthOk else DepthInvalid, c))
            && (o.verdict == DepthOk && c.pos < |s| ==> o.content.depth == k && Fresh(o.content, s))
            && (o.verdict == DepthInvalid ==> OtherLoc(c, o.content, k) && Fresh(o.content, s))
            && (o.verdict == DepthInvalid ==> CheckDepth(o.content, s, true, k, code, tags, optional) == o)
  {
    hide EitherForm;
    assert s + [] == s;
    EitherStable(s, [], c.pos, code, tags, c.locs[k - 1]);
    EitherLoc(s, c.pos, code, tags, c.locs[k - 1]);
    SameLoc(c, k);
    var r := EitherForm(s, c.pos, code, tags, c.locs[k - 1]);
    PutTwice(c, k, r.loc, r.loc);
    AtEndNeedsMore(s, code, tags, c.locs[k - 1]);
  }

  lemma {:induction false} AtEndNeedsMore(s: Octets, code: Octet, tags: set<Octet>, loc: Location)
    ensures EitherForm(s, |s|, code, tags, loc).status == NeedMore
  {
  }

  lemma {:induction false} BodyAgain(c: Content, s: Octets)
    requires Fresh(c, s) && c.depth < BODY
    ensures var o := CheckBody(c, s, true);
            && o.verdict != DepthIncomplete
            && (c.pos == |s| ==> o == Outcome(DepthOk, c))
            && (o.verdict == DepthOk && c.pos < |s| ==> o.content.depth == BODY && Fresh(o.content, s))
            && (o.verdict == DepthInvalid ==> OtherLoc(c, o.content, BODY) && Fresh(o.content, s))
            && (o.verdict == DepthInvalid ==> CheckBody(o.content, s, true) == o)
  {
    hide CheckDepth;
    DepthAgain(c, s, BODY, 0x77, TAGS_ANY, false);
    var o1 := CheckDepth(c, s, true, BODY, 0x77, TAGS_ANY, false);
    if o1.verdict == DepthInvalid {
      var c1 := o1.content;
      DepthAgain(c1, s, BODY, 0x75, TAGS_BINARY, false);
      var o2 := CheckDepth(c1, s, true, BODY, 0x75, TAGS_BINARY, false);
      if o2.verdict == DepthInvalid {
        var c2 := o2.content;
        DepthAgain(c2, s, BODY, 0x76, TAGS_LIST, true);
        var o3 := CheckDepth(c2, s, true, BODY, 0x76, TAGS_LIST, true);
        if o3.verdict == DepthInvalid { BodyThrice(c, c1, c2, o3.content, s); }
      }
    }
  }

  /** Three kinds of body refused, and refused again. */
  lemma {:induction false} BodyThrice(c: Content, c1: Content, c2: Content, c3: Content, s: Octets)
    requires Fresh(c, s) && c.depth < BODY && Fresh(c3, s)
    requires OtherLoc(c, c1, BODY) && OtherLoc(c1, c2, BODY) && OtherLoc(c2, c3, BODY) && OtherLoc(c, c3, BODY)
    requires CheckDepth(c, s, true, BODY, 0x77, TAGS_ANY, false) == Outcome(DepthInvalid, c1)
    requires CheckDepth(c1, s, true, BODY, 0x75, TAGS_BINARY, false) == Outcome(DepthInvalid, c2)
    requires CheckDepth(c2, s, true, BODY, 0x76, TAGS_LIST, true) == Outcome(DepthInvalid, c3)
    ensures CheckBody(c3, s, true) == Outcome(DepthInvalid, c3)
  {
    hide CheckDepth;
    AnyLoc(c, c3, s, true, BODY, 0x77, TAGS_ANY, false);
    var d1 := CheckDepth(c3, s, true, BODY, 0x77, TAGS_ANY, false).content;
    AnyLoc(c1, d1, s, true, BODY, 0x75, TAGS_BINARY, false);
    var d2 := CheckDepth(d1, s, true, BODY, 0x75, TAGS_BINARY, false).content;
    AnyLoc(c2, d2, s, true, BODY, 0x76, TAGS_LIST, true);
  }

  lemma {:induction false} OneAgain(c: Content, s: Octets, k: nat)
    requires Fresh(c, s) && c.depth < k <= SECTIONS
    ensures var o := CheckOne(c, s, true, k);
            && o.verdict != DepthIncomplete
            && (c.pos == |s| ==> o == Outcome(DepthOk, c))
            && (o.verdict == DepthOk && c.pos < |s| ==> o.content.depth == k && Fresh(o.content, s))
            && (o.verdict == DepthInvalid ==> OtherLoc(c, o.content, k) && Fresh(o.content, s))
            && (o.verdict == DepthInvalid ==> CheckOne(o.content, s, true, k) == o)
  {
    hide CheckDepth, CheckBody;
    if k == BODY { BodyAgain(c, s); } else { DepthAgain(c, s, k, CodeOf(k), TagsOf(k), true); }
  }

  lemma {:induction false} AtEnd(c: Content, s: Octets, k: nat, e: nat)
    requires Fresh(c, s) && c.depth < k && e <= SECTIONS && c.pos == |s|
    ensures CheckFrom(c, s, true, k, e) == Outcome(DepthOk, c)
    decreases SECTIONS + 1 - k
  {
    hide CheckOne;
    if k <= e {
      OneAgain(c, s, k);
      AtEnd(c, s, k + 1, e);
    }
  }

  lemma {:induction false} FromAgain(c: Content, s: Octets, k: nat, e: nat, d: nat)
    requires Fresh(c, s) && k == c.depth + 1 && e <= SECTIONS && d <= SECTIONS && s != []
    ensures var c' := CheckFrom(c, s, true, k, e).content;
            && Fresh(c', s) && c'.depth >= c.depth
            && (k <= d ==> CheckMessage(c', s, true, d).verdict == CheckFrom(c, s, true, k, d).verdict)
            && (k <= d == SECTIONS ==> CheckMessage(c', s, true, d) == CheckFrom(c, s, true, k, d))
    decreases SECTIONS + 1 - k
  {
    hide CheckOne;
    if k <= e {
      OneAgain(c, s, k);
      var o := CheckOne(c, s, true, k);
      if o.verdict == DepthOk {
        if c.pos == |s| { AtEnd(c, s, k, e); } else { FromAgain(o.content, s, k + 1, e, d); }
      }
    }
  }

  lemma {:induction false} CheckAgain(c: Content, s: Octets, e: nat, d: nat)
    requires Fresh(c, s) && e <= SECTIONS && d <= SECTIONS
    ensures var c' := CheckMessage(c, s, true, e).content;
            && Fresh(c', s)
            && CheckMessage(c', s, true, d).verdict == CheckMessage(c, s, true, d).verdict
            && CheckMessage(c', s, true, SECTIONS) == CheckMessage(c, s, true, SECTIONS)
  {
    hide CheckFrom;
    if s != [] && c.depth < e {
      FromAgain(c, s, c.depth + 1, e, d);
      FromAgain(c, s, c.depth + 1, e, SECTIONS);
    }
  }

  // ---------------------------------------------------------------- any order of arrivals and checks

  datatype Event = Arrive(octets: Octets) | Complete | Check(depth: nat)

  /** A message on its way in. Nothing arrives after the last octet. */
  datatype Inflow = Inflow(content: Content, octets: Octets, complete: bool) {
    predicate Valid() { Fresh(content, octets) }

    function Step(e: Event): Inflow
      requires Valid()
    {
      match e
      case Arrive(x) => if complete then this else this.(octets := octets + x)
      case Complete => this.(complete := true)
      case Check(d) => if d > SECTIONS then this else this.(content := CheckMessage(content, octets, complete, d).content)
    }
  }

  lemma {:induction false} StepKeepsValid(f: Inflow, e: Event)
    requires f.Valid()
    ensures f.Step(e).Valid()
  {
    hide CheckMessage;
    if e.Check? && e.depth <= SECTIONS {
      CheckStable(f.content, f.octets, [], false, e.depth, 0);
      CheckAgain(f.content, f.octets, e.depth, 0);
    }
  }

  ghost function Run(f: Inflow, es: seq<Event>): (r: Inflow)
    requires f.Valid()
    ensures r.Valid() && f.octets <= r.octets && (f.complete ==> r.complete && r.octets == f.octets)
    decreases |es|
  {
    if es == [] then f
    else
      StepKeepsValid(f, es[0]);
      Run(f.Step(es[0]), es[1..])
  }

  /** Whatever arrives and is checked in between: any later check gets the verdict, and a check
      of everything also the section locations, that it would have got from the state before
      with all octets at once. */
  lemma {:induction false} RunIrrelevant(f: Inflow, es: seq<Event>, d: nat)
    requires f.Valid() && d <= SECTIONS
    ensures var r := Run(f, es);
            && Fresh(f.content, r.octets)
            && CheckMessage(r.content, r.octets, r.complete, d).verdict == CheckMessage(f.content, r.octets, r.complete, d).verdict
            && CheckMessage(r.content, r.octets, r.complete, SECTIONS) == CheckMessage(f.content, r.octets, r.complete, SECTIONS)
    decreases |es|
  {
    hide CheckMessage;
    if es != [] {
      StepKeepsValid(f, es[0]);
      var g := f.Step(es[0]);
      RunIrrelevant(g, es[1..], d);
      var r := Run(f, es);
      if es[0].Check? && es[0].depth <= SECTIONS {
        if f.complete {
          CheckAgain(f.content, f.octets, es[0].depth, d);
        } else {
          var t := r.octets[|f.octets|..];
          assert f.octets + t == r.octets;
          CheckStable(f.content, f.octets, t, r.complete, es[0].depth, d);
        }
      }
    }
  }

  /** Section recognition does not depend on arrival: after any run that ends with all octets
      there, every verdict and every section location is that of one check of the complete
      octets. */
  lemma {:induction false} ArrivalIrrelevant(es: seq<Event>, d: nat)
    requires d <= SECTIONS
    ensures Inflow(Initial(), [], false).Valid()
    ensures var r := Run(Inflow(Initial(), [], false), es);
            && Fresh(Initial(), r.octets)
            && CheckMessage(r.content, r.octets, r.complete, d).verdict == CheckMessage(Initial(), r.octets, r.complete, d).verdict
            && CheckMessage(r.content, r.octets, r.complete, SECTIONS) == CheckMessage(Initial(), r.octets, r.complete, SECTIONS)
  {
    hide CheckMessage;
    RunIrrelevant(Inflow(Initial(), [], false), es, d);
  }

  /** A section that has been passed keeps its location for good. */
  lemma {:induction false} CheckKeeps(c: Content, s: Octets, b: bool, k: nat, e: nat, i: nat)
    requires ContentOk(c, s) && c.depth < k && e <= SECTIONS && i < c.depth
    ensures var c' := CheckFrom(c, s, b, k, e).content; c'.depth >= c.depth && c'.locs[i] == c.locs[i]
    decreases SECTIONS + 1 - k
  {
    hide CheckOne;
    if k <= e {
      var o := CheckOne(c, s, b, k);
      OneKeeps(c, s, b, k, i);
      if o.verdict == DepthOk { CheckKeeps(o.content, s, b, k + 1, e, i); }
    }
  }

  lemma {:induction false} OneKeeps(c: Content, s: Octets, b: bool, k: nat, i: nat)
    requires ContentOk(c, s) && c.depth < k <= SECTIONS && i < c.depth
    ensures var c' := CheckOne(c, s, b, k).content; ContentOk(c', s) && c.depth <= c'.depth <= k && c'.locs[i] == c.locs[i]
  {
    hide EitherForm;
  }

  lemma {:induction false} DecidedStays(f: Inflow, es: seq<Event>, i: nat)
    requires f.Valid() && i < f.content.depth
    ensures var r := Run(f, es); r.content.depth >= f.content.depth && r.content.locs[i] == f.content.locs[i]
    decreases |es|
  {
    hide CheckFrom;
    if es != [] {
      StepKeepsValid(f, es[0]);
      if es[0].Check? && es[0].depth <= SECTIONS {
        CheckKeeps(f.content, f.octets, f.complete, f.content.depth + 1, es[0].depth, i);
      }
      DecidedStays(f.Step(es[0]), es[1..], i);
    }
  }

  // ---------------------------------------------------------------- what is passed over

  /** The recognizer moves past exactly the field that the parser would parse, if its size is
      below 2^31. */
  lemma {:induction false} ExtentIsField(v: Octets)
    requires ParseField(v).Ok? && ParseField(v).field.size < 0x8000_0000
    ensures ExtentOf(v).whole && ExtentOf(v).used == |v| - |ParseField(v).rest|
    ensures ExtentOf(v).length == ExtentOf(v).used
  {
    hide Number, FixedWidth;
    var w, c := SizeWidth(v[0]), CountWidth(v[0]);
    DropTwice(v, 1, w);
    DropTwice(v, 1 + w, c);
    NoSizeNoCount(v[0]);
  }

  lemma {:induction false} NoSizeNoCount(tag: Octet)
    ensures SizeWidth(tag) == 0 ==> CountWidth(tag) == 0 && FixedWidth(tag) <= 16
    ensures SizeWidth(tag) == 0 && FixedWidth(tag) == 0 && Subcategory(tag) >= 4 ==> Subcategory(tag) == 4
  {
  }

  /** From 2^31 on the size is taken for a negative number: the section counts as complete as
      soon as one octet of it is there, and parsing goes on right after the size field. */
  lemma {:induction false} HugeSizeIsNotPassed(v: Octets)
    requires |v| > 5 && SizeWidth(v[0]) == 4 && Number(v[1..], 4) >= 0x8000_0000
    ensures ExtentOf(v).whole && ExtentOf(v).used == 5
  {
    assert v[1..][4..] == v[5..];
  }

  /** The size that the field at `v` claims, if it claims one. */
  function ClaimedSize(v: Octets): nat
    requires v != []
  {
    if SizeWidth(v[0]) == 0 then FixedWidth(v[0]) else if |v| > SizeWidth(v[0]) then Number(v[1..], SizeWidth(v[0])) else 0
  }

  /** A section that matches is passed as a whole, as its location says, if and only if its size is
      below 2^31. */
  lemma {:induction false} PassedAsLocated(s: Octets, pos: nat, pattern: Octets, tags: set<Octet>, loc: Location)
    requires pos <= |s|
    ensures var r := CheckSection(s, pos, pattern, tags, loc);
            r.status == Match ==>
              && r.loc.offset == pos && pos + r.loc.hdrLength < |s|
              && (r.pos == r.loc.offset + r.loc.hdrLength + r.loc.length <==>
                    ClaimedSize(s[pos + r.loc.hdrLength..]) < 0x8000_0000)
  {
    hide Number, FixedWidth;
    var u := s[pos..];
    if Compare(u, pattern) == Match {
      CompareLength(u, pattern);
      DropTwice(s, pos, |pattern|);
      ExtentLength(u[|pattern|..]);
    }
  }

  lemma {:induction false} ExtentLength(v: Octets)
    requires v != []
    ensures ExtentOf(v).whole ==> (ExtentOf(v).used == ExtentOf(v).length <==> ClaimedSize(v) < 0x8000_0000)
  {
    hide Number;
    if SizeWidth(v[0]) > 0 && |v| > SizeWidth(v[0]) { NumberRange(v[1..], SizeWidth(v[0])); }
  }

  lemma {:induction false} NumberRange(s: Octets, w: nat)
    requires (w == 1 || w == 4) && |s| >= w
    ensures Number(s, w) < U32
  {
  }
}
