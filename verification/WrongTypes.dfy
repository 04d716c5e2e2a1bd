/** A section whose descriptor is right and whose value has the wrong type. For every section but two kinds
    of body that makes the message invalid, as soon as the type has arrived. */
module WrongTypes {
  import opened Octets
  import opened Amqp
  import opened Parse
  import opened Seqs
  import opened Sections
  import opened Recognition
  import opened Options

  /** The codes of section `k`; a body has three. */
  predicate IsCode(k: nat, code: Octet) {
    if k == BODY then code == 0x75 || code == 0x76 || code == 0x77 else code == StandardCode(k)
  }

  /** The types of section `k`. */
  predicate RightType(k: nat, p: Part)
    requires p.field != []
  {
    if k == BODY then BodyOk(p.code, p.field[0]) else StandardType(k, p.field[0])
  }

  /** A value of a wrong type is not taken. */
  lemma {:induction false} NotTaken(s: Octets, pos: nat, p: Part, rest: Octets, tags: set<Octet>, loc: Location)
    requires pos <= |s| && s[pos..] == PartOctets(p) + rest && p.field != [] && p.field[0] !in tags
    ensures EitherForm(s, pos, p.code, tags, loc) == SectionResult(Invalid, loc, pos)
  {
    hide ExtentOf, Descriptor;
    DescriptorIs(p);
    var u, v := s[pos..], p.field + rest;
    assert u == Descriptor(p) + v;
    CompareSame(Descriptor(p), v);
    assert u[|Descriptor(p)|..] == v && v[0] == p.field[0];
    if p.isLong { CompareDiffers(u, ShortPattern(p.code), 1); }
  }

  lemma {:induction false} TypesAre(k: nat, p: Part)
    requires 1 <= k <= SECTIONS && p.field != [] && IsCode(k, p.code)
    ensures k != BODY ==> p.code == CodeOf(k) && (RightType(k, p) <==> p.field[0] in TagsOf(k))
    ensures k == BODY ==> (RightType(k, p) <==>
              p.field[0] in (if p.code == 0x77 then TAGS_ANY else if p.code == 0x75 then TAGS_BINARY else TAGS_LIST))
  {
    hide Primitive;
    PrimitiveIsTaken(p.field[0]);
  }

  lemma {:induction false} WrongSection(c: Content, s: Octets, b: bool, k: nat, p: Part, rest: Octets)
    requires Fresh(c, s) && c.depth < k <= SECTIONS && s[c.pos..] == PartOctets(p) + rest
    requires IsCode(k, p.code) && p.field != [] && !RightType(k, p) && (k == BODY ==> p.code == 0x76)
    ensures CheckOne(c, s, b, k).verdict == DepthInvalid
  {
    hide EitherForm, PartOctets, CodeOf, TagsOf, RightType, Descriptor;
    var loc := c.locs[k - 1];
    TypesAre(k, p);
    SameLoc(c, k);
    if k == BODY {
      DescriptorLeads(p, rest);
      NotAnother(s, c.pos, p, 0x77, TAGS_ANY, loc);
      NotAnother(s, c.pos, p, 0x75, TAGS_BINARY, loc);
      NotTaken(s, c.pos, p, rest, TAGS_LIST, loc);
    } else {
      NotTaken(s, c.pos, p, rest, TagsOf(k), loc);
    }
  }

  /** A value or data body of a wrong type counts as missing. */
  lemma {:induction false} WrongBody(c: Content, s: Octets, b: bool, p: Part, rest: Octets)
    requires Fresh(c, s) && c.depth < BODY && s[c.pos..] == PartOctets(p) + rest
    requires p.code == 0x77 || p.code == 0x75
    requires p.field != [] && !RightType(BODY, p)
    ensures CheckOne(c, s, b, BODY) == Outcome(DepthOk, c.(depth := BODY))
  {
    hide EitherForm, PartOctets, RightType, Descriptor;
    var loc := c.locs[BODY - 1];
    TypesAre(BODY, p);
    SameLoc(c, BODY);
    DescriptorLeads(p, rest);
    NotAnother(s, c.pos, p, 0x76, TAGS_LIST, loc);
    if p.code == 0x77 {
      NotTaken(s, c.pos, p, rest, TAGS_ANY, loc);
      NotAnother(s, c.pos, p, 0x75, TAGS_BINARY, loc);
    } else {
      NotAnother(s, c.pos, p, 0x77, TAGS_ANY, loc);
      NotTaken(s, c.pos, p, rest, TAGS_BINARY, loc);
    }
  }

  // ---------------------------------------------------------------- the sections before

  lemma {:induction false} PartBefore(c: Content, s: Octets, b: bool, j: nat, p: Part, rest: Octets)
    requires Fresh(c, s) && c.depth == j - 1 && 1 <= j <= SECTIONS && PartOk(j, p) && s[c.pos..] == PartOctets(p) + rest
    ensures var o := CheckOne(c, s, b, j);
            o.verdict == DepthOk && Fresh(o.content, s) && o.content.depth == j && s[o.content.pos..] == rest
  {
    hide EitherForm, PartOctets, FieldOk, PartOk, CodeOf, TagsOf, Descriptor, CheckBody;
    PartFacts(j, p);
    Passed(s, c.pos, p, rest);
    if j == BODY { BodyPresent(c, s, b, p, rest); } else { Present(s, c.pos, p, rest, TagsOf(j), c.locs[j - 1]); }
  }

  lemma {:induction false} GapBefore(c: Content, s: Octets, b: bool, j: nat, p: Part)
    requires Fresh(c, s) && c.depth == j - 1 && 1 <= j <= SECTIONS && Descriptor(p) <= s[c.pos..] && !IsCode(j, p.code)
    ensures CheckOne(c, s, b, j) == Outcome(DepthOk, c.(depth := j))
  {
    hide EitherForm, Descriptor, CheckBody;
    SameLoc(c, j);
    if j == BODY { BodyAbsent(c, s, b, p); } else { NotAnother(s, c.pos, p, CodeOf(j), TagsOf(j), c.locs[j - 1]); }
  }

  lemma {:induction false} OwnCode(j: nat, k: nat, code: Octet)
    requires 1 <= j < k <= SECTIONS && IsCode(k, code)
    ensures !IsCode(j, code)
  {
  }

  lemma {:induction false} PartCode(k: nat, p: Part)
    requires 1 <= k <= SECTIONS && PartOk(k, p)
    ensures IsCode(k, p.code)
  {
    hide FieldOk, Primitive;
  }

  /** What comes first when section `j` is not there has the code of a later one. */
  lemma {:induction false} FirstAhead(parts: seq<Option<Part>>, j: nat, k: nat, p: Part, rest: Octets) returns (first: Part)
    requires MessageOk(parts) && 1 <= j < k <= SECTIONS && parts[j - 1].None? && IsCode(k, p.code)
    ensures !IsCode(j, first.code) && Descriptor(first) <= Lead(parts, j, k) + (PartOctets(p) + rest)
  {
    hide PartOctets, PartOk, Descriptor, Lead, IsCode;
    var i := NextAhead(parts, j, k, PartOctets(p) + rest);
    if i < k {
      first := parts[i - 1].value;
      PartCode(i, first);
      OwnCode(j, i, first.code);
      DescriptorLeads(first, Lead(parts, i + 1, k) + (PartOctets(p) + rest));
    } else {
      first := p;
      OwnCode(j, k, p.code);
      DescriptorLeads(p, rest);
    }
  }

  /** The sections before `k` are passed, and the check goes on at section `k`. */
  lemma {:induction false} Reaches(parts: seq<Option<Part>>, s: Octets, b: bool, d: nat, j: nat, c: Content, k: nat, p: Part, rest: Octets)
    returns (c': Content)
    requires MessageOk(parts) && 1 <= j <= k <= d <= SECTIONS && IsCode(k, p.code)
    requires Fresh(c, s) && c.depth == j - 1 && s[c.pos..] == Lead(parts, j, k) + (PartOctets(p) + rest)
    ensures Fresh(c', s) && c'.depth == k - 1 && s[c'.pos..] == PartOctets(p) + rest
    ensures CheckFrom(c, s, b, j, d) == CheckFrom(c', s, b, k, d)
    decreases k - j
  {
    hide PartOctets, PartOk, Descriptor, Lead, IsCode, CheckOne;
    var q := PartOctets(p) + rest;
    if j == k {
      LeadNone(parts, k, q);
      c' := c;
    } else {
      LeadHere(parts, j, k, q);
      if parts[j - 1].Some? {
        PartBefore(c, s, b, j, parts[j - 1].value, Lead(parts, j + 1, k) + q);
      } else {
        var first := FirstAhead(parts, j, k, p, rest);
        GapBefore(c, s, b, j, first);
      }
      c' := Reaches(parts, s, b, d, j + 1, CheckOne(c, s, b, j).content, k, p, rest);
    }
  }

  lemma {:induction false} LeadNone(parts: seq<Option<Part>>, k: nat, q: Octets)
    requires |parts| == SECTIONS && 1 <= k <= SECTIONS
    ensures Lead(parts, k, k) + q == q
  {
  }

  // ---------------------------------------------------------------- the message

  /** The sections before `k`, and then section `k` with a value of a wrong type, of which at least the first
      octet has arrived. A check down to section `k` or further finds the message invalid, whether it is
      complete or not. The exceptions are a value or data body: it counts as missing. */
  lemma {:induction false} WrongType(parts: seq<Option<Part>>, k: nat, p: Part, rest: Octets, b: bool, d: nat)
    requires MessageOk(parts) && 1 <= k <= d <= SECTIONS && IsCode(k, p.code) && p.field != [] && !RightType(k, p)
    ensures var s := Lead(parts, 1, k) + (PartOctets(p) + rest);
            var o := CheckMessage(Initial(), s, b, d);
            if p.code == 0x77 || p.code == 0x75 then o.verdict == DepthOk && !o.content.locs[BODY - 1].parsed
            else o.verdict == DepthInvalid
  {
    hide PartOctets, PartOk, Descriptor, Lead, CheckOne, IsCode, RightType, CheckFrom;
    var s := Lead(parts, 1, k) + (PartOctets(p) + rest);
    assert s[0..] == s;
    var c := Reaches(parts, s, b, d, 1, Initial(), k, p, rest);
    NotNothing(p);
    BodyCode(k, p.code);
    if p.code == 0x77 || p.code == 0x75 {
      WrongBody(c, s, b, p, rest);
      Onwards(c, s, b, d, p, rest);
    } else {
      WrongSection(c, s, b, k, p, rest);
      StopsThere(c, s, b, k, d);
    }
  }

  lemma {:induction false} NotNothing(p: Part)
    ensures PartOctets(p) != []
  {
    DescriptorIs(p);
  }

  lemma {:induction false} BodyCode(k: nat, code: Octet)
    requires 1 <= k <= SECTIONS && IsCode(k, code)
    ensures code == 0x75 || code == 0x76 || code == 0x77 <==> k == BODY
  {
  }

  lemma {:induction false} StopsThere(c: Content, s: Octets, b: bool, k: nat, d: nat)
    requires 1 <= k <= d <= SECTIONS && ContentOk(c, s) && CheckOne(c, s, b, k).verdict == DepthInvalid
    ensures CheckFrom(c, s, b, k, d).verdict == DepthInvalid
  {
    hide CheckDepth, CheckBody;
  }

  /** Behind a body that was passed over there is no footer either. */
  lemma {:induction false} Onwards(c: Content, s: Octets, b: bool, d: nat, p: Part, rest: Octets)
    requires Fresh(c, s) && BODY <= d <= SECTIONS && CheckOne(c, s, b, BODY) == Outcome(DepthOk, c.(depth := BODY))
    requires c.depth < BODY && s[c.pos..] == PartOctets(p) + rest && p.code != 0x78
    ensures var o := CheckFrom(c, s, b, BODY, d); o.verdict == DepthOk && !o.content.locs[BODY - 1].parsed
  {
    hide CheckOne, PartOctets, Descriptor;
    var c1 := c.(depth := BODY);
    assert CheckFrom(c, s, b, BODY, d) == CheckFrom(c1, s, b, SECTIONS, d);
    if d == SECTIONS {
      DescriptorLeads(p, rest);
      GapBefore(c1, s, b, SECTIONS, p);
      assert CheckFrom(c1, s, b, SECTIONS, d) == Outcome(DepthOk, c1.(depth := SECTIONS));
    }
  }

  /** The same in every run, with whatever checks in between. */
  lemma {:induction false} WrongTypeArriving(parts: seq<Option<Part>>, k: nat, p: Part, rest: Octets, d: nat, es: seq<Event>)
    requires MessageOk(parts) && 1 <= k <= d <= SECTIONS && IsCode(k, p.code) && p.field != [] && !RightType(k, p)
    ensures Inflow(Initial(), [], false).Valid()
    ensures var r := Run(Inflow(Initial(), [], false), es);
            r.octets == Lead(parts, 1, k) + (PartOctets(p) + rest) ==>
              (CheckMessage(r.content, r.octets, r.complete, d).verdict == DepthOk <==> p.code == 0x77 || p.code == 0x75)
  {
    hide CheckMessage, Run, Lead, PartOk, PartOctets, RightType, IsCode;
    ArrivalIrrelevant(es, d);
    var r := Run(Inflow(Initial(), [], false), es);
    if r.octets == Lead(parts, 1, k) + (PartOctets(p) + rest) { WrongType(parts, k, p, rest, r.complete, d); }
  }
}
