/** Every well-formed message is recognized: whichever of its sections are present, in whichever
    form their descriptors are written, each is found where it is. */
module Recognition {
  import opened Octets
  import opened Amqp
  import opened Parse
  import opened RoundTrip
  import opened Annotations
  import opened Seqs
  import opened Sections
  import opened Options

  /** A section on the wire: the code of its descriptor, the form of the descriptor, and the
      encoded value. */
  datatype Part = Part(code: Octet, isLong: bool, field: Octets)

  /** A descriptor is a zero octet and the code as an unsigned long, in the short or the long
      form (sections 1.2 and 1.6.6 of AMQP 1.0 Part 1, Types). */
  function Descriptor(p: Part): Octets {
    [0x00] + Encode(if p.isLong then Leaf(ULONG, Be64(p.code as int)) else Leaf(SMALLULONG, [p.code]))
  }

  lemma {:induction false} DescriptorIs(p: Part)
    ensures Descriptor(p) == if p.isLong then LongPattern(p.code) else ShortPattern(p.code)
  {
    if p.isLong {
      assert Be32(0) == [0, 0, 0, 0] && Be32(p.code as int) == [0, 0, 0, p.code];
    }
  }

  /** The codes and the types of the sections other than the body (section 3.2 of AMQP 1.0
      Part 3, Messaging): header and properties are lists, the others maps. */
  function StandardCode(k: nat): Octet {
    match k
    case 1 => 0x70
    case 2 => 0x71
    case 3 => 0x72
    case 4 => 0x73
    case 5 => 0x74
    case _ => 0x78
  }

  predicate StandardType(k: nat, tag: Octet) {
    if k == 1 || k == 4 then tag == 0x45 || tag == 0xc0 || tag == 0xd0 else tag == 0xc1 || tag == 0xd1
  }

  function PartOctets(p: Part): Octets { Descriptor(p) + p.field }

  /** The value is one whole AMQP field below 2^31 octets. */
  predicate FieldOk(field: Octets) {
    var r := ParseField(field);
    r.Ok? && r.rest == [] && r.field.size < 0x8000_0000
  }

  /** The codes of the primitive types, by the width of their values (sections 1.2 and 1.6 of AMQP 1.0
      Part 1, Types). */
  predicate Primitive(code: Octet) {
    || 0x40 <= code <= 0x45 // null, true, false, uint0, ulong0, list0
    || 0x50 <= code <= 0x56 // ubyte, byte, smalluint, smallulong, smallint, smalllong, boolean
    || 0x60 <= code <= 0x61 // ushort, short
    || 0x70 <= code <= 0x74 // uint, int, float, char, decimal32
    || 0x80 <= code <= 0x84 // ulong, long, double, timestamp, decimal64
    || code == 0x94 || code == 0x98 // decimal128, uuid
    || code == 0xa0 || code == 0xb0 // binary
    || code == 0xa1 || code == 0xb1 // string
    || code == 0xa3 || code == 0xb3 // symbol
    || code == 0xc0 || code == 0xd0 // list
    || code == 0xc1 || code == 0xd1 // map
    || code == 0xe0 || code == 0xf0 // array
  }

  /** The three kinds of body: any value, binary data, a sequence. */
  predicate BodyOk(code: Octet, tag: Octet) {
    || (code == 0x77 && Primitive(tag))
    || (code == 0x75 && (tag == 0xa0 || tag == 0xb0))
    || (code == 0x76 && (tag == 0x45 || tag == 0xc0 || tag == 0xd0))
  }

  predicate PartOk(k: nat, p: Part)
    requires 1 <= k <= SECTIONS
  {
    && p.field != [] && FieldOk(p.field)
    && (if k == BODY then BodyOk(p.code, p.field[0]) else p.code == StandardCode(k) && StandardType(k, p.field[0]))
  }

  /** The sections of a message: present or not, in order. */
  predicate MessageOk(parts: seq<Option<Part>>) {
    |parts| == SECTIONS && forall i | 0 <= i < |parts| && parts[i].Some? :: PartOk(i + 1, parts[i].value)
  }

  /** The octets from section `k` on. */
  function Wire(parts: seq<Option<Part>>, k: nat): Octets
    requires |parts| == SECTIONS && 1 <= k <= SECTIONS + 1
    decreases SECTIONS + 1 - k
  {
    if k > SECTIONS then []
    else (if parts[k - 1].Some? then PartOctets(parts[k - 1].value) else []) + Wire(parts, k + 1)
  }

  // ---------------------------------------------------------------- one section

  lemma {:induction false} CompareSame(pattern: Octets, v: Octets)
    requires v != []
    ensures Compare(pattern + v, pattern) == Match
  {
    if pattern == [] {
      assert pattern + v == v;
    } else {
      assert (pattern + v)[1..] == pattern[1..] + v && (pattern + v)[0] == pattern[0];
      CompareSame(pattern[1..], v);
    }
  }

  lemma {:induction false} CompareDiffers(u: Octets, pattern: Octets, i: nat)
    requires i < |u| && i < |pattern| && u[i] != pattern[i] && forall j | 0 <= j < i :: u[j] == pattern[j]
    ensures Compare(u, pattern) == NoMatch
  {
    if i > 0 { CompareDiffers(u[1..], pattern[1..], i - 1); }
  }

  /** The recognizer takes exactly the field. */
  lemma {:induction false} FieldTaken(field: Octets, rest: Octets)
    requires field != [] && FieldOk(field)
    ensures ExtentOf(field + rest) == Extent(true, |field|, |field|)
  {
    hide ParseField, ExtentOf;
    FieldBefore(field, rest);
    assert [] + rest == rest;
    ExtentIsField(field + rest);
  }

  /** Where a part at position `pos` lies. */
  function PartLocation(pos: nat, p: Part): Location { Location(pos, |p.field|, |Descriptor(p)|, true) }

  /** A section that is there is found. */
  lemma {:induction false} Present(s: Octets, pos: nat, p: Part, rest: Octets, tags: set<Octet>, loc: Location)
    requires pos <= |s| && s[pos..] == PartOctets(p) + rest && !loc.parsed
    requires p.field != [] && FieldOk(p.field) && p.field[0] in tags
    ensures EitherForm(s, pos, p.code, tags, loc) == SectionResult(Match, PartLocation(pos, p), pos + |PartOctets(p)|)
  {
    hide ExtentOf, FieldOk, Descriptor;
    DescriptorIs(p);
    var u, v := s[pos..], p.field + rest;
    assert u == Descriptor(p) + v;
    CompareSame(Descriptor(p), v);
    assert u[|Descriptor(p)|..] == v && v[0] == p.field[0];
    FieldTaken(p.field, rest);
    if p.isLong { CompareDiffers(u, ShortPattern(p.code), 1); }
  }

  /** A section that is not there is not found: what follows has another code. */
  lemma {:induction false} Absent(s: Octets, pos: nat, p: Part, rest: Octets, code: Octet, tags: set<Octet>, loc: Location)
    requires pos <= |s| && s[pos..] == PartOctets(p) + rest && p.code != code
    ensures EitherForm(s, pos, code, tags, loc) == SectionResult(NoMatch, loc, pos)
  {
    hide Descriptor;
    DescriptorIs(p);
    var u := s[pos..];
    assert u == Descriptor(p) + (p.field + rest);
    if p.isLong {
      CompareDiffers(u, ShortPattern(code), 1);
      CompareDiffers(u, LongPattern(code), 9);
    } else {
      CompareDiffers(u, ShortPattern(code), 2);
      CompareDiffers(u, LongPattern(code), 1);
    }
  }

  // ---------------------------------------------------------------- the whole message

  /** The first section present from `k` on. */
  lemma {:induction false} NextPart(parts: seq<Option<Part>>, k: nat) returns (j: nat)
    requires MessageOk(parts) && 1 <= k <= SECTIONS + 1 && Wire(parts, k) != []
    ensures k <= j <= SECTIONS && parts[j - 1].Some? && PartOk(j, parts[j - 1].value)
    ensures Wire(parts, k) == PartOctets(parts[j - 1].value) + Wire(parts, j + 1)
    decreases SECTIONS + 1 - k
  {
    hide PartOk, PartOctets;
    if parts[k - 1].Some? {
      j := k;
    } else {
      assert [] + Wire(parts, k + 1) == Wire(parts, k + 1);
      j := NextPart(parts, k + 1);
    }
  }

  /** What has been found when the sections below `k` have been checked. */
  predicate Found(parts: seq<Option<Part>>, s: Octets, k: nat, c: Content)
    requires |parts| == SECTIONS && 1 <= k <= SECTIONS + 1
  {
    && Fresh(c, s) && c.depth < k && s[c.pos..] == Wire(parts, k) && (Wire(parts, k) != [] ==> c.depth == k - 1)
    && (forall i | 0 <= i < k - 1 && parts[i].Some? :: c.locs[i] == PartLocation(At(parts, i + 1), parts[i].value))
    && c.pos == At(parts, k)
  }

  /** Position of section `k`. */
  function At(parts: seq<Option<Part>>, k: nat): nat
    requires |parts| == SECTIONS && 1 <= k <= SECTIONS + 1
  {
    if k == 1 then 0 else At(parts, k - 1) + if parts[k - 2].Some? then |PartOctets(parts[k - 2].value)| else 0
  }

  /** One of the sections other than the body. */
  lemma {:induction false} OptionalSection(parts: seq<Option<Part>>, s: Octets, k: nat, c: Content)
    requires MessageOk(parts) && 1 <= k <= SECTIONS && k != BODY && Found(parts, s, k, c)
    ensures var o := CheckOne(c, s, true, k); o.verdict == DepthOk && Found(parts, s, k + 1, o.content)
  {
    hide EitherForm, PartOctets, FieldOk, PartOk, CodeOf, TagsOf, Descriptor;
    var code, tags, loc := CodeOf(k), TagsOf(k), c.locs[k - 1];
    if parts[k - 1].Some? {
      var p := parts[k - 1].value;
      PartFacts(k, p);
      Present(s, c.pos, p, Wire(parts, k + 1), tags, loc);
      Passed(s, c.pos, p, Wire(parts, k + 1));
    } else {
      assert [] + Wire(parts, k + 1) == Wire(parts, k + 1);
      SameLoc(c, k);
      if Wire(parts, k) == [] {
        AtEndNeedsMore(s, code, tags, loc);
        EitherLoc(s, c.pos, code, tags, loc);
      } else {
        var j := NextPart(parts, k + 1);
        OtherCode(k, j, parts[j - 1].value);
        Absent(s, c.pos, parts[j - 1].value, Wire(parts, j + 1), code, tags, loc);
      }
    }
  }

  lemma {:induction false} PartFacts(k: nat, p: Part)
    requires 1 <= k <= SECTIONS && PartOk(k, p)
    ensures p.field != [] && FieldOk(p.field)
    ensures k != BODY ==> p.code == CodeOf(k) && p.field[0] in TagsOf(k)
    ensures k == BODY ==>
              || (p.code == 0x77 && p.field[0] in TAGS_ANY) || (p.code == 0x75 && p.field[0] in TAGS_BINARY)
              || (p.code == 0x76 && p.field[0] in TAGS_LIST)
  {
    hide FieldOk, Primitive;
    if k == BODY { PrimitiveIsTaken(p.field[0]); }
  }

  /** Every primitive type is taken as a value body. */
  lemma {:induction false} PrimitiveIsTaken(tag: Octet)
    ensures Primitive(tag) <==> tag in TAGS_ANY
  {
  }

  lemma {:induction false} Passed(s: Octets, pos: nat, p: Part, rest: Octets)
    requires pos <= |s| && s[pos..] == PartOctets(p) + rest
    ensures pos + |PartOctets(p)| <= |s| && s[pos + |PartOctets(p)|..] == rest && PartOctets(p) != []
  {
    DescriptorIs(p);
    DropTwice(s, pos, |PartOctets(p)|);
  }

  lemma {:induction false} OtherCode(k: nat, j: nat, p: Part)
    requires 1 <= k < j <= SECTIONS && PartOk(j, p)
    ensures k != BODY ==> p.code != CodeOf(k)
    ensures k == BODY ==> p.code != 0x77 && p.code != 0x75 && p.code != 0x76
  {
    hide FieldOk;
  }

  /** A body that is there is found, in whichever of its three kinds. */
  lemma {:induction false} BodyPresent(c: Content, s: Octets, b: bool, p: Part, rest: Octets)
    requires Fresh(c, s) && c.depth < BODY && PartOk(BODY, p) && s[c.pos..] == PartOctets(p) + rest
    ensures CheckBody(c, s, b)
         == Outcome(DepthOk, Content(BODY, c.pos + |PartOctets(p)|, c.locs[BODY - 1 := PartLocation(c.pos, p)]))
  {
    hide EitherForm, PartOctets, FieldOk, PartOk, Descriptor;
    var loc := c.locs[BODY - 1];
    SameLoc(c, BODY);
    PartFacts(BODY, p);
    if p.code == 0x77 {
      Present(s, c.pos, p, rest, TAGS_ANY, loc);
    } else {
      Absent(s, c.pos, p, rest, 0x77, TAGS_ANY, loc);
      if p.code == 0x75 {
        Present(s, c.pos, p, rest, TAGS_BINARY, loc);
      } else {
        Absent(s, c.pos, p, rest, 0x75, TAGS_BINARY, loc);
        Present(s, c.pos, p, rest, TAGS_LIST, loc);
      }
    }
  }

  /** One that is not there is passed over: what follows has another code. */
  lemma {:induction false} BodyAbsent(c: Content, s: Octets, b: bool, p: Part)
    requires Fresh(c, s) && c.depth < BODY && Descriptor(p) <= s[c.pos..]
    requires p.code != 0x77 && p.code != 0x75 && p.code != 0x76
    ensures CheckBody(c, s, b) == Outcome(DepthOk, c.(depth := BODY))
  {
    hide EitherForm, Descriptor;
    var loc := c.locs[BODY - 1];
    SameLoc(c, BODY);
    NotAnother(s, c.pos, p, 0x77, TAGS_ANY, loc);
    NotAnother(s, c.pos, p, 0x75, TAGS_BINARY, loc);
    NotAnother(s, c.pos, p, 0x76, TAGS_LIST, loc);
  }

  /** The body. */
  lemma {:induction false} BodySection(parts: seq<Option<Part>>, s: Octets, c: Content)
    requires MessageOk(parts) && Found(parts, s, BODY, c)
    ensures var o := CheckBody(c, s, true); o.verdict == DepthOk && Found(parts, s, BODY + 1, o.content)
  {
    hide PartOctets, PartOk, Descriptor, CheckBody, Found;
    if parts[BODY - 1].Some? { BodyHere(parts, s, c); } else { BodyGone(parts, s, c); }
  }

  lemma {:induction false} BodyHere(parts: seq<Option<Part>>, s: Octets, c: Content)
    requires MessageOk(parts) && Found(parts, s, BODY, c) && parts[BODY - 1].Some?
    ensures var o := CheckBody(c, s, true); o.verdict == DepthOk && Found(parts, s, BODY + 1, o.content)
  {
    hide CheckDepth, PartOctets, FieldOk, PartOk, Descriptor, CheckBody, Wire;
    var p, rest := parts[BODY - 1].value, Wire(parts, BODY + 1);
    WireHere(parts, BODY);
    Passed(s, c.pos, p, rest);
    BodyPresent(c, s, true, p, rest);
  }

  lemma {:induction false} BodyGone(parts: seq<Option<Part>>, s: Octets, c: Content)
    requires MessageOk(parts) && Found(parts, s, BODY, c) && parts[BODY - 1].None?
    ensures var o := CheckBody(c, s, true); o.verdict == DepthOk && Found(parts, s, BODY + 1, o.content)
  {
    hide CheckDepth, PartOctets, FieldOk, PartOk, Descriptor, CheckBody;
    assert [] + Wire(parts, BODY + 1) == Wire(parts, BODY + 1);
    if Wire(parts, BODY) == [] {
      BodyAgain(c, s);
    } else {
      var j := NextPart(parts, BODY + 1);
      OtherCode(BODY, j, parts[j - 1].value);
      DescriptorLeads(parts[j - 1].value, Wire(parts, j + 1));
      BodyAbsent(c, s, true, parts[j - 1].value);
    }
  }

  lemma {:induction false} RecognizeFrom(parts: seq<Option<Part>>, s: Octets, k: nat, c: Content)
    requires MessageOk(parts) && 1 <= k <= SECTIONS + 1 && Found(parts, s, k, c)
    ensures var o := CheckFrom(c, s, true, k, SECTIONS);
            o.verdict == DepthOk && Found(parts, s, SECTIONS + 1, o.content)
    decreases SECTIONS + 1 - k
  {
    hide CheckDepth, CheckBody, Found;
    StillOk(parts, s, k, c);
    if k <= SECTIONS {
      if k == BODY { BodySection(parts, s, c); } else { OptionalSection(parts, s, k, c); }
      StillOk(parts, s, k + 1, CheckOne(c, s, true, k).content);
      RecognizeFrom(parts, s, k + 1, CheckOne(c, s, true, k).content);
    }
  }

  lemma {:induction false} StillOk(parts: seq<Option<Part>>, s: Octets, k: nat, c: Content)
    requires |parts| == SECTIONS && 1 <= k <= SECTIONS + 1 && Found(parts, s, k, c)
    ensures ContentOk(c, s)
  {
  }

  /** A complete, non-empty message is in order, and every section that it has is found at its
      place with its length. */
  lemma {:induction false} MessageRecognized(parts: seq<Option<Part>>)
    requires MessageOk(parts) && Wire(parts, 1) != []
    ensures ContentOk(Initial(), Wire(parts, 1))
    ensures var o := CheckMessage(Initial(), Wire(parts, 1), true, SECTIONS);
            && o.verdict == DepthOk
            && forall i | 0 <= i < SECTIONS && parts[i].Some? :: o.content.locs[i] == PartLocation(At(parts, i + 1), parts[i].value)
  {
    hide CheckFrom, Wire;
    var s := Wire(parts, 1);
    assert s[0..] == s;
    RecognizeFrom(parts, s, 1, Initial());
  }

  /** The same however the message arrives and whatever is checked in between. */
  lemma {:induction false} ArrivingMessageRecognized(parts: seq<Option<Part>>, es: seq<Event>)
    requires MessageOk(parts) && Wire(parts, 1) != []
    ensures Inflow(Initial(), [], false).Valid()
    ensures var r := Run(Inflow(Initial(), [], false), es);
            r.complete && r.octets == Wire(parts, 1) ==>
              var o := CheckMessage(r.content, r.octets, true, SECTIONS);
              && o.verdict == DepthOk
              && forall i | 0 <= i < SECTIONS && parts[i].Some? :: o.content.locs[i] == PartLocation(At(parts, i + 1), parts[i].value)
  {
    hide CheckMessage, Wire, Run;
    ArrivalIrrelevant(es, SECTIONS);
    MessageRecognized(parts);
  }

  // ---------------------------------------------------------------- truncated messages

  /** The octets of sections `j` to `k - 1`. */
  function Lead(parts: seq<Option<Part>>, j: nat, k: nat): Octets
    requires |parts| == SECTIONS && 1 <= j && k <= SECTIONS + 1
    decreases k - j
  {
    if j >= k then [] else (if parts[j - 1].Some? then PartOctets(parts[j - 1].value) else []) + Lead(parts, j + 1, k)
  }

  lemma {:induction false} WireSplit(parts: seq<Option<Part>>, j: nat, k: nat)
    requires |parts| == SECTIONS && 1 <= j <= k <= SECTIONS + 1
    ensures Wire(parts, j) == Lead(parts, j, k) + Wire(parts, k) && At(parts, j) + |Lead(parts, j, k)| == At(parts, k)
    decreases k - j
  {
    hide PartOctets;
    if j == k {
      assert [] + Wire(parts, k) == Wire(parts, k);
    } else {
      WireSplit(parts, j + 1, k);
      AppendAssoc(if parts[j - 1].Some? then PartOctets(parts[j - 1].value) else [], Lead(parts, j + 1, k), Wire(parts, k));
    }
  }

  /** A section that breaks off: some of its octets, not all. */
  predicate Broken(p: Part, q: Octets) { q != [] && q < PartOctets(p) }

  lemma {:induction false} ComparePrefix(u: Octets, pattern: Octets)
    requires u <= pattern
    ensures Compare(u, pattern) == NeedMore
  {
    if u != [] { ComparePrefix(u[1..], pattern[1..]); }
  }

  /** An incomplete descriptor may be that of any section. */
  lemma {:induction false} AnyDescriptor(s: Octets, pos: nat, p: Part, code: Octet, tags: set<Octet>, loc: Location)
    requires pos < |s| && s[pos..] < Descriptor(p)
    ensures EitherForm(s, pos, code, tags, loc) == SectionResult(NeedMore, loc, pos)
  {
    hide Descriptor;
    DescriptorIs(p);
    var u := s[pos..];
    if p.isLong && |u| > 1 {
      CompareDiffers(u, ShortPattern(code), 1);
      assert u <= LongPattern(code);
      ComparePrefix(u, LongPattern(code));
    } else {
      assert u <= ShortPattern(code);
      ComparePrefix(u, ShortPattern(code));
    }
  }

  /** A value that breaks off is not whole. */
  lemma {:induction false} BrokenField(field: Octets, v: Octets)
    requires field != [] && FieldOk(field) && v != [] && v < field
    ensures !ExtentOf(v).whole
  {
    hide ExtentOf, FieldOk;
    FieldTaken(field, []);
    assert field + [] == field && v + field[|v|..] == field;
    ExtentStable(v, field[|v|..]);
    UsedWithin(v);
  }

  lemma {:induction false} UsedWithin(v: Octets)
    requires v != []
    ensures ExtentOf(v).whole ==> ExtentOf(v).used <= |v|
  {
  }

  /** Own descriptor, but the value breaks off or has not begun: more octets would be needed. */
  lemma {:induction false} BrokenValue(s: Octets, pos: nat, p: Part, tags: set<Octet>, loc: Location)
    requires pos < |s| && Descriptor(p) <= s[pos..] < PartOctets(p)
    requires !loc.parsed && p.field != [] && FieldOk(p.field) && p.field[0] in tags
    ensures var r := EitherForm(s, pos, p.code, tags, loc); r.status == NeedMore && !r.loc.parsed
  {
    hide ExtentOf, FieldOk, Descriptor;
    DescriptorIs(p);
    var u := s[pos..];
    var v := u[|Descriptor(p)|..];
    assert u == Descriptor(p) + v && v < p.field;
    if v == [] {
      assert u == Descriptor(p);
      ComparePrefix(u, Descriptor(p));
    } else {
      CompareSame(Descriptor(p), v);
      BrokenField(p.field, v);
    }
    if p.isLong { CompareDiffers(u, ShortPattern(p.code), 1); }
  }

  /** With a whole descriptor the section is not taken for another. */
  lemma {:induction false} NotAnother(s: Octets, pos: nat, p: Part, code: Octet, tags: set<Octet>, loc: Location)
    requires pos <= |s| && Descriptor(p) <= s[pos..] && p.code != code
    ensures EitherForm(s, pos, code, tags, loc) == SectionResult(NoMatch, loc, pos)
  {
    hide EitherForm, Descriptor;
    var v := s[pos..][|Descriptor(p)|..];
    var p' := p.(field := v);
    DescriptorIs(p);
    DescriptorIs(p');
    assert s[pos..] == PartOctets(p') + [];
    Absent(s, pos, p', [], code, tags, loc);
  }

  /** A complete message that breaks off within a descriptor is invalid. */
  lemma {:induction false} BrokenDescriptor(c: Content, s: Octets, j: nat, p: Part)
    requires Fresh(c, s) && c.depth < j <= SECTIONS && c.pos < |s| && s[c.pos..] < Descriptor(p)
    ensures CheckOne(c, s, true, j).verdict == DepthInvalid
  {
    hide EitherForm, Descriptor;
    SameLoc(c, j);
    var loc := c.locs[j - 1];
    if j == BODY {
      AnyDescriptor(s, c.pos, p, 0x77, TAGS_ANY, loc);
      AnyDescriptor(s, c.pos, p, 0x75, TAGS_BINARY, loc);
      AnyDescriptor(s, c.pos, p, 0x76, TAGS_LIST, loc);
    } else {
      AnyDescriptor(s, c.pos, p, CodeOf(j), TagsOf(j), loc);
    }
  }

  /** So is one that breaks off within the value of a section other than the body. */
  lemma {:induction false} BrokenSection(c: Content, s: Octets, k: nat, p: Part)
    requires Fresh(c, s) && c.depth < k <= SECTIONS && k != BODY && PartOk(k, p)
    requires c.pos < |s| && Descriptor(p) <= s[c.pos..] < PartOctets(p)
    ensures CheckOne(c, s, true, k).verdict == DepthInvalid
  {
    hide EitherForm, Descriptor, PartOctets, PartOk, FieldOk, CodeOf, TagsOf;
    PartFacts(k, p);
    BrokenValue(s, c.pos, p, TagsOf(k), c.locs[k - 1]);
  }

  /** A value or data body that breaks off counts as missing, which is allowed: it is passed over
      without being marked as parsed. A sequence body is the last form tried, and there the
      missing octets are noticed. */
  lemma {:induction false} BrokenBody(c: Content, s: Octets, p: Part)
    requires Fresh(c, s) && c.depth < BODY && PartOk(BODY, p)
    requires c.pos < |s| && Descriptor(p) <= s[c.pos..] < PartOctets(p)
    ensures var o := CheckBody(c, s, true);
            if p.code == 0x76 then o.verdict == DepthInvalid
            else o.verdict == DepthOk && o.content.depth == BODY && o.content.pos == c.pos && Fresh(o.content, s)
                 && !o.content.locs[BODY - 1].parsed
  {
    hide EitherForm, Descriptor, PartOctets, PartOk, FieldOk;
    PartFacts(BODY, p);
    SameLoc(c, BODY);
    var loc := c.locs[BODY - 1];
    if p.code == 0x77 {
      BrokenValue(s, c.pos, p, TAGS_ANY, loc);
      var l := EitherForm(s, c.pos, 0x77, TAGS_ANY, loc).loc;
      NotAnother(s, c.pos, p, 0x75, TAGS_BINARY, l);
      NotAnother(s, c.pos, p, 0x76, TAGS_LIST, l);
      PutTwice(c, BODY, l, l);
    } else {
      NotAnother(s, c.pos, p, 0x77, TAGS_ANY, loc);
      if p.code == 0x75 {
        BrokenValue(s, c.pos, p, TAGS_BINARY, loc);
        var l := EitherForm(s, c.pos, 0x75, TAGS_BINARY, loc).loc;
        NotAnother(s, c.pos, p, 0x76, TAGS_LIST, l);
        PutTwice(c, BODY, l, l);
      } else {
        NotAnother(s, c.pos, p, 0x75, TAGS_BINARY, loc);
        BrokenValue(s, c.pos, p, TAGS_LIST, loc);
      }
    }
  }

  /** Sections `j` to `k - 1` lie ahead as they should, and then the beginning of section `k`. */
  predicate Ahead(parts: seq<Option<Part>>, s: Octets, j: nat, c: Content, k: nat, q: Octets)
    requires |parts| == SECTIONS && 1 <= j && k <= SECTIONS
  {
    Fresh(c, s) && c.depth == j - 1 && c.pos < |s| && s[c.pos..] == Lead(parts, j, k) + q
  }

  /** Can the section that breaks off be passed over? */
  predicate PassedOver(k: nat, p: Part, q: Octets) {
    k == BODY && (p.code == 0x77 || p.code == 0x75) && |q| >= |Descriptor(p)|
  }

  /** What comes next when section `j` is not there: a later section, or the one that breaks off. */
  lemma {:induction false} NextAhead(parts: seq<Option<Part>>, j: nat, k: nat, q: Octets) returns (i: nat)
    requires MessageOk(parts) && 1 <= j <= k <= SECTIONS
    ensures j <= i <= k && (i < k ==> parts[i - 1].Some? && PartOk(i, parts[i - 1].value))
    ensures Lead(parts, j, k) + q == if i < k then PartOctets(parts[i - 1].value) + (Lead(parts, i + 1, k) + q) else q
    decreases k - j
  {
    hide PartOk, PartOctets;
    if j == k {
      assert [] + q == q;
      i := k;
    } else if parts[j - 1].Some? {
      AppendAssoc(PartOctets(parts[j - 1].value), Lead(parts, j + 1, k), q);
      i := j;
    } else {
      assert [] + Lead(parts, j + 1, k) == Lead(parts, j + 1, k);
      i := NextAhead(parts, j + 1, k, q);
    }
  }

  /** A section that is there, before the break. */
  lemma {:induction false} PartAhead(parts: seq<Option<Part>>, s: Octets, j: nat, c: Content, k: nat, q: Octets)
    requires MessageOk(parts) && 1 <= j < k <= SECTIONS && q != [] && parts[j - 1].Some? && Ahead(parts, s, j, c, k, q)
    ensures var o := CheckOne(c, s, true, j); o.verdict == DepthOk && Ahead(parts, s, j + 1, o.content, k, q)
  {
    hide EitherForm, PartOctets, FieldOk, PartOk, CodeOf, TagsOf, Descriptor, Lead, CheckBody;
    var p, rest := parts[j - 1].value, Lead(parts, j + 1, k) + q;
    LeadHere(parts, j, k, q);
    PartFacts(j, p);
    Passed(s, c.pos, p, rest);
    if j == BODY { BodyPresent(c, s, true, p, rest); } else { Present(s, c.pos, p, rest, TagsOf(j), c.locs[j - 1]); }
  }

  lemma {:induction false} LeadHere(parts: seq<Option<Part>>, j: nat, k: nat, q: Octets)
    requires |parts| == SECTIONS && 1 <= j < k <= SECTIONS
    ensures Lead(parts, j, k) + q ==
            if parts[j - 1].Some? then PartOctets(parts[j - 1].value) + (Lead(parts, j + 1, k) + q) else Lead(parts, j + 1, k) + q
  {
    hide PartOctets;
  }

  /** A section that is not there, while what comes next has a whole descriptor. */
  lemma {:induction false} GapAhead(parts: seq<Option<Part>>, s: Octets, j: nat, c: Content, k: nat, q: Octets, i: nat, p: Part)
    requires MessageOk(parts) && 1 <= j < k <= SECTIONS && parts[j - 1] == None && Ahead(parts, s, j, c, k, q)
    requires j < i <= SECTIONS && PartOk(i, p) && Descriptor(p) <= s[c.pos..]
    ensures var o := CheckOne(c, s, true, j); o.verdict == DepthOk && Ahead(parts, s, j + 1, o.content, k, q)
  {
    hide EitherForm, PartOctets, FieldOk, PartOk, CodeOf, TagsOf, Descriptor, Lead, CheckBody;
    LeadHere(parts, j, k, q);
    OtherCode(j, i, p);
    SameLoc(c, j);
    if j == BODY { BodyAbsent(c, s, true, p); } else { NotAnother(s, c.pos, p, CodeOf(j), TagsOf(j), c.locs[j - 1]); }
  }

  /** The section that breaks off, with its whole descriptor there, and what is checked after it. */
  lemma {:induction false} AtTheBreak(parts: seq<Option<Part>>, s: Octets, c: Content, k: nat, q: Octets)
    requires MessageOk(parts) && 1 <= k <= SECTIONS && parts[k - 1].Some? && Broken(parts[k - 1].value, q)
    requires Ahead(parts, s, k, c, k, q) && Descriptor(parts[k - 1].value) <= q
    ensures var o := CheckFrom(c, s, true, k, SECTIONS);
            && o.verdict == (if PassedOver(k, parts[k - 1].value, q) then DepthOk else DepthInvalid)
            && (PassedOver(k, parts[k - 1].value, q) ==> !o.content.locs[BODY - 1].parsed)
  {
    hide EitherForm, PartOctets, FieldOk, PartOk, CodeOf, TagsOf, Descriptor, CheckBody, CheckDepth;
    var p := parts[k - 1].value;
    assert [] + q == q;
    if k != BODY {
      BrokenSection(c, s, k, p);
    } else {
      PartFacts(BODY, p);
      BrokenBody(c, s, p);
      if p.code != 0x76 {
        var c' := CheckBody(c, s, true).content;
        NoFooter(c', s, p);
        FromBody(c, s, c');
      }
    }
  }

  lemma {:induction false} NoFooter(c: Content, s: Octets, p: Part)
    requires Fresh(c, s) && c.depth == BODY && c.pos < |s| && Descriptor(p) <= s[c.pos..] && p.code != 0x78
    ensures CheckOne(c, s, true, SECTIONS) == Outcome(DepthOk, c.(depth := SECTIONS))
  {
    hide EitherForm, Descriptor;
    SameLoc(c, SECTIONS);
    NotAnother(s, c.pos, p, 0x78, TagsOf(SECTIONS), c.locs[SECTIONS - 1]);
  }

  lemma {:induction false} FromBody(c: Content, s: Octets, c': Content)
    requires ContentOk(c, s) && CheckBody(c, s, true) == Outcome(DepthOk, c')
    requires CheckOne(c', s, true, SECTIONS).verdict == DepthOk
    ensures CheckFrom(c, s, true, BODY, SECTIONS) == CheckOne(c', s, true, SECTIONS)
  {
    hide CheckBody, CheckDepth;
    var o := CheckOne(c', s, true, SECTIONS);
    assert CheckFrom(o.content, s, true, SECTIONS + 1, SECTIONS) == Outcome(DepthOk, o.content);
    assert CheckFrom(c', s, true, SECTIONS, SECTIONS) == o;
  }

  lemma {:induction false} TruncatedFrom(parts: seq<Option<Part>>, s: Octets, j: nat, c: Content, k: nat, q: Octets)
    requires MessageOk(parts) && 1 <= j <= k <= SECTIONS && parts[k - 1].Some? && Broken(parts[k - 1].value, q)
    requires Ahead(parts, s, j, c, k, q)
    ensures var o := CheckFrom(c, s, true, j, SECTIONS);
            && o.verdict == (if PassedOver(k, parts[k - 1].value, q) then DepthOk else DepthInvalid)
            && (PassedOver(k, parts[k - 1].value, q) ==> !o.content.locs[BODY - 1].parsed)
    decreases k - j
  {
    hide EitherForm, PartOctets, FieldOk, PartOk, CheckOne, Ahead, Descriptor, CheckFrom;
    var p := parts[k - 1].value;
    AheadOk(parts, s, j, c, k, q);
    if j < k && parts[j - 1].Some? {
      PartAhead(parts, s, j, c, k, q);
      OneMore(c, s, j);
      TruncatedFrom(parts, s, j + 1, CheckOne(c, s, true, j).content, k, q);
    } else {
      var i := NextAhead(parts, j, k, q);
      if i == k && !(Descriptor(p) <= q) {
        DescriptorFirst(p, q);
        BrokenDescriptor(c, s, j, p);
        StopHere(c, s, j);
      } else if j == k {
        AtTheBreak(parts, s, c, k, q);
      } else {
        var p' := parts[i - 1].value;
        if i < k { DescriptorLeads(p', Lead(parts, i + 1, k) + q); }
        GapAhead(parts, s, j, c, k, q, i, p');
        OneMore(c, s, j);
        TruncatedFrom(parts, s, j + 1, CheckOne(c, s, true, j).content, k, q);
      }
    }
  }

  lemma {:induction false} AheadOk(parts: seq<Option<Part>>, s: Octets, j: nat, c: Content, k: nat, q: Octets)
    requires |parts| == SECTIONS && 1 <= j && k <= SECTIONS && Ahead(parts, s, j, c, k, q)
    ensures Fresh(c, s) && ContentOk(c, s) && c.depth == j - 1 && c.pos < |s| && s[c.pos..] == Lead(parts, j, k) + q
  {
  }

  lemma {:induction false} OneMore(c: Content, s: Octets, j: nat)
    requires 1 <= j <= SECTIONS && ContentOk(c, s) && CheckOne(c, s, true, j).verdict == DepthOk
    ensures ContentOk(CheckOne(c, s, true, j).content, s)
    ensures CheckFrom(c, s, true, j, SECTIONS) == CheckFrom(CheckOne(c, s, true, j).content, s, true, j + 1, SECTIONS)
  {
    hide CheckDepth, CheckBody;
  }

  lemma {:induction false} StopHere(c: Content, s: Octets, j: nat)
    requires 1 <= j <= SECTIONS && ContentOk(c, s) && CheckOne(c, s, true, j).verdict == DepthInvalid
    ensures CheckFrom(c, s, true, j, SECTIONS).verdict == DepthInvalid
  {
    hide CheckDepth, CheckBody;
  }

  lemma {:induction false} DescriptorFirst(p: Part, q: Octets)
    requires Broken(p, q) && !(Descriptor(p) <= q)
    ensures q < Descriptor(p)
  {
    hide Descriptor;
  }

  lemma {:induction false} DescriptorLeads(p: Part, rest: Octets)
    ensures Descriptor(p) <= PartOctets(p) + rest
  {
    hide Descriptor;
  }

  /** A complete message that breaks off within section `k` is accepted if and only if that is a
      value or data body whose descriptor is whole; it is then as if the message had no body. Every
      other truncation is found out. */
  lemma {:induction false} TruncatedMessage(parts: seq<Option<Part>>, k: nat, n: nat)
    requires MessageOk(parts) && 1 <= k <= SECTIONS && parts[k - 1].Some?
    requires At(parts, k) < n < At(parts, k) + |PartOctets(parts[k - 1].value)|
    ensures n < |Wire(parts, 1)|
    ensures var p := parts[k - 1].value;
            var o := CheckMessage(Initial(), Wire(parts, 1)[..n], true, SECTIONS);
            && (o.verdict == DepthOk <==>
                  k == BODY && (p.code == 0x77 || p.code == 0x75) && n - At(parts, k) >= |Descriptor(p)|)
            && (o.verdict != DepthOk ==> o.verdict == DepthInvalid)
            && (o.verdict == DepthOk ==> !o.content.locs[BODY - 1].parsed)
  {
    hide CheckFrom, Lead, PartOctets, Wire, PartOk, Descriptor, At;
    var p := parts[k - 1].value;
    var q := PartOctets(p)[..n - At(parts, k)];
    WireSplit(parts, 1, k);
    WireHere(parts, k);
    AtFirst(parts);
    CutInside(Lead(parts, 1, k), PartOctets(p), Wire(parts, k + 1), n - At(parts, k));
    var s := Wire(parts, 1)[..n];
    assert s[0..] == s;
    TruncatedFrom(parts, s, 1, Initial(), k, q);
  }

  lemma {:induction false} WireHere(parts: seq<Option<Part>>, k: nat)
    requires |parts| == SECTIONS && 1 <= k <= SECTIONS && parts[k - 1].Some?
    ensures Wire(parts, k) == PartOctets(parts[k - 1].value) + Wire(parts, k + 1)
  {
    hide PartOctets;
  }

  lemma {:induction false} AtFirst(parts: seq<Option<Part>>)
    requires |parts| == SECTIONS
    ensures At(parts, 1) == 0
  {
  }

  lemma {:induction false} CutInside(a: Octets, b: Octets, c: Octets, m: nat)
    requires m < |b|
    ensures (a + (b + c))[..|a| + m] == a + b[..m] && b[..m] < b
  {
  }

  /** The same however the truncated message arrives and whatever is checked in between. */
  lemma {:induction false} ArrivingTruncation(parts: seq<Option<Part>>, k: nat, n: nat, es: seq<Event>)
    requires MessageOk(parts) && 1 <= k <= SECTIONS && parts[k - 1].Some?
    requires At(parts, k) < n < At(parts, k) + |PartOctets(parts[k - 1].value)|
    ensures n < |Wire(parts, 1)| && Inflow(Initial(), [], false).Valid()
    ensures var p := parts[k - 1].value;
            var r := Run(Inflow(Initial(), [], false), es);
            r.complete && r.octets == Wire(parts, 1)[..n] ==>
              (CheckMessage(r.content, r.octets, true, SECTIONS).verdict == DepthOk <==>
                 k == BODY && (p.code == 0x77 || p.code == 0x75) && n - At(parts, k) >= |Descriptor(p)|)
  {
    hide CheckMessage, Wire, Run, PartOk, PartOctets, Descriptor, At;
    ArrivalIrrelevant(es, SECTIONS);
    TruncatedMessage(parts, k, n);
  }

  // ---------------------------------------------------------------- bodies of several sections

  /** A body may go on with more sections of its kind (section 3.2 of AMQP 1.0 Part 3, Messaging). */
  function Rest(more: seq<Part>): Octets { if more == [] then [] else PartOctets(more[0]) + Rest(more[1..]) }

  /** The octets of a message whose body goes on with `more`. */
  function LongWire(parts: seq<Option<Part>>, more: seq<Part>): Octets
    requires |parts| == SECTIONS
  {
    Lead(parts, 1, SECTIONS) + (Rest(more) + Wire(parts, SECTIONS))
  }

  /** Everything up to the end of the first body section has been found. */
  predicate FoundBody(parts: seq<Option<Part>>, j: nat, c: Content)
    requires |parts| == SECTIONS && j <= SECTIONS
  {
    |c.locs| == SECTIONS && forall i | 0 <= i < j - 1 && parts[i].Some? :: c.locs[i] == PartLocation(At(parts, i + 1), parts[i].value)
  }

  /** One more section up to the body, whatever comes behind it. */
  lemma {:induction false} StepToBody(parts: seq<Option<Part>>, s: Octets, j: nat, c: Content, q: Octets)
    requires MessageOk(parts) && 1 <= j < SECTIONS && q != [] && parts[BODY - 1].Some? && Ahead(parts, s, j, c, SECTIONS, q)
    requires FoundBody(parts, j, c) && c.pos == At(parts, j)
    ensures var o := CheckOne(c, s, true, j);
            && o.verdict == DepthOk && Ahead(parts, s, j + 1, o.content, SECTIONS, q)
            && FoundBody(parts, j + 1, o.content) && o.content.pos == At(parts, j + 1)
  {
    hide EitherForm, PartOctets, FieldOk, PartOk, CodeOf, TagsOf, Descriptor, Lead, CheckBody, CheckDepth, Ahead;
    AheadOk(parts, s, j, c, SECTIONS, q);
    if parts[j - 1].Some? {
      PartAhead(parts, s, j, c, SECTIONS, q);
      PartLocated(parts, s, j, c, q);
    } else {
      var i := NextAhead(parts, j, SECTIONS, q);
      BodyIsNext(parts, j, q, i);
      DescriptorLeads(parts[i - 1].value, Lead(parts, i + 1, SECTIONS) + q);
      GapAhead(parts, s, j, c, SECTIONS, q, i, parts[i - 1].value);
      GapLocated(parts, s, j, c, i);
    }
  }

  lemma {:induction false} PartLocated(parts: seq<Option<Part>>, s: Octets, j: nat, c: Content, q: Octets)
    requires MessageOk(parts) && 1 <= j < SECTIONS && parts[j - 1].Some? && Fresh(c, s) && c.depth < j
    requires s[c.pos..] == Lead(parts, j, SECTIONS) + q
    ensures var o, p := CheckOne(c, s, true, j), parts[j - 1].value;
            o.content.pos == c.pos + |PartOctets(p)| && o.content.locs == c.locs[j - 1 := PartLocation(c.pos, p)]
  {
    hide EitherForm, PartOctets, FieldOk, PartOk, CodeOf, TagsOf, Descriptor, Lead, CheckBody;
    var p, rest := parts[j - 1].value, Lead(parts, j + 1, SECTIONS) + q;
    LeadHere(parts, j, SECTIONS, q);
    PartFacts(j, p);
    if j == BODY { BodyPresent(c, s, true, p, rest); } else { Present(s, c.pos, p, rest, TagsOf(j), c.locs[j - 1]); }
  }

  lemma {:induction false} GapLocated(parts: seq<Option<Part>>, s: Octets, j: nat, c: Content, i: nat)
    requires MessageOk(parts) && 1 <= j < BODY && Fresh(c, s) && c.depth < j < i <= SECTIONS
    requires parts[i - 1].Some? && PartOk(i, parts[i - 1].value) && Descriptor(parts[i - 1].value) <= s[c.pos..]
    ensures var o := CheckOne(c, s, true, j); o.content.pos == c.pos && o.content.locs == c.locs
  {
    hide EitherForm, PartOctets, FieldOk, PartOk, CodeOf, TagsOf, Descriptor;
    var p := parts[i - 1].value;
    OtherCode(j, i, p);
    SameLoc(c, j);
    NotAnother(s, c.pos, p, CodeOf(j), TagsOf(j), c.locs[j - 1]);
  }

  /** With a body there, a gap before it is followed by some section. */
  lemma {:induction false} BodyIsNext(parts: seq<Option<Part>>, j: nat, q: Octets, i: nat)
    requires MessageOk(parts) && 1 <= j < SECTIONS && parts[BODY - 1].Some? && parts[j - 1] == None && j <= i <= SECTIONS
    requires i < SECTIONS ==> parts[i - 1].Some?
    requires Lead(parts, j, SECTIONS) + q == if i < SECTIONS then PartOctets(parts[i - 1].value) + (Lead(parts, i + 1, SECTIONS) + q) else q
    ensures j < i < SECTIONS && j < BODY
  {
    hide PartOctets, PartOk;
    LeadNotEmpty(parts, j);
  }

  lemma {:induction false} LeadNotEmpty(parts: seq<Option<Part>>, j: nat)
    requires |parts| == SECTIONS && 1 <= j <= BODY && parts[BODY - 1].Some?
    ensures |Lead(parts, j, SECTIONS)| > 0
    decreases BODY - j
  {
    hide Descriptor;
    if j < BODY { LeadNotEmpty(parts, j + 1); } else { DescriptorIs(parts[BODY - 1].value); }
  }

  lemma {:induction false} WalkToBody(parts: seq<Option<Part>>, s: Octets, j: nat, c: Content, q: Octets) returns (c': Content)
    requires MessageOk(parts) && 1 <= j <= SECTIONS && q != [] && parts[BODY - 1].Some? && Ahead(parts, s, j, c, SECTIONS, q)
    requires FoundBody(parts, j, c) && c.pos == At(parts, j)
    ensures Ahead(parts, s, SECTIONS, c', SECTIONS, q) && FoundBody(parts, SECTIONS, c') && c'.pos == At(parts, SECTIONS)
    ensures ContentOk(c, s) && ContentOk(c', s)
    ensures CheckFrom(c, s, true, j, SECTIONS) == CheckFrom(c', s, true, SECTIONS, SECTIONS)
    decreases SECTIONS - j
  {
    hide Ahead, CheckOne, CheckFrom, FoundBody, PartOk;
    AheadOk(parts, s, j, c, SECTIONS, q);
    if j == SECTIONS {
      c' := c;
    } else {
      StepToBody(parts, s, j, c, q);
      OneMore(c, s, j);
      c' := WalkToBody(parts, s, j + 1, CheckOne(c, s, true, j).content, q);
    }
  }

  /** In order if and only if the descriptor of `next`, behind the first section of the body, is there; then
      all sections up to that first one are found, and a footer is not. */
  predicate UpToFirst(parts: seq<Option<Part>>, next: Part, n: nat, o: Outcome)
    requires |parts| == SECTIONS
  {
    && (o.verdict == DepthOk <==> n - At(parts, SECTIONS) >= |Descriptor(next)|)
    && (o.verdict != DepthOk ==> o.verdict == DepthInvalid)
    && |o.content.locs| == SECTIONS
    && (o.verdict == DepthOk ==> !o.content.locs[SECTIONS - 1].parsed)
    && (o.verdict == DepthOk ==>
          forall i | 0 <= i < BODY && parts[i].Some? :: o.content.locs[i] == PartLocation(At(parts, i + 1), parts[i].value))
  }

  /** A complete message whose body has several sections, or any part of it that reaches beyond the first of
      them: it is in order if and only if at least the descriptor of the second is there. All sections up to
      the first of the body are found, the others are passed over, and a footer is not found. */
  lemma {:induction false} SeveralBodySections(parts: seq<Option<Part>>, more: seq<Part>, n: nat)
    requires MessageOk(parts) && parts[BODY - 1].Some? && more != [] && forall i | 0 <= i < |more| :: PartOk(BODY, more[i])
    requires At(parts, SECTIONS) < n <= |LongWire(parts, more)|
    ensures ContentOk(Initial(), LongWire(parts, more)[..n])
    ensures UpToFirst(parts, more[0], n, CheckMessage(Initial(), LongWire(parts, more)[..n], true, SECTIONS))
  {
    hide CheckFrom, Lead, PartOctets, Wire, Descriptor, At, Rest, CheckOne, PartOk;
    var lead, tail := Lead(parts, 1, SECTIONS), Rest(more) + Wire(parts, SECTIONS);
    WireSplit(parts, 1, SECTIONS);
    AtFirst(parts);
    var q := tail[..n - |lead|];
    var s := LongWire(parts, more)[..n];
    CutBehind(lead, tail, n);
    assert s[0..] == s;
    var c := WalkToBody(parts, s, 1, Initial(), q);
    FirstOfMore(parts, more, q);
    AheadOk(parts, s, SECTIONS, c, SECTIONS, q);
    NoLead(parts, q);
    SecondSection(parts, s, c, q, more[0]);
  }

  lemma {:induction false} CutBehind(a: Octets, b: Octets, n: nat)
    requires |a| <= n <= |a| + |b|
    ensures (a + b)[..n] == a + b[..n - |a|]
  {
  }

  lemma {:induction false} NoLead(parts: seq<Option<Part>>, q: Octets)
    requires |parts| == SECTIONS
    ensures Lead(parts, SECTIONS, SECTIONS) + q == q
  {
  }

  /** What is there of the second section begins with its descriptor, or is a part of that. */
  lemma {:induction false} FirstOfMore(parts: seq<Option<Part>>, more: seq<Part>, q: Octets)
    requires |parts| == SECTIONS && more != [] && q <= Rest(more) + Wire(parts, SECTIONS)
    ensures if |q| >= |Descriptor(more[0])| then Descriptor(more[0]) <= q else q < Descriptor(more[0])
  {
    hide Descriptor, Wire;
    var d := Descriptor(more[0]);
    var x := more[0].field + (Rest(more[1..]) + Wire(parts, SECTIONS));
    assert Rest(more) + Wire(parts, SECTIONS) == d + x;
  }

  lemma {:induction false} SecondSection(parts: seq<Option<Part>>, s: Octets, c: Content, q: Octets, p: Part)
    requires MessageOk(parts) && Fresh(c, s) && c.depth == BODY && c.pos < |s| && s[c.pos..] == q && PartOk(BODY, p)
    requires if |q| >= |Descriptor(p)| then Descriptor(p) <= q else q < Descriptor(p)
    ensures var o := CheckFrom(c, s, true, SECTIONS, SECTIONS);
            if |q| >= |Descriptor(p)| then o == Outcome(DepthOk, c.(depth := SECTIONS)) else o.verdict == DepthInvalid
  {
    hide Descriptor, CheckOne, PartOk;
    if |q| >= |Descriptor(p)| {
      PartFacts(BODY, p);
      NoFooter(c, s, p);
      assert CheckFrom(c.(depth := SECTIONS), s, true, SECTIONS + 1, SECTIONS) == Outcome(DepthOk, c.(depth := SECTIONS));
    } else {
      BrokenDescriptor(c, s, SECTIONS, p);
      StopHere(c, s, SECTIONS);
    }
  }
}
