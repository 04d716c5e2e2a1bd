/** A message that is still arriving: how much of it has to be there for a section to be found, or
    found missing.
 */
module Arriving {
  import opened Octets
  import opened Amqp
  import opened Parse
  import opened Seqs
  import opened Options
  import opened Sections
  import opened Recognition

  // ---------------------------------------------------------------- how much is enough

  /** The first section present from `k` on; `SECTIONS + 1` if there is none. */
  function Following(parts: seq<Option<Part>>, k: nat): (j: nat)
    requires |parts| == SECTIONS && 1 <= k <= SECTIONS + 1
    ensures k <= j <= SECTIONS + 1 && (j <= SECTIONS ==> parts[j - 1].Some?) && forall i | k - 1 <= i < j - 1 :: parts[i].None?
    decreases SECTIONS + 1 - k
  {
    if k > SECTIONS || parts[k - 1].Some? then k else Following(parts, k + 1)
  }

  /** The number of octets that decide section `k`: all of a section that is there, the descriptor of
      what follows one that is not. A missing section with nothing behind it stays undecided. */
  predicate Enough(parts: seq<Option<Part>>, k: nat, n: nat)
    requires |parts| == SECTIONS && 1 <= k <= SECTIONS
  {
    var j := Following(parts, k);
    if j > SECTIONS then false
    else if j == k then n >= At(parts, k) + |PartOctets(parts[k - 1].value)|
    else n >= At(parts, k) + |Descriptor(parts[j - 1].value)|
  }

  // ---------------------------------------------------------------- one section

  /** The sections below `j` have been decided; `s` is what there is of the message. */
  predicate UpTo(parts: seq<Option<Part>>, s: Octets, j: nat, c: Content)
    requires |parts| == SECTIONS && 1 <= j <= SECTIONS + 1
  {
    && Fresh(c, s) && c.depth == j - 1 && c.pos == At(parts, j)
    && s[c.pos..] <= Wire(parts, j)
    && forall i | 0 <= i < j - 1 && parts[i].Some? :: c.locs[i] == PartLocation(At(parts, i + 1), parts[i].value)
  }

  lemma {:induction false} WireEnd(parts: seq<Option<Part>>)
    requires |parts| == SECTIONS
    ensures Wire(parts, SECTIONS + 1) == []
  {
  }

  lemma {:induction false} WireGap(parts: seq<Option<Part>>, k: nat)
    requires |parts| == SECTIONS && 1 <= k <= SECTIONS && parts[k - 1].None?
    ensures Wire(parts, k) == Wire(parts, k + 1)
  {
    hide PartOctets;
    assert [] + Wire(parts, k + 1) == Wire(parts, k + 1);
  }

  lemma {:induction false} WireFollowing(parts: seq<Option<Part>>, k: nat)
    requires |parts| == SECTIONS && 1 <= k <= SECTIONS + 1
    ensures var j := Following(parts, k);
            Wire(parts, k) == if j > SECTIONS then [] else PartOctets(parts[j - 1].value) + Wire(parts, j + 1)
    decreases SECTIONS + 1 - k
  {
    hide PartOctets, Wire;
    if k > SECTIONS {
      WireEnd(parts);
    } else if parts[k - 1].None? {
      WireGap(parts, k);
      WireFollowing(parts, k + 1);
    } else {
      WireHere(parts, k);
    }
  }

  /** Nothing more has arrived. */
  lemma {:induction false} NoOctets(c: Content, s: Octets, k: nat)
    requires Fresh(c, s) && c.depth < k <= SECTIONS && c.pos == |s|
    ensures CheckOne(c, s, false, k).verdict == DepthIncomplete
  {
    hide EitherForm;
    if k == BODY {
      AtEndNeedsMore(s, 0x77, TAGS_ANY, c.locs[k - 1]);
    } else {
      AtEndNeedsMore(s, CodeOf(k), TagsOf(k), c.locs[k - 1]);
    }
  }

  /** Only a part of a descriptor has. */
  lemma {:induction false} PartOfDescriptor(c: Content, s: Octets, k: nat, p: Part)
    requires Fresh(c, s) && c.depth < k <= SECTIONS && c.pos < |s| && s[c.pos..] < Descriptor(p)
    ensures CheckOne(c, s, false, k).verdict == DepthIncomplete
  {
    hide EitherForm, Descriptor;
    if k == BODY {
      AnyDescriptor(s, c.pos, p, 0x77, TAGS_ANY, c.locs[k - 1]);
    } else {
      AnyDescriptor(s, c.pos, p, CodeOf(k), TagsOf(k), c.locs[k - 1]);
    }
  }

  /** The section has begun. */
  lemma {:induction false} PartOfSection(c: Content, s: Octets, k: nat, p: Part)
    requires Fresh(c, s) && c.depth < k <= SECTIONS && PartOk(k, p)
    requires c.pos < |s| && Descriptor(p) <= s[c.pos..] < PartOctets(p)
    ensures CheckOne(c, s, false, k).verdict == DepthIncomplete
  {
    hide EitherForm, Descriptor, PartOctets, PartOk, FieldOk, CodeOf, TagsOf;
    PartFacts(k, p);
    var loc := c.locs[k - 1];
    if k != BODY {
      BrokenValue(s, c.pos, p, TagsOf(k), loc);
    } else {
      SameLoc(c, BODY);
      if p.code == 0x77 {
        BrokenValue(s, c.pos, p, TAGS_ANY, loc);
      } else {
        NotAnother(s, c.pos, p, 0x77, TAGS_ANY, loc);
        if p.code == 0x75 {
          BrokenValue(s, c.pos, p, TAGS_BINARY, loc);
        } else {
          NotAnother(s, c.pos, p, 0x75, TAGS_BINARY, loc);
          BrokenValue(s, c.pos, p, TAGS_LIST, loc);
        }
      }
    }
  }

  /** The whole section is there. */
  lemma {:induction false} WholeSection(c: Content, s: Octets, k: nat, p: Part, rest: Octets)
    requires Fresh(c, s) && c.depth < k <= SECTIONS && PartOk(k, p) && s[c.pos..] == PartOctets(p) + rest
    ensures CheckOne(c, s, false, k)
         == Outcome(DepthOk, Content(k, c.pos + |PartOctets(p)|, c.locs[k - 1 := PartLocation(c.pos, p)]))
  {
    hide EitherForm, Descriptor, PartOctets, PartOk, FieldOk, CodeOf, TagsOf, CheckBody;
    PartFacts(k, p);
    if k == BODY { BodyPresent(c, s, false, p, rest); } else { Present(s, c.pos, p, rest, TagsOf(k), c.locs[k - 1]); }
  }

  /** Another section follows. */
  lemma {:induction false} MissingSection(c: Content, s: Octets, k: nat, j: nat, p: Part)
    requires Fresh(c, s) && c.depth < k < j <= SECTIONS && PartOk(j, p) && Descriptor(p) <= s[c.pos..]
    ensures CheckOne(c, s, false, k) == Outcome(DepthOk, c.(depth := k))
  {
    hide EitherForm, Descriptor, PartOk, CodeOf, TagsOf, CheckBody;
    OtherCode(k, j, p);
    SameLoc(c, k);
    if k == BODY { BodyAbsent(c, s, false, p); } else { NotAnother(s, c.pos, p, CodeOf(k), TagsOf(k), c.locs[k - 1]); }
  }

  lemma {:induction false} PrefixOfPart(u: Octets, p: Part, rest: Octets)
    requires u <= PartOctets(p) + rest
    ensures |u| >= |Descriptor(p)| ==> Descriptor(p) <= u
    ensures |u| < |Descriptor(p)| ==> u < Descriptor(p)
    ensures |u| < |PartOctets(p)| ==> u < PartOctets(p)
    ensures |u| >= |PartOctets(p)| ==> u == PartOctets(p) + u[|PartOctets(p)|..] && u[|PartOctets(p)|..] <= rest
  {
    hide Descriptor;
    var w := PartOctets(p) + rest;
    assert u == w[..|u|];
    assert w[|PartOctets(p)|..] == rest;
  }

  /** A section is decided exactly if enough has arrived. */
  lemma {:induction false} OneDecided(parts: seq<Option<Part>>, s: Octets, k: nat, c: Content)
    requires MessageOk(parts) && 1 <= k <= SECTIONS && UpTo(parts, s, k, c)
    ensures var o := CheckOne(c, s, false, k);
            if Enough(parts, k, |s|) then o.verdict == DepthOk && UpTo(parts, s, k + 1, o.content)
            else o.verdict == DepthIncomplete
  {
    hide CheckOne, PartOk, PartOctets, Descriptor, Wire;
    var j := Following(parts, k);
    WireFollowing(parts, k);
    if c.pos == |s| {
      NoOctets(c, s, k);
      if j <= SECTIONS { PartNotEmpty(parts[j - 1].value); }
    } else {
      SomethingFollows(parts, s, k, c);
      var p, rest, u := parts[j - 1].value, Wire(parts, j + 1), s[c.pos..];
      PrefixOfPart(u, p, rest);
      DescriptorWithin(p);
      if |u| < |Descriptor(p)| {
        PartOfDescriptor(c, s, k, p);
      } else if j > k {
        MissingSection(c, s, k, j, p);
        Skipped(parts, k);
      } else if |u| < |PartOctets(p)| {
        PartOfSection(c, s, k, p);
      } else {
        WholeSection(c, s, k, p, u[|PartOctets(p)|..]);
        DropTwice(s, c.pos, |PartOctets(p)|);
        Located(parts, s, k, c, p);
      }
    }
  }

  lemma {:induction false} PartNotEmpty(p: Part)
    ensures 0 < |Descriptor(p)| <= |PartOctets(p)|
  {
    DescriptorIs(p);
  }

  lemma {:induction false} DescriptorWithin(p: Part)
    ensures |Descriptor(p)| <= |PartOctets(p)|
  {
    hide Descriptor;
  }

  lemma {:induction false} SomethingFollows(parts: seq<Option<Part>>, s: Octets, k: nat, c: Content)
    requires |parts| == SECTIONS && 1 <= k <= SECTIONS && UpTo(parts, s, k, c) && c.pos < |s|
    ensures Following(parts, k) <= SECTIONS
  {
    hide Wire, PartOctets;
    WireFollowing(parts, k);
    assert s[c.pos..] != [];
  }

  lemma {:induction false} Skipped(parts: seq<Option<Part>>, k: nat)
    requires |parts| == SECTIONS && 1 <= k <= SECTIONS && parts[k - 1].None?
    ensures At(parts, k + 1) == At(parts, k) && Wire(parts, k + 1) == Wire(parts, k)
  {
    hide PartOctets;
    assert [] + Wire(parts, k + 1) == Wire(parts, k + 1);
  }

  lemma {:induction false} Located(parts: seq<Option<Part>>, s: Octets, k: nat, c: Content, p: Part)
    requires |parts| == SECTIONS && 1 <= k <= SECTIONS && UpTo(parts, s, k, c) && parts[k - 1] == Some(p)
    requires c.pos + |PartOctets(p)| <= |s| && s[c.pos + |PartOctets(p)|..] <= Wire(parts, k + 1)
    ensures UpTo(parts, s, k + 1, Content(k, c.pos + |PartOctets(p)|, c.locs[k - 1 := PartLocation(c.pos, p)]))
  {
    hide PartOctets, Wire, Descriptor;
  }

  // ---------------------------------------------------------------- down to a depth

  /** If one section is decided, so are all before it. */
  lemma {:induction false} EnoughBefore(parts: seq<Option<Part>>, k: nat, n: nat)
    requires |parts| == SECTIONS && 1 <= k < SECTIONS && Enough(parts, k + 1, n)
    ensures Enough(parts, k, n)
  {
    hide PartOctets, Descriptor;
    if parts[k - 1].Some? {
      assert At(parts, k + 1) == At(parts, k) + |PartOctets(parts[k - 1].value)|;
    } else {
      var j := Following(parts, k);
      assert At(parts, k + 1) == At(parts, k);
      DescriptorWithin(parts[j - 1].value);
    }
  }

  lemma {:induction false} EnoughAll(parts: seq<Option<Part>>, j: nat, k: nat, n: nat)
    requires |parts| == SECTIONS && 1 <= j <= k <= SECTIONS && Enough(parts, k, n)
    ensures Enough(parts, j, n)
    decreases k - j
  {
    hide Enough;
    if j < k {
      EnoughAll(parts, j + 1, k, n);
      EnoughBefore(parts, j, n);
    }
  }

  lemma {:induction false} DecidedFrom(parts: seq<Option<Part>>, s: Octets, j: nat, k: nat, c: Content)
    requires MessageOk(parts) && 1 <= j <= k <= SECTIONS && UpTo(parts, s, j, c)
    ensures ContentOk(c, s)
    ensures var o := CheckFrom(c, s, false, j, k);
            if Enough(parts, k, |s|) then o.verdict == DepthOk && UpTo(parts, s, k + 1, o.content)
            else o.verdict == DepthIncomplete
    decreases k - j
  {
    hide CheckOne, Enough, Wire, PartOctets, PartOk, At;
    OneDecided(parts, s, j, c);
    var o := CheckOne(c, s, false, j);
    if Enough(parts, k, |s|) { EnoughAll(parts, j, k, |s|); }
    if o.verdict == DepthOk {
      if j < k {
        DecidedFrom(parts, s, j + 1, k, o.content);
      } else {
        NoMoreSections(o.content, s, j, k);
      }
    }
  }

  lemma {:induction false} NoMoreSections(c: Content, s: Octets, j: nat, k: nat)
    requires ContentOk(c, s) && j == k <= SECTIONS
    ensures CheckFrom(c, s, false, j + 1, k) == Outcome(DepthOk, c)
  {
  }

  /** A check of what has arrived so far, for every message and any number of its octets: the check down
      to section `k` succeeds exactly if enough has arrived, and asks for more otherwise. When it
      succeeds, every section present up to there is where it is. */
  lemma {:induction false} DecidedSoFar(parts: seq<Option<Part>>, n: nat, k: nat)
    requires MessageOk(parts) && n <= |Wire(parts, 1)| && 1 <= k <= SECTIONS
    ensures var s := Wire(parts, 1)[..n];
            var o := CheckMessage(Initial(), s, false, k);
            && o.verdict == (if Enough(parts, k, n) then DepthOk else DepthIncomplete)
            && (o.verdict == DepthOk ==>
                  && o.content.depth == k
                  && forall i | 0 <= i < k && parts[i].Some? :: o.content.locs[i] == PartLocation(At(parts, i + 1), parts[i].value))
  {
    hide CheckFrom, Wire, PartOctets, PartOk, At;
    var s := Wire(parts, 1)[..n];
    AtFirst(parts);
    assert s[0..] == s;
    if s == [] {
      NeverAtOnce(parts, k);
    } else {
      DecidedFrom(parts, s, 1, k, Initial());
    }
  }

  lemma {:induction false} NeverAtOnce(parts: seq<Option<Part>>, k: nat)
    requires |parts| == SECTIONS && 1 <= k <= SECTIONS
    ensures !Enough(parts, k, 0)
  {
    hide PartOctets, Descriptor;
    var j := Following(parts, k);
    if j <= SECTIONS { PartNotEmpty(parts[j - 1].value); }
  }

  // ---------------------------------------------------------------- in every run

  lemma {:induction false} RunSnoc(f: Inflow, es: seq<Event>, e: Event)
    requires f.Valid()
    ensures Run(f, es + [e]) == Run(f, es).Step(e)
    decreases |es|
  {
    hide Inflow.Step;
    if es == [] {
      assert es + [e] == [e] && [e][1..] == [];
      StepKeepsValid(f, e);
    } else {
      CutAppend(es, [e], 1);
      StepKeepsValid(f, es[0]);
      RunSnoc(f.Step(es[0]), es[1..], e);
    }
  }

  /** A check that succeeds before the end of the message has reached its depth. */
  lemma {:induction false} ReachesDepth(c: Content, s: Octets, k: nat)
    requires Fresh(c, s) && k <= SECTIONS
    ensures CheckMessage(c, s, false, k).verdict == DepthOk ==> CheckMessage(c, s, false, k).content.depth >= k
  {
    hide CheckFrom;
    if k > c.depth && s != [] { FromReaches(c, s, c.depth + 1, k); }
  }

  lemma {:induction false} FromReaches(c: Content, s: Octets, j: nat, k: nat)
    requires Fresh(c, s) && c.depth == j - 1 && 1 <= j <= k <= SECTIONS
    ensures CheckFrom(c, s, false, j, k).verdict == DepthOk ==> CheckFrom(c, s, false, j, k).content.depth >= k
    decreases k - j
  {
    hide CheckOne;
    var o := CheckOne(c, s, false, j);
    OneReaches(c, s, j);
    if o.verdict == DepthOk {
      if j < k { FromReaches(o.content, s, j + 1, k); } else { NoMoreSections(o.content, s, j, k); }
    }
  }

  lemma {:induction false} OneReaches(c: Content, s: Octets, j: nat)
    requires Fresh(c, s) && c.depth < j <= SECTIONS
    ensures var o := CheckOne(c, s, false, j); o.verdict == DepthOk ==> o.content.depth == j && Fresh(o.content, s)
  {
    hide CheckDepth;
    if j == BODY {
      DepthStable(c, s, [], false, BODY, 0x77, TAGS_ANY, false);
      DepthStable(c, s, [], false, BODY, 0x75, TAGS_BINARY, false);
      DepthStable(c, s, [], false, BODY, 0x76, TAGS_LIST, true);
    } else {
      DepthStable(c, s, [], false, j, CodeOf(j), TagsOf(j), true);
    }
  }

  /** What a check down to some depth has located, a check of everything locates. */
  lemma {:induction false} LocatedAtOnce(c: Content, s: Octets, i: nat)
    requires Fresh(c, s) && i < c.depth
    ensures CheckMessage(c, s, false, SECTIONS).content.locs[i] == c.locs[i]
  {
    hide CheckFrom;
    if c.depth < SECTIONS && s != [] { CheckKeeps(c, s, false, c.depth + 1, SECTIONS, i); }
  }

  /** In every run in which some of the octets of a message have arrived, in whatever pieces and with
      whatever checks in between: a check down to section `k` succeeds exactly if enough has arrived, and
      then every section present up to there is where it is. */
  lemma {:induction false} FoundWhileArriving(parts: seq<Option<Part>>, es: seq<Event>, n: nat, k: nat)
    requires MessageOk(parts) && n <= |Wire(parts, 1)| && 1 <= k <= SECTIONS
    ensures Inflow(Initial(), [], false).Valid()
    ensures var r := Run(Inflow(Initial(), [], false), es);
            !r.complete && r.octets == Wire(parts, 1)[..n] ==>
              var o := CheckMessage(r.content, r.octets, false, k);
              && o.verdict == (if Enough(parts, k, n) then DepthOk else DepthIncomplete)
              && (o.verdict == DepthOk ==>
                    forall i | 0 <= i < k && parts[i].Some? :: o.content.locs[i] == PartLocation(At(parts, i + 1), parts[i].value))
  {
    hide CheckMessage, Wire, Run, PartOk, Enough, At;
    var f := Inflow(Initial(), [], false);
    ArrivalIrrelevant(es, k);
    var r := Run(f, es);
    if !r.complete && r.octets == Wire(parts, 1)[..n] {
      var s := r.octets;
      DecidedSoFar(parts, n, k);
      var o, o' := CheckMessage(r.content, s, false, k), CheckMessage(Initial(), s, false, k);
      if o.verdict == DepthOk {
        ReachesDepth(r.content, s, k);
        RunSnoc(f, es, Event.Check(k));
        ArrivalIrrelevant(es + [Event.Check(k)], k);
        AtOnce(s, k);
        forall i | 0 <= i < k ensures o.content.locs[i] == o'.content.locs[i] {
          LocatedAtOnce(o.content, s, i);
          LocatedAtOnce(o'.content, s, i);
        }
      }
    }
  }

  /** All octets at once, and then one check. */
  lemma {:induction false} AtOnce(s: Octets, k: nat)
    requires k <= SECTIONS
    ensures Fresh(Initial(), s)
    ensures var c := CheckMessage(Initial(), s, false, k).content;
            Fresh(c, s) && CheckMessage(c, s, false, SECTIONS) == CheckMessage(Initial(), s, false, SECTIONS)
  {
    hide CheckMessage;
    var f := Inflow(Initial(), [], false);
    var es: seq<Event> := [Arrive(s)];
    ArrivalIrrelevant([], k);
    RunSnoc(f, [], Arrive(s));
    assert [] + [Arrive(s)] == es && [] + s == s;
    RunSnoc(f, es, Event.Check(k));
    ArrivalIrrelevant(es + [Event.Check(k)], k);
  }

  /** A complete message without any octet is invalid, down to whichever section it is checked. */
  lemma {:induction false} NothingArrived(k: nat)
    requires 1 <= k <= SECTIONS
    ensures CheckMessage(Initial(), [], true, k).verdict == DepthInvalid
    ensures CheckMessage(Initial(), [], false, k).verdict == DepthIncomplete
  {
  }
}
