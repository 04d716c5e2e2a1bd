/** From one router to the next: what a receiver is sent is the message with its annotations
    replaced, and the next router finds in it what this one meant to say.
 */
module Delivery {
  import opened Octets
  import opened Seqs
  import opened Options
  import opened Amqp
  import opened Parse
  import S = Sections
  import R = Recognition
  import F = Fanout
  import H = Hops
  import A = Annotations

  // ---------------------------------------------------------------- what is sent

  /** What stays the same about a message that has been started, until it is freed. */
  predicate SameStart(s: F.Content, s': F.Content, k: F.Id) {
    && k in s.msgs && k in s'.msgs && s.msgs[k].started && s'.msgs[k].started && s.log <= s'.log
    && var m, m' := s.msgs[k], s'.msgs[k];
       m'.first == m.first && m'.born == m.born && m'.prelude == m.prelude && m'.skipped == m.skipped
  }

  lemma {:induction false} StepKeepsStart(s: F.Content, e: F.Event, k: F.Id)
    requires F.Valid(s) && F.Enabled(s, e) && e != F.DoFree(k) && k in s.msgs && s.msgs[k].started
    ensures SameStart(s, F.Step(s, e), k)
  {
    hide F.MsgOk, F.Skip, F.OctetsOf, F.NextOf, F.Without, F.Kept, F.Lowered, F.Raised, F.Counted;
    if e.DoBegin? { F.BeginKeeps(s, e.msg, e.rewrite); }
  }

  lemma {:induction false} RunKeepsStart(s: F.Content, es: seq<F.Event>, k: F.Id)
    requires F.Valid(s) && F.DoFree(k) !in es && k in s.msgs && s.msgs[k].started
    ensures SameStart(s, F.Run(s, es), k)
    decreases |es|
  {
    hide F.Valid, F.Step, F.Enabled;
    if es != [] {
      if F.Enabled(s, es[0]) {
        F.StepKeeps(s, es[0]);
        StepKeepsStart(s, es[0], k);
        RunKeepsStart(F.Step(s, es[0]), es[1..], k);
      } else {
        RunKeepsStart(s, es[1..], k);
      }
    }
  }

  lemma {:induction false} FlatPrefix(a: seq<Octets>, b: seq<Octets>)
    requires a <= b
    ensures Flat(a) <= Flat(b)
  {
    assert b == a + b[|a|..];
    FlatAppend(a, b[|a|..]);
  }

  /** A first send with all of the old annotations there. */
  lemma {:induction false} Begun(s: F.Content, k: F.Id, r: F.Rewrite)
    requires F.Valid(s) && F.Enabled(s, F.DoBegin(k, Some(r))) && s.msgs[k].first == F.Range(0, s.msgs[k].born)
    requires r.head <= r.skip <= |Flat(s.log)|
    ensures var s' := F.Step(s, F.DoBegin(k, Some(r)));
            && F.Valid(s') && k in s'.msgs && s'.log == s.log && s'.msgs[k].started
            && s'.msgs[k].first == F.Range(0, s'.msgs[k].born)
            && s'.msgs[k].prelude == Flat(s.log)[..r.head] + r.section && s'.msgs[k].skipped == r.skip
  {
    hide F.MsgOk, F.OctetsOf, Flat, F.Counted, F.Skip;
    F.BeginKeeps(s, k, Some(r));
    WholeList(s, k);
  }

  lemma {:induction false} WholeList(s: F.Content, k: F.Id)
    requires F.Valid(s) && k in s.msgs && !s.msgs[k].started && s.msgs[k].first == F.Range(0, s.msgs[k].born)
    ensures F.OctetsOf(s.log, s.list) == Flat(s.log)
  {
    hide F.OctetsOf, Flat, F.Underway, F.HasSent, F.Counted, F.Range;
    var m := s.msgs[k];
    assert F.MsgOk(s, m);
    F.FirstInList(s, m);
    F.PlanIsAll(m, |s.log|);
    F.SelectionSize(s.log, s.list, 0);
    assert s.log[0..] == s.log;
  }

  /** In every run: a receiver registered before any buffer was freed, whose sending starts when the old
      annotations have arrived, has in the end been sent the first octets as they are, the new section,
      and everything behind the old one. */
  lemma {:induction false} RewrittenMessage(s: F.Content, k: F.Id, r: F.Rewrite, es: seq<F.Event>)
    requires F.Valid(s) && F.Enabled(s, F.DoBegin(k, Some(r))) && s.msgs[k].first == F.Range(0, s.msgs[k].born)
    requires r.head <= r.skip <= |Flat(s.log)| && F.DoFree(k) !in es
    ensures F.Valid(F.Step(s, F.DoBegin(k, Some(r))))
    ensures var s' := F.Run(F.Step(s, F.DoBegin(k, Some(r))), es);
            && k in s'.msgs && r.skip <= |Flat(s'.log)|
            && (s'.msgs[k].complete ==> s'.msgs[k].sent == Flat(s'.log)[..r.head] + r.section + Flat(s'.log)[r.skip..])
  {
    hide F.Valid, F.Run, F.Step, F.Enabled, Flat, F.OctetsOf;
    var s1 := F.Step(s, F.DoBegin(k, Some(r)));
    Begun(s, k, r);
    RunKeepsStart(s1, es, k);
    var s' := F.Run(s1, es);
    FlatPrefix(s1.log, s'.log);
    if s'.msgs[k].complete { F.CompletedIn(s', k); }
  }

  // ---------------------------------------------------------------- section by section

  function OctetsOfPart(p: Option<R.Part>): Octets { if p.Some? then R.PartOctets(p.value) else [] }

  /** Which sections lie before section `k`, and which after, does not depend on section `k`. */
  lemma {:induction false} SameLead(parts: seq<Option<R.Part>>, k: nat, p: Option<R.Part>, j: nat)
    requires |parts| == S.SECTIONS && 1 <= j <= k <= S.SECTIONS
    ensures R.Lead(parts[k - 1 := p], j, k) == R.Lead(parts, j, k)
    decreases k - j
  {
    hide R.PartOctets;
    if j < k { SameLead(parts, k, p, j + 1); }
  }

  lemma {:induction false} SameTail(parts: seq<Option<R.Part>>, k: nat, p: Option<R.Part>, j: nat)
    requires |parts| == S.SECTIONS && 1 <= k < j <= S.SECTIONS + 1
    ensures R.Wire(parts[k - 1 := p], j) == R.Wire(parts, j)
    decreases S.SECTIONS + 1 - j
  {
    hide R.PartOctets;
    if j <= S.SECTIONS { SameTail(parts, k, p, j + 1); }
  }

  /** The message with one section replaced, as octets. */
  lemma {:induction false} WireReplaced(parts: seq<Option<R.Part>>, k: nat, p: Option<R.Part>)
    requires |parts| == S.SECTIONS && 1 <= k <= S.SECTIONS
    ensures R.At(parts, k) <= R.At(parts, k + 1) <= |R.Wire(parts, 1)|
    ensures R.Wire(parts[k - 1 := p], 1)
         == R.Wire(parts, 1)[..R.At(parts, k)] + OctetsOfPart(p) + R.Wire(parts, 1)[R.At(parts, k + 1)..]
  {
    hide R.PartOctets, R.Lead, R.Wire, R.At;
    Around(parts, k);
    Around(parts[k - 1 := p], k);
    SameLead(parts, k, p, 1);
    SameTail(parts, k, p, k + 1);
  }

  lemma {:induction false} Around(parts: seq<Option<R.Part>>, k: nat)
    requires |parts| == S.SECTIONS && 1 <= k <= S.SECTIONS
    ensures var w := R.Wire(parts, 1);
            && w == R.Lead(parts, 1, k) + OctetsOfPart(parts[k - 1]) + R.Wire(parts, k + 1)
            && R.At(parts, k) <= R.At(parts, k + 1) <= |w|
            && w[..R.At(parts, k)] == R.Lead(parts, 1, k) && w[R.At(parts, k + 1)..] == R.Wire(parts, k + 1)
  {
    hide R.PartOctets, R.Lead;
    R.WireSplit(parts, 1, k);
    R.AtFirst(parts);
    assert R.Wire(parts, k) == OctetsOfPart(parts[k - 1]) + R.Wire(parts, k + 1);
    AppendAssoc(R.Lead(parts, 1, k), OctetsOfPart(parts[k - 1]), R.Wire(parts, k + 1));
  }

  /** The message annotations. */
  const ANNOTATIONS: nat := 3

  function Replacement(parts: seq<Option<R.Part>>, p: Option<R.Part>): F.Rewrite
    requires |parts| == S.SECTIONS
  {
    F.Rewrite(R.At(parts, ANNOTATIONS), OctetsOfPart(p), R.At(parts, ANNOTATIONS + 1))
  }

  /** What a receiver is sent of a message with these sections is the message with its annotations
      replaced, whatever else goes on. */
  lemma {:induction false} SentMessage(parts: seq<Option<R.Part>>, p: Option<R.Part>, s: F.Content, k: F.Id, es: seq<F.Event>)
    requires |parts| == S.SECTIONS && F.Valid(s) && F.Enabled(s, F.DoBegin(k, Some(Replacement(parts, p))))
    requires s.msgs[k].first == F.Range(0, s.msgs[k].born) && R.At(parts, ANNOTATIONS + 1) <= |Flat(s.log)|
    requires F.DoFree(k) !in es
    ensures F.Valid(F.Step(s, F.DoBegin(k, Some(Replacement(parts, p)))))
    ensures var s' := F.Run(F.Step(s, F.DoBegin(k, Some(Replacement(parts, p)))), es);
            k in s'.msgs && (s'.msgs[k].complete && Flat(s'.log) == R.Wire(parts, 1) ==>
                               s'.msgs[k].sent == R.Wire(parts[ANNOTATIONS - 1 := p], 1))
  {
    hide F.Valid, F.Run, F.Step, F.Enabled, Flat, R.Wire, R.At;
    WireReplaced(parts, ANNOTATIONS, p);
    RewrittenMessage(s, k, Replacement(parts, p), es);
  }

  // ---------------------------------------------------------------- at the next router

  /** The annotations section that a router writes. */
  function NewSection(a: A.Annotations, m: H.Send, id: Octets): Option<R.Part>
    requires H.CanSend(a, m, id)
  {
    match H.Section(a, m, id) case None => None case Some(x) => Some(R.Part(R.StandardCode(ANNOTATIONS), false, x))
  }

  lemma {:induction false} NewSectionOk(a: A.Annotations, m: H.Send, id: Octets)
    requires H.WellFormed(a) && H.CanSend(a, m, id) && |H.MapBody(a, m, id)| + 4 < 0x8000_0000
    ensures NewSection(a, m, id).Some? ==> R.PartOk(ANNOTATIONS, NewSection(a, m, id).value)
  {
    hide H.MapBody, H.MapCount, H.ShortComposite, ParseField, H.Fits, A.UserPairs;
    var body, count := H.MapBody(a, m, id), H.MapCount(a, m, id);
    if body != [] {
      EvenCount(a, m, id);
      H.FieldOfShort(true, count, body, []);
      var x := H.ShortComposite(true, count, body);
      assert x + [] == x;
      FirstIsTag(count, body);
    }
  }

  lemma {:induction false} EvenCount(a: A.Annotations, m: H.Send, id: Octets)
    requires H.WellFormed(a) && H.CanSend(a, m, id)
    ensures H.MapCount(a, m, id) % 2 == 0
  {
    hide A.UserPairs, H.Entries;
  }

  lemma {:induction false} FirstIsTag(count: nat, body: Octets)
    requires H.Shortable(|body|, count)
    ensures var x := H.ShortComposite(true, count, body); x != [] && x[0] == H.ShortTag(true, |body|) && IsMapTag(x[0])
  {
  }

  /** End to end. A router that received `parts` with annotations `a` sends the message on. The next
      router, once it has it all, finds the message in order and every section where it is; all but the
      annotations are the same octets, and the annotations it reads there are those of one hop. */
  lemma {:induction false} NextRouterReads(parts: seq<Option<R.Part>>, a: A.Annotations, m: H.Send, id: Octets, sent: Octets)
    requires R.MessageOk(parts) && H.WellFormed(a) && H.CanSend(a, m, id) && |H.MapBody(a, m, id)| + 4 < 0x8000_0000
    requires sent == R.Wire(parts[ANNOTATIONS - 1 := NewSection(a, m, id)], 1) && sent != []
    ensures var parts' := parts[ANNOTATIONS - 1 := NewSection(a, m, id)];
            && R.MessageOk(parts') && S.ContentOk(S.Initial(), sent)
            && var o := S.CheckMessage(S.Initial(), sent, true, S.SECTIONS);
               && o.verdict == S.DepthOk
               && (forall i | 0 <= i < S.SECTIONS && parts'[i].Some? ::
                     o.content.locs[i] == R.PartLocation(R.At(parts', i + 1), parts'[i].value))
               && (forall i | 0 <= i < S.SECTIONS && i != ANNOTATIONS - 1 :: parts'[i] == parts[i])
    ensures match A.ParseAnnotations(false, FieldOf(NewSection(a, m, id)))
            case Good(b) => H.Forward(a, m, id) == Some(b) && H.HopResult(a, m, id, b)
            case Failed(_) => H.Forward(a, m, id) == None
  {
    hide S.CheckMessage, R.Wire, R.PartOk, R.At, A.ParseAnnotations, H.MapBody, H.HopResult, H.WellFormed, H.Section,
         H.Fits, A.Complaint, ParseValue;
    NewSectionOk(a, m, id);
    R.MessageRecognized(parts[ANNOTATIONS - 1 := NewSection(a, m, id)]);
    H.HopArrives(a, m, id);
  }

  function FieldOf(p: Option<R.Part>): Option<Octets> { if p.Some? then Some(p.value.field) else None }
}
