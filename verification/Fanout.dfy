/** Fan-out: one received message is sent to any number of receivers while it is still
    arriving. Every buffer counts its references and is freed when the last receiver has
    passed it. The steps are those that the program takes under the content lock, in any
    order.
 */
module Fanout {
  import opened Octets
  import opened Parse
  import opened Seqs
  import opened Options

  /** Buffers are numbered in the order they arrive. */
  type Id = int

  /** An outgoing message. The cursor is at a buffer, or nowhere once everything is sent.
      The last six fields record history: the buffers in the list when the message was
      registered, the number of buffers that had arrived by then, how many buffers the message
      has passed, the octets it has sent, those it sent before anything else, and how many
      received octets it skipped after that. */
  datatype Msg = Msg(
    cursor: Option<Id>,
    off: nat,
    started: bool,
    complete: bool,
    annotated: bool,
    first: seq<Id>,
    born: nat,
    passed: nat,
    sent: Octets,
    prelude: Octets,
    skipped: nat)

  /** The content that the messages share. `log` has the octets of every buffer that ever
      arrived, `list` the numbers of the buffers not freed, in order. `extra` counts those
      references of a buffer that no message will give back: by parsed sections, and by
      messages that skipped the buffer when they replaced the annotations. `freed` counts the
      buffers freed by sending, `dropped` those freed when a receiver went away; the program keeps
      only the first count. */
  datatype Content = Content(
    log: seq<Octets>,
    list: seq<Id>,
    refs: seq<nat>,
    extra: seq<nat>,
    fanout: nat,
    msgs: map<Id, Msg>,
    received: bool,
    aborted: bool,
    freed: nat,
    dropped: nat)

  function Empty(): Content { Content([], [], [], [], 0, map[], false, false, 0, 0) }

  // ---------------------------------------------------------------- the invariant

  predicate Holds(m: Msg, i: Id) { m.cursor.Some? && m.cursor.value <= i }

  function Holders(msgs: map<Id, Msg>, i: Id): set<Id> { set k | k in msgs && Holds(msgs[k], i) }

  predicate Sorted(s: seq<Id>) { forall i, j | 0 <= i < j < |s| :: s[i] < s[j] }

  predicate Within(s: seq<Id>, n: nat) { forall i | 0 <= i < |s| :: 0 <= s[i] < n }

  function Range(a: nat, b: nat): seq<Id> { if a >= b then [] else seq(b - a, i => a + i) }

  /** The buffers that a message has sent or will send: those in the list when it was
      registered, and all that came later. */
  function Plan(s: Content, m: Msg): seq<Id> { m.first + Range(m.born, |s.log|) }

  /** The octets of some buffers. */
  function OctetsOf(log: seq<Octets>, ids: seq<Id>): Octets
    requires Within(ids, |log|)
  {
    if ids == [] then [] else log[ids[0]] + OctetsOf(log, ids[1..])
  }

  /** Of the octets `x` that it has passed, the message has sent all but the first it skipped. */
  predicate HasSent(m: Msg, x: Octets) { m.skipped <= |x| && m.sent == m.prelude + x[m.skipped..] }

  predicate IsSuffix(x: seq<Id>, list: seq<Id>) { |x| <= |list| && list[|list| - |x|..] == x }

  predicate Counted(s: Content, i: Id)
    requires |s.refs| == |s.extra| == |s.log|
  {
    i in s.list ==> 0 <= i < |s.log| && s.refs[i] == s.extra[i] + |Holders(s.msgs, i)|
  }

  /** What a message still has to send is at the end of the list, and it has sent everything
      before that. */
  predicate MsgOk(s: Content, m: Msg) {
    var plan := Plan(s, m);
    && m.born <= |s.log| && Within(plan, |s.log|) && Sorted(plan) && m.passed <= |plan|
    && (m.complete <==> m.cursor.None?)
    && (m.cursor.None? ==> s.received && m.started && m.passed == |plan| && HasSent(m, OctetsOf(s.log, plan)))
    && (m.cursor.Some? ==> Underway(s, m, plan))
    && (!m.started ==> m.cursor.Some? && m.passed == 0 && m.off == 0 && !m.annotated && s.list == plan)
    && (!m.annotated ==> m.prelude == [] && m.skipped == 0)
  }

  predicate Underway(s: Content, m: Msg, plan: seq<Id>)
    requires m.cursor.Some? && m.passed <= |plan| && Within(plan, |s.log|)
  {
    && m.passed < |plan| && plan[m.passed] == m.cursor.value && m.off <= |s.log[m.cursor.value]|
    && IsSuffix(plan[m.passed..], s.list)
    && Within(plan[..m.passed], |s.log|) && HasSent(m, OctetsOf(s.log, plan[..m.passed]) + s.log[m.cursor.value][..m.off])
  }

  predicate Valid(s: Content) {
    && |s.refs| == |s.extra| == |s.log| && Sorted(s.list) && Within(s.list, |s.log|)
    && (forall i | 0 <= i < |s.log| :: s.log[i] != [])
    && (forall i | 0 <= i < |s.log| :: Counted(s, i))
    && (forall i | 0 <= i < |s.log| && s.extra[i] > 0 :: i in s.list)
    && s.fanout == |s.msgs|
    && (forall k | k in s.msgs :: MsgOk(s, s.msgs[k]))
  }

  // ---------------------------------------------------------------- steps

  /** A full buffer, or what has come so far, joins the list. */
  function Arrive(s: Content, x: Octets): Content
    requires x != [] && !s.received
  {
    s.(log := s.log + [x], list := s.list + [|s.log|], refs := s.refs + [s.fanout], extra := s.extra + [0])
  }

  function Received(s: Content): Content { s.(received := true) }

  function Abort(s: Content): Content { s.(aborted := true) }

  /** One more reference to every buffer in the list. */
  function Raised(refs: seq<nat>, list: seq<Id>): seq<nat> {
    seq(|refs|, i requires 0 <= i < |refs| => if i in list then refs[i] + 1 else refs[i])
  }

  /** A new receiver. It takes a reference to every buffer in the list. */
  function Register(s: Content, k: Id): Content
    requires k !in s.msgs && s.list != []
  {
    s.(fanout := s.fanout + 1, refs := Raised(s.refs, s.list),
       msgs := s.msgs[k := Msg(Some(s.list[0]), 0, false, false, false, s.list, |s.log|, 0, [], [], 0)])
  }

  /** A parsed section refers to a buffer. */
  function Protect(s: Content, i: Id): Content
    requires i in s.list && 0 <= i < |s.refs| && i < |s.extra|
  {
    s.(refs := s.refs[i := s.refs[i] + 1], extra := s.extra[i := s.extra[i] + 1])
  }

  /** The buffer after `b` in the list. */
  function NextOf(list: seq<Id>, b: Id): Option<Id> {
    if list == [] then None
    else if list[0] == b then (if |list| > 1 then Some(list[1]) else None)
    else NextOf(list[1..], b)
  }

  function Without(list: seq<Id>, b: Id): seq<Id> {
    if list == [] then [] else if list[0] == b then list[1..] else [list[0]] + Without(list[1..], b)
  }

  /** Give back one reference to a buffer; the last one frees it. */
  function Release(s: Content, i: Id): Content
    requires 0 <= i < |s.refs|
  {
    var r := if s.refs[i] == 0 then 0 else s.refs[i] - 1;
    s.(refs := s.refs[i := r], list := if s.refs[i] == 1 then Without(s.list, i) else s.list,
       freed := if s.refs[i] == 1 then s.freed + 1 else s.freed)
  }

  /** How many whole buffers are skipped when moving by `n` octets, and the offset in the next.
      The end of a buffer is the beginning of the next one, if there is one. */
  function Skip(log: seq<Octets>, bs: seq<Id>, n: nat): (r: (nat, nat))
    requires bs != [] && Within(bs, |log|)
    ensures r.0 < |bs| && r.1 <= |log[bs[r.0]]|
  {
    var size := |log[bs[0]]|;
    if n < size then (0, n)
    else if |bs| == 1 then (0, size)
    else var r := Skip(log, bs[1..], n - size); (r.0 + 1, r.1)
  }

  /** How a router replaces the annotations: it sends the first `head` octets as they are (header
      and delivery annotations), then a section of its own, and goes on behind the first `skip`
      octets, which end with the old section. */
  datatype Rewrite = Rewrite(head: nat, section: Octets, skip: nat)

  function Clip(n: nat, x: Octets): (m: nat)
    ensures m <= |x|
  {
    if n < |x| then n else |x|
  }

  /** The first send puts the cursor at the head of the list. A router that replaces the
      annotations then moves it; it does not give back the buffers it skips. */
  function Begin(s: Content, k: Id, rewrite: Option<Rewrite>): Content
    requires k in s.msgs && s.list != [] && Within(s.list, |s.log|)
  {
    var m := s.msgs[k];
    match rewrite
    case Some(r) =>
      var (b, off) := Skip(s.log, s.list, r.skip);
      var x := OctetsOf(s.log, s.list);
      var first := x[..Clip(r.head, x)] + r.section;
      s.(msgs := s.msgs[k := m.(cursor := Some(s.list[b]), off := off, started := true, annotated := true, passed := b,
                                sent := first, prelude := first, skipped := Clip(r.skip, x))],
         extra := Raised(s.extra, s.list[..b]))
    case None => s.(msgs := s.msgs[k := m.(cursor := Some(s.list[0]), off := 0, started := true)])
  }

  /** The link takes `n` octets of the buffer at the cursor. If that was the rest of it, and
      another buffer has arrived or none will, the message moves on and gives the buffer
      back. */
  function Send(s: Content, k: Id, n: nat): Content
    requires k in s.msgs && s.msgs[k].cursor.Some? && 0 <= s.msgs[k].cursor.value < |s.log| && |s.refs| == |s.log|
    requires s.msgs[k].off + n <= |s.log[s.msgs[k].cursor.value]|
  {
    var m := s.msgs[k];
    var c := m.cursor.value;
    var m' := m.(off := m.off + n, sent := m.sent + s.log[c][m.off..m.off + n]);
    var next := NextOf(s.list, c);
    if m'.off == |s.log[c]| && (next.Some? || s.received) then
      Release(s, c).(msgs := s.msgs[k := m'.(cursor := next, off := 0, complete := next.None?, passed := m.passed + 1)])
    else s.(msgs := s.msgs[k := m'])
  }

  /** What is left of the list when the buffers from `c` on are given back. */
  function Kept(list: seq<Id>, refs: seq<nat>, c: Id): seq<Id>
    requires Within(list, |refs|)
  {
    if list == [] then []
    else (if list[0] >= c && refs[list[0]] == 1 then [] else [list[0]]) + Kept(list[1..], refs, c)
  }

  function Lowered(refs: seq<nat>, list: seq<Id>, c: Id): seq<nat> {
    seq(|refs|, i requires 0 <= i < |refs| => if i in list && i >= c && refs[i] > 0 then refs[i] - 1 else refs[i])
  }

  /** A receiver goes away, whether it has sent everything or not. It gives back all buffers
      from its cursor on. */
  function Free(s: Content, k: Id): Content
    requires k in s.msgs && Within(s.list, |s.refs|)
  {
    var m := s.msgs[k];
    var s' := s.(msgs := s.msgs - {k}, fanout := if s.fanout == 0 then 0 else s.fanout - 1);
    if m.cursor.None? then s'
    else
      var list := Kept(s.list, s.refs, m.cursor.value);
      s'.(refs := Lowered(s.refs, s.list, m.cursor.value), list := list,
          dropped := s.dropped + if |list| < |s.list| then |s.list| - |list| else 0)
  }

  // ---------------------------------------------------------------- counting holders

  lemma {:induction false} HoldersUpdate(msgs: map<Id, Msg>, k: Id, m: Msg, i: Id)
    ensures |Holders(msgs[k := m], i)|
         == |Holders(msgs, i)| - (if k in msgs && Holds(msgs[k], i) then 1 else 0) + (if Holds(m, i) then 1 else 0)
  {
    hide Holds;
    var a := Holders(msgs, i);
    OneOut(a, k);
    HoldersAfter(msgs, k, m, i);
  }

  lemma {:induction false} OneOut(a: set<Id>, k: Id)
    ensures |a - {k}| == |a| - if k in a then 1 else 0
    ensures |(a - {k}) + {k}| == |a - {k}| + 1
  {
  }

  lemma {:induction false} HoldersAfter(msgs: map<Id, Msg>, k: Id, m: Msg, i: Id)
    ensures Holders(msgs[k := m], i) == (Holders(msgs, i) - {k}) + if Holds(m, i) then {k} else {}
  {
    hide Holds;
  }

  lemma {:induction false} HoldersRemove(msgs: map<Id, Msg>, k: Id, i: Id)
    requires k in msgs
    ensures |Holders(msgs - {k}, i)| == |Holders(msgs, i)| - if Holds(msgs[k], i) then 1 else 0
  {
    hide Holds;
    var a := Holders(msgs, i);
    assert Holders(msgs - {k}, i) == a - {k};
    assert |a - {k}| == |a| - if k in a then 1 else 0;
  }

  lemma {:induction false} AllHold(msgs: map<Id, Msg>, i: Id)
    requires forall k | k in msgs :: Holds(msgs[k], i)
    ensures |Holders(msgs, i)| == |msgs|
  {
    forall k | k in msgs ensures k in Holders(msgs, i) { assert Holds(msgs[k], i); }
    assert Holders(msgs, i) == msgs.Keys;
  }

  /** Two messages that hold a buffer make two references. */
  lemma {:induction false} TwoHolders(msgs: map<Id, Msg>, i: Id, k: Id, l: Id)
    requires k in msgs && l in msgs && k != l && Holds(msgs[k], i) && Holds(msgs[l], i)
    ensures |Holders(msgs, i)| >= 2
  {
    HoldersRemove(msgs, k, i);
    HoldersRemove(msgs - {k}, l, i);
  }

  lemma {:induction false} SizeUpdate(msgs: map<Id, Msg>, k: Id, m: Msg)
    ensures |msgs[k := m]| == |msgs| + if k in msgs then 0 else 1
  {
    assert msgs[k := m].Keys == msgs.Keys + {k};
    assert |msgs| == |msgs.Keys| && |msgs[k := m]| == |msgs[k := m].Keys|;
  }

  lemma {:induction false} SizeRemove(msgs: map<Id, Msg>, k: Id)
    requires k in msgs
    ensures |msgs - {k}| == |msgs| - 1
  {
    assert (msgs - {k}).Keys == msgs.Keys - {k};
    assert |msgs| == |msgs.Keys| && |msgs - {k}| == |(msgs - {k}).Keys|;
  }

  // ---------------------------------------------------------------- the list

  lemma {:induction false} SortedCons(x: Id, s: seq<Id>)
    requires Sorted(s) && forall i | i in s :: x < i
    ensures Sorted([x] + s)
  {
    forall i, j | 0 <= i < j < |[x] + s| ensures ([x] + s)[i] < ([x] + s)[j] {
      assert ([x] + s)[j] == s[j - 1] && s[j - 1] in s;
    }
  }

  lemma {:induction false} SortedSnoc(s: seq<Id>, n: Id)
    requires Sorted(s) && forall i | i in s :: i < n
    ensures Sorted(s + [n])
  {
    forall i, j | 0 <= i < j < |s + [n]| ensures (s + [n])[i] < (s + [n])[j] {
      assert (s + [n])[i] == s[i] && s[i] in s;
    }
  }

  lemma {:induction false} KeptIs(list: seq<Id>, refs: seq<nat>, c: Id)
    requires Sorted(list) && Within(list, |refs|)
    ensures Sorted(Kept(list, refs, c)) && Within(Kept(list, refs, c), |refs|)
    ensures forall i :: i in Kept(list, refs, c) <==> i in list && !(i >= c && refs[i] == 1)
  {
    if list != [] {
      assert list == [list[0]] + list[1..];
      KeptIs(list[1..], refs, c);
      SortedCons(list[0], Kept(list[1..], refs, c));
    }
  }

  lemma {:induction false} WithoutIs(list: seq<Id>, b: Id)
    requires Sorted(list)
    ensures Sorted(Without(list, b))
    ensures forall i :: i in Without(list, b) <==> i in list && i != b
  {
    if list != [] {
      assert list == [list[0]] + list[1..];
      WithoutIs(list[1..], b);
      SortedCons(list[0], Without(list[1..], b));
    }
  }

  /** A suffix with nothing removed from it stays one. */
  lemma {:induction false} KeptSuffix(list: seq<Id>, x: seq<Id>, refs: seq<nat>, c: Id)
    requires Within(list, |refs|) && IsSuffix(x, list)
    requires forall j | 0 <= j < |x| :: 0 <= x[j] < |refs| && !(x[j] >= c && refs[x[j]] == 1)
    ensures IsSuffix(x, Kept(list, refs, c))
  {
    if |x| < |list| {
      assert list[1..][|list| - 1 - |x|..] == x;
      KeptSuffix(list[1..], x, refs, c);
      var first := if list[0] >= c && refs[list[0]] == 1 then [] else [list[0]];
      SuffixGrows(x, first, Kept(list[1..], refs, c));
    } else {
      KeptAll(list, refs, c);
    }
  }

  lemma {:induction false} SuffixGrows(x: seq<Id>, p: seq<Id>, y: seq<Id>)
    requires IsSuffix(x, y)
    ensures IsSuffix(x, p + y)
  {
    assert (p + y)[|p + y| - |x|..] == y[|y| - |x|..];
  }

  lemma {:induction false} KeptAll(list: seq<Id>, refs: seq<nat>, c: Id)
    requires Within(list, |refs|) && forall j | 0 <= j < |list| :: !(list[j] >= c && refs[list[j]] == 1)
    ensures Kept(list, refs, c) == list
  {
    if list != [] { KeptAll(list[1..], refs, c); }
  }

  lemma {:induction false} WithoutSuffix(list: seq<Id>, x: seq<Id>, b: Id)
    requires IsSuffix(x, list) && b !in x
    ensures IsSuffix(x, Without(list, b))
  {
    if |x| < |list| {
      assert list[1..][|list| - 1 - |x|..] == x;
      if list[0] != b { WithoutSuffix(list[1..], x, b); }
    } else if list != [] {
      WithoutAbsent(list, b);
    }
  }

  lemma {:induction false} WithoutAbsent(list: seq<Id>, b: Id)
    requires b !in list
    ensures Without(list, b) == list
  {
    if list != [] { WithoutAbsent(list[1..], b); }
  }

  /** The next buffer after the first of a suffix. */
  lemma {:induction false} NextInSuffix(list: seq<Id>, x: seq<Id>)
    requires Sorted(list) && IsSuffix(x, list) && x != []
    ensures NextOf(list, x[0]) == if |x| > 1 then Some(x[1]) else None
  {
    if |x| < |list| {
      assert list[|list| - |x|] == x[0] && list[0] < list[|list| - |x|];
      assert list[1..][|list| - 1 - |x|..] == x;
      NextInSuffix(list[1..], x);
    }
  }

  // ---------------------------------------------------------------- every step keeps the invariant

  lemma {:induction false} EmptyIsValid()
    ensures Valid(Empty())
  {
  }

  lemma {:induction false} RangeSnoc(a: nat, n: nat)
    requires a <= n
    ensures Range(a, n + 1) == Range(a, n) + [n]
  {
  }

  lemma {:induction false} OctetsOfMore(log: seq<Octets>, x: Octets, ids: seq<Id>)
    requires Within(ids, |log|)
    ensures Within(ids, |log + [x]|) && OctetsOf(log + [x], ids) == OctetsOf(log, ids)
  {
    if ids != [] { OctetsOfMore(log, x, ids[1..]); }
  }

  lemma {:induction false} SuffixSnoc(x: seq<Id>, list: seq<Id>, n: Id)
    requires IsSuffix(x, list)
    ensures IsSuffix(x + [n], list + [n])
  {
    assert (list + [n])[|list| - |x|..] == list[|list| - |x|..] + [n];
  }

  lemma {:induction false} ArriveMsg(s: Content, x: Octets, m: Msg)
    requires x != [] && !s.received && MsgOk(s, m)
    ensures MsgOk(Arrive(s, x), m) && Holds(m, |s.log|)
  {
    hide OctetsOf, HasSent, IsSuffix, Plan, Sorted, Within, Underway;
    var plan, n := Plan(s, m), |s.log|;
    PlanGrows(s, x, m);
    InPlan(plan, n, m.passed);
    WithinMore(plan, n);
    SortedSnoc(plan, n);
    LogGrows(s.log, x, plan);
    if m.cursor.Some? { ArriveUnderway(s, x, m, plan); }
  }

  lemma {:induction false} ArriveUnderway(s: Content, x: Octets, m: Msg, plan: seq<Id>)
    requires x != [] && !s.received && Within(plan, |s.log|) && Within(plan + [|s.log|], |s.log| + 1)
    requires m.cursor.Some? && m.passed <= |plan| && Underway(s, m, plan)
    ensures Underway(Arrive(s, x), m, plan + [|s.log|]) && m.cursor.value < |s.log|
  {
    hide OctetsOf, HasSent, IsSuffix, Within;
    var n := |s.log|;
    InPlan(plan, n, m.passed);
    WithinMore(plan[..m.passed], n);
    LogGrows(s.log, x, plan);
    assert plan[m.passed] in plan;
    SuffixSnoc(plan[m.passed..], s.list, n);
    OctetsOfMore(s.log, x, plan[..m.passed]);
  }

  lemma {:induction false} PlanGrows(s: Content, x: Octets, m: Msg)
    requires x != [] && !s.received && m.born <= |s.log|
    ensures Plan(Arrive(s, x), m) == Plan(s, m) + [|s.log|]
  {
    RangeSnoc(m.born, |s.log|);
    AppendAssoc(m.first, Range(m.born, |s.log|), [|s.log|]);
  }

  lemma {:induction false} InPlan(plan: seq<Id>, n: nat, j: nat)
    requires j <= |plan|
    ensures (plan + [n])[j..] == plan[j..] + [n] && (plan + [n])[..j] == plan[..j]
    ensures j < |plan| ==> (plan + [n])[j] == plan[j]
  {
  }

  lemma {:induction false} WithinMore(plan: seq<Id>, n: nat)
    requires Within(plan, n)
    ensures Within(plan + [n], n + 1) && Within(plan, n + 1) && forall i | i in plan :: i < n
  {
  }

  lemma {:induction false} LogGrows(log: seq<Octets>, x: Octets, plan: seq<Id>)
    requires Within(plan, |log|)
    ensures forall i | i in plan :: 0 <= i < |log| && (log + [x])[i] == log[i]
  {
  }

  lemma {:induction false} ArriveKeeps(s: Content, x: Octets)
    requires Valid(s) && x != [] && !s.received
    ensures Valid(Arrive(s, x))
  {
    hide MsgOk;
    var s' := Arrive(s, x);
    var n := |s.log|;
    forall k | k in s.msgs ensures MsgOk(s', s'.msgs[k]) && Holds(s.msgs[k], n) { ArriveMsg(s, x, s.msgs[k]); }
    AllHold(s.msgs, n);
    SortedSnoc(s.list, n);
    forall i | 0 <= i < |s'.log| ensures Counted(s', i) { if i < n { assert Counted(s, i); } }
  }

  /** Steps that leave log and list alone leave the messages alone. */
  lemma {:induction false} SameLists(s: Content, s': Content, m: Msg)
    requires MsgOk(s, m) && s'.log == s.log && s'.list == s.list && (s.received ==> s'.received)
    ensures MsgOk(s', m)
  {
    hide OctetsOf;
    assert Plan(s', m) == Plan(s, m);
  }

  lemma {:induction false} ReceivedKeeps(s: Content)
    requires Valid(s)
    ensures Valid(Received(s)) && Valid(Abort(s))
  {
    hide MsgOk;
    forall k | k in s.msgs ensures MsgOk(Received(s), s.msgs[k]) && MsgOk(Abort(s), s.msgs[k]) {
      SameLists(s, Received(s), s.msgs[k]);
      SameLists(s, Abort(s), s.msgs[k]);
    }
    forall i | 0 <= i < |s.log| ensures Counted(Received(s), i) && Counted(Abort(s), i) { assert Counted(s, i); }
  }

  lemma {:induction false} ProtectKeeps(s: Content, i: Id)
    requires Valid(s) && i in s.list
    ensures Valid(Protect(s, i))
  {
    hide MsgOk;
    var s' := Protect(s, i);
    forall k | k in s.msgs ensures MsgOk(s', s.msgs[k]) { SameLists(s, s', s.msgs[k]); }
    forall j | 0 <= j < |s.log| ensures Counted(s', j) { assert Counted(s, j); }
  }

  lemma {:induction false} RegisterKeeps(s: Content, k: Id)
    requires Valid(s) && k !in s.msgs && s.list != []
    ensures Valid(Register(s, k))
  {
    hide MsgOk;
    var s' := Register(s, k);
    var m := s'.msgs[k];
    NewMsgOk(s, k);
    forall j | j in s'.msgs ensures MsgOk(s', s'.msgs[j]) { if j != k { SameLists(s, s', s.msgs[j]); } }
    SizeUpdate(s.msgs, k, m);
    forall i | 0 <= i < |s.log| ensures Counted(s', i) {
      assert Counted(s, i);
      HoldersUpdate(s.msgs, k, m, i);
      if i in s.list { HeadIsLeast(s.list, i); }
    }
  }

  lemma {:induction false} NewMsgOk(s: Content, k: Id)
    requires Sorted(s.list) && Within(s.list, |s.log|) && k !in s.msgs && s.list != []
    ensures MsgOk(Register(s, k), Register(s, k).msgs[k])
  {
    var m := Register(s, k).msgs[k];
    assert Plan(s, m) == s.list;
  }

  lemma {:induction false} HeadIsLeast(list: seq<Id>, i: Id)
    requires Sorted(list) && i in list
    ensures list[0] <= i
  {
  }

  lemma {:induction false} BeginKeeps(s: Content, k: Id, rewrite: Option<Rewrite>)
    requires Valid(s) && k in s.msgs && !s.msgs[k].started
    ensures s.list != [] && Valid(Begin(s, k, rewrite))
  {
    hide MsgOk, Skip, OctetsOf;
    FirstInList(s, s.msgs[k]);
    var s' := Begin(s, k, rewrite);
    BegunOk(s, k, rewrite);
    forall j | j in s'.msgs ensures MsgOk(s', s'.msgs[j]) { if j != k { SameLists(s, s', s.msgs[j]); } }
    SizeUpdate(s.msgs, k, s'.msgs[k]);
    forall i | 0 <= i < |s.log| ensures Counted(s', i) {
      assert Counted(s, i);
      HoldersUpdate(s.msgs, k, s'.msgs[k], i);
      if i in s.list {
        HeadIsLeast(s.list, i);
        if rewrite.Some? { BelowInList(s.list, Skip(s.log, s.list, rewrite.value.skip).0, i); }
      }
    }
    if rewrite.Some? { InPrefix(s.list, Skip(s.log, s.list, rewrite.value.skip).0); }
  }

  lemma {:induction false} FirstInList(s: Content, m: Msg)
    requires MsgOk(s, m) && !m.started
    ensures s.list != [] && m.cursor == Some(s.list[0]) && s.list == Plan(s, m)
  {
  }

  lemma {:induction false} InPrefix(list: seq<Id>, b: nat)
    requires b <= |list|
    ensures forall i | i in list[..b] :: i in list
  {
  }

  lemma {:induction false} BelowInList(list: seq<Id>, b: nat, i: Id)
    requires Sorted(list) && b < |list| && i in list
    ensures i in list[..b] <==> i < list[b]
  {
    var j :| 0 <= j < |list| && list[j] == i;
    if j < b { assert list[..b][j] == i; }
    if i in list[..b] {
      var l :| 0 <= l < b && list[..b][l] == i;
      assert list[l] == i;
    }
  }

  lemma {:induction false} BegunOk(s: Content, k: Id, rewrite: Option<Rewrite>)
    requires k in s.msgs && MsgOk(s, s.msgs[k]) && !s.msgs[k].started && s.list != [] && Within(s.list, |s.log|)
    ensures var s' := Begin(s, k, rewrite); MsgOk(s', s'.msgs[k])
  {
    hide Skip, OctetsOf;
    var s' := Begin(s, k, rewrite);
    var m := s'.msgs[k];
    assert Plan(s', m) == Plan(s, s.msgs[k]) == s.list;
    assert IsSuffix(s.list[m.passed..], s.list);
    if rewrite.Some? {
      SkipPassed(s.log, s.list, rewrite.value.skip);
      SentNothing(m, OctetsOf(s.log, s.list[..m.passed]) + s.log[m.cursor.value][..m.off]);
    }
  }

  lemma {:induction false} SentNothing(m: Msg, x: Octets)
    requires m.skipped == |x| && m.sent == m.prelude
    ensures HasSent(m, x)
  {
    assert x[|x|..] == [];
  }

  /** Moving by `n` octets passes `n` octets, or all there are. */
  lemma {:induction false} SkipPassed(log: seq<Octets>, bs: seq<Id>, n: nat)
    requires bs != [] && Within(bs, |log|)
    ensures var (b, off) := Skip(log, bs, n);
            && Within(bs[..b], |log|) && OctetsOf(log, bs[..b]) + log[bs[b]][..off] <= OctetsOf(log, bs)
            && |OctetsOf(log, bs[..b]) + log[bs[b]][..off]| == Clip(n, OctetsOf(log, bs))
  {
    hide OctetsOf;
    var size := |log[bs[0]]|;
    OctetsHead(log, bs);
    NoOctets(log);
    if n >= size && |bs| > 1 {
      SkipPassed(log, bs[1..], n - size);
      var (b, off) := Skip(log, bs[1..], n - size);
      assert bs[..b + 1][1..] == bs[1..][..b] && bs[1..][b] == bs[b + 1];
      OctetsHead(log, bs[..b + 1]);
      AppendAssoc(log[bs[0]], OctetsOf(log, bs[1..][..b]), log[bs[b + 1]][..off]);
    } else {
      assert bs[..0] == [];
      if n >= size { assert bs[1..] == [] && log[bs[0]][..size] == log[bs[0]]; }
    }
  }

  lemma {:induction false} OctetsHead(log: seq<Octets>, bs: seq<Id>)
    requires bs != [] && Within(bs, |log|)
    ensures Within(bs[1..], |log|) && OctetsOf(log, bs) == log[bs[0]] + OctetsOf(log, bs[1..])
  {
  }

  lemma {:induction false} NoOctets(log: seq<Octets>)
    ensures OctetsOf(log, []) == []
  {
  }

  // ---------------------------------------------------------------- sending

  /** A buffer held by two messages has two references. */
  lemma {:induction false} HeldTwice(s: Content, i: Id, k: Id, l: Id)
    requires |s.refs| == |s.extra| == |s.log| && i in s.list && Counted(s, i)
    requires k in s.msgs && l in s.msgs && k != l && Holds(s.msgs[k], i) && Holds(s.msgs[l], i)
    ensures s.refs[i] >= 2
  {
    TwoHolders(s.msgs, i, k, l);
  }

  lemma {:induction false} HeldOnce(s: Content, i: Id, k: Id)
    requires |s.refs| == |s.extra| == |s.log| && i in s.list && Counted(s, i)
    requires k in s.msgs && Holds(s.msgs[k], i)
    ensures s.refs[i] >= s.extra[i] + 1
  {
    HoldersRemove(s.msgs, k, i);
  }

  lemma {:induction false} SendingOn(s: Content, k: Id, n: nat)
    requires k in s.msgs && MsgOk(s, s.msgs[k]) && s.msgs[k].started && s.msgs[k].cursor.Some?
    requires s.msgs[k].off + n <= |s.log[s.msgs[k].cursor.value]|
    ensures var m := s.msgs[k]; var c := m.cursor.value;
            var m' := m.(off := m.off + n, sent := m.sent + s.log[c][m.off..m.off + n]);
            MsgOk(s, m')
  {
    hide OctetsOf, IsSuffix;
    var m := s.msgs[k];
    var c := m.cursor.value;
    var m' := m.(off := m.off + n, sent := m.sent + s.log[c][m.off..m.off + n]);
    var plan := Plan(s, m);
    assert Plan(s, m') == plan;
    AppendAssoc(OctetsOf(s.log, plan[..m.passed]), s.log[c][..m.off], s.log[c][m.off..m.off + n]);
    assert s.log[c][..m.off] + s.log[c][m.off..m.off + n] == s.log[c][..m.off + n];
    SentMore(m, OctetsOf(s.log, plan[..m.passed]) + s.log[c][..m.off], m', s.log[c][m.off..m.off + n]);
  }

  lemma {:induction false} SentMore(m: Msg, x: Octets, m': Msg, y: Octets)
    requires HasSent(m, x) && m'.skipped == m.skipped && m'.prelude == m.prelude && m'.sent == m.sent + y
    ensures HasSent(m', x + y)
  {
    CutAppend(x, y, m.skipped);
    AppendAssoc(m.prelude, x[m.skipped..], y);
  }

  lemma {:induction false} OctetsOfSnoc(log: seq<Octets>, ids: seq<Id>, i: Id)
    requires Within(ids + [i], |log|)
    ensures Within(ids, |log|) && 0 <= i < |log| && OctetsOf(log, ids + [i]) == OctetsOf(log, ids) + log[i]
  {
    assert (ids + [i])[|ids|] == i;
    forall j | 0 <= j < |ids| ensures 0 <= ids[j] < |log| { assert (ids + [i])[j] == ids[j]; }
    if ids == [] {
      assert ids + [i] == [i];
    } else {
      CutAppend(ids, [i], 1);
      OctetsOfSnoc(log, ids[1..], i);
      AppendAssoc(log[ids[0]], OctetsOf(log, ids[1..]), log[i]);
    }
  }

  /** The message itself, when it moves on from a buffer. */
  lemma {:induction false} MovedOn(s: Content, s': Content, m: Msg, next: Option<Id>)
    requires MsgOk(s, m) && m.started && m.cursor.Some? && Sorted(s.list)
    requires m.off == |s.log[m.cursor.value]| && next == NextOf(s.list, m.cursor.value) && (next.Some? || s.received)
    requires s'.log == s.log && s'.received == s.received
    requires s'.list == s.list || s'.list == Without(s.list, m.cursor.value)
    ensures MsgOk(s', m.(cursor := next, off := 0, complete := next.None?, passed := m.passed + 1))
  {
    hide OctetsOf, IsSuffix, NextOf, Without;
    var m' := m.(cursor := next, off := 0, complete := next.None?, passed := m.passed + 1);
    var plan, c := Plan(s, m), m.cursor.value;
    assert Plan(s', m') == plan;
    MovedInList(s.list, plan, m.passed);
    MovedSent(s.log, plan, m.passed);
  }

  /** The rest of the plan after its element `j`. */
  lemma {:induction false} MovedInList(list: seq<Id>, plan: seq<Id>, j: nat)
    requires Sorted(list) && Sorted(plan) && j < |plan| && IsSuffix(plan[j..], list)
    ensures NextOf(list, plan[j]) == if j + 1 < |plan| then Some(plan[j + 1]) else None
    ensures IsSuffix(plan[j + 1..], list) && IsSuffix(plan[j + 1..], Without(list, plan[j]))
  {
    hide NextOf, Without;
    var x, y := plan[j..], plan[j + 1..];
    assert x[1..] == y && x[0] == plan[j];
    NextInSuffix(list, x);
    SuffixTail(x, list);
    NotLater(plan, j);
    WithoutSuffix(list, y, plan[j]);
  }

  lemma {:induction false} MovedSent(log: seq<Octets>, plan: seq<Id>, j: nat)
    requires j < |plan| && Within(plan, |log|) && Within(plan[..j], |log|)
    ensures Within(plan[..j + 1], |log|)
    ensures OctetsOf(log, plan[..j]) + log[plan[j]][..|log[plan[j]]|] == OctetsOf(log, plan[..j + 1])
    ensures j + 1 < |plan| ==> OctetsOf(log, plan[..j + 1]) == OctetsOf(log, plan[..j + 1]) + log[plan[j + 1]][..0]
    ensures j + 1 == |plan| ==> plan[..j + 1] == plan
  {
    assert plan[..j] + [plan[j]] == plan[..j + 1];
    OctetsOfSnoc(log, plan[..j], plan[j]);
    assert log[plan[j]][..|log[plan[j]]|] == log[plan[j]];
  }

  lemma {:induction false} SuffixTail(x: seq<Id>, list: seq<Id>)
    requires IsSuffix(x, list) && x != []
    ensures IsSuffix(x[1..], list)
  {
    assert list[|list| - |x| + 1..] == list[|list| - |x|..][1..];
  }

  lemma {:induction false} NotLater(plan: seq<Id>, j: nat)
    requires Sorted(plan) && j < |plan|
    ensures plan[j] !in plan[j + 1..]
  {
  }

  /** Another message does not notice that a buffer is freed that it has passed. */
  lemma {:induction false} OthersUnhurt(s: Content, s': Content, m: Msg, c: Id)
    requires MsgOk(s, m) && !Holds(m, c) && c in s.list && Sorted(s.list)
    requires s'.log == s.log && s'.received == s.received && s'.list == Without(s.list, c)
    ensures MsgOk(s', m)
  {
    hide OctetsOf;
    var plan := Plan(s, m);
    assert Plan(s', m) == plan;
    if m.cursor.Some? {
      var x := plan[m.passed..];
      if !m.started { HeadIsLeast(s.list, c); }
      assert c !in x by { AllLater(plan, m.passed, c); }
      WithoutSuffix(s.list, x, c);
    }
  }

  lemma {:induction false} AllLater(plan: seq<Id>, j: nat, c: Id)
    requires Sorted(plan) && j < |plan| && c < plan[j]
    ensures c !in plan[j..]
  {
  }

  /** Beyond the cursor the list continues with the next buffer. */
  lemma {:induction false} Beyond(list: seq<Id>, x: seq<Id>, i: Id)
    requires Sorted(list) && IsSuffix(x, list) && x != [] && i in list && i > x[0]
    ensures |x| > 1 && x[1] <= i
  {
    var j :| 0 <= j < |list| && list[j] == i;
    var a := |list| - |x|;
    assert list[a] == x[0];
    assert j > a;
    assert list[a + 1] == x[1];
  }

  predicate CanSend(s: Content, k: Id, n: nat) {
    && k in s.msgs && s.msgs[k].started && s.msgs[k].cursor.Some?
    && 0 <= s.msgs[k].cursor.value < |s.log| && s.msgs[k].off + n <= |s.log[s.msgs[k].cursor.value]|
  }

  /** What a message has ahead. */
  lemma {:induction false} Ahead(s: Content, m: Msg) returns (x: seq<Id>)
    requires MsgOk(s, m) && m.cursor.Some?
    ensures x != [] && x[0] == m.cursor.value && IsSuffix(x, s.list) && 0 <= x[0] < |s.log|
  {
    hide OctetsOf;
    x := Plan(s, m)[m.passed..];
  }

  lemma {:induction false} CursorFacts(s: Content, m: Msg)
    requires MsgOk(s, m) && m.cursor.Some? && Sorted(s.list)
    ensures m.cursor.value in s.list && 0 <= m.cursor.value < |s.log| && NextOf(s.list, m.cursor.value) != m.cursor
    ensures forall i | i in s.list && i > m.cursor.value ::
              NextOf(s.list, m.cursor.value).Some? && NextOf(s.list, m.cursor.value).value <= i
    ensures NextOf(s.list, m.cursor.value).Some? ==> NextOf(s.list, m.cursor.value).value > m.cursor.value
  {
    hide MsgOk, NextOf;
    var x := Ahead(s, m);
    NextInSuffix(s.list, x);
    var a := |s.list| - |x|;
    assert s.list[a] == x[0] == m.cursor.value;
    if |x| > 1 { assert s.list[a + 1] == x[1]; }
    forall i | i in s.list && i > m.cursor.value ensures |x| > 1 && x[1] <= i { Beyond(s.list, x, i); }
  }

  /** Moving on from a buffer, with or without freeing it. */
  lemma {:induction false} MoveKeeps(s: Content, k: Id, m': Msg)
    requires Valid(s) && CanSend(s, k, 0)
    requires m'.cursor == NextOf(s.list, s.msgs[k].cursor.value)
    requires MsgOk(Release(s, s.msgs[k].cursor.value), m')
    ensures Valid(Release(s, s.msgs[k].cursor.value).(msgs := s.msgs[k := m']))
  {
    hide MsgOk, NextOf, Without, Plan;
    var m := s.msgs[k];
    var c := m.cursor.value;
    var s0 := Release(s, c);
    var s' := s0.(msgs := s.msgs[k := m']);
    assert MsgOk(s, m);
    CursorFacts(s, m);
    WithoutIs(s.list, c);
    assert Counted(s, c);
    HeldOnce(s, c, k);
    SizeUpdate(s.msgs, k, m');
    forall j | 0 <= j < |s'.list| ensures 0 <= s'.list[j] < |s.log| { assert s'.list[j] in s'.list && s'.list[j] in s.list; }
    forall j | j in s'.msgs ensures MsgOk(s', s'.msgs[j]) {
      if j == k {
        SameLists(s0, s', m');
      } else {
        assert MsgOk(s, s.msgs[j]);
        if s.refs[c] == 1 {
          if Holds(s.msgs[j], c) { HeldTwice(s, c, k, j); }
          OthersUnhurt(s, s', s.msgs[j], c);
        } else {
          SameLists(s, s', s.msgs[j]);
        }
      }
    }
    forall i | 0 <= i < |s.log| ensures Counted(s', i) {
      assert Counted(s, i);
      HoldersUpdate(s.msgs, k, m', i);
    }
  }

  /** Sending keeps the invariant, however much the link takes. */
  lemma {:induction false} SendKeeps(s: Content, k: Id, n: nat)
    requires Valid(s) && CanSend(s, k, n)
    ensures Valid(Send(s, k, n))
  {
    hide MsgOk, NextOf, Plan, OctetsOf, Without;
    var m := s.msgs[k];
    var c := m.cursor.value;
    var m' := m.(off := m.off + n, sent := m.sent + s.log[c][m.off..m.off + n]);
    assert MsgOk(s, m);
    SendingOn(s, k, n);
    var next := NextOf(s.list, c);
    if m'.off == |s.log[c]| && (next.Some? || s.received) {
      var m'' := m'.(cursor := next, off := 0, complete := next.None?, passed := m.passed + 1);
      MovedOn(s, Release(s, c), m', next);
      MoveKeeps(s, k, m'');
    } else {
      StayKeeps(s, k, m');
    }
  }

  lemma {:induction false} StayKeeps(s: Content, k: Id, m': Msg)
    requires Valid(s) && k in s.msgs && MsgOk(s, m') && m'.cursor == s.msgs[k].cursor
    ensures Valid(s.(msgs := s.msgs[k := m']))
  {
    hide MsgOk;
    var s' := s.(msgs := s.msgs[k := m']);
    SizeUpdate(s.msgs, k, m');
    forall j | j in s'.msgs ensures MsgOk(s', s'.msgs[j]) { SameLists(s, s', s'.msgs[j]); }
    forall i | 0 <= i < |s.log| ensures Counted(s', i) {
      assert Counted(s, i);
      HoldersUpdate(s.msgs, k, m', i);
    }
  }

  /** Another message keeps all it has ahead. */
  lemma {:induction false} FreeSpares(s: Content, s': Content, k: Id, l: Id)
    requires Valid(s) && k in s.msgs && l in s.msgs && k != l && s.msgs[k].cursor.Some?
    requires s'.log == s.log && s'.received == s.received && s'.list == Kept(s.list, s.refs, s.msgs[k].cursor.value)
    ensures MsgOk(s', s.msgs[l])
  {
    hide OctetsOf, Kept, Counted;
    var m, c := s.msgs[l], s.msgs[k].cursor.value;
    assert MsgOk(s, m);
    var plan := Plan(s, m);
    assert Plan(s', m) == plan;
    if m.cursor.Some? {
      var x := plan[m.passed..];
      AheadOfCursor(plan, m.passed);
      AheadShared(s, k, l, x);
      KeptSuffix(s.list, x, s.refs, c);
      if !m.started {
        assert x == plan == s.list;
        KeptAll(s.list, s.refs, c);
      }
    }
  }

  lemma {:induction false} AheadOfCursor(plan: seq<Id>, j: nat)
    requires Sorted(plan) && j < |plan|
    ensures forall l | 0 <= l < |plan[j..]| :: plan[j] <= plan[j..][l]
  {
  }

  /** What one message has ahead is not freed by another one. */
  lemma {:induction false} AheadShared(s: Content, k: Id, l: Id, x: seq<Id>)
    requires Valid(s) && k in s.msgs && l in s.msgs && k != l && s.msgs[k].cursor.Some? && s.msgs[l].cursor.Some?
    requires IsSuffix(x, s.list) && forall j | 0 <= j < |x| :: s.msgs[l].cursor.value <= x[j]
    ensures forall j | 0 <= j < |x| :: 0 <= x[j] < |s.refs| && !(x[j] >= s.msgs[k].cursor.value && s.refs[x[j]] == 1)
  {
    hide MsgOk;
    forall j | 0 <= j < |x| ensures 0 <= x[j] < |s.refs| && !(x[j] >= s.msgs[k].cursor.value && s.refs[x[j]] == 1) {
      assert x[j] == s.list[|s.list| - |x| + j];
      assert Counted(s, x[j]);
      if x[j] >= s.msgs[k].cursor.value { HeldTwice(s, x[j], k, l); }
    }
  }

  lemma {:induction false} FreeKeeps(s: Content, k: Id)
    requires Valid(s) && k in s.msgs
    ensures Valid(Free(s, k))
  {
    hide MsgOk, Kept;
    var s' := Free(s, k);
    var m := s.msgs[k];
    SizeRemove(s.msgs, k);
    if m.cursor.Some? { KeptIs(s.list, s.refs, m.cursor.value); }
    forall j | j in s'.msgs ensures MsgOk(s', s'.msgs[j]) {
      if m.cursor.Some? { FreeSpares(s, s', k, j); } else { SameLists(s, s', s.msgs[j]); }
    }
    forall i | 0 <= i < |s.log| ensures Counted(s', i) {
      assert Counted(s, i);
      HoldersRemove(s.msgs, k, i);
    }
    forall i | 0 <= i < |s.log| && s.extra[i] > 0 ensures i in s'.list {
      assert Counted(s, i);
      if m.cursor.Some? && i >= m.cursor.value { HeldOnce(s, i, k); }
    }
  }

  // ---------------------------------------------------------------- all runs

  datatype Event =
    | DoArrive(octets: Octets)
    | DoReceived
    | DoAbort
    | DoRegister(msg: Id, pending: Octets)
    | DoProtect(buffer: Id)
    | DoBegin(msg: Id, rewrite: Option<Rewrite>)
    | DoSend(msg: Id, accepted: nat)
    | DoFree(msg: Id)

  /** When a step can happen. A receiver is registered only if some octets have come; sending
      ends when the message is aborted. */
  predicate Enabled(s: Content, e: Event) {
    match e
    case DoArrive(x) => x != [] && !s.received
    case DoReceived => true
    case DoAbort => true
    case DoRegister(k, pending) => k !in s.msgs && (s.list != [] || (pending != [] && !s.received))
    case DoProtect(i) => i in s.list
    case DoBegin(k, _) => k in s.msgs && !s.msgs[k].started && !s.aborted
    case DoSend(k, n) => CanSend(s, k, n) && !s.aborted
    case DoFree(k) => k in s.msgs
  }

  /** If the list is empty when a receiver is registered, the buffer that is being filled joins
      the list early. */
  ghost function Step(s: Content, e: Event): Content
    requires Valid(s) && Enabled(s, e)
  {
    match e
    case DoArrive(x) => Arrive(s, x)
    case DoReceived => Received(s)
    case DoAbort => Abort(s)
    case DoRegister(k, pending) => if s.list != [] then Register(s, k) else Register(Arrive(s, pending), k)
    case DoProtect(i) => InList(s, i); Protect(s, i)
    case DoBegin(k, rewrite) => BeginKeeps(s, k, rewrite); Begin(s, k, rewrite)
    case DoSend(k, n) => Send(s, k, n)
    case DoFree(k) => Free(s, k)
  }

  lemma {:induction false} InList(s: Content, i: Id)
    requires Valid(s) && i in s.list
    ensures 0 <= i < |s.refs| == |s.extra|
  {
  }

  lemma {:induction false} StepKeeps(s: Content, e: Event)
    requires Valid(s) && Enabled(s, e)
    ensures Valid(Step(s, e))
  {
    hide Valid;
    match e
    case DoArrive(x) => ArriveKeeps(s, x);
    case DoReceived => ReceivedKeeps(s);
    case DoAbort => ReceivedKeeps(s);
    case DoRegister(k, pending) =>
      if s.list != [] {
        RegisterKeeps(s, k);
      } else {
        ArriveKeeps(s, pending);
        RegisterKeeps(Arrive(s, pending), k);
      }
    case DoProtect(i) => ProtectKeeps(s, i);
    case DoBegin(k, rewrite) => BeginKeeps(s, k, rewrite);
    case DoSend(k, n) => SendKeeps(s, k, n);
    case DoFree(k) => FreeKeeps(s, k);
  }

  /** The states that can be reached from `s`. Steps that are not possible are passed over. */
  ghost function Run(s: Content, es: seq<Event>): (r: Content)
    requires Valid(s)
    ensures Valid(r)
    decreases |es|
  {
    if es == [] then s
    else if !Enabled(s, es[0]) then Run(s, es[1..])
    else
      StepKeeps(s, es[0]);
      Run(Step(s, es[0]), es[1..])
  }

  /** Before anything is in the list nobody can be registered, so that the buffer that joins
      early has no references yet. */
  lemma {:induction false} NobodyBefore(s: Content)
    requires Valid(s) && !s.received
    ensures s.list == [] ==> s.fanout == 0 && s.msgs == map[]
  {
    forall k | k in s.msgs ensures s.list != [] { CursorInList(s, s.msgs[k]); }
    if s.list == [] { assert s.msgs.Keys == {}; }
  }

  lemma {:induction false} CursorInList(s: Content, m: Msg)
    requires MsgOk(s, m) && !s.received
    ensures s.list != []
  {
  }

  /** In no run is a buffer freed that a registered message still has to send: all of it is in
      the list. */
  lemma {:induction false} NothingAheadIsFreed(es: seq<Event>, k: Id, j: nat)
    ensures Valid(Empty())
    ensures var s := Run(Empty(), es);
            k in s.msgs && s.msgs[k].passed <= j < |Plan(s, s.msgs[k])| ==> Plan(s, s.msgs[k])[j] in s.list
  {
    EmptyIsValid();
    var s := Run(Empty(), es);
    if k in s.msgs {
      var m := s.msgs[k];
      assert MsgOk(s, m);
      var plan := Plan(s, m);
      if m.passed <= j < |plan| {
        var x := plan[m.passed..];
        assert plan[j] == x[j - m.passed] == s.list[|s.list| - |x| + (j - m.passed)];
      }
    }
  }

  lemma {:induction false} StepProtects(s: Content, e: Event, i: Id)
    requires Valid(s) && Enabled(s, e) && 0 <= i < |s.log|
    ensures |Step(s, e).extra| >= |s.extra| && Step(s, e).extra[i] >= s.extra[i]
  {
    hide MsgOk, Skip;
    if e.DoBegin? { BeginKeeps(s, e.msg, e.rewrite); }
  }

  /** A buffer that a parsed section refers to, or that was skipped with the old annotations,
      outlives all sends and frees. */
  lemma {:induction false} ProtectedOutlives(s: Content, es: seq<Event>, i: Id)
    requires Valid(s) && 0 <= i < |s.log| && s.extra[i] > 0
    ensures i in s.list && i in Run(s, es).list
    decreases |es|
  {
    hide MsgOk, Step;
    if es != [] {
      if Enabled(s, es[0]) {
        StepKeeps(s, es[0]);
        StepProtects(s, es[0], i);
        ProtectedOutlives(Step(s, es[0]), es[1..], i);
      } else {
        ProtectedOutlives(s, es[1..], i);
      }
    }
  }

  /** A reference to each of these buffers. */
  function Protects(ids: seq<nat>): seq<Event> {
    if ids == [] then [] else [DoProtect(ids[0])] + Protects(ids[1..])
  }

  lemma {:induction false} ProtectSteps(s: Content, ids: seq<nat>)
    requires Valid(s) && forall i | i in ids :: i in s.list
    ensures var r := Run(s, Protects(ids));
            && r.log == s.log && r.list == s.list && |r.extra| == |s.extra| == |s.log|
            && (forall i | 0 <= i < |s.extra| :: r.extra[i] >= s.extra[i])
            && forall i | i in ids :: 0 <= i < |r.extra| && r.extra[i] > 0
    decreases |ids|
  {
    hide MsgOk, Counted;
    if ids != [] {
      var e := DoProtect(ids[0]);
      var es := Protects(ids);
      assert es[0] == e && es[1..] == Protects(ids[1..]);
      StepKeeps(s, e);
      InList(s, ids[0]);
      ProtectSteps(Step(s, e), ids[1..]);
    }
  }

  lemma {:induction false} ProtectsSnoc(ids: seq<nat>, i: nat)
    ensures Protects(ids + [i]) == Protects(ids) + [DoProtect(i)]
  {
    if ids == [] {
      assert ids + [i] == [i] && [i][1..] == [];
    } else {
      CutAppend(ids, [i], 1);
      ProtectsSnoc(ids[1..], i);
      AppendAssoc([DoProtect(ids[0])], Protects(ids[1..]), [DoProtect(i)]);
    }
  }

  // ---------------------------------------------------------------- what has been freed

  /** Every buffer that has arrived is in the list or has been freed, in one way or the other. */
  predicate Accounted(s: Content) { |s.list| + s.freed + s.dropped == |s.log| }

  lemma {:induction false} OneShorter(list: seq<Id>, b: Id)
    requires b in list
    ensures |Without(list, b)| == |list| - 1
  {
    if list[0] != b { OneShorter(list[1..], b); }
  }

  lemma {:induction false} KeptShorter(list: seq<Id>, refs: seq<nat>, c: Id)
    requires Within(list, |refs|)
    ensures |Kept(list, refs, c)| <= |list|
  {
    if list != [] { KeptShorter(list[1..], refs, c); }
  }

  lemma {:induction false} StepAccounts(s: Content, e: Event)
    requires Valid(s) && Enabled(s, e) && Accounted(s)
    ensures Accounted(Step(s, e))
  {
    hide MsgOk, Kept, Without, NextOf, Skip, OctetsOf, Lowered, Raised, Counted;
    match e
    case DoSend(k, n) =>
      assert MsgOk(s, s.msgs[k]);
      CursorFacts(s, s.msgs[k]);
      OneShorter(s.list, s.msgs[k].cursor.value);
    case DoFree(k) => if s.msgs[k].cursor.Some? { KeptShorter(s.list, s.refs, s.msgs[k].cursor.value); }
    case DoBegin(k, rewrite) => BeginKeeps(s, k, rewrite);
    case _ =>
  }

  lemma {:induction false} RunAccounts(s: Content, es: seq<Event>)
    requires Valid(s) && Accounted(s)
    ensures Accounted(Run(s, es))
    decreases |es|
  {
    hide Valid, Step, Enabled, Accounted;
    if es != [] {
      if Enabled(s, es[0]) {
        StepKeeps(s, es[0]);
        StepAccounts(s, es[0]);
        RunAccounts(Step(s, es[0]), es[1..]);
      } else {
        RunAccounts(s, es[1..]);
      }
    }
  }

  /** A sorted selection of the first `n` numbers has them all if it has `n`. */
  lemma {:induction false} AllOrFewer(list: seq<Id>, n: nat)
    requires Sorted(list) && Within(list, n)
    ensures |list| <= n && (|list| == n <==> forall i | 0 <= i < n :: i in list)
    decreases n
  {
    if list != [] { SomeWithin(list, n); }
    if n > 0 {
      if list != [] && list[|list| - 1] == n - 1 {
        var front := list[..|list| - 1];
        AllOrFewer(front, n - 1);
        assert list == front + [n - 1];
        if |list| == n {
          forall i | 0 <= i < n ensures i in list { if i < n - 1 { assert i in front; } }
        }
        if forall i | 0 <= i < n :: i in list {
          forall i | 0 <= i < n - 1 ensures i in front { assert i in list; }
        }
      } else {
        forall i | 0 <= i < |list| ensures list[i] < n - 1 { if i < |list| - 1 { assert list[i] < list[|list| - 1]; } }
        AllOrFewer(list, n - 1);
        assert n - 1 !in list;
      }
    }
  }

  lemma {:induction false} SomeWithin(list: seq<Id>, n: nat)
    requires list != [] && Within(list, n)
    ensures n > 0
  {
    assert list[0] < n;
  }

  /** A check that is not refused finds every buffer where it was, the one where parsing goes on among
      them, if and only if no receiver took a buffer with it when it went away. */
  lemma {:induction false} UnrefusedCheck(es: seq<Event>)
    ensures Valid(Empty())
    ensures var s := Run(Empty(), es);
            s.freed == 0 ==> (s.dropped == 0 <==> forall i | 0 <= i < |s.log| :: i in s.list)
  {
    hide Run, MsgOk, Counted;
    EmptyIsValid();
    RunAccounts(Empty(), es);
    var s := Run(Empty(), es);
    AllOrFewer(s.list, |s.log|);
  }

  /** The only receiver is freed before it has sent anything: the buffer goes with it, and as nothing was
      sent, a check of the message is not refused. */
  lemma {:induction false} SoleReceiverLeaves() returns (es: seq<Event>)
    ensures Valid(Empty())
    ensures var s := Run(Empty(), es); s.freed == 0 && s.dropped == 1 && s.list == [1] && |s.log| == 2
  {
    hide Valid;
    EmptyIsValid();
    es := [];
    RunSnoc(Empty(), es, DoArrive([1]));
    es := es + [DoArrive([1])];
    RunSnoc(Empty(), es, DoRegister(1, []));
    es := es + [DoRegister(1, [])];
    var s2 := Run(Empty(), es);
    assert s2.refs == [1] && s2.list == [0];
    RunSnoc(Empty(), es, DoFree(1));
    es := es + [DoFree(1)];
    var s3 := Run(Empty(), es);
    assert s3.list == [] && s3.dropped == 1;
    RunSnoc(Empty(), es, DoArrive([2]));
    es := es + [DoArrive([2])];
  }

  // ---------------------------------------------------------------- what is sent

  /** A selection of non-empty buffers has all the octets only if it has all the buffers. */
  lemma {:induction false} SelectionSize(log: seq<Octets>, ids: seq<Id>, a: nat)
    requires forall i | 0 <= i < |log| :: log[i] != []
    requires Sorted(ids) && Within(ids, |log|) && a <= |log| && forall j | 0 <= j < |ids| :: a <= ids[j]
    ensures |OctetsOf(log, ids)| <= |Flat(log[a..])|
    ensures |OctetsOf(log, ids)| == |Flat(log[a..])| <==> ids == Range(a, |log|)
    ensures ids == Range(a, |log|) ==> OctetsOf(log, ids) == Flat(log[a..])
    decreases |log| - a
  {
    if a < |log| {
      assert log[a..][0] == log[a] && log[a..][1..] == log[a + 1..];
      if ids != [] && ids[0] == a {
        SelectionSize(log, ids[1..], a + 1);
        RangeCons(ids, a, |log|);
      } else {
        SelectionSize(log, ids, a + 1);
        assert |Flat(log[a..])| == |log[a]| + |Flat(log[a + 1..])|;
      }
    }
  }

  lemma {:induction false} RangeCons(ids: seq<Id>, a: nat, n: nat)
    requires ids != [] && a < n
    ensures ids == Range(a, n) <==> ids[0] == a && ids[1..] == Range(a + 1, n)
  {
    assert Range(a, n) == [a] + Range(a + 1, n);
    assert ids == [ids[0]] + ids[1..];
  }

  lemma {:induction false} PlanIsAll(m: Msg, n: nat)
    requires m.born <= n
    ensures m.first + Range(m.born, n) == Range(0, n) <==> m.first == Range(0, m.born)
  {
    var plan := m.first + Range(m.born, n);
    if plan == Range(0, n) {
      assert |m.first| == m.born;
      assert m.first == plan[..m.born] == Range(0, m.born);
    }
  }

  /** A message that is complete has sent, in order, the octets of exactly the buffers that were there
      when it was registered or came later; if it replaced the annotations, the octets it skipped are
      replaced by what it sent first. Without annotation processing that is the whole message if and
      only if no buffer had been freed when it was registered. */
  ghost predicate SentAsPlanned(s: Content, k: Id)
    requires k in s.msgs
  {
    var m := s.msgs[k];
    && s.received && Within(Plan(s, m), |s.log|) && m.skipped <= |OctetsOf(s.log, Plan(s, m))|
    && m.sent == m.prelude + OctetsOf(s.log, Plan(s, m))[m.skipped..]
    && (!m.annotated ==> m.sent == OctetsOf(s.log, Plan(s, m)))
    && (!m.annotated ==> (m.sent == Flat(s.log) <==> m.first == Range(0, m.born)))
    && (m.first == Range(0, m.born) ==> OctetsOf(s.log, Plan(s, m)) == Flat(s.log))
  }

  lemma {:induction false} CompletedIn(s: Content, k: Id)
    requires Valid(s) && k in s.msgs && s.msgs[k].complete
    ensures SentAsPlanned(s, k)
  {
    hide OctetsOf, Flat;
    var m := s.msgs[k];
    assert MsgOk(s, m);
    SelectionSize(s.log, Plan(s, m), 0);
    PlanIsAll(m, |s.log|);
    assert s.log[0..] == s.log;
    if !m.annotated { assert [] + OctetsOf(s.log, Plan(s, m))[0..] == OctetsOf(s.log, Plan(s, m)); }
  }

  /** So it is in every run. */
  lemma {:induction false} CompletedMessage(es: seq<Event>, k: Id)
    ensures Valid(Empty())
    ensures var s := Run(Empty(), es); k in s.msgs && s.msgs[k].complete ==> SentAsPlanned(s, k)
  {
    hide Run, SentAsPlanned;
    EmptyIsValid();
    var s := Run(Empty(), es);
    if k in s.msgs && s.msgs[k].complete { CompletedIn(s, k); }
  }

  lemma {:induction false} RunSnoc(s: Content, es: seq<Event>, e: Event)
    requires Valid(s) && Enabled(Run(s, es), e)
    ensures Run(s, es + [e]) == Step(Run(s, es), e)
    decreases |es|
  {
    hide Valid, Step, Enabled;
    if es == [] {
      assert es + [e] == [e] && [e][1..] == [];
      StepKeeps(s, e);
    } else {
      CutAppend(es, [e], 1);
      if Enabled(s, es[0]) {
        StepKeeps(s, es[0]);
        RunSnoc(Step(s, es[0]), es[1..], e);
      } else {
        RunSnoc(s, es[1..], e);
      }
    }
  }

  /** A buffer can indeed be freed before a receiver is registered, which then completes without
      having sent it. */
  lemma {:induction false} LateReceiver() returns (es: seq<Event>)
    ensures Valid(Empty())
    ensures var s := Run(Empty(), es);
            && 2 in s.msgs && s.msgs[2].complete && !s.msgs[2].annotated
            && s.msgs[2].sent == [2] && Flat(s.log) == [1, 2]
  {
    hide Valid;
    EmptyIsValid();
    es := [];
    RunSnoc(Empty(), es, DoArrive([1]));
    es := es + [DoArrive([1])];
    RunSnoc(Empty(), es, DoArrive([2]));
    es := es + [DoArrive([2])];
    var s2 := Run(Empty(), es);
    assert s2 == Content([[1], [2]], [0, 1], [0, 0], [0, 0], 0, map[], false, false, 0, 0);
    RunSnoc(Empty(), es, DoRegister(1, []));
    es := es + [DoRegister(1, [])];
    var s3 := Run(Empty(), es);
    assert s3.refs == [1, 1];
    RunSnoc(Empty(), es, DoBegin(1, None));
    es := es + [DoBegin(1, None)];
    RunSnoc(Empty(), es, DoSend(1, 1));
    es := es + [DoSend(1, 1)];
    es := LateCompletes(es);
  }

  /** A receiver that comes when only the second of two buffers is left. */
  lemma {:induction false} LateCompletes(before: seq<Event>) returns (es: seq<Event>)
    requires Valid(Empty())
    requires var s := Run(Empty(), before); s.log == [[1], [2]] && s.list == [1] && !s.received && !s.aborted && 2 !in s.msgs
    ensures var s := Run(Empty(), es);
            && 2 in s.msgs && s.msgs[2].complete && !s.msgs[2].annotated
            && s.msgs[2].sent == [2] && Flat(s.log) == [1, 2]
  {
    hide Valid;
    es := before;
    RunSnoc(Empty(), es, DoRegister(2, []));
    es := es + [DoRegister(2, [])];
    RunSnoc(Empty(), es, DoBegin(2, None));
    es := es + [DoBegin(2, None)];
    RunSnoc(Empty(), es, DoReceived);
    es := es + [DoReceived];
    var s := Run(Empty(), es);
    assert s.log[1] == [2] && NextOf(s.list, 1) == None;
    RunSnoc(Empty(), es, DoSend(2, 1));
    es := es + [DoSend(2, 1)];
    assert Flat([[1], [2]]) == [1, 2];
  }
}
