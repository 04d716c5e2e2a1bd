/** When buffers are freed, and that sending gets to its end: a buffer that has been held stays exactly
    as long as a message has yet to send it or something else refers to it.
 */
module Freeing {
  import opened Octets
  import opened Parse
  import opened Seqs
  import opened Options
  import opened Fanout

  // ---------------------------------------------------------------- who needs a buffer

  /** Some message other than `k` has its cursor at or before the buffer. */
  ghost predicate NeededByOther(s: Content, k: Id, i: Id) {
    exists l :: l in s.msgs && l != k && s.msgs[l].cursor.Some? && s.msgs[l].cursor.value <= i
  }

  ghost predicate Needed(s: Content, i: Id) {
    exists l :: l in s.msgs && s.msgs[l].cursor.Some? && s.msgs[l].cursor.value <= i
  }

  lemma {:induction false} SomeHolder(msgs: map<Id, Msg>, i: Id)
    ensures |Holders(msgs, i)| > 0 <==> exists l :: l in msgs && Holds(msgs[l], i)
  {
    var a := Holders(msgs, i);
    if |a| > 0 {
      var l := Pick(a);
      assert l in msgs && Holds(msgs[l], i);
    }
    forall l | l in msgs && Holds(msgs[l], i) ensures |a| > 0 { assert l in a; }
  }

  lemma {:induction false} Pick<T>(a: set<T>) returns (x: T)
    requires |a| > 0
    ensures x in a
  {
    assert a != {};
    x :| x in a;
  }

  /** The references of a listed buffer, in terms of who needs it. */
  lemma {:induction false} RefsMean(s: Content, i: Id)
    requires Valid(s) && i in s.list
    ensures 0 <= i < |s.log| && (s.refs[i] > 0 <==> s.extra[i] > 0 || Needed(s, i))
  {
    hide MsgOk;
    InList(s, i);
    assert Counted(s, i);
    SomeHolder(s.msgs, i);
    assert Needed(s, i) <==> exists l :: l in s.msgs && Holds(s.msgs[l], i) by {
      forall l | l in s.msgs ensures Holds(s.msgs[l], i) <==> s.msgs[l].cursor.Some? && s.msgs[l].cursor.value <= i { }
    }
  }

  // ---------------------------------------------------------------- sending

  /** Does this send take the rest of the buffer at the cursor, so that the message moves on? */
  predicate MovesOn(s: Content, k: Id, n: nat)
    requires CanSend(s, k, n)
  {
    var m := s.msgs[k];
    m.off + n == |s.log[m.cursor.value]| && (s.received || exists i :: i in s.list && i > m.cursor.value)
  }

  lemma {:induction false} NextMeans(s: Content, m: Msg)
    requires MsgOk(s, m) && m.cursor.Some? && Sorted(s.list)
    ensures var next := NextOf(s.list, m.cursor.value);
            && (next.Some? <==> exists i :: i in s.list && i > m.cursor.value)
            && (next.Some? ==> next.value in s.list && next.value > m.cursor.value)
            && (next.Some? ==> forall i | i in s.list && i > m.cursor.value :: next.value <= i)
  {
    hide MsgOk, NextOf;
    CursorFacts(s, m);
    var x := Ahead(s, m);
    NextInSuffix(s.list, x);
    if |x| > 1 { assert s.list[|s.list| - |x| + 1] == x[1] && x[1] in s.list && x[1] > m.cursor.value; }
  }

  /** One round of sending, written out. The octets taken are sent. If they were the rest of the buffer,
      and another one has arrived or none will, the message goes on with the next buffer of the list,
      or is complete if there is none. The buffer it leaves stays in the list exactly if a parsed section
      or another message needs it; it is counted as freed otherwise. All other buffers stay. */
  lemma {:induction false} SendRound(s: Content, k: Id, n: nat)
    requires Valid(s) && Enabled(s, DoSend(k, n))
    ensures var m := s.msgs[k]; var c := m.cursor.value;
            var s' := Step(s, DoSend(k, n));
            && k in s'.msgs && s'.msgs[k].sent == m.sent + s.log[c][m.off..m.off + n]
            && (if MovesOn(s, k, n) then s'.msgs[k].off == 0 else s'.msgs[k].off == m.off + n && s'.msgs[k].cursor == m.cursor)
            && (MovesOn(s, k, n) ==>
                  match s'.msgs[k].cursor
                  case Some(j) => j in s.list && j > c && !s'.msgs[k].complete && forall i | i in s.list && i > c :: j <= i
                  case None => s'.msgs[k].complete && forall i | i in s.list :: i <= c)
            && (forall l | l in s.msgs && l != k :: l in s'.msgs && s'.msgs[l] == s.msgs[l])
            && (forall i | i != c :: i in s'.list <==> i in s.list)
            && (if MovesOn(s, k, n) then c in s'.list <==> s.extra[c] > 0 || NeededByOther(s, k, c) else c in s'.list)
            && s'.freed == s.freed + (if c in s'.list then 0 else 1) && s'.dropped == s.dropped
            && s'.extra == s.extra && s'.log == s.log
  {
    hide MsgOk, NextOf, Without, Sorted, Within;
    var m := s.msgs[k];
    var c := m.cursor.value;
    SortedList(s);
    assert MsgOk(s, m);
    CursorFacts(s, m);
    NextMeans(s, m);
    WithoutIs(s.list, c);
    Remaining(s, k);
  }

  lemma {:induction false} SortedList(s: Content)
    requires Valid(s)
    ensures Sorted(s.list)
  {
  }

  /** The references to the buffer at the cursor, without this one. */
  lemma {:induction false} Remaining(s: Content, k: Id)
    requires Valid(s) && k in s.msgs && s.msgs[k].cursor.Some?
    ensures var c := s.msgs[k].cursor.value;
            c in s.list && 0 <= c < |s.log| && s.refs[c] > 0 && (s.refs[c] == 1 <==> !(s.extra[c] > 0 || NeededByOther(s, k, c)))
  {
    hide MsgOk;
    var c := s.msgs[k].cursor.value;
    assert MsgOk(s, s.msgs[k]);
    CursorFacts(s, s.msgs[k]);
    OthersCount(s, k, c);
  }

  lemma {:induction false} OthersCount(s: Content, k: Id, i: Id)
    requires Valid(s) && k in s.msgs && i in s.list && Holds(s.msgs[k], i)
    ensures 0 <= i < |s.log| && s.refs[i] > 0 && (s.refs[i] == 1 <==> !(s.extra[i] > 0 || NeededByOther(s, k, i)))
  {
    hide MsgOk;
    InList(s, i);
    assert Counted(s, i);
    HoldersRemove(s.msgs, k, i);
    SomeHolder(s.msgs - {k}, i);
    assert NeededByOther(s, k, i) <==> exists l :: l in s.msgs - {k} && Holds((s.msgs - {k})[l], i) by {
      forall l | l in s.msgs - {k} && Holds((s.msgs - {k})[l], i) ensures NeededByOther(s, k, i) { assert s.msgs[l] == (s.msgs - {k})[l]; }
      forall l | l in s.msgs && l != k && s.msgs[l].cursor.Some? && s.msgs[l].cursor.value <= i
        ensures exists j :: j in s.msgs - {k} && Holds((s.msgs - {k})[j], i)
      {
        assert l in s.msgs - {k} && Holds((s.msgs - {k})[l], i);
      }
    }
  }

  // ---------------------------------------------------------------- a receiver goes away

  /** A receiver that goes away, written out: of the buffers it had ahead exactly those stay that a parsed
      section or another message needs; all others are as they were, and so are all other messages. */
  lemma {:induction false} ReceiverLeaves(s: Content, k: Id)
    requires Valid(s) && k in s.msgs
    ensures var m := s.msgs[k];
            var s' := Step(s, DoFree(k));
            && s'.msgs == s.msgs - {k} && s'.freed == s.freed && s'.extra == s.extra && s'.log == s.log
            && forall i :: i in s'.list <==>
                 i in s.list && (m.cursor.Some? && m.cursor.value <= i ==> 0 <= i < |s.extra| && (s.extra[i] > 0 || NeededByOther(s, k, i)))
  {
    hide MsgOk, Kept, Lowered;
    var m := s.msgs[k];
    var s' := Step(s, DoFree(k));
    if m.cursor.Some? {
      KeptIs(s.list, s.refs, m.cursor.value);
      forall i ensures i in s'.list <==>
                 i in s.list && (m.cursor.value <= i ==> 0 <= i < |s.extra| && (s.extra[i] > 0 || NeededByOther(s, k, i)))
      {
        if i in s.list && m.cursor.value <= i { OthersCount(s, k, i); }
      }
    }
  }

  // ---------------------------------------------------------------- all runs

  /** Once a listed buffer has a reference it is not left in the list without one. */
  predicate HeldOrGone(s: Content, i: Id) { 0 <= i < |s.refs| && (i in s.list ==> s.refs[i] > 0) }

  lemma {:induction false} StepHeld(s: Content, e: Event, i: Id)
    requires Valid(s) && Enabled(s, e) && HeldOrGone(s, i)
    ensures HeldOrGone(Step(s, e), i)
  {
    hide MsgOk, Kept, Without, NextOf, Skip, OctetsOf, Counted, Sorted, Within, Lowered;
    SortedList(s);
    match e
    case DoArrive(x) => NotAgain(s, x, i);
    case DoSend(k, n) =>
      assert MsgOk(s, s.msgs[k]);
      CursorFacts(s, s.msgs[k]);
      WithoutIs(s.list, s.msgs[k].cursor.value);
    case DoFree(k) => if s.msgs[k].cursor.Some? { FreeHeld(s, k, i); }
    case DoRegister(k, pending) => if s.list == [] { NotAgain(s, pending, i); } RegisterHeld(s, k, pending, i);
    case DoBegin(k, rewrite) => BeginKeeps(s, k, rewrite);
    case DoProtect(j) => InList(s, j);
    case _ =>
  }

  lemma {:induction false} NotAgain(s: Content, x: Octets, i: Id)
    requires Valid(s) && x != [] && !s.received && 0 <= i < |s.log|
    ensures i in Arrive(s, x).list <==> i in s.list
  {
  }

  lemma {:induction false} FreeHeld(s: Content, k: Id, i: Id)
    requires Valid(s) && k in s.msgs && s.msgs[k].cursor.Some? && HeldOrGone(s, i)
    ensures HeldOrGone(Free(s, k), i)
  {
    hide MsgOk, Kept, Counted;
    KeptIs(s.list, s.refs, s.msgs[k].cursor.value);
  }

  lemma {:induction false} RegisterHeld(s: Content, k: Id, pending: Octets, i: Id)
    requires Valid(s) && Enabled(s, DoRegister(k, pending)) && HeldOrGone(s, i)
    ensures HeldOrGone(Step(s, DoRegister(k, pending)), i)
  {
    hide MsgOk, Counted;
    if s.list == [] { NotAgain(s, pending, i); }
  }

  lemma {:induction false} RunHeld(s: Content, es: seq<Event>, i: Id)
    requires Valid(s) && HeldOrGone(s, i)
    ensures HeldOrGone(Run(s, es), i)
    decreases |es|
  {
    hide Valid, Step, Enabled, HeldOrGone;
    if es != [] {
      if Enabled(s, es[0]) {
        StepKeeps(s, es[0]);
        StepHeld(s, es[0], i);
        RunHeld(Step(s, es[0]), es[1..], i);
      } else {
        RunHeld(s, es[1..], i);
      }
    }
  }

  /** In every run: a buffer that some message has had ahead, or a parsed section has referred to, is in the
      list afterwards exactly as long as that is so. Nothing is kept that nobody needs. */
  lemma {:induction false} KeptWhileNeeded(s: Content, es: seq<Event>, i: Id)
    requires Valid(s) && i in s.list && (s.extra[i] > 0 || Needed(s, i))
    ensures var r := Run(s, es);
            && 0 <= i < |r.extra|
            && (i in r.list ==> r.extra[i] > 0 || Needed(r, i))
            && (r.extra[i] > 0 ==> i in r.list)
            && (forall k | k in r.msgs && r.msgs[k].cursor.Some? && i in Plan(r, r.msgs[k])[r.msgs[k].passed..] :: i in r.list)
  {
    hide Valid, Run, MsgOk, Plan, Needed;
    RefsMean(s, i);
    Kept1(s, i);
    RunHeld(s, es, i);
    var r := Run(s, es);
    Kept2(r, i);
    if i in r.list { RefsMean(r, i); }
    forall k | k in r.msgs && r.msgs[k].cursor.Some? && i in Plan(r, r.msgs[k])[r.msgs[k].passed..] ensures i in r.list { PlanListed(r, k, i); }
  }

  lemma {:induction false} Kept1(s: Content, i: Id)
    requires Valid(s) && i in s.list && 0 <= i < |s.log|
    ensures |s.refs| == |s.extra| == |s.log| && (s.refs[i] > 0 ==> HeldOrGone(s, i))
  {
  }

  lemma {:induction false} Kept2(s: Content, i: Id)
    requires Valid(s) && HeldOrGone(s, i)
    ensures |s.refs| == |s.extra| == |s.log| && (s.extra[i] > 0 ==> i in s.list)
    ensures forall k | k in s.msgs && s.msgs[k].cursor.Some? :: s.msgs[k].passed <= |Plan(s, s.msgs[k])|
  {
    hide Plan;
    forall k | k in s.msgs ensures MsgOk(s, s.msgs[k]) { }
  }

  lemma {:induction false} PlanListed(s: Content, k: Id, i: Id)
    requires Valid(s) && k in s.msgs && s.msgs[k].cursor.Some? && s.msgs[k].passed <= |Plan(s, s.msgs[k])|
    requires i in Plan(s, s.msgs[k])[s.msgs[k].passed..]
    ensures i in s.list
  {
    hide OctetsOf, HasSent, Plan, Within, Sorted, Counted, IsSuffix;
    var m := s.msgs[k];
    assert MsgOk(s, m);
    InSuffix(Plan(s, m)[m.passed..], s.list, i);
  }

  lemma {:induction false} InSuffix(x: seq<Id>, list: seq<Id>, i: Id)
    requires IsSuffix(x, list) && i in x
    ensures i in list
  {
    var j :| 0 <= j < |x| && x[j] == i;
    assert list[|list| - |x| + j] == i;
  }

  // ---------------------------------------------------------------- sending ends

  /** What is left of the buffer at the cursor, once all of the message has arrived: taking it moves on. */
  lemma {:induction false} SendBuffer(s: Content, k: Id) returns (e: Event, s': Content)
    requires Valid(s) && k in s.msgs && s.msgs[k].started && s.msgs[k].cursor.Some? && s.received && !s.aborted
    ensures e.DoSend? && e.msg == k && Enabled(s, e) && s' == Step(s, e) && Valid(s')
    ensures k in s'.msgs && s'.msgs[k].started && s'.received && !s'.aborted
    ensures s.msgs[k].passed < |Plan(s, s.msgs[k])| && |Plan(s', s'.msgs[k])| == |Plan(s, s.msgs[k])|
    ensures s'.msgs[k].passed == s.msgs[k].passed + 1
  {
    hide OctetsOf, HasSent, NextOf, Without;
    var m := s.msgs[k];
    assert MsgOk(s, m);
    CursorFacts(s, m);
    e := DoSend(k, |s.log[m.cursor.value]| - m.off);
    SendKeeps(s, k, e.accepted);
    s' := Step(s, e);
    assert s'.log == s.log && s'.msgs[k].first == m.first && s'.msgs[k].born == m.born;
  }

  /** From every state in which a message has been started, all octets have arrived and nothing is aborted,
      it takes only sends of this message to complete it. */
  lemma {:induction false} CanFinish(s: Content, k: Id) returns (es: seq<Event>)
    requires Valid(s) && k in s.msgs && s.msgs[k].started && s.received && !s.aborted
    ensures (forall i | 0 <= i < |es| :: es[i].DoSend? && es[i].msg == k)
    ensures k in Run(s, es).msgs && Run(s, es).msgs[k].complete && SentAsPlanned(Run(s, es), k)
    decreases if s.msgs[k].passed < |Plan(s, s.msgs[k])| then |Plan(s, s.msgs[k])| - s.msgs[k].passed else 0
  {
    hide Valid, Step, Enabled, Plan, SentAsPlanned;
    if s.msgs[k].cursor.None? {
      es := [];
      Ended(s, k);
      CompletedIn(s, k);
    } else {
      var e, s' := SendBuffer(s, k);
      var more := CanFinish(s', k);
      es := [e] + more;
      assert es[1..] == more;
    }
  }

  lemma {:induction false} Ended(s: Content, k: Id)
    requires Valid(s) && k in s.msgs && s.msgs[k].cursor.None?
    ensures s.msgs[k].complete
  {
    assert MsgOk(s, s.msgs[k]);
  }

  // ---------------------------------------------------------------- after an abort

  lemma {:induction false} StepAborted(s: Content, e: Event)
    requires Valid(s) && Enabled(s, e) && s.aborted
    ensures Step(s, e).aborted
    ensures forall k | k in Step(s, e).msgs :: Step(s, e).msgs[k].sent == [] || (k in s.msgs && Step(s, e).msgs[k].sent == s.msgs[k].sent)
  {
    hide Valid, Kept, Lowered, Raised;
  }

  /** Once a message is aborted no receiver is sent anything more, whatever happens: each has what it had, and
      one that comes later has nothing. */
  lemma {:induction false} NothingAfterAbort(s: Content, es: seq<Event>, k: Id)
    requires Valid(s) && s.aborted && k in Run(s, es).msgs
    ensures Run(s, es).msgs[k].sent == [] || (k in s.msgs && Run(s, es).msgs[k].sent == s.msgs[k].sent)
    decreases |es|
  {
    hide Valid, Step;
    if es != [] {
      if Enabled(s, es[0]) {
        StepKeeps(s, es[0]);
        StepAborted(s, es[0]);
        NothingAfterAbort(Step(s, es[0]), es[1..], k);
      } else {
        NothingAfterAbort(s, es[1..], k);
      }
    }
  }
}
