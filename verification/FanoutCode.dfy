/** Fan-out as it runs: the loops over the buffer list, and the content object whose methods
    take the steps of `Fanout`.
 */
module FanoutCode {
  import opened Octets
  import opened Parse
  import opened Seqs
  import F = Fanout
  import opened Fanout
  import opened Options

  // ---------------------------------------------------------------- loops over the list

  /** One more reference to every buffer in the list. */
  method RaiseAll(refs: seq<nat>, list: seq<Id>) returns (r: seq<nat>)
    requires Sorted(list) && Within(list, |refs|)
    ensures r == Raised(refs, list)
  {
    r := refs;
    for j := 0 to |list|
      invariant r == Raised(refs, list[..j])
    {
      NotBefore(list, j);
      var b := list[j];
      assert list[..j + 1] == list[..j] + [b];
      r := r[b := r[b] + 1];
    }
    assert list[..|list|] == list;
  }

  lemma {:induction false} NotBefore(list: seq<Id>, j: nat)
    requires Sorted(list) && j < |list|
    ensures list[j] !in list[..j]
  {
  }

  /** Find the place of a buffer in the list. */
  method Find(list: seq<Id>, c: Id) returns (a: nat)
    requires Sorted(list) && c in list
    ensures a < |list| && list[a] == c
  {
    a := 0;
    while list[a] != c
      invariant a < |list| && c in list[a..]
      decreases |list| - a
    {
      assert list[a..] == [list[a]] + list[a + 1..];
      a := a + 1;
    }
  }

  /** Give back all buffers from `c` on; those whose last reference it was are freed. */
  method ReleaseFrom(refs: seq<nat>, list: seq<Id>, c: Id) returns (refs': seq<nat>, list': seq<Id>)
    requires Sorted(list) && Within(list, |refs|) && c in list
    requires forall j | 0 <= j < |list| && list[j] >= c :: refs[list[j]] > 0
    ensures refs' == Lowered(refs, list, c) && list' == Kept(list, refs, c)
  {
    hide Kept, LoweredTo, Lowered, Sorted;
    var a := Find(list, c);
    refs', list' := refs, list[..a];
    BeforeCursor(list, refs, a);
    LoweredNone(refs, list, a);
    FromPlaceOn(list, a);
    var j := a;
    while j < |list|
      invariant a <= j <= |list| && |refs'| == |refs|
      invariant refs' == LoweredTo(refs, list, a, j)
      invariant list' + Kept(list[j..], refs, c) == Kept(list, refs, c)
    {
      var b := list[j];
      KeptHead(list[j..], refs, c);
      assert list[j..][1..] == list[j + 1..] && list[j..][0] == b;
      LowerOne(refs, list, a, j);
      if refs'[b] != 1 { list' := list' + [b]; }
      refs' := refs'[b := refs'[b] - 1];
      j := j + 1;
    }
    KeptNothing(refs, c);
    assert list[j..] == [];
    LoweredAll(refs, list, a, c);
  }

  /** One reference less for the buffers at places `a` to `j` of the list. */
  function LoweredTo(refs: seq<nat>, list: seq<Id>, a: nat, j: nat): seq<nat>
    requires a <= j <= |list|
  {
    seq(|refs|, i requires 0 <= i < |refs| => if i in list[a..j] && refs[i] > 0 then refs[i] - 1 else refs[i])
  }

  lemma {:induction false} FromPlaceOn(list: seq<Id>, a: nat)
    requires Sorted(list) && a < |list|
    ensures forall j | a <= j < |list| :: list[j] >= list[a]
  {
  }

  lemma {:induction false} LoweredNone(refs: seq<nat>, list: seq<Id>, a: nat)
    requires a < |list|
    ensures LoweredTo(refs, list, a, a) == refs
    ensures forall j | a <= j <= |list| :: |LoweredTo(refs, list, a, j)| == |refs|
  {
  }

  lemma {:induction false} LowerOne(refs: seq<nat>, list: seq<Id>, a: nat, j: nat)
    requires Sorted(list) && Within(list, |refs|) && a <= j < |list| && refs[list[j]] > 0
    ensures LoweredTo(refs, list, a, j)[list[j]] == refs[list[j]]
    ensures LoweredTo(refs, list, a, j + 1) == LoweredTo(refs, list, a, j)[list[j] := refs[list[j]] - 1]
  {
    assert list[a..j + 1] == list[a..j] + [list[j]];
    assert list[j] !in list[a..j];
  }

  lemma {:induction false} LoweredAll(refs: seq<nat>, list: seq<Id>, a: nat, c: Id)
    requires Sorted(list) && Within(list, |refs|) && a < |list| && list[a] == c
    ensures LoweredTo(refs, list, a, |list|) == Lowered(refs, list, c)
  {
    forall i ensures i in list[a..|list|] <==> i in list && i >= c { FromPlace(list, a, i); }
  }

  lemma {:induction false} FromPlace(list: seq<Id>, a: nat, i: Id)
    requires Sorted(list) && a < |list|
    ensures i in list[a..|list|] <==> i in list && i >= list[a]
  {
    if i in list && i >= list[a] {
      var l :| 0 <= l < |list| && list[l] == i;
      assert list[a..|list|][l - a] == i;
    }
  }

  lemma {:induction false} KeptHead(list: seq<Id>, refs: seq<nat>, c: Id)
    requires list != [] && Within(list, |refs|)
    ensures Within(list[1..], |refs|)
    ensures Kept(list, refs, c) == (if list[0] >= c && refs[list[0]] == 1 then [] else [list[0]]) + Kept(list[1..], refs, c)
  {
  }

  lemma {:induction false} KeptNothing(refs: seq<nat>, c: Id)
    ensures Kept([], refs, c) == []
  {
  }

  lemma {:induction false} BeforeCursor(list: seq<Id>, refs: seq<nat>, a: nat)
    requires Sorted(list) && Within(list, |refs|) && a < |list|
    ensures list[..a] + Kept(list[a..], refs, list[a]) == Kept(list, refs, list[a])
  {
    hide Kept;
    if a == 0 {
      assert list[0..] == list && list[..0] == [];
    } else {
      var rest := list[1..];
      KeptHead(list, refs, list[a]);
      DropTwice(list, 1, a - 1);
      assert rest[a - 1] == list[a] && list[..a] == [list[0]] + rest[..a - 1];
      BeforeCursor(rest, refs, a - 1);
      AppendAssoc([list[0]], rest[..a - 1], Kept(list[a..], refs, list[a]));
    }
  }

  /** Move on by `consume` octets from a place in the list, which is `n` octets from its head, and
      hand over the octets passed. */
  method AdvanceGuarded(log: seq<Octets>, list: seq<Id>, b: nat, off: nat, consume: nat, ghost n: nat)
    returns (b': nat, off': nat, out: Octets)
    requires list != [] && Within(list, |log|) && (forall i | 0 <= i < |log| :: log[i] != [])
    requires (b, off) == Skip(log, list, n)
    ensures (b', off') == Skip(log, list, n + consume)
    ensures var x := OctetsOf(log, list); out == x[Clip(n, x)..Clip(n + consume, x)]
  {
    hide Skip, OctetsOf, Left, Taken;
    b', off', out := b, off, [];
    var more: nat, remaining := consume, |log[list[b]]| - off;
    SkipFrom(log, list, n, consume);
    TakenNone(log, list, b, off, n);
    while more > 0
      invariant b' < |list| && off' <= |log[list[b']]| && remaining == |log[list[b']]| - off'
      invariant off' < |log[list[b']]| || b' + 1 == |list|
      invariant Left(log, list, b', off', more) == Skip(log, list, n + consume)
      invariant Taken(log, list, n, b', off', out)
      decreases |list| - b', more
    {
      LeftHere(log, list, b', off', more);
      if more < remaining {
        TakeMore(log, list, n, b', off', out, more);
        out := out + log[list[b']][off'..off' + more];
        off', more, remaining := off' + more, 0, remaining - more;
        LeftHere(log, list, b', off', more);
      } else {
        TakeMore(log, list, n, b', off', out, remaining);
        out := out + log[list[b']][off'..off' + remaining];
        more := more - remaining;
        if b' + 1 == |list| {
          off' := |log[list[b']]|;
          break;
        }
        TakeNext(log, list, n, b', out);
        b', off' := b' + 1, 0;
        remaining := |log[list[b']]|;
      }
    }
    if more == 0 { LeftHere(log, list, b', off', 0); }
    AllTaken(log, list, n, n + consume, b', off', out);
  }

  function Shifted(r: (nat, nat), b: nat): (nat, nat) { (r.0 + b, r.1) }

  /** Where the move ends with `more` octets to go. */
  function Left(log: seq<Octets>, list: seq<Id>, b: nat, off: nat, more: nat): (nat, nat)
    requires b < |list| && Within(list, |log|)
  {
    Shifted(Skip(log, list[b..], off + more), b)
  }

  /** The octets between the place of `n` and this one are `out`. */
  ghost predicate Taken(log: seq<Octets>, list: seq<Id>, n: nat, b: nat, off: nat, out: Octets)
    requires b < |list| && Within(list, |log|)
  {
    var x := OctetsOf(log, list);
    && Within(list[..b], |log|)
    && var at := |OctetsOf(log, list[..b])| + off;
       Clip(n, x) <= at <= |x| && out == x[Clip(n, x)..at]
  }

  lemma {:induction false} LeftHere(log: seq<Octets>, list: seq<Id>, b: nat, off: nat, more: nat)
    requires b < |list| && Within(list, |log|)
    ensures var size := |log[list[b]]|;
            Left(log, list, b, off, more) == if off + more < size then (b, off + more)
                                             else if b + 1 == |list| then (b, size)
                                             else Left(log, list, b + 1, 0, off + more - size)
  {
    hide Skip;
    assert list[b..][0] == list[b];
    if b + 1 < |list| { assert list[b..][1..] == list[b + 1..]; }
    SkipHead(log, list[b..], off + more);
  }

  lemma {:induction false} TakenNone(log: seq<Octets>, list: seq<Id>, b: nat, off: nat, n: nat)
    requires list != [] && Within(list, |log|) && (b, off) == Skip(log, list, n)
    ensures b < |list| && Taken(log, list, n, b, off, [])
  {
    hide Skip, OctetsOf;
    SkipBounds(log, list, n);
    SkipPassed(log, list, n);
    var x := OctetsOf(log, list);
    assert x[Clip(n, x)..Clip(n, x)] == [];
  }

  lemma {:induction false} SkipBounds(log: seq<Octets>, list: seq<Id>, n: nat)
    requires list != [] && Within(list, |log|)
    ensures var (b, off) := Skip(log, list, n); b < |list| && off <= |log[list[b]]|
  {
  }

  lemma {:induction false} TakeMore(log: seq<Octets>, list: seq<Id>, n: nat, b: nat, off: nat, out: Octets, k: nat)
    requires b < |list| && Within(list, |log|) && Taken(log, list, n, b, off, out) && off + k <= |log[list[b]]|
    ensures Taken(log, list, n, b, off + k, out + log[list[b]][off..off + k])
  {
    hide OctetsOf;
    BufferAt(log, list, b);
    Passing(OctetsOf(log, list), Clip(n, OctetsOf(log, list)), |OctetsOf(log, list[..b])| + off, log[list[b]], off, k);
  }

  lemma {:induction false} TakeNext(log: seq<Octets>, list: seq<Id>, n: nat, b: nat, out: Octets)
    requires b + 1 < |list| && Within(list, |log|) && Taken(log, list, n, b, |log[list[b]]|, out)
    ensures Taken(log, list, n, b + 1, 0, out)
  {
    hide OctetsOf;
    BufferAt(log, list, b);
  }

  lemma {:induction false} AllTaken(log: seq<Octets>, list: seq<Id>, n: nat, m: nat, b: nat, off: nat, out: Octets)
    requires list != [] && Within(list, |log|) && n <= m && (b, off) == Skip(log, list, m) && b < |list|
    requires Taken(log, list, n, b, off, out)
    ensures var x := OctetsOf(log, list); out == x[Clip(n, x)..Clip(m, x)]
  {
    hide OctetsOf, Skip;
    SkipBounds(log, list, m);
    SkipPassed(log, list, m);
  }

  /** Moving on from where a move ended. */
  lemma {:induction false} SkipFrom(log: seq<Octets>, bs: seq<Id>, n: nat, m: nat)
    requires bs != [] && Within(bs, |log|)
    ensures var (b, off) := Skip(log, bs, n);
            && b < |bs| && off <= |log[bs[b]]| && (off < |log[bs[b]]| || b + 1 == |bs|)
            && Skip(log, bs, n + m) == Left(log, bs, b, off, m)
  {
    hide Skip;
    var size := |log[bs[0]]|;
    SkipHead(log, bs, n);
    SkipHead(log, bs, n + m);
    assert bs[0..] == bs;
    if n >= size && |bs| > 1 {
      SkipFrom(log, bs[1..], n - size, m);
      var (b, off) := Skip(log, bs[1..], n - size);
      DropTwice(bs, 1, b);
    } else if n >= size {
      SkipHead(log, bs, size + m);
    }
  }

  /** Where the octets of one buffer are among those of all. */
  lemma {:induction false} BufferAt(log: seq<Octets>, list: seq<Id>, b: nat)
    requires Within(list, |log|) && b < |list|
    ensures Within(list[..b], |log|) && Within(list[..b + 1], |log|)
    ensures var at := |OctetsOf(log, list[..b])|;
            && at + |log[list[b]]| == |OctetsOf(log, list[..b + 1])| <= |OctetsOf(log, list)|
            && OctetsOf(log, list)[at..at + |log[list[b]]|] == log[list[b]]
  {
    hide OctetsOf;
    assert list[..b + 1] == list[..b] + [list[b]];
    OctetsOfSnoc(log, list[..b], list[b]);
    OctetsSplit(log, list, b + 1);
  }

  lemma {:induction false} OctetsSplit(log: seq<Octets>, list: seq<Id>, b: nat)
    requires Within(list, |log|) && b <= |list|
    ensures Within(list[..b], |log|) && OctetsOf(log, list[..b]) <= OctetsOf(log, list)
  {
    if b > 0 {
      OctetsSplit(log, list[1..], b - 1);
      assert list[..b][1..] == list[1..][..b - 1];
    }
  }

  lemma {:induction false} Passing(x: Octets, from: nat, at: nat, buf: Octets, off: nat, k: nat)
    requires from <= at && off <= at && off + k <= |buf| && at - off + |buf| <= |x| && x[at - off..at - off + |buf|] == buf
    ensures at + k <= |x| && x[from..at] + buf[off..off + k] == x[from..at + k]
  {
    var w := x[at - off..];
    DropTwice(x, at - off, off);
    assert x[at - off..at - off + |buf|] == w[..|buf|];
    assert w[..|buf|][off..off + k] == w[off..][..k];
    assert x[at..][..k] == x[at..at + k];
    assert x[from..at] + x[at..at + k] == x[from..at + k];
  }

  lemma {:induction false} SkipHead(log: seq<Octets>, bs: seq<Id>, n: nat)
    requires bs != [] && Within(bs, |log|)
    ensures Skip(log, bs, n)
         == if n < |log[bs[0]]| then (0, n)
            else if |bs| == 1 then (0, |log[bs[0]]|)
            else (Skip(log, bs[1..], n - |log[bs[0]]|).0 + 1, Skip(log, bs[1..], n - |log[bs[0]]|).1)
  {
  }

  // ---------------------------------------------------------------- the content object

  class SharedContent {
    var log: seq<Octets>
    var list: seq<Id>
    var refs: seq<nat>
    ghost var extra: seq<nat>
    var fanout: nat
    var msgs: map<Id, Msg>
    var received: bool
    var aborted: bool
    var freed: nat
    ghost var dropped: nat

    ghost function State(): Content
      reads this
    {
      Content(log, list, refs, extra, fanout, msgs, received, aborted, freed, dropped)
    }

    constructor ()
      ensures State() == Empty() && F.Valid(State())
    {
      log, list, refs, extra, fanout, msgs, received, aborted := [], [], [], [], 0, map[], false, false;
      freed, dropped := 0, 0;
      new;
      EmptyIsValid();
    }

    /** A buffer of received octets joins the list, with a reference for every receiver. */
    method Arrive(x: Octets)
      requires F.Valid(State()) && x != [] && !received
      modifies this
      ensures State() == Step(old(State()), DoArrive(x)) && F.Valid(State())
    {
      hide F.Valid;
      ArriveKeeps(State(), x);
      log, list, refs, extra := log + [x], list + [|log|], refs + [fanout], extra + [0];
    }

    /** Register a receiver. */
    method AddFanout(k: Id, pending: Octets)
      requires F.Valid(State()) && Enabled(State(), DoRegister(k, pending))
      modifies this
      ensures State() == Step(old(State()), DoRegister(k, pending)) && F.Valid(State())
    {
      hide F.Valid, Raised, Sorted, Within;
      ghost var st := State();
      StepKeeps(st, DoRegister(k, pending));
      fanout := fanout + 1;
      if list == [] {
        NobodyBefore(st);
        ArriveKeeps(st, pending);
        log, list, refs, extra := log + [pending], list + [|log|], refs + [0], extra + [0];
      }
      ListFacts(if st.list == [] then F.Arrive(st, pending) else st);
      msgs := msgs[k := Msg(Some(list[0]), 0, false, false, false, list, |log|, 0, [], [], 0)];
      refs := RaiseAll(refs, list);
    }

    /** A parsed section refers to these buffers. */
    method ProtectAll(ids: seq<nat>)
      requires F.Valid(State()) && forall i | i in ids :: i in list
      modifies this
      ensures State() == Run(old(State()), Protects(ids)) && F.Valid(State())
    {
      hide F.Valid, Run, Protects;
      ghost var st := State();
      ProtectNone(st);
      for j := 0 to |ids|
        invariant F.Valid(State()) && list == st.list && State() == Run(st, Protects(ids[..j]))
      {
        var i := ids[j];
        InList(State(), i);
        StepKeeps(State(), DoProtect(i));
        RunSnoc(st, Protects(ids[..j]), DoProtect(i));
        assert ids[..j + 1] == ids[..j] + [i];
        ProtectsSnoc(ids[..j], i);
        refs, extra := refs[i := refs[i] + 1], extra[i := extra[i] + 1];
      }
      assert ids[..|ids|] == ids;
    }

    /** Start sending. Unless the message goes as it is, send its header and its delivery
        annotations, then the new annotations, and skip the old ones; the lengths are those of
        the sections found. */
    method BeginSend(k: Id, plain: bool, header: nat, delivery: nat, section: Octets, replaced: nat)
      requires F.Valid(State())
      requires Enabled(State(), DoBegin(k, if plain then None else Some(Rewrite(header + delivery, section, header + delivery + replaced))))
      modifies this
      ensures State() == Step(old(State()), DoBegin(k, if plain then None else Some(Rewrite(header + delivery, section, header + delivery + replaced))))
      ensures F.Valid(State())
    {
      hide F.Valid, Skip, OctetsOf, Raised, Sorted, Within;
      ghost var st := State();
      BeginKeeps(st, k, if plain then None else Some(Rewrite(header + delivery, section, header + delivery + replaced)));
      ListFacts(st);
      var m := msgs[k].(cursor := Some(list[0]), off := 0, started := true);
      if !plain {
        NoSkip(log, list);
        var b, off, out := AdvanceGuarded(log, list, 0, 0, header, 0);
        var out2, out3;
        b, off, out2 := AdvanceGuarded(log, list, b, off, delivery, header);
        ghost var x := OctetsOf(log, list);
        assert out + out2 == x[..Clip(header + delivery, x)];
        b, off, out3 := AdvanceGuarded(log, list, b, off, replaced, header + delivery);
        var first := out + out2 + section;
        m := m.(cursor := Some(list[b]), off := off, annotated := true, passed := b,
                sent := first, prelude := first, skipped := |out + out2| + |out3|);
        extra := Raised(extra, list[..b]);
      }
      msgs := msgs[k := m];
    }

    /** The link has taken `n` octets from the buffer at the cursor. */
    method SendSome(k: Id, n: nat)
      requires F.Valid(State()) && Enabled(State(), DoSend(k, n))
      modifies this
      ensures State() == Step(old(State()), DoSend(k, n)) && F.Valid(State())
    {
      hide F.Valid, Without, NextOf, Sorted, Within;
      ghost var st := State();
      SendKeeps(st, k, n);
      CountFacts(st, k);
      var m := msgs[k];
      var c := m.cursor.value;
      m := m.(off := m.off + n, sent := m.sent + log[c][m.off..m.off + n]);
      if m.off == |log[c]| {
        var next := NextOf(list, c);
        if next.Some? || received {
          var was := refs[c];
          refs := refs[c := was - 1];
          if was == 1 { list, freed := Without(list, c), freed + 1; }
          m := m.(cursor := next, off := 0, complete := received && next.None?, passed := m.passed + 1);
        }
      }
      msgs := msgs[k := m];
    }

    /** Take a receiver away. */
    method Free(k: Id)
      requires F.Valid(State()) && k in msgs
      modifies this
      ensures State() == Step(old(State()), DoFree(k)) && F.Valid(State())
    {
      hide F.Valid, Kept, Lowered, Sorted, Within;
      ghost var st := State();
      FreeKeeps(st, k);
      ListFacts(st);
      if msgs[k].cursor.Some? {
        CountFacts(st, k);
        refs, list := ReleaseFrom(refs, list, msgs[k].cursor.value);
        dropped := dropped + if |list| < |st.list| then |st.list| - |list| else 0;
      }
      CountMsgs(st, k);
      fanout := fanout - 1;
      msgs := msgs - {k};
    }
  }

  lemma {:induction false} ProtectNone(s: Content)
    requires F.Valid(s)
    ensures Run(s, Protects([])) == s
  {
  }

  lemma {:induction false} NoSkip(log: seq<Octets>, list: seq<Id>)
    requires list != [] && Within(list, |log|) && forall i | 0 <= i < |log| :: log[i] != []
    ensures Skip(log, list, 0) == (0, 0)
  {
  }

  lemma {:induction false} ListFacts(s: Content)
    requires F.Valid(s)
    ensures Sorted(s.list) && Within(s.list, |s.refs|) && |s.refs| == |s.log| == |s.extra|
    ensures forall i | 0 <= i < |s.log| :: s.log[i] != []
  {
  }

  lemma {:induction false} CountMsgs(s: Content, k: Id)
    requires F.Valid(s) && k in s.msgs
    ensures s.fanout > 0
  {
    SizeRemove(s.msgs, k);
  }

  /** A message with a cursor has a reference to every buffer from there on. */
  lemma {:induction false} CountFacts(s: Content, k: Id)
    requires F.Valid(s) && k in s.msgs && s.msgs[k].cursor.Some?
    ensures s.msgs[k].cursor.value in s.list && |s.refs| == |s.log| && 0 <= s.msgs[k].cursor.value < |s.log|
    ensures s.refs[s.msgs[k].cursor.value] > 0 && Within(s.list, |s.refs|)
    ensures forall j | 0 <= j < |s.list| && s.list[j] >= s.msgs[k].cursor.value :: s.refs[s.list[j]] > 0
  {
    hide MsgOk, Counted, Sorted;
    assert MsgOk(s, s.msgs[k]);
    CursorFacts(s, s.msgs[k]);
    forall j | 0 <= j < |s.list| && s.list[j] >= s.msgs[k].cursor.value ensures s.refs[s.list[j]] > 0 {
      assert Counted(s, s.list[j]);
      HeldOnce(s, s.list[j], k);
    }
    assert Counted(s, s.msgs[k].cursor.value);
    HeldOnce(s, s.msgs[k].cursor.value, k);
  }
}
