/** Body data appended to a message that is still being composed: the buffers are cut into
    groups, and every group becomes a data section of its own. */
module StreamData {
  import opened Octets
  import opened Amqp
  import opened Compose
  import opened Parse
  import opened RoundTrip
  import R = Recognition
  import opened Seqs
  import W = StandardTypes
  import opened Options

  const Q2_LOWER: nat := 128

  /** Buffers in one section. One of the rest is for the header. */
  const LIMIT: nat := Q2_LOWER - 2

  const DESCRIPTOR: Octets := [0x00, 0x53, 0x75]

  // ---------------------------------------------------------------- the reference

  function Groups(data: Buffers): (gs: seq<Buffers>)
    ensures gs != [] && forall i | 0 <= i < |gs| :: |gs[i]| <= LIMIT
    decreases |data|
  {
    if |data| <= LIMIT then [data] else [data[..LIMIT]] + Groups(data[LIMIT..])
  }

  function BinaryTerm(payload: Octets): Term { LowerBytes(VBIN8, VBIN32, payload) }

  predicate Sized(payload: Octets) { |payload| + 5 < U32 }

  /** A data section. */
  function Section(payload: Octets): Octets
    requires Sized(payload)
  {
    DESCRIPTOR + Encode(BinaryTerm(payload))
  }

  predicate AllSized(gs: seq<Buffers>) { forall i | 0 <= i < |gs| :: Sized(Flat(gs[i])) }

  function Sections(gs: seq<Buffers>): Octets
    requires AllSized(gs)
  {
    if gs == [] then [] else Section(Flat(gs[0])) + Sections(gs[1..])
  }

  function Payloads(gs: seq<Buffers>): seq<Octets> {
    if gs == [] then [] else [Flat(gs[0])] + Payloads(gs[1..])
  }

  /** A reader of data sections: descriptor, then a binary value. */
  function ReadSections(s: Octets): Option<seq<Octets>>
    decreases |s|
  {
    if s == [] then Some([])
    else if |s| < 3 || s[..3] != DESCRIPTOR then None
    else match ParseField(s[3..])
      case Err(_) => None
      case Ok(f, rest) =>
        if f.tag != VBIN8 && f.tag != VBIN32 then None
        else
          FieldShrinks(s[3..]);
          match ReadSections(rest) case None => None case Some(ps) => Some([f.value] + ps)
  }

  // ---------------------------------------------------------------- what is read back

  lemma {:induction false} ReadSection(payload: Octets, rest: Octets)
    requires Sized(payload)
    ensures ReadSections(Section(payload) + rest)
         == match ReadSections(rest) case None => None case Some(ps) => Some([payload] + ps)
  {
    hide ParseField, Encode;
    var s := Section(payload) + rest;
    var t := BinaryTerm(payload);
    assert s[..3] == DESCRIPTOR && s[3..] == Encode(t) + rest;
    Binary(payload, rest);
  }

  lemma {:induction false} Binary(payload: Octets, rest: Octets)
    requires Sized(payload)
    ensures ParseField(Encode(BinaryTerm(payload)) + rest) == Ok(Field(BinaryTerm(payload).tag, |payload|, 0, payload), rest)
  {
    hide ParseField;
    FieldOfLeaf(BinaryTerm(payload).tag, payload, rest);
  }

  /** The sections of some groups decode to their payloads. */
  lemma {:induction false} SectionsDecode(gs: seq<Buffers>)
    requires AllSized(gs)
    ensures ReadSections(Sections(gs)) == Some(Payloads(gs))
  {
    hide Section, ParseField, Flat;
    if gs == [] {
      Nothing();
    } else {
      SectionsDecode(gs[1..]);
      ReadSection(Flat(gs[0]), Sections(gs[1..]));
    }
  }

  lemma {:induction false} Nothing()
    ensures ReadSections([]) == Some([])
  {
  }

  /** No octet is lost or added by the cutting. */
  lemma {:induction false} PayloadsAreData(data: Buffers)
    ensures Flat(Payloads(Groups(data))) == Flat(data)
    decreases |data|
  {
    if |data| <= LIMIT {
      assert Payloads([data])[1..] == [];
      FlatOne(Flat(data));
      assert Payloads([data]) == [Flat(data)];
    } else {
      var a, b := data[..LIMIT], data[LIMIT..];
      PayloadsAreData(b);
      assert data == a + b;
      FlatAppend(a, b);
      assert Groups(data)[1..] == Groups(b);
      assert Payloads(Groups(data)) == [Flat(a)] + Payloads(Groups(b));
      assert Payloads(Groups(data))[1..] == Payloads(Groups(b));
    }
  }

  /** Whatever is appended decodes to payloads that together are the data, in sections of at
      most `LIMIT` buffers each. */
  lemma {:induction false} AppendDecodes(data: Buffers)
    requires AllSized(Groups(data))
    ensures ReadSections(Sections(Groups(data))) == Some(Payloads(Groups(data)))
    ensures Flat(Payloads(Groups(data))) == Flat(data)
    ensures forall i | 0 <= i < |Groups(data)| :: |Groups(data)[i]| <= LIMIT
  {
    SectionsDecode(Groups(data));
    PayloadsAreData(data);
  }

  /** The octets of a data section: a described value with the code 0x75 and a binary in its shortest form. */
  lemma {:induction false} SectionOctets(payload: Octets)
    requires Sized(payload)
    ensures Section(payload) == [0x00, 0x53, 0x75] + W.BytesWritten(0xa0, 0xb0, payload)
  {
    hide Encode, W.BytesWritten;
    W.ComposedValue(Scalar(Amqp.Binary(payload)));
  }

  /** What is cut off first has 126 buffers each time; the last group has the rest, and is not empty if there
      is any data. */
  lemma {:induction false} GroupsAreFull(data: Buffers)
    ensures var gs := Groups(data);
            && (forall i | 0 <= i < |gs| - 1 :: |gs[i]| == 126)
            && |gs[|gs| - 1]| <= 126 && (data != [] ==> gs[|gs| - 1] != [])
    decreases |data|
  {
    if |data| > LIMIT {
      var a, b := data[..LIMIT], Groups(data[LIMIT..]);
      GroupsAreFull(data[LIMIT..]);
      assert Groups(data) == [a] + b;
    }
  }

  /** The recognizer of sections takes each of them for a data body. */
  lemma {:induction false} SectionIsBody(payload: Octets)
    requires |payload| < 0x8000_0000
    ensures var p := R.Part(0x75, false, W.BytesWritten(0xa0, 0xb0, payload));
            R.PartOctets(p) == Section(payload) && R.PartOk(6, p)
  {
    hide Encode, ParseField, Section;
    SectionOctets(payload);
    var field := W.BytesWritten(0xa0, 0xb0, payload);
    R.DescriptorIs(R.Part(0x75, false, field));
    Binary(payload, []);
    W.ComposedValue(Scalar(Amqp.Binary(payload)));
    assert field + [] == field;
  }

  // ---------------------------------------------------------------- appending

  method TotalSize(bs: Buffers) returns (n: nat)
    ensures n == |Flat(bs)|
  {
    n := 0;
    var i := 0;
    assert bs[0..] == bs;
    while i < |bs|
      invariant 0 <= i <= |bs| && n + |Flat(bs[i..])| == |Flat(bs)|
    {
      assert bs[i..][0] == bs[i] && bs[i..][1..] == bs[i + 1..];
      n := n + |bs[i]|;
      i := i + 1;
    }
  }

  /** Descriptor and header of a data section, then the buffers themselves, without copying. */
  method InsertDataSection(bs: Buffers, data: Buffers, capacity: nat) returns (bs': Buffers)
    requires capacity > 0 && Fits(bs, capacity) && Fits(data, capacity) && Sized(Flat(data))
    ensures Fits(bs', capacity) && Flat(bs') == Flat(bs) + Section(Flat(data))
  {
    hide Flat;
    bs' := InsertInto(bs, DESCRIPTOR, capacity);
    var len := TotalSize(data);
    var tag := if len < 256 then VBIN8 else VBIN32;
    bs' := InsertInto(bs', LeafHeader(tag, len), capacity);
    FlatAppend(bs', data);
    Joined(Flat(bs), LeafHeader(tag, len), Flat(data));
    bs' := bs' + data;
  }

  lemma {:induction false} Joined(a: Octets, h: Octets, p: Octets)
    ensures ((a + DESCRIPTOR) + h) + p == a + (DESCRIPTOR + (h + p))
  {
  }

  /** Append data to a message: cut off full groups while there is too much for one section. */
  method AppendStreamData(bs: Buffers, data: Buffers, capacity: nat) returns (bs': Buffers)
    requires capacity > 0 && Fits(bs, capacity) && Fits(data, capacity) && AllSized(Groups(data))
    ensures Fits(bs', capacity) && Flat(bs') == Flat(bs) + Sections(Groups(data))
  {
    hide Flat, Section;
    bs' := bs;
    var rest := data;
    ghost var goal := Flat(bs) + Sections(Groups(data));
    while |rest| > LIMIT
      invariant Fits(bs', capacity) && Fits(rest, capacity) && AllSized(Groups(rest))
      invariant Flat(bs') + Sections(Groups(rest)) == goal
      decreases |rest|
    {
      var head, trailer := rest[..LIMIT], rest[LIMIT..];
      GroupsHead(rest);
      AppendAssoc(Flat(bs'), Section(Flat(head)), Sections(Groups(trailer)));
      bs' := InsertDataSection(bs', head, capacity);
      rest := trailer;
    }
    LastGroup(rest);
    bs' := InsertDataSection(bs', rest, capacity);
  }

  lemma {:induction false} GroupsHead(data: Buffers)
    requires |data| > LIMIT && AllSized(Groups(data))
    ensures Sized(Flat(data[..LIMIT])) && AllSized(Groups(data[LIMIT..]))
    ensures Sections(Groups(data)) == Section(Flat(data[..LIMIT])) + Sections(Groups(data[LIMIT..]))
  {
    hide Flat, Section, Sized;
    var gs := Groups(data);
    assert gs[0] == data[..LIMIT] && gs[1..] == Groups(data[LIMIT..]);
    assert Sized(Flat(gs[0]));
  }

  lemma {:induction false} LastGroup(data: Buffers)
    requires |data| <= LIMIT && AllSized(Groups(data))
    ensures Sized(Flat(data)) && Sections(Groups(data)) == Section(Flat(data))
  {
    hide Flat, Section, Sized;
    var gs := Groups(data);
    assert gs[0] == data && gs[1..] == [];
    assert Sized(Flat(gs[0]));
    assert Section(Flat(data)) + [] == Section(Flat(data));
  }
}
