/** The parser: one AMQP field, and recursively the fields inside lists and maps. The parser
    on a flat octet sequence is the reference; the parser that moves a cursor through a chain
    of buffers computes the same tree.
 */
module Parse {
  import opened Octets
  import opened Amqp
  import opened BufferField
  import opened Seqs
  import opened Options

  datatype ParseError = NoTag | NoLength | NoCount | UnknownTag | OddMap | ShortCount | Truncated

  /** A decoded field header and the raw value after it. */
  datatype Field<V> = Field(tag: Octet, size: nat, count: nat, value: V)

  datatype FieldResult<V> = Ok(field: Field<V>, rest: V) | Err(error: ParseError)

  predicate IsMapTag(tag: Octet) { tag == MAP8 || tag == MAP32 }

  predicate IsListTag(tag: Octet) { tag == LIST8 || tag == LIST32 || tag == LIST0 }

  /** A one-octet or four-octet number at the front. */
  function Number(s: Octets, width: nat): nat
    requires (width == 1 || width == 4) && |s| >= width
  {
    if width == 1 then s[0] as int else De32(s[..4])
  }

  // ---------------------------------------------------------------- one field

  function ParseField(s: Octets): FieldResult<Octets> {
    if s == [] then Err(NoTag)
    else
      var tag := s[0];
      var w := SizeWidth(tag);
      if Subcategory(tag) < 4 then Err(UnknownTag)
      else if |s[1..]| < w then Err(NoLength)
      else
        var size := if w == 0 then FixedWidth(tag) else Number(s[1..], w);
        ParseCount(tag, size, s[1..][w..])
  }

  function ParseCount(tag: Octet, size: nat, s: Octets): FieldResult<Octets> {
    var c := CountWidth(tag);
    if |s| < c then Err(NoCount)
    else ParseBody(tag, size, if c == 0 then 0 else Number(s, c), s[c..])
  }

  function ParseBody(tag: Octet, size: nat, count: nat, s: Octets): FieldResult<Octets> {
    if IsMapTag(tag) && count % 2 == 1 then Err(OddMap)
    else if CountWidth(tag) > size then Err(ShortCount)
    else if |s| < size - CountWidth(tag) then Err(Truncated)
    else Ok(Field(tag, size, count, s[..size - CountWidth(tag)]), s[size - CountWidth(tag)..])
  }

  /** What a result with cursors means. */
  function AbsField(bs: Buffers, r: FieldResult<Cursor>): FieldResult<Octets>
    requires r.Ok? ==> Placed(bs, r.field.value) && Placed(bs, r.rest)
  {
    match r
    case Err(e) => Err(e)
    case Ok(f, rest) => Ok(Field(f.tag, f.size, f.count, View(bs, f.value)), View(bs, rest))
  }

  method TakeNumber(bs: Buffers, f: Cursor, width: nat) returns (ok: bool, f': Cursor, n: nat)
    requires Valid(bs, f) && (width == 1 || width == 4)
    ensures ok <==> |View(bs, f)| >= width
    ensures Valid(bs, f')
    ensures ok ==> n == Number(View(bs, f), width) && View(bs, f') == View(bs, f)[width..]
  {
    if width == 4 {
      ok, f', n := TakeUint32(bs, f);
    } else {
      var x;
      ok, f', x := TakeOctet(bs, f);
      n := x as int;
    }
  }

  /** Decode the field at the cursor and move past it. */
  method ParseAmqpField(bs: Buffers, f: Cursor) returns (r: FieldResult<Cursor>)
    requires Valid(bs, f)
    ensures r.Ok? ==> Valid(bs, r.field.value) && Valid(bs, r.rest)
    ensures AbsField(bs, r) == ParseField(View(bs, f))
  {
    var ok, f1, tag := TakeOctet(bs, f);
    if !ok { return Err(NoTag); }
    if Subcategory(tag) < 4 { return Err(UnknownTag); }
    var f2, size := f1, FixedWidth(tag);
    if SizeWidth(tag) > 0 {
      ok, f2, size := TakeNumber(bs, f1, SizeWidth(tag));
      if !ok { return Err(NoLength); }
    } else {
      assert View(bs, f1)[0..] == View(bs, f1);
    }
    r := FinishField(bs, f2, tag, size);
  }

  method FinishField(bs: Buffers, f: Cursor, tag: Octet, size: nat) returns (r: FieldResult<Cursor>)
    requires Valid(bs, f)
    ensures r.Ok? ==> Valid(bs, r.field.value) && Valid(bs, r.rest)
    ensures AbsField(bs, r) == ParseCount(tag, size, View(bs, f))
  {
    var ok, f1, count := true, f, 0;
    if CountWidth(tag) > 0 {
      ok, f1, count := TakeNumber(bs, f, CountWidth(tag));
      if !ok { return Err(NoCount); }
    } else {
      assert View(bs, f)[0..] == View(bs, f);
    }
    if IsMapTag(tag) && count % 2 == 1 { return Err(OddMap); }
    if CountWidth(tag) > size { return Err(ShortCount); }
    var n := size - CountWidth(tag);
    var value := f1.(remaining := n);
    var rest, moved := Advance(bs, f1, n);
    if moved != n { return Err(Truncated); }
    Shorten(bs, f1, n);
    r := Ok(Field(tag, size, count, value), rest);
  }

  // ---------------------------------------------------------------- the whole tree

  /** A parsed field. `error` of a composite whose own header is good is that of the child
      that failed. */
  datatype Parsed<V> =
    | Bad(error: ParseError)
    | Parsed(failed: Option<ParseError>, field: Field<V>, full: V, children: seq<Parsed<V>>)
  {
    predicate IsOk() { Parsed? && failed == None }
    function Error(): Option<ParseError> { if Bad? then Some(error) else failed }
  }

  datatype TreeResult = TreeResult(tree: Parsed<Octets>, rest: Octets)
  datatype ListResult = ListResult(trees: seq<Parsed<Octets>>, failed: Option<ParseError>)

  function ParseValue(s: Octets): (r: TreeResult)
    ensures r.tree.Parsed? ==> |r.rest| < |s|
    decreases |s|, 0
  {
    match ParseField(s)
    case Err(e) => TreeResult(Bad(e), s)
    case Ok(f, rest) =>
      FieldShrinks(s);
      var l := ParseItems(f.value, f.count);
      TreeResult(Parsed(l.failed, f, s[..|s| - |rest|], l.trees), rest)
  }

  /** Up to `count` fields, stopping after the first that fails. */
  function ParseItems(s: Octets, count: nat): ListResult
    decreases |s|, 1
  {
    if count == 0 then ListResult([], None)
    else
      var r := ParseValue(s);
      if !r.tree.IsOk() then ListResult([r.tree], r.tree.Error())
      else
        var l := ParseItems(r.rest, count - 1);
        ListResult([r.tree] + l.trees, l.failed)
  }

  lemma {:induction false} FieldShrinks(s: Octets)
    ensures ParseField(s).Ok? ==> |ParseField(s).field.value| + |ParseField(s).rest| < |s|
    ensures ParseField(s).Ok? ==> ParseField(s).rest == s[|s| - |ParseField(s).rest|..]
  {
    if ParseField(s).Ok? {
      var tag := s[0];
      var w, c := SizeWidth(tag), CountWidth(tag);
      var u := s[1..][w..];
      DropTwice(s, 1, w);
      DropTwice(s, 1 + w, c);
      var size := if w == 0 then FixedWidth(tag) else Number(s[1..], w);
      DropTwice(s, 1 + w + c, size - c);
    }
  }

  // ---------------------------------------------------------------- the tree through a cursor

  predicate TreePlaced(bs: Buffers, t: Parsed<Cursor>) {
    t.Parsed? ==>
      && Placed(bs, t.field.value) && Placed(bs, t.full)
      && forall i | 0 <= i < |t.children| :: TreePlaced(bs, t.children[i])
  }

  function AbsTree(bs: Buffers, t: Parsed<Cursor>): Parsed<Octets>
    requires TreePlaced(bs, t)
    decreases t, 1
  {
    match t
    case Bad(e) => Bad(e)
    case Parsed(failed, f, full, children) =>
      Parsed(failed, Field(f.tag, f.size, f.count, View(bs, f.value)), View(bs, full), AbsAll(bs, children))
  }

  function AbsAll(bs: Buffers, ts: seq<Parsed<Cursor>>): (r: seq<Parsed<Octets>>)
    requires forall i | 0 <= i < |ts| :: TreePlaced(bs, ts[i])
    ensures |r| == |ts|
    decreases ts, 0
  {
    if ts == [] then [] else [AbsTree(bs, ts[0])] + AbsAll(bs, ts[1..])
  }

  lemma {:induction false} AbsAllSnoc(bs: Buffers, ts: seq<Parsed<Cursor>>, t: Parsed<Cursor>)
    requires (forall i | 0 <= i < |ts| :: TreePlaced(bs, ts[i])) && TreePlaced(bs, t)
    ensures AbsAll(bs, ts + [t]) == AbsAll(bs, ts) + [AbsTree(bs, t)]
  {
    if ts == [] {
      assert ts + [t] == [t] && [t][1..] == [];
    } else {
      CutAppend(ts, [t], 1);
      AbsAllSnoc(bs, ts[1..], t);
      AppendAssoc([AbsTree(bs, ts[0])], AbsAll(bs, ts[1..]), [AbsTree(bs, t)]);
    }
  }

  /** Parse the field at the cursor and everything inside it, moving the cursor past it. */
  method ParseInternal(bs: Buffers, f: Cursor) returns (tree: Parsed<Cursor>, f': Cursor)
    requires Valid(bs, f)
    ensures Valid(bs, f') && f'.remaining <= f.remaining && TreePlaced(bs, tree)
    ensures AbsTree(bs, tree) == ParseValue(View(bs, f)).tree
    ensures tree.Parsed? ==> View(bs, f') == ParseValue(View(bs, f)).rest
    decreases f.remaining, 1
  {
    hide ParseField, ParseItems, AbsAll, View;
    var r := ParseAmqpField(bs, f);
    ghost var s := View(bs, f);
    FieldShrinks(s);
    if r.Err? { return Bad(r.error), f; }
    f' := r.rest;
    var full := f.(remaining := f.remaining - f'.remaining);
    Shorten(bs, f, full.remaining);
    var children, failed := ParseChildren(bs, r.field.value, r.field.count);
    tree := Parsed(failed, r.field, full, children);
  }

  /** `trees` have been parsed; `n` more at `s` make up the whole. */
  ghost predicate Progress(bs: Buffers, trees: seq<Parsed<Cursor>>, s: Octets, n: nat, goal: ListResult) {
    && (forall i | 0 <= i < |trees| :: TreePlaced(bs, trees[i]))
    && goal.trees == AbsAll(bs, trees) + ParseItems(s, n).trees
    && goal.failed == ParseItems(s, n).failed
  }

  lemma {:induction false} ChildOk(bs: Buffers, trees: seq<Parsed<Cursor>>, s: Octets, n: nat, goal: ListResult, child: Parsed<Cursor>)
    requires Progress(bs, trees, s, n, goal) && n > 0
    requires TreePlaced(bs, child) && AbsTree(bs, child) == ParseValue(s).tree && child.IsOk()
    ensures Progress(bs, trees + [child], ParseValue(s).rest, n - 1, goal)
  {
    AbsAllSnoc(bs, trees, child);
    AppendAssoc(AbsAll(bs, trees), [AbsTree(bs, child)], ParseItems(ParseValue(s).rest, n - 1).trees);
  }

  lemma {:induction false} ChildBad(bs: Buffers, trees: seq<Parsed<Cursor>>, s: Octets, n: nat, goal: ListResult, child: Parsed<Cursor>)
    requires Progress(bs, trees, s, n, goal) && n > 0
    requires TreePlaced(bs, child) && AbsTree(bs, child) == ParseValue(s).tree && !child.IsOk()
    ensures forall i | 0 <= i < |trees + [child]| :: TreePlaced(bs, (trees + [child])[i])
    ensures ListResult(AbsAll(bs, trees + [child]), child.Error()) == goal
  {
    AbsAllSnoc(bs, trees, child);
  }

  lemma {:induction false} NoChildLeft(bs: Buffers, trees: seq<Parsed<Cursor>>, s: Octets, goal: ListResult)
    requires Progress(bs, trees, s, 0, goal)
    ensures forall i | 0 <= i < |trees| :: TreePlaced(bs, trees[i])
    ensures ListResult(AbsAll(bs, trees), None) == goal
  {
  }

  lemma {:induction false} Start(bs: Buffers, s: Octets, n: nat)
    ensures Progress(bs, [], s, n, ParseItems(s, n))
  {
  }

  method ParseChildren(bs: Buffers, f: Cursor, count: nat) returns (trees: seq<Parsed<Cursor>>, failed: Option<ParseError>)
    requires Valid(bs, f)
    ensures forall i | 0 <= i < |trees| :: TreePlaced(bs, trees[i])
    ensures ListResult(AbsAll(bs, trees), failed) == ParseItems(View(bs, f), count)
    decreases f.remaining, 2
  {
    hide Progress, ParseItems, AbsAll, AbsTree, ParseValue;
    trees, failed := [], None;
    var idx, cur := 0, f;
    ghost var goal := ParseItems(View(bs, f), count);
    Start(bs, View(bs, f), count);
    while idx < count
      invariant 0 <= idx <= count && failed == None
      invariant Valid(bs, cur) && cur.remaining <= f.remaining
      invariant Progress(bs, trees, View(bs, cur), count - idx, goal)
      decreases count - idx
    {
      ghost var s := View(bs, cur);
      var child, next := ParseInternal(bs, cur);
      if !child.IsOk() {
        ChildBad(bs, trees, s, count - idx, goal, child);
        trees, failed := trees + [child], child.Error();
        return;
      }
      ChildOk(bs, trees, s, count - idx, goal, child);
      trees, cur, idx := trees + [child], next, idx + 1;
    }
    NoChildLeft(bs, trees, View(bs, cur), goal);
  }
}
