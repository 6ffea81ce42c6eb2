/**
 * `writeDump`: every value is made addressable if it is a struct, printed
 * at depth 0 and followed by a newline. The reference map starts empty for
 * each call, but the id counter is package state and carries on from the
 * previous call.
 */
module Dump {
  import opened Values
  import opened Text
  import opened Views
  import opened Printer
  import RenderProps
  import Options

  /**
   * The limits printValue reads from a dumper built by `NewDumper(opts...)`:
   * each the last non-negative option for it, or its default, so none is
   * negative.
   */
  function ChosenPolicy(opts: seq<Options.Option>): (p: Policy)
    ensures p.maxDepth >= 0 && p.maxItems >= 0 && p.maxStringLen >= 0
  {
    Options.ChosenNonNegative(opts, Options.MaxDepth);
    Options.ChosenNonNegative(opts, Options.MaxItems);
    Options.ChosenNonNegative(opts, Options.MaxStringLen);
    Policy(Options.Chosen(opts, Options.MaxDepth), Options.Chosen(opts, Options.MaxItems),
           Options.Chosen(opts, Options.MaxStringLen))
  }

  /** One value at the top level, as writeDump prints it (without the newline). */
  function TopLevel(e: Env, v: Value, refs: Refs, fuel: nat): Outcome
  {
    Render(e, MakeAddressable(Top(v)), 0, refs, fuel)
  }

  /**
   * Reference meaning of writeDump over `vs`, defined from the last value
   * back: the dump of all but the last value, then the last one and a
   * newline. A panic or overflow ends the dump.
   */
  function DumpAll(e: Env, vs: seq<Value>, next: int, fuel: nat): (r: Outcome)
    ensures Follows(Refs(map[], next), r)
    ensures r.Done? ==> forall a :: a in r.refs.ids ==> next <= r.refs.ids[a]
  {
    if |vs| == 0 then Done("", Refs(map[], next))
    else
      var before := DumpAll(e, vs[..|vs| - 1], next, fuel);
      if !before.Done? then before
      else
        var last := TopLevel(e, vs[|vs| - 1], before.refs, fuel);
        var r := Suffix(Prefix(before.text, last), "\n");
        GrowsTrans(Refs(map[], next), before.refs, if r.Done? then r.refs else before.refs);
        r
  }

  /** `writeDump(w, vs...)`, with `next` the id counter left by the previous dump. */
  method WriteDump(e: Env, vs: seq<Value>, next: int, fuel: nat) returns (o: Outcome)
    ensures o == DumpAll(e, vs, next, fuel)
    ensures o.Done? ==> ValidRefs(o.refs) && next <= o.refs.next
  {
    o := Done("", Refs(map[], next));
    var i := 0;
    while i < |vs| && o.Done?
      invariant 0 <= i <= |vs|
      invariant o == DumpAll(e, vs[..i], next, fuel)
      invariant !o.Done? ==> o == DumpAll(e, vs, next, fuel) || i == |vs|
      decreases |vs| - i
    {
      var one := TopLevel(e, vs[i], o.refs, fuel);
      assert vs[..i + 1][..i] == vs[..i];
      o := Suffix(Prefix(o.text, one), "\n");
      i := i + 1;
      if !o.Done? {
        DumpStops(e, vs, i, next, fuel);
      }
    }
    if i < |vs| {
      DumpStops(e, vs, i, next, fuel);
    } else {
      assert vs[..i] == vs;
    }
    assert ValidRefs(Refs(map[], next));
  }

  /** Once a prefix of the values panics or overflows, so does the whole dump. */
  lemma {:induction false} DumpStops(e: Env, vs: seq<Value>, i: nat, next: int, fuel: nat)
    requires i <= |vs| && !DumpAll(e, vs[..i], next, fuel).Done?
    ensures DumpAll(e, vs, next, fuel) == DumpAll(e, vs[..i], next, fuel)
    decreases |vs| - i
  {
    if i < |vs| {
      assert vs[..i + 1][..i] == vs[..i];
      DumpStops(e, vs, i + 1, next, fuel);
    } else {
      assert vs[..i] == vs;
    }
  }

  /** Each dumped value ends with its own newline: one value prints exactly its top-level text and "\n". */
  lemma OneValue(e: Env, v: Value, next: int, fuel: nat)
    ensures var one := TopLevel(e, v, Refs(map[], next), fuel);
            DumpAll(e, [v], next, fuel) == Suffix(one, "\n")
  {
    assert [v][..0] == [];
  }

  // ---------------------------------------------------------------------
  // A self-referencing struct: `n := &Node{}; n.Next = n`
  // ---------------------------------------------------------------------

  /** `n`, a pointer to the node at address 0. */
  const NodePtr: Value := Val("*main.Node", PtrK(Some(0)), NotStringer)

  /** The node, whose exported field `Next` points back to it. */
  const NodeHeap: Heap := map[0 := Val("main.Node", StructK([Field("Next", true, false, NodePtr)]), NotStringer)]

  /** `*n`, and `n.Next` as read from it: both addressable and readable. */
  const NodeCell: View := View(NodeHeap[0], true, Readable)
  const NextField: View := View(NodePtr, true, Readable)

  /** `n.Next` printed at depth 1 after `n`: the node again, whose field refers back to `&id`. */
  function InnerNode(id: int): string
  {
    "#main.Node {\n" + (Indent(2) + "+Next\t=> " + (BackRefArrow + Decimal(id)) + "\n") + (Indent(1) + "}")
  }

  /** `n` printed at the top level, with `id` the id given to the node. */
  function NodeBlock(id: int): string
  {
    "#main.Node {\n" + (Indent(1) + "+Next\t=> " + InnerNode(id) + "\n") + (Indent(0) + "}")
  }

  /** What one dump of `n` prints. */
  function NodeText(id: int): string
  {
    NodeBlock(id) + "\n"
  }

  /** `n.Next` once the node is registered: a back-reference. */
  lemma NextRefersBack(pol: Policy, d: nat, refs: Refs, fuel: nat)
    requires d <= pol.maxDepth && fuel >= 1 && 0 in refs.ids
    ensures Render(Env(AsWritten, pol, NodeHeap), NextField, d, refs, fuel)
            == Done(BackRefArrow + Decimal(refs.ids[0]), refs)
  {
    assert Tracked(AsWritten, NextField);
  }

  /** `*n` with the node registered: its header, the back-reference line and its brace. */
  lemma CellWithBackRef(pol: Policy, d: nat, refs: Refs, fuel: nat)
    requires d + 1 <= pol.maxDepth && fuel >= 1 && 0 in refs.ids
    ensures Render(Env(AsWritten, pol, NodeHeap), NodeCell, d, refs, fuel + 1)
            == Done("#main.Node {\n" + (Indent(d + 1) + "+Next\t=> " + (BackRefArrow + Decimal(refs.ids[0])) + "\n")
                    + (Indent(d) + "}"), refs)
  {
    var line := Indent(d + 1) + "+Next\t=> " + (BackRefArrow + Decimal(refs.ids[0])) + "\n";
    CellFrame(pol, d, refs, fuel);
    FieldWithBackRef(pol, d, refs, fuel);
    FramedText("#main.Node {\n", line, Indent(d) + "}", refs);
  }

  /** `*n` prints as a struct: its header, its field lines and its brace. */
  lemma CellFrame(pol: Policy, d: nat, refs: Refs, fuel: nat)
    requires d <= pol.maxDepth
    ensures Render(Env(AsWritten, pol, NodeHeap), NodeCell, d, refs, fuel + 1)
            == Suffix(Prefix("#main.Node {\n", RenderFields(Env(AsWritten, pol, NodeHeap), NodeCell, NodeCell.v.kind.fields, 0, d, refs, fuel)),
                      Indent(d) + "}")
  {
    CellReaches(pol, d);
    NodeHeader();
    StructFrameWith(Env(AsWritten, pol, NodeHeap), NodeCell, "#main.Node {\n", d, refs, fuel);
  }

  /** RenderProps.StructFrame, with the header text given. */
  lemma StructFrameWith(e: Env, x: View, header: string, depth: nat, refs: Refs, fuel: nat)
    requires RenderProps.Reaches(e, x, depth) && x.v.kind.StructK?
    requires header == "#" + x.v.typ + " {\n"
    ensures Render(e, x, depth, refs, fuel + 1)
            == Suffix(Prefix(header, RenderFields(e, x, x.v.kind.fields, 0, depth, refs, fuel)), Indent(depth) + "}")
  {
    RenderProps.StructFrame(e, x, depth, refs, fuel);
  }

  lemma CellReaches(pol: Policy, d: nat)
    requires d <= pol.maxDepth
    ensures RenderProps.Reaches(Env(AsWritten, pol, NodeHeap), NodeCell, d) && NodeCell.v.kind.StructK?
  {
  }

  lemma NodeHeader()
    ensures "#" + NodeCell.v.typ + " {\n" == "#main.Node {\n"
  {
  }

  lemma FramedText(head: string, body: string, tail: string, refs: Refs)
    ensures Suffix(Prefix(head, Done(body, refs)), tail) == Done(head + body + tail, refs)
  {
  }

  /** The one field line of `*n` with the node registered. */
  lemma FieldWithBackRef(pol: Policy, d: nat, refs: Refs, fuel: nat)
    requires d + 1 <= pol.maxDepth && fuel >= 1 && 0 in refs.ids
    ensures RenderFields(Env(AsWritten, pol, NodeHeap), NodeCell, NodeCell.v.kind.fields, 0, d, refs, fuel)
            == Done(Indent(d + 1) + "+Next\t=> " + (BackRefArrow + Decimal(refs.ids[0])) + "\n", refs)
  {
    NextFieldFacts(d);
    NextRefersBack(pol, d + 1, refs, fuel);
    OneFieldLine(Env(AsWritten, pol, NodeHeap), NodeCell, d, refs, fuel, Indent(d + 1) + "+Next\t=> ",
                 BackRefArrow + Decimal(refs.ids[0]), refs);
  }

  /** The field of `*n` as printValue reads it, and its field-line head at depth `d`. */
  lemma NextFieldFacts(d: nat)
    ensures NodeCell.v.Val? && NodeCell.v.kind.StructK? && |NodeCell.v.kind.fields| == 1
    ensures FieldOf(NodeCell, NodeCell.v.kind.fields[0]) == NextField && AsStringer(NextField) == ""
    ensures var f := NodeCell.v.kind.fields[0];
            Indent(d + 1) + (if f.exported then "+" else "-") + f.name + "\t=> " == Indent(d + 1) + "+Next\t=> "
  {
  }

  /** A struct with one field prints one field line: the head, the field's text and a newline. */
  lemma OneFieldLine(e: Env, x: View, d: nat, refs: Refs, fuel: nat, head: string, t: string, refs1: Refs)
    requires x.v.Val? && x.v.kind.StructK? && |x.v.kind.fields| == 1
    requires var f := x.v.kind.fields[0];
             head == Indent(d + 1) + (if f.exported then "+" else "-") + f.name + "\t=> "
    requires AsStringer(FieldOf(x, x.v.kind.fields[0])) == ""
    requires Render(e, FieldOf(x, x.v.kind.fields[0]), d + 1, refs, fuel) == Done(t, refs1)
    ensures RenderFields(e, x, x.v.kind.fields, 0, d, refs, fuel) == Done(head + t + "\n", refs1)
  {
    var fs := x.v.kind.fields;
    assert RenderFields(e, x, fs, 1, d, refs1, fuel) == Done("", refs1);
  }

  /** `n.Next` on its first visit: it is addressable, so it is registered under `refs.next`. */
  lemma NextFirstVisit(pol: Policy, refs: Refs, fuel: nat)
    requires 2 <= pol.maxDepth && fuel >= 3 && 0 !in refs.ids
    ensures Render(Env(AsWritten, pol, NodeHeap), NextField, 1, refs, fuel) == Done(InnerNode(refs.next), Register(refs, 0))
  {
    assert Tracked(AsWritten, NextField);
    assert PtrElem(NodeHeap, 0, NextField) == NodeCell;
    CellWithBackRef(pol, 1, Register(refs, 0), fuel - 2);
  }

  /** The one field line of `*n` when the node is not yet registered. */
  lemma FieldFirstVisit(pol: Policy, refs: Refs, fuel: nat)
    requires 2 <= pol.maxDepth && fuel >= 3 && 0 !in refs.ids
    ensures RenderFields(Env(AsWritten, pol, NodeHeap), NodeCell, NodeCell.v.kind.fields, 0, 0, refs, fuel)
            == Done(Indent(1) + "+Next\t=> " + InnerNode(refs.next) + "\n", Register(refs, 0))
  {
    NextFieldFacts(0);
    NextFirstVisit(pol, refs, fuel);
    OneFieldLine(Env(AsWritten, pol, NodeHeap), NodeCell, 0, refs, fuel, Indent(1) + "+Next\t=> ",
                 InnerNode(refs.next), Register(refs, 0));
  }

  /** As written, the top-level `n` is not addressable, so it is not registered: it prints as `*n`. */
  lemma TopToCell(pol: Policy, refs: Refs, fuel: nat)
    requires fuel >= 2
    ensures Render(Env(AsWritten, pol, NodeHeap), MakeAddressable(Top(NodePtr)), 0, refs, fuel)
            == Render(Env(AsWritten, pol, NodeHeap), NodeCell, 0, refs, fuel - 1)
  {
    assert MakeAddressable(Top(NodePtr)) == Top(NodePtr);
    assert !Tracked(AsWritten, Top(NodePtr));
    assert PtrElem(NodeHeap, 0, Top(NodePtr)) == NodeCell;
  }

  /**
   * As written, one dump of `n`: the top-level pointer is not addressable
   * and is not registered, but `n.Next` is, so the second visit of the node
   * prints `↩︎ &next` one level down.
   */
  lemma CycleReference(pol: Policy, next: int, fuel: nat)
    requires pol.maxDepth >= 2 && fuel >= 5
    ensures DumpAll(Env(AsWritten, pol, NodeHeap), [NodePtr], next, fuel)
            == Done(NodeText(next), Refs(map[0 := next], next + 1))
  {
    var refs := Refs(map[], next);
    OneValue(Env(AsWritten, pol, NodeHeap), NodePtr, next, fuel);
    NodeAtTop(pol, refs, fuel);
    assert Register(refs, 0) == Refs(map[0 := next], next + 1);
  }

  /** `n` at the top level, with the node not yet registered. */
  lemma NodeAtTop(pol: Policy, refs: Refs, fuel: nat)
    requires pol.maxDepth >= 2 && fuel >= 5 && 0 !in refs.ids
    ensures TopLevel(Env(AsWritten, pol, NodeHeap), NodePtr, refs, fuel) == Done(NodeBlock(refs.next), Register(refs, 0))
  {
    var line := Indent(1) + "+Next\t=> " + InnerNode(refs.next) + "\n";
    TopToCell(pol, refs, fuel);
    CellFrame(pol, 0, refs, fuel - 2);
    FieldFirstVisit(pol, refs, fuel - 2);
    FramedText("#main.Node {\n", line, Indent(0) + "}", Register(refs, 0));
  }

  /**
   * The counter is not reset: dumping `n` twice in a row, as written,
   * prints `↩︎ &1` in the first dump and `↩︎ &2` in the second, not `↩︎ &1`
   * twice.
   */
  lemma CounterCarriesOver(pol: Policy, fuel: nat)
    requires pol.maxDepth >= 2 && fuel >= 5
    ensures var e := Env(AsWritten, pol, NodeHeap);
            var first := DumpAll(e, [NodePtr], 1, fuel);
            first == Done(NodeText(1), Refs(map[0 := 1], 2)) &&
            DumpAll(e, [NodePtr], first.refs.next, fuel) == Done(NodeText(2), Refs(map[0 := 2], 3))
  {
    CycleReference(pol, 1, fuel);
    CycleReference(pol, 2, fuel);
  }
}
