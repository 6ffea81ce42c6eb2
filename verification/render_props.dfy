/**
 * What printValue promises: the order of its checks, where the depth limit
 * and the item limit apply, how pointers are numbered and referred back to,
 * and how strings and byte slices come out.
 */
module RenderProps {
  import opened Values
  import opened Text
  import opened Escape
  import opened Views
  import opened Printer
  import HexDump

  // ---------------------------------------------------------------------
  // Dispatch order
  // ---------------------------------------------------------------------

  /**
   * The depth check belongs to printValue alone: a field that is a usable
   * Stringer shows its String text even one level past the limit, where any
   * other field shows the marker.
   */
  lemma StringerFieldPastLimit(e: Env, x: View, fs: seq<Field>, i: nat, depth: nat, refs: Refs, fuel: nat)
    requires i < |fs| && depth == e.pol.maxDepth && fuel >= 1
    ensures var head := Indent(depth + 1) + (if fs[i].exported then "+" else "-") + fs[i].name + "\t=> ";
            var shown := AsStringer(FieldOf(x, fs[i]));
            RenderFields(e, x, fs, i, depth, refs, fuel)
            == Prefix(head + (if shown != "" then shown else MaxDepthMarker) + "\n",
                      RenderFields(e, x, fs, i + 1, depth, refs, fuel))
  {
    var fv := FieldOf(x, fs[i]);
    var text := if AsStringer(fv) != "" then AsStringer(fv) else MaxDepthMarker;
    var one := if AsStringer(fv) != "" then Done(AsStringer(fv), refs) else Render(e, fv, depth + 1, refs, fuel);
    assert one == Done(text, refs);
    var head := Indent(depth + 1) + (if fs[i].exported then "+" else "-") + fs[i].name + "\t=> ";
    assert RenderFields(e, x, fs, i, depth, refs, fuel) == Prefix(head + text + "\n", RenderFields(e, x, fs, i + 1, depth, refs, fuel));
  }

  /** Beyond the depth limit nothing is inspected: the value, Stringer or not, becomes the marker. */
  lemma DepthMarker(e: Env, x: View, depth: nat, refs: Refs, fuel: nat)
    requires fuel >= 1 && depth > e.pol.maxDepth
    ensures Render(e, x, depth, refs, fuel) == Done(MaxDepthMarker, refs)
  {
  }

  /**
   * Within the limit, a Stringer's text wins over everything else (nil
   * checks, pointer tracking, the kind switch); a Stringer holding a nil
   * pointer prints `<type>(nil)` without calling String.
   */
  lemma StringerFirst(e: Env, x: View, depth: nat, refs: Refs, fuel: nat)
    requires fuel >= 1 && depth <= e.pol.maxDepth
    requires x.v.Val? && !x.v.stringer.NotStringer? && CanInterface(ForceExported(x))
    ensures x.v.stringer.NilPtrStringer? ==>
              Render(e, x, depth, refs, fuel) == Done(x.v.typ + "(nil)", refs)
    ensures x.v.stringer.StringerText? ==>
              Render(e, x, depth, refs, fuel) == Done(x.v.stringer.text + " #" + x.v.typ, refs)
  {
  }

  /** A read-only value that is not addressable is never asked for its String form. */
  lemma UnreadableStringerSkipped(x: View)
    requires !CanInterface(x) && !x.addressable
    ensures AsStringer(x) == ""
  {
  }

  /** A nil pointer, slice, map, interface, func or channel that is no usable Stringer prints `<type>(nil)`. */
  lemma NilValue(e: Env, x: View, depth: nat, refs: Refs, fuel: nat)
    requires fuel >= 1 && depth <= e.pol.maxDepth
    requires IsNil(x.v) && AsStringer(x) == ""
    ensures Render(e, x, depth, refs, fuel) == Done(x.v.typ + "(nil)", refs)
  {
  }

  /** A non-nil channel prints its type and address. */
  lemma ChannelValue(e: Env, x: View, depth: nat, refs: Refs, fuel: nat)
    requires fuel >= 1 && depth <= e.pol.maxDepth
    requires x.v.Val? && x.v.kind.ChanK? && x.v.kind.chanAddr.Some? && AsStringer(x) == ""
    ensures Render(e, x, depth, refs, fuel) == Done(x.v.typ + "(" + x.v.kind.chanAddr.value + ")", refs)
  {
  }

  // ---------------------------------------------------------------------
  // Depth: pointers and interfaces are transparent
  // ---------------------------------------------------------------------

  /** A value that is not nil and reaches the kind switch. */
  predicate Reaches(e: Env, x: View, depth: nat)
  {
    depth <= e.pol.maxDepth && x.v.Val? && AsStringer(x) == "" && !x.v.kind.ChanK? && !IsNil(x.v)
  }

  /** Such a value, unless it is a tracked pointer, goes straight to the kind switch. */
  lemma ReachesKind(e: Env, x: View, depth: nat, refs: Refs, fuel: nat)
    requires fuel >= 1 && Reaches(e, x, depth) && !Tracked(e.build, x)
    ensures Render(e, x, depth, refs, fuel) == RenderKind(e, x, depth, refs, fuel)
  {
  }

  /**
   * An untracked (or not yet registered) pointer prints exactly what its
   * target prints at the SAME depth, after registering the target if it is
   * tracked.
   */
  lemma PointerSameDepth(e: Env, x: View, depth: nat, refs: Refs, fuel: nat)
    requires Reaches(e, x, depth) && x.v.kind.PtrK?
    requires Tracked(e.build, x) ==> x.v.kind.target.value !in refs.ids
    ensures var a := x.v.kind.target.value;
            var refs1 := if Tracked(e.build, x) then Register(refs, a) else refs;
            Render(e, x, depth, refs, fuel + 2) == Render(e, PtrElem(e.heap, a, x), depth, refs1, fuel + 1)
  {
  }

  /** A non-nil interface prints exactly what its dynamic value prints at the same depth. */
  lemma InterfaceSameDepth(e: Env, x: View, depth: nat, refs: Refs, fuel: nat)
    requires Reaches(e, x, depth) && x.v.kind.InterfaceK?
    ensures Render(e, x, depth, refs, fuel + 2)
            == Render(e, InterfaceElem(x.v.kind.dyn.value, x), depth, refs, fuel + 1)
  {
  }

  /** An interface at the depth limit still shows its dynamic value: the hop costs no depth. */
  lemma InterfaceAtLimit(e: Env, x: View, depth: nat, refs: Refs, fuel: nat)
    requires depth == e.pol.maxDepth
    requires Reaches(e, x, depth) && x.v.kind.InterfaceK?
    requires x.v.kind.dyn.value.Val? && x.v.kind.dyn.value.kind.IntK?
    requires x.v.kind.dyn.value.stringer.NotStringer?
    ensures Render(e, x, depth, refs, fuel + 2) == Done(Decimal(x.v.kind.dyn.value.kind.i), refs)
  {
    var inner := InterfaceElem(x.v.kind.dyn.value, x);
    assert AsStringer(inner) == "";
    assert Render(e, inner, depth, refs, fuel + 1) == Done(Decimal(x.v.kind.dyn.value.kind.i), refs);
    InterfaceSameDepth(e, x, depth, refs, fuel);
  }

  // ---------------------------------------------------------------------
  // Structs: fields one level deeper
  // ---------------------------------------------------------------------

  /**
   * What a field shows when it is past the depth limit: its String text if
   * it is a usable Stringer (that check comes before printValue's depth
   * check), the marker otherwise.
   */
  function AtLimit(x: View, f: Field): string
  {
    if AsStringer(FieldOf(x, f)) != "" then AsStringer(FieldOf(x, f)) else MaxDepthMarker
  }

  /** The lines a struct's fields print when each field is past the depth limit. */
  function FieldsAtLimit(x: View, fs: seq<Field>, depth: nat): string
  {
    if |fs| == 0 then ""
    else
      Indent(depth + 1) + (if fs[0].exported then "+" else "-") + fs[0].name + "\t=> " + AtLimit(x, fs[0]) + "\n"
      + FieldsAtLimit(x, fs[1..], depth)
  }

  lemma {:induction false} FieldsAtLimitLines(e: Env, x: View, fs: seq<Field>, i: nat, depth: nat, refs: Refs, fuel: nat)
    requires i <= |fs| && depth == e.pol.maxDepth
    ensures RenderFields(e, x, fs, i, depth, refs, fuel + 1) == Done(FieldsAtLimit(x, fs[i..], depth), refs)
    decreases |fs| - i
  {
    if i < |fs| {
      FieldsAtLimitLines(e, x, fs, i + 1, depth, refs, fuel);
      assert fs[i..][0] == fs[i];
      assert fs[i..][1..] == fs[i + 1..];
    }
  }

  /** A struct prints its type header, its fields one level deeper, and a brace at its own indentation. */
  lemma StructFrame(e: Env, x: View, depth: nat, refs: Refs, fuel: nat)
    requires Reaches(e, x, depth) && x.v.kind.StructK?
    ensures Render(e, x, depth, refs, fuel + 1)
            == Suffix(Prefix("#" + x.v.typ + " {\n", RenderFields(e, x, x.v.kind.fields, 0, depth, refs, fuel)),
                      Indent(depth) + "}")
  {
    ReachesKind(e, x, depth, refs, fuel + 1);
    StructKind(e, x, depth, refs, fuel);
  }

  lemma StructKind(e: Env, x: View, depth: nat, refs: Refs, fuel: nat)
    requires x.v.Val? && x.v.kind.StructK?
    ensures RenderKind(e, x, depth, refs, fuel + 1)
            == Suffix(Prefix("#" + x.v.typ + " {\n", RenderFields(e, x, x.v.kind.fields, 0, depth, refs, fuel)),
                      Indent(depth) + "}")
  {
  }

  /**
   * A struct at the depth limit: its header, then one line per declared
   * field in order (sign, name, separator), each value one level deeper and
   * hence cut unless it is a Stringer, then the closing brace at the
   * struct's own indentation.
   */
  lemma StructAtLimit(e: Env, x: View, depth: nat, refs: Refs, fuel: nat)
    requires Reaches(e, x, depth) && x.v.kind.StructK?
    requires depth == e.pol.maxDepth
    ensures Render(e, x, depth, refs, fuel + 2)
            == Done(("#" + x.v.typ + " {\n" + FieldsAtLimit(x, x.v.kind.fields, depth)) + (Indent(depth) + "}"), refs)
  {
    var fs := x.v.kind.fields;
    FieldsAtLimitLines(e, x, fs, 0, depth, refs, fuel);
    assert fs[0..] == fs;
    StructFrame(e, x, depth, refs, fuel + 1);
    var body := FieldsAtLimit(x, fs, depth);
    assert Prefix("#" + x.v.typ + " {\n", Done(body, refs)) == Done("#" + x.v.typ + " {\n" + body, refs);
  }

  // ---------------------------------------------------------------------
  // Collections: the item limit
  // ---------------------------------------------------------------------

  /** How many elements of `n` a limit lets through. */
  function Shown(n: nat, limit: int): (k: nat)
    ensures k <= n
    ensures limit >= 0 ==> k == if n <= limit then n else limit
    ensures limit < 0 ==> k == 0
  {
    if limit <= 0 then 0 else if n <= limit then n else limit
  }

  lemma PrefixSuffix(p: string, o: Outcome, s: string)
    ensures Prefix(p, Suffix(o, s)) == Suffix(Prefix(p, o), s)
  {
    if o.Done? {
      assert p + (o.text + s) == (p + o.text) + s;
    }
  }

  /**
   * Only the first Shown(|es|, limit) elements are rendered, exactly as they
   * would be without a limit; the marker line follows if and only if there
   * were more elements.
   */
  lemma {:induction false} ItemsTruncation(
    e: Env, x: View, isSlice: bool, es: seq<Value>, i: nat, limit: int, depth: nat, refs: Refs, fuel: nat)
    requires i <= Shown(|es|, limit)
    ensures var k := Shown(|es|, limit);
            RenderItems(e, x, isSlice, es, i, limit, depth, refs, fuel)
            == Suffix(RenderItems(e, x, isSlice, es[..k], i, limit, depth, refs, fuel),
                      if |es| > k then Indent(depth + 1) + TruncatedMarker + "\n" else "")
    decreases |es| - i
  {
    var k := Shown(|es|, limit);
    if i < k {
      var child := if isSlice then SliceIndex(x, es[i]) else ArrayIndex(x, es[i]);
      assert es[..k][i] == es[i];
      var one := Render(e, child, depth + 1, refs, fuel);
      if one.Done? {
        var line := Indent(depth + 1) + Decimal(i) + " => " + one.text + "\n";
        var shown := RenderItems(e, x, isSlice, es[..k], i + 1, limit, depth, one.refs, fuel);
        assert RenderItems(e, x, isSlice, es[..k], i, limit, depth, refs, fuel) == Prefix(line, shown);
        ItemsTruncation(e, x, isSlice, es, i + 1, limit, depth, one.refs, fuel);
        PrefixSuffix(line, shown, if |es| > k then Indent(depth + 1) + TruncatedMarker + "\n" else "");
      }
    }
  }

  /** The same for maps, whose marker line has no newline. */
  lemma {:induction false} EntriesTruncation(
    e: Env, x: View, es: seq<Entry>, i: nat, limit: int, depth: nat, refs: Refs, fuel: nat)
    requires i <= Shown(|es|, limit)
    ensures var k := Shown(|es|, limit);
            RenderEntries(e, x, es, i, limit, depth, refs, fuel)
            == Suffix(RenderEntries(e, x, es[..k], i, limit, depth, refs, fuel),
                      if |es| > k then Indent(depth + 1) + TruncatedMarker else "")
    decreases |es| - i
  {
    var k := Shown(|es|, limit);
    if i < k && !(e.build == AsWritten && !CanInterface(x)) {
      assert es[..k][i] == es[i];
      var one := Render(e, MapIndex(x, es[i].value), depth + 1, refs, fuel);
      if one.Done? {
        var line := Indent(depth + 1) + " " + es[i].keyText + " => " + one.text + "\n";
        var shown := RenderEntries(e, x, es[..k], i + 1, limit, depth, one.refs, fuel);
        EntriesHead(e, x, es, i, limit, depth, refs, fuel);
        EntriesHead(e, x, es[..k], i, limit, depth, refs, fuel);
        EntriesTruncation(e, x, es, i + 1, limit, depth, one.refs, fuel);
        PrefixSuffix(line, shown, if |es| > k then Indent(depth + 1) + TruncatedMarker else "");
      }
    }
  }

  /** The first entry still to print, when the limit lets it through and its value prints. */
  lemma EntriesHead(e: Env, x: View, es: seq<Entry>, i: nat, limit: int, depth: nat, refs: Refs, fuel: nat)
    requires i < |es| && i < limit && !(e.build == AsWritten && !CanInterface(x))
    requires Render(e, MapIndex(x, es[i].value), depth + 1, refs, fuel).Done?
    ensures var one := Render(e, MapIndex(x, es[i].value), depth + 1, refs, fuel);
            RenderEntries(e, x, es, i, limit, depth, refs, fuel)
            == Prefix(Indent(depth + 1) + " " + es[i].keyText + " => " + one.text + "\n",
                      RenderEntries(e, x, es, i + 1, limit, depth, one.refs, fuel))
  {
  }

  /** Elements beyond the limit are never visited: two slices that agree on the shown part print alike. */
  lemma ItemsBeyondLimitUnseen(
    e: Env, x: View, isSlice: bool, es1: seq<Value>, es2: seq<Value>, limit: int, depth: nat, refs: Refs, fuel: nat)
    requires |es1| == |es2|
    requires es1[..Shown(|es1|, limit)] == es2[..Shown(|es2|, limit)]
    ensures RenderItems(e, x, isSlice, es1, 0, limit, depth, refs, fuel)
            == RenderItems(e, x, isSlice, es2, 0, limit, depth, refs, fuel)
  {
    ItemsTruncation(e, x, isSlice, es1, 0, limit, depth, refs, fuel);
    ItemsTruncation(e, x, isSlice, es2, 0, limit, depth, refs, fuel);
  }

  // ---------------------------------------------------------------------
  // References
  // ---------------------------------------------------------------------

  /** A tracked pointer whose target is already registered prints a back reference and is not descended. */
  lemma BackReference(e: Env, x: View, depth: nat, refs: Refs, fuel: nat)
    requires fuel >= 1 && Reaches(e, x, depth) && Tracked(e.build, x)
    requires x.v.kind.target.value in refs.ids
    ensures Render(e, x, depth, refs, fuel)
            == Done(BackRefArrow + Decimal(refs.ids[x.v.kind.target.value]), refs)
  {
  }

  /** The first visit of a tracked pointer registers its target under the current counter. */
  lemma FirstVisitRegisters(e: Env, x: View, depth: nat, refs: Refs, fuel: nat)
    requires fuel >= 1 && Reaches(e, x, depth) && Tracked(e.build, x)
    requires x.v.kind.target.value !in refs.ids
    requires Render(e, x, depth, refs, fuel).Done?
    ensures var r := Render(e, x, depth, refs, fuel).refs;
            x.v.kind.target.value in r.ids && r.ids[x.v.kind.target.value] == refs.next && r.next > refs.next
  {
    var a := x.v.kind.target.value;
    var refs1 := Register(refs, a);
    var r := RenderKind(e, x, depth, refs1, fuel);
    assert Grows(refs1, r.refs);
  }

  /**
   * Two tracked pointers to the same target, printed one after the other:
   * the second is a back reference to the id the first one registered, even
   * if the value graph has no cycle.
   */
  lemma SecondPointerIsBackReference(e: Env, x1: View, x2: View, depth: nat, refs: Refs, fuel: nat)
    requires fuel >= 1 && Reaches(e, x1, depth) && Tracked(e.build, x1)
    requires Reaches(e, x2, depth) && Tracked(e.build, x2)
    requires x1.v.kind.target == x2.v.kind.target && x1.v.kind.target.value !in refs.ids
    requires Render(e, x1, depth, refs, fuel).Done?
    ensures Render(e, x2, depth, Render(e, x1, depth, refs, fuel).refs, fuel)
            == Done(BackRefArrow + Decimal(refs.next), Render(e, x1, depth, refs, fuel).refs)
  {
    FirstVisitRegisters(e, x1, depth, refs, fuel);
    BackReference(e, x2, depth, Render(e, x1, depth, refs, fuel).refs, fuel);
  }

  // ---------------------------------------------------------------------
  // Leaves
  // ---------------------------------------------------------------------

  /**
   * A string is escaped, then cut to maxStringLen runes plus an ellipsis,
   * then quoted; a negative maxStringLen makes the rune slice panic.
   */
  lemma StringValue(e: Env, x: View, depth: nat, refs: Refs, fuel: nat)
    requires fuel >= 1 && Reaches(e, x, depth) && x.v.kind.StrK?
    ensures e.pol.maxStringLen >= 0 ==>
              Render(e, x, depth, refs, fuel) == Done(QuotedString(x.v.kind.s, e.pol.maxStringLen), refs)
    ensures e.pol.maxStringLen < 0 ==> Render(e, x, depth, refs, fuel) == Panic(SliceBoundsPanic)
  {
  }

  /**
   * A readable byte slice is printed as a hex dump one level deeper, whatever
   * the item limit; as written, an unreadable one panics.
   */
  lemma BytesValue(e: Env, x: View, depth: nat, refs: Refs, fuel: nat)
    requires fuel >= 1 && Reaches(e, x, depth) && x.v.kind.BytesK?
    ensures CanInterface(x) || e.build == Corrected ==>
              Render(e, x, depth, refs, fuel)
              == Done(HexDump.FormatByteSliceAsHexDump(x.v.kind.data, x.v.kind.cap, depth + 1), refs)
    ensures !CanInterface(x) && e.build == AsWritten ==> Render(e, x, depth, refs, fuel) == Panic(ReadOnlyPanic)
  {
  }

  /** The item limit does not apply to byte slices: every byte is dumped. */
  lemma BytesIgnoreItemLimit(e: Env, x: View, depth: nat, refs: Refs, fuel: nat, maxItems: int)
    requires fuel >= 1 && Reaches(e, x, depth) && x.v.kind.BytesK?
    ensures Render(e, x, depth, refs, fuel)
            == Render(e.(pol := e.pol.(maxItems := maxItems)), x, depth, refs, fuel)
  {
    BytesValue(e, x, depth, refs, fuel);
    BytesValue(e.(pol := e.pol.(maxItems := maxItems)), x, depth, refs, fuel);
  }

  /** Numbers and booleans print in decimal and as `true`/`false`; the decimal reads back. */
  lemma ScalarValues(e: Env, x: View, depth: nat, refs: Refs, fuel: nat)
    requires fuel >= 1 && Reaches(e, x, depth)
    ensures x.v.kind.IntK? ==>
              Render(e, x, depth, refs, fuel).Done? && ParseDecimal(Render(e, x, depth, refs, fuel).text) == x.v.kind.i
    ensures x.v.kind.UintK? ==>
              Render(e, x, depth, refs, fuel).Done? && ParseDecimal(Render(e, x, depth, refs, fuel).text) == x.v.kind.u
    ensures x.v.kind.BoolK? ==>
              Render(e, x, depth, refs, fuel) == Done(if x.v.kind.b then "true" else "false", refs)
  {
    if x.v.kind.IntK? {
      DecimalRoundTrip(x.v.kind.i);
    } else if x.v.kind.UintK? {
      DecimalRoundTrip(x.v.kind.u);
    }
  }
}
