/**
 * `printValue`: the recursive renderer, as a pure function.
 *
 * The package-level reference state (the map from pointer targets to
 * reference ids and the next id) is threaded explicitly through `Refs`. The
 * result is the text written before tabwriter alignment (colour codes
 * omitted), or a panic, or `Overflow` when the nesting of printValue calls
 * exceeds `fuel` - the model of Go's stack running out.
 *
 * `Build` selects between the code as written and a corrected variant that
 * differs in the three places where the code is evidently not what its
 * authors intended: it registers every pointer it descends through (not only
 * the addressable ones), it does not panic on a read-only byte slice, and it
 * does not panic on the keys of a read-only map.
 */
module Printer {
  import opened Values
  import opened Text
  import opened Escape
  import opened Views
  import HexDump

  datatype Build = AsWritten | Corrected

  /** The three limits of a Dumper that printValue reads. */
  datatype Policy = Policy(maxDepth: int, maxItems: int, maxStringLen: int)

  /** Everything fixed for one dump. */
  datatype Env = Env(build: Build, pol: Policy, heap: Heap)

  /** `referenceMap` and `nextRefID`. */
  datatype Refs = Refs(ids: map<Addr, int>, next: int)

  datatype Outcome = Done(text: string, refs: Refs) | Panic(reason: string) | Overflow

  const MaxDepthMarker: string := "... (max depth)"
  const InvalidText: string := "<invalid>"
  const TruncatedMarker: string := "... (truncated)"
  const BackRefArrow: string := "\U{21A9}\U{FE0E} &"
  const ReadOnlyPanic: string := "reflect.Value.Interface: cannot return value obtained from unexported field or method"
  const SliceBoundsPanic: string := "runtime error: slice bounds out of range"

  // ---------------------------------------------------------------------
  // The reference state
  // ---------------------------------------------------------------------

  /** Ids are below the counter and distinct. */
  predicate ValidRefs(r: Refs)
  {
    && (forall a :: a in r.ids ==> r.ids[a] < r.next)
    && (forall a, b :: a in r.ids && b in r.ids && a != b ==> r.ids[a] != r.ids[b])
  }

  /**
   * `r1` only adds to `r0`: registered targets keep their ids, the counter
   * does not go back, and every newly registered target has an id handed
   * out in between.
   */
  predicate Grows(r0: Refs, r1: Refs)
  {
    && r0.next <= r1.next
    && (forall a :: a in r0.ids ==> a in r1.ids && r1.ids[a] == r0.ids[a])
    && (forall a :: a in r1.ids && a !in r0.ids ==> r0.next <= r1.ids[a] < r1.next)
  }

  lemma GrowsTrans(r0: Refs, r1: Refs, r2: Refs)
    requires Grows(r0, r1) && Grows(r1, r2)
    ensures Grows(r0, r2)
  {
  }

  /** Registering a target: it gets the current counter, which then moves on. */
  function Register(r: Refs, a: Addr): (r1: Refs)
    requires a !in r.ids
    ensures Grows(r, r1) && a in r1.ids && r1.ids[a] == r.next
    ensures ValidRefs(r) ==> ValidRefs(r1)
  {
    Refs(r.ids[a := r.next], r.next + 1)
  }

  /** Outcome of a step followed by more output. */
  predicate Follows(refs: Refs, o: Outcome)
  {
    o.Done? ==> Grows(refs, o.refs) && (ValidRefs(refs) ==> ValidRefs(o.refs))
  }

  /** Text `p` written before the outcome `o`. */
  function Prefix(p: string, o: Outcome): (r: Outcome)
    ensures r.Done? <==> o.Done?
    ensures r.Done? ==> r.refs == o.refs && r.text == p + o.text
    ensures !o.Done? ==> r == o
  {
    match o
    case Done(t, refs) => Done(p + t, refs)
    case _ => o
  }

  /** The outcome `o` followed by text `s`. */
  function Suffix(o: Outcome, s: string): (r: Outcome)
    ensures r.Done? <==> o.Done?
    ensures r.Done? ==> r.refs == o.refs && r.text == o.text + s
    ensures !o.Done? ==> r == o
  {
    match o
    case Done(t, refs) => Done(t + s, refs)
    case _ => o
  }

  // ---------------------------------------------------------------------
  // Stringer
  // ---------------------------------------------------------------------

  /**
   * `asStringer`: the `String()` text and the type, `<type>(nil)` for a
   * Stringer holding a nil pointer, or "" when the value is no Stringer or
   * cannot be interfaced even after forceExported.
   */
  function AsStringer(x: View): (s: string)
    ensures x.v.Invalid? ==> s == ""
    ensures s != "" <==>
              x.v.Val? && !x.v.stringer.NotStringer? && CanInterface(ForceExported(x))
    ensures s != "" && x.v.stringer.NilPtrStringer? ==> s == x.v.typ + "(nil)"
    ensures s != "" && x.v.stringer.StringerText? ==> s == x.v.stringer.text + " #" + x.v.typ
  {
    var val := if !CanInterface(x) then ForceExported(x) else x;
    if CanInterface(val) && val.v.Val? then
      match val.v.stringer
      case NotStringer => ""
      case NilPtrStringer => val.v.typ + "(nil)"
      case StringerText(t) => t + " #" + val.v.typ
    else ""
  }

  // ---------------------------------------------------------------------
  // printValue
  // ---------------------------------------------------------------------

  /** The pointer's target is recorded in the reference map (only addressable ones, as written). */
  predicate Tracked(b: Build, x: View)
  {
    x.v.Val? && x.v.kind.PtrK? && x.v.kind.target.Some? && (b == Corrected || x.addressable)
  }

  /** `printValue(w, x, depth)`. */
  function Render(e: Env, x: View, depth: nat, refs: Refs, fuel: nat): (r: Outcome)
    ensures Follows(refs, r)
    decreases fuel, 1
  {
    if fuel == 0 then Overflow
    else if depth > e.pol.maxDepth then Done(MaxDepthMarker, refs)
    else if x.v.Invalid? then Done(InvalidText, refs)
    else if AsStringer(x) != "" then Done(AsStringer(x), refs)
    else if x.v.kind.ChanK? then
      Done(x.v.typ + "(" + (if x.v.kind.chanAddr.None? then "nil" else x.v.kind.chanAddr.value) + ")", refs)
    else if IsNil(x.v) then Done(x.v.typ + "(nil)", refs)
    else if Tracked(e.build, x) && x.v.kind.target.value in refs.ids then
      Done(BackRefArrow + Decimal(refs.ids[x.v.kind.target.value]), refs)
    else
      var refs1 := if Tracked(e.build, x) then Register(refs, x.v.kind.target.value) else refs;
      var r := RenderKind(e, x, depth, refs1, fuel);
      GrowsTrans(refs, refs1, if r.Done? then r.refs else refs1);
      r
  }

  /** The kind switch of printValue, for a valid, non-nil value that is no Stringer. */
  function RenderKind(e: Env, x: View, depth: nat, refs: Refs, fuel: nat): (r: Outcome)
    requires x.v.Val? && fuel >= 1
    ensures Follows(refs, r)
    decreases fuel, 0
  {
    var typ := x.v.typ;
    match x.v.kind
    case PtrK(t) =>
      if t.None? then Done(typ + "(nil)", refs)
      else Render(e, PtrElem(e.heap, t.value, x), depth, refs, fuel - 1)
    case InterfaceK(d) =>
      if d.None? then Done(typ + "(nil)", refs)
      else Render(e, InterfaceElem(d.value, x), depth, refs, fuel - 1)
    case StructK(fs) =>
      Suffix(Prefix("#" + typ + " {\n", RenderFields(e, x, fs, 0, depth, refs, fuel - 1)), Indent(depth) + "}")
    case ComplexK(c) => Done(c, refs)
    case UnsafePtrK(u) => Done("unsafe.Pointer(" + u + ")", refs)
    case MapK(_, es) =>
      Suffix(Prefix("{\n", RenderEntries(e, x, es, 0, e.pol.maxItems, depth, refs, fuel - 1)), Indent(depth) + "}")
    case BytesK(_, data, cap) =>
      if e.build == AsWritten && !CanInterface(x) then Panic(ReadOnlyPanic)
      else Done(HexDump.FormatByteSliceAsHexDump(data, cap, depth + 1), refs)
    case SliceK(_, es) =>
      Suffix(Prefix("[\n", RenderItems(e, x, true, es, 0, e.pol.maxItems, depth, refs, fuel - 1)), Indent(depth) + "]")
    case ArrayK(es) =>
      Suffix(Prefix("[\n", RenderItems(e, x, false, es, 0, e.pol.maxItems, depth, refs, fuel - 1)), Indent(depth) + "]")
    case StrK(s) =>
      if e.pol.maxStringLen < 0 then Panic(SliceBoundsPanic)
      else Done(QuotedString(s, e.pol.maxStringLen), refs)
    case BoolK(v) => Done(if v then "true" else "false", refs)
    case IntK(i) => Done(Decimal(i), refs)
    case UintK(u) => Done(Decimal(u), refs)
    case FloatK(f) => Done(f, refs)
    case FuncK(_) => Done(typ, refs)
    case ChanK(c) => Done(typ + "(" + (if c.None? then "nil" else c.value) + ")", refs)
  }

  /** The view of a field as printValue reads it: an unexported one goes through forceExported. */
  function FieldOf(x: View, f: Field): (r: View)
    ensures r.v == f.value
    ensures f.exported ==> r.addressable == x.addressable && (CanInterface(r) <==> !x.ro.sticky)
    ensures !f.exported ==> (CanInterface(r) <==> x.addressable)
  {
    if f.exported then FieldView(x, f) else ForceExported(FieldView(x, f))
  }

  /** Fields `i..` of a struct: sign and name, then the Stringer text or the value one level deeper. */
  function RenderFields(e: Env, x: View, fs: seq<Field>, i: nat, depth: nat, refs: Refs, fuel: nat): (r: Outcome)
    requires i <= |fs|
    ensures Follows(refs, r)
    decreases fuel, 2, |fs| - i
  {
    if i == |fs| then Done("", refs)
    else
      var f := fs[i];
      var fv := FieldOf(x, f);
      var head := Indent(depth + 1) + (if f.exported then "+" else "-") + f.name + "\t=> ";
      var one := if AsStringer(fv) != "" then Done(AsStringer(fv), refs) else Render(e, fv, depth + 1, refs, fuel);
      match one
      case Done(t, refs1) =>
        var rest := RenderFields(e, x, fs, i + 1, depth, refs1, fuel);
        GrowsTrans(refs, refs1, if rest.Done? then rest.refs else refs1);
        Prefix(head + t + "\n", rest)
      case Panic(m) => Panic(m)
      case Overflow => Overflow
  }

  /**
   * Entries `i..` of a map, at most `limit` of them: after that a marker
   * line without a newline. As written, reading a key of a read-only map
   * panics.
   */
  function RenderEntries(e: Env, x: View, es: seq<Entry>, i: nat, limit: int, depth: nat, refs: Refs, fuel: nat)
    : (r: Outcome)
    requires i <= |es|
    ensures Follows(refs, r)
    decreases fuel, 2, |es| - i
  {
    if i == |es| then Done("", refs)
    else if i >= limit then Done(Indent(depth + 1) + TruncatedMarker, refs)
    else if e.build == AsWritten && !CanInterface(x) then Panic(ReadOnlyPanic)
    else
      var head := Indent(depth + 1) + " " + es[i].keyText + " => ";
      match Render(e, MapIndex(x, es[i].value), depth + 1, refs, fuel)
      case Done(t, refs1) =>
        var rest := RenderEntries(e, x, es, i + 1, limit, depth, refs1, fuel);
        GrowsTrans(refs, refs1, if rest.Done? then rest.refs else refs1);
        Prefix(head + t + "\n", rest)
      case Panic(m) => Panic(m)
      case Overflow => Overflow
  }

  /** Elements `i..` of a slice or array, at most `limit` of them: after that a marker line. */
  function RenderItems(e: Env, x: View, isSlice: bool, es: seq<Value>, i: nat, limit: int, depth: nat, refs: Refs, fuel: nat)
    : (r: Outcome)
    requires i <= |es|
    ensures Follows(refs, r)
    decreases fuel, 2, |es| - i
  {
    if i == |es| then Done("", refs)
    else if i >= limit then Done(Indent(depth + 1) + TruncatedMarker + "\n", refs)
    else
      var child := if isSlice then SliceIndex(x, es[i]) else ArrayIndex(x, es[i]);
      var head := Indent(depth + 1) + Decimal(i) + " => ";
      match Render(e, child, depth + 1, refs, fuel)
      case Done(t, refs1) =>
        var rest := RenderItems(e, x, isSlice, es, i + 1, limit, depth, refs1, fuel);
        GrowsTrans(refs, refs1, if rest.Done? then rest.refs else refs1);
        Prefix(head + t + "\n", rest)
      case Panic(m) => Panic(m)
      case Overflow => Overflow
  }
}
