/**
 * Three concrete inputs on which printValue as written does not do what its
 * design says, next to what the corrected build prints for them.
 *
 * 1. Only addressable pointers are registered, but a pointer reached
 *    through an interface (or passed at the top level) is not addressable.
 *    A cycle that goes through one is never cut, and because pointer and
 *    interface steps do not count towards the depth, the depth limit does
 *    not cut it either: `p := new(any); *p = p; Dump(p)` recurses until
 *    the stack runs out.
 * 2. A []byte reached through an unexported field of a value that is not
 *    addressable (here, a struct stored in a map) is read-only;
 *    `Convert(...).Interface()` then panics instead of producing the hex
 *    dump.
 * 3. For the same reason, the keys of a map reached that way are read-only
 *    (MapKeys keeps the map's flag), and `key.Interface()` panics on the
 *    first key instead of printing the map.
 */
module Findings {
  import opened Values
  import opened Text
  import opened Views
  import opened Printer
  import HexDump

  // ---------------------------------------------------------------------
  // 1. A pointer cycle through an interface
  // ---------------------------------------------------------------------

  /** `p := new(any)`: the pointer, at address 0. */
  const SelfPtr: Value := Val("*interface {}", PtrK(Some(0)), NotStringer)

  /** `*p = p`: the cell at address 0 is an interface holding the pointer itself. */
  const LoopHeap: Heap := map[0 := Val("interface {}", InterfaceK(Some(SelfPtr)), NotStringer)]

  lemma LoopHeapClosed()
    ensures Closed(LoopHeap) && PointsInto(SelfPtr, LoopHeap)
  {
  }

  /**
   * As written: whatever the limits and whatever nesting budget, printing
   * `p` never finishes; each round trip pointer -> interface -> pointer is
   * back at the same depth with nothing registered.
   */
  lemma {:induction false} AsWrittenLoopOverflows(pol: Policy, depth: nat, refs: Refs, fuel: nat)
    requires depth <= pol.maxDepth
    ensures Render(Env(AsWritten, pol, LoopHeap), Top(SelfPtr), depth, refs, fuel) == Overflow
    decreases fuel
  {
    if fuel >= 1 {
      PointerToCell(pol, depth, refs, fuel);
      if fuel >= 2 {
        CellToPointer(pol, depth, refs, fuel - 1);
        AsWrittenLoopOverflows(pol, depth, refs, fuel - 2);
      }
    }
  }

  /** The cell `*p`, as reached through `p`. */
  function LoopCell(): View
  {
    PtrElem(LoopHeap, 0, Top(SelfPtr))
  }

  /** As written, `p` is not registered: printing it is printing `*p` one level deeper in the stack. */
  lemma PointerToCell(pol: Policy, depth: nat, refs: Refs, fuel: nat)
    requires depth <= pol.maxDepth && fuel >= 1
    ensures Render(Env(AsWritten, pol, LoopHeap), Top(SelfPtr), depth, refs, fuel)
            == Render(Env(AsWritten, pol, LoopHeap), LoopCell(), depth, refs, fuel - 1)
  {
    assert !Tracked(AsWritten, Top(SelfPtr));
  }

  /** Printing `*p` is printing the pointer it holds, at the same depth. */
  lemma CellToPointer(pol: Policy, depth: nat, refs: Refs, fuel: nat)
    requires depth <= pol.maxDepth && fuel >= 1
    ensures Render(Env(AsWritten, pol, LoopHeap), LoopCell(), depth, refs, fuel)
            == Render(Env(AsWritten, pol, LoopHeap), Top(SelfPtr), depth, refs, fuel - 1)
  {
    assert LoopCell() == View(LoopHeap[0], true, Readable);
    assert InterfaceElem(SelfPtr, LoopCell()) == Top(SelfPtr);
  }

  /** Corrected: the second visit of `p` is a back reference to the first, `↩︎ &<id>`. */
  lemma CorrectedLoopRefersBack(pol: Policy, depth: nat, refs: Refs, fuel: nat)
    requires depth <= pol.maxDepth && fuel >= 3 && 0 !in refs.ids
    ensures Render(Env(Corrected, pol, LoopHeap), Top(SelfPtr), depth, refs, fuel)
            == Done(BackRefArrow + Decimal(refs.next), Register(refs, 0))
  {
    var e := Env(Corrected, pol, LoopHeap);
    var refs1 := Register(refs, 0);
    var cell := PtrElem(LoopHeap, 0, Top(SelfPtr));
    assert cell == View(LoopHeap[0], true, Readable);
    assert InterfaceElem(SelfPtr, cell) == Top(SelfPtr);
    assert Render(e, Top(SelfPtr), depth, refs1, fuel - 2) == Done(BackRefArrow + Decimal(refs.next), refs1);
    assert Render(e, cell, depth, refs1, fuel - 1) == Render(e, Top(SelfPtr), depth, refs1, fuel - 2);
  }

  /** With a fresh reference map and the initial counter 1, that is `↩︎ &1`. */
  lemma CorrectedLoopFirstDump(pol: Policy, fuel: nat)
    requires pol.maxDepth >= 0 && fuel >= 3
    ensures Render(Env(Corrected, pol, LoopHeap), Top(SelfPtr), 0, Refs(map[], 1), fuel).Done?
    ensures Render(Env(Corrected, pol, LoopHeap), Top(SelfPtr), 0, Refs(map[], 1), fuel).text == BackRefArrow + "1"
  {
    CorrectedLoopRefersBack(pol, 0, Refs(map[], 1), fuel);
    assert Decimal(1) == "1";
  }

  // ---------------------------------------------------------------------
  // 2. A read-only byte slice
  // ---------------------------------------------------------------------

  /** A byte slice with contents `data`, like `[]byte("x")`. */
  function Bytes(data: seq<byte>): Value
  {
    Val("[]uint8", BytesK(false, data, |data|), NotStringer)
  }

  /** `struct{ b []byte }{...}`: one unexported field. */
  function Holder(data: seq<byte>): Value
  {
    Val("struct { b []uint8 }", StructK([Field("b", false, false, Bytes(data))]), NotStringer)
  }

  /** `map[string]struct{ b []byte }{"k": ...}`. */
  function HolderMap(data: seq<byte>): Value
  {
    Val("map[string]struct { b []uint8 }", MapK(false, [Entry("k", Holder(data))]), NotStringer)
  }

  /** The field as the renderer reaches it. */
  function HolderField(data: seq<byte>): View
  {
    ForceExported(FieldView(MapIndex(Top(HolderMap(data)), Holder(data)), Holder(data).kind.fields[0]))
  }

  /** The field is read-only and not addressable, so forceExported cannot help. */
  lemma HolderFieldReadOnly(data: seq<byte>)
    ensures HolderField(data).v == Bytes(data)
    ensures !CanInterface(HolderField(data)) && !HolderField(data).addressable
  {
  }

  /** As written, dumping the map panics in the byte-slice conversion, whatever the bytes. */
  lemma AsWrittenBytesPanic(pol: Policy, heap: Heap, data: seq<byte>, fuel: nat)
    requires pol.maxDepth >= 2 && pol.maxItems >= 1 && fuel >= 3
    ensures Render(Env(AsWritten, pol, heap), Top(HolderMap(data)), 0, Refs(map[], 1), fuel) == Panic(ReadOnlyPanic)
  {
    var e := Env(AsWritten, pol, heap);
    var refs := Refs(map[], 1);
    var s := MapIndex(Top(HolderMap(data)), Holder(data));
    HolderFieldReadOnly(data);
    assert Render(e, HolderField(data), 2, refs, fuel - 2) == Panic(ReadOnlyPanic);
    assert RenderFields(e, s, Holder(data).kind.fields, 0, 1, refs, fuel - 2) == Panic(ReadOnlyPanic);
    assert Render(e, s, 1, refs, fuel - 1) == Panic(ReadOnlyPanic);
    assert RenderEntries(e, Top(HolderMap(data)), HolderMap(data).kind.entries, 0, pol.maxItems, 0, refs, fuel - 1)
           == Panic(ReadOnlyPanic);
  }

  /** Corrected, the field prints as the hex dump of its bytes. */
  lemma CorrectedFieldHexDump(pol: Policy, heap: Heap, data: seq<byte>, refs: Refs, fuel: nat)
    requires pol.maxDepth >= 2 && fuel >= 1
    ensures Render(Env(Corrected, pol, heap), HolderField(data), 2, refs, fuel)
            == Done(HexDump.FormatByteSliceAsHexDump(data, |data|, 3), refs)
  {
    HolderFieldReadOnly(data);
  }

  /** Corrected, the struct holding the field is printed. */
  lemma CorrectedHolderDump(pol: Policy, heap: Heap, data: seq<byte>, refs: Refs, fuel: nat)
    requires pol.maxDepth >= 2 && fuel >= 2
    ensures Render(Env(Corrected, pol, heap), MapIndex(Top(HolderMap(data)), Holder(data)), 1, refs, fuel).Done?
  {
    var e := Env(Corrected, pol, heap);
    var s := MapIndex(Top(HolderMap(data)), Holder(data));
    CorrectedFieldHexDump(pol, heap, data, refs, fuel - 1);
    assert RenderFields(e, s, Holder(data).kind.fields, 0, 1, refs, fuel - 1).Done?;
  }

  /** Corrected, the whole map is printed. */
  lemma CorrectedBytesDump(pol: Policy, heap: Heap, data: seq<byte>, fuel: nat)
    requires pol.maxDepth >= 2 && pol.maxItems >= 1 && fuel >= 3
    ensures Render(Env(Corrected, pol, heap), Top(HolderMap(data)), 0, Refs(map[], 1), fuel).Done?
  {
    var e := Env(Corrected, pol, heap);
    var refs := Refs(map[], 1);
    CorrectedHolderDump(pol, heap, data, refs, fuel - 1);
    assert RenderEntries(e, Top(HolderMap(data)), HolderMap(data).kind.entries, 0, pol.maxItems, 0, refs, fuel - 1).Done?;
  }

  // ---------------------------------------------------------------------
  // 3. Read-only map keys
  // ---------------------------------------------------------------------

  /** `map[string]int{key: 1}`. */
  function IntMap(key: string): Value
  {
    Val("map[string]int", MapK(false, [Entry(key, Val("int", IntK(1), NotStringer))]), NotStringer)
  }

  /** `struct{ m map[string]int }{...}`: one unexported map field. */
  function MapHolder(key: string): Value
  {
    Val("struct { m map[string]int }", StructK([Field("m", false, false, IntMap(key))]), NotStringer)
  }

  /** `map[string]struct{ m map[string]int }{"k": ...}`. */
  function MapHolderMap(key: string): Value
  {
    Val("map[string]struct { m map[string]int }", MapK(false, [Entry("k", MapHolder(key))]), NotStringer)
  }

  /** The inner map as the renderer reaches it: read-only, and forceExported cannot help. */
  lemma InnerMapReadOnly(key: string)
    ensures var m := FieldOf(MapIndex(Top(MapHolderMap(key)), MapHolder(key)), MapHolder(key).kind.fields[0]);
            m.v == IntMap(key) && !CanInterface(m) && AsStringer(m) == ""
  {
  }

  /** As written, dumping the outer map panics on the inner map's first key. */
  lemma AsWrittenMapKeyPanic(pol: Policy, heap: Heap, key: string, fuel: nat)
    requires pol.maxDepth >= 2 && pol.maxItems >= 1 && fuel >= 3
    ensures Render(Env(AsWritten, pol, heap), Top(MapHolderMap(key)), 0, Refs(map[], 1), fuel) == Panic(ReadOnlyPanic)
  {
    var e := Env(AsWritten, pol, heap);
    var refs := Refs(map[], 1);
    var s := MapIndex(Top(MapHolderMap(key)), MapHolder(key));
    var m := FieldOf(s, MapHolder(key).kind.fields[0]);
    InnerMapReadOnly(key);
    assert RenderEntries(e, m, IntMap(key).kind.entries, 0, pol.maxItems, 2, refs, fuel - 3) == Panic(ReadOnlyPanic);
    assert Render(e, m, 2, refs, fuel - 2) == Panic(ReadOnlyPanic);
    assert RenderFields(e, s, MapHolder(key).kind.fields, 0, 1, refs, fuel - 2) == Panic(ReadOnlyPanic);
    assert Render(e, s, 1, refs, fuel - 1) == Panic(ReadOnlyPanic);
    assert RenderEntries(e, Top(MapHolderMap(key)), MapHolderMap(key).kind.entries, 0, pol.maxItems, 0, refs, fuel - 1)
           == Panic(ReadOnlyPanic);
  }

  /** Corrected, the inner map prints its key and value. */
  lemma CorrectedMapKeys(pol: Policy, heap: Heap, key: string, refs: Refs, fuel: nat)
    requires pol.maxDepth >= 3 && pol.maxItems >= 1 && fuel >= 2
    ensures var m := FieldOf(MapIndex(Top(MapHolderMap(key)), MapHolder(key)), MapHolder(key).kind.fields[0]);
            Render(Env(Corrected, pol, heap), m, 2, refs, fuel)
            == Done("{\n" + Indent(3) + " " + key + " => 1\n" + Indent(2) + "}", refs)
  {
    var e := Env(Corrected, pol, heap);
    var m := FieldOf(MapIndex(Top(MapHolderMap(key)), MapHolder(key)), MapHolder(key).kind.fields[0]);
    InnerMapReadOnly(key);
    InnerEntry(e, m, key, refs, fuel - 1);
  }

  /** The one entry of the inner map, printed by the corrected build. */
  lemma InnerEntry(e: Env, m: View, key: string, refs: Refs, fuel: nat)
    requires e.build == Corrected && e.pol.maxDepth >= 3 && e.pol.maxItems >= 1 && fuel >= 1
    ensures RenderEntries(e, m, IntMap(key).kind.entries, 0, e.pol.maxItems, 2, refs, fuel)
            == Done(Indent(3) + " " + key + " => 1\n", refs)
  {
    var one := MapIndex(m, Val("int", IntK(1), NotStringer));
    assert AsStringer(one) == "";
    assert Render(e, one, 3, refs, fuel) == Done("1", refs);
    assert RenderEntries(e, m, IntMap(key).kind.entries, 1, e.pol.maxItems, 2, refs, fuel) == Done("", refs);
  }
}
