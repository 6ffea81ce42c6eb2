/**
 * With every pointer it descends through registered, printValue always
 * finishes: each pointer step either refers back to a registered target or
 * registers a new one, and there are only as many of those as heap cells.
 * The bound below is on the nesting of printValue calls (Go's stack).
 */
module Termination {
  import opened Values
  import opened Views
  import opened Printer

  /** How many of `cells` no pointer step has registered yet. */
  function Unvisited(cells: seq<Addr>, ids: map<Addr, int>): nat
  {
    if |cells| == 0 then 0
    else (if cells[0] in ids then 0 else 1) + Unvisited(cells[1..], ids)
  }

  /** Every heap cell has at most `s` nodes. */
  predicate CellsBounded(h: Heap, s: nat)
  {
    forall a :: a in h ==> Size(h[a]) <= s
  }

  /**
   * What the corrected build needs: a closed heap whose addresses are all
   * listed in `cells` and whose cells have at most `s` nodes each.
   */
  predicate Setting(e: Env, cells: seq<Addr>, s: nat)
  {
    e.build == Corrected && Closed(e.heap) && CellsBounded(e.heap, s) && (forall a :: a in e.heap ==> a in cells)
  }

  /** Enough nesting for a value of `n` nodes plus one full cell per unvisited address. */
  predicate Enough(cells: seq<Addr>, s: nat, refs: Refs, fuel: nat, n: nat)
  {
    fuel >= Budget(Unvisited(cells, refs.ids), s) + n
  }

  /** `u` cells of `s` nodes each, plus one pointer step to reach each: u * (s + 1). */
  function Budget(u: nat, s: nat): nat
  {
    if u == 0 then 0 else Budget(u - 1, s) + s + 1
  }

  lemma {:induction false} BudgetMono(u0: nat, u1: nat, s: nat)
    requires u0 <= u1
    ensures Budget(u0, s) <= Budget(u1, s)
    decreases u1
  {
    if u0 < u1 {
      BudgetMono(u0, u1 - 1, s);
    }
  }

  lemma {:induction false} UnvisitedMono(cells: seq<Addr>, r0: Refs, r1: Refs)
    requires Grows(r0, r1)
    ensures Unvisited(cells, r1.ids) <= Unvisited(cells, r0.ids)
    decreases |cells|
  {
    if |cells| > 0 {
      UnvisitedMono(cells[1..], r0, r1);
    }
  }

  /** Later reference states have no more unvisited cells, so a budget that held still holds. */
  lemma EnoughLater(cells: seq<Addr>, s: nat, r0: Refs, r1: Refs, fuel: nat, n: nat)
    requires Grows(r0, r1) && Enough(cells, s, r0, fuel, n)
    ensures Enough(cells, s, r1, fuel, n)
  {
    UnvisitedMono(cells, r0, r1);
    BudgetMono(Unvisited(cells, r1.ids), Unvisited(cells, r0.ids), s);
  }

  /** Registering a listed, unregistered cell leaves fewer unvisited ones. */
  lemma {:induction false} RegisterVisits(cells: seq<Addr>, refs: Refs, a: Addr)
    requires a in cells && a !in refs.ids
    ensures Unvisited(cells, Register(refs, a).ids) < Unvisited(cells, refs.ids)
    decreases |cells|
  {
    var r1 := Register(refs, a);
    UnvisitedMono(cells[1..], refs, r1);
    if cells[0] != a {
      RegisterVisits(cells[1..], refs, a);
    }
  }

  /** Registering an unvisited cell pays for descending into it. */
  lemma RegisterPays(cells: seq<Addr>, s: nat, refs: Refs, fuel: nat, a: Addr)
    requires a in cells && a !in refs.ids && Enough(cells, s, refs, fuel, 1)
    ensures fuel >= 1 && Enough(cells, s, Register(refs, a), fuel - 1, s + 1)
  {
    RegisterVisits(cells, refs, a);
    var u1 := Unvisited(cells, Register(refs, a).ids);
    var u0 := Unvisited(cells, refs.ids);
    BudgetMono(u1 + 1, u0, s);
  }

  lemma PointerUnfolds(e: Env, x: View, depth: nat, refs: Refs, fuel: nat, y: View, refs1: Refs)
    requires e.build == Corrected && fuel >= 1
    requires depth <= e.pol.maxDepth && x.v.Val? && AsStringer(x) == "" && !IsNil(x.v) && x.v.kind.PtrK?
    requires x.v.kind.target.value !in refs.ids
    requires y == PtrElem(e.heap, x.v.kind.target.value, x) && refs1 == Register(refs, x.v.kind.target.value)
    requires !Render(e, y, depth, refs1, fuel - 1).Overflow?
    ensures !Render(e, x, depth, refs, fuel).Overflow?
  {
  }

  /** A pointer to an unvisited cell: registering it pays for printing the cell. */
  lemma {:induction false} PointerFinishes(e: Env, cells: seq<Addr>, s: nat, x: View, depth: nat, refs: Refs, fuel: nat)
    requires Setting(e, cells, s) && PointsInto(x.v, e.heap)
    requires Enough(cells, s, refs, fuel, Size(x.v))
    requires depth <= e.pol.maxDepth && x.v.Val? && AsStringer(x) == "" && !IsNil(x.v) && x.v.kind.PtrK?
    requires x.v.kind.target.value !in refs.ids
    ensures !Render(e, x, depth, refs, fuel).Overflow?
    decreases fuel, 0
  {
    var a := x.v.kind.target.value;
    assert a in e.heap && a in cells;
    RegisterPays(cells, s, refs, fuel, a);
    var refs1 := Register(refs, a);
    var y := PtrElem(e.heap, a, x);
    assert y.v == e.heap[a] && PointsInto(y.v, e.heap) && Size(y.v) <= s;
    RenderFinishes(e, cells, s, y, depth, refs1, fuel - 1);
    PointerUnfolds(e, x, depth, refs, fuel, y, refs1);
  }

  /**
   * Corrected printValue never runs out of stack on a closed heap: from any
   * reference state, with nesting budget `fuel`, it prints or panics.
   */
  lemma {:induction false} RenderFinishes(e: Env, cells: seq<Addr>, s: nat, x: View, depth: nat, refs: Refs, fuel: nat)
    requires Setting(e, cells, s) && PointsInto(x.v, e.heap)
    requires Enough(cells, s, refs, fuel, Size(x.v))
    ensures !Render(e, x, depth, refs, fuel).Overflow?
    decreases fuel, 1
  {
    if depth <= e.pol.maxDepth && x.v.Val? && AsStringer(x) == "" && !x.v.kind.ChanK? && !IsNil(x.v) {
      if x.v.kind.PtrK? {
        if x.v.kind.target.value !in refs.ids {
          PointerFinishes(e, cells, s, x, depth, refs, fuel);
        }
      } else {
        KindFinishes(e, cells, s, x, depth, refs, fuel);
      }
    }
  }

  /** Whatever reaches the kind switch, a pointer aside. */
  lemma {:induction false} KindFinishes(e: Env, cells: seq<Addr>, s: nat, x: View, depth: nat, refs: Refs, fuel: nat)
    requires Setting(e, cells, s) && PointsInto(x.v, e.heap)
    requires Enough(cells, s, refs, fuel, Size(x.v))
    requires depth <= e.pol.maxDepth && x.v.Val? && AsStringer(x) == "" && !x.v.kind.ChanK? && !IsNil(x.v)
    requires !x.v.kind.PtrK?
    ensures !Render(e, x, depth, refs, fuel).Overflow?
    decreases fuel, 0
  {
    assert fuel >= 1;
    match x.v.kind
    case InterfaceK(d) =>
      var y := InterfaceElem(d.value, x);
      RenderFinishes(e, cells, s, y, depth, refs, fuel - 1);
      InterfaceStep(e, x, depth, refs, fuel);
    case StructK(fs) =>
      FieldsFinish(e, cells, s, x, fs, 0, depth, refs, fuel - 1);
      StructStep(e, x, depth, refs, fuel);
    case MapK(_, es) =>
      EntriesFinish(e, cells, s, x, es, 0, depth, refs, fuel - 1);
      MapStep(e, x, depth, refs, fuel);
    case SliceK(_, es) =>
      ItemsFinish(e, cells, s, x, true, es, 0, depth, refs, fuel - 1);
      SliceStep(e, x, depth, refs, fuel);
    case ArrayK(es) =>
      ItemsFinish(e, cells, s, x, false, es, 0, depth, refs, fuel - 1);
      ArrayStep(e, x, depth, refs, fuel);
    case _ =>
      LeafStep(e, x, depth, refs, fuel);
  }

  /** Reaching the kind switch: no depth cut, a valid non-nil value that is no usable Stringer. */
  predicate Switches(e: Env, x: View, depth: nat)
  {
    depth <= e.pol.maxDepth && x.v.Val? && AsStringer(x) == "" && !x.v.kind.ChanK? && !IsNil(x.v)
  }

  lemma InterfaceStep(e: Env, x: View, depth: nat, refs: Refs, fuel: nat)
    requires fuel >= 1 && Switches(e, x, depth) && x.v.kind.InterfaceK?
    requires !Render(e, InterfaceElem(x.v.kind.dyn.value, x), depth, refs, fuel - 1).Overflow?
    ensures !Render(e, x, depth, refs, fuel).Overflow?
  {
  }

  lemma StructStep(e: Env, x: View, depth: nat, refs: Refs, fuel: nat)
    requires fuel >= 1 && Switches(e, x, depth) && x.v.kind.StructK?
    requires !RenderFields(e, x, x.v.kind.fields, 0, depth, refs, fuel - 1).Overflow?
    ensures !Render(e, x, depth, refs, fuel).Overflow?
  {
  }

  lemma MapStep(e: Env, x: View, depth: nat, refs: Refs, fuel: nat)
    requires fuel >= 1 && Switches(e, x, depth) && x.v.kind.MapK?
    requires !RenderEntries(e, x, x.v.kind.entries, 0, e.pol.maxItems, depth, refs, fuel - 1).Overflow?
    ensures !Render(e, x, depth, refs, fuel).Overflow?
  {
  }

  lemma SliceStep(e: Env, x: View, depth: nat, refs: Refs, fuel: nat)
    requires fuel >= 1 && Switches(e, x, depth) && x.v.kind.SliceK?
    requires !RenderItems(e, x, true, x.v.kind.elems, 0, e.pol.maxItems, depth, refs, fuel - 1).Overflow?
    ensures !Render(e, x, depth, refs, fuel).Overflow?
  {
  }

  lemma ArrayStep(e: Env, x: View, depth: nat, refs: Refs, fuel: nat)
    requires fuel >= 1 && Switches(e, x, depth) && x.v.kind.ArrayK?
    requires !RenderItems(e, x, false, x.v.kind.items, 0, e.pol.maxItems, depth, refs, fuel - 1).Overflow?
    ensures !Render(e, x, depth, refs, fuel).Overflow?
  {
  }

  lemma LeafStep(e: Env, x: View, depth: nat, refs: Refs, fuel: nat)
    requires fuel >= 1 && Switches(e, x, depth)
    requires !x.v.kind.PtrK? && !x.v.kind.InterfaceK? && !x.v.kind.StructK? && !x.v.kind.MapK?
    requires !x.v.kind.SliceK? && !x.v.kind.ArrayK?
    ensures !Render(e, x, depth, refs, fuel).Overflow?
  {
  }

  lemma {:induction false} FieldsFinish(e: Env, cells: seq<Addr>, s: nat, x: View, fs: seq<Field>, i: nat, depth: nat, refs: Refs, fuel: nat)
    requires Setting(e, cells, s) && i <= |fs|
    requires forall j :: 0 <= j < |fs| ==> PointsInto(fs[j].value, e.heap)
    requires Enough(cells, s, refs, fuel, FieldsSize(fs))
    ensures !RenderFields(e, x, fs, i, depth, refs, fuel).Overflow?
    decreases fuel, 2, |fs| - i
  {
    if i < |fs| {
      var f := fs[i];
      var fv := if f.exported then FieldView(x, f) else ForceExported(FieldView(x, f));
      if AsStringer(fv) == "" {
        FieldsSizeBounds(fs, i);
        RenderFinishes(e, cells, s, fv, depth + 1, refs, fuel);
        var one := Render(e, fv, depth + 1, refs, fuel);
        if one.Done? {
          EnoughLater(cells, s, refs, one.refs, fuel, FieldsSize(fs));
          FieldsFinish(e, cells, s, x, fs, i + 1, depth, one.refs, fuel);
        }
      } else {
        FieldsFinish(e, cells, s, x, fs, i + 1, depth, refs, fuel);
      }
    }
  }

  lemma {:induction false} EntriesFinish(e: Env, cells: seq<Addr>, s: nat, x: View, es: seq<Entry>, i: nat, depth: nat, refs: Refs, fuel: nat)
    requires Setting(e, cells, s) && i <= |es|
    requires forall j :: 0 <= j < |es| ==> PointsInto(es[j].value, e.heap)
    requires Enough(cells, s, refs, fuel, EntriesSize(es))
    ensures !RenderEntries(e, x, es, i, e.pol.maxItems, depth, refs, fuel).Overflow?
    decreases fuel, 2, |es| - i
  {
    if i < |es| && i < e.pol.maxItems {
      EntriesSizeBounds(es, i);
      RenderFinishes(e, cells, s, MapIndex(x, es[i].value), depth + 1, refs, fuel);
      var one := Render(e, MapIndex(x, es[i].value), depth + 1, refs, fuel);
      if one.Done? {
        EnoughLater(cells, s, refs, one.refs, fuel, EntriesSize(es));
        EntriesFinish(e, cells, s, x, es, i + 1, depth, one.refs, fuel);
      }
      EntryStep(e, x, es, i, depth, refs, fuel);
    }
  }

  lemma EntryStep(e: Env, x: View, es: seq<Entry>, i: nat, depth: nat, refs: Refs, fuel: nat)
    requires i < |es|
    requires var one := Render(e, MapIndex(x, es[i].value), depth + 1, refs, fuel);
             !one.Overflow? && (one.Done? ==> !RenderEntries(e, x, es, i + 1, e.pol.maxItems, depth, one.refs, fuel).Overflow?)
    ensures !RenderEntries(e, x, es, i, e.pol.maxItems, depth, refs, fuel).Overflow?
  {
  }

  lemma {:induction false} ItemsFinish(
    e: Env, cells: seq<Addr>, s: nat, x: View, isSlice: bool, es: seq<Value>, i: nat, depth: nat, refs: Refs, fuel: nat)
    requires Setting(e, cells, s) && i <= |es|
    requires forall j :: 0 <= j < |es| ==> PointsInto(es[j], e.heap)
    requires Enough(cells, s, refs, fuel, ValuesSize(es))
    ensures !RenderItems(e, x, isSlice, es, i, e.pol.maxItems, depth, refs, fuel).Overflow?
    decreases fuel, 2, |es| - i
  {
    if i < |es| && i < e.pol.maxItems {
      var child := if isSlice then SliceIndex(x, es[i]) else ArrayIndex(x, es[i]);
      assert child.v == es[i] && PointsInto(child.v, e.heap);
      ValuesSizeBounds(es, i);
      RenderFinishes(e, cells, s, child, depth + 1, refs, fuel);
      var one := Render(e, child, depth + 1, refs, fuel);
      if one.Done? {
        EnoughLater(cells, s, refs, one.refs, fuel, ValuesSize(es));
        ItemsFinish(e, cells, s, x, isSlice, es, i + 1, depth, one.refs, fuel);
      }
      ItemStep(e, x, isSlice, es, i, depth, refs, fuel);
    }
  }

  lemma ItemStep(e: Env, x: View, isSlice: bool, es: seq<Value>, i: nat, depth: nat, refs: Refs, fuel: nat)
    requires i < |es|
    requires var one := Render(e, if isSlice then SliceIndex(x, es[i]) else ArrayIndex(x, es[i]), depth + 1, refs, fuel);
             !one.Overflow? && (one.Done? ==> !RenderItems(e, x, isSlice, es, i + 1, e.pol.maxItems, depth, one.refs, fuel).Overflow?)
    ensures !RenderItems(e, x, isSlice, es, i, e.pol.maxItems, depth, refs, fuel).Overflow?
  {
  }

  lemma {:induction false} UnvisitedAtMost(cells: seq<Addr>, ids: map<Addr, int>)
    ensures Unvisited(cells, ids) <= |cells|
    decreases |cells|
  {
    if |cells| > 0 {
      UnvisitedAtMost(cells[1..], ids);
    }
  }

  /**
   * A dump in the corrected build finishes: a value whose pointers target a
   * closed heap of `|cells|` cells of at most `s` nodes each needs no more
   * than |cells| * (s + 1) + Size(v) nested printValue calls, whatever the
   * pointer graph (cycles included) and whatever the limits.
   */
  lemma DumpFinishes(e: Env, cells: seq<Addr>, s: nat, v: Value, refs: Refs, fuel: nat)
    requires Setting(e, cells, s) && PointsInto(v, e.heap)
    requires fuel >= Budget(|cells|, s) + Size(v)
    ensures !Render(e, MakeAddressable(Top(v)), 0, refs, fuel).Overflow?
  {
    UnvisitedAtMost(cells, refs.ids);
    BudgetMono(Unvisited(cells, refs.ids), |cells|, s);
    RenderFinishes(e, cells, s, MakeAddressable(Top(v)), 0, refs, fuel);
  }
}
