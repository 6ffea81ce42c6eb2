/**
 * The corrected build never panics: the two `Interface()` conversions that
 * panic on read-only values are the only panics of printValue besides a
 * negative string limit, which no dumper built by NewDumper has.
 */
module PanicFree {
  import opened Values
  import opened Views
  import opened Printer
  import Options
  import Dump

  /** The corrected build with a string limit that slicing accepts. */
  predicate Safe(e: Env)
  {
    e.build == Corrected && e.pol.maxStringLen >= 0
  }

  /** Whatever the value, depth, reference state and stack budget, printing it does not panic. */
  lemma {:induction false} RenderNeverPanics(e: Env, x: View, depth: nat, refs: Refs, fuel: nat)
    requires Safe(e)
    ensures !Render(e, x, depth, refs, fuel).Panic?
    decreases fuel, 1
  {
    if fuel > 0 && depth <= e.pol.maxDepth && x.v.Val? && AsStringer(x) == "" && !x.v.kind.ChanK? && !IsNil(x.v) {
      if !(Tracked(e.build, x) && x.v.kind.target.value in refs.ids) {
        var refs1 := if Tracked(e.build, x) then Register(refs, x.v.kind.target.value) else refs;
        KindNeverPanics(e, x, depth, refs1, fuel);
      }
    }
  }

  lemma {:induction false} KindNeverPanics(e: Env, x: View, depth: nat, refs: Refs, fuel: nat)
    requires Safe(e) && x.v.Val? && fuel >= 1
    ensures !RenderKind(e, x, depth, refs, fuel).Panic?
    decreases fuel, 0
  {
    match x.v.kind
    case PtrK(t) =>
      if t.Some? {
        RenderNeverPanics(e, PtrElem(e.heap, t.value, x), depth, refs, fuel - 1);
      }
    case InterfaceK(d) =>
      if d.Some? {
        RenderNeverPanics(e, InterfaceElem(d.value, x), depth, refs, fuel - 1);
      }
    case StructK(fs) =>
      FieldsNeverPanic(e, x, fs, 0, depth, refs, fuel - 1);
    case MapK(_, es) =>
      EntriesNeverPanic(e, x, es, 0, depth, refs, fuel - 1);
    case SliceK(_, es) =>
      ItemsNeverPanic(e, x, true, es, 0, depth, refs, fuel - 1);
    case ArrayK(es) =>
      ItemsNeverPanic(e, x, false, es, 0, depth, refs, fuel - 1);
    case _ =>
  }

  lemma {:induction false} FieldsNeverPanic(e: Env, x: View, fs: seq<Field>, i: nat, depth: nat, refs: Refs, fuel: nat)
    requires Safe(e) && i <= |fs|
    ensures !RenderFields(e, x, fs, i, depth, refs, fuel).Panic?
    decreases fuel, 2, |fs| - i
  {
    if i < |fs| {
      var fv := FieldOf(x, fs[i]);
      if AsStringer(fv) == "" {
        RenderNeverPanics(e, fv, depth + 1, refs, fuel);
        var one := Render(e, fv, depth + 1, refs, fuel);
        if one.Done? {
          FieldsNeverPanic(e, x, fs, i + 1, depth, one.refs, fuel);
        }
      } else {
        FieldsNeverPanic(e, x, fs, i + 1, depth, refs, fuel);
      }
    }
  }

  lemma {:induction false} EntriesNeverPanic(e: Env, x: View, es: seq<Entry>, i: nat, depth: nat, refs: Refs, fuel: nat)
    requires Safe(e) && i <= |es|
    ensures !RenderEntries(e, x, es, i, e.pol.maxItems, depth, refs, fuel).Panic?
    decreases fuel, 2, |es| - i
  {
    if i < |es| && i < e.pol.maxItems {
      RenderNeverPanics(e, MapIndex(x, es[i].value), depth + 1, refs, fuel);
      var one := Render(e, MapIndex(x, es[i].value), depth + 1, refs, fuel);
      if one.Done? {
        EntriesNeverPanic(e, x, es, i + 1, depth, one.refs, fuel);
      }
    }
  }

  lemma {:induction false} ItemsNeverPanic(
    e: Env, x: View, isSlice: bool, es: seq<Value>, i: nat, depth: nat, refs: Refs, fuel: nat)
    requires Safe(e) && i <= |es|
    ensures !RenderItems(e, x, isSlice, es, i, e.pol.maxItems, depth, refs, fuel).Panic?
    decreases fuel, 2, |es| - i
  {
    if i < |es| && i < e.pol.maxItems {
      var child := if isSlice then SliceIndex(x, es[i]) else ArrayIndex(x, es[i]);
      RenderNeverPanics(e, child, depth + 1, refs, fuel);
      var one := Render(e, child, depth + 1, refs, fuel);
      if one.Done? {
        ItemsNeverPanic(e, x, isSlice, es, i + 1, depth, one.refs, fuel);
      }
    }
  }

  /** A whole writeDump call of the corrected build does not panic either. */
  lemma {:induction false} DumpNeverPanics(e: Env, vs: seq<Value>, next: int, fuel: nat)
    requires Safe(e)
    ensures !Dump.DumpAll(e, vs, next, fuel).Panic?
    decreases |vs|
  {
    if |vs| > 0 {
      DumpNeverPanics(e, vs[..|vs| - 1], next, fuel);
      var before := Dump.DumpAll(e, vs[..|vs| - 1], next, fuel);
      if before.Done? {
        RenderNeverPanics(e, MakeAddressable(Top(vs[|vs| - 1])), 0, before.refs, fuel);
      }
    }
  }

  /** In particular, for any dumper NewDumper builds, whatever its options. */
  lemma ConfiguredDumpNeverPanics(opts: seq<Options.Option>, heap: Heap, vs: seq<Value>, next: int, fuel: nat)
    ensures !Dump.DumpAll(Env(Corrected, Dump.ChosenPolicy(opts), heap), vs, next, fuel).Panic?
  {
    DumpNeverPanics(Env(Corrected, Dump.ChosenPolicy(opts), heap), vs, next, fuel);
  }
}
