/**
 * The per-value flags of a `reflect.Value` that the renderer's behaviour
 * depends on, and how each way of reaching a value sets them.
 *
 * A value is addressable when reflect knows where it lives (it was reached
 * through a pointer, a slice, or a field or element of something
 * addressable). It is read-only when it was reached through an unexported
 * struct field; read-only values cannot be turned back into interfaces, so
 * neither their `String` method nor an `Interface()` conversion is
 * available. reflect distinguishes a "sticky" read-only flag, inherited by
 * everything reached from the value, from an "embedded" one set by an
 * unexported embedded field, which exported fields below it do not inherit.
 */
module Views {
  import opened Values

  datatype RO = RO(sticky: bool, embed: bool)

  const Readable: RO := RO(false, false)

  /** A reflected value together with the flags of the path it was reached by. */
  datatype View = View(v: Value, addressable: bool, ro: RO)

  /** `CanInterface`: no read-only flag is set. */
  predicate CanInterface(x: View)
  {
    !x.ro.sticky && !x.ro.embed
  }

  /**
   * `flag.ro()`: what interface Elem, Index, MapIndex and MapKeys keep of a
   * read-only flag (it becomes sticky). Pointer Elem does not go through it.
   */
  function Derived(ro: RO): (r: RO)
    ensures !r.embed
    ensures r.sticky <==> ro.sticky || ro.embed
  {
    RO(ro.sticky || ro.embed, false)
  }

  /** `reflect.ValueOf` of a dynamic value: neither addressable nor read-only. */
  function Top(v: Value): View
  {
    View(v, false, Readable)
  }

  /**
   * `forceExported`: a read-only value that is addressable is re-created at
   * its address (`NewAt(...).Elem()`), which is addressable and readable;
   * otherwise the value is returned as it is.
   */
  function ForceExported(x: View): (r: View)
    ensures r.v == x.v
    ensures CanInterface(r) <==> CanInterface(x) || x.addressable
    ensures CanInterface(x) || !x.addressable ==> r == x
  {
    if CanInterface(x) then x
    else if x.addressable then View(x.v, true, Readable)
    else x
  }

  /**
   * `makeAddressable`: a struct that is not addressable is copied into a
   * fresh variable, whose content is addressable and readable.
   */
  function MakeAddressable(x: View): (r: View)
    ensures r.v == x.v
    ensures x.addressable ==> r == x
    ensures r.addressable <==> x.addressable || (x.v.Val? && x.v.kind.StructK?)
    ensures !x.addressable && x.v.Val? && x.v.kind.StructK? ==> CanInterface(r)
  {
    if x.addressable then x
    else if x.v.Val? && x.v.kind.StructK? then View(x.v, true, Readable)
    else x
  }

  /**
   * `Elem` of a non-nil pointer: the target, which is addressable and keeps
   * the pointer's read-only flags as they are (an embedded one stays
   * embedded).
   */
  function PtrElem(h: Heap, a: Addr, x: View): View
  {
    View(if a in h then h[a] else Invalid, true, x.ro)
  }

  /** `Elem` of a non-nil interface: its dynamic value, which is not addressable. */
  function InterfaceElem(d: Value, x: View): View
  {
    View(d, false, Derived(x.ro))
  }

  /**
   * `Field(i)`: addressable when the struct is; it keeps the struct's sticky
   * read-only flag (not the embedded one) and adds its own when unexported.
   */
  function FieldView(x: View, f: Field): View
  {
    View(f.value, x.addressable,
         RO(x.ro.sticky || (!f.exported && !f.embedded), !f.exported && f.embedded))
  }

  /** `Index(i)` of a slice: always addressable (slice elements live on the heap). */
  function SliceIndex(x: View, e: Value): View
  {
    View(e, true, Derived(x.ro))
  }

  /** `Index(i)` of an array: addressable when the array is. */
  function ArrayIndex(x: View, e: Value): View
  {
    View(e, x.addressable, Derived(x.ro))
  }

  /** `MapIndex(k)`: map values are never addressable. */
  function MapIndex(x: View, e: Value): View
  {
    View(e, false, Derived(x.ro))
  }

  /** `Ptr`, `Slice`, `Map`, `Interface`, `Func` and `Chan` values can be nil; this is `isNil`. */
  predicate IsNil(v: Value)
  {
    v.Val? &&
    match v.kind
    case PtrK(t) => t.None?
    case InterfaceK(d) => d.None?
    case SliceK(isNil, _) => isNil
    case BytesK(isNil, _, _) => isNil
    case MapK(isNil, _) => isNil
    case FuncK(isNil) => isNil
    case ChanK(c) => c.None?
    case _ => false
  }

  /** The kinds that have a nil value: pointers, slices (a []byte too), maps, interfaces, funcs and channels. */
  predicate Nilable(k: Kind)
  {
    k.PtrK? || k.SliceK? || k.BytesK? || k.MapK? || k.InterfaceK? || k.FuncK? || k.ChanK?
  }

  /**
   * Only a value of a nil-able kind is nil; a pointer, interface or channel
   * with a target is not, and neither is any other kind of value.
   */
  lemma NilOnlyNilable(v: Value)
    ensures IsNil(v) ==> v.Val? && Nilable(v.kind)
    ensures v.Val? && v.kind.PtrK? ==> (IsNil(v) <==> v.kind.target.None?)
    ensures v.Val? && v.kind.InterfaceK? ==> (IsNil(v) <==> v.kind.dyn.None?)
    ensures v.Val? && v.kind.ChanK? ==> (IsNil(v) <==> v.kind.chanAddr.None?)
  {
  }

  /**
   * The embedded read-only flag is not inherited: an exported field of a
   * value reached through an unexported embedded field is readable, while
   * one reached through an ordinary unexported field is not.
   */
  lemma EmbeddedFlagNotInherited(x: View, e: Field, f: Field)
    requires CanInterface(x)
    requires !e.exported && f.exported
    ensures !CanInterface(FieldView(x, e))
    ensures CanInterface(FieldView(FieldView(x, e), f)) <==> e.embedded
  {
  }

  /**
   * Through a pointer that is an unexported embedded field, the pointed-to
   * struct is still embedded-read-only, so its exported fields are readable
   * again; through an ordinary unexported pointer field they are not.
   */
  lemma EmbeddedPointerField(x: View, e: Field, h: Heap, a: Addr, f: Field)
    requires CanInterface(x)
    requires !e.exported && f.exported
    ensures !CanInterface(PtrElem(h, a, FieldView(x, e)))
    ensures CanInterface(FieldView(PtrElem(h, a, FieldView(x, e)), f)) <==> e.embedded
  {
  }

  /** Once a value is read-only, everything reached from it is, unless forceExported re-creates it. */
  lemma ReadOnlyIsSticky(x: View, e: Value, h: Heap, a: Addr)
    requires !CanInterface(x)
    ensures !CanInterface(PtrElem(h, a, x))
    ensures !CanInterface(SliceIndex(x, e)) && !CanInterface(ArrayIndex(x, e))
    ensures !CanInterface(MapIndex(x, e)) && !CanInterface(InterfaceElem(e, x))
  {
  }
}
