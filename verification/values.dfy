/**
 * The reflected value graph that the dumper walks.
 *
 * A Go `reflect.Value` is modelled as a closed algebraic datatype: one
 * constructor per structural kind the renderer distinguishes. Values that a
 * pointer refers to live in a `Heap` keyed by address, so pointer graphs may
 * be cyclic; every other child (struct field, slice element, interface
 * content, map value) is stored inline.
 *
 * Things the renderer obtains from the Go runtime or from `fmt` and never
 * inspects further are kept as pre-rendered text: the `%f` form of a float,
 * the `%v` form of a complex number and of a map key, the `%#x` form of a
 * channel or unsafe pointer, and the result of a `String()` method.
 */
module Values {

  datatype Option<+T> = None | Some(value: T)

  /** A heap address (the `uintptr` reflect reports for a pointer). */
  type Addr = nat

  newtype byte = b: int | 0 <= b < 256

  /** What a `fmt.Stringer` check finds for a value that can be interfaced. */
  datatype Stringer =
    | NotStringer
      /** implements Stringer; `text` is what its String method returns */
    | StringerText(text: string)
      /** implements Stringer, but its dynamic value is a nil pointer */
    | NilPtrStringer

  datatype Value =
    | Invalid
    | Val(typ: string, kind: Kind, stringer: Stringer)

  datatype Kind =
    | StrK(s: string)
    | BoolK(b: bool)
    | IntK(i: int)
    | UintK(u: nat)
    | FloatK(fText: string)
    | ComplexK(cText: string)
    | StructK(fields: seq<Field>)
      /** None is the nil pointer */
    | PtrK(target: Option<Addr>)
      /** None is the nil interface; otherwise its dynamic value */
    | InterfaceK(dyn: Option<Value>)
      /** a slice other than one convertible to []byte; a nil slice has no elements */
    | SliceK(nilSlice: bool, elems: seq<Value>)
    | ArrayK(items: seq<Value>)
      /** a slice whose value converts to []byte, with its capacity */
    | BytesK(nilBytes: bool, data: seq<byte>, cap: nat)
      /** a map; its entries in the order reflect's MapKeys returned them */
    | MapK(nilMap: bool, entries: seq<Entry>)
      /** None is the nil channel; otherwise the `%#x` of its address */
    | ChanK(chanAddr: Option<string>)
    | FuncK(isNilFunc: bool)
    | UnsafePtrK(uText: string)

  /** A declared struct field, in declaration order. */
  datatype Field = Field(name: string, exported: bool, embedded: bool, value: Value)

  /** A map entry: the `%v` text of its key and its value. */
  datatype Entry = Entry(keyText: string, value: Value)

  type Heap = map<Addr, Value>

  /** Every non-nil pointer inside `v` (without following pointers) targets a heap cell. */
  predicate PointsInto(v: Value, h: Heap)
    decreases v
  {
    match v
    case Invalid => true
    case Val(_, k, _) =>
      match k
      case PtrK(t) => t.Some? ==> t.value in h
      case InterfaceK(d) => d.Some? ==> PointsInto(d.value, h)
      case StructK(fs) => forall i :: 0 <= i < |fs| ==> PointsInto(fs[i].value, h)
      case SliceK(_, es) => forall i :: 0 <= i < |es| ==> PointsInto(es[i], h)
      case ArrayK(es) => forall i :: 0 <= i < |es| ==> PointsInto(es[i], h)
      case MapK(_, es) => forall i :: 0 <= i < |es| ==> PointsInto(es[i].value, h)
      case _ => true
  }

  /** The heap is closed: no pointer stored in it dangles. */
  predicate Closed(h: Heap)
  {
    forall a :: a in h ==> PointsInto(h[a], h)
  }

  /** Number of constructor nodes of a value, not following pointers. */
  function Size(v: Value): (n: nat)
    ensures n >= 1
    decreases v, 1
  {
    match v
    case Invalid => 1
    case Val(_, k, _) =>
      match k
      case InterfaceK(d) => if d.Some? then 1 + Size(d.value) else 1
      case StructK(fs) => 1 + FieldsSize(fs)
      case SliceK(_, es) => 1 + ValuesSize(es)
      case ArrayK(es) => 1 + ValuesSize(es)
      case MapK(_, es) => 1 + EntriesSize(es)
      case _ => 1
  }

  function ValuesSize(vs: seq<Value>): nat
    decreases vs, 0
  {
    if |vs| == 0 then 0 else Size(vs[0]) + ValuesSize(vs[1..])
  }

  function FieldsSize(fs: seq<Field>): nat
    decreases fs, 0
  {
    if |fs| == 0 then 0 else Size(fs[0].value) + FieldsSize(fs[1..])
  }

  function EntriesSize(es: seq<Entry>): nat
    decreases es, 0
  {
    if |es| == 0 then 0 else Size(es[0].value) + EntriesSize(es[1..])
  }

  lemma {:induction false} ValuesSizeBounds(vs: seq<Value>, i: nat)
    requires i < |vs|
    ensures Size(vs[i]) <= ValuesSize(vs)
    decreases i
  {
    if i > 0 {
      ValuesSizeBounds(vs[1..], i - 1);
    }
  }

  lemma {:induction false} FieldsSizeBounds(fs: seq<Field>, i: nat)
    requires i < |fs|
    ensures Size(fs[i].value) <= FieldsSize(fs)
    decreases i
  {
    if i > 0 {
      FieldsSizeBounds(fs[1..], i - 1);
    }
  }

  lemma {:induction false} EntriesSizeBounds(es: seq<Entry>, i: nat)
    requires i < |es|
    ensures Size(es[i].value) <= EntriesSize(es)
    decreases i
  {
    if i > 0 {
      EntriesSizeBounds(es[1..], i - 1);
    }
  }
}
