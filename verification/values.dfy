/**
 * Runtime values as the reflection package sees them: every value carries
 * the name of its static type, composite values of fixed size (arrays and
 * structs) are stored inline, and everything that Go keeps behind a
 * reference (slice backing storage, map tables, pointer targets) is named
 * by an identity token into the heap (module Memory).
 */
module Values {

  /** Identity of a heap cell: an arena index instead of a raw address. */
  type Loc = nat

  /** Identity of a map table (Go maps are references to a hash table). */
  type Tid = nat

  /** Map keys are compared, never copied: an opaque token suffices. */
  type Key = int

  type TypeName = string

  /** The kinds the copier passes through unchanged (deepcopy.go line 27). */
  datatype AtomicKind =
    | Bool | Int | Int8 | Int16 | Int32 | Int64
    | Uint | Uint8 | Uint16 | Uint32 | Uint64 | Uintptr
    | Float32 | Float64 | Complex64 | Complex128
    | Chan | Func | String

  /** A place in memory: a heap cell and a path of array indices and struct
      field numbers inside the value stored there. */
  datatype Place = Place(loc: Loc, path: seq<nat>)

  function Root(l: Loc): Place { Place(l, []) }

  /** Header of a non-nil slice: its capacity and the cells of its elements. */
  datatype Header = Header(cap: nat, cells: seq<Loc>)

  datatype Field = Field(exported: bool, v: Value)

  datatype Value =
    | Atomic(t: TypeName, kind: AtomicKind, payload: int)
    | Array(t: TypeName, elems: seq<Value>)
    | Struct(t: TypeName, fields: seq<Field>)
    | Slice(t: TypeName, hdr: Option<Header>)          // None: the nil slice
    | Map(t: TypeName, table: Option<Tid>)             // None: the nil map
    | Ptr(t: TypeName, target: Option<Place>)          // None: the nil pointer
    | Iface(t: TypeName, dyn: Option<Value>)           // None: the nil interface
    | UnsafePointer(t: TypeName, payload: int)         // a kind the copier rejects
    | Invalid                                          // the zero reflect.Value: it has no type

  datatype Option<T> = None | Some(value: T)

  /** The kinds that get a fresh destination shell and take part in the memo
      (deepcopy.go line 31). */
  predicate IsComposite(v: Value) {
    v.Array? || v.Struct? || v.Slice? || v.Map? || v.Ptr?
  }

  /** The zero value of v's static type: what `New(typ).Elem()` holds. Every
      value of one array or struct type has the same shape, so the zero value
      can be read off any value of the type. */
  function ZeroLike(v: Value): (z: Value)
    ensures z.Invalid? == v.Invalid?
    ensures !v.Invalid? ==> z.t == v.t
  {
    match v
    case Atomic(t, k, _) => Atomic(t, k, 0)
    case Array(t, es) => Array(t, seq(|es|, i requires 0 <= i < |es| => ZeroLike(es[i])))
    case Struct(t, fs) =>
      Struct(t, seq(|fs|, i requires 0 <= i < |fs| => Field(fs[i].exported, ZeroLike(fs[i].v))))
    case Slice(t, _) => Slice(t, None)
    case Map(t, _) => Map(t, None)
    case Ptr(t, _) => Ptr(t, None)
    case Iface(t, _) => Iface(t, None)
    case UnsafePointer(t, _) => UnsafePointer(t, 0)
    case Invalid => Invalid
  }

  /** The inline sub-value of v at a path, if the path exists. */
  function Sub(v: Value, path: seq<nat>): Option<Value>
    decreases |path|
  {
    if path == [] then Some(v)
    else match v
      case Array(_, es) => if path[0] < |es| then Sub(es[path[0]], path[1..]) else None
      case Struct(_, fs) => if path[0] < |fs| then Sub(fs[path[0]].v, path[1..]) else None
      case _ => None
  }

  /** v with its inline sub-value at path replaced by x (no change when the
      path does not exist). */
  function Put(v: Value, path: seq<nat>, x: Value): Value
    decreases |path|
  {
    if path == [] then x
    else match v
      case Array(t, es) =>
        if path[0] < |es| then Array(t, es[path[0] := Put(es[path[0]], path[1..], x)]) else v
      case Struct(t, fs) =>
        if path[0] < |fs|
        then Struct(t, fs[path[0] := Field(fs[path[0]].exported, Put(fs[path[0]].v, path[1..], x))])
        else v
      case _ => v
  }

  /** The machine address of a place. Element 0 of an array and field 0 of a
      struct start where their parent starts, so trailing zeros of the path
      do not change the address: a struct and its first field share an
      address and differ only in type. */
  datatype Addr = Addr(loc: Loc, offset: seq<nat>)

  /** path without its trailing zeros: a prefix of path that does not end
      in 0, followed in path by zeros only. */
  function TrimZeros(path: seq<nat>): (r: seq<nat>)
    ensures |r| <= |path| && r == path[..|r|]
    ensures r == [] || r[|r| - 1] != 0
    ensures forall j :: |r| <= j < |path| ==> path[j] == 0
  {
    if path != [] && path[|path| - 1] == 0 then TrimZeros(path[..|path| - 1]) else path
  }

  /** Two places have the same address exactly when they lie in the same
      cell and their paths differ only by trailing zeros. */
  function AddrOf(p: Place): (a: Addr)
    ensures a.loc == p.loc && |a.offset| <= |p.path| && a.offset == p.path[..|a.offset|]
    ensures a.offset == [] || a.offset[|a.offset| - 1] != 0
    ensures forall j :: |a.offset| <= j < |p.path| ==> p.path[j] == 0
  {
    Addr(p.loc, TrimZeros(p.path))
  }

  /** The memo key of deepcopy.go lines 5-8: address and static type. */
  datatype Visit = Visit(addr: Addr, t: TypeName)

  /** A reflection handle: addressable handles read through memory, the
      others carry their value. */
  datatype Handle = At(p: Place) | Direct(v: Value)
}
