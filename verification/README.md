# deepcopy in Dafny

A model of the Go package `deepcopy`: `DeepCopy`, `DeepCopyValue` and the
recursive `deepCopyValue`, which walk a value through the reflection API and
build a copy meant to share nothing mutable with the source, except channels
and functions.

The copy of a composite value (array, struct, slice, map, pointer) goes in
steps:

1. A zero-valued destination "shell" is allocated: `New(typ).Elem()`, plus
   `MakeSlice` or `MakeMap` for a non-nil slice or map.
2. If the source is addressable, the `visited` memo is consulted under the
   key (address, type).
   - On a hit, the copy made earlier is returned.
   - On a miss, the new shell is registered before its elements are copied.
3. The elements are copied recursively.

The memo is what keeps pointer cycles, and two pointers to one composite
object, shared in the copy. The package promises that pointer hierarchies are
preserved, but the code does not keep that promise in five cases (see the
Findings section):
- a pointer to a number or string keeps pointing at the source's own pointee;
- a memo hit on an array or struct whose copy is still being filled yields a
  snapshot of that half-filled copy;
- a pointer into the middle of a value (`&s.A`) gets a copy detached from the
  copy of `s`;
- a pointer to a slice element (`&a[0]`) gets a copy detached from the copy
  of the slice: the element is copied into a cell of its own, registered in
  the memo, and only its value is stored into the new backing array;
- two pointers to one interface variable (`&i`, or `&s.I` for an interface
  field) get two different boxes, because a box is never looked up in the
  memo.

Atomic kinds (numbers, strings, channels, functions) are returned as they
are. An interface gets a fresh box holding the copy of its dynamic value.
`UnsafePointer` (and any other kind) panics.

## How the model is built

- Modules `Values` and `Memory` hold the data model.
  - A value carries its static type name.
  - Arrays and structs are stored inline.
  - Slice backing storage, map tables and pointer targets are identities
    (`Loc`, `Tid`) into a heap `State`.
  - The `State` also holds the `visited` memo.
  - A reflection handle is either a place in memory (`At`, addressable) or
    a bare value (`Direct`).
  - The address of a place ignores trailing zero indices, because a struct
    and its first field begin at the same address.
- Module `DeepCopy` is the copier as pure state-passing functions (`Copy`,
  `CopyComposite`, `CopyIface`, `Fill`, `CopyElems`, `CopyEntries`,
  `DeepCopyValue`, `DeepCopy`).
  - Each failure mode of the Go code is an explicit `Fault`.
  - The recursion is bounded by `fuel`, the stack depth still available.
- Module `Copier` is the imperative form. A `Heap` object's fields are
  updated in place and a `Visited` object holds the memo map. Its methods,
  with loops over slice/array elements and map keys, are proved to compute
  exactly what the `DeepCopy` functions compute.
- The other modules hold the properties:
  - `Frame`: a copy only allocates; the source is never written.
  - `Memo`: behaviour of the memo.
  - `Shape`: the destination has the source's kind, type, length and
    nil-ness.
  - `Content`: element values, map keys, pointers, interface boxes.
  - `Faults`: which panics cannot happen. `Unaddressable` never arises, and
    neither `UnsupportedKind` nor `NoType` arises on a heap without unsafe
    pointers and invalid values. In Go the one route to a value without a
    type is a map key not equal to itself (a NaN), which the model's keys
    cannot be (see Left out).
  - `Graph`: a heap of `type Node *Node` pointers, as in the package's test,
    is copied as an isomorphic graph with its cycles.
  - `Exhibits`: the five inputs on which the copy departs from the package's
    promise, each on a fixed heap or as a general lemma.
- Module `Intended` is the copier as the doc comments describe it. It
  differs from `DeepCopy` in four places: slices are memoised by their
  elements' cells, length, capacity and type, and their element cells are
  registered for the new backing cells before any element is copied; an
  interface box at a place is memoised as a composite is; a pointer into a
  cell already registered is aimed at the same path inside that cell's
  copy; and otherwise a pointer to an atomic value gets a fresh pointee.
- Module `Repairs` evaluates `Intended` on each input of `Exhibits` in
  lemmas and proves that the copy keeps the source's pointer structure
  there.

## Model

| member | source | states |
|---|---|---|
| `Values.ZeroLike` | deepcopy.go:33 | the zero value `New(typ).Elem()` has the same type as the value it is made for, and is the invalid value only for the invalid value |
| `Memory.Fresh` | deepcopy.go:37 | the first len cells of `MakeSlice`'s storage are exactly the cells base .. base+len-1, the i-th holding the i-th zero element |
| `Memory.FreshRun` | deepcopy.go:37 | the new slice header lists, in strictly ascending order, exactly the fresh cells `MakeSlice` allocated, the i-th holding the i-th zero element |
| `Memory.Load` | deepcopy.go:58 | reading a handle: a bare value is itself, a place reads the inline sub-value of its cell (no contract of its own; used by every lemma below) |
| `Memory.Store` | deepcopy.go:58 | `Set` keeps the heap well formed: every cell below the allocation mark |
| `Memory.Alloc` | deepcopy.go:33 | `New` keeps the heap well formed and takes a cell that was not in use |
| `Memory.AllocRun` | deepcopy.go:37 | `MakeSlice`'s backing storage keeps the heap well formed |
| `Memory.AllocTable` | deepcopy.go:41 | `MakeMap` keeps the heap well formed and takes a table that was not in use |
| `Memory.SetMapIndex` | deepcopy.go:62 | `SetMapIndex` keeps the heap well formed |
| `Values.TrimZeros` | deepcopy.go:47 | the address offset is the path with its trailing zeros removed: a prefix of the path, not ending in 0, followed in the path by zeros only |
| `Values.AddrOf` | deepcopy.go:47 | `UnsafeAddr` of a place is in its cell, at the path without its trailing zero indices, so element 0 and field 0 share their parent's address |
| `DeepCopy.KeyOf` | deepcopy.go:47 | the memo key `visit{UnsafeAddr, typ}` (no contract of its own; `Memo.FirstFieldSharesAddress` and `Memo.AliasesShareCopy` state its meaning) |
| `DeepCopy.Child` | deepcopy.go:58 | `Index(i)` / `Field(i)`: the element of an addressable array or struct is addressable, at the parent's place extended by i, and a slice element is always addressable, while the element of a bare value is bare |
| `DeepCopy.Settable` | deepcopy.go:70 | `CanSet` on the shell's field: exactly the exported fields (no contract of its own; `Content.InlineElemsCopied` states its effect) |
| `DeepCopy.Copy` | deepcopy.go:23-87 | the kind switch of `deepCopyValue`; its properties are stated by `Frame.CopyGrows`, `Memo.*`, `Shape.CopyShape`, `Faults.CopyRoots` and `Faults.CopyKinds` |
| `DeepCopy.CopyComposite` | deepcopy.go:31-75 | allocate, consult and extend the memo, fill; stated by `Shape.MissFills`, `Memo.MemoHit` and `Frame.CompositeGrows` |
| `DeepCopy.CopyIface` | deepcopy.go:78-83 | a new box holding the copy of the dynamic value; stated by `Content.BoxCopied` and `Memo.IfaceNeverMemoised` |
| `DeepCopy.Register` | deepcopy.go:51 | an addressable source records its shell in the memo; stated by `Memo.CopyRegistered` |
| `DeepCopy.Fill` | deepcopy.go:55-74 | the per-kind filling of the shell; stated by `Frame.FillGrows`, `Faults.FillRoots` and `Faults.FillKinds` |
| `DeepCopy.CopyElems` | deepcopy.go:56-59 | the element loops of lines 57-59 and 69-73; stated by `Content.ElemsCopyAtomics` and `Shape.ElemsKeepPlace` |
| `DeepCopy.CopyEntries` | deepcopy.go:60-63 | the map loop; stated by `Shape.EntriesKeys` and `Content.EntriesCopyAtomics` |
| `DeepCopy.DeepCopyValue` | deepcopy.go:19-21 | a copy with a fresh empty memo; stated by `Faults.NeverUnaddressable` and `Faults.NeverUnsupported` |
| `DeepCopy.DeepCopy` | deepcopy.go:11-16 | nil in, nil out, otherwise the copy's value; stated by `Content.NilInNilOut`, `Frame.SourceUntouched` and `Graph.GraphCopied` |
| `DeepCopy.NewShell` | deepcopy.go:33-43 | the fresh shell offers one destination slot per element the copy loops will visit |
| `DeepCopy.Least` | deepcopy.go:61 | the next map key visited is a key still to do and no larger than any other such key, so every key is visited once in ascending order |
| `Frame.NewShellFresh` | deepcopy.go:33-43 | allocating the shell creates only fresh cells and tables, leaves the memo alone, and the shell and all its slots lie in fresh storage |
| `Frame.CopyGrows` | deepcopy.go:23-87 | a successful copy only allocates: every pre-existing cell and table is unchanged, allocation marks only rise, and memo entries are only added |
| `Frame.IfaceGrows` | deepcopy.go:78-83 | copying an interface box changes no pre-existing cell, table or memo entry |
| `Frame.CompositeGrows` | deepcopy.go:31-75 | copying a composite changes no pre-existing cell, table or memo entry |
| `Frame.FillGrows` | deepcopy.go:55-74 | filling a shell writes only storage allocated for this copy |
| `Frame.ElemsGrows` | deepcopy.go:56-59 | the element loop writes only fresh slots |
| `Frame.EntriesGrows` | deepcopy.go:60-63 | the map loop writes only into the fresh table |
| `Frame.SourceUntouched` | deepcopy.go:11-16 | after a successful `DeepCopy` every cell and map table of the heap the caller passed in is exactly as before |
| `Memo.AtomicPassThrough` | deepcopy.go:27-28 | an atomic kind is handed back as the same handle, with heap and memo unchanged |
| `Memo.UnsupportedKindFails` | deepcopy.go:86 | an unsafe pointer fails with the unsupported-kind panic, and a value without a type fails before the switch |
| `Memo.MemoHit` | deepcopy.go:46-50 | an addressable composite whose (address, type) key is in the memo yields the memoised copy; the memo and all existing storage are unchanged |
| `Memo.CopyRegistered` | deepcopy.go:51 | after any successful copy of an addressable composite, the memo maps its key to exactly the copy returned |
| `Memo.VisitedOnlyGrows` | deepcopy.go:48-51 | memo entries are added but never replaced or removed |
| `Memo.AliasesShareCopy` | deepcopy.go:46-52 | two places with the same address and type, copied one after the other, get one and the same copy |
| `Memo.FirstFieldSharesAddress` | deepcopy.go:5-8 | a struct and its first field have the same address but distinct memo keys, because the key includes the type |
| `Memo.IfaceNeverMemoised` | deepcopy.go:78-83 | copying an interface box that sits at a place is the same as copying its value: the box's address is never consulted or registered |
| `Shape.ZeroSkeleton` | deepcopy.go:33 | the zero value of an array or struct type has the source's type and length and the same exported flags, and its element or field j is the zero value of the source's element or field j |
| `Shape.SubSnoc` | deepcopy.go:58 | reading one index deeper is reading the index in the value at the parent path |
| `Shape.ChildReads` | deepcopy.go:58 | `Index(i)` / `Field(i)` of an array or struct handle reads exactly its element or field i |
| `Shape.PutSkeleton` | deepcopy.go:58 | setting one element of the shell keeps its shape |
| `Shape.StoreSeparate` | deepcopy.go:58 | writing one element slot leaves every place disjoint from it unchanged |
| `Shape.StoreLoad` | deepcopy.go:58 | after `Set`, the element slot reads back the value written |
| `Shape.CopyKeepsPlace` | deepcopy.go:23-87 | a nested copy does not change any pre-existing place, including the shell's slots filled before it |
| `Shape.ElemsKeepPlace` | deepcopy.go:56-59 | the element loop leaves every place disjoint from the slots it writes unchanged |
| `Shape.ElemsSkeleton` | deepcopy.go:68-73 | while fields are copied into the struct or array shell, the shell keeps the source's shape |
| `Shape.EntriesKeys` | deepcopy.go:60-63 | the map loop adds exactly the source keys still to do to the new table |
| `Shape.MissFills` | deepcopy.go:51-75 | on a memo miss the copy is the fresh shell, after it has been filled |
| `Shape.CopyShape` | deepcopy.go:31-75 | a fresh copy of a composite is a new cell (or a new table) of the same kind and type; it is nil exactly when the source is nil, has the same length and capacity over fresh cells for a slice, the same key set in a fresh table for a map, and the same shape for an array or struct |
| `Shape.PtrShape` | deepcopy.go:64-67 | a copied pointer has the source's type and is nil exactly when the source is |
| `Shape.MapShape` | deepcopy.go:39-42 | a copied non-nil map refers to a new table, created for this copy, with exactly the source's key set; a nil map stays nil |
| `Shape.SliceShell` | deepcopy.go:35-38 | `MakeSlice` gives the copy the source's length and capacity over fresh element cells |
| `Shape.SliceShape` | deepcopy.go:35-38 | a copied slice has the source's type, nil-ness, length and capacity |
| `Shape.InlineShape` | deepcopy.go:68-73 | a copied array or struct has the source's type and shape |
| `Content.ElemsCopyAtomics` | deepcopy.go:56-59 | every atomic element reaches its destination slot unchanged |
| `Content.EntriesKeepKey` | deepcopy.go:60-63 | a key already bound in the new table stays bound to the same value |
| `Content.EntriesCopyAtomics` | deepcopy.go:60-63 | every key with an atomic value is bound in the new table to that value |
| `Content.SliceElemsCopied` | deepcopy.go:56-59 | a copied slice's element j holds the source's element j whenever that element is atomic |
| `Content.SliceFill` | deepcopy.go:56-59 | the slice shell keeps its header while its fresh element cells receive the atomic elements |
| `Content.SliceElemsSlots` | deepcopy.go:57-58 | each fresh slice cell receives its source element when atomic |
| `Content.InlineElemsCopied` | deepcopy.go:68-73 | each settable (exported) field or array element that is atomic holds the source's value in the copy |
| `Content.ZeroSub` | deepcopy.go:70 | every field of the fresh struct shell exists, so `Field(i)` is always valid |
| `Content.MapValuesCopied` | deepcopy.go:60-63 | the new map has exactly the source's keys, and each atomic value is copied unchanged |
| `Content.PointerToMemoisedCopy` | deepcopy.go:64-67 | a copied pointer to a composite points at the copy the memo holds for its pointee, so two pointers to one object end up pointing to one copy |
| `Content.PointerToAtomicShared` | deepcopy.go:64-67 | a pointer to an atomic value comes back pointing at the source's own pointee (the pointee is not copied) |
| `Content.BoxCopied` | deepcopy.go:78-83 | a copied interface is a fresh box, in the next free cell, of the same type and nil exactly when the source is; a non-nil box holds exactly the value its recursive copy of the dynamic value holds when the box is written (line 81), which is an equal atomic or a same-shaped copy of a composite, and nothing else changes after that copy |
| `Content.PointerToBox` | deepcopy.go:64-67 | `new(interface{})` (deepcopy_test.go:90): a copied pointer to an interface box points at a fresh box, distinct from the pointer's own cell, of the same type and nil-ness; a non-nil box holds exactly the value the recursive copy of the dynamic value holds, an equal atomic or a same-shaped copy of a composite |
| `Content.ShapedFromEarlier` | deepcopy.go:81 | a shape established inside the box copy still holds for the finished box |
| `Content.NilInNilOut` | deepcopy.go:12-14 | `DeepCopy(nil)` is nil and touches nothing |
| `Faults.CopyRoots` | deepcopy.go:23-87 | a copy never fails as unaddressable, and every memo entry it makes is the root of a fresh cell; the result is a place or the bare value passed in |
| `Faults.IfaceRoots` | deepcopy.go:78-83 | the interface copy never fails as unaddressable and keeps memo entries at cell roots |
| `Faults.CompositeRoots` | deepcopy.go:31-75 | the composite copy never fails as unaddressable and returns a place |
| `Faults.FillRoots` | deepcopy.go:55-74 | filling never fails as unaddressable, because the pointee's copy is always a place, so `Addr()` at line 66 is always valid |
| `Faults.ElemsRoots` | deepcopy.go:56-59 | the element loop never fails as unaddressable |
| `Faults.EntriesRoots` | deepcopy.go:60-63 | the map loop never fails as unaddressable |
| `Faults.NeverUnaddressable` | deepcopy.go:19-21 | `DeepCopyValue` never panics on `Addr()` of line 66 |
| `Faults.DeepCopyNeverUnaddressable` | deepcopy.go:11-16 | nor does `DeepCopy` |
| `Faults.CopyKinds` | deepcopy.go:23-87 | on a heap whose values are all of supported kinds and whose slices refer to existing cells, a copy never reaches the panic of line 86 nor the typeless case, and leaves a heap of the same sort |
| `Faults.IfaceKinds` | deepcopy.go:78-83 | the same for an interface box |
| `Faults.CompositeKinds` | deepcopy.go:31-75 | the same for a composite |
| `Faults.FillKinds` | deepcopy.go:55-74 | the same for the filling of a shell |
| `Faults.ElemsKinds` | deepcopy.go:56-59 | the same for the element loop |
| `Faults.EntriesKinds` | deepcopy.go:60-63 | the same for the map loop |
| `Faults.NeverUnsupported` | deepcopy.go:86 | `DeepCopyValue` of a supported value in a supported heap never panics with "invalid type" and never meets a value without a type (the model's map keys are always found, so Go's NaN-key route to the zero `Value` is outside it) |
| `Faults.DeepCopyNeverUnsupported` | deepcopy.go:11-16 | nor does `DeepCopy` |
| `Graph.KeyOfNode` | deepcopy.go:47 | a `Node` cell's memo key is its address with type `Node` |
| `Graph.NodeHeapKept` | deepcopy.go:23-87 | the source `Node` graph survives any allocation made by the copy |
| `Graph.PtrUnfold` | deepcopy.go:64-67 | a pointer copy is the fresh cell with the pointee's copy's address stored in it |
| `Graph.NodeCopy` | deepcopy.go:46-67 | copying any node of a `Node` graph succeeds, registers it, and keeps every finished node's copy a mirror of the node |
| `Graph.NodeMiss` | deepcopy.go:51-67 | a node not yet in the memo is registered, its successor copied, and its copy made to point at the successor's copy |
| `Graph.UnreachedShrinks` | deepcopy.go:51 | registering a node leaves one fewer node to visit, which bounds the depth of the recursion |
| `Graph.NilNode` | deepcopy.go:65 | a nil `Node` copies to a fresh nil `Node` |
| `Graph.EdgeNode` | deepcopy.go:66 | a node's copy points to its successor's copy |
| `Graph.NodeHit` | deepcopy.go:48-49 | a node already in the memo yields its existing copy without allocating |
| `Graph.RegisterNode` | deepcopy.go:51 | registering a node's fresh shell records it as that node's copy |
| `Graph.FinishNode` | deepcopy.go:66 | storing the successor's copy completes the node's mirror |
| `Graph.GraphCopied` | deepcopy.go:11-16 | `DeepCopy` of a pointer into any `Node` graph succeeds with a pointer to the start node's copy; every node the copy reached has its own fresh copy, distinct nodes have distinct copies, and each copy's edge goes to the copy of its successor (nil stays nil), so the pointer structure, cycles included, is preserved |
| `Graph.StoreOutside` | deepcopy.go:15 | writing the result box, outside the graph and its copies, keeps both intact |
| `Graph.Node1Shape` | deepcopy_test.go:45-54 | the test fixture is a 5-cycle of `Node` pointers |
| `Graph.Node1CopiedAsCycle` | deepcopy_test.go:45-54 | copying the test fixture's `node1` yields five distinct fresh cells forming the same 5-cycle |
| `Graph.EdgeCopied` | deepcopy.go:66 | in a finished copy every edge of the source graph is mirrored |
| `Exhibits.NewIntShared` | deepcopy.go:64-67 | `new(int)` (deepcopy_test.go:86) holding 7: `DeepCopy` returns the source's own pointer, so writing 8 through the source is read back through the copy |
| `Exhibits.HitStep` | deepcopy.go:48-49 | the revisit of `a[0]` through `a[0].S[0]` returns the shell of `a[0]`'s copy while it is still all zero |
| `Exhibits.SliceStep` | deepcopy.go:56-59 | copying `a[0].S` sets its element to that zero snapshot |
| `Exhibits.StructStep` | deepcopy.go:68-73 | copying `a[0]` fills its shell with the inner slice and `X == 1` |
| `Exhibits.SnapshotOnHit` | deepcopy.go:48-49 | for `a[0].S = a`, the copy's `[0].X` is 1 but the copy's `[0].S[0].X` is 0, though in the source both are `a[0].X` |
| `Exhibits.InteriorPointerDetached` | deepcopy.go:47 | a copied pointer to an array or struct always aims at the root of a cell of its own, never at a place inside a copied value, so the copy of `&s.A` does not point into the copy of `s` |
| `Exhibits.CopyMemoFresh` | deepcopy.go:45-52 | a finished copy keeps every memo entry it found, and every entry it adds aims at the root of a cell allocated during that copy |
| `Exhibits.IfaceMemoFresh` | deepcopy.go:78-83 | the same for the copy of an interface |
| `Exhibits.CompositeMemoFresh` | deepcopy.go:31-75 | the same for the copy of a composite, whose own entry aims at its new shell |
| `Exhibits.FillMemoFresh` | deepcopy.go:55-74 | the same for filling a shell |
| `Exhibits.ElemsMemoFresh` | deepcopy.go:56-59 | the same for the element loops |
| `Exhibits.EntriesMemoFresh` | deepcopy.go:60-63 | the same for the map loop |
| `Exhibits.MemoAvoidsKept` | deepcopy.go:45-52 | when no memo entry aims into a range of already allocated cells, none does after a copy either |
| `Exhibits.SliceBackingNeverMemoised` | deepcopy.go:35-38 | copying a non-nil slice allocates its new backing cells first, and when the copy ends no memo entry aims at any of them |
| `Exhibits.PointerAvoidsSliceCopy` | deepcopy.go:64-67 | the copy of a pointer whose pointee is in the memo aims at the registered cell, so never at a cell of a new slice backing array that no memo entry aims at: `&a[0]` never becomes `&c[0]` |
| `Exhibits.ItemStep` | deepcopy.go:56-59 | copying `a[0]` as a slice element registers it for a new struct cell 4 and fills that cell with `X == 1` |
| `Exhibits.SliceAStep` | deepcopy.go:56-59 | copying `s.A` stores the value of cell 4 into the new backing cell 2 |
| `Exhibits.PtrAStep` | deepcopy.go:64-67 | copying `s.P` hits `a[0]`'s memo entry and aims at cell 4 |
| `Exhibits.PairFields` | deepcopy.go:68-73 | the fields of `s` are copied into its shell: `A` over cell 2, `P` aiming at cell 4 |
| `Exhibits.SliceElemPointerDetached` | deepcopy.go:56-67 | for `s := struct{A []T; P *T}{a, &a[0]}` the copy's `A[0]` is cell 2 but its `P` aims at cell 4, so `c.P != &c.A[0]` and a write through `c.A[0]` is not seen through `c.P` |
| `Exhibits.BoxPtrStep` | deepcopy.go:64-67 | copying a pointer to the interface variable `i` allocates a new pointer cell aimed at a new box holding 7, whatever was copied before |
| `Exhibits.TwoFields` | deepcopy.go:68-73 | the fields `P` and `Q` of `s` are copied into its shell, aimed at boxes 3 and 5 |
| `Exhibits.SharedBoxSplit` | deepcopy.go:78-83 | for `s := struct{P, Q *interface{}}{&i, &i}` the copy's `P` and `Q` aim at two different boxes, so a write through `c.P` is not seen through `c.Q` |
| `Intended.SliceKey` | deepcopy.go:47 | the memo key of a non-empty slice names its first element cell and its type, and its address part is never the address of any place |
| `Intended.Relocated` | deepcopy.go:64-67 | the copy a pointer's cell was registered for, if its root was (no contract of its own; used by `Intended.Fill`) |
| `Intended.FreshPointee` | deepcopy.go:66 | the corrected copy of a pointer to an atomic value allocates exactly one new cell, for the pointee |
| `Intended.FreshPointeeIndependent` | deepcopy.go:66 | the new pointee holds the source's value, the shell points at it, and no write to a source place changes it |
| `Intended.Enroll` | deepcopy.go:51 | the corrected registration: a slice's key and its element cells as well (no contract of its own; its effect is proved in `Repairs`) |
| `Intended.Element` | deepcopy.go:58 | a slice element is copied by value, its cell being registered already (no contract of its own) |
| `Intended.Copy` | deepcopy.go:23-87 | the corrected copier (no contract of its own; proved on the inputs of `Exhibits` in `Repairs`) |
| `Intended.CopyIface` | deepcopy.go:78-83 | the corrected interface copy, which looks a box at a place up in the memo and registers its new box (no contract of its own) |
| `Intended.CopyComposite` | deepcopy.go:31-75 | the corrected composite copy, which also looks a slice up by its slice key (no contract of its own) |
| `Intended.Fill` | deepcopy.go:64-67 | the corrected pointer copy: relocated into a registered copy, or a fresh pointee for an atomic value (no contract of its own) |
| `Intended.DeepCopy` | deepcopy.go:11-21 | the public entry over the corrected copier (no contract of its own) |
| `Repairs.FreshIntIndependent` | deepcopy.go:64-67 | corrected, `new(int)` holding 7 is copied to a pointer at a fresh cell holding 7, and writing 8 through the source leaves `*c == 7` |
| `Repairs.SelfInnerHit` | deepcopy.go:46-49 | corrected, `a[0].S` met inside the copy of `a[0]` is found under `a`'s slice key and yields the header of `a`'s copy |
| `Repairs.SelfFieldS` | deepcopy.go:68-73 | field `S` of `a[0]`'s copy receives that header |
| `Repairs.SelfFieldX` | deepcopy.go:68-73 | field `X` of `a[0]`'s copy receives 1 |
| `Repairs.SelfElemStep` | deepcopy.go:56-59 | corrected, `a[0]` is copied by value into a new struct cell with `S` the copy of `a` and `X == 1` |
| `Repairs.SelfSliceKept` | deepcopy.go:11-21 | corrected, `DeepCopy(a)` for `a[0].S = a` gives `c` with `c[0].S == c` and `c[0].X == 1`, so `c[0].S[0].X == 1` as in the source, and the source cell is unchanged |
| `Repairs.UArrElems` | deepcopy.go:56-59 | the elements of `u.A` are copied into the new array cell |
| `Repairs.UArrStep` | deepcopy.go:46-59 | corrected, `u.A` is registered and copied into a cell of its own |
| `Repairs.UPtrStep` | deepcopy.go:64-67 | corrected, `u.P`, whose target's cell is registered for the copy of `u`, aims at the same path, `A`, inside that copy |
| `Repairs.UFields` | deepcopy.go:68-73 | the fields of `*u` are copied into its shell: `A` by value, `P` aiming at the shell's own `A` |
| `Repairs.InteriorPointerKept` | deepcopy.go:11-21 | corrected, `DeepCopy(&u)` for `u.P = &u.A` gives `c` with `c.P == &c.A` |
| `Repairs.ItemValueStep` | deepcopy.go:56-59 | corrected, `a[0]` is copied by value, `X == 1` |
| `Repairs.ItemSliceStep` | deepcopy.go:35-59 | corrected, copying `s.A` registers `a` under its slice key and `a[0]`'s cell for the new backing cell 2, which receives `a[0]`'s copy |
| `Repairs.ItemPtrStep` | deepcopy.go:64-67 | corrected, `s.P` aims at cell 2, the registered copy of `a[0]` |
| `Repairs.ItemFields` | deepcopy.go:68-73 | the fields of `s` are copied: `A` over cell 2, `P` aiming at cell 2 |
| `Repairs.SliceElemPointerKept` | deepcopy.go:11-21 | corrected, `DeepCopy(s)` for `s.P = &s.A[0]` gives `c.P == &c.A[0]` |
| `Repairs.BoxFirstStep` | deepcopy.go:78-83 | corrected, copying `s.P` registers `i` for its new box, cell 3 |
| `Repairs.BoxSecondStep` | deepcopy.go:64-67 | corrected, `s.Q` aims at cell 3, the registered copy of `i` |
| `Repairs.SharedFields` | deepcopy.go:68-73 | the fields `P` and `Q` are copied, both aimed at cell 3 |
| `Repairs.SharedBoxKept` | deepcopy.go:11-21 | corrected, `DeepCopy(s)` for `s.P == s.Q == &i` gives `c.P == c.Q`, so a write through `c.P` is seen through `c.Q` |
| `Copier.Heap.constructor` | deepcopy.go:19-20 | builds a heap whose fields are the given cells, tables and allocation marks |
| `Copier.Visited.constructor` | deepcopy.go:20 | `make(map[visit]Value)`: the memo starts empty |
| `Copier.SetPlace` | deepcopy.go:58 | `Set` updates the heap exactly as `Store` does |
| `Copier.SetIndex` | deepcopy.go:62 | `SetMapIndex` updates the heap exactly as the functional map update does |
| `Copier.New` | deepcopy.go:33 | `New` returns the next free cell, holding the given value |
| `Copier.MakeShell` | deepcopy.go:33-43 | allocates the shell in place and returns the same cell, slots and table as `NewShell` |
| `Copier.CopyValue` | deepcopy.go:23-87 | the in-place copy returns the handle or fault of `Copy`, and on success leaves heap and memo in the state `Copy` produces |
| `Copier.CopyIface` | deepcopy.go:78-83 | the in-place interface copy agrees with `CopyIface` |
| `Copier.CopyComposite` | deepcopy.go:31-75 | the in-place composite copy, memo included, agrees with `CopyComposite` |
| `Copier.Fill` | deepcopy.go:55-74 | filling a shell in place agrees with `Fill` |
| `Copier.FillElems` | deepcopy.go:56-59 | the `for i` loop over elements agrees with `CopyElems`, stopping at the first fault |
| `Copier.FillEntries` | deepcopy.go:61-63 | the `range MapKeys` loop agrees with `CopyEntries` |
| `Copier.DeepCopyValue` | deepcopy.go:19-21 | runs with a fresh empty memo and agrees with `DeepCopyValue` |
| `Copier.DeepCopy` | deepcopy.go:11-16 | returns the result or fault of `DeepCopy`, and on success leaves the heap in the state `DeepCopy` produces |

## Left out

- The reflection API itself is modelled only in the operations used here:
  `Kind`, `CanAddr`, `UnsafeAddr`, `Index`, `Field`, `CanSet`, `Elem`,
  `Set`, `New`, `MakeSlice`, `MakeMap`, `SetMapIndex`, `MapKeys`,
  `MapIndex` and `Addr`.
- Raw addresses: memory is an arena of cells named by `Loc`. The address
  arithmetic is kept only as far as the memo key needs it: element 0 and
  field 0 share their parent's address.
- Zero-size types: Go may give distinct zero-size objects the same
  address; that coincidence is not modelled.
- Payloads of numbers, strings, channels and functions are opaque integers.
  Floating point, complex numbers, channel and function internals are not
  modelled, since the copier only passes such values through. The one
  exception is below.
- Map keys not equal to themselves: a NaN float key is never found by
  `MapIndex` (line 62), which then returns the zero `Value`, and
  `deepCopyValue` panics on it at line 24 (`Type()` of the zero `Value`).
  Map keys here are integers, always found, so this panic, the only route
  to `NoType` in Go, is not modelled.
- Slices are modelled as owning their own element cells. Sub-slicing, and
  slices sharing a backing array with an array value, are not modelled.
  Slice elements are addressable, as in Go. `MakeSlice` at line 37
  allocates `cap` zero elements, but the model allocates cells for the
  first `len` only and keeps the capacity as a number in the header: the
  `cap - len` elements beyond the length are reached only by re-slicing.
- `MapKeys` order is unspecified in Go. The model visits keys in ascending
  order. Map keys are opaque tokens that are compared, never copied.
- Recursion depth: Go has no bound of its own, while the model takes a
  `fuel` stack depth and fails with `StackExhausted` when it runs out. A
  cycle through a map or an interface is not cut by the memo (tables and
  interface boxes are not addressable in the memo's sense), so such an
  input exhausts fuel where Go overflows its stack.
- `Dangling` stands for states Go's memory safety excludes. It is carried
  so the functions are total. `Unaddressable` is carried for the same reason
  and is proved never to arise (`Faults.NeverUnaddressable`).
- Content equality and independence: the model does not state that the
  copy, read through its pointers, equals the source, nor that no later
  write to the source is seen through the copy. The code does not satisfy
  either (see the Findings section): a pointer to an atomic value shares its
  pointee, a memo hit on a half-filled array or struct yields a snapshot,
  an interior pointer or a pointer to a slice element is detached from its
  enclosing copy, and two pointers to one interface variable get two boxes.
- Concurrency: the Go code is single-threaded over memory it does not lock.
  Concurrent mutation is out of scope.
- `DeepEqual`, the test loop and the benchmark of deepcopy_test.go are not
  modelled. The `Node` fixture of lines 45-54 is modelled as a concrete
  heap.
- Content lemmas: for element values, the lemmas state that atomic elements
  are copied unchanged. No lemma describes the value a composite element
  slot receives, except for an interface's dynamic value, which
  `Content.BoxCopied` and `Content.PointerToBox` state to be exactly the
  value the recursive copy holds when the box is written, a pointer's
  target (`Content.PointerToMemoisedCopy`, `Content.PointerToAtomicShared`,
  `Content.PointerToBox`), and the pointer graphs of `Graph.GraphCopied`.
  `Shape.CopyShape` describes the value a copy returns, not the element
  slot it is written into; such a slot can hold a snapshot (see the
  Findings section). There is no "the copy is structurally equal to the
  source" theorem over arbitrary nested heaps.
- Content.SliceElemsCopied: states element equality only for atomic
  elements, for the reason above.
- Content.InlineElemsCopied: states element equality only for atomic
  fields and elements; unexported fields keep their zero value.
- Content.MapValuesCopied: states value equality only for atomic map
  values; it says nothing about the contents of composite values.
- Graph.GraphCopied: proved for heaps of `Node` pointers only, the pointer
  shape of the package's test.
- Intended.Copy: the corrected copier is proved to keep the pointer
  structure on the five inputs of the Findings only, not on every heap. It
  also depends on order: a pointer to a slice element or to a place inside
  a value that is met before the slice or the value is still copied into a
  cell of its own, since a copy made earlier cannot be moved.

## Findings

| source | as written | input that shows it | evidently intended | confidence | as-written member | corrected member |
|---|---|---|---|---|---|---|
| deepcopy.go:64-67 | the pointee of a pointer to an atomic value is returned as is, and `Addr()` of it is the source's own address | `p := new(int); *p = 7; c := DeepCopy(p).(*int); *p = 8` leaves `*c == 8` | a fresh pointee holding 7, not affected by writes to `*p` | not executed | `Exhibits.NewIntShared` (with `Content.PointerToAtomicShared`) | `Intended.Fill` with `Intended.FreshPointee`, property proved in `Repairs.FreshIntIndependent` and `Intended.FreshPointeeIndependent` |
| deepcopy.go:46-52 | a memo hit returns the shell of a copy still being filled, and `Set` stores its current, partial value into the slot | `type T struct{S []T; X int}; a := make([]T, 1); a[0].X = 1; a[0].S = a; c := DeepCopy(a).([]T)` gives `c[0].X == 1` but `c[0].S[0].X == 0` | `c[0].S[0].X == 1`, as in the source | not executed | `Exhibits.SnapshotOnHit` | `Intended.CopyComposite` with `Intended.SliceKey` and `Intended.Enroll`, property proved in `Repairs.SelfSliceKept` |
| deepcopy.go:47-49 | the pointee `s.A` of `&s.A` is keyed and copied as a value of its own | `type U struct{A [2]int; P *[2]int}; u.P = &u.A; c := DeepCopy(&u).(*U)` gives `c.P != &c.A` | `c.P == &c.A`, as `u.P == &u.A` | not executed | `Exhibits.InteriorPointerDetached` | `Intended.Fill` with `Intended.Relocated`, property proved in `Repairs.InteriorPointerKept` |
| deepcopy.go:56-59 | a slice element is copied through its own memo entry into a cell of its own, and only its value is stored into the new backing array | `type T struct{X int}; a := []T{{1}}; s := struct{A []T; P *T}{a, &a[0]}; c := DeepCopy(s)` gives `c.P != &c.A[0]` | `c.P == &c.A[0]`, as `s.P == &s.A[0]` | not executed | `Exhibits.SliceElemPointerDetached` (with `Exhibits.PointerAvoidsSliceCopy`) | `Intended.Enroll` and `Intended.Element` with `Intended.Fill`, property proved in `Repairs.SliceElemPointerKept` |
| deepcopy.go:78-83 | the interface case allocates a new box without consulting the memo, and line 66 takes `Addr()` of it | `var i interface{} = 7; s := struct{P, Q *interface{}}{&i, &i}; c := DeepCopy(s)` gives `c.P != c.Q` | `c.P == c.Q`, as `s.P == s.Q` | not executed | `Exhibits.SharedBoxSplit` (with `Memo.IfaceNeverMemoised`) | `Intended.CopyIface` with `Intended.Relocated`, property proved in `Repairs.SharedBoxKept` |
