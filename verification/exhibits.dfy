/**
 * Five inputs on which deepcopy.go does not give what its doc comments
 * (lines 10 and 18) promise, a deep copy that preserves pointer
 * hierarchies. Each is stated on the model of the code as written.
 */
module Exhibits {
  import opened Values
  import opened Memory
  import opened DeepCopy
  import opened Frame
  import opened Memo
  import opened Shape
  import opened Content
  import opened Faults

  // ---------------------------------------------------------------------
  // A pointer to an atomic value shares its pointee (lines 28 and 66).

  /** `new(int)` holding 7: the int lives in cell 0. */
  function IntHeap(): State {
    State(map[0 := Atomic("int", Int, 7)], map[], 1, 0, map[])
  }

  /** DeepCopy of the `*int` gives back the very same pointer: a write
      through the source's pointer is seen through the copy. */
  lemma NewIntShared(fuel: nat, heap: State)
    requires fuel >= 2 && heap == IntHeap()
    ensures var v := Ptr("*int", Some(Root(0)));
      var a := DeepCopy.DeepCopy(fuel, Some(v), heap);
      a.Answer? && a.i == Some(v) &&
      Load(Store(a.st, Root(0), Atomic("int", Int, 8)), At(a.i.value.target.value)) == Some(Atomic("int", Int, 8))
  {
    var v := Ptr("*int", Some(Root(0)));
    var st0 := heap.(visited := map[]);
    assert st0 == heap;
    var st1 := Alloc(st0, Ptr("*int", None));
    assert NewShell(v, st0) == Shell(1, [], 0, st1);
    assert Copy(fuel - 1, At(Root(0)), st1) == Done(At(Root(0)), st1);
    assert Fill(fuel - 1, Direct(v), v, 1, [], 0, st1) == Filled(Store(st1, Root(1), v));
    assert Copy(fuel, Direct(v), st0).Done?;
    PointerToAtomicShared(fuel, Direct(v), st0);
  }

  // ---------------------------------------------------------------------
  // A memo hit on a struct that is still being filled copies a snapshot
  // (lines 48-49 with the Set of lines 58 and 71).
  //
  //   type T struct { S []T; X int }
  //   a := make([]T, 1); a[0].X = 1; a[0].S = a

  /** a[0], the one element of a's backing array, in cell 0. */
  function SelfElem(): Value {
    Struct("T", [Field(true, Slice("[]T", Some(Header(1, [0])))), Field(true, Atomic("int", Int, 1))])
  }

  /** The zero T. */
  function ZeroT(): Value {
    Struct("T", [Field(true, Slice("[]T", None)), Field(true, Atomic("int", Int, 0))])
  }

  function SelfHeap(): State {
    State(map[0 := SelfElem()], map[], 1, 0, map[])
  }

  function KeyT(): Visit { Visit(Addr(0, []), "T") }
  function KeyS(): Visit { Visit(Addr(0, []), "[]T") }

  /** The copy's element 0 once filled: its S is the inner copy of a[0].S. */
  function CopiedElem(): Value {
    Struct("T", [Field(true, Slice("[]T", Some(Header(1, [4])))), Field(true, Atomic("int", Int, 1))])
  }

  // The states the copy passes through.
  function StA(): State {
    State(map[0 := SelfElem(), 1 := ZeroT(), 2 := Slice("[]T", Some(Header(1, [1])))], map[], 3, 0, map[])
  }
  function StB(): State {
    StA().(cells := StA().cells[3 := ZeroT()], nextLoc := 4, visited := map[KeyT() := At(Root(3))])
  }
  function StC(): State {
    StB().(cells := StB().cells[4 := ZeroT()][5 := Slice("[]T", Some(Header(1, [4])))], nextLoc := 6,
           visited := StB().visited[KeyS() := At(Root(5))])
  }
  function StD(): State {
    StC().(cells := StC().cells[6 := ZeroT()], nextLoc := 7)
  }
  function StE(): State {
    StD().(cells := StD().cells[3 := Struct("T", [Field(true, Slice("[]T", Some(Header(1, [4])))),
                                                  Field(true, Atomic("int", Int, 0))])])
  }
  function StF(): State {
    StD().(cells := StD().cells[3 := CopiedElem()])
  }
  function StG(): State {
    StF().(cells := StF().cells[1 := CopiedElem()])
  }

  lemma ZeroOfSelf()
    ensures ZeroLike(SelfElem()) == ZeroT()
  {
    var z := ZeroLike(SelfElem());
    assert z.fields[0] == Field(true, Slice("[]T", None));
    assert z.fields[1] == Field(true, Atomic("int", Int, 0));
  }

  /** The innermost visit of a[0] (through a[0].S[0]) hits the memo and
      returns the struct shell of cell 3, still all zero. */
  lemma HitStep(f: nat)
    requires f >= 1
    ensures Copy(f, At(Root(0)), StC()) == Done(At(Root(3)), StD())
  {
    ZeroOfSelf();
    assert KeyOf(Root(0), SelfElem()) == KeyT();
    assert NewShell(SelfElem(), StC()).st == StD();
  }

  /** a[0].S, the slice a itself. */
  function SliceS(): Value { Slice("[]T", Some(Header(1, [0]))) }

  /** The shell of a[0].S: element cell 4, header cell 5, registered. */
  lemma ShellOfS()
    ensures var sh := NewShell(SliceS(), StB());
      sh.loc == 5 && sh.slots == [Root(4)] && sh.table == 0 &&
      KeyOf(Place(0, [0]), SliceS()) !in sh.st.visited &&
      Register(At(Place(0, [0])), SliceS(), sh) == StC()
  {
    ZeroOfSelf();
    var sv := SliceS();
    assert AddrOf(Place(0, [0])) == Addr(0, []);
    assert KeyOf(Place(0, [0]), sv) == KeyS();
    var sh := NewShell(sv, StB());
    assert ZeroAt(StB(), 0) == ZeroT();
    assert Fresh(4, [ZeroT()]) == map[4 := ZeroT()];
    assert Run(4, 1) == [4];
    assert sh.loc == 5 && sh.slots == [Root(4)];
    assert sh.st.visited == StB().visited;
  }

  /** The element of a[0].S's copy receives the zero snapshot of cell 3. */
  lemma ElemsOfS(f: nat)
    requires f >= 1
    ensures CopyElems(f, At(Place(0, [0])), SliceS(), [Root(4)], 0, StC()) == Filled(StD())
  {
    ZeroOfSelf();
    var sv := SliceS();
    HitStep(f);
    assert Child(At(Place(0, [0])), sv, 0) == At(Root(0));
    assert Store(StD(), Root(4), ZeroT()) == StD();
    assert CopyElems(f, At(Place(0, [0])), sv, [Root(4)], 1, StD()) == Filled(StD());
  }

  /** Copying a[0].S: a fresh slice over cell 4, whose element receives the
      zero snapshot of cell 3. */
  lemma SliceStep(f: nat)
    requires f >= 2
    ensures Copy(f, At(Place(0, [0])), StB()) == Done(At(Root(5)), StD())
  {
    var sv := SliceS();
    assert Load(StB(), At(Place(0, [0]))) == Some(sv);
    ShellOfS();
    ElemsOfS(f - 1);
    assert Fill(f - 1, At(Place(0, [0])), sv, 5, [Root(4)], 0, StC()) == Filled(StD());
    assert CopyComposite(f - 1, At(Place(0, [0])), sv, StB()) == Done(At(Root(5)), StD());
  }

  /** Filling field S of the shell in cell 3. */
  lemma StoreS()
    ensures Store(StD(), Place(3, [0]), Slice("[]T", Some(Header(1, [4])))) == StE()
  {
    assert [0][1..] == [];
    var s4 := Slice("[]T", Some(Header(1, [4])));
    assert Put(ZeroT(), [0], s4) == Struct("T", ZeroT().fields[0 := Field(true, s4)]);
    assert ZeroT().fields[0 := Field(true, s4)] == StE().cells[3].fields;
  }

  /** Filling field X of the shell in cell 3. */
  lemma StoreX()
    ensures Store(StE(), Place(3, [1]), Atomic("int", Int, 1)) == StF()
  {
    assert [1][1..] == [];
    var x := Atomic("int", Int, 1);
    assert Put(StE().cells[3], [1], x) == Struct("T", StE().cells[3].fields[1 := Field(true, x)]);
    assert StE().cells[3].fields[1 := Field(true, x)] == CopiedElem().fields;
  }

  /** The loop over a[0]'s fields from X on. */
  lemma FieldXStep(f: nat)
    requires f >= 1
    ensures CopyElems(f, At(Root(0)), SelfElem(), [Place(3, [0]), Place(3, [1])], 1, StE()) == Filled(StF())
  {
    var e := SelfElem();
    assert Child(At(Root(0)), e, 1) == At(Place(0, [1]));
    assert Load(StE(), At(Place(0, [1]))) == Some(Atomic("int", Int, 1));
    assert Copy(f, At(Place(0, [1])), StE()) == Done(At(Place(0, [1])), StE());
    StoreX();
    assert CopyElems(f, At(Root(0)), e, [Place(3, [0]), Place(3, [1])], 2, StF()) == Filled(StF());
  }

  /** The shell of a[0]: cell 3, all zero, registered under a[0]'s key. */
  lemma StructShell()
    ensures var sh := NewShell(SelfElem(), StA());
      sh.loc == 3 && sh.slots == [Place(3, [0]), Place(3, [1])] &&
      KeyOf(Root(0), SelfElem()) !in sh.st.visited &&
      Register(At(Root(0)), SelfElem(), sh) == StB()
  {
    ZeroOfSelf();
    assert KeyOf(Root(0), SelfElem()) == KeyT();
  }

  /** The loop over a[0]'s fields from S on. */
  lemma FieldSStep(f: nat)
    requires f >= 2
    ensures CopyElems(f, At(Root(0)), SelfElem(), [Place(3, [0]), Place(3, [1])], 0, StB()) == Filled(StF())
  {
    SliceStep(f);
    StoreS();
    FieldXStep(f);
    assert Child(At(Root(0)), SelfElem(), 0) == At(Place(0, [0]));
  }

  /** Copying a[0] itself: its shell, cell 3, receives the inner slice and X. */
  lemma StructStep(f: nat)
    requires f >= 3
    ensures Copy(f, At(Root(0)), StA()) == Done(At(Root(3)), StF())
  {
    var e := SelfElem();
    var slots := [Place(3, [0]), Place(3, [1])];
    StructShell();
    FieldSStep(f - 1);
    var sh := NewShell(e, StA());
    assert Fill(f - 1, At(Root(0)), e, 3, slots, sh.table, StB()) == Filled(StF());
    assert CopyComposite(f - 1, At(Root(0)), e, StA()) == Done(At(Root(3)), StF());
  }

  /** DeepCopy(a): the copy's element 0 has X == 1, but the element of its
      S, which in the source is a[0] itself, is the zero T: it was read from
      the shell of a[0] while that shell was still being filled. */
  lemma SnapshotOnHit(fuel: nat, heap: State)
    requires fuel >= 4 && heap == SelfHeap()
    ensures var a := DeepCopy.DeepCopy(fuel, Some(Slice("[]T", Some(Header(1, [0])))), heap);
      a.Answer? && a.i == Some(Slice("[]T", Some(Header(1, [1])))) &&
      1 in a.st.cells && a.st.cells[1] == CopiedElem() &&
      4 in a.st.cells && a.st.cells[4] == ZeroT() &&
      heap.cells[0] == SelfElem() && SelfElem().fields[1].v != ZeroT().fields[1].v
  {
    ZeroOfSelf();
    var sv := Slice("[]T", Some(Header(1, [0])));
    var st0 := heap.(visited := map[]);
    assert st0 == heap;
    var sh := NewShell(sv, st0);
    assert ZeroAt(st0, 0) == ZeroT();
    assert Fresh(1, [ZeroT()]) == map[1 := ZeroT()];
    assert Run(1, 1) == [1];
    assert sh.loc == 2 && sh.slots == [Root(1)];
    assert sh.st == StA();
    StructStep(fuel - 1);
    assert Store(StF(), Root(1), CopiedElem()) == StG();
    assert Child(Direct(sv), sv, 0) == At(Root(0));
    assert CopyElems(fuel - 1, Direct(sv), sv, [Root(1)], 1, StG()) == Filled(StG());
    assert CopyElems(fuel - 1, Direct(sv), sv, [Root(1)], 0, StA()) == Filled(StG());
    assert Fill(fuel - 1, Direct(sv), sv, 2, [Root(1)], 0, StA()) == Filled(StG());
    assert CopyComposite(fuel - 1, Direct(sv), sv, st0) == Done(At(Root(2)), StG());
    assert Copy(fuel, Direct(sv), st0) == Done(At(Root(2)), StG());
    assert DeepCopyValue(fuel, Direct(sv), heap) == Done(At(Root(2)), StG());
  }

  // ---------------------------------------------------------------------
  // An interior pointer is not aimed into the copy of its enclosing value
  // (line 47 keys &s.A by its own address and type).

  /** The copy of a pointer to an array or struct that lies inside another
      value (`&s.A`) always aims at the root of a cell of its own, never at
      a place inside a copied value, so it does not alias the copy of `s`. */
  lemma InteriorPointerDetached(fuel: nat, h: Handle, st: State)
    requires WellFormed(st) && MemoRoots(st)
    requires Load(st, h).Some? && Load(st, h).value.Ptr? && Load(st, h).value.target.Some?
    requires h.Direct? || KeyOf(h.p, Load(st, h).value) !in st.visited
    requires Load(st, At(Load(st, h).value.target.value)).Some?
    requires IsComposite(Load(st, At(Load(st, h).value.target.value)).value)
    requires Copy(fuel, h, st).Done?
    ensures var q := Load(st, h).value.target.value;
      var o := Copy(fuel, h, st);
      o.h.At? && o.h.p.loc in o.st.cells &&
      var w := o.st.cells[o.h.p.loc];
      w.Ptr? && w.target.Some? && w.target.value.path == [] &&
      (q.path != [] ==> forall c :: w.target.value != Place(c, q.path))
  {
    PointerToMemoisedCopy(fuel, h, st);
    CopyRoots(fuel, h, st);
  }

  // ---------------------------------------------------------------------
  // A pointer to a slice element is not aimed into the copy of the slice
  // (line 58 sets each element into the `MakeSlice` storage by value, while
  // line 51 registers the element's own `New` shell).

  /** Every memo entry names a cell already allocated. */
  ghost predicate MemoAllocated(st: State) {
    forall k :: k in st.visited ==> st.visited[k].At? && st.visited[k].p.loc < st.nextLoc
  }

  /** From st to st' the memo only gained entries, and each new entry names
      a cell allocated in between. */
  ghost predicate FreshEntries(st: State, st': State) {
    st.nextLoc <= st'.nextLoc &&
    (forall k :: k in st.visited ==> k in st'.visited && st'.visited[k] == st.visited[k]) &&
    (forall k :: k in st'.visited && k !in st.visited ==>
       st'.visited[k].At? && st.nextLoc <= st'.visited[k].p.loc < st'.nextLoc)
  }

  lemma {:induction false} CopyMemoFresh(fuel: nat, h: Handle, st: State)
    ensures var o := Copy(fuel, h, st); o.Done? ==> FreshEntries(st, o.st)
    decreases fuel, 0
  {
    if fuel > 0 && Load(st, h).Some? {
      var v := Load(st, h).value;
      if IsComposite(v) {
        CompositeMemoFresh(fuel - 1, h, v, st);
      } else if v.Iface? {
        IfaceMemoFresh(fuel - 1, v, st);
      }
    }
  }

  lemma {:induction false} IfaceMemoFresh(fuel: nat, v: Value, st: State)
    requires v.Iface?
    ensures var o := CopyIface(fuel, v, st); o.Done? ==> FreshEntries(st, o.st)
    decreases fuel, 3
  {
    if v.dyn.Some? {
      CopyMemoFresh(fuel, Direct(v.dyn.value), Alloc(st, Iface(v.t, None)));
    }
  }

  lemma {:induction false} CompositeMemoFresh(fuel: nat, h: Handle, v: Value, st: State)
    requires IsComposite(v)
    ensures var o := CopyComposite(fuel, h, v, st); o.Done? ==> FreshEntries(st, o.st)
    decreases fuel, 3
  {
    var sh := NewShell(v, st);
    NewShellFresh(v, st);
    if !(h.At? && KeyOf(h.p, v) in sh.st.visited) {
      var st2 := Register(h, v, sh);
      assert FreshEntries(st, st2);
      FillMemoFresh(fuel, h, v, sh.loc, sh.slots, sh.table, st2);
    }
  }

  lemma {:induction false} FillMemoFresh(fuel: nat, h: Handle, v: Value, shell: Loc, slots: seq<Place>, table: Tid, st: State)
    requires IsComposite(v) && |slots| == Count(v)
    ensures var p := Fill(fuel, h, v, shell, slots, table, st); p.Filled? ==> FreshEntries(st, p.st)
    decreases fuel, 2
  {
    if v.Map? && v.table.Some? {
      var id := v.table.value;
      if id in st.tables {
        EntriesMemoFresh(fuel, st.tables[id], table, st.tables[id].Keys, st);
      }
    } else if v.Ptr? && v.target.Some? {
      CopyMemoFresh(fuel, At(v.target.value), st);
    } else if !v.Map? && !v.Ptr? {
      ElemsMemoFresh(fuel, h, v, slots, 0, st);
    }
  }

  lemma {:induction false} ElemsMemoFresh(fuel: nat, src: Handle, v: Value, slots: seq<Place>, i: nat, st: State)
    requires |slots| == Count(v) && i <= |slots|
    ensures var p := CopyElems(fuel, src, v, slots, i, st); p.Filled? ==> FreshEntries(st, p.st)
    decreases fuel, 1, |slots| - i
  {
    if i < |slots| {
      if !Settable(v, i) {
        ElemsMemoFresh(fuel, src, v, slots, i + 1, st);
      } else {
        var o := Copy(fuel, Child(src, v, i), st);
        CopyMemoFresh(fuel, Child(src, v, i), st);
        if o.Done? && Load(o.st, o.h).Some? {
          var st2 := Store(o.st, slots[i], Load(o.st, o.h).value);
          ElemsMemoFresh(fuel, src, v, slots, i + 1, st2);
          assert CopyElems(fuel, src, v, slots, i, st) == CopyElems(fuel, src, v, slots, i + 1, st2);
        }
      }
    }
  }

  lemma {:induction false} EntriesMemoFresh(fuel: nat, src: map<Key, Value>, table: Tid, todo: set<Key>, st: State)
    requires todo <= src.Keys
    ensures var p := CopyEntries(fuel, src, table, todo, st); p.Filled? ==> FreshEntries(st, p.st)
    decreases fuel, 1, |todo|
  {
    if todo != {} {
      var k := Least(todo);
      var o := Copy(fuel, Direct(src[k]), st);
      CopyMemoFresh(fuel, Direct(src[k]), st);
      if o.Done? && Load(o.st, o.h).Some? {
        EntriesMemoFresh(fuel, src, table, todo - {k}, SetMapIndex(o.st, table, k, Load(o.st, o.h).value));
      }
    }
  }

  /** No memo entry names a cell in [lo, hi). */
  ghost predicate MemoAvoids(st: State, lo: Loc, hi: Loc) {
    forall k :: k in st.visited && st.visited[k].At? ==> !(lo <= st.visited[k].p.loc < hi)
  }

  /** Cells allocated before a copy are never registered by it: whatever
      the memo avoids before, it still avoids after. */
  lemma MemoAvoidsKept(fuel: nat, h: Handle, st: State, lo: Loc, hi: Loc)
    requires MemoAvoids(st, lo, hi) && hi <= st.nextLoc
    ensures var o := Copy(fuel, h, st); o.Done? ==> MemoAvoids(o.st, lo, hi) && hi <= o.st.nextLoc
  {
    CopyMemoFresh(fuel, h, st);
  }

  /** The `MakeSlice` cells that receive a copied slice's elements are never
      memo entries: the memo names only shells from line 33 and slice
      headers, all allocated after them or before the copy. */
  lemma SliceBackingNeverMemoised(fuel: nat, h: Handle, st: State)
    requires WellFormed(st) && MemoAllocated(st)
    requires Load(st, h).Some? && Load(st, h).value.Slice? && Load(st, h).value.hdr.Some?
    requires h.Direct? || KeyOf(h.p, Load(st, h).value) !in st.visited
    requires Copy(fuel, h, st).Done?
    ensures var v := Load(st, h).value;
      var n := |v.hdr.value.cells|;
      var o := Copy(fuel, h, st);
      o.h.At? && o.h.p.loc in o.st.cells &&
      o.st.cells[o.h.p.loc] == Slice(v.t, Some(Header(v.hdr.value.cap, Run(st.nextLoc, n)))) &&
      st.nextLoc + n <= o.st.nextLoc && MemoAvoids(o.st, st.nextLoc, st.nextLoc + n)
  {
    var v := Load(st, h).value;
    var n := |v.hdr.value.cells|;
    var f := fuel - 1;
    assert Copy(fuel, h, st) == CopyComposite(f, h, v, st);
    MissFills(f, h, v, st);
    var sh := NewShell(v, st);
    NewShellFresh(v, st);
    SliceShell(v, st);
    var st2 := Register(h, v, sh);
    assert Fill(f, h, v, sh.loc, sh.slots, sh.table, st2) == CopyElems(f, h, v, sh.slots, 0, st2);
    ElemsKeepPlace(f, h, v, sh.slots, 0, st2, Root(sh.loc));
    assert MemoAvoids(st2, st.nextLoc, st.nextLoc + n);
    ElemsMemoFresh(f, h, v, sh.slots, 0, st2);
  }

  /** A copied pointer to a composite aims at a memo entry, so it never
      aims at cells the memo avoids, such as the `MakeSlice` cells of a
      slice copied earlier: the copy of `&a[0]` is not `&c[0]` for the copy
      c of `a`. */
  lemma PointerAvoidsSliceCopy(fuel: nat, h: Handle, st: State, lo: Loc, hi: Loc)
    requires WellFormed(st) && MemoAvoids(st, lo, hi) && hi <= st.nextLoc
    requires Load(st, h).Some? && Load(st, h).value.Ptr? && Load(st, h).value.target.Some?
    requires h.Direct? || KeyOf(h.p, Load(st, h).value) !in st.visited
    requires Load(st, At(Load(st, h).value.target.value)).Some?
    requires IsComposite(Load(st, At(Load(st, h).value.target.value)).value)
    requires Copy(fuel, h, st).Done?
    ensures var o := Copy(fuel, h, st);
      o.h.At? && o.h.p.loc in o.st.cells &&
      var w := o.st.cells[o.h.p.loc];
      w.Ptr? && w.target.Some? && !(lo <= w.target.value.loc < hi)
  {
    PointerToMemoisedCopy(fuel, h, st);
    MemoAvoidsKept(fuel, h, st, lo, hi);
  }

  //   type T struct { X int }
  //   a := []T{{1}}
  //   s := struct { A []T; P *T }{a, &a[0]}

  /** A T with X == 1: a[0], in cell 0. */
  function ItemOne(): Value { Struct("T", [Field(true, Atomic("int", Int, 1))]) }
  function ItemZero(): Value { Struct("T", [Field(true, Atomic("int", Int, 0))]) }

  function SliceA(): Value { Slice("[]T", Some(Header(1, [0]))) }
  function PtrA0(): Value { Ptr("*T", Some(Root(0))) }
  function Pair(): Value { Struct("S", [Field(true, SliceA()), Field(true, PtrA0())]) }
  function PairZero(): Value { Struct("S", [Field(true, Slice("[]T", None)), Field(true, Ptr("*T", None))]) }

  /** The copy's slice header: one element, in the `MakeSlice` cell 2. */
  function CopyA(): Value { Slice("[]T", Some(Header(1, [2]))) }
  /** The copy: its P aims at cell 4, the `New` shell registered for a[0]. */
  function PairCopy(): Value { Struct("S", [Field(true, CopyA()), Field(true, Ptr("*T", Some(Root(4))))]) }

  function ItemHeap(): State { State(map[0 := ItemOne()], map[], 1, 0, map[]) }

  // The states the copy passes through.
  function Sa(): State { State(map[0 := ItemOne(), 1 := PairZero()], map[], 2, 0, map[]) }
  function Sb(): State { Sa().(cells := Sa().cells[2 := ItemZero()][3 := CopyA()], nextLoc := 4) }
  function Sc(): State {
    Sb().(cells := Sb().cells[4 := ItemZero()], nextLoc := 5, visited := map[KeyT() := At(Root(4))])
  }
  function Sd(): State { Sc().(cells := Sc().cells[4 := ItemOne()]) }
  function Se(): State { Sd().(cells := Sd().cells[2 := ItemOne()]) }
  function Sf(): State {
    Se().(cells := Se().cells[1 := Struct("S", [Field(true, CopyA()), Field(true, Ptr("*T", None))])])
  }
  function Sg(): State {
    Sf().(cells := Sf().cells[5 := Ptr("*T", Some(Root(4)))][6 := ItemZero()], nextLoc := 7)
  }
  function Sh(): State { Sg().(cells := Sg().cells[1 := PairCopy()]) }

  lemma ZeroOfItem()
    ensures ZeroLike(ItemOne()) == ItemZero() && ZeroLike(Pair()) == PairZero()
  {
    assert ZeroLike(ItemOne()).fields[0] == Field(true, Atomic("int", Int, 0));
    assert ZeroLike(Pair()).fields[0] == Field(true, Slice("[]T", None));
    assert ZeroLike(Pair()).fields[1] == Field(true, Ptr("*T", None));
  }

  /** Copying a[0] through the slice: a `New` shell, cell 4, registered
      under a[0]'s key and filled with X == 1. */
  lemma ItemStep(f: nat)
    requires f >= 2
    ensures Copy(f, At(Root(0)), Sb()) == Done(At(Root(4)), Sd())
  {
    ZeroOfItem();
    var e := ItemOne();
    assert KeyOf(Root(0), e) == KeyT();
    var sh := NewShell(e, Sb());
    assert sh.loc == 4 && sh.slots == [Place(4, [0])];
    assert Register(At(Root(0)), e, sh) == Sc();
    assert [0][1..] == [];
    assert Child(At(Root(0)), e, 0) == At(Place(0, [0]));
    assert Load(Sc(), At(Place(0, [0]))) == Some(Atomic("int", Int, 1));
    assert Copy(f - 1, At(Place(0, [0])), Sc()) == Done(At(Place(0, [0])), Sc());
    assert Put(ItemZero(), [0], Atomic("int", Int, 1)) == ItemOne();
    assert Store(Sc(), Place(4, [0]), Atomic("int", Int, 1)) == Sd();
    assert CopyElems(f - 1, At(Root(0)), e, [Place(4, [0])], 1, Sd()) == Filled(Sd());
    assert CopyElems(f - 1, At(Root(0)), e, [Place(4, [0])], 0, Sc()) == Filled(Sd());
    assert Fill(f - 1, At(Root(0)), e, 4, [Place(4, [0])], sh.table, Sc()) == Filled(Sd());
  }

  /** Copying field A: `MakeSlice` cell 2 receives a[0]'s copy by value. */
  lemma SliceAStep(f: nat)
    requires f >= 3
    ensures Copy(f, Direct(SliceA()), Sa()) == Done(At(Root(3)), Se())
  {
    ZeroOfItem();
    var sv := SliceA();
    var sh := NewShell(sv, Sa());
    assert ZeroAt(Sa(), 0) == ItemZero();
    assert Fresh(2, [ItemZero()]) == map[2 := ItemZero()];
    assert Run(2, 1) == [2];
    assert sh.loc == 3 && sh.slots == [Root(2)] && sh.st == Sb();
    ItemStep(f - 1);
    assert Child(Direct(sv), sv, 0) == At(Root(0));
    assert Store(Sd(), Root(2), ItemOne()) == Se();
    assert CopyElems(f - 1, Direct(sv), sv, [Root(2)], 1, Se()) == Filled(Se());
    assert CopyElems(f - 1, Direct(sv), sv, [Root(2)], 0, Sb()) == Filled(Se());
    assert Fill(f - 1, Direct(sv), sv, 3, [Root(2)], sh.table, Sb()) == Filled(Se());
    assert CopyComposite(f - 1, Direct(sv), sv, Sa()) == Done(At(Root(3)), Se());
  }

  /** Copying field P: a memo hit on a[0] gives cell 4, not cell 2. */
  lemma PtrAStep(f: nat)
    requires f >= 2
    ensures Copy(f, Direct(PtrA0()), Sf()) == Done(At(Root(5)), Sg())
  {
    ZeroOfItem();
    var pv := PtrA0();
    var st1 := Alloc(Sf(), Ptr("*T", None));
    assert NewShell(pv, Sf()) == Shell(5, [], 0, st1);
    assert KeyOf(Root(0), ItemOne()) == KeyT();
    assert NewShell(ItemOne(), st1).st == Alloc(st1, ItemZero());
    assert Copy(f - 1, At(Root(0)), st1) == Done(At(Root(4)), Alloc(st1, ItemZero()));
    assert Store(Alloc(st1, ItemZero()), Root(5), Ptr("*T", Some(Root(4)))) == Sg();
    assert Fill(f - 1, Direct(pv), pv, 5, [], 0, st1) == Filled(Sg());
    assert CopyComposite(f - 1, Direct(pv), pv, Sf()) == Done(At(Root(5)), Sg());
  }

  /** The fields of s, copied into the shell in cell 1. */
  lemma PairFields(f: nat)
    requires f >= 3
    ensures CopyElems(f, Direct(Pair()), Pair(), [Place(1, [0]), Place(1, [1])], 0, Sa()) == Filled(Sh())
  {
    var slots := [Place(1, [0]), Place(1, [1])];
    assert [0][1..] == [] && [1][1..] == [];
    SliceAStep(f);
    assert Load(Se(), At(Root(3))) == Some(CopyA());
    assert Put(PairZero(), [0], CopyA()) == Sf().cells[1];
    assert Store(Se(), Place(1, [0]), CopyA()) == Sf();
    PtrAStep(f);
    var pc := Ptr("*T", Some(Root(4)));
    assert Load(Sg(), At(Root(5))) == Some(pc);
    assert Put(Sg().cells[1], [1], pc) == PairCopy();
    assert Store(Sg(), Place(1, [1]), pc) == Sh();
    assert CopyElems(f, Direct(Pair()), Pair(), slots, 2, Sh()) == Filled(Sh());
    assert CopyElems(f, Direct(Pair()), Pair(), slots, 1, Sf()) == Filled(Sh());
  }

  /** DeepCopy(s): the copy's A holds a[0]'s copy in cell 2, but its P
      aims at cell 4, so c.P != &c.A[0], and a write through c.A[0] is not
      seen through c.P, although s.P == &s.A[0]. */
  lemma SliceElemPointerDetached(fuel: nat, heap: State)
    requires fuel >= 4 && heap == ItemHeap()
    ensures var a := DeepCopy.DeepCopy(fuel, Some(Pair()), heap);
      a.Answer? && a.i == Some(PairCopy()) &&
      PairCopy().fields[0].v.hdr.value.cells == [2] &&
      PairCopy().fields[1].v.target == Some(Root(4)) &&
      2 in a.st.cells && a.st.cells[2] == ItemOne() &&
      Load(Store(a.st, Root(2), ItemZero()), At(Root(4))) == Some(ItemOne())
  {
    ZeroOfItem();
    var st0 := heap.(visited := map[]);
    assert st0 == heap;
    var sh := NewShell(Pair(), st0);
    assert sh.loc == 1 && sh.slots == [Place(1, [0]), Place(1, [1])] && sh.st == Sa();
    PairFields(fuel - 1);
    assert Fill(fuel - 1, Direct(Pair()), Pair(), 1, sh.slots, sh.table, Sa()) == Filled(Sh());
    assert CopyComposite(fuel - 1, Direct(Pair()), Pair(), st0) == Done(At(Root(1)), Sh());
    assert DeepCopyValue(fuel, Direct(Pair()), heap) == Done(At(Root(1)), Sh());
  }

  // ---------------------------------------------------------------------
  // An interface box is never memoised (lines 78-79), so two pointers to
  // one interface variable get two boxes (line 66).
  //
  //   var i interface{} = 7
  //   s := struct { P, Q *interface{} }{&i, &i}

  /** i, the interface variable holding 7, in cell 0. */
  function BoxSeven(): Value { Iface("interface{}", Some(Atomic("int", Int, 7))) }
  function PtrBox(): Value { Ptr("*interface{}", Some(Root(0))) }
  function TwoPtrs(): Value { Struct("S", [Field(true, PtrBox()), Field(true, PtrBox())]) }
  function TwoZero(): Value {
    Struct("S", [Field(true, Ptr("*interface{}", None)), Field(true, Ptr("*interface{}", None))])
  }
  /** The copy: P and Q aim at two different boxes, cells 3 and 5. */
  function TwoCopied(): Value {
    Struct("S", [Field(true, Ptr("*interface{}", Some(Root(3)))), Field(true, Ptr("*interface{}", Some(Root(5))))])
  }

  function BoxHeap(): State { State(map[0 := BoxSeven()], map[], 1, 0, map[]) }

  /** Copying one `&i`: a new pointer cell aimed at a new box, each time. */
  lemma BoxPtrStep(f: nat, st: State)
    requires f >= 3 && 0 in st.cells && st.cells[0] == BoxSeven() && st.nextLoc > 0
    ensures var l := st.nextLoc;
      Copy(f, Direct(PtrBox()), st) ==
      Done(At(Root(l)), st.(cells := st.cells[l := Ptr("*interface{}", Some(Root(l + 1)))][l + 1 := BoxSeven()],
                           nextLoc := l + 2))
  {
    var l := st.nextLoc;
    var pv := PtrBox();
    var seven := Atomic("int", Int, 7);
    var st1 := Alloc(st, Ptr("*interface{}", None));
    assert NewShell(pv, st) == Shell(l, [], st.nextTid, st1);
    var st2 := Alloc(st1, Iface("interface{}", None));
    assert Copy(f - 2, Direct(seven), st2) == Done(Direct(seven), st2);
    var st3 := Store(st2, Root(l + 1), BoxSeven());
    assert CopyIface(f - 2, BoxSeven(), st1) == Done(At(Root(l + 1)), st3);
    assert Copy(f - 1, At(Root(0)), st1) == Done(At(Root(l + 1)), st3);
    var st4 := Store(st3, Root(l), Ptr("*interface{}", Some(Root(l + 1))));
    assert st4 == st.(cells := st.cells[l := Ptr("*interface{}", Some(Root(l + 1)))][l + 1 := BoxSeven()],
                      nextLoc := l + 2);
    assert Fill(f - 1, Direct(pv), pv, l, [], st.nextTid, st1) == Filled(st4);
    assert CopyComposite(f - 1, Direct(pv), pv, st) == Done(At(Root(l)), st4);
  }

  // The states the copy passes through.
  function Ba(): State { State(map[0 := BoxSeven(), 1 := TwoZero()], map[], 2, 0, map[]) }
  function Bb(): State {
    Ba().(cells := Ba().cells[2 := Ptr("*interface{}", Some(Root(3)))][3 := BoxSeven()], nextLoc := 4)
  }
  function Bc(): State {
    Bb().(cells := Bb().cells[1 := Struct("S", [Field(true, Ptr("*interface{}", Some(Root(3)))),
                                               Field(true, Ptr("*interface{}", None))])])
  }
  function Bd(): State {
    Bc().(cells := Bc().cells[4 := Ptr("*interface{}", Some(Root(5)))][5 := BoxSeven()], nextLoc := 6)
  }
  function Be(): State { Bd().(cells := Bd().cells[1 := TwoCopied()]) }

  function TwoSlots(): seq<Place> { [Place(1, [0]), Place(1, [1])] }

  /** The fields P and Q, copied into the shell in cell 1. */
  lemma TwoFields(f: nat)
    requires f >= 3
    ensures CopyElems(f, Direct(TwoPtrs()), TwoPtrs(), TwoSlots(), 0, Ba()) == Filled(Be())
  {
    assert [0][1..] == [] && [1][1..] == [];
    BoxPtrStep(f, Ba());
    assert Put(TwoZero(), [0], Ptr("*interface{}", Some(Root(3)))) == Bc().cells[1];
    assert Store(Bb(), Place(1, [0]), Ptr("*interface{}", Some(Root(3)))) == Bc();
    BoxPtrStep(f, Bc());
    assert Put(Bc().cells[1], [1], Ptr("*interface{}", Some(Root(5)))) == TwoCopied();
    assert Store(Bd(), Place(1, [1]), Ptr("*interface{}", Some(Root(5)))) == Be();
    assert CopyElems(f, Direct(TwoPtrs()), TwoPtrs(), TwoSlots(), 2, Be()) == Filled(Be());
    assert CopyElems(f, Direct(TwoPtrs()), TwoPtrs(), TwoSlots(), 1, Bc()) == Filled(Be());
  }

  /** DeepCopy(s) with s.P == s.Q == &i: the copy's P and Q aim at two
      different boxes, so a write through c.P is not seen through c.Q. */
  lemma SharedBoxSplit(fuel: nat, heap: State)
    requires fuel >= 4 && heap == BoxHeap()
    ensures var a := DeepCopy.DeepCopy(fuel, Some(TwoPtrs()), heap);
      a.Answer? && a.i == Some(TwoCopied()) &&
      TwoCopied().fields[0].v.target != TwoCopied().fields[1].v.target &&
      Load(Store(a.st, Root(3), Iface("interface{}", Some(Atomic("int", Int, 8)))), At(Root(5))) == Some(BoxSeven())
  {
    var st0 := heap.(visited := map[]);
    assert st0 == heap;
    assert ZeroLike(TwoPtrs()) == TwoZero();
    var sh := NewShell(TwoPtrs(), st0);
    assert sh.loc == 1 && sh.slots == TwoSlots() && sh.st == Ba();
    TwoFields(fuel - 1);
    assert Fill(fuel - 1, Direct(TwoPtrs()), TwoPtrs(), 1, sh.slots, sh.table, Ba()) == Filled(Be());
    assert CopyComposite(fuel - 1, Direct(TwoPtrs()), TwoPtrs(), st0) == Done(At(Root(1)), Be());
    assert DeepCopyValue(fuel, Direct(TwoPtrs()), heap) == Done(At(Root(1)), Be());
  }
}
