/**
 * The inputs of module Exhibits, copied by the corrected copier of module
 * Intended: each gives the copy its doc comments promise.
 */
module Repairs {
  import opened Values
  import opened Memory
  import opened DeepCopy
  import opened Exhibits
  import I = Intended

  // ---------------------------------------------------------------------
  // `new(int)` holding 7: the copy gets a pointee of its own.

  lemma FreshIntIndependent(fuel: nat, heap: State)
    requires fuel >= 2 && heap == IntHeap()
    ensures var a := I.DeepCopy(fuel, Some(Ptr("*int", Some(Root(0)))), heap);
      a.Answer? && a.i == Some(Ptr("*int", Some(Root(2)))) &&
      Load(a.st, At(Root(2))) == Some(Atomic("int", Int, 7)) &&
      Load(Store(a.st, Root(0), Atomic("int", Int, 8)), At(Root(2))) == Some(Atomic("int", Int, 7))
  {
    var v := Ptr("*int", Some(Root(0)));
    var seven := Atomic("int", Int, 7);
    var st0 := heap.(visited := map[]);
    assert st0 == heap;
    var st1 := Alloc(st0, Ptr("*int", None));
    var sh := Shell(1, [], 0, st1);
    assert NewShell(v, st0) == sh && I.Enroll(Direct(v), v, sh) == st1;
    assert I.Relocated(st1, Root(0)) == None;
    assert I.Copy(fuel - 1, At(Root(0)), st1) == Done(At(Root(0)), st1);
    var st2 := I.FreshPointee(st1, 1, "*int", seven);
    var st3 := st2.(visited := st2.visited[KeyOf(Root(0), seven) := At(Root(2))]);
    assert I.Fill(fuel - 1, Direct(v), v, 1, [], 0, st1) == Filled(st3);
    assert I.Copy(fuel, Direct(v), st0) == Done(At(Root(1)), st3);
    I.FreshPointeeIndependent(st1, 1, "*int", seven, Root(0), Atomic("int", Int, 8));
  }

  // ---------------------------------------------------------------------
  //   type T struct { S []T; X int }
  //   a := make([]T, 1); a[0].X = 1; a[0].S = a
  // The copy's element 0 holds X == 1 and its S is the copy itself.

  function SelfSlice(): Value { Slice("[]T", Some(Header(1, [1]))) }
  function SelfCopy(): Value {
    Struct("T", [Field(true, SelfSlice()), Field(true, Atomic("int", Int, 1))])
  }
  /** The slice key of a one-element []T over cell 0. */
  function SliceKeyA(): Visit { I.SliceKey("[]T", Header(1, [0])) }

  // The states the corrected copy passes through.
  function Ta(): State {
    State(map[0 := SelfElem(), 1 := ZeroT(), 2 := SelfSlice()], map[], 3, 0,
          map[SliceKeyA() := At(Root(2)), KeyT() := At(Root(1))])
  }
  function Tb(): State { Ta().(cells := Ta().cells[3 := ZeroT()], nextLoc := 4) }
  function Tc(): State {
    Tb().(cells := Tb().cells[4 := ZeroT()][5 := Slice("[]T", Some(Header(1, [4])))], nextLoc := 6)
  }
  function Td(): State { Tc().(cells := Tc().cells[3 := SelfCopy()]) }
  function Te(): State { Td().(cells := Td().cells[1 := SelfCopy()]) }

  /** a[0].S, met inside the copy of a[0], is found under a's slice key. */
  lemma SelfInnerHit(f: nat)
    requires f >= 1
    ensures I.Copy(f, Direct(Exhibits.SelfElem().fields[0].v), Tb()) == Done(At(Root(2)), Tc())
  {
    ZeroOfSelf();
    var a := SelfElem().fields[0].v;
    assert ZeroAt(Tb(), 0) == ZeroT();
    assert Fresh(4, [ZeroT()]) == map[4 := ZeroT()];
    assert Run(4, 1) == [4];
    assert NewShell(a, Tb()).st == Tc();
  }

  /** Cell 3 once field S is set. */
  function Tc4(): State {
    Tc().(cells := Tc().cells[3 := Struct("T", [Field(true, SelfSlice()), Field(true, Atomic("int", Int, 0))])])
  }

  function SelfSlots(): seq<Place> { [Place(3, [0]), Place(3, [1])] }

  /** Field S of a[0]: it receives the header of a's copy. */
  lemma SelfFieldS(f: nat)
    requires f >= 1
    ensures I.CopyElems(f, Direct(SelfElem()), SelfElem(), SelfSlots(), 0, Tb())
         == I.CopyElems(f, Direct(SelfElem()), SelfElem(), SelfSlots(), 1, Tc4())
  {
    ZeroOfSelf();
    assert [0][1..] == [];
    SelfInnerHit(f);
    assert Put(ZeroT(), [0], SelfSlice()) == Tc4().cells[3];
    assert Store(Tc(), Place(3, [0]), SelfSlice()) == Tc4();
  }

  /** Field X of a[0]: it receives 1. */
  lemma SelfFieldX(f: nat)
    requires f >= 1
    ensures I.CopyElems(f, Direct(SelfElem()), SelfElem(), SelfSlots(), 1, Tc4()) == Filled(Td())
  {
    var one := Atomic("int", Int, 1);
    assert [1][1..] == [];
    assert I.Copy(f, Direct(one), Tc4()) == Done(Direct(one), Tc4());
    assert Put(Tc4().cells[3], [1], one) == SelfCopy();
    assert Store(Tc4(), Place(3, [1]), one) == Td();
    assert I.CopyElems(f, Direct(SelfElem()), SelfElem(), SelfSlots(), 2, Td()) == Filled(Td());
  }

  /** a[0], copied by value into cell 3: S is a's copy, X is 1. */
  lemma SelfElemStep(f: nat)
    requires f >= 2
    ensures I.Copy(f, Direct(SelfElem()), Ta()) == Done(At(Root(3)), Td())
  {
    ZeroOfSelf();
    var e := SelfElem();
    var sh := NewShell(e, Ta());
    assert sh == Shell(3, SelfSlots(), 0, Tb());
    assert I.Enroll(Direct(e), e, sh) == Tb();
    SelfFieldS(f - 1);
    SelfFieldX(f - 1);
    assert I.Fill(f - 1, Direct(e), e, 3, SelfSlots(), 0, Tb()) == Filled(Td());
  }

  /** DeepCopy(a) under the corrected copier: c[0].S is c itself and
      c[0].X == 1, so c[0].S[0].X == 1, and c shares no cell with a. */
  lemma SelfSliceKept(fuel: nat, heap: State)
    requires fuel >= 3 && heap == SelfHeap()
    ensures var a := I.DeepCopy(fuel, Some(SelfElem().fields[0].v), heap);
      a.Answer? && a.i == Some(SelfSlice()) && SelfSlice().hdr.value.cells == [1] &&
      1 in a.st.cells && a.st.cells[1].Struct? && |a.st.cells[1].fields| == 2 &&
      a.st.cells[1].fields[0].v == a.i.value &&
      a.st.cells[1].fields[1].v == Atomic("int", Int, 1) &&
      0 in a.st.cells && a.st.cells[0] == SelfElem()
  {
    ZeroOfSelf();
    var a := SelfElem().fields[0].v;
    var st0 := heap.(visited := map[]);
    assert st0 == heap;
    var sh := NewShell(a, st0);
    assert ZeroAt(st0, 0) == ZeroT();
    assert Fresh(1, [ZeroT()]) == map[1 := ZeroT()];
    assert Run(1, 1) == [1];
    var s0 := State(map[0 := SelfElem(), 1 := ZeroT(), 2 := SelfSlice()], map[], 3, 0, map[]);
    assert sh == Shell(2, [Root(1)], 0, s0);
    assert KeyOf(Root(0), SelfElem()) == KeyT();
    assert I.EnrollElems([0], [Root(1)], 1, Ta()) == Ta();
    assert I.Enroll(Direct(a), a, sh) == Ta();
    SelfElemStep(fuel - 1);
    assert I.Element(Direct(a), a, 0, Ta()) == Direct(SelfElem());
    assert Store(Td(), Root(1), SelfCopy()) == Te();
    assert I.CopyElems(fuel - 1, Direct(a), a, [Root(1)], 1, Te()) == Filled(Te());
    assert I.CopyElems(fuel - 1, Direct(a), a, [Root(1)], 0, Ta()) == Filled(Te());
    assert I.Fill(fuel - 1, Direct(a), a, 2, [Root(1)], 0, Ta()) == Filled(Te());
    assert I.CopyComposite(fuel - 1, Direct(a), a, st0) == Done(At(Root(2)), Te());
  }

  // ---------------------------------------------------------------------
  //   type U struct { A [2]int; P *[2]int }
  //   u := &U{A: [2]int{1, 2}}; u.P = &u.A
  // DeepCopy(u): the copy's P aims inside the copy, at its A.

  function UArr(): Value { Array("[2]int", [Atomic("int", Int, 1), Atomic("int", Int, 2)]) }
  function UArrZero(): Value { Array("[2]int", [Atomic("int", Int, 0), Atomic("int", Int, 0)]) }
  function UVal(): Value {
    Struct("U", [Field(true, UArr()), Field(true, Ptr("*[2]int", Some(Place(0, [0]))))])
  }
  function UZero(): Value { Struct("U", [Field(true, UArrZero()), Field(true, Ptr("*[2]int", None))]) }
  function UCopy(): Value {
    Struct("U", [Field(true, UArr()), Field(true, Ptr("*[2]int", Some(Place(2, [0]))))])
  }
  function UHeap(): State { State(map[0 := UVal()], map[], 1, 0, map[]) }

  function KeyU(): Visit { Visit(Addr(0, []), "U") }
  function KeyA(): Visit { Visit(Addr(0, []), "[2]int") }
  function KeyP(): Visit { Visit(Addr(0, [1]), "*[2]int") }

  // The states the corrected copy passes through.
  function Ua(): State {
    State(map[0 := UVal(), 1 := Ptr("*U", None), 2 := UZero()], map[], 3, 0, map[KeyU() := At(Root(2))])
  }
  function Ub(): State {
    Ua().(cells := Ua().cells[3 := UArrZero()], nextLoc := 4, visited := Ua().visited[KeyA() := At(Root(3))])
  }
  function Ub1(): State { Ub().(cells := Ub().cells[3 := Array("[2]int", [Atomic("int", Int, 1), Atomic("int", Int, 0)])]) }
  function Uc(): State { Ub().(cells := Ub().cells[3 := UArr()]) }
  function Ud(): State {
    Uc().(cells := Uc().cells[2 := Struct("U", [Field(true, UArr()), Field(true, Ptr("*[2]int", None))])])
  }
  function Ue(): State {
    Ud().(cells := Ud().cells[4 := Ptr("*[2]int", Some(Place(2, [0])))], nextLoc := 5,
          visited := Ud().visited[KeyP() := At(Root(4))])
  }
  function Uf(): State { Ue().(cells := Ue().cells[2 := UCopy()]) }

  lemma ZeroOfU()
    ensures ZeroLike(UArr()) == UArrZero() && ZeroLike(UVal()) == UZero()
  {
    assert ZeroLike(UArr()).elems[0] == Atomic("int", Int, 0);
    assert ZeroLike(UVal()).fields[0] == Field(true, UArrZero());
    assert ZeroLike(UVal()).fields[1] == Field(true, Ptr("*[2]int", None));
  }

  function ASlots(): seq<Place> { [Place(3, [0]), Place(3, [1])] }

  /** u.A[0] and u.A[1], copied into cell 3. */
  lemma UArrElems(f: nat)
    requires f >= 1
    ensures I.CopyElems(f, At(Place(0, [0])), UArr(), ASlots(), 0, Ub()) == Filled(Uc())
  {
    assert [0, 0][1..] == [0] && [0, 1][1..] == [1] && [0][1..] == [] && [1][1..] == [];
    assert I.Element(At(Place(0, [0])), UArr(), 0, Ub()) == At(Place(0, [0, 0]));
    assert Load(Ub(), At(Place(0, [0, 0]))) == Some(Atomic("int", Int, 1));
    assert Put(UArrZero(), [0], Atomic("int", Int, 1)) == Ub1().cells[3];
    assert Store(Ub(), Place(3, [0]), Atomic("int", Int, 1)) == Ub1();
    assert I.Element(At(Place(0, [0])), UArr(), 1, Ub1()) == At(Place(0, [0, 1]));
    assert Load(Ub1(), At(Place(0, [0, 1]))) == Some(Atomic("int", Int, 2));
    assert Put(Ub1().cells[3], [1], Atomic("int", Int, 2)) == UArr();
    assert Store(Ub1(), Place(3, [1]), Atomic("int", Int, 2)) == Uc();
    assert I.CopyElems(f, At(Place(0, [0])), UArr(), ASlots(), 2, Uc()) == Filled(Uc());
    assert I.CopyElems(f, At(Place(0, [0])), UArr(), ASlots(), 1, Ub1()) == Filled(Uc());
  }

  /** u.A: an addressable array, registered and copied into cell 3. */
  lemma UArrStep(f: nat)
    requires f >= 2
    ensures I.Copy(f, At(Place(0, [0])), Ua()) == Done(At(Root(3)), Uc())
  {
    ZeroOfU();
    assert [0][1..] == [];
    assert Load(Ua(), At(Place(0, [0]))) == Some(UArr());
    var sh := NewShell(UArr(), Ua());
    assert sh == Shell(3, ASlots(), 0, Ua().(cells := Ua().cells[3 := UArrZero()], nextLoc := 4));
    assert KeyOf(Place(0, [0]), UArr()) == KeyA();
    assert I.Enroll(At(Place(0, [0])), UArr(), sh) == Ub();
    UArrElems(f - 1);
    assert I.Fill(f - 1, At(Place(0, [0])), UArr(), 3, ASlots(), 0, Ub()) == Filled(Uc());
  }

  /** u.P: its target's cell is registered for cell 2, so the copy aims at
      the same path inside cell 2. */
  lemma UPtrStep(f: nat)
    requires f >= 1
    ensures I.Copy(f, At(Place(0, [1])), Ud()) == Done(At(Root(4)), Ue())
  {
    var pv := Ptr("*[2]int", Some(Place(0, [0])));
    assert [1][1..] == [];
    assert Load(Ud(), At(Place(0, [1]))) == Some(pv);
    var st1 := Alloc(Ud(), Ptr("*[2]int", None));
    var sh := Shell(4, [], 0, st1);
    assert NewShell(pv, Ud()) == sh;
    assert KeyOf(Place(0, [1]), pv) == KeyP();
    var st2 := st1.(visited := st1.visited[KeyP() := At(Root(4))]);
    assert I.Enroll(At(Place(0, [1])), pv, sh) == st2;
    assert KeyOf(Root(0), UVal()) == KeyU();
    assert I.Relocated(st2, Place(0, [0])) == Some(2);
    assert Store(st2, Root(4), Ptr("*[2]int", Some(Place(2, [0])))) == Ue();
    assert I.Fill(f - 1, At(Place(0, [1])), pv, 4, [], 0, st2) == Filled(Ue());
  }

  function USlots(): seq<Place> { [Place(2, [0]), Place(2, [1])] }

  /** The fields of *u, copied into cell 2. */
  lemma UFields(f: nat)
    requires f >= 2
    ensures I.CopyElems(f, At(Root(0)), UVal(), USlots(), 0, Ua()) == Filled(Uf())
  {
    assert [0][1..] == [] && [1][1..] == [];
    assert I.Element(At(Root(0)), UVal(), 0, Ua()) == At(Place(0, [0]));
    UArrStep(f);
    assert Put(UZero(), [0], UArr()) == Ud().cells[2];
    assert Store(Uc(), Place(2, [0]), UArr()) == Ud();
    assert I.Element(At(Root(0)), UVal(), 1, Ud()) == At(Place(0, [1]));
    UPtrStep(f);
    assert Put(Ud().cells[2], [1], Ptr("*[2]int", Some(Place(2, [0])))) == UCopy();
    assert Store(Ue(), Place(2, [1]), Ptr("*[2]int", Some(Place(2, [0])))) == Uf();
    assert I.CopyElems(f, At(Root(0)), UVal(), USlots(), 2, Uf()) == Filled(Uf());
    assert I.CopyElems(f, At(Root(0)), UVal(), USlots(), 1, Ud()) == Filled(Uf());
  }

  /** DeepCopy(u) under the corrected copier: c.P == &c.A. */
  lemma InteriorPointerKept(fuel: nat, heap: State)
    requires fuel >= 4 && heap == UHeap()
    ensures var a := I.DeepCopy(fuel, Some(Ptr("*U", Some(Root(0)))), heap);
      a.Answer? && a.i == Some(Ptr("*U", Some(Root(2)))) &&
      2 in a.st.cells && a.st.cells[2] == UCopy() &&
      UCopy().fields[0].v == UArr() &&
      UCopy().fields[1].v.target == Some(Place(2, [0]))
  {
    ZeroOfU();
    var pu := Ptr("*U", Some(Root(0)));
    var st0 := heap.(visited := map[]);
    assert st0 == heap;
    var j1 := Alloc(st0, Ptr("*U", None));
    var sh := Shell(1, [], 0, j1);
    assert NewShell(pu, st0) == sh && I.Enroll(Direct(pu), pu, sh) == j1;
    assert I.Relocated(j1, Root(0)) == None;
    var shu := NewShell(UVal(), j1);
    assert shu == Shell(2, USlots(), 0, j1.(cells := j1.cells[2 := UZero()], nextLoc := 3));
    assert KeyOf(Root(0), UVal()) == KeyU();
    assert I.Enroll(At(Root(0)), UVal(), shu) == Ua();
    UFields(fuel - 2);
    assert I.Fill(fuel - 2, At(Root(0)), UVal(), 2, USlots(), 0, Ua()) == Filled(Uf());
    assert I.Copy(fuel - 1, At(Root(0)), j1) == Done(At(Root(2)), Uf());
    var ug := Store(Uf(), Root(1), Ptr("*U", Some(Root(2))));
    assert I.Fill(fuel - 1, Direct(pu), pu, 1, [], 0, j1) == Filled(ug);
    assert I.CopyComposite(fuel - 1, Direct(pu), pu, st0) == Done(At(Root(1)), ug);
    assert I.Copy(fuel, Direct(pu), st0) == Done(At(Root(1)), ug);
  }

  // ---------------------------------------------------------------------
  //   type T struct { X int }
  //   a := []T{{1}}
  //   s := struct { A []T; P *T }{a, &a[0]}
  // DeepCopy(s): the copy's P aims at the copy's A[0].

  /** The copy: P aims at cell 2, element 0 of its A. */
  function PairKept(): Value { Struct("S", [Field(true, CopyA()), Field(true, Ptr("*T", Some(Root(2))))]) }

  // The states the corrected copy passes through, from Exhibits.Sb on.
  function Ka(): State { Sb().(visited := map[SliceKeyA() := At(Root(3)), KeyT() := At(Root(2))]) }
  function Kb(): State { Ka().(cells := Ka().cells[4 := ItemZero()], nextLoc := 5) }
  function Kc(): State { Kb().(cells := Kb().cells[4 := ItemOne()]) }
  function Kd(): State { Kc().(cells := Kc().cells[2 := ItemOne()]) }
  function Ke(): State {
    Kd().(cells := Kd().cells[1 := Struct("S", [Field(true, CopyA()), Field(true, Ptr("*T", None))])])
  }
  function Kf(): State { Ke().(cells := Ke().cells[5 := Ptr("*T", Some(Root(2)))], nextLoc := 6) }
  function Kg(): State { Kf().(cells := Kf().cells[1 := PairKept()]) }

  /** a[0], copied by value into cell 4. */
  lemma ItemValueStep(f: nat)
    requires f >= 2
    ensures I.Copy(f, Direct(ItemOne()), Ka()) == Done(At(Root(4)), Kc())
  {
    ZeroOfItem();
    var e := ItemOne();
    var one := Atomic("int", Int, 1);
    var sh := NewShell(e, Ka());
    assert sh == Shell(4, [Place(4, [0])], 0, Kb());
    assert I.Enroll(Direct(e), e, sh) == Kb();
    assert [0][1..] == [];
    assert I.Element(Direct(e), e, 0, Kb()) == Direct(one);
    assert I.Copy(f - 1, Direct(one), Kb()) == Done(Direct(one), Kb());
    assert Put(ItemZero(), [0], one) == ItemOne();
    assert Store(Kb(), Place(4, [0]), one) == Kc();
    assert I.CopyElems(f - 1, Direct(e), e, [Place(4, [0])], 1, Kc()) == Filled(Kc());
    assert I.CopyElems(f - 1, Direct(e), e, [Place(4, [0])], 0, Kb()) == Filled(Kc());
    assert I.Fill(f - 1, Direct(e), e, 4, [Place(4, [0])], 0, Kb()) == Filled(Kc());
  }

  /** Field A: a is registered under its slice key, a[0]'s cell for cell 2. */
  lemma ItemSliceStep(f: nat)
    requires f >= 3
    ensures I.Copy(f, Direct(SliceA()), Sa()) == Done(At(Root(3)), Kd())
  {
    ZeroOfItem();
    var sv := SliceA();
    var sh := NewShell(sv, Sa());
    assert ZeroAt(Sa(), 0) == ItemZero();
    assert Fresh(2, [ItemZero()]) == map[2 := ItemZero()];
    assert Run(2, 1) == [2];
    assert sh == Shell(3, [Root(2)], 0, Sb());
    assert KeyOf(Root(0), ItemOne()) == KeyT();
    assert I.EnrollElems([0], [Root(2)], 1, Ka()) == Ka();
    assert I.Enroll(Direct(sv), sv, sh) == Ka();
    assert I.Element(Direct(sv), sv, 0, Ka()) == Direct(ItemOne());
    ItemValueStep(f - 1);
    assert Store(Kc(), Root(2), ItemOne()) == Kd();
    assert I.CopyElems(f - 1, Direct(sv), sv, [Root(2)], 1, Kd()) == Filled(Kd());
    assert I.CopyElems(f - 1, Direct(sv), sv, [Root(2)], 0, Ka()) == Filled(Kd());
    assert I.Fill(f - 1, Direct(sv), sv, 3, [Root(2)], 0, Ka()) == Filled(Kd());
  }

  /** Field P: a[0]'s cell is registered for cell 2, so P's copy aims there. */
  lemma ItemPtrStep(f: nat)
    requires f >= 1
    ensures I.Copy(f, Direct(PtrA0()), Ke()) == Done(At(Root(5)), Kf())
  {
    var pv := PtrA0();
    var st1 := Alloc(Ke(), Ptr("*T", None));
    var sh := Shell(5, [], 0, st1);
    assert NewShell(pv, Ke()) == sh && I.Enroll(Direct(pv), pv, sh) == st1;
    assert KeyOf(Root(0), ItemOne()) == KeyT();
    assert I.Relocated(st1, Root(0)) == Some(2);
    assert Store(st1, Root(5), Ptr("*T", Some(Place(2, [])))) == Kf();
    assert I.Fill(f - 1, Direct(pv), pv, 5, [], 0, st1) == Filled(Kf());
  }

  function PairSlots(): seq<Place> { [Place(1, [0]), Place(1, [1])] }

  /** The fields of s, copied into the shell in cell 1. */
  lemma ItemFields(f: nat)
    requires f >= 3
    ensures I.CopyElems(f, Direct(Pair()), Pair(), PairSlots(), 0, Sa()) == Filled(Kg())
  {
    assert [0][1..] == [] && [1][1..] == [];
    ItemSliceStep(f);
    assert Put(PairZero(), [0], CopyA()) == Ke().cells[1];
    assert Store(Kd(), Place(1, [0]), CopyA()) == Ke();
    ItemPtrStep(f);
    var pc := Ptr("*T", Some(Root(2)));
    assert Put(Ke().cells[1], [1], pc) == PairKept();
    assert Store(Kf(), Place(1, [1]), pc) == Kg();
    assert I.CopyElems(f, Direct(Pair()), Pair(), PairSlots(), 2, Kg()) == Filled(Kg());
    assert I.CopyElems(f, Direct(Pair()), Pair(), PairSlots(), 1, Ke()) == Filled(Kg());
  }

  /** DeepCopy(s) under the corrected copier: c.P == &c.A[0], so a write
      through c.A[0] is seen through c.P, as s.P == &s.A[0]. */
  lemma SliceElemPointerKept(fuel: nat, heap: State)
    requires fuel >= 4 && heap == ItemHeap()
    ensures var a := I.DeepCopy(fuel, Some(Pair()), heap);
      a.Answer? && a.i == Some(PairKept()) &&
      PairKept().fields[0].v.hdr.value.cells == [2] &&
      PairKept().fields[1].v.target == Some(Root(2)) &&
      2 in a.st.cells && a.st.cells[2] == ItemOne()
  {
    ZeroOfItem();
    var st0 := heap.(visited := map[]);
    assert st0 == heap;
    var sh := NewShell(Pair(), st0);
    assert sh == Shell(1, PairSlots(), 0, Sa());
    assert I.Enroll(Direct(Pair()), Pair(), sh) == Sa();
    ItemFields(fuel - 1);
    assert I.Fill(fuel - 1, Direct(Pair()), Pair(), 1, PairSlots(), 0, Sa()) == Filled(Kg());
    assert I.CopyComposite(fuel - 1, Direct(Pair()), Pair(), st0) == Done(At(Root(1)), Kg());
    assert I.Copy(fuel, Direct(Pair()), st0) == Done(At(Root(1)), Kg());
  }

  // ---------------------------------------------------------------------
  //   var i interface{} = 7
  //   s := struct { P, Q *interface{} }{&i, &i}
  // DeepCopy(s): the copy's P and Q share one box.

  /** The copy: P and Q both aim at the box in cell 3. */
  function TwoShared(): Value {
    Struct("S", [Field(true, Ptr("*interface{}", Some(Root(3)))), Field(true, Ptr("*interface{}", Some(Root(3))))])
  }
  function KeyBox(): Visit { Visit(Addr(0, []), "interface{}") }

  // The states the corrected copy passes through, from Exhibits.Ba on.
  function Ca(): State {
    Ba().(cells := Ba().cells[2 := Ptr("*interface{}", Some(Root(3)))][3 := BoxSeven()], nextLoc := 4,
          visited := map[KeyBox() := At(Root(3))])
  }
  function Cb(): State {
    Ca().(cells := Ca().cells[1 := Struct("S", [Field(true, Ptr("*interface{}", Some(Root(3)))),
                                               Field(true, Ptr("*interface{}", None))])])
  }
  function Cc(): State { Cb().(cells := Cb().cells[4 := Ptr("*interface{}", Some(Root(3)))], nextLoc := 5) }
  function Cd(): State { Cc().(cells := Cc().cells[1 := TwoShared()]) }

  /** Field P: i is registered for its new box, cell 3. */
  lemma BoxFirstStep(f: nat)
    requires f >= 3
    ensures I.Copy(f, Direct(PtrBox()), Ba()) == Done(At(Root(2)), Ca())
  {
    var pv := PtrBox();
    var seven := Atomic("int", Int, 7);
    var st1 := Alloc(Ba(), Ptr("*interface{}", None));
    var sh := Shell(2, [], 0, st1);
    assert NewShell(pv, Ba()) == sh && I.Enroll(Direct(pv), pv, sh) == st1;
    assert I.Relocated(st1, Root(0)) == None;
    assert KeyOf(Root(0), BoxSeven()) == KeyBox();
    var st2 := Alloc(st1, Iface("interface{}", None)).(visited := map[KeyBox() := At(Root(3))]);
    assert I.Copy(f - 2, Direct(seven), st2) == Done(Direct(seven), st2);
    var st3 := Store(st2, Root(3), BoxSeven());
    assert I.CopyIface(f - 2, At(Root(0)), BoxSeven(), st1) == Done(At(Root(3)), st3);
    assert I.Copy(f - 1, At(Root(0)), st1) == Done(At(Root(3)), st3);
    assert Store(st3, Root(2), Ptr("*interface{}", Some(Root(3)))) == Ca();
    assert I.Fill(f - 1, Direct(pv), pv, 2, [], 0, st1) == Filled(Ca());
  }

  /** Field Q: i's cell is registered for cell 3, so Q's copy aims there. */
  lemma BoxSecondStep(f: nat)
    requires f >= 1
    ensures I.Copy(f, Direct(PtrBox()), Cb()) == Done(At(Root(4)), Cc())
  {
    var pv := PtrBox();
    var st1 := Alloc(Cb(), Ptr("*interface{}", None));
    var sh := Shell(4, [], 0, st1);
    assert NewShell(pv, Cb()) == sh && I.Enroll(Direct(pv), pv, sh) == st1;
    assert KeyOf(Root(0), BoxSeven()) == KeyBox();
    assert I.Relocated(st1, Root(0)) == Some(3);
    assert Store(st1, Root(4), Ptr("*interface{}", Some(Place(3, [])))) == Cc();
    assert I.Fill(f - 1, Direct(pv), pv, 4, [], 0, st1) == Filled(Cc());
  }

  /** The fields P and Q, copied into the shell in cell 1. */
  lemma SharedFields(f: nat)
    requires f >= 3
    ensures I.CopyElems(f, Direct(TwoPtrs()), TwoPtrs(), TwoSlots(), 0, Ba()) == Filled(Cd())
  {
    assert [0][1..] == [] && [1][1..] == [];
    var p3 := Ptr("*interface{}", Some(Root(3)));
    BoxFirstStep(f);
    assert Put(TwoZero(), [0], p3) == Cb().cells[1];
    assert Store(Ca(), Place(1, [0]), p3) == Cb();
    BoxSecondStep(f);
    assert Put(Cb().cells[1], [1], p3) == TwoShared();
    assert Store(Cc(), Place(1, [1]), p3) == Cd();
    assert I.CopyElems(f, Direct(TwoPtrs()), TwoPtrs(), TwoSlots(), 2, Cd()) == Filled(Cd());
    assert I.CopyElems(f, Direct(TwoPtrs()), TwoPtrs(), TwoSlots(), 1, Cb()) == Filled(Cd());
  }

  /** DeepCopy(s) under the corrected copier: c.P == c.Q, so a write
      through c.P is seen through c.Q, as s.P == s.Q == &i. */
  lemma SharedBoxKept(fuel: nat, heap: State)
    requires fuel >= 4 && heap == BoxHeap()
    ensures var a := I.DeepCopy(fuel, Some(TwoPtrs()), heap);
      var box8 := Iface("interface{}", Some(Atomic("int", Int, 8)));
      a.Answer? && a.i == Some(TwoShared()) &&
      TwoShared().fields[0].v.target == TwoShared().fields[1].v.target &&
      Load(Store(a.st, Root(3), box8), At(TwoShared().fields[1].v.target.value)) == Some(box8)
  {
    var st0 := heap.(visited := map[]);
    assert st0 == heap;
    assert ZeroLike(TwoPtrs()) == TwoZero();
    var sh := NewShell(TwoPtrs(), st0);
    assert sh == Shell(1, TwoSlots(), 0, Ba());
    assert I.Enroll(Direct(TwoPtrs()), TwoPtrs(), sh) == Ba();
    SharedFields(fuel - 1);
    assert I.Fill(fuel - 1, Direct(TwoPtrs()), TwoPtrs(), 1, TwoSlots(), 0, Ba()) == Filled(Cd());
    assert I.CopyComposite(fuel - 1, Direct(TwoPtrs()), TwoPtrs(), st0) == Done(At(Root(1)), Cd());
    assert I.Copy(fuel, Direct(TwoPtrs()), st0) == Done(At(Root(1)), Cd());
  }
}
