/**
 * What the copy holds (deepcopy.go lines 55-74 and 78-83): atomic elements,
 * fields and map values arrive unchanged, a pointer aims at the memoised
 * copy of its pointee, and an interface box holds the copy of its dynamic
 * value.
 */
module Content {
  import opened Values
  import opened Memory
  import opened DeepCopy
  import opened Frame
  import opened Memo
  import opened Shape

  /** Setting slot i after a nested copy leaves every later slot and every
      later source element reading as before the copy. */
  lemma SlotStoreKeeps(st: State, st1: State, src: Handle, v: Value, slots: seq<Place>, i: nat, x: Value, base: Loc)
    requires |slots| == Count(v) && i < |slots| && base <= st.nextLoc
    requires Grows(st, st1, st.nextLoc, st.nextTid)
    requires forall j :: i <= j < |slots| ==>
      base <= slots[j].loc < st.nextLoc && |slots[j].path| <= 1 && Load(st, At(slots[j])).Some?
    requires forall j, k :: i <= j < k < |slots| ==> Separate(slots[j], slots[k])
    requires forall j :: i <= j < |slots| && Child(src, v, j).At? ==>
      Child(src, v, j).p.loc in st.cells && Child(src, v, j).p.loc < base
    ensures forall j :: i < j < |slots| ==>
      Load(Store(st1, slots[i], x), At(slots[j])) == Load(st, At(slots[j]))
    ensures forall j :: i < j < |slots| && Child(src, v, j).At? ==>
      Load(Store(st1, slots[i], x), Child(src, v, j)) == Load(st, Child(src, v, j))
  {
    forall j | i < j < |slots|
      ensures Load(Store(st1, slots[i], x), At(slots[j])) == Load(st, At(slots[j]))
    {
      StoreSeparate(st1, slots[j], slots[i], x);
    }
    forall j | i < j < |slots| && Child(src, v, j).At?
      ensures Load(Store(st1, slots[i], x), Child(src, v, j)) == Load(st, Child(src, v, j))
    {
      StoreSeparate(st1, Child(src, v, j).p, slots[i], x);
    }
  }

  /** The copy of an atomic child is the child itself (line 28), so the
      element loops store every atomic source element unchanged in its slot. */
  lemma {:induction false} ElemsCopyAtomics(fuel: nat, src: Handle, v: Value, slots: seq<Place>, i: nat, st: State, base: Loc)
    requires |slots| == Count(v) && i <= |slots| && base <= st.nextLoc
    requires CopyElems(fuel, src, v, slots, i, st).Filled?
    requires forall j :: i <= j < |slots| ==>
      base <= slots[j].loc < st.nextLoc && |slots[j].path| <= 1 && Load(st, At(slots[j])).Some?
    requires forall j, k :: i <= j < k < |slots| ==> Separate(slots[j], slots[k])
    requires forall j :: i <= j < |slots| && Child(src, v, j).At? ==>
      Child(src, v, j).p.loc in st.cells && Child(src, v, j).p.loc < base
    ensures var st' := CopyElems(fuel, src, v, slots, i, st).st;
      forall j :: (i <= j < |slots| && Settable(v, j) && Load(st, Child(src, v, j)).Some? &&
                   Load(st, Child(src, v, j)).value.Atomic?) ==>
        Load(st', At(slots[j])) == Load(st, Child(src, v, j))
    decreases |slots| - i
  {
    if i < |slots| {
      if !Settable(v, i) {
        ElemsCopyAtomics(fuel, src, v, slots, i + 1, st, base);
      } else {
        var c := Child(src, v, i);
        var o := Copy(fuel, c, st);
        CopyGrows(fuel, c, st);
        var x := Load(o.st, o.h).value;
        var st2 := Store(o.st, slots[i], x);
        assert CopyElems(fuel, src, v, slots, i, st) == CopyElems(fuel, src, v, slots, i + 1, st2);
        SlotStoreKeeps(st, o.st, src, v, slots, i, x, base);
        ElemsCopyAtomics(fuel, src, v, slots, i + 1, st2, base);
        // slot i itself
        if Load(st, c).Some? && Load(st, c).value.Atomic? {
          assert o == Done(c, st);
          StoreLoad(st, slots[i], x);
          ElemsKeepPlace(fuel, src, v, slots, i + 1, st2, slots[i]);
        }
      }
    }
  }

  /** The map loop binds no key outside the ones still to do, and nested
      copies never touch an existing table. */
  lemma {:induction false} EntriesKeepKey(fuel: nat, src: map<Key, Value>, table: Tid, todo: set<Key>, st: State, k: Key)
    requires todo <= src.Keys && k !in todo
    requires table in st.tables && table < st.nextTid && k in st.tables[table]
    requires CopyEntries(fuel, src, table, todo, st).Filled?
    ensures var st' := CopyEntries(fuel, src, table, todo, st).st;
      table in st'.tables && table < st'.nextTid && k in st'.tables[table] &&
      st'.tables[table][k] == st.tables[table][k]
    decreases |todo|
  {
    if todo != {} {
      var k0 := Least(todo);
      var o := Copy(fuel, Direct(src[k0]), st);
      CopyGrows(fuel, Direct(src[k0]), st);
      var st2 := SetMapIndex(o.st, table, k0, Load(o.st, o.h).value);
      EntriesKeepKey(fuel, src, table, todo - {k0}, st2, k);
    }
  }

  /** Every key still to do whose source value is atomic ends up bound to
      that same value. */
  lemma {:induction false} EntriesCopyAtomics(fuel: nat, src: map<Key, Value>, table: Tid, todo: set<Key>, st: State)
    requires todo <= src.Keys
    requires table in st.tables && table < st.nextTid
    requires CopyEntries(fuel, src, table, todo, st).Filled?
    ensures var st' := CopyEntries(fuel, src, table, todo, st).st;
      table in st'.tables &&
      forall k :: k in todo && src[k].Atomic? ==> k in st'.tables[table] && st'.tables[table][k] == src[k]
    decreases |todo|
  {
    if todo != {} {
      var k0 := Least(todo);
      var o := Copy(fuel, Direct(src[k0]), st);
      CopyGrows(fuel, Direct(src[k0]), st);
      var st2 := SetMapIndex(o.st, table, k0, Load(o.st, o.h).value);
      EntriesCopyAtomics(fuel, src, table, todo - {k0}, st2);
      if src[k0].Atomic? {
        assert o == Done(Direct(src[k0]), st);
        EntriesKeepKey(fuel, src, table, todo - {k0}, st2, k0);
      }
    }
  }

  /** Lines 56-59 for a non-nil slice: element j of the copy, in the copy's
      own fresh backing cell, holds the source's element j whenever that
      element is atomic. */
  lemma SliceElemsCopied(fuel: nat, h: Handle, st: State)
    requires WellFormed(st)
    requires Load(st, h).Some? && Load(st, h).value.Slice? && Load(st, h).value.hdr.Some?
    requires forall j :: 0 <= j < |Load(st, h).value.hdr.value.cells| ==> Load(st, h).value.hdr.value.cells[j] in st.cells
    requires h.Direct? || KeyOf(h.p, Load(st, h).value) !in st.visited
    requires Copy(fuel, h, st).Done?
    ensures var cs := Load(st, h).value.hdr.value.cells;
      var o := Copy(fuel, h, st);
      ShapedResult(Load(st, h).value, st, o) &&
      forall j :: 0 <= j < |cs| && st.cells[cs[j]].Atomic? ==>
        Load(o.st, At(Root(o.st.cells[o.h.p.loc].hdr.value.cells[j]))) == Some(st.cells[cs[j]])
  {
    var v := Load(st, h).value;
    assert Copy(fuel, h, st) == CopyComposite(fuel - 1, h, v, st);
    CopyShape(fuel, h, st);
    SliceFill(fuel - 1, h, v, st);
  }

  /** SliceElemsCopied, one level down: the shell is the header of fresh
      cells st.nextLoc, st.nextLoc + 1, ..., and each holds its atomic
      source element. */
  lemma SliceFill(f: nat, h: Handle, v: Value, st: State)
    requires WellFormed(st) && v.Slice? && v.hdr.Some?
    requires forall j :: 0 <= j < |v.hdr.value.cells| ==> v.hdr.value.cells[j] in st.cells
    requires h.Direct? || KeyOf(h.p, v) !in st.visited
    requires CopyComposite(f, h, v, st).Done?
    ensures var cs := v.hdr.value.cells;
      var o := CopyComposite(f, h, v, st);
      o.h.At? && o.h.p.loc in o.st.cells &&
      o.st.cells[o.h.p.loc] == Slice(v.t, Some(Header(v.hdr.value.cap, Run(st.nextLoc, |cs|)))) &&
      forall j :: 0 <= j < |cs| && st.cells[cs[j]].Atomic? ==>
        Load(o.st, At(Root(st.nextLoc + j))) == Some(st.cells[cs[j]])
  {
    MissFills(f, h, v, st);
    var sh := NewShell(v, st);
    NewShellFresh(v, st);
    SliceShell(v, st);
    var st2 := Register(h, v, sh);
    assert Fill(f, h, v, sh.loc, sh.slots, sh.table, st2) == CopyElems(f, h, v, sh.slots, 0, st2);
    SliceElemsSlots(f, h, v, sh, st2, st.nextLoc);
    ElemsKeepPlace(f, h, v, sh.slots, 0, st2, Root(sh.loc));
  }

  /** The loop over the fresh slots of a slice shell. */
  lemma SliceElemsSlots(f: nat, h: Handle, v: Value, sh: Shell, st2: State, base: Loc)
    requires v.Slice? && v.hdr.Some? && |sh.slots| == |v.hdr.value.cells| && base <= st2.nextLoc
    requires forall j :: 0 <= j < |sh.slots| ==>
      sh.slots[j] == Root(base + j) && sh.slots[j].loc in st2.cells && sh.slots[j].loc < st2.nextLoc
    requires forall j :: 0 <= j < |sh.slots| ==> v.hdr.value.cells[j] in st2.cells && v.hdr.value.cells[j] < base
    requires CopyElems(f, h, v, sh.slots, 0, st2).Filled?
    ensures var st' := CopyElems(f, h, v, sh.slots, 0, st2).st;
      forall j :: 0 <= j < |sh.slots| && st2.cells[v.hdr.value.cells[j]].Atomic? ==>
        Load(st', At(sh.slots[j])) == Some(st2.cells[v.hdr.value.cells[j]])
  {
    var cs := v.hdr.value.cells;
    ElemsCopyAtomics(f, h, v, sh.slots, 0, st2, base);
    forall j | 0 <= j < |sh.slots| && st2.cells[cs[j]].Atomic?
      ensures Load(st2, Child(h, v, j)) == Some(st2.cells[cs[j]]) && Settable(v, j)
    {
      assert Child(h, v, j) == At(Root(cs[j]));
    }
  }

  /** Lines 56-59 and 68-73 for an array or struct: every settable element
      of the copy whose source element is atomic holds that element; the
      unexported fields keep their zero value. */
  lemma InlineElemsCopied(fuel: nat, h: Handle, st: State)
    requires WellFormed(st)
    requires Load(st, h).Some? && (Load(st, h).value.Array? || Load(st, h).value.Struct?)
    requires h.Direct? || KeyOf(h.p, Load(st, h).value) !in st.visited
    requires Copy(fuel, h, st).Done?
    ensures var v := Load(st, h).value;
      var o := Copy(fuel, h, st);
      ShapedResult(v, st, o) &&
      forall j :: 0 <= j < Count(v) && Settable(v, j) && Load(st, Child(h, v, j)).Some? &&
                  Load(st, Child(h, v, j)).value.Atomic? ==>
        Sub(o.st.cells[o.h.p.loc], [j]) == Load(st, Child(h, v, j))
  {
    var v := Load(st, h).value;
    var f := fuel - 1;
    assert Copy(fuel, h, st) == CopyComposite(f, h, v, st);
    CopyShape(fuel, h, st);
    MissFills(f, h, v, st);
    var sh := NewShell(v, st);
    NewShellFresh(v, st);
    var st2 := Register(h, v, sh);
    var s := sh.loc;
    assert s == st.nextLoc && st2.cells[s] == ZeroLike(v) && s < st2.nextLoc;
    assert Fill(f, h, v, sh.loc, sh.slots, sh.table, st2) == CopyElems(f, h, v, sh.slots, 0, st2);
    forall j | 0 <= j < Count(v)
      ensures sh.slots[j] == Place(s, [j]) && Load(st2, At(sh.slots[j])).Some?
    {
      ZeroSub(v, j);
    }
    forall j | 0 <= j < Count(v) && Child(h, v, j).At?
      ensures Child(h, v, j).p.loc in st2.cells && Child(h, v, j).p.loc < st.nextLoc
    {
    }
    ElemsCopyAtomics(f, h, v, sh.slots, 0, st2, st.nextLoc);
    forall j | 0 <= j < Count(v) && Child(h, v, j).At?
      ensures Load(st2, Child(h, v, j)) == Load(st, Child(h, v, j))
    {
    }
  }

  /** Every element of the zero value of an array or struct exists. */
  lemma ZeroSub(v: Value, j: nat)
    requires (v.Array? || v.Struct?) && j < Count(v)
    ensures Sub(ZeroLike(v), [j]).Some?
  {
    assert [j][1..] == [];
  }

  /** Lines 60-63: the new table binds each atomic source value to its own
      key, unchanged. */
  lemma MapValuesCopied(fuel: nat, h: Handle, st: State)
    requires WellFormed(st)
    requires Load(st, h).Some? && Load(st, h).value.Map? && Load(st, h).value.table.Some?
    requires Load(st, h).value.table.value in st.tables
    requires h.Direct? || KeyOf(h.p, Load(st, h).value) !in st.visited
    requires Copy(fuel, h, st).Done?
    ensures var src := st.tables[Load(st, h).value.table.value];
      var o := Copy(fuel, h, st);
      ShapedResult(Load(st, h).value, st, o) &&
      var copy := o.st.tables[o.st.cells[o.h.p.loc].table.value];
      copy.Keys == src.Keys &&
      forall k :: k in src && src[k].Atomic? ==> copy[k] == src[k]
  {
    var v := Load(st, h).value;
    var f := fuel - 1;
    var id := v.table.value;
    assert Copy(fuel, h, st) == CopyComposite(f, h, v, st);
    CopyShape(fuel, h, st);
    MissFills(f, h, v, st);
    var sh := NewShell(v, st);
    NewShellFresh(v, st);
    var st2 := Register(h, v, sh);
    assert st2.tables[id] == st.tables[id];
    assert sh.table == st.nextTid && sh.table in st2.tables && sh.table < st2.nextTid;
    assert st2.tables[sh.table] == map[] && st2.cells[sh.loc] == Map(v.t, Some(sh.table));
    assert Fill(f, h, v, sh.loc, sh.slots, sh.table, st2) == CopyEntries(f, st2.tables[id], sh.table, st2.tables[id].Keys, st2);
    EntriesGrows(f, st2.tables[id], sh.table, st2.tables[id].Keys, st2, sh.table);
    EntriesKeys(f, st2.tables[id], sh.table, st2.tables[id].Keys, st2);
    EntriesCopyAtomics(f, st2.tables[id], sh.table, st2.tables[id].Keys, st2);
  }

  /** Lines 64-67: a non-nil pointer whose pointee is an array, map, pointer,
      slice or struct is copied to a pointer at the copy the memo holds for
      the pointee, so every pointer to that pointee is copied to a pointer to
      one and the same copy. */
  lemma PointerToMemoisedCopy(fuel: nat, h: Handle, st: State)
    requires WellFormed(st)
    requires Load(st, h).Some? && Load(st, h).value.Ptr? && Load(st, h).value.target.Some?
    requires h.Direct? || KeyOf(h.p, Load(st, h).value) !in st.visited
    requires Load(st, At(Load(st, h).value.target.value)).Some?
    requires IsComposite(Load(st, At(Load(st, h).value.target.value)).value)
    requires Copy(fuel, h, st).Done?
    ensures var q := Load(st, h).value.target.value;
      var key := KeyOf(q, Load(st, At(q)).value);
      var o := Copy(fuel, h, st);
      ShapedResult(Load(st, h).value, st, o) &&
      key in o.st.visited && o.st.visited[key].At? &&
      o.st.cells[o.h.p.loc] == Ptr(Load(st, h).value.t, Some(o.st.visited[key].p))
  {
    var v := Load(st, h).value;
    var q := v.target.value;
    var f := fuel - 1;
    assert Copy(fuel, h, st) == CopyComposite(f, h, v, st);
    CopyShape(fuel, h, st);
    MissFills(f, h, v, st);
    var sh := NewShell(v, st);
    NewShellFresh(v, st);
    var st2 := Register(h, v, sh);
    assert Load(st2, At(q)) == Load(st, At(q));
    var o1 := Copy(f, At(q), st2);
    assert o1.Done? && o1.h.At?;
    CopyRegistered(f, q, st2);
    assert CopyComposite(f, h, v, st).st == Store(o1.st, Root(sh.loc), Ptr(v.t, Some(o1.h.p)));
  }

  /** Lines 64-67 with an atomic pointee: the pointee's copy is the pointee
      itself (line 28), so the copied pointer aims at the source's own
      storage and the copy shares it with the original. */
  lemma PointerToAtomicShared(fuel: nat, h: Handle, st: State)
    requires WellFormed(st)
    requires Load(st, h).Some? && Load(st, h).value.Ptr? && Load(st, h).value.target.Some?
    requires h.Direct? || KeyOf(h.p, Load(st, h).value) !in st.visited
    requires Load(st, At(Load(st, h).value.target.value)).Some?
    requires Load(st, At(Load(st, h).value.target.value)).value.Atomic?
    requires Copy(fuel, h, st).Done?
    ensures var o := Copy(fuel, h, st);
      ShapedResult(Load(st, h).value, st, o) &&
      o.st.cells[o.h.p.loc] == Load(st, h).value
  {
    var v := Load(st, h).value;
    var q := v.target.value;
    var f := fuel - 1;
    assert Copy(fuel, h, st) == CopyComposite(f, h, v, st);
    CopyShape(fuel, h, st);
    MissFills(f, h, v, st);
    var sh := NewShell(v, st);
    NewShellFresh(v, st);
    var st2 := Register(h, v, sh);
    assert Load(st2, At(q)) == Load(st, At(q));
    assert f > 0;
    assert Copy(f, At(q), st2) == Done(At(q), st2);
    assert CopyComposite(f, h, v, st).st == Store(st2, Root(sh.loc), v);
  }

  /** Lines 64-67 with an interface pointee (`new(interface{})`): the box
      is not memoised, so the copied pointer aims at a fresh box of the
      pointee's type that holds the copy of the dynamic value, as BoxCopied
      describes it. */
  lemma PointerToBox(fuel: nat, h: Handle, st: State)
    requires WellFormed(st)
    requires Load(st, h).Some? && Load(st, h).value.Ptr? && Load(st, h).value.target.Some?
    requires h.Direct? || KeyOf(h.p, Load(st, h).value) !in st.visited
    requires Load(st, At(Load(st, h).value.target.value)).Some?
    requires var b := Load(st, At(Load(st, h).value.target.value)).value;
      b.Iface? && (b.dyn.Some? && b.dyn.value.Map? && b.dyn.value.table.Some? ==> b.dyn.value.table.value in st.tables)
    requires Copy(fuel, h, st).Done?
    ensures var v := Load(st, h).value;
      var b := Load(st, At(v.target.value)).value;
      var o := Copy(fuel, h, st);
      ShapedResult(v, st, o) &&
      var r := o.st.cells[o.h.p.loc].target.value;
      o.st.cells[o.h.p.loc] == Ptr(v.t, Some(r)) &&
      r.path == [] && st.nextLoc <= r.loc && r.loc != o.h.p.loc && r.loc in o.st.cells &&
      var box := o.st.cells[r.loc];
      box.Iface? && box.t == b.t && box.dyn.Some? == b.dyn.Some? &&
      (b.dyn.Some? && b.dyn.value.Atomic? ==> box.dyn.value == b.dyn.value) &&
      (b.dyn.Some? && IsComposite(b.dyn.value) ==> Shaped(b.dyn.value, box.dyn.value, st, o.st)) &&
      fuel >= 2 &&
      (b.dyn.Some? ==>
         var o1 := Copy(fuel - 2, Direct(b.dyn.value), Alloc(Register(h, v, NewShell(v, st)), Iface(b.t, None)));
         o1.Done? && Load(o1.st, o1.h).Some? && box.dyn == Some(Load(o1.st, o1.h).value))
  {
    var v := Load(st, h).value;
    var q := v.target.value;
    var b := Load(st, At(q)).value;
    var f := fuel - 1;
    assert Copy(fuel, h, st) == CopyComposite(f, h, v, st);
    CopyShape(fuel, h, st);
    MissFills(f, h, v, st);
    var sh := NewShell(v, st);
    NewShellFresh(v, st);
    var st2 := Register(h, v, sh);
    assert Load(st2, At(q)) == Load(st, At(q));
    var o1 := Copy(f, At(q), st2);
    assert o1.Done? && o1.h.At?;
    IfaceNeverMemoised(f, q, st2);
    BoxCopied(f, b, st2);
    var st3 := Store(o1.st, Root(sh.loc), Ptr(v.t, Some(o1.h.p)));
    assert CopyComposite(f, h, v, st).st == st3;
    if b.dyn.Some? && IsComposite(b.dyn.value) {
      ShapedFromEarlier(b.dyn.value, o1.st.cells[o1.h.p.loc].dyn.value, st, st2, o1.st, st3);
    }
  }

  /** Lines 78-83: the copy of a box is a fresh box of the same type; a nil
      box stays nil, a non-nil one holds the copy of its dynamic value,
      which is that value itself when it is atomic and a fresh value of its
      shape when it is composite. */
  lemma BoxCopied(fuel: nat, v: Value, st: State)
    requires WellFormed(st) && v.Iface?
    requires v.dyn.Some? && v.dyn.value.Map? && v.dyn.value.table.Some? ==> v.dyn.value.table.value in st.tables
    requires Copy(fuel, Direct(v), st).Done?
    ensures var o := Copy(fuel, Direct(v), st);
      o.h.At? && o.h.p.path == [] && st.nextLoc <= o.h.p.loc && o.h.p.loc in o.st.cells &&
      var box := o.st.cells[o.h.p.loc];
      box.Iface? && box.t == v.t && box.dyn.Some? == v.dyn.Some? &&
      (v.dyn.Some? && v.dyn.value.Atomic? ==> box.dyn.value == v.dyn.value) &&
      (v.dyn.Some? && IsComposite(v.dyn.value) ==> Shaped(v.dyn.value, box.dyn.value, st, o.st)) &&
      o.h.p.loc == st.nextLoc &&
      (v.dyn.Some? ==>
         var o1 := Copy(fuel - 1, Direct(v.dyn.value), Alloc(st, Iface(v.t, None)));
         o1.Done? && Load(o1.st, o1.h).Some? && box.dyn == Some(Load(o1.st, o1.h).value) &&
         o.st == Store(o1.st, Root(st.nextLoc), box))
  {
    var f := fuel - 1;
    assert Copy(fuel, Direct(v), st) == CopyIface(f, v, st);
    if v.dyn.Some? {
      var d := v.dyn.value;
      var st1 := Alloc(st, Iface(v.t, None));
      var o := Copy(f, Direct(d), st1);
      CopyGrows(f, Direct(d), st1);
      if IsComposite(d) {
        CopyShape(f, Direct(d), st1);
        var x := Load(o.st, o.h).value;
        ShapedFromEarlier(d, x, st, st1, o.st, Store(o.st, Root(st.nextLoc), Iface(v.t, Some(x))));
      }
    }
  }

  /** Shape is judged by the start state's marks and tables and the end
      state's tables: a later start with the same tables, and an end that
      differs only in its cells, judge alike. */
  lemma ShapedFromEarlier(d: Value, w: Value, st: State, st1: State, st': State, st'': State)
    requires Shaped(d, w, st1, st')
    requires st.nextLoc <= st1.nextLoc && st.nextTid <= st1.nextTid && st.tables == st1.tables
    requires st''.tables == st'.tables
    ensures Shaped(d, w, st, st'')
  {
  }

  /** Lines 12-14: nil in, nil out, with nothing allocated. */
  lemma NilInNilOut(fuel: nat, heap: State)
    ensures DeepCopy.DeepCopy(fuel, None, heap) == Answer(None, heap)
  {
  }
}
