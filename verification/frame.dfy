/**
 * What a copy may change. A copy writes only into storage it allocated
 * itself: every cell and table that existed before keeps its contents, so
 * the source value is never modified, and the memo only gains entries.
 */
module Frame {
  import opened Values
  import opened Memory
  import opened DeepCopy

  /** st' extends st: allocation marks and domains only grow, the cells
      below base and the tables below tbase are untouched, and every memo
      entry of st is still there with the same copy. */
  ghost predicate Grows(st: State, st': State, base: Loc, tbase: Tid) {
    st.nextLoc <= st'.nextLoc && st.nextTid <= st'.nextTid &&
    st.cells.Keys <= st'.cells.Keys && st.tables.Keys <= st'.tables.Keys &&
    (forall l :: l in st.cells && l < base ==> st'.cells[l] == st.cells[l]) &&
    (forall id :: id in st.tables && id < tbase ==> st'.tables[id] == st.tables[id]) &&
    (forall k :: k in st.visited ==> k in st'.visited && st'.visited[k] == st.visited[k])
  }

  lemma GrowsRefl(st: State, base: Loc, tbase: Tid)
    ensures Grows(st, st, base, tbase)
  {
  }

  lemma GrowsTrans(a: State, b: State, c: State, base: Loc, tbase: Tid, base': Loc, tbase': Tid)
    requires Grows(a, b, base, tbase) && Grows(b, c, base', tbase')
    requires base <= base' && tbase <= tbase'
    ensures Grows(a, c, base, tbase)
  {
  }

  lemma AllocGrows(st: State, v: Value)
    ensures Grows(st, Alloc(st, v), st.nextLoc, st.nextTid)
  {
  }

  lemma AllocRunGrows(st: State, zeros: seq<Value>)
    ensures Grows(st, AllocRun(st, zeros), st.nextLoc, st.nextTid)
  {
  }

  lemma AllocTableGrows(st: State)
    ensures Grows(st, AllocTable(st), st.nextLoc, st.nextTid)
  {
  }

  lemma StoreGrows(st: State, p: Place, x: Value, base: Loc, tbase: Tid)
    requires base <= p.loc
    ensures Grows(st, Store(st, p, x), base, tbase)
  {
  }

  lemma SetMapIndexGrows(st: State, id: Tid, k: Key, x: Value, base: Loc, tbase: Tid)
    requires tbase <= id
    ensures Grows(st, SetMapIndex(st, id, k, x), base, tbase)
  {
  }

  lemma RegisterGrows(st: State, k: Visit, h: Handle, base: Loc, tbase: Tid)
    requires k !in st.visited
    ensures Grows(st, st.(visited := st.visited[k := h]), base, tbase)
  {
  }

  /** The shell and its storage lie at or above the marks it started from. */
  lemma NewShellFresh(v: Value, st: State)
    requires IsComposite(v)
    ensures var sh := NewShell(v, st);
      Grows(st, sh.st, st.nextLoc, st.nextTid) &&
      sh.st.visited == st.visited &&
      st.nextLoc <= sh.loc < sh.st.nextLoc && st.nextTid <= sh.table &&
      (forall j :: 0 <= j < |sh.slots| ==> st.nextLoc <= sh.slots[j].loc)
  {
    match v
    case Slice(t, Some(hd)) =>
      var n := |hd.cells|;
      var zeros := seq(n, i requires 0 <= i < n => ZeroAt(st, hd.cells[i]));
      var st1 := AllocRun(st, zeros);
      AllocRunGrows(st, zeros);
      assert forall j :: 0 <= j < n ==> NewShell(v, st).slots[j] == Root(st.nextLoc + j);
      AllocGrows(st1, Slice(t, Some(Header(hd.cap, Run(st.nextLoc, n)))));
      GrowsTrans(st, st1, NewShell(v, st).st, st.nextLoc, st.nextTid, st1.nextLoc, st1.nextTid);
    case Map(t, Some(_)) =>
      var st1 := AllocTable(st);
      AllocTableGrows(st);
      AllocGrows(st1, Map(t, Some(st.nextTid)));
      GrowsTrans(st, st1, NewShell(v, st).st, st.nextLoc, st.nextTid, st1.nextLoc, st1.nextTid);
    case _ =>
      AllocGrows(st, ZeroLike(v));
  }

  /** A successful copy leaves every pre-existing cell and table as it was
      and keeps every memo entry. */
  lemma {:induction false} CopyGrows(fuel: nat, h: Handle, st: State)
    requires Copy(fuel, h, st).Done?
    ensures Grows(st, Copy(fuel, h, st).st, st.nextLoc, st.nextTid)
    decreases fuel, 0
  {
    var v := Load(st, h).value;
    if v.Atomic? {
      GrowsRefl(st, st.nextLoc, st.nextTid);
    } else if IsComposite(v) {
      CompositeGrows(fuel - 1, h, v, st);
    } else {
      IfaceGrows(fuel - 1, v, st);
    }
  }

  lemma {:induction false} IfaceGrows(fuel: nat, v: Value, st: State)
    requires v.Iface? && CopyIface(fuel, v, st).Done?
    ensures Grows(st, CopyIface(fuel, v, st).st, st.nextLoc, st.nextTid)
    decreases fuel, 3
  {
    var shell := st.nextLoc;
    var st1 := Alloc(st, Iface(v.t, None));
    AllocGrows(st, Iface(v.t, None));
    if v.dyn.Some? {
      var o := Copy(fuel, Direct(v.dyn.value), st1);
      CopyGrows(fuel, Direct(v.dyn.value), st1);
      GrowsTrans(st, st1, o.st, st.nextLoc, st.nextTid, st1.nextLoc, st1.nextTid);
      var x := Load(o.st, o.h).value;
      StoreGrows(o.st, Root(shell), Iface(v.t, Some(x)), st.nextLoc, st.nextTid);
      GrowsTrans(st, o.st, CopyIface(fuel, v, st).st, st.nextLoc, st.nextTid, st.nextLoc, st.nextTid);
    }
  }

  lemma {:induction false} CompositeGrows(fuel: nat, h: Handle, v: Value, st: State)
    requires IsComposite(v) && CopyComposite(fuel, h, v, st).Done?
    ensures Grows(st, CopyComposite(fuel, h, v, st).st, st.nextLoc, st.nextTid)
    decreases fuel, 3
  {
    var sh := NewShell(v, st);
    NewShellFresh(v, st);
    if h.At? && KeyOf(h.p, v) in sh.st.visited {
    } else {
      var st2 := Register(h, v, sh);
      if h.At? {
        RegisterGrows(sh.st, KeyOf(h.p, v), At(Root(sh.loc)), st.nextLoc, st.nextTid);
      } else {
        GrowsRefl(sh.st, st.nextLoc, st.nextTid);
      }
      GrowsTrans(st, sh.st, st2, st.nextLoc, st.nextTid, st.nextLoc, st.nextTid);
      FillGrows(fuel, h, v, sh.loc, sh.slots, sh.table, st2, st.nextLoc, st.nextTid);
      GrowsTrans(st, st2, CopyComposite(fuel, h, v, st).st, st.nextLoc, st.nextTid, st.nextLoc, st.nextTid);
    }
  }

  lemma {:induction false} FillGrows(fuel: nat, h: Handle, v: Value, shell: Loc, slots: seq<Place>, table: Tid,
                                     st: State, base: Loc, tbase: Tid)
    requires IsComposite(v) && |slots| == Count(v)
    requires base <= shell && tbase <= table && base <= st.nextLoc && tbase <= st.nextTid
    requires forall j :: 0 <= j < |slots| ==> base <= slots[j].loc
    requires Fill(fuel, h, v, shell, slots, table, st).Filled?
    ensures Grows(st, Fill(fuel, h, v, shell, slots, table, st).st, base, tbase)
    decreases fuel, 2
  {
    var st' := Fill(fuel, h, v, shell, slots, table, st).st;
    if v.Map? && v.table.Some? {
      var id := v.table.value;
      EntriesGrows(fuel, st.tables[id], table, st.tables[id].Keys, st, tbase);
      GrowsTrans(st, st, st', base, tbase, st.nextLoc, tbase);
    } else if v.Ptr? && v.target.Some? {
      var o := Copy(fuel, At(v.target.value), st);
      CopyGrows(fuel, At(v.target.value), st);
      StoreGrows(o.st, Root(shell), Ptr(v.t, Some(o.h.p)), base, tbase);
      GrowsTrans(st, o.st, st', base, tbase, base, tbase);
    } else if v.Map? || v.Ptr? {
      GrowsRefl(st, base, tbase);
    } else {
      ElemsGrows(fuel, h, v, slots, 0, st, base);
      GrowsTrans(st, st, st', base, tbase, base, st.nextTid);
    }
  }

  lemma {:induction false} ElemsGrows(fuel: nat, src: Handle, v: Value, slots: seq<Place>, i: nat, st: State, base: Loc)
    requires |slots| == Count(v) && i <= |slots| && base <= st.nextLoc
    requires forall j :: i <= j < |slots| ==> base <= slots[j].loc
    requires CopyElems(fuel, src, v, slots, i, st).Filled?
    ensures Grows(st, CopyElems(fuel, src, v, slots, i, st).st, base, st.nextTid)
    decreases fuel, 1, |slots| - i
  {
    if i == |slots| {
      GrowsRefl(st, base, st.nextTid);
    } else if !Settable(v, i) {
      ElemsGrows(fuel, src, v, slots, i + 1, st, base);
    } else {
      var o := Copy(fuel, Child(src, v, i), st);
      CopyGrows(fuel, Child(src, v, i), st);
      var x := Load(o.st, o.h).value;
      var st2 := Store(o.st, slots[i], x);
      StoreGrows(o.st, slots[i], x, base, st.nextTid);
      GrowsTrans(st, o.st, st2, base, st.nextTid, base, st.nextTid);
      ElemsGrows(fuel, src, v, slots, i + 1, st2, base);
      GrowsTrans(st, st2, CopyElems(fuel, src, v, slots, i, st).st, base, st.nextTid, base, st2.nextTid);
    }
  }

  lemma {:induction false} EntriesGrows(fuel: nat, src: map<Key, Value>, table: Tid, todo: set<Key>, st: State, tbase: Tid)
    requires todo <= src.Keys && tbase <= table && tbase <= st.nextTid
    requires CopyEntries(fuel, src, table, todo, st).Filled?
    ensures Grows(st, CopyEntries(fuel, src, table, todo, st).st, st.nextLoc, tbase)
    decreases fuel, 1, |todo|
  {
    if todo == {} {
      GrowsRefl(st, st.nextLoc, tbase);
    } else {
      var k := Least(todo);
      var o := Copy(fuel, Direct(src[k]), st);
      CopyGrows(fuel, Direct(src[k]), st);
      var x := Load(o.st, o.h).value;
      var st2 := SetMapIndex(o.st, table, k, x);
      SetMapIndexGrows(o.st, table, k, x, st.nextLoc, tbase);
      GrowsTrans(st, o.st, st2, st.nextLoc, tbase, st.nextLoc, tbase);
      EntriesGrows(fuel, src, table, todo - {k}, st2, tbase);
      GrowsTrans(st, st2, CopyEntries(fuel, src, table, todo, st).st, st.nextLoc, tbase, st2.nextLoc, tbase);
    }
  }

  /** The entry point never modifies the value it copies (lines 11-16):
      every cell and table of the heap it was given is still there, as it
      was. */
  lemma SourceUntouched(fuel: nat, v: Value, heap: State)
    requires WellFormed(heap)
    requires DeepCopy.DeepCopy(fuel, Some(v), heap).Answer?
    ensures var a := DeepCopy.DeepCopy(fuel, Some(v), heap);
      (forall l :: l in heap.cells ==> l in a.st.cells && a.st.cells[l] == heap.cells[l]) &&
      (forall id :: id in heap.tables ==> id in a.st.tables && a.st.tables[id] == heap.tables[id])
  {
    var st0 := heap.(visited := map[]);
    CopyGrows(fuel, Direct(v), st0);
    assert DeepCopy.DeepCopy(fuel, Some(v), heap).st == Copy(fuel, Direct(v), st0).st;
  }
}
