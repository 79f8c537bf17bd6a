/**
 * Which panics a copy can end in. The memo only ever holds the root of a
 * freshly allocated shell (line 51), so the `Addr()` of line 66 is always
 * applied to an addressable copy; and the panic of line 86 (or the missing
 * type before the switch of line 24) needs an unsafe pointer or an invalid
 * value that the copy actually visits.
 */
module Faults {
  import opened Values
  import opened Memory
  import opened DeepCopy
  import opened Frame

  /** Every memo entry is the root of a cell: a shell registered by line 51. */
  ghost predicate MemoRoots(st: State) {
    forall k :: k in st.visited ==> st.visited[k].At? && st.visited[k].p.path == []
  }

  /** A copy never stops at `Addr()`, keeps the memo made of roots, and
      returns either an addressable copy or the handle it was given (an
      atomic value, line 28). */
  lemma {:induction false} CopyRoots(fuel: nat, h: Handle, st: State)
    requires MemoRoots(st)
    ensures var o := Copy(fuel, h, st);
      (o.Failed? ==> o.fault != Unaddressable) &&
      (o.Done? ==> MemoRoots(o.st) && (o.h.At? || o.h == h))
    decreases fuel, 0
  {
    if fuel > 0 && Load(st, h).Some? {
      var v := Load(st, h).value;
      if IsComposite(v) {
        CompositeRoots(fuel - 1, h, v, st);
      } else if v.Iface? {
        IfaceRoots(fuel - 1, v, st);
      }
    }
  }

  lemma {:induction false} IfaceRoots(fuel: nat, v: Value, st: State)
    requires v.Iface? && MemoRoots(st)
    ensures var o := CopyIface(fuel, v, st);
      (o.Failed? ==> o.fault != Unaddressable) && (o.Done? ==> MemoRoots(o.st) && o.h.At?)
    decreases fuel, 3
  {
    if v.dyn.Some? {
      CopyRoots(fuel, Direct(v.dyn.value), Alloc(st, Iface(v.t, None)));
    }
  }

  lemma {:induction false} CompositeRoots(fuel: nat, h: Handle, v: Value, st: State)
    requires IsComposite(v) && MemoRoots(st)
    ensures var o := CopyComposite(fuel, h, v, st);
      (o.Failed? ==> o.fault != Unaddressable) && (o.Done? ==> MemoRoots(o.st) && o.h.At?)
    decreases fuel, 3
  {
    var sh := NewShell(v, st);
    NewShellFresh(v, st);
    if !(h.At? && KeyOf(h.p, v) in sh.st.visited) {
      var st2 := Register(h, v, sh);
      assert MemoRoots(st2);
      FillRoots(fuel, h, v, sh.loc, sh.slots, sh.table, st2);
    }
  }

  lemma {:induction false} FillRoots(fuel: nat, h: Handle, v: Value, shell: Loc, slots: seq<Place>, table: Tid, st: State)
    requires IsComposite(v) && |slots| == Count(v) && MemoRoots(st)
    ensures var p := Fill(fuel, h, v, shell, slots, table, st);
      (p.Stopped? ==> p.fault != Unaddressable) && (p.Filled? ==> MemoRoots(p.st))
    decreases fuel, 2
  {
    if v.Map? && v.table.Some? {
      var id := v.table.value;
      if id in st.tables {
        EntriesRoots(fuel, st.tables[id], table, st.tables[id].Keys, st);
      }
    } else if v.Ptr? && v.target.Some? {
      CopyRoots(fuel, At(v.target.value), st);
    } else if !v.Map? && !v.Ptr? {
      ElemsRoots(fuel, h, v, slots, 0, st);
    }
  }

  lemma {:induction false} ElemsRoots(fuel: nat, src: Handle, v: Value, slots: seq<Place>, i: nat, st: State)
    requires |slots| == Count(v) && i <= |slots| && MemoRoots(st)
    ensures var p := CopyElems(fuel, src, v, slots, i, st);
      (p.Stopped? ==> p.fault != Unaddressable) && (p.Filled? ==> MemoRoots(p.st))
    decreases fuel, 1, |slots| - i
  {
    if i < |slots| {
      if !Settable(v, i) {
        ElemsRoots(fuel, src, v, slots, i + 1, st);
      } else {
        var o := Copy(fuel, Child(src, v, i), st);
        CopyRoots(fuel, Child(src, v, i), st);
        if o.Done? && Load(o.st, o.h).Some? {
          ElemsRoots(fuel, src, v, slots, i + 1, Store(o.st, slots[i], Load(o.st, o.h).value));
        }
      }
    }
  }

  lemma {:induction false} EntriesRoots(fuel: nat, src: map<Key, Value>, table: Tid, todo: set<Key>, st: State)
    requires todo <= src.Keys && MemoRoots(st)
    ensures var p := CopyEntries(fuel, src, table, todo, st);
      (p.Stopped? ==> p.fault != Unaddressable) && (p.Filled? ==> MemoRoots(p.st))
    decreases fuel, 1, |todo|
  {
    if todo != {} {
      var k := Least(todo);
      var o := Copy(fuel, Direct(src[k]), st);
      CopyRoots(fuel, Direct(src[k]), st);
      if o.Done? && Load(o.st, o.h).Some? {
        EntriesRoots(fuel, src, table, todo - {k}, SetMapIndex(o.st, table, k, Load(o.st, o.h).value));
      }
    }
  }

  /** Lines 19-21: started from an empty memo, a copy never reaches the
      panic of `Addr()` on an unaddressable value (line 66). */
  lemma NeverUnaddressable(fuel: nat, h: Handle, heap: State)
    ensures DeepCopyValue(fuel, h, heap) != Failed(Unaddressable)
  {
    CopyRoots(fuel, h, heap.(visited := map[]));
  }

  lemma DeepCopyNeverUnaddressable(fuel: nat, i: Option<Value>, heap: State)
    ensures DeepCopy.DeepCopy(fuel, i, heap) != Aborted(Unaddressable)
  {
    if i.Some? {
      NeverUnaddressable(fuel, Direct(i.value), heap);
    }
  }

  /** Every value stored inline in v has a kind the copier handles (no
      unsafe pointer, no typeless value), and every element cell of a
      non-nil slice in v is one of the cells L. */
  ghost predicate Supported(v: Value, L: set<Loc>) {
    match v
    case Array(_, es) => forall i :: 0 <= i < |es| ==> Supported(es[i], L)
    case Struct(_, fs) => forall i :: 0 <= i < |fs| ==> Supported(fs[i].v, L)
    case Slice(_, hdr) => hdr.Some? ==> forall i :: 0 <= i < |hdr.value.cells| ==> hdr.value.cells[i] in L
    case Iface(_, dyn) => dyn.Some? ==> Supported(dyn.value, L)
    case UnsafePointer(_, _) => false
    case Invalid => false
    case _ => true
  }

  /** Every cell and every map value of the heap is supported. */
  ghost predicate SupportedHeap(st: State) {
    (forall l :: l in st.cells ==> Supported(st.cells[l], st.cells.Keys)) &&
    (forall id, k :: id in st.tables && k in st.tables[id] ==> Supported(st.tables[id][k], st.cells.Keys))
  }

  ghost predicate SupportedHandle(h: Handle, st: State) {
    h.Direct? ==> Supported(h.v, st.cells.Keys)
  }

  lemma {:induction false} SupportedMono(v: Value, L: set<Loc>, L': set<Loc>)
    requires Supported(v, L) && L <= L'
    ensures Supported(v, L')
  {
    match v
    case Array(_, es) =>
      forall i | 0 <= i < |es| ensures Supported(es[i], L') { SupportedMono(es[i], L, L'); }
    case Struct(_, fs) =>
      forall i | 0 <= i < |fs| ensures Supported(fs[i].v, L') { SupportedMono(fs[i].v, L, L'); }
    case Iface(_, dyn) =>
      if dyn.Some? { SupportedMono(dyn.value, L, L'); }
    case _ =>
  }

  /** A heap whose cells only grew keeps every value supported. */
  lemma HeapMono(st: State, L': set<Loc>)
    requires SupportedHeap(st) && st.cells.Keys <= L'
    ensures forall l :: l in st.cells ==> Supported(st.cells[l], L')
    ensures forall id, k :: id in st.tables && k in st.tables[id] ==> Supported(st.tables[id][k], L')
  {
    forall l | l in st.cells ensures Supported(st.cells[l], L') {
      SupportedMono(st.cells[l], st.cells.Keys, L');
    }
    forall id, k | id in st.tables && k in st.tables[id] ensures Supported(st.tables[id][k], L') {
      SupportedMono(st.tables[id][k], st.cells.Keys, L');
    }
  }

  lemma {:induction false} ZeroSupported(v: Value, L: set<Loc>, L': set<Loc>)
    requires Supported(v, L)
    ensures Supported(ZeroLike(v), L')
  {
    match v
    case Array(t, es) =>
      var z := ZeroLike(v);
      forall i | 0 <= i < |es| ensures Supported(z.elems[i], L') { ZeroSupported(es[i], L, L'); }
    case Struct(t, fs) =>
      var z := ZeroLike(v);
      forall i | 0 <= i < |fs| ensures Supported(z.fields[i].v, L') { ZeroSupported(fs[i].v, L, L'); }
    case _ =>
  }

  lemma {:induction false} SubSupported(v: Value, path: seq<nat>, L: set<Loc>)
    requires Supported(v, L) && Sub(v, path).Some?
    ensures Supported(Sub(v, path).value, L)
    decreases |path|
  {
    if path != [] {
      match v
      case Array(_, es) => SubSupported(es[path[0]], path[1..], L);
      case Struct(_, fs) => SubSupported(fs[path[0]].v, path[1..], L);
    }
  }

  lemma {:induction false} PutSupported(v: Value, path: seq<nat>, x: Value, L: set<Loc>)
    requires Supported(v, L) && Supported(x, L)
    ensures Supported(Put(v, path, x), L)
    decreases |path|
  {
    if path != [] {
      match v
      case Array(t, es) =>
        if path[0] < |es| {
          PutSupported(es[path[0]], path[1..], x, L);
          var es' := es[path[0] := Put(es[path[0]], path[1..], x)];
          assert forall i :: 0 <= i < |es'| ==> Supported(es'[i], L);
        }
      case Struct(t, fs) =>
        if path[0] < |fs| {
          PutSupported(fs[path[0]].v, path[1..], x, L);
          var fs' := fs[path[0] := Field(fs[path[0]].exported, Put(fs[path[0]].v, path[1..], x))];
          assert forall i :: 0 <= i < |fs'| ==> Supported(fs'[i].v, L);
        }
      case _ =>
    }
  }

  lemma LoadSupported(st: State, h: Handle)
    requires SupportedHeap(st) && SupportedHandle(h, st) && Load(st, h).Some?
    ensures Supported(Load(st, h).value, st.cells.Keys)
  {
    if h.At? {
      SubSupported(st.cells[h.p.loc], h.p.path, st.cells.Keys);
    }
  }

  lemma StoreSupported(st: State, p: Place, x: Value)
    requires SupportedHeap(st) && Supported(x, st.cells.Keys)
    ensures SupportedHeap(Store(st, p, x)) && Store(st, p, x).cells.Keys == st.cells.Keys
  {
    if p.loc in st.cells {
      PutSupported(st.cells[p.loc], p.path, x, st.cells.Keys);
      assert Store(st, p, x).cells.Keys == st.cells.Keys;
    }
  }

  lemma AllocSupported(st: State, x: Value)
    requires SupportedHeap(st) && Supported(x, st.cells.Keys)
    ensures SupportedHeap(Alloc(st, x)) && st.cells.Keys <= Alloc(st, x).cells.Keys
  {
    var L' := Alloc(st, x).cells.Keys;
    HeapMono(st, L');
    SupportedMono(x, st.cells.Keys, L');
  }

  lemma AllocRunSupported(st: State, zeros: seq<Value>)
    requires SupportedHeap(st) && forall i :: 0 <= i < |zeros| ==> Supported(zeros[i], st.cells.Keys)
    ensures SupportedHeap(AllocRun(st, zeros)) && st.cells.Keys <= AllocRun(st, zeros).cells.Keys
  {
    var st1 := AllocRun(st, zeros);
    var L' := st1.cells.Keys;
    HeapMono(st, L');
    var m := Fresh(st.nextLoc, zeros);
    forall l | l in st1.cells ensures Supported(st1.cells[l], L') {
      if l in m {
        assert st1.cells[l] == zeros[l - st.nextLoc];
        SupportedMono(zeros[l - st.nextLoc], st.cells.Keys, L');
      }
    }
  }

  lemma SetMapIndexSupported(st: State, id: Tid, k: Key, x: Value)
    requires SupportedHeap(st) && Supported(x, st.cells.Keys)
    ensures SupportedHeap(SetMapIndex(st, id, k, x)) && SetMapIndex(st, id, k, x).cells == st.cells
  {
  }

  /** The shell of a supported value holds only supported values. */
  lemma ShellSupported(v: Value, st: State)
    requires IsComposite(v) && Supported(v, st.cells.Keys) && SupportedHeap(st)
    ensures var sh := NewShell(v, st);
      SupportedHeap(sh.st) && st.cells.Keys <= sh.st.cells.Keys
  {
    match v
    case Slice(t, Some(hd)) =>
      var n := |hd.cells|;
      var zeros := seq(n, i requires 0 <= i < n => ZeroAt(st, hd.cells[i]));
      forall i | 0 <= i < n ensures Supported(zeros[i], st.cells.Keys) {
        ZeroSupported(st.cells[hd.cells[i]], st.cells.Keys, st.cells.Keys);
      }
      AllocRunSupported(st, zeros);
      var st1 := AllocRun(st, zeros);
      var x := Slice(t, Some(Header(hd.cap, Run(st.nextLoc, n))));
      forall i | 0 <= i < n ensures Run(st.nextLoc, n)[i] in st1.cells.Keys {
        assert st.nextLoc + i in Fresh(st.nextLoc, zeros);
      }
      AllocSupported(st1, x);
    case Map(t, Some(_)) =>
      AllocSupported(AllocTable(st), Map(t, Some(st.nextTid)));
    case _ =>
      ZeroSupported(v, st.cells.Keys, st.cells.Keys);
      AllocSupported(st, ZeroLike(v));
  }

  /** A copy from a supported heap, with a memo of roots, never panics on
      the kind of what it visits (line 86), nor on a typeless value, and
      leaves the heap supported. */
  lemma {:induction false} CopyKinds(fuel: nat, h: Handle, st: State)
    requires MemoRoots(st) && SupportedHeap(st) && SupportedHandle(h, st)
    ensures var o := Copy(fuel, h, st);
      (o.Failed? ==> o.fault != UnsupportedKind && o.fault != NoType) &&
      (o.Done? ==> SupportedHeap(o.st) && st.cells.Keys <= o.st.cells.Keys && SupportedHandle(o.h, o.st))
    decreases fuel, 0
  {
    if fuel > 0 && Load(st, h).Some? {
      var v := Load(st, h).value;
      LoadSupported(st, h);
      if IsComposite(v) {
        CompositeKinds(fuel - 1, h, v, st);
      } else if v.Iface? {
        IfaceKinds(fuel - 1, v, st);
      }
    }
  }

  lemma {:induction false} IfaceKinds(fuel: nat, v: Value, st: State)
    requires v.Iface? && Supported(v, st.cells.Keys)
    requires MemoRoots(st) && SupportedHeap(st)
    ensures var o := CopyIface(fuel, v, st);
      (o.Failed? ==> o.fault != UnsupportedKind && o.fault != NoType) &&
      (o.Done? ==> SupportedHeap(o.st) && st.cells.Keys <= o.st.cells.Keys && o.h.At?)
    decreases fuel, 3
  {
    var st1 := Alloc(st, Iface(v.t, None));
    AllocSupported(st, Iface(v.t, None));
    if v.dyn.Some? {
      var d := v.dyn.value;
      SupportedMono(d, st.cells.Keys, st1.cells.Keys);
      CopyKinds(fuel, Direct(d), st1);
      var o := Copy(fuel, Direct(d), st1);
      if o.Done? && Load(o.st, o.h).Some? {
        var x := Load(o.st, o.h).value;
        LoadSupported(o.st, o.h);
        StoreSupported(o.st, Root(st.nextLoc), Iface(v.t, Some(x)));
      }
    }
  }

  lemma {:induction false} CompositeKinds(fuel: nat, h: Handle, v: Value, st: State)
    requires IsComposite(v) && Supported(v, st.cells.Keys)
    requires MemoRoots(st) && SupportedHeap(st)
    ensures var o := CopyComposite(fuel, h, v, st);
      (o.Failed? ==> o.fault != UnsupportedKind && o.fault != NoType) &&
      (o.Done? ==> SupportedHeap(o.st) && st.cells.Keys <= o.st.cells.Keys && o.h.At?)
    decreases fuel, 3
  {
    var sh := NewShell(v, st);
    NewShellFresh(v, st);
    ShellSupported(v, st);
    if !(h.At? && KeyOf(h.p, v) in sh.st.visited) {
      var st2 := Register(h, v, sh);
      assert MemoRoots(st2);
      SupportedMono(v, st.cells.Keys, st2.cells.Keys);
      FillKinds(fuel, h, v, sh.loc, sh.slots, sh.table, st2);
    }
  }

  lemma {:induction false} FillKinds(fuel: nat, h: Handle, v: Value, shell: Loc, slots: seq<Place>, table: Tid, st: State)
    requires IsComposite(v) && |slots| == Count(v) && Supported(v, st.cells.Keys)
    requires MemoRoots(st) && SupportedHeap(st)
    ensures var p := Fill(fuel, h, v, shell, slots, table, st);
      (p.Stopped? ==> p.fault != UnsupportedKind && p.fault != NoType) &&
      (p.Filled? ==> SupportedHeap(p.st) && st.cells.Keys <= p.st.cells.Keys)
    decreases fuel, 2
  {
    if v.Map? && v.table.Some? {
      var id := v.table.value;
      if id in st.tables {
        EntriesKinds(fuel, st.tables[id], table, st.tables[id].Keys, st);
      }
    } else if v.Ptr? && v.target.Some? {
      var q := v.target.value;
      CopyKinds(fuel, At(q), st);
      var o := Copy(fuel, At(q), st);
      if o.Done? && o.h.At? {
        StoreSupported(o.st, Root(shell), Ptr(v.t, Some(o.h.p)));
      }
    } else if !v.Map? && !v.Ptr? {
      ElemsKinds(fuel, h, v, slots, 0, st);
    }
  }

  lemma ChildSupported(src: Handle, v: Value, i: nat, st: State)
    requires i < Count(v) && Supported(v, st.cells.Keys)
    ensures SupportedHandle(Child(src, v, i), st)
  {
  }

  /** Setting a slot to the value a copy returned keeps the heap supported. */
  lemma StoreCopySupported(st: State, st1: State, r: Handle, p: Place, v: Value)
    requires SupportedHeap(st1) && SupportedHandle(r, st1) && Load(st1, r).Some? && MemoRoots(st1)
    requires Supported(v, st.cells.Keys) && st.cells.Keys <= st1.cells.Keys
    ensures var st2 := Store(st1, p, Load(st1, r).value);
      SupportedHeap(st2) && MemoRoots(st2) && Supported(v, st2.cells.Keys) && st.cells.Keys <= st2.cells.Keys
  {
    var x := Load(st1, r).value;
    LoadSupported(st1, r);
    StoreSupported(st1, p, x);
    SupportedMono(v, st.cells.Keys, Store(st1, p, x).cells.Keys);
  }

  lemma {:induction false} ElemsKinds(fuel: nat, src: Handle, v: Value, slots: seq<Place>, i: nat, st: State)
    requires |slots| == Count(v) && i <= |slots| && Supported(v, st.cells.Keys)
    requires MemoRoots(st) && SupportedHeap(st)
    ensures var p := CopyElems(fuel, src, v, slots, i, st);
      (p.Stopped? ==> p.fault != UnsupportedKind && p.fault != NoType) &&
      (p.Filled? ==> SupportedHeap(p.st) && st.cells.Keys <= p.st.cells.Keys)
    decreases fuel, 1, |slots| - i
  {
    if i < |slots| {
      if !Settable(v, i) {
        ElemsKinds(fuel, src, v, slots, i + 1, st);
      } else {
        var c := Child(src, v, i);
        ChildSupported(src, v, i, st);
        var o := Copy(fuel, c, st);
        CopyKinds(fuel, c, st);
        CopyRoots(fuel, c, st);
        if o.Done? && Load(o.st, o.h).Some? {
          var st2 := Store(o.st, slots[i], Load(o.st, o.h).value);
          StoreCopySupported(st, o.st, o.h, slots[i], v);
          ElemsKinds(fuel, src, v, slots, i + 1, st2);
          assert CopyElems(fuel, src, v, slots, i, st) == CopyElems(fuel, src, v, slots, i + 1, st2);
        }
      }
    }
  }

  lemma {:induction false} EntriesKinds(fuel: nat, src: map<Key, Value>, table: Tid, todo: set<Key>, st: State)
    requires todo <= src.Keys && forall k :: k in todo ==> Supported(src[k], st.cells.Keys)
    requires MemoRoots(st) && SupportedHeap(st)
    ensures var p := CopyEntries(fuel, src, table, todo, st);
      (p.Stopped? ==> p.fault != UnsupportedKind && p.fault != NoType) &&
      (p.Filled? ==> SupportedHeap(p.st) && st.cells.Keys <= p.st.cells.Keys)
    decreases fuel, 1, |todo|
  {
    if todo != {} {
      var k := Least(todo);
      var o := Copy(fuel, Direct(src[k]), st);
      CopyKinds(fuel, Direct(src[k]), st);
      CopyRoots(fuel, Direct(src[k]), st);
      if o.Done? && Load(o.st, o.h).Some? {
        var x := Load(o.st, o.h).value;
        LoadSupported(o.st, o.h);
        SetMapIndexSupported(o.st, table, k, x);
        var st2 := SetMapIndex(o.st, table, k, x);
        forall j | j in todo - {k} ensures Supported(src[j], st2.cells.Keys) {
          SupportedMono(src[j], st.cells.Keys, st2.cells.Keys);
        }
        EntriesKinds(fuel, src, table, todo - {k}, st2);
      }
    }
  }

  /** Lines 19-21 and 86: copying a supported value out of a supported heap
      never panics on a kind. Together with Memo.UnsupportedKindFails: the
      panic happens exactly when the copy visits an unsafe pointer or a
      typeless value. */
  lemma NeverUnsupported(fuel: nat, h: Handle, heap: State)
    requires SupportedHeap(heap) && SupportedHandle(h, heap)
    ensures DeepCopyValue(fuel, h, heap) != Failed(UnsupportedKind)
    ensures DeepCopyValue(fuel, h, heap) != Failed(NoType)
  {
    CopyKinds(fuel, h, heap.(visited := map[]));
  }

  lemma DeepCopyNeverUnsupported(fuel: nat, v: Value, heap: State)
    requires SupportedHeap(heap) && Supported(v, heap.cells.Keys)
    ensures DeepCopy.DeepCopy(fuel, Some(v), heap) != Aborted(UnsupportedKind)
    ensures DeepCopy.DeepCopy(fuel, Some(v), heap) != Aborted(NoType)
  {
    NeverUnsupported(fuel, Direct(v), heap);
  }
}
