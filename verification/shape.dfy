/**
 * The shape of the copy one call produces (deepcopy.go lines 33-43 and
 * 55-74): same kind and type, nil stays nil and non-nil stays non-nil,
 * same length and capacity, fresh backing storage, the same key set for a
 * map, unexported fields left at their zero value.
 */
module Shape {
  import opened Values
  import opened Memory
  import opened DeepCopy
  import opened Frame

  /** What the loops keep of a fresh array or struct shell: its type and
      length, and for a struct the exported flags and the zero value of
      every field that cannot be set. */
  ghost predicate Skeleton(v: Value, w: Value) {
    match v
    case Array(t, es) => w.Array? && w.t == t && |w.elems| == |es|
    case Struct(t, fs) =>
      w.Struct? && w.t == t && |w.fields| == |fs| &&
      forall j :: 0 <= j < |fs| ==>
        w.fields[j].exported == fs[j].exported &&
        (!fs[j].exported ==> w.fields[j].v == ZeroLike(fs[j].v))
    case _ => true
  }

  /** w, found in the result state st', is a copy of v (read in st) as far
      as the single call that made it is concerned. */
  ghost predicate Shaped(v: Value, w: Value, st: State, st': State) {
    match v
    case Array(_, _) => Skeleton(v, w)
    case Struct(_, _) => Skeleton(v, w)
    case Slice(t, None) => w == Slice(t, None)
    case Slice(t, Some(hd)) =>
      w.Slice? && w.t == t && w.hdr.Some? &&
      w.hdr.value.cap == hd.cap && |w.hdr.value.cells| == |hd.cells| &&
      forall j :: 0 <= j < |hd.cells| ==> st.nextLoc <= w.hdr.value.cells[j]
    case Map(t, None) => w == Map(t, None)
    case Map(t, Some(id)) =>
      w.Map? && w.t == t && w.table.Some? && st.nextTid <= w.table.value &&
      id in st.tables && w.table.value in st'.tables &&
      st'.tables[w.table.value].Keys == st.tables[id].Keys
    case Ptr(t, None) => w == Ptr(t, None)
    case Ptr(t, Some(_)) => w.Ptr? && w.t == t && w.target.Some?
    case _ => true
  }

  lemma ZeroSkeleton(v: Value)
    ensures Skeleton(v, ZeroLike(v))
    ensures v.Array? ==> forall j :: 0 <= j < |v.elems| ==> Sub(ZeroLike(v), [j]) == Some(ZeroLike(v.elems[j]))
    ensures v.Struct? ==> forall j :: 0 <= j < |v.fields| ==> Sub(ZeroLike(v), [j]) == Some(ZeroLike(v.fields[j].v))
  {
    if v.Array? {
      forall j | 0 <= j < |v.elems|
        ensures Sub(ZeroLike(v), [j]) == Some(ZeroLike(v.elems[j]))
      {
        assert [j][1..] == [];
      }
    } else if v.Struct? {
      forall j | 0 <= j < |v.fields|
        ensures Sub(ZeroLike(v), [j]) == Some(ZeroLike(v.fields[j].v))
      {
        assert [j][1..] == [];
      }
    }
  }

  /** Reading path + [i] is reading element i of what path reads. */
  lemma {:induction false} SubSnoc(w: Value, path: seq<nat>, i: nat)
    ensures Sub(w, path + [i]) == (if Sub(w, path).Some? then Sub(Sub(w, path).value, [i]) else None)
    decreases |path|
  {
    if path == [] {
      assert [] + [i] == [i];
    } else {
      assert (path + [i])[0] == path[0];
      assert (path + [i])[1..] == path[1..] + [i];
      match w
      case Array(_, es) =>
        if path[0] < |es| { SubSnoc(es[path[0]], path[1..], i); }
      case Struct(_, fs) =>
        if path[0] < |fs| { SubSnoc(fs[path[0]].v, path[1..], i); }
      case _ =>
    }
  }

  /** `val.Index(i)` and `val.Field(i)` (lines 58 and 71) denote element i
      of the value the handle denotes, whether it reads through memory or
      carries the value. */
  lemma ChildReads(st: State, src: Handle, v: Value, i: nat)
    requires Load(st, src) == Some(v) && (v.Array? || v.Struct?) && i < Count(v)
    ensures Load(st, Child(src, v, i)) == Some(if v.Array? then v.elems[i] else v.fields[i].v)
  {
    assert [i][1..] == [];
    if src.At? {
      SubSnoc(st.cells[src.p.loc], src.p.path, i);
    }
  }

  /** Writing a settable element keeps the skeleton. */
  lemma PutSkeleton(v: Value, w: Value, j: nat, x: Value)
    requires v.Array? || v.Struct?
    requires Skeleton(v, w) && j < Count(v) && Settable(v, j)
    ensures Skeleton(v, Put(w, [j], x))
  {
  }

  /** Two places that do not overlap: different cells, or different
      elements of one array or struct cell. */
  predicate Separate(p: Place, q: Place) {
    p.loc != q.loc || (|p.path| == 1 && |q.path| == 1 && p.path[0] != q.path[0])
  }

  /** Writing one place leaves every place separate from it as it was. */
  lemma StoreSeparate(st: State, p: Place, q: Place, x: Value)
    requires Separate(p, q)
    ensures Load(Store(st, q, x), At(p)) == Load(st, At(p))
  {
    if p.loc == q.loc && q.loc in st.cells {
      var w := st.cells[q.loc];
      var a, b := p.path[0], q.path[0];
      assert p.path == [a] && q.path == [b];
      assert [a][1..] == [] && [b][1..] == [];
    }
  }

  /** Writing a place that exists makes it hold the value written. */
  lemma StoreLoad(st: State, q: Place, x: Value)
    requires |q.path| <= 1 && Load(st, At(q)).Some?
    ensures Load(Store(st, q, x), At(q)) == Some(x)
  {
    if q.path != [] {
      var j := q.path[0];
      assert q.path == [j] && q.path[1..] == [];
      var w := st.cells[q.loc];
      var w' := Put(w, [j], x);
      assert Sub(w, [j]).Some?;
      if w.Array? {
        assert j < |w.elems|;
        assert Put(w.elems[j], [], x) == x;
        assert w' == Array(w.t, w.elems[j := x]);
        assert Sub(w', [j]) == Sub(x, []);
      } else {
        assert w.Struct? && j < |w.fields|;
        assert Put(w.fields[j].v, [], x) == x;
        assert w' == Struct(w.t, w.fields[j := Field(w.fields[j].exported, x)]);
        assert w'.fields[j].v == x;
        assert Sub(w', [j]) == Sub(x, []);
      }
    }
  }

  /** A successful copy leaves every place of the storage it started with
      as it was. */
  lemma CopyKeepsPlace(fuel: nat, h: Handle, st: State, p: Place)
    requires Copy(fuel, h, st).Done?
    requires p.loc in st.cells && p.loc < st.nextLoc
    ensures var st' := Copy(fuel, h, st).st;
      p.loc in st'.cells && p.loc < st'.nextLoc && Load(st', At(p)) == Load(st, At(p))
  {
    CopyGrows(fuel, h, st);
  }

  /** The element loops write nothing but their slots and fresh storage:
      every other place that existed is left as it was. */
  lemma {:induction false} ElemsKeepPlace(fuel: nat, src: Handle, v: Value, slots: seq<Place>, i: nat, st: State, p: Place)
    requires |slots| == Count(v) && i <= |slots|
    requires CopyElems(fuel, src, v, slots, i, st).Filled?
    requires p.loc in st.cells && p.loc < st.nextLoc
    requires forall j :: i <= j < |slots| ==> Separate(p, slots[j])
    ensures var st' := CopyElems(fuel, src, v, slots, i, st).st;
      p.loc in st'.cells && p.loc < st'.nextLoc && Load(st', At(p)) == Load(st, At(p))
    decreases |slots| - i
  {
    if i < |slots| {
      if !Settable(v, i) {
        ElemsKeepPlace(fuel, src, v, slots, i + 1, st, p);
      } else {
        var o := Copy(fuel, Child(src, v, i), st);
        CopyKeepsPlace(fuel, Child(src, v, i), st, p);
        var st2 := Store(o.st, slots[i], Load(o.st, o.h).value);
        StoreSeparate(o.st, p, slots[i], Load(o.st, o.h).value);
        ElemsKeepPlace(fuel, src, v, slots, i + 1, st2, p);
      }
    }
  }

  /** The element loops keep the skeleton of an array or struct shell. */
  lemma {:induction false} ElemsSkeleton(fuel: nat, src: Handle, v: Value, slots: seq<Place>, i: nat, st: State, s: Loc)
    requires v.Array? || v.Struct?
    requires |slots| == Count(v) && i <= |slots|
    requires forall j :: 0 <= j < |slots| ==> slots[j] == Place(s, [j])
    requires CopyElems(fuel, src, v, slots, i, st).Filled?
    requires s in st.cells && s < st.nextLoc && Skeleton(v, st.cells[s])
    ensures var st' := CopyElems(fuel, src, v, slots, i, st).st;
      s in st'.cells && Skeleton(v, st'.cells[s])
    decreases |slots| - i
  {
    if i < |slots| {
      if !Settable(v, i) {
        ElemsSkeleton(fuel, src, v, slots, i + 1, st, s);
      } else {
        var o := Copy(fuel, Child(src, v, i), st);
        CopyGrows(fuel, Child(src, v, i), st);
        var x := Load(o.st, o.h).value;
        var st2 := Store(o.st, slots[i], x);
        PutSkeleton(v, o.st.cells[s], i, x);
        ElemsSkeleton(fuel, src, v, slots, i + 1, st2, s);
      }
    }
  }

  /** The map loop binds exactly the keys it visits in the new table. */
  lemma {:induction false} EntriesKeys(fuel: nat, src: map<Key, Value>, table: Tid, todo: set<Key>, st: State)
    requires todo <= src.Keys
    requires table in st.tables && table < st.nextTid
    requires CopyEntries(fuel, src, table, todo, st).Filled?
    ensures var st' := CopyEntries(fuel, src, table, todo, st).st;
      table in st'.tables && st'.tables[table].Keys == st.tables[table].Keys + todo
    decreases |todo|
  {
    if todo != {} {
      var k := Least(todo);
      var o := Copy(fuel, Direct(src[k]), st);
      CopyGrows(fuel, Direct(src[k]), st);
      var st2 := SetMapIndex(o.st, table, k, Load(o.st, o.h).value);
      EntriesKeys(fuel, src, table, todo - {k}, st2);
    }
  }

  /** The result of one copy is a fresh shell, at the root of its cell,
      shaped like the source. */
  ghost predicate ShapedResult(v: Value, st: State, o: Outcome) {
    o.Done? && o.h.At? && o.h.p.path == [] && st.nextLoc <= o.h.p.loc && o.h.p.loc in o.st.cells &&
    Shaped(v, o.st.cells[o.h.p.loc], st, o.st)
  }

  /** A composite copy that is not a memo hit is its shell, filled after
      registration. */
  lemma MissFills(f: nat, h: Handle, v: Value, st: State)
    requires IsComposite(v)
    requires h.Direct? || KeyOf(h.p, v) !in st.visited
    requires CopyComposite(f, h, v, st).Done?
    ensures var sh := NewShell(v, st);
      var p := Fill(f, h, v, sh.loc, sh.slots, sh.table, Register(h, v, sh));
      p.Filled? && CopyComposite(f, h, v, st) == Done(At(Root(sh.loc)), p.st)
  {
    NewShellFresh(v, st);
  }

  /** A copy that is not a memo hit returns a fresh shell of the source's
      shape (lines 33-43 and 55-74). */
  lemma CopyShape(fuel: nat, h: Handle, st: State)
    requires WellFormed(st)
    requires Load(st, h).Some? && IsComposite(Load(st, h).value)
    requires h.Direct? || KeyOf(h.p, Load(st, h).value) !in st.visited
    requires Load(st, h).value.Map? && Load(st, h).value.table.Some? ==> Load(st, h).value.table.value in st.tables
    requires Copy(fuel, h, st).Done?
    ensures ShapedResult(Load(st, h).value, st, Copy(fuel, h, st))
  {
    var v := Load(st, h).value;
    assert Copy(fuel, h, st) == CopyComposite(fuel - 1, h, v, st);
    if v.Ptr? {
      PtrShape(fuel - 1, h, v, st);
    } else if v.Map? {
      MapShape(fuel - 1, h, v, st);
    } else if v.Slice? {
      SliceShape(fuel - 1, h, v, st);
    } else {
      InlineShape(fuel - 1, h, v, st);
    }
  }

  lemma PtrShape(f: nat, h: Handle, v: Value, st: State)
    requires v.Ptr?
    requires h.Direct? || KeyOf(h.p, v) !in st.visited
    requires CopyComposite(f, h, v, st).Done?
    ensures ShapedResult(v, st, CopyComposite(f, h, v, st))
  {
    var sh := NewShell(v, st);
    NewShellFresh(v, st);
    var st2 := Register(h, v, sh);
    if v.target.Some? {
      CopyGrows(f, At(v.target.value), st2);
    }
  }

  lemma MapShape(f: nat, h: Handle, v: Value, st: State)
    requires v.Map? && WellFormed(st)
    requires v.table.Some? ==> v.table.value in st.tables
    requires h.Direct? || KeyOf(h.p, v) !in st.visited
    requires CopyComposite(f, h, v, st).Done?
    ensures ShapedResult(v, st, CopyComposite(f, h, v, st))
  {
    var sh := NewShell(v, st);
    NewShellFresh(v, st);
    var st2 := Register(h, v, sh);
    if v.table.Some? {
      var id := v.table.value;
      assert st2.tables[id] == st.tables[id];
      assert sh.table == st.nextTid && sh.table in st2.tables && sh.table < st2.nextTid;
      EntriesGrows(f, st2.tables[id], sh.table, st2.tables[id].Keys, st2, sh.table);
      EntriesKeys(f, st2.tables[id], sh.table, st2.tables[id].Keys, st2);
    }
  }

  /** The shell of a non-nil slice: n fresh zeroed cells, then the header
      naming them. */
  lemma SliceShell(v: Value, st: State)
    requires v.Slice? && v.hdr.Some?
    ensures var sh := NewShell(v, st);
      var n := |v.hdr.value.cells|;
      sh.loc == st.nextLoc + n && sh.loc in sh.st.cells && sh.loc < sh.st.nextLoc &&
      sh.st.cells[sh.loc] == Slice(v.t, Some(Header(v.hdr.value.cap, Run(st.nextLoc, n)))) &&
      forall j :: 0 <= j < n ==> sh.slots[j] == Root(st.nextLoc + j) && sh.slots[j].loc in sh.st.cells
  {
    var sh := NewShell(v, st);
    var n := |v.hdr.value.cells|;
    var zeros := seq(n, i requires 0 <= i < n => ZeroAt(st, v.hdr.value.cells[i]));
    forall j | 0 <= j < n
      ensures sh.slots[j] == Root(st.nextLoc + j) && sh.slots[j].loc in sh.st.cells
    {
      assert st.nextLoc + j in Fresh(st.nextLoc, zeros);
    }
  }

  lemma SliceShape(f: nat, h: Handle, v: Value, st: State)
    requires v.Slice?
    requires h.Direct? || KeyOf(h.p, v) !in st.visited
    requires CopyComposite(f, h, v, st).Done?
    ensures ShapedResult(v, st, CopyComposite(f, h, v, st))
  {
    var sh := NewShell(v, st);
    NewShellFresh(v, st);
    var st2 := Register(h, v, sh);
    if v.hdr.Some? {
      SliceShell(v, st);
      assert Fill(f, h, v, sh.loc, sh.slots, sh.table, st2) == CopyElems(f, h, v, sh.slots, 0, st2);
      ElemsKeepPlace(f, h, v, sh.slots, 0, st2, Root(sh.loc));
    } else {
      assert sh.st.cells[sh.loc] == ZeroLike(v);
      assert Fill(f, h, v, sh.loc, sh.slots, sh.table, st2) == Filled(st2);
    }
  }

  lemma InlineShape(f: nat, h: Handle, v: Value, st: State)
    requires v.Array? || v.Struct?
    requires h.Direct? || KeyOf(h.p, v) !in st.visited
    requires CopyComposite(f, h, v, st).Done?
    ensures ShapedResult(v, st, CopyComposite(f, h, v, st))
  {
    var sh := NewShell(v, st);
    NewShellFresh(v, st);
    var st2 := Register(h, v, sh);
    ZeroSkeleton(v);
    ElemsSkeleton(f, h, v, sh.slots, 0, st2, sh.loc);
  }
}
