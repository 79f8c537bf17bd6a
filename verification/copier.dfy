/**
 * deepcopy.go as it runs: a heap and a `visited` memo that are updated in
 * place, a recursive copier, and the two loops that fill a shell. Every
 * method is proved to do exactly what the state-passing functions of
 * module DeepCopy describe, so everything proved about those functions
 * holds of these methods.
 */
module Copier {
  import opened Values
  import opened Memory
  import Spec = DeepCopy

  /** Go's memory: the cells and map tables and the next free identity of each. */
  class Heap {
    var cells: map<Loc, Value>
    var tables: map<Tid, map<Key, Value>>
    var nextLoc: Loc
    var nextTid: Tid

    constructor (cells: map<Loc, Value>, tables: map<Tid, map<Key, Value>>, nextLoc: Loc, nextTid: Tid)
      ensures this.cells == cells && this.tables == tables
      ensures this.nextLoc == nextLoc && this.nextTid == nextTid
    {
      this.cells := cells;
      this.tables := tables;
      this.nextLoc := nextLoc;
      this.nextTid := nextTid;
    }

    /** The heap together with a memo, as one state of the specification. */
    function With(visited: map<Visit, Handle>): State
      reads this
    {
      State(cells, tables, nextLoc, nextTid, visited)
    }

    /** The heap part of a specification state is what this heap holds. */
    predicate Holds(st: State)
      reads this
    {
      cells == st.cells && tables == st.tables && nextLoc == st.nextLoc && nextTid == st.nextTid
    }
  }

  /** The `visited` map of deepcopy.go line 20, shared by the whole call tree. */
  class Visited {
    var entries: map<Visit, Handle>

    constructor ()
      ensures entries == map[]
    {
      entries := map[];
    }
  }

  function Snap(heap: Heap, memo: Visited): State
    reads heap, memo
  {
    heap.With(memo.entries)
  }

  /** Result of a copy: the handle of the copy, or the panic that stopped it. */
  datatype Status = Ok(h: Handle) | Err(fault: Spec.Fault)

  /** r, with the state st left behind, is the outcome o. A panic leaves the
      state unspecified. */
  predicate Reflects(r: Status, o: Spec.Outcome, st: State) {
    match r
    case Ok(h) => o == Spec.Done(h, st)
    case Err(e) => o == Spec.Failed(e)
  }

  /** The result of a fill (None when it completed) is the progress p. */
  predicate Reaches(fault: Option<Spec.Fault>, p: Spec.Progress, st: State) {
    match fault
    case None => p == Spec.Filled(st)
    case Some(e) => p == Spec.Stopped(e)
  }

  /** `Set`: write x into the place p. */
  method SetPlace(heap: Heap, memo: Visited, p: Place, x: Value)
    modifies heap
    ensures Snap(heap, memo) == Store(old(Snap(heap, memo)), p, x)
  {
    if p.loc in heap.cells {
      heap.cells := heap.cells[p.loc := Put(heap.cells[p.loc], p.path, x)];
    }
  }

  /** `SetMapIndex`: bind k to x in table id. */
  method SetIndex(heap: Heap, memo: Visited, id: Tid, k: Key, x: Value)
    modifies heap
    ensures Snap(heap, memo) == SetMapIndex(old(Snap(heap, memo)), id, k, x)
  {
    if id in heap.tables {
      heap.tables := heap.tables[id := heap.tables[id][k := x]];
    }
  }

  /** `New`: a fresh cell holding v. */
  method New(heap: Heap, memo: Visited, v: Value) returns (l: Loc)
    modifies heap
    ensures l == old(heap.nextLoc) && l in heap.cells && heap.cells[l] == v
    ensures Snap(heap, memo) == Alloc(old(Snap(heap, memo)), v)
  {
    l := heap.nextLoc;
    heap.cells := heap.cells[l := v];
    heap.nextLoc := l + 1;
  }

  /** Lines 33-43: allocate the shell of v, with fresh backing storage for a
      non-nil slice or map. */
  method MakeShell(heap: Heap, memo: Visited, v: Value) returns (loc: Loc, slots: seq<Place>, table: Tid)
    requires IsComposite(v)
    modifies heap
    ensures var sh := Spec.NewShell(v, old(Snap(heap, memo)));
      loc == sh.loc && slots == sh.slots && table == sh.table && Snap(heap, memo) == sh.st
  {
    var now := Snap(heap, memo);
    var base := heap.nextLoc;
    table := heap.nextTid;
    if v.Slice? && v.hdr.Some? {
      var cs := v.hdr.value.cells;
      var n := |cs|;
      var zeros := seq(n, i requires 0 <= i < n => Spec.ZeroAt(now, cs[i]));
      heap.cells := heap.cells + Fresh(base, zeros);
      heap.nextLoc := base + n;
      slots := seq(n, i requires 0 <= i < n => Root(base + i));
      loc := New(heap, memo, Slice(v.t, Some(Header(v.hdr.value.cap, Run(base, n)))));
    } else if v.Map? && v.table.Some? {
      heap.tables := heap.tables[table := map[]];
      heap.nextTid := table + 1;
      slots := [];
      loc := New(heap, memo, Map(v.t, Some(table)));
    } else if v.Array? {
      slots := seq(|v.elems|, i requires 0 <= i < |v.elems| => Place(base, [i]));
      loc := New(heap, memo, ZeroLike(v));
    } else if v.Struct? {
      slots := seq(|v.fields|, i requires 0 <= i < |v.fields| => Place(base, [i]));
      loc := New(heap, memo, ZeroLike(v));
    } else {
      slots := [];
      loc := New(heap, memo, ZeroLike(v));
    }
  }

  /** Lines 23-87: copy the value h denotes. */
  method CopyValue(fuel: nat, h: Handle, heap: Heap, memo: Visited) returns (r: Status)
    modifies heap, memo
    ensures Reflects(r, Spec.Copy(fuel, h, old(Snap(heap, memo))), Snap(heap, memo))
    decreases fuel, 0
  {
    if fuel == 0 {
      return Err(Spec.StackExhausted);
    }
    var found := Load(Snap(heap, memo), h);
    if found.None? {
      return Err(Spec.Dangling);
    }
    var v := found.value;
    if v.Atomic? {
      r := Ok(h);
    } else if IsComposite(v) {
      r := CopyComposite(fuel - 1, h, v, heap, memo);
    } else if v.Iface? {
      r := CopyIface(fuel - 1, v, heap, memo);
    } else if v.Invalid? {
      r := Err(Spec.NoType);
    } else {
      r := Err(Spec.UnsupportedKind);
    }
  }

  /** Lines 78-83: a new box, holding the copy of the dynamic value. */
  method CopyIface(fuel: nat, v: Value, heap: Heap, memo: Visited) returns (r: Status)
    requires v.Iface?
    modifies heap, memo
    ensures Reflects(r, Spec.CopyIface(fuel, v, old(Snap(heap, memo))), Snap(heap, memo))
    decreases fuel, 3
  {
    var shell := New(heap, memo, Iface(v.t, None));
    if v.dyn.None? {
      return Ok(At(Root(shell)));
    }
    var inner := CopyValue(fuel, Direct(v.dyn.value), heap, memo);
    if inner.Err? {
      return inner;
    }
    var x := Load(Snap(heap, memo), inner.h);
    if x.None? {
      return Err(Spec.Dangling);
    }
    SetPlace(heap, memo, Root(shell), Iface(v.t, Some(x.value)));
    r := Ok(At(Root(shell)));
  }

  /** Lines 31-75: allocate the shell, consult the memo, register, fill. */
  method CopyComposite(fuel: nat, h: Handle, v: Value, heap: Heap, memo: Visited) returns (r: Status)
    requires IsComposite(v)
    modifies heap, memo
    ensures Reflects(r, Spec.CopyComposite(fuel, h, v, old(Snap(heap, memo))), Snap(heap, memo))
    decreases fuel, 3
  {
    var loc, slots, table := MakeShell(heap, memo, v);
    if h.At? {
      var key := Spec.KeyOf(h.p, v);
      if key in memo.entries {
        return Ok(memo.entries[key]);
      }
      memo.entries := memo.entries[key := At(Root(loc))];
    }
    var fault := Fill(fuel, h, v, loc, slots, table, heap, memo);
    if fault.Some? {
      return Err(fault.value);
    }
    r := Ok(At(Root(loc)));
  }

  /** Lines 55-74: populate the shell according to the kind. */
  method Fill(fuel: nat, h: Handle, v: Value, shell: Loc, slots: seq<Place>, table: Tid, heap: Heap, memo: Visited)
    returns (fault: Option<Spec.Fault>)
    requires IsComposite(v) && |slots| == Spec.Count(v)
    modifies heap, memo
    ensures Reaches(fault, Spec.Fill(fuel, h, v, shell, slots, table, old(Snap(heap, memo))), Snap(heap, memo))
    decreases fuel, 2
  {
    if v.Map? && v.table.Some? {
      var id := v.table.value;
      if id !in heap.tables {
        return Some(Spec.Dangling);
      }
      fault := FillEntries(fuel, heap.tables[id], table, heap, memo);
    } else if v.Ptr? && v.target.Some? {
      var r := CopyValue(fuel, At(v.target.value), heap, memo);
      if r.Err? {
        return Some(r.fault);
      }
      if !r.h.At? {
        return Some(Spec.Unaddressable);
      }
      SetPlace(heap, memo, Root(shell), Ptr(v.t, Some(r.h.p)));
      fault := None;
    } else if v.Map? || v.Ptr? {
      fault := None;
    } else {
      fault := FillElems(fuel, h, v, slots, heap, memo);
    }
  }

  /** The loops of lines 57-59 and 69-73: every settable slot receives the
      current value of the copy of the matching source element. */
  method FillElems(fuel: nat, src: Handle, v: Value, slots: seq<Place>, heap: Heap, memo: Visited)
    returns (fault: Option<Spec.Fault>)
    requires |slots| == Spec.Count(v)
    modifies heap, memo
    ensures Reaches(fault, Spec.CopyElems(fuel, src, v, slots, 0, old(Snap(heap, memo))), Snap(heap, memo))
    decreases fuel, 1
  {
    ghost var goal := Spec.CopyElems(fuel, src, v, slots, 0, Snap(heap, memo));
    var i := 0;
    while i < |slots|
      invariant i <= |slots|
      invariant Spec.CopyElems(fuel, src, v, slots, i, Snap(heap, memo)) == goal
      decreases |slots| - i
    {
      if Spec.Settable(v, i) {
        var r := CopyValue(fuel, Spec.Child(src, v, i), heap, memo);
        if r.Err? {
          return Some(r.fault);
        }
        var x := Load(Snap(heap, memo), r.h);
        if x.None? {
          return Some(Spec.Dangling);
        }
        SetPlace(heap, memo, slots[i], x.value);
      }
      i := i + 1;
    }
    fault := None;
  }

  /** The loop of lines 61-63 over the source's keys, in ascending order:
      each key is bound in the new table to the copy of its value. */
  method FillEntries(fuel: nat, src: map<Key, Value>, table: Tid, heap: Heap, memo: Visited)
    returns (fault: Option<Spec.Fault>)
    modifies heap, memo
    ensures Reaches(fault, Spec.CopyEntries(fuel, src, table, src.Keys, old(Snap(heap, memo))), Snap(heap, memo))
    decreases fuel, 1
  {
    ghost var goal := Spec.CopyEntries(fuel, src, table, src.Keys, Snap(heap, memo));
    var todo := src.Keys;
    while todo != {}
      invariant todo <= src.Keys
      invariant Spec.CopyEntries(fuel, src, table, todo, Snap(heap, memo)) == goal
      decreases |todo|
    {
      var k := Spec.Least(todo);
      var r := CopyValue(fuel, Direct(src[k]), heap, memo);
      if r.Err? {
        return Some(r.fault);
      }
      var x := Load(Snap(heap, memo), r.h);
      if x.None? {
        return Some(Spec.Dangling);
      }
      SetIndex(heap, memo, table, k, x.value);
      todo := todo - {k};
    }
    fault := None;
  }

  /** Lines 19-21: copy with a memo of its own, started empty. */
  method DeepCopyValue(fuel: nat, val: Handle, heap: Heap) returns (r: Status)
    modifies heap
    ensures var o := Spec.DeepCopyValue(fuel, val, old(heap.With(map[])));
      match r
      case Ok(h) => o.Done? && o.h == h && heap.Holds(o.st)
      case Err(e) => o == Spec.Failed(e)
  {
    var memo := new Visited();
    r := CopyValue(fuel, val, heap, memo);
  }

  /** Lines 11-16: nil in, nil out; otherwise copy the dynamic value and
      return what the copy holds. */
  method DeepCopy(fuel: nat, i: Option<Value>, heap: Heap) returns (result: Option<Value>, fault: Option<Spec.Fault>)
    modifies heap
    ensures var a := Spec.DeepCopy(fuel, i, old(heap.With(map[])));
      match fault
      case None => a.Answer? && a.i == result && heap.Holds(a.st)
      case Some(e) => a == Spec.Aborted(e)
  {
    if i.None? {
      return None, None;
    }
    var r := DeepCopyValue(fuel, Direct(i.value), heap);
    if r.Err? {
      return None, Some(r.fault);
    }
    var x := Load(heap.With(map[]), r.h);
    if x.None? {
      return None, Some(Spec.Dangling);
    }
    result, fault := x, None;
  }
}
