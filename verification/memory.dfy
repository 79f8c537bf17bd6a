/**
 * The state a copy runs in: Go's heap (cells and map tables, with the next
 * free identity of each) and the `visited` memo that deepCopyValue threads
 * through its call tree.
 */
module Memory {
  import opened Values

  datatype State = State(
    cells: map<Loc, Value>,
    tables: map<Tid, map<Key, Value>>,
    nextLoc: Loc,
    nextTid: Tid,
    visited: map<Visit, Handle>)

  /** Every cell and table in use lies below the allocation marks, so the
      marks are fresh. */
  ghost predicate WellFormed(st: State) {
    (forall l :: l in st.cells ==> l < st.nextLoc) &&
    (forall id :: id in st.tables ==> id < st.nextTid)
  }

  /** The value a handle denotes now. None only for a place that names no
      cell or no inline sub-value, which Go's memory safety rules out. */
  function Load(st: State, h: Handle): Option<Value> {
    match h
    case Direct(v) => Some(v)
    case At(p) => if p.loc in st.cells then Sub(st.cells[p.loc], p.path) else None
  }

  /** `Set`: write x into the place p. */
  function Store(st: State, p: Place, x: Value): (r: State)
    ensures WellFormed(st) ==> WellFormed(r)
  {
    if p.loc in st.cells then st.(cells := st.cells[p.loc := Put(st.cells[p.loc], p.path, x)])
    else st
  }

  /** `New`: a fresh cell holding v; the new cell is st.nextLoc. */
  function Alloc(st: State, v: Value): (r: State)
    ensures WellFormed(st) ==> WellFormed(r) && st.nextLoc !in st.cells
  {
    st.(cells := st.cells[st.nextLoc := v], nextLoc := st.nextLoc + 1)
  }

  /** The backing storage of `MakeSlice`: |zeros| consecutive fresh cells,
      the i-th holding zeros[i]. */
  function AllocRun(st: State, zeros: seq<Value>): (r: State)
    ensures WellFormed(st) ==> WellFormed(r)
  {
    st.(cells := st.cells + Fresh(st.nextLoc, zeros), nextLoc := st.nextLoc + |zeros|)
  }

  /** The cells base, base + 1, ... holding zeros[0], zeros[1], ... */
  function Fresh(base: Loc, zeros: seq<Value>): (m: map<Loc, Value>)
    ensures forall l :: l in m ==> base <= l < base + |zeros|
    ensures forall l :: base <= l < base + |zeros| ==> l in m && m[l] == zeros[l - base]
    decreases |zeros|
  {
    if zeros == [] then map[]
    else
      var init := zeros[..|zeros| - 1];
      assert forall i :: 0 <= i < |init| ==> init[i] == zeros[i];
      Fresh(base, init)[base + |init| := zeros[|init|]]
  }

  /** The cells AllocRun(st, zeros) hands out, in order. */
  function Run(base: Loc, n: nat): (r: seq<Loc>)
    ensures |r| == n && forall i :: 0 <= i < n ==> r[i] == base + i
  {
    seq(n, i requires 0 <= i < n => base + i)
  }

  /** `MakeMap`: a fresh empty table; the new table is st.nextTid. */
  function AllocTable(st: State): (r: State)
    ensures WellFormed(st) ==> WellFormed(r) && st.nextTid !in st.tables
  {
    st.(tables := st.tables[st.nextTid := map[]], nextTid := st.nextTid + 1)
  }

  /** `SetMapIndex`: bind k to x in table id. */
  function SetMapIndex(st: State, id: Tid, k: Key, x: Value): (r: State)
    ensures WellFormed(st) ==> WellFormed(r)
  {
    if id in st.tables then st.(tables := st.tables[id := st.tables[id][k := x]]) else st
  }

  /** The header Run(base, n) that MakeSlice returns names, in order and
      without repetition, exactly the cells that Fresh(base, zeros) creates,
      each holding its zero element. */
  lemma FreshRun(base: Loc, zeros: seq<Value>)
    ensures var r := Run(base, |zeros|);
      var m := Fresh(base, zeros);
      (forall i :: 0 <= i < |r| ==> r[i] in m && m[r[i]] == zeros[i]) &&
      (forall l :: l in m ==> l in r) &&
      (forall i, j :: 0 <= i < j < |r| ==> r[i] < r[j])
  {
    var r := Run(base, |zeros|);
    var m := Fresh(base, zeros);
    forall i | 0 <= i < |r|
      ensures r[i] in m && m[r[i]] == zeros[i]
    {
      var l := r[i];
      assert l == base + i;
      assert base <= l < base + |zeros|;
      assert l - base == i;
    }
    forall l | l in m
      ensures l in r
    {
      assert r[l - base] == l;
    }
  }
}
