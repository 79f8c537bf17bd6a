/**
 * The copier as its doc comments (deepcopy.go lines 10 and 18) describe it:
 * a copy that keeps the source's pointer hierarchy. It differs from the
 * code as written in four places only:
 *
 *  - a non-empty slice is memoised by where its elements start, its length,
 *    capacity and type, whether or not it is addressable, and each of its
 *    element cells is registered as copied into the matching new cell
 *    before any element is copied;
 *  - an interface box at a place is memoised under that place's key, as a
 *    composite is, so two pointers to one interface variable share a box;
 *  - a pointer into a cell whose root is already registered is aimed at the
 *    same path inside the registered copy;
 *  - otherwise a pointer to an atomic value gets a fresh cell for its
 *    pointee instead of the source's own address.
 *
 * Everything else is the copier of module DeepCopy, step for step.
 */
module Intended {
  import opened Values
  import opened Memory
  import opened Written = DeepCopy

  /** The memo key of a non-empty slice. Its offset ends in 0, which no
      place's address does, so it is never the key of a place. */
  function SliceKey(t: TypeName, hd: Header): (k: Visit)
    requires hd.cells != []
    ensures k.t == t && k.addr.loc == hd.cells[0]
    ensures forall p :: AddrOf(p) != k.addr
  {
    Visit(Addr(hd.cells[0], [|hd.cells|, hd.cap, 0]), t)
  }

  /** The cell of the copy that q's cell was registered as copied into,
      when its root was registered with a cell root. */
  function Relocated(st: State, q: Place): Option<Loc> {
    if q.loc in st.cells && !st.cells[q.loc].Invalid? then
      var k := KeyOf(Root(q.loc), st.cells[q.loc]);
      if k in st.visited && st.visited[k].At? && st.visited[k].p.path == []
      then Some(st.visited[k].p.loc) else None
    else None
  }

  /** A fresh cell holding the pointee's value x, with the shell aimed at it. */
  function FreshPointee(st: State, shell: Loc, t: TypeName, x: Value): (r: State)
    ensures r.nextLoc == st.nextLoc + 1 && st.nextLoc in r.cells
  {
    Store(Alloc(st, x), Root(shell), Ptr(t, Some(Root(st.nextLoc))))
  }

  /** The fresh pointee is independent of the source: it holds the
      pointee's value, and no later write through a source place reaches it. */
  lemma FreshPointeeIndependent(st: State, shell: Loc, t: TypeName, x: Value, q: Place, y: Value)
    requires WellFormed(st) && shell in st.cells && q.loc in st.cells
    ensures var r := FreshPointee(st, shell, t, x);
      r.cells[shell] == Ptr(t, Some(Root(st.nextLoc))) &&
      Load(r, At(Root(st.nextLoc))) == Some(x) &&
      Load(Store(r, q, y), At(Root(st.nextLoc))) == Some(x)
  {
    assert shell != st.nextLoc && q.loc != st.nextLoc;
  }

  /** Line 51, corrected: besides the handle's own key, a non-empty slice
      registers its slice key for its header and every element cell for the
      new cell that will receive its copy. */
  function Enroll(h: Handle, v: Value, sh: Shell): State
    requires IsComposite(v) && |sh.slots| == Count(v)
  {
    var st1 := Register(h, v, sh);
    match v
    case Slice(t, Some(hd)) =>
      if hd.cells == [] then st1
      else EnrollElems(hd.cells, sh.slots, 0, st1.(visited := st1.visited[SliceKey(t, hd) := At(Root(sh.loc))]))
    case _ => st1
  }

  /** Element cells i, i + 1, ... registered for their slots. */
  function EnrollElems(cells: seq<Loc>, slots: seq<Place>, i: nat, st: State): State
    requires |slots| == |cells| && i <= |cells|
    decreases |cells| - i
  {
    if i == |cells| then st
    else if cells[i] in st.cells && !st.cells[cells[i]].Invalid? then
      EnrollElems(cells, slots, i + 1,
                  st.(visited := st.visited[KeyOf(Root(cells[i]), st.cells[cells[i]]) := At(slots[i])]))
    else EnrollElems(cells, slots, i + 1, st)
  }

  /** The handle an element is copied from: a slice element by its value,
      since its cell is already registered; other elements as `Child`. */
  function Element(src: Handle, v: Value, i: nat, st: State): Handle
    requires i < Count(v)
  {
    if v.Slice? && v.hdr.Some? && v.hdr.value.cells[i] in st.cells
    then Direct(st.cells[v.hdr.value.cells[i]])
    else Child(src, v, i)
  }

  /** Lines 23-87, corrected. */
  function Copy(fuel: nat, h: Handle, st: State): Outcome
    decreases fuel, 0
  {
    if fuel == 0 then Failed(StackExhausted)
    else match Load(st, h)
      case None => Failed(Dangling)
      case Some(v) =>
        if v.Atomic? then Done(h, st)
        else if IsComposite(v) then CopyComposite(fuel - 1, h, v, st)
        else if v.Iface? then CopyIface(fuel - 1, h, v, st)
        else if v.Invalid? then Failed(NoType)
        else Failed(UnsupportedKind)
  }

  /** Lines 78-83, corrected: a box at a place is looked up in the memo and
      registered for its new box before its dynamic value is copied. */
  function CopyIface(fuel: nat, h: Handle, v: Value, st: State): Outcome
    requires v.Iface?
    decreases fuel, 3
  {
    if h.At? && KeyOf(h.p, v) in st.visited then Done(st.visited[KeyOf(h.p, v)], st)
    else
    var shell := st.nextLoc;
    var st0 := Alloc(st, Iface(v.t, None));
    var st1 := if h.At? then st0.(visited := st0.visited[KeyOf(h.p, v) := At(Root(shell))]) else st0;
    match v.dyn
    case None => Done(At(Root(shell)), st1)
    case Some(d) =>
      match Copy(fuel, Direct(d), st1)
      case Failed(e) => Failed(e)
      case Done(r, st2) =>
        match Load(st2, r)
        case None => Failed(Dangling)
        case Some(x) => Done(At(Root(shell)), Store(st2, Root(shell), Iface(v.t, Some(x))))
  }

  /** Lines 31-75, corrected: a slice is also looked up by its slice key. */
  function CopyComposite(fuel: nat, h: Handle, v: Value, st: State): Outcome
    requires IsComposite(v)
    decreases fuel, 3
  {
    var sh := NewShell(v, st);
    if h.At? && KeyOf(h.p, v) in sh.st.visited then Done(sh.st.visited[KeyOf(h.p, v)], sh.st)
    else if v.Slice? && v.hdr.Some? && v.hdr.value.cells != [] && SliceKey(v.t, v.hdr.value) in sh.st.visited
    then Done(sh.st.visited[SliceKey(v.t, v.hdr.value)], sh.st)
    else
      match Fill(fuel, h, v, sh.loc, sh.slots, sh.table, Enroll(h, v, sh))
      case Stopped(e) => Failed(e)
      case Filled(st3) => Done(At(Root(sh.loc)), st3)
  }

  /** Lines 55-74, corrected for pointers. */
  function Fill(fuel: nat, h: Handle, v: Value, shell: Loc, slots: seq<Place>, table: Tid, st: State): Progress
    requires IsComposite(v) && |slots| == Count(v)
    decreases fuel, 2
  {
    match v
    case Map(_, Some(id)) =>
      if id in st.tables then CopyEntries(fuel, st.tables[id], table, st.tables[id].Keys, st)
      else Stopped(Dangling)
    case Ptr(t, Some(q)) =>
      (match Relocated(st, q)
       case Some(l) => Filled(Store(st, Root(shell), Ptr(t, Some(Place(l, q.path)))))
       case None =>
         match Copy(fuel, At(q), st)
         case Failed(e) => Stopped(e)
         case Done(r, st1) =>
           match Load(st1, r)
           case None => Stopped(Dangling)
           case Some(x) =>
             if x.Atomic? then
               var st2 := FreshPointee(st1, shell, t, x);
               Filled(if q.path == [] then st2.(visited := st2.visited[KeyOf(q, x) := At(Root(st1.nextLoc))]) else st2)
             else if r.At? then Filled(Store(st1, Root(shell), Ptr(t, Some(r.p))))
             else Stopped(Unaddressable))
    case Map(_, None) => Filled(st)
    case Ptr(_, None) => Filled(st)
    case _ => CopyElems(fuel, h, v, slots, 0, st)
  }

  /** The loops of lines 57-59 and 69-73, with slice elements taken by value. */
  function CopyElems(fuel: nat, src: Handle, v: Value, slots: seq<Place>, i: nat, st: State): Progress
    requires |slots| == Count(v) && i <= |slots|
    decreases fuel, 1, |slots| - i
  {
    if i == |slots| then Filled(st)
    else if !Settable(v, i) then CopyElems(fuel, src, v, slots, i + 1, st)
    else match Copy(fuel, Element(src, v, i, st), st)
      case Failed(e) => Stopped(e)
      case Done(r, st1) =>
        match Load(st1, r)
        case None => Stopped(Dangling)
        case Some(x) => CopyElems(fuel, src, v, slots, i + 1, Store(st1, slots[i], x))
  }

  /** The loop of lines 61-63, unchanged but for the corrected recursion. */
  function CopyEntries(fuel: nat, src: map<Key, Value>, table: Tid, todo: set<Key>, st: State): Progress
    requires todo <= src.Keys
    decreases fuel, 1, |todo|
  {
    if todo == {} then Filled(st)
    else
      var k := Least(todo);
      match Copy(fuel, Direct(src[k]), st)
      case Failed(e) => Stopped(e)
      case Done(r, st1) =>
        match Load(st1, r)
        case None => Stopped(Dangling)
        case Some(x) => CopyEntries(fuel, src, table, todo - {k}, SetMapIndex(st1, table, k, x))
  }

  /** Lines 11-21, over the corrected copier. */
  function DeepCopy(fuel: nat, i: Option<Value>, heap: State): Answer {
    match i
    case None => Answer(None, heap)
    case Some(v) =>
      match Copy(fuel, Direct(v), heap.(visited := map[]))
      case Failed(e) => Aborted(e)
      case Done(r, st) =>
        match Load(st, r)
        case None => Aborted(Dangling)
        case Some(x) => Answer(Some(x), st)
  }
}
