/**
 * The copier of deepcopy.go as a state-passing specification: each function
 * takes the heap and memo before a step and returns them after it.
 *
 * The Go recursion has no bound of its own; here `fuel` is the depth of the
 * call stack that is still available, and running out of it is the stack
 * overflow a Go program would suffer on an input the copier cannot finish.
 */
module DeepCopy {
  import opened Values
  import opened Memory

  /** Why a copy stops without a result. */
  datatype Fault =
    | UnsupportedKind   // the panic of deepcopy.go line 86
    | NoType            // the zero reflect.Value: Type() panics before the switch
    | Unaddressable     // Addr() of a handle that has no address
    | Dangling          // a place with no cell: Go's memory safety excludes it
    | StackExhausted    // the recursion went deeper than the stack allows

  /** Result of copying one value: the handle of the copy and the state after. */
  datatype Outcome = Done(h: Handle, st: State) | Failed(fault: Fault)

  /** Result of filling a shell. */
  datatype Progress = Filled(st: State) | Stopped(fault: Fault)

  /** Result of the public entry point, whose result is an `interface{}`. */
  datatype Answer = Answer(i: Option<Value>, st: State) | Aborted(fault: Fault)

  /** A freshly allocated destination: its cell, the places its elements
      are written to, the table of a non-nil map (for other kinds the next
      free table, which is never written), and the state after. */
  datatype Shell = Shell(loc: Loc, slots: seq<Place>, table: Tid, st: State)

  function KeyOf(p: Place, v: Value): Visit
    requires !v.Invalid?
  {
    Visit(AddrOf(p), v.t)
  }

  /** Number of positional elements the loops of lines 56-59 and 68-73 visit. */
  function Count(v: Value): nat {
    match v
    case Array(_, es) => |es|
    case Struct(_, fs) => |fs|
    case Slice(_, Some(hd)) => |hd.cells|
    case _ => 0
  }

  /** `val.Index(i)` / `val.Field(i)`: elements of an addressable array or
      struct are addressable, slice elements always are, the others are not. */
  function Child(src: Handle, v: Value, i: nat): (c: Handle)
    requires i < Count(v)
    ensures c.At? <==> (src.At? || v.Slice?)
    ensures src.At? && !v.Slice? ==> c.p.loc == src.p.loc && c.p.path == src.p.path + [i]
  {
    match v
    case Slice(_, Some(hd)) => At(Root(hd.cells[i]))
    case Array(_, es) =>
      (match src
       case At(p) => At(Place(p.loc, p.path + [i]))
       case Direct(_) => Direct(es[i]))
    case Struct(_, fs) =>
      (match src
       case At(p) => At(Place(p.loc, p.path + [i]))
       case Direct(_) => Direct(fs[i].v))
    case _ => Direct(Invalid)
  }

  /** `new_val.Field(i).CanSet()`: the destination is addressable, so only
      unexported struct fields cannot be set. */
  predicate Settable(v: Value, i: nat) {
    v.Struct? && i < |v.fields| ==> v.fields[i].exported
  }

  /** Zero element for the backing storage of MakeSlice. */
  function ZeroAt(st: State, l: Loc): Value {
    if l in st.cells then ZeroLike(st.cells[l]) else Invalid
  }

  /** Lines 33-43: allocate the zero value of v's type, and for a non-nil
      slice or map give it fresh storage of the same length and capacity. */
  function NewShell(v: Value, st: State): (s: Shell)
    requires IsComposite(v)
    ensures |s.slots| == Count(v)
  {
    match v
    case Slice(t, Some(hd)) =>
      var n := |hd.cells|;
      var st1 := AllocRun(st, seq(n, i requires 0 <= i < n => ZeroAt(st, hd.cells[i])));
      Shell(st1.nextLoc, seq(n, i requires 0 <= i < n => Root(st.nextLoc + i)), st.nextTid,
            Alloc(st1, Slice(t, Some(Header(hd.cap, Run(st.nextLoc, n))))))
    case Map(t, Some(_)) =>
      var st1 := AllocTable(st);
      Shell(st1.nextLoc, [], st.nextTid, Alloc(st1, Map(t, Some(st.nextTid))))
    case Array(_, es) =>
      Shell(st.nextLoc, seq(|es|, i requires 0 <= i < |es| => Place(st.nextLoc, [i])), st.nextTid,
            Alloc(st, ZeroLike(v)))
    case Struct(_, fs) =>
      Shell(st.nextLoc, seq(|fs|, i requires 0 <= i < |fs| => Place(st.nextLoc, [i])), st.nextTid,
            Alloc(st, ZeroLike(v)))
    case _ => Shell(st.nextLoc, [], st.nextTid, Alloc(st, ZeroLike(v)))
  }

  /** Lines 23-87: copy the value a handle denotes. */
  function Copy(fuel: nat, h: Handle, st: State): Outcome
    decreases fuel, 0
  {
    if fuel == 0 then Failed(StackExhausted)
    else match Load(st, h)
      case None => Failed(Dangling)
      case Some(v) =>
        if v.Atomic? then Done(h, st)
        else if IsComposite(v) then CopyComposite(fuel - 1, h, v, st)
        else if v.Iface? then CopyIface(fuel - 1, v, st)
        else if v.Invalid? then Failed(NoType)
        else Failed(UnsupportedKind)
  }

  /** Lines 78-83: a new box of the interface type, holding the copy of the
      dynamic value when the source box is not nil. The box itself is never
      memoised. */
  function CopyIface(fuel: nat, v: Value, st: State): Outcome
    requires v.Iface?
    decreases fuel, 3
  {
    var shell := st.nextLoc;
    var st1 := Alloc(st, Iface(v.t, None));
    match v.dyn
    case None => Done(At(Root(shell)), st1)
    case Some(d) =>
      match Copy(fuel, Direct(d), st1)
      case Failed(e) => Failed(e)
      case Done(r, st2) =>
        match Load(st2, r)
        case None => Failed(Dangling)
        case Some(x) => Done(At(Root(shell)), Store(st2, Root(shell), Iface(v.t, Some(x))))
  }

  /** Lines 31-75: allocate the shell, consult and extend the memo, fill. */
  function CopyComposite(fuel: nat, h: Handle, v: Value, st: State): Outcome
    requires IsComposite(v)
    decreases fuel, 3
  {
    var sh := NewShell(v, st);
    if h.At? && KeyOf(h.p, v) in sh.st.visited then Done(sh.st.visited[KeyOf(h.p, v)], sh.st)
    else
      match Fill(fuel, h, v, sh.loc, sh.slots, sh.table, Register(h, v, sh))
      case Stopped(e) => Failed(e)
      case Filled(st3) => Done(At(Root(sh.loc)), st3)
  }

  /** Line 51: an addressable source registers its still-empty shell. */
  function Register(h: Handle, v: Value, sh: Shell): State
    requires !v.Invalid?
  {
    if h.At? then sh.st.(visited := sh.st.visited[KeyOf(h.p, v) := At(Root(sh.loc))]) else sh.st
  }

  /** Lines 55-74: populate the shell according to the kind. */
  function Fill(fuel: nat, h: Handle, v: Value, shell: Loc, slots: seq<Place>, table: Tid, st: State): Progress
    requires IsComposite(v) && |slots| == Count(v)
    decreases fuel, 2
  {
    match v
    case Map(_, Some(id)) =>
      if id in st.tables then CopyEntries(fuel, st.tables[id], table, st.tables[id].Keys, st)
      else Stopped(Dangling)
    case Ptr(t, Some(q)) =>
      (match Copy(fuel, At(q), st)
       case Failed(e) => Stopped(e)
       case Done(r, st1) =>
         if r.At? then Filled(Store(st1, Root(shell), Ptr(t, Some(r.p)))) else Stopped(Unaddressable))
    case Map(_, None) => Filled(st)
    case Ptr(_, None) => Filled(st)
    case _ => CopyElems(fuel, h, v, slots, 0, st)
  }

  /** The loops of lines 57-59 and 69-73 from element i on: each settable
      slot receives the current value of the copy of the source element. */
  function CopyElems(fuel: nat, src: Handle, v: Value, slots: seq<Place>, i: nat, st: State): Progress
    requires |slots| == Count(v) && i <= |slots|
    decreases fuel, 1, |slots| - i
  {
    if i == |slots| then Filled(st)
    else if !Settable(v, i) then CopyElems(fuel, src, v, slots, i + 1, st)
    else match Copy(fuel, Child(src, v, i), st)
      case Failed(e) => Stopped(e)
      case Done(r, st1) =>
        match Load(st1, r)
        case None => Stopped(Dangling)
        case Some(x) => CopyElems(fuel, src, v, slots, i + 1, Store(st1, slots[i], x))
  }

  /** The loop of lines 61-63 over the keys still to do, in ascending order:
      each key is bound in the new table to the copy of its value. */
  function CopyEntries(fuel: nat, src: map<Key, Value>, table: Tid, todo: set<Key>, st: State): Progress
    requires todo <= src.Keys
    decreases fuel, 1, |todo|
  {
    if todo == {} then Filled(st)
    else
      var k := Least(todo);
      match Copy(fuel, Direct(src[k]), st)
      case Failed(e) => Stopped(e)
      case Done(r, st1) =>
        match Load(st1, r)
        case None => Stopped(Dangling)
        case Some(x) => CopyEntries(fuel, src, table, todo - {k}, SetMapIndex(st1, table, k, x))
  }

  /** The smallest key of a non-empty set: the iteration order chosen here
      for `MapKeys`, whose order Go leaves unspecified. */
  function Least(s: set<Key>): (k: Key)
    requires s != {}
    ensures k in s && forall j :: j in s ==> k <= j
  {
    LeastExists(s);
    var k :| k in s && forall j :: j in s ==> k <= j; k
  }

  lemma {:induction false} LeastExists(s: set<Key>)
    requires s != {}
    ensures exists k :: k in s && forall j :: j in s ==> k <= j
    decreases |s|
  {
    var x := PickOne(s);
    if s == {x} {
      assert forall j :: j in s ==> x <= j;
    } else {
      var rest := s - {x};
      LeastExists(rest);
      var m :| m in rest && forall j :: j in rest ==> m <= j;
      var least := if x < m then x else m;
      forall j | j in s ensures least <= j {
        if j != x { assert j in rest; }
      }
    }
  }

  ghost function PickOne(s: set<Key>): (x: Key)
    requires s != {}
    ensures x in s
  {
    NonEmptyHasMember(s);
    var x :| x in s; x
  }

  lemma NonEmptyHasMember(s: set<Key>)
    requires s != {}
    ensures exists x :: x in s
  {
    if forall x :: x !in s {
      assert false;
    }
  }

  /** Lines 19-21: copy with a memo of its own, started empty. */
  function DeepCopyValue(fuel: nat, val: Handle, heap: State): Outcome {
    Copy(fuel, val, heap.(visited := map[]))
  }

  /** Lines 11-16: nil stays nil without any traversal; otherwise copy the
      dynamic value and hand back what the copy holds. */
  function DeepCopy(fuel: nat, i: Option<Value>, heap: State): Answer {
    match i
    case None => Answer(None, heap)
    case Some(v) =>
      match DeepCopyValue(fuel, Direct(v), heap)
      case Failed(e) => Aborted(e)
      case Done(r, st) =>
        match Load(st, r)
        case None => Aborted(Dangling)
        case Some(x) => Answer(Some(x), st)
  }
}
