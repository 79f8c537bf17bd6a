/**
 * The identity memo (deepcopy.go lines 5-8 and 45-52): how `visited` decides
 * between returning an earlier copy and registering a new shell, and what
 * that means for values reached twice.
 */
module Memo {
  import opened Values
  import opened Memory
  import opened DeepCopy
  import opened Frame

  /** Atomic kinds are handed back as the very same handle, with nothing
      allocated and the memo untouched (line 28). */
  lemma AtomicPassThrough(fuel: nat, h: Handle, st: State)
    requires fuel > 0 && Load(st, h).Some? && Load(st, h).value.Atomic?
    ensures Copy(fuel, h, st) == Done(h, st)
  {
  }

  /** The unsupported kind panics (line 86); so does a handle with no type. */
  lemma UnsupportedKindFails(fuel: nat, h: Handle, st: State)
    requires fuel > 0 && Load(st, h).Some?
    requires Load(st, h).value.UnsafePointer? || Load(st, h).value.Invalid?
    ensures Copy(fuel, h, st).Failed?
    ensures Copy(fuel, h, st).fault == (if Load(st, h).value.Invalid? then NoType else UnsupportedKind)
  {
  }

  /** Memo hit (lines 46-50): an addressable composite whose key is already
      present yields the stored copy; the memo and every existing cell and
      table stay as they were (only the discarded shell was allocated). */
  lemma MemoHit(fuel: nat, p: Place, st: State)
    requires fuel > 0 && Load(st, At(p)).Some?
    requires IsComposite(Load(st, At(p)).value)
    requires KeyOf(p, Load(st, At(p)).value) in st.visited
    ensures var o := Copy(fuel, At(p), st);
      o.Done? && o.h == st.visited[KeyOf(p, Load(st, At(p)).value)] &&
      o.st.visited == st.visited &&
      Grows(st, o.st, st.nextLoc, st.nextTid)
  {
    var v := Load(st, At(p)).value;
    NewShellFresh(v, st);
  }

  /** Memo miss (line 51): the fresh shell is registered under the source's
      key before any element is copied, so the copy returned is the entry the
      memo holds afterwards. Together with MemoHit: after any successful copy
      of an addressable composite, its key maps to the copy that was returned. */
  lemma {:induction false} CopyRegistered(fuel: nat, p: Place, st: State)
    requires Load(st, At(p)).Some? && IsComposite(Load(st, At(p)).value)
    requires Copy(fuel, At(p), st).Done?
    ensures var o := Copy(fuel, At(p), st);
      KeyOf(p, Load(st, At(p)).value) in o.st.visited &&
      o.st.visited[KeyOf(p, Load(st, At(p)).value)] == o.h
  {
    var v := Load(st, At(p)).value;
    var key := KeyOf(p, v);
    var sh := NewShell(v, st);
    NewShellFresh(v, st);
    if key !in sh.st.visited {
      var st2 := Register(At(p), v, sh);
      FillGrows(fuel - 1, At(p), v, sh.loc, sh.slots, sh.table, st2, st.nextLoc, st.nextTid);
    }
  }

  /** The memo is only ever extended: entries are added for new keys and
      never replaced. */
  lemma VisitedOnlyGrows(fuel: nat, h: Handle, st: State)
    requires Copy(fuel, h, st).Done?
    ensures st.visited.Keys <= Copy(fuel, h, st).st.visited.Keys
    ensures forall k :: k in st.visited ==> Copy(fuel, h, st).st.visited[k] == st.visited[k]
  {
    CopyGrows(fuel, h, st);
  }

  /** Two places that alias the same storage under the same type (two paths
      to one cell) get one and the same copy, whichever is copied first: the
      second copy returns the first one's shell instead of allocating. */
  lemma AliasesShareCopy(fuel: nat, p: Place, q: Place, st: State)
    requires WellFormed(st) && fuel > 0
    requires Load(st, At(p)).Some? && IsComposite(Load(st, At(p)).value)
    requires Load(st, At(q)).Some? && IsComposite(Load(st, At(q)).value)
    requires KeyOf(p, Load(st, At(p)).value) == KeyOf(q, Load(st, At(q)).value)
    requires Copy(fuel, At(p), st).Done?
    ensures var first := Copy(fuel, At(p), st);
      var second := Copy(fuel, At(q), first.st);
      second.Done? && second.h == first.h
  {
    var first := Copy(fuel, At(p), st);
    CopyRegistered(fuel, p, st);
    CopyGrows(fuel, At(p), st);
    assert Load(first.st, At(q)) == Load(st, At(q));
    MemoHit(fuel, q, first.st);
  }

  /** A struct and its first field start at the same address (and likewise
      an array and its element 0), so the address alone cannot tell them
      apart: the type in the memo key is what keeps their entries distinct. */
  lemma FirstFieldSharesAddress(l: Loc, path: seq<nat>, s: Value)
    requires s.Struct? && |s.fields| > 0 && !s.fields[0].v.Invalid?
    requires s.fields[0].v.t != s.t
    ensures AddrOf(Place(l, path + [0])) == AddrOf(Place(l, path))
    ensures KeyOf(Place(l, path + [0]), s.fields[0].v) != KeyOf(Place(l, path), s)
  {
    assert (path + [0])[..|path + [0]| - 1] == path;
  }

  /** Interface boxes are not addressable in the sense of the memo: copying
      a box found at a place is the same as copying the box value itself, so
      the box is never registered (lines 78-83). */
  lemma IfaceNeverMemoised(fuel: nat, p: Place, st: State)
    requires Load(st, At(p)).Some? && Load(st, At(p)).value.Iface?
    ensures Copy(fuel, At(p), st) == Copy(fuel, Direct(Load(st, At(p)).value), st)
  {
  }
}
