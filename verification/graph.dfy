/**
 * Pointer hierarchies are preserved (deepcopy.go lines 10 and 18): copying
 * a graph of `type Node *Node` cells, as in the self-referential fixtures of
 * deepcopy_test.go, terminates even on a cycle and yields an isomorphic
 * graph of fresh cells. The memo (lines 46-51) maps every node reached to
 * its one copy, and every copied edge leads to the copy of the edge's target.
 */
module Graph {
  import opened Values
  import opened Memory
  import opened DeepCopy
  import opened Frame

  /** The named type of the fixtures: a pointer to its own type. */
  const NodeType: TypeName := "Node"

  /** The memo key of the node stored at the root of cell c. */
  function Key(c: Loc): Visit {
    Visit(Addr(c, []), NodeType)
  }

  lemma KeyOfNode(c: Loc, v: Value)
    requires v.Ptr? && v.t == NodeType
    ensures KeyOf(Root(c), v) == Key(c)
  {
    assert TrimZeros([]) == [];
  }

  /** The cells of S each hold a Node: nil or a pointer to the root of a
      cell of S. */
  ghost predicate NodeHeap(st: State, S: set<Loc>) {
    forall c :: c in S ==>
      c in st.cells && st.cells[c].Ptr? && st.cells[c].t == NodeType &&
      (st.cells[c].target.Some? ==>
         st.cells[c].target.value.path == [] && st.cells[c].target.value.loc in S)
  }

  /** The node of cell c has been reached: the memo holds its copy. */
  ghost predicate Reached(st: State, c: Loc) {
    Key(c) in st.visited && st.visited[Key(c)].At?
  }

  /** The cell of the copy of node c. */
  ghost function CopyOf(st: State, c: Loc): Loc
    requires Reached(st, c)
  {
    st.visited[Key(c)].p.loc
  }

  /** The copy of node c is finished: it is nil when c is nil, and otherwise
      points at the copy of c's target. */
  ghost predicate Mirrors(st: State, c: Loc)
    requires c in st.cells && Reached(st, c)
  {
    var tgt := st.cells[c].Ptr? && st.cells[c].target.Some?;
    CopyOf(st, c) in st.cells &&
    (!tgt ==> st.cells[CopyOf(st, c)] == Ptr(NodeType, None)) &&
    (tgt ==>
       Reached(st, st.cells[c].target.value.loc) &&
       st.cells[CopyOf(st, c)] == Ptr(NodeType, Some(Root(CopyOf(st, st.cells[c].target.value.loc)))))
  }

  /** The copies made so far: each node of S that was reached has a copy of
      its own in a fresh cell at or above base, distinct nodes have distinct
      copies, and every reached node that is not pending (its copy still
      being filled further up the call stack) is mirrored. */
  ghost predicate Copies(st: State, S: set<Loc>, base: Loc, pending: set<Loc>) {
    pending <= S &&
    (forall c :: c in pending ==> Reached(st, c)) &&
    (forall c :: c in S && Key(c) in st.visited ==>
       Reached(st, c) && st.visited[Key(c)].p.path == [] &&
       base <= CopyOf(st, c) < st.nextLoc && CopyOf(st, c) in st.cells) &&
    (forall c, d :: c in S && d in S && Reached(st, c) && Reached(st, d) && c != d ==>
       CopyOf(st, c) != CopyOf(st, d)) &&
    (forall c :: c in S && c in st.cells && Reached(st, c) && c !in pending ==> Mirrors(st, c))
  }

  /** The nodes of S the copy has not reached yet. */
  ghost function Unreached(st: State, S: set<Loc>): set<Loc> {
    set c | c in S && Key(c) !in st.visited
  }

  /** Only new cells and new memo entries: the nodes keep their contents. */
  lemma NodeHeapKept(st: State, st': State, S: set<Loc>, base: Loc, tbase: Tid)
    requires NodeHeap(st, S) && Grows(st, st', base, tbase)
    requires forall c :: c in S ==> c < base
    ensures NodeHeap(st', S)
  {
  }

  /** Lines 64-67 unfolded: a non-nil pointer that is not a memo hit is
      copied to its shell, set to the address of the copy of its target. */
  lemma PtrUnfold(fuel: nat, h: Handle, st: State)
    requires fuel > 0 && Load(st, h).Some? && Load(st, h).value.Ptr? && Load(st, h).value.target.Some?
    requires h.Direct? || KeyOf(h.p, Load(st, h).value) !in st.visited
    ensures var v := Load(st, h).value;
      var sh := NewShell(v, st);
      var o1 := Copy(fuel - 1, At(v.target.value), Register(h, v, sh));
      sh.loc == st.nextLoc && sh.st == Alloc(st, Ptr(v.t, None)) &&
      (o1.Done? && o1.h.At? ==>
         Copy(fuel, h, st) == Done(At(Root(sh.loc)), Store(o1.st, Root(sh.loc), Ptr(v.t, Some(o1.h.p)))))
  {
    var v := Load(st, h).value;
    assert Copy(fuel, h, st) == CopyComposite(fuel - 1, h, v, st);
    NewShellFresh(v, st);
    var sh := NewShell(v, st);
    var st2 := Register(h, v, sh);
    var o1 := Copy(fuel - 1, At(v.target.value), st2);
    if o1.Done? && o1.h.At? {
      assert Fill(fuel - 1, h, v, sh.loc, sh.slots, sh.table, st2)
          == Filled(Store(o1.st, Root(sh.loc), Ptr(v.t, Some(o1.h.p))));
    }
  }

  /** Copying the node at cell c (line 66 applied to a Node pointer) with
      more fuel than there are unreached nodes succeeds, returns the memo's
      copy of c, and keeps the copies consistent. */
  lemma {:induction false} NodeCopy(fuel: nat, c: Loc, st: State, S: set<Loc>, base: Loc, pending: set<Loc>)
    requires NodeHeap(st, S) && c in S
    requires (forall d :: d in S ==> d < base) && base <= st.nextLoc
    requires Copies(st, S, base, pending)
    requires fuel > |Unreached(st, S)|
    ensures var o := Copy(fuel, At(Root(c)), st);
      o.Done? && NodeHeap(o.st, S) && Copies(o.st, S, base, pending) &&
      Reached(o.st, c) && o.h == o.st.visited[Key(c)]
    decreases fuel, 1
  {
    if Key(c) in st.visited {
      NodeHit(fuel, c, st, S, base, pending);
    } else {
      NodeMiss(fuel, c, st, S, base, pending);
    }
  }

  /** A node reached for the first time (lines 51 and 64-67). */
  lemma {:induction false} NodeMiss(fuel: nat, c: Loc, st: State, S: set<Loc>, base: Loc, pending: set<Loc>)
    requires NodeHeap(st, S) && c in S && Key(c) !in st.visited
    requires (forall d :: d in S ==> d < base) && base <= st.nextLoc
    requires Copies(st, S, base, pending)
    requires fuel > |Unreached(st, S)|
    ensures var o := Copy(fuel, At(Root(c)), st);
      o.Done? && NodeHeap(o.st, S) && Copies(o.st, S, base, pending) &&
      Reached(o.st, c) && o.h == o.st.visited[Key(c)]
    decreases fuel, 0
  {
    if st.cells[c].target.None? {
      NilNode(fuel, c, st, S, base, pending);
    } else {
      var st2 := Alloc(st, Ptr(NodeType, None)).(visited := st.visited[Key(c) := At(Root(st.nextLoc))]);
      RegisterNode(c, st, S, base, pending);
      UnreachedShrinks(st, st2, S, c);
      NodeCopy(fuel - 1, st.cells[c].target.value.loc, st2, S, base, pending + {c});
      EdgeNode(fuel, c, st, S, base, pending);
    }
  }

  /** Reaching c leaves one node fewer to reach. */
  lemma UnreachedShrinks(st: State, st2: State, S: set<Loc>, c: Loc)
    requires c in S && Key(c) !in st.visited
    requires st2.visited == st.visited[Key(c) := At(Root(st.nextLoc))]
    ensures |Unreached(st2, S)| == |Unreached(st, S)| - 1
  {
    assert Unreached(st2, S) == Unreached(st, S) - {c};
  }

  /** A nil node: its shell, registered, is already its finished copy. */
  lemma NilNode(fuel: nat, c: Loc, st: State, S: set<Loc>, base: Loc, pending: set<Loc>)
    requires NodeHeap(st, S) && c in S && Key(c) !in st.visited && fuel > 0
    requires st.cells[c].target.None?
    requires (forall d :: d in S ==> d < base) && base <= st.nextLoc
    requires Copies(st, S, base, pending)
    ensures var o := Copy(fuel, At(Root(c)), st);
      o.Done? && NodeHeap(o.st, S) && Copies(o.st, S, base, pending) &&
      Reached(o.st, c) && o.h == o.st.visited[Key(c)]
  {
    var v := st.cells[c];
    KeyOfNode(c, v);
    assert Load(st, At(Root(c))) == Some(v);
    var n := st.nextLoc;
    var st1 := Alloc(st, Ptr(NodeType, None));
    var st2 := st1.(visited := st1.visited[Key(c) := At(Root(n))]);
    RegisterNode(c, st, S, base, pending);
    assert Copy(fuel, At(Root(c)), st) == CopyComposite(fuel - 1, At(Root(c)), v, st);
    var sh := NewShell(v, st);
    assert sh.st == st1 && sh.loc == n;
    assert Register(At(Root(c)), v, sh) == st2;
    assert Fill(fuel - 1, At(Root(c)), v, sh.loc, sh.slots, sh.table, st2) == Filled(st2);
    assert Copy(fuel, At(Root(c)), st) == Done(At(Root(n)), st2);
    assert Mirrors(st2, c);
  }

  /** A node with an edge to d: once d's copy is known (the recursive call,
      with c pending), c's shell is set to point at it. */
  lemma EdgeNode(fuel: nat, c: Loc, st: State, S: set<Loc>, base: Loc, pending: set<Loc>)
    requires NodeHeap(st, S) && c in S && Key(c) !in st.visited && fuel > 0
    requires st.cells[c].target.Some?
    requires (forall d :: d in S ==> d < base) && base <= st.nextLoc
    requires Copies(st, S, base, pending)
    requires var st2 := Alloc(st, Ptr(NodeType, None)).(visited := st.visited[Key(c) := At(Root(st.nextLoc))]);
      var o1 := Copy(fuel - 1, At(Root(st.cells[c].target.value.loc)), st2);
      NodeHeap(st2, S) && Copies(st2, S, base, pending + {c}) &&
      o1.Done? && NodeHeap(o1.st, S) && Copies(o1.st, S, base, pending + {c}) &&
      Reached(o1.st, st.cells[c].target.value.loc) &&
      o1.h == o1.st.visited[Key(st.cells[c].target.value.loc)]
    ensures var o := Copy(fuel, At(Root(c)), st);
      o.Done? && NodeHeap(o.st, S) && Copies(o.st, S, base, pending) &&
      Reached(o.st, c) && o.h == o.st.visited[Key(c)]
  {
    var v := st.cells[c];
    KeyOfNode(c, v);
    assert Load(st, At(Root(c))) == Some(v);
    var n := st.nextLoc;
    var st2 := Alloc(st, Ptr(NodeType, None)).(visited := st.visited[Key(c) := At(Root(n))]);
    var d := v.target.value.loc;
    assert v.target.value == Root(d);
    PtrUnfold(fuel, At(Root(c)), st);
    assert Register(At(Root(c)), v, NewShell(v, st)) == st2;
    var o1 := Copy(fuel - 1, At(Root(d)), st2);
    CopyGrows(fuel - 1, At(Root(d)), st2);
    assert o1.st.cells[c] == v && o1.st.visited[Key(c)] == At(Root(n));
    FinishNode(c, d, o1.st, S, base, pending, n);
  }

  /** A node reached before (line 49): the copy is the memo's, and the shell
      allocated meanwhile disturbs nothing. */
  lemma NodeHit(fuel: nat, c: Loc, st: State, S: set<Loc>, base: Loc, pending: set<Loc>)
    requires NodeHeap(st, S) && c in S && fuel > 0
    requires (forall d :: d in S ==> d < base) && base <= st.nextLoc
    requires Copies(st, S, base, pending) && Key(c) in st.visited
    ensures var o := Copy(fuel, At(Root(c)), st);
      o.Done? && NodeHeap(o.st, S) && Copies(o.st, S, base, pending) &&
      Reached(o.st, c) && o.h == o.st.visited[Key(c)] &&
      Grows(st, o.st, st.nextLoc, st.nextTid)
  {
    var v := st.cells[c];
    KeyOfNode(c, v);
    assert Load(st, At(Root(c))) == Some(v);
    var st1 := Alloc(st, Ptr(NodeType, None));
    assert Copy(fuel, At(Root(c)), st) == Done(st.visited[Key(c)], st1);
    AllocGrows(st, Ptr(NodeType, None));
    NodeHeapKept(st, st1, S, base, st.nextTid);
    forall e | e in S && e in st1.cells && Reached(st1, e) && e !in pending
      ensures Mirrors(st1, e)
    {
      assert Mirrors(st, e);
    }
  }

  /** Line 51 for a node: its fresh shell n becomes its copy, pending. */
  lemma RegisterNode(c: Loc, st: State, S: set<Loc>, base: Loc, pending: set<Loc>)
    requires NodeHeap(st, S) && c in S && Key(c) !in st.visited
    requires (forall d :: d in S ==> d < base) && base <= st.nextLoc
    requires Copies(st, S, base, pending)
    ensures var st1 := Alloc(st, Ptr(NodeType, None));
      var st2 := st1.(visited := st1.visited[Key(c) := At(Root(st.nextLoc))]);
      NodeHeap(st2, S) && Copies(st2, S, base, pending + {c}) && CopyOf(st2, c) == st.nextLoc &&
      base <= st2.nextLoc
  {
    var n := st.nextLoc;
    var st1 := Alloc(st, Ptr(NodeType, None));
    var st2 := st1.(visited := st1.visited[Key(c) := At(Root(n))]);
    forall e | e in S && Key(e) in st2.visited
      ensures Reached(st2, e) && st2.visited[Key(e)].p.path == [] &&
        base <= CopyOf(st2, e) < st2.nextLoc && CopyOf(st2, e) in st2.cells
    {
      if e != c {
        assert Key(e) in st.visited;
      }
    }
    forall e, d | e in S && d in S && Reached(st2, e) && Reached(st2, d) && e != d
      ensures CopyOf(st2, e) != CopyOf(st2, d)
    {
      if e != c && d != c {
        assert CopyOf(st2, e) == CopyOf(st, e) && CopyOf(st2, d) == CopyOf(st, d);
      } else if e == c {
        assert Key(d) in st.visited && CopyOf(st, d) < n;
      } else {
        assert Key(e) in st.visited && CopyOf(st, e) < n;
      }
    }
    forall e | e in S && e in st2.cells && Reached(st2, e) && e !in pending + {c}
      ensures Mirrors(st2, e)
    {
      assert Mirrors(st, e);
      var tv := st.cells[e];
      if tv.Ptr? && tv.target.Some? {
        assert tv.target.value.loc != c;
      }
    }
  }

  /** Line 66 for a node: once its target's copy d' is known, the shell n of
      node c is set to point at it, and c is no longer pending. */
  lemma FinishNode(c: Loc, d: Loc, st: State, S: set<Loc>, base: Loc, pending: set<Loc>, n: Loc)
    requires NodeHeap(st, S) && c in S && d in S
    requires (forall e :: e in S ==> e < base)
    requires Copies(st, S, base, pending + {c}) && Reached(st, d) && c !in pending
    requires Reached(st, c) && CopyOf(st, c) == n
    requires st.cells[c] == Ptr(NodeType, Some(Root(d)))
    ensures var st3 := Store(st, Root(n), Ptr(NodeType, Some(Root(CopyOf(st, d)))));
      NodeHeap(st3, S) && Copies(st3, S, base, pending)
  {
    var st3 := Store(st, Root(n), Ptr(NodeType, Some(Root(CopyOf(st, d)))));
    assert n in st.cells;
    assert st3.cells == st.cells[n := Ptr(NodeType, Some(Root(CopyOf(st, d))))];
    forall e | e in S && e in st3.cells && Reached(st3, e) && e !in pending
      ensures Mirrors(st3, e)
    {
      if e != c {
        assert Mirrors(st, e);
        assert CopyOf(st, e) != n;
      }
    }
  }

  /** `DeepCopy` of a pointer into a Node graph (lines 11-16) succeeds when
      the stack is deeper than the graph has nodes, and returns a pointer
      to the copy of the first node; every node reached has its own fresh
      copy and every copied edge leads to the copy of its target. */
  lemma GraphCopied(fuel: nat, c0: Loc, S: set<Loc>, heap: State)
    requires WellFormed(heap) && NodeHeap(heap, S) && c0 in S
    requires fuel > |S| + 1
    ensures var a := DeepCopy.DeepCopy(fuel, Some(Ptr(NodeType, Some(Root(c0)))), heap);
      a.Answer? && Reached(a.st, c0) &&
      a.i == Some(Ptr(NodeType, Some(Root(CopyOf(a.st, c0))))) &&
      NodeHeap(a.st, S) && Copies(a.st, S, heap.nextLoc + 1, {})
  {
    var v0 := Ptr(NodeType, Some(Root(c0)));
    var st0 := heap.(visited := map[]);
    var s := st0.nextLoc;
    var st1 := Alloc(st0, Ptr(NodeType, None));
    PtrUnfold(fuel, Direct(v0), st0);
    assert Unreached(st1, S) == S;
    NodeCopy(fuel - 1, c0, st1, S, s + 1, {});
    var o1 := Copy(fuel - 1, At(Root(c0)), st1);
    CopyGrows(fuel - 1, At(Root(c0)), st1);
    StoreOutside(o1.st, S, s + 1, s, Ptr(NodeType, Some(o1.h.p)));
  }

  /** Writing a cell below every copy and above every node changes nothing
      the copies are judged by. */
  lemma StoreOutside(st: State, S: set<Loc>, base: Loc, s: Loc, x: Value)
    requires NodeHeap(st, S) && Copies(st, S, base, {})
    requires (forall e :: e in S ==> e < s) && s < base && s in st.cells
    ensures NodeHeap(Store(st, Root(s), x), S) && Copies(Store(st, Root(s), x), S, base, {})
  {
    var st3 := Store(st, Root(s), x);
    assert st3.cells == st.cells[s := x];
    forall e | e in S && e in st3.cells && Reached(st3, e)
      ensures Mirrors(st3, e)
    {
      assert Mirrors(st, e);
    }
  }

  /** The heap of the fixture node1 of deepcopy_test.go lines 45-54: node1
      is cell 0; Addr(node1, 4) builds cells 1 to 4, each pointing at the one
      before, and init closes the cycle by pointing cell 0 at cell 4. */
  function Node1Heap(): State {
    State(map[0 := Ptr(NodeType, Some(Root(4))),
              1 := Ptr(NodeType, Some(Root(0))),
              2 := Ptr(NodeType, Some(Root(1))),
              3 := Ptr(NodeType, Some(Root(2))),
              4 := Ptr(NodeType, Some(Root(3)))],
          map[], 5, 0, map[])
  }

  /** The fixture is a well-formed heap of five Nodes. */
  lemma Node1Shape(heap: State, S: set<Loc>)
    requires heap == Node1Heap() && S == {0, 1, 2, 3, 4}
    ensures WellFormed(heap) && NodeHeap(heap, S) && |S| == 5
    ensures forall k :: 1 <= k < 5 ==> heap.cells[k] == Ptr(NodeType, Some(Root(k - 1)))
    ensures heap.cells[0] == Ptr(NodeType, Some(Root(4)))
  {
  }

  /** DeepCopy(node1) (deepcopy_test.go line 91), given a stack at least
      seven calls deep, terminates and returns a pointer into a cycle of
      five fresh, distinct nodes that runs in the same order as the
      original cycle. */
  lemma Node1CopiedAsCycle(fuel: nat, heap: State)
    requires fuel >= 7 && heap == Node1Heap()
    ensures var a := DeepCopy.DeepCopy(fuel, Some(Ptr(NodeType, Some(Root(0)))), heap);
      a.Answer? &&
      (forall k :: 0 <= k < 5 ==> Reached(a.st, k) && 5 <= CopyOf(a.st, k) && CopyOf(a.st, k) in a.st.cells) &&
      a.i == Some(Ptr(NodeType, Some(Root(CopyOf(a.st, 0))))) &&
      a.st.cells[CopyOf(a.st, 0)] == Ptr(NodeType, Some(Root(CopyOf(a.st, 4)))) &&
      (forall k :: 1 <= k < 5 ==> a.st.cells[CopyOf(a.st, k)] == Ptr(NodeType, Some(Root(CopyOf(a.st, k - 1))))) &&
      (forall j, k :: 0 <= j < k < 5 ==> CopyOf(a.st, j) != CopyOf(a.st, k))
  {
    var S: set<Loc> := {0, 1, 2, 3, 4};
    Node1Shape(heap, S);
    GraphCopied(fuel, 0, S, heap);
    SourceUntouched(fuel, Ptr(NodeType, Some(Root(0))), heap);
    var a := DeepCopy.DeepCopy(fuel, Some(Ptr(NodeType, Some(Root(0)))), heap);
    var st := a.st;
    EdgeCopied(st, S, 6, 0, 4);
    EdgeCopied(st, S, 6, 4, 3);
    EdgeCopied(st, S, 6, 3, 2);
    EdgeCopied(st, S, 6, 2, 1);
    EdgeCopied(st, S, 6, 1, 0);
  }

  /** Once every reached node is mirrored, an edge from a reached node c to
      d is copied as an edge from c's copy to d's copy. */
  lemma EdgeCopied(st: State, S: set<Loc>, base: Loc, c: Loc, d: Loc)
    requires Copies(st, S, base, {}) && c in S && c in st.cells && Reached(st, c)
    requires st.cells[c] == Ptr(NodeType, Some(Root(d)))
    ensures Reached(st, d) && CopyOf(st, c) in st.cells &&
      st.cells[CopyOf(st, c)] == Ptr(NodeType, Some(Root(CopyOf(st, d))))
  {
    assert Mirrors(st, c);
  }
}
