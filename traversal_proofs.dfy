/**
  What the traversal engine guarantees: the session invariant that every
  operation keeps (no identity queued or described twice, every graph node a
  known identity, every edge between nodes), the FIFO discipline of the queue,
  and the shape of array, struct and pointer expansion.
*/
module TraversalProofs {
  import opened Wrappers
  import opened GdbTypes
  import opened Inferior
  import opened Traversal

  /** The session invariant. */
  ghost predicate Inv(st: State) {
    && (forall i, j :: 0 <= i < j < |st.found| ==> st.found[i].index != st.found[j].index)
    && (forall i :: 0 <= i < |st.found| ==> st.found[i].index in st.known)
    && (forall i, j :: 0 <= i < j < |st.described| ==> st.described[i].index != st.described[j].index)
    && (forall i :: 0 <= i < |st.described| ==>
          st.described[i].index in st.nodes && st.described[i].index.addr != NoAddr)
    && (forall i, j :: 0 <= i < |st.found| && 0 <= j < |st.described| ==>
          st.found[i].index != st.described[j].index)
    && st.nodes <= st.known
    && (forall e :: e in st.edges ==> e.from in st.nodes && e.to in st.nodes)
  }

  /** st' extends st: identities are only learned, the queue only grows at its
      back, and every object added to it has an identity st did not know. */
  ghost predicate Extends(st: State, st': State) {
    && st.known <= st'.known
    && |st.found| <= |st'.found|
    && st'.found[..|st.found|] == st.found
    && (forall k :: |st.found| <= k < |st'.found| ==> st'.found[k].index !in st.known)
    && st'.described == st.described
  }

  lemma ExtendsTrans(a: State, b: State, c: State)
    requires Extends(a, b) && Extends(b, c)
    ensures Extends(a, c)
  {
    assert c.found[..|a.found|] == c.found[..|b.found|][..|a.found|];
    forall k | |a.found| <= k < |c.found|
      ensures c.found[k].index !in a.known
    {
      if k < |b.found| {
        assert c.found[k] == c.found[..|b.found|][k];
      }
    }
  }

  lemma ExtendsRefl(st: State)
    ensures Extends(st, st)
  {
    assert st.found[..|st.found|] == st.found;
  }

  lemma EmptyInv()
    ensures Inv(Empty)
  {
  }

  /** Learning a fresh identity and possibly queueing the object that has it. */
  lemma FreshChild(st: State, o: Obj, e: Option<Edge>, enqueue: bool)
    requires Inv(st) && o.index !in st.known
    requires e.Some? ==> e.value.from in st.known && e.value.to == o.index
    ensures var linked := if e.Some? then AddEdge(Learn(st, o.index), e.value) else Learn(st, o.index);
            var st' := if enqueue then Enqueue(linked, o) else linked;
            Inv(st') && Extends(st, st')
  {
    FreshChildExtends(st, o, e, enqueue);
  }

  lemma FreshChildExtends(st: State, o: Obj, e: Option<Edge>, enqueue: bool)
    requires o.index !in st.known
    ensures var linked := if e.Some? then AddEdge(Learn(st, o.index), e.value) else Learn(st, o.index);
            var st' := if enqueue then Enqueue(linked, o) else linked;
            Extends(st, st')
  {
    var linked := if e.Some? then AddEdge(Learn(st, o.index), e.value) else Learn(st, o.index);
    var st' := if enqueue then Enqueue(linked, o) else linked;
    assert st'.found[..|st.found|] == st.found;
  }

  /** Range expansion keeps the invariant and only appends fresh objects. */
  lemma {:induction false} RangeKeepsInv(st: State, x: Obj, es: seq<Obj>, k: nat)
    requires k <= |es|
    requires Inv(st) && x.index in st.known
    ensures var r := RangeFrom(st, x, es, k);
            Inv(r.st) && Extends(st, r.st) && x.index in r.st.known
    decreases |es| - k
  {
    if k == |es| {
      ExtendsRefl(st);
    } else {
      var child := es[k];
      if child.index in st.known {
        ExtendsRefl(st);
      } else {
        var e := if k == 0 then Some(Edge(x.index, child.index, Brackets)) else None;
        var linked := if k == 0 then AddEdge(Learn(st, child.index), Edge(x.index, child.index, Brackets))
                      else Learn(st, child.index);
        match child.value.addr
        case NoAddr =>
          FreshChild(st, child, e, false);
        case At(n) =>
          var next := if n != 0 then Enqueue(linked, child) else linked;
          FreshChild(st, child, e, n != 0);
          RangeKeepsInv(next, x, es, k + 1);
          ExtendsTrans(st, next, RangeFrom(next, x, es, k + 1).st);
      }
    }
  }

  /** Struct expansion keeps the invariant. */
  lemma {:induction false} StructKeepsInv(st: State, cs: seq<Obj>, k: nat)
    requires k <= |cs|
    requires Inv(st)
    ensures Inv(StructFrom(st, cs, k))
    decreases |cs| - k
  {
    if k < |cs| {
      var child := cs[k];
      if child.index !in st.known {
        var learned := Learn(st, child.index);
        var next := if !IsNull(child.value.addr) then Enqueue(learned, child) else learned;
        FreshChild(st, child, None, !IsNull(child.value.addr));
        StructKeepsInv(next, cs, k + 1);
      }
    }
  }

  /** Struct expansion only appends fresh children with a non-null address,
      and adds no edges. */
  lemma {:induction false} StructFrame(st: State, cs: seq<Obj>, k: nat)
    requires k <= |cs|
    ensures var r := StructFrom(st, cs, k);
            && Extends(st, r) && r.edges == st.edges && r.nodes == st.nodes
            && r.explored == st.explored && r.allocations == st.allocations
            && (forall j :: |st.found| <= j < |r.found| ==>
                  r.found[j] in cs[k..] && !IsNull(r.found[j].value.addr))
    decreases |cs| - k
  {
    if k == |cs| {
      ExtendsRefl(st);
    } else {
      var child := cs[k];
      if child.index in st.known {
        ExtendsRefl(st);
      } else {
        var learned := Learn(st, child.index);
        var next := if !IsNull(child.value.addr) then Enqueue(learned, child) else learned;
        FreshChildExtends(st, child, None, !IsNull(child.value.addr));
        StructFrame(next, cs, k + 1);
        var r := StructFrom(next, cs, k + 1);
        ExtendsTrans(st, next, r);
        assert cs[k..] == [child] + cs[k + 1..];
        forall j | |st.found| <= j < |r.found|
          ensures r.found[j] in cs[k..] && !IsNull(r.found[j].value.addr)
        {
          if j < |next.found| {
            assert r.found[j] == r.found[..|next.found|][j];
          }
        }
      }
    }
  }

  /** The scan from child k stops at child m: children k..m-1 have fresh,
      pairwise distinct identities, and child m, if there is one, has an
      identity known by the time the scan reaches it. */
  ghost predicate ScanStopsAt(known: set<Index>, cs: seq<Obj>, k: nat, m: nat)
    requires k <= m <= |cs|
  {
    && (forall j :: k <= j < m ==> cs[j].index !in known)
    && (forall i, j :: k <= i < j < m ==> cs[i].index != cs[j].index)
    && (m < |cs| ==> cs[m].index in known + IndexSet(cs[k..m]))
  }

  /** Every scan has a stopping point. */
  lemma {:induction false} ScanStop(known: set<Index>, cs: seq<Obj>, k: nat) returns (m: nat)
    requires k <= |cs|
    ensures k <= m <= |cs| && ScanStopsAt(known, cs, k, m)
    decreases |cs| - k
  {
    if k == |cs| || cs[k].index in known {
      m := k;
      assert IndexSet(cs[k..m]) == {};
    } else {
      m := ScanStop(known + {cs[k].index}, cs, k + 1);
      SliceCons(cs, k, m);
    }
  }

  /** The field scan from child k queues, in field order, every child with
      a non-null address up to the first child whose identity is already
      known. */
  lemma {:induction false} StructQueuesInOrder(st: State, cs: seq<Obj>, k: nat, m: nat)
    requires k <= m <= |cs|
    requires ScanStopsAt(st.known, cs, k, m)
    ensures StructFrom(st, cs, k).found == st.found + Enqueued(cs[k..m])
    decreases m - k
  {
    if k == m {
      StructDone(st, cs, k, m);
    } else {
      var next := StructStep(st, cs, k, m);
      StructQueuesInOrder(next, cs, k + 1, m);
      QueuedAfterStep(st.found, next.found, StructFrom(next, cs, k + 1).found, cs, k, m);
    }
  }

  /** Queueing child k and then the children k+1..m queues the children k..m. */
  lemma QueuedAfterStep(before: seq<Obj>, mid: seq<Obj>, after: seq<Obj>, cs: seq<Obj>, k: nat, m: nat)
    requires k < m <= |cs|
    requires mid == before + (if cs[k].value.addr.At? && cs[k].value.addr.n != 0 then [cs[k]] else [])
    requires after == mid + Enqueued(cs[k + 1..m])
    ensures after == before + Enqueued(cs[k..m])
  {
    SliceCons(cs, k, m);
  }

  /** The field scan from child k learns the identities of exactly the
      children before the first one whose identity is already known. */
  lemma {:induction false} StructLearnsScanned(st: State, cs: seq<Obj>, k: nat, m: nat)
    requires k <= m <= |cs|
    requires ScanStopsAt(st.known, cs, k, m)
    ensures StructFrom(st, cs, k).known == st.known + IndexSet(cs[k..m])
    decreases m - k
  {
    if k == m {
      StructDone(st, cs, k, m);
    } else {
      var next := StructStep(st, cs, k, m);
      StructLearnsScanned(next, cs, k + 1, m);
      SliceCons(cs, k, m);
    }
  }

  /** The scan ends where it stops, changing nothing more. */
  lemma StructDone(st: State, cs: seq<Obj>, k: nat, m: nat)
    requires k == m <= |cs| && ScanStopsAt(st.known, cs, k, m)
    ensures StructFrom(st, cs, k) == st && Enqueued(cs[k..m]) == [] && IndexSet(cs[k..m]) == {}
  {
    assert cs[k..m] == [];
  }

  /** One child of the scan before its stopping point: it is learned, and
      queued when its address is not null; the rest of the scan stops at the
      same point. */
  lemma StructStep(st: State, cs: seq<Obj>, k: nat, m: nat) returns (next: State)
    requires k < m <= |cs| && ScanStopsAt(st.known, cs, k, m)
    ensures next.found == st.found + (if cs[k].value.addr.At? && cs[k].value.addr.n != 0 then [cs[k]] else [])
    ensures next.known == st.known + {cs[k].index}
    ensures StructFrom(st, cs, k) == StructFrom(next, cs, k + 1)
    ensures ScanStopsAt(next.known, cs, k + 1, m)
  {
    var child := cs[k];
    var learned := Learn(st, child.index);
    next := if !IsNull(child.value.addr) then Enqueue(learned, child) else learned;
    SliceCons(cs, k, m);
  }

  /** IndexSet and Enqueued of the slice k..m, split at its first element. */
  lemma SliceCons(es: seq<Obj>, k: nat, m: nat)
    requires k < m <= |es|
    ensures IndexSet(es[k..m]) == {es[k].index} + IndexSet(es[k + 1..m])
    ensures Enqueued(es[k..m]) ==
              (if es[k].value.addr.At? && es[k].value.addr.n != 0 then [es[k]] else []) + Enqueued(es[k + 1..m])
  {
    IndexSetCons(es[..m], k);
    EnqueuedCons(es[..m], k);
    assert es[..m][k..] == es[k..m] && es[..m][k + 1..] == es[k + 1..m];
  }

  /** Struct expansion: nothing happens for a struct with a null address.
      Otherwise only fresh, non-null children named after the struct, with
      the struct as parent, are queued, no edge is added, and the fields up
      to the first one whose identity is already known are learned, their
      non-null children queued in field order. */
  lemma StructExpansion(proc: Process, st: State, x: Obj)
    ensures var r := ExploreStruct(proc, st, x);
            var cs := FieldChildren(x, Fields(proc.structs, x.value.ty));
            && (IsNull(x.index.addr) ==> r == st)
            && Extends(st, r) && r.edges == st.edges && r.nodes == st.nodes
            && (forall j :: |st.found| <= j < |r.found| ==>
                  r.found[j].name == x.name && r.found[j].parent == Some(x.index)
                  && !IsNull(r.found[j].value.addr))
            && (forall m: nat :: !IsNull(x.index.addr) && m <= |cs| && ScanStopsAt(st.known, cs, 0, m) ==>
                  r.found == st.found + Enqueued(cs[..m]) && r.known == st.known + IndexSet(cs[..m]))
            && (!IsNull(x.index.addr) ==> exists m: nat :: m <= |cs| && ScanStopsAt(st.known, cs, 0, m))
  {
    var cs := FieldChildren(x, Fields(proc.structs, x.value.ty));
    if IsNull(x.index.addr) {
      ExtendsRefl(st);
    } else {
      StructFrame(st, cs, 0);
      var r := StructFrom(st, cs, 0);
      forall j | |st.found| <= j < |r.found|
        ensures r.found[j].name == x.name && r.found[j].parent == Some(x.index)
      {
        var i :| 0 <= i < |cs[0..]| && cs[0..][i] == r.found[j];
      }
      var stop := ScanStop(st.known, cs, 0);
      forall m: nat | m <= |cs| && ScanStopsAt(st.known, cs, 0, m)
        ensures r.found == st.found + Enqueued(cs[..m]) && r.known == st.known + IndexSet(cs[..m])
      {
        StructQueuesInOrder(st, cs, 0, m);
        StructLearnsScanned(st, cs, 0, m);
        assert cs[0..m] == cs[..m];
      }
    }
  }

  /** Pointer expansion keeps the invariant and only appends fresh objects. */
  lemma PointerKeepsInv(proc: Process, st: State, x: Obj)
    requires StripTypedefs(x.value.ty).Pointer?
    requires Inv(st) && x.index in st.known
    ensures var r := ExplorePointer(proc, st, x); Inv(r.st) && Extends(st, r.st)
  {
    match Dereference(proc, x.value)
    case MemoryError => ExtendsRefl(st);
    case DebuggerError => ExtendsRefl(st);
    case Pointee(pv) =>
      var addr := pv.addr.n;
      if addr !in st.explored {
        if addr in st.allocations {
          WidenKeepsInv(proc, st, x, addr, Sizeof(proc.structs, pv.ty));
        } else {
          FollowKeepsInv(st, x, pv);
        }
      } else {
        LinkKeepsInv(st, x, pv);
      }
  }

  lemma WidenKeepsInv(proc: Process, st: State, x: Obj, addr: nat, typeSize: nat)
    requires StripTypedefs(x.value.ty).Pointer? && addr in st.allocations
    requires Inv(st) && x.index in st.known
    ensures var r := WidenPointer(proc, st, x, addr, typeSize); Inv(r.st) && Extends(st, r.st)
  {
    if typeSize == 0 {
      ExtendsRefl(st);
    } else {
      RangeKeepsInv(st, x, Elements(proc, x, 0, (st.allocations[addr] / typeSize) as int - 1), 0);
    }
  }

  lemma FollowKeepsInv(st: State, x: Obj, pv: Value)
    requires Inv(st) && x.index in st.known
    ensures var r := FollowPointer(st, x, pv); Inv(r.st) && Extends(st, r.st)
  {
    var idx := IndexOf(pv);
    if idx in st.known {
      ExtendsRefl(st);
    } else {
      var child := Obj("*" + x.name, Some(x.index), pv, idx);
      FreshChild(st, child, if pv.addr.At? then Some(Edge(x.index, idx, Star)) else None, pv.addr.At?);
    }
  }

  lemma LinkKeepsInv(st: State, x: Obj, pv: Value)
    requires Inv(st) && x.index in st.known
    ensures var r := LinkPointer(st, x, pv); Inv(r.st) && Extends(st, r.st)
  {
    var idx := IndexOf(pv);
    if idx in st.known {
      ExtendsRefl(st);
    } else {
      FreshChild(st, Obj("*" + x.name, Some(x.index), pv, idx), Some(Edge(x.index, idx, Star)), false);
    }
  }

  lemma ObjectKeepsInv(proc: Process, st: State, x: Obj)
    requires Inv(st) && x.index in st.known
    ensures var r := ExploreObject(proc, st, x); Inv(r.st) && Extends(st, r.st)
  {
    match StripTypedefs(x.value.ty)
    case Array(lo, hi, _) => RangeKeepsInv(st, x, Elements(proc, x, lo, hi), 0);
    case Struct(_) =>
      StructExpansion(proc, st, x);
      if !IsNull(x.index.addr) {
        StructKeepsInv(st, FieldChildren(x, Fields(proc.structs, x.value.ty)), 0);
      }
    case Pointer(_) => PointerKeepsInv(proc, st, x);
    case _ => ExtendsRefl(st);
  }

  /** A popped object becomes a graph node and a described record exactly
      when its address is known; nothing else changes. */
  lemma DescribeRecordsAddressed(st: State, x: Obj)
    ensures var d := Describe(st, x);
            && (x.index.addr != NoAddr <==> d.described == st.described + [x])
            && (x.index.addr == NoAddr <==> d.described == st.described)
            && d.nodes == st.nodes + (if x.index.addr != NoAddr then {x.index} else {})
            && d.found == st.found && d.known == st.known && d.edges == st.edges
            && d.explored == st.explored && d.allocations == st.allocations
  {
  }

  /** Only arrays, structs and pointers (after stripping typedefs) are
      expanded; every other object is a leaf. */
  lemma LeavesAreNotExpanded(proc: Process, st: State, x: Obj)
    requires var t := StripTypedefs(x.value.ty); !t.Array? && !t.Struct? && !t.Pointer?
    ensures ExploreObject(proc, st, x) == Res(st, Normal)
  {
  }

  /** One step of the searcher keeps the invariant and is first-in first-out:
      the rest of the queue stays in front, in order, and everything the step
      queues has an identity that was unknown before the step. */
  lemma StepKeepsInv(proc: Process, st: State)
    requires Inv(st) && |st.found| > 0
    ensures var r := Step(proc, st);
            && Inv(r.st)
            && st.known <= r.st.known
            && |st.found| - 1 <= |r.st.found|
            && r.st.found[..|st.found| - 1] == st.found[1..]
            && (forall k :: |st.found| - 1 <= k < |r.st.found| ==> r.st.found[k].index !in st.known)
  {
    var x := st.found[0];
    var popped := st.(found := st.found[1..]);
    assert Inv(popped);
    var described := Describe(popped, x);
    assert Inv(described);
    ObjectKeepsInv(proc, described, x);
  }

  /** The searcher's loop keeps the invariant, however it ends. */
  lemma {:induction false} RunKeepsInv(proc: Process, st: State, misses: nat, fuel: nat)
    requires Inv(st)
    ensures Inv(RunFrom(proc, st, misses, fuel).0)
    ensures st.known <= RunFrom(proc, st, misses, fuel).0.known
    decreases fuel
  {
    if fuel == 0 {
    } else if |st.found| > 0 {
      StepKeepsInv(proc, st);
      var r := Step(proc, st);
      if !r.out.Raised? {
        RunKeepsInv(proc, r.st, 0, fuel - 1);
      }
    } else if misses < 3 {
      RunKeepsInv(proc, st, misses + 1, fuel - 1);
    }
  }

  /** A run that finishes leaves the queue empty. */
  lemma {:induction false} FinishedRunIsDrained(proc: Process, st: State, misses: nat, fuel: nat)
    ensures RunFrom(proc, st, misses, fuel).1 == Finished ==> RunFrom(proc, st, misses, fuel).0.found == []
    decreases fuel
  {
    if fuel > 0 {
      if |st.found| > 0 {
        var r := Step(proc, st);
        if !r.out.Raised? {
          FinishedRunIsDrained(proc, r.st, 0, fuel - 1);
        }
      } else if misses < 3 {
        FinishedRunIsDrained(proc, st, misses + 1, fuel - 1);
      }
    }
  }

  /** With nothing queued, the searcher counts three misses and returns on the
      fourth consecutive empty poll, changing nothing. */
  lemma {:induction false} DrainedRunFinishes(proc: Process, st: State, misses: nat, fuel: nat)
    requires st.found == [] && misses <= 3
    ensures RunFrom(proc, st, misses, fuel) == (st, if fuel >= 4 - misses then Finished else OutOfFuel)
    decreases fuel
  {
    if fuel > 0 && misses < 3 {
      DrainedRunFinishes(proc, st, misses + 1, fuel - 1);
    }
  }

  /** Seeding keeps the invariant, adds no edges, and queues only fresh roots. */
  lemma {:induction false} SeedKeepsInv(st: State, roots: seq<Option<Obj>>, k: nat)
    requires k <= |roots|
    requires Inv(st)
    ensures var r := SeedFrom(st, roots, k);
            && Inv(r) && Extends(st, r) && r.edges == st.edges && r.nodes == st.nodes
            && (forall j :: |st.found| <= j < |r.found| ==> Some(r.found[j]) in roots[k..])
    decreases |roots| - k
  {
    if k == |roots| {
      ExtendsRefl(st);
    } else {
      assert roots[k..] == [roots[k]] + roots[k + 1..];
      match roots[k]
      case None => ExtendsRefl(st);
      case Some(o) =>
        if o.index in st.known {
          SeedKeepsInv(st, roots, k + 1);
        } else {
          var next := Enqueue(Learn(st, o.index), o);
          FreshChild(st, o, None, true);
          SeedKeepsInv(next, roots, k + 1);
          var r := SeedFrom(next, roots, k + 1);
          ExtendsTrans(st, next, r);
          forall j | |st.found| <= j < |r.found|
            ensures Some(r.found[j]) in roots[k..]
          {
            if j < |next.found| {
              assert r.found[j] == r.found[..|next.found|][j];
            }
          }
        }
    }
  }

  /** Seeding from a block queues only roots: objects with no parent, each
      named after its symbol. */
  lemma SeedQueuesRoots(st: State, syms: seq<Symbol>)
    requires Inv(st)
    ensures var r := ExtractSymbols(st, Some(syms));
            && Inv(r) && Extends(st, r) && r.edges == st.edges && r.nodes == st.nodes
            && (forall j :: |st.found| <= j < |r.found| ==>
                  r.found[j].parent == None && exists i :: 0 <= i < |syms| && r.found[j].name == syms[i].name)
  {
    var roots := SymbolRoots(syms);
    SeedKeepsInv(st, roots, 0);
    var r := SeedFrom(st, roots, 0);
    forall j | |st.found| <= j < |r.found|
      ensures r.found[j].parent == None && exists i :: 0 <= i < |syms| && r.found[j].name == syms[i].name
    {
      var i :| 0 <= i < |roots[0..]| && roots[0..][i] == Some(r.found[j]);
      assert roots[i] == SymbolRoot(syms[i]);
    }
  }

  /** A whole analysis (seed, then run) keeps the invariant; in particular no
      identity is described twice and every edge joins two nodes. */
  lemma AnalyzeKeepsInv(proc: Process, st: State, block: Option<seq<Symbol>>, fuel: nat)
    requires Inv(st)
    ensures Inv(Analyze(proc, st, block, fuel).0)
  {
    if block.Some? {
      SeedKeepsInv(st, SymbolRoots(block.value), 0);
    }
    RunKeepsInv(proc, ExtractSymbols(st, block), 0, fuel);
  }

  /** A recorded allocation changes neither the queue, the index nor the graph. */
  lemma AllocationKeepsInv(st: State, ret: nat, size: nat)
    requires Inv(st)
    ensures Inv(AllocationReturned(st, ret, size))
  {
  }

  /** The objects of a run that are queued: those whose address parses to a nonzero value. */
  function Enqueued(es: seq<Obj>): seq<Obj> {
    if es == [] then []
    else (if es[0].value.addr.At? && es[0].value.addr.n != 0 then [es[0]] else []) + Enqueued(es[1..])
  }

  function IndexSet(es: seq<Obj>): set<Index> {
    set k | 0 <= k < |es| :: es[k].index
  }

  /** The run of children for i..hi has one child per index, in index order. */
  lemma ElementsShape(proc: Process, x: Obj, i: int, hi: int)
    requires Indexable(x.value, i)
    ensures |Elements(proc, x, i, hi)| == if i <= hi then hi - i + 1 else 0
    ensures forall k :: 0 <= k < |Elements(proc, x, i, hi)| ==>
              Elements(proc, x, i, hi)[k] == Element(proc, x, i + k)
  {
  }

  /** Child i of the run for lo..hi is element i. */
  lemma ElementOf(proc: Process, x: Obj, lo: int, hi: int, i: int)
    requires Indexable(x.value, lo) && lo <= i <= hi
    ensures |Elements(proc, x, lo, hi)| == hi - lo + 1
    ensures Elements(proc, x, lo, hi)[i - lo] == Element(proc, x, i)
  {
  }

  /** A range expansion leaves the explored set and the allocations alone and
      lets only AlreadyFound or a bad address string escape. */
  lemma {:induction false} RangeFrame(st: State, x: Obj, es: seq<Obj>, k: nat)
    requires k <= |es|
    ensures var r := RangeFrom(st, x, es, k);
            && r.st.explored == st.explored && r.st.allocations == st.allocations
            && r.out in {Normal, Raised(AlreadyFound), Raised(BadAddressString)}
    decreases |es| - k
  {
    if k < |es| {
      var child := es[k];
      if child.index !in st.known && child.value.addr.At? {
        var linked := if k == 0 then AddEdge(Learn(st, child.index), Edge(x.index, child.index, Brackets))
                      else Learn(st, child.index);
        var n := child.value.addr.n;
        RangeFrame(if n != 0 then Enqueue(linked, child) else linked, x, es, k + 1);
      }
    }
  }

  /** The state a range expansion passes on after a fresh child with an address. */
  function NextState(st: State, x: Obj, es: seq<Obj>, k: nat): State
    requires k < |es|
  {
    var child := es[k];
    var learned := Learn(st, child.index);
    var linked := if k == 0 then AddEdge(learned, Edge(x.index, child.index, Brackets)) else learned;
    if child.value.addr.At? && child.value.addr.n != 0 then Enqueue(linked, child) else linked
  }

  lemma RangeStep(st: State, x: Obj, es: seq<Obj>, k: nat)
    requires k < |es|
    requires RangeFrom(st, x, es, k).out == Normal
    ensures es[k].index !in st.known && es[k].value.addr.At?
    ensures RangeFrom(st, x, es, k) == RangeFrom(NextState(st, x, es, k), x, es, k + 1)
  {
  }

  /** A range expansion that completes meets only fresh, distinct identities
      with an address, and learns exactly those. */
  lemma {:induction false} RangeLearnsFresh(st: State, x: Obj, es: seq<Obj>, k: nat)
    requires k <= |es|
    requires RangeFrom(st, x, es, k).out == Normal
    ensures var r := RangeFrom(st, x, es, k).st;
            && (forall j :: k <= j < |es| ==> es[j].index !in st.known && es[j].value.addr.At?)
            && (forall j, l :: k <= j < l < |es| ==> es[j].index != es[l].index)
            && r.known == st.known + IndexSet(es[k..])
    decreases |es| - k
  {
    if k == |es| {
      assert IndexSet(es[k..]) == {};
    } else {
      var next := NextState(st, x, es, k);
      RangeStep(st, x, es, k);
      RangeLearnsFresh(next, x, es, k + 1);
      IndexSetCons(es, k);
    }
  }

  lemma IndexSetCons(es: seq<Obj>, k: nat)
    requires k < |es|
    ensures IndexSet(es[k..]) == {es[k].index} + IndexSet(es[k + 1..])
  {
    var tl := es[k..];
    forall idx | idx in IndexSet(tl) ensures idx in {es[k].index} + IndexSet(es[k + 1..]) {
      var j :| 0 <= j < |tl| && tl[j].index == idx;
      if j > 0 { assert es[k + 1..][j - 1] == tl[j]; }
    }
    forall idx | idx in IndexSet(es[k + 1..]) ensures idx in IndexSet(tl) {
      var j :| 0 <= j < |es[k + 1..]| && es[k + 1..][j].index == idx;
      assert tl[j + 1] == es[k + 1..][j];
    }
    assert tl[0] == es[k];
  }

  lemma EnqueuedCons(es: seq<Obj>, k: nat)
    requires k < |es|
    ensures Enqueued(es[k..]) ==
              (if es[k].value.addr.At? && es[k].value.addr.n != 0 then [es[k]] else []) + Enqueued(es[k + 1..])
  {
    assert es[k..][1..] == es[k + 1..];
  }

  /** A range expansion that completes queues the children with a nonzero
      address in order, adds the single "[]" edge from the parent to the
      first child, and touches nothing else. */
  lemma {:induction false} RangeQueuesInOrder(st: State, x: Obj, es: seq<Obj>, k: nat)
    requires k <= |es|
    requires RangeFrom(st, x, es, k).out == Normal
    ensures var r := RangeFrom(st, x, es, k).st;
            && r.found == st.found + Enqueued(es[k..])
            && r.edges == st.edges + (if k == 0 < |es| then {Edge(x.index, es[0].index, Brackets)} else {})
            && r.nodes == st.nodes + (if k == 0 < |es| then {x.index, es[0].index} else {})
            && r.described == st.described && r.explored == st.explored && r.allocations == st.allocations
    decreases |es| - k
  {
    if k < |es| {
      RangeStep(st, x, es, k);
      RangeQueuesInOrder(NextState(st, x, es, k), x, es, k + 1);
      EnqueuedCons(es, k);
    } else {
      assert es[k..] == [];
    }
  }

  /** A range expansion that completes learns exactly the identities of its
      children, all of them fresh and distinct, queues the ones with a nonzero
      address in order, and adds one "[]" edge: parent to first child. */
  lemma RangeCompleted(st: State, x: Obj, es: seq<Obj>)
    requires RangeFrom(st, x, es, 0).out == Normal
    ensures var r := RangeFrom(st, x, es, 0).st;
            && (forall j :: 0 <= j < |es| ==> es[j].index !in st.known && es[j].value.addr.At?)
            && (forall j, l :: 0 <= j < l < |es| ==> es[j].index != es[l].index)
            && r.known == st.known + IndexSet(es)
            && r.found == st.found + Enqueued(es)
            && r.edges == st.edges + (if |es| > 0 then {Edge(x.index, es[0].index, Brackets)} else {})
            && r.nodes == st.nodes + (if |es| > 0 then {x.index, es[0].index} else {})
            && r.described == st.described && r.explored == st.explored && r.allocations == st.allocations
  {
    RangeLearnsFresh(st, x, es, 0);
    RangeQueuesInOrder(st, x, es, 0);
    assert es[0..] == es;
  }

  /** Array expansion: one child per index of the array's range, named
      name[i] with the array as parent; the nonzero-address ones are queued in
      index order; a single "[]" edge from the array to its first element. */
  lemma ArrayExpansion(proc: Process, st: State, x: Obj)
    requires StripTypedefs(x.value.ty).Array?
    requires ExploreObject(proc, st, x).out == Normal
    ensures var a := StripTypedefs(x.value.ty);
            var r := ExploreObject(proc, st, x).st;
            var es := Elements(proc, x, a.lo, a.hi);
            && |es| == (if a.lo <= a.hi then a.hi - a.lo + 1 else 0)
            && (forall k :: 0 <= k < |es| ==>
                  es[k].name == x.name + "[" + IntToString(a.lo + k) + "]" && es[k].parent == Some(x.index))
            && (forall k, l :: 0 <= k < l < |es| ==> es[k].index != es[l].index)
            && r.found == st.found + Enqueued(es)
            && r.edges == st.edges + (if a.lo <= a.hi then {Edge(x.index, es[0].index, Brackets)} else {})
  {
    var a := StripTypedefs(x.value.ty);
    RangeCompleted(st, x, Elements(proc, x, a.lo, a.hi));
    ElementsShape(proc, x, a.lo, a.hi);
  }

  /** An array whose first element's identity is already known makes the
      element's AlreadyFound escape the searcher: the whole run aborts. */
  lemma ArrayDuplicateAbortsRun(proc: Process, st: State, fuel: nat)
    requires |st.found| > 0 && fuel > 0
    requires StripTypedefs(st.found[0].value.ty).Array?
    requires var a := StripTypedefs(st.found[0].value.ty);
             a.lo <= a.hi && Element(proc, st.found[0], a.lo).index in st.known
    ensures RunFrom(proc, st, 0, fuel).1 == Aborted(AlreadyFound)
  {
    var x := st.found[0];
    var a := StripTypedefs(x.value.ty);
    var d := Describe(st.(found := st.found[1..]), x);
    assert d.known == st.known;
    ElementsShape(proc, x, a.lo, a.hi);
  }

  /** The children of a pointer widened to n elements: element k lies k
      pointee sizes past the pointee, is named name[k] and has the pointer as
      parent. */
  lemma WidenedElements(proc: Process, x: Obj, n: nat)
    requires StripTypedefs(x.value.ty).Pointer?
    requires Dereference(proc, x.value).Pointee?
    ensures var pv := Dereference(proc, x.value).value;
            var ts := Sizeof(proc.structs, pv.ty);
            var es := Elements(proc, x, 0, n as int - 1);
            && |es| == n
            && (forall k :: 0 <= k < n ==>
                  && es[k].value == Value(pv.ty, At(pv.addr.n + k * ts))
                  && es[k].name == x.name + "[" + IntToString(k) + "]"
                  && es[k].parent == Some(x.index))
  {
    var es := Elements(proc, x, 0, n as int - 1);
    assert |es| == n;
    forall k | 0 <= k < n
      ensures var pv := Dereference(proc, x.value).value;
              && es[k].value == Value(pv.ty, At(pv.addr.n + k * Sizeof(proc.structs, pv.ty)))
              && es[k].name == x.name + "[" + IntToString(k) + "]"
              && es[k].parent == Some(x.index)
    {
      ElementOf(proc, x, 0, n as int - 1, k);
    }
  }

  /** Widening of a pointer whose pointee address `addr` is tracked and
      unexplored: only a bad address string escapes, and the address ends up
      explored exactly when the expansion of its elements completed. A
      completed expansion queued its children with a nonzero address in order
      and joined the pointer to the first with a single "[]" edge; an
      expansion cut short by AlreadyFound is swallowed and keeps what it
      queued and linked before the duplicate. */
  lemma WidenPointerCompletes(proc: Process, st: State, x: Obj, addr: nat, typeSize: nat)
    requires StripTypedefs(x.value.ty).Pointer? && addr in st.allocations && addr !in st.explored
    requires typeSize > 0
    ensures var n := st.allocations[addr] / typeSize;
            var r := WidenPointer(proc, st, x, addr, typeSize);
            var es := Elements(proc, x, 0, n as int - 1);
            var rr := RangeFrom(st, x, es, 0);
            && r.out == (if rr.out == Raised(BadAddressString) then rr.out else Normal)
            && (addr in r.st.explored <==> rr.out == Normal)
            && (rr.out == Raised(AlreadyFound) ==> r.st == rr.st)
            && (rr.out == Normal ==>
                  && r.st.found == st.found + Enqueued(es)
                  && r.st.edges == st.edges + (if n > 0 then {Edge(x.index, es[0].index, Brackets)} else {})
                  && r.st.explored == st.explored + {addr})
  {
    var n := st.allocations[addr] / typeSize;
    var es := Elements(proc, x, 0, n as int - 1);
    assert |es| == n;
    RangeFrame(st, x, es, 0);
    if RangeFrom(st, x, es, 0).out == Normal {
      RangeCompleted(st, x, es);
    }
  }

  /** Allocation-driven widening: once the allocator has reported `size` bytes
      at the pointee's address, dereferencing the pointer widens it to its
      first size / sizeof elements (truncating); the address is then explored
      exactly when that expansion completed, with the outcome above. */
  lemma AllocationWidening(proc: Process, st: State, x: Obj, size: nat)
    requires StripTypedefs(x.value.ty).Pointer?
    requires Dereference(proc, x.value).Pointee?
    requires Sizeof(proc.structs, Dereference(proc, x.value).value.ty) > 0
    ensures var pv := Dereference(proc, x.value).value;
            var ret := pv.addr.n;
            var n := size / Sizeof(proc.structs, pv.ty);
            var st1 := AllocationReturned(st, ret, size);
            var r := ExplorePointer(proc, st1, x);
            var es := Elements(proc, x, 0, n as int - 1);
            var rr := RangeFrom(st1, x, es, 0);
            && r.out == (if rr.out == Raised(BadAddressString) then rr.out else Normal)
            && (ret in r.st.explored <==> rr.out == Normal)
            && (rr.out == Normal ==>
                  && r.st.found == st.found + Enqueued(es)
                  && r.st.edges == st.edges + (if n > 0 then {Edge(x.index, es[0].index, Brackets)} else {}))
  {
    var pv := Dereference(proc, x.value).value;
    var ret := pv.addr.n;
    var ts := Sizeof(proc.structs, pv.ty);
    var st1 := AllocationReturned(st, ret, size);
    assert ExplorePointer(proc, st1, x) == WidenPointer(proc, st1, x, ret, ts);
    WidenPointerCompletes(proc, st1, x, ret, ts);
  }

  /** Struct expansion: the first field whose identity is already known ends
      the scan, so no field from it on is looked at. */
  lemma {:induction false} StructStopsAtDuplicate(st: State, cs: seq<Obj>, k: nat, m: nat)
    requires k <= m < |cs|
    requires cs[m].index in st.known
    ensures StructFrom(st, cs, k) == StructFrom(st, cs[..m], k)
    decreases m - k
  {
    if k < m {
      assert cs[..m][k] == cs[k];
      var child := cs[k];
      if child.index !in st.known {
        var learned := Learn(st, child.index);
        var next := if !IsNull(child.value.addr) then Enqueue(learned, child) else learned;
        StructStopsAtDuplicate(next, cs, k + 1, m);
      }
    }
  }

  /** Seeding: a symbol whose value cannot be read ends the seeding there. */
  lemma {:induction false} SeedStopsAtUnreadable(st: State, roots: seq<Option<Obj>>, k: nat, m: nat)
    requires k <= m < |roots| && roots[m].None?
    ensures SeedFrom(st, roots, k) == SeedFrom(st, roots[..m], k)
    decreases m - k
  {
    if k < m {
      assert roots[..m][k] == roots[k];
      match roots[k]
      case None =>
      case Some(o) =>
        if o.index in st.known {
          SeedStopsAtUnreadable(st, roots, k + 1, m);
        } else {
          SeedStopsAtUnreadable(Enqueue(Learn(st, o.index), o), roots, k + 1, m);
        }
    }
  }

  /** The roots queued from `roots`, in order, when `known` holds the
      identities met so far: a root whose identity was met (before the block
      or earlier in it) is skipped, every other one is queued and its
      identity counts as met from then on. */
  function NewRoots(known: set<Index>, roots: seq<Option<Obj>>): seq<Obj>
    decreases |roots|
  {
    if roots == [] then []
    else if roots[0].Some? && roots[0].value.index !in known
    then [roots[0].value] + NewRoots(known + {roots[0].value.index}, roots[1..])
    else NewRoots(known, roots[1..])
  }

  lemma NewRootsCons(known: set<Index>, roots: seq<Option<Obj>>, k: nat, m: nat)
    requires k < m <= |roots| && roots[k].Some?
    ensures var o := roots[k].value;
            NewRoots(known, roots[k..m]) ==
              if o.index !in known then [o] + NewRoots(known + {o.index}, roots[k + 1..m])
              else NewRoots(known, roots[k + 1..m])
  {
    assert roots[k..m][0] == roots[k] && roots[k..m][1..] == roots[k + 1..m];
  }

  /** Queueing root k (or skipping it) and then the roots k+1..m queues the
      roots k..m. */
  lemma RootsAfterStep(known: set<Index>, before: seq<Obj>, mid: seq<Obj>, after: seq<Obj>,
                       roots: seq<Option<Obj>>, k: nat, m: nat)
    requires k < m <= |roots| && roots[k].Some?
    requires var o := roots[k].value;
             mid == before + (if o.index !in known then [o] else [])
    requires var o := roots[k].value;
             after == mid + NewRoots(if o.index !in known then known + {o.index} else known, roots[k + 1..m])
    ensures after == before + NewRoots(known, roots[k..m])
  {
    NewRootsCons(known, roots, k, m);
  }

  /** Seeding from root k up to the first unreadable symbol m (or the end of
      the block) queues, in block order, every root whose identity was not met
      before it, whether before the block or earlier in it; a skipped root
      does not end the seeding. */
  lemma {:induction false} SeedQueuesInOrder(st: State, roots: seq<Option<Obj>>, k: nat, m: nat)
    requires k <= m <= |roots|
    requires forall j :: k <= j < m ==> roots[j].Some?
    requires m < |roots| ==> roots[m].None?
    ensures SeedFrom(st, roots, k).found == st.found + NewRoots(st.known, roots[k..m])
    decreases m - k
  {
    if k == m {
      assert roots[k..m] == [];
    } else {
      var o := roots[k].value;
      var next := if o.index in st.known then st else Enqueue(Learn(st, o.index), o);
      assert SeedFrom(st, roots, k) == SeedFrom(next, roots, k + 1);
      SeedQueuesInOrder(next, roots, k + 1, m);
      RootsAfterStep(st.known, st.found, next.found, SeedFrom(next, roots, k + 1).found, roots, k, m);
    }
  }

  /** Seeding a block queues, in block order, a root named after each symbol
      before the first unreadable one (or the end) whose identity was not met
      before it, whether before the block or earlier in it. */
  lemma SeedingQueuesNewSymbols(st: State, syms: seq<Symbol>, m: nat)
    requires m <= |syms|
    requires forall j :: 0 <= j < m ==> syms[j].value.Some?
    requires m < |syms| ==> syms[m].value.None?
    ensures ExtractSymbols(st, Some(syms)).found == st.found + NewRoots(st.known, SymbolRoots(syms)[..m])
  {
    var roots := SymbolRoots(syms);
    SeedQueuesInOrder(st, roots, 0, m);
    assert roots[0..m] == roots[..m];
  }

  /** Two readable symbols with the same identity in a fresh session: the
      second is skipped and the seeding goes on to the symbols after it. */
  lemma DuplicateSymbolSkipped(a: Symbol, b: Symbol, c: Symbol)
    requires a.value.Some? && b.value.Some? && c.value.Some?
    requires IndexOf(a.value.value) == IndexOf(b.value.value) != IndexOf(c.value.value)
    ensures ExtractSymbols(Empty, Some([a, b, c])).found ==
              [SymbolRoot(a).value, SymbolRoot(c).value]
  {
    SeedingQueuesNewSymbols(Empty, [a, b, c], 3);
    var roots := SymbolRoots([a, b, c]);
    var ia := IndexOf(a.value.value);
    assert roots[..3] == [SymbolRoot(a), SymbolRoot(b), SymbolRoot(c)];
    assert [SymbolRoot(a), SymbolRoot(b), SymbolRoot(c)][1..] == [SymbolRoot(b), SymbolRoot(c)];
    assert [SymbolRoot(b), SymbolRoot(c)][1..] == [SymbolRoot(c)];
    assert NewRoots({ia}, [SymbolRoot(c)]) == [SymbolRoot(c).value] + NewRoots({ia, IndexOf(c.value.value)}, []);
    assert NewRoots({ia}, [SymbolRoot(b), SymbolRoot(c)]) == NewRoots({ia}, [SymbolRoot(c)]);
    assert Empty.known + {ia} == {ia};
    assert NewRoots(Empty.known, roots[..3]) == [SymbolRoot(a).value] + NewRoots({ia}, [SymbolRoot(b), SymbolRoot(c)]);
  }

  /** A null pointer (one whose word reads 0) is followed like any other:
      its pointee at address 0 is queued as "*name" under a "*" edge and
      address 0 is marked explored; once popped, it is described as a node,
      since its address string is "0x0", not 'None'. */
  lemma NullPointerFollowed(proc: Process, st: State, x: Obj)
    requires StripTypedefs(x.value.ty).Pointer?
    requires Dereference(proc, x.value).Pointee? && Dereference(proc, x.value).value.addr == At(0)
    requires 0 !in st.explored && 0 !in st.allocations
    requires IndexOf(Dereference(proc, x.value).value) !in st.known
    ensures var pv := Dereference(proc, x.value).value;
            var child := Obj("*" + x.name, Some(x.index), pv, IndexOf(pv));
            var r := ExplorePointer(proc, st, x);
            && r.out == Normal
            && r.st.found == st.found + [child]
            && Edge(x.index, child.index, Star) in r.st.edges
            && 0 in r.st.explored
            && Describe(r.st, child).described == r.st.described + [child]
  {
  }

  /** Pointer expansion without a tracked allocation: a debugger error changes
      nothing; an unexplored target becomes one child "*name" with a "*" edge
      and is marked explored; an explored target is never queued again and
      gets a "*" edge only when its identity is new. */
  lemma PointerExpansion(proc: Process, st: State, x: Obj)
    requires StripTypedefs(x.value.ty).Pointer?
    ensures var d := Dereference(proc, x.value);
            var r := ExplorePointer(proc, st, x);
            && (!d.Pointee? ==> r == Res(st, Normal))
            && (d.Pointee? && d.value.addr.n !in st.explored && d.value.addr.n !in st.allocations ==>
                  var idx := IndexOf(d.value);
                  && r.out == Normal
                  && (idx in st.known ==> r.st == st)
                  && (idx !in st.known ==>
                        && r.st.found == st.found + [Obj("*" + x.name, Some(x.index), d.value, idx)]
                        && r.st.edges == st.edges + {Edge(x.index, idx, Star)}
                        && r.st.explored == st.explored + {d.value.addr.n}))
            && (d.Pointee? && d.value.addr.n in st.explored ==>
                  var idx := IndexOf(d.value);
                  && r.out == Normal && r.st.found == st.found && r.st.explored == st.explored
                  && r.st.edges == st.edges + (if idx in st.known then {} else {Edge(x.index, idx, Star)}))
  {
  }
}
