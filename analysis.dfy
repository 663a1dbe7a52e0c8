/**
  The debugger-side objects of the analysis as they really run: the oracle's
  shared state updated in place, the searcher that drains its queue, and the
  allocation breakpoints. Every method is tied to the traversal function that
  gives its meaning, so the properties proved of those functions hold of the
  objects too.
*/
module Analysis {
  import opened Wrappers
  import opened GdbTypes
  import opened Inferior
  import opened Traversal
  import opened TraversalProofs

  /** The oracle's shared state: the queue of found objects, the described
      records, the explored addresses, the known indexes, the object graph and
      the allocations the breakpoints have recorded. */
  class Oracle {
    var found: seq<Obj>
    var described: seq<Obj>
    var explored: set<nat>
    var knownIndexes: set<Index>
    var nodes: set<Index>
    var edges: set<Edge>
    var allocations: map<nat, nat>

    /** The state as a value. */
    function Abs(): State
      reads this
    {
      State(found, described, explored, knownIndexes, nodes, edges, allocations)
    }

    constructor ()
      ensures Abs() == Empty && Inv(Abs())
    {
      found, described, explored := [], [], {};
      knownIndexes, nodes, edges, allocations := {}, {}, {}, map[];
      EmptyInv();
    }

    /** Records the identity of a value: its raw type code, its address and its
        true type name. `isNew` is false exactly when the identity was already
        known, which the Python code signals by raising AlreadyFound. */
    method Extract(v: Value) returns (index: Index, isNew: bool)
      modifies this
      ensures index == IndexOf(v)
      ensures isNew <==> index !in old(knownIndexes)
      ensures knownIndexes == old(knownIndexes) + {index}
      ensures !isNew ==> Abs() == old(Abs())
      ensures Abs() == Learn(old(Abs()), index)
    {
      var name := TrueTypeName(v.ty);
      index := Index(Code(v.ty), v.addr, name);
      isNew := index !in knownIndexes;
      knownIndexes := knownIndexes + {index};
    }

    /** Seeds the queue with the symbols of the selected frame's block (None
        when the block cannot be read). A symbol already known is skipped; a
        symbol whose value cannot be read ends the seeding. */
    method ExtractSymbols(block: Option<seq<Symbol>>)
      modifies this
      ensures Abs() == Traversal.ExtractSymbols(old(Abs()), block)
    {
      if block.None? {
        return;
      }
      var syms := block.value;
      ghost var roots := SymbolRoots(syms);
      var k := 0;
      while k < |syms|
        invariant k <= |syms|
        invariant SeedFrom(old(Abs()), roots, 0) == SeedFrom(Abs(), roots, k)
      {
        match syms[k].value
        case None =>
          assert roots[k].None?;
          return;
        case Some(v) =>
          ghost var before := Abs();
          var index, isNew := Extract(v);
          if isNew {
            found := found + [Obj(syms[k].name, None, v, index)];
          } else {
            assert Abs() == before;
          }
        k := k + 1;
      }
    }

    /** Seeds the queue, then lets one searcher drain it. */
    method Run(proc: Process, block: Option<seq<Symbol>>, fuel: nat) returns (finish: Finish)
      modifies this
      ensures (Abs(), finish) == Analyze(proc, old(Abs()), block, fuel)
      ensures Inv(old(Abs())) ==> Inv(Abs())
    {
      ghost var st0 := Abs();
      if Inv(st0) {
        AnalyzeKeepsInv(proc, st0, block, fuel);
      }
      ExtractSymbols(block);
      var searcher := new Searcher(this);
      finish := searcher.Run(proc, fuel);
    }
  }

  /** A worker that takes objects from the oracle's queue, describes them and
      expands them. */
  class Searcher {
    const oracle: Oracle

    constructor (oracle: Oracle)
      ensures this.oracle == oracle
    {
      this.oracle := oracle;
    }

    /** Polls the queue until it has been found empty on four consecutive
        polls, or until an exception escapes an expansion; `fuel` bounds the
        number of polls. */
    method Run(proc: Process, fuel: nat) returns (finish: Finish)
      modifies oracle
      ensures (oracle.Abs(), finish) == RunFrom(proc, old(oracle.Abs()), 0, fuel)
      ensures Inv(old(oracle.Abs())) ==> Inv(oracle.Abs())
    {
      ghost var st0 := oracle.Abs();
      if Inv(st0) {
        RunKeepsInv(proc, st0, 0, fuel);
      }
      var missCount: nat := 0;
      var polls: nat := 0;
      while polls < fuel
        invariant polls <= fuel
        invariant RunFrom(proc, st0, 0, fuel) == RunFrom(proc, oracle.Abs(), missCount, fuel - polls)
      {
        if |oracle.found| > 0 {
          var x := oracle.found[0];
          oracle.found := oracle.found[1..];
          missCount := 0;
          Describe(x);
          var out := ExploreObject(proc, x);
          if out.Raised? {
            return Aborted(out.fault);
          }
        } else if missCount >= 3 {
          return Finished;
        } else {
          missCount := missCount + 1;
        }
        polls := polls + 1;
      }
      return OutOfFuel;
    }

    /** Expands an object by the classification of its typedef-stripped type. */
    method ExploreObject(proc: Process, x: Obj) returns (out: Outcome)
      modifies oracle
      ensures Res(oracle.Abs(), out) == Traversal.ExploreObject(proc, old(oracle.Abs()), x)
    {
      var t := StripTypedefs(x.value.ty);
      match Code(t)
      case ArrayCode =>
        out := ExploreArray(proc, x);
      case StructCode =>
        ExploreStruct(proc, x);
        out := Normal;
      case PtrCode =>
        out := ExplorePointer(proc, x);
      case _ =>
        out := Normal;
    }

    /** An object with an address becomes a graph node and a described record. */
    method Describe(x: Obj)
      modifies oracle
      ensures oracle.Abs() == Traversal.Describe(old(oracle.Abs()), x)
    {
      if x.index.addr != NoAddr {
        oracle.nodes := oracle.nodes + {x.index};
        oracle.described := oracle.described + [x];
      }
    }

    /** Expands the indices lo to hi: each element is named name[i], has the
        expanded object as parent, gets its identity recorded, and is queued
        when its address is nonzero; the first one gets a "[]" edge. */
    method ExploreRange(proc: Process, x: Obj, lo: int, hi: int) returns (out: Outcome)
      requires Indexable(x.value, lo)
      modifies oracle
      ensures Res(oracle.Abs(), out) == Traversal.ExploreRange(proc, old(oracle.Abs()), x, lo, hi)
    {
      ghost var es := Elements(proc, x, lo, hi);
      assert |es| == if lo <= hi then hi - lo + 1 else 0;
      var element := lo;
      while element <= hi
        invariant lo <= element <= if lo <= hi then hi + 1 else lo
        invariant Traversal.ExploreRange(proc, old(oracle.Abs()), x, lo, hi) == RangeFrom(oracle.Abs(), x, es, element - lo)
        decreases hi - element
      {
        ghost var st := oracle.Abs();
        var child := Element(proc, x, element);
        ElementOf(proc, x, lo, hi, element);
        var index, isNew := oracle.Extract(child.value);
        if !isNew {
          return Raised(AlreadyFound);
        }
        if element == lo {
          oracle.nodes := oracle.nodes + {x.index, index};
          oracle.edges := oracle.edges + {Edge(x.index, index, Brackets)};
        }
        if child.value.addr.NoAddr? {
          return Raised(BadAddressString);
        }
        if child.value.addr.n != 0 {
          oracle.found := oracle.found + [child];
        }
        assert oracle.Abs() == NextState(st, x, es, element - lo);
        element := element + 1;
      }
      out := Normal;
    }

    /** Expands an array over the bounds of its typedef-stripped type. */
    method ExploreArray(proc: Process, x: Obj) returns (out: Outcome)
      requires StripTypedefs(x.value.ty).Array?
      modifies oracle
      ensures var a := StripTypedefs(x.value.ty);
              Res(oracle.Abs(), out) == Traversal.ExploreRange(proc, old(oracle.Abs()), x, a.lo, a.hi)
    {
      var a := StripTypedefs(x.value.ty);
      out := ExploreRange(proc, x, a.lo, a.hi);
    }

    /** Expands a struct with an address field by field; every field keeps the
        struct's name, a field already known ends the expansion, and a field
        with a null address is recorded but not queued. */
    method ExploreStruct(proc: Process, x: Obj)
      modifies oracle
      ensures oracle.Abs() == Traversal.ExploreStruct(proc, old(oracle.Abs()), x)
    {
      if IsNull(x.index.addr) {
        return;
      }
      var fields := Fields(proc.structs, x.value.ty);
      ghost var children := FieldChildren(x, fields);
      var k := 0;
      while k < |fields|
        invariant k <= |fields|
        invariant StructFrom(old(oracle.Abs()), children, 0) == StructFrom(oracle.Abs(), children, k)
      {
        var v := FieldValue(x.value, fields[k]);
        var index, isNew := oracle.Extract(v);
        if !isNew {
          return;
        }
        if !IsNull(v.addr) {
          oracle.found := oracle.found + [Obj(x.name, Some(x.index), v, index)];
        }
        k := k + 1;
      }
    }

    /** Expands a pointer through its pointee. A pointee whose address the
        allocation breakpoints recorded is expanded as an array of
        size / sizeof elements; any other unexplored pointee becomes one child
        "*name"; an explored pointee only gets a "*" edge. Debugger errors and
        AlreadyFound end the expansion quietly; a zero-sized pointee and a
        child without an address let their exception escape. */
    method ExplorePointer(proc: Process, x: Obj) returns (out: Outcome)
      requires StripTypedefs(x.value.ty).Pointer?
      modifies oracle
      ensures Res(oracle.Abs(), out) == Traversal.ExplorePointer(proc, old(oracle.Abs()), x)
    {
      var d := Dereference(proc, x.value);
      if !d.Pointee? {
        return Normal;
      }
      var pv := d.value;
      var addr := pv.addr.n;
      if addr !in oracle.explored {
        if addr in oracle.allocations {
          var typeSize := Sizeof(proc.structs, pv.ty);
          if typeSize == 0 {
            return Raised(ZeroDivision);
          }
          var size := oracle.allocations[addr];
          out := ExploreRange(proc, x, 0, (size / typeSize) as int - 1);
          if out == Raised(AlreadyFound) {
            return Normal;
          } else if out.Raised? {
            return;
          }
          oracle.explored := oracle.explored + {addr};
        } else {
          var index, isNew := oracle.Extract(pv);
          if !isNew {
            return Normal;
          }
          if pv.addr != NoAddr {
            oracle.nodes := oracle.nodes + {x.index, index};
            oracle.edges := oracle.edges + {Edge(x.index, index, Star)};
            oracle.found := oracle.found + [Obj("*" + x.name, Some(x.index), pv, index)];
            oracle.explored := oracle.explored + {addr};
          }
          out := Normal;
        }
      } else {
        var index, isNew := oracle.Extract(pv);
        if isNew {
          oracle.nodes := oracle.nodes + {x.index, index};
          oracle.edges := oracle.edges + {Edge(x.index, index, Star)};
        }
        out := Normal;
      }
    }
  }

  /** The breakpoint at the allocator's return: it records the returned
      address with the requested size, which makes that address unexplored. */
  class NewFinishBreak {
    const oracle: Oracle
    const size: nat

    constructor (oracle: Oracle, size: nat)
      ensures this.oracle == oracle && this.size == size
    {
      this.oracle := oracle;
      this.size := size;
    }

    /** `ret` is the allocator's return value; execution never stops here. */
    method Stop(ret: nat) returns (stop: bool)
      modifies oracle
      ensures oracle.Abs() == AllocationReturned(old(oracle.Abs()), ret, size)
      ensures ret in oracle.allocations && oracle.allocations[ret] == size && ret !in oracle.explored
      ensures !stop
    {
      oracle.allocations := oracle.allocations[ret := size];
      oracle.explored := oracle.explored - {ret};
      stop := false;
    }
  }

  /** The breakpoint on `operator new`. */
  class NewBreak {
    const oracle: Oracle

    constructor (oracle: Oracle)
      ensures this.oracle == oracle
    {
      this.oracle := oracle;
    }

    /** `arg0` is the requested size; a return breakpoint is armed with it and
        execution never stops here. */
    method Stop(arg0: nat) returns (fb: NewFinishBreak, stop: bool)
      ensures fresh(fb) && fb.oracle == oracle && fb.size == arg0
      ensures !stop
    {
      fb := new NewFinishBreak(oracle, arg0);
      stop := false;
    }
  }

  /** The breakpoint on `operator new[]`. */
  class NewArrayBreak {
    const oracle: Oracle

    constructor (oracle: Oracle)
      ensures this.oracle == oracle
    {
      this.oracle := oracle;
    }

    /** `arg0` is the requested size; a return breakpoint is armed with it and
        execution never stops here. */
    method Stop(arg0: nat) returns (fb: NewFinishBreak, stop: bool)
      ensures fresh(fb) && fb.oracle == oracle && fb.size == arg0
      ensures !stop
    {
      fb := new NewFinishBreak(oracle, arg0);
      stop := false;
    }
  }
}
