/**
  The traversal engine's shared state and the meaning of each of its
  operations, as functions from the state before to the state after (and the
  exception, if any, that the operation lets escape).
*/
module Traversal {
  import opened Wrappers
  import opened GdbTypes
  import opened Inferior

  /** The identity of a discovered object: raw type code, address, type name. */
  datatype Index = Index(code: TypeCode, addr: Addr, typeName: string)

  function IndexOf(v: Value): Index {
    Index(Code(v.ty), v.addr, TypeName(v.ty))
  }

  /** A discovered object waiting in (or taken from) the queue. */
  datatype Obj = Obj(name: string, parent: Option<Index>, value: Value, index: Index)

  /** Edge labels: "*" for a dereference, "[]" for an indexed run. */
  datatype Label = Star | Brackets

  datatype Edge = Edge(from: Index, to: Index, kind: Label)

  /** The session's shared state: the queue, the described records, the
      explored addresses, the known indexes, the graph and the allocations. */
  datatype State = State(
    found: seq<Obj>,
    described: seq<Obj>,
    explored: set<nat>,
    known: set<Index>,
    nodes: set<Index>,
    edges: set<Edge>,
    allocations: map<nat, nat>)

  /** The exceptions an operation can let escape. */
  datatype Fault = AlreadyFound | BadAddressString | ZeroDivision

  datatype Outcome = Normal | Raised(fault: Fault)

  datatype Res = Res(st: State, out: Outcome)

  /** How a run of the searcher ends: drained, aborted by an escaping exception,
      or cut short by the bound on the number of polls. */
  datatype Finish = Finished | Aborted(fault: Fault) | OutOfFuel

  const Empty := State([], [], {}, {}, {}, {}, map[])

  function Learn(st: State, idx: Index): State {
    st.(known := st.known + {idx})
  }

  function Enqueue(st: State, o: Obj): State {
    st.(found := st.found + [o])
  }

  /** Adding an edge also adds both of its endpoints as nodes. */
  function AddEdge(st: State, e: Edge): State {
    st.(nodes := st.nodes + {e.from, e.to}, edges := st.edges + {e})
  }

  /** An object whose address is known becomes a node and a described record. */
  function Describe(st: State, x: Obj): State {
    if x.index.addr != NoAddr
    then st.(nodes := st.nodes + {x.index}, described := st.described + [x])
    else st
  }

  /** The child for index i of an array or of a pointer widened to an array. */
  function Element(proc: Process, x: Obj, i: int): Obj
    requires Indexable(x.value, i)
  {
    var v := Subscript(proc, x.value, i);
    Obj(x.name + "[" + IntToString(i) + "]", Some(x.index), v, IndexOf(v))
  }

  /** The children for indices i to hi, in index order. */
  function Elements(proc: Process, x: Obj, i: int, hi: int): seq<Obj>
    requires Indexable(x.value, i)
  {
    if i > hi then [] else seq(hi - i + 1, k requires 0 <= k => Element(proc, x, i + k))
  }

  /** Expansion of a range's children from position k on; position 0 is the
      range's first index and gets the "[]" edge. An identity already known
      escapes as AlreadyFound; a child without an address escapes as a failed
      parse of its address string. */
  function RangeFrom(st: State, x: Obj, es: seq<Obj>, k: nat): Res
    requires k <= |es|
    decreases |es| - k
  {
    if k == |es| then Res(st, Normal)
    else
      var child := es[k];
      if child.index in st.known then Res(st, Raised(AlreadyFound))
      else
        var learned := Learn(st, child.index);
        var linked := if k == 0 then AddEdge(learned, Edge(x.index, child.index, Brackets)) else learned;
        match child.value.addr
        case NoAddr => Res(linked, Raised(BadAddressString))
        case At(n) => RangeFrom(if n != 0 then Enqueue(linked, child) else linked, x, es, k + 1)
  }

  /** Expansion of the indices lo to hi of an array or of a widened pointer. */
  function ExploreRange(proc: Process, st: State, x: Obj, lo: int, hi: int): Res
    requires Indexable(x.value, lo)
  {
    RangeFrom(st, x, Elements(proc, x, lo, hi), 0)
  }

  /** The child for one field of a struct; it keeps the struct's name. */
  function FieldChild(x: Obj, f: Field): Obj {
    var v := FieldValue(x.value, f);
    Obj(x.name, Some(x.index), v, IndexOf(v))
  }

  predicate IsNull(a: Addr) {
    a == NoAddr || a == At(0)
  }

  /** The children of a struct's fields, in field order. */
  function FieldChildren(x: Obj, fields: seq<Field>): seq<Obj> {
    seq(|fields|, j requires 0 <= j < |fields| => FieldChild(x, fields[j]))
  }

  /** Scan of the field children from position k on: a child whose index is
      known ends the whole scan; every other one is learned, and queued when
      its address is not null. */
  function StructFrom(st: State, cs: seq<Obj>, k: nat): State
    requires k <= |cs|
    decreases |cs| - k
  {
    if k == |cs| then st
    else
      var child := cs[k];
      if child.index in st.known then st
      else
        var learned := Learn(st, child.index);
        StructFrom(if !IsNull(child.value.addr) then Enqueue(learned, child) else learned, cs, k + 1)
  }

  function ExploreStruct(proc: Process, st: State, x: Obj): State {
    if IsNull(x.index.addr) then st
    else StructFrom(st, FieldChildren(x, Fields(proc.structs, x.value.ty)), 0)
  }

  /** Dereference of a pointer: widened to an array when its target is a
      tracked allocation, a single child otherwise, an edge only once explored.
      A debugger error ends the expansion quietly. */
  function ExplorePointer(proc: Process, st: State, x: Obj): Res
    requires StripTypedefs(x.value.ty).Pointer?
  {
    match Dereference(proc, x.value)
    case MemoryError => Res(st, Normal)
    case DebuggerError => Res(st, Normal)
    case Pointee(pv) =>
      var addr := pv.addr.n;
      if addr !in st.explored then
        if addr in st.allocations then WidenPointer(proc, st, x, addr, Sizeof(proc.structs, pv.ty))
        else FollowPointer(st, x, pv)
      else LinkPointer(st, x, pv)
  }

  /** A pointer whose pointee is an allocation of st.allocations[addr] bytes is
      expanded as that many bytes of pointees; AlreadyFound from an element is
      swallowed, any other exception escapes, and only a completed expansion
      marks the address explored. */
  function WidenPointer(proc: Process, st: State, x: Obj, addr: nat, typeSize: nat): Res
    requires StripTypedefs(x.value.ty).Pointer? && addr in st.allocations
  {
    if typeSize == 0 then Res(st, Raised(ZeroDivision))
    else
      var r := ExploreRange(proc, st, x, 0, (st.allocations[addr] / typeSize) as int - 1);
      if r.out == Raised(AlreadyFound) then Res(r.st, Normal)
      else if r.out.Raised? then r
      else Res(r.st.(explored := r.st.explored + {addr}), Normal)
  }

  /** An unexplored, untracked pointee becomes the child "*name" with a "*"
      edge, and its address is marked explored; a known one changes nothing. */
  function FollowPointer(st: State, x: Obj, pv: Value): Res {
    var idx := IndexOf(pv);
    if idx in st.known then Res(st, Normal)
    else
      var learned := Learn(st, idx);
      match pv.addr
      case NoAddr => Res(learned, Normal)
      case At(addr) =>
        var linked := AddEdge(learned, Edge(x.index, idx, Star));
        Res(Enqueue(linked, Obj("*" + x.name, Some(x.index), pv, idx)).(explored := linked.explored + {addr}), Normal)
  }

  /** An explored pointee is not queued again; it only gets a "*" edge when its
      identity is new. */
  function LinkPointer(st: State, x: Obj, pv: Value): Res {
    var idx := IndexOf(pv);
    if idx in st.known then Res(st, Normal)
    else Res(AddEdge(Learn(st, idx), Edge(x.index, idx, Star)), Normal)
  }

  /** Expansion by the typedef-stripped classification; other kinds are leaves. */
  function ExploreObject(proc: Process, st: State, x: Obj): Res {
    match StripTypedefs(x.value.ty)
    case Array(lo, hi, _) => ExploreRange(proc, st, x, lo, hi)
    case Struct(_) => Res(ExploreStruct(proc, st, x), Normal)
    case Pointer(_) => ExplorePointer(proc, st, x)
    case _ => Res(st, Normal)
  }

  /** Pop the front of the queue, describe it, expand it. */
  function Step(proc: Process, st: State): Res
    requires |st.found| > 0
  {
    var x := st.found[0];
    ExploreObject(proc, Describe(st.(found := st.found[1..]), x), x)
  }

  /** The searcher's loop with `misses` consecutive empty polls behind it and at
      most `fuel` polls to go. */
  function RunFrom(proc: Process, st: State, misses: nat, fuel: nat): (State, Finish)
    decreases fuel
  {
    if fuel == 0 then (st, OutOfFuel)
    else if |st.found| > 0 then
      var r := Step(proc, st);
      if r.out.Raised? then (r.st, Aborted(r.out.fault)) else RunFrom(proc, r.st, 0, fuel - 1)
    else if misses >= 3 then (st, Finished)
    else RunFrom(proc, st, misses + 1, fuel - 1)
  }

  /** The root a symbol becomes: an object with the symbol's name and value
      and no parent; None when its value cannot be read. */
  function SymbolRoot(sym: Symbol): Option<Obj> {
    match sym.value
    case None => None
    case Some(v) => Some(Obj(sym.name, None, v, IndexOf(v)))
  }

  /** The roots of a block's symbols, in block order. */
  function SymbolRoots(syms: seq<Symbol>): seq<Option<Obj>> {
    seq(|syms|, j requires 0 <= j < |syms| => SymbolRoot(syms[j]))
  }

  /** Seeding from root k onwards: a root whose index is known is skipped,
      an unreadable symbol ends the seeding. */
  function SeedFrom(st: State, roots: seq<Option<Obj>>, k: nat): State
    requires k <= |roots|
    decreases |roots| - k
  {
    if k == |roots| then st
    else match roots[k]
      case None => st
      case Some(o) =>
        if o.index in st.known then SeedFrom(st, roots, k + 1)
        else SeedFrom(Enqueue(Learn(st, o.index), o), roots, k + 1)
  }

  /** Seeding from the selected frame's block; None when the block cannot be read. */
  function ExtractSymbols(st: State, block: Option<seq<Symbol>>): State {
    match block
    case None => st
    case Some(syms) => SeedFrom(st, SymbolRoots(syms), 0)
  }

  /** The allocator returned `ret` for a request of `size` bytes. */
  function AllocationReturned(st: State, ret: nat, size: nat): State {
    st.(allocations := st.allocations[ret := size], explored := st.explored - {ret})
  }

  /** Seed, then run the searcher. */
  function Analyze(proc: Process, st: State, block: Option<seq<Symbol>>, fuel: nat): (State, Finish) {
    RunFrom(proc, ExtractSymbols(st, block), 0, fuel)
  }
}
