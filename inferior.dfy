/**
  The stopped process as the debugger lets the traversal see it: typed value
  handles, their addresses, dereference, subscript and field access.
*/
module Inferior {
  import opened Wrappers
  import opened GdbTypes

  /** str(value.address): 'None' for a value that is not in memory, else a plain
      hex address (the text or symbol label gdb can append is not modelled). */
  datatype Addr = NoAddr | At(n: nat)

  /** A typed handle into the process. */
  datatype Value = Value(ty: Type, addr: Addr)

  /** The pointer-sized words the debugger can read, and the struct layouts of the program. */
  datatype Process = Process(words: map<nat, nat>, structs: StructTable)

  /** What dereferencing a pointer handle gives: the pointee, or one of the debugger's errors. */
  datatype Deref = Pointee(value: Value) | MemoryError | DebuggerError

  /** Dereferences a pointer handle. The debugger refuses a pointer to void and a
      pointer whose own address is unknown; reading an unmapped word is a memory error. */
  function Dereference(proc: Process, v: Value): (r: Deref)
    requires StripTypedefs(v.ty).Pointer?
    ensures r.Pointee? ==> r.value.ty == StripTypedefs(v.ty).target && r.value.addr.At?
    ensures r.Pointee? <==> v.addr.At? && v.addr.n in proc.words && !IsVoid(StripTypedefs(v.ty).target)
  {
    var tg := StripTypedefs(v.ty).target;
    if IsVoid(tg) then DebuggerError
    else match v.addr
      case NoAddr => DebuggerError
      case At(a) => if a in proc.words then Pointee(Value(tg, At(proc.words[a]))) else MemoryError
  }

  predicate IsVoid(t: Type) {
    var s := StripTypedefs(t);
    s.Leaf? && s.kind == VoidKind
  }

  /** Whether value[i] is defined: an array from its lower bound on, a pointer from 0 on. */
  predicate Indexable(v: Value, i: int) {
    match StripTypedefs(v.ty)
    case Array(lo, _, _) => lo <= i
    case Pointer(_) => 0 <= i
    case _ => false
  }

  /** value[i]: an array element, or the i-th object after a pointer's target. */
  function Subscript(proc: Process, v: Value, i: int): (r: Value)
    requires Indexable(v, i)
  {
    match StripTypedefs(v.ty)
    case Array(lo, _, e) =>
      var offset: nat := (i - lo) * Sizeof(proc.structs, e);
      Value(e, if v.addr.At? then At(v.addr.n + offset) else NoAddr)
    case Pointer(tg) =>
      var offset: nat := i * Sizeof(proc.structs, tg);
      // the pointer word is readable whenever this is reached, since the
      // pointer has just been dereferenced
      Value(tg, if v.addr.At? && v.addr.n in proc.words then At(proc.words[v.addr.n] + offset) else NoAddr)
  }

  /** The fields of a struct type; none for an incomplete struct or any other type. */
  function Fields(structs: StructTable, t: Type): seq<Field> {
    match StripTypedefs(t)
    case Struct(n) => if n in structs then structs[n].fields else []
    case _ => []
  }

  /** value[field]: the member at the field's offset. */
  function FieldValue(v: Value, f: Field): Value {
    Value(f.ty, if v.addr.At? then At(v.addr.n + f.offset) else NoAddr)
  }

  /** A symbol of the selected frame's block; None when reading its value raises a debugger error. */
  datatype Symbol = Symbol(name: string, value: Option<Value>)
}
