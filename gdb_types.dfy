/**
  Debug-info types as the debugger reflects them, and the display name the
  traversal gives a type (its "true type name").

  A struct type refers to its layout by name through a StructTable, so that
  recursive types (a node holding a pointer to a node) are finite values.
*/
module GdbTypes {

  /** The classification codes of the types the traversal never expands. */
  datatype LeafKind =
    | IntKind | FloatKind | CharKind | BoolKind | VoidKind | EnumKind | UnionKind
    | FuncKind | StringKind | ComplexKind | RefKind | MethodKind | MethodPtrKind
    | MemberPtrKind | NamespaceKind | InternalFunctionKind | ErrorKind

  /** A type's classification code, as a closed set. */
  datatype TypeCode = PtrCode | ArrayCode | StructCode | TypedefCode | LeafCode(kind: LeafKind)

  datatype Type =
    | Leaf(name: string, kind: LeafKind, size: nat)
    | Typedef(name: string, aliased: Type)
    | Pointer(target: Type)
    | Array(lo: int, hi: int, elem: Type)
    | Struct(name: string)

  datatype Field = Field(name: string, ty: Type, offset: nat)

  datatype StructDef = StructDef(fields: seq<Field>, size: nat)

  /** Struct layouts by name; a name that is absent is an incomplete type. */
  type StructTable = map<string, StructDef>

  /** Pointer width of the one architecture the allocation hook supports. */
  const PointerSize: nat := 8

  function Code(t: Type): TypeCode {
    match t
    case Leaf(_, k, _) => LeafCode(k)
    case Typedef(_, _) => TypedefCode
    case Pointer(_) => PtrCode
    case Array(_, _, _) => ArrayCode
    case Struct(_) => StructCode
  }

  /** Removes the typedef layers at the top of a type (not those inside it). */
  function StripTypedefs(t: Type): (r: Type)
    ensures !r.Typedef?
  {
    if t.Typedef? then StripTypedefs(t.aliased) else t
  }

  function Sizeof(structs: StructTable, t: Type): nat {
    match t
    case Leaf(_, _, size) => size
    case Typedef(_, a) => Sizeof(structs, a)
    case Pointer(_) => PointerSize
    case Array(lo, hi, e) => if lo <= hi then (hi - lo + 1) * Sizeof(structs, e) else 0
    case Struct(n) => if n in structs then structs[n].size else 0
  }

  /** Python's str() on an integer. */
  function IntToString(i: int): string {
    if i < 0 then "-" + NatToString(-i) else NatToString(i)
  }

  function NatToString(n: nat): string {
    if n < 10 then [Digit(n)] else NatToString(n / 10) + [Digit(n % 10)]
  }

  /** The decimal digit for d. */
  function Digit(d: nat): char
    requires d < 10
  {
    ('0' as int + d) as char
  }

  /** The token an array layer contributes: the difference of its bounds, not its length. */
  function ArrayToken(lo: int, hi: int): string {
    "[" + IntToString(hi - lo) + "]"
  }

  /** The tokens of the pointer and array layers of t, outermost first. */
  function Layers(t: Type): seq<string> {
    match t
    case Pointer(tg) => ["*"] + Layers(tg)
    case Array(lo, hi, e) => [ArrayToken(lo, hi)] + Layers(e)
    case _ => []
  }

  /** The type under all pointer and array layers of t. */
  function Innermost(t: Type): (b: Type)
    ensures !b.Pointer? && !b.Array?
  {
    match t
    case Pointer(tg) => Innermost(tg)
    case Array(_, _, e) => Innermost(e)
    case _ => t
  }

  /** Concatenates tokens last to first. */
  function RevJoin(tokens: seq<string>): string {
    if tokens == [] then "" else tokens[|tokens| - 1] + RevJoin(tokens[..|tokens| - 1])
  }

  /** The innermost type's name followed by the layer tokens, innermost layer first. */
  function DisplayName(t: Type): string {
    Innermost(t).name + RevJoin(Layers(t))
  }

  /** The display name of a type once its top-level typedefs are stripped. */
  function TypeName(t: Type): string {
    DisplayName(StripTypedefs(t))
  }

  lemma {:induction false} RevJoinPrepend(tk: string, ts: seq<string>)
    ensures RevJoin([tk] + ts) == RevJoin(ts) + tk
  {
    if ts == [] {
      assert ([tk] + ts)[..0] == [];
    } else {
      var last := |ts| - 1;
      assert ([tk] + ts)[..|ts|] == [tk] + ts[..last];
      RevJoinPrepend(tk, ts[..last]);
    }
  }

  /** The outermost layer's token is the rightmost one in the name. */
  lemma {:induction false} OuterLayerRightmost(t: Type)
    ensures t.Pointer? ==> DisplayName(t) == DisplayName(t.target) + "*"
    ensures t.Array? ==> DisplayName(t) == DisplayName(t.elem) + ArrayToken(t.lo, t.hi)
    ensures !t.Pointer? && !t.Array? ==> DisplayName(t) == t.name
  {
    match t
    case Pointer(tg) => RevJoinPrepend("*", Layers(tg));
    case Array(lo, hi, e) => RevJoinPrepend(ArrayToken(lo, hi), Layers(e));
    case _ =>
  }

  /** Typedefs at the top are transparent; a typedef under a layer keeps its own name. */
  lemma TypedefExamples(n: string, t: Type)
    ensures TypeName(Typedef(n, t)) == TypeName(t)
    ensures TypeName(Pointer(Typedef(n, t))) == n + "*"
  {
    OuterLayerRightmost(Pointer(Typedef(n, t)));
  }

  /** A pointer to an array int[4] (bounds 0 and 3) is named "int[3]*", not "int[4]*". */
  lemma PointerToIntArrayName()
    ensures TypeName(Pointer(Array(0, 3, Leaf("int", IntKind, 4)))) == "int[3]*"
    ensures TypeName(Pointer(Array(0, 3, Leaf("int", IntKind, 4)))) != "int[4]*"
  {
    var arr := Array(0, 3, Leaf("int", IntKind, 4));
    OuterLayerRightmost(Pointer(arr));
    OuterLayerRightmost(arr);
    assert IntToString(3) == "3";
  }

  /** The display name of a type, built as the debugger hook builds it: peel the
      layers into a list of tokens, then append them to the base name from the
      most recently recorded one back. */
  method TrueTypeName(typ: Type) returns (name: string)
    ensures name == TypeName(typ)
  {
    var t := StripTypedefs(typ);
    var tokens: seq<string> := [];
    while Code(t) == PtrCode || Code(t) == ArrayCode
      invariant DisplayName(StripTypedefs(typ)) == DisplayName(t) + RevJoin(tokens)
      decreases t
    {
      var token, next;
      if Code(t) == ArrayCode {
        token, next := ArrayToken(t.lo, t.hi), t.elem;
      } else {
        token, next := "*", t.target;
      }
      PeelLayer(t, next, token, tokens);
      tokens := tokens + [token];
      t := next;
    }
    OuterLayerRightmost(t);
    name := t.name;
    while |tokens| > 0
      invariant name + RevJoin(tokens) == TypeName(typ)
    {
      var last := |tokens| - 1;
      RevJoinLast(tokens);
      name, tokens := name + tokens[last], tokens[..last];
    }
  }

  /** Moving the outermost layer's token from the type to the token list
      leaves the display name unchanged. */
  lemma PeelLayer(t: Type, next: Type, token: string, tokens: seq<string>)
    requires (t.Pointer? && next == t.target && token == "*")
          || (t.Array? && next == t.elem && token == ArrayToken(t.lo, t.hi))
    ensures DisplayName(t) + RevJoin(tokens) == DisplayName(next) + RevJoin(tokens + [token])
  {
    OuterLayerRightmost(t);
    RevJoinAppend(tokens, token);
  }

  lemma RevJoinLast(ts: seq<string>)
    requires |ts| > 0
    ensures RevJoin(ts) == ts[|ts| - 1] + RevJoin(ts[..|ts| - 1])
  {
  }

  lemma RevJoinAppend(ts: seq<string>, tk: string)
    ensures RevJoin(ts + [tk]) == tk + RevJoin(ts)
  {
    assert (ts + [tk])[..|ts|] == ts;
  }
}
