/** The reference for constant evaluation: an evaluator that builds aggregates in full. */
module FullEval {
  import opened Tokens
  import opened Types
  import Ast = ExprAst
  import opened ConstEval

  /** A value, or an aggregate of values. */
  datatype Val<C> = Prim(value: C) | Agg(items: seq<Val<C>>)

  function PrimOf<C>(ops: ConstOps<C>, v: Val<C>): C { if v.Prim? then v.value else ops.error }

  /** Projection of a value. */
  function Component<C>(ops: ConstOps<C>, v: Val<C>, index: nat): Val<C> {
    match v
    case Prim(c) => Prim(ops.getElement(c, index))
    case Agg(items) => if index < |items| then items[index] else Prim(ops.error)
  }

  /** The operators that have a value and no effect. */
  predicate IsValueOp(op: Ast.BinaryOp) {
    match op
    case PlusOp => true case MinusOp => true case MulOp => true case DivOp => true case ModuloOp => true
    case EqualOp => true case NotEqualOp => true
    case LessOp => true case LessEqOp => true case GreaterOp => true case GreaterEqOp => true
    case BitwiseAndOp => true case BitwiseOrOp => true case BitwiseXorOp => true
    case LogicalAndOp => true case LogicalOrOp => true case LogicalXorOp => true
    case ShiftLeftOp => true case ShiftRightOp => true
    case _ => false
  }

  predicate NoneIsError<C>(ops: ConstOps<C>, cs: seq<C>) {
    forall k :: 0 <= k < |cs| ==> !ops.isError(cs[k])
  }

  /** The length that the type tells: components of a vector, columns of a matrix, elements of an array
      whose size is known. */
  function LengthByType<C>(ops: ConstOps<C>, ty: Type): C {
    if ty.Vector? then ops.fromInt(ty.size)
    else if ty.Matrix? then ops.fromInt(ty.dimCol)
    else if ty.Array? && ty.dimSize > 0 then ops.fromInt(ty.dimSize)
    else ops.error
  }

  /** The value of a node, with all its parts. */
  function Full<C>(ops: ConstOps<C>, nodes: seq<Node<C>>, i: nat): Val<C>
    requires WellBuilt(nodes) && i < |nodes|
    decreases i, 1
  {
    if !nodes[i].isConst then Prim(ops.error)
    else
      assert RefersBelow(nodes[i].kind, i);
      match nodes[i].kind
      case InitializerList(items) => Agg(FullAll(ops, nodes, items, i))
      case ErrorExpr => Prim(ops.error)
      case Literal(v) => Prim(v)
      case NameAccess(decl) =>
        if decl.Some? && decl.value.VariableDeclarator? && decl.value.initializer.Some? then
          Full(ops, nodes, decl.value.initializer.value)
        else Prim(ops.error)
      case FieldAccess(base, name) =>
        if !nodes[base].ty.Struct? then Prim(ops.error)
        else
          (match MemberIndex(nodes[base].ty.members, name)
           case None => Prim(ops.error)
           case Some(k) => Component(ops, Full(ops, nodes, base), k))
      case SwizzleAccess(vector, swizzle) => Prim(ops.getSwizzle(PrimOf(ops, Full(ops, nodes, vector)), swizzle))
      case IndexAccess(indexed, index) =>
        (match ops.asInt32(PrimOf(ops, Full(ops, nodes, index)))
         case None => Prim(ops.error)
         case Some(k) => Component(ops, Full(ops, nodes, indexed), if k >= 0 then k else 0x1_0000_0000_0000_0000 + k))
      case Unary(op, operand) =>
        if op.Length? then Prim(LengthByType(ops, nodes[operand].ty))
        else
          var v := PrimOf(ops, Full(ops, nodes, operand));
          if !ops.isError(v) && (op.Identity? || op.Negate? || op.BitwiseNot? || op.LogicalNot?)
          then Prim(ops.unary(op, v))
          else Prim(ops.error)
      case Binary(op, l, r) =>
        var a, b := PrimOf(ops, Full(ops, nodes, l)), PrimOf(ops, Full(ops, nodes, r));
        if IsValueOp(op) && !ops.isError(a) && !ops.isError(b) then Prim(ops.binary(op, a, b)) else Prim(ops.error)
      case Select(c, t, f) =>
        (match ops.asBool(PrimOf(ops, Full(ops, nodes, c)))
         case None => Prim(ops.error)
         case Some(b) => Full(ops, nodes, if b then t else f))
      case ImplicitCast(casted) => Prim(ops.implicitCast(PrimOf(ops, Full(ops, nodes, casted)), nodes[i].ty))
      case FunctionCall(name, args) =>
        var cs := Prims(ops, FullAll(ops, nodes, args, i));
        if (|cs| == 1 || |cs| == 2 || |cs| == 3) && NoneIsError(ops, cs) then Prim(ops.builtin(name, cs))
        else Prim(ops.error)
      case ConstructorCall(ty, args) =>
        var vs := FullAll(ops, nodes, args, i);
        if ty.Array? || ty.Struct? then Agg(vs)
        else if (ty.Scalar? && |vs| == 1) || (ty.Vector? && |vs| <= 4) || (ty.Matrix? && |vs| <= 16)
        then Prim(ops.construct(ty, Prims(ops, vs)))
        else Prim(ops.error)
  }

  function FullAll<C>(ops: ConstOps<C>, nodes: seq<Node<C>>, ids: seq<nat>, n: nat): (r: seq<Val<C>>)
    requires WellBuilt(nodes) && n <= |nodes| && AllBelow(ids, n)
    ensures |r| == |ids|
    decreases n, 0, |ids|
  {
    if ids == [] then [] else [Full(ops, nodes, ids[0])] + FullAll(ops, nodes, ids[1..], n)
  }

  function Prims<C>(ops: ConstOps<C>, vs: seq<Val<C>>): (r: seq<C>)
    ensures |r| == |vs|
  {
    if vs == [] then [] else [PrimOf(ops, vs[0])] + Prims(ops, vs[1..])
  }
}
