/** Constant evaluation.  Aggregates are evaluated lazily: the evaluator projects through initializer
    lists and constructors without building them.

    Nodes are numbered in the order in which they are built.  The primitive operations on constant
    values are left to `ConstOps`. */
module ConstEval {
  import opened Tokens
  import opened Types
  import opened AstContexts
  import Ast = ExprAst

  datatype ConstOps<!C> = ConstOps(
    error: C,
    isError: C -> bool,
    fromInt: nat -> C,
    asInt32: C -> Option<int32>,
    asBool: C -> Option<bool>,
    getElement: (C, nat) -> C,
    getSwizzle: (C, string) -> C,
    unary: (Ast.UnaryOp, C) -> C,
    binary: (Ast.BinaryOp, C, C) -> C,
    implicitCast: (C, Type) -> C,
    builtin: (string, seq<C>) -> C,
    construct: (Type, seq<C>) -> C)

  datatype Decl = VariableDeclarator(initializer: Option<nat>, isConst: bool, ty: Type) | OtherDecl(ty: Type)

  datatype Node<C> = Node(kind: Kind<C>, isConst: bool, ty: Type)

  datatype Kind<C> =
    | InitializerList(items: seq<nat>)
    | ErrorExpr
    | Literal(value: C)
    | NameAccess(decl: Option<Decl>)
    | FieldAccess(base: nat, name: string)
    | SwizzleAccess(vector: nat, swizzle: string)
    | IndexAccess(indexed: nat, index: nat)
    | Unary(unaryOp: Ast.UnaryOp, operand: nat)
    | Binary(binaryOp: Ast.BinaryOp, lhs: nat, rhs: nat)
    | Select(cond: nat, whenTrue: nat, whenFalse: nat)
    | ImplicitCast(casted: nat)
    | FunctionCall(callee: string, args: seq<nat>)
    | ConstructorCall(constructed: Type, ctorArgs: seq<nat>)

  // ---------------------------------------------------------------------------------------
  // Build order
  // ---------------------------------------------------------------------------------------

  predicate AllBelow(ids: seq<nat>, n: nat) { forall i :: 0 <= i < |ids| ==> ids[i] < n }

  /** All nodes that a node refers to, also through the declaration of a name, come before `n`. */
  predicate RefersBelow<C>(k: Kind<C>, n: nat) {
    match k
    case InitializerList(items) => AllBelow(items, n)
    case ErrorExpr => true
    case Literal(_) => true
    case NameAccess(decl) => DeclBelow(decl, n)
    case FieldAccess(base, _) => base < n
    case SwizzleAccess(vector, _) => vector < n
    case IndexAccess(indexed, index) => indexed < n && index < n
    case Unary(_, operand) => operand < n
    case Binary(_, lhs, rhs) => lhs < n && rhs < n
    case Select(c, t, f) => c < n && t < n && f < n
    case ImplicitCast(casted) => casted < n
    case FunctionCall(_, args) => AllBelow(args, n)
    case ConstructorCall(_, args) => AllBelow(args, n)
  }

  predicate DeclBelow(decl: Option<Decl>, n: nat) {
    decl.Some? && decl.value.VariableDeclarator? && decl.value.initializer.Some? ==> decl.value.initializer.value < n
  }

  predicate WellBuilt<C>(nodes: seq<Node<C>>) { forall i :: 0 <= i < |nodes| ==> RefersBelow(nodes[i].kind, i) }

  /** The position of a struct member. */
  function MemberIndex(members: seq<Member>, name: string): (r: Option<nat>)
    ensures r.Some? ==> r.value < |members| && members[r.value].name == name
    ensures forall j :: 0 <= j < (if r.Some? then r.value else |members|) ==> members[j].name != name
  {
    if members == [] then None
    else if members[0].name == name then Some(0)
    else match MemberIndex(members[1..], name) case None => None case Some(i) => Some(i + 1)
  }

  function FieldIndex(baseType: Type, name: string): Option<nat> {
    if baseType.Struct? then MemberIndex(baseType.members, name) else None
  }

  /** `.length()` depends on the type of its operand only. */
  function LengthOf<C>(ops: ConstOps<C>, ty: Type): C {
    match ty
    case Vector(_, n) => ops.fromInt(n)
    case Matrix(_, _, c) => ops.fromInt(c)
    case Array(_, n) => if n != 0 then ops.fromInt(n) else ops.error
    case _ => ops.error
  }

  predicate HasEffect(op: Ast.UnaryOp) { op.PrefixInc? || op.PrefixDec? || op.PostfixInc? || op.PostfixDec? }

  predicate IsCommaOrAssignment(op: Ast.BinaryOp) {
    || op.CommaOp? || op.AssignOp? || op.MulAssignOp? || op.DivAssignOp? || op.ModAssignOp? || op.AddAssignOp?
    || op.SubAssignOp? || op.LShiftAssignOp? || op.RShiftAssignOp? || op.AndAssignOp? || op.XorAssignOp?
    || op.OrAssignOp?
  }

  function EvalUnaryConst<C>(ops: ConstOps<C>, op: Ast.UnaryOp, v: C): C {
    if ops.isError(v) || HasEffect(op) then ops.error else ops.unary(op, v)
  }

  function EvalBinaryConst<C>(ops: ConstOps<C>, op: Ast.BinaryOp, l: C, r: C): C {
    if ops.isError(l) || ops.isError(r) || IsCommaOrAssignment(op) then ops.error else ops.binary(op, l, r)
  }

  /** A call of a builtin function with one to three arguments, none of which is an error. */
  function EvalBuiltin<C>(ops: ConstOps<C>, name: string, args: seq<C>): C {
    if 1 <= |args| <= 3 && forall i :: 0 <= i < |args| ==> !ops.isError(args[i]) then ops.builtin(name, args)
    else ops.error
  }

  /** How many arguments the constructor of an arithmetic type is evaluated with. */
  predicate CtorArity(ty: Type, n: nat) {
    match ty
    case Scalar(_) => n == 1
    case Vector(_, _) => n <= 4
    case Matrix(_, _, _) => n <= 16
    case _ => false
  }

  // ---------------------------------------------------------------------------------------
  // Lazy evaluation
  // ---------------------------------------------------------------------------------------

  /** A folded value, or an aggregate whose items are still to be evaluated. */
  datatype Lazy<C> = Folded(value: C) | Aggregate(items: seq<nat>)

  function AsConstValue<C>(ops: ConstOps<C>, r: Lazy<C>): C { if r.Folded? then r.value else ops.error }

  predicate ItemsBelow<C>(r: Lazy<C>, n: nat) { r.Aggregate? ==> AllBelow(r.items, n) }

  /** A returned aggregate holds only nodes built before the evaluated one: that is why projecting
      into it ends. */
  function EvalLazy<C>(ops: ConstOps<C>, nodes: seq<Node<C>>, i: nat): (r: Lazy<C>)
    requires WellBuilt(nodes) && i < |nodes|
    ensures ItemsBelow(r, i)
    decreases i, 2
  {
    if !nodes[i].isConst then Folded(ops.error)
    else
      assert RefersBelow(nodes[i].kind, i);
      match nodes[i].kind
      case InitializerList(items) => Aggregate(items)
      case ErrorExpr => Folded(ops.error)
      case Literal(v) => Folded(v)
      case NameAccess(decl) =>
        if decl.Some? && decl.value.VariableDeclarator? && decl.value.initializer.Some? then
          EvalLazy(ops, nodes, decl.value.initializer.value)
        else Folded(ops.error)
      case FieldAccess(base, name) =>
        (match FieldIndex(nodes[base].ty, name)
         case None => Folded(ops.error)
         case Some(k) => Unwrap(ops, nodes, EvalLazy(ops, nodes, base), k, i))
      case SwizzleAccess(vector, swizzle) => Folded(ops.getSwizzle(Eval(ops, nodes, vector), swizzle))
      case IndexAccess(indexed, index) =>
        (match ops.asInt32(Eval(ops, nodes, index))
         case None => Folded(ops.error)
         case Some(k) => Unwrap(ops, nodes, EvalLazy(ops, nodes, indexed), ToSizeT(k), i))
      case Unary(op, operand) =>
        Folded(if op.Length? then LengthOf(ops, nodes[operand].ty)
               else EvalUnaryConst(ops, op, Eval(ops, nodes, operand)))
      case Binary(op, l, r) => Folded(EvalBinaryConst(ops, op, Eval(ops, nodes, l), Eval(ops, nodes, r)))
      case Select(c, t, f) =>
        (match ops.asBool(Eval(ops, nodes, c))
         case None => Folded(ops.error)
         case Some(b) => EvalLazy(ops, nodes, if b then t else f))
      case ImplicitCast(casted) => Folded(ops.implicitCast(Eval(ops, nodes, casted), nodes[i].ty))
      case FunctionCall(name, args) =>
        Folded(if 1 <= |args| <= 3 then EvalBuiltin(ops, name, EvalAll(ops, nodes, args, i)) else ops.error)
      case ConstructorCall(ty, args) =>
        if ty.Array? || ty.Struct? then Aggregate(args)
        else Folded(if CtorArity(ty, |args|) then ops.construct(ty, EvalAll(ops, nodes, args, i)) else ops.error)
  }

  /** The element of a value, or what the item of an aggregate evaluates to. */
  function Unwrap<C>(ops: ConstOps<C>, nodes: seq<Node<C>>, r: Lazy<C>, index: nat, n: nat): (u: Lazy<C>)
    requires WellBuilt(nodes) && n <= |nodes| && ItemsBelow(r, n)
    ensures ItemsBelow(u, n)
    decreases n, 0
  {
    match r
    case Folded(v) => Folded(ops.getElement(v, index))
    case Aggregate(items) => if index < |items| then EvalLazy(ops, nodes, items[index]) else Folded(ops.error)
  }

  function Eval<C>(ops: ConstOps<C>, nodes: seq<Node<C>>, i: nat): C
    requires WellBuilt(nodes) && i < |nodes|
    decreases i, 3
  {
    AsConstValue(ops, EvalLazy(ops, nodes, i))
  }

  function EvalAll<C>(ops: ConstOps<C>, nodes: seq<Node<C>>, ids: seq<nat>, n: nat): (r: seq<C>)
    requires WellBuilt(nodes) && n <= |nodes| && AllBelow(ids, n)
    ensures |r| == |ids|
    decreases n, 1, |ids|
  {
    if ids == [] then [] else [Eval(ops, nodes, ids[0])] + EvalAll(ops, nodes, ids[1..], n)
  }
}
