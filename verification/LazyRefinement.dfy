/** Lazy evaluation equals full evaluation. */
module LazyRefinement {
  import opened Tokens
  import opened Types
  import opened AstContexts
  import opened ConstEval
  import opened FullEval
  import Ast = ExprAst

  /** What a lazy result stands for. */
  function Denotation<C>(ops: ConstOps<C>, nodes: seq<Node<C>>, r: Lazy<C>, n: nat): Val<C>
    requires WellBuilt(nodes) && n <= |nodes| && ItemsBelow(r, n)
  {
    match r
    case Folded(v) => Prim(v)
    case Aggregate(items) => Agg(FullAll(ops, nodes, items, n))
  }

  lemma {:induction false} FullAllAt<C>(ops: ConstOps<C>, nodes: seq<Node<C>>, ids: seq<nat>, n: nat, k: nat)
    requires WellBuilt(nodes) && n <= |nodes| && AllBelow(ids, n) && k < |ids|
    ensures FullAll(ops, nodes, ids, n)[k] == Full(ops, nodes, ids[k])
    decreases k
  {
    if k > 0 {
      FullAllAt(ops, nodes, ids[1..], n, k - 1);
    }
  }

  lemma {:induction false} FullAllBound<C>(ops: ConstOps<C>, nodes: seq<Node<C>>, ids: seq<nat>, m: nat, n: nat)
    requires WellBuilt(nodes) && m <= n <= |nodes| && AllBelow(ids, m)
    ensures AllBelow(ids, n) && FullAll(ops, nodes, ids, m) == FullAll(ops, nodes, ids, n)
    decreases |ids|
  {
    hide Full;
    if ids != [] {
      FullAllBound(ops, nodes, ids[1..], m, n);
    }
  }

  lemma UnaryAgrees<C>(ops: ConstOps<C>, op: Ast.UnaryOp, v: C)
    requires !op.Length?
    ensures EvalUnaryConst(ops, op, v)
         == if !ops.isError(v) && (op.Identity? || op.Negate? || op.BitwiseNot? || op.LogicalNot?)
            then ops.unary(op, v) else ops.error
  {
  }

  lemma ValueOps(op: Ast.BinaryOp)
    ensures IsValueOp(op) <==> !IsCommaOrAssignment(op)
  {
  }

  lemma BinaryAgrees<C>(ops: ConstOps<C>, op: Ast.BinaryOp, l: C, r: C)
    ensures EvalBinaryConst(ops, op, l, r)
         == if IsValueOp(op) && !ops.isError(l) && !ops.isError(r) then ops.binary(op, l, r) else ops.error
  {
  }

  lemma BuiltinAgrees<C>(ops: ConstOps<C>, name: string, cs: seq<C>)
    ensures (if 1 <= |cs| <= 3 then EvalBuiltin(ops, name, cs) else ops.error)
         == if (|cs| == 1 || |cs| == 2 || |cs| == 3) && NoneIsError(ops, cs) then ops.builtin(name, cs) else ops.error
  {
  }

  lemma LengthAgrees<C>(ops: ConstOps<C>, ty: Type)
    ensures LengthOf(ops, ty) == LengthByType(ops, ty)
  {
  }

  lemma CtorArityAgrees(ty: Type, n: nat)
    ensures CtorArity(ty, n) <==> (ty.Scalar? && n == 1) || (ty.Vector? && n <= 4) || (ty.Matrix? && n <= 16)
  {
  }

  /** For every node of every program: the lazy result is the constant, or an aggregate whose items
      denote the parts, of the full value. */
  lemma {:induction false} LazyIsFull<C>(ops: ConstOps<C>, nodes: seq<Node<C>>, i: nat)
    requires WellBuilt(nodes) && i < |nodes|
    ensures Denotation(ops, nodes, EvalLazy(ops, nodes, i), i) == Full(ops, nodes, i)
    ensures Eval(ops, nodes, i) == PrimOf(ops, Full(ops, nodes, i))
    decreases i, 1
  {
    hide EvalUnaryConst, EvalBinaryConst, LengthOf, CtorArity, IsValueOp, LengthByType, MemberIndex, EvalBuiltin,
      NoneIsError, Prims, FullAll, EvalAll;
    if nodes[i].isConst {
      assert RefersBelow(nodes[i].kind, i);
      match nodes[i].kind
      case InitializerList(_) => case ErrorExpr => case Literal(_) =>
      case NameAccess(decl) =>
        if decl.Some? && decl.value.VariableDeclarator? && decl.value.initializer.Some? {
          LazyIsFullBelow(ops, nodes, decl.value.initializer.value, i);
        }
      case FieldAccess(base, name) =>
        LazyIsFullBelow(ops, nodes, base, i);
        if FieldIndex(nodes[base].ty, name).Some? {
          UnwrapIsComponent(ops, nodes, EvalLazy(ops, nodes, base), FieldIndex(nodes[base].ty, name).value, i);
        }
      case SwizzleAccess(vector, _) => LazyIsFullBelow(ops, nodes, vector, i);
      case IndexAccess(indexed, index) =>
        LazyIsFullBelow(ops, nodes, indexed, i);
        LazyIsFullBelow(ops, nodes, index, i);
        var k := ops.asInt32(Eval(ops, nodes, index));
        if k.Some? {
          UnwrapIsComponent(ops, nodes, EvalLazy(ops, nodes, indexed), ToSizeT(k.value), i);
        }
      case Unary(op, operand) =>
        LazyIsFullBelow(ops, nodes, operand, i);
        LengthAgrees(ops, nodes[operand].ty);
        if !op.Length? { UnaryAgrees(ops, op, Eval(ops, nodes, operand)); }
      case Binary(op, l, r) =>
        LazyIsFullBelow(ops, nodes, l, i);
        LazyIsFullBelow(ops, nodes, r, i);
        BinaryAgrees(ops, op, Eval(ops, nodes, l), Eval(ops, nodes, r));
      case Select(c, t, f) =>
        LazyIsFullBelow(ops, nodes, c, i);
        LazyIsFullBelow(ops, nodes, t, i);
        LazyIsFullBelow(ops, nodes, f, i);
      case ImplicitCast(casted) => LazyIsFullBelow(ops, nodes, casted, i);
      case FunctionCall(name, args) =>
        AllLazyAreFull(ops, nodes, args, i);
        BuiltinAgrees(ops, name, EvalAll(ops, nodes, args, i));
      case ConstructorCall(ty, args) => AllLazyAreFull(ops, nodes, args, i); CtorArityAgrees(ty, |args|);
    }
  }

  /** The same for an earlier node, seen from node `n`. */
  lemma {:induction false} LazyIsFullBelow<C>(ops: ConstOps<C>, nodes: seq<Node<C>>, i: nat, n: nat)
    requires WellBuilt(nodes) && i < n <= |nodes|
    ensures ItemsBelow(EvalLazy(ops, nodes, i), n)
    ensures Denotation(ops, nodes, EvalLazy(ops, nodes, i), n) == Full(ops, nodes, i)
    ensures Eval(ops, nodes, i) == PrimOf(ops, Full(ops, nodes, i))
    decreases i, 2
  {
    hide Full;
    LazyIsFull(ops, nodes, i);
    var r := EvalLazy(ops, nodes, i);
    if r.Aggregate? { FullAllBound(ops, nodes, r.items, i, n); }
  }

  lemma {:induction false} UnwrapIsComponent<C>(ops: ConstOps<C>, nodes: seq<Node<C>>, r: Lazy<C>, index: nat, n: nat)
    requires WellBuilt(nodes) && n <= |nodes| && ItemsBelow(r, n)
    ensures Denotation(ops, nodes, Unwrap(ops, nodes, r, index, n), n)
         == Component(ops, Denotation(ops, nodes, r, n), index)
    decreases n, 0
  {
    hide Full, EvalLazy;
    if r.Aggregate? && index < |r.items| {
      LazyIsFullBelow(ops, nodes, r.items[index], n);
      FullAllAt(ops, nodes, r.items, n, index);
    }
  }

  lemma {:induction false} AllLazyAreFull<C>(ops: ConstOps<C>, nodes: seq<Node<C>>, ids: seq<nat>, n: nat)
    requires WellBuilt(nodes) && n <= |nodes| && AllBelow(ids, n)
    ensures EvalAll(ops, nodes, ids, n) == Prims(ops, FullAll(ops, nodes, ids, n))
    decreases n, 0, |ids|
  {
    hide Full, EvalLazy;
    if ids != [] {
      LazyIsFullBelow(ops, nodes, ids[0], n);
      AllLazyAreFull(ops, nodes, ids[1..], n);
    }
  }

  // ---------------------------------------------------------------------------------------
  // Single nodes
  // ---------------------------------------------------------------------------------------

  /** An operator that is neither the comma nor an assignment is applied to the values of its operands,
      the left one first, exactly where neither is an error. */
  lemma {:induction false} BinaryNode<C>(ops: ConstOps<C>, nodes: seq<Node<C>>, i: nat, op: Ast.BinaryOp, l: nat,
    r: nat)
    requires WellBuilt(nodes) && i < |nodes| && nodes[i].isConst && nodes[i].kind == Binary(op, l, r)
    ensures l < i && r < i
    ensures var a, b := Eval(ops, nodes, l), Eval(ops, nodes, r);
            Eval(ops, nodes, i)
            == if !ops.isError(a) && !ops.isError(b) && IsValueOp(op) then ops.binary(op, a, b) else ops.error
  {
    hide EvalBinaryConst, IsValueOp;
    assert RefersBelow(nodes[i].kind, i);
    BinaryAgrees(ops, op, Eval(ops, nodes, l), Eval(ops, nodes, r));
  }

  /** `+`, `-`, `~` and `!` are applied to the value of the operand, and nothing else has one. */
  lemma {:induction false} UnaryNode<C>(ops: ConstOps<C>, nodes: seq<Node<C>>, i: nat, op: Ast.UnaryOp, operand: nat)
    requires WellBuilt(nodes) && i < |nodes| && nodes[i].isConst && nodes[i].kind == Unary(op, operand)
    requires !op.Length?
    ensures operand < i
    ensures var v := Eval(ops, nodes, operand);
            Eval(ops, nodes, i)
            == if !ops.isError(v) && (op.Identity? || op.Negate? || op.BitwiseNot? || op.LogicalNot?)
               then ops.unary(op, v) else ops.error
  {
    hide EvalUnaryConst;
    assert RefersBelow(nodes[i].kind, i);
    UnaryAgrees(ops, op, Eval(ops, nodes, operand));
  }

  /** `.length()` is told by the type of its operand, whether that is constant or not. */
  lemma {:induction false} LengthNode<C>(ops: ConstOps<C>, nodes: seq<Node<C>>, i: nat, operand: nat)
    requires WellBuilt(nodes) && i < |nodes| && nodes[i].isConst && nodes[i].kind == Unary(Ast.Length, operand)
    ensures operand < i
    ensures match nodes[operand].ty
            case Vector(_, components) => Eval(ops, nodes, i) == ops.fromInt(components)
            case Matrix(_, _, columns) => Eval(ops, nodes, i) == ops.fromInt(columns)
            case Array(_, size) => Eval(ops, nodes, i) == if size > 0 then ops.fromInt(size) else ops.error
            case _ => Eval(ops, nodes, i) == ops.error
  {
    hide LengthOf;
    assert RefersBelow(nodes[i].kind, i);
    LengthAgrees(ops, nodes[operand].ty);
  }
}
