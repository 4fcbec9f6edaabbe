/** Building expression nodes and variable declarations.  Whatever calls are made, a node refers only
    to nodes built before it, also through the names it resolves: this is what makes constant
    evaluation end. */
module AstBuilders {
  import opened Tokens
  import opened Types
  import opened Typing
  import opened SymbolTables
  import opened ConstEval
  import opened FullEval
  import opened LazyRefinement
  import Ast = ExprAst

  /** A declarator with the type that it spells; the initializer has been built already. */
  datatype Declarator = Declarator(name: string, ty: Type, initializer: Option<nat>)

  /** The node `id` stands for `expr` where `contextType` is expected: a cast of it, or `expr` itself
      where nothing is to be cast. */
  predicate IsCastTo<C(==)>(nodes: seq<Node<C>>, id: nat, expr: nat, contextType: Type)
    requires expr < |nodes|
  {
    var n := nodes[expr];
    if n.kind.InitializerList? || SameType(n.ty, contextType) || contextType.Error? then id == expr
    else id < |nodes| && nodes[id] == Node(ImplicitCast(expr), n.isConst, contextType)
  }

  predicate AreCastTo<C(==)>(nodes: seq<Node<C>>, ids: seq<nat>, exprs: seq<nat>, contextTypes: seq<Type>)
    requires AllBelow(exprs, |nodes|)
  {
    && |ids| == |exprs| == |contextTypes|
    && forall i :: 0 <= i < |ids| ==> IsCastTo(nodes, ids[i], exprs[i], contextTypes[i])
  }

  /** One more cast. */
  lemma CastsGrow<C>(nodes: seq<Node<C>>, more: seq<Node<C>>, ids: seq<nat>, id: nat, exprs: seq<nat>,
    contextTypes: seq<Type>, i: nat)
    requires i < |exprs| == |contextTypes| && AllBelow(exprs, |nodes|) && nodes <= more
    requires AreCastTo(nodes, ids, exprs[..i], contextTypes[..i])
    requires IsCastTo(more, id, exprs[i], contextTypes[i])
    ensures AreCastTo(more, ids + [id], exprs[..i + 1], contextTypes[..i + 1])
  {
    hide SameType;
  }

  /** The type of `?:`: that of both branches, or the one that the other converts to. */
  function CommonType(t: Type, f: Type): Type {
    if t.Error? || f.Error? then Error
    else if SameType(t, f) then t
    else if Converts(t, f) then f
    else if Converts(f, t) then t
    else Error
  }

  predicate AllDeclsBelow(decls: map<string, Decl>, n: nat) { forall name <- decls :: DeclBelow(Some(decls[name]), n) }

  class AstBuilder<C> {
    var nodes: seq<Node<C>>
    const symbolTable: SymbolTable<Decl>

    ghost predicate Valid()
      reads this, symbolTable, symbolTable.levels
    {
      && symbolTable.Valid()
      && WellBuilt(nodes)
      && forall l <- symbolTable.levels :: AllDeclsBelow(l.declLookup, |nodes|)
    }

    /** The nodes of the preamble come before all others; its declarations refer to them. */
    constructor (imported: seq<Node<C>>, preamble: seq<SymbolTableLevel<Decl>>)
      requires WellBuilt(imported) && forall l <- preamble :: AllDeclsBelow(l.declLookup, |imported|)
      ensures Valid() && nodes == imported && fresh(symbolTable)
      ensures symbolTable.importedLevelCount == |preamble| && symbolTable.levels[..|preamble|] == preamble
    {
      nodes := imported;
      symbolTable := new SymbolTable(preamble);
      new;
      assert forall i :: 0 <= i < |preamble| ==> symbolTable.levels[i] == preamble[i];
    }

    /** `CreateAstNode`: the new node comes after all others. */
    method Create(kind: Kind<C>, isConst: bool, ty: Type) returns (id: nat)
      requires Valid() && RefersBelow(kind, |nodes|)
      modifies this`nodes
      ensures Valid() && id == |old(nodes)| && nodes == old(nodes) + [Node(kind, isConst, ty)]
    {
      id := |nodes|;
      nodes := nodes + [Node(kind, isConst, ty)];
      BelowMore(symbolTable.levels, id, |nodes|);
    }

    /** A declaration is visible to a name only once it has been added, after its initializer. */
    method BuildNameAccessExpr(isIdentifier: bool, name: string) returns (id: nat)
      requires Valid()
      modifies this`nodes
      ensures Valid() && id == |old(nodes)| && |nodes| == id + 1 && nodes[..id] == old(nodes)
      ensures var decl := if isIdentifier then Visible(Decls(symbolTable.levels), name) else None;
              && nodes[id].kind == NameAccess(decl)
              && nodes[id].isConst == (decl.Some? && decl.value.VariableDeclarator? && decl.value.isConst)
              && DeclBelow(decl, id)
    {
      var decl := None;
      if isIdentifier {
        decl := symbolTable.FindSymbol(name);
        VisibleBelow(Decls(symbolTable.levels), name, |nodes|);
      }
      id := Create(NameAccess(decl), decl.Some? && decl.value.VariableDeclarator? && decl.value.isConst,
        if decl.Some? then decl.value.ty else Error);
    }

    method BuildErrorExpr() returns (id: nat)
      requires Valid()
      modifies this`nodes
      ensures Valid() && id == |old(nodes)| && nodes == old(nodes) + [Node(ErrorExpr, true, Error)]
    {
      id := Create(ErrorExpr, true, Error);
    }

    /** Some constants have no type of the language. */
    method BuildLiteralExpr(value: C, glslType: Option<Type>) returns (id: nat)
      requires Valid()
      modifies this`nodes
      ensures Valid() && id == |old(nodes)|
      ensures nodes == old(nodes)
        + [Node(Literal(value), glslType.Some?, if glslType.Some? then glslType.value else Error)]
    {
      id := Create(Literal(value), glslType.Some?, if glslType.Some? then glslType.value else Error);
    }

    /** An expression of another type than its context expects is wrapped in a cast; initializer lists
        are left alone. */
    method TryMakeImplicitCast(expr: nat, contextType: Type) returns (id: nat)
      requires Valid() && expr < |nodes|
      modifies this`nodes
      ensures Valid() && id < |nodes| && old(nodes) <= nodes
      ensures nodes[id].isConst == old(nodes)[expr].isConst
      ensures IsCastTo(nodes, id, expr, contextType)
      ensures id == expr <==> nodes == old(nodes)
    {
      var n := nodes[expr];
      SameNameIffSameType(n.ty, contextType);
      if n.kind.InitializerList? || IsSameWith(n.ty, contextType) || contextType.Error? { return expr; }
      id := Create(ImplicitCast(expr), n.isConst, contextType);
    }

    /** Each argument is cast to the type that its position asks for. */
    method CastAll(args: seq<nat>, contextTypes: seq<Type>) returns (casted: seq<nat>)
      requires Valid() && AllBelow(args, |nodes|) && |contextTypes| == |args|
      modifies this`nodes
      ensures Valid() && old(nodes) <= nodes && |casted| == |args| && AllBelow(casted, |nodes|)
      ensures forall i :: 0 <= i < |args| ==> nodes[casted[i]].isConst == old(nodes)[args[i]].isConst
      ensures AreCastTo(nodes, casted, args, contextTypes)
    {
      assert AreCastTo(nodes, [], args[..0], contextTypes[..0]);
      hide IsCastTo, AreCastTo;
      casted := [];
      for i := 0 to |args|
        invariant Valid() && old(nodes) <= nodes && |casted| == i && AllBelow(casted, |nodes|)
        invariant forall j :: 0 <= j < i ==> nodes[casted[j]].isConst == old(nodes)[args[j]].isConst
        invariant AreCastTo(nodes, casted, args[..i], contextTypes[..i])
      {
        ghost var before, ids := nodes, casted;
        var id := TryMakeImplicitCast(args[i], contextTypes[i]);
        casted := casted + [id];
        CastsGrow(before, nodes, ids, id, args, contextTypes, i);
      }
      assert args[..|args|] == args && contextTypes[..|args|] == contextTypes;
    }

    /** Swizzles of scalars and vectors, members of everything else. */
    method BuildDotAccessExpr(lhs: nat, isIdentifier: bool, name: string, deducedType: Type) returns (id: nat)
      requires Valid() && lhs < |nodes|
      modifies this`nodes
      ensures Valid() && id == |old(nodes)| && |nodes| == id + 1 && nodes[..id] == old(nodes)
      ensures nodes[id].kind ==
        if old(nodes)[lhs].ty.Scalar? || old(nodes)[lhs].ty.Vector? then
          SwizzleAccess(lhs, if isIdentifier then name else "")
        else FieldAccess(lhs, name)
    {
      var base := nodes[lhs];
      if base.ty.Scalar? || base.ty.Vector? {
        id := Create(SwizzleAccess(lhs, if isIdentifier then name else ""), base.isConst, deducedType);
      } else {
        var found := isIdentifier && FieldIndex(base.ty, name).Some?;
        id := Create(FieldAccess(lhs, name), found && base.isConst, if found then deducedType else Error);
      }
    }

    method BuildIndexAccessExpr(base: nat, index: nat, deducedType: Type) returns (id: nat)
      requires Valid() && base < |nodes| && index < |nodes|
      modifies this`nodes
      ensures Valid() && old(nodes) <= nodes && id == |nodes| - 1 >= |old(nodes)|
      ensures nodes[id].kind.IndexAccess? && nodes[id].kind.indexed == base
      ensures IsCastTo(nodes, nodes[id].kind.index, index, Scalar(Int))
      ensures nodes[id].isConst == (old(nodes)[base].isConst && old(nodes)[index].isConst)
    {
      var casted := TryMakeImplicitCast(index, Scalar(Int));
      id := Create(IndexAccess(base, casted), nodes[base].isConst && nodes[casted].isConst, deducedType);
    }

    /** `.length()` is constant for sized operands, whatever the operand is. */
    method BuildUnaryExpr(operand: nat, opcode: Ast.UnaryOp, deducedType: Type) returns (id: nat)
      requires Valid() && operand < |nodes|
      modifies this`nodes
      ensures Valid() && id == |old(nodes)|
      ensures var ty := old(nodes)[operand].ty;
              nodes == old(nodes) + [Node(Unary(opcode, operand),
                if opcode.Length? then ty.Vector? || ty.Matrix? || (ty.Array? && ty.dimSize != 0)
                else !deducedType.Error? && old(nodes)[operand].isConst, deducedType)]
    {
      var ty := nodes[operand].ty;
      var isConst := false;
      if opcode.Length? {
        isConst := ty.Vector? || ty.Matrix? || (ty.Array? && ty.dimSize != 0);
      } else if !deducedType.Error? && nodes[operand].isConst {
        isConst := true;
      }
      id := Create(Unary(opcode, operand), isConst, deducedType);
    }

    /** The operands are cast to the types that the operator deduces for them. */
    method BuildBinaryExpr(lhs: nat, rhs: nat, opcode: Ast.BinaryOp, deducedType: Type, lhsContext: Type,
      rhsContext: Type) returns (id: nat)
      requires Valid() && lhs < |nodes| && rhs < |nodes|
      modifies this`nodes
      ensures Valid() && old(nodes) <= nodes && id == |nodes| - 1 >= |old(nodes)|
      ensures nodes[id].kind.Binary? && nodes[id].kind.binaryOp == opcode && nodes[id].ty == deducedType
      ensures IsCastTo(nodes, nodes[id].kind.lhs, lhs, lhsContext)
      ensures IsCastTo(nodes, nodes[id].kind.rhs, rhs, rhsContext)
      ensures nodes[id].isConst <==>
        && !deducedType.Error? && old(nodes)[lhs].isConst && old(nodes)[rhs].isConst
        && IsValueOp(opcode)
    {
      hide IsCommaOrAssignment, IsValueOp, SameType;
      ValueOps(opcode);
      var isConst := !deducedType.Error? && nodes[lhs].isConst && nodes[rhs].isConst && !IsCommaOrAssignment(opcode);
      var l := TryMakeImplicitCast(lhs, lhsContext);
      var r := TryMakeImplicitCast(rhs, rhsContext);
      id := Create(Binary(opcode, l, r), isConst, deducedType);
    }

    /** The branch whose type converts to the other's is cast. */
    method BuildSelectExpr(cond: nat, whenTrue: nat, whenFalse: nat) returns (id: nat)
      requires Valid() && cond < |nodes| && whenTrue < |nodes| && whenFalse < |nodes|
      modifies this`nodes
      ensures Valid() && old(nodes) <= nodes && id == |nodes| - 1 >= |old(nodes)|
      ensures nodes[id].kind.Select? && nodes[id].kind.cond == cond
      ensures nodes[id].ty == CommonType(old(nodes)[whenTrue].ty, old(nodes)[whenFalse].ty)
      ensures IsCastTo(nodes, nodes[id].kind.whenTrue, whenTrue, nodes[id].ty)
      ensures IsCastTo(nodes, nodes[id].kind.whenFalse, whenFalse, nodes[id].ty)
      ensures nodes[id].isConst <==>
        && !nodes[id].ty.Error?
        && old(nodes)[cond].isConst && old(nodes)[whenTrue].isConst && old(nodes)[whenFalse].isConst
    {
      var t, f := whenTrue, whenFalse;
      var trueType, falseType := nodes[t].ty, nodes[f].ty;
      SameNameIffSameType(trueType, falseType);
      SameNameIffSameType(trueType, trueType);
      SameNameIffSameType(falseType, falseType);
      SameTypeSymmetric(trueType, falseType);
      hide SameType, IsConvertibleTo, Converts;
      ConvertibleIff(trueType, falseType);
      ConvertibleIff(falseType, trueType);
      var deducedType := Error;
      if trueType.Error? || falseType.Error? {
      } else if IsSameWith(trueType, falseType) {
        deducedType := trueType;
      } else if IsConvertibleTo(trueType, falseType) {
        deducedType := falseType;
        t := TryMakeImplicitCast(t, deducedType);
      } else if IsConvertibleTo(falseType, trueType) {
        deducedType := trueType;
        f := TryMakeImplicitCast(f, deducedType);
      }
      var isConst := !deducedType.Error? && nodes[cond].isConst && nodes[t].isConst && nodes[f].isConst;
      id := Create(Select(cond, t, f), isConst, deducedType);
    }

    /** `resolved` is the return type and the parameter types of the function that was found. */
    method BuildFunctionCallExpr(name: string, args: seq<nat>, isConstEval: bool, resolved: Option<(Type, seq<Type>)>)
      returns (id: nat)
      requires Valid() && AllBelow(args, |nodes|) && (resolved.Some? ==> |resolved.value.1| == |args|)
      modifies this`nodes
      ensures Valid() && old(nodes) <= nodes && id == |nodes| - 1 >= |old(nodes)|
      ensures nodes[id].kind.FunctionCall? && nodes[id].kind.callee == name
      ensures if resolved.None? then nodes[id].kind.args == args
              else AreCastTo(nodes, nodes[id].kind.args, args, resolved.value.1)
      ensures nodes[id].isConst <==>
        resolved.Some? && isConstEval && forall i :: 0 <= i < |args| ==> old(nodes)[args[i]].isConst
    {
      if resolved.None? {
        id := Create(FunctionCall(name, args), false, Error);
        return;
      }
      var allConst := AllConst(args);
      var casted := CastAll(args, resolved.value.1);
      id := Create(FunctionCall(name, casted), isConstEval && allConst, resolved.value.0);
    }

    method AllConst(args: seq<nat>) returns (r: bool)
      requires AllBelow(args, |nodes|)
      ensures r <==> forall i :: 0 <= i < |args| ==> nodes[args[i]].isConst
    {
      for i := 0 to |args|
        invariant forall j :: 0 <= j < i ==> nodes[args[j]].isConst
      {
        if !nodes[args[i]].isConst { return false; }
      }
      return true;
    }

    method BuildConstructorCallExpr(constructed: Type, args: seq<nat>, contextTypes: seq<Type>) returns (id: nat)
      requires Valid() && AllBelow(args, |nodes|) && |contextTypes| == |args|
      modifies this`nodes
      ensures Valid() && old(nodes) <= nodes && id == |nodes| - 1 >= |old(nodes)|
      ensures nodes[id].kind.ConstructorCall? && nodes[id].kind.constructed == constructed
      ensures nodes[id].ty == constructed
      ensures AreCastTo(nodes, nodes[id].kind.ctorArgs, args, contextTypes)
      ensures nodes[id].isConst <==> forall i :: 0 <= i < |args| ==> old(nodes)[args[i]].isConst
    {
      var casted := CastAll(args, contextTypes);
      var allConst := AllConst(casted);
      id := Create(ConstructorCall(constructed, casted), allConst, constructed);
    }

    method BuildInitializerList(items: seq<nat>, contextTypes: seq<Type>, ty: Type) returns (id: nat)
      requires Valid() && AllBelow(items, |nodes|) && |contextTypes| == |items|
      modifies this`nodes
      ensures Valid() && old(nodes) <= nodes && id == |nodes| - 1 >= |old(nodes)|
      ensures nodes[id].kind.InitializerList? && nodes[id].ty == ty
      ensures AreCastTo(nodes, nodes[id].kind.items, items, contextTypes)
      ensures nodes[id].isConst <==> forall i :: 0 <= i < |items| ==> old(nodes)[items[i]].isConst
    {
      var casted := CastAll(items, contextTypes);
      var allConst := AllConst(casted);
      id := Create(InitializerList(casted), allConst, ty);
    }

    /** The declared names become visible together, behind all the initializers; in front of them
        comes the struct that the type declares, if any. */
    method BuildVariableDecl(structDecl: Option<(string, Type)>, isConst: bool, declarators: seq<Declarator>)
      returns (decls: seq<Decl>)
      requires Valid()
      requires forall i :: 0 <= i < |declarators| ==> InitializerBelow(declarators[i], |nodes|)
      modifies this`nodes, Current()`declLookup
      ensures Valid() && old(nodes) <= nodes
      ensures |decls| == |declarators| && AreDeclared(nodes, declarators, isConst, decls)
      ensures Current().declLookup ==
        if Current().freezed then old(Current().declLookup)
        else AddAll(WithStruct(old(Current().declLookup), StructDecl(structDecl)), Names(declarators), decls)
    {
      decls := [];
      assert AreDeclared(nodes, declarators[..0], isConst, []);
      for i := 0 to |declarators|
        invariant Valid() && old(nodes) <= nodes
        invariant Current().declLookup == old(Current().declLookup)
        invariant AreDeclared(nodes, declarators[..i], isConst, decls)
      {
        hide IsCastTo, HasDeclaredType, AreDeclared;
        ghost var before := nodes;
        var decl := BuildDeclarator(declarators[i], isConst);
        DeclareMore(before, nodes, declarators, isConst, decls, decl, i);
        decls := decls + [decl];
      }
      assert declarators[..|declarators|] == declarators;
      DeclaredBelow(nodes, declarators, isConst, decls);
      AddAllBelow(WithStruct(Current().declLookup, StructDecl(structDecl)), Names(declarators), decls, |nodes|);
      Current().AddVariableDecl(StructDecl(structDecl), Names(declarators), decls);
    }

    method BuildDeclarator(d: Declarator, isConst: bool) returns (decl: Decl)
      requires Valid() && InitializerBelow(d, |nodes|)
      modifies this`nodes
      ensures Valid() && old(nodes) <= nodes
      ensures Declares(nodes, d, isConst, decl)
    {
      var initializer, ty := None, d.ty;
      if d.initializer.Some? {
        ty := InferSize(ty, nodes[d.initializer.value].ty);
        var id := TryMakeImplicitCast(d.initializer.value, ty);
        initializer := Some(id);
      }
      return VariableDeclarator(initializer, isConst, ty);
    }

    function Current(): SymbolTableLevel<Decl>
      requires symbolTable.Valid()
      reads this, symbolTable
    {
      symbolTable.levels[|symbolTable.levels| - 1]
    }
  }

  predicate InitializerBelow(d: Declarator, n: nat) { d.initializer.Some? ==> d.initializer.value < n }

  /** An array whose outermost size is left open takes it from its initializer. */
  function InferSize(ty: Type, initializerType: Type): Type {
    if ty.Array? && ty.dimSize == 0 && initializerType.Array? && ty.elem == initializerType.elem
    then Array(ty.elem, initializerType.dimSize)
    else ty
  }

  /** An array whose outermost size is left open has the type of its initializer if that is an array of
      the same elements; otherwise the declared type stays. */
  predicate HasDeclaredType(decl: Decl, ty: Type, initializerType: Type) {
    match (ty, initializerType)
    case (Array(elem, open), Array(initElem, _)) =>
      decl.ty == if open == 0 && elem == initElem then initializerType else ty
    case _ => decl.ty == ty
  }

  /** The declaration made for a declarator: its initializer is the one given, cast to its type. */
  predicate Declares<C(==)>(nodes: seq<Node<C>>, d: Declarator, isConst: bool, decl: Decl) {
    && decl.VariableDeclarator? && decl.isConst == isConst && InitializerBelow(d, |nodes|)
    && match d.initializer
       case None => decl.initializer.None? && decl.ty == d.ty
       case Some(expr) =>
         && HasDeclaredType(decl, d.ty, nodes[expr].ty)
         && decl.initializer.Some? && IsCastTo(nodes, decl.initializer.value, expr, decl.ty)
  }

  predicate AreDeclared<C(==)>(nodes: seq<Node<C>>, declarators: seq<Declarator>, isConst: bool, decls: seq<Decl>) {
    |decls| == |declarators| && forall i :: 0 <= i < |decls| ==> Declares(nodes, declarators[i], isConst, decls[i])
  }

  lemma DeclareMore<C>(nodes: seq<Node<C>>, more: seq<Node<C>>, declarators: seq<Declarator>, isConst: bool,
    decls: seq<Decl>, decl: Decl, i: nat)
    requires i < |declarators| && nodes <= more && AreDeclared(nodes, declarators[..i], isConst, decls)
    requires Declares(more, declarators[i], isConst, decl)
    ensures AreDeclared(more, declarators[..i + 1], isConst, decls + [decl])
  {
    hide SameType, HasDeclaredType;
    forall j | 0 <= j < i ensures Declares(more, declarators[j], isConst, decls[j]) {
      assert Declares(nodes, declarators[..i][j], isConst, decls[j]);
    }
  }

  lemma DeclaredBelow<C>(nodes: seq<Node<C>>, declarators: seq<Declarator>, isConst: bool, decls: seq<Decl>)
    requires AreDeclared(nodes, declarators, isConst, decls)
    ensures forall i :: 0 <= i < |decls| ==> DeclBelow(Some(decls[i]), |nodes|)
  {
    hide SameType, HasDeclaredType;
    forall i | 0 <= i < |decls| ensures DeclBelow(Some(decls[i]), |nodes|) {
      assert Declares(nodes, declarators[i], isConst, decls[i]);
    }
  }

  function StructDecl(structDecl: Option<(string, Type)>): Option<(string, Decl)> {
    match structDecl case None => None case Some(d) => Some((d.0, OtherDecl(d.1)))
  }

  function Names(declarators: seq<Declarator>): seq<string> {
    seq(|declarators|, i requires 0 <= i < |declarators| => declarators[i].name)
  }

  lemma {:induction false} AddAllBelow(decls: map<string, Decl>, names: seq<string>, added: seq<Decl>, n: nat)
    requires |names| == |added| && AllDeclsBelow(decls, n)
    requires forall i :: 0 <= i < |added| ==> DeclBelow(Some(added[i]), n)
    ensures AllDeclsBelow(AddAll(decls, names, added), n)
    decreases |added|
  {
    if added != [] {
      AddAllBelow(decls, names[..|added| - 1], added[..|added| - 1], n);
    }
  }

  // ---------------------------------------------------------------------------------------
  // When a declared name becomes visible
  // ---------------------------------------------------------------------------------------

  lemma VisibleInnermost<D>(outer: seq<map<string, D>>, level: map<string, D>, name: string)
    ensures Visible(outer + [level], name) == if name in level then Some(level[name]) else Visible(outer, name)
  {
    assert (outer + [level])[..|outer|] == outer;
  }

  /** The initializer of a declarator should see the `k` declarators in front of it.  A name in it
      refers to what it should exactly if none of them adds that name to the level. */
  lemma {:induction false} SeesDeclaratorsIff<D>(outer: seq<map<string, D>>, level: map<string, D>,
    names: seq<string>, added: seq<D>, k: nat, name: string)
    requires |names| == |added| && k <= |names|
    requires forall i :: 0 <= i < k ==> Visible(outer + [level], name) != Some(added[i])
    ensures Visible(outer + [level], name) == Visible(outer + [AddAll(level, names[..k], added[..k])], name)
            <==> !IsAdded(level, names[..k], name)
  {
    var after := AddAll(level, names[..k], added[..k]);
    AddAllAdds(level, names[..k], added[..k], name);
    VisibleInnermost(outer, level, name);
    VisibleInnermost(outer, after, name);
  }

  lemma BothAdded<D>(level: map<string, D>, added: seq<D>)
    requires "a" !in level && "b" !in level && |added| == 2
    ensures AddAll(level, ["a", "b"], added).Keys == level.Keys + {"a", "b"}
  {
    var names := ["a", "b"];
    assert names[..1] == ["a"] && names[..1][..0] == [] && added[..1][..0] == [];
    assert AddAll(level, names[..1][..0], added[..1][..0]) == level;
    assert AddAll(level, names[..1], added[..1]) == level["a" := added[0]];
    assert AddAll(level, names, added) == level["a" := added[0]]["b" := added[1]];
  }

  lemma UnknownIsUndeclared<D>(levels: seq<SymbolTableLevel<D>>, name: string)
    requires levels != [] && Visible(Decls(levels), name) == None
    ensures name !in levels[|levels| - 1].declLookup
  {
  }

  method BuildUnknownName<C>(builder: AstBuilder<C>, name: string) returns (id: nat)
    requires builder.Valid() && Visible(Decls(builder.symbolTable.levels), name) == None
    modifies builder`nodes
    ensures builder.Valid() && id == |old(builder.nodes)|
    ensures |builder.nodes| == id + 1 && builder.nodes[..id] == old(builder.nodes)
    ensures builder.nodes[id].kind == NameAccess(None) && !builder.nodes[id].isConst
  {
    hide Visible;
    id := builder.BuildNameAccessExpr(true, name);
  }

  /** `int a = 1, b = a;` where no `a` is declared yet: the initializer of `b` refers to nothing, and
      is no constant, although `a` is visible behind the declaration. */
  method DeclareTogether<C>(builder: AstBuilder<C>, one: C)
    requires builder.Valid() && Visible(Decls(builder.symbolTable.levels), "a") == None
    requires "b" !in builder.Current().declLookup && !builder.Current().freezed
    modifies builder`nodes, builder.Current()`declLookup
    ensures builder.Valid() && |builder.nodes| > |old(builder.nodes)| + 1
    ensures var b := builder.nodes[|old(builder.nodes)| + 1]; b.kind == NameAccess(None) && !b.isConst
    ensures builder.Current().declLookup.Keys == old(builder.Current().declLookup.Keys) + {"a", "b"}
  {
    hide AddAll, Visible, AreDeclared;
    ghost var level := builder.Current().declLookup;
    UnknownIsUndeclared(builder.symbolTable.levels, "a");
    var literal := builder.BuildLiteralExpr(one, Some(Scalar(Int)));
    var access := BuildUnknownName(builder, "a");
    var declarators := [Declarator("a", Scalar(Int), Some(literal)), Declarator("b", Scalar(Int), Some(access))];
    var decls := builder.BuildVariableDecl(None, true, declarators);
    assert Names(declarators) == ["a", "b"];
    BothAdded(level, decls);
  }

  /** `int a[] = int[3](x, x, x);` declares an array of three. */
  method DeclareUnsized<C>(builder: AstBuilder<C>, x: C)
    requires builder.Valid() && "a" !in builder.Current().declLookup && !builder.Current().freezed
    modifies builder`nodes, builder.Current()`declLookup
    ensures builder.Valid() && "a" in builder.Current().declLookup
    ensures builder.Current().declLookup["a"].ty == Array(Scalar(Int), 3)
  {
    hide AddAll, Visible, AreCastTo;
    ghost var level := builder.Current().declLookup;
    var literal := builder.BuildLiteralExpr(x, Some(Scalar(Int)));
    var elem := Scalar(Int);
    var call := builder.BuildConstructorCallExpr(Array(elem, 3), [literal, literal, literal], [elem, elem, elem]);
    var declarators := [Declarator("a", Array(elem, 0), Some(call))];
    var decls := builder.BuildVariableDecl(None, false, declarators);
    assert Names(declarators) == ["a"];
    assert Declares(builder.nodes, declarators[0], false, decls[0]);
    OneAdded(level, decls);
  }

  lemma OneAdded<D>(level: map<string, D>, added: seq<D>)
    requires "a" !in level && |added| == 1
    ensures AddAll(level, ["a"], added) == level["a" := added[0]]
  {
    assert ["a"][..0] == [] && added[..0] == [] && AddAll(level, [], added[..0]) == level;
  }

  lemma BelowMore(levels: seq<SymbolTableLevel<Decl>>, m: nat, n: nat)
    requires m <= n && forall l <- levels :: AllDeclsBelow(l.declLookup, m)
    ensures forall l <- levels :: AllDeclsBelow(l.declLookup, n)
  {
  }

  lemma {:induction false} VisibleBelow(levels: seq<map<string, Decl>>, name: string, n: nat)
    requires forall i :: 0 <= i < |levels| ==> AllDeclsBelow(levels[i], n)
    ensures DeclBelow(Visible(levels, name), n)
  {
    if levels != [] && name !in levels[|levels| - 1] {
      VisibleBelow(levels[..|levels| - 1], name, n);
    }
  }

  // ---------------------------------------------------------------------------------------
  // Values do not change when more is built
  // ---------------------------------------------------------------------------------------

  lemma {:induction false} ValueIsStable<C>(ops: ConstOps<C>, nodes: seq<Node<C>>, more: seq<Node<C>>, i: nat)
    requires WellBuilt(nodes) && WellBuilt(more) && nodes <= more && i < |nodes|
    ensures Full(ops, more, i) == Full(ops, nodes, i)
    decreases i, 1
  {
    assert more[i] == nodes[i];
    assert RefersBelow(nodes[i].kind, i);
    match nodes[i].kind
    case InitializerList(items) => ValuesAreStable(ops, nodes, more, items, i);
    case ErrorExpr => case Literal(_) =>
    case NameAccess(decl) =>
      if decl.Some? && decl.value.VariableDeclarator? && decl.value.initializer.Some? {
        ValueIsStable(ops, nodes, more, decl.value.initializer.value);
      }
    case FieldAccess(base, _) => ValueIsStable(ops, nodes, more, base);
    case SwizzleAccess(vector, _) => ValueIsStable(ops, nodes, more, vector);
    case IndexAccess(indexed, index) =>
      ValueIsStable(ops, nodes, more, indexed);
      ValueIsStable(ops, nodes, more, index);
    case Unary(_, operand) => ValueIsStable(ops, nodes, more, operand);
    case Binary(_, l, r) =>
      ValueIsStable(ops, nodes, more, l);
      ValueIsStable(ops, nodes, more, r);
    case Select(c, t, f) =>
      ValueIsStable(ops, nodes, more, c);
      ValueIsStable(ops, nodes, more, t);
      ValueIsStable(ops, nodes, more, f);
    case ImplicitCast(casted) => ValueIsStable(ops, nodes, more, casted);
    case FunctionCall(_, args) => ValuesAreStable(ops, nodes, more, args, i);
    case ConstructorCall(_, args) => ValuesAreStable(ops, nodes, more, args, i);
  }

  lemma {:induction false} ValuesAreStable<C>(ops: ConstOps<C>, nodes: seq<Node<C>>, more: seq<Node<C>>,
    ids: seq<nat>, n: nat)
    requires WellBuilt(nodes) && WellBuilt(more) && nodes <= more && n <= |nodes| && AllBelow(ids, n)
    ensures FullAll(ops, more, ids, n) == FullAll(ops, nodes, ids, n)
    decreases n, 0, |ids|
  {
    if ids != [] {
      ValueIsStable(ops, nodes, more, ids[0]);
      ValuesAreStable(ops, nodes, more, ids[1..], n);
    }
  }

  /** Building more never changes what an earlier node evaluates to. */
  lemma {:induction false} EvaluationIsStable<C>(ops: ConstOps<C>, nodes: seq<Node<C>>, more: seq<Node<C>>, i: nat)
    requires WellBuilt(nodes) && WellBuilt(more) && nodes <= more && i < |nodes|
    ensures Eval(ops, more, i) == Eval(ops, nodes, i)
  {
    hide Full, EvalLazy;
    ValueIsStable(ops, nodes, more, i);
    LazyIsFull(ops, nodes, i);
    LazyIsFull(ops, more, i);
  }
}
