/**
 * The abstract syntax tree the parser builds, and the two per-node analyses
 * the tree classes define: type inference (`getReturnType`) and return
 * analysis (`isReturn`).
 */
module Ast {
  import opened Wrappers
  import opened Types
  import opened Scopes

  /**
   * Expression nodes. A function call and a type constructor keep their
   * argument list (an ExprList node in the tree classes) as a sequence. A
   * postfix `++`/`--` has the empty string as its member name.
   */
  datatype Expr =
    | Conditional(cond: Expr, thenExpr: Expr, elseExpr: Expr)
    | Binary(op: ExprType, lhs: Expr, rhs: Expr)
    | Prefix(op: ExprType, operand: Expr)
    | Postfix(op: ExprType, operand: Expr, member: string)
    | Sequence(items: seq<Expr>)
    | Call(callee: string, args: seq<Expr>)
    | Construct(ty: AstType, args: seq<Expr>)
    | Number(text: string, ty: AstType)
    | Variable(name: string)
    | VariableIndex(name: string, index: Expr)

  /** Statement nodes; a `for` header's first clause is itself a statement. */
  datatype Sentence =
    | EmptySentence
    | Block(sentences: seq<Sentence>)
    | ExprStmt(expr: Expr)
    | If(guard: Expr, thenPart: Sentence, elsePart: Option<Sentence>)
    | For(first: Sentence, test: Expr, step: Expr, body: Sentence)
    | Return(value: Option<Expr>)
    | VarDef(ty: AstType, isConst: bool, name: string, init: Option<Expr>)

  datatype Argument = Argument(ty: AstType, name: string)

  datatype Prototype = Prototype(returnType: AstType, name: string, args: seq<Argument>)

  /** One `location`/`binding` entry of a layout qualifier; `value` is -1 when no `=` was given. */
  datatype QualifierId = QualifierId(id: LayoutIdentifier, value: int)

  const NoLayoutValue: int := -1

  datatype Layout = Layout(kind: LayoutType, ids: seq<QualifierId>)

  datatype Definition =
    | FunctionDef(proto: Prototype, body: seq<Sentence>)
    | GlobalVar(ty: AstType, isConst: bool, name: string, init: Option<Expr>, layout: Option<Layout>)

  /** The program: its `#version` number (an unsigned 64-bit value) and its definitions. */
  datatype TopLevel = TopLevel(version: nat, definitions: seq<Definition>)

  /**
   * The type an expression reports, looking variables up in `scope`. None
   * stands for the cases the tree classes leave undefined: a variable bound
   * nowhere in the chain (a null dereference) and a call with no arguments
   * (a function that falls off its end). The explicit type slot of the
   * tree classes is set only by number literals and type constructors, so
   * every other node reports the type computed from its children.
   */
  function ReturnType<V>(e: Expr, scope: Scope<V>): Option<AstType>
    decreases e
  {
    match e
    case Conditional(_, t, _) => ReturnType(t, scope)
    case Binary(_, l, _) => ReturnType(l, scope)
    case Prefix(op, x) =>
      if op in {PlusPlusExpr, MinusMinusExpr, PlusExpr, MinusExpr, TildeExpr} then ReturnType(x, scope)
      else if op == NotExpr then Some(Int)
      else Some(ErrorType)
    case Postfix(op, _, _) =>
      if op == PlusPlusExpr || op == MinusMinusExpr then Some(Int)
      else if op == DotExpr then Some(Float)
      else Some(ErrorType)
    case Sequence(items) =>
      if |items| > 0 then ReturnType(items[|items| - 1], scope) else Some(ErrorType)
    case Call(_, args) =>
      if |args| > 0 then ReturnType(args[|args| - 1], scope) else None
    case Construct(ty, _) => Some(ty)
    case Number(_, ty) => Some(ty)
    case Variable(name) =>
      if Lookup(scope, name).Some? then Some(Lookup(scope, name).value.ty) else None
    case VariableIndex(name, _) =>
      if Lookup(scope, name).Some? then Some(RowType(Lookup(scope, name).value.ty)) else None
  }

  /** The type of one row of a matrix: indexing a matN gives a vecN. */
  function RowType(t: AstType): AstType {
    match t
    case Mat2 => Vec2
    case Mat3 => Vec3
    case Mat4 => Vec4
    case _ => ErrorType
  }

  /** The names of the variables an expression mentions. */
  function FreeNames(e: Expr): set<string>
    decreases e
  {
    match e
    case Conditional(c, t, f) => FreeNames(c) + FreeNames(t) + FreeNames(f)
    case Binary(_, l, r) => FreeNames(l) + FreeNames(r)
    case Prefix(_, x) => FreeNames(x)
    case Postfix(_, x, _) => FreeNames(x)
    case Sequence(items) => set i, n | 0 <= i < |items| && n in FreeNames(items[i]) :: n
    case Call(_, args) => set i, n | 0 <= i < |args| && n in FreeNames(args[i]) :: n
    case Construct(_, args) => set i, n | 0 <= i < |args| && n in FreeNames(args[i]) :: n
    case Number(_, _) => {}
    case Variable(name) => {name}
    case VariableIndex(name, index) => {name} + FreeNames(index)
  }

  /** Return analysis of an expression used as a statement. */
  function ExprIsReturn(e: Expr): bool
    decreases e
  {
    match e
    case Conditional(_, t, f) => ExprIsReturn(t) && ExprIsReturn(f)
    case Binary(_, l, r) => ExprIsReturn(l) && ExprIsReturn(r)
    case Prefix(_, x) => ExprIsReturn(x)
    case Postfix(_, x, _) => ExprIsReturn(x)
    case Sequence(items) => AnyExprReturns(items)
    case Call(_, args) => AnyExprReturns(args)
    case Construct(_, args) => AnyExprReturns(args)
    case Number(_, _) => false
    case Variable(_) => false
    case VariableIndex(_, _) => false
  }

  function AnyExprReturns(es: seq<Expr>): bool
    decreases es
  {
    if |es| == 0 then false
    else ExprIsReturn(es[0]) || AnyExprReturns(es[1..])
  }

  /** Whether a statement is considered to return on every path. */
  function IsReturn(s: Sentence): bool
    decreases s
  {
    match s
    case EmptySentence => false
    case Block(ss) => AnyReturns(ss)
    case ExprStmt(e) => ExprIsReturn(e)
    case If(_, t, els) => els.Some? && IsReturn(t) && IsReturn(els.value)
    case For(_, _, _, body) => IsReturn(body)
    case Return(_) => true
    case VarDef(_, _, _, _) => false
  }

  function AnyReturns(ss: seq<Sentence>): bool
    decreases ss
  {
    if |ss| == 0 then false
    else IsReturn(ss[0]) || AnyReturns(ss[1..])
  }

  /** No expression counts as a return: every leaf answers false and every node combines its children. */
  lemma {:induction false} ExprNeverReturns(e: Expr)
    ensures !ExprIsReturn(e)
    decreases e, 1
  {
    match e
    case Conditional(_, t, f) => ExprNeverReturns(t);
    case Binary(_, l, r) => ExprNeverReturns(l);
    case Prefix(_, x) => ExprNeverReturns(x);
    case Postfix(_, x, _) => ExprNeverReturns(x);
    case Sequence(items) => NoExprReturns(items);
    case Call(_, args) => NoExprReturns(args);
    case Construct(_, args) => NoExprReturns(args);
    case Number(_, _) =>
    case Variable(_) =>
    case VariableIndex(_, _) =>
  }

  lemma {:induction false} NoExprReturns(es: seq<Expr>)
    ensures !AnyExprReturns(es)
    decreases es, 0
  {
    if |es| > 0 {
      ExprNeverReturns(es[0]);
      NoExprReturns(es[1..]);
    }
  }

  /** A block returns exactly when one of its statements does. */
  lemma {:induction false} BlockReturnsIffSomeChild(ss: seq<Sentence>)
    ensures IsReturn(Block(ss)) ==> exists i :: 0 <= i < |ss| && IsReturn(ss[i])
    ensures forall i :: 0 <= i < |ss| && IsReturn(ss[i]) ==> IsReturn(Block(ss))
    decreases ss
  {
    if |ss| > 0 {
      BlockReturnsIffSomeChild(ss[1..]);
      forall i | 0 <= i < |ss| && IsReturn(ss[i]) ensures AnyReturns(ss) {
        if i > 0 { assert ss[i] == ss[1..][i - 1]; }
      }
      if IsReturn(ss[0]) {
        assert 0 < |ss| && IsReturn(ss[0]);
      } else if AnyReturns(ss) {
        assert IsReturn(Block(ss[1..]));
        var k :| 0 <= k < |ss[1..]| && IsReturn(ss[1..][k]);
        assert ss[k + 1] == ss[1..][k];
      }
    } else {
      assert !AnyReturns(ss);
    }
  }

  /** An `if` returns only when it has an else branch and both branches return. */
  lemma IfReturnsIffBothBranches(c: Expr, t: Sentence, els: Option<Sentence>)
    ensures IsReturn(If(c, t, els)) <==> els.Some? && IsReturn(t) && IsReturn(els.value)
    ensures IsReturn(If(c, t, None)) == false
  {
  }

  /**
   * A statement that returns contains a return statement on every path the
   * analysis follows: a `return`, or a block, `for` or two-armed `if` built
   * around one.
   */
  lemma {:induction false} ReturnsContainReturn(s: Sentence)
    requires IsReturn(s)
    ensures HasReturn(s)
    decreases s
  {
    match s
    case EmptySentence =>
    case Block(ss) =>
      BlockReturnsIffSomeChild(ss);
      var i :| 0 <= i < |ss| && IsReturn(ss[i]);
      ReturnsContainReturn(ss[i]);
    case ExprStmt(e) => ExprNeverReturns(e);
    case If(_, t, els) => ReturnsContainReturn(t);
    case For(_, _, _, body) => ReturnsContainReturn(body);
    case Return(_) =>
    case VarDef(_, _, _, _) =>
  }

  /** Whether a `return` statement occurs anywhere in `s`. */
  predicate HasReturn(s: Sentence)
    decreases s
  {
    match s
    case EmptySentence => false
    case Block(ss) => exists i :: 0 <= i < |ss| && HasReturn(ss[i])
    case ExprStmt(_) => false
    case If(_, t, els) => HasReturn(t) || (els.Some? && HasReturn(els.value))
    case For(init, _, _, body) => HasReturn(init) || HasReturn(body)
    case Return(_) => true
    case VarDef(_, _, _, _) => false
  }

  /** An expression's type does not depend on bindings of names it does not mention. */
  lemma {:induction false} ReturnTypeIgnoresOtherNames<V>(e: Expr, scope: Scope<V>, name: string, ty: AstType, value: V)
    requires name !in FreeNames(e)
    ensures ReturnType(e, Add(scope, name, ty, value)) == ReturnType(e, scope)
    decreases e
  {
    var s' := Add(scope, name, ty, value);
    match e
    case Conditional(_, t, _) => ReturnTypeIgnoresOtherNames(t, scope, name, ty, value);
    case Binary(_, l, _) => ReturnTypeIgnoresOtherNames(l, scope, name, ty, value);
    case Prefix(_, x) => ReturnTypeIgnoresOtherNames(x, scope, name, ty, value);
    case Postfix(_, _, _) =>
    case Sequence(items) =>
      if |items| > 0 {
        var k := |items| - 1;
        assert FreeNames(items[k]) <= FreeNames(e);
        ReturnTypeIgnoresOtherNames(items[k], scope, name, ty, value);
      }
    case Call(_, args) =>
      if |args| > 0 {
        var k := |args| - 1;
        assert FreeNames(args[k]) <= FreeNames(e);
        ReturnTypeIgnoresOtherNames(args[k], scope, name, ty, value);
      }
    case Construct(_, _) =>
    case Number(_, _) =>
    case Variable(_) =>
    case VariableIndex(_, _) =>
  }

  /** A variable bound in the innermost scope reports its declared type; a matrix variable indexed reports its row type. */
  lemma VariableTypesFollowTheirBinding<V>(scope: Scope<V>, name: string, ty: AstType, value: V, index: Expr)
    ensures ReturnType(Variable(name), Add(scope, name, ty, value)) == Some(ty)
    ensures ReturnType(VariableIndex(name, index), Add(scope, name, ty, value)) ==
      Some(if ty == Mat2 then Vec2 else if ty == Mat3 then Vec3 else if ty == Mat4 then Vec4 else ErrorType)
  {
  }

  /** Without a binding anywhere in the chain, a variable's type is undefined. */
  lemma UnboundVariableHasNoType<V>(scope: Scope<V>, name: string, index: Expr)
    requires Lookup(scope, name).None?
    ensures ReturnType(Variable(name), scope).None?
    ensures ReturnType(VariableIndex(name, index), scope).None?
  {
  }
}
