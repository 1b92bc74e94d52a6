/**
 * The decisions the code generator makes independently of the IR library:
 * which machine shape each GLSL type lowers to, which lane a swizzle
 * selects, the integer values the logical operators compute, which
 * operators insist on integer operands, how the current scope moves while
 * blocks and functions are lowered, and how unterminated blocks are closed.
 *
 * IR values are abstract: a binding's value is a `Handle` naming where the
 * variable lives, and whether lowering an expression yields a value at all
 * is a parameter (`lowers`), because expression emission is not modelled.
 */
module Lowering {
  import opened Wrappers
  import opened Types
  import opened Scopes
  import opened Ast

  // ---------------------------------------------------------------------
  // Shapes
  // ---------------------------------------------------------------------

  /** The scalar IR types: a one-bit comparison result, a 32-bit integer, a float and a double. */
  datatype ScalarKind = I1 | I32 | F32 | F64

  /** An IR type: void, a scalar, or a fixed-width vector of scalars. */
  datatype Shape = VoidShape | Scalar(kind: ScalarKind) | Vector(elem: ScalarKind, lanes: nat)

  /**
   * The IR type a GLSL type lowers to. Booleans are 32-bit integers and a
   * matrix is one flat vector of its N*N float entries. The remaining types
   * have no lowering: the source prints an error and falls off the end of
   * the function, so they map to None.
   */
  function ShapeOf(t: AstType): Option<Shape> {
    match t
    case Int => Some(Scalar(I32))
    case Bool => Some(Scalar(I32))
    case Float => Some(Scalar(F32))
    case Double => Some(Scalar(F64))
    case Vec2 => Some(Vector(F32, 2))
    case Vec3 => Some(Vector(F32, 3))
    case Vec4 => Some(Vector(F32, 4))
    case Mat2 => Some(Vector(F32, 4))
    case Mat3 => Some(Vector(F32, 9))
    case Mat4 => Some(Vector(F32, 16))
    case Void => Some(VoidShape)
    case _ => None
  }

  /** The types the generator can lower. */
  const LowerableTypes: set<AstType> := {Int, Bool, Float, Double, Vec2, Vec3, Vec4, Mat2, Mat3, Mat4, Void}

  /** The IR's integer test: true of every integer width, the one-bit comparison result included. */
  predicate IsIntegerShape(s: Shape) {
    s == Scalar(I1) || s == Scalar(I32)
  }

  /**
   * The shape map is defined exactly on the lowerable types; only `int` and
   * `bool` give integers; a matrix holds as many lanes as the square of
   * its row's lane count.
   */
  lemma ShapeOfCoversLowerableTypes(t: AstType)
    ensures ShapeOf(t).Some? <==> t in LowerableTypes
    ensures ShapeOf(t).Some? && IsIntegerShape(ShapeOf(t).value) <==> t == Int || t == Bool
    ensures ShapeOf(t) != Some(Scalar(I1))
    ensures t in {Mat2, Mat3, Mat4} ==>
      ShapeOf(RowType(t)).Some? && ShapeOf(RowType(t)).value.Vector? &&
      ShapeOf(t) == Some(Vector(F32, ShapeOf(RowType(t)).value.lanes * ShapeOf(RowType(t)).value.lanes))
  {
  }

  // ---------------------------------------------------------------------
  // Swizzles
  // ---------------------------------------------------------------------

  /** The lane a swizzle member selects; any other member name is rejected. */
  function SwizzleIndex(member: string): (r: Option<nat>)
    ensures r.Some? ==> r.value < 4
  {
    if member == "x" then Some(0)
    else if member == "y" then Some(1)
    else if member == "z" then Some(2)
    else if member == "w" then Some(3)
    else None
  }

  /** The member name that selects lane `i`. */
  function SwizzleName(i: nat): (m: string)
    requires i < 4
    ensures |m| == 1
  {
    ["xyzw"[i]]
  }

  /** The four one-letter members and the four lanes correspond one to one. */
  lemma SwizzleRoundTrip(member: string, i: nat)
    requires i < 4
    ensures SwizzleIndex(SwizzleName(i)) == Some(i)
    ensures SwizzleIndex(member).Some? ==> member == SwizzleName(SwizzleIndex(member).value)
  {
  }

  /** What lowering `operand.member` does. */
  datatype DotLowering =
    | UnknownMember                 // rejected before the operand is lowered
    | ElementPointer(index: nat)    // a pointer to the selected lane
    | NotAVector                    // the operand was lowered, but is not a vector

  /**
   * Lowering a member access. The member name is checked first, so an
   * unknown member is rejected without lowering the operand. The operand's
   * declared type must then lower to a vector. The source requires the
   * operand's type to be lowerable once the member is accepted.
   */
  function LowerDot(member: string, operandType: AstType): (r: DotLowering)
    requires SwizzleIndex(member).Some? ==> ShapeOf(operandType).Some?
    ensures r.UnknownMember? <==> SwizzleIndex(member).None?
    ensures r.ElementPointer? <==> SwizzleIndex(member).Some? && ShapeOf(operandType).value.Vector?
    ensures r.ElementPointer? ==> r.index < 4 && SwizzleName(r.index) == member
  {
    var index := SwizzleIndex(member);
    if index.None? then UnknownMember
    else if ShapeOf(operandType).value.Vector? then ElementPointer(index.value)
    else NotAVector
  }

  /**
   * The selected lane is not checked against the vector's width: on every
   * vector-shaped type each of the four members yields its lane, and the
   * lane lies past the end of the vector exactly for `.z` and `.w` on a
   * `vec2` and `.w` on a `vec3`.
   */
  lemma DotIgnoresVectorWidth(member: string, t: AstType)
    requires SwizzleIndex(member).Some? && ShapeOf(t).Some? && ShapeOf(t).value.Vector?
    ensures LowerDot(member, t) == ElementPointer(SwizzleIndex(member).value)
    ensures LowerDot(member, t).index >= ShapeOf(t).value.lanes <==>
      (t == Vec2 && member in {"z", "w"}) || (t == Vec3 && member == "w")
  {
  }

  // ---------------------------------------------------------------------
  // Logical operators on 32-bit integers
  // ---------------------------------------------------------------------

  /** C-style truth of an integer. */
  predicate Truth(v: int) {
    v != 0
  }

  function BoolValue(b: bool): (v: int)
    ensures Truth(v) == b
  {
    if b then 1 else 0
  }

  /** `&&` as written: 0 when both operands are 0, otherwise 1. */
  function AndExprValue(l: int, r: int): int {
    if l == 0 && r == 0 then 0 else 1
  }

  /** `||` as written: 0 when either operand is 0, otherwise 1. */
  function OrExprValue(l: int, r: int): int {
    if l == 0 || r == 0 then 0 else 1
  }

  /** `^^` as written: two nested selects over the operands' zero tests. */
  function XorExprValue(l: int, r: int): int {
    var eitherZero := l == 0 || r == 0;
    var neitherZero := l != 0 && r != 0;
    if eitherZero then (if neitherZero then 0 else 1) else 1
  }

  /** Prefix `!` as written: 0 when the operand is 0, otherwise 1. */
  function NotExprValue(v: int): int {
    if v == 0 then 0 else 1
  }

  /** The logical operators as the GLSL names promise them. */
  function LogicalAnd(l: int, r: int): (v: int)
    ensures Truth(v) <==> Truth(l) && Truth(r)
    ensures v == 0 || v == 1
  {
    if l != 0 then (if r != 0 then 1 else 0) else 0
  }

  function LogicalOr(l: int, r: int): (v: int)
    ensures Truth(v) <==> Truth(l) || Truth(r)
    ensures v == 0 || v == 1
  {
    if l != 0 then 1 else if r != 0 then 1 else 0
  }

  function LogicalXor(l: int, r: int): (v: int)
    ensures Truth(v) <==> Truth(l) != Truth(r)
    ensures v == 0 || v == 1
  {
    if (l != 0) == (r != 0) then 0 else 1
  }

  function LogicalNot(v: int): (r: int)
    ensures Truth(r) <==> !Truth(v)
    ensures r == 0 || r == 1
  {
    if v == 0 then 1 else 0
  }

  /** The corrected operators obey De Morgan's laws and double negation. */
  lemma LogicalLaws(l: int, r: int)
    ensures LogicalNot(LogicalAnd(l, r)) == LogicalOr(LogicalNot(l), LogicalNot(r))
    ensures LogicalNot(LogicalOr(l, r)) == LogicalAnd(LogicalNot(l), LogicalNot(r))
    ensures LogicalXor(l, r) == LogicalOr(LogicalAnd(l, LogicalNot(r)), LogicalAnd(LogicalNot(l), r))
    ensures Truth(LogicalNot(LogicalNot(l))) == Truth(l)
  {
  }

  /** As written, `&&` computes the logical or of its operands. */
  lemma AndExprComputesOr(l: int, r: int)
    ensures AndExprValue(l, r) == LogicalOr(l, r)
    ensures AndExprValue(1, 0) == 1 && LogicalAnd(1, 0) == 0
  {
  }

  /** As written, `||` computes the logical and of its operands. */
  lemma OrExprComputesAnd(l: int, r: int)
    ensures OrExprValue(l, r) == LogicalAnd(l, r)
    ensures OrExprValue(1, 0) == 0 && LogicalOr(1, 0) == 1
  {
  }

  /** As written, `^^` is 1 whatever its operands. */
  lemma XorExprIsConstant(l: int, r: int)
    ensures XorExprValue(l, r) == 1
    ensures XorExprValue(1, 1) == 1 && LogicalXor(1, 1) == 0
  {
  }

  /** As written, `!` keeps its operand's truth instead of negating it. */
  lemma NotExprKeepsTruth(v: int)
    ensures Truth(NotExprValue(v)) == Truth(v)
    ensures NotExprValue(0) == 0 && LogicalNot(0) == 1
  {
  }

  // ---------------------------------------------------------------------
  // Operators that insist on integer operands
  // ---------------------------------------------------------------------

  /** The binary operators whose lowering refuses non-integer operands. */
  const IntegerOnlyOperators: set<ExprType> :=
    {ModExpr, AndExpr, OrExpr, XorExpr, BitAndExpr, BitOrExpr, BitXorExpr, LeftShiftExpr, RightShiftExpr}

  /**
   * One lowered operand: its declared type and the shape of its value after
   * a pointer operand has been loaded.
   */
  datatype Operand = Operand(declared: AstType, loaded: Shape)

  datatype CheckOutcome =
    | OperandFailed   // an operand did not lower; nothing is reported
    | NotInteger      // an operand is not an integer; an error is reported
    | Emitted         // the operation is emitted

  /**
   * The integer check of an integer-only operator. Both operands are
   * lowered first and a missing one aborts silently. `%` then checks the
   * IR types of the operands' declared types; the other operators check
   * the types of the loaded values. The source needs `%`'s declared types
   * to be lowerable.
   */
  function CheckIntegerOperands(op: ExprType, left: Option<Operand>, right: Option<Operand>): (r: CheckOutcome)
    requires op in IntegerOnlyOperators
    requires op == ModExpr && left.Some? && right.Some? ==>
      ShapeOf(left.value.declared).Some? && ShapeOf(right.value.declared).Some?
    ensures r.OperandFailed? <==> left.None? || right.None?
    ensures r.Emitted? && op == ModExpr ==>
      ShapeOf(left.value.declared) == Some(Scalar(I32)) && ShapeOf(right.value.declared) == Some(Scalar(I32))
    ensures r.Emitted? && op != ModExpr ==> IsIntegerShape(left.value.loaded) && IsIntegerShape(right.value.loaded)
  {
    if left.None? || right.None? then OperandFailed
    else if op == ModExpr then
      if IsIntegerShape(ShapeOf(left.value.declared).value) && IsIntegerShape(ShapeOf(right.value.declared).value)
      then Emitted else NotInteger
    else if IsIntegerShape(left.value.loaded) && IsIntegerShape(right.value.loaded) then Emitted
    else NotInteger
  }

  /**
   * Integer operands are exactly what the check lets through: with both
   * operands lowered, the operation is emitted if and only if both values
   * are 32-bit or one-bit integers, and `%` accepts precisely `int` and
   * `bool` declarations.
   */
  lemma IntegerCheckIsExact(op: ExprType, l: Operand, r: Operand)
    requires op in IntegerOnlyOperators
    requires op == ModExpr ==> ShapeOf(l.declared).Some? && ShapeOf(r.declared).Some?
    ensures op != ModExpr ==>
      (CheckIntegerOperands(op, Some(l), Some(r)).Emitted? <==>
        l.loaded in {Scalar(I1), Scalar(I32)} && r.loaded in {Scalar(I1), Scalar(I32)})
    ensures op == ModExpr ==>
      (CheckIntegerOperands(op, Some(l), Some(r)).Emitted? <==>
        l.declared in {Int, Bool} && r.declared in {Int, Bool})
  {
  }

  /** The comparison operators; their operands are converted to double and compared as floats. */
  const ComparisonOperators: set<ExprType> :=
    {LessExpr, GreaterExpr, LessEqualExpr, GreaterEqualExpr, EqualExpr, NotEqualExpr}

  /**
   * The shape of a comparison's value: `<` leaves the one-bit result of the
   * float comparison as it is, every other comparison sign-extends it to a
   * 32-bit integer.
   */
  function ComparisonShape(op: ExprType): (s: Shape)
    requires op in ComparisonOperators
    ensures IsIntegerShape(s)
    ensures s == Scalar(I1) <==> op == LessExpr
  {
    if op == LessExpr then Scalar(I1) else Scalar(I32)
  }

  /**
   * A comparison's value passes the integer check of a bitwise or logical
   * operator, whether it is the one-bit `<` result or a widened one: in `(a
   * < b) & c` the operands pass the integer check whenever `c` is an integer.
   */
  lemma ComparisonsAreIntegerOperands(cmp: ExprType, op: ExprType, d: AstType, other: Operand)
    requires cmp in ComparisonOperators && op in IntegerOnlyOperators - {ModExpr}
    requires IsIntegerShape(other.loaded)
    ensures CheckIntegerOperands(op, Some(Operand(d, ComparisonShape(cmp))), Some(other)) == Emitted
    ensures CheckIntegerOperands(op, Some(other), Some(Operand(d, ComparisonShape(cmp)))) == Emitted
  {
  }

  // ---------------------------------------------------------------------
  // Variables
  // ---------------------------------------------------------------------

  /** Where a bound name's value lives. */
  datatype Handle = GlobalSlot(name: string) | ParamSlot(index: nat) | LocalSlot(name: string)

  type Env = Scope<Handle>

  /**
   * Lowering a variable reference yields the value of its nearest binding.
   * The source dereferences the lookup result without a check, so the name
   * must be bound.
   */
  function LowerVariable(scope: Env, name: string): (h: Handle)
    requires Lookup(scope, name).Some?
    ensures exists i ::
              && 0 <= i < |Frames(scope)| && name in Frames(scope)[i] && Frames(scope)[i][name].value == h
              && forall j :: 0 <= j < i ==> name !in Frames(scope)[j]
  {
    LookupIsNearest(scope, name);
    Lookup(scope, name).value.value
  }

  /**
   * The row shape an indexed matrix variable yields: a vector of 2, 3 or 4
   * floats for mat2, mat3 and mat4; any other variable type is an error.
   */
  function IndexedElementShape(scope: Env, name: string): Option<Shape>
    requires Lookup(scope, name).Some?
  {
    match Lookup(scope, name).value.ty
    case Mat2 => Some(Vector(F32, 2))
    case Mat3 => Some(Vector(F32, 3))
    case Mat4 => Some(Vector(F32, 4))
    case _ => None
  }

  /**
   * The generator and the type inference agree on indexing: the element
   * shape is the shape of the type `getReturnType` reports, and there is
   * none exactly when that type is the error type.
   */
  lemma IndexingAgreesWithTypeInference(scope: Env, name: string, index: Expr)
    requires Lookup(scope, name).Some?
    ensures ReturnType(VariableIndex(name, index), scope).Some?
    ensures IndexedElementShape(scope, name).None? <==> ReturnType(VariableIndex(name, index), scope) == Some(ErrorType)
    ensures IndexedElementShape(scope, name).Some? ==>
      IndexedElementShape(scope, name) == ShapeOf(ReturnType(VariableIndex(name, index), scope).value)
  {
  }

  // ---------------------------------------------------------------------
  // The current scope while statements are lowered
  // ---------------------------------------------------------------------

  /**
   * Leaving a scope: the current scope becomes its parent, or the top scope
   * when it has none.
   */
  function PopScope(s: Env, top: Env): Env {
    if s.parent.Some? then s.parent.value else top
  }

  /** The scope after lowering a statement, and whether the statement produced a value. */
  datatype Step = Step(scope: Env, produced: bool)

  /**
   * Lowering one statement, tracking only the current scope.
   *
   * A block lowers its statements in a fresh child scope and then pops it.
   * A definition with an initialiser binds its name in the current scope; one
   * without binds nothing. An `if` whose condition yields no value stops
   * there; with an else branch, a then-branch that yields no value stops
   * before the else branch. An empty statement yields no value; an
   * expression statement yields one when the expression lowers.
   */
  function LowerSentence(lowers: Expr -> bool, top: Env, s: Sentence, cur: Env): (r: Step)
    ensures r.scope.parent == cur.parent
    ensures s.Block? ==> r.scope == cur && r.produced
    decreases s, 1
  {
    match s
    case EmptySentence => Step(cur, false)
    case Block(ss) =>
      var inner := LowerBlockBody(lowers, top, ss, ChildOf(cur));
      Step(PopScope(inner, top), true)
    case ExprStmt(e) => Step(cur, lowers(e))
    case If(g, t, els) =>
      if !lowers(g) then Step(cur, false)
      else
        var afterThen := LowerSentence(lowers, top, t, cur);
        if els.None? then afterThen
        else if !afterThen.produced then Step(afterThen.scope, false)
        else LowerSentence(lowers, top, els.value, afterThen.scope)
    case For(first, _, _, body) =>
      var afterInit := LowerSentence(lowers, top, first, cur);
      var afterBody := LowerSentence(lowers, top, body, afterInit.scope);
      Step(afterBody.scope, true)
    case Return(_) => Step(cur, true)
    case VarDef(ty, _, name, init) =>
      if init.None? then Step(cur, true)
      else Step(Add(cur, name, ty, LocalSlot(name)), true)
  }

  /** Lowering a block's statements one after another, starting in `cur`. */
  function LowerBlockBody(lowers: Expr -> bool, top: Env, ss: seq<Sentence>, cur: Env): (r: Env)
    ensures r.parent == cur.parent
    decreases ss, 0
  {
    if |ss| == 0 then cur
    else LowerBlockBody(lowers, top, ss[1..], LowerSentence(lowers, top, ss[0], cur).scope)
  }

  /**
   * The names a statement can bind in the scope it is lowered in: those of
   * definitions with an initialiser outside any nested block.
   */
  function Declared(s: Sentence): set<string>
    decreases s
  {
    match s
    case EmptySentence => {}
    case Block(_) => {}
    case ExprStmt(_) => {}
    case If(_, t, els) => Declared(t) + (if els.Some? then Declared(els.value) else {})
    case For(first, _, _, body) => Declared(first) + Declared(body)
    case Return(_) => {}
    case VarDef(_, _, name, init) => if init.Some? then {name} else {}
  }

  function DeclaredAll(ss: seq<Sentence>): set<string>
    decreases |ss|
  {
    if |ss| == 0 then {} else Declared(ss[0]) + DeclaredAll(ss[1..])
  }

  /** Two scopes resolve `x` alike because they share a parent and agree on `x` in their own frame. */
  predicate AgreeOn(a: Env, b: Env, x: string) {
    a.parent == b.parent && (x in a.names <==> x in b.names) && (x in a.names ==> a.names[x] == b.names[x])
  }

  lemma AgreeOnLookup(a: Env, b: Env, x: string)
    requires AgreeOn(a, b, x)
    ensures Lookup(a, x) == Lookup(b, x)
  {
  }

  /** Lowering a statement changes the binding of no name it does not declare. */
  lemma {:induction false} OnlyDeclaredNamesChange(lowers: Expr -> bool, top: Env, s: Sentence, cur: Env, x: string)
    requires x !in Declared(s)
    ensures AgreeOn(LowerSentence(lowers, top, s, cur).scope, cur, x)
    ensures Lookup(LowerSentence(lowers, top, s, cur).scope, x) == Lookup(cur, x)
    decreases s
  {
    match s {
      case EmptySentence =>
      case Block(_) =>
      case ExprStmt(_) =>
      case If(g, t, els) =>
        if lowers(g) {
          OnlyDeclaredNamesChange(lowers, top, t, cur, x);
          var afterThen := LowerSentence(lowers, top, t, cur);
          if els.Some? && afterThen.produced {
            OnlyDeclaredNamesChange(lowers, top, els.value, afterThen.scope, x);
          }
        }
      case For(first, _, _, body) =>
        OnlyDeclaredNamesChange(lowers, top, first, cur, x);
        OnlyDeclaredNamesChange(lowers, top, body, LowerSentence(lowers, top, first, cur).scope, x);
      case Return(_) =>
      case VarDef(_, _, _, _) =>
    }
    AgreeOnLookup(LowerSentence(lowers, top, s, cur).scope, cur, x);
  }

  /** A definition with an initialiser is visible, with its declared type, right after it is lowered. */
  lemma DefinitionBindsItsName(lowers: Expr -> bool, top: Env, ty: AstType, isConst: bool, name: string, init: Expr, cur: Env)
    ensures Lookup(LowerSentence(lowers, top, VarDef(ty, isConst, name, Some(init)), cur).scope, name) ==
      Some(Entry(ty, LocalSlot(name)))
    ensures Lookup(LowerSentence(lowers, top, VarDef(ty, isConst, name, None), cur).scope, name) == Lookup(cur, name)
  {
  }

  /**
   * Lowering a block leaves the scope as it found it, whatever the block
   * declares; in particular a definition inside it is no longer visible.
   */
  lemma BlockRestoresScope(lowers: Expr -> bool, top: Env, ss: seq<Sentence>, cur: Env)
    ensures LowerSentence(lowers, top, Block(ss), cur).scope == cur
    ensures forall x :: Lookup(LowerSentence(lowers, top, Block(ss), cur).scope, x) == Lookup(cur, x)
  {
  }

  /**
   * A `for` header's definition is lowered in the enclosing scope, so the
   * loop variable stays visible after the loop when the body does not
   * redefine it.
   */
  lemma ForVariableOutlivesLoop(lowers: Expr -> bool, top: Env, ty: AstType, isConst: bool, name: string, init: Expr,
                                test: Expr, step: Expr, body: Sentence, cur: Env)
    requires name !in Declared(body)
    ensures Lookup(LowerSentence(lowers, top, For(VarDef(ty, isConst, name, Some(init)), test, step, body), cur).scope, name) ==
      Some(Entry(ty, LocalSlot(name)))
  {
    var afterInit := LowerSentence(lowers, top, VarDef(ty, isConst, name, Some(init)), cur);
    OnlyDeclaredNamesChange(lowers, top, body, afterInit.scope, name);
  }

  /**
   * With an else branch, a then-branch that yields no value keeps the else
   * branch from being lowered: the `if` ends in the then-branch's scope.
   */
  lemma ElseSkippedAfterEmptyThen(lowers: Expr -> bool, top: Env, g: Expr, t: Sentence, e: Sentence, cur: Env)
    requires lowers(g) && !LowerSentence(lowers, top, t, cur).produced
    ensures LowerSentence(lowers, top, If(g, t, Some(e)), cur) == Step(LowerSentence(lowers, top, t, cur).scope, false)
  {
  }

  // ---------------------------------------------------------------------
  // Functions and the program
  // ---------------------------------------------------------------------

  /** Binding parameters `i` onwards, in order, each to its position. */
  function BindParams(s: Env, args: seq<Argument>, i: nat): (r: Env)
    ensures r.parent == s.parent
    decreases |args| - i
  {
    if i >= |args| then s
    else BindParams(Add(s, args[i].name, args[i].ty, ParamSlot(i)), args, i + 1)
  }

  /** No parameter after position `i` reuses parameter `i`'s name. */
  predicate LastOfItsName(args: seq<Argument>, i: nat)
    requires i < |args|
  {
    forall j :: i < j < |args| ==> args[j].name != args[i].name
  }

  /**
   * After binding, a parameter resolves to its own position unless a later
   * parameter reuses its name, and names of no parameter resolve as before.
   */
  lemma {:induction false} BindParamsResolves(s: Env, args: seq<Argument>, i: nat, k: nat, x: string)
    requires i <= k < |args| && LastOfItsName(args, k)
    ensures Lookup(BindParams(s, args, i), args[k].name) == Some(Entry(args[k].ty, ParamSlot(k)))
    ensures (forall j :: i <= j < |args| ==> args[j].name != x) ==> Lookup(BindParams(s, args, i), x) == Lookup(s, x)
    decreases |args| - i
  {
    var s' := Add(s, args[i].name, args[i].ty, ParamSlot(i));
    if i < k {
      BindParamsResolves(s', args, i + 1, k, x);
    } else {
      BindParamsUntouched(s', args, i + 1, args[k].name);
    }
    if forall j :: i <= j < |args| ==> args[j].name != x {
      BindParamsUntouched(s', args, i + 1, x);
    }
  }

  lemma {:induction false} BindParamsUntouched(s: Env, args: seq<Argument>, i: nat, x: string)
    requires forall j :: i <= j < |args| ==> args[j].name != x
    ensures Lookup(BindParams(s, args, i), x) == Lookup(s, x)
    decreases |args| - i
  {
    if i < |args| {
      BindParamsUntouched(Add(s, args[i].name, args[i].ty, ParamSlot(i)), args, i + 1, x);
    }
  }

  /** The scope a function's body statements are lowered in: a block scope inside the parameter scope. */
  function BodyScope(proto: Prototype, cur: Env): Env {
    ChildOf(BindParams(ChildOf(cur), proto.args, 0))
  }

  /**
   * Lowering a function definition: a child scope holding the parameters,
   * then the body as a block, then the scope is popped.
   */
  function LowerFunction(lowers: Expr -> bool, top: Env, proto: Prototype, body: seq<Sentence>, cur: Env): (r: Env)
    ensures r == cur
  {
    var withParams := BindParams(ChildOf(cur), proto.args, 0);
    var afterBody := LowerSentence(lowers, top, Block(body), withParams).scope;
    PopScope(afterBody, top)
  }

  /**
   * Inside the body, every parameter that is the last of its name resolves
   * to its position, and every other name resolves as in the enclosing scope.
   */
  lemma ParametersVisibleInBody(proto: Prototype, cur: Env, k: nat, x: string)
    requires k < |proto.args| && LastOfItsName(proto.args, k)
    ensures Lookup(BodyScope(proto, cur), proto.args[k].name) == Some(Entry(proto.args[k].ty, ParamSlot(k)))
    ensures (forall j :: 0 <= j < |proto.args| ==> proto.args[j].name != x) ==> Lookup(BodyScope(proto, cur), x) == Lookup(cur, x)
  {
    BindParamsResolves(ChildOf(cur), proto.args, 0, k, x);
  }

  /** Lowering the program's definitions in order, starting from the top scope. */
  function LowerDefinitions(lowers: Expr -> bool, defs: seq<Definition>, top: Env): Env
    decreases |defs|
  {
    if |defs| == 0 then top
    else
      var next := match defs[0]
        case GlobalVar(ty, _, name, _, _) => Add(top, name, ty, GlobalSlot(name))
        case FunctionDef(proto, body) => LowerFunction(lowers, top, proto, body, top);
      LowerDefinitions(lowers, defs[1..], next)
  }

  /** The binding the last global definition named `x` leaves, if there is one. */
  function LastGlobal(defs: seq<Definition>, x: string): Option<Entry<Handle>>
    decreases |defs|
  {
    if |defs| == 0 then None
    else
      var later := LastGlobal(defs[1..], x);
      if later.Some? then later
      else if defs[0].GlobalVar? && defs[0].name == x then Some(Entry(defs[0].ty, GlobalSlot(x)))
      else None
  }

  /**
   * After the program is lowered, a name resolves to the last global
   * definition of it, or as in the initial top scope when no global has
   * that name; functions leave no trace in the top scope.
   */
  lemma {:induction false} GlobalsLandInTopScope(lowers: Expr -> bool, defs: seq<Definition>, top: Env, x: string)
    ensures Lookup(LowerDefinitions(lowers, defs, top), x) ==
      if LastGlobal(defs, x).Some? then LastGlobal(defs, x) else Lookup(top, x)
    decreases |defs|
  {
    if |defs| > 0 {
      var next := match defs[0]
        case GlobalVar(ty, _, name, _, _) => Add(top, name, ty, GlobalSlot(name))
        case FunctionDef(proto, body) => LowerFunction(lowers, top, proto, body, top);
      GlobalsLandInTopScope(lowers, defs[1..], next, x);
    }
  }

  // ---------------------------------------------------------------------
  // Closing unterminated blocks
  // ---------------------------------------------------------------------

  /** A block's terminator: the two returns the completion inserts, or one the body produced. */
  datatype Terminator = RetVoid | RetNull | BodyTerminator(text: string)

  datatype BasicBlock = BasicBlock(name: string, terminator: Option<Terminator>)

  /** The return inserted for a function of the given return type. */
  function DefaultReturn(returnType: AstType): Terminator {
    if ShapeOf(returnType) == Some(VoidShape) then RetVoid else RetNull
  }

  /** A block after completion: unchanged if terminated, else closed with the default return. */
  function Complete(b: BasicBlock, returnType: AstType): BasicBlock {
    if b.terminator.Some? then b else BasicBlock(b.name, Some(DefaultReturn(returnType)))
  }

  /**
   * Completing a function's blocks in order. Every block ends up
   * terminated; blocks that were terminated are untouched; the others get
   * `ret void` in a void function and a zero return otherwise. The source
   * needs the return type to be lowerable.
   */
  method CompleteTerminators(blocks: seq<BasicBlock>, returnType: AstType) returns (out: seq<BasicBlock>)
    requires ShapeOf(returnType).Some?
    ensures |out| == |blocks|
    ensures forall i :: 0 <= i < |out| ==> out[i].name == blocks[i].name && out[i].terminator.Some?
    ensures forall i :: 0 <= i < |out| && blocks[i].terminator.Some? ==> out[i] == blocks[i]
    ensures forall i :: 0 <= i < |out| && blocks[i].terminator.None? ==>
      out[i].terminator == Some(if returnType == Void then RetVoid else RetNull)
    ensures out == seq(|blocks|, i requires 0 <= i < |blocks| => Complete(blocks[i], returnType))
  {
    out := [];
    var i := 0;
    while i < |blocks|
      invariant 0 <= i <= |blocks|
      invariant out == seq(i, k requires 0 <= k < i => Complete(blocks[k], returnType))
    {
      out := out + [Complete(blocks[i], returnType)];
      i := i + 1;
    }
  }

  /** Completing an already completed list changes nothing. */
  lemma CompletionIsIdempotent(blocks: seq<BasicBlock>, returnType: AstType)
    ensures var once := seq(|blocks|, i requires 0 <= i < |blocks| => Complete(blocks[i], returnType));
      seq(|once|, i requires 0 <= i < |once| => Complete(once[i], returnType)) == once
  {
  }
}
