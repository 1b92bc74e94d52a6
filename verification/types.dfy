/** The enumerations shared by the parser, the AST and the generator. */
module Types {

  /** The GLSL types an AST node can carry; `ErrorType` is the "no type" marker. */
  datatype AstType =
    | Void | Bool | Int | UInt | Float | Double
    | Vec2 | Vec3 | Vec4
    | DVec2 | DVec3 | DVec4
    | BVec2 | BVec3 | BVec4
    | IVec2 | IVec3 | IVec4
    | UVec2 | UVec3 | UVec4
    | Mat2 | Mat3 | Mat4
    | ErrorType

  /** The operator carried by a binary, prefix or postfix expression node. */
  datatype ExprType =
    | AssignExpr | PlusAssignExpr | MinusAssignExpr | TimesAssignExpr
    | DivideAssignExpr | ModAssignExpr | AndAssignExpr | OrAssignExpr
    | LeftShiftAssignExpr | RightShiftAssignExpr | BitAndAssignExpr | BitOrAssignExpr
    | SequenceExpr
    | OrExpr | XorExpr | AndExpr
    | BitOrExpr | BitXorExpr | BitAndExpr
    | EqualExpr | NotEqualExpr | GreaterExpr | LessExpr | GreaterEqualExpr | LessEqualExpr
    | LeftShiftExpr | RightShiftExpr
    | PlusExpr | MinusExpr | TimesExpr | DivideExpr | ModExpr
    | PlusPlusExpr | MinusMinusExpr | NotExpr | TildeExpr
    | PostPlusPlusExpr | PostMinusMinusExpr | DotExpr
    | UnknownExpr

  /** The storage qualifier of a layout declaration. */
  datatype LayoutType = Uniform | In | Out | Empty

  /** The key of one `key = value` entry inside `layout( ... )`. */
  datatype LayoutIdentifier = Location | Binding

  /** Types a declaration may not have: the parser rejects these. */
  predicate IsVoidOrError(t: AstType) {
    t == Void || t == ErrorType
  }
}
