/** The token stream the parser consumes, and the token classifiers it relies on. */
module Tokens {
  import opened Types

  /**
   * One token kind per lexical category of the tokenizer. The kinds the
   * parser tests by name are listed here; the rest are grouped under `Other`.
   */
  datatype TokenKind =
    | Eof
    // type keywords
    | VoidKw | BoolKw | IntKw | FloatKw | DoubleKw
    | Vec2Kw | Vec3Kw | Vec4Kw
    | Mat2Kw | Mat3Kw | Mat4Kw
    // layout keywords
    | LayoutKw | UniformKw | LayoutInKw | LayoutOutKw | LocationKw | BindingKw
    // primaries
    | Identifier | NumberLiteral
    // control keywords
    | IfKw | ElseKw | ForKw | ReturnKw
    // punctuation and the operators the parser names
    | PlusPlus | MinusMinus
    | LeftParen | RightParen | LeftBracket | RightBracket | LeftBrace | RightBrace
    | And | Or | Xor | BitAnd | BitOr | BitXor
    // `Question` is the `?` of a conditional expression, which the tokenizer
    // reports under the name `tok_unary`
    | Assign | Question | Dot
    // declarations
    | VersionKw | ConstKw
    | Semicolon | Comma | Colon
    | Other(other: OtherKind)

  /**
   * Token kinds the parser never tests by name. It reaches the operators
   * only through the classifiers of a `Lexicon`. The other type keywords
   * and the loop keywords start no construct of this grammar.
   */
  datatype OtherKind =
    | UIntKw
    | DVec2Kw | DVec3Kw | DVec4Kw | BVec2Kw | BVec3Kw | BVec4Kw
    | IVec2Kw | IVec3Kw | IVec4Kw | UVec2Kw | UVec3Kw | UVec4Kw
    | WhileKw | DoKw | BreakKw | ContinueKw
    | Plus | Minus | Tilde | Exclamation | Times | Divide | Mod
    | Less | Greater | LessEqual | GreaterEqual | Equal | NotEqual
    | LeftShift | RightShift
    | PlusAssign | MinusAssign | TimesAssign | DivideAssign | ModAssign
    | AndAssign | OrAssign | XorAssign | LeftShiftAssign | RightShiftAssign
    | BitAndAssign | BitOrAssign
    | Unknown

  /** A token and the source text it was read from. */
  datatype Token = Token(kind: TokenKind, text: string)

  /** The token at `i`; the stream reads as end-of-input past its last element. */
  function Peek(toks: seq<Token>, i: nat): (t: Token)
    ensures i < |toks| ==> t == toks[i]
    ensures i >= |toks| ==> t.kind == Eof
  {
    if i < |toks| then toks[i] else Token(Eof, "")
  }

  /** How many tokens are left from `pos` on; the measure every parse loop decreases. */
  function Remaining(toks: seq<Token>, pos: nat): nat {
    if pos <= |toks| then |toks| - pos else 0
  }

  /**
   * The token classifiers and conversions that the parser calls but whose
   * definitions are not part of this model: the kind-class predicates, the
   * token-to-operator mapping, and the decimal conversion applied to integer
   * literals.
   */
  datatype Lexicon = Lexicon(
    isAstType: TokenKind -> bool,
    isAssignment: TokenKind -> bool,
    isRelational: TokenKind -> bool,
    isEquality: TokenKind -> bool,
    isShift: TokenKind -> bool,
    isAdditive: TokenKind -> bool,
    isMultiplicative: TokenKind -> bool,
    isPrefix: TokenKind -> bool,
    isPostfix: TokenKind -> bool,
    toExprType: TokenKind -> ExprType,
    toInt: string -> int)
  {
    /** No classifier accepts the end-of-input marker, so no parse runs past the stream. */
    predicate Valid() {
      && !isAstType(Eof) && !isAssignment(Eof) && !isRelational(Eof)
      && !isEquality(Eof) && !isShift(Eof) && !isAdditive(Eof)
      && !isMultiplicative(Eof) && !isPrefix(Eof) && !isPostfix(Eof)
    }
  }

  lemma PeekAdvances(toks: seq<Token>, pos: nat)
    requires Peek(toks, pos).kind != Eof
    ensures pos < |toks|
    ensures Remaining(toks, pos + 1) < Remaining(toks, pos)
  {
  }
}
