/**
 * The parser's result type and its single-token productions: number
 * literals, type names and identifiers.
 */
module Terminals {
  import opened Types
  import opened Tokens
  import opened Ast

  /**
   * The outcome of a parse function: the node and the cursor after it, or a
   * failure together with the cursor the function leaves behind. The
   * failure cursor is part of the behaviour: it is often the last
   * checkpoint rather than the entry position.
   */
  datatype Parsed<T> = Ok(value: T, next: nat) | Fail(at: nat)

  /** A successful parse consumed at least one token of the stream; a failure never moves backwards. */
  predicate Advances<T>(r: Parsed<T>, toks: seq<Token>, pos: nat) {
    && (r.Ok? ==> pos < r.next <= |toks|)
    && (r.Fail? ==> pos <= r.at)
  }

  /** A successful parse ended by consuming a token of kind `k`. */
  predicate ClosedBy<T>(r: Parsed<T>, toks: seq<Token>, k: TokenKind) {
    r.Ok? ==> 1 <= r.next <= |toks| && toks[r.next - 1].kind == k
  }

  /** Like Advances, for loop continuations that may stop without consuming anything. */
  predicate Extends<T>(r: Parsed<T>, toks: seq<Token>, pos: nat) {
    && (r.Ok? ==> pos <= r.next <= |toks|)
    && (r.Fail? ==> pos <= r.at)
  }

  /** The literal type a number's spelling selects: `.` and `f` make a float, `.` alone a double, neither an int. */
  function LiteralType(text: string): AstType {
    if '.' in text then (if 'f' in text then Float else Double) else Int
  }

  /** A number literal node from a number token. */
  function ParseNumber(toks: seq<Token>, pos: nat): (r: Parsed<Expr>)
    ensures r.Ok? <==> Peek(toks, pos).kind == NumberLiteral
    ensures r.Fail? ==> r.at == pos
    ensures r.Ok? ==> r.next == pos + 1 && r.value.Number? && r.value.text == toks[pos].text
    ensures r.Ok? ==> ('.' in toks[pos].text && 'f' in toks[pos].text ==> r.value.ty == Float)
    ensures r.Ok? ==> ('.' in toks[pos].text && 'f' !in toks[pos].text ==> r.value.ty == Double)
    ensures r.Ok? ==> ('.' !in toks[pos].text ==> r.value.ty == Int)
  {
    var t := Peek(toks, pos);
    if t.kind != NumberLiteral then Fail(pos)
    else Ok(Number(t.text, LiteralType(t.text)), pos + 1)
  }

  /** The type a type keyword names, for the keywords the type parser knows. */
  function KeywordType(k: TokenKind): AstType {
    match k
    case IntKw => Int
    case FloatKw => Float
    case DoubleKw => Double
    case VoidKw => Void
    case BoolKw => Bool
    case Mat2Kw => Mat2
    case Mat3Kw => Mat3
    case Mat4Kw => Mat4
    case Vec2Kw => Vec2
    case Vec3Kw => Vec3
    case Vec4Kw => Vec4
    case _ => ErrorType
  }

  /**
   * A type name. A number token is accepted too and classified like a
   * literal. Any other token gives ErrorType and leaves the cursor alone.
   */
  function ParseType(toks: seq<Token>, pos: nat): (r: (AstType, nat))
    ensures r.0 == ErrorType ==> r.1 == pos
    ensures r.0 != ErrorType ==> r.1 == pos + 1 && pos < |toks|
    ensures r.0 != ErrorType <==> Peek(toks, pos).kind in TypeTokens
  {
    var t := Peek(toks, pos);
    if t.kind == NumberLiteral then (LiteralType(t.text), pos + 1)
    else if KeywordType(t.kind) != ErrorType then (KeywordType(t.kind), pos + 1)
    else (ErrorType, pos)
  }

  /** The tokens the type parser accepts. */
  const TypeTokens: set<TokenKind> :=
    {IntKw, FloatKw, DoubleKw, VoidKw, BoolKw, Mat2Kw, Mat3Kw, Mat4Kw, Vec2Kw, Vec3Kw, Vec4Kw, NumberLiteral}

  /** The keyword that spells a type, for the types the type parser knows. */
  function TypeKeyword(t: AstType): TokenKind
    requires t in {Int, Float, Double, Void, Bool, Mat2, Mat3, Mat4, Vec2, Vec3, Vec4}
  {
    match t
    case Int => IntKw
    case Float => FloatKw
    case Double => DoubleKw
    case Void => VoidKw
    case Bool => BoolKw
    case Mat2 => Mat2Kw
    case Mat3 => Mat3Kw
    case Mat4 => Mat4Kw
    case Vec2 => Vec2Kw
    case Vec3 => Vec3Kw
    case Vec4 => Vec4Kw
  }

  /** An identifier's text. */
  function ParseIdentifier(toks: seq<Token>, pos: nat): (r: Parsed<string>)
    ensures r.Ok? <==> Peek(toks, pos).kind == Identifier
    ensures r.Ok? ==> r.next == pos + 1 && r.value == toks[pos].text
    ensures r.Fail? ==> r.at == pos
  {
    var t := Peek(toks, pos);
    if t.kind == Identifier then Ok(t.text, pos + 1) else Fail(pos)
  }

  /** Every type the type parser knows is read back from its keyword, wherever it stands, consuming that one token. */
  lemma TypeKeywordRoundTrip(t: AstType, toks: seq<Token>, pos: nat)
    requires t in {Int, Float, Double, Void, Bool, Mat2, Mat3, Mat4, Vec2, Vec3, Vec4}
    requires Peek(toks, pos).kind == TypeKeyword(t)
    ensures ParseType(toks, pos) == (t, pos + 1)
  {
  }

  /** On a number token the type parser and the literal parser agree on the type. */
  lemma NumberTypeAgreesWithLiteral(toks: seq<Token>, pos: nat)
    requires Peek(toks, pos).kind == NumberLiteral
    ensures ParseNumber(toks, pos).Ok?
    ensures ParseType(toks, pos) == (ParseNumber(toks, pos).value.ty, ParseNumber(toks, pos).next)
  {
  }
}
