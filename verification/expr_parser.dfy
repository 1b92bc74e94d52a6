/**
 * The expression half of the backtracking recursive-descent parser: primary
 * expressions, the postfix and prefix operators, the eleven left-associative
 * binary levels, the conditional, assignment and comma-sequence forms, and
 * argument lists.
 *
 * Every function takes the classifier `lex`, the token stream and the
 * cursor. Mutual recursion is justified by the number of tokens left,
 * then by a rank that grows from primary towards full expressions.
 */
module ExprParser {
  import opened Wrappers
  import opened Types
  import opened Tokens
  import opened Ast
  import opened Terminals
  import opened Scopes

  /** The binary precedence levels, tightest first. */
  datatype Level =
    | MultiplicativeLevel | AdditiveLevel | ShiftLevel | RelationalLevel | EqualityLevel
    | BitAndLevel | BitXorLevel | BitOrLevel
    | LogicalAndLevel | LogicalXorLevel | LogicalOrLevel

  function Ord(l: Level): nat {
    match l
    case MultiplicativeLevel => 0
    case AdditiveLevel => 1
    case ShiftLevel => 2
    case RelationalLevel => 3
    case EqualityLevel => 4
    case BitAndLevel => 5
    case BitXorLevel => 6
    case BitOrLevel => 7
    case LogicalAndLevel => 8
    case LogicalXorLevel => 9
    case LogicalOrLevel => 10
  }

  /** The level whose results are the operands of `l`. */
  function Tighter(l: Level): (t: Level)
    requires l != MultiplicativeLevel
    ensures Ord(t) + 1 == Ord(l)
  {
    match l
    case AdditiveLevel => MultiplicativeLevel
    case ShiftLevel => AdditiveLevel
    case RelationalLevel => ShiftLevel
    case EqualityLevel => RelationalLevel
    case BitAndLevel => EqualityLevel
    case BitXorLevel => BitAndLevel
    case BitOrLevel => BitXorLevel
    case LogicalAndLevel => BitOrLevel
    case LogicalXorLevel => LogicalAndLevel
    case LogicalOrLevel => LogicalXorLevel
  }

  /** Whether token kind `k` is an operator of level `l`. */
  predicate IsOperator(lex: Lexicon, l: Level, k: TokenKind) {
    match l
    case MultiplicativeLevel => lex.isMultiplicative(k)
    case AdditiveLevel => lex.isAdditive(k)
    case ShiftLevel => lex.isShift(k)
    case RelationalLevel => lex.isRelational(k)
    case EqualityLevel => lex.isEquality(k)
    case BitAndLevel => k == BitAnd
    case BitXorLevel => k == BitXor
    case BitOrLevel => k == BitOr
    case LogicalAndLevel => k == And
    case LogicalXorLevel => k == Xor
    case LogicalOrLevel => k == Or
  }

  /** The operator a binary node of level `l` records for operator token `k`. */
  function OperatorTag(lex: Lexicon, l: Level, k: TokenKind): ExprType {
    match l
    case BitAndLevel => BitAndExpr
    case BitXorLevel => BitXorExpr
    case BitOrLevel => BitOrExpr
    case LogicalAndLevel => AndExpr
    case LogicalXorLevel => XorExpr
    case LogicalOrLevel => OrExpr
    case _ => lex.toExprType(k)
  }

  /** Rank of a level's operand parser and of the level itself, in the termination measure. */
  function OperandRank(l: Level): nat { 4 + 2 * Ord(l) }
  function LevelRank(l: Level): nat { 5 + 2 * Ord(l) }

  /**
   * A primary expression: a variable, a call `f(args)`, an indexing `v[e]`,
   * a type constructor `T(args)`, a number literal or a parenthesised
   * expression. A call whose argument list does not parse still succeeds
   * with no arguments when the list parser stops right at `)`.
   */
  function ParsePrimary(lex: Lexicon, toks: seq<Token>, pos: nat): (r: Parsed<Expr>)
    requires lex.Valid()
    ensures Advances(r, toks, pos)
    decreases Remaining(toks, pos), 1
  {
    var t := Peek(toks, pos);
    if t.kind == Identifier then
      var p := pos + 1;
      if Peek(toks, p).kind == LeftParen then
        var a := p + 1;
        match ParseExprList(lex, toks, a)
        case Ok(args, q) =>
          if Peek(toks, q).kind == RightParen then Ok(Call(t.text, args), q + 1) else Fail(a)
        case Fail(at) =>
          if Peek(toks, at).kind == RightParen then Ok(Call(t.text, []), at + 1) else Fail(a)
      else if Peek(toks, p).kind == LeftBracket then
        var a := p + 1;
        match ParseExpression(lex, toks, a)
        case Ok(ix, q) =>
          if Peek(toks, q).kind == RightBracket then Ok(VariableIndex(t.text, ix), q + 1) else Fail(a)
        case Fail(_) => Fail(a)
      else Ok(Variable(t.text), p)
    else if lex.isAstType(t.kind) then
      var (ty, p) := ParseType(toks, pos);
      if IsVoidOrError(ty) then Fail(pos)
      else if Peek(toks, p).kind == LeftParen then
        var a := p + 1;
        match ParseExprList(lex, toks, a)
        case Ok(args, q) =>
          if Peek(toks, q).kind == RightParen then Ok(Construct(ty, args), q + 1) else Fail(a)
        case Fail(_) => Fail(a)
      else Fail(p)
    else if t.kind in {NumberLiteral, FloatKw, DoubleKw, IntKw} then
      match ParseNumber(toks, pos)
      case Ok(n, q) => Ok(n, q)
      case Fail(_) => Fail(pos)
    else if t.kind == LeftParen then
      match ParseExpression(lex, toks, pos + 1)
      case Ok(e, q) =>
        if Peek(toks, q).kind == RightParen then Ok(e, q + 1) else Fail(pos)
      case Fail(_) => Fail(pos)
    else Fail(pos)
  }

  /**
   * The postfix loop after operand `e` at `pos`: `.name` (any identifier)
   * wraps `e` and continues; `++`/`--` wraps `e` and ends the loop; a `.`
   * not followed by an identifier fails at the dot.
   */
  function PostfixRest(lex: Lexicon, toks: seq<Token>, e: Expr, pos: nat): (r: Parsed<Expr>)
    requires lex.Valid() && pos <= |toks|
    ensures Extends(r, toks, pos)
    decreases Remaining(toks, pos), 2
  {
    var k := Peek(toks, pos).kind;
    if !lex.isPostfix(k) then Ok(e, pos)
    else if k == Dot then
      var n := Peek(toks, pos + 1);
      if n.kind == Identifier then PostfixRest(lex, toks, Postfix(lex.toExprType(Dot), e, n.text), pos + 2)
      else Fail(pos)
    else Ok(Postfix(if k == PlusPlus then PlusPlusExpr else MinusMinusExpr, e, ""), pos + 1)
  }

  function ParsePostfix(lex: Lexicon, toks: seq<Token>, pos: nat): (r: Parsed<Expr>)
    requires lex.Valid()
    ensures Advances(r, toks, pos)
    decreases Remaining(toks, pos), 2
  {
    match ParsePrimary(lex, toks, pos)
    case Fail(_) => Fail(pos)
    case Ok(e, p) => PostfixRest(lex, toks, e, p)
  }

  /** Prefix operators nest to the right; without one, a postfix expression. */
  function ParsePrefix(lex: Lexicon, toks: seq<Token>, pos: nat): (r: Parsed<Expr>)
    requires lex.Valid()
    ensures Advances(r, toks, pos)
    ensures r.Fail? ==> r.at == pos || (lex.isPrefix(Peek(toks, pos).kind) && r.at == pos + 1)
    decreases Remaining(toks, pos), 3
  {
    var k := Peek(toks, pos).kind;
    if lex.isPrefix(k) then
      match ParsePrefix(lex, toks, pos + 1)
      case Fail(_) => Fail(pos + 1)
      case Ok(x, q) => Ok(Prefix(lex.toExprType(k), x), q)
    else
      match ParsePostfix(lex, toks, pos)
      case Fail(_) => Fail(pos)
      case Ok(x, q) => Ok(x, q)
  }

  /** An operand of level `l`: a prefix expression for the tightest level, else the next tighter level. */
  function ParseOperand(lex: Lexicon, toks: seq<Token>, l: Level, pos: nat): (r: Parsed<Expr>)
    requires lex.Valid()
    ensures Advances(r, toks, pos)
    decreases Remaining(toks, pos), OperandRank(l)
  {
    if l == MultiplicativeLevel then ParsePrefix(lex, toks, pos)
    else ParseLevel(lex, toks, Tighter(l), pos)
  }

  /** One binary level: an operand followed by any number of `op operand` pairs, folded to the left. */
  function ParseLevel(lex: Lexicon, toks: seq<Token>, l: Level, pos: nat): (r: Parsed<Expr>)
    requires lex.Valid()
    ensures Advances(r, toks, pos)
    decreases Remaining(toks, pos), LevelRank(l)
  {
    match ParseOperand(lex, toks, l, pos)
    case Fail(_) => Fail(pos)
    case Ok(e, p) => LevelRest(lex, toks, l, e, p)
  }

  /** The loop of a binary level with `left` parsed so far; a missing right operand fails just past its operator. */
  function LevelRest(lex: Lexicon, toks: seq<Token>, l: Level, left: Expr, pos: nat): (r: Parsed<Expr>)
    requires lex.Valid() && pos <= |toks|
    ensures Extends(r, toks, pos)
    ensures r.Ok? ==> LeftSpine(r.value, left)
    decreases Remaining(toks, pos), LevelRank(l)
  {
    var k := Peek(toks, pos).kind;
    if IsOperator(lex, l, k) then
      match ParseOperand(lex, toks, l, pos + 1)
      case Fail(_) => Fail(pos + 1)
      case Ok(right, q) =>
        var r := LevelRest(lex, toks, l, Binary(OperatorTag(lex, l, k), left, right), q);
        if r.Ok? then LeftSpineGrows(r.value, Binary(OperatorTag(lex, l, k), left, right), left); r
        else r
    else Ok(left, pos)
  }

  /** `e` is `left` with zero or more binary nodes stacked on top of it along the left edge. */
  predicate LeftSpine(e: Expr, left: Expr)
    decreases e
  {
    e == left || (e.Binary? && LeftSpine(e.lhs, left))
  }

  lemma {:induction false} LeftSpineGrows(e: Expr, mid: Expr, left: Expr)
    requires LeftSpine(e, mid) && mid.Binary? && mid.lhs == left
    ensures LeftSpine(e, left)
    decreases e
  {
    if e != mid {
      LeftSpineGrows(e.lhs, mid, left);
    }
  }

  /** `c ? t : f`; the middle part is a full expression, the last an assignment expression. */
  function ParseConditional(lex: Lexicon, toks: seq<Token>, pos: nat): (r: Parsed<Expr>)
    requires lex.Valid()
    ensures Advances(r, toks, pos)
    decreases Remaining(toks, pos), 26
  {
    match ParseLevel(lex, toks, LogicalOrLevel, pos)
    case Fail(_) => Fail(pos)
    case Ok(c, p) =>
      if Peek(toks, p).kind != Question then Ok(c, p)
      else
        match ParseExpression(lex, toks, p + 1)
        case Fail(_) => Fail(p + 1)
        case Ok(t, q) =>
          if Peek(toks, q).kind != Colon then Fail(q)
          else
            match ParseAssignment(lex, toks, q + 1)
            case Fail(_) => Fail(q + 1)
            case Ok(f, s) => Ok(Conditional(c, t, f), s)
  }

  /** At most one assignment operator, with a conditional expression on each side. */
  function ParseAssignment(lex: Lexicon, toks: seq<Token>, pos: nat): (r: Parsed<Expr>)
    requires lex.Valid()
    ensures Advances(r, toks, pos)
    decreases Remaining(toks, pos), 27
  {
    match ParseConditional(lex, toks, pos)
    case Fail(_) => Fail(pos)
    case Ok(l, p) =>
      var k := Peek(toks, p).kind;
      if !lex.isAssignment(k) then Ok(l, p)
      else
        match ParseConditional(lex, toks, p + 1)
        case Fail(_) => Fail(p + 1)
        case Ok(rhs, q) => Ok(Binary(lex.toExprType(k), l, rhs), q)
  }

  /** Comma-separated assignment expressions; a lone operand is returned as it is. */
  function ParseSequence(lex: Lexicon, toks: seq<Token>, pos: nat): (r: Parsed<Expr>)
    requires lex.Valid()
    ensures Advances(r, toks, pos)
    decreases Remaining(toks, pos), 28
  {
    match ParseAssignment(lex, toks, pos)
    case Fail(_) => Fail(pos)
    case Ok(x, p) =>
      match SequenceRest(lex, toks, [x], p)
      case Fail(at) => Fail(at)
      case Ok(items, q) => Ok(if |items| == 1 then items[0] else Sequence(items), q)
  }

  /** The `, operand` loop of a comma sequence; a missing operand fails just past its comma. */
  function SequenceRest(lex: Lexicon, toks: seq<Token>, items: seq<Expr>, pos: nat): (r: Parsed<seq<Expr>>)
    requires lex.Valid() && pos <= |toks|
    ensures Extends(r, toks, pos)
    ensures r.Ok? ==> |r.value| >= |items| && r.value[..|items|] == items
    ensures r.Ok? && |r.value| == |items| ==> r.next == pos
    ensures r.Ok? && |r.value| > |items| ==> r.next > pos
    decreases Remaining(toks, pos), 28
  {
    if Peek(toks, pos).kind != Comma then Ok(items, pos)
    else
      match ParseAssignment(lex, toks, pos + 1)
      case Fail(_) => Fail(pos + 1)
      case Ok(x, q) =>
        var r := SequenceRest(lex, toks, items + [x], q);
        assert r.Ok? ==> r.value[..|items|] == r.value[..|items + [x]|][..|items|];
        r
  }

  /** A full expression; on failure the cursor is back at the start. */
  function ParseExpression(lex: Lexicon, toks: seq<Token>, pos: nat): (r: Parsed<Expr>)
    requires lex.Valid()
    ensures Advances(r, toks, pos)
    ensures r.Fail? ==> r.at == pos
    decreases Remaining(toks, pos), 29
  {
    match ParseSequence(lex, toks, pos)
    case Fail(_) => Fail(pos)
    case Ok(e, q) => Ok(e, q)
  }

  /** A comma-separated argument list of assignment expressions, in source order. */
  function ParseExprList(lex: Lexicon, toks: seq<Token>, pos: nat): (r: Parsed<seq<Expr>>)
    requires lex.Valid()
    ensures Advances(r, toks, pos)
    ensures r.Ok? ==> |r.value| >= 1
    ensures r.Fail? ==> r.at == pos || Peek(toks, r.at).kind == Comma
    decreases Remaining(toks, pos), 28
  {
    match ParseAssignment(lex, toks, pos)
    case Fail(_) => Fail(pos)
    case Ok(x, p) => ExprListRest(lex, toks, [x], p)
  }

  /** The `, argument` loop of an argument list; a missing argument fails at its comma. */
  function ExprListRest(lex: Lexicon, toks: seq<Token>, items: seq<Expr>, pos: nat): (r: Parsed<seq<Expr>>)
    requires lex.Valid() && pos <= |toks|
    ensures Extends(r, toks, pos)
    ensures r.Ok? ==> |r.value| >= |items| && r.value[..|items|] == items
    ensures r.Fail? ==> Peek(toks, r.at).kind == Comma
    decreases Remaining(toks, pos), 28
  {
    if Peek(toks, pos).kind != Comma then Ok(items, pos)
    else
      match ParseAssignment(lex, toks, pos + 1)
      case Fail(_) => Fail(pos)
      case Ok(x, q) =>
        var r := ExprListRest(lex, toks, items + [x], q);
        assert r.Ok? ==> r.value[..|items|] == r.value[..|items + [x]|][..|items|];
        r
  }

  /** Three operands of one level with two operators between them nest to the left. */
  lemma LevelFoldsLeft(lex: Lexicon, toks: seq<Token>, l: Level, pos: nat,
                       a: Expr, p1: nat, b: Expr, p2: nat, c: Expr, p3: nat)
    requires lex.Valid()
    requires ParseOperand(lex, toks, l, pos) == Ok(a, p1)
    requires IsOperator(lex, l, Peek(toks, p1).kind)
    requires ParseOperand(lex, toks, l, p1 + 1) == Ok(b, p2)
    requires IsOperator(lex, l, Peek(toks, p2).kind)
    requires ParseOperand(lex, toks, l, p2 + 1) == Ok(c, p3)
    requires !IsOperator(lex, l, Peek(toks, p3).kind)
    ensures ParseLevel(lex, toks, l, pos) ==
      Ok(Binary(OperatorTag(lex, l, Peek(toks, p2).kind),
                Binary(OperatorTag(lex, l, Peek(toks, p1).kind), a, b), c), p3)
  {
    var ab := Binary(OperatorTag(lex, l, Peek(toks, p1).kind), a, b);
    var abc := Binary(OperatorTag(lex, l, Peek(toks, p2).kind), ab, c);
    assert LevelRest(lex, toks, l, ab, p2) == LevelRest(lex, toks, l, abc, p3) == Ok(abc, p3);
    assert LevelRest(lex, toks, l, a, p1) == LevelRest(lex, toks, l, ab, p2);
  }

  /** When the operand after an operator does not parse, the level fails just past that operator. */
  lemma LevelFailsPastOperator(lex: Lexicon, toks: seq<Token>, l: Level, pos: nat, a: Expr, p1: nat)
    requires lex.Valid()
    requires ParseOperand(lex, toks, l, pos) == Ok(a, p1)
    requires IsOperator(lex, l, Peek(toks, p1).kind)
    requires ParseOperand(lex, toks, l, p1 + 1).Fail?
    ensures ParseLevel(lex, toks, l, pos) == Fail(p1 + 1)
  {
  }

  /** Every binary chain a level builds reports the type of its first operand. */
  lemma {:induction false} LevelTypeIsFirstOperandType<V>(lex: Lexicon, toks: seq<Token>, l: Level, pos: nat, scope: Scope<V>)
    requires lex.Valid()
    requires ParseOperand(lex, toks, l, pos).Ok? && ParseLevel(lex, toks, l, pos).Ok?
    ensures ReturnType(ParseLevel(lex, toks, l, pos).value, scope) ==
            ReturnType(ParseOperand(lex, toks, l, pos).value, scope)
  {
    var first := ParseOperand(lex, toks, l, pos);
    SpineKeepsType(ParseLevel(lex, toks, l, pos).value, first.value, scope);
  }

  lemma {:induction false} SpineKeepsType<V>(e: Expr, left: Expr, scope: Scope<V>)
    requires LeftSpine(e, left)
    ensures ReturnType(e, scope) == ReturnType(left, scope)
    decreases e
  {
    if e != left {
      SpineKeepsType(e.lhs, left, scope);
    }
  }

  /**
   * An assignment's right side is a conditional expression: after `a = b`
   * the cursor stops before a second assignment operator instead of
   * chaining.
   */
  lemma AssignmentIsNotChained(lex: Lexicon, toks: seq<Token>, pos: nat, lhs: Expr, p: nat, rhs: Expr, q: nat)
    requires lex.Valid()
    requires ParseConditional(lex, toks, pos) == Ok(lhs, p)
    requires lex.isAssignment(Peek(toks, p).kind)
    requires ParseConditional(lex, toks, p + 1) == Ok(rhs, q)
    ensures ParseAssignment(lex, toks, pos) == Ok(Binary(lex.toExprType(Peek(toks, p).kind), lhs, rhs), q)
  {
  }

  /**
   * `items` are assignment expressions parsed one after another from `pos`,
   * a comma between each two, the last one ending at `q`.
   */
  predicate Operands(lex: Lexicon, toks: seq<Token>, pos: nat, items: seq<Expr>, q: nat)
    requires lex.Valid()
    decreases |items|
  {
    && |items| >= 1
    && match ParseAssignment(lex, toks, pos)
       case Fail(_) => false
       case Ok(x, p) =>
         && x == items[0]
         && if |items| == 1 then p == q
            else Peek(toks, p).kind == Comma && Operands(lex, toks, p + 1, items[1..], q)
  }

  /**
   * The comma loop of a sequence stops only where no comma follows, and
   * what it adds are the operands written after the comma at `pos`, in
   * source order.
   */
  lemma {:induction false} SequenceRestOperands(lex: Lexicon, toks: seq<Token>, items: seq<Expr>, pos: nat)
    requires lex.Valid() && pos <= |toks|
    ensures var r := SequenceRest(lex, toks, items, pos);
      r.Ok? ==>
        && Peek(toks, r.next).kind != Comma
        && (|r.value| == |items| ||
            (Peek(toks, pos).kind == Comma && Operands(lex, toks, pos + 1, r.value[|items|..], r.next)))
    decreases Remaining(toks, pos)
  {
    if Peek(toks, pos).kind == Comma {
      match ParseAssignment(lex, toks, pos + 1)
      case Fail(_) =>
      case Ok(x, q) =>
        SequenceRestOperands(lex, toks, items + [x], q);
        var r := SequenceRest(lex, toks, items + [x], q);
        if r.Ok? {
          assert r.value[..|items| + 1] == items + [x];
          assert r.value[|items|..][1..] == r.value[|items + [x]|..];
        }
    }
  }

  /** The argument loop's counterpart of `SequenceRestOperands`. */
  lemma {:induction false} ExprListRestOperands(lex: Lexicon, toks: seq<Token>, items: seq<Expr>, pos: nat)
    requires lex.Valid() && pos <= |toks|
    ensures var r := ExprListRest(lex, toks, items, pos);
      r.Ok? ==>
        && Peek(toks, r.next).kind != Comma
        && (|r.value| == |items| ||
            (Peek(toks, pos).kind == Comma && Operands(lex, toks, pos + 1, r.value[|items|..], r.next)))
    decreases Remaining(toks, pos)
  {
    if Peek(toks, pos).kind == Comma {
      match ParseAssignment(lex, toks, pos + 1)
      case Fail(_) =>
      case Ok(x, q) =>
        ExprListRestOperands(lex, toks, items + [x], q);
        var r := ExprListRest(lex, toks, items + [x], q);
        if r.Ok? {
          assert r.value[..|items| + 1] == items + [x];
          assert r.value[|items|..][1..] == r.value[|items + [x]|..];
        }
    }
  }

  /** An argument list that parses holds every argument written, in source order, and stops where no comma follows. */
  lemma ExprListOperands(lex: Lexicon, toks: seq<Token>, pos: nat)
    requires lex.Valid()
    ensures var r := ParseExprList(lex, toks, pos);
      r.Ok? ==> Operands(lex, toks, pos, r.value, r.next) && Peek(toks, r.next).kind != Comma
  {
    match ParseAssignment(lex, toks, pos)
    case Fail(_) =>
    case Ok(x, p) =>
      ExprListRestOperands(lex, toks, [x], p);
      var r := ExprListRest(lex, toks, [x], p);
      if r.Ok? && |r.value| > 1 {
        assert r.value == [x] + r.value[1..];
      }
  }

  /**
   * A comma sequence is its lone operand when no comma follows; otherwise a
   * sequence node of at least two operands holding every operand written,
   * in source order, starting with the first.
   */
  lemma SequenceShape(lex: Lexicon, toks: seq<Token>, pos: nat, x: Expr, p: nat)
    requires lex.Valid()
    requires ParseAssignment(lex, toks, pos) == Ok(x, p)
    ensures Peek(toks, p).kind != Comma ==> ParseSequence(lex, toks, pos) == Ok(x, p)
    ensures ParseSequence(lex, toks, pos).Ok? ==>
      var r := ParseSequence(lex, toks, pos);
      && Peek(toks, r.next).kind != Comma
      && ((r.value == x && r.next == p) ||
          (&& Peek(toks, p).kind == Comma && r.value.Sequence? && |r.value.items| >= 2
           && r.value.items[0] == x && Operands(lex, toks, pos, r.value.items, r.next)))
  {
    SequenceRestOperands(lex, toks, [x], p);
    var rest := SequenceRest(lex, toks, [x], p);
    if rest.Ok? && |rest.value| > 1 {
      assert rest.value[0] == rest.value[..1][0];
      assert rest.value == [x] + rest.value[1..];
    }
  }

  /**
   * A prefix operator wraps the prefix expression after it, and a missing
   * operand fails just past the operator; without a prefix operator the
   * result is the postfix expression, and a failure of that is reported
   * at the start.
   */
  lemma PrefixShape(lex: Lexicon, toks: seq<Token>, pos: nat)
    requires lex.Valid()
    ensures var k, inner := Peek(toks, pos).kind, ParsePrefix(lex, toks, pos + 1);
      lex.isPrefix(k) && inner.Ok? ==>
        ParsePrefix(lex, toks, pos) == Ok(Prefix(lex.toExprType(k), inner.value), inner.next)
    ensures lex.isPrefix(Peek(toks, pos).kind) && ParsePrefix(lex, toks, pos + 1).Fail? ==>
      ParsePrefix(lex, toks, pos) == Fail(pos + 1)
    ensures !lex.isPrefix(Peek(toks, pos).kind) ==>
      ParsePrefix(lex, toks, pos) == (if ParsePostfix(lex, toks, pos).Ok? then ParsePostfix(lex, toks, pos) else Fail(pos))
  {
  }

  /**
   * `c ? t : f` builds a conditional node from the condition, the middle
   * expression and the last assignment expression.
   */
  lemma ConditionalShape(lex: Lexicon, toks: seq<Token>, pos: nat, c: Expr, p: nat, t: Expr, q: nat, f: Expr, s: nat)
    requires lex.Valid()
    requires ParseLevel(lex, toks, LogicalOrLevel, pos) == Ok(c, p) && Peek(toks, p).kind == Question
    requires ParseExpression(lex, toks, p + 1) == Ok(t, q) && Peek(toks, q).kind == Colon
    requires ParseAssignment(lex, toks, q + 1) == Ok(f, s)
    ensures ParseConditional(lex, toks, pos) == Ok(Conditional(c, t, f), s)
  {
  }

  /**
   * Without `?` after the condition the condition is the whole result, and
   * a missing condition fails at the start.
   */
  lemma ConditionalWithoutQuestion(lex: Lexicon, toks: seq<Token>, pos: nat)
    requires lex.Valid()
    ensures ParseLevel(lex, toks, LogicalOrLevel, pos).Fail? ==> ParseConditional(lex, toks, pos) == Fail(pos)
    ensures var c := ParseLevel(lex, toks, LogicalOrLevel, pos);
      c.Ok? && Peek(toks, c.next).kind != Question ==> ParseConditional(lex, toks, pos) == c
  {
  }

  /**
   * The failures after `?`: a missing middle part fails just past `?`, a
   * missing `:` where it should be, and a missing last part just past `:`.
   */
  lemma ConditionalFailures(lex: Lexicon, toks: seq<Token>, pos: nat, c: Expr, p: nat)
    requires lex.Valid()
    requires ParseLevel(lex, toks, LogicalOrLevel, pos) == Ok(c, p) && Peek(toks, p).kind == Question
    ensures ParseExpression(lex, toks, p + 1).Fail? ==> ParseConditional(lex, toks, pos) == Fail(p + 1)
    ensures var t := ParseExpression(lex, toks, p + 1);
      t.Ok? && Peek(toks, t.next).kind != Colon ==> ParseConditional(lex, toks, pos) == Fail(t.next)
    ensures var t := ParseExpression(lex, toks, p + 1);
      t.Ok? && Peek(toks, t.next).kind == Colon && ParseAssignment(lex, toks, t.next + 1).Fail? ==>
        ParseConditional(lex, toks, pos) == Fail(t.next + 1)
  {
  }

  /** `.name` is accepted for any identifier and the postfix loop goes on. */
  lemma DotAcceptsAnyName(lex: Lexicon, toks: seq<Token>, e: Expr, pos: nat)
    requires lex.Valid() && pos <= |toks|
    requires lex.isPostfix(Dot) && Peek(toks, pos).kind == Dot
    requires Peek(toks, pos + 1).kind == Identifier
    ensures PostfixRest(lex, toks, e, pos) ==
      PostfixRest(lex, toks, Postfix(lex.toExprType(Dot), e, toks[pos + 1].text), pos + 2)
  {
  }

  /** A `.` that is not followed by an identifier makes the postfix parse fail at the dot. */
  lemma DotNeedsIdentifier(lex: Lexicon, toks: seq<Token>, e: Expr, pos: nat)
    requires lex.Valid() && pos <= |toks|
    requires lex.isPostfix(Dot) && Peek(toks, pos).kind == Dot
    requires Peek(toks, pos + 1).kind != Identifier
    ensures PostfixRest(lex, toks, e, pos) == Fail(pos)
  {
  }

  /** `++` and `--` each produce one node and end the postfix loop. */
  lemma IncrementEndsPostfix(lex: Lexicon, toks: seq<Token>, e: Expr, pos: nat)
    requires lex.Valid() && pos <= |toks|
    requires Peek(toks, pos).kind in {PlusPlus, MinusMinus} && lex.isPostfix(Peek(toks, pos).kind)
    ensures PostfixRest(lex, toks, e, pos) ==
      Ok(Postfix(if toks[pos].kind == PlusPlus then PlusPlusExpr else MinusMinusExpr, e, ""), pos + 1)
  {
  }

  /** `f()` is a call with no arguments, although the argument-list parser fails on `)`. */
  lemma EmptyCall(lex: Lexicon, toks: seq<Token>, pos: nat)
    requires lex.Valid()
    requires Peek(toks, pos).kind == Identifier && Peek(toks, pos + 1).kind == LeftParen
    requires Peek(toks, pos + 2).kind == RightParen
    requires ParseExprList(lex, toks, pos + 2) == Fail(pos + 2)
    ensures ParsePrimary(lex, toks, pos) == Ok(Call(toks[pos].text, []), pos + 3)
  {
  }
}
