/**
 * The statement and definition half of the parser: layout qualifiers,
 * variable definitions, statements and blocks, function definitions, the
 * `#version` header and the whole program.
 */
module StmtParser {
  import opened Wrappers
  import opened Types
  import opened Tokens
  import opened Ast
  import opened Terminals
  import opened ExprParser

  // ---------------------------------------------------------------- layout

  /**
   * One `location` or `binding` entry, optionally `= n` with n an integer
   * literal. Without `=` the value is -1; with `=` but no integer literal
   * the entry fails just past the `=`.
   */
  function ParseQualifierId(lex: Lexicon, toks: seq<Token>, pos: nat): (r: Parsed<QualifierId>)
    ensures Advances(r, toks, pos)
    ensures r.Ok? ==> Peek(toks, pos).kind in {LocationKw, BindingKw}
    ensures r.Ok? ==> (r.value.id == Location <==> Peek(toks, pos).kind == LocationKw)
    ensures r.Ok? && Peek(toks, pos + 1).kind != Assign ==> r.value.value == NoLayoutValue && r.next == pos + 1
    ensures r.Ok? && Peek(toks, pos + 1).kind == Assign ==>
      r.next == pos + 3 && Peek(toks, pos + 2).kind == NumberLiteral && '.' !in toks[pos + 2].text
  {
    var k := Peek(toks, pos).kind;
    if k == LocationKw || k == BindingKw then
      var id := if k == LocationKw then Location else Binding;
      var p := pos + 1;
      if Peek(toks, p).kind == Assign then
        match ParseNumber(toks, p + 1)
        case Ok(n, q) =>
          if n.ty == Int then Ok(QualifierId(id, lex.toInt(n.text)), q) else Fail(p + 1)
        case Fail(_) => Fail(p + 1)
      else Ok(QualifierId(id, NoLayoutValue), p)
    else Fail(pos)
  }

  /** Qualifier ids one after another, with no separator, up to the first that does not parse. */
  function QualifierIdsFrom(lex: Lexicon, toks: seq<Token>, ids: seq<QualifierId>, pos: nat): (r: (seq<QualifierId>, nat))
    ensures |r.0| >= |ids| && r.0[..|ids|] == ids
    ensures |r.0| == |ids| ==> r.1 == pos
    ensures |r.0| > |ids| ==> pos < r.1 <= |toks|
    ensures ParseQualifierId(lex, toks, r.1).Fail?
    decreases Remaining(toks, pos)
  {
    match ParseQualifierId(lex, toks, pos)
    case Fail(_) => (ids, pos)
    case Ok(id, q) =>
      var r := QualifierIdsFrom(lex, toks, ids + [id], q);
      assert r.0[..|ids|] == r.0[..|ids + [id]|][..|ids|];
      r
  }

  /** The contents of `layout( ... )`: at least one qualifier id. */
  function ParseQualifierIdList(lex: Lexicon, toks: seq<Token>, pos: nat): (r: Parsed<seq<QualifierId>>)
    ensures Advances(r, toks, pos)
    ensures r.Ok? ==> |r.value| >= 1
    ensures r.Fail? ==> r.at == pos && ParseQualifierId(lex, toks, pos).Fail?
  {
    var (ids, p) := QualifierIdsFrom(lex, toks, [], pos);
    if |ids| == 0 then Fail(pos) else Ok(ids, p)
  }

  /** `layout ( ids )`. */
  function ParseLayoutQualifier(lex: Lexicon, toks: seq<Token>, pos: nat): (r: Parsed<seq<QualifierId>>)
    ensures Advances(r, toks, pos)
    ensures r.Ok? ==> Peek(toks, pos).kind == LayoutKw
  {
    if Peek(toks, pos).kind != LayoutKw then Fail(pos)
    else if Peek(toks, pos + 1).kind != LeftParen then Fail(pos + 1)
    else
      match ParseQualifierIdList(lex, toks, pos + 2)
      case Fail(_) => Fail(pos + 2)
      case Ok(ids, q) =>
        if Peek(toks, q).kind != RightParen then Fail(q) else Ok(ids, q + 1)
  }

  /** A layout qualifier followed by `uniform`, `in` or `out`. */
  function ParseLayout(lex: Lexicon, toks: seq<Token>, pos: nat): (r: Parsed<Layout>)
    ensures Advances(r, toks, pos)
    ensures r.Ok? ==> r.value.kind != Empty && |r.value.ids| >= 1
  {
    match ParseLayoutQualifier(lex, toks, pos)
    case Fail(_) => Fail(pos)
    case Ok(ids, p) =>
      var k := Peek(toks, p).kind;
      if k == UniformKw then Ok(Layout(Uniform, ids), p + 1)
      else if k == LayoutInKw then Ok(Layout(In, ids), p + 1)
      else if k == LayoutOutKw then Ok(Layout(Out, ids), p + 1)
      else Fail(p)
  }

  // ------------------------------------------------------------- variables

  /**
   * `[layout] type name ;` at the top level. The declaration is never
   * constant and never initialised.
   */
  function ParseGlobalVariableDefinition(lex: Lexicon, toks: seq<Token>, pos: nat): (r: Parsed<Definition>)
    ensures Advances(r, toks, pos)
    ensures r.Ok? ==> r.value.GlobalVar? && !r.value.isConst && r.value.init.None?
    ensures r.Ok? ==> !IsVoidOrError(r.value.ty)
    ensures ClosedBy(r, toks, Semicolon)
  {
    match ParseLayout(lex, toks, pos)
    case Ok(l, q) => GlobalDeclaration(toks, Some(l), q)
    case Fail(_) => GlobalDeclaration(toks, None, pos)
  }

  /** The `type name ;` part of a global definition, after its optional layout. */
  function GlobalDeclaration(toks: seq<Token>, layout: Option<Layout>, pos: nat): (r: Parsed<Definition>)
    ensures Advances(r, toks, pos)
    ensures r.Ok? ==> r.value.GlobalVar? && r.value == GlobalVar(r.value.ty, false, r.value.name, None, layout)
    ensures r.Ok? ==> !IsVoidOrError(r.value.ty)
    ensures ClosedBy(r, toks, Semicolon)
  {
    var (ty, p) := ParseType(toks, pos);
    if IsVoidOrError(ty) then Fail(pos)
    else
      match ParseIdentifier(toks, p)
      case Fail(_) => Fail(p)
      case Ok(name, q) =>
        if Peek(toks, q).kind == Semicolon then Ok(GlobalVar(ty, false, name, None, layout), q + 1)
        else Fail(q)
  }

  /**
   * `[const] type name = expr` followed by `;`. The `;` is required but not
   * consumed: the cursor is left on it.
   */
  function ParseVariableDefinition(lex: Lexicon, toks: seq<Token>, pos: nat): (r: Parsed<Sentence>)
    requires lex.Valid()
    ensures Advances(r, toks, pos)
    ensures r.Ok? ==> r.value.VarDef? && r.value.init.Some? && !IsVoidOrError(r.value.ty)
    ensures r.Ok? ==> (r.value.isConst <==> Peek(toks, pos).kind == ConstKw)
    ensures r.Ok? ==> r.next < |toks| && Peek(toks, r.next).kind == Semicolon
  {
    var isConst := Peek(toks, pos).kind == ConstKw;
    var p := if isConst then pos + 1 else pos;
    var (ty, p2) := ParseType(toks, p);
    if IsVoidOrError(ty) then Fail(p)
    else
      match ParseIdentifier(toks, p2)
      case Fail(_) => Fail(p2)
      case Ok(name, p3) =>
        if Peek(toks, p3).kind != Assign then Fail(p3)
        else
          match ParseExpression(lex, toks, p3 + 1)
          case Fail(_) => Fail(p3 + 1)
          case Ok(e, q) =>
            if Peek(toks, q).kind != Semicolon then Fail(q)
            else Ok(VarDef(ty, isConst, name, Some(e)), q)
  }

  // ------------------------------------------------------------ statements

  /**
   * One statement: a block, `;`, a variable definition (whose `;` is
   * consumed here), `if`, `for`, `return` or an expression statement.
   * Failure leaves the cursor at the statement start, except inside a `for`
   * header, where it is left just past `for (`.
   */
  function ParseSentence(lex: Lexicon, toks: seq<Token>, pos: nat): (r: Parsed<Sentence>)
    requires lex.Valid()
    ensures Advances(r, toks, pos)
    ensures r.Fail? ==> r.at == pos || (Peek(toks, pos).kind == ForKw && r.at == pos + 2)
    decreases Remaining(toks, pos), 2
  {
    var k := Peek(toks, pos).kind;
    if k == LeftBrace then
      var (body, p) := ParseSentences(lex, toks, pos + 1);
      if Peek(toks, p).kind == RightBrace then Ok(Block(body), p + 1) else Fail(pos)
    else if k == Semicolon then Ok(EmptySentence, pos + 1)
    else
      match ParseVariableDefinition(lex, toks, pos)
      case Ok(v, q) => Ok(v, q + 1)
      case Fail(_) =>
        if k == IfKw then ParseIf(lex, toks, pos)
        else if k == ForKw then ParseFor(lex, toks, pos)
        else if k == ReturnKw then ParseReturn(lex, toks, pos)
        else ParseExprStatement(lex, toks, pos)
  }

  /** `if ( expr ) sentence [else sentence]`; every failure resets to the `if`. */
  function ParseIf(lex: Lexicon, toks: seq<Token>, pos: nat): (r: Parsed<Sentence>)
    requires lex.Valid() && Peek(toks, pos).kind == IfKw
    ensures Advances(r, toks, pos)
    ensures r.Fail? ==> r.at == pos
    ensures r.Ok? ==> r.value.If?
    decreases Remaining(toks, pos), 1
  {
    match IfCondition(lex, toks, pos + 1)
    case Fail(_) => Fail(pos)
    case Ok(c, p) =>
      match ParseSentence(lex, toks, p)
      case Fail(_) => Fail(pos)
      case Ok(t, q) => IfElse(lex, toks, pos, c, t, q)
  }

  /** The parenthesised condition of an `if`, with both parentheses. */
  function IfCondition(lex: Lexicon, toks: seq<Token>, pos: nat): (r: Parsed<Expr>)
    requires lex.Valid()
    ensures Advances(r, toks, pos)
    ensures r.Fail? ==> r.at == pos
    ensures ClosedBy(r, toks, RightParen)
  {
    if Peek(toks, pos).kind != LeftParen then Fail(pos)
    else
      match ParseExpression(lex, toks, pos + 1)
      case Fail(_) => Fail(pos)
      case Ok(c, p) => if Peek(toks, p).kind != RightParen then Fail(pos) else Ok(c, p + 1)
  }

  /** The optional `else` branch of the `if` at `pos`, once its then-branch ended at `q`. */
  function IfElse(lex: Lexicon, toks: seq<Token>, pos: nat, c: Expr, t: Sentence, q: nat): (r: Parsed<Sentence>)
    requires lex.Valid() && pos < q <= |toks|
    ensures Advances(r, toks, pos)
    ensures r.Fail? ==> r.at == pos
    ensures r.Ok? ==> r.value.If? && r.value.guard == c && r.value.thenPart == t
    ensures r.Ok? ==> (r.value.elsePart.None? <==> Peek(toks, q).kind != ElseKw)
    decreases Remaining(toks, pos), 0
  {
    if Peek(toks, q).kind != ElseKw then Ok(If(c, t, None), q)
    else
      match ParseSentence(lex, toks, q + 1)
      case Fail(_) => Fail(pos)
      case Ok(f, s) => Ok(If(c, t, Some(f)), s)
  }

  /** The first clause of a `for` header: an expression if one parses, else a variable definition. */
  function ForInit(lex: Lexicon, toks: seq<Token>, pos: nat): (r: Parsed<Sentence>)
    requires lex.Valid()
    ensures Advances(r, toks, pos)
    ensures ParseExpression(lex, toks, pos).Ok? ==>
      r == Ok(ExprStmt(ParseExpression(lex, toks, pos).value), ParseExpression(lex, toks, pos).next)
    ensures ParseExpression(lex, toks, pos).Fail? ==>
      r == (match ParseVariableDefinition(lex, toks, pos)
            case Ok(v, q) => Ok(v, q)
            case Fail(_) => Fail(pos))
  {
    match ParseExpression(lex, toks, pos)
    case Ok(e, p) => Ok(ExprStmt(e), p)
    case Fail(_) =>
      match ParseVariableDefinition(lex, toks, pos)
      case Ok(v, q) => Ok(v, q)
      case Fail(_) => Fail(pos)
  }

  /** `for ( init ; cond ; step ) sentence`; failures after `for (` leave the cursor just past it. */
  function ParseFor(lex: Lexicon, toks: seq<Token>, pos: nat): (r: Parsed<Sentence>)
    requires lex.Valid() && Peek(toks, pos).kind == ForKw
    ensures Advances(r, toks, pos)
    ensures r.Fail? ==> r.at == pos || r.at == pos + 2
    ensures r.Ok? ==> r.value.For?
    decreases Remaining(toks, pos), 1
  {
    if Peek(toks, pos + 1).kind != LeftParen then Fail(pos)
    else
      match ForHeader(lex, toks, pos + 2)
      case Fail(_) => Fail(pos + 2)
      case Ok(h, u) => ForBody(lex, toks, pos + 2, h, u)
  }

  /** The body of a `for` whose header, read from `a`, ended at `u`; a failure reports `a`. */
  function ForBody(lex: Lexicon, toks: seq<Token>, a: nat, h: (Sentence, Expr, Expr), u: nat): (r: Parsed<Sentence>)
    requires lex.Valid() && a < u <= |toks|
    ensures Advances(r, toks, a)
    ensures r.Fail? ==> r.at == a
    ensures r.Ok? ==> r.value.For? && r.value.first == h.0 && r.value.test == h.1 && r.value.step == h.2
    decreases Remaining(toks, a), 0
  {
    match ParseSentence(lex, toks, u)
    case Fail(_) => Fail(a)
    case Ok(body, w) => Ok(For(h.0, h.1, h.2, body), w)
  }

  /** The three clauses of a `for` header and the `)` closing it. */
  function ForHeader(lex: Lexicon, toks: seq<Token>, pos: nat): (r: Parsed<(Sentence, Expr, Expr)>)
    requires lex.Valid()
    ensures Advances(r, toks, pos)
    ensures ClosedBy(r, toks, RightParen)
  {
    match ForInit(lex, toks, pos)
    case Fail(_) => Fail(pos)
    case Ok(init, p) =>
      if Peek(toks, p).kind != Semicolon then Fail(pos)
      else
        match ParseExpression(lex, toks, p + 1)
        case Fail(_) => Fail(pos)
        case Ok(c, q) =>
          if Peek(toks, q).kind != Semicolon then Fail(pos)
          else
            match ParseExpression(lex, toks, q + 1)
            case Fail(_) => Fail(pos)
            case Ok(step, u) =>
              if Peek(toks, u).kind != RightParen then Fail(pos)
              else Ok((init, c, step), u + 1)
  }

  /** `return ;` or `return expr ;`; every failure resets to the `return`. */
  function ParseReturn(lex: Lexicon, toks: seq<Token>, pos: nat): (r: Parsed<Sentence>)
    requires lex.Valid() && Peek(toks, pos).kind == ReturnKw
    ensures Advances(r, toks, pos)
    ensures r.Fail? ==> r.at == pos
    ensures r.Ok? ==> r.value.Return? && (r.value.value.None? <==> Peek(toks, pos + 1).kind == Semicolon)
  {
    if Peek(toks, pos + 1).kind == Semicolon then Ok(Return(None), pos + 2)
    else
      match ParseExpression(lex, toks, pos + 1)
      case Fail(_) => Fail(pos)
      case Ok(e, p) =>
        if Peek(toks, p).kind != Semicolon then Fail(pos) else Ok(Return(Some(e)), p + 1)
  }

  /** `expr ;`; failure resets to the statement start. */
  function ParseExprStatement(lex: Lexicon, toks: seq<Token>, pos: nat): (r: Parsed<Sentence>)
    requires lex.Valid()
    ensures Advances(r, toks, pos)
    ensures r.Fail? ==> r.at == pos
    ensures r.Ok? ==> r.value.ExprStmt?
    ensures ClosedBy(r, toks, Semicolon)
  {
    match ParseExpression(lex, toks, pos)
    case Fail(_) => Fail(pos)
    case Ok(e, p) =>
      if Peek(toks, p).kind != Semicolon then Fail(pos) else Ok(ExprStmt(e), p + 1)
  }

  /** Statements one after another, up to the first that does not parse; this never fails. */
  function ParseSentences(lex: Lexicon, toks: seq<Token>, pos: nat): (r: (seq<Sentence>, nat))
    requires lex.Valid()
    ensures pos <= r.1 && (r.1 == pos || r.1 <= |toks|)
    ensures |r.0| == 0 ==> r.1 == pos
    ensures ParseSentence(lex, toks, r.1).Fail?
    decreases Remaining(toks, pos), 3
  {
    match ParseSentence(lex, toks, pos)
    case Fail(_) => ([], pos)
    case Ok(s, q) =>
      var (rest, e) := ParseSentences(lex, toks, q);
      ([s] + rest, e)
  }

  // ------------------------------------------------------------ functions

  /**
   * The parameter list after `(`: `)` ends it; otherwise `type name`
   * followed by `,` or `)`. A `,` directly before `)` is accepted.
   */
  function ParamsFrom(toks: seq<Token>, args: seq<Argument>, pos: nat): (r: Parsed<seq<Argument>>)
    ensures Advances(r, toks, pos)
    ensures r.Ok? ==> args <= r.value
    decreases Remaining(toks, pos)
  {
    if Peek(toks, pos).kind == RightParen then Ok(args, pos + 1)
    else
      match ParseParam(toks, pos)
      case Fail(at) => Fail(at)
      case Ok(a, q) =>
        if Peek(toks, q).kind == Comma then
          ParamsFrom(toks, args + [a], q + 1)
        else if Peek(toks, q).kind == RightParen then Ok(args + [a], q + 1)
        else Fail(q)
  }

  /** A parameter list that parses ends with its `)` consumed. */
  lemma {:induction false} ParamsCloseWithParen(toks: seq<Token>, args: seq<Argument>, pos: nat)
    ensures ClosedBy(ParamsFrom(toks, args, pos), toks, RightParen)
    decreases Remaining(toks, pos)
  {
    if Peek(toks, pos).kind != RightParen {
      match ParseParam(toks, pos)
      case Fail(_) =>
      case Ok(a, q) =>
        if Peek(toks, q).kind == Comma {
          ParamsCloseWithParen(toks, args + [a], q + 1);
        }
    }
  }

  /** One `type name` parameter; any type the type parser reads is accepted, `void` included. */
  function ParseParam(toks: seq<Token>, pos: nat): (r: Parsed<Argument>)
    ensures Advances(r, toks, pos)
    ensures r.Ok? ==> r.value.ty != ErrorType
  {
    var (ty, p) := ParseType(toks, pos);
    if ty == ErrorType then Fail(pos)
    else
      match ParseIdentifier(toks, p)
      case Fail(_) => Fail(p)
      case Ok(name, q) => Ok(Argument(ty, name), q)
  }

  /** `type name ( params )`, the prototype of a function definition; the return type may be void. */
  function ParseFunctionHeader(toks: seq<Token>, pos: nat): (r: Parsed<Prototype>)
    ensures Advances(r, toks, pos)
    ensures r.Ok? ==> r.value.returnType != ErrorType && r.next >= pos + 4
  {
    var (rt, p) := ParseType(toks, pos);
    if rt == ErrorType then Fail(pos)
    else
      match ParseIdentifier(toks, p)
      case Fail(_) => Fail(p)
      case Ok(name, p2) =>
        if Peek(toks, p2).kind != LeftParen then Fail(p2)
        else
          match ParamsFrom(toks, [], p2 + 1)
          case Fail(at) => Fail(at)
          case Ok(args, p3) => Ok(Prototype(rt, name, args), p3)
  }

  /** `type name ( params ) { sentences }`. */
  function ParseFunctionDefinition(lex: Lexicon, toks: seq<Token>, pos: nat): (r: Parsed<Definition>)
    requires lex.Valid()
    ensures Advances(r, toks, pos)
    ensures r.Ok? ==> r.value.FunctionDef? && r.value.proto.returnType != ErrorType
    ensures r.Ok? ==> r.next >= pos + 6
  {
    match ParseFunctionHeader(toks, pos)
    case Fail(at) => Fail(at)
    case Ok(proto, p3) =>
      if Peek(toks, p3).kind != LeftBrace then Fail(p3)
      else
        var (body, p4) := ParseSentences(lex, toks, p3 + 1);
        if Peek(toks, p4).kind != RightBrace then Fail(p4)
        else Ok(FunctionDef(proto, body), p4 + 1)
  }

  // -------------------------------------------------------------- program

  /**
   * `#version n`: the version is the integer value of the following token
   * when its spelling has neither `.` nor `f`, and -1 otherwise or when the
   * header is absent. The cursor moves past the header and its number, or by
   * one token when there is no header.
   */
  function ParseVersion(lex: Lexicon, toks: seq<Token>, pos: nat): (r: (int, nat))
    ensures Peek(toks, pos).kind != VersionKw ==> r == (-1, pos + 1)
    ensures Peek(toks, pos).kind == VersionKw ==> r.1 == pos + 2
    ensures Peek(toks, pos).kind == VersionKw && ('.' in Peek(toks, pos + 1).text || 'f' in Peek(toks, pos + 1).text)
      ==> r.0 == -1
    ensures Peek(toks, pos).kind == VersionKw && '.' !in Peek(toks, pos + 1).text && 'f' !in Peek(toks, pos + 1).text
      ==> r.0 == lex.toInt(Peek(toks, pos + 1).text)
  {
    if Peek(toks, pos).kind == VersionKw then
      var text := Peek(toks, pos + 1).text;
      var v := if '.' !in text && 'f' !in text then lex.toInt(text) else -1;
      (v, pos + 2)
    else (-1, pos + 1)
  }

  /** The definition every program starts with: `vec4 gl_Position`. */
  const GlPosition: Definition := GlobalVar(Vec4, false, "gl_Position", None, None)

  /**
   * One top-level definition: a function definition if one parses here,
   * otherwise a global variable definition.
   */
  function DefinitionAt(lex: Lexicon, toks: seq<Token>, pos: nat): (r: Parsed<Definition>)
    requires lex.Valid()
    ensures Advances(r, toks, pos)
    ensures ParseFunctionDefinition(lex, toks, pos).Ok? ==> r == ParseFunctionDefinition(lex, toks, pos)
    ensures r.Ok? && r.value.GlobalVar? ==>
      ParseFunctionDefinition(lex, toks, pos).Fail? && r == ParseGlobalVariableDefinition(lex, toks, pos)
    ensures r.Fail? <==> ParseFunctionDefinition(lex, toks, pos).Fail? && ParseGlobalVariableDefinition(lex, toks, pos).Fail?
  {
    match ParseFunctionDefinition(lex, toks, pos)
    case Ok(f, q) => Ok(f, q)
    case Fail(_) =>
      match ParseGlobalVariableDefinition(lex, toks, pos)
      case Fail(_) => Fail(pos)
      case Ok(g, q) => Ok(g, q)
  }

  /**
   * Definitions up to end of input; if the definition at some position
   * before the end does not parse, the whole list fails there.
   */
  function DefinitionsFrom(lex: Lexicon, toks: seq<Token>, defs: seq<Definition>, pos: nat): (r: Parsed<seq<Definition>>)
    requires lex.Valid()
    ensures r.Ok? ==> |r.value| >= |defs| && r.value[..|defs|] == defs
    ensures r.Ok? ==> Peek(toks, r.next).kind == Eof
    ensures Peek(toks, pos).kind != Eof && ParseFunctionDefinition(lex, toks, pos).Fail?
            && ParseGlobalVariableDefinition(lex, toks, pos).Fail?
            ==> r == Fail(pos)
    decreases Remaining(toks, pos), 0
  {
    if Peek(toks, pos).kind == Eof then Ok(defs, pos)
    else
      match DefinitionAt(lex, toks, pos)
      case Fail(_) => Fail(pos)
      case Ok(d, q) => Extend(lex, toks, defs, d, q)
  }

  /**
   * `ds` are definitions parsed one after another from `pos`, each starting
   * before the end of input where the previous one ended, the last one
   * ending at `q`.
   */
  predicate DefinitionRun(lex: Lexicon, toks: seq<Token>, pos: nat, ds: seq<Definition>, q: nat)
    requires lex.Valid()
    decreases |ds|
  {
    if |ds| == 0 then pos == q
    else if Peek(toks, pos).kind == Eof then false
    else
      match DefinitionAt(lex, toks, pos)
      case Fail(_) => false
      case Ok(d, p) => d == ds[0] && DefinitionRun(lex, toks, p, ds[1..], q)
  }

  /** After a run of definitions the list goes on where the run ended, with the run appended. */
  lemma {:induction false} DefinitionsAfterRun(lex: Lexicon, toks: seq<Token>, defs: seq<Definition>, pos: nat, ds: seq<Definition>, q: nat)
    requires lex.Valid()
    requires DefinitionRun(lex, toks, pos, ds, q)
    ensures DefinitionsFrom(lex, toks, defs, pos) == DefinitionsFrom(lex, toks, defs + ds, q)
    decreases |ds|
  {
    if |ds| == 0 {
      assert defs + ds == defs;
    } else {
      var p := DefinitionAt(lex, toks, pos).next;
      DefinitionsAfterRun(lex, toks, defs + [ds[0]], p, ds[1..], q);
      AppendFirst(defs, ds);
    }
  }

  lemma AppendFirst<T>(defs: seq<T>, ds: seq<T>)
    requires |ds| > 0
    ensures defs + [ds[0]] + ds[1..] == defs + ds
  {
    assert ds == [ds[0]] + ds[1..];
  }

  /** Appends `d` and continues with the definitions after it. */
  function Extend(lex: Lexicon, toks: seq<Token>, defs: seq<Definition>, d: Definition, pos: nat): (r: Parsed<seq<Definition>>)
    requires lex.Valid() && pos <= |toks|
    ensures r.Ok? ==> |r.value| > |defs| && r.value[..|defs|] == defs && r.value[|defs|] == d
    ensures r.Ok? ==> Peek(toks, r.next).kind == Eof
    decreases Remaining(toks, pos), 1
  {
    var r := DefinitionsFrom(lex, toks, defs + [d], pos);
    if r.Ok? then
      assert r.value[..|defs|] == r.value[..|defs + [d]|][..|defs|];
      assert r.value[|defs|] == r.value[..|defs + [d]|][|defs|];
      r
    else r
  }

  /** The program's definitions, starting with the implicit `gl_Position`. */
  function ParseDefinitions(lex: Lexicon, toks: seq<Token>, pos: nat): (r: Parsed<seq<Definition>>)
    requires lex.Valid()
    ensures r.Ok? ==> |r.value| >= 1 && r.value[0] == GlPosition
    ensures r.Ok? ==> Peek(toks, r.next).kind == Eof
  {
    var r := DefinitionsFrom(lex, toks, [GlPosition], pos);
    if r.Ok? then
      assert r.value[0] == r.value[..1][0];
      r
    else r
  }

  /** The width of the unsigned version field. */
  const VersionModulus: int := 0x1_0000_0000_0000_0000

  /**
   * The whole program: status 0 with no tree for empty input, -1 when the
   * version is missing or the definitions do not parse, and 0 with the tree
   * otherwise. The version is converted to an unsigned 64-bit number.
   */
  function ParseProgram(lex: Lexicon, toks: seq<Token>): (r: (int, Option<TopLevel>))
    requires lex.Valid()
    ensures r.0 == 0 || r.0 == -1
    ensures r.1.Some? ==> r.0 == 0
    ensures r.0 == 0 && r.1.None? <==> Peek(toks, 0).kind == Eof
    ensures r.1.Some? ==> |r.1.value.definitions| >= 1 && r.1.value.definitions[0] == GlPosition
    ensures r.1.Some? ==> r.1.value.version < VersionModulus
    ensures Peek(toks, 0).kind !in {Eof, VersionKw} ==> r == (-1, None)
    ensures Peek(toks, 0).kind == VersionKw && ('.' in Peek(toks, 1).text || 'f' in Peek(toks, 1).text) ==> r == (-1, None)
    ensures Peek(toks, 0).kind == VersionKw && ParseDefinitions(lex, toks, 2).Fail? ==> r == (-1, None)
    ensures r.1.Some? ==>
      && Peek(toks, 0).kind == VersionKw && ParseVersion(lex, toks, 0).0 != -1
      && ParseDefinitions(lex, toks, 2).Ok?
      && r.1.value == TopLevel(ParseVersion(lex, toks, 0).0 % VersionModulus, ParseDefinitions(lex, toks, 2).value)
    ensures Peek(toks, 0).kind == VersionKw && ParseVersion(lex, toks, 0).0 != -1 && ParseDefinitions(lex, toks, 2).Ok? ==>
      r == (0, Some(TopLevel(ParseVersion(lex, toks, 0).0 % VersionModulus, ParseDefinitions(lex, toks, 2).value)))
  {
    if Peek(toks, 0).kind == Eof then (0, None)
    else
      var (v, p) := ParseVersion(lex, toks, 0);
      if v == -1 then (-1, None)
      else
        match ParseDefinitions(lex, toks, p)
        case Fail(_) => (-1, None)
        case Ok(defs, _) =>
          if |defs| == 0 then (-1, None)
          else (0, Some(TopLevel(v % VersionModulus, defs)))
  }

  // --------------------------------------------------------------- lemmas

  /** A variable definition as a statement: the statement parser consumes the `;` the definition left. */
  lemma DefinitionStatementConsumesSemicolon(lex: Lexicon, toks: seq<Token>, pos: nat)
    requires lex.Valid()
    ensures ParseVariableDefinition(lex, toks, pos).Ok? ==>
      ParseSentence(lex, toks, pos) ==
        Ok(ParseVariableDefinition(lex, toks, pos).value, ParseVariableDefinition(lex, toks, pos).next + 1)
  {
    if ParseVariableDefinition(lex, toks, pos).Ok? {
      var k := Peek(toks, pos).kind;
      assert k != LeftBrace && k != Semicolon by {
        var p := if k == ConstKw then pos + 1 else pos;
        assert ParseType(toks, p).0 != ErrorType;
      }
    }
  }

  /** `location = n` reads as one qualifier id carrying the integer value of `n`. */
  lemma QualifierIdWithValue(lex: Lexicon, toks: seq<Token>, pos: nat, id: LayoutIdentifier)
    requires Peek(toks, pos).kind == (if id == Location then LocationKw else BindingKw)
    requires Peek(toks, pos + 1).kind == Assign
    requires Peek(toks, pos + 2).kind == NumberLiteral && '.' !in toks[pos + 2].text
    ensures ParseQualifierId(lex, toks, pos) == Ok(QualifierId(id, lex.toInt(toks[pos + 2].text)), pos + 3)
  {
  }

  /**
   * Layout qualifier ids are written one after another: `location = m
   * binding = n` gives two ids, and the list stops at the first token that
   * does not start one, such as a comma.
   */
  lemma LayoutIdsAreJuxtaposed(lex: Lexicon, toks: seq<Token>, pos: nat)
    requires Peek(toks, pos).kind == LocationKw && Peek(toks, pos + 1).kind == Assign
    requires Peek(toks, pos + 2).kind == NumberLiteral && '.' !in toks[pos + 2].text
    requires Peek(toks, pos + 3).kind == BindingKw && Peek(toks, pos + 4).kind == Assign
    requires Peek(toks, pos + 5).kind == NumberLiteral && '.' !in toks[pos + 5].text
    requires Peek(toks, pos + 6).kind !in {LocationKw, BindingKw}
    ensures ParseQualifierIdList(lex, toks, pos) ==
      Ok([QualifierId(Location, lex.toInt(toks[pos + 2].text)), QualifierId(Binding, lex.toInt(toks[pos + 5].text))], pos + 6)
  {
    var a := QualifierId(Location, lex.toInt(toks[pos + 2].text));
    var b := QualifierId(Binding, lex.toInt(toks[pos + 5].text));
    QualifierIdWithValue(lex, toks, pos, Location);
    QualifierIdWithValue(lex, toks, pos + 3, Binding);
    assert QualifierIdsFrom(lex, toks, [a, b], pos + 6) == ([a, b], pos + 6);
    assert [a] + [b] == [a, b];
    assert QualifierIdsFrom(lex, toks, [a], pos + 3) == ([a, b], pos + 6);
    assert [] + [a] == [a];
    assert QualifierIdsFrom(lex, toks, [], pos) == ([a, b], pos + 6);
  }

  /** A comma after a qualifier id ends the id list there, so the closing `)` is not found. */
  lemma CommaAfterLayoutIdFails(lex: Lexicon, toks: seq<Token>, pos: nat)
    requires Peek(toks, pos).kind == LayoutKw && Peek(toks, pos + 1).kind == LeftParen
    requires Peek(toks, pos + 2).kind == LocationKw && Peek(toks, pos + 3).kind == Assign
    requires Peek(toks, pos + 4).kind == NumberLiteral && '.' !in toks[pos + 4].text
    requires Peek(toks, pos + 5).kind == Comma
    ensures ParseLayoutQualifier(lex, toks, pos) == Fail(pos + 5)
    ensures ParseLayout(lex, toks, pos) == Fail(pos)
  {
    var a := QualifierId(Location, lex.toInt(toks[pos + 4].text));
    QualifierIdWithValue(lex, toks, pos + 2, Location);
    assert QualifierIdsFrom(lex, toks, [a], pos + 5) == ([a], pos + 5);
    assert [] + [a] == [a];
    assert QualifierIdsFrom(lex, toks, [], pos + 2) == ([a], pos + 5);
  }

  /**
   * A parameter list may end with a comma: a parameter followed by `,`
   * and `)` is the last one, and the list ends after the `)`.
   */
  lemma TrailingCommaInParameters(toks: seq<Token>, args: seq<Argument>, p: nat, a: Argument, q: nat)
    requires ParseParam(toks, p) == Ok(a, q)
    requires Peek(toks, q).kind == Comma && Peek(toks, q + 1).kind == RightParen
    ensures ParamsFrom(toks, args, p) == Ok(args + [a], q + 2)
  {
    assert ParseType(toks, p).0 != ErrorType;
  }

  /** A function header is the prototype of the return type, name and parameters read. */
  lemma FunctionHeaderShape(toks: seq<Token>, pos: nat)
    ensures var (rt, p) := ParseType(toks, pos);
      var name := ParseIdentifier(toks, p);
      rt != ErrorType && name.Ok? && Peek(toks, name.next).kind == LeftParen && ParamsFrom(toks, [], name.next + 1).Ok? ==>
        ParseFunctionHeader(toks, pos) ==
          Ok(Prototype(rt, name.value, ParamsFrom(toks, [], name.next + 1).value), ParamsFrom(toks, [], name.next + 1).next)
  {
  }

  /** A function definition that parses to its closing brace pairs its header with the statements of its body. */
  lemma FunctionDefinitionShape(lex: Lexicon, toks: seq<Token>, pos: nat)
    requires lex.Valid()
    ensures var h := ParseFunctionHeader(toks, pos);
      h.Ok? && Peek(toks, h.next).kind == LeftBrace ==>
        var (body, p4) := ParseSentences(lex, toks, h.next + 1);
        Peek(toks, p4).kind == RightBrace ==>
          ParseFunctionDefinition(lex, toks, pos) == Ok(FunctionDef(h.value, body), p4 + 1)
  {
  }

  /**
   * A program is rejected when, after any run of definitions that parse,
   * the next one is neither a function nor a global variable definition.
   */
  lemma UnparsableDefinitionRejectsProgram(lex: Lexicon, toks: seq<Token>, ds: seq<Definition>, q: nat)
    requires lex.Valid()
    ensures && Peek(toks, 0).kind == VersionKw && ParseVersion(lex, toks, 0).0 != -1
            && DefinitionRun(lex, toks, 2, ds, q) && Peek(toks, q).kind != Eof
            && ParseFunctionDefinition(lex, toks, q).Fail? && ParseGlobalVariableDefinition(lex, toks, q).Fail?
            ==> ParseProgram(lex, toks) == (-1, None)
  {
    if DefinitionRun(lex, toks, 2, ds, q) {
      DefinitionsAfterRun(lex, toks, [GlPosition], 2, ds, q);
    }
  }
}
