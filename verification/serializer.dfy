/**
 * The JSON-like text every tree node prints through its `toString` member.
 *
 * Every node prints as an object whose first key is `"type"`, holding the
 * node's class name, followed by the node's fields in a fixed order. Lists
 * are printed by appending each element and a comma and then dropping the
 * last character when the text is not empty. Nothing is escaped: names and
 * literal texts are copied as they are, and a call's callee and a number's
 * value are written without quotes.
 */
module Serializer {
  import opened Wrappers
  import opened Types
  import opened Ast

  /**
   * The printing tables the tree classes call into. The names of types and
   * operators come from tables outside the printers, so they are
   * parameters; `emptySentence` stands for the text of an empty statement,
   * whose printer is declared but never given a body.
   */
  datatype Names = Names(astType: AstType -> string, exprType: ExprType -> string, emptySentence: string)

  // ---------------------------------------------------------------------
  // Building blocks
  // ---------------------------------------------------------------------

  /** The opening every node's text starts with, up to its class name. */
  const TypeTag: string := "{\"type\":\""

  /** A node's text: its class name under `"type"`, then its fields, then `}`. */
  function Object(cls: string, fields: string): string {
    TypeTag + cls + "\"" + fields + "}"
  }

  /** The `,"key":` that introduces a member. */
  function Key(key: string): string {
    ",\"" + key + "\":"
  }

  /** One `,"key":value` member. */
  function Field(key: string, value: string): string {
    Key(key) + value
  }

  /** A string value, written between quotes and without escaping. */
  function Str(s: string): string {
    "\"" + s + "\""
  }

  function BoolString(b: bool): string {
    if b then "true" else "false"
  }

  /** An absent child prints as `null`. */
  function OrNull(s: Option<string>): string {
    if s.Some? then s.value else "null"
  }

  /** The texts of a list, separated by single commas. */
  function Join(items: seq<string>): (r: string)
    decreases |items|
  {
    if |items| == 0 then ""
    else if |items| == 1 then items[0]
    else items[0] + "," + Join(items[1..])
  }

  function Bracketed(items: seq<string>): string {
    "[" + Join(items) + "]"
  }

  /** Joining one more item adds one comma and the item. */
  lemma {:induction false} JoinSnoc(items: seq<string>, last: string)
    requires |items| > 0
    ensures Join(items + [last]) == Join(items) + "," + last
    decreases |items|
  {
    var xs := items + [last];
    if |items| == 1 {
      assert xs[1..] == [last];
    } else {
      assert xs[1..] == items[1..] + [last];
      JoinSnoc(items[1..], last);
    }
  }

  /**
   * The printers' list loop: append each element and a comma, then drop the
   * final character if there is one. It computes exactly `Join`.
   */
  method JoinByAppending(items: seq<string>) returns (out: string)
    ensures out == Join(items)
  {
    out := "";
    var i := 0;
    while i < |items|
      invariant 0 <= i <= |items|
      invariant i == 0 ==> out == ""
      invariant i > 0 ==> out == Join(items[..i]) + ","
    {
      if i > 0 {
        JoinSnoc(items[..i], items[i]);
      }
      assert items[..i + 1] == items[..i] + [items[i]];
      out := out + items[i] + ",";
      i := i + 1;
    }
    if |out| > 0 {
      out := out[..|out| - 1];
    }
    assert items[..|items|] == items;
  }

  /** Splits a text at every comma: the reading side of `Join`. */
  function SplitCommas(s: string): (r: seq<string>)
    ensures |r| >= 1
    decreases |s|
  {
    if |s| == 0 then [""]
    else if s[0] == ',' then [""] + SplitCommas(s[1..])
    else
      var rest := SplitCommas(s[1..]);
      [[s[0]] + rest[0]] + rest[1..]
  }

  lemma {:induction false} SplitWithoutComma(a: string)
    requires ',' !in a
    ensures SplitCommas(a) == [a]
    decreases |a|
  {
    if |a| > 0 {
      SplitWithoutComma(a[1..]);
      assert [a[0]] + a[1..] == a;
    }
  }

  lemma {:induction false} SplitAtFirstComma(a: string, b: string)
    requires ',' !in a
    ensures SplitCommas(a + "," + b) == [a] + SplitCommas(b)
    decreases |a|
  {
    var s := a + "," + b;
    if |a| == 0 {
      assert s[1..] == b;
    } else {
      assert s[1..] == a[1..] + "," + b;
      SplitAtFirstComma(a[1..], b);
      assert [a[0]] + a[1..] == a;
    }
  }

  /**
   * A non-empty list of comma-free texts is recovered from its joined form.
   * This is a fact about `Join` itself: the printed members of a node contain
   * commas, so only member-less pieces meet the precondition.
   */
  lemma {:induction false} SplitJoinRoundTrip(items: seq<string>)
    requires |items| >= 1
    requires forall i :: 0 <= i < |items| ==> ',' !in items[i]
    ensures SplitCommas(Join(items)) == items
    decreases |items|
  {
    if |items| == 1 {
      SplitWithoutComma(items[0]);
    } else {
      SplitAtFirstComma(items[0], Join(items[1..]));
      SplitJoinRoundTrip(items[1..]);
      assert [items[0]] + items[1..] == items;
    }
  }

  // ---------------------------------------------------------------------
  // Numbers
  // ---------------------------------------------------------------------

  predicate IsDigit(c: char) {
    '0' <= c <= '9'
  }

  predicate AllDigits(s: string) {
    forall i :: 0 <= i < |s| ==> IsDigit(s[i])
  }

  function DigitChar(d: nat): (c: char)
    requires d < 10
    ensures IsDigit(c)
  {
    (48 + d) as char
  }

  /** Decimal text of a natural number, most significant digit first. */
  function NatToString(n: nat): (r: string)
    ensures |r| >= 1 && AllDigits(r)
    ensures |r| > 1 ==> r[0] != '0'
    decreases n
  {
    if n < 10 then [DigitChar(n)] else NatToString(n / 10) + [DigitChar(n % 10)]
  }

  /** Decimal text of an integer: a minus sign before the magnitude when negative. */
  function IntToString(i: int): (r: string)
    ensures |r| >= 1
    ensures (i < 0) == (r[0] == '-')
  {
    if i < 0 then "-" + NatToString(-i) else NatToString(i)
  }

  /** The value of a run of decimal digits: the reading side of `NatToString`. */
  function DigitsValue(s: string): nat
    requires AllDigits(s)
    decreases |s|
  {
    if |s| == 0 then 0 else DigitsValue(s[..|s| - 1]) * 10 + (s[|s| - 1] as int - 48)
  }

  function IntValue(s: string): int
    requires |s| >= 1
    requires if s[0] == '-' then AllDigits(s[1..]) else AllDigits(s)
  {
    if s[0] == '-' then 0 - DigitsValue(s[1..]) else DigitsValue(s)
  }

  lemma {:induction false} NatToStringRoundTrip(n: nat)
    ensures DigitsValue(NatToString(n)) == n
    decreases n
  {
    if n >= 10 {
      var s := NatToString(n);
      assert s[..|s| - 1] == NatToString(n / 10);
      NatToStringRoundTrip(n / 10);
    }
  }

  lemma IntToStringRoundTrip(i: int)
    ensures var s := IntToString(i); (if s[0] == '-' then AllDigits(s[1..]) else AllDigits(s)) && IntValue(s) == i
  {
    var s := IntToString(i);
    if i < 0 {
      assert s[1..] == NatToString(-i);
      NatToStringRoundTrip(-i);
    } else {
      NatToStringRoundTrip(i);
    }
  }

  // ---------------------------------------------------------------------
  // Layout names
  // ---------------------------------------------------------------------

  function LayoutTypeName(t: LayoutType): string {
    match t
    case Uniform => "uniform"
    case In => "in"
    case Out => "out"
    case Empty => ""
  }

  function LayoutIdName(id: LayoutIdentifier): string {
    match id
    case Location => "location"
    case Binding => "binding"
  }

  /** The storage qualifier named by a printed layout type. */
  function LayoutTypeOfName(s: string): (r: Option<LayoutType>)
    ensures r.Some? ==> LayoutTypeName(r.value) == s
  {
    if s == "uniform" then Some(Uniform)
    else if s == "in" then Some(In)
    else if s == "out" then Some(Out)
    else if s == "" then Some(Empty)
    else None
  }

  /** Different qualifiers and different keys print differently. */
  lemma LayoutNamesRoundTrip(t: LayoutType, a: LayoutIdentifier, b: LayoutIdentifier)
    ensures LayoutTypeOfName(LayoutTypeName(t)) == Some(t)
    ensures LayoutIdName(a) == LayoutIdName(b) ==> a == b
  {
  }

  // ---------------------------------------------------------------------
  // Expressions
  // ---------------------------------------------------------------------

  /** An expression's text: its class name, then the members that class prints. */
  function ExprString(n: Names, e: Expr): string
    decreases e, 3
  {
    Object(ExprClass(e), ExprFields(n, e))
  }

  function ExprFields(n: Names, e: Expr): string
    decreases e, 2
  {
    match e
    case Conditional(c, t, f) =>
      Field("condition", ExprString(n, c)) + Field("then", ExprString(n, t)) + Field("else", ExprString(n, f))
    case Binary(op, l, r) =>
      Field("operator", Str(n.exprType(op))) + Field("left", ExprString(n, l)) + Field("right", ExprString(n, r))
    case Prefix(op, x) =>
      Field("operator", Str(n.exprType(op))) + Field("operand", ExprString(n, x))
    case Postfix(op, x, member) =>
      Field("operator", Str(n.exprType(op))) + Field("identifier", Str(member)) + Field("LHS", ExprString(n, x))
    case Sequence(items) =>
      Field("expressions", Bracketed(ExprStrings(n, items)))
    case Call(callee, args) =>
      Field("callee", callee) + Field("args", ExprListString(n, args))
    case Construct(ty, args) =>
      Field("astType", Str(n.astType(ty))) + Field("args", ExprListString(n, args))
    case Number(text, ty) =>
      Field("astType", Str(n.astType(ty))) + Field("value", text)
    case Variable(name) =>
      Field("identifier", Str(name))
    case VariableIndex(name, index) =>
      Field("identifier", Str(name)) + Field("index", ExprString(n, index))
  }

  /** An argument list prints as a node of its own. */
  function ExprListString(n: Names, es: seq<Expr>): string
    decreases es, 1
  {
    Object("ExprListAST", Field("exprs", Bracketed(ExprStrings(n, es))))
  }

  function ExprStrings(n: Names, es: seq<Expr>): (r: seq<string>)
    ensures |r| == |es|
    ensures forall i :: 0 <= i < |es| ==> r[i] == ExprString(n, es[i])
    decreases es, 0
  {
    if |es| == 0 then [] else [ExprString(n, es[0])] + ExprStrings(n, es[1..])
  }

  /** The class whose printer handles an expression node. */
  function ExprClass(e: Expr): (cls: string)
    ensures '"' !in cls
  {
    match e
    case Conditional(_, _, _) => "ConditionalExpressionAST"
    case Binary(_, _, _) => "BinaryExpressionAST"
    case Prefix(_, _) => "PrefixExpressionAST"
    case Postfix(_, _, _) => "PostfixExpressionAST"
    case Sequence(_) => "SequenceExpressionAST"
    case Call(_, _) => "FunctionCallAST"
    case Construct(_, _) => "TypeConstructorAST"
    case Number(_, _) => "NumberExprAST"
    case Variable(_) => "VariableExprAST"
    case VariableIndex(_, _) => "VariableIndexExprAST"
  }

  // ---------------------------------------------------------------------
  // Reading a node's class back
  // ---------------------------------------------------------------------

  /** The text before the first quote. */
  function UpToQuote(t: string): (r: string)
    ensures '"' !in r
    ensures r <= t
    decreases |t|
  {
    if |t| == 0 || t[0] == '"' then "" else [t[0]] + UpToQuote(t[1..])
  }

  /** The class name a printed node announces, if the text starts like a node. */
  function ClassOf(s: string): (r: Option<string>)
    ensures r.Some? ==> '"' !in r.value
    ensures r.Some? ==> TypeTag + r.value <= s
  {
    if |s| >= |TypeTag| && s[..|TypeTag|] == TypeTag then Some(UpToQuote(s[|TypeTag|..])) else None
  }

  lemma {:induction false} UpToQuoteStops(cls: string, rest: string)
    requires '"' !in cls
    ensures UpToQuote(cls + "\"" + rest) == cls
    decreases |cls|
  {
    var t := cls + "\"" + rest;
    if |cls| > 0 {
      assert t[1..] == cls[1..] + "\"" + rest;
      UpToQuoteStops(cls[1..], rest);
      assert [cls[0]] + cls[1..] == cls;
    }
  }

  /** A node's text announces the class it was printed with, whatever its fields. */
  lemma ObjectAnnouncesClass(cls: string, fields: string)
    requires '"' !in cls
    ensures ClassOf(Object(cls, fields)) == Some(cls)
  {
    var s := Object(cls, fields);
    assert s[..|TypeTag|] == TypeTag;
    assert s[|TypeTag|..] == cls + "\"" + (fields + "}");
    UpToQuoteStops(cls, fields + "}");
  }

  /** Reading the class back from an expression's text names the node that printed it. */
  lemma ExprAnnouncesItsClass(n: Names, e: Expr)
    ensures ClassOf(ExprString(n, e)) == Some(ExprClass(e))
  {
    var cls, fields := ExprClass(e), ExprFields(n, e);
    assert ExprString(n, e) == Object(cls, fields);
    ObjectAnnouncesClass(cls, fields);
  }

  /**
   * Adding a trailing member to a node's fields: the text is the shorter
   * node's text without its closing brace, then the member, then `}`.
   */
  lemma ObjectExtends(cls: string, fields: string, more: string)
    ensures var short := Object(cls, fields);
      |short| >= 1 && Object(cls, fields + more) == short[..|short| - 1] + more + "}"
  {
    var short := Object(cls, fields);
    assert short[..|short| - 1] == TypeTag + cls + "\"" + fields;
  }

  // ---------------------------------------------------------------------
  // Statements
  // ---------------------------------------------------------------------

  function SentenceString(n: Names, s: Sentence): string
    decreases s, 1
  {
    match s
    case EmptySentence => n.emptySentence
    case Block(ss) => SentencesString(n, ss)
    case ExprStmt(e) => ExprString(n, e)
    case If(g, t, els) =>
      if els.None? then
        Object("IfStatementAST", Field("condition", ExprString(n, g)) + Field("then", SentenceString(n, t)))
      else
        Object("IfStatementAST",
          Field("condition", ExprString(n, g)) + Field("then", SentenceString(n, t)) + Field("else", SentenceString(n, els.value)))
    case For(first, test, step, body) =>
      Object("ForStatementAST",
        Field("init", SentenceString(n, first)) + Field("condition", ExprString(n, test))
        + Field("step", ExprString(n, step)) + Field("body", SentenceString(n, body)))
    case Return(value) =>
      if value.None? then Object("ReturnStatementAST", "")
      else Object("ReturnStatementAST", Field("expr", ExprString(n, value.value)))
    case VarDef(ty, isConst, name, init) =>
      if init.None? then
        Object("VariableDefinitionAST",
          Field("astType", Str(n.astType(ty))) + Field("isConst", BoolString(isConst)) + Field("name", Str(name)))
      else
        Object("VariableDefinitionAST",
          Field("astType", Str(n.astType(ty))) + Field("isConst", BoolString(isConst)) + Field("name", Str(name))
          + Field("init", ExprString(n, init.value)))
  }

  /** A block prints as a `SentencesAST` node listing its statements. */
  function SentencesString(n: Names, ss: seq<Sentence>): string
    decreases ss, 2
  {
    Object("SentencesAST", Field("sentences", Bracketed(SentenceStrings(n, ss))))
  }

  function SentenceStrings(n: Names, ss: seq<Sentence>): (r: seq<string>)
    ensures |r| == |ss|
    ensures forall i :: 0 <= i < |ss| ==> r[i] == SentenceString(n, ss[i])
    decreases ss, 0
  {
    if |ss| == 0 then [] else [SentenceString(n, ss[0])] + SentenceStrings(n, ss[1..])
  }

  /** An `if` with an else branch prints as the one without, with `"else"` added as its last member. */
  lemma ElseIsAppended(n: Names, g: Expr, t: Sentence, x: Sentence)
    ensures var short := SentenceString(n, If(g, t, None));
      |short| >= 1 &&
      SentenceString(n, If(g, t, Some(x))) == short[..|short| - 1] + Field("else", SentenceString(n, x)) + "}"
  {
    ObjectExtends("IfStatementAST", Field("condition", ExprString(n, g)) + Field("then", SentenceString(n, t)),
      Field("else", SentenceString(n, x)));
  }

  /** A `return` with a value prints as the bare one, with `"expr"` added as its only member. */
  lemma ReturnValueIsAppended(n: Names, x: Expr)
    ensures var short := SentenceString(n, Return(None));
      |short| >= 1 &&
      SentenceString(n, Return(Some(x))) == short[..|short| - 1] + Field("expr", ExprString(n, x)) + "}"
  {
    ObjectExtends("ReturnStatementAST", "", Field("expr", ExprString(n, x)));
    assert "" + Field("expr", ExprString(n, x)) == Field("expr", ExprString(n, x));
  }

  /** A local definition with an initialiser prints as the one without, with `"init"` added last. */
  lemma InitIsAppended(n: Names, ty: AstType, isConst: bool, name: string, x: Expr)
    ensures var short := SentenceString(n, VarDef(ty, isConst, name, None));
      |short| >= 1 &&
      SentenceString(n, VarDef(ty, isConst, name, Some(x))) == short[..|short| - 1] + Field("init", ExprString(n, x)) + "}"
  {
    ObjectExtends("VariableDefinitionAST",
      Field("astType", Str(n.astType(ty))) + Field("isConst", BoolString(isConst)) + Field("name", Str(name)),
      Field("init", ExprString(n, x)));
  }

  // ---------------------------------------------------------------------
  // Definitions and the program
  // ---------------------------------------------------------------------

  function ArgumentString(n: Names, a: Argument): string {
    Object("FunctionArgumentAST", Field("astType", Str(n.astType(a.ty))) + Field("name", Str(a.name)))
  }

  function PrototypeString(n: Names, p: Prototype): string {
    Object("FunctionPrototypeAST",
      Field("returnAstType", Str(n.astType(p.returnType))) + Field("name", Str(p.name))
      + Field("args", Bracketed(seq(|p.args|, i requires 0 <= i < |p.args| => ArgumentString(n, p.args[i])))))
  }

  function QualifierIdString(q: QualifierId): string {
    Object("LayoutQualifierIdAST", Field("id", Str(LayoutIdName(q.id))) + Field("value", IntToString(q.value)))
  }

  function LayoutString(l: Layout): string {
    var ids := Object("LayoutQualifierAst",
      Field("ids", Bracketed(seq(|l.ids|, i requires 0 <= i < |l.ids| => QualifierIdString(l.ids[i])))));
    Object("LayoutAst", Field("astType", Str(LayoutTypeName(l.kind))) + Field("layoutQualifier", ids))
  }

  /** The members a global definition shares with a local one. */
  function DeclarationFields(n: Names, ty: AstType, isConst: bool, name: string): string {
    Field("astType", Str(n.astType(ty))) + Field("isConst", BoolString(isConst)) + Field("name", Str(name))
  }

  /**
   * A global definition. The printer has one case for each combination of
   * present and absent parts; all four share the members up to the name.
   */
  function GlobalVarString(n: Names, ty: AstType, isConst: bool, name: string, init: Option<Expr>, layout: Option<Layout>): string {
    Object("GlobalVariableDefinitionAST", DeclarationFields(n, ty, isConst, name) + GlobalVarTail(n, init, layout))
  }

  function GlobalVarTail(n: Names, init: Option<Expr>, layout: Option<Layout>): string {
    if init.None? && layout.None? then
      Field("init", "null") + Field("layout", "null")
    else if init.None? then
      Field("init", "null") + Field("layout", LayoutString(layout.value))
    else if layout.None? then
      Field("init", ExprString(n, init.value)) + Field("layout", "null")
    else
      Field("init", ExprString(n, init.value)) + Field("layout", LayoutString(layout.value))
  }

  /**
   * The four cases agree with one rule: both members are always present,
   * each printing its child or `null`.
   */
  lemma GlobalVarPrintsNullForAbsentParts(n: Names, init: Option<Expr>, layout: Option<Layout>)
    ensures GlobalVarTail(n, init, layout) ==
      Field("init", OrNull(if init.Some? then Some(ExprString(n, init.value)) else None))
      + Field("layout", OrNull(if layout.Some? then Some(LayoutString(layout.value)) else None))
  {
  }

  function DefinitionString(n: Names, d: Definition): string {
    match d
    case FunctionDef(proto, body) =>
      Object("FunctionDefinitionAST", Field("prototype", PrototypeString(n, proto)) + Field("body", SentencesString(n, body)))
    case GlobalVar(ty, isConst, name, init, layout) =>
      GlobalVarString(n, ty, isConst, name, init, layout)
  }

  function TopLevelString(n: Names, t: TopLevel): string {
    Object("TopLevelAST",
      Field("version", NatToString(t.version))
      + Field("definitions", Bracketed(seq(|t.definitions|, i requires 0 <= i < |t.definitions| => DefinitionString(n, t.definitions[i])))))
  }

  /** Every definition announces which of the two definition classes printed it. */
  lemma DefinitionAnnouncesItsClass(n: Names, d: Definition)
    ensures ClassOf(DefinitionString(n, d)) == Some(if d.FunctionDef? then "FunctionDefinitionAST" else "GlobalVariableDefinitionAST")
  {
    match d
    case FunctionDef(proto, body) =>
      ObjectAnnouncesClass("FunctionDefinitionAST", Field("prototype", PrototypeString(n, proto)) + Field("body", SentencesString(n, body)));
    case GlobalVar(ty, isConst, name, init, layout) =>
      ObjectAnnouncesClass("GlobalVariableDefinitionAST", DeclarationFields(n, ty, isConst, name) + GlobalVarTail(n, init, layout));
  }

  /** What a program's text starts with, up to the version's digits. */
  const TopLevelHead: string := TypeTag + "TopLevelAST" + "\"" + Key("version")

  /**
   * The program text announces its class; right after its head come the
   * version's digits and then the `"definitions"` key, and those digits read
   * back as the version.
   */
  lemma TopLevelRoundTrips(n: Names, t: TopLevel)
    ensures ClassOf(TopLevelString(n, t)) == Some("TopLevelAST")
    ensures var digits := NatToString(t.version);
      && TopLevelHead + digits + Key("definitions") <= TopLevelString(n, t)
      && AllDigits(digits) && DigitsValue(digits) == t.version
  {
    var digits := NatToString(t.version);
    var defs := Bracketed(seq(|t.definitions|, i requires 0 <= i < |t.definitions| => DefinitionString(n, t.definitions[i])));
    ObjectAnnouncesClass("TopLevelAST", Field("version", digits) + Field("definitions", defs));
    ObjectStartsWith("TopLevelAST", Key("version"), digits, Key("definitions"), defs);
    NatToStringRoundTrip(t.version);
  }

  /** A node whose first two members are `k1 v` and `k2 rest` starts with its class, `k1`, `v` and `k2`. */
  lemma ObjectStartsWith(cls: string, k1: string, v: string, k2: string, rest: string)
    ensures TypeTag + cls + "\"" + k1 + v + k2 <= Object(cls, (k1 + v) + (k2 + rest))
  {
    var a := TypeTag + cls + "\"";
    calc {
      Object(cls, (k1 + v) + (k2 + rest));
      a + ((k1 + v) + (k2 + rest)) + "}";
      { Assoc(k1 + v, k2, rest); }
      a + (((k1 + v) + k2) + rest) + "}";
      { Assoc(a, (k1 + v) + k2, rest); Assoc(a, k1 + v, k2); Assoc(a, k1, v); }
      (((a + k1) + v) + k2) + rest + "}";
    }
  }

  /** Concatenation regroups freely. */
  lemma Assoc(a: string, b: string, c: string)
    ensures a + (b + c) == (a + b) + c
  {
  }

  /** A declaration's text up to its constness: the class, the type's name, then the `"isConst"` key. */
  function DeclarationHead(n: Names, cls: string, ty: AstType): string {
    TypeTag + cls + "\"" + Field("astType", Str(n.astType(ty))) + Key("isConst")
  }

  /**
   * Constness prints as a bare `true` or `false` straight after the
   * `"isConst"` key, so the first character there tells a constant from a
   * variable.
   */
  lemma ConstnessIsPrinted(n: Names, ty: AstType, isConst: bool, name: string, init: Option<Expr>)
    ensures var local := SentenceString(n, VarDef(ty, isConst, name, init));
      var head := DeclarationHead(n, "VariableDefinitionAST", ty);
      && head + BoolString(isConst) + Key("name") <= local
      && (local[|head|] == 't' <==> isConst)
  {
    LocalDefinitionText(n, ty, isConst, name, init);
    DeclarationStart(n, "VariableDefinitionAST", ty, isConst, name, if init.None? then "" else Field("init", ExprString(n, init.value)));
  }

  /** A global definition prints its constness the same way as a local one. */
  lemma GlobalConstnessIsPrinted(n: Names, ty: AstType, isConst: bool, name: string, init: Option<Expr>, layout: Option<Layout>)
    ensures var global := DefinitionString(n, GlobalVar(ty, isConst, name, init, layout));
      var head := DeclarationHead(n, "GlobalVariableDefinitionAST", ty);
      && head + BoolString(isConst) + Key("name") <= global
      && (global[|head|] == 't' <==> isConst)
  {
    DeclarationStart(n, "GlobalVariableDefinitionAST", ty, isConst, name, GlobalVarTail(n, init, layout));
  }

  /** A local definition's members are those it shares with a global one, then its initialiser if any. */
  lemma LocalDefinitionText(n: Names, ty: AstType, isConst: bool, name: string, init: Option<Expr>)
    ensures SentenceString(n, VarDef(ty, isConst, name, init)) ==
      Object("VariableDefinitionAST",
        DeclarationFields(n, ty, isConst, name) + if init.None? then "" else Field("init", ExprString(n, init.value)))
  {
    var fields := DeclarationFields(n, ty, isConst, name);
    if init.None? {
      assert fields + "" == fields;
    }
  }

  /** A node whose members start with a declaration's begins with its head and constness. */
  lemma DeclarationStart(n: Names, cls: string, ty: AstType, isConst: bool, name: string, more: string)
    ensures var text := Object(cls, DeclarationFields(n, ty, isConst, name) + more);
      var head := DeclarationHead(n, cls, ty);
      head + BoolString(isConst) + Key("name") <= text && (text[|head|] == 't' <==> isConst)
  {
    var a, f1, k2, b, k3, nm := TypeTag + cls + "\"", Field("astType", Str(n.astType(ty))), Key("isConst"), BoolString(isConst), Key("name"), Str(name);
    var p := ((f1 + k2) + b) + k3;
    calc {
      Object(cls, DeclarationFields(n, ty, isConst, name) + more);
      a + (((f1 + (k2 + b)) + (k3 + nm)) + more) + "}";
      { Assoc(f1, k2, b); Assoc((f1 + k2) + b, k3, nm); }
      a + ((p + nm) + more) + "}";
      { Assoc(p, nm, more); Assoc(a, p, nm + more); }
      (a + p) + (nm + more) + "}";
      { Assoc(a, (f1 + k2) + b, k3); Assoc(a, f1 + k2, b); Assoc(a, f1, k2); }
      ((((a + f1) + k2) + b) + k3) + (nm + more) + "}";
    }
  }
}
