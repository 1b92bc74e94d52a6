# GLSL-subset front end: a Dafny model

This project models the front end of a small compiler for a subset of GLSL.
It covers five pieces:

- the backtracking recursive-descent parser, which turns a token array into a syntax tree;
- the syntax tree with its two analyses: the type an expression reports (`getReturnType`) and whether a statement returns (`isReturn`);
- the chain of lexical scopes;
- the JSON-like debug printer (`toString`);
- the decisions the code generator makes without its IR library:
  - the type-to-shape map;
  - swizzle lanes;
  - the integer values of the logical operators;
  - the integer-only operator checks;
  - how the current scope moves across blocks and functions;
  - how unterminated blocks are closed.

The modules follow the program's files:

| module | file | models |
|---|---|---|
| `Wrappers` | `wrappers.dfy` | `Option` |
| `Types` | `types.dfy` | the `AstType`, `ExprType`, layout-type and layout-identifier enumerations |
| `Tokens` | `tokens.dfy` | tokens, `Peek`, and the `Lexicon` of token classifiers |
| `Scopes` | `scopes.dfy` | `include/scope.h` |
| `Ast` | `ast.dfy` | `include/ast.h`: nodes, `getReturnType`, `isReturn` |
| `Terminals` | `terminals.dfy` | number, type and identifier parsers |
| `ExprParser` | `expr_parser.dfy` | the expression precedence ladder of `src/parser.cpp` |
| `StmtParser` | `stmt_parser.dfy` | layouts, definitions, statements, `#version`, the whole program |
| `Serializer` | `serializer.dfy` | `src/ast.cpp` |
| `Lowering` | `lowering.dfy` | the IR-independent parts of `src/generator.cpp` |

## Conventions

**Parse results.** A parse result is `Ok(value, next)` or `Fail(at)`. The failure carries the cursor the parser leaves behind. That is often not the position the parse started from: after `a +` with no right operand, the cursor stays just past the `+`.

**Reading past the end.** The token array is read through `Peek`, which answers an end-of-file token past the end.

**Token classifiers.** The classifiers `isAstType` … `isPostfix`, `tokenToExprType` and the `stoi` used for layout values have no bodies in the files modelled. They are fields of a `Lexicon` value that every parser takes. The model assumes only that no classifier accepts the end-of-file token.

**Name tables.** The tables `astTypeToString` and `exprTypeToString` are fields of a `Names` value that the printer takes. So is the text of an empty statement, whose printer is declared but never defined.

**Undefined behaviour.** Where the source has undefined behaviour, the model answers `None` or excludes the case by a precondition. This covers:
- a `getReturnType` path that falls off the end;
- dereferencing a failed scope lookup;
- an unlowerable type given to `getTypeFromAstType`.

Two cases of statement lowering are the exception; the Left out line for `Lowering.LowerSentence` names them.

**`for` headers.** A `for` header's first clause is tried as an expression before a variable definition, as the code does (src/parser.cpp:1327-1340).

## Model

| member | source | states |
|---|---|---|
| Scopes.Root | include/scope.h:19 | a default scope has no parent and a single empty frame |
| Scopes.ChildOf | include/scope.h:21 | a scope made from a parent adds one empty frame in front of the parent's frames |
| Scopes.Add | include/scope.h:23-26 | the added name resolves to the new type and value; every other name resolves as before; the parent and all enclosing frames are unchanged |
| Scopes.LookupIsNearest | include/scope.h:39-48 | lookup fails exactly when no frame of the chain binds the name; otherwise it returns the binding of the innermost frame that has the name |
| Scopes.ShadowingIsUndoneByPop | include/scope.h:23-48 | a binding in a child scope shadows the parent's; the child's parent is the original scope, and every other name resolves in the child as in the parent |
| Scopes.SetValueUpdatesNearest | include/scope.h:28-34 | setting a value changes the value of the nearest binding and keeps its type; on a name bound nowhere the scope is returned unchanged |
| Scopes.SetValueFramesOthers | include/scope.h:28-34 | setting a value leaves every other name's resolution, the number of frames and every frame's key set unchanged |
| Scopes.ParentOfFreshScopes | include/scope.h:19-37 | a default scope has no parent and binds nothing; a child scope's parent is the scope it was made from, and it resolves every name as that scope does |
| Ast.ExprNeverReturns | include/ast.h:141-174 | no expression counts as returning, whatever its children |
| Ast.NoExprReturns | include/ast.h:259-263 | no list of expressions contains a returning one |
| Ast.BlockReturnsIffSomeChild | include/ast.h:96-102 | a block returns if and only if one of its statements returns |
| Ast.IfReturnsIffBothBranches | include/ast.h:365-369 | an `if` returns if and only if it has an else branch and both branches return |
| Ast.ReturnsContainReturn | include/ast.h:415-436 | a statement the analysis calls returning contains a `return` statement |
| Ast.ReturnTypeIgnoresOtherNames | include/ast.h:474-476 | an expression's type does not depend on the binding of a name it does not mention |
| Ast.VariableTypesFollowTheirBinding | include/ast.h:497-511 | a variable reports its binding's type; an indexed mat2, mat3 or mat4 reports vec2, vec3 or vec4, and any other type reports the error type |
| Ast.UnboundVariableHasNoType | include/ast.h:474-476 | a variable bound nowhere in the chain has no type, plain or indexed |
| Terminals.ParseNumber | src/parser.cpp:31-55 | succeeds exactly on a number token, consuming one token; the literal is float with both `.` and `f`, double with `.` only, and int otherwise; on failure the cursor is unchanged |
| Terminals.ParseType | src/parser.cpp:205-261 | a type is read exactly from the eleven type keywords and number tokens, consuming one token; anything else gives the error type with the cursor unchanged |
| Terminals.ParseIdentifier | src/parser.cpp:263-274 | succeeds exactly on an identifier token, returning its text and consuming one token; otherwise the cursor is unchanged |
| Terminals.TypeKeywordRoundTrip | src/parser.cpp:209-243 | at any cursor, a keyword of a type the parser knows is read back as that type, consuming exactly that token |
| Terminals.NumberTypeAgreesWithLiteral | src/parser.cpp:244-255 | on a number token the type parser and the literal parser agree on both type and cursor |
| ExprParser.ParsePrimary | src/parser.cpp:483-611 | a successful primary consumes at least one token and ends inside the stream; a failure never moves the cursor backwards |
| ExprParser.ParsePostfix | src/parser.cpp:613-666 | a successful postfix expression consumes at least one token and ends inside the stream |
| ExprParser.PostfixRest | src/parser.cpp:613-666 | the postfix loop never moves the cursor backwards and stays inside the stream |
| ExprParser.ParsePrefix | src/parser.cpp:668-698 | a failed prefix parse leaves the cursor at the start, or just past a prefix operator |
| ExprParser.PrefixShape | src/parser.cpp:668-698 | the prefix grammar rule spelled out case by case, as the code builds it: `op x` yields the prefix node of `op`'s operator over the prefix expression `x`, and fails just past `op` when `x` does not parse; without a prefix operator the result is the postfix expression, whose failure is reported at the start |
| ExprParser.ParseOperand | src/parser.cpp:700-1077 | the operand of every binary level, from the prefix level up, consumes at least one token when it succeeds |
| ExprParser.ParseLevel | src/parser.cpp:700-1077 | a binary level consumes at least one token when it succeeds and never moves the cursor backwards |
| ExprParser.LevelRest | src/parser.cpp:700-1077 | every tree a binary level builds has the first operand at the bottom of its left spine |
| ExprParser.LevelFoldsLeft | src/parser.cpp:700-733 | `a op b op c` parses as `(a op b) op c`, with operands from the next tighter level |
| ExprParser.LevelFailsPastOperator | src/parser.cpp:716-727 | when the operand after an operator fails, the level fails with the cursor just past the operator |
| ExprParser.LevelTypeIsFirstOperandType | src/parser.cpp:700-1077 | a binary chain reports the type of its first operand |
| ExprParser.SpineKeepsType | include/ast.h:157-162 | a binary node reports its left operand's type, all the way down the left spine |
| ExprParser.ParseConditional | src/parser.cpp:1081-1135 | a conditional expression consumes at least one token when it succeeds |
| ExprParser.ConditionalShape | src/parser.cpp:1081-1135 | `c ? t : f` yields the conditional node of `c`, `t` and `f`, where `c` is a logical-or expression, `t` a full expression and `f` an assignment expression, and the cursor ends after `f` |
| ExprParser.ConditionalWithoutQuestion | src/parser.cpp:1083-1101 | the conditional rule's first two cases spelled out as the code has them: a missing condition fails at the start; without `?` after it, the condition is the whole result |
| ExprParser.ConditionalFailures | src/parser.cpp:1103-1132 | the conditional rule's failure cursors spelled out as the code has them: after `?`, a missing middle expression fails just past `?`, a missing `:` fails where the `:` should be, and a missing last part fails just past `:` |
| ExprParser.ParseAssignment | src/parser.cpp:1137-1173 | an assignment consumes at least one token when it succeeds |
| ExprParser.ParseSequence | src/parser.cpp:1175-1213 | a comma expression consumes at least one token when it succeeds |
| ExprParser.AssignmentIsNotChained | src/parser.cpp:1137-1173 | an assignment takes one operator with a conditional expression on each side, so assignments do not chain |
| ExprParser.SequenceShape | src/parser.cpp:1175-1213 | without a comma the sequence parser returns the lone operand itself; with one it returns a sequence node of at least two operands that are every operand written, in source order and comma-separated, starting with that operand; no comma follows the result |
| ExprParser.SequenceRestOperands | src/parser.cpp:1175-1213 | the comma loop stops only where no comma follows, and the operands it adds are the assignment expressions written after the comma, each parsed where the previous one and its comma end |
| ExprParser.SequenceRest | src/parser.cpp:1175-1213 | the operands collected so far are kept in order, and the cursor moves only when an operand is added |
| ExprParser.ParseExpression | src/parser.cpp:1215-1230 | a failed expression leaves the cursor where it started |
| ExprParser.ParseExprList | src/parser.cpp:443-481 | an argument list has at least one element; it fails at its start or at a comma |
| ExprParser.ExprListRest | src/parser.cpp:443-481 | the arguments read so far are kept in order, and a failure is always reported at a comma |
| ExprParser.ExprListRestOperands | src/parser.cpp:443-481 | the argument loop stops only where no comma follows, and the arguments it adds are those written after the comma, each parsed where the previous one and its comma end |
| ExprParser.ExprListOperands | src/parser.cpp:443-481 | an argument list that parses holds every argument written, in source order and comma-separated, and no comma follows it |
| ExprParser.DotAcceptsAnyName | src/parser.cpp:640-649 | `.name` is accepted for any identifier and the postfix loop continues |
| ExprParser.DotNeedsIdentifier | src/parser.cpp:640-649 | a `.` not followed by an identifier fails at the dot |
| ExprParser.IncrementEndsPostfix | src/parser.cpp:620-639 | `++` or `--` makes one postfix node and ends the postfix loop |
| ExprParser.EmptyCall | src/parser.cpp:483-611 | `f()` is a call with no arguments |
| StmtParser.ParseQualifierId | src/parser.cpp:57-97 | a layout id is `location` or `binding`; without `=` its value is -1 and one token is consumed; with `=` three tokens are consumed |
| StmtParser.QualifierIdsFrom | src/parser.cpp:99-125 | the id loop keeps the ids already read and stops where no id can be parsed |
| StmtParser.ParseQualifierIdList | src/parser.cpp:99-125 | an id list has at least one id; an empty one fails at its start |
| StmtParser.ParseLayoutQualifier | src/parser.cpp:127-172 | a layout qualifier starts with the `layout` keyword |
| StmtParser.ParseLayout | src/parser.cpp:174-203 | a parsed layout has a storage qualifier and at least one id |
| StmtParser.ParseGlobalVariableDefinition | src/parser.cpp:326-372 | a global definition is never const, has no initialiser, is not void or error-typed, and ends with its `;` consumed |
| StmtParser.GlobalDeclaration | src/parser.cpp:340-372 | after the optional layout, a global definition keeps that layout, is not void or error-typed, and ends with its `;` consumed |
| StmtParser.ParseVariableDefinition | src/parser.cpp:374-441 | a local definition has an initialiser and a usable type; it is const exactly when it starts with `const`; it stops at the `;` without consuming it |
| StmtParser.DefinitionStatementConsumesSemicolon | src/parser.cpp:1257-1270 | as a statement, a local definition also consumes its `;` |
| StmtParser.ParseSentence | src/parser.cpp:1232-1421 | a failed statement leaves the cursor at its start, except a failed `for`, which may leave it past `for (` |
| StmtParser.ParseIf | src/parser.cpp:1272-1313 | a failed `if` resets the cursor to the statement start |
| StmtParser.IfCondition | src/parser.cpp:1275-1292 | the condition of an `if` is an expression between `(` and `)`, both consumed; a failure resets the cursor |
| StmtParser.IfElse | src/parser.cpp:1299-1313 | the `if` keeps its condition and then-branch, and has an else branch exactly when `else` follows the then-branch |
| StmtParser.ForInit | src/parser.cpp:1327-1340 | a `for` header's first clause is an expression whenever one parses, and a variable definition otherwise |
| StmtParser.ParseFor | src/parser.cpp:1315-1380 | a failed `for` leaves the cursor at the `for` or past `for (` |
| StmtParser.ForHeader | src/parser.cpp:1325-1370 | the three clauses of a `for` header end with the `)` consumed |
| StmtParser.ForBody | src/parser.cpp:1371-1380 | a `for` keeps the three clauses of its header, and a failing body reports the position after `for (` |
| StmtParser.ParseReturn | src/parser.cpp:1382-1404 | a `return` has no value exactly when `;` follows it; a failure resets the cursor |
| StmtParser.ParseExprStatement | src/parser.cpp:1406-1421 | an expression statement ends with its `;` consumed; a failure resets the cursor |
| StmtParser.ParseSentences | src/parser.cpp:1423-1440 | the statement loop stops exactly where no further statement parses |
| StmtParser.ParamsFrom | src/parser.cpp:1479-1525 | a parameter list keeps the parameters read so far, in order |
| StmtParser.ParamsCloseWithParen | src/parser.cpp:1479-1525 | a parameter list that parses ends with its `)` consumed |
| StmtParser.ParseParam | src/parser.cpp:1487-1509 | a parameter has a type the type parser reads, `void` included |
| StmtParser.TrailingCommaInParameters | src/parser.cpp:1479-1525 | after any parameter, a `,` directly followed by `)` ends the list: that parameter is the last one and the cursor moves past the `)` |
| StmtParser.ParseFunctionHeader | src/parser.cpp:1442-1525 | a function header has a known return type and spans at least four tokens |
| StmtParser.FunctionHeaderShape | src/parser.cpp:1442-1525 | a header that parses is the prototype of the return type, name and parameter list read, and ends where the parameter list ends |
| StmtParser.ParseFunctionDefinition | src/parser.cpp:1442-1574 | a function definition has a known return type and spans at least six tokens |
| StmtParser.FunctionDefinitionShape | src/parser.cpp:1527-1574 | a definition whose header, `{`, statements and `}` parse is that header's prototype with the statements read, and ends after the `}` |
| StmtParser.ParseVersion | src/parser.cpp:1576-1592 | without `#version` the result is -1 and one token is skipped; with it two tokens are consumed, a number spelled with `.` or `f` gives -1, and any other spelling gives its integer value |
| StmtParser.DefinitionAt | src/parser.cpp:1604-1624 | a function definition is preferred; a global definition is taken only when no function definition parses; it fails exactly when neither parses |
| StmtParser.DefinitionsFrom | src/parser.cpp:1594-1626 | the definition loop keeps the definitions read so far and succeeds only at end of file; a position before end of file where neither a function nor a global definition parses fails the whole list |
| StmtParser.DefinitionsAfterRun | src/parser.cpp:1594-1626 | after a run of definitions that parse one after another, the loop continues where the run ended with the run appended in order |
| StmtParser.Extend | src/parser.cpp:1594-1626 | a definition just read is kept after those before it, and the rest of the program is read to end of file |
| StmtParser.ParseDefinitions | src/parser.cpp:1594-1626 | the definitions start with the synthesized `vec4 gl_Position` global and end at end of file |
| StmtParser.ParseProgram | src/parser.cpp:1628-1651 | the status is 0 or -1; an empty stream gives 0 and no tree; a stream not starting with `#version`, a version spelled with `.` or `f`, or definitions that fail give -1; a program whose version is valid and whose definitions parse is accepted with status 0 and the tree; a tree is always the version, as an unsigned 64-bit value, and the definitions parsed, starting with `gl_Position` |
| StmtParser.UnparsableDefinitionRejectsProgram | src/parser.cpp:1594-1651 | after any run of definitions that parse, a position before end of file where neither a function nor a global definition parses rejects the program |
| StmtParser.QualifierIdWithValue | src/parser.cpp:57-97 | `location = N` and `binding = N` carry the integer N |
| StmtParser.LayoutIdsAreJuxtaposed | src/parser.cpp:105-117 | two layout ids written side by side with no comma form one list |
| StmtParser.CommaAfterLayoutIdFails | src/parser.cpp:127-203 | a comma between layout ids makes the layout fail |
| Serializer.JoinByAppending | src/ast.cpp:62-73 | the append-a-comma-then-drop-the-last-character loop yields the elements joined by single commas: no trailing comma, and nothing at all for an empty list |
| Serializer.SplitCommas | src/ast.cpp:256-267 | splitting a text at its commas yields at least one piece |
| Serializer.JoinSnoc | src/ast.cpp:98-109 | joining one more element adds exactly one comma and the element |
| Serializer.SplitJoinRoundTrip | src/ast.cpp:256-267 | a general fact about the join, not about printed lists: splitting a joined list of comma-free texts at its commas gives back the list; the printed members themselves contain commas, so it applies only to member-less pieces |
| Serializer.NatToString | src/ast.cpp:203-216 | a version prints as a non-empty run of digits with no leading zero |
| Serializer.IntToString | src/ast.cpp:224-230 | a layout value prints as a non-empty text that starts with `-` exactly when the value is negative |
| Serializer.NatToStringRoundTrip | src/ast.cpp:203-216 | the printed version reads back as the version |
| Serializer.IntToStringRoundTrip | src/ast.cpp:224-230 | the printed layout value, including -1, reads back as the value |
| Serializer.LayoutTypeOfName | src/ast.cpp:14-26 | a storage-qualifier name is recognised only when it is the printed name of that qualifier |
| Serializer.LayoutNamesRoundTrip | src/ast.cpp:14-36 | each storage qualifier's printed name maps back to it, and the two layout keys print differently |
| Serializer.ExprStrings | src/ast.cpp:62-73 | the printed list has one text per expression, each that expression's text, in order |
| Serializer.SentenceStrings | src/ast.cpp:98-109 | the printed block has one text per statement, each that statement's text, in order |
| Serializer.ClassOf | src/ast.cpp:38-43 | a class name read from a text is quote-free and follows the type tag at the start of the text |
| Serializer.ExprClass | src/ast.cpp:38-176 | no expression class name contains a quote, so the name ends where the printed name ends |
| Serializer.ExprAnnouncesItsClass | src/ast.cpp:38-60 | every expression's text starts with the class name of the node that printed it, and reading that name back gives the node's class |
| Serializer.ObjectAnnouncesClass | src/ast.cpp:38-43 | a node's text can be read back to its class name whatever its members |
| Serializer.ObjectExtends | src/ast.cpp:111-119 | a node with one more trailing member prints as the shorter node without its `}`, then the member, then `}` |
| Serializer.ElseIsAppended | src/ast.cpp:111-119 | an `if` with an else branch prints as the one without, with one `"else"` member inserted before the closing brace and the other members unchanged |
| Serializer.ReturnValueIsAppended | src/ast.cpp:154-159 | a `return` with a value prints as the bare one, with one `"expr"` member inserted before the closing brace |
| Serializer.InitIsAppended | src/ast.cpp:184-195 | a local definition with an initialiser prints as the one without, with one `"init"` member inserted before the closing brace |
| Serializer.LocalDefinitionText | src/ast.cpp:184-195 | a local definition prints the members it shares with a global one, then its initialiser when it has one |
| Serializer.ConstnessIsPrinted | src/ast.cpp:184-195 | a local definition's constness prints as a bare `true` or `false` straight after the `"isConst"` key, so the character there is `t` exactly for a constant |
| Serializer.GlobalConstnessIsPrinted | src/ast.cpp:231-254 | a global definition prints its constness the same way, in all four of its cases |
| Serializer.GlobalVarPrintsNullForAbsentParts | src/ast.cpp:231-254 | all four cases of the global printer follow one rule: `"init"` and `"layout"` are always present, each holding its child's text or `null` |
| Serializer.DefinitionAnnouncesItsClass | src/ast.cpp:178-254 | a definition's text names the function or global definition class that printed it |
| Serializer.TopLevelRoundTrips | src/ast.cpp:203-216 | the program text names its class; right after `"version":` come the version's digits and then the `"definitions"` key, and those digits read back as the version |
| Lowering.ShapeOfCoversLowerableTypes | src/generator.cpp:41-69 | the shape map is defined exactly on int, bool, float, double, vec2-4, mat2-4 and void; only int and bool give integers, and no type gives the one-bit integer; a matrix has the square of its row's lane count |
| Lowering.SwizzleIndex | src/generator.cpp:975-994 | a member that selects a lane selects one of the four lanes 0 to 3 |
| Lowering.SwizzleRoundTrip | src/generator.cpp:975-994 | `x`, `y`, `z`, `w` select lanes 0 to 3, and no other member selects a lane |
| Lowering.LowerDot | src/generator.cpp:975-1011 | a member other than `x`, `y`, `z`, `w` is rejected; for an operand that yields a value, an accepted member yields an element pointer exactly when the operand's type lowers to a vector, and the lane is the one the member names |
| Lowering.DotIgnoresVectorWidth | src/generator.cpp:975-1011 | the lane is not checked against the vector width: on every vector-shaped type each member yields its own lane, which lies past the vector's end exactly for `.z` and `.w` on a vec2 and `.w` on a vec3 |
| Lowering.AndExprComputesOr | src/generator.cpp:297-314 | `&&` as written is 0 only when both operands are 0, which is logical or |
| Lowering.OrExprComputesAnd | src/generator.cpp:315-332 | `\|\|` as written is 1 only when both operands are non-zero, which is logical and |
| Lowering.XorExprIsConstant | src/generator.cpp:333-353 | `^^` as written is 1 for every pair of operands |
| Lowering.NotExprKeepsTruth | src/generator.cpp:912-923 | `!` as written is 0 when its operand is 0 and 1 otherwise, so it keeps the operand's truth |
| Lowering.LogicalAnd | src/generator.cpp:297-314 | the corrected `&&` is non-zero exactly when both operands are, with values 0 and 1 |
| Lowering.LogicalOr | src/generator.cpp:315-332 | the corrected `\|\|` is non-zero exactly when either operand is, with values 0 and 1 |
| Lowering.LogicalXor | src/generator.cpp:333-353 | the corrected `^^` is non-zero exactly when one operand is |
| Lowering.LogicalNot | src/generator.cpp:912-923 | the corrected `!` is non-zero exactly when its operand is 0 |
| Lowering.LogicalLaws | src/generator.cpp:297-353 | the corrected operators obey De Morgan's laws and double negation |
| Lowering.CheckIntegerOperands | src/generator.cpp:282-413 | a missing operand aborts silently; `%` is emitted only for integer declared types, the other operators only for integer loaded values, 32-bit or one-bit |
| Lowering.IntegerCheckIsExact | src/generator.cpp:282-413 | with both operands lowered, the operation is emitted if and only if both loaded values are 32-bit or one-bit integers; `%` accepts exactly int and bool declarations |
| Lowering.ComparisonShape | src/generator.cpp:414-495 | a comparison yields an integer: `<` the one-bit result of the float comparison, every other comparison that result widened to 32 bits |
| Lowering.ComparisonsAreIntegerOperands | src/generator.cpp:282-495 | a comparison's value, one-bit or widened, passes the integer check of every integer-only operator other than `%`, on either side |
| Lowering.LowerVariable | src/generator.cpp:1313-1321 | a variable lowers to the value of the innermost frame that binds its name |
| Lowering.IndexingAgreesWithTypeInference | src/generator.cpp:1323-1376 | the row shape of an indexed matrix is the shape of the type the tree reports, and there is none exactly when that type is the error type |
| Lowering.LowerSentence | src/generator.cpp:1123-1136 | lowering a statement keeps the enclosing scope chain, and lowering a block leaves the current scope exactly as it was |
| Lowering.LowerBlockBody | src/generator.cpp:1123-1136 | lowering a block's statements in order keeps the parent of the scope they run in |
| Lowering.OnlyDeclaredNamesChange | src/generator.cpp:1423-1453 | a statement changes the binding of no name except those it defines with an initialiser outside nested blocks |
| Lowering.DefinitionBindsItsName | src/generator.cpp:1423-1453 | a definition with an initialiser binds its name in the current scope; one without binds nothing |
| Lowering.BlockRestoresScope | src/generator.cpp:1123-1136 | after a block every name resolves as before it |
| Lowering.ForVariableOutlivesLoop | src/generator.cpp:1243-1283 | a `for` header's definition stays visible after the loop |
| Lowering.ElseSkippedAfterEmptyThen | src/generator.cpp:1144-1203 | with an else branch, any then-branch that yields no value stops the `if` before the else branch, in the scope the then-branch left |
| Lowering.BindParams | src/generator.cpp:1099-1121 | binding the parameters keeps the scope's parent |
| Lowering.BindParamsUntouched | src/generator.cpp:1099-1121 | binding the parameters leaves a name no parameter has resolving as before |
| Lowering.BindParamsResolves | src/generator.cpp:1099-1121 | after the parameters are bound, each parameter not followed by another of the same name resolves to its position; other names resolve as before |
| Lowering.ParametersVisibleInBody | src/generator.cpp:1378-1409 | inside a function body the parameters resolve to their positions and every other name resolves as in the enclosing scope |
| Lowering.LowerFunction | src/generator.cpp:1378-1409 | lowering a function definition leaves the current scope as it found it |
| Lowering.GlobalsLandInTopScope | src/generator.cpp:1303-1311 | after the program, a name resolves to its last global definition, or as before when there is none; functions leave no trace |
| Lowering.CompleteTerminators | src/generator.cpp:1410-1421 | every block ends terminated with its name kept; already-terminated blocks are untouched; the rest get `ret void` in a void function and a zero return otherwise |
| Lowering.CompletionIsIdempotent | src/generator.cpp:1410-1421 | completing the blocks a second time changes nothing |

## Left out

- LLVM IR emission is not modelled: builder calls, GEPs, branches and phis, vector splats, and the `toDouble`/`doubleTo` floating-point conversions. Arithmetic, comparison and assignment lowering are left out for the same reason. What remains is each operator's integer check and the logical operators' integer values.
- Number-literal conversion (`stoi`, `stof`, `stod`) is not modelled. The integer value of a layout id is `Lexicon.toInt`, left uninterpreted.
- StmtParser.ParseVersion: does not model `std::stoi` throwing on a spelling that is not a number or lies outside the 32-bit `int` range; the version is `Lexicon.toInt` of the spelling, an unbounded integer.
- StmtParser.ParseQualifierId: does not model `std::stoi` throwing on a layout value outside the 32-bit `int` range; the value is `Lexicon.toInt` of the spelling, an unbounded integer.
- The token classifiers, `tokenToExprType`, `astTypeToString` and `exprTypeToString` are parameters, because their bodies are not part of this model.
- Writing the module to a file, `InitializeModule` and the never-read `scopeSet` registry are left out as I/O and bookkeeping.
- The tokenizer, the driver, the logging code and the unused precedence table are not part of this model.
- The `toString` printers of while, do-while, break and continue statements are not modelled. Their classes are not declared in the tree header.
- `ParseLayoutVariableDefinition` (src/parser.cpp:276-324) is not modelled. Nothing calls it, and it behaves like the global definition parser.
- Lowering.LowerSentence: assumes that an initialiser always lowers and abstracts whether any other expression yields a value as the parameter `lowers`. Expression emission is not modelled.
- Lowering.LowerSentence: gives two undefined-behaviour cases a defined result instead of excluding them. A `return e` whose `e` yields no value counts as producing one, though the source dereferences the null value (src/generator.cpp:1209-1216). A `for` whose condition yields no value is lowered like any other loop, though the source hands the null value to `CreateCondBr` (src/generator.cpp:1257-1266). The scope the statement leaves does not depend on either case.
- Lowering.LowerDot: does not model the unchecked cast of the operand to a variable node, which only reads the name and never uses it.
- Lowering.LowerDot: assumes that the operand yields a value. The source never checks it (src/generator.cpp:995-1007), so an operand such as a call to an undefined function hands a null value to `CreateGEP`, which is undefined behaviour. The model answers the element pointer there too.
- Lowering.CheckIntegerOperands: takes the loaded value's shape as an input. The source loads a pointer operand with the declared type's shape and passes any other value through.
- StmtParser.ParseLayoutQualifier: states only that the qualifier starts with `layout`. The closing `)` is not stated.
- ExprParser.ParsePrimary: states the cursor discipline only. The node built for each primary form is stated by the lemmas `EmptyCall`, `DotAcceptsAnyName` and `IncrementEndsPostfix`, and otherwise follows from the definition.
- Serializer.ExprAnnouncesItsClass: states that the class name can be read back, not that the whole text parses back into the tree. The printer escapes nothing and writes a call's callee bare, so a full inverse does not exist in general.

## Findings

| source | as written | input that shows it | evidently intended | confidence | as-written member | corrected member |
|---|---|---|---|---|---|---|
| src/generator.cpp:297-314 | `&&` selects 0 only when both operands are 0 | `1 && 0` yields 1 | 1 only when both operands are non-zero | high; not executed | Lowering.AndExprComputesOr | Lowering.LogicalAnd |
| src/generator.cpp:315-332 | `\|\|` selects 0 when either operand is 0 | `1 \|\| 0` yields 0 | 1 when either operand is non-zero | high; not executed | Lowering.OrExprComputesAnd | Lowering.LogicalOr |
| src/generator.cpp:333-353 | `^^` nests two selects that yield 1 on every path | `1 ^^ 1` yields 1 | 1 exactly when one operand is non-zero | high; not executed | Lowering.XorExprIsConstant | Lowering.LogicalXor |
| src/generator.cpp:912-923 | `!` selects 0 when the operand is 0, else 1 | `!0` yields 0 | 1 when the operand is 0, else 0 | high; not executed | Lowering.NotExprKeepsTruth | Lowering.LogicalNot |
