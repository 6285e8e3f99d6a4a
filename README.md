# eagersnek back end, modelled in Dafny

eagersnek is a small eager functional language. Its back half takes the syntax tree of one source file and runs it in three stages.

- **Resolution.** The resolver links every single-segment name to the declaration it refers to: a name-pattern leaf of a binding, a block binding or a lambda parameter. Scopes are per binding group, and a name takes the innermost matching declaration.
- **Code generation.** The compiler turns the tree into a flat list of stack-machine instructions. A match becomes a table of `Duplicate`/`JumpIfMatch` tests followed by the case bodies. A call whose callee is `.` becomes a self tail call. Forward jumps go through labels that are attached once.
- **Interpretation.** The interpreter runs the instructions over four pieces of state: an operand stack, a call stack of frames, a tree of scopes and a tree of namespaces. Modules are imported by merging their namespaces into the importer's.

The Dafny modules follow the Kotlin files:

| Dafny module (file) | models |
|---|---|
| `Ast` (ast.dfy) | the syntax tree the parser builds |
| `Resolver`, `ResolverFacts` (resolver.dfy, resolver_facts.dfy) | code/Resolver.kt: pure functions giving what each walk adds to the two maps; the `ResolvedBindings` class and the walking methods, proved to add exactly that; lemmas on scoping |
| `Instructions` (instructions.dfy) | code/OpCode.kt and code/MatchPattern.kt: the instruction set, generic in what a jump names (a `Label`, or a resolved index) |
| `Labels` (labels.dfy) | code/Label.kt: attach-once labels; resolving code whose labels are all attached |
| `Compiled` (compiled_code.dfy) | code/CompiledCode.kt: the append-only instruction buffer, with ghost bookkeeping of the labels that are planned but not yet attached |
| `CodeGenSpec`, `CodeGenFacts` (codegen_spec.dfy, codegen_facts.dfy) | code/CodeGen.kt as functions of the tree: the exact resolved code each construct emits, or its exception; lemmas on stack effects, pattern shapes, the match layout, the calling convention and tail position |
| `CodeGen` (codegen.dfy) | code/CodeGen.kt as the Kotlin writes it: a class over a `CompiledCode` with one method per generator, each proved to emit what `CodeGenSpec` says |
| `RuntimeValues`, `Builtin` (values.dfy, builtin.dfy) | run/Type.kt, the run-time objects, namespaces and their path walks; run/Builtin.kt |
| `Stacks` (stack.dfy) | the interpreter's `Stack` class |
| `Semantics`, `SemanticsFacts` (semantics.dfy, semantics_facts.dfy) | run/Interpreter.kt as a reference semantics over a machine state value; lemmas on control flow, the stack discipline, scopes, decompose and match, calls, tail calls and namespace creation |
| `Interpreters` (interpreter.dfy) | run/Interpreter.kt as the Kotlin writes it: a class with the two stacks, the root namespace and the scopes, whose `run` loop and helpers are proved to end as `Semantics` says |
| `Dispatch`, `MatchRun` (match_run.dfy) | the generated `match` code as the interpreter runs it: the test table dispatches to the first matching case |
| `Modules` (modules.dfy) | run/Module.kt `importInto` and its recursive `import` |
| `Wrappers`, `Seqs`, `Text` | result types, sequence reversal, number printing |


## Model

| member | source | states |
|---|---|---|
| Builtin.MakeRootNamespace | src/main/kotlin/tomwamt/eagersnek/run/Builtin.kt:11-17 | the root namespace (assumed public, see "Left out") has no bindings or sub-namespaces, and its types are exactly `UnitT` (the parent) and `Unit` (its case) |
| Builtin.RootLookups | src/main/kotlin/tomwamt/eagersnek/run/Builtin.kt:11-17 | in a fresh root, `Unit` and `UnitT` are found by one-segment names; no other type name resolves, and no value name does |
| Labels.Label.constructor | src/main/kotlin/tomwamt/eagersnek/code/Label.kt:3-4 | a new label has its display text and no target |
| Labels.Label.Target | src/main/kotlin/tomwamt/eagersnek/code/Label.kt:5 | reading an attached label gives its index; reading an unattached one raises "Unattached label" |
| Labels.Label.Attach | src/main/kotlin/tomwamt/eagersnek/code/Label.kt:7-10 | the first attach sets the target; a second raises "already attached" and keeps the first target |
| Labels.ResolvesAttached | src/main/kotlin/tomwamt/eagersnek/code/Label.kt:3-12 | once every planned label is attached where it was planned, all labels of the code are attached, and resolving through them gives the planned code |
| Compiled.CompiledCode.constructor | src/main/kotlin/tomwamt/eagersnek/code/CompiledCode.kt:3-4 | a new buffer is empty, with no label pending |
| Compiled.CompiledCode.Get | src/main/kotlin/tomwamt/eagersnek/code/CompiledCode.kt:9 | an index inside the buffer gives that instruction; any other index raises |
| Compiled.CompiledCode.Add | src/main/kotlin/tomwamt/eagersnek/code/CompiledCode.kt:11-13 | appends one instruction tagged with the current line; earlier entries are unchanged; the buffer stays valid, and the new entry resolves through its labels once they are known |
| Compiled.CompiledCode.AddLabel | src/main/kotlin/tomwamt/eagersnek/code/CompiledCode.kt:15-17 | attaches the label to the index the next instruction gets and leaves the code unchanged; attaching twice raises; a planned label attached where it was planned is no longer pending |
| Compiled.Finished | src/main/kotlin/tomwamt/eagersnek/code/CompiledCode.kt:3-18 | a valid buffer with no label pending resolves to the code its ghost state records |
| Resolver.ExtractNames | src/main/kotlin/tomwamt/eagersnek/code/Resolver.kt:28-35 | one declaration per name-pattern leaf, and exactly the leaves: wildcards and constants declare nothing, and every name leaf, at any depth, is declared |
| Resolver.ExtractAll | src/main/kotlin/tomwamt/eagersnek/code/Resolver.kt:28-35 | the `flatMap` over several patterns declares exactly the name leaves of those patterns |
| Resolver.Find | src/main/kotlin/tomwamt/eagersnek/code/Resolver.kt:89 | `find` gives the first declaration of that name if any exists, and nothing exactly when none has the name |
| Resolver.Get | src/main/kotlin/tomwamt/eagersnek/code/Resolver.kt:87-91 | Scope.get prefers the innermost scope's first match; otherwise it gives some declaration of that name in an enclosing scope; it gives nothing exactly when no scope in the chain declares the name |
| Resolver.DeclMapEntries | src/main/kotlin/tomwamt/eagersnek/code/Resolver.kt:101-105 | addDeclarations keys each declaration by its own pattern, adds every one, and keeps each one when no pattern repeats |
| Resolver.ResolveName | src/main/kotlin/tomwamt/eagersnek/code/Resolver.kt:70 | a qualified name gets a usage exactly when it has one segment and some scope declares it; that usage is the declaration Scope.get finds, which has the same name; no declarations are added |
| Resolver.ResolvedBindings.constructor | src/main/kotlin/tomwamt/eagersnek/code/Resolver.kt:95-99 | both maps start empty |
| Resolver.ResolvedBindings.AddDeclarations | src/main/kotlin/tomwamt/eagersnek/code/Resolver.kt:101-105 | the maps become the old ones followed by the declarations, each under its pattern |
| Resolver.ResolvedBindings.AddUsage | src/main/kotlin/tomwamt/eagersnek/code/Resolver.kt:107-109 | only the usage of this name changes, to the declaration |
| Resolver.Resolve | src/main/kotlin/tomwamt/eagersnek/code/Resolver.kt:7-19 | a fresh `ResolvedBindings` holding exactly what the whole-file walk contributes |
| Resolver.ResolveUsagesDecl | src/main/kotlin/tomwamt/eagersnek/code/Resolver.kt:37-47 | the maps gain exactly the declaration's contribution |
| Resolver.ResolveUsagesNs | src/main/kotlin/tomwamt/eagersnek/code/Resolver.kt:49-56 | the namespace's group declarations are added, then its members are resolved in that group's scope |
| Resolver.ResolveUsagesDecls | src/main/kotlin/tomwamt/eagersnek/code/Resolver.kt:53-55 | the loop over the members adds exactly their contributions, in order |
| Resolver.ResolveUsagesBlock | src/main/kotlin/tomwamt/eagersnek/code/Resolver.kt:58-66 | all of a block's binding names enter one scope before any body is resolved |
| Resolver.ResolveUsagesBindingBodies | src/main/kotlin/tomwamt/eagersnek/code/Resolver.kt:62-64 | the loop over the bodies adds exactly their contributions, in order |
| Resolver.ResolveUsagesBindingBody | src/main/kotlin/tomwamt/eagersnek/code/Resolver.kt:63 | adds exactly one right-hand side's contribution |
| Resolver.ResolveUsagesExpr | src/main/kotlin/tomwamt/eagersnek/code/Resolver.kt:68-85 | adds exactly the expression's contribution (names, calls, lists, lambdas with their own parameter scope) |
| ResolverFacts.BindingDeclarationsComplete | src/main/kotlin/tomwamt/eagersnek/code/Resolver.kt:59 | every name leaf of a block binding's pattern is declared in the block's group |
| ResolverFacts.GroupDeclarationsComplete | src/main/kotlin/tomwamt/eagersnek/code/Resolver.kt:21-26 | every name leaf of a namespace member binding is declared in the namespace's group |
| ResolverFacts.GroupDeclarationsSound | src/main/kotlin/tomwamt/eagersnek/code/Resolver.kt:21-26 | every group declaration comes from a name leaf of some member binding |
| ResolverFacts.ChildShadows | src/main/kotlin/tomwamt/eagersnek/code/Resolver.kt:87-91 | a name declared in the inner scope resolves to the inner scope's first match |
| ResolverFacts.ChildFallsBack | src/main/kotlin/tomwamt/eagersnek/code/Resolver.kt:87-91 | a name the inner scope does not declare resolves as it would in the parent |
| ResolverFacts.BlockSeesAllBindings | src/main/kotlin/tomwamt/eagersnek/code/Resolver.kt:58-66 | inside a block, a name bound by any of its bindings, including later ones, resolves to one of the block's declarations |
| ResolverFacts.ParameterShadows | src/main/kotlin/tomwamt/eagersnek/code/Resolver.kt:78-83 | in a lambda, a parameter's name resolves to one of the parameters |
| ResolverFacts.NonParameterSeesOuter | src/main/kotlin/tomwamt/eagersnek/code/Resolver.kt:78-83 | in a lambda, a name no parameter binds resolves in the enclosing scope |
| ResolverFacts.RootBindingVisible | src/main/kotlin/tomwamt/eagersnek/code/Resolver.kt:7-19 | a name bound at the top level of a file resolves to a root declaration |
| ResolverFacts.NestedNamespaceSeesOuter | src/main/kotlin/tomwamt/eagersnek/code/Resolver.kt:49-56 | a nested namespace that does not bind a name sees the enclosing declaration |
| ResolverFacts.BlockRegistersBindings | src/main/kotlin/tomwamt/eagersnek/code/Resolver.kt:59-60 | every name leaf of a block's bindings gets a declaration entry |
| ResolverFacts.LambdaRegistersParameters | src/main/kotlin/tomwamt/eagersnek/code/Resolver.kt:78-83 | every name leaf of a lambda's parameters gets a declaration entry |
| ResolverFacts.NamespaceRegistersBindings | src/main/kotlin/tomwamt/eagersnek/code/Resolver.kt:49-56 | every name leaf of a namespace's member bindings gets a declaration entry |
| ResolverFacts.ProgramRegistersRootBindings | src/main/kotlin/tomwamt/eagersnek/code/Resolver.kt:7-19 | every name leaf of the file's top-level bindings gets a declaration entry |
| ResolverFacts.ExprUsages | src/main/kotlin/tomwamt/eagersnek/code/Resolver.kt:68-85 | every usage an expression adds is for one of its own single-segment names, and keyed by that name node |
| ResolverFacts.ExprsUsages | src/main/kotlin/tomwamt/eagersnek/code/Resolver.kt:72-75 | the same for a call's callee and arguments |
| ResolverFacts.BlockUsages | src/main/kotlin/tomwamt/eagersnek/code/Resolver.kt:58-66 | the same for a block |
| ResolverFacts.BindingUsages | src/main/kotlin/tomwamt/eagersnek/code/Resolver.kt:63 | the same for one binding |
| ResolverFacts.BindingsUsages | src/main/kotlin/tomwamt/eagersnek/code/Resolver.kt:62-64 | the same for a block's bindings |
| ResolverFacts.BlocksUsages | src/main/kotlin/tomwamt/eagersnek/code/Resolver.kt:77 | the same for a list's elements |
| Instructions.NetAppend | src/main/kotlin/tomwamt/eagersnek/run/Interpreter.kt:31-64 | the stack effect of two straight-line pieces run one after the other is the sum of their effects |
| CodeGenSpec.TrimQuotes | src/main/kotlin/tomwamt/eagersnek/code/CodeGen.kt:152-154 | succeeds exactly on strings of two or more characters; the string is then its first character, the result, and its last character |
| CodeGenSpec.CheckLambdas | src/main/kotlin/tomwamt/eagersnek/code/CodeGen.kt:202-204 | passes exactly when every case is a lambda |
| CodeGenSpec.CheckArity | src/main/kotlin/tomwamt/eagersnek/code/CodeGen.kt:206 | passes exactly when every case lambda has one parameter |
| CodeGenSpec.CasePatterns | src/main/kotlin/tomwamt/eagersnek/code/CodeGen.kt:210-213 | when it succeeds, there is one pattern per case, and each is the conversion of that case's parameter |
| CodeGenSpec.CaseStarts | src/main/kotlin/tomwamt/eagersnek/code/CodeGen.kt:217-223 | each generated case starts exactly where the cases before it end |
| CodeGenSpec.PlannedStarts | src/main/kotlin/tomwamt/eagersnek/code/CodeGen.kt:208-218 | labels planned before the table is emitted point where the cases are generated |
| CodeGenSpec.MatchBodySplits | src/main/kotlin/tomwamt/eagersnek/code/CodeGen.kt:208-219 | a match body is the scrutinee, the test table over the planned starts, `Fail`, then the cases and final label; an exception of the patterns or the cases is the body's exception |
| CodeGenSpec.SaveListItemsFails | src/main/kotlin/tomwamt/eagersnek/code/CodeGen.kt:116-122 | the first list element whose save code raises gives the whole list's exception |
| CodeGenSpec.SaveAllFails | src/main/kotlin/tomwamt/eagersnek/code/CodeGen.kt:124-129 | the first type field whose save code raises gives the whole pattern's exception |
| CodeGenSpec.GenBindingsFails | src/main/kotlin/tomwamt/eagersnek/code/CodeGen.kt:64-72 | the first block binding that raises gives the block's exception |
| CodeGenSpec.GenListItemsFails | src/main/kotlin/tomwamt/eagersnek/code/CodeGen.kt:165-172 | the first list element that raises gives the list's exception |
| CodeGenSpec.GenArgsFails | src/main/kotlin/tomwamt/eagersnek/code/CodeGen.kt:178 | the first argument that raises gives the call's exception |
| CodeGenSpec.GenDeclsFails | src/main/kotlin/tomwamt/eagersnek/code/CodeGen.kt:42 | the first member declaration that raises gives the namespace's exception |
| CodeGenSpec.GenImportsFails | src/main/kotlin/tomwamt/eagersnek/code/CodeGen.kt:21 | the first import that raises gives the file's exception |
| CodeGenSpec.CasePatternsFails | src/main/kotlin/tomwamt/eagersnek/code/CodeGen.kt:210-213 | the first case parameter that does not convert gives the exception |
| CodeGenSpec.TableStep | src/main/kotlin/tomwamt/eagersnek/code/CodeGen.kt:210-213 | one more converted case adds its `Duplicate`/`JumpIfMatch` pair at the end of the table |
| CodeGenSpec.GenMatchCasesFails | src/main/kotlin/tomwamt/eagersnek/code/CodeGen.kt:217 | the first case that raises gives the match's exception |
| CodeGen.CodeGen.constructor | src/main/kotlin/tomwamt/eagersnek/code/CodeGen.kt:11-13 | a generator over a new empty buffer, on line 0, with the resolver's bindings |
| CodeGen.CodeGen.Compile | src/main/kotlin/tomwamt/eagersnek/code/CodeGen.kt:11-13 | compile resolves the file and generates it; its code, once all labels are attached, is exactly `CodeGenSpec.Compile` of the tree, or raises its exception |
| CodeGen.CodeGen.Generate | src/main/kotlin/tomwamt/eagersnek/code/CodeGen.kt:18-26 | the buffer gains exactly the imports, the root namespace and the trailing call, as `CodeGenSpec.Generate` gives them, or the method raises its exception |
| CodeGen.CodeGen.GenImports | src/main/kotlin/tomwamt/eagersnek/code/CodeGen.kt:21 | emits one import instruction per import statement |
| CodeGen.CodeGen.GenImport | src/main/kotlin/tomwamt/eagersnek/code/CodeGen.kt:28-34 | `ImportAll` when no names are given, otherwise `ImportNames` |
| CodeGen.CodeGen.GenNamespace | src/main/kotlin/tomwamt/eagersnek/code/CodeGen.kt:36-43 | `MkNamespace` for a named namespace, then each member |
| CodeGen.CodeGen.GenDecls | src/main/kotlin/tomwamt/eagersnek/code/CodeGen.kt:42 | the loop over the members emits each in order, or raises the first member's exception |
| CodeGen.CodeGen.GenDecl | src/main/kotlin/tomwamt/eagersnek/code/CodeGen.kt:45-55 | namespaces, types with their own namespace, and member bindings saved into the namespace |
| CodeGen.CodeGen.GenType | src/main/kotlin/tomwamt/eagersnek/code/CodeGen.kt:57-62 | `MkType` of the type's name, namespace and cases |
| CodeGen.CodeGen.SavePattern | src/main/kotlin/tomwamt/eagersnek/code/CodeGen.kt:75-84 | emits exactly the save code `CodeGenSpec.SavePattern` gives for the pattern, or raises its exception |
| CodeGen.CodeGen.SaveName | src/main/kotlin/tomwamt/eagersnek/code/CodeGen.kt:107-114 | the same for a name pattern |
| CodeGen.CodeGen.SaveList | src/main/kotlin/tomwamt/eagersnek/code/CodeGen.kt:116-122 | the same for a list pattern |
| CodeGen.CodeGen.SaveType | src/main/kotlin/tomwamt/eagersnek/code/CodeGen.kt:124-129 | the same for a type pattern |
| CodeGen.CodeGen.SaveAll | src/main/kotlin/tomwamt/eagersnek/code/CodeGen.kt:127-128 | the same for a type pattern's fields, in order |
| CodeGen.CodeGen.GenBlock | src/main/kotlin/tomwamt/eagersnek/code/CodeGen.kt:64-72 | each binding, then the trailing expression, which alone may be in tail position |
| CodeGen.CodeGen.GenLocalBinding | src/main/kotlin/tomwamt/eagersnek/code/CodeGen.kt:66-69 | a binding's right-hand side (out of tail position) and then its save code |
| CodeGen.CodeGen.GenExpr | src/main/kotlin/tomwamt/eagersnek/code/CodeGen.kt:131-141 | emits exactly `CodeGenSpec.GenExpr` after setting the current line to the expression's line; a `.` outside a call raises |
| CodeGen.CodeGen.GenConst | src/main/kotlin/tomwamt/eagersnek/code/CodeGen.kt:143-150 | a number, a string without its quotes, `Empty` or `Unit` |
| CodeGen.CodeGen.GenName | src/main/kotlin/tomwamt/eagersnek/code/CodeGen.kt:156-163 | `LoadLocal` of the resolved declaration, otherwise `LoadName` |
| CodeGen.CodeGen.GenList | src/main/kotlin/tomwamt/eagersnek/code/CodeGen.kt:165-172 | `Empty`, then the elements from the last back, each followed by a cons call |
| CodeGen.CodeGen.GenListElement | src/main/kotlin/tomwamt/eagersnek/code/CodeGen.kt:168-170 | one element, then `LoadName(::)` and `Call(2)` |
| CodeGen.CodeGen.GenCall | src/main/kotlin/tomwamt/eagersnek/code/CodeGen.kt:174-177 | a call of `match` goes to the match generator, every other call to the plain-call generator, as `CodeGenSpec.GenCall` gives them |
| CodeGen.CodeGen.GenPlainCall | src/main/kotlin/tomwamt/eagersnek/code/CodeGen.kt:178-185 | arguments last to first, then a self tail call (refused out of tail position) or the callee and a `Call`, exactly as `CodeGenSpec.GenPlainCall` gives them |
| CodeGen.CodeGen.GenArgs | src/main/kotlin/tomwamt/eagersnek/code/CodeGen.kt:178 | the arguments from the last back |
| CodeGen.CodeGen.GenLambda | src/main/kotlin/tomwamt/eagersnek/code/CodeGen.kt:189-195 | one `LoadFunction` holding the lambda's own code, resolved, and the parameter count |
| CodeGen.CodeGen.LambdaBody | src/main/kotlin/tomwamt/eagersnek/code/CodeGen.kt:190-193 | a new generator over a fresh buffer: the parameters saved in order, then the body in tail position |
| CodeGen.CodeGen.GenMatch | src/main/kotlin/tomwamt/eagersnek/code/CodeGen.kt:197-220 | emits exactly `CodeGenSpec.GenMatch`: argument count checked, scrutinee, then the match body |
| CodeGen.CodeGen.GenMatchList | src/main/kotlin/tomwamt/eagersnek/code/CodeGen.kt:202-206 | the cases must be a list of one-parameter lambdas; otherwise it raises at the offending case's line |
| CodeGen.CodeGen.GenMatchBody | src/main/kotlin/tomwamt/eagersnek/code/CodeGen.kt:208-219 | new labels per case and for the end, then the planned body |
| CodeGen.CodeGen.GenMatchPlanned | src/main/kotlin/tomwamt/eagersnek/code/CodeGen.kt:210-219 | the table, `Fail("no match")`, the cases and the end label, laid out as `CodeGenSpec.GenMatchBody` says |
| CodeGen.CodeGen.NewLabels | src/main/kotlin/tomwamt/eagersnek/code/CodeGen.kt:208 | fresh, distinct, unattached labels, one per case |
| CodeGen.CodeGen.GenMatchTable | src/main/kotlin/tomwamt/eagersnek/code/CodeGen.kt:210-213 | one `Duplicate`/`JumpIfMatch` test per case, naming that case's label |
| CodeGen.CodeGen.GenMatchTest | src/main/kotlin/tomwamt/eagersnek/code/CodeGen.kt:211-212 | one case's test, whose pattern is the converted parameter |
| CodeGen.CodeGen.GenMatchEnd | src/main/kotlin/tomwamt/eagersnek/code/CodeGen.kt:216-219 | the cases, then the end label and the final `NoOp` |
| CodeGen.CodeGen.GenMatchCases | src/main/kotlin/tomwamt/eagersnek/code/CodeGen.kt:217 | the loop over the cases emits each at its planned start, followed by its jump to the end |
| CodeGen.CodeGen.GenCaseStep | src/main/kotlin/tomwamt/eagersnek/code/CodeGen.kt:217 | one case: its label attached, its code, its jump to the end |
| CodeGen.CodeGen.GenMatchCase | src/main/kotlin/tomwamt/eagersnek/code/CodeGen.kt:222-227 | the case parameter's save code, then the body |
| CodeGenFacts.SavePatternNet | src/main/kotlin/tomwamt/eagersnek/code/CodeGen.kt:75-84 | save code takes exactly the one value on top of the stack |
| CodeGenFacts.SaveListItemsNet | src/main/kotlin/tomwamt/eagersnek/code/CodeGen.kt:116-122 | each list element's split and save leaves the stack height unchanged |
| CodeGenFacts.SaveAllNet | src/main/kotlin/tomwamt/eagersnek/code/CodeGen.kt:124-129 | saving `n` fields takes exactly `n` values |
| CodeGenFacts.SavePatternShapes | src/main/kotlin/tomwamt/eagersnek/code/CodeGen.kt:75-129 | a wildcard pops; a constant matches its converted literal; a declared name is saved locally and, in a namespace, first duplicated and published; an undeclared name raises; a list ends by checking `Empty` (its whole code is given by `SaveListShape`); a type starts with `Decompose` into its fields |
| CodeGenFacts.SaveListShape | src/main/kotlin/tomwamt/eagersnek/code/CodeGen.kt:116-122 | a list pattern `[p1 .. pn]` saves as n times (`Decompose(::, 2)`, then the save code of pi) in element order, then `Decompose(Empty)`; the first element that cannot be saved gives the exception |
| CodeGenFacts.SaveListItemsThenRest | src/main/kotlin/tomwamt/eagersnek/code/CodeGen.kt:116-122 | the loop's code for the first k elements, followed by the head-first code of the rest, is the whole list's code |
| CodeGenFacts.ConvertAllEach | src/main/kotlin/tomwamt/eagersnek/code/CodeGen.kt:102 | the parameters convert exactly when each one does, and each converts on its own |
| CodeGenFacts.ConvertListChain | src/main/kotlin/tomwamt/eagersnek/code/CodeGen.kt:96-101 | a list pattern converts exactly when every element does, into the cons chain of the elements in order |
| CodeGenFacts.ConvertPatternShapes | src/main/kotlin/tomwamt/eagersnek/code/CodeGen.kt:86-105 | names and wildcards match anything; a list of n elements becomes n nested `::` patterns ending in `Empty`; a type keeps its name and converts its parameters in order |
| CodeGenFacts.LambdaShape | src/main/kotlin/tomwamt/eagersnek/code/CodeGen.kt:189-195 | one `LoadFunction` with the parameter count; its code saves the parameters in order (taking exactly that many values) and then runs the body |
| CodeGenFacts.TailCallPosition | src/main/kotlin/tomwamt/eagersnek/code/CodeGen.kt:178-181 | a `.` call raises "Tail call not allowed here" out of tail position; in tail position it is the reversed arguments followed by `TailCall` |
| CodeGenFacts.NetStraight | src/main/kotlin/tomwamt/eagersnek/run/Interpreter.kt:35-63 | code has a fixed stack effect exactly when it has no jump, call or `Fail` |
| CodeGenFacts.SavePatternNoTail | src/main/kotlin/tomwamt/eagersnek/code/CodeGen.kt:75-129 | save code is straight-line: it holds no tail call and creates no namespace or type |
| CodeGenFacts.SavePatternNoDecl | src/main/kotlin/tomwamt/eagersnek/code/CodeGen.kt:75-84 | save code of any pattern creates no namespace or type |
| CodeGenFacts.SaveListItemsNoDecl | src/main/kotlin/tomwamt/eagersnek/code/CodeGen.kt:116-122 | nor does a list pattern's element code |
| CodeGenFacts.SaveAllNoDecl | src/main/kotlin/tomwamt/eagersnek/code/CodeGen.kt:124-129 | nor does a type pattern's field code |
| CodeGenFacts.GenExprNoTail | src/main/kotlin/tomwamt/eagersnek/code/CodeGen.kt:131-141 | an expression generated out of tail position holds no tail call and creates no namespace or type |
| CodeGenFacts.GenBlockNoTail | src/main/kotlin/tomwamt/eagersnek/code/CodeGen.kt:64-72 | the same for a block |
| CodeGenFacts.GenBindingsNoTail | src/main/kotlin/tomwamt/eagersnek/code/CodeGen.kt:66-69 | a block's bindings never hold a tail call or a creation |
| CodeGenFacts.GenLocalBindingNoTail | src/main/kotlin/tomwamt/eagersnek/code/CodeGen.kt:67 | the same for one binding |
| CodeGenFacts.GenListItemsNoTail | src/main/kotlin/tomwamt/eagersnek/code/CodeGen.kt:165-172 | list elements never hold a tail call or a creation |
| CodeGenFacts.GenCallNoTail | src/main/kotlin/tomwamt/eagersnek/code/CodeGen.kt:174-187 | a call out of tail position holds no tail call or creation |
| CodeGenFacts.GenArgsNoTail | src/main/kotlin/tomwamt/eagersnek/code/CodeGen.kt:178 | arguments never hold a tail call or a creation |
| CodeGenFacts.GenMatchNoTail | src/main/kotlin/tomwamt/eagersnek/code/CodeGen.kt:197-220 | a match out of tail position holds no tail call or creation |
| CodeGenFacts.GenMatchListNoTail | src/main/kotlin/tomwamt/eagersnek/code/CodeGen.kt:202-219 | the same for the match body |
| CodeGenFacts.GenMatchBodyNoTail | src/main/kotlin/tomwamt/eagersnek/code/CodeGen.kt:208-219 | the same for the scrutinee, tests, `Fail`, cases and end label once the cases are checked |
| CodeGenFacts.GenMatchCasesNoTail | src/main/kotlin/tomwamt/eagersnek/code/CodeGen.kt:217 | the same for each case body |
| CodeGenFacts.GenMatchCaseNoTail | src/main/kotlin/tomwamt/eagersnek/code/CodeGen.kt:222-227 | the same for one case |
| CodeGenFacts.MatchTableNoTail | src/main/kotlin/tomwamt/eagersnek/code/CodeGen.kt:210-213 | the test table holds no tail call or creation |
| CodeGenFacts.CaseBlocksNoTail | src/main/kotlin/tomwamt/eagersnek/code/CodeGen.kt:217-226 | cases free of tail calls and creations, with their jumps, hold none |
| CodeGenFacts.GenNamespaceNoTail | src/main/kotlin/tomwamt/eagersnek/code/CodeGen.kt:36-43 | namespace code holds no tail call |
| CodeGenFacts.GenDeclsNoTail | src/main/kotlin/tomwamt/eagersnek/code/CodeGen.kt:42 | the same for a namespace's members |
| CodeGenFacts.GenDeclNoTail | src/main/kotlin/tomwamt/eagersnek/code/CodeGen.kt:45-55 | the same for one declaration |
| CodeGenFacts.GenerateNoTail | src/main/kotlin/tomwamt/eagersnek/code/CodeGen.kt:18-26 | a whole file's top-level code holds no tail call; only function bodies can |
| CodeGenFacts.CreationsEmpty | src/main/kotlin/tomwamt/eagersnek/code/CodeGen.kt:36-55 | code has no `MkNamespace`/`MkType` creations exactly when none of its instructions is one |
| CodeGenFacts.CreationsAppend | src/main/kotlin/tomwamt/eagersnek/code/CodeGen.kt:42 | the creations of joined code are those of each part, in order |
| CodeGenFacts.GenNamespaceCreates | src/main/kotlin/tomwamt/eagersnek/code/CodeGen.kt:36-43 | the `MkNamespace` and `MkType` instructions of a namespace's code are exactly `NamespaceCreates`, the tree's own walk: a named namespace under its full name and first name part with its visibility, then its members in order |
| CodeGenFacts.GenDeclsCreates | src/main/kotlin/tomwamt/eagersnek/code/CodeGen.kt:42 | the same for the first `n` members, in member order |
| CodeGenFacts.GenDeclCreates | src/main/kotlin/tomwamt/eagersnek/code/CodeGen.kt:45-55 | a type creates `MkType` with its last name part under the parent joined with the rest, then its own namespace; a member binding creates nothing |
| CodeGenFacts.GenerateCreates | src/main/kotlin/tomwamt/eagersnek/code/CodeGen.kt:18-26 | a whole file creates exactly the namespaces and types of its root declaration tree, in order; imports and the trailing call create none |
| CodeGenFacts.ImportsAreImports | src/main/kotlin/tomwamt/eagersnek/code/CodeGen.kt:28-34 | every instruction of the import code is `ImportAll` or `ImportNames` |
| CodeGenFacts.MatchTableAt | src/main/kotlin/tomwamt/eagersnek/code/CodeGen.kt:210-213 | test `i` is `Duplicate` followed by `JumpIfMatch` on pattern `i` to case `i`'s start |
| CodeGenFacts.CaseBlocksPrefix | src/main/kotlin/tomwamt/eagersnek/code/CodeGen.kt:217 | the blocks of the first cases are a prefix of all the blocks |
| CodeGenFacts.CaseBlocksLength | src/main/kotlin/tomwamt/eagersnek/code/CodeGen.kt:217-218 | contiguous cases fill the code up to where the end label is attached |
| CodeGenFacts.ContiguousPrefix | src/main/kotlin/tomwamt/eagersnek/code/CodeGen.kt:217 | case `i` starts where the first `i` cases end |
| CodeGenFacts.CaseBlocksAt | src/main/kotlin/tomwamt/eagersnek/code/CodeGen.kt:217-226 | each case's code sits at its start, followed by its jump to the end |
| CodeGenFacts.GenMatchCasesPrefix | src/main/kotlin/tomwamt/eagersnek/code/CodeGen.kt:217 | generating the first `i` cases is a prefix of generating them all |
| CodeGenFacts.GenMatchCasesLayout | src/main/kotlin/tomwamt/eagersnek/code/CodeGen.kt:217 | generated cases are laid out one after another |
| CodeGenFacts.GenMatchCaseIs | src/main/kotlin/tomwamt/eagersnek/code/CodeGen.kt:217-225 | case `i` is the `i`-th lambda's code generated at its own start |
| CodeGenFacts.MatchErrors | src/main/kotlin/tomwamt/eagersnek/code/CodeGen.kt:197-206 | a match raises for other than two arguments, a scrutinee's exception, a non-list second argument, a non-lambda case, or a case lambda without exactly one parameter |
| CodeGenFacts.FirstNonLambda | src/main/kotlin/tomwamt/eagersnek/code/CodeGen.kt:202-204 | the first case that is not a lambda is reported, at its own line |
| CodeGenFacts.FirstBadArity | src/main/kotlin/tomwamt/eagersnek/code/CodeGen.kt:206 | the first lambda without one parameter is reported, at its own line |
| CodeGenFacts.MatchPartsHead | src/main/kotlin/tomwamt/eagersnek/code/CodeGen.kt:199-219 | the match code starts with the scrutinee, has `Fail("no match")` after the tests, and ends with `NoOp` |
| CodeGenFacts.MatchPartsTest | src/main/kotlin/tomwamt/eagersnek/code/CodeGen.kt:210-213 | test `i` of the match code, at its absolute place |
| CodeGenFacts.MatchPartsCase | src/main/kotlin/tomwamt/eagersnek/code/CodeGen.kt:217-226 | case `i` sits at its absolute start and is followed by a jump to the final `NoOp` |
| CodeGenFacts.MatchIsBody | src/main/kotlin/tomwamt/eagersnek/code/CodeGen.kt:197-219 | a match that generates is its scrutinee followed by the match body over the well-formed case list |
| CodeGenFacts.GenInOrderSnoc | src/main/kotlin/tomwamt/eagersnek/code/CodeGen.kt:178 | generating one more expression appends its code |
| CodeGenFacts.ArgsInReverse | src/main/kotlin/tomwamt/eagersnek/code/CodeGen.kt:178 | the argument code is the arguments generated in reverse syntactic order |
| CodeGenFacts.CallConvention | src/main/kotlin/tomwamt/eagersnek/code/CodeGen.kt:178-185 | a plain call is the reversed arguments, then the callee, then `Call` of the argument count |
| CodeGenFacts.ListInOrderSnoc | src/main/kotlin/tomwamt/eagersnek/code/CodeGen.kt:168-170 | one more element appends its code and its cons call |
| CodeGenFacts.ListInReverse | src/main/kotlin/tomwamt/eagersnek/code/CodeGen.kt:165-172 | list code is `Empty` followed by the elements taken from the last back |
| CodeGenFacts.ListInOrderGrows | src/main/kotlin/tomwamt/eagersnek/code/CodeGen.kt:168-170 | list code keeps what came before it and ends with a cons call |
| CodeGenFacts.ListShape | src/main/kotlin/tomwamt/eagersnek/code/CodeGen.kt:165-172 | list code starts with `LoadName(Empty)`; with no elements that is all of it, and otherwise it ends with the first element's cons call |
| RuntimeValues.UpdateAt | src/main/kotlin/tomwamt/eagersnek/run/Interpreter.kt:50 | an update at a path succeeds exactly where the path exists, and the path then leads to the new namespace |
| RuntimeValues.UpdateAtOffPath | src/main/kotlin/tomwamt/eagersnek/run/Interpreter.kt:50 | the in-place write changes one namespace object: after the update, every path that leaves the updated path leads to what it led to before |
| RuntimeValues.UpdateAtAncestors | src/main/kotlin/tomwamt/eagersnek/run/Interpreter.kt:50 | each namespace above the updated one keeps its bindings, types, visibility and sub-namespace names |
| RuntimeValues.AddType | src/main/kotlin/tomwamt/eagersnek/run/Interpreter.kt:181 | the assumed behaviour of `Namespace.addType`, whose body is not part of this model: the parent type is registered under its name, then every case as a type and as a binding; other types, the visibility and the sub-namespaces are kept |
| RuntimeValues.AddCases | src/main/kotlin/tomwamt/eagersnek/run/Interpreter.kt:181 | the case part of the assumed `Namespace.addType`: every case gets a type entry and a binding; types not named by a case keep their entry |
| RuntimeValues.AddCasesValues | src/main/kotlin/tomwamt/eagersnek/run/Interpreter.kt:181 | in the assumed `addType`, a case that no later case shares its name with is its own type and is bound to its singleton (no fields) or its constructor |
| RuntimeValues.AddCasesKeepsBindings | src/main/kotlin/tomwamt/eagersnek/run/Interpreter.kt:181 | in the assumed `addType`, a binding whose name no case has keeps its value |
| RuntimeValues.AddTypeEntries | src/main/kotlin/tomwamt/eagersnek/run/Interpreter.kt:181 | the same two facts for the whole assumed `addType`, after the parent is registered |
| Stacks.Stack.constructor | src/main/kotlin/tomwamt/eagersnek/run/Interpreter.kt:199-200 | a new stack is empty |
| Stacks.Stack.Push | src/main/kotlin/tomwamt/eagersnek/run/Interpreter.kt:202 | the value goes on top |
| Stacks.Stack.Pop | src/main/kotlin/tomwamt/eagersnek/run/Interpreter.kt:203 | gives and removes the top; an empty stack raises |
| Stacks.Stack.Peek | src/main/kotlin/tomwamt/eagersnek/run/Interpreter.kt:204 | gives the top and changes nothing; an empty stack raises |
| Stacks.PushPop | src/main/kotlin/tomwamt/eagersnek/run/Interpreter.kt:202-203 | a push then a pop gives back the value and the stack as it was |
| Semantics.PopValue | src/main/kotlin/tomwamt/eagersnek/run/Interpreter.kt:38 | gives the top and the rest of the stack; an empty stack raises |
| Semantics.Peek | src/main/kotlin/tomwamt/eagersnek/run/Interpreter.kt:39 | gives the top without removing it; an empty stack raises |
| Semantics.PopN | src/main/kotlin/tomwamt/eagersnek/run/Interpreter.kt:150 | pops `n` values, first popped first; short stacks raise |
| Semantics.ChildFor | src/main/kotlin/tomwamt/eagersnek/run/Interpreter.kt:164-173 | the existing child namespace, or a new one with the requested visibility |
| Semantics.MakePathWalked | src/main/kotlin/tomwamt/eagersnek/run/Interpreter.kt:164-173 | the loop's state after a prefix of the path determines the whole walk's result |
| Semantics.MakeCases | src/main/kotlin/tomwamt/eagersnek/run/Interpreter.kt:175-182 | one case per declared case, with consecutive new tags, its name and its field count |
| SemanticsFacts.NextIndex | src/main/kotlin/tomwamt/eagersnek/run/Interpreter.kt:31-64 | after a jump, the target; after a matching `JumpIfMatch`, its target; after a tail call, 0; after anything else, the next instruction |
| SemanticsFacts.RunEndsPastCode | src/main/kotlin/tomwamt/eagersnek/run/Interpreter.kt:29-35 | a run ends exactly when the index passes the end; otherwise it takes one step and goes on |
| SemanticsFacts.DuplicateGrows | src/main/kotlin/tomwamt/eagersnek/run/Interpreter.kt:39 | `Duplicate` keeps the stack and repeats its top |
| SemanticsFacts.SaveThenLoad | src/main/kotlin/tomwamt/eagersnek/run/Interpreter.kt:44-49 | a saved value is loaded back, and the load changes only the stack |
| SemanticsFacts.LoadBeforeSave | src/main/kotlin/tomwamt/eagersnek/run/Interpreter.kt:188-193 | loading a declaration no enclosing scope holds raises |
| SemanticsFacts.EnclosingSaveVisible | src/main/kotlin/tomwamt/eagersnek/run/Interpreter.kt:188-193 | a value saved in the parent scope is seen from a child that does not hold it |
| SemanticsFacts.DecomposeCase | src/main/kotlin/tomwamt/eagersnek/run/Interpreter.kt:92-105 | decomposing an instance of the named case replaces it by its fields, last field lowest |
| SemanticsFacts.FirstFieldOnTop | src/main/kotlin/tomwamt/eagersnek/run/Interpreter.kt:97-104 | after decomposing, the first field is on top |
| SemanticsFacts.DecomposeCaseErrors | src/main/kotlin/tomwamt/eagersnek/run/Interpreter.kt:92-100 | a wrong part count raises, and so does a value of another type |
| SemanticsFacts.DecomposeOnlyChecks | src/main/kotlin/tomwamt/eagersnek/run/Interpreter.kt:69-91 | for a type that is not a case, decompose only checks the top value's type, with part count 1 |
| SemanticsFacts.ConstructThenDecompose | src/main/kotlin/tomwamt/eagersnek/run/Interpreter.kt:92-105 | decomposing what a constructor built gives back the stack it was built from |
| SemanticsFacts.MatchLiterals | src/main/kotlin/tomwamt/eagersnek/run/Interpreter.kt:112-116 | `AlwaysMatch` matches anything; number and string patterns match equal values only |
| SemanticsFacts.AllMatchPairs | src/main/kotlin/tomwamt/eagersnek/run/Interpreter.kt:131-133 | the inner patterns all match exactly when each matches its field |
| SemanticsFacts.MatchCase | src/main/kotlin/tomwamt/eagersnek/run/Interpreter.kt:128-136 | a type pattern matches a singleton by identity, an instance by case, then its fields; anything else does not match |
| SemanticsFacts.CallArity | src/main/kotlin/tomwamt/eagersnek/run/Interpreter.kt:144-155 | a non-function raises; too many arguments raise; exactly as many invoke; fewer make a partial application, first popped first |
| SemanticsFacts.ConstructorInvoke | src/main/kotlin/tomwamt/eagersnek/run/Interpreter.kt:144-155 | a constructor with all its arguments builds the instance in argument order |
| SemanticsFacts.ConstructorPartialCall | src/main/kotlin/tomwamt/eagersnek/run/Interpreter.kt:149-151 | fewer arguments give a partial application holding them in order |
| SemanticsFacts.ExactCall | src/main/kotlin/tomwamt/eagersnek/run/Interpreter.kt:148 | a call with exactly the arity invokes the function on the stack below |
| SemanticsFacts.PartialKeepsOrder | src/main/kotlin/tomwamt/eagersnek/run/Interpreter.kt:144-155 | applying a constructor in two calls builds the same instance as one call |
| SemanticsFacts.TailCallKeepsFrames | src/main/kotlin/tomwamt/eagersnek/run/Interpreter.kt:157-162 | a tail call with the running function's arity replaces only the running frame's scope by a new child of the closure scope; other counts raise |
| SemanticsFacts.ExecKeepsDepth | src/main/kotlin/tomwamt/eagersnek/run/Interpreter.kt:29-65 | a run, however many tail calls it makes, keeps the call-stack depth and every frame below the running one |
| SemanticsFacts.StepKeepsDepth | src/main/kotlin/tomwamt/eagersnek/run/Interpreter.kt:35-63 | one instruction does the same, and a call leaves the frames exactly as they were |
| SemanticsFacts.SimpleKeepsDepth | src/main/kotlin/tomwamt/eagersnek/run/Interpreter.kt:35-63 | an instruction other than a call or tail call leaves the frames unchanged |
| SemanticsFacts.CallKeepsDepth | src/main/kotlin/tomwamt/eagersnek/run/Interpreter.kt:144-155 | a call returns with the call stack as before |
| SemanticsFacts.InvokeKeepsDepth | src/main/kotlin/tomwamt/eagersnek/run/Interpreter.kt:148 | an invoked function returns with the call stack as before |
| SemanticsFacts.MakePathAlong | src/main/kotlin/tomwamt/eagersnek/run/Interpreter.kt:164-173 | along the path every namespace exists afterwards; existing ones keep their entries and visibility, and missing ones get the requested visibility |
| SemanticsFacts.MakePathIdempotent | src/main/kotlin/tomwamt/eagersnek/run/Interpreter.kt:164-173 | making the same namespace twice changes nothing the second time |
| SemanticsFacts.MakePathRaises | src/main/kotlin/tomwamt/eagersnek/run/Interpreter.kt:164-173 | a private request never raises; a public one raises exactly when it passes through an existing private namespace |
| SemanticsFacts.MakeTypeRegisters | src/main/kotlin/tomwamt/eagersnek/run/Interpreter.kt:175-182 | makeType succeeds exactly when the namespace exists. It registers the parent and its cases with the next tags; each case not shadowed by a later one is its own type and bound to its singleton or constructor. The namespace's other bindings and types, its visibility and its sub-namespaces stay, and so do the namespaces above it (but for the link on the path), every namespace off the path, the stacks and the scopes |
| SemanticsFacts.SaveNamespaceWrites | src/main/kotlin/tomwamt/eagersnek/run/Interpreter.kt:50 | `SaveNamespace` succeeds exactly when the namespace exists and the stack is not empty; it pops the top value, binds it under the name in that namespace and changes nothing else there, and every namespace off the path stays |
| Interpreters.Interpreter.constructor | src/main/kotlin/tomwamt/eagersnek/run/Interpreter.kt:5-14 | the initial state: empty stacks, and a root namespace holding the built-in types |
| Interpreters.Interpreter.Exec | src/main/kotlin/tomwamt/eagersnek/run/Interpreter.kt:16-27 | the code runs as a function of no arguments over a new root scope, ending as the reference semantics says |
| Interpreters.Interpreter.Run | src/main/kotlin/tomwamt/eagersnek/run/Interpreter.kt:29-65 | the loop ends in the state, or with the exception, that the reference run gives |
| Interpreters.Interpreter.Step | src/main/kotlin/tomwamt/eagersnek/run/Interpreter.kt:35-63 | one instruction ends in the state and next index that the reference step gives |
| Interpreters.Interpreter.Simple | src/main/kotlin/tomwamt/eagersnek/run/Interpreter.kt:35-63 | the same for every instruction but `Call` |
| Interpreters.Interpreter.StackStep | src/main/kotlin/tomwamt/eagersnek/run/Interpreter.kt:36-47 | the same for the stack and load instructions |
| Interpreters.Interpreter.MatchStep | src/main/kotlin/tomwamt/eagersnek/run/Interpreter.kt:41-43 | the same for jumps and matches |
| Interpreters.Interpreter.ScopeStep | src/main/kotlin/tomwamt/eagersnek/run/Interpreter.kt:44-55 | the same for local loads and saves, functions and tail calls |
| Interpreters.Interpreter.NamespaceStep | src/main/kotlin/tomwamt/eagersnek/run/Interpreter.kt:50-61 | the same for namespace saves, namespace and type creation and imports |
| Interpreters.Interpreter.PushResult | src/main/kotlin/tomwamt/eagersnek/run/Interpreter.kt:44-45 | pushes a found value, or raises the lookup's exception and leaves the stack |
| Interpreters.Interpreter.PushAll | src/main/kotlin/tomwamt/eagersnek/run/Interpreter.kt:103 | pushes the values in order |
| Interpreters.Interpreter.PopArgs | src/main/kotlin/tomwamt/eagersnek/run/Interpreter.kt:150 | pops `n` values, first popped first; short stacks raise |
| Interpreters.Interpreter.FindDeclaration | src/main/kotlin/tomwamt/eagersnek/run/Interpreter.kt:188-193 | the value the running frame's scope chain holds for the declaration, or the exception for one not yet assigned |
| Interpreters.Interpreter.MatchTop | src/main/kotlin/tomwamt/eagersnek/run/Interpreter.kt:109-142 | pops the top and tells whether it matches, as the reference says |
| Interpreters.Interpreter.Decompose | src/main/kotlin/tomwamt/eagersnek/run/Interpreter.kt:67-107 | ends as the reference decompose says |
| Interpreters.Interpreter.SaveLocal | src/main/kotlin/tomwamt/eagersnek/run/Interpreter.kt:49 | pops the value into the running frame's scope |
| Interpreters.Interpreter.SaveNamespace | src/main/kotlin/tomwamt/eagersnek/run/Interpreter.kt:50 | pops the value into the namespace's bindings |
| Interpreters.Interpreter.MakeNamespace | src/main/kotlin/tomwamt/eagersnek/run/Interpreter.kt:164-173 | the walk down the path, creating missing namespaces, ends as the reference says |
| Interpreters.Interpreter.MakeType | src/main/kotlin/tomwamt/eagersnek/run/Interpreter.kt:175-182 | registers the new type and its cases as the reference says |
| Interpreters.Interpreter.TailCall | src/main/kotlin/tomwamt/eagersnek/run/Interpreter.kt:157-162 | replaces the running frame's scope, as the reference says |
| Interpreters.Interpreter.Call | src/main/kotlin/tomwamt/eagersnek/run/Interpreter.kt:144-155 | pops the callee and the arguments, then invokes, makes a partial application or raises, as the reference says |
| Interpreters.Interpreter.Invoke | src/main/kotlin/tomwamt/eagersnek/run/Interpreter.kt:148 | runs a compiled function in a new frame and scope, applies a partial application's arguments, or builds an instance |
| Interpreters.PoppedStep | src/main/kotlin/tomwamt/eagersnek/run/Interpreter.kt:150 | after one more pop, the popped values are still the reversed top of the original stack and the stack holds the rest |
| Modules.Import | src/main/kotlin/tomwamt/eagersnek/run/Module.kt:27-37 | the source's bindings and types overwrite the target's, and the target's other entries stay; the sub-namespaces are the target's plus the source's public ones; untouched sub-namespaces stay as they were |
| Modules.MergedAdd | src/main/kotlin/tomwamt/eagersnek/run/Module.kt:31-36 | merging one more public sub-namespace updates just that entry |
| Modules.MergedSkip | src/main/kotlin/tomwamt/eagersnek/run/Module.kt:32 | a private sub-namespace changes nothing |
| Modules.ChildOrNew | src/main/kotlin/tomwamt/eagersnek/run/Module.kt:34 | `computeIfAbsent`: the existing child, or a new public one |
| Modules.Merge | src/main/kotlin/tomwamt/eagersnek/run/Module.kt:27-37 | the loops of import give exactly `Import` |
| Modules.PutAll | src/main/kotlin/tomwamt/eagersnek/run/Module.kt:28-29 | every entry of the source overwrites the target's entry of the same name |
| Modules.Module.ImportInto | src/main/kotlin/tomwamt/eagersnek/run/Module.kt:23-25 | the module's namespace merged into the target |
| Modules.ExportedMerged | src/main/kotlin/tomwamt/eagersnek/run/Module.kt:31-36 | a public sub-namespace is merged into the target's one of that name, created public when missing |
| Modules.ImportAlongPath | src/main/kotlin/tomwamt/eagersnek/run/Module.kt:27-37 | along a path of public namespaces, the result is the source's namespace there merged into the target's |
| Modules.ImportedName | src/main/kotlin/tomwamt/eagersnek/run/Module.kt:27-37 | a name the source binds under public namespaces has the same value after the import |
| Modules.PrivateNotImported | src/main/kotlin/tomwamt/eagersnek/run/Module.kt:32 | nothing of a private sub-namespace reaches a target that lacks it |
| Modules.ImportIdempotent | src/main/kotlin/tomwamt/eagersnek/run/Module.kt:27-37 | importing the same namespace twice is the same as once |
| Modules.ImportSubnamesIdempotent | src/main/kotlin/tomwamt/eagersnek/run/Module.kt:31-36 | the same for the sub-namespaces |
| Dispatch.FirstMatchSpec | src/main/kotlin/tomwamt/eagersnek/code/CodeGen.kt:210-214 | the index found is the first pattern, in case order, that the value matches, every earlier one failing; none is found exactly when no pattern matches; a pattern test that raises stops the search with its exception |
| Dispatch.TestStep | src/main/kotlin/tomwamt/eagersnek/run/Interpreter.kt:39-43 | a `Duplicate` then `JumpIfMatch` with the value on top leaves the stack unchanged and continues at the target when the value matches, at the next test when it does not, and raises what the test raises |
| Dispatch.TableDispatch | src/main/kotlin/tomwamt/eagersnek/run/Interpreter.kt:29-43 | running a table of such tests continues at the target of the first matching pattern, or just past the table when none matches, with the stack unchanged |
| MatchRun.MatchDispatch | src/main/kotlin/tomwamt/eagersnek/code/CodeGen.kt:197-220 | the generated match code, run with the scrutinee on top, reaches the start of the first matching case with the scrutinee still on top for the case's save code, and raises "Fail: no match" when no case matches |
| MatchRun.CaseInMatchCode | src/main/kotlin/tomwamt/eagersnek/code/CodeGen.kt:217-226 | in match code placed in a function's code, with the cases laid out from just after `Fail`, case `k`'s code sits at its start and is followed by its jump to the final `NoOp` |
| MatchRun.GeneratedMatchAt | src/main/kotlin/tomwamt/eagersnek/code/CodeGen.kt:197-227 | the code genMatch emits is match code whose cases start just after the scrutinee's code, the tests and `Fail`; the patterns are the cases' converted parameters and the cases are the generated lambdas, so the dispatch lemmas apply to it |

## Left out

- Numbers are Kotlin `Double`s. Here they are unbounded integers, so rounding, NaN and fractional literals are not modelled.
- `ImportAll` and `ImportNames` at run time end with an `Unmodelled` outcome. They read and run another file (`Module.fromFile`, which is file I/O followed by a parse); `importNameInto` is not part of this model. `Module.importInto` and `import` themselves are modelled as `Modules.Import`.
- The interpreter does not load the prelude module `predef` (file I/O). Its constructor starts from the built-in root namespace only.
- `exec` prints an `InterpreterException` and the call-stack trace to standard error. The model returns the exception instead. The per-frame `srcLine` that only feeds that trace is not kept.
- Namespaces and scopes are values: the root namespace is a field that is replaced, and scopes live in an arena indexed by number. Aliasing between namespace objects, which Kotlin would show if two paths shared one namespace object, is not modelled.
- Kotlin objects are compared by identity. Type cases carry a tag that stands for that; declarations and name nodes carry the parser's id.
- `CompiledFunction.call`, `PartialFunction`, `Constructor`, `CallFrame.tailCall`, `Namespace.addType` and the namespace lookups `findNamespace`/`find*` are not part of this model. They are modelled from their use in Interpreter.kt, and the model assumes the following of them.
  - A compiled call pushes a frame with a new child scope of the closure's scope, runs the code and pops the frame.
  - `CallFrame.tailCall()` (Interpreter.kt:161) keeps the running frame and gives it a new child scope of the function's closure scope, so the parameters are saved afresh; execution restarts at instruction 0.
  - `Namespace.addType(parent)` (Interpreter.kt:181) registers the parent type under its name, then each case in order under the case's name, both as a type and as a binding. The binding is the case's one instance when it has no fields, and a constructor function otherwise. A case entry written later overwrites an earlier entry of the same name.
- The run loop and calls take a fuel bound. A run that would not finish within it ends with `OutOfFuel`: non-termination is not distinguished from a long run.
- The "Too many arguments" message omits the function's text form, and a label's display text is shortened. The words of host exceptions (empty stack, missing name) are not the JVM's.
- `LoadFunction` holds a function's code already resolved: its labels are all attached before the instruction is emitted.
- The `else -> unsupported opcode` branch of `run` cannot be reached, because every instruction in the model is handled. The `PushScope`/`PopScope` opcodes are never generated and are not modelled.
- Modules.Merge: Kotlin iterates maps in insertion order. Keys are distinct, so the order does not change the result, and the model does not fix one.
- The depth of the host's own call stack (a JVM stack overflow on deep recursion) is not modelled.
- code/CompiledCode.kt declares no `currentLine` and stores bare opcodes. code/CodeGen.kt:132 sets a current line, and run/Interpreter.kt:32 reads a line with each instruction. The model follows those two files: every instruction carries the line that was current when it was added. The current line is assumed to belong to each buffer and to start at 0. A lambda's fresh buffer (`CodeGen.LambdaBody`) therefore gives line 0 to its parameter-save instructions, until the body's first expression sets the line.
- Builtin.MakeRootNamespace: the root is assumed public. run/Builtin.kt:12 builds it with `Namespace()`, and the default of that constructor's visibility is not part of this model (run/Namespace.kt as given has no visibility field). A public default is the one under which top-level code can create public namespaces at all: with a private root, every public `MkNamespace` would raise at run/Interpreter.kt:167. `SemanticsFacts.MakePathRaises` and every run that creates a public namespace rest on this choice.
