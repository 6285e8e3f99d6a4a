/**
 * The abstract syntax tree the parser hands to the resolver and the compiler
 * (the shapes `parse/ASTParser.kt` builds). Nodes whose identity the resolver
 * keys maps by (a `NamePattern`, a `QualifiedName`) carry an `id`: the parser
 * creates a fresh object for each, and the id stands for that object.
 */
module Ast {
  import opened Wrappers

  /** A constant literal. A number's text is taken as already converted to its value. */
  datatype ConstLiteral =
    | NumberLit(line: int, num: int)
    | StringLit(line: int, text: string)  // the token text, quotes included
    | UnitLit(line: int)
    | EmptyListLit(line: int)

  datatype Pattern =
    | WildcardPattern
    | NamePattern(id: nat, line: int, value: string)
    | ConstPattern(lit: ConstLiteral)
    | ListPattern(inners: seq<Pattern>)
    | TypePattern(name: seq<string>, params: seq<Pattern>)

  datatype Expr =
    | CallExpr(line: int, callable: Expr, args: seq<Expr>)
    | DotExpr(line: int)  // the `.` self marker of a tail call
    | LambdaExpr(line: int, params: seq<Pattern>, block: Block)
    | ListExpr(line: int, elements: seq<Block>)
    | ConstExpr(lit: ConstLiteral)
    | QualifiedName(id: nat, line: int, parts: seq<string>)
  {
    /** The source line every expression node records. */
    function Line(): int {
      match this
      case CallExpr(l, _, _) => l
      case DotExpr(l) => l
      case LambdaExpr(l, _, _) => l
      case ListExpr(l, _) => l
      case ConstExpr(lit) => lit.line
      case QualifiedName(_, l, _) => l
    }
  }

  /** Local bindings followed by the expression whose value the block has. */
  datatype Block = Block(bindings: seq<Binding>, expr: Expr)

  datatype Binding = Binding(pattern: Pattern, block: Block, public: bool)

  /** One case of a type declaration: its name and the names of its fields. */
  datatype TypeCaseDecl = TypeCaseDecl(name: string, params: seq<string>)

  datatype NamespaceDecl = NamespaceDecl(name: seq<string>, public: bool, decls: seq<Decl>)

  datatype Decl =
    | NamespaceD(ns: NamespaceDecl)
    | TypeDecl(name: seq<string>, public: bool, cases: seq<TypeCaseDecl>, namespace: Option<NamespaceDecl>)
    | BindingD(binding: Binding)

  /** `import a b.c from "file"`; no names means import everything. */
  datatype ImportStmt = ImportStmt(filename: string, names: seq<seq<string>>)

  /** The parser only ever builds a call as a file's trailing expression. */
  type CallExpression = e: Expr | e.CallExpr? witness CallExpr(0, DotExpr(0), [])

  /** A parsed file: imports, the root namespace (empty name) and an optional top-level call. */
  datatype Program = Program(imports: seq<ImportStmt>, root: NamespaceDecl, expr: Option<CallExpression>)
}
