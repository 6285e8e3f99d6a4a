/**
 * The code generator of code/CodeGen.kt: it walks the syntax tree once and appends
 * instructions to a `CompiledCode` buffer, setting the buffer's current line as it goes.
 * Every method is proved against the function of the same name in `CodeGenSpec`: when
 * that function succeeds, the method appends exactly the instructions it gives (after
 * label resolution) and leaves the current line where it says; when the function raises,
 * the method raises the same exception.
 */
module CodeGen {
  import opened Wrappers
  import opened Ast
  import opened Resolver
  import opened Instructions
  import opened Labels
  import opened Compiled
  import S = CodeGenSpec

  /**
   * What a generation step did to `code`, measured against its specification: on success
   * the resolved code grew from `pre` by `spec`'s instructions, the current line is
   * `spec`'s and every label that was pending still is; on failure the same exception
   * was raised.
   */
  ghost predicate Emits(code: CompiledCode, pre: seq<Instr<nat>>, pending: set<Label>, r: Outcome<CodeGenError>, spec: Result<S.Emitted, CodeGenError>)
    reads code
  {
    && (spec.Success? ==> r.Pass? && code.out == pre + spec.value.code && code.currentLine == spec.value.line && code.pending == pending)
    && (spec.Failure? ==> r == Raised(spec.error))
  }

  /** The same for save code, which changes neither the current line nor the labels. */
  ghost predicate Saves(code: CompiledCode, pre: seq<Instr<nat>>, r: Outcome<CodeGenError>, spec: Result<seq<Instr<nat>>, CodeGenError>)
    reads code
  {
    && (spec.Success? ==> r.Pass? && code.out == pre + spec.value)
    && (spec.Failure? ==> r == Raised(spec.error))
  }

  /** Code appended in two steps is the first step's code followed by the second's. */
  lemma Regroup(a: seq<Instr<nat>>, b: seq<Instr<nat>>, c: seq<Instr<nat>>)
    ensures a + b + c == a + (b + c)
  {
  }

  /** Each label is known to `env`, at the index `starts` gives for it. */
  ghost predicate LabelsAt(env: map<Label, nat>, labels: seq<Label>, starts: seq<nat>) {
    && |labels| == |starts|
    && forall j :: 0 <= j < |labels| ==> labels[j] in env && env[labels[j]] == starts[j]
  }

  /** The first `n` labels of a list, as a set. */
  function LabelsUpTo(labels: seq<Label>, n: nat): set<Label>
    requires n <= |labels|
  {
    if n == 0 then {} else LabelsUpTo(labels, n - 1) + {labels[n - 1]}
  }

  class CodeGen {
    const ast: Program
    const bindings: Bindings

    /** The generator for one program, holding the resolver's bindings for it. */
    constructor(ast: Program)
      ensures this.ast == ast
      ensures bindings == ResolveProgram(ast)
    {
      this.ast := ast;
      var rb := Resolve(ast);
      bindings := rb.Contents();
    }

    /** compile: generation against the resolver's bindings for the same tree. */
    static method Compile(ast: Program) returns (r: Result<CompiledCode, CodeGenError>)
      ensures S.Compile(ast).Success? ==>
        && r.Success? && fresh(r.value)
        && AllAttached(r.value.code) && ResolveCode(r.value.code) == S.Compile(ast).value
      ensures S.Compile(ast).Failure? ==> r == Failure(S.Compile(ast).error)
    {
      var gen := new CodeGen(ast);
      r := gen.Generate();
    }

    /**
     * generate: into a fresh buffer, the imports, the root namespace, then the top-level
     * call. The result has every label attached, and resolves to what the specification says.
     */
    method Generate() returns (r: Result<CompiledCode, CodeGenError>)
      ensures S.Generate(bindings, ast).Success? ==>
        && r.Success? && fresh(r.value)
        && AllAttached(r.value.code) && ResolveCode(r.value.code) == S.Generate(bindings, ast).value
      ensures S.Generate(bindings, ast).Failure? ==> r == Failure(S.Generate(bindings, ast).error)
    {
      var code := new CompiledCode();
      var o := GenImports(code, ast.imports);
      if o.Pass? {
        ghost var imports := code.out;
        o := GenNamespace(code, ast.root, []);
        if o.Pass? && ast.expr.Some? {
          ghost var root := S.GenNamespace(bindings, ast.root, [], |imports|, 0).value;
          o := GenCall(code, ast.expr.value, false);
        }
      }
      if o.Raised? {
        r := Failure(o.error);
      } else {
        Finished(code);
        r := Success(code);
      }
    }

    /** The imports in order, each on line 0, stopping at the first that raises. */
    static method GenImports(code: CompiledCode, imps: seq<ImportStmt>) returns (r: Outcome<CodeGenError>)
      requires code.Valid() && code.out == [] && code.pending == {} && code.currentLine == 0
      modifies code
      ensures code.Valid() && code.pending == {} && code.currentLine == 0
      ensures S.GenImports(imps, |imps|, 0).Success? ==> r.Pass? && code.out == S.GenImports(imps, |imps|, 0).value
      ensures S.GenImports(imps, |imps|, 0).Failure? ==> r == Raised(S.GenImports(imps, |imps|, 0).error)
    {
      var i := 0;
      r := Pass;
      while i < |imps| && r.Pass?
        invariant 0 <= i <= |imps|
        invariant code.Valid() && code.pending == {} && code.currentLine == 0
        invariant r.Pass? ==> S.GenImports(imps, i, 0) == Success(code.out)
        invariant r.Raised? ==> S.GenImports(imps, |imps|, 0) == Failure(r.error)
      {
        r := GenImport(code, imps[i]);
        if r.Raised? {
          S.GenImportsFails(imps, i, |imps|, 0);
        }
        i := i + 1;
      }
    }

    /** genImport: one import of the file named without its quotes, of everything or of the given names. */
    static method GenImport(code: CompiledCode, imp: ImportStmt) returns (r: Outcome<CodeGenError>)
      requires code.Valid()
      modifies code
      ensures code.Valid() && code.env == old(code.env) && code.pending == old(code.pending)
      ensures code.currentLine == old(code.currentLine)
      ensures S.ImportOp<nat>(imp).Success? ==>
        r.Pass? && code.out == old(code.out) + [Instr(old(code.currentLine), S.ImportOp<nat>(imp).value)]
      ensures S.ImportOp<nat>(imp).Failure? ==> r == Raised(S.ImportOp<nat>(imp).error)
    {
      var file := S.TrimQuotes(imp.filename);
      if file.Failure? {
        return Raised(file.error);
      }
      if imp.names == [] {
        code.Add(ImportAll(file.value));
      } else {
        code.Add(ImportNames(file.value, imp.names));
      }
      r := Pass;
    }

    /* ------------------------------------------------------------ declarations */

    /** genNamespace: a `MkNamespace` unless this is the root, then every member under the full name. */
    method GenNamespace(code: CompiledCode, ns: NamespaceDecl, parent: seq<string>) returns (r: Outcome<CodeGenError>)
      requires code.Valid()
      modifies code
      decreases ns, 2
      ensures code.Valid() && SubMap(old(code.env), code.env)
      ensures Emits(code, old(code.out), old(code.pending), r, S.GenNamespace(bindings, ns, parent, |old(code.out)|, old(code.currentLine)))
    {
      ghost var pre := code.out;
      ghost var line := code.currentLine;
      var name := parent + ns.name;
      ghost var head: seq<Instr<nat>> := [];
      if |name| > 0 {
        if |ns.name| == 0 {
          return Raised(HostError("Index 0 out of bounds"));
        }
        code.Add(MkNamespace(name, ns.name[0], ns.public));
        head := [Instr(line, MkNamespace(name, ns.name[0], ns.public))];
      }
      r := GenDecls(code, ns.decls, name);
      if r.Pass? {
        Regroup(pre, head, S.GenDecls(bindings, ns.decls, |ns.decls|, name, |pre| + |head|, line).value.code);
      }
    }

    /** The members of a namespace in order, each saved under the namespace's full name. */
    method GenDecls(code: CompiledCode, ds: seq<Decl>, parent: seq<string>) returns (r: Outcome<CodeGenError>)
      requires code.Valid()
      modifies code
      decreases ds, 0
      ensures code.Valid() && SubMap(old(code.env), code.env)
      ensures Emits(code, old(code.out), old(code.pending), r, S.GenDecls(bindings, ds, |ds|, parent, |old(code.out)|, old(code.currentLine)))
    {
      ghost var pre := code.out;
      ghost var line := code.currentLine;
      ghost var acc := S.Emitted([], line);
      var i := 0;
      while i < |ds|
        invariant 0 <= i <= |ds|
        invariant S.GenDecls(bindings, ds, i, parent, |pre|, line) == Success(acc)
        invariant code.Valid() && SubMap(old(code.env), code.env) && code.pending == old(code.pending)
        invariant code.out == pre + acc.code && code.currentLine == acc.line
      {
        r := GenDecl(code, ds[i], parent);
        if r.Raised? {
          S.GenDeclsFails(bindings, ds, i, |ds|, parent, |pre|, line);
          return;
        }
        ghost var last := S.GenDecl(bindings, ds[i], parent, |pre| + |acc.code|, acc.line).value;
        Regroup(pre, acc.code, last.code);
        acc := S.Emitted(acc.code + last.code, last.line);
        i := i + 1;
      }
      r := Pass;
    }

    /** genDecl: a nested namespace, a type, or a member binding saved under the namespace if it is public. */
    method GenDecl(code: CompiledCode, d: Decl, parent: seq<string>) returns (r: Outcome<CodeGenError>)
      requires code.Valid()
      modifies code
      decreases d, 1
      ensures code.Valid() && SubMap(old(code.env), code.env)
      ensures Emits(code, old(code.out), old(code.pending), r, S.GenDecl(bindings, d, parent, |old(code.out)|, old(code.currentLine)))
    {
      match d
      case NamespaceD(ns) =>
        r := GenNamespace(code, ns, parent);
      case TypeDecl(_, _, _, _) =>
        r := GenType(code, d, parent);
      case BindingD(bnd) =>
        ghost var pre := code.out;
        r := GenBlock(code, bnd.block, false);
        if r.Raised? {
          return;
        }
        ghost var rhs := S.GenBlock(bindings, bnd.block, false, |pre|, old(code.currentLine)).value;
        r := SavePattern(code, bnd.pattern, if bnd.public then Some(parent) else None);
        if r.Raised? {
          return;
        }
        Regroup(pre, rhs.code, S.SavePattern(bindings, bnd.pattern, if bnd.public then Some(parent) else None, rhs.line).value);
    }

    /** genType: a `MkType` of the last name part in the namespace of the others, then the type's own namespace. */
    method GenType(code: CompiledCode, d: Decl, parent: seq<string>) returns (r: Outcome<CodeGenError>)
      requires d.TypeDecl? && code.Valid()
      modifies code
      decreases d, 0
      ensures code.Valid() && SubMap(old(code.env), code.env)
      ensures Emits(code, old(code.out), old(code.pending), r, S.GenDecl(bindings, d, parent, |old(code.out)|, old(code.currentLine)))
    {
      if |d.name| == 0 {
        return Raised(HostError("List is empty"));
      }
      ghost var pre := code.out;
      var name := d.name[|d.name| - 1];
      var ns := parent + d.name[..|d.name| - 1];
      code.Add(MkType(name, ns, d.cases));
      ghost var mk := [Instr(old(code.currentLine), MkType(name, ns, d.cases))];
      if d.namespace.Some? {
        r := GenNamespace(code, d.namespace.value, parent);
        ghost var members := S.GenNamespace(bindings, d.namespace.value, parent, |pre| + 1, old(code.currentLine));
        assert S.GenTypeNamespace(bindings, d.namespace, parent, |pre| + 1, old(code.currentLine)) == members;
        if members.Success? {
          Regroup(pre, mk, members.value.code);
        }
      } else {
        r := Pass;
        assert S.GenTypeNamespace(bindings, d.namespace, parent, |pre| + 1, old(code.currentLine)) == Success(S.Emitted([], old(code.currentLine)));
        assert mk + [] == mk;
      }
    }

    /* ------------------------------------------------------------ savePattern */

    /** savePattern: store the value on top of the stack into the pattern's names, or check it. */
    method SavePattern(code: CompiledCode, p: Pattern, ns: Option<seq<string>>) returns (r: Outcome<CodeGenError>)
      requires code.Valid()
      modifies code
      decreases p, 2
      ensures code.Valid() && code.env == old(code.env) && code.pending == old(code.pending)
      ensures code.currentLine == old(code.currentLine)
      ensures Saves(code, old(code.out), r, S.SavePattern(bindings, p, ns, old(code.currentLine)))
    {
      match p
      case WildcardPattern =>
        code.Add(Pop);
        r := Pass;
      case ConstPattern(_) =>
        var m := S.ConvertPattern(p);
        if m.Failure? {
          return Raised(m.error);
        }
        code.Add(Match(m.value));
        r := Pass;
      case NamePattern(_, _, _) =>
        r := SaveName(code, p, ns);
      case ListPattern(_) =>
        r := SaveList(code, p, ns);
      case TypePattern(_, _) =>
        r := SaveType(code, p, ns);
    }

    /** saveName: publish into the namespace first if there is one, then store the local. */
    method SaveName(code: CompiledCode, p: Pattern, ns: Option<seq<string>>) returns (r: Outcome<CodeGenError>)
      requires p.NamePattern? && code.Valid()
      modifies code
      ensures code.Valid() && code.env == old(code.env) && code.pending == old(code.pending)
      ensures code.currentLine == old(code.currentLine)
      ensures Saves(code, old(code.out), r, S.SaveName(bindings, p, ns, old(code.currentLine)))
    {
      ghost var pre := code.out;
      ghost var line := code.currentLine;
      ghost var publish: seq<Instr<nat>> := [];
      if ns.Some? {
        code.Add(Duplicate);
        code.Add(SaveNamespace(p.value, ns.value));
        publish := [Instr(line, Duplicate), Instr(line, SaveNamespace(p.value, ns.value))];
        assert code.out == pre + publish;
      }
      if p.id !in bindings.declarations {
        return Raised(S.UnknownDeclaration(p));
      }
      code.Add(SaveLocal(bindings.declarations[p.id]));
      Regroup(pre, publish, [Instr(line, SaveLocal(bindings.declarations[p.id]))]);
      r := Pass;
    }

    /** saveList: for each element, split off the head and save it; then check the rest is empty. */
    method SaveList(code: CompiledCode, p: Pattern, ns: Option<seq<string>>) returns (r: Outcome<CodeGenError>)
      requires p.ListPattern? && code.Valid()
      modifies code
      decreases p, 1
      ensures code.Valid() && code.env == old(code.env) && code.pending == old(code.pending)
      ensures code.currentLine == old(code.currentLine)
      ensures Saves(code, old(code.out), r, S.SavePattern(bindings, p, ns, old(code.currentLine)))
    {
      ghost var pre := code.out;
      ghost var line := code.currentLine;
      ghost var acc: seq<Instr<nat>> := [];
      var i := 0;
      while i < |p.inners|
        invariant 0 <= i <= |p.inners|
        invariant S.SaveListItems(bindings, p.inners, i, ns, line) == Success(acc)
        invariant code.Valid() && code.env == old(code.env) && code.pending == old(code.pending)
        invariant code.out == pre + acc && code.currentLine == line
      {
        code.Add(Decompose(ListConsName, 2));
        ghost var front := acc + [Instr(line, Decompose(ListConsName, 2))];
        Regroup(pre, acc, [Instr(line, Decompose(ListConsName, 2))]);
        r := SavePattern(code, p.inners[i], ns);
        if r.Raised? {
          S.SaveListItemsFails(bindings, p.inners, i, |p.inners|, ns, line);
          return;
        }
        ghost var item := S.SavePattern(bindings, p.inners[i], ns, line).value;
        Regroup(pre, front, item);
        acc := front + item;
        i := i + 1;
      }
      code.Add(Decompose(EmptyListName, 0));
      Regroup(pre, acc, [Instr(line, Decompose(EmptyListName, 0))]);
      r := Pass;
    }

    /** saveType: split the value into its fields, then save each field in order. */
    method SaveType(code: CompiledCode, p: Pattern, ns: Option<seq<string>>) returns (r: Outcome<CodeGenError>)
      requires p.TypePattern? && code.Valid()
      modifies code
      decreases p, 1
      ensures code.Valid() && code.env == old(code.env) && code.pending == old(code.pending)
      ensures code.currentLine == old(code.currentLine)
      ensures Saves(code, old(code.out), r, S.SavePattern(bindings, p, ns, old(code.currentLine)))
    {
      ghost var pre := code.out;
      code.Add(Decompose(p.name, |p.params|));
      ghost var head := [Instr(old(code.currentLine), Decompose(p.name, |p.params|))];
      r := SaveAll(code, p.params, ns);
      if r.Raised? {
        return;
      }
      Regroup(pre, head, S.SaveAll(bindings, p.params, |p.params|, ns, old(code.currentLine)).value);
    }

    /** Each of the patterns in order, as saveType does with its fields and genLambda with its parameters. */
    method SaveAll(code: CompiledCode, ps: seq<Pattern>, ns: Option<seq<string>>) returns (r: Outcome<CodeGenError>)
      requires code.Valid()
      modifies code
      decreases ps, 0
      ensures code.Valid() && code.env == old(code.env) && code.pending == old(code.pending)
      ensures code.currentLine == old(code.currentLine)
      ensures Saves(code, old(code.out), r, S.SaveAll(bindings, ps, |ps|, ns, old(code.currentLine)))
    {
      ghost var pre := code.out;
      ghost var line := code.currentLine;
      ghost var acc: seq<Instr<nat>> := [];
      var i := 0;
      while i < |ps|
        invariant 0 <= i <= |ps|
        invariant S.SaveAll(bindings, ps, i, ns, line) == Success(acc)
        invariant code.Valid() && code.env == old(code.env) && code.pending == old(code.pending)
        invariant code.out == pre + acc && code.currentLine == line
      {
        r := SavePattern(code, ps[i], ns);
        if r.Raised? {
          S.SaveAllFails(bindings, ps, i, |ps|, ns, line);
          return;
        }
        ghost var item := S.SavePattern(bindings, ps[i], ns, line).value;
        Regroup(pre, acc, item);
        acc := acc + item;
        i := i + 1;
      }
      r := Pass;
    }

    /* ------------------------------------------------------------ expressions */

    /** gen(Block): each binding's right-hand side and then its pattern, then the trailing expression. */
    method GenBlock(code: CompiledCode, blk: Block, allowTail: bool) returns (r: Outcome<CodeGenError>)
      requires code.Valid()
      modifies code
      decreases blk, 2
      ensures code.Valid() && SubMap(old(code.env), code.env)
      ensures Emits(code, old(code.out), old(code.pending), r, S.GenBlock(bindings, blk, allowTail, |old(code.out)|, old(code.currentLine)))
    {
      ghost var pre := code.out;
      ghost var line := code.currentLine;
      ghost var acc := S.Emitted([], line);
      var i := 0;
      while i < |blk.bindings|
        invariant 0 <= i <= |blk.bindings|
        invariant S.GenBindings(bindings, blk.bindings, i, |pre|, line) == Success(acc)
        invariant code.Valid() && SubMap(old(code.env), code.env) && code.pending == old(code.pending)
        invariant code.out == pre + acc.code && code.currentLine == acc.line
      {
        r := GenLocalBinding(code, blk.bindings[i]);
        if r.Raised? {
          S.GenBindingsFails(bindings, blk.bindings, i, |blk.bindings|, |pre|, line);
          return;
        }
        ghost var last := S.GenLocalBinding(bindings, blk.bindings[i], |pre| + |acc.code|, acc.line).value;
        Regroup(pre, acc.code, last.code);
        acc := S.Emitted(acc.code + last.code, last.line);
        i := i + 1;
      }
      r := GenExpr(code, blk.expr, allowTail);
      if r.Raised? {
        return;
      }
      Regroup(pre, acc.code, S.GenExpr(bindings, blk.expr, allowTail, |pre| + |acc.code|, acc.line).value.code);
    }

    /** One binding of a block: its right-hand side, never in tail position, then its pattern. */
    method GenLocalBinding(code: CompiledCode, bnd: Binding) returns (r: Outcome<CodeGenError>)
      requires code.Valid()
      modifies code
      decreases bnd, 1
      ensures code.Valid() && SubMap(old(code.env), code.env)
      ensures Emits(code, old(code.out), old(code.pending), r, S.GenLocalBinding(bindings, bnd, |old(code.out)|, old(code.currentLine)))
    {
      ghost var pre := code.out;
      r := GenBlock(code, bnd.block, false);
      if r.Raised? {
        return;
      }
      ghost var rhs := S.GenBlock(bindings, bnd.block, false, |pre|, old(code.currentLine)).value;
      r := SavePattern(code, bnd.pattern, None);
      if r.Raised? {
        return;
      }
      Regroup(pre, rhs.code, S.SavePattern(bindings, bnd.pattern, None, rhs.line).value);
    }

    /** gen(Expr): the current line becomes the expression's own line, then each kind has its generator. */
    method GenExpr(code: CompiledCode, e: Expr, allowTail: bool) returns (r: Outcome<CodeGenError>)
      requires code.Valid()
      modifies code
      decreases e, 2
      ensures code.Valid() && SubMap(old(code.env), code.env)
      ensures Emits(code, old(code.out), old(code.pending), r, S.GenExpr(bindings, e, allowTail, |old(code.out)|, old(code.currentLine)))
    {
      code.currentLine := e.Line();
      match e
      case ConstExpr(lit) =>
        r := GenConst(code, lit);
      case QualifiedName(_, _, _) =>
        GenName(code, e);
        r := Pass;
      case ListExpr(_, _) =>
        r := GenList(code, e);
      case CallExpr(_, _, _) =>
        r := GenCall(code, e, allowTail);
      case LambdaExpr(_, _, _) =>
        r := GenLambda(code, e);
      case DotExpr(_) =>
        r := Raised(HostError("DotExpr is not supported"));
    }

    /** genConst: one load of the literal's value; a string literal loses its quotes. */
    method GenConst(code: CompiledCode, lit: ConstLiteral) returns (r: Outcome<CodeGenError>)
      requires code.Valid()
      modifies code
      ensures code.Valid() && code.env == old(code.env) && code.pending == old(code.pending)
      ensures code.currentLine == old(code.currentLine)
      ensures S.ConstOp<nat>(lit).Success? ==>
        r.Pass? && code.out == old(code.out) + [Instr(old(code.currentLine), S.ConstOp<nat>(lit).value)]
      ensures S.ConstOp<nat>(lit).Failure? ==> r == Raised(S.ConstOp<nat>(lit).error)
    {
      match lit {
        case NumberLit(_, num) =>
          code.Add(LoadNumber(num));
        case StringLit(_, text) =>
          var t := S.TrimQuotes(text);
          if t.Failure? {
            return Raised(t.error);
          }
          code.Add(LoadString(t.value));
        case UnitLit(_) =>
          code.Add(LoadName(UnitName));
        case EmptyListLit(_) =>
          code.Add(LoadName(EmptyListName));
      }
      r := Pass;
    }

    /** genName: a name the resolver linked loads that local; any other name is looked up by its path. */
    method GenName(code: CompiledCode, e: Expr)
      requires e.QualifiedName? && code.Valid()
      modifies code
      ensures code.Valid() && code.env == old(code.env) && code.pending == old(code.pending)
      ensures code.currentLine == old(code.currentLine)
      ensures code.out == old(code.out) + [Instr(old(code.currentLine), S.NameOp<nat>(bindings, e))]
    {
      if e.id in bindings.usages {
        code.Add(LoadLocal(bindings.usages[e.id]));
      } else {
        code.Add(LoadName(e.parts));
      }
    }

    /** genList: `Empty`, then for each element from the last one: the element, `::` and a call of two. */
    method GenList(code: CompiledCode, e: Expr) returns (r: Outcome<CodeGenError>)
      requires e.ListExpr? && code.Valid()
      modifies code
      decreases e, 1
      ensures code.Valid() && SubMap(old(code.env), code.env)
      ensures Emits(code, old(code.out), old(code.pending), r, S.GenList(bindings, e, |old(code.out)|, old(code.currentLine)))
    {
      ghost var pre := code.out;
      ghost var line := code.currentLine;
      code.Add(LoadName(EmptyListName));
      ghost var acc := S.Emitted([Instr(line, LoadName(EmptyListName))], line);
      var i := 0;
      while i < |e.elements|
        invariant 0 <= i <= |e.elements|
        invariant S.GenListItems(bindings, e.elements, i, |pre|, line) == Success(acc)
        invariant code.Valid() && SubMap(old(code.env), code.env) && code.pending == old(code.pending)
        invariant code.out == pre + acc.code && code.currentLine == acc.line
      {
        r := GenListElement(code, e.elements[|e.elements| - (i + 1)]);
        if r.Raised? {
          S.GenListItemsFails(bindings, e.elements, i, |e.elements|, |pre|, line);
          return;
        }
        ghost var el := S.GenBlock(bindings, e.elements[|e.elements| - (i + 1)], false, |pre| + |acc.code|, acc.line).value;
        Regroup(pre, acc.code, el.code + S.ConsCall(el.line));
        acc := S.Emitted(acc.code + el.code + S.ConsCall(el.line), el.line);
        i := i + 1;
      }
      r := Pass;
    }

    /** One element of a list literal, followed by the cons call that puts it in front of the rest. */
    method GenListElement(code: CompiledCode, el: Block) returns (r: Outcome<CodeGenError>)
      requires code.Valid()
      modifies code
      decreases el, 3
      ensures code.Valid() && SubMap(old(code.env), code.env)
      ensures
        var spec := S.GenBlock(bindings, el, false, |old(code.out)|, old(code.currentLine));
        && (spec.Success? ==>
              && r.Pass? && code.out == old(code.out) + (spec.value.code + S.ConsCall(spec.value.line))
              && code.currentLine == spec.value.line && code.pending == old(code.pending))
        && (spec.Failure? ==> r == Raised(spec.error))
    {
      ghost var pre := code.out;
      r := GenBlock(code, el, false);
      if r.Raised? {
        return;
      }
      ghost var spec := S.GenBlock(bindings, el, false, |pre|, old(code.currentLine)).value;
      code.Add(LoadName(ListConsName));
      code.Add(Call(2));
      assert code.out == pre + spec.code + S.ConsCall(spec.line);
    }

    /**
     * genCall: `match` has its own generator; otherwise the arguments from the last one to
     * the first, then a tail call of the current function, or the callee and a call.
     */
    method GenCall(code: CompiledCode, e: Expr, allowTail: bool) returns (r: Outcome<CodeGenError>)
      requires e.CallExpr? && code.Valid()
      modifies code
      decreases e, 1
      ensures code.Valid() && SubMap(old(code.env), code.env)
      ensures Emits(code, old(code.out), old(code.pending), r, S.GenCall(bindings, e, allowTail, |old(code.out)|, old(code.currentLine)))
    {
      if e.callable.QualifiedName? && |e.callable.parts| == 1 && e.callable.parts[0] == "match" {
        assert e.callable.parts == ["match"];
        r := GenMatch(code, e, allowTail);
        return;
      }
      r := GenPlainCall(code, e, allowTail);
    }

    /** A call that is not a match. */
    method GenPlainCall(code: CompiledCode, e: Expr, allowTail: bool) returns (r: Outcome<CodeGenError>)
      requires e.CallExpr? && code.Valid()
      modifies code
      decreases e, 0
      ensures code.Valid() && SubMap(old(code.env), code.env)
      ensures Emits(code, old(code.out), old(code.pending), r, S.GenPlainCall(bindings, e, allowTail, |old(code.out)|, old(code.currentLine)))
    {
      ghost var pre := code.out;
      r := GenArgs(code, e.args);
      if r.Raised? {
        return;
      }
      ghost var args := S.GenArgs(bindings, e.args, |e.args|, |pre|, old(code.currentLine)).value;
      if e.callable.DotExpr? {
        if !allowTail {
          return Raised(S.TailCallNotAllowed(e));
        }
        code.Add(TailCall(|e.args|));
      } else {
        r := GenExpr(code, e.callable, false);
        if r.Raised? {
          return;
        }
        Regroup(pre, args.code, S.GenExpr(bindings, e.callable, false, |pre| + |args.code|, args.line).value.code);
        code.Add(Call(|e.args|));
      }
      r := Pass;
    }

    /** The arguments of a call, from the last one to the first, none of them in tail position. */
    method GenArgs(code: CompiledCode, args: seq<Expr>) returns (r: Outcome<CodeGenError>)
      requires code.Valid()
      modifies code
      decreases args, 0
      ensures code.Valid() && SubMap(old(code.env), code.env)
      ensures Emits(code, old(code.out), old(code.pending), r, S.GenArgs(bindings, args, |args|, |old(code.out)|, old(code.currentLine)))
    {
      ghost var pre := code.out;
      ghost var line := code.currentLine;
      ghost var acc := S.Emitted([], line);
      var i := 0;
      while i < |args|
        invariant 0 <= i <= |args|
        invariant S.GenArgs(bindings, args, i, |pre|, line) == Success(acc)
        invariant code.Valid() && SubMap(old(code.env), code.env) && code.pending == old(code.pending)
        invariant code.out == pre + acc.code && code.currentLine == acc.line
      {
        r := GenExpr(code, args[|args| - (i + 1)], false);
        if r.Raised? {
          S.GenArgsFails(bindings, args, i, |args|, |pre|, line);
          return;
        }
        ghost var arg := S.GenExpr(bindings, args[|args| - (i + 1)], false, |pre| + |acc.code|, acc.line).value;
        Regroup(pre, acc.code, arg.code);
        acc := S.Emitted(acc.code + arg.code, arg.line);
        i := i + 1;
      }
      r := Pass;
    }

    /**
     * genLambda: the parameters' save code in declared order, then the body in tail
     * position, into a fresh buffer; here, one `LoadFunction` of that code. Every label
     * of the fresh buffer is attached by then, so it is loaded resolved.
     */
    method GenLambda(code: CompiledCode, e: Expr) returns (r: Outcome<CodeGenError>)
      requires e.LambdaExpr? && code.Valid()
      modifies code
      decreases e, 1
      ensures code.Valid() && SubMap(old(code.env), code.env)
      ensures Emits(code, old(code.out), old(code.pending), r, S.GenLambda(bindings, e, old(code.currentLine)))
    {
      var f := LambdaBody(e);
      if f.Failure? {
        return Raised(f.error);
      }
      code.Add(LoadFunction(f.value, |e.params|));
      r := Pass;
    }

    /**
     * The body of a function literal, generated into a buffer of its own and resolved once
     * every label in it is attached.
     */
    method LambdaBody(e: Expr) returns (r: Result<seq<Instr<nat>>, CodeGenError>)
      requires e.LambdaExpr?
      decreases e, 0
      ensures r == S.LambdaBody(bindings, e)
    {
      var body := new CompiledCode();
      var o := SaveAll(body, e.params, None);
      if o.Raised? {
        return Failure(o.error);
      }
      ghost var params := S.SaveAll(bindings, e.params, |e.params|, None, 0).value;
      assert body.out == [] + params && [] + params == params;
      o := GenBlock(body, e.block, true);
      if o.Raised? {
        return Failure(o.error);
      }
      Finished(body);
      r := Success(ResolveCode(body.code));
    }

    /* ------------------------------------------------------------ match */

    /** genMatch: exactly two arguments, the scrutinee, then the case list. */
    method GenMatch(code: CompiledCode, e: Expr, allowTail: bool) returns (r: Outcome<CodeGenError>)
      requires e.CallExpr? && code.Valid()
      modifies code
      decreases e, 0
      ensures code.Valid() && SubMap(old(code.env), code.env)
      ensures Emits(code, old(code.out), old(code.pending), r, S.GenMatch(bindings, e, allowTail, |old(code.out)|, old(code.currentLine)))
    {
      if |e.args| != 2 {
        return Raised(S.MatchArgCount(e));
      }
      ghost var pre := code.out;
      assert S.GenMatch(bindings, e, allowTail, |pre|, code.currentLine) == S.GenMatchArgs(bindings, e.args, allowTail, |pre|, code.currentLine);
      r := GenExpr(code, e.args[0], false);
      if r.Raised? {
        return;
      }
      ghost var scrut := S.GenExpr(bindings, e.args[0], false, |pre|, old(code.currentLine)).value;
      r := GenMatchList(code, e.args[1], allowTail, pre, scrut);
    }

    /** The rest of genMatch: the checks on the case list, each raising at the first offending case. */
    method GenMatchList(code: CompiledCode, list: Expr, allowTail: bool, ghost pre: seq<Instr<nat>>, ghost scrut: S.Emitted)
      returns (r: Outcome<CodeGenError>)
      requires code.Valid() && code.out == pre + scrut.code && code.currentLine == scrut.line
      modifies code
      decreases list, 0
      ensures code.Valid() && SubMap(old(code.env), code.env)
      ensures Emits(code, pre, old(code.pending), r, S.GenMatchList(bindings, list, allowTail, |pre|, scrut))
    {
      if !list.ListExpr? {
        return Raised(CodeGenException("match requires a list as second argument", Some(list.Line())));
      }
      var cs := list.elements;
      var lambdas := S.CheckLambdas(cs, |cs|);
      if lambdas.Raised? {
        return lambdas;
      }
      var arity := S.CheckArity(cs, |cs|);
      if arity.Raised? {
        return arity;
      }
      r := GenMatchBody(code, cs, allowTail, pre, scrut);
    }

    /**
     * One fresh label per case, planned where its case will start; for each case a
     * `Duplicate` and a jump to its label if the copy matches; `Fail`; then the cases.
     */
    method GenMatchBody(code: CompiledCode, cs: seq<Block>, allowTail: bool, ghost pre: seq<Instr<nat>>, ghost scrut: S.Emitted)
      returns (r: Outcome<CodeGenError>)
      requires S.MatchCases(cs) && code.Valid() && code.out == pre + scrut.code && code.currentLine == scrut.line
      modifies code
      decreases cs, |cs| + 4
      ensures code.Valid() && SubMap(old(code.env), code.env)
      ensures Emits(code, pre, old(code.pending), r, S.GenMatchBody(bindings, cs, allowTail, |pre|, scrut))
    {
      var labels, caseSet := NewLabels(code, |cs|);
      ghost var casesBase := |pre| + |scrut.code| + 2 * |cs| + 1;
      ghost var starts := PlanCases(code, cs, labels, caseSet, allowTail, casesBase, scrut.line);
      r := GenMatchPlanned(code, cs, labels, caseSet, allowTail, pre, scrut, starts, code.pending, code.env, casesBase);
      PlannedDone(old(code.pending), caseSet);
    }

    /** The match once its case labels are planned: the test table, `Fail`, then the cases. */
    method GenMatchPlanned(code: CompiledCode, cs: seq<Block>, labels: seq<Label>, ghost caseSet: set<Label>, allowTail: bool,
                           ghost pre: seq<Instr<nat>>, ghost scrut: S.Emitted, ghost starts: seq<nat>,
                           ghost pending: set<Label>, ghost env: map<Label, nat>, ghost casesBase: nat)
      returns (r: Outcome<CodeGenError>)
      requires S.MatchCases(cs) && code.Valid() && code.out == pre + scrut.code && code.currentLine == scrut.line
      requires pending == code.pending && env == code.env && casesBase == |pre| + |scrut.code| + 2 * |cs| + 1
      requires CasesPlanned(pending, env, cs, labels, caseSet, allowTail, casesBase, scrut.line, starts)
      modifies code, caseSet
      decreases cs, |cs| + 3
      ensures code.Valid() && SubMap(old(code.env), code.env)
      ensures Emits(code, pre, old(code.pending) - caseSet, r, S.GenMatchBody(bindings, cs, allowTail, |pre|, scrut))
    {
      S.MatchBodySplits(bindings, cs, allowTail, |pre|, scrut, starts);
      r := GenMatchTable(code, cs, labels, starts);
      if r.Raised? {
        return;
      }
      code.Add(Fail("no match"));
      r := GenMatchEnd(code, cs, labels, caseSet, allowTail, starts, pending, env, casesBase, scrut.line);
      if r.Raised? {
        return;
      }
      MatchAssembled(pre, scrut.code, S.MatchTable(S.CasePatterns(cs, |cs|).value, starts, scrut.line), [Instr(scrut.line, Fail("no match"))], code.out[casesBase..]);
    }

    /** One fresh, unattached label per case, none of them known to `code` yet; `caseSet` holds them all. */
    static method NewLabels(code: CompiledCode, n: nat) returns (labels: seq<Label>, ghost caseSet: set<Label>)
      ensures |labels| == n && caseSet == LabelsUpTo(labels, n)
      ensures forall l :: l in caseSet ==> fresh(l)
      ensures forall j :: 0 <= j < n ==> labels[j] in caseSet && labels[j].target.None? && labels[j] !in code.env
      ensures forall j, k :: 0 <= j < k < n ==> labels[j] != labels[k]
    {
      labels := [];
      caseSet := {};
      for i := 0 to n
        invariant |labels| == i && caseSet == LabelsUpTo(labels, i)
        invariant forall l :: l in caseSet ==> fresh(l)
        invariant forall j :: 0 <= j < i ==> labels[j] in caseSet && labels[j].target.None? && labels[j] !in code.env
        invariant forall j, k :: 0 <= j < k < i ==> labels[j] != labels[k]
      {
        var l := new Label("case");
        LabelsUpToPrefix(labels, [l], i);
        labels := labels + [l];
        caseSet := caseSet + {l};
      }
    }

    /** Decides that case `j`'s label goes where the cases before it end. */
    ghost method PlanCases(code: CompiledCode, cs: seq<Block>, labels: seq<Label>, caseSet: set<Label>, allowTail: bool, base: nat, line: int)
      returns (starts: seq<nat>)
      requires code.Valid() && S.MatchCases(cs) && |labels| == |cs| && caseSet == LabelsUpTo(labels, |labels|)
      requires forall j :: 0 <= j < |labels| ==> labels[j] in caseSet && labels[j].target.None? && labels[j] !in code.env
      requires forall j, k :: 0 <= j < k < |labels| ==> labels[j] != labels[k]
      modifies code
      ensures code.Valid() && SubMap(old(code.env), code.env)
      ensures code.code == old(code.code) && code.out == old(code.out) && code.currentLine == old(code.currentLine)
      ensures code.pending == old(code.pending) + caseSet && old(code.pending) !! caseSet
      ensures CasesPlanned(code.pending, code.env, cs, labels, caseSet, allowTail, base, line, starts)
    {
      starts := [];
      for i := 0 to |cs|
        invariant code.Valid() && SubMap(old(code.env), code.env)
        invariant code.code == old(code.code) && code.out == old(code.out) && code.currentLine == old(code.currentLine)
        invariant code.pending == old(code.pending) + LabelsUpTo(labels, i)
        invariant old(code.pending) !! LabelsUpTo(labels, i)
        invariant |starts| == i && S.StartsPlanned(bindings, cs, allowTail, base, line, starts)
        invariant forall j :: 0 <= j < i ==> labels[j] in code.pending && labels[j] in code.env && code.env[labels[j]] == starts[j]
        invariant forall j :: i <= j < |labels| ==> labels[j] !in code.env
      {
        var t := S.CaseStart(bindings, cs, i, allowTail, base, line);
        code.Plan(labels[i], t);
        starts := starts + [t];
      }
    }

    /** The test table: for each case, `Duplicate` and a jump to its label if the copy matches its parameter. */
    static method GenMatchTable(code: CompiledCode, cs: seq<Block>, labels: seq<Label>, ghost starts: seq<nat>) returns (r: Outcome<CodeGenError>)
      requires S.MatchCases(cs) && |cs| == |labels| && code.Valid() && LabelsAt(code.env, labels, starts)
      modifies code
      ensures code.Valid() && code.env == old(code.env) && code.pending == old(code.pending)
      ensures code.currentLine == old(code.currentLine)
      ensures S.CasePatterns(cs, |cs|).Success? ==>
        r.Pass? && code.out == old(code.out) + S.MatchTable(S.CasePatterns(cs, |cs|).value, starts, old(code.currentLine))
      ensures S.CasePatterns(cs, |cs|).Failure? ==> r == Raised(S.CasePatterns(cs, |cs|).error)
    {
      ghost var pre := code.out;
      ghost var line := code.currentLine;
      var i := 0;
      while i < |cs|
        invariant 0 <= i <= |cs| && code.Valid() && LabelsAt(code.env, labels, starts)
        invariant code.env == old(code.env) && code.pending == old(code.pending)
        invariant TableSoFar(code, cs, starts, i, pre, line)
      {
        r := GenMatchTest(code, cs, labels, starts, i, pre, line);
        if r.Raised? {
          return;
        }
        i := i + 1;
      }
      r := Pass;
    }

    /** The tests of the first `i` cases follow `pre`, and the current line is still `line`. */
    static ghost predicate TableSoFar(code: CompiledCode, cs: seq<Block>, starts: seq<nat>, i: nat, pre: seq<Instr<nat>>, line: int)
      requires S.MatchCases(cs) && i <= |cs| <= |starts|
      reads code
    {
      && S.CasePatterns(cs, i).Success?
      && code.out == pre + S.MatchTable(S.CasePatterns(cs, i).value, starts, line)
      && code.currentLine == line
    }

    /** The test of case `i`: `Duplicate`, then a jump to the case's label if the copy matches its parameter. */
    static method GenMatchTest(code: CompiledCode, cs: seq<Block>, labels: seq<Label>, ghost starts: seq<nat>, i: nat,
                               ghost pre: seq<Instr<nat>>, ghost line: int) returns (r: Outcome<CodeGenError>)
      requires S.MatchCases(cs) && i < |cs| == |labels| && code.Valid() && LabelsAt(code.env, labels, starts)
      requires TableSoFar(code, cs, starts, i, pre, line)
      modifies code
      ensures code.Valid() && code.env == old(code.env) && code.pending == old(code.pending) && code.currentLine == line
      ensures r.Pass? ==> TableSoFar(code, cs, starts, i + 1, pre, line)
      ensures r.Raised? ==> S.CasePatterns(cs, |cs|) == Failure(r.error)
    {
      ghost var front := S.CasePatterns(cs, i).value;
      code.Add(Duplicate);
      var m := S.ConvertPattern(cs[i].expr.params[0]);
      if m.Failure? {
        S.CasePatternsFails(cs, i, |cs|);
        return Raised(m.error);
      }
      code.Add(JumpIfMatch(m.value, labels[i]));
      S.TableStep(cs, i, starts, line);
      ghost var test := [Instr(line, Duplicate), Instr(line, JumpIfMatch(m.value, starts[i]))];
      Regroup(pre, S.MatchTable(front, starts, line), test);
      r := Pass;
    }

    /**
     * The labels of the cases are planned: each is one of `caseSet`, pending, and meant for
     * the start of its case when the cases are laid out from the current end of the code.
     */
    ghost predicate CasesPlanned(pending: set<Label>, env: map<Label, nat>, cs: seq<Block>, labels: seq<Label>, caseSet: set<Label>,
                                 allowTail: bool, base: nat, line: int, starts: seq<nat>)
      requires S.MatchCases(cs)
    {
      && |labels| == |cs| == |starts| && caseSet == LabelsUpTo(labels, |labels|)
      && (forall j :: 0 <= j < |cs| ==> labels[j] in caseSet && labels[j] in pending)
      && LabelsAt(env, labels, starts)
      && S.StartsPlanned(bindings, cs, allowTail, base, line, starts)
      && (forall j, k :: 0 <= j < k < |labels| ==> labels[j] != labels[k])
    }

    /** What generating the cases did, measured against `spec`, with `end` where they jump to. */
    ghost predicate CasesEmitted(code: CompiledCode, pre: seq<Instr<nat>>, line: int, pending: set<Label>, end: nat,
                                 r: Outcome<CodeGenError>, spec: Result<seq<S.CaseCode>, CodeGenError>)
      reads code
    {
      && (spec.Success? ==>
            && r.Pass?
            && code.out == pre + S.CaseBlocks(spec.value, end)
            && |code.out| == S.CasesEnd(spec.value, |pre|)
            && code.currentLine == S.LastLine(spec.value, line)
            && code.pending == pending)
      && (spec.Failure? ==> r == Raised(spec.error))
    }

    /** The cases from the current end of the code, then the end label attached at a final `NoOp`. */
    method GenMatchEnd(code: CompiledCode, cs: seq<Block>, labels: seq<Label>, ghost caseSet: set<Label>, allowTail: bool, ghost starts: seq<nat>,
                       ghost planPending: set<Label>, ghost planEnv: map<Label, nat>, ghost base: nat, ghost line: int)
      returns (r: Outcome<CodeGenError>)
      requires S.MatchCases(cs) && code.Valid()
      requires planPending == code.pending && planEnv == code.env && base == |code.out| && line == code.currentLine
      requires CasesPlanned(planPending, planEnv, cs, labels, caseSet, allowTail, base, line, starts)
      modifies code, caseSet
      decreases cs, |cs| + 2
      ensures code.Valid() && SubMap(old(code.env), code.env)
      ensures Emits(code, old(code.out), old(code.pending) - caseSet, r,
        S.MatchEndOf(S.GenMatchCases(bindings, cs, |cs|, allowTail, |old(code.out)|, old(code.currentLine)), |old(code.out)|, old(code.currentLine)))
    {
      var endLabel := new Label("end");
      ghost var end := S.CaseStart(bindings, cs, |cs|, allowTail, |code.out|, code.currentLine);
      code.Plan(endLabel, end);
      r := GenMatchCases(code, cs, labels, caseSet, endLabel, allowTail, starts, old(code.pending), old(code.env));
      if r.Raised? {
        return;
      }
      r := code.AddLabel(endLabel);
      code.Add(NoOp);
    }

    /** The cases one after another: each at its own label, followed by a jump to `endLabel`. */
    method GenMatchCases(code: CompiledCode, cs: seq<Block>, labels: seq<Label>, ghost caseSet: set<Label>, endLabel: Label, allowTail: bool,
                         ghost starts: seq<nat>, ghost planPending: set<Label>, ghost planEnv: map<Label, nat>)
      returns (r: Outcome<CodeGenError>)
      requires S.MatchCases(cs) && code.Valid()
      requires CasesPlanned(planPending, planEnv, cs, labels, caseSet, allowTail, |code.out|, code.currentLine, starts)
      requires planPending <= code.pending && SubMap(planEnv, code.env)
      requires endLabel in code.pending && endLabel in code.env && endLabel !in caseSet
      modifies code, caseSet
      decreases cs, |cs| + 1
      ensures code.Valid() && SubMap(old(code.env), code.env)
      ensures CasesEmitted(code, old(code.out), old(code.currentLine), old(code.pending) - caseSet, old(code.env)[endLabel], r,
        S.GenMatchCases(bindings, cs, |cs|, allowTail, |old(code.out)|, old(code.currentLine)))
    {
      ghost var pre := code.out;
      ghost var line := code.currentLine;
      ghost var end := code.env[endLabel];
      ghost var pending0 := code.pending;
      ghost var env0 := code.env;
      ghost var front: seq<S.CaseCode> := [];
      var i := 0;
      while i < |cs|
        invariant 0 <= i <= |cs| && code.Valid()
        invariant CasesDone(code, cs, labels, endLabel, allowTail, i, pre, line, end, front, pending0, env0)
      {
        NotYetDone(labels, i, i);
        assert starts[i] == S.CaseStart(bindings, cs, i, allowTail, |pre|, line);
        r, front := GenCaseStep(code, cs, labels, endLabel, allowTail, i, pre, line, end, front, pending0, env0);
        if r.Raised? {
          return;
        }
        i := i + 1;
      }
      r := Pass;
      CasesFinished(code, cs, labels, caseSet, endLabel, allowTail, pre, line, end, front, pending0, env0);
    }

    /** Once every case is done, the cases emitted what their specification says. */
    lemma CasesFinished(code: CompiledCode, cs: seq<Block>, labels: seq<Label>, caseSet: set<Label>, endLabel: Label, allowTail: bool,
                        pre: seq<Instr<nat>>, line: int, end: nat, front: seq<S.CaseCode>, pending0: set<Label>, env0: map<Label, nat>)
      requires S.MatchCases(cs) && |cs| == |labels| && caseSet == LabelsUpTo(labels, |labels|)
      requires CasesDone(code, cs, labels, endLabel, allowTail, |cs|, pre, line, end, front, pending0, env0)
      ensures CasesEmitted(code, pre, line, pending0 - caseSet, end, Pass, S.GenMatchCases(bindings, cs, |cs|, allowTail, |pre|, line))
    {
    }

    /**
     * The state after the first `i` cases: they generated as `front`, laid out after `pre`
     * with their jumps to `end`, and their labels are no longer pending.
     */
    ghost predicate CasesDone(code: CompiledCode, cs: seq<Block>, labels: seq<Label>, endLabel: Label, allowTail: bool, i: nat,
                              pre: seq<Instr<nat>>, line: int, end: nat, front: seq<S.CaseCode>,
                              pending0: set<Label>, env0: map<Label, nat>)
      requires S.MatchCases(cs) && i <= |cs| == |labels|
      reads code
    {
      && S.GenMatchCases(bindings, cs, i, allowTail, |pre|, line) == Success(front)
      && SubMap(env0, code.env)
      && code.out == pre + S.CaseBlocks(front, end)
      && |code.out| == S.CasesEnd(front, |pre|) && code.currentLine == S.LastLine(front, line)
      && code.pending == pending0 - LabelsUpTo(labels, i)
      && endLabel in code.env && endLabel in code.pending && code.env[endLabel] == end
    }

    /** Case `i`, after the cases before it: the case's code at its label, then its jump to the end. */
    method GenCaseStep(code: CompiledCode, cs: seq<Block>, labels: seq<Label>, endLabel: Label, allowTail: bool, i: nat,
                       ghost pre: seq<Instr<nat>>, ghost line: int, ghost end: nat, ghost front: seq<S.CaseCode>,
                       ghost pending0: set<Label>, ghost env0: map<Label, nat>)
      returns (r: Outcome<CodeGenError>, ghost next: seq<S.CaseCode>)
      requires S.MatchCases(cs) && i < |cs| == |labels| && code.Valid()
      requires CasesDone(code, cs, labels, endLabel, allowTail, i, pre, line, end, front, pending0, env0)
      requires labels[i] in pending0 && labels[i] !in LabelsUpTo(labels, i) && endLabel != labels[i]
      requires labels[i] in env0 && env0[labels[i]] == |code.out|
      modifies code, labels[i]
      decreases cs, i
      ensures code.Valid() && SubMap(env0, code.env)
      ensures r.Pass? ==> CasesDone(code, cs, labels, endLabel, allowTail, i + 1, pre, line, end, next, pending0, env0)
      ensures r.Raised? ==> S.GenMatchCases(bindings, cs, |cs|, allowTail, |pre|, line) == Failure(r.error)
    {
      next := front;
      r := GenMatchCase(code, cs[i].expr, labels[i], endLabel, allowTail, end);
      if r.Raised? {
        S.GenMatchCasesFails(bindings, cs, i, |cs|, allowTail, |pre|, line);
        return;
      }
      ghost var start := S.CasesEnd(front, |pre|);
      ghost var c := S.GenMatchCase(bindings, cs[i].expr, allowTail, start, S.LastLine(front, line)).value;
      next := front + [S.CaseCode(start, c.code, c.line)];
      assert next[..|front|] == front;
      Regroup(pre, S.CaseBlocks(front, end), c.code + [Instr(c.line, Jump(end))]);
    }

    /** genMatchCase: attach the case's label, save the parameter, the body, then jump to the end. */
    method GenMatchCase(code: CompiledCode, lam: Expr, caseLabel: Label, endLabel: Label, allowTail: bool, ghost end: nat)
      returns (r: Outcome<CodeGenError>)
      requires lam.LambdaExpr? && |lam.params| == 1 && code.Valid()
      requires caseLabel in code.pending && code.env[caseLabel] == |code.out|
      requires endLabel in code.pending && code.env[endLabel] == end && caseLabel != endLabel
      modifies code, caseLabel
      decreases lam, 0
      ensures code.Valid() && SubMap(old(code.env), code.env)
      ensures
        var spec := S.GenMatchCase(bindings, lam, allowTail, |old(code.out)|, old(code.currentLine));
        && (spec.Success? ==>
              && r.Pass?
              && code.out == old(code.out) + (spec.value.code + [Instr(spec.value.line, Jump(end))])
              && code.currentLine == spec.value.line
              && code.pending == old(code.pending) - {caseLabel})
        && (spec.Failure? ==> r == Raised(spec.error))
    {
      ghost var pre := code.out;
      r := code.AddLabel(caseLabel);
      r := SavePattern(code, lam.params[0], None);
      if r.Raised? {
        return;
      }
      ghost var save := S.SavePattern(bindings, lam.params[0], None, old(code.currentLine)).value;
      r := GenBlock(code, lam.block, allowTail);
      if r.Raised? {
        return;
      }
      ghost var body := S.GenBlock(bindings, lam.block, allowTail, |pre| + |save|, old(code.currentLine)).value;
      code.Add(Jump(endLabel));
      Regroup(pre, save, body.code);
      Regroup(pre, save + body.code, [Instr(body.line, Jump(end))]);
    }
  }

  lemma {:induction false} LabelsUpToPrefix(labels: seq<Label>, more: seq<Label>, n: nat)
    requires n <= |labels|
    decreases n
    ensures LabelsUpTo(labels + more, n) == LabelsUpTo(labels, n)
  {
    if n > 0 {
      LabelsUpToPrefix(labels, more, n - 1);
    }
  }

  /** With the labels pairwise distinct, label `k` is not among the first `n <= k`. */
  lemma {:induction false} NotYetDone(labels: seq<Label>, n: nat, k: nat)
    requires n <= k < |labels|
    requires forall j, k :: 0 <= j < k < |labels| ==> labels[j] != labels[k]
    decreases n
    ensures labels[k] !in LabelsUpTo(labels, n)
  {
    if n > 0 {
      NotYetDone(labels, n - 1, k);
    }
  }

  /** Labels planned and then all attached leave the pending set as it was. */
  lemma PlannedDone(pending: set<Label>, planned: set<Label>)
    requires pending !! planned
    ensures pending + planned - planned == pending
  {
  }

  /** The match code, appended piece by piece, is the pieces in order. */
  lemma MatchAssembled(pre: seq<Instr<nat>>, scrut: seq<Instr<nat>>, table: seq<Instr<nat>>, fail: seq<Instr<nat>>, rest: seq<Instr<nat>>)
    ensures pre + scrut + table + fail + rest == pre + (scrut + table + fail + rest)
  {
  }
}
