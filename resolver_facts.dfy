/**
 * Properties of the resolver specification: which declarations a binding group collects,
 * which declaration a name resolves to in the scope of a block, a lambda or a namespace,
 * and which entries can ever reach the two maps.
 */
module ResolverFacts {
  import opened Wrappers
  import opened Ast
  import opened Resolver

  /* ---------------------------------------------------------------- groups */

  /** A block's group holds every name leaf of every binding pattern, whatever its position. */
  lemma {:induction false} BindingDeclarationsComplete(bs: seq<Binding>, n: nat, j: nat, q: Pattern)
    requires j < n <= |bs|
    requires Occurs(q, bs[j].pattern) && q.NamePattern?
    ensures DeclarationOf(q) in BindingDeclarations(bs, n)
  {
    if j < n - 1 {
      BindingDeclarationsComplete(bs, n - 1, j, q);
    } else {
      assert DeclarationOf(q) in ExtractNames(bs[n - 1].pattern);
    }
  }

  /** A namespace's group holds the name leaves of its bindings, and only those. */
  lemma {:induction false} GroupDeclarationsComplete(decls: seq<Decl>, n: nat, j: nat, q: Pattern)
    requires j < n <= |decls|
    requires decls[j].BindingD? && Occurs(q, decls[j].binding.pattern) && q.NamePattern?
    ensures DeclarationOf(q) in GroupDeclarations(decls, n)
  {
    if j < n - 1 {
      GroupDeclarationsComplete(decls, n - 1, j, q);
    } else {
      assert DeclarationOf(q) in ExtractNames(decls[n - 1].binding.pattern);
    }
  }

  lemma {:induction false} GroupDeclarationsSound(decls: seq<Decl>, n: nat, d: Declaration)
    requires n <= |decls|
    requires d in GroupDeclarations(decls, n)
    ensures exists j :: 0 <= j < n && decls[j].BindingD? && Occurs(PatternOf(d), decls[j].binding.pattern)
  {
    if d in GroupDeclarations(decls, n - 1) {
      GroupDeclarationsSound(decls, n - 1, d);
    } else {
      assert d in FindDeclarations(decls[n - 1]);
    }
  }

  /* ---------------------------------------------------------------- scopes */

  /** A name some inner declaration carries resolves inside the inner group, whatever the parent holds. */
  lemma ChildShadows(ds: seq<Declaration>, parent: Scope, e: Expr, d: Declaration)
    requires e.QualifiedName? && |e.parts| == 1
    requires d in ds && d.name == e.parts[0]
    ensures e.id in ResolveName(e, Scope(ds, Some(parent))).usages
    ensures ResolveName(e, Scope(ds, Some(parent))).usages[e.id] == Find(ds, e.parts[0]).value
    ensures ResolveName(e, Scope(ds, Some(parent))).usages[e.id] in ds
  {
    assert InChain(d, Scope(ds, Some(parent)));
  }

  /** A name no inner declaration carries resolves exactly as in the parent scope. */
  lemma ChildFallsBack(ds: seq<Declaration>, parent: Scope, e: Expr)
    requires e.QualifiedName?
    requires |e.parts| == 1 ==> forall d :: d in ds ==> d.name != e.parts[0]
    ensures ResolveName(e, Scope(ds, Some(parent))) == ResolveName(e, parent)
  {
    if |e.parts| == 1 {
      assert Get(Scope(ds, Some(parent)), e.parts[0]) == Get(parent, e.parts[0]);
    }
  }

  /**
   * Forward reference: in a block's scope, the one its binding bodies and its trailing
   * expression are resolved in, a name declared by any binding of the block, earlier or
   * later, resolves to a declaration of the block itself.
   */
  lemma BlockSeesAllBindings(b: Block, parent: Scope, j: nat, q: Pattern, e: Expr)
    requires j < |b.bindings| && Occurs(q, b.bindings[j].pattern) && q.NamePattern?
    requires e.QualifiedName? && e.parts == [q.value]
    ensures e.id in ResolveName(e, BlockScope(b, parent)).usages
    ensures ResolveName(e, BlockScope(b, parent)).usages[e.id] in BindingDeclarations(b.bindings, |b.bindings|)
  {
    BindingDeclarationsComplete(b.bindings, |b.bindings|, j, q);
    ChildShadows(BindingDeclarations(b.bindings, |b.bindings|), parent, e, DeclarationOf(q));
  }

  /** A lambda parameter shadows every outer declaration of its name. */
  lemma ParameterShadows(params: seq<Pattern>, scope: Scope, i: nat, q: Pattern, e: Expr)
    requires i < |params| && Occurs(q, params[i]) && q.NamePattern?
    requires e.QualifiedName? && e.parts == [q.value]
    ensures e.id in ResolveName(e, ParamScope(params, scope)).usages
    ensures ResolveName(e, ParamScope(params, scope)).usages[e.id] in ExtractAll(params, |params|)
  {
    ChildShadows(ExtractAll(params, |params|), scope, e, DeclarationOf(q));
  }

  /** Inside a lambda, a name that is not a parameter resolves as it does around the lambda. */
  lemma NonParameterSeesOuter(params: seq<Pattern>, scope: Scope, e: Expr)
    requires e.QualifiedName? && |e.parts| == 1
    requires forall i, q {:trigger Occurs(q, params[i])} ::
               0 <= i < |params| && Occurs(q, params[i]) && q.NamePattern? ==> q.value != e.parts[0]
    ensures ResolveName(e, ParamScope(params, scope)) == ResolveName(e, scope)
  {
    forall d | d in ExtractAll(params, |params|)
      ensures d.name != e.parts[0]
    {
      var i :| 0 <= i < |params| && Occurs(PatternOf(d), params[i]);
      assert PatternOf(d).value == d.name;
    }
    ChildFallsBack(ExtractAll(params, |params|), scope, e);
  }

  /** Root-level bindings are visible from the root scope: every root member and the top-level call are resolved there. */
  lemma RootBindingVisible(ast: Program, j: nat, q: Pattern, e: Expr)
    requires j < |ast.root.decls| && ast.root.decls[j].BindingD?
    requires Occurs(q, ast.root.decls[j].binding.pattern) && q.NamePattern?
    requires e.QualifiedName? && e.parts == [q.value]
    ensures e.id in ResolveName(e, RootScope(ast)).usages
    ensures ResolveName(e, RootScope(ast)).usages[e.id] in RootScope(ast).declarations
  {
    GroupDeclarationsComplete(ast.root.decls, |ast.root.decls|, j, q);
    assert InChain(DeclarationOf(q), RootScope(ast));
  }

  /** A nested namespace's scope sees every outer name that none of its bindings redeclares. */
  lemma NestedNamespaceSeesOuter(ns: NamespaceDecl, parent: Scope, e: Expr)
    requires e.QualifiedName? && |e.parts| == 1
    requires forall j, q {:trigger Occurs(q, ns.decls[j].binding.pattern)} ::
               0 <= j < |ns.decls| && ns.decls[j].BindingD? && Occurs(q, ns.decls[j].binding.pattern) && q.NamePattern?
               ==> q.value != e.parts[0]
    ensures ResolveName(e, Scope(GroupDeclarations(ns.decls, |ns.decls|), Some(parent))) == ResolveName(e, parent)
  {
    forall d | d in GroupDeclarations(ns.decls, |ns.decls|)
      ensures d.name != e.parts[0]
    {
      GroupDeclarationsSound(ns.decls, |ns.decls|, d);
      var j :| 0 <= j < |ns.decls| && ns.decls[j].BindingD? && Occurs(PatternOf(d), ns.decls[j].binding.pattern);
      assert PatternOf(d).value == d.name;
    }
    ChildFallsBack(GroupDeclarations(ns.decls, |ns.decls|), parent, e);
  }

  /* ---------------------------------------------------------------- declarations */

  lemma ThenKeepsDeclarations(a: Bindings, b: Bindings)
    ensures a.declarations.Keys + b.declarations.Keys == a.Then(b).declarations.Keys
  {
  }

  /** resolveUsages(Block) registers every name leaf of the block's binding patterns. */
  lemma BlockRegistersBindings(b: Block, parent: Scope, j: nat, q: Pattern)
    requires j < |b.bindings| && Occurs(q, b.bindings[j].pattern) && q.NamePattern?
    ensures q.id in ResolveBlock(b, parent).declarations
  {
    var ds := BindingDeclarations(b.bindings, |b.bindings|);
    BindingDeclarationsComplete(b.bindings, |b.bindings|, j, q);
    var i :| 0 <= i < |ds| && ds[i] == DeclarationOf(q);
    DeclMapEntries(ds, |ds|);
    var bodies := ResolveBindingBodies(b.bindings, |b.bindings|, BlockScope(b, parent));
    ThenKeepsDeclarations(Declared(ds), bodies);
    ThenKeepsDeclarations(Declared(ds).Then(bodies), ResolveExpr(b.expr, BlockScope(b, parent)));
  }

  /** resolveUsages(LambdaExpr) registers every name leaf of every parameter. */
  lemma LambdaRegistersParameters(e: Expr, scope: Scope, i: nat, q: Pattern)
    requires e.LambdaExpr? && i < |e.params| && Occurs(q, e.params[i]) && q.NamePattern?
    ensures q.id in ResolveExpr(e, scope).declarations
  {
    var ds := ExtractAll(e.params, |e.params|);
    var k :| 0 <= k < |ds| && ds[k] == DeclarationOf(q);
    DeclMapEntries(ds, |ds|);
    ThenKeepsDeclarations(Declared(ds), ResolveBlock(e.block, ParamScope(e.params, scope)));
  }

  /** resolveUsagesNs registers every name leaf of the namespace's own bindings. */
  lemma NamespaceRegistersBindings(ns: NamespaceDecl, parent: Scope, j: nat, q: Pattern)
    requires j < |ns.decls| && ns.decls[j].BindingD? && Occurs(q, ns.decls[j].binding.pattern) && q.NamePattern?
    ensures q.id in ResolveNs(ns, parent).declarations
  {
    var ds := GroupDeclarations(ns.decls, |ns.decls|);
    GroupDeclarationsComplete(ns.decls, |ns.decls|, j, q);
    var k :| 0 <= k < |ds| && ds[k] == DeclarationOf(q);
    DeclMapEntries(ds, |ds|);
    ThenKeepsDeclarations(Declared(ds), ResolveDecls(ns.decls, |ns.decls|, Scope(ds, Some(parent))));
  }

  /** resolve registers every name leaf of the root namespace's bindings. */
  lemma ProgramRegistersRootBindings(ast: Program, j: nat, q: Pattern)
    requires j < |ast.root.decls| && ast.root.decls[j].BindingD?
    requires Occurs(q, ast.root.decls[j].binding.pattern) && q.NamePattern?
    ensures q.id in ResolveProgram(ast).declarations
  {
    var scope := RootScope(ast);
    var ds := scope.declarations;
    GroupDeclarationsComplete(ast.root.decls, |ast.root.decls|, j, q);
    var k :| 0 <= k < |ds| && ds[k] == DeclarationOf(q);
    DeclMapEntries(ds, |ds|);
    var members := ResolveDecls(ast.root.decls, |ast.root.decls|, scope);
    ThenKeepsDeclarations(Declared(ds), members);
    ThenKeepsDeclarations(Declared(ds).Then(members), if ast.expr.Some? then ResolveExpr(ast.expr.value, scope) else NoBindings);
  }

  /* ---------------------------------------------------------------- usages */

  /** The lone names of an expression: an id and its only segment, for each single-segment QualifiedName. */
  ghost function NamesExpr(e: Expr): set<(nat, string)>
    decreases e, 1
  {
    match e
    case QualifiedName(id, _, parts) => if |parts| == 1 then {(id, parts[0])} else {}
    case CallExpr(_, callable, args) => NamesExpr(callable) + NamesExprs(args, |args|)
    case ListExpr(_, elements) => NamesBlocks(elements, |elements|)
    case LambdaExpr(_, _, block) => NamesBlock(block)
    case _ => {}
  }

  ghost function NamesExprs(es: seq<Expr>, n: nat): set<(nat, string)>
    requires n <= |es|
    decreases es, n
  {
    if n == 0 then {} else NamesExprs(es, n - 1) + NamesExpr(es[n - 1])
  }

  ghost function NamesBlock(b: Block): set<(nat, string)>
    decreases b, 1
  {
    NamesBindings(b.bindings, |b.bindings|) + NamesExpr(b.expr)
  }

  ghost function NamesBinding(b: Binding): set<(nat, string)>
    decreases b, 1
  {
    NamesBlock(b.block)
  }

  ghost function NamesBindings(bs: seq<Binding>, n: nat): set<(nat, string)>
    requires n <= |bs|
    decreases bs, n
  {
    if n == 0 then {} else NamesBindings(bs, n - 1) + NamesBinding(bs[n - 1])
  }

  ghost function NamesBlocks(bs: seq<Block>, n: nat): set<(nat, string)>
    requires n <= |bs|
    decreases bs, n
  {
    if n == 0 then {} else NamesBlocks(bs, n - 1) + NamesBlock(bs[n - 1])
  }

  /** Every usage is keyed by a lone name and resolves to a declaration of that very name. */
  ghost predicate UsagesWithin(r: Bindings, names: set<(nat, string)>) {
    forall k :: k in r.usages ==> (k, r.usages[k].name) in names
  }

  lemma ThenWithin(a: Bindings, b: Bindings, na: set<(nat, string)>, nb: set<(nat, string)>)
    requires UsagesWithin(a, na) && UsagesWithin(b, nb)
    ensures UsagesWithin(a.Then(b), na + nb)
  {
  }

  lemma {:induction false} ExprUsages(e: Expr, scope: Scope)
    decreases e, 1
    ensures UsagesWithin(ResolveExpr(e, scope), NamesExpr(e))
  {
    match e
    case QualifiedName(_, _, _) =>
    case CallExpr(_, callable, args) =>
      ExprUsages(callable, scope);
      ExprsUsages(args, |args|, scope);
      ThenWithin(ResolveExpr(callable, scope), ResolveExprs(args, |args|, scope), NamesExpr(callable), NamesExprs(args, |args|));
    case ListExpr(_, elements) =>
      BlocksUsages(elements, |elements|, scope);
    case LambdaExpr(_, params, block) =>
      BlockUsages(block, ParamScope(params, scope));
      ThenWithin(Declared(ExtractAll(params, |params|)), ResolveBlock(block, ParamScope(params, scope)), {}, NamesBlock(block));
    case DotExpr(_) =>
    case ConstExpr(_) =>
  }

  lemma {:induction false} ExprsUsages(es: seq<Expr>, n: nat, scope: Scope)
    requires n <= |es|
    decreases es, n
    ensures UsagesWithin(ResolveExprs(es, n, scope), NamesExprs(es, n))
  {
    if n > 0 {
      ExprsUsages(es, n - 1, scope);
      ExprUsages(es[n - 1], scope);
      ThenWithin(ResolveExprs(es, n - 1, scope), ResolveExpr(es[n - 1], scope), NamesExprs(es, n - 1), NamesExpr(es[n - 1]));
    }
  }

  lemma {:induction false} BlockUsages(b: Block, parent: Scope)
    decreases b, 1
    ensures UsagesWithin(ResolveBlock(b, parent), NamesBlock(b))
  {
    var ds := BindingDeclarations(b.bindings, |b.bindings|);
    var scope := BlockScope(b, parent);
    BindingsUsages(b.bindings, |b.bindings|, scope);
    ExprUsages(b.expr, scope);
    ThenWithin(Declared(ds), ResolveBindingBodies(b.bindings, |b.bindings|, scope), {}, NamesBindings(b.bindings, |b.bindings|));
    ThenWithin(Declared(ds).Then(ResolveBindingBodies(b.bindings, |b.bindings|, scope)), ResolveExpr(b.expr, scope),
               NamesBindings(b.bindings, |b.bindings|), NamesExpr(b.expr));
  }

  lemma {:induction false} BindingUsages(b: Binding, scope: Scope)
    decreases b, 1
    ensures UsagesWithin(ResolveBindingBody(b, scope), NamesBinding(b))
  {
    BlockUsages(b.block, scope);
  }

  lemma {:induction false} BindingsUsages(bs: seq<Binding>, n: nat, scope: Scope)
    requires n <= |bs|
    decreases bs, n
    ensures UsagesWithin(ResolveBindingBodies(bs, n, scope), NamesBindings(bs, n))
  {
    if n > 0 {
      BindingsUsages(bs, n - 1, scope);
      BindingUsages(bs[n - 1], scope);
      ThenWithin(ResolveBindingBodies(bs, n - 1, scope), ResolveBindingBody(bs[n - 1], scope), NamesBindings(bs, n - 1), NamesBinding(bs[n - 1]));
    }
  }

  lemma {:induction false} BlocksUsages(bs: seq<Block>, n: nat, scope: Scope)
    requires n <= |bs|
    decreases bs, n
    ensures UsagesWithin(ResolveBlocks(bs, n, scope), NamesBlocks(bs, n))
  {
    if n > 0 {
      BlocksUsages(bs, n - 1, scope);
      BlockUsages(bs[n - 1], scope);
      ThenWithin(ResolveBlocks(bs, n - 1, scope), ResolveBlock(bs[n - 1], scope), NamesBlocks(bs, n - 1), NamesBlock(bs[n - 1]));
    }
  }
}
