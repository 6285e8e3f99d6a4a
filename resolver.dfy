/**
 * The static name resolver (code/Resolver.kt). It gives every name-pattern leaf a
 * `Declaration`, builds one scope per binding group (a namespace's declarations, a
 * block's bindings, a lambda's parameters) before resolving anything inside the
 * group, and links each single-segment name to the innermost matching declaration.
 *
 * The functions below specify what a walk contributes to the two maps; the class
 * `ResolvedBindings` and the methods after it are the walk itself, inserting into
 * the maps in place, and are proved to insert exactly those contributions.
 */
module Resolver {
  import opened Wrappers
  import opened Ast

  /** The identity of one declared name: the NamePattern node that declares it. */
  datatype Declaration = Declaration(id: nat, name: string, line: int)

  function DeclarationOf(p: Pattern): Declaration
    requires p.NamePattern?
  {
    Declaration(p.id, p.value, p.line)
  }

  /** The name-pattern node a declaration was made for. */
  function PatternOf(d: Declaration): Pattern {
    NamePattern(d.id, d.line, d.name)
  }

  /** `q` is `p` or a sub-pattern of a list or type pattern inside `p`. */
  ghost predicate Occurs(q: Pattern, p: Pattern)
    decreases p
  {
    || q == p
    || (p.ListPattern? && exists i :: 0 <= i < |p.inners| && Occurs(q, p.inners[i]))
    || (p.TypePattern? && exists i :: 0 <= i < |p.params| && Occurs(q, p.params[i]))
  }

  /**
   * extractNames: one declaration per name-pattern leaf, left to right. Wildcards and
   * constants declare nothing, and a type pattern's constructor name is not a leaf.
   */
  function ExtractNames(p: Pattern): (ds: seq<Declaration>)
    decreases p, 1
    ensures p.WildcardPattern? || p.ConstPattern? ==> ds == []
    ensures p.NamePattern? ==> ds == [DeclarationOf(p)]
    ensures forall d :: d in ds ==> Occurs(PatternOf(d), p)
    ensures forall q {:trigger Occurs(q, p)} :: Occurs(q, p) && q.NamePattern? ==> DeclarationOf(q) in ds
  {
    match p
    case NamePattern(_, _, _) => [DeclarationOf(p)]
    case ListPattern(inners) => ExtractAll(inners, |inners|)
    case TypePattern(_, params) => ExtractAll(params, |params|)
    case _ => []
  }

  /** The names of the first `n` patterns of `ps`, in order (a `flatMap` of extractNames). */
  function ExtractAll(ps: seq<Pattern>, n: nat): (ds: seq<Declaration>)
    requires n <= |ps|
    decreases ps, n
    ensures forall d :: d in ds ==> exists i :: 0 <= i < n && Occurs(PatternOf(d), ps[i])
    ensures forall i, q {:trigger Occurs(q, ps[i])} :: 0 <= i < n && Occurs(q, ps[i]) && q.NamePattern? ==> DeclarationOf(q) in ds
  {
    if n == 0 then [] else ExtractAll(ps, n - 1) + ExtractNames(ps[n - 1])
  }

  /** findDeclarations: only a binding declares names in a namespace's group. */
  function FindDeclarations(d: Decl): seq<Declaration> {
    if d.BindingD? then ExtractNames(d.binding.pattern) else []
  }

  /** The declarations of the first `n` members of a namespace, in order. */
  function GroupDeclarations(decls: seq<Decl>, n: nat): seq<Declaration>
    requires n <= |decls|
  {
    if n == 0 then [] else GroupDeclarations(decls, n - 1) + FindDeclarations(decls[n - 1])
  }

  /** The declarations of the first `n` bindings of a block, in order. */
  function BindingDeclarations(bs: seq<Binding>, n: nat): seq<Declaration>
    requires n <= |bs|
  {
    if n == 0 then [] else BindingDeclarations(bs, n - 1) + ExtractNames(bs[n - 1].pattern)
  }

  /** One binding group's declarations and the scope around it. */
  datatype Scope = Scope(declarations: seq<Declaration>, parent: Option<Scope>)

  /** `d` is declared in `s` or in a scope around it. */
  ghost predicate InChain(d: Declaration, s: Scope)
    decreases s
  {
    d in s.declarations || (s.parent.Some? && InChain(d, s.parent.value))
  }

  /** List.find: the first declaration named `name`. */
  function Find(ds: seq<Declaration>, name: string): (r: Option<Declaration>)
    ensures r.Some? ==> exists i :: 0 <= i < |ds| && ds[i] == r.value && ds[i].name == name
                          && forall j :: 0 <= j < i ==> ds[j].name != name
    ensures r.None? <==> forall d :: d in ds ==> d.name != name
  {
    if ds == [] then None
    else if ds[0].name == name then Some(ds[0])
    else
      var r := Find(ds[1..], name);
      assert forall d :: d in ds[1..] ==> d in ds;
      assert forall d :: d in ds ==> d == ds[0] || d in ds[1..];
      FindShift(ds, name, r);
      r
  }

  lemma FindShift(ds: seq<Declaration>, name: string, r: Option<Declaration>)
    requires ds != [] && ds[0].name != name
    requires r.Some? ==> exists i :: 0 <= i < |ds[1..]| && ds[1..][i] == r.value && ds[1..][i].name == name
                          && forall j :: 0 <= j < i ==> ds[1..][j].name != name
    ensures r.Some? ==> exists i :: 0 <= i < |ds| && ds[i] == r.value && ds[i].name == name
                          && forall j :: 0 <= j < i ==> ds[j].name != name
  {
    if r.Some? {
      var i :| 0 <= i < |ds[1..]| && ds[1..][i] == r.value && ds[1..][i].name == name
               && forall j :: 0 <= j < i ==> ds[1..][j].name != name;
      assert ds[i + 1] == r.value;
      assert forall j :: 1 <= j < i + 1 ==> ds[j] == ds[1..][j - 1];
    }
  }

  /**
   * Scope.get: the first declaration with that name in the innermost scope, else the
   * parent's answer, else nothing at the root.
   */
  function Get(s: Scope, name: string): (r: Option<Declaration>)
    decreases s
    ensures Find(s.declarations, name).Some? ==> r == Find(s.declarations, name)
    ensures r.Some? ==> r.value.name == name && InChain(r.value, s)
    ensures r.None? <==> forall d :: InChain(d, s) ==> d.name != name
  {
    var here := Find(s.declarations, name);
    if here.Some? then here
    else if s.parent.None? then None
    else Get(s.parent.value, name)
  }

  /** What a walk adds to `ResolvedBindings`: declarations by NamePattern, usages by QualifiedName. */
  datatype Bindings = Bindings(declarations: map<nat, Declaration>, usages: map<nat, Declaration>) {
    /** The effect of inserting `this` and then `later`: later entries overwrite. */
    function Then(later: Bindings): Bindings {
      Bindings(declarations + later.declarations, usages + later.usages)
    }
  }

  const NoBindings := Bindings(map[], map[])

  /** addDeclarations of the first `n` of `ds`, each under its own pattern. */
  function DeclMap(ds: seq<Declaration>, n: nat): map<nat, Declaration>
    requires n <= |ds|
  {
    if n == 0 then map[] else DeclMap(ds, n - 1)[ds[n - 1].id := ds[n - 1]]
  }

  /**
   * Every added declaration has an entry under its pattern, every entry is keyed by its
   * own pattern, and when no pattern occurs twice the entry is that very declaration.
   */
  lemma {:induction false} DeclMapEntries(ds: seq<Declaration>, n: nat)
    requires n <= |ds|
    ensures forall i :: 0 <= i < n ==> ds[i].id in DeclMap(ds, n)
    ensures forall k :: k in DeclMap(ds, n) ==> DeclMap(ds, n)[k].id == k
    ensures (forall i, j :: 0 <= i < j < n ==> ds[i].id != ds[j].id) ==>
              forall i :: 0 <= i < n ==> DeclMap(ds, n)[ds[i].id] == ds[i]
  {
    if n > 0 {
      DeclMapEntries(ds, n - 1);
    }
  }

  function Declared(ds: seq<Declaration>): Bindings {
    Bindings(DeclMap(ds, |ds|), map[])
  }

  function ResolveDecl(d: Decl, scope: Scope): Bindings
    decreases d, 1
  {
    match d
    case BindingD(b) => ResolveBlock(b.block, scope)
    case NamespaceD(ns) => ResolveNs(ns, scope)
    case TypeDecl(_, _, _, ns) => if ns.Some? then ResolveNs(ns.value, scope) else NoBindings
  }

  /** resolveUsagesNs: the namespace's own group scope first, then each member in it. */
  function ResolveNs(ns: NamespaceDecl, parent: Scope): Bindings
    decreases ns, 1
  {
    var ds := GroupDeclarations(ns.decls, |ns.decls|);
    Declared(ds).Then(ResolveDecls(ns.decls, |ns.decls|, Scope(ds, Some(parent))))
  }

  function ResolveDecls(decls: seq<Decl>, n: nat, scope: Scope): Bindings
    requires n <= |decls|
    decreases decls, n
  {
    if n == 0 then NoBindings else ResolveDecls(decls, n - 1, scope).Then(ResolveDecl(decls[n - 1], scope))
  }

  /**
   * resolveUsages(Block): every binding's names enter one scope before any binding
   * body or the trailing expression is resolved.
   */
  function ResolveBlock(b: Block, parent: Scope): Bindings
    decreases b, 1
  {
    var ds := BindingDeclarations(b.bindings, |b.bindings|);
    var scope := BlockScope(b, parent);
    Declared(ds).Then(ResolveBindingBodies(b.bindings, |b.bindings|, scope)).Then(ResolveExpr(b.expr, scope))
  }

  /** The one scope a block's bodies and trailing expression are resolved in. */
  function BlockScope(b: Block, parent: Scope): Scope {
    Scope(BindingDeclarations(b.bindings, |b.bindings|), Some(parent))
  }

  function ResolveBindingBody(b: Binding, scope: Scope): Bindings
    decreases b, 1
  {
    ResolveBlock(b.block, scope)
  }

  function ResolveBindingBodies(bs: seq<Binding>, n: nat, scope: Scope): Bindings
    requires n <= |bs|
    decreases bs, n
  {
    if n == 0 then NoBindings else ResolveBindingBodies(bs, n - 1, scope).Then(ResolveBindingBody(bs[n - 1], scope))
  }

  /** The usage a lone name contributes: only a single segment that some scope declares. */
  function ResolveName(e: Expr, scope: Scope): (r: Bindings)
    requires e.QualifiedName?
    ensures r.declarations == map[]
    ensures r.usages.Keys <= {e.id}
    ensures e.id in r.usages <==> |e.parts| == 1 && exists d :: InChain(d, scope) && d.name == e.parts[0]
    ensures e.id in r.usages ==> r.usages[e.id] == Get(scope, e.parts[0]).value && r.usages[e.id].name == e.parts[0]
  {
    if |e.parts| == 1 && Get(scope, e.parts[0]).Some? then Bindings(map[], map[e.id := Get(scope, e.parts[0]).value])
    else NoBindings
  }

  function ResolveExpr(e: Expr, scope: Scope): Bindings
    decreases e, 1
  {
    match e
    case QualifiedName(_, _, _) => ResolveName(e, scope)
    case CallExpr(_, callable, args) => ResolveExpr(callable, scope).Then(ResolveExprs(args, |args|, scope))
    case ListExpr(_, elements) => ResolveBlocks(elements, |elements|, scope)
    case LambdaExpr(_, params, block) =>
      Declared(ExtractAll(params, |params|)).Then(ResolveBlock(block, ParamScope(params, scope)))
    case _ => NoBindings
  }

  /** The scope of a lambda's parameters, inside the scope the lambda appears in. */
  function ParamScope(params: seq<Pattern>, scope: Scope): Scope {
    Scope(ExtractAll(params, |params|), Some(scope))
  }

  function ResolveExprs(es: seq<Expr>, n: nat, scope: Scope): Bindings
    requires n <= |es|
    decreases es, n
  {
    if n == 0 then NoBindings else ResolveExprs(es, n - 1, scope).Then(ResolveExpr(es[n - 1], scope))
  }

  function ResolveBlocks(bs: seq<Block>, n: nat, scope: Scope): Bindings
    requires n <= |bs|
    decreases bs, n
  {
    if n == 0 then NoBindings else ResolveBlocks(bs, n - 1, scope).Then(ResolveBlock(bs[n - 1], scope))
  }

  /** The root scope of a file: the root namespace's declarations, with no parent. */
  function RootScope(ast: Program): Scope {
    Scope(GroupDeclarations(ast.root.decls, |ast.root.decls|), None)
  }

  /** resolve: the whole file's declarations and usages. */
  function ResolveProgram(ast: Program): Bindings {
    var scope := RootScope(ast);
    Declared(scope.declarations)
      .Then(ResolveDecls(ast.root.decls, |ast.root.decls|, scope))
      .Then(if ast.expr.Some? then ResolveExpr(ast.expr.value, scope) else NoBindings)
  }

  lemma ThenAssoc(a: Bindings, b: Bindings, c: Bindings)
    ensures a.Then(b).Then(c) == a.Then(b.Then(c))
  {
    assert (a.declarations + b.declarations) + c.declarations == a.declarations + (b.declarations + c.declarations);
    assert (a.usages + b.usages) + c.usages == a.usages + (b.usages + c.usages);
  }

  lemma ThenNone(a: Bindings)
    ensures a.Then(NoBindings) == a && NoBindings.Then(a) == a
  {
    assert a.declarations + map[] == a.declarations;
    assert map[] + a.declarations == a.declarations;
    assert a.usages + map[] == a.usages;
    assert map[] + a.usages == a.usages;
  }

  lemma UpdateUnion<K, V>(a: map<K, V>, b: map<K, V>, k: K, v: V)
    ensures (a + b)[k := v] == a + b[k := v]
  {
  }

  /** The maps the resolver fills (code/Resolver.kt `ResolvedBindings`). */
  class ResolvedBindings {
    var declarations: map<nat, Declaration>
    var usages: map<nat, Declaration>

    constructor()
      ensures declarations == map[] && usages == map[]
    {
      declarations, usages := map[], map[];
    }

    function Contents(): Bindings
      reads this
    {
      Bindings(declarations, usages)
    }

    method AddDeclarations(ds: seq<Declaration>)
      modifies this
      ensures Contents() == old(Contents()).Then(Declared(ds))
    {
      var i := 0;
      while i < |ds|
        invariant i <= |ds|
        invariant declarations == old(declarations) + DeclMap(ds, i)
        invariant usages == old(usages)
      {
        UpdateUnion(old(declarations), DeclMap(ds, i), ds[i].id, ds[i]);
        declarations := declarations[ds[i].id := ds[i]];
        i := i + 1;
      }
      assert usages + map[] == usages;
    }

    method AddUsage(qname: Expr, d: Declaration)
      requires qname.QualifiedName?
      modifies this
      ensures declarations == old(declarations)
      ensures usages == old(usages)[qname.id := d]
    {
      usages := usages[qname.id := d];
    }
  }

  method Resolve(ast: Program) returns (rb: ResolvedBindings)
    ensures fresh(rb)
    ensures rb.Contents() == ResolveProgram(ast)
  {
    var scope := RootScope(ast);
    rb := new ResolvedBindings();
    rb.AddDeclarations(scope.declarations);
    ThenNone(Declared(scope.declarations));
    var i := 0;
    while i < |ast.root.decls|
      invariant i <= |ast.root.decls|
      invariant rb.Contents() == Declared(scope.declarations).Then(ResolveDecls(ast.root.decls, i, scope))
    {
      ResolveUsagesDecl(rb, ast.root.decls[i], scope);
      ThenAssoc(Declared(scope.declarations), ResolveDecls(ast.root.decls, i, scope), ResolveDecl(ast.root.decls[i], scope));
      i := i + 1;
    }
    if ast.expr.Some? {
      ResolveUsagesExpr(rb, ast.expr.value, scope);
    } else {
      ThenNone(rb.Contents());
    }
  }

  method ResolveUsagesDecl(rb: ResolvedBindings, d: Decl, scope: Scope)
    modifies rb
    decreases d, 1
    ensures rb.Contents() == old(rb.Contents()).Then(ResolveDecl(d, scope))
  {
    match d
    case BindingD(b) =>
      ResolveUsagesBlock(rb, b.block, scope);
    case NamespaceD(ns) =>
      ResolveUsagesNs(rb, ns, scope);
    case TypeDecl(_, _, _, ns) =>
      if ns.Some? {
        ResolveUsagesNs(rb, ns.value, scope);
      } else {
        ThenNone(rb.Contents());
      }
  }

  method ResolveUsagesNs(rb: ResolvedBindings, ns: NamespaceDecl, parent: Scope)
    modifies rb
    decreases ns, 2
    ensures rb.Contents() == old(rb.Contents()).Then(ResolveNs(ns, parent))
  {
    var ds := GroupDeclarations(ns.decls, |ns.decls|);
    rb.AddDeclarations(ds);
    ResolveUsagesDecls(rb, ns.decls, Scope(ds, Some(parent)));
    ThenAssoc(old(rb.Contents()), Declared(ds), ResolveDecls(ns.decls, |ns.decls|, Scope(ds, Some(parent))));
  }

  /** The loop over a namespace's members, each resolved in the namespace's scope. */
  method ResolveUsagesDecls(rb: ResolvedBindings, decls: seq<Decl>, scope: Scope)
    modifies rb
    decreases decls, 1
    ensures rb.Contents() == old(rb.Contents()).Then(ResolveDecls(decls, |decls|, scope))
  {
    ThenNone(rb.Contents());
    var i := 0;
    while i < |decls|
      invariant i <= |decls|
      invariant rb.Contents() == old(rb.Contents()).Then(ResolveDecls(decls, i, scope))
    {
      ResolveUsagesDecl(rb, decls[i], scope);
      ThenAssoc(old(rb.Contents()), ResolveDecls(decls, i, scope), ResolveDecl(decls[i], scope));
      i := i + 1;
    }
  }

  method ResolveUsagesBlock(rb: ResolvedBindings, b: Block, parent: Scope)
    modifies rb
    decreases b, 2
    ensures rb.Contents() == old(rb.Contents()).Then(ResolveBlock(b, parent))
  {
    var ds := BindingDeclarations(b.bindings, |b.bindings|);
    rb.AddDeclarations(ds);
    var scope := BlockScope(b, parent);
    ResolveUsagesBindingBodies(rb, b.bindings, scope);
    ResolveUsagesExpr(rb, b.expr, scope);
    ghost var bodies := ResolveBindingBodies(b.bindings, |b.bindings|, scope);
    ThenAssoc(old(rb.Contents()).Then(Declared(ds)), bodies, ResolveExpr(b.expr, scope));
    ThenAssoc(old(rb.Contents()), Declared(ds), bodies);
    ThenAssoc(old(rb.Contents()), Declared(ds).Then(bodies), ResolveExpr(b.expr, scope));
  }

  /** The loop over a block's bindings, each right-hand side resolved in the block's scope. */
  method ResolveUsagesBindingBodies(rb: ResolvedBindings, bs: seq<Binding>, scope: Scope)
    modifies rb
    decreases bs, 1
    ensures rb.Contents() == old(rb.Contents()).Then(ResolveBindingBodies(bs, |bs|, scope))
  {
    ThenNone(rb.Contents());
    var i := 0;
    while i < |bs|
      invariant i <= |bs|
      invariant rb.Contents() == old(rb.Contents()).Then(ResolveBindingBodies(bs, i, scope))
    {
      ResolveUsagesBindingBody(rb, bs[i], scope);
      ThenAssoc(old(rb.Contents()), ResolveBindingBodies(bs, i, scope), ResolveBindingBody(bs[i], scope));
      i := i + 1;
    }
  }

  method ResolveUsagesBindingBody(rb: ResolvedBindings, b: Binding, scope: Scope)
    modifies rb
    decreases b, 1
    ensures rb.Contents() == old(rb.Contents()).Then(ResolveBindingBody(b, scope))
  {
    ResolveUsagesBlock(rb, b.block, scope);
  }

  method ResolveUsagesExpr(rb: ResolvedBindings, e: Expr, scope: Scope)
    modifies rb
    decreases e, 1
    ensures rb.Contents() == old(rb.Contents()).Then(ResolveExpr(e, scope))
  {
    ghost var start := old(rb.Contents());
    match e
    case QualifiedName(_, _, parts) =>
      if |parts| == 1 {
        var d := Get(scope, parts[0]);
        if d.Some? {
          rb.AddUsage(e, d.value);
          assert start.usages + map[e.id := d.value] == start.usages[e.id := d.value];
          assert start.declarations + map[] == start.declarations;
        } else {
          ThenNone(start);
        }
      } else {
        ThenNone(start);
      }
    case CallExpr(_, callable, args) =>
      ResolveUsagesExpr(rb, callable, scope);
      ThenNone(ResolveExpr(callable, scope));
      var i := 0;
      while i < |args|
        invariant i <= |args|
        invariant rb.Contents() == start.Then(ResolveExpr(callable, scope).Then(ResolveExprs(args, i, scope)))
      {
        ResolveUsagesExpr(rb, args[i], scope);
        ThenAssoc(start, ResolveExpr(callable, scope).Then(ResolveExprs(args, i, scope)), ResolveExpr(args[i], scope));
        ThenAssoc(ResolveExpr(callable, scope), ResolveExprs(args, i, scope), ResolveExpr(args[i], scope));
        i := i + 1;
      }
    case ListExpr(_, elements) =>
      ThenNone(start);
      var i := 0;
      while i < |elements|
        invariant i <= |elements|
        invariant rb.Contents() == start.Then(ResolveBlocks(elements, i, scope))
      {
        ResolveUsagesBlock(rb, elements[i], scope);
        ThenAssoc(start, ResolveBlocks(elements, i, scope), ResolveBlock(elements[i], scope));
        i := i + 1;
      }
    case LambdaExpr(_, params, block) =>
      var ds := ExtractAll(params, |params|);
      rb.AddDeclarations(ds);
      ResolveUsagesBlock(rb, block, ParamScope(params, scope));
      ThenAssoc(start, Declared(ds), ResolveBlock(block, ParamScope(params, scope)));
    case DotExpr(_) =>
      ThenNone(start);
    case ConstExpr(_) =>
      ThenNone(start);
  }
}
