/**
 * What importing a module does to a namespace (run/Module.kt `importInto` and its private
 * recursive `import`). Every binding and type of the source overwrites the target's entry
 * of that name; then each public sub-namespace of the source is merged into the target's
 * sub-namespace of that name, which is created public when missing. Private
 * sub-namespaces are skipped.
 *
 * Namespaces are values, so the merge returns the new target.
 */
module Modules {
  import opened Wrappers
  import opened RuntimeValues

  /** The sub-namespaces an import copies: the public ones. */
  predicate Exported(src: Namespace, k: string) {
    k in src.subnames && src.subnames[k].public
  }

  /** import(src, target) */
  function Import(src: Namespace, target: Namespace): (r: Namespace)
    decreases src, 1
    ensures r.public == target.public
    ensures r.bindings.Keys == target.bindings.Keys + src.bindings.Keys
    ensures r.types.Keys == target.types.Keys + src.types.Keys
    ensures forall k :: k in src.bindings ==> r.bindings[k] == src.bindings[k]
    ensures forall k :: k in target.bindings && k !in src.bindings ==> r.bindings[k] == target.bindings[k]
    ensures forall k :: k in src.types ==> r.types[k] == src.types[k]
    ensures forall k :: k in target.types && k !in src.types ==> r.types[k] == target.types[k]
    ensures forall k :: k in r.subnames <==> k in target.subnames || (k in src.subnames && src.subnames[k].public)
    ensures forall k :: k in target.subnames && !(k in src.subnames && src.subnames[k].public) ==>
      r.subnames[k] == target.subnames[k]
  {
    Namespace(target.bindings + src.bindings, target.types + src.types, MergedSubnames(src, target, src.subnames.Keys), target.public)
  }

  /** The target's sub-namespaces once the public ones of the source among `done` are merged into them. */
  function MergedSubnames(src: Namespace, target: Namespace, done: set<string>): map<string, Namespace>
    decreases src, 0
  {
    map k | k in target.subnames.Keys + (set k | k in done && Exported(src, k)) ::
      if k in done && Exported(src, k) then Import(src.subnames[k], ChildOrNew(target, k)) else target.subnames[k]
  }

  /** One more public sub-namespace of the source done: it is merged in. */
  lemma MergedAdd(src: Namespace, target: Namespace, done: set<string>, k: string)
    requires k !in done && Exported(src, k)
    ensures MergedSubnames(src, target, done + {k}) ==
      MergedSubnames(src, target, done)[k := Import(src.subnames[k], ChildOrNew(target, k))]
  {
    var after := MergedSubnames(src, target, done + {k});
    var want := MergedSubnames(src, target, done)[k := Import(src.subnames[k], ChildOrNew(target, k))];
    forall j
      ensures j in after <==> j in want
      ensures j in after ==> after[j] == want[j]
    {
      if j != k {
        assert (j in done + {k} && Exported(src, j)) == (j in done && Exported(src, j));
      }
    }
    SameMap(after, want);
  }

  /** One more private sub-namespace of the source done: nothing changes. */
  lemma MergedSkip(src: Namespace, target: Namespace, done: set<string>, k: string)
    requires k !in done && !Exported(src, k)
    ensures MergedSubnames(src, target, done + {k}) == MergedSubnames(src, target, done)
  {
    var after := MergedSubnames(src, target, done + {k});
    var before := MergedSubnames(src, target, done);
    forall j
      ensures j in after <==> j in before
      ensures j in after ==> after[j] == before[j]
    {
      assert (j in done + {k} && Exported(src, j)) == (j in done && Exported(src, j));
    }
    SameMap(after, before);
  }

  /** `computeIfAbsent(name) { Namespace(true) }`: the existing child, or a new public one. */
  function ChildOrNew(target: Namespace, k: string): (r: Namespace)
    ensures k in target.subnames ==> r == target.subnames[k]
    ensures k !in target.subnames ==> r == EmptyNamespace(true)
  {
    if k in target.subnames then target.subnames[k] else EmptyNamespace(true)
  }

  /**
   * import(src, target) as the loops that run it: each binding, then each type, is put
   * into the target; then each public sub-namespace is merged into the target's one of
   * that name, created public when it is missing (computeIfAbsent).
   */
  method Merge(src: Namespace, target: Namespace) returns (r: Namespace)
    decreases src, 2
    ensures r == Import(src, target)
  {
    var bindings := PutAll(target.bindings, src.bindings);
    var types := PutAll(target.types, src.types);
    var subnames := target.subnames;
    var todo := src.subnames.Keys;
    assert subnames == MergedSubnames(src, target, {});
    while todo != {}
      invariant todo <= src.subnames.Keys
      invariant subnames == MergedSubnames(src, target, src.subnames.Keys - todo)
      decreases todo
    {
      var k :| k in todo;
      assert src.subnames.Keys - (todo - {k}) == (src.subnames.Keys - todo) + {k};
      if src.subnames[k].public {
        MergedAdd(src, target, src.subnames.Keys - todo, k);
        var into := if k in subnames then subnames[k] else EmptyNamespace(true);
        assert into == ChildOrNew(target, k);
        var merged := Merge(src.subnames[k], into);
        subnames := subnames[k := merged];
      } else {
        MergedSkip(src, target, src.subnames.Keys - todo, k);
      }
      todo := todo - {k};
    }
    assert src.subnames.Keys - todo == src.subnames.Keys;
    r := Namespace(bindings, types, subnames, target.public);
  }

  /** Every entry of `from` put into `into`, overwriting the entry of the same name. */
  method PutAll<V>(into: map<string, V>, from: map<string, V>) returns (r: map<string, V>)
    ensures r == into + from
  {
    r := into;
    var todo := from.Keys;
    while todo != {}
      invariant todo <= from.Keys
      invariant r.Keys == into.Keys + (from.Keys - todo)
      invariant forall k :: k in r ==> r[k] == if k in from && k !in todo then from[k] else into[k]
      decreases todo
    {
      var k :| k in todo;
      r := r[k := from[k]];
      todo := todo - {k};
    }
    SameMap(r, into + from);
  }

  /** A module: the namespace its file left behind once it ran. */
  datatype Module = Module(names: Namespace) {
    /** importInto: the module's namespace merged into `target`; the module's own namespace is a value and stays as it was. */
    method ImportInto(target: Namespace) returns (r: Namespace)
      ensures r == Import(names, target)
    {
      r := Merge(names, target);
    }
  }

  /**
   * A public sub-namespace of the source is merged into the one of the same name, which
   * is created public when the target has none.
   */
  lemma ExportedMerged(src: Namespace, target: Namespace, k: string)
    requires k in src.subnames && src.subnames[k].public
    ensures k in Import(src, target).subnames
    ensures Import(src, target).subnames[k] == Import(src.subnames[k], ChildOrNew(target, k))
    ensures k !in target.subnames ==> Import(src, target).subnames[k].public
  {
  }

  /** Every namespace along the path is a public sub-namespace of the one before. */
  ghost predicate PublicPath(ns: Namespace, path: seq<string>)
    decreases |path|
  {
    path == [] || (path[0] in ns.subnames && ns.subnames[path[0]].public && PublicPath(ns.subnames[path[0]], path[1..]))
  }

  /** The target namespace a merge along `path` writes into, with the missing ones new and public. */
  function TargetAt(target: Namespace, path: seq<string>): Namespace
    decreases |path|
  {
    if path == [] then target else TargetAt(ChildOrNew(target, path[0]), path[1..])
  }

  /**
   * Along a path of public namespaces of the source, the merged namespace is the source's
   * namespace at that path merged into the target's (or a new one).
   */
  lemma {:induction false} ImportAlongPath(src: Namespace, target: Namespace, path: seq<string>)
    requires PublicPath(src, path)
    decreases |path|
    ensures FindNamespace(src, path).Success?
    ensures FindNamespace(Import(src, target), path) == Success(Import(FindNamespace(src, path).value, TargetAt(target, path)))
  {
    if path != [] {
      ImportAlongPath(src.subnames[path[0]], ChildOrNew(target, path[0]), path[1..]);
    }
  }

  /** So a name the source binds under public namespaces is bound to the same value after the import. */
  lemma ImportedName(src: Namespace, target: Namespace, qname: seq<string>)
    requires qname != [] && PublicPath(src, qname[..|qname| - 1])
    requires FindName(src, qname).Success?
    ensures FindName(Import(src, target), qname) == FindName(src, qname)
  {
    ImportAlongPath(src, target, qname[..|qname| - 1]);
  }

  /** Nothing of a private sub-namespace of the source reaches a target that has no namespace of that name. */
  lemma PrivateNotImported(src: Namespace, target: Namespace, path: seq<string>)
    requires path != [] && path[0] in src.subnames && !src.subnames[path[0]].public
    requires path[0] !in target.subnames
    ensures FindNamespace(Import(src, target), path).Failure?
  {
  }

  /** Importing the same namespace a second time changes nothing. */
  lemma {:induction false} ImportIdempotent(src: Namespace, target: Namespace)
    decreases src, 1
    ensures Import(src, Import(src, target)) == Import(src, target)
  {
    var once := Import(src, target);
    var twice := Import(src, once);
    ImportSubnamesIdempotent(src, target);
    SameMap(twice.bindings, once.bindings);
    SameMap(twice.types, once.types);
  }

  lemma {:induction false} ImportSubnamesIdempotent(src: Namespace, target: Namespace)
    decreases src, 0
    ensures Import(src, Import(src, target)).subnames == Import(src, target).subnames
  {
    var once := Import(src, target);
    var twice := Import(src, once);
    forall k | k in once.subnames
      ensures twice.subnames[k] == once.subnames[k]
    {
      if k in src.subnames && src.subnames[k].public {
        ExportedMerged(src, target, k);
        ExportedMerged(src, once, k);
        ImportIdempotent(src.subnames[k], ChildOrNew(target, k));
      }
    }
    SameMap(twice.subnames, once.subnames);
  }

  lemma SameMap<K, V>(a: map<K, V>, b: map<K, V>)
    requires a.Keys == b.Keys && forall k :: k in a ==> a[k] == b[k]
    ensures a == b
  {
  }
}
