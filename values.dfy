/**
 * The run-time type and value model (run/Type.kt, and the objects run/Interpreter.kt
 * creates and inspects), and namespaces with the path walks the interpreter does over them.
 *
 * Kotlin compares type cases by object identity: two cases with the same name and field
 * count made by two `type` declarations are different. A case therefore carries a `tag`
 * that stands for the object; the interpreter hands out a new tag for every case it makes.
 *
 * Namespaces are values here: a tree of maps. The interpreter's root namespace is a field
 * it reassigns, and an update at a path rebuilds the namespaces along that path.
 */
module RuntimeValues {
  import opened Wrappers
  import opened Instructions
  import opened Resolver

  datatype TypeCase = TypeCase(tag: nat, name: string, fieldCount: nat)

  datatype Type =
    | NumberType
    | StringType
    | FunctionType
    | ParentType(parentName: string, cases: seq<TypeCase>)
    | CaseType(tc: TypeCase)
  {
    function Name(): string {
      match this
      case NumberType => "Number"
      case StringType => "String"
      case FunctionType => "Function"
      case ParentType(n, _) => n
      case CaseType(tc) => tc.name
    }
  }

  /** A compiled function's code, the scope it closes over (an index into the scope arena) and its arity. */
  datatype Closure = Closure(code: seq<Instr<nat>>, scope: nat, numArgs: nat)

  datatype Value =
    | NumberObject(num: int)
    | StringObject(text: string)
      /** an instance of a case without fields */
    | SingletonObject(stc: TypeCase)
    | CaseObject(ctc: TypeCase, data: seq<Value>)
    | FunctionObject(fn: Function)
  {
    /** The type of the value: a case instance has its case as its type. */
    function TypeOf(): Type {
      match this
      case NumberObject(_) => NumberType
      case StringObject(_) => StringType
      case SingletonObject(tc) => CaseType(tc)
      case CaseObject(tc, _) => CaseType(tc)
      case FunctionObject(_) => FunctionType
    }
  }

  datatype Function =
    | CompiledFunction(closure: Closure)
      /** a function with the first arguments already supplied, first argument first */
    | PartialFunction(inner: Function, args: seq<Value>)
      /** builds an instance of a case with fields */
    | ConstructorFunction(tc: TypeCase)
  {
    /** How many arguments a call must supply to invoke the function. */
    function NumArgs(): int {
      match this
      case CompiledFunction(c) => c.numArgs
      case PartialFunction(inner, args) => inner.NumArgs() - |args|
      case ConstructorFunction(tc) => tc.fieldCount
    }
  }

  datatype Namespace = Namespace(
    bindings: map<string, Value>,
    types: map<string, Type>,
    subnames: map<string, Namespace>,
    public: bool)

  /** `Namespace(public)`: a namespace with nothing in it. */
  function EmptyNamespace(public: bool): (r: Namespace)
    ensures r.bindings == map[] && r.types == map[] && r.subnames == map[] && r.public == public
  {
    Namespace(map[], map[], map[], public)
  }

  /** The exceptions a run can end with. */
  datatype RunError =
    | InterpreterException(msg: string)
      /** an exception of the host language: a pop of an empty stack, a missing name */
    | HostException(msg: string)
      /** an operation whose effect is outside this model (reading another file) */
    | Unmodelled(what: string)
      /** the run did not finish within the steps it was given */
    | OutOfFuel

  /* ------------------------------------------------------------ path walks */

  /** The namespace a path leads to, one sub-namespace per segment. */
  function FindNamespace(ns: Namespace, path: seq<string>): (r: Result<Namespace, RunError>)
    decreases |path|
    ensures path == [] ==> r == Success(ns)
  {
    if path == [] then Success(ns)
    else if path[0] !in ns.subnames then Failure(HostException("no namespace " + path[0]))
    else FindNamespace(ns.subnames[path[0]], path[1..])
  }

  /** Replaces the namespace a path leads to by `sub`; it fails where FindNamespace does. */
  function UpdateAt(ns: Namespace, path: seq<string>, sub: Namespace): (r: Result<Namespace, RunError>)
    decreases |path|
    ensures r.Success? <==> FindNamespace(ns, path).Success?
    ensures r.Success? ==> FindNamespace(r.value, path) == Success(sub)
  {
    if path == [] then Success(sub)
    else if path[0] !in ns.subnames then Failure(HostException("no namespace " + path[0]))
    else
      var child :- UpdateAt(ns.subnames[path[0]], path[1..], sub);
      Success(ns.(subnames := ns.subnames[path[0] := child]))
  }

  /** `q` leaves `path` at some segment: it agrees with `path` up to there and differs at it. */
  ghost predicate OffPath(q: seq<string>, path: seq<string>) {
    exists i :: 0 <= i < |path| && i < |q| && q[..i] == path[..i] && q[i] != path[i]
  }

  /** An update at a path leaves every namespace off that path as it was. */
  lemma {:induction false} UpdateAtOffPath(ns: Namespace, path: seq<string>, sub: Namespace, q: seq<string>)
    requires UpdateAt(ns, path, sub).Success? && OffPath(q, path)
    decreases |path|
    ensures FindNamespace(UpdateAt(ns, path, sub).value, q) == FindNamespace(ns, q)
  {
    var i :| 0 <= i < |path| && i < |q| && q[..i] == path[..i] && q[i] != path[i];
    var r := UpdateAt(ns, path, sub).value;
    var child := UpdateAt(ns.subnames[path[0]], path[1..], sub).value;
    assert r.subnames == ns.subnames[path[0] := child];
    if i > 0 {
      assert q[0] == q[..i][0] == path[..i][0] == path[0];
      assert q[1..][..i - 1] == q[..i][1..] == path[..i][1..] == path[1..][..i - 1];
      assert q[1..][i - 1] == q[i] && path[1..][i - 1] == path[i];
      UpdateAtOffPath(ns.subnames[path[0]], path[1..], sub, q[1..]);
    }
  }

  /** Two namespaces with the same bindings, types, visibility and sub-namespace names. */
  predicate SameEntries(a: Namespace, b: Namespace) {
    a.bindings == b.bindings && a.types == b.types && a.public == b.public && a.subnames.Keys == b.subnames.Keys
  }

  /**
   * An update at a path keeps each namespace strictly above the target as it was, except
   * for the one sub-namespace on the path: its bindings, types, visibility and the names
   * of its sub-namespaces stay.
   */
  lemma {:induction false} UpdateAtAncestors(ns: Namespace, path: seq<string>, sub: Namespace, i: nat)
    requires UpdateAt(ns, path, sub).Success? && i < |path|
    decreases |path|
    ensures FindNamespace(ns, path[..i]).Success? && FindNamespace(UpdateAt(ns, path, sub).value, path[..i]).Success?
    ensures SameEntries(FindNamespace(ns, path[..i]).value, FindNamespace(UpdateAt(ns, path, sub).value, path[..i]).value)
  {
    var r := UpdateAt(ns, path, sub).value;
    var child := UpdateAt(ns.subnames[path[0]], path[1..], sub).value;
    assert r.subnames == ns.subnames[path[0] := child];
    if i > 0 {
      assert path[..i][0] == path[0] && path[..i][1..] == path[1..][..i - 1];
      UpdateAtAncestors(ns.subnames[path[0]], path[1..], sub, i - 1);
    }
  }

  /** A qualified type name: the namespace of all but the last segment, then its types. */
  function FindType(ns: Namespace, qname: seq<string>): (r: Result<Type, RunError>)
  {
    if qname == [] then Failure(HostException("empty type name"))
    else
      var owner :- FindNamespace(ns, qname[..|qname| - 1]);
      var last := qname[|qname| - 1];
      if last in owner.types then Success(owner.types[last]) else Failure(HostException("no type " + last))
  }

  /** A qualified name: the namespace of all but the last segment, then its bindings. */
  function FindName(ns: Namespace, qname: seq<string>): (r: Result<Value, RunError>)
  {
    if qname == [] then Failure(HostException("empty name"))
    else
      var owner :- FindNamespace(ns, qname[..|qname| - 1]);
      var last := qname[|qname| - 1];
      if last in owner.bindings then Success(owner.bindings[last]) else Failure(HostException("no name " + last))
  }

  /**
   * Registers a declared type: the parent type under its name, and each case under its
   * name both as a type and as a binding, a singleton for a case without fields and a
   * constructor otherwise.
   */
  function AddType(ns: Namespace, parent: Type): (r: Namespace)
    requires parent.ParentType?
    ensures r.subnames == ns.subnames && r.public == ns.public
    ensures parent.parentName in r.types && (NamesNoCase(parent.cases, parent.parentName) ==> r.types[parent.parentName] == parent)
    ensures forall c :: c in parent.cases ==> c.name in r.types && c.name in r.bindings
    ensures forall k :: k in ns.types && k != parent.parentName && NamesNoCase(parent.cases, k) ==> k in r.types && r.types[k] == ns.types[k]
  {
    assert parent.cases[..|parent.cases|] == parent.cases;
    AddCases(ns.(types := ns.types[parent.parentName := parent]), parent.cases, |parent.cases|)
  }

  predicate NamesNoCase(cases: seq<TypeCase>, k: string) {
    forall j :: 0 <= j < |cases| ==> cases[j].name != k
  }

  function AddCases(ns: Namespace, cases: seq<TypeCase>, n: nat): (r: Namespace)
    requires n <= |cases|
    decreases n
    ensures r.subnames == ns.subnames && r.public == ns.public
    ensures ns.types.Keys <= r.types.Keys
    ensures forall j :: 0 <= j < n ==> cases[j].name in r.types && cases[j].name in r.bindings
    ensures forall k :: k in ns.types && NamesNoCase(cases[..n], k) ==> r.types[k] == ns.types[k]
  {
    if n == 0 then ns
    else
      var front := AddCases(ns, cases, n - 1);
      assert cases[..n - 1] == cases[..n][..n - 1];
      var c := cases[n - 1];
      front.(types := front.types[c.name := CaseType(c)],
             bindings := front.bindings[c.name := CaseBinding(c)])
  }

  /**
   * The entries AddType writes for the cases: a case whose name no later case has is its
   * own type and its binding; a binding whose name no case has is kept.
   */
  lemma AddTypeEntries(ns: Namespace, parent: Type)
    requires parent.ParentType?
    ensures var r := AddType(ns, parent);
      var cs := parent.cases;
      && (forall j :: 0 <= j < |cs| && NoCaseNamed(cs, j + 1, |cs|, cs[j].name) ==>
            r.types[cs[j].name] == CaseType(cs[j]) && r.bindings[cs[j].name] == CaseBinding(cs[j]))
      && (forall k :: k in ns.bindings && NoCaseNamed(cs, 0, |cs|, k) ==> k in r.bindings && r.bindings[k] == ns.bindings[k])
  {
    var withParent := ns.(types := ns.types[parent.parentName := parent]);
    assert parent.cases[..|parent.cases|] == parent.cases;
    AddCasesValues(withParent, parent.cases, |parent.cases|);
    AddCasesKeepsBindings(withParent, parent.cases, |parent.cases|);
  }

  /** No case from index `lo` up to `hi` has the name `k`. */
  predicate NoCaseNamed(cases: seq<TypeCase>, lo: nat, hi: nat, k: string)
    requires lo <= hi <= |cases|
  {
    forall l :: lo <= l < hi ==> cases[l].name != k
  }

  /** A case whose name no later case has ends up as its own type and its binding. */
  lemma {:induction false} AddCasesValues(ns: Namespace, cases: seq<TypeCase>, n: nat)
    requires n <= |cases|
    decreases n
    ensures var r := AddCases(ns, cases, n);
      forall j :: 0 <= j < n && NoCaseNamed(cases, j + 1, n, cases[j].name) ==>
        r.types[cases[j].name] == CaseType(cases[j]) && r.bindings[cases[j].name] == CaseBinding(cases[j])
  {
    if n > 0 {
      AddCasesValues(ns, cases, n - 1);
    }
  }

  /** A binding whose name no case has is kept. */
  lemma {:induction false} AddCasesKeepsBindings(ns: Namespace, cases: seq<TypeCase>, n: nat)
    requires n <= |cases|
    decreases n
    ensures var r := AddCases(ns, cases, n);
      forall k :: k in ns.bindings && NoCaseNamed(cases, 0, n, k) ==> k in r.bindings && r.bindings[k] == ns.bindings[k]
  {
    if n > 0 {
      AddCasesKeepsBindings(ns, cases, n - 1);
    }
  }

  /** The binding a case gets: its one instance, or a constructor of instances. */
  function CaseBinding(c: TypeCase): Value {
    if c.fieldCount == 0 then SingletonObject(c) else FunctionObject(ConstructorFunction(c))
  }
}
