/**
 * What the interpreter (run/Interpreter.kt) does, as functions of its state: the
 * reference the imperative interpreter is proved against.
 *
 * The state is the operand stack (top last), the call stack (innermost last), the scopes
 * and the root namespace. Scopes are kept in an arena indexed by number: a closure and a
 * frame name their scope by index, so a value saved into a scope is seen by every
 * closure over it. The tag the next declared case will get is also state.
 *
 * Running a function's code is bounded by `fuel`: at most `fuel` instructions per frame
 * and at most `fuel` nested calls, beyond which the run ends with `OutOfFuel`.
 */
module Semantics {
  import opened Wrappers
  import opened Ast
  import opened Resolver
  import opened Instructions
  import opened RuntimeValues
  import opened Stacks
  import opened Text
  import opened Seqs
  import Builtin

  /** A scope: the values saved for each declaration, and the enclosing scope. */
  datatype ScopeNode = ScopeNode(parent: Option<nat>, slots: map<Declaration, Value>)

  /** One activation: the function being run and the scope its code saves into. */
  datatype Frame = Frame(fn: Closure, scope: nat)

  datatype Machine = Machine(
    stack: seq<Value>,
    frames: seq<Frame>,
    scopes: seq<ScopeNode>,
    root: Namespace,
    nextTag: nat)

  /* ------------------------------------------------------------ helpers */

  function Push(m: Machine, v: Value): (r: Machine)
    ensures r.stack == m.stack + [v] && r.frames == m.frames && r.scopes == m.scopes && r.root == m.root
  {
    m.(stack := m.stack + [v])
  }

  function PushAll(m: Machine, vs: seq<Value>): (r: Machine)
    ensures r.stack == m.stack + vs && r.frames == m.frames && r.scopes == m.scopes && r.root == m.root
  {
    m.(stack := m.stack + vs)
  }

  /** The top of the stack and the stack without it; an empty stack raises. */
  function PopValue(m: Machine): (r: Result<(Value, Machine), RunError>)
    ensures m.stack != [] ==> r.Success? && m.stack == r.value.1.stack + [r.value.0]
    ensures m.stack == [] ==> r == Failure(EmptyStack)
  {
    if m.stack == [] then Failure(EmptyStack)
    else Success((m.stack[|m.stack| - 1], m.(stack := m.stack[..|m.stack| - 1])))
  }

  function Peek(m: Machine): (r: Result<Value, RunError>)
    ensures m.stack != [] ==> r == Success(m.stack[|m.stack| - 1])
    ensures m.stack == [] ==> r == Failure(EmptyStack)
  {
    if m.stack == [] then Failure(EmptyStack) else Success(m.stack[|m.stack| - 1])
  }

  /** `n` pops: the first value popped first. */
  function PopN(m: Machine, n: nat): (r: Result<(seq<Value>, Machine), RunError>)
    ensures n <= |m.stack| ==> r.Success? && |r.value.0| == n && m.stack == r.value.1.stack + Reverse(r.value.0)
    ensures n > |m.stack| ==> r == Failure(EmptyStack)
  {
    if n > |m.stack| then Failure(EmptyStack)
    else
      var rest := m.stack[..|m.stack| - n];
      Success((Reverse(m.stack[|m.stack| - n..]), m.(stack := rest)))
  }

  function TopFrame(m: Machine): Result<Frame, RunError> {
    if m.frames == [] then Failure(EmptyStack) else Success(m.frames[|m.frames| - 1])
  }

  /** A new, empty scope at the end of the arena, and its index. */
  function NewScope(m: Machine, parent: Option<nat>): (r: (nat, Machine))
    ensures r.0 == |m.scopes| && r.1.scopes == m.scopes + [ScopeNode(parent, map[])]
    ensures r.1.stack == m.stack && r.1.frames == m.frames && r.1.root == m.root
  {
    (|m.scopes|, m.(scopes := m.scopes + [ScopeNode(parent, map[])]))
  }

  /** Scope lookup: this scope's slot, else the enclosing scope's. */
  function FindIn(scopes: seq<ScopeNode>, s: nat, d: Declaration): Option<Value>
    decreases s
  {
    if s >= |scopes| then None
    else if d in scopes[s].slots then Some(scopes[s].slots[d])
    else if scopes[s].parent.Some? && scopes[s].parent.value < s then FindIn(scopes, scopes[s].parent.value, d)
    else None
  }

  function SaveIn(scopes: seq<ScopeNode>, s: nat, d: Declaration, v: Value): (r: seq<ScopeNode>)
    ensures |r| == |scopes|
  {
    if s < |scopes| then scopes[s := scopes[s].(slots := scopes[s].slots[d := v])] else scopes
  }

  /** The scopes are an arena in which every scope's parent comes before it. */
  ghost predicate ScopesOrdered(scopes: seq<ScopeNode>) {
    forall i :: 0 <= i < |scopes| && scopes[i].parent.Some? ==> scopes[i].parent.value < i
  }

  /* ------------------------------------------------------------ decompose and match */

  function DecomposeError(t: Type, n: nat): RunError {
    InterpreterException("Cannot decompose " + t.Name() + " into " + NatToString(n) + " parts")
  }

  function ExpectedError(t: Type, got: Value): RunError {
    InterpreterException("Expected a " + t.Name() + ", got " + got.TypeOf().Name())
  }

  /** The value is an instance of one of the cases. */
  predicate InCases(v: Value, cases: seq<TypeCase>) {
    v.TypeOf().CaseType? && v.TypeOf().tc in cases
  }

  /**
   * decompose: an atomic or parent type only checks the top value; a case pops an
   * instance of exactly that case and pushes its fields reversed, so the first field ends on top.
   */
  function Decompose(m: Machine, typeName: seq<string>, numParts: nat): Result<Machine, RunError> {
    var t :- FindType(m.root, typeName);
    match t
    case CaseType(tc) =>
      if numParts != tc.fieldCount then Failure(DecomposeError(t, numParts))
      else
        var (obj, m1) :- PopValue(m);
        if obj.TypeOf() != t then Failure(ExpectedError(t, obj))
        else if obj.CaseObject? then Success(PushAll(m1, Reverse(obj.data)))
        else Success(m1)
    case ParentType(_, cases) =>
      if numParts != 1 then Failure(DecomposeError(t, numParts))
      else
        var obj :- Peek(m);
        if !InCases(obj, cases) then Failure(ExpectedError(t, obj)) else Success(m)
    case _ =>
      if numParts != 1 then Failure(DecomposeError(t, numParts))
      else
        var obj :- Peek(m);
        if obj.TypeOf() != t then Failure(ExpectedError(t, obj)) else Success(m)
  }

  /**
   * match(pattern, obj): whether the value fits the pattern. Type names are looked up in
   * the root namespace and a lookup that fails raises; `&&` and `all` stop at the first
   * false, so later lookups are not made.
   */
  function Matches(root: Namespace, p: MatchPattern, o: Value): Result<bool, RunError>
    decreases p, 1
  {
    match p
    case AlwaysMatch => Success(true)
    case UnitMatch => Success(o.TypeOf() == CaseType(Builtin.Unit))
    case EmptyListMatch => Success(o.TypeOf() == CaseType(Builtin.ListEmpty))
    case NumberMatch(x) => Success(o.NumberObject? && o.num == x)
    case StringMatch(s) => Success(o.StringObject? && o.text == s)
    case TypeMatch(typeName, inners) =>
      var t :- FindType(root, typeName);
      match t
      case CaseType(tc) =>
        if o.SingletonObject? then Success(o.stc == tc)
        else if o.CaseObject? then
          if o.ctc == tc && |inners| == tc.fieldCount then AllMatch(root, p, o.data, 0) else Success(false)
        else Success(false)
      case ParentType(_, cases) =>
        if InCases(o, cases) && |inners| == 1 then Matches(root, inners[0], o) else Success(false)
      case _ =>
        if o.TypeOf() == t && |inners| == 1 then Matches(root, inners[0], o) else Success(false)
  }

  /** `inners.zip(data).all { match(p, d) }`, from the i-th pair on. */
  function AllMatch(root: Namespace, p: MatchPattern, data: seq<Value>, i: nat): Result<bool, RunError>
    requires p.TypeMatch?
    decreases p, 0, |p.inners| - i
  {
    if i >= |p.inners| || i >= |data| then Success(true)
    else
      var b :- Matches(root, p.inners[i], data[i]);
      if !b then Success(false) else AllMatch(root, p, data, i + 1)
  }

  /** match(pattern) with no object: pop the value, then match it. */
  function PopMatch(m: Machine, p: MatchPattern): Result<(bool, Machine), RunError> {
    var (v, m1) :- PopValue(m);
    var b :- Matches(m.root, p, v);
    Success((b, m1))
  }

  /* ------------------------------------------------------------ namespaces and types */

  const PrivateParent: RunError := InterpreterException("Cannot add public namespace as child of private namespace")

  /**
   * makeNamespace: walk the path from `ns`, creating each missing segment with the
   * requested visibility; a public request raises on reaching a private namespace that
   * still has a segment below it.
   */
  function MakePath(ns: Namespace, path: seq<string>, public: bool): Result<Namespace, RunError>
    decreases |path|
  {
    if path == [] then Success(ns)
    else if public && !ns.public then Failure(PrivateParent)
    else
      var child' :- MakePath(ChildFor(ns, path[0], public), path[1..], public);
      Success(ns.(subnames := ns.subnames[path[0] := child']))
  }

  /** The namespace the walk moves to for a segment: the existing one, or a new one of the requested visibility. */
  function ChildFor(ns: Namespace, part: string, public: bool): (r: Namespace)
    ensures part in ns.subnames ==> r == ns.subnames[part]
    ensures part !in ns.subnames ==> r == EmptyNamespace(public)
  {
    if part in ns.subnames then ns.subnames[part] else EmptyNamespace(public)
  }

  /**
   * `visited` are the namespaces the walk of makeNamespace has passed through from `root`,
   * outermost first, and `ns` is where it stands: none of them stopped a public request,
   * and each leads to the next by its segment of the path.
   */
  ghost predicate Walked(root: Namespace, path: seq<string>, public: bool, visited: seq<Namespace>, ns: Namespace)
    decreases |visited|
  {
    if visited == [] then ns == root
    else
      var n := |visited| - 1;
      && |visited| <= |path|
      && !(public && !visited[n].public)
      && ChildFor(visited[n], path[n], public) == ns
      && Walked(root, path, public, visited[..n], visited[n])
  }

  /** The walked namespaces rebuilt, innermost first, around `inner`, the new namespace at the end of the walk. */
  function Rebuild(visited: seq<Namespace>, path: seq<string>, inner: Namespace): Namespace
    requires |visited| <= |path|
    decreases |visited|
  {
    if visited == [] then inner
    else
      var n := |visited| - 1;
      Rebuild(visited[..n], path, visited[n].(subnames := visited[n].subnames[path[n] := inner]))
  }

  /** Making the path from the root is making the rest of it from where the walk stands, then rebuilding. */
  lemma {:induction false} MakePathWalked(root: Namespace, path: seq<string>, public: bool, visited: seq<Namespace>, ns: Namespace)
    requires Walked(root, path, public, visited, ns)
    decreases |visited|
    ensures |visited| <= |path|
    ensures MakePath(root, path, public) ==
      match MakePath(ns, path[|visited|..], public)
      case Success(t) => Success(Rebuild(visited, path, t))
      case Failure(e) => Failure(e)
  {
    if visited != [] {
      var n := |visited| - 1;
      MakePathWalked(root, path, public, visited[..n], visited[n]);
      assert path[n..][1..] == path[n + 1..];
    }
  }

  function MakeNamespace(m: Machine, path: seq<string>, public: bool): Result<Machine, RunError> {
    var root :- MakePath(m.root, path, public);
    Success(m.(root := root))
  }

  /** The cases a type declaration makes, tagged from `tag` on, each with its field count. */
  function MakeCases(cases: seq<TypeCaseDecl>, tag: nat): (r: seq<TypeCase>)
    ensures |r| == |cases|
    ensures forall i :: 0 <= i < |cases| ==> r[i] == TypeCase(tag + i, cases[i].name, |cases[i].params|)
  {
    if cases == [] then [] else [TypeCase(tag, cases[0].name, |cases[0].params|)] + MakeCases(cases[1..], tag + 1)
  }

  /** makeType: the parent type and its new cases, added to the namespace at the path. */
  function MakeType(m: Machine, name: string, path: seq<string>, cases: seq<TypeCaseDecl>): Result<Machine, RunError> {
    var ns :- FindNamespace(m.root, path);
    var parent := ParentType(name, MakeCases(cases, m.nextTag));
    var root :- UpdateAt(m.root, path, AddType(ns, parent));
    Success(m.(root := root, nextTag := m.nextTag + |cases|))
  }

  /** SaveNamespace: the popped value bound under `name` in the namespace at the path. */
  function SaveNamespace(m: Machine, name: string, path: seq<string>): Result<Machine, RunError> {
    var ns :- FindNamespace(m.root, path);
    var (v, m1) :- PopValue(m);
    var root :- UpdateAt(m.root, path, ns.(bindings := ns.bindings[name := v]));
    Success(m1.(root := root))
  }

  function BeforeAssignment(d: Declaration): RunError {
    InterpreterException("Access of name '" + d.name + "' before assignment")
  }

  /** findDeclaration: the value saved for the declaration in the running frame's scope or an enclosing one. */
  function LocalValue(m: Machine, d: Declaration): Result<Value, RunError> {
    var f :- TopFrame(m);
    var v := FindIn(m.scopes, f.scope, d);
    if v.None? then Failure(BeforeAssignment(d)) else Success(v.value)
  }

  /** SaveLocal: the popped value saved for the declaration in the running frame's scope. */
  function SaveLocalValue(m: Machine, d: Declaration): Result<Machine, RunError> {
    var f :- TopFrame(m);
    var (v, m1) :- PopValue(m);
    Success(m1.(scopes := SaveIn(m1.scopes, f.scope, d, v)))
  }

  /* ------------------------------------------------------------ one instruction */

  /**
   * Every instruction but a call: the new state and the next instruction index, which is
   * `next` (one past this instruction) except after a jump, a taken conditional jump and
   * a tail call.
   */
  function Simple(m: Machine, op: Op<nat>, next: nat): Result<(Machine, nat), RunError>
    requires !op.Call?
  {
    match op
    case NoOp => Success((m, next))
    case Fail(msg) => Failure(InterpreterException("Fail: " + msg))
    case Pop =>
      var (_, m1) :- PopValue(m);
      Success((m1, next))
    case Duplicate =>
      var v :- Peek(m);
      Success((Push(m, v), next))
    case Decompose(t, n) =>
      var m1 :- Decompose(m, t, n);
      Success((m1, next))
    case Jump(target) => Success((m, target))
    case Match(p) =>
      var (b, m1) :- PopMatch(m, p);
      if b then Success((m1, next)) else Failure(InterpreterException("Failed match"))
    case JumpIfMatch(p, target) =>
      var (b, m1) :- PopMatch(m, p);
      Success((m1, if b then target else next))
    case LoadLocal(d) =>
      var v :- LocalValue(m, d);
      Success((Push(m, v), next))
    case LoadName(q) =>
      var v :- FindName(m.root, q);
      Success((Push(m, v), next))
    case LoadNumber(x) => Success((Push(m, NumberObject(x)), next))
    case LoadString(s) => Success((Push(m, StringObject(s)), next))
    case LoadFunction(body, n) =>
      var f :- TopFrame(m);
      Success((Push(m, FunctionObject(CompiledFunction(Closure(body, f.scope, n)))), next))
    case SaveLocal(d) =>
      var m1 :- SaveLocalValue(m, d);
      Success((m1, next))
    case SaveNamespace(name, path) =>
      var m1 :- SaveNamespace(m, name, path);
      Success((m1, next))
    case TailCall(n) =>
      var m1 :- TailCall(m, n);
      Success((m1, 0))
    case MkNamespace(path, _, public) =>
      var m1 :- MakeNamespace(m, path, public);
      Success((m1, next))
    case MkType(name, path, cases) =>
      var m1 :- MakeType(m, name, path, cases);
      Success((m1, next))
    case ImportAll(_) => Failure(Unmodelled("import of another file"))
    case ImportNames(_, _) => Failure(Unmodelled("import of another file"))
  }

  /**
   * tailCall: the argument count must be the running function's arity; the frame stays
   * and gets a new scope under the function's closure scope.
   */
  function TailCall(m: Machine, nargs: nat): (r: Result<Machine, RunError>)
  {
    var f :- TopFrame(m);
    if f.fn.numArgs != nargs then Failure(InterpreterException("Cannot create partial tail-call"))
    else
      var (s, m1) := NewScope(m, Some(f.fn.scope));
      Success(m1.(frames := m1.frames[|m1.frames| - 1 := Frame(f.fn, s)]))
  }

  /* ------------------------------------------------------------ calls and runs */

  function Depth(f: Function): nat {
    match f
    case PartialFunction(inner, _) => Depth(inner) + 1
    case _ => 0
  }

  /**
   * run: from instruction `ip` until the index is past the end of the code, at most
   * `steps` instructions. Each instruction first records its line in the running frame,
   * so an empty call stack raises.
   */
  function Exec(m: Machine, code: seq<Instr<nat>>, ip: nat, steps: nat, fuel: nat): Result<Machine, RunError>
    decreases fuel, 3, steps
  {
    if ip >= |code| then Success(m)
    else if m.frames == [] then Failure(EmptyStack)
    else if steps == 0 then Failure(OutOfFuel)
    else
      var (m1, ip1) :- Step(m, code[ip].op, ip + 1, fuel);
      Exec(m1, code, ip1, steps - 1, fuel)
  }

  function Step(m: Machine, op: Op<nat>, next: nat, fuel: nat): Result<(Machine, nat), RunError>
    decreases fuel, 2, 0
  {
    if op.Call? then
      var m1 :- Call(m, op.nargs, fuel);
      Success((m1, next))
    else Simple(m, op, next)
  }

  /**
   * call: pop the callee; the exact number of arguments invokes it, fewer are popped
   * into a partial application, more raise.
   */
  function Call(m: Machine, nargs: nat, fuel: nat): Result<Machine, RunError>
    decreases fuel, 1, 0
  {
    var (callee, m1) :- PopValue(m);
    if !callee.FunctionObject? then Failure(InterpreterException("not a function"))
    else if nargs == callee.fn.NumArgs() then Invoke(m1, callee.fn, fuel)
    else if nargs < callee.fn.NumArgs() then
      var (args, m2) :- PopN(m1, nargs);
      Success(Push(m2, FunctionObject(PartialFunction(callee.fn, args))))
    else Failure(InterpreterException("Too many arguments given for function"))
  }

  /**
   * The function invoked with its arguments on the stack, the first on top. A compiled
   * function runs its code in a new frame with a new scope under its closure scope, and
   * the frame is removed once the code ends; a partial application puts its arguments
   * back on top and invokes the function it wraps; a constructor pops the fields, first
   * field first, and pushes the instance.
   */
  function Invoke(m: Machine, fn: Function, fuel: nat): Result<Machine, RunError>
    decreases fuel, 0, Depth(fn)
  {
    match fn
    case CompiledFunction(c) =>
      if fuel == 0 then Failure(OutOfFuel)
      else
        var (s, m1) := NewScope(m, Some(c.scope));
        var m2 :- Exec(m1.(frames := m1.frames + [Frame(c, s)]), c.code, 0, fuel - 1, fuel - 1);
        if m2.frames == [] then Failure(EmptyStack)
        else Success(m2.(frames := m2.frames[..|m2.frames| - 1]))
    case PartialFunction(inner, args) =>
      Invoke(PushAll(m, Reverse(args)), inner, fuel)
    case ConstructorFunction(tc) =>
      var (fields, m1) :- PopN(m, tc.fieldCount);
      Success(Push(m1, CaseObject(tc, fields)))
  }

  /** The machine of a new interpreter: empty stacks, no scopes, the built-in root namespace. */
  function Initial(): Machine {
    Machine([], [], [], Builtin.MakeRootNamespace(), Builtin.FirstFreeTag)
  }

  /** exec: the code run as the body of a function of no arguments over a new root scope. */
  function ExecMain(m: Machine, code: seq<Instr<nat>>, fuel: nat): Result<Machine, RunError> {
    var (s, m1) := NewScope(m, None);
    Invoke(m1, CompiledFunction(Closure(code, s, 0)), fuel)
  }
}
