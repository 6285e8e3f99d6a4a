/**
 * Properties of the interpreter's reference semantics (module Semantics), one group per
 * part of run/Interpreter.kt: the control flow of the run loop, the stack discipline of
 * the stack instructions, scopes, decompose and match, the calling convention, tail
 * calls, and namespace and type creation.
 */
module SemanticsFacts {
  import opened Wrappers
  import opened Ast
  import opened Resolver
  import opened Instructions
  import opened RuntimeValues
  import opened Stacks
  import opened Semantics
  import opened Seqs

  /* ------------------------------------------------------------ control flow */

  /**
   * After an instruction, execution continues with the next one, except after a jump
   * (its target), a conditional jump whose pattern matched (its target) and a tail call
   * (the first instruction).
   */
  lemma NextIndex(m: Machine, op: Op<nat>, next: nat, fuel: nat)
    requires Step(m, op, next, fuel).Success?
    ensures op.Jump? ==> Step(m, op, next, fuel).value.1 == op.dest
    ensures op.JumpIfMatch? ==>
      && PopMatch(m, op.pattern).Success?
      && Step(m, op, next, fuel).value.1 == if PopMatch(m, op.pattern).value.0 then op.target else next
    ensures op.TailCall? ==> Step(m, op, next, fuel).value.1 == 0
    ensures !op.Jump? && !op.JumpIfMatch? && !op.TailCall? ==> Step(m, op, next, fuel).value.1 == next
  {
  }

  /** There is no return instruction: a run ends exactly when the index passes the end of the code. */
  lemma RunEndsPastCode(m: Machine, code: seq<Instr<nat>>, ip: nat, steps: nat, fuel: nat)
    ensures ip >= |code| ==> Exec(m, code, ip, steps, fuel) == Success(m)
    ensures ip < |code| && m.frames == [] ==> Exec(m, code, ip, steps, fuel) == Failure(EmptyStack)
    ensures ip < |code| && m.frames != [] && steps > 0 ==>
      Exec(m, code, ip, steps, fuel) ==
        (match Step(m, code[ip].op, ip + 1, fuel)
         case Success((m1, ip1)) => Exec(m1, code, ip1, steps - 1, fuel)
         case Failure(e) => Failure(e))
  {
  }

  /* ------------------------------------------------------------ the operand stack */

  /** `Duplicate` pushes a copy of the top value, so the two top values are equal. */
  lemma DuplicateGrows(m: Machine, next: nat)
    requires Simple(m, Duplicate, next).Success?
    ensures var s := Simple(m, Duplicate, next).value.0.stack;
      |s| == |m.stack| + 1 && s[..|m.stack|] == m.stack && s[|s| - 1] == s[|s| - 2]
  {
  }

  /* ------------------------------------------------------------ scopes */

  /** The running frame's scope, when it is in the arena. */
  ghost predicate FrameScopeKnown(m: Machine) {
    m.frames != [] && m.frames[|m.frames| - 1].scope < |m.scopes|
  }

  /** `SaveLocal` followed by `LoadLocal` of the same declaration pushes the saved value back. */
  lemma SaveThenLoad(m: Machine, d: Declaration, next: nat, next2: nat)
    requires FrameScopeKnown(m) && m.stack != []
    ensures Simple(m, SaveLocal(d), next).Success?
    ensures var m1 := Simple(m, SaveLocal(d), next).value.0;
      && m1.stack == m.stack[..|m.stack| - 1]
      && Simple(m1, LoadLocal(d), next2) == Success((m.(scopes := m1.scopes), next2))
  {
    var m1 := Simple(m, SaveLocal(d), next).value.0;
    var s := m.frames[|m.frames| - 1].scope;
    assert m1.scopes[s].slots[d] == m.stack[|m.stack| - 1];
    assert m1.stack + [m.stack[|m.stack| - 1]] == m.stack;
  }

  /** Loading a declaration nothing was saved for, in the scope or any enclosing one, raises. */
  lemma LoadBeforeSave(m: Machine, d: Declaration, next: nat)
    requires m.frames != [] && FindIn(m.scopes, m.frames[|m.frames| - 1].scope, d).None?
    ensures Simple(m, LoadLocal(d), next) == Failure(BeforeAssignment(d))
  {
  }

  /**
   * A scope sees what is saved later into an enclosing scope, if it has no slot of its own
   * for the declaration: a closure reads its scope when it runs, not when it is made.
   */
  lemma EnclosingSaveVisible(scopes: seq<ScopeNode>, child: nat, parent: nat, d: Declaration, v: Value)
    requires parent < child < |scopes| && scopes[child].parent == Some(parent)
    requires d !in scopes[child].slots
    ensures FindIn(SaveIn(scopes, parent, d, v), child, d) == Some(v)
  {
  }

  /* ------------------------------------------------------------ decompose */

  /**
   * Decomposing an instance of exactly the named case with the case's field count pops it
   * and pushes its fields reversed, so the first field ends on top.
   */
  lemma DecomposeCase(m: Machine, typeName: seq<string>, tc: TypeCase, rest: seq<Value>, data: seq<Value>)
    requires FindType(m.root, typeName) == Success(CaseType(tc))
    requires m.stack == rest + [CaseObject(tc, data)]
    ensures Semantics.Decompose(m, typeName, tc.fieldCount) == Success(m.(stack := rest + Reverse(data)))
  {
    assert m.stack[..|m.stack| - 1] == rest;
    assert PopValue(m) == Success((CaseObject(tc, data), m.(stack := rest)));
  }

  /** After decomposing an instance, its first field is on top and the last one deepest. */
  lemma FirstFieldOnTop(m: Machine, typeName: seq<string>, tc: TypeCase, rest: seq<Value>, data: seq<Value>)
    requires FindType(m.root, typeName) == Success(CaseType(tc))
    requires m.stack == rest + [CaseObject(tc, data)] && data != []
    ensures var s := Semantics.Decompose(m, typeName, tc.fieldCount).value.stack;
      |s| == |rest| + |data| && s[|s| - 1] == data[0] && s[|rest|] == data[|data| - 1]
  {
    DecomposeCase(m, typeName, tc, rest, data);
  }

  /** The errors: a part count other than the case's field count, or another kind of value. */
  lemma DecomposeCaseErrors(m: Machine, typeName: seq<string>, tc: TypeCase, n: nat)
    requires FindType(m.root, typeName) == Success(CaseType(tc))
    ensures n != tc.fieldCount ==> Semantics.Decompose(m, typeName, n) == Failure(DecomposeError(CaseType(tc), n))
    ensures n == tc.fieldCount && m.stack != [] && m.stack[|m.stack| - 1].TypeOf() != CaseType(tc) ==>
      Semantics.Decompose(m, typeName, n) == Failure(ExpectedError(CaseType(tc), m.stack[|m.stack| - 1]))
  {
  }

  /** Decomposing by an atomic or a parent type only checks: it needs one part and leaves the stack as it was. */
  lemma DecomposeOnlyChecks(m: Machine, typeName: seq<string>, n: nat)
    requires FindType(m.root, typeName).Success? && !FindType(m.root, typeName).value.CaseType?
    requires Semantics.Decompose(m, typeName, n).Success?
    ensures n == 1 && Semantics.Decompose(m, typeName, n) == Success(m)
    ensures m.stack != []
    ensures var t := FindType(m.root, typeName).value; var top := m.stack[|m.stack| - 1];
      if t.ParentType? then InCases(top, t.cases) else top.TypeOf() == t
  {
  }

  /**
   * Constructing an instance from the arguments on the stack (first argument on top) and
   * decomposing it by its case gives back the stack the arguments were on.
   */
  lemma ConstructThenDecompose(m: Machine, typeName: seq<string>, tc: TypeCase, fuel: nat)
    requires FindType(m.root, typeName) == Success(CaseType(tc))
    requires tc.fieldCount <= |m.stack|
    ensures Invoke(m, ConstructorFunction(tc), fuel).Success?
    ensures Semantics.Decompose(Invoke(m, ConstructorFunction(tc), fuel).value, typeName, tc.fieldCount) == Success(m)
  {
    var (fields, m1) := PopN(m, tc.fieldCount).value;
    var built := Push(m1, CaseObject(tc, fields));
    assert built.root == m.root;
    DecomposeCase(built, typeName, tc, m1.stack, fields);
    assert m1.(stack := m1.stack + Reverse(fields)) == m;
  }

  /* ------------------------------------------------------------ match */

  /** The patterns that need no type lookup. */
  lemma MatchLiterals(root: Namespace, o: Value, x: int, s: string)
    ensures Matches(root, AlwaysMatch, o) == Success(true)
    ensures Matches(root, NumberMatch(x), o) == Success(o.NumberObject? && o.num == x)
    ensures Matches(root, StringMatch(s), o) == Success(o.StringObject? && o.text == s)
  {
  }

  /** Every pair of an inner pattern and a field, up to the shorter of the two, matches. */
  ghost predicate PairsMatch(root: Namespace, inners: seq<MatchPattern>, data: seq<Value>, i: nat) {
    forall j :: i <= j < |inners| && j < |data| ==> Matches(root, inners[j], data[j]) == Success(true)
  }

  lemma {:induction false} AllMatchPairs(root: Namespace, p: MatchPattern, data: seq<Value>, i: nat)
    requires p.TypeMatch?
    decreases |p.inners| - i
    ensures AllMatch(root, p, data, i) == Success(true) <==> PairsMatch(root, p.inners, data, i)
  {
    if i < |p.inners| && i < |data| {
      AllMatchPairs(root, p, data, i + 1);
      if Matches(root, p.inners[i], data[i]) == Success(true) {
        assert PairsMatch(root, p.inners, data, i) <==> PairsMatch(root, p.inners, data, i + 1);
      }
    }
  }

  /**
   * A case pattern: a singleton only needs to be of the case, whatever the inner patterns;
   * an instance with fields needs the case, one inner pattern per field, and every field
   * to match its pattern.
   */
  lemma MatchCase(root: Namespace, typeName: seq<string>, inners: seq<MatchPattern>, tc: TypeCase, o: Value)
    requires FindType(root, typeName) == Success(CaseType(tc))
    ensures o.SingletonObject? ==> Matches(root, TypeMatch(typeName, inners), o) == Success(o.stc == tc)
    ensures o.CaseObject? ==>
      (Matches(root, TypeMatch(typeName, inners), o) == Success(true) <==>
        o.ctc == tc && |inners| == tc.fieldCount && PairsMatch(root, inners, o.data, 0))
    ensures !o.SingletonObject? && !o.CaseObject? ==> Matches(root, TypeMatch(typeName, inners), o) == Success(false)
  {
    if o.CaseObject? && o.ctc == tc && |inners| == tc.fieldCount {
      AllMatchPairs(root, TypeMatch(typeName, inners), o.data, 0);
    }
  }

  /* ------------------------------------------------------------ calls */

  /** The stack without its top `k` values. */
  function Below(s: seq<Value>, k: nat): seq<Value>
    requires k <= |s|
  {
    s[..|s| - k]
  }

  /**
   * call pops the callee first: a value that is not a function raises; more arguments
   * than the function takes raise; fewer are popped, first popped first, into a partial
   * application that is pushed; exactly as many invoke it.
   */
  lemma CallArity(m: Machine, nargs: nat, fuel: nat)
    requires m.stack != []
    ensures var callee := m.stack[|m.stack| - 1];
      && (!callee.FunctionObject? ==> Semantics.Call(m, nargs, fuel) == Failure(InterpreterException("not a function")))
      && (callee.FunctionObject? && nargs > callee.fn.NumArgs() ==>
            Semantics.Call(m, nargs, fuel) == Failure(InterpreterException("Too many arguments given for function")))
      && (callee.FunctionObject? && nargs == callee.fn.NumArgs() ==>
            Semantics.Call(m, nargs, fuel) == Invoke(m.(stack := Below(m.stack, 1)), callee.fn, fuel))
      && (callee.FunctionObject? && nargs < callee.fn.NumArgs() && nargs + 1 <= |m.stack| ==>
            Semantics.Call(m, nargs, fuel) == Success(m.(stack := Below(m.stack, nargs + 1) +
              [FunctionObject(PartialFunction(callee.fn, Reverse(m.stack[|m.stack| - 1 - nargs..|m.stack| - 1])))])))
  {
    var callee := m.stack[|m.stack| - 1];
    var m1 := m.(stack := Below(m.stack, 1));
    if callee.FunctionObject? && nargs < callee.fn.NumArgs() && nargs + 1 <= |m.stack| {
      assert m1.stack[|m1.stack| - nargs..] == m.stack[|m.stack| - 1 - nargs..|m.stack| - 1];
      assert m1.stack[..|m1.stack| - nargs] == Below(m.stack, nargs + 1);
    }
  }

  /** Invoking a constructor with all its fields on the stack builds the instance, first argument first. */
  lemma ConstructorInvoke(m: Machine, tc: TypeCase, args: seq<Value>, fuel: nat)
    requires |args| == tc.fieldCount
    ensures Invoke(PushAll(m, Reverse(args)), ConstructorFunction(tc), fuel) == Success(Push(m, CaseObject(tc, args)))
  {
    var s := m.stack + Reverse(args);
    assert s[|m.stack|..] == Reverse(args);
    assert s[..|m.stack|] == m.stack;
    assert Reverse(Reverse(args)) == args;
  }

  /** A call of a constructor with fewer arguments than fields pops them, first argument first, into a partial application. */
  lemma ConstructorPartialCall(m: Machine, tc: TypeCase, a: seq<Value>, fuel: nat)
    requires |a| < tc.fieldCount
    ensures Semantics.Call(Push(PushAll(m, Reverse(a)), FunctionObject(ConstructorFunction(tc))), |a|, fuel) ==
      Success(Push(m, FunctionObject(PartialFunction(ConstructorFunction(tc), a))))
  {
    var s := m.stack + Reverse(a);
    assert s[|m.stack|..] == Reverse(a);
    assert s[..|m.stack|] == m.stack;
    assert Reverse(Reverse(a)) == a;
  }

  /** A call with as many arguments as the callee takes invokes it on the stack below. */
  lemma ExactCall(m: Machine, fn: Function, fuel: nat)
    requires fn.NumArgs() >= 0
    ensures Semantics.Call(Push(m, FunctionObject(fn)), fn.NumArgs() as nat, fuel) == Invoke(m, fn, fuel)
  {
    assert Push(m, FunctionObject(fn)).stack[..|m.stack|] == m.stack;
  }

  /**
   * A partial application keeps the order of the arguments: applying a constructor to
   * the first arguments and then the result to the rest builds the same instance as one
   * call with all of them.
   */
  lemma PartialKeepsOrder(m: Machine, tc: TypeCase, a: seq<Value>, b: seq<Value>, fuel: nat)
    requires |a| + |b| == tc.fieldCount && |b| > 0
    ensures var ctor := FunctionObject(ConstructorFunction(tc));
      var m1 := PushAll(m, Reverse(b));
      && Semantics.Call(Push(PushAll(m, Reverse(a + b)), ctor), |a + b|, fuel) == Success(Push(m, CaseObject(tc, a + b)))
      && Semantics.Call(Push(PushAll(m1, Reverse(a)), ctor), |a|, fuel) ==
           Success(Push(m1, FunctionObject(PartialFunction(ConstructorFunction(tc), a))))
      && Semantics.Call(Push(m1, FunctionObject(PartialFunction(ConstructorFunction(tc), a))), |b|, fuel) ==
           Success(Push(m, CaseObject(tc, a + b)))
  {
    var m1 := PushAll(m, Reverse(b));
    var ctor := ConstructorFunction(tc);
    ConstructorPartialCall(m1, tc, a, fuel);
    ReverseAppend(a, b);
    assert PushAll(m1, Reverse(a)) == PushAll(m, Reverse(a + b));
    ConstructorInvoke(m, tc, a + b, fuel);
    ExactCall(PushAll(m, Reverse(a + b)), ctor, fuel);
    var p := PartialFunction(ctor, a);
    ExactCall(m1, p, fuel);
    assert Invoke(m1, p, fuel) == Invoke(PushAll(m, Reverse(a + b)), ctor, fuel);
  }

  /* ------------------------------------------------------------ tail calls and call depth */

  /**
   * A tail call with the running function's arity keeps the call stack as it was except
   * for the running frame's scope, which is new and encloses in the function's closure
   * scope; other argument counts raise.
   */
  lemma TailCallKeepsFrames(m: Machine, nargs: nat)
    requires m.frames != []
    ensures var f := m.frames[|m.frames| - 1];
      && (f.fn.numArgs != nargs ==> Semantics.TailCall(m, nargs) == Failure(InterpreterException("Cannot create partial tail-call")))
      && (f.fn.numArgs == nargs ==>
            && Semantics.TailCall(m, nargs).Success?
            && var m1 := Semantics.TailCall(m, nargs).value;
               && m1.stack == m.stack
               && m1.frames == m.frames[|m.frames| - 1 := Frame(f.fn, |m.scopes|)]
               && m1.scopes == m.scopes + [ScopeNode(Some(f.fn.scope), map[])])
  {
  }

  /** Two call stacks of the same depth that differ at most in the innermost frame. */
  ghost predicate SameBelowTop(a: seq<Frame>, b: seq<Frame>) {
    |a| == |b| && (|a| > 0 ==> a[..|a| - 1] == b[..|b| - 1])
  }

  /**
   * Running a function's code, however many tail calls it makes, leaves the call stack
   * at the depth it had, with only the innermost frame possibly different; an invoked
   * function leaves the call stack exactly as before.
   */
  lemma {:induction false} ExecKeepsDepth(m: Machine, code: seq<Instr<nat>>, ip: nat, steps: nat, fuel: nat)
    requires Exec(m, code, ip, steps, fuel).Success?
    decreases fuel, 3, steps
    ensures SameBelowTop(Exec(m, code, ip, steps, fuel).value.frames, m.frames)
  {
    if ip < |code| && steps > 0 {
      var (m1, ip1) := Step(m, code[ip].op, ip + 1, fuel).value;
      StepKeepsDepth(m, code[ip].op, ip + 1, fuel);
      ExecKeepsDepth(m1, code, ip1, steps - 1, fuel);
    }
  }

  lemma {:induction false} StepKeepsDepth(m: Machine, op: Op<nat>, next: nat, fuel: nat)
    requires Step(m, op, next, fuel).Success?
    decreases fuel, 2, 0
    ensures op.Call? ==> Step(m, op, next, fuel).value.0.frames == m.frames
    ensures SameBelowTop(Step(m, op, next, fuel).value.0.frames, m.frames)
  {
    if op.Call? {
      CallKeepsDepth(m, op.nargs, fuel);
    } else {
      SimpleKeepsDepth(m, op, next);
    }
  }

  lemma SimpleKeepsDepth(m: Machine, op: Op<nat>, next: nat)
    requires !op.Call? && Simple(m, op, next).Success?
    ensures !op.TailCall? ==> Simple(m, op, next).value.0.frames == m.frames
    ensures SameBelowTop(Simple(m, op, next).value.0.frames, m.frames)
  {
    if op.TailCall? {
      var m1 := Semantics.TailCall(m, op.nargs).value;
      assert m1.frames[..|m1.frames| - 1] == m.frames[..|m.frames| - 1];
    }
  }

  lemma {:induction false} CallKeepsDepth(m: Machine, nargs: nat, fuel: nat)
    requires Semantics.Call(m, nargs, fuel).Success?
    decreases fuel, 1, 0
    ensures Semantics.Call(m, nargs, fuel).value.frames == m.frames
  {
    var (callee, m1) := PopValue(m).value;
    if nargs == callee.fn.NumArgs() {
      InvokeKeepsDepth(m1, callee.fn, fuel);
    }
  }

  lemma {:induction false} InvokeKeepsDepth(m: Machine, fn: Function, fuel: nat)
    requires Invoke(m, fn, fuel).Success?
    decreases fuel, 0, Depth(fn)
    ensures Invoke(m, fn, fuel).value.frames == m.frames
  {
    match fn
    case CompiledFunction(c) =>
      var (s, m1) := NewScope(m, Some(c.scope));
      var entered := m1.(frames := m1.frames + [Frame(c, s)]);
      ExecKeepsDepth(entered, c.code, 0, fuel - 1, fuel - 1);
      var m2 := Exec(entered, c.code, 0, fuel - 1, fuel - 1).value;
      assert m2.frames[..|m2.frames| - 1] == entered.frames[..|entered.frames| - 1] == m.frames;
    case PartialFunction(inner, args) =>
      InvokeKeepsDepth(PushAll(m, Reverse(args)), inner, fuel);
    case ConstructorFunction(_) =>
  }

  /* ------------------------------------------------------------ makeNamespace */

  /** `b` is `a` with the same entries and visibility and possibly more sub-namespaces. */
  ghost predicate Extends(a: Namespace, b: Namespace) {
    b.bindings == a.bindings && b.types == a.types && b.public == a.public && a.subnames.Keys <= b.subnames.Keys
  }

  /**
   * Along the path, a namespace that existed keeps its entries and visibility, and one
   * that was missing is created with the requested visibility.
   */
  lemma {:induction false} MakePathAlong(ns: Namespace, path: seq<string>, public: bool, i: nat)
    requires MakePath(ns, path, public).Success? && i <= |path|
    decreases |path|
    ensures var r := MakePath(ns, path, public).value;
      && FindNamespace(r, path[..i]).Success?
      && (FindNamespace(ns, path[..i]).Success? ==> Extends(FindNamespace(ns, path[..i]).value, FindNamespace(r, path[..i]).value))
      && (FindNamespace(ns, path[..i]).Failure? ==> FindNamespace(r, path[..i]).value.public == public)
  {
    var r := MakePath(ns, path, public).value;
    if i > 0 {
      var child := if path[0] in ns.subnames then ns.subnames[path[0]] else EmptyNamespace(public);
      MakePathAlong(child, path[1..], public, i - 1);
      assert path[..i][1..] == path[1..][..i - 1];
      if path[0] !in ns.subnames && i > 1 {
        assert path[1..][..i - 1][0] !in child.subnames;
      }
    }
  }

  /** Making a path that exists changes nothing, so repeating makeNamespace changes nothing. */
  lemma {:induction false} MakePathIdempotent(ns: Namespace, path: seq<string>, public: bool)
    requires MakePath(ns, path, public).Success?
    decreases |path|
    ensures MakePath(MakePath(ns, path, public).value, path, public) == MakePath(ns, path, public)
  {
    if path != [] {
      var r := MakePath(ns, path, public).value;
      var child := if path[0] in ns.subnames then ns.subnames[path[0]] else EmptyNamespace(public);
      MakePathIdempotent(child, path[1..], public);
      assert r.subnames[path[0] := r.subnames[path[0]]] == r.subnames;
    }
  }

  /** The namespace reached after `i` segments exists and is private. */
  ghost predicate PrivateAt(ns: Namespace, path: seq<string>, i: nat)
    requires i <= |path|
  {
    FindNamespace(ns, path[..i]).Success? && !FindNamespace(ns, path[..i]).value.public
  }

  /**
   * A private request never raises; a public one raises exactly when an existing
   * namespace it passes through, the last segment excepted, is private.
   */
  lemma {:induction false} MakePathRaises(ns: Namespace, path: seq<string>)
    decreases |path|
    ensures MakePath(ns, path, false).Success?
    ensures MakePath(ns, path, true).Failure? <==> exists i :: 0 <= i < |path| && PrivateAt(ns, path, i)
  {
    if path != [] {
      var existing := path[0] in ns.subnames;
      var childF := if existing then ns.subnames[path[0]] else EmptyNamespace(false);
      var childT := if existing then ns.subnames[path[0]] else EmptyNamespace(true);
      MakePathRaises(childF, path[1..]);
      MakePathRaises(childT, path[1..]);
      assert ns == FindNamespace(ns, path[..0]).value;
      forall i | 0 < i <= |path|
        ensures FindNamespace(ns, path[..i]) == if existing then FindNamespace(childT, path[1..][..i - 1]) else Failure(HostException("no namespace " + path[0]))
      {
        assert path[..i][1..] == path[1..][..i - 1];
      }
      if !existing {
        forall j | 0 <= j < |path| - 1
          ensures !PrivateAt(childT, path[1..], j)
        {
          if j > 0 {
            assert path[1..][..j][0] !in childT.subnames;
          }
        }
      }
      if ns.public && existing {
        if MakePath(childT, path[1..], true).Failure? {
          var j :| 0 <= j < |path| - 1 && PrivateAt(childT, path[1..], j);
          assert PrivateAt(ns, path, j + 1);
          assert MakePath(ns, path, true).Failure?;
        } else {
          forall i | 0 <= i < |path|
            ensures !PrivateAt(ns, path, i)
          {
            if i > 0 {
              assert !PrivateAt(childT, path[1..], i - 1);
            }
          }
          assert MakePath(ns, path, true).Success?;
        }
      } else if !ns.public {
        assert PrivateAt(ns, path, 0);
      } else {
        forall i | 0 <= i < |path|
          ensures !PrivateAt(ns, path, i)
        {
        }
        assert MakePath(childT, path[1..], true).Success?;
      }
    }
  }

  /* ------------------------------------------------------------ makeType */

  /**
   * makeType succeeds exactly when the namespace at the path exists. It then registers the
   * parent type and its cases, with fresh tags, in that namespace: each case that no later
   * case shares its name with is its own type and is bound to its singleton or
   * constructor. The namespace's other bindings and types, its visibility and its
   * sub-namespaces stay; so do the namespaces above it, except for the link on the path,
   * and every namespace off the path; the stacks and scopes do not change.
   */
  lemma MakeTypeRegisters(m: Machine, name: string, path: seq<string>, cases: seq<TypeCaseDecl>)
    ensures MakeType(m, name, path, cases).Success? <==> FindNamespace(m.root, path).Success?
    ensures MakeType(m, name, path, cases).Success? ==>
      var m1 := MakeType(m, name, path, cases).value;
      var before := FindNamespace(m.root, path).value;
      var owner := FindNamespace(m1.root, path).value;
      var tcs := MakeCases(cases, m.nextTag);
      && m1.nextTag == m.nextTag + |cases|
      && m1.stack == m.stack && m1.frames == m.frames && m1.scopes == m.scopes
      && name in owner.types
      && (NoCaseNamed(tcs, 0, |tcs|, name) ==> owner.types[name] == ParentType(name, tcs))
      && (forall j :: 0 <= j < |tcs| && NoCaseNamed(tcs, j + 1, |tcs|, tcs[j].name) ==>
            owner.types[tcs[j].name] == CaseType(tcs[j]) && owner.bindings[tcs[j].name] == CaseBinding(tcs[j]))
      && (forall k :: k in before.types && k != name && NoCaseNamed(tcs, 0, |tcs|, k) ==> owner.types[k] == before.types[k])
      && (forall k :: k in before.bindings && NoCaseNamed(tcs, 0, |tcs|, k) ==> k in owner.bindings && owner.bindings[k] == before.bindings[k])
      && owner.subnames == before.subnames && owner.public == before.public
      && (forall q :: OffPath(q, path) ==> FindNamespace(m1.root, q) == FindNamespace(m.root, q))
      && (forall i :: 0 <= i < |path| ==>
            && FindNamespace(m.root, path[..i]).Success? && FindNamespace(m1.root, path[..i]).Success?
            && SameEntries(FindNamespace(m.root, path[..i]).value, FindNamespace(m1.root, path[..i]).value))
  {
    if FindNamespace(m.root, path).Success? {
      var before := FindNamespace(m.root, path).value;
      var parent := ParentType(name, MakeCases(cases, m.nextTag));
      AddTypeEntries(before, parent);
      forall q | OffPath(q, path)
        ensures FindNamespace(MakeType(m, name, path, cases).value.root, q) == FindNamespace(m.root, q)
      {
        UpdateAtOffPath(m.root, path, AddType(before, parent), q);
      }
      forall i | 0 <= i < |path|
        ensures && FindNamespace(m.root, path[..i]).Success?
                && FindNamespace(MakeType(m, name, path, cases).value.root, path[..i]).Success?
                && SameEntries(FindNamespace(m.root, path[..i]).value, FindNamespace(MakeType(m, name, path, cases).value.root, path[..i]).value)
      {
        UpdateAtAncestors(m.root, path, AddType(before, parent), i);
      }
    }
  }

  /**
   * `SaveNamespace` needs the namespace at the path, then pops the top value and binds it
   * under the name there; the namespace's other bindings, its types, visibility and
   * sub-namespaces stay, and so does every namespace off the path.
   */
  lemma SaveNamespaceWrites(m: Machine, name: string, path: seq<string>)
    ensures Semantics.SaveNamespace(m, name, path).Success? <==> FindNamespace(m.root, path).Success? && m.stack != []
    ensures Semantics.SaveNamespace(m, name, path).Success? ==>
      var m1 := Semantics.SaveNamespace(m, name, path).value;
      var before := FindNamespace(m.root, path).value;
      var owner := FindNamespace(m1.root, path).value;
      && m1.stack == m.stack[..|m.stack| - 1] && m1.frames == m.frames && m1.scopes == m.scopes
      && owner == before.(bindings := before.bindings[name := m.stack[|m.stack| - 1]])
      && (forall q :: OffPath(q, path) ==> FindNamespace(m1.root, q) == FindNamespace(m.root, q))
  {
    if FindNamespace(m.root, path).Success? && m.stack != [] {
      var before := FindNamespace(m.root, path).value;
      var sub := before.(bindings := before.bindings[name := m.stack[|m.stack| - 1]]);
      forall q | OffPath(q, path)
        ensures FindNamespace(Semantics.SaveNamespace(m, name, path).value.root, q) == FindNamespace(m.root, q)
      {
        UpdateAtOffPath(m.root, path, sub, q);
      }
    }
  }
}
