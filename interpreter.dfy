/**
 * The stack-machine interpreter (run/Interpreter.kt): an operand stack and a call stack,
 * the scope arena and the root namespace, and the `run` loop over a function's
 * instructions. Each method is proved to leave the state the reference semantics
 * (module Semantics) gives, or to raise the exception it gives.
 */
module Interpreters {
  import opened Wrappers
  import opened Ast
  import opened Resolver
  import opened Instructions
  import opened RuntimeValues
  import opened Stacks
  import opened Semantics
  import opened Seqs
  import opened SemanticsFacts
  import Builtin

  class Interpreter {
    const execStack: Stack<Value>
    const callStack: Stack<Frame>
    var rootNamespace: Namespace
    var scopes: seq<ScopeNode>
    var nextTag: nat

    ghost predicate Valid()
      reads this
    {
      execStack as object != callStack as object
    }

    /** The interpreter's state as the reference semantics sees it. */
    function State(): Machine
      reads this, execStack, callStack
    {
      Machine(execStack.store, callStack.store, scopes, rootNamespace, nextTag)
    }

    /** The method ended as the reference says: in its state, or with its exception. */
    ghost predicate Ends(r: Outcome<RunError>, spec: Result<Machine, RunError>)
      reads this, execStack, callStack
    {
      && (spec.Success? ==> r.Pass? && State() == spec.value)
      && (spec.Failure? ==> r == Raised(spec.error))
    }

    /** The same for one instruction, which also gives the index of the next one. */
    ghost predicate EndsAt(r: Outcome<RunError>, ip: nat, spec: Result<(Machine, nat), RunError>)
      reads this, execStack, callStack
    {
      && (spec.Success? ==> r.Pass? && State() == spec.value.0 && ip == spec.value.1)
      && (spec.Failure? ==> r == Raised(spec.error))
    }

    /** A new interpreter whose root namespace holds the built-in types; the prelude is not loaded. */
    constructor()
      ensures Valid() && State() == Initial()
    {
      execStack := new Stack<Value>();
      callStack := new Stack<Frame>();
      rootNamespace := Builtin.MakeRootNamespace();
      scopes := [];
      nextTag := Builtin.FirstFreeTag;
    }

    /** exec: run the code as a function of no arguments over a new root scope. */
    method Exec(code: seq<Instr<nat>>, fuel: nat) returns (r: Outcome<RunError>)
      requires Valid()
      modifies this, execStack, callStack
      ensures Valid() && Ends(r, ExecMain(old(State()), code, fuel))
    {
      scopes := scopes + [ScopeNode(None, map[])];
      r := Invoke(CompiledFunction(Closure(code, |scopes| - 1, 0)), fuel);
    }

    /**
     * run: execute from instruction 0 until the index is past the end; at most `fuel`
     * instructions are executed.
     */
    method Run(code: seq<Instr<nat>>, fuel: nat) returns (r: Outcome<RunError>)
      requires Valid()
      modifies this, execStack, callStack
      decreases fuel, 3, 0
      ensures Valid() && Ends(r, Semantics.Exec(old(State()), code, 0, fuel, fuel))
    {
      var ip: nat := 0;
      var steps: nat := fuel;
      r := Pass;
      while ip < |code| && r.Pass?
        invariant Valid()
        invariant r.Pass? ==> Semantics.Exec(State(), code, ip, steps, fuel) == Semantics.Exec(old(State()), code, 0, fuel, fuel)
        invariant r.Raised? ==> Semantics.Exec(old(State()), code, 0, fuel, fuel) == Failure(r.error)
        decreases steps, if r.Pass? then 1 else 0
      {
        var frame := callStack.Peek();
        if frame.Failure? {
          r := Raised(frame.error);
        } else if steps == 0 {
          r := Raised(OutOfFuel);
        } else {
          RunEndsPastCode(State(), code, ip, steps, fuel);
          r, ip := Step(code[ip].op, ip + 1, fuel);
          steps := steps - 1;
        }
      }
    }

    /** One instruction; `next` is the index after it. */
    method Step(op: Op<nat>, next: nat, fuel: nat) returns (r: Outcome<RunError>, ip: nat)
      requires Valid()
      modifies this, execStack, callStack
      decreases fuel, 2, 0
      ensures Valid() && EndsAt(r, ip, Semantics.Step(old(State()), op, next, fuel))
    {
      if op.Call? {
        r := Call(op.nargs, fuel);
        ip := next;
      } else {
        r, ip := Simple(op, next);
      }
    }

    method Simple(op: Op<nat>, next: nat) returns (r: Outcome<RunError>, ip: nat)
      requires Valid() && !op.Call?
      modifies this, execStack, callStack
      ensures Valid() && EndsAt(r, ip, Semantics.Simple(old(State()), op, next))
    {
      if op.NoOp? || op.Fail? || op.Pop? || op.Duplicate? || op.Jump? || op.LoadNumber? || op.LoadString? || op.LoadFunction? {
        r, ip := StackStep(op, next);
      } else if op.Match? || op.JumpIfMatch? {
        r, ip := MatchStep(op, next);
      } else if op.LoadLocal? || op.LoadName? || op.SaveLocal? || op.Decompose? || op.TailCall? {
        r, ip := ScopeStep(op, next);
      } else {
        r, ip := NamespaceStep(op, next);
      }
    }

    /** The instructions that only move values between the stacks and the code. */
    method StackStep(op: Op<nat>, next: nat) returns (r: Outcome<RunError>, ip: nat)
      requires Valid()
      requires op.NoOp? || op.Fail? || op.Pop? || op.Duplicate? || op.Jump? || op.LoadNumber? || op.LoadString? || op.LoadFunction?
      modifies this, execStack, callStack
      ensures Valid() && EndsAt(r, ip, Semantics.Simple(old(State()), op, next))
    {
      ip := next;
      r := Pass;
      if op.Fail? {
        r := Raised(InterpreterException("Fail: " + op.msg));
      } else if op.Pop? {
        var v := execStack.Pop();
        if v.Failure? {
          r := Raised(v.error);
        }
      } else if op.Duplicate? {
        var v := execStack.Peek();
        if v.Failure? {
          r := Raised(v.error);
        } else {
          execStack.Push(v.value);
        }
      } else if op.Jump? {
        ip := op.dest;
      } else if op.LoadNumber? {
        execStack.Push(NumberObject(op.num));
      } else if op.LoadString? {
        execStack.Push(StringObject(op.text));
      } else if op.LoadFunction? {
        var f := callStack.Peek();
        if f.Failure? {
          r := Raised(f.error);
        } else {
          execStack.Push(FunctionObject(CompiledFunction(Closure(op.body, f.value.scope, op.paramCount))));
        }
      }
    }

    /** match and jumpIfMatch, which pop the value they test. */
    method MatchStep(op: Op<nat>, next: nat) returns (r: Outcome<RunError>, ip: nat)
      requires Valid() && (op.Match? || op.JumpIfMatch?)
      modifies this, execStack, callStack
      ensures Valid() && EndsAt(r, ip, Semantics.Simple(old(State()), op, next))
    {
      ip := next;
      r := Pass;
      var b := MatchTop(op.pattern);
      if b.Failure? {
        r := Raised(b.error);
      } else if op.Match? && !b.value {
        r := Raised(InterpreterException("Failed match"));
      } else if op.JumpIfMatch? && b.value {
        ip := op.target;
      }
    }

    /** The instructions that read or change the scopes and frames. */
    method ScopeStep(op: Op<nat>, next: nat) returns (r: Outcome<RunError>, ip: nat)
      requires Valid() && (op.LoadLocal? || op.LoadName? || op.SaveLocal? || op.Decompose? || op.TailCall?)
      modifies this, execStack, callStack
      ensures Valid() && EndsAt(r, ip, Semantics.Simple(old(State()), op, next))
    {
      ip := next;
      if op.LoadLocal? {
        var v := FindDeclaration(op.decl);
        r := PushResult(v);
      } else if op.LoadName? {
        r := PushResult(FindName(rootNamespace, op.name));
      } else if op.SaveLocal? {
        r := SaveLocal(op.decl);
      } else if op.Decompose? {
        r := Decompose(op.typeName, op.numParts);
      } else {
        r := TailCall(op.nargs);
        ip := 0;
      }
    }

    /** The instructions that change the namespaces, and imports. */
    method NamespaceStep(op: Op<nat>, next: nat) returns (r: Outcome<RunError>, ip: nat)
      requires Valid() && (op.SaveNamespace? || op.MkNamespace? || op.MkType? || op.ImportAll? || op.ImportNames?)
      modifies this, execStack, callStack
      ensures Valid() && EndsAt(r, ip, Semantics.Simple(old(State()), op, next))
    {
      ip := next;
      if op.SaveNamespace? {
        r := SaveNamespace(op.bindingName, op.namespace);
      } else if op.MkNamespace? {
        r := MakeNamespace(op.path, op.public);
      } else if op.MkType? {
        r := MakeType(op.newTypeName, op.inNamespace, op.cases);
      } else {
        r := Raised(Unmodelled("import of another file"));
      }
    }

    /** Pushes a found value, or raises the lookup's exception. */
    method PushResult(v: Result<Value, RunError>) returns (r: Outcome<RunError>)
      modifies execStack
      ensures v.Success? ==> r.Pass? && execStack.store == old(execStack.store) + [v.value]
      ensures v.Failure? ==> r == Raised(v.error) && execStack.store == old(execStack.store)
    {
      if v.Failure? {
        r := Raised(v.error);
      } else {
        execStack.Push(v.value);
        r := Pass;
      }
    }

    /* ------------------------------------------------------------ stack helpers */

    /** Pushes the values in order, so the last ends on top. */
    method PushAll(vs: seq<Value>)
      modifies execStack
      ensures execStack.store == old(execStack.store) + vs
    {
      var i := 0;
      while i < |vs|
        invariant 0 <= i <= |vs|
        invariant execStack.store == old(execStack.store) + vs[..i]
      {
        execStack.Push(vs[i]);
        assert vs[..i + 1] == vs[..i] + [vs[i]];
        i := i + 1;
      }
    }

    /** `List(n) { execStack.pop() }`: n values, the first popped first. */
    method PopArgs(n: nat) returns (r: Result<seq<Value>, RunError>)
      modifies execStack
      ensures n <= |old(execStack.store)| ==>
        && r == Success(Reverse(old(execStack.store)[|old(execStack.store)| - n..]))
        && execStack.store == old(execStack.store)[..|old(execStack.store)| - n]
      ensures n > |old(execStack.store)| ==> r == Failure(EmptyStack)
    {
      ghost var s0 := execStack.store;
      var args: seq<Value> := [];
      while |args| < n
        invariant |args| <= n && Popped(s0, execStack.store, args)
        decreases n - |args|
      {
        ghost var before := execStack.store;
        var v := execStack.Pop();
        if v.Failure? {
          return Failure(v.error);
        }
        PoppedStep(s0, before, args);
        args := args + [v.value];
      }
      r := Success(args);
    }

    /* ------------------------------------------------------------ lookups */

    /** findDeclaration: the scope chain walked from the running frame's scope outward. */
    method FindDeclaration(d: Declaration) returns (r: Result<Value, RunError>)
      ensures r == LocalValue(State(), d)
    {
      var f := callStack.Peek();
      if f.Failure? {
        return Failure(f.error);
      }
      var s: nat := f.value.scope;
      while s < |scopes| && d !in scopes[s].slots && scopes[s].parent.Some? && scopes[s].parent.value < s
        invariant FindIn(scopes, s, d) == FindIn(scopes, f.value.scope, d)
        decreases s
      {
        s := scopes[s].parent.value;
      }
      if s < |scopes| && d in scopes[s].slots {
        r := Success(scopes[s].slots[d]);
      } else {
        r := Failure(BeforeAssignment(d));
      }
    }

    /** match(pattern): pops the value and matches it. */
    method MatchTop(p: MatchPattern) returns (r: Result<bool, RunError>)
      requires Valid()
      modifies execStack
      ensures Valid()
      ensures PopMatch(old(State()), p).Success? ==>
        r == Success(PopMatch(old(State()), p).value.0) && State() == PopMatch(old(State()), p).value.1
      ensures PopMatch(old(State()), p).Failure? ==> r == Failure(PopMatch(old(State()), p).error)
    {
      var v := execStack.Pop();
      if v.Failure? {
        return Failure(v.error);
      }
      r := Matches(rootNamespace, p, v.value);
    }

    /* ------------------------------------------------------------ decompose */

    method Decompose(typeName: seq<string>, numParts: nat) returns (r: Outcome<RunError>)
      requires Valid()
      modifies execStack
      ensures Valid() && Ends(r, Semantics.Decompose(old(State()), typeName, numParts))
    {
      var t := FindType(rootNamespace, typeName);
      if t.Failure? {
        return Raised(t.error);
      }
      var ty := t.value;
      if ty.CaseType? {
        if numParts != ty.tc.fieldCount {
          return Raised(DecomposeError(ty, numParts));
        }
        var obj := execStack.Pop();
        if obj.Failure? {
          return Raised(obj.error);
        }
        if obj.value.TypeOf() != ty {
          return Raised(ExpectedError(ty, obj.value));
        }
        if obj.value.CaseObject? {
          PushAll(Reverse(obj.value.data));
        }
        r := Pass;
      } else {
        if numParts != 1 {
          return Raised(DecomposeError(ty, numParts));
        }
        var obj := execStack.Peek();
        if obj.Failure? {
          return Raised(obj.error);
        }
        if (ty.ParentType? && !InCases(obj.value, ty.cases)) || (!ty.ParentType? && obj.value.TypeOf() != ty) {
          return Raised(ExpectedError(ty, obj.value));
        }
        r := Pass;
      }
    }

    /* ------------------------------------------------------------ scopes */

    /** SaveLocal: the popped value saved for the declaration in the running frame's scope. */
    method SaveLocal(d: Declaration) returns (r: Outcome<RunError>)
      requires Valid()
      modifies this, execStack
      ensures Valid() && Ends(r, SaveLocalValue(old(State()), d))
    {
      var f := callStack.Peek();
      if f.Failure? {
        return Raised(f.error);
      }
      var v := execStack.Pop();
      if v.Failure? {
        return Raised(v.error);
      }
      var s := f.value.scope;
      if s < |scopes| {
        scopes := scopes[s := scopes[s].(slots := scopes[s].slots[d := v.value])];
      }
      r := Pass;
    }

    /* ------------------------------------------------------------ namespaces and types */

    /** SaveNamespace: the popped value bound in the namespace at the path. */
    method SaveNamespace(name: string, path: seq<string>) returns (r: Outcome<RunError>)
      requires Valid()
      modifies this, execStack
      ensures Valid() && Ends(r, Semantics.SaveNamespace(old(State()), name, path))
    {
      var ns := FindNamespace(rootNamespace, path);
      if ns.Failure? {
        return Raised(ns.error);
      }
      var v := execStack.Pop();
      if v.Failure? {
        return Raised(v.error);
      }
      var root := UpdateAt(rootNamespace, path, ns.value.(bindings := ns.value.bindings[name := v.value]));
      rootNamespace := root.value;
      r := Pass;
    }

    /**
     * makeNamespace: walk the path from the root, creating each missing segment with the
     * requested visibility, then store the walked namespaces back from the innermost out.
     */
    method MakeNamespace(path: seq<string>, public: bool) returns (r: Outcome<RunError>)
      requires Valid()
      modifies this
      ensures Valid() && Ends(r, Semantics.MakeNamespace(old(State()), path, public))
    {
      var ns := rootNamespace;
      var passed: seq<Namespace> := [];
      r := Pass;
      while |passed| < |path| && r.Pass?
        invariant Walked(rootNamespace, path, public, passed, ns)
        invariant r.Raised? ==> MakePath(rootNamespace, path, public) == Failure(r.error)
        modifies {}
        decreases |path| - |passed|, if r.Pass? then 1 else 0
      {
        if public && !ns.public {
          MakePathWalked(rootNamespace, path, public, passed, ns);
          r := Raised(PrivateParent);
        } else {
          var child := ChildFor(ns, path[|passed|], public);
          assert (passed + [ns])[..|passed|] == passed;
          passed := passed + [ns];
          ns := child;
        }
      }
      if r.Pass? {
        MakePathWalked(rootNamespace, path, public, passed, ns);
        assert path[|passed|..] == [];
        ghost var deepest := ns;
        var j := |passed|;
        assert passed[..j] == passed;
        while j > 0
          invariant j <= |passed| <= |path|
          invariant Rebuild(passed[..j], path, ns) == Rebuild(passed, path, deepest)
          modifies {}
        {
          assert passed[..j][..j - 1] == passed[..j - 1];
          ns := passed[j - 1].(subnames := passed[j - 1].subnames[path[j - 1] := ns]);
          j := j - 1;
        }
        assert passed[..0] == [];
        assert MakePath(rootNamespace, path, public) == Success(ns);
        rootNamespace := ns;
      }
    }

    /** makeType: a parent type with a new case per declared case, added to the namespace at the path. */
    method MakeType(name: string, path: seq<string>, cases: seq<TypeCaseDecl>) returns (r: Outcome<RunError>)
      requires Valid()
      modifies this
      ensures Valid() && Ends(r, Semantics.MakeType(old(State()), name, path, cases))
    {
      var ns := FindNamespace(rootNamespace, path);
      if ns.Failure? {
        return Raised(ns.error);
      }
      var parent := ParentType(name, MakeCases(cases, nextTag));
      var root := UpdateAt(rootNamespace, path, AddType(ns.value, parent));
      rootNamespace := root.value;
      nextTag := nextTag + |cases|;
      r := Pass;
    }

    /* ------------------------------------------------------------ calls */

    /** tailCall: the running frame gets a new scope and the code restarts; no frame is pushed. */
    method TailCall(nargs: nat) returns (r: Outcome<RunError>)
      requires Valid()
      modifies this, callStack
      ensures Valid() && Ends(r, Semantics.TailCall(old(State()), nargs))
    {
      var f := callStack.Peek();
      if f.Failure? {
        return Raised(f.error);
      }
      var fn := f.value.fn;
      if fn.numArgs != nargs {
        return Raised(InterpreterException("Cannot create partial tail-call"));
      }
      scopes := scopes + [ScopeNode(Some(fn.scope), map[])];
      ghost var frames := callStack.store;
      var _ := callStack.Pop();
      callStack.Push(Frame(fn, |scopes| - 1));
      assert callStack.store == frames[|frames| - 1 := Frame(fn, |scopes| - 1)];
      r := Pass;
    }

    /** call: the callee popped, then invoked, partially applied, or refused. */
    method Call(nargs: nat, fuel: nat) returns (r: Outcome<RunError>)
      requires Valid()
      modifies this, execStack, callStack
      decreases fuel, 1, 0
      ensures Valid() && Ends(r, Semantics.Call(old(State()), nargs, fuel))
    {
      var callee := execStack.Pop();
      if callee.Failure? {
        return Raised(callee.error);
      }
      if !callee.value.FunctionObject? {
        return Raised(InterpreterException("not a function"));
      }
      var fn := callee.value.fn;
      if nargs == fn.NumArgs() {
        r := Invoke(fn, fuel);
      } else if nargs < fn.NumArgs() {
        var args := PopArgs(nargs);
        if args.Failure? {
          return Raised(args.error);
        }
        execStack.Push(FunctionObject(PartialFunction(fn, args.value)));
        r := Pass;
      } else {
        r := Raised(InterpreterException("Too many arguments given for function"));
      }
    }

    /** The function invoked with its arguments on the stack. */
    method Invoke(fn: Function, fuel: nat) returns (r: Outcome<RunError>)
      requires Valid()
      modifies this, execStack, callStack
      decreases fuel, 0, Depth(fn)
      ensures Valid() && Ends(r, Semantics.Invoke(old(State()), fn, fuel))
    {
      match fn
      case CompiledFunction(c) =>
        if fuel == 0 {
          return Raised(OutOfFuel);
        }
        scopes := scopes + [ScopeNode(Some(c.scope), map[])];
        callStack.Push(Frame(c, |scopes| - 1));
        r := Run(c.code, fuel - 1);
        if r.Pass? {
          var f := callStack.Pop();
          if f.Failure? {
            r := Raised(f.error);
          }
        }
      case PartialFunction(inner, args) =>
        PushAll(Reverse(args));
        r := Invoke(inner, fuel);
      case ConstructorFunction(tc) =>
        var fields := PopArgs(tc.fieldCount);
        if fields.Failure? {
          return Raised(fields.error);
        }
        execStack.Push(CaseObject(tc, fields.value));
        r := Pass;
    }
  }

  /** `args` are the values popped so far from `s0`, first popped first, and `store` is what is left. */
  ghost predicate Popped(s0: seq<Value>, store: seq<Value>, args: seq<Value>) {
    |args| <= |s0| && store == s0[..|s0| - |args|] && args == Reverse(s0[|s0| - |args|..])
  }

  /** Popping the top of what is left adds it to the popped arguments. */
  lemma PoppedStep(s0: seq<Value>, store: seq<Value>, args: seq<Value>)
    requires Popped(s0, store, args) && store != []
    ensures Popped(s0, store[..|store| - 1], args + [store[|store| - 1]])
  {
    ReverseSuffix(s0, |s0| - |args| - 1);
  }
}
