/**
 * The instruction set the compiler (code/CodeGen.kt) emits and the interpreter
 * (run/Interpreter.kt) executes, each instruction tagged with the source line that was
 * current when it was added. The type parameter `L` is what a jump names: a `Label`
 * object while code is being generated, a resolved instruction index when it runs.
 */
module Instructions {
  import opened Wrappers
  import opened Ast
  import opened Resolver

  /** code/MatchPattern.kt: the refutable patterns of `Match` and `JumpIfMatch`. */
  datatype MatchPattern =
    | NumberMatch(num: int)
    | StringMatch(text: string)
    | EmptyListMatch
    | UnitMatch
    | AlwaysMatch
    | TypeMatch(typename: seq<string>, inners: seq<MatchPattern>)

  datatype Op<L> =
    | NoOp
    | Fail(msg: string)
    | Pop
    | Duplicate
    | Decompose(typeName: seq<string>, numParts: nat)
    | Jump(dest: L)
    | Match(pattern: MatchPattern)
    | JumpIfMatch(pattern: MatchPattern, target: L)
    | LoadLocal(decl: Declaration)
    | LoadName(name: seq<string>)
    | LoadNumber(num: int)
    | LoadString(text: string)
    /** a function's own code: every label in it is attached before it is loaded, so it is held resolved */
    | LoadFunction(body: seq<Instr<nat>>, paramCount: nat)
    | SaveLocal(decl: Declaration)
    | SaveNamespace(bindingName: string, namespace: seq<string>)
    | Call(nargs: nat)
    | TailCall(nargs: nat)
    | MkNamespace(path: seq<string>, localName: string, public: bool)
    | MkType(newTypeName: string, inNamespace: seq<string>, cases: seq<TypeCaseDecl>)
    | ImportAll(filename: string)
    | ImportNames(filename: string, names: seq<seq<string>>)

  datatype Instr<L> = Instr(line: int, op: Op<L>)

  /** The exception a code generation step can end with. */
  datatype CodeGenError =
    | CodeGenException(msg: string, line: Option<int>)
      /** an exception of the host language (index out of range, unsupported node) */
    | HostError(msg: string)

  /* The names the compiler uses for the built-in list and unit values. */
  const EmptyListName: seq<string> := ["Empty"]
  const ListConsName: seq<string> := ["::"]
  const UnitName: seq<string> := ["Unit"]

  /**
   * How many values a straight-line instruction leaves on the operand stack beyond those
   * it takes, when it completes without raising: `Decompose(t, n)` replaces one value by
   * `n`. Calls, jumps and `Fail` have no fixed effect.
   */
  function StackDelta<L>(op: Op<L>): Option<int> {
    match op
    case Pop => Some(-1)
    case Duplicate => Some(1)
    case Decompose(_, n) => Some(n - 1)
    case Match(_) => Some(-1)
    case LoadLocal(_) => Some(1)
    case LoadName(_) => Some(1)
    case LoadNumber(_) => Some(1)
    case LoadString(_) => Some(1)
    case LoadFunction(_, _) => Some(1)
    case SaveLocal(_) => Some(-1)
    case SaveNamespace(_, _) => Some(-1)
    case NoOp => Some(0)
    case MkNamespace(_, _, _) => Some(0)
    case MkType(_, _, _) => Some(0)
    case ImportAll(_) => Some(0)
    case ImportNames(_, _) => Some(0)
    case _ => None
  }

  /** The stack effect of running a straight-line sequence of instructions. */
  function Net<L>(code: seq<Instr<L>>): Option<int> {
    if code == [] then Some(0)
    else
      var front := Net(code[..|code| - 1]);
      var last := StackDelta(code[|code| - 1].op);
      if front.Some? && last.Some? then Some(front.value + last.value) else None
  }

  lemma {:induction false} NetAppend<L>(a: seq<Instr<L>>, b: seq<Instr<L>>)
    requires Net(a).Some? && Net(b).Some?
    ensures Net(a + b) == Some(Net(a).value + Net(b).value)
  {
    if b == [] {
      assert a + b == a;
    } else {
      assert (a + b)[..|a + b| - 1] == a + b[..|b| - 1];
      NetAppend(a, b[..|b| - 1]);
    }
  }
}
