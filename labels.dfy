/**
 * Jump labels (code/Label.kt) and the resolution of generated code: once every label an
 * instruction list names is attached, each jump is replaced by the index it is attached
 * to, which is the form the interpreter runs.
 */
module Labels {
  import opened Wrappers
  import opened Instructions

  /** A jump target, attached at most once to an instruction index. */
  class Label {
    const display: string
    var target: Option<nat>

    constructor(display: string)
      ensures this.display == display
      ensures target == None
    {
      this.display := display;
      target := None;
    }

    /** Reading the target of a label that was never attached raises. */
    method Target() returns (r: Result<nat, CodeGenError>)
      ensures target.Some? ==> r == Success(target.value)
      ensures target.None? ==> r == Failure(HostError("Unattached label"))
    {
      if target.Some? {
        r := Success(target.value);
      } else {
        r := Failure(HostError("Unattached label"));
      }
    }

    /** The first attach sets the target; a second one raises and keeps the first target. */
    method Attach(t: nat) returns (r: Outcome<CodeGenError>)
      modifies this
      ensures old(target).None? ==> r.Pass? && target == Some(t)
      ensures old(target).Some? ==> r == Raised(AlreadyAttached(display)) && target == old(target)
    {
      if target.Some? {
        r := Raised(AlreadyAttached(display));
      } else {
        target := Some(t);
        r := Pass;
      }
    }
  }

  function AlreadyAttached(display: string): CodeGenError {
    CodeGenException("label " + display + " already attached", None)
  }

  /**
   * The labels an instruction list names. A nested function body is stored already
   * resolved (`LoadFunction` holds `Instr<nat>`), so only jumps name labels.
   */
  function LabelsIn(s: seq<Instr<Label>>): set<Label>
    decreases s
  {
    if s == [] then {} else LabelsIn(s[..|s| - 1]) + LabelsOfOp(s[|s| - 1].op)
  }

  function LabelsOfOp(op: Op<Label>): set<Label> {
    match op
    case Jump(l) => {l}
    case JumpIfMatch(_, l) => {l}
    case _ => {}
  }

  ghost predicate AllAttached(s: seq<Instr<Label>>)
    reads LabelsIn(s)
  {
    forall l :: l in LabelsIn(s) ==> l.target.Some?
  }

  /** The code with every label replaced by its target. */
  function ResolveCode(s: seq<Instr<Label>>): (r: seq<Instr<nat>>)
    requires forall l :: l in LabelsIn(s) ==> l.target.Some?
    reads LabelsIn(s)
    decreases s
    ensures |r| == |s|
  {
    if s == [] then [] else ResolveCode(s[..|s| - 1]) + [ResolveInstr(s[|s| - 1])]
  }

  function ResolveInstr(i: Instr<Label>): (r: Instr<nat>)
    requires forall l :: l in LabelsOfOp(i.op) ==> l.target.Some?
    reads LabelsOfOp(i.op)
  {
    Instr(i.line, ResolveOp(i.op))
  }

  function ResolveOp(op: Op<Label>): Op<nat>
    requires forall l :: l in LabelsOfOp(op) ==> l.target.Some?
    reads LabelsOfOp(op)
  {
    match op
    case NoOp => NoOp
    case Fail(msg) => Fail(msg)
    case Pop => Pop
    case Duplicate => Duplicate
    case Decompose(t, n) => Decompose(t, n)
    case Jump(l) => Jump(l.target.value)
    case Match(p) => Match(p)
    case JumpIfMatch(p, l) => JumpIfMatch(p, l.target.value)
    case LoadLocal(d) => LoadLocal(d)
    case LoadName(n) => LoadName(n)
    case LoadNumber(x) => LoadNumber(x)
    case LoadString(s) => LoadString(s)
    case LoadFunction(body, n) => LoadFunction(body, n)
    case SaveLocal(d) => SaveLocal(d)
    case SaveNamespace(n, ns) => SaveNamespace(n, ns)
    case Call(n) => Call(n)
    case TailCall(n) => TailCall(n)
    case MkNamespace(p, l, pub) => MkNamespace(p, l, pub)
    case MkType(n, ns, cs) => MkType(n, ns, cs)
    case ImportAll(f) => ImportAll(f)
    case ImportNames(f, ns) => ImportNames(f, ns)
  }

  /** The instruction with every label replaced by its index in `env`. */
  function ResolveInstrWith(i: Instr<Label>, env: map<Label, nat>): Instr<nat>
    requires LabelsOfOp(i.op) <= env.Keys
  {
    Instr(i.line, ResolveOpWith(i.op, env))
  }

  function ResolveOpWith(op: Op<Label>, env: map<Label, nat>): Op<nat>
    requires LabelsOfOp(op) <= env.Keys
  {
    match op
    case NoOp => NoOp
    case Fail(msg) => Fail(msg)
    case Pop => Pop
    case Duplicate => Duplicate
    case Decompose(t, n) => Decompose(t, n)
    case Jump(l) => Jump(env[l])
    case Match(p) => Match(p)
    case JumpIfMatch(p, l) => JumpIfMatch(p, env[l])
    case LoadLocal(d) => LoadLocal(d)
    case LoadName(n) => LoadName(n)
    case LoadNumber(x) => LoadNumber(x)
    case LoadString(s) => LoadString(s)
    case LoadFunction(body, n) => LoadFunction(body, n)
    case SaveLocal(d) => SaveLocal(d)
    case SaveNamespace(n, ns) => SaveNamespace(n, ns)
    case Call(n) => Call(n)
    case TailCall(n) => TailCall(n)
    case MkNamespace(p, l, pub) => MkNamespace(p, l, pub)
    case MkType(n, ns, cs) => MkType(n, ns, cs)
    case ImportAll(f) => ImportAll(f)
    case ImportNames(f, ns) => ImportNames(f, ns)
  }

  /** `out` is `s` resolved instruction by instruction through `env`. */
  ghost predicate ResolvesTo(s: seq<Instr<Label>>, out: seq<Instr<nat>>, env: map<Label, nat>) {
    && |out| == |s|
    && forall i {:trigger s[i]} :: 0 <= i < |s| ==> LabelsOfOp(s[i].op) <= env.Keys && out[i] == ResolveInstrWith(s[i], env)
  }

  /** Every label of `env` is attached where `env` says. */
  ghost predicate Attached(env: map<Label, nat>)
    reads env.Keys
  {
    forall l :: l in env ==> l.target == Some(env[l])
  }

  /** Every label of `a` is in `b` with the same index. */
  ghost predicate SubMap(a: map<Label, nat>, b: map<Label, nat>) {
    forall l :: l in a ==> l in b && b[l] == a[l]
  }

  /**
   * Once every label `env` names is attached where `env` says, resolving through the
   * labels themselves gives the same code.
   */
  lemma {:induction false} ResolvesAttached(s: seq<Instr<Label>>, out: seq<Instr<nat>>, env: map<Label, nat>)
    requires ResolvesTo(s, out, env) && Attached(env)
    decreases s
    ensures AllAttached(s)
    ensures ResolveCode(s) == out
  {
    if s != [] {
      var n := |s| - 1;
      assert ResolvesTo(s[..n], out[..n], env);
      ResolvesAttached(s[..n], out[..n], env);
      assert out == out[..n] + [out[n]];
    }
  }
}
