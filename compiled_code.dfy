/**
 * The append-only instruction buffer code generation writes into (code/CompiledCode.kt).
 * Each added instruction is tagged with `currentLine`, which code generation sets to the
 * line of the expression it is compiling.
 *
 * Beside the code the buffer keeps, as ghost state, what the code resolves to (`out`),
 * the index every label it names is or will be attached to (`env`), and which of those
 * labels are not attached yet (`pending`). A jump can be added before its label is
 * attached because the generator decides where each label goes before it emits the
 * jumps to it.
 */
module Compiled {
  import opened Wrappers
  import opened Instructions
  import opened Labels

  class CompiledCode {
    var code: seq<Instr<Label>>
    var currentLine: int
    ghost var out: seq<Instr<nat>>
    ghost var env: map<Label, nat>
    ghost var pending: set<Label>

    ghost predicate Valid()
      reads this, env.Keys
    {
      && ResolvesTo(code, out, env)
      && pending <= env.Keys
      && (forall l {:trigger l.target} :: l in env ==> if l in pending then l.target.None? else l.target == Some(env[l]))
    }

    constructor()
      ensures code == [] && currentLine == 0
      ensures out == [] && env == map[] && pending == {} && Valid()
    {
      code := [];
      currentLine := 0;
      out := [];
      env := map[];
      pending := {};
    }

    function Size(): nat
      reads this
    {
      |code|
    }

    /** The i-th instruction added; an index past the end raises. */
    function Get(i: int): (r: Result<Instr<Label>, CodeGenError>)
      reads this
      ensures 0 <= i < Size() ==> r == Success(code[i])
      ensures !(0 <= i < Size()) ==> r.Failure?
    {
      if 0 <= i < |code| then Success(code[i]) else Failure(HostError("Index out of bounds"))
    }

    /**
     * Appends at the end: the size grows by one, earlier entries stay as they were, and
     * when the instruction's labels are known it resolves through them.
     */
    method Add(op: Op<Label>)
      modifies this
      ensures code == old(code) + [Instr(old(currentLine), op)]
      ensures currentLine == old(currentLine) && env == old(env) && pending == old(pending)
      ensures old(Valid()) && LabelsOfOp(op) <= env.Keys ==>
        Valid() && out == old(out) + [Instr(old(currentLine), ResolveOpWith(op, env))]
    {
      code := code + [Instr(currentLine, op)];
      if LabelsOfOp(op) <= env.Keys {
        out := out + [Instr(currentLine, ResolveOpWith(op, env))];
      }
    }

    /**
     * Attaches `l` to the index the next instruction will get; the code is unchanged.
     * Attaching a pending label where it was planned keeps the buffer valid.
     */
    method AddLabel(l: Label) returns (r: Outcome<CodeGenError>)
      modifies this, l
      ensures code == old(code) && currentLine == old(currentLine) && out == old(out) && env == old(env)
      ensures old(l.target).None? ==> r.Pass? && l.target == Some(|code|)
      ensures old(l.target).Some? ==> r == Raised(AlreadyAttached(l.display)) && l.target == old(l.target)
      ensures old(Valid()) && l in old(pending) && old(env)[l] == |code| ==> Valid() && pending == old(pending) - {l}
    {
      r := l.Attach(|code|);
      if r.Pass? && l in pending && l in env && env[l] == |code| {
        pending := pending - {l};
      }
    }

    /** Decides where a new label will be attached; nothing observable changes. */
    ghost method Plan(l: Label, t: nat)
      requires Valid() && l !in env && l.target.None?
      modifies this
      ensures code == old(code) && currentLine == old(currentLine) && out == old(out)
      ensures env == old(env)[l := t] && pending == old(pending) + {l} && Valid()
    {
      env := env[l := t];
      pending := pending + {l};
      forall i | 0 <= i < |code|
        ensures LabelsOfOp(code[i].op) <= env.Keys && out[i] == ResolveInstrWith(code[i], env)
      {
        assert old(ResolvesTo(code, out, env));
      }
    }
  }

  /** A finished buffer, with no label pending, resolves through its labels to what it kept. */
  lemma Finished(c: CompiledCode)
    requires c.Valid() && c.pending == {}
    ensures AllAttached(c.code) && ResolveCode(c.code) == c.out
  {
    ResolvesAttached(c.code, c.out, c.env);
  }
}
