/**
 * How a table of `Duplicate`/`JumpIfMatch` tests runs (run/Interpreter.kt): with a value
 * on top of the stack, execution goes on at the target of the first pattern that matches
 * it, leaving the value where it was.
 */
module Dispatch {
  import opened Wrappers
  import opened Instructions
  import opened RuntimeValues
  import opened Semantics

  /**
   * The first of the patterns, from the `i`-th on, that the value matches, tried in list
   * order; a pattern whose test raises stops the search with that exception.
   */
  function FirstMatch(root: Namespace, pats: seq<MatchPattern>, v: Value, i: nat): (r: Result<Option<nat>, RunError>)
    decreases |pats| - i
    ensures r.Success? && r.value.Some? ==> i <= r.value.value < |pats|
  {
    if i >= |pats| then Success(None)
    else
      var b :- Matches(root, pats[i], v);
      if b then Success(Some(i)) else FirstMatch(root, pats, v, i + 1)
  }

  /**
   * The index found is a pattern the value matches, after only patterns it does not
   * match; nothing is found exactly when every pattern fails to match; an exception comes
   * from the first pattern whose test raises.
   */
  lemma {:induction false} FirstMatchSpec(root: Namespace, pats: seq<MatchPattern>, v: Value, i: nat)
    decreases |pats| - i
    ensures var r := FirstMatch(root, pats, v, i);
      && (r.Success? && r.value.Some? ==>
            && i <= r.value.value < |pats|
            && Matches(root, pats[r.value.value], v) == Success(true)
            && forall j :: i <= j < r.value.value ==> Matches(root, pats[j], v) == Success(false))
      && (r.Success? && r.value.None? <==>
            forall j :: i <= j < |pats| ==> Matches(root, pats[j], v) == Success(false))
      && (r.Failure? ==>
            exists k :: i <= k < |pats| && Matches(root, pats[k], v) == Failure(r.error) &&
              forall j :: i <= j < k ==> Matches(root, pats[j], v) == Success(false))
  {
    if i < |pats| && Matches(root, pats[i], v) == Success(false) {
      FirstMatchSpec(root, pats, v, i + 1);
    }
  }

  /** Test `j` of a table starting at `start`: `Duplicate`, then `JumpIfMatch` on pattern `j` to target `j`. */
  ghost predicate TestAt(code: seq<Instr<nat>>, start: nat, pats: seq<MatchPattern>, targets: seq<nat>, j: nat)
    requires j < |pats| && j < |targets|
  {
    && start + 2 * j + 1 < |code|
    && code[start + 2 * j].op == Duplicate
    && code[start + 2 * j + 1].op == JumpIfMatch(pats[j], targets[j])
  }

  /**
   * One test with the value `v` on top: `Duplicate` then `JumpIfMatch` leave the stack as
   * it was and go on at the target when `v` matches, and at the next test otherwise.
   */
  lemma TestStep(m: Machine, code: seq<Instr<nat>>, ip: nat, p: MatchPattern, target: nat, steps: nat, fuel: nat)
    requires m.stack != [] && m.frames != [] && steps >= 2
    requires ip + 1 < |code| && code[ip].op == Duplicate && code[ip + 1].op == JumpIfMatch(p, target)
    ensures Exec(m, code, ip, steps, fuel) ==
      match Matches(m.root, p, m.stack[|m.stack| - 1])
      case Failure(e) => Failure(e)
      case Success(b) => Exec(m, code, if b then target else ip + 2, steps - 2, fuel)
  {
    var v := m.stack[|m.stack| - 1];
    var m1 := Push(m, v);
    assert Step(m, code[ip].op, ip + 1, fuel) == Success((m1, ip + 1));
    assert m1.stack[..|m1.stack| - 1] == m.stack;
    assert PopValue(m1) == Success((v, m));
    assert Exec(m, code, ip, steps, fuel) == Exec(m1, code, ip + 1, steps - 1, fuel);
    match Matches(m.root, p, v)
    case Failure(e) =>
      assert Step(m1, code[ip + 1].op, ip + 2, fuel) == Failure(e);
    case Success(b) =>
      assert Step(m1, code[ip + 1].op, ip + 2, fuel) == Success((m, if b then target else ip + 2));
  }

  /**
   * Running a test table from test `i` with the value `v` on top: the stack is left as it
   * was, and execution goes on at the target of the first pattern (from the `i`-th) that
   * matches, or just past the table when none does. Each test takes two steps.
   */
  lemma {:induction false} TableDispatch(m: Machine, code: seq<Instr<nat>>, start: nat, pats: seq<MatchPattern>,
                                         targets: seq<nat>, i: nat, steps: nat, fuel: nat)
    requires m.stack != [] && m.frames != []
    requires |targets| == |pats| && i <= |pats|
    requires forall j :: i <= j < |pats| ==> TestAt(code, start, pats, targets, j)
    requires steps >= 2 * (|pats| - i)
    decreases |pats| - i
    ensures Exec(m, code, start + 2 * i, steps, fuel) ==
      match FirstMatch(m.root, pats, m.stack[|m.stack| - 1], i)
      case Failure(e) => Failure(e)
      case Success(None) => Exec(m, code, start + 2 * |pats|, steps - 2 * (|pats| - i), fuel)
      case Success(Some(k)) => Exec(m, code, targets[k], steps - 2 * (k - i + 1), fuel)
  {
    var v := m.stack[|m.stack| - 1];
    if i == |pats| {
      assert FirstMatch(m.root, pats, v, i) == Success(None);
    } else {
      assert TestAt(code, start, pats, targets, i);
      TestStep(m, code, start + 2 * i, pats[i], targets[i], steps, fuel);
      match Matches(m.root, pats[i], v)
      case Failure(e) =>
        assert FirstMatch(m.root, pats, v, i) == Failure(e);
      case Success(b) =>
        if b {
          assert FirstMatch(m.root, pats, v, i) == Success(Some(i));
        } else {
          assert FirstMatch(m.root, pats, v, i) == FirstMatch(m.root, pats, v, i + 1);
          TableDispatch(m, code, start, pats, targets, i + 1, steps - 2, fuel);
          assert start + 2 * (i + 1) == start + 2 * i + 2;
        }
    }
  }
}

/**
 * How the code generated for `match` runs (code/CodeGen.kt genMatch, executed by
 * run/Interpreter.kt): with the scrutinee on top of the stack, the test table jumps to the
 * case of the first pattern that matches, leaving the scrutinee where it was for the case
 * to save; when no pattern matches, execution reaches `Fail("no match")`.
 */
module MatchRun {
  import opened Wrappers
  import opened Ast
  import opened Resolver
  import opened Instructions
  import opened RuntimeValues
  import opened Semantics
  import opened CodeGenSpec
  import opened CodeGenFacts
  import opened Dispatch

  /**
   * The code of a match sits at `base` in `code`, with its cases laid out one after another
   * from `cb`, just after the scrutinee's code, the tests and `Fail`.
   */
  ghost predicate MatchCodeAt(code: seq<Instr<nat>>, base: nat, scrut: seq<Instr<nat>>, pats: seq<MatchPattern>,
                              bodies: seq<CaseCode>, cb: nat, line: int)
  {
    && |pats| == |bodies|
    && cb == base + |scrut| + 2 * |pats| + 1
    && Contiguous(bodies, cb)
    && base + |MatchCode(scrut, pats, bodies, cb, line)| <= |code|
    && code[base..base + |MatchCode(scrut, pats, bodies, cb, line)|] == MatchCode(scrut, pats, bodies, cb, line)
  }

  /** The generated match code placed at `base` holds its test table just after the scrutinee, aimed at the case starts. */
  lemma TableInMatchCode(code: seq<Instr<nat>>, base: nat, start: nat, scrut: seq<Instr<nat>>, pats: seq<MatchPattern>,
                         bodies: seq<CaseCode>, cb: nat, line: int)
    requires MatchCodeAt(code, base, scrut, pats, bodies, cb, line) && start == base + |scrut|
    ensures forall j :: 0 <= j < |pats| ==> TestAt(code, start, pats, Starts(bodies), j)
  {
    var mc := MatchCode(scrut, pats, bodies, cb, line);
    forall j | 0 <= j < |pats|
      ensures TestAt(code, start, pats, Starts(bodies), j)
    {
      MatchPartsTest(scrut, pats, bodies, cb, line, j);
      assert code[start + 2 * j] == mc[|scrut| + 2 * j];
      assert code[start + 2 * j + 1] == mc[|scrut| + 2 * j + 1];
    }
  }

  /** Case `k` of the match code placed at `base` sits at its own start in `code`, followed by its jump to the final `NoOp`. */
  lemma CaseInMatchCode(code: seq<Instr<nat>>, base: nat, scrut: seq<Instr<nat>>, pats: seq<MatchPattern>,
                        bodies: seq<CaseCode>, cb: nat, line: int, k: nat)
    requires MatchCodeAt(code, base, scrut, pats, bodies, cb, line) && k < |pats|
    ensures var c := bodies[k];
      && c.start + |c.body| < |code|
      && code[c.start..c.start + |c.body|] == c.body
      && code[c.start + |c.body|].op == Jump(base + |MatchCode(scrut, pats, bodies, cb, line)| - 1)
  {
    var mc := MatchCode(scrut, pats, bodies, cb, line);
    var c := bodies[k];
    MatchPartsCase(scrut, pats, bodies, cb, base, line, k);
    var s := c.start - base;
    assert code[base..base + |mc|][s..s + |c.body|] == code[c.start..c.start + |c.body|];
    assert code[c.start + |c.body|] == mc[s + |c.body|];
  }

  /** Just past the table of the generated match code, execution raises "no match". */
  lemma FailAfterTable(m: Machine, code: seq<Instr<nat>>, base: nat, scrut: seq<Instr<nat>>, pats: seq<MatchPattern>,
                       bodies: seq<CaseCode>, cb: nat, line: int, steps: nat, fuel: nat)
    requires MatchCodeAt(code, base, scrut, pats, bodies, cb, line)
    requires m.frames != [] && steps > 0
    ensures Exec(m, code, base + |scrut| + 2 * |pats|, steps, fuel) == Failure(InterpreterException("Fail: no match"))
  {
    var mc := MatchCode(scrut, pats, bodies, cb, line);
    MatchPartsHead(scrut, pats, bodies, cb, line);
    var failAt := base + |scrut| + 2 * |pats|;
    assert code[failAt] == mc[|scrut| + 2 * |pats|];
    assert "Fail: " + "no match" == "Fail: no match";
    assert Step(m, code[failAt].op, failAt + 1, fuel) == Failure(InterpreterException("Fail: no match"));
  }

  /**
   * The generated match code placed at `base` in a function's code runs, from just after
   * its scrutinee with the scrutinee's value on top, to the start of the case of the first
   * pattern that matches (in case order, with the stack unchanged), where CaseInMatchCode
   * places that case's code; when none matches it raises "no match"; a pattern test that
   * raises gives its exception.
   */
  lemma MatchDispatch(m: Machine, code: seq<Instr<nat>>, base: nat, scrut: seq<Instr<nat>>, pats: seq<MatchPattern>,
                      bodies: seq<CaseCode>, cb: nat, line: int, steps: nat, fuel: nat)
    requires MatchCodeAt(code, base, scrut, pats, bodies, cb, line)
    requires m.stack != [] && m.frames != [] && steps > 2 * |pats|
    ensures Exec(m, code, base + |scrut|, steps, fuel) ==
      match FirstMatch(m.root, pats, m.stack[|m.stack| - 1], 0)
      case Failure(e) => Failure(e)
      case Success(None) => Failure(InterpreterException("Fail: no match"))
      case Success(Some(k)) => Exec(m, code, bodies[k].start, steps - 2 * (k + 1), fuel)
  {
    var start := base + |scrut|;
    TableInMatchCode(code, base, start, scrut, pats, bodies, cb, line);
    TableDispatch(m, code, start, pats, Starts(bodies), 0, steps, fuel);
    match FirstMatch(m.root, pats, m.stack[|m.stack| - 1], 0)
    case Failure(_) =>
    case Success(None) =>
      FailAfterTable(m, code, base, scrut, pats, bodies, cb, line, steps - 2 * |pats|, fuel);
      assert steps - 2 * (|pats| - 0) == steps - 2 * |pats|;
    case Success(Some(k)) =>
      assert Starts(bodies)[k] == bodies[k].start;
      assert steps - 2 * (k - 0 + 1) == steps - 2 * (k + 1);
  }

  /**
   * The code genMatch emits, placed at `base` in a function's code, is a match code: its
   * scrutinee's code, the tests of the case patterns, `Fail` and the cases generated one
   * after another, so MatchDispatch and CaseInMatchCode apply to it.
   */
  lemma GeneratedMatchAt(b: Bindings, e: Expr, allowTail: bool, base: nat, line: int, code: seq<Instr<nat>>)
    requires e.CallExpr? && GenMatch(b, e, allowTail, base, line).Success?
    requires var g := GenMatch(b, e, allowTail, base, line).value.code;
      base + |g| <= |code| && code[base..base + |g|] == g
    ensures |e.args| == 2 && e.args[1].ListExpr? && MatchCases(e.args[1].elements)
    ensures GenExpr(b, e.args[0], false, base, line).Success?
    ensures var cs := e.args[1].elements;
      var scrut := GenExpr(b, e.args[0], false, base, line).value;
      var cb := base + |scrut.code| + 2 * |cs| + 1;
      && CasePatterns(cs, |cs|).Success?
      && GenMatchCases(b, cs, |cs|, allowTail, cb, scrut.line).Success?
      && MatchCodeAt(code, base, scrut.code, CasePatterns(cs, |cs|).value,
                     GenMatchCases(b, cs, |cs|, allowTail, cb, scrut.line).value, cb, scrut.line)
  {
    MatchIsBody(b, e, allowTail, base, line);
    var cs := e.args[1].elements;
    var scrut := GenExpr(b, e.args[0], false, base, line).value;
    MatchBodyIsCode(b, cs, allowTail, base, scrut);
    var cb := base + |scrut.code| + 2 * |cs| + 1;
    GenMatchCasesLayout(b, cs, |cs|, allowTail, cb, scrut.line);
  }
}
