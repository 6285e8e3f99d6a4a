/**
 * What code generation (code/CodeGen.kt) emits, as functions of the syntax tree and the
 * resolver's bindings. Each `Gen*` function takes the absolute index `base` its first
 * instruction will get (jump targets are absolute) and the current line on entry, and
 * gives the resolved instructions it appends and the current line afterwards, or the
 * exception that generation raises first.
 */
module CodeGenSpec {
  import opened Wrappers
  import opened Ast
  import opened Resolver
  import opened Instructions
  import opened Text

  datatype Emitted = Emitted(code: seq<Instr<nat>>, line: int)

  /** trimQuotes: drops the first and the last character; shorter strings raise. */
  function TrimQuotes(s: string): (r: Result<string, CodeGenError>)
    ensures r.Success? <==> |s| >= 2
    ensures r.Success? ==> [s[0]] + r.value + [s[|s| - 1]] == s
  {
    if |s| < 2 then Failure(HostError("String index out of range")) else Success(s[1..|s| - 1])
  }

  /* ---------------------------------------------------------------- convertPattern */

  function ConvertConst(lit: ConstLiteral): Result<MatchPattern, CodeGenError> {
    match lit
    case NumberLit(_, num) => Success(NumberMatch(num))
    case StringLit(_, text) =>
      var t :- TrimQuotes(text);
      Success(StringMatch(t))
    case EmptyListLit(_) => Success(EmptyListMatch)
    case UnitLit(_) => Success(UnitMatch)
  }

  /** convertPattern: the refutable form of a pattern. */
  function ConvertPattern(p: Pattern): Result<MatchPattern, CodeGenError>
    decreases p, 1
  {
    match p
    case ConstPattern(lit) => ConvertConst(lit)
    case NamePattern(_, _, _) => Success(AlwaysMatch)
    case WildcardPattern => Success(AlwaysMatch)
    case ListPattern(inners) => ConvertListFrom(inners, 0)
    case TypePattern(name, params) =>
      var ms :- ConvertAll(params, |params|);
      Success(TypeMatch(name, ms))
  }

  /** The right fold over a list pattern's elements from `i`, converting the last element first. */
  function ConvertListFrom(ps: seq<Pattern>, i: nat): Result<MatchPattern, CodeGenError>
    requires i <= |ps|
    decreases ps, |ps| - i
  {
    if i == |ps| then Success(EmptyListMatch)
    else
      var rest :- ConvertListFrom(ps, i + 1);
      var head :- ConvertPattern(ps[i]);
      Success(TypeMatch(ListConsName, [head, rest]))
  }

  /** The first `n` patterns converted in order (a `map`). */
  function ConvertAll(ps: seq<Pattern>, n: nat): (r: Result<seq<MatchPattern>, CodeGenError>)
    requires n <= |ps|
    decreases ps, n
    ensures r.Success? ==> |r.value| == n
  {
    if n == 0 then Success([])
    else
      var front :- ConvertAll(ps, n - 1);
      var last :- ConvertPattern(ps[n - 1]);
      Success(front + [last])
  }

  /* ---------------------------------------------------------------- savePattern */

  /**
   * savePattern: the code that stores the value on top of the stack into the pattern's
   * names, or raises at run time if it does not fit. With `ns` a name is also bound in
   * that namespace. Nothing here changes the current line.
   */
  function SavePattern(b: Bindings, p: Pattern, ns: Option<seq<string>>, line: int): Result<seq<Instr<nat>>, CodeGenError>
    decreases p, 1
  {
    match p
    case WildcardPattern => Success([Instr(line, Pop)])
    case ConstPattern(_) =>
      var m :- ConvertPattern(p);
      Success([Instr(line, Match(m))])
    case NamePattern(_, _, _) => SaveName(b, p, ns, line)
    case ListPattern(inners) =>
      var items :- SaveListItems(b, inners, |inners|, ns, line);
      Success(items + [Instr(line, Decompose(EmptyListName, 0))])
    case TypePattern(name, params) =>
      var fields :- SaveAll(b, params, |params|, ns, line);
      Success([Instr(line, Decompose(name, |params|))] + fields)
  }

  function SaveName(b: Bindings, p: Pattern, ns: Option<seq<string>>, line: int): Result<seq<Instr<nat>>, CodeGenError>
    requires p.NamePattern?
  {
    if p.id !in b.declarations then Failure(UnknownDeclaration(p))
    else
      var publish := if ns.Some? then [Instr(line, Duplicate), Instr(line, SaveNamespace(p.value, ns.value))] else [];
      Success(publish + [Instr(line, SaveLocal(b.declarations[p.id]))])
  }

  function UnknownDeclaration(p: Pattern): CodeGenError
    requires p.NamePattern?
  {
    CodeGenException("Unknown declaration: " + p.value, Some(p.line))
  }

  /** For each of the first `n` list elements: split off the head, then save it. */
  function SaveListItems(b: Bindings, ps: seq<Pattern>, n: nat, ns: Option<seq<string>>, line: int): Result<seq<Instr<nat>>, CodeGenError>
    requires n <= |ps|
    decreases ps, n
  {
    if n == 0 then Success([])
    else
      var front :- SaveListItems(b, ps, n - 1, ns, line);
      var item :- SavePattern(b, ps[n - 1], ns, line);
      Success(front + [Instr(line, Decompose(ListConsName, 2))] + item)
  }

  /** The first `n` fields saved in order. */
  function SaveAll(b: Bindings, ps: seq<Pattern>, n: nat, ns: Option<seq<string>>, line: int): Result<seq<Instr<nat>>, CodeGenError>
    requires n <= |ps|
    decreases ps, n
  {
    if n == 0 then Success([])
    else
      var front :- SaveAll(b, ps, n - 1, ns, line);
      var item :- SavePattern(b, ps[n - 1], ns, line);
      Success(front + item)
  }

  /* ---------------------------------------------------------------- expressions */

  function ConstOp<L>(lit: ConstLiteral): Result<Op<L>, CodeGenError> {
    match lit
    case NumberLit(_, num) => Success(LoadNumber(num))
    case StringLit(_, text) =>
      var t :- TrimQuotes(text);
      Success(LoadString(t))
    case UnitLit(_) => Success(LoadName(UnitName))
    case EmptyListLit(_) => Success(LoadName(EmptyListName))
  }

  /** genName: a resolved name loads the local it resolved to, any other name is looked up by path. */
  function NameOp<L>(b: Bindings, e: Expr): Op<L>
    requires e.QualifiedName?
  {
    if e.id in b.usages then LoadLocal(b.usages[e.id]) else LoadName(e.parts)
  }

  /** gen(Expr): sets the current line to the expression's own line, then dispatches. */
  function GenExpr(b: Bindings, e: Expr, allowTail: bool, base: nat, line: int): Result<Emitted, CodeGenError>
    decreases e, 2
  {
    var here := e.Line();
    match e
    case ConstExpr(lit) =>
      var op :- ConstOp<nat>(lit);
      Success(Emitted([Instr(here, op)], here))
    case QualifiedName(_, _, _) => Success(Emitted([Instr(here, NameOp<nat>(b, e))], here))
    case ListExpr(_, _) => GenList(b, e, base, here)
    case CallExpr(_, _, _) => GenCall(b, e, allowTail, base, here)
    case LambdaExpr(_, _, _) => GenLambda(b, e, here)
    case DotExpr(_) => Failure(HostError("DotExpr is not supported"))
  }

  /** gen(Block): each binding's right-hand side then its pattern, then the trailing expression. */
  function GenBlock(b: Bindings, blk: Block, allowTail: bool, base: nat, line: int): Result<Emitted, CodeGenError>
    decreases blk, 2
  {
    var bs :- GenBindings(b, blk.bindings, |blk.bindings|, base, line);
    var ex :- GenExpr(b, blk.expr, allowTail, base + |bs.code|, bs.line);
    Success(Emitted(bs.code + ex.code, ex.line))
  }

  function GenBindings(b: Bindings, bs: seq<Binding>, n: nat, base: nat, line: int): Result<Emitted, CodeGenError>
    requires n <= |bs|
    decreases bs, n
  {
    if n == 0 then Success(Emitted([], line))
    else
      var front :- GenBindings(b, bs, n - 1, base, line);
      var last :- GenLocalBinding(b, bs[n - 1], base + |front.code|, front.line);
      Success(Emitted(front.code + last.code, last.line))
  }

  /** A block's binding: never in tail position, and saved in no namespace. */
  function GenLocalBinding(b: Bindings, bnd: Binding, base: nat, line: int): Result<Emitted, CodeGenError>
    decreases bnd, 1
  {
    var rhs :- GenBlock(b, bnd.block, false, base, line);
    var save :- SavePattern(b, bnd.pattern, None, rhs.line);
    Success(Emitted(rhs.code + save, rhs.line))
  }

  /** genList: `Empty`, then for each element from the last: the element, `::`, and a call of two. */
  function GenList(b: Bindings, e: Expr, base: nat, line: int): Result<Emitted, CodeGenError>
    requires e.ListExpr?
    decreases e, 1
  {
    GenListItems(b, e.elements, |e.elements|, base, line)
  }

  /** The empty list followed by the last `n` elements, taken from the end. */
  function GenListItems(b: Bindings, els: seq<Block>, n: nat, base: nat, line: int): Result<Emitted, CodeGenError>
    requires n <= |els|
    decreases els, n
  {
    if n == 0 then Success(Emitted([Instr(line, LoadName(EmptyListName))], line))
    else
      var front :- GenListItems(b, els, n - 1, base, line);
      var el :- GenBlock(b, els[|els| - n], false, base + |front.code|, front.line);
      Success(Emitted(front.code + el.code + ConsCall(el.line), el.line))
  }

  function ConsCall(line: int): seq<Instr<nat>> {
    [Instr(line, LoadName(ListConsName)), Instr(line, Call(2))]
  }

  /** genCall: `match` is special; otherwise the arguments last to first, then the callee and a call. */
  function GenCall(b: Bindings, e: Expr, allowTail: bool, base: nat, line: int): Result<Emitted, CodeGenError>
    requires e.CallExpr?
    decreases e, 1
  {
    if IsMatch(e) then GenMatch(b, e, allowTail, base, line)
    else GenPlainCall(b, e, allowTail, base, line)
  }

  /** A call that is not a match: its arguments, then a self tail call or the callee and a `Call`. */
  function GenPlainCall(b: Bindings, e: Expr, allowTail: bool, base: nat, line: int): Result<Emitted, CodeGenError>
    requires e.CallExpr?
    decreases e, 0
  {
      var args :- GenArgs(b, e.args, |e.args|, base, line);
      if e.callable.DotExpr? then
        if !allowTail then Failure(TailCallNotAllowed(e))
        else Success(Emitted(args.code + [Instr(args.line, TailCall(|e.args|))], args.line))
      else
        var callee :- GenExpr(b, e.callable, false, base + |args.code|, args.line);
        Success(Emitted(args.code + callee.code + [Instr(callee.line, Call(|e.args|))], callee.line))
  }

  predicate IsMatch(e: Expr)
    requires e.CallExpr?
  {
    e.callable.QualifiedName? && e.callable.parts == ["match"]
  }

  function TailCallNotAllowed(e: Expr): CodeGenError
    requires e.CallExpr?
  {
    CodeGenException("Tail call not allowed here", Some(e.line))
  }

  /** The last `n` arguments, from the last one backwards; none of them is in tail position. */
  function GenArgs(b: Bindings, args: seq<Expr>, n: nat, base: nat, line: int): Result<Emitted, CodeGenError>
    requires n <= |args|
    decreases args, n
  {
    if n == 0 then Success(Emitted([], line))
    else
      var front :- GenArgs(b, args, n - 1, base, line);
      var arg :- GenExpr(b, args[|args| - n], false, base + |front.code|, front.line);
      Success(Emitted(front.code + arg.code, arg.line))
  }

  /**
   * genLambda: a fresh buffer (current line 0) holding the parameters' save code, in
   * declared order, then the body in tail position; one `LoadFunction` of it here.
   */
  function GenLambda(b: Bindings, e: Expr, line: int): Result<Emitted, CodeGenError>
    requires e.LambdaExpr?
    decreases e, 1
  {
    var body :- LambdaBody(b, e);
    Success(Emitted([Instr(line, LoadFunction(body, |e.params|))], line))
  }

  function LambdaBody(b: Bindings, e: Expr): Result<seq<Instr<nat>>, CodeGenError>
    requires e.LambdaExpr?
    decreases e, 0
  {
    var params :- SaveAll(b, e.params, |e.params|, None, 0);
    var body :- GenBlock(b, e.block, true, |params|, 0);
    Success(params + body.code)
  }

  /* ---------------------------------------------------------------- match */

  /** The generated code of one match case, with the index it starts at and the line after it. */
  datatype CaseCode = CaseCode(start: nat, body: seq<Instr<nat>>, line: int)

  function MatchArgCount(e: Expr): CodeGenError
    requires e.CallExpr?
  {
    CodeGenException("Incorrect number of args in match: " + NatToString(|e.args|), Some(e.line))
  }

  /** genMatch: the scrutinee, a test per case, `Fail`, the cases, and a final `NoOp`. */
  function GenMatch(b: Bindings, e: Expr, allowTail: bool, base: nat, line: int): Result<Emitted, CodeGenError>
    requires e.CallExpr?
    decreases e, 0
  {
    if |e.args| != 2 then Failure(MatchArgCount(e))
    else GenMatchArgs(b, e.args, allowTail, base, line)
  }

  function GenMatchArgs(b: Bindings, args: seq<Expr>, allowTail: bool, base: nat, line: int): Result<Emitted, CodeGenError>
    requires |args| == 2
    decreases args, 0
  {
    var scrut :- GenExpr(b, args[0], false, base, line);
    GenMatchList(b, args[1], allowTail, base, scrut)
  }

  /** The part after the scrutinee: checks on the case list, then the tests and the cases. */
  function GenMatchList(b: Bindings, list: Expr, allowTail: bool, base: nat, scrut: Emitted): Result<Emitted, CodeGenError>
    decreases list, 0
  {
    if !list.ListExpr? then Failure(CodeGenException("match requires a list as second argument", Some(list.Line())))
    else
      var cs := list.elements;
      var lambdas := CheckLambdas(cs, |cs|);
      if lambdas.Raised? then Failure(lambdas.error)
      else
        var arity := CheckArity(cs, |cs|);
        if arity.Raised? then Failure(arity.error)
        else GenMatchBody(b, cs, allowTail, base, scrut)
  }

  /**
   * The scrutinee's code, then for each case a `Duplicate` and a jump to the case if the
   * copy matches, `Fail`, the cases each ending in a jump to the end, and a final `NoOp`.
   */
  function GenMatchBody(b: Bindings, cs: seq<Block>, allowTail: bool, base: nat, scrut: Emitted): Result<Emitted, CodeGenError>
    requires MatchCases(cs)
    decreases cs, |cs| + 1
  {
    var pats :- CasePatterns(cs, |cs|);
    var casesBase := base + |scrut.code| + 2 * |cs| + 1;
    var bodies :- GenMatchCases(b, cs, |cs|, allowTail, casesBase, scrut.line);
    Success(Emitted(
      scrut.code + MatchTable(pats, Starts(bodies), scrut.line) + [Instr(scrut.line, Fail("no match"))]
        + MatchEnd(bodies, casesBase, scrut.line),
      LastLine(bodies, scrut.line)))
  }

  /** The cases laid out from `base`, each ending in a jump to the end, then the `NoOp` the end label marks. */
  function MatchEnd(bodies: seq<CaseCode>, base: nat, line: int): seq<Instr<nat>> {
    CaseBlocks(bodies, CasesEnd(bodies, base)) + [Instr(LastLine(bodies, line), NoOp)]
  }

  /** The whole tail of a match when its cases generate as `bodies`, and their exception when not. */
  function MatchEndOf(bodies: Result<seq<CaseCode>, CodeGenError>, base: nat, line: int): Result<Emitted, CodeGenError> {
    if bodies.Failure? then Failure(bodies.error)
    else Success(Emitted(MatchEnd(bodies.value, base, line), LastLine(bodies.value, line)))
  }

  /** Every case is a lambda; the first one that is not raises, at its own line. */
  function CheckLambdas(cs: seq<Block>, n: nat): (r: Outcome<CodeGenError>)
    requires n <= |cs|
    ensures r.Pass? <==> forall i :: 0 <= i < n ==> cs[i].expr.LambdaExpr?
  {
    if n == 0 then Pass
    else
      var front := CheckLambdas(cs, n - 1);
      if front.Raised? then front
      else if !cs[n - 1].expr.LambdaExpr? then Raised(CodeGenException("every case in a match must be a lambda", Some(cs[n - 1].expr.Line())))
      else Pass
  }

  /** Every case lambda has exactly one parameter; the first one that has not raises. */
  function CheckArity(cs: seq<Block>, n: nat): (r: Outcome<CodeGenError>)
    requires n <= |cs|
    requires forall i :: 0 <= i < n ==> cs[i].expr.LambdaExpr?
    ensures r.Pass? <==> forall i :: 0 <= i < n ==> |cs[i].expr.params| == 1
  {
    if n == 0 then Pass
    else
      var front := CheckArity(cs, n - 1);
      if front.Raised? then front
      else if |cs[n - 1].expr.params| != 1 then Raised(CodeGenException("every case in a match must have exactly one parameter", Some(cs[n - 1].expr.line)))
      else Pass
  }

  ghost predicate MatchCases(cs: seq<Block>) {
    forall i :: 0 <= i < |cs| ==> cs[i].expr.LambdaExpr? && |cs[i].expr.params| == 1
  }

  /** The refutable form of each case's one parameter. */
  function CasePatterns(cs: seq<Block>, n: nat): (r: Result<seq<MatchPattern>, CodeGenError>)
    requires n <= |cs| && MatchCases(cs)
    ensures r.Success? ==> |r.value| == n
    ensures r.Success? ==> forall i :: 0 <= i < n ==> ConvertPattern(cs[i].expr.params[0]) == Success(r.value[i])
  {
    if n == 0 then Success([])
    else
      var front :- CasePatterns(cs, n - 1);
      var last :- ConvertPattern(cs[n - 1].expr.params[0]);
      Success(front + [last])
  }

  /** The first `n` cases, laid out one after another from `base`, each followed by its jump to the end. */
  function GenMatchCases(b: Bindings, cs: seq<Block>, n: nat, allowTail: bool, base: nat, line: int): (r: Result<seq<CaseCode>, CodeGenError>)
    requires n <= |cs| && MatchCases(cs)
    decreases cs, n
    ensures r.Success? ==> |r.value| == n
  {
    if n == 0 then Success([])
    else
      var front :- GenMatchCases(b, cs, n - 1, allowTail, base, line);
      var start := CasesEnd(front, base);
      var c :- GenMatchCase(b, cs[n - 1].expr, allowTail, start, LastLine(front, line));
      Success(front + [CaseCode(start, c.code, c.line)])
  }

  /** genMatchCase without its final jump: the parameter's save code, then the body. */
  function GenMatchCase(b: Bindings, lam: Expr, allowTail: bool, base: nat, line: int): Result<Emitted, CodeGenError>
    requires lam.LambdaExpr? && |lam.params| == 1
    decreases lam, 0
  {
    var save :- SavePattern(b, lam.params[0], None, line);
    var body :- GenBlock(b, lam.block, allowTail, base + |save|, line);
    Success(Emitted(save + body.code, body.line))
  }

  /** Where the code after the cases starts. */
  function CasesEnd(cases: seq<CaseCode>, base: nat): nat {
    if cases == [] then base else cases[|cases| - 1].start + |cases[|cases| - 1].body| + 1
  }

  function LastLine(cases: seq<CaseCode>, line: int): int {
    if cases == [] then line else cases[|cases| - 1].line
  }

  function Starts(cases: seq<CaseCode>): (r: seq<nat>)
    ensures |r| == |cases|
    ensures forall i :: 0 <= i < |cases| ==> r[i] == cases[i].start
  {
    if cases == [] then [] else Starts(cases[..|cases| - 1]) + [cases[|cases| - 1].start]
  }

  /** For each case: keep a copy of the scrutinee, and jump to the case if the copy matches. */
  function MatchTable(pats: seq<MatchPattern>, starts: seq<nat>, line: int): (r: seq<Instr<nat>>)
    requires |pats| <= |starts|
    ensures |r| == 2 * |pats|
  {
    if pats == [] then []
    else
      MatchTable(pats[..|pats| - 1], starts, line)
        + [Instr(line, Duplicate), Instr(line, JumpIfMatch(pats[|pats| - 1], starts[|pats| - 1]))]
  }

  /** Each case's code followed by a jump to `end`. */
  function CaseBlocks(cases: seq<CaseCode>, end: nat): seq<Instr<nat>> {
    if cases == [] then []
    else CaseBlocks(cases[..|cases| - 1], end) + cases[|cases| - 1].body + [Instr(cases[|cases| - 1].line, Jump(end))]
  }

  /**
   * Where case `j` starts, given that the cases before it are laid out from `base`; 0
   * when one of those cases raises. With `j` the number of cases it is where the code
   * after the cases starts.
   */
  ghost function CaseStart(b: Bindings, cs: seq<Block>, j: nat, allowTail: bool, base: nat, line: int): nat
    requires j <= |cs| && MatchCases(cs)
  {
    var front := GenMatchCases(b, cs, j, allowTail, base, line);
    if front.Success? then CasesEnd(front.value, base) else 0
  }

  /** When the first `n` cases generate, each starts where the cases before it end. */
  lemma {:induction false} CaseStarts(b: Bindings, cs: seq<Block>, n: nat, allowTail: bool, base: nat, line: int)
    requires n <= |cs| && MatchCases(cs)
    requires GenMatchCases(b, cs, n, allowTail, base, line).Success?
    decreases n
    ensures forall j :: 0 <= j < n ==>
      GenMatchCases(b, cs, n, allowTail, base, line).value[j].start == CaseStart(b, cs, j, allowTail, base, line)
  {
    if n > 0 {
      CaseStarts(b, cs, n - 1, allowTail, base, line);
      var front := GenMatchCases(b, cs, n - 1, allowTail, base, line).value;
      var all := GenMatchCases(b, cs, n, allowTail, base, line).value;
      assert forall j :: 0 <= j < n - 1 ==> all[j] == front[j];
      assert all[n - 1].start == CasesEnd(front, base);
    }
  }

  /**
   * `starts` holds, for each of the first `|starts|` cases, the index where it starts. The
   * fact about case `j` is only brought in where that case's start is mentioned.
   */
  ghost predicate StartsPlanned(b: Bindings, cs: seq<Block>, allowTail: bool, base: nat, line: int, starts: seq<nat>)
    requires |starts| <= |cs| && MatchCases(cs)
  {
    forall j {:trigger CaseStart(b, cs, j, allowTail, base, line)} :: 0 <= j < |starts| ==>
      starts[j] == CaseStart(b, cs, j, allowTail, base, line)
  }

  /** Planned starts are where the generated cases do start. */
  lemma PlannedStarts(b: Bindings, cs: seq<Block>, allowTail: bool, base: nat, line: int, starts: seq<nat>)
    requires |starts| == |cs| && MatchCases(cs)
    requires StartsPlanned(b, cs, allowTail, base, line, starts)
    requires GenMatchCases(b, cs, |cs|, allowTail, base, line).Success?
    ensures starts == Starts(GenMatchCases(b, cs, |cs|, allowTail, base, line).value)
  {
    var bodies := GenMatchCases(b, cs, |cs|, allowTail, base, line).value;
    CaseStarts(b, cs, |cs|, allowTail, base, line);
    forall j | 0 <= j < |cs|
      ensures starts[j] == Starts(bodies)[j]
    {
      assert bodies[j].start == CaseStart(b, cs, j, allowTail, base, line);
    }
  }

  /**
   * A match body with planned case starts is its scrutinee, the test table over those starts,
   * `Fail`, then the tail of the cases; an exception of the patterns or of the cases is its own.
   */
  lemma MatchBodySplits(b: Bindings, cs: seq<Block>, allowTail: bool, base: nat, scrut: Emitted, starts: seq<nat>)
    requires |starts| == |cs| && MatchCases(cs)
    requires StartsPlanned(b, cs, allowTail, base + |scrut.code| + 2 * |cs| + 1, scrut.line, starts)
    ensures CasePatterns(cs, |cs|).Failure? ==> GenMatchBody(b, cs, allowTail, base, scrut) == Failure(CasePatterns(cs, |cs|).error)
    ensures CasePatterns(cs, |cs|).Success? ==>
      GenMatchBody(b, cs, allowTail, base, scrut)
        == MatchJoin(scrut, MatchTable(CasePatterns(cs, |cs|).value, starts, scrut.line),
                     MatchEndOf(GenMatchCases(b, cs, |cs|, allowTail, base + |scrut.code| + 2 * |cs| + 1, scrut.line),
                                base + |scrut.code| + 2 * |cs| + 1, scrut.line))
  {
    var casesBase := base + |scrut.code| + 2 * |cs| + 1;
    var cases := GenMatchCases(b, cs, |cs|, allowTail, casesBase, scrut.line);
    if CasePatterns(cs, |cs|).Success? && cases.Success? {
      PlannedStarts(b, cs, allowTail, casesBase, scrut.line, starts);
    }
  }

  /** The scrutinee, the table and `Fail`, then the tail of the cases, or the tail's exception. */
  function MatchJoin(scrut: Emitted, table: seq<Instr<nat>>, tail: Result<Emitted, CodeGenError>): (r: Result<Emitted, CodeGenError>)
    ensures r.Success? <==> tail.Success?
    ensures r.Success? ==> |r.value.code| == |scrut.code| + |table| + 1 + |tail.value.code|
  {
    if tail.Failure? then Failure(tail.error)
    else Success(Emitted(scrut.code + table + [Instr(scrut.line, Fail("no match"))] + tail.value.code, tail.value.line))
  }

  /* ---------------------------------------------------------------- declarations */

  /** genNamespace: a `MkNamespace` unless this is the root, then every member under the full name. */
  function GenNamespace(b: Bindings, ns: NamespaceDecl, parent: seq<string>, base: nat, line: int): Result<Emitted, CodeGenError>
    decreases ns, 2
  {
    var name := parent + ns.name;
    if |name| > 0 && |ns.name| == 0 then Failure(HostError("Index 0 out of bounds"))
    else
      var head := if |name| > 0 then [Instr(line, MkNamespace(name, ns.name[0], ns.public))] else [];
      var members :- GenDecls(b, ns.decls, |ns.decls|, name, base + |head|, line);
      Success(Emitted(head + members.code, members.line))
  }

  function GenDecls(b: Bindings, ds: seq<Decl>, n: nat, parent: seq<string>, base: nat, line: int): Result<Emitted, CodeGenError>
    requires n <= |ds|
    decreases ds, n
  {
    if n == 0 then Success(Emitted([], line))
    else
      var front :- GenDecls(b, ds, n - 1, parent, base, line);
      var last :- GenDecl(b, ds[n - 1], parent, base + |front.code|, front.line);
      Success(Emitted(front.code + last.code, last.line))
  }

  function GenDecl(b: Bindings, d: Decl, parent: seq<string>, base: nat, line: int): Result<Emitted, CodeGenError>
    decreases d, 1
  {
    match d
    case NamespaceD(ns) => GenNamespace(b, ns, parent, base, line)
    case TypeDecl(name, _, cases, ns) =>
      if |name| == 0 then Failure(HostError("List is empty"))
      else
        var mk := [Instr(line, MkType(name[|name| - 1], parent + name[..|name| - 1], cases))];
        var members :- GenTypeNamespace(b, ns, parent, base + 1, line);
        Success(Emitted(mk + members.code, members.line))
    case BindingD(bnd) => GenMemberBinding(b, bnd, parent, base, line)
  }

  /** A type's own namespace, if it has one, generated under the type's parent. */
  function GenTypeNamespace(b: Bindings, ns: Option<NamespaceDecl>, parent: seq<string>, base: nat, line: int): Result<Emitted, CodeGenError>
    decreases ns, 1
  {
    if ns.None? then Success(Emitted([], line)) else GenNamespace(b, ns.value, parent, base, line)
  }

  /** A namespace member binding: a public one is also saved into the enclosing namespace. */
  function GenMemberBinding(b: Bindings, bnd: Binding, parent: seq<string>, base: nat, line: int): Result<Emitted, CodeGenError>
    decreases bnd, 1
  {
    var rhs :- GenBlock(b, bnd.block, false, base, line);
    var save :- SavePattern(b, bnd.pattern, if bnd.public then Some(parent) else None, rhs.line);
    Success(Emitted(rhs.code + save, rhs.line))
  }

  function ImportOp<L>(imp: ImportStmt): Result<Op<L>, CodeGenError> {
    var file :- TrimQuotes(imp.filename);
    if imp.names == [] then Success(ImportAll(file)) else Success(ImportNames(file, imp.names))
  }

  function GenImports(imps: seq<ImportStmt>, n: nat, line: int): (r: Result<seq<Instr<nat>>, CodeGenError>)
    requires n <= |imps|
    ensures r.Success? ==> |r.value| == n
  {
    if n == 0 then Success([])
    else
      var front :- GenImports(imps, n - 1, line);
      var op :- ImportOp<nat>(imps[n - 1]);
      Success(front + [Instr(line, op)])
  }

  /**
   * generate: the imports, the root namespace, then the top-level call, which is never in
   * tail position; the buffer starts with current line 0.
   */
  function Generate(b: Bindings, ast: Program): Result<seq<Instr<nat>>, CodeGenError> {
    var imports :- GenImports(ast.imports, |ast.imports|, 0);
    var root :- GenNamespace(b, ast.root, [], |imports|, 0);
    if ast.expr.None? then Success(imports + root.code)
    else
      var main :- GenCall(b, ast.expr.value, false, |imports| + |root.code|, root.line);
      Success(imports + root.code + main.code)
  }

  /** compile: generation against the resolver's bindings for the same tree. */
  function Compile(ast: Program): Result<seq<Instr<nat>>, CodeGenError> {
    Generate(ResolveProgram(ast), ast)
  }

  /* ---------------------------------------------------------------- first failure */

  /*
   * Each list-building function above stops at the first element whose generation
   * raises: if the first `i` elements succeed and element `i` raises, so does every
   * longer prefix, with the same exception.
   */

  lemma {:induction false} SaveListItemsFails(b: Bindings, ps: seq<Pattern>, i: nat, n: nat, ns: Option<seq<string>>, line: int)
    requires i < n <= |ps|
    requires SaveListItems(b, ps, i, ns, line).Success?
    requires SavePattern(b, ps[i], ns, line).Failure?
    ensures SaveListItems(b, ps, n, ns, line) == Failure(SavePattern(b, ps[i], ns, line).error)
    decreases n
  {
    if n > i + 1 {
      SaveListItemsFails(b, ps, i, n - 1, ns, line);
    }
  }

  lemma {:induction false} SaveAllFails(b: Bindings, ps: seq<Pattern>, i: nat, n: nat, ns: Option<seq<string>>, line: int)
    requires i < n <= |ps|
    requires SaveAll(b, ps, i, ns, line).Success?
    requires SavePattern(b, ps[i], ns, line).Failure?
    ensures SaveAll(b, ps, n, ns, line) == Failure(SavePattern(b, ps[i], ns, line).error)
    decreases n
  {
    if n > i + 1 {
      SaveAllFails(b, ps, i, n - 1, ns, line);
    }
  }

  lemma {:induction false} GenBindingsFails(b: Bindings, bs: seq<Binding>, i: nat, n: nat, base: nat, line: int)
    requires i < n <= |bs|
    requires GenBindings(b, bs, i, base, line).Success?
    requires
      var front := GenBindings(b, bs, i, base, line).value;
      GenLocalBinding(b, bs[i], base + |front.code|, front.line).Failure?
    ensures
      var front := GenBindings(b, bs, i, base, line).value;
      GenBindings(b, bs, n, base, line) == Failure(GenLocalBinding(b, bs[i], base + |front.code|, front.line).error)
    decreases n
  {
    if n > i + 1 {
      GenBindingsFails(b, bs, i, n - 1, base, line);
    }
  }

  lemma {:induction false} GenListItemsFails(b: Bindings, els: seq<Block>, i: nat, n: nat, base: nat, line: int)
    requires i < n <= |els|
    requires GenListItems(b, els, i, base, line).Success?
    requires
      var front := GenListItems(b, els, i, base, line).value;
      GenBlock(b, els[|els| - (i + 1)], false, base + |front.code|, front.line).Failure?
    ensures
      var front := GenListItems(b, els, i, base, line).value;
      GenListItems(b, els, n, base, line) == Failure(GenBlock(b, els[|els| - (i + 1)], false, base + |front.code|, front.line).error)
    decreases n
  {
    if n > i + 1 {
      GenListItemsFails(b, els, i, n - 1, base, line);
    }
  }

  lemma {:induction false} GenArgsFails(b: Bindings, args: seq<Expr>, i: nat, n: nat, base: nat, line: int)
    requires i < n <= |args|
    requires GenArgs(b, args, i, base, line).Success?
    requires
      var front := GenArgs(b, args, i, base, line).value;
      GenExpr(b, args[|args| - (i + 1)], false, base + |front.code|, front.line).Failure?
    ensures
      var front := GenArgs(b, args, i, base, line).value;
      GenArgs(b, args, n, base, line) == Failure(GenExpr(b, args[|args| - (i + 1)], false, base + |front.code|, front.line).error)
    decreases n
  {
    if n > i + 1 {
      GenArgsFails(b, args, i, n - 1, base, line);
    }
  }

  lemma {:induction false} GenDeclsFails(b: Bindings, ds: seq<Decl>, i: nat, n: nat, parent: seq<string>, base: nat, line: int)
    requires i < n <= |ds|
    requires GenDecls(b, ds, i, parent, base, line).Success?
    requires
      var front := GenDecls(b, ds, i, parent, base, line).value;
      GenDecl(b, ds[i], parent, base + |front.code|, front.line).Failure?
    ensures
      var front := GenDecls(b, ds, i, parent, base, line).value;
      GenDecls(b, ds, n, parent, base, line) == Failure(GenDecl(b, ds[i], parent, base + |front.code|, front.line).error)
    decreases n
  {
    if n > i + 1 {
      GenDeclsFails(b, ds, i, n - 1, parent, base, line);
    }
  }

  lemma {:induction false} GenImportsFails(imps: seq<ImportStmt>, i: nat, n: nat, line: int)
    requires i < n <= |imps|
    requires GenImports(imps, i, line).Success?
    requires ImportOp<nat>(imps[i]).Failure?
    ensures GenImports(imps, n, line) == Failure(ImportOp<nat>(imps[i]).error)
    decreases n
  {
    if n > i + 1 {
      GenImportsFails(imps, i, n - 1, line);
    }
  }

  lemma {:induction false} CasePatternsFails(cs: seq<Block>, i: nat, n: nat)
    requires i < n <= |cs| && MatchCases(cs)
    requires CasePatterns(cs, i).Success?
    requires ConvertPattern(cs[i].expr.params[0]).Failure?
    ensures CasePatterns(cs, n) == Failure(ConvertPattern(cs[i].expr.params[0]).error)
    decreases n
  {
    if n > i + 1 {
      CasePatternsFails(cs, i, n - 1);
    }
  }

  /** One more converted parameter adds that case's test to the table. */
  lemma TableStep(cs: seq<Block>, i: nat, starts: seq<nat>, line: int)
    requires i < |cs| <= |starts| && MatchCases(cs)
    requires CasePatterns(cs, i).Success? && ConvertPattern(cs[i].expr.params[0]).Success?
    ensures CasePatterns(cs, i + 1).Success?
    ensures MatchTable(CasePatterns(cs, i + 1).value, starts, line) ==
      MatchTable(CasePatterns(cs, i).value, starts, line)
        + [Instr(line, Duplicate), Instr(line, JumpIfMatch(ConvertPattern(cs[i].expr.params[0]).value, starts[i]))]
  {
    var pats := CasePatterns(cs, i + 1).value;
    assert pats[..i] == CasePatterns(cs, i).value;
  }

  lemma {:induction false} GenMatchCasesFails(b: Bindings, cs: seq<Block>, i: nat, n: nat, allowTail: bool, base: nat, line: int)
    requires i < n <= |cs| && MatchCases(cs)
    requires GenMatchCases(b, cs, i, allowTail, base, line).Success?
    requires
      var front := GenMatchCases(b, cs, i, allowTail, base, line).value;
      GenMatchCase(b, cs[i].expr, allowTail, CasesEnd(front, base), LastLine(front, line)).Failure?
    ensures
      var front := GenMatchCases(b, cs, i, allowTail, base, line).value;
      GenMatchCases(b, cs, n, allowTail, base, line) == Failure(GenMatchCase(b, cs[i].expr, allowTail, CasesEnd(front, base), LastLine(front, line)).error)
    decreases n
  {
    if n > i + 1 {
      GenMatchCasesFails(b, cs, i, n - 1, allowTail, base, line);
    }
  }
}
