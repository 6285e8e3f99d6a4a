/**
 * Properties of the code the compiler generates (module CodeGenSpec, which the CodeGen
 * class is proved to emit): what save code does to the operand stack, the shapes of the
 * refutable patterns, and where tail calls can appear.
 */
module CodeGenFacts {
  import opened Wrappers
  import opened Ast
  import opened Resolver
  import opened Instructions
  import opened CodeGenSpec
  import opened Text
  import opened Seqs

  /* ------------------------------------------------------------ save code and the stack */

  lemma NetOne(i: Instr<nat>)
    ensures Net([i]) == StackDelta(i.op)
  {
    assert [i][..0] == [];
  }

  /** savePattern's code takes exactly the one value on top of the stack, and nothing else. */
  lemma {:induction false} SavePatternNet(b: Bindings, p: Pattern, ns: Option<seq<string>>, line: int)
    requires SavePattern(b, p, ns, line).Success?
    decreases p, 1
    ensures Net(SavePattern(b, p, ns, line).value) == Some(-1)
  {
    var code := SavePattern(b, p, ns, line).value;
    match p
    case WildcardPattern =>
      NetOne(Instr(line, Pop));
    case ConstPattern(_) =>
      NetOne(code[0]);
    case NamePattern(_, _, _) =>
      var save := [Instr(line, SaveLocal(b.declarations[p.id]))];
      NetOne(save[0]);
      if ns.Some? {
        var publish := [Instr(line, Duplicate), Instr(line, SaveNamespace(p.value, ns.value))];
        NetOne(publish[0]);
        NetOne(publish[1]);
        assert publish == [publish[0]] + [publish[1]];
        NetAppend([publish[0]], [publish[1]]);
        NetAppend(publish, save);
      } else {
        assert code == save;
      }
    case ListPattern(inners) =>
      var items := SaveListItems(b, inners, |inners|, ns, line).value;
      SaveListItemsNet(b, inners, |inners|, ns, line);
      var last := Instr(line, Decompose(EmptyListName, 0));
      NetOne(last);
      NetAppend(items, [last]);
    case TypePattern(name, params) =>
      var fields := SaveAll(b, params, |params|, ns, line).value;
      SaveAllNet(b, params, |params|, ns, line);
      NetOne(Instr(line, Decompose(name, |params|)));
      NetAppend([Instr(line, Decompose(name, |params|))], fields);
  }

  /** Each list element: the split of a cons cell (one value in, two out) then the element's save code. */
  lemma {:induction false} SaveListItemsNet(b: Bindings, ps: seq<Pattern>, n: nat, ns: Option<seq<string>>, line: int)
    requires n <= |ps| && SaveListItems(b, ps, n, ns, line).Success?
    decreases ps, n
    ensures Net(SaveListItems(b, ps, n, ns, line).value) == Some(0)
  {
    if n > 0 {
      var front := SaveListItems(b, ps, n - 1, ns, line).value;
      var split := [Instr(line, Decompose(ListConsName, 2))];
      var item := SavePattern(b, ps[n - 1], ns, line).value;
      SaveListItemsNet(b, ps, n - 1, ns, line);
      SavePatternNet(b, ps[n - 1], ns, line);
      NetOne(split[0]);
      NetAppend(front, split);
      NetAppend(front + split, item);
    }
  }

  /** Saving the first `n` fields takes exactly `n` values. */
  lemma {:induction false} SaveAllNet(b: Bindings, ps: seq<Pattern>, n: nat, ns: Option<seq<string>>, line: int)
    requires n <= |ps| && SaveAll(b, ps, n, ns, line).Success?
    decreases ps, n
    ensures Net(SaveAll(b, ps, n, ns, line).value) == Some(-(n as int))
  {
    if n > 0 {
      SaveAllNet(b, ps, n - 1, ns, line);
      SavePatternNet(b, ps[n - 1], ns, line);
      NetAppend(SaveAll(b, ps, n - 1, ns, line).value, SavePattern(b, ps[n - 1], ns, line).value);
    }
  }

  /**
   * The save code of each kind of pattern: a wildcard pops, a constant matches, a name is
   * saved locally (and first published when a namespace is given), a list ends by checking
   * the empty list, and a type starts by decomposing into its fields.
   */
  lemma SavePatternShapes(b: Bindings, p: Pattern, ns: Option<seq<string>>, line: int)
    ensures p.WildcardPattern? ==> SavePattern(b, p, ns, line) == Success([Instr(line, Pop)])
    ensures p.ConstPattern? && ConvertPattern(p).Success? ==>
      SavePattern(b, p, ns, line) == Success([Instr(line, Match(ConvertPattern(p).value))])
    ensures p.NamePattern? && p.id !in b.declarations ==>
      SavePattern(b, p, ns, line) == Failure(CodeGenException("Unknown declaration: " + p.value, Some(p.line)))
    ensures p.NamePattern? && p.id in b.declarations && ns.None? ==>
      SavePattern(b, p, ns, line) == Success([Instr(line, SaveLocal(b.declarations[p.id]))])
    ensures p.NamePattern? && p.id in b.declarations && ns.Some? ==>
      SavePattern(b, p, ns, line) == Success([Instr(line, Duplicate), Instr(line, SaveNamespace(p.value, ns.value)),
                                              Instr(line, SaveLocal(b.declarations[p.id]))])
    ensures p.ListPattern? && SavePattern(b, p, ns, line).Success? ==>
      var code := SavePattern(b, p, ns, line).value;
      |code| > 0 && code[|code| - 1] == Instr(line, Decompose(EmptyListName, 0))
    ensures p.TypePattern? && SavePattern(b, p, ns, line).Success? ==>
      var code := SavePattern(b, p, ns, line).value;
      |code| > 0 && code[0] == Instr(line, Decompose(p.name, |p.params|))
  {
    if p.NamePattern? && p.id in b.declarations && ns.None? {
      var save: seq<Instr<nat>> := [Instr(line, SaveLocal(b.declarations[p.id]))];
      assert [] + save == save;
    } else if p.NamePattern? && p.id in b.declarations {
      var publish: seq<Instr<nat>> := [Instr(line, Duplicate), Instr(line, SaveNamespace(p.value, ns.value))];
      assert publish + [Instr(line, SaveLocal(b.declarations[p.id]))] ==
        [Instr(line, Duplicate), Instr(line, SaveNamespace(p.value, ns.value)), Instr(line, SaveLocal(b.declarations[p.id]))];
    }
  }

  /**
   * The save code of a list pattern read head first: for each element, split off the head
   * with `Decompose(::, 2)` and save it; then check that what is left is `Empty`. The first
   * element that cannot be saved gives the exception.
   */
  function SaveListHeadFirst(b: Bindings, ps: seq<Pattern>, ns: Option<seq<string>>, line: int): Result<seq<Instr<nat>>, CodeGenError>
    decreases |ps|
  {
    if ps == [] then Success([Instr(line, Decompose(EmptyListName, 0))])
    else
      var head :- SavePattern(b, ps[0], ns, line);
      var rest :- SaveListHeadFirst(b, ps[1..], ns, line);
      Success([Instr(line, Decompose(ListConsName, 2))] + head + rest)
  }

  /** A list pattern `[p1 .. pn]` saves as n times (`Decompose(::, 2)`, save pi), then `Decompose(Empty, 0)`. */
  lemma SaveListShape(b: Bindings, ps: seq<Pattern>, ns: Option<seq<string>>, line: int)
    ensures SavePattern(b, ListPattern(ps), ns, line) == SaveListHeadFirst(b, ps, ns, line)
  {
    SaveListItemsThenRest(b, ps, |ps|, ns, line);
    assert ps[|ps|..] == [];
  }

  /** The save code of the first `n` elements, followed by the head-first code of the others, is the whole list's. */
  lemma {:induction false} SaveListItemsThenRest(b: Bindings, ps: seq<Pattern>, n: nat, ns: Option<seq<string>>, line: int)
    requires n <= |ps|
    decreases n
    ensures SaveListHeadFirst(b, ps, ns, line) ==
      (match SaveListItems(b, ps, n, ns, line)
       case Failure(e) => Failure(e)
       case Success(front) =>
         match SaveListHeadFirst(b, ps[n..], ns, line)
         case Failure(e) => Failure(e)
         case Success(rest) => Success(front + rest))
  {
    if n == 0 {
      assert ps[0..] == ps;
      if SaveListHeadFirst(b, ps, ns, line).Success? {
        var whole := SaveListHeadFirst(b, ps, ns, line).value;
        assert [] + whole == whole;
      }
    } else {
      SaveListItemsThenRest(b, ps, n - 1, ns, line);
      var tail := ps[n - 1..];
      assert tail[0] == ps[n - 1] && tail[1..] == ps[n..];
      match SaveListItems(b, ps, n - 1, ns, line)
      case Failure(_) =>
      case Success(front) =>
        match SavePattern(b, ps[n - 1], ns, line)
        case Failure(_) =>
        case Success(item) =>
          match SaveListHeadFirst(b, ps[n..], ns, line)
          case Failure(_) =>
          case Success(rest) =>
            var cons := [Instr(line, Decompose(ListConsName, 2))];
            assert front + (cons + item + rest) == front + cons + item + rest;
    }
  }

  /* ------------------------------------------------------------ convertPattern */

  /** The cons-cell chain a list of element patterns stands for, ending in the empty list. */
  function ConsChain(ms: seq<MatchPattern>): (r: MatchPattern)
    ensures ms == [] ==> r == EmptyListMatch
  {
    if ms == [] then EmptyListMatch else TypeMatch(ListConsName, [ms[0], ConsChain(ms[1..])])
  }

  /** The first `n` patterns convert exactly when each does, and then each to its own conversion. */
  lemma {:induction false} ConvertAllEach(ps: seq<Pattern>, n: nat)
    requires n <= |ps|
    decreases n
    ensures ConvertAll(ps, n).Success? <==> forall j :: 0 <= j < n ==> ConvertPattern(ps[j]).Success?
    ensures ConvertAll(ps, n).Success? ==> forall j :: 0 <= j < n ==> ConvertAll(ps, n).value[j] == ConvertPattern(ps[j]).value
  {
    if n > 0 {
      ConvertAllEach(ps, n - 1);
    }
  }

  /**
   * A list pattern converts, from element `i` on, exactly when every element does, into
   * the cons chain of the elements' conversions in order.
   */
  lemma {:induction false} ConvertListChain(ps: seq<Pattern>, i: nat)
    requires i <= |ps|
    decreases |ps| - i
    ensures ConvertListFrom(ps, i).Success? <==> forall j :: i <= j < |ps| ==> ConvertPattern(ps[j]).Success?
    ensures ConvertListFrom(ps, i).Success? && ConvertAll(ps, |ps|).Success? ==>
      ConvertListFrom(ps, i).value == ConsChain(ConvertAll(ps, |ps|).value[i..])
  {
    ConvertAllEach(ps, |ps|);
    if i < |ps| {
      ConvertListChain(ps, i + 1);
      if ConvertListFrom(ps, i).Success? && ConvertAll(ps, |ps|).Success? {
        var ms := ConvertAll(ps, |ps|).value;
        assert ms[i..][0] == ms[i] && ms[i..][1..] == ms[i + 1..];
      }
    }
  }

  /**
   * convertPattern: a name or a wildcard matches anything, a list pattern of n elements
   * becomes n nested cons patterns ending in the empty list, and a type pattern keeps its
   * name and converts its parameters in order.
   */
  lemma ConvertPatternShapes(p: Pattern)
    ensures p.NamePattern? || p.WildcardPattern? ==> ConvertPattern(p) == Success(AlwaysMatch)
    ensures p.ListPattern? && ConvertPattern(p).Success? ==>
      ConvertAll(p.inners, |p.inners|).Success? &&
      ConvertPattern(p).value == ConsChain(ConvertAll(p.inners, |p.inners|).value)
    ensures p.TypePattern? ==>
      (ConvertPattern(p).Success? <==> forall j :: 0 <= j < |p.params| ==> ConvertPattern(p.params[j]).Success?)
    ensures p.TypePattern? && ConvertPattern(p).Success? ==>
      var c := ConvertPattern(p).value;
      c.TypeMatch? && c.typename == p.name && |c.inners| == |p.params| &&
      forall j :: 0 <= j < |p.params| ==> c.inners[j] == ConvertPattern(p.params[j]).value
  {
    match p
    case ListPattern(inners) =>
      ConvertListChain(inners, 0);
      ConvertAllEach(inners, |inners|);
      assert ConvertAll(inners, |inners|).Success? ==> ConvertAll(inners, |inners|).value[0..] == ConvertAll(inners, |inners|).value;
    case TypePattern(_, params) =>
      ConvertAllEach(params, |params|);
    case _ =>
  }

  /* ------------------------------------------------------------ lambdas */

  /**
   * genLambda emits one instruction: a LoadFunction whose parameter count is the number of
   * parameters, and whose code starts by saving the parameters in declared order, which
   * takes exactly that many values (the arguments) from the stack, then runs the body.
   */
  lemma LambdaShape(b: Bindings, e: Expr, line: int)
    requires e.LambdaExpr? && GenLambda(b, e, line).Success?
    ensures var code := GenLambda(b, e, line).value.code;
      && |code| == 1 && code[0].line == line && code[0].op.LoadFunction?
      && code[0].op.paramCount == |e.params|
      && SaveAll(b, e.params, |e.params|, None, 0).Success?
      && var prologue := SaveAll(b, e.params, |e.params|, None, 0).value;
         && Net(prologue) == Some(-|e.params|)
         && |prologue| <= |code[0].op.body| && code[0].op.body[..|prologue|] == prologue
  {
    SaveAllNet(b, e.params, |e.params|, None, 0);
  }

  /* ------------------------------------------------------------ tail calls */

  /**
   * A call whose callee is the `.` expression is a self tail call: where tails are
   * allowed it becomes the arguments followed by `TailCall`, elsewhere it raises.
   */
  lemma TailCallPosition(b: Bindings, e: Expr, base: nat, line: int)
    requires e.CallExpr? && !IsMatch(e) && e.callable.DotExpr?
    requires GenArgs(b, e.args, |e.args|, base, line).Success?
    ensures GenCall(b, e, false, base, line) == Failure(CodeGenException("Tail call not allowed here", Some(e.line)))
    ensures var args := GenArgs(b, e.args, |e.args|, base, line).value;
      GenCall(b, e, true, base, line) == Success(Emitted(args.code + [Instr(args.line, TailCall(|e.args|))], args.line))
  {
  }

  /* ------------------------------------------------------------ where tail calls appear */

  /** No instruction of `code` itself is a tail call (a LoadFunction's body is other code). */
  predicate NoTailCall<L>(code: seq<Instr<L>>) {
    forall i :: 0 <= i < |code| ==> !code[i].op.TailCall?
  }

  /** No instruction of `code` creates a namespace or a type: only declarations do. */
  predicate NoDeclOp<L>(code: seq<Instr<L>>) {
    forall i :: 0 <= i < |code| ==> !code[i].op.MkNamespace? && !code[i].op.MkType?
  }

  /**
   * Code out of tail position: no instruction is a tail call or creates a namespace or
   * type, which only a namespace declaration's own code does.
   */
  predicate PlainCode<L>(code: seq<Instr<L>>) {
    forall i :: 0 <= i < |code| ==> !code[i].op.TailCall? && !code[i].op.MkNamespace? && !code[i].op.MkType?
  }

  /** Every instruction of `code` has a fixed stack effect: no jumps, calls or failures. */
  predicate Straight<L>(code: seq<Instr<L>>) {
    forall i :: 0 <= i < |code| ==> StackDelta(code[i].op).Some?
  }

  /** Code has a net stack effect exactly when it is straight. */
  lemma {:induction false} NetStraight<L>(code: seq<Instr<L>>)
    ensures Net(code).Some? <==> Straight(code)
  {
    if code != [] {
      var front := code[..|code| - 1];
      NetStraight(front);
      assert forall i :: 0 <= i < |front| ==> front[i] == code[i];
    }
  }

  /** Pattern save code is straight, so it holds no tail call; nor does it create a namespace or type. */
  lemma SavePatternNoTail(b: Bindings, p: Pattern, ns: Option<seq<string>>, line: int)
    requires SavePattern(b, p, ns, line).Success?
    ensures Straight(SavePattern(b, p, ns, line).value)
    ensures PlainCode(SavePattern(b, p, ns, line).value)
  {
    SavePatternNet(b, p, ns, line);
    NetStraight(SavePattern(b, p, ns, line).value);
    SavePatternNoDecl(b, p, ns, line);
  }

  /** Pattern save code pops, matches, decomposes and saves: it creates no namespace or type. */
  lemma {:induction false} SavePatternNoDecl(b: Bindings, p: Pattern, ns: Option<seq<string>>, line: int)
    requires SavePattern(b, p, ns, line).Success?
    decreases p, 1
    ensures NoDeclOp(SavePattern(b, p, ns, line).value)
  {
    match p
    case ListPattern(inners) => SaveListItemsNoDecl(b, inners, |inners|, ns, line);
    case TypePattern(_, params) => SaveAllNoDecl(b, params, |params|, ns, line);
    case _ =>
  }

  lemma {:induction false} SaveListItemsNoDecl(b: Bindings, ps: seq<Pattern>, n: nat, ns: Option<seq<string>>, line: int)
    requires n <= |ps| && SaveListItems(b, ps, n, ns, line).Success?
    decreases ps, n
    ensures NoDeclOp(SaveListItems(b, ps, n, ns, line).value)
  {
    if n > 0 {
      SaveListItemsNoDecl(b, ps, n - 1, ns, line);
      SavePatternNoDecl(b, ps[n - 1], ns, line);
    }
  }

  lemma {:induction false} SaveAllNoDecl(b: Bindings, ps: seq<Pattern>, n: nat, ns: Option<seq<string>>, line: int)
    requires n <= |ps| && SaveAll(b, ps, n, ns, line).Success?
    decreases ps, n
    ensures NoDeclOp(SaveAll(b, ps, n, ns, line).value)
  {
    if n > 0 {
      SaveAllNoDecl(b, ps, n - 1, ns, line);
      SavePatternNoDecl(b, ps[n - 1], ns, line);
    }
  }

  /**
   * Out of tail position nothing emits a tail call: a `.` call raises there, every
   * argument, list element, binding right-hand side and scrutinee is generated with tails
   * refused, and a lambda's body is code of its own.
   */
  lemma {:induction false} GenExprNoTail(b: Bindings, e: Expr, base: nat, line: int)
    requires GenExpr(b, e, false, base, line).Success?
    decreases e, 2
    ensures PlainCode(GenExpr(b, e, false, base, line).value.code)
  {
    match e
    case ListExpr(_, _) => GenListItemsNoTail(b, e.elements, |e.elements|, base, e.Line());
    case CallExpr(_, _, _) => GenCallNoTail(b, e, base, e.Line());
    case _ =>
  }

  lemma {:induction false} GenBlockNoTail(b: Bindings, blk: Block, base: nat, line: int)
    requires GenBlock(b, blk, false, base, line).Success?
    decreases blk, 2
    ensures PlainCode(GenBlock(b, blk, false, base, line).value.code)
  {
    var bs := GenBindings(b, blk.bindings, |blk.bindings|, base, line).value;
    GenBindingsNoTail(b, blk.bindings, |blk.bindings|, base, line);
    GenExprNoTail(b, blk.expr, base + |bs.code|, bs.line);
  }

  lemma {:induction false} GenBindingsNoTail(b: Bindings, bs: seq<Binding>, n: nat, base: nat, line: int)
    requires n <= |bs| && GenBindings(b, bs, n, base, line).Success?
    decreases bs, n
    ensures PlainCode(GenBindings(b, bs, n, base, line).value.code)
  {
    if n > 0 {
      var front := GenBindings(b, bs, n - 1, base, line).value;
      GenBindingsNoTail(b, bs, n - 1, base, line);
      GenLocalBindingNoTail(b, bs[n - 1], base + |front.code|, front.line);
    }
  }

  lemma {:induction false} GenLocalBindingNoTail(b: Bindings, bnd: Binding, base: nat, line: int)
    requires GenLocalBinding(b, bnd, base, line).Success?
    decreases bnd, 1
    ensures PlainCode(GenLocalBinding(b, bnd, base, line).value.code)
  {
    var rhs := GenBlock(b, bnd.block, false, base, line).value;
    GenBlockNoTail(b, bnd.block, base, line);
    SavePatternNoTail(b, bnd.pattern, None, rhs.line);
  }

  lemma {:induction false} GenListItemsNoTail(b: Bindings, els: seq<Block>, n: nat, base: nat, line: int)
    requires n <= |els| && GenListItems(b, els, n, base, line).Success?
    decreases els, n
    ensures PlainCode(GenListItems(b, els, n, base, line).value.code)
  {
    if n > 0 {
      var front := GenListItems(b, els, n - 1, base, line).value;
      GenListItemsNoTail(b, els, n - 1, base, line);
      GenBlockNoTail(b, els[|els| - n], base + |front.code|, front.line);
    }
  }

  lemma {:induction false} GenCallNoTail(b: Bindings, e: Expr, base: nat, line: int)
    requires e.CallExpr? && GenCall(b, e, false, base, line).Success?
    decreases e, 1
    ensures PlainCode(GenCall(b, e, false, base, line).value.code)
  {
    if IsMatch(e) {
      GenMatchNoTail(b, e, base, line);
    } else {
      var args := GenArgs(b, e.args, |e.args|, base, line).value;
      GenArgsNoTail(b, e.args, |e.args|, base, line);
      GenExprNoTail(b, e.callable, base + |args.code|, args.line);
    }
  }

  lemma {:induction false} GenArgsNoTail(b: Bindings, args: seq<Expr>, n: nat, base: nat, line: int)
    requires n <= |args| && GenArgs(b, args, n, base, line).Success?
    decreases args, n
    ensures PlainCode(GenArgs(b, args, n, base, line).value.code)
  {
    if n > 0 {
      var front := GenArgs(b, args, n - 1, base, line).value;
      GenArgsNoTail(b, args, n - 1, base, line);
      GenExprNoTail(b, args[|args| - n], base + |front.code|, front.line);
    }
  }

  lemma {:induction false} GenMatchNoTail(b: Bindings, e: Expr, base: nat, line: int)
    requires e.CallExpr? && GenMatch(b, e, false, base, line).Success?
    decreases e, 0
    ensures PlainCode(GenMatch(b, e, false, base, line).value.code)
  {
    var scrut := GenExpr(b, e.args[0], false, base, line).value;
    GenExprNoTail(b, e.args[0], base, line);
    GenMatchListNoTail(b, e.args[1], base, scrut);
  }

  lemma {:induction false} GenMatchListNoTail(b: Bindings, list: Expr, base: nat, scrut: Emitted)
    requires PlainCode(scrut.code) && GenMatchList(b, list, false, base, scrut).Success?
    decreases list, 0
    ensures PlainCode(GenMatchList(b, list, false, base, scrut).value.code)
  {
    assert GenMatchList(b, list, false, base, scrut) == GenMatchBody(b, list.elements, false, base, scrut);
    GenMatchBodyNoTail(b, list.elements, base, scrut);
  }

  lemma {:induction false} GenMatchBodyNoTail(b: Bindings, cs: seq<Block>, base: nat, scrut: Emitted)
    requires MatchCases(cs) && PlainCode(scrut.code) && GenMatchBody(b, cs, false, base, scrut).Success?
    decreases cs, |cs| + 1
    ensures PlainCode(GenMatchBody(b, cs, false, base, scrut).value.code)
  {
    var casesBase := base + |scrut.code| + 2 * |cs| + 1;
    var pats := CasePatterns(cs, |cs|).value;
    var bodies := GenMatchCases(b, cs, |cs|, false, casesBase, scrut.line).value;
    var table := MatchTable(pats, Starts(bodies), scrut.line);
    var fail := [Instr(scrut.line, Fail("no match"))];
    var end := MatchEnd(bodies, casesBase, scrut.line);
    assert GenMatchBody(b, cs, false, base, scrut).value.code == scrut.code + table + fail + end;
    GenMatchCasesNoTail(b, cs, |cs|, casesBase, scrut.line);
    MatchTableNoTail(pats, Starts(bodies), scrut.line);
    CaseBlocksNoTail(bodies, CasesEnd(bodies, casesBase));
    PlainJoin(scrut.code, table);
    PlainJoin(scrut.code + table, fail);
    PlainJoin(CaseBlocks(bodies, CasesEnd(bodies, casesBase)), [Instr(LastLine(bodies, scrut.line), NoOp)]);
    PlainJoin(scrut.code + table + fail, end);
  }

  lemma PlainJoin<L>(a: seq<Instr<L>>, c: seq<Instr<L>>)
    requires PlainCode(a) && PlainCode(c)
    ensures PlainCode(a + c)
  {
    assert forall i :: |a| <= i < |a + c| ==> (a + c)[i] == c[i - |a|];
  }

  lemma {:induction false} GenMatchCasesNoTail(b: Bindings, cs: seq<Block>, n: nat, base: nat, line: int)
    requires n <= |cs| && MatchCases(cs) && GenMatchCases(b, cs, n, false, base, line).Success?
    decreases cs, n
    ensures forall i :: 0 <= i < n ==> PlainCode(GenMatchCases(b, cs, n, false, base, line).value[i].body)
  {
    if n > 0 {
      var front := GenMatchCases(b, cs, n - 1, false, base, line).value;
      GenMatchCasesNoTail(b, cs, n - 1, base, line);
      GenMatchCaseNoTail(b, cs[n - 1].expr, CasesEnd(front, base), LastLine(front, line));
    }
  }

  lemma {:induction false} GenMatchCaseNoTail(b: Bindings, lam: Expr, base: nat, line: int)
    requires lam.LambdaExpr? && |lam.params| == 1 && GenMatchCase(b, lam, false, base, line).Success?
    decreases lam, 0
    ensures PlainCode(GenMatchCase(b, lam, false, base, line).value.code)
  {
    var save := SavePattern(b, lam.params[0], None, line).value;
    SavePatternNoTail(b, lam.params[0], None, line);
    GenBlockNoTail(b, lam.block, base + |save|, line);
  }

  lemma {:induction false} MatchTableNoTail(pats: seq<MatchPattern>, starts: seq<nat>, line: int)
    requires |pats| <= |starts|
    ensures PlainCode(MatchTable(pats, starts, line))
  {
    if pats != [] {
      MatchTableNoTail(pats[..|pats| - 1], starts, line);
    }
  }

  lemma {:induction false} CaseBlocksNoTail(cases: seq<CaseCode>, end: nat)
    requires forall i :: 0 <= i < |cases| ==> PlainCode(cases[i].body)
    ensures PlainCode(CaseBlocks(cases, end))
  {
    if cases != [] {
      CaseBlocksNoTail(cases[..|cases| - 1], end);
    }
  }

  /** Declarations: every member binding is generated out of tail position. */
  lemma {:induction false} GenNamespaceNoTail(b: Bindings, ns: NamespaceDecl, parent: seq<string>, base: nat, line: int)
    requires GenNamespace(b, ns, parent, base, line).Success?
    decreases ns, 2
    ensures NoTailCall(GenNamespace(b, ns, parent, base, line).value.code)
  {
    var name := parent + ns.name;
    var head: seq<Instr<nat>> := if |name| > 0 then [Instr(line, MkNamespace(name, ns.name[0], ns.public))] else [];
    GenDeclsNoTail(b, ns.decls, |ns.decls|, name, base + |head|, line);
  }

  lemma {:induction false} GenDeclsNoTail(b: Bindings, ds: seq<Decl>, n: nat, parent: seq<string>, base: nat, line: int)
    requires n <= |ds| && GenDecls(b, ds, n, parent, base, line).Success?
    decreases ds, n
    ensures NoTailCall(GenDecls(b, ds, n, parent, base, line).value.code)
  {
    if n > 0 {
      var front := GenDecls(b, ds, n - 1, parent, base, line).value;
      GenDeclsNoTail(b, ds, n - 1, parent, base, line);
      GenDeclNoTail(b, ds[n - 1], parent, base + |front.code|, front.line);
    }
  }

  lemma {:induction false} GenDeclNoTail(b: Bindings, d: Decl, parent: seq<string>, base: nat, line: int)
    requires GenDecl(b, d, parent, base, line).Success?
    decreases d, 1
    ensures NoTailCall(GenDecl(b, d, parent, base, line).value.code)
  {
    match d
    case NamespaceD(ns) => GenNamespaceNoTail(b, ns, parent, base, line);
    case TypeDecl(name, _, _, ns) =>
      if ns.Some? {
        GenNamespaceNoTail(b, ns.value, parent, base + 1, line);
      }
    case BindingD(bnd) =>
      var rhs := GenBlock(b, bnd.block, false, base, line).value;
      GenBlockNoTail(b, bnd.block, base, line);
      SavePatternNoTail(b, bnd.pattern, if bnd.public then Some(parent) else None, rhs.line);
  }

  /** A whole program's code holds no tail call: only code inside functions can. */
  lemma GenerateNoTail(b: Bindings, ast: Program)
    requires Generate(b, ast).Success?
    ensures NoTailCall(Generate(b, ast).value)
  {
    var imports := GenImports(ast.imports, |ast.imports|, 0).value;
    var root := GenNamespace(b, ast.root, [], |imports|, 0).value;
    GenNamespaceNoTail(b, ast.root, [], |imports|, 0);
    assert NoTailCall(imports) by {
      forall i | 0 <= i < |imports|
        ensures !imports[i].op.TailCall?
      {
        ImportsAreImports(ast.imports, |ast.imports|, 0, i);
      }
    }
    if ast.expr.Some? {
      GenCallNoTail(b, ast.expr.value, |imports| + |root.code|, root.line);
    }
  }

  /* ------------------------------------------------------------ what declarations create */

  /** The `MkNamespace` and `MkType` instructions of `code`, in order. */
  function Creations<L>(code: seq<Instr<L>>): seq<Op<L>> {
    if code == [] then []
    else
      var op := code[|code| - 1].op;
      Creations(code[..|code| - 1]) + (if op.MkNamespace? || op.MkType? then [op] else [])
  }

  lemma {:induction false} CreationsAppend<L>(a: seq<Instr<L>>, c: seq<Instr<L>>)
    ensures Creations(a + c) == Creations(a) + Creations(c)
  {
    if c == [] {
      assert a + c == a;
    } else {
      assert (a + c)[..|a + c| - 1] == a + c[..|c| - 1];
      CreationsAppend(a, c[..|c| - 1]);
    }
  }

  /** Code creates nothing exactly when none of its instructions is a creation. */
  lemma {:induction false} CreationsEmpty<L>(code: seq<Instr<L>>)
    ensures Creations(code) == [] <==> NoDeclOp(code)
  {
    if code != [] {
      var front := code[..|code| - 1];
      CreationsEmpty(front);
      assert forall i :: 0 <= i < |front| ==> front[i] == code[i];
    }
  }

  /**
   * The namespaces and types a declaration tree creates, read off the tree itself: a
   * named namespace under its full name, then its members in order; a type under its
   * enclosing namespace, then the type's own namespace; a binding creates nothing.
   */
  function NamespaceCreates(ns: NamespaceDecl, parent: seq<string>): seq<Op<nat>>
    decreases ns, 2
  {
    (if |ns.name| > 0 then [MkNamespace(parent + ns.name, ns.name[0], ns.public)] else [])
      + DeclsCreates(ns.decls, |ns.decls|, parent + ns.name)
  }

  function DeclsCreates(ds: seq<Decl>, n: nat, parent: seq<string>): seq<Op<nat>>
    requires n <= |ds|
    decreases ds, n
  {
    if n == 0 then [] else DeclsCreates(ds, n - 1, parent) + DeclCreates(ds[n - 1], parent)
  }

  function DeclCreates(d: Decl, parent: seq<string>): seq<Op<nat>>
    decreases d, 1
  {
    match d
    case NamespaceD(ns) => NamespaceCreates(ns, parent)
    case TypeDecl(name, _, cases, ns) =>
      var own := if |name| > 0 then [MkType(name[|name| - 1], parent + name[..|name| - 1], cases)] else [];
      own + TypeNamespaceCreates(ns, parent)
    case BindingD(_) => []
  }

  function TypeNamespaceCreates(ns: Option<NamespaceDecl>, parent: seq<string>): seq<Op<nat>>
    decreases ns, 1
  {
    if ns.None? then [] else NamespaceCreates(ns.value, parent)
  }

  /** genNamespace creates exactly the namespaces and types of the declaration tree, in order. */
  lemma {:induction false} GenNamespaceCreates(b: Bindings, ns: NamespaceDecl, parent: seq<string>, base: nat, line: int)
    requires GenNamespace(b, ns, parent, base, line).Success?
    decreases ns, 2
    ensures Creations(GenNamespace(b, ns, parent, base, line).value.code) == NamespaceCreates(ns, parent)
  {
    var name := parent + ns.name;
    var head: seq<Instr<nat>> := if |name| > 0 then [Instr(line, MkNamespace(name, ns.name[0], ns.public))] else [];
    var members := GenDecls(b, ns.decls, |ns.decls|, name, base + |head|, line).value;
    GenDeclsCreates(b, ns.decls, |ns.decls|, name, base + |head|, line);
    CreationsAppend(head, members.code);
    if |name| > 0 {
      assert head[..0] == [];
    }
  }

  lemma {:induction false} GenDeclsCreates(b: Bindings, ds: seq<Decl>, n: nat, parent: seq<string>, base: nat, line: int)
    requires n <= |ds| && GenDecls(b, ds, n, parent, base, line).Success?
    decreases ds, n
    ensures Creations(GenDecls(b, ds, n, parent, base, line).value.code) == DeclsCreates(ds, n, parent)
  {
    if n > 0 {
      var front := GenDecls(b, ds, n - 1, parent, base, line).value;
      var last := GenDecl(b, ds[n - 1], parent, base + |front.code|, front.line).value;
      calc {
        Creations(GenDecls(b, ds, n, parent, base, line).value.code);
        Creations(front.code + last.code);
        { CreationsAppend(front.code, last.code); }
        Creations(front.code) + Creations(last.code);
        { GenDeclsCreates(b, ds, n - 1, parent, base, line);
          GenDeclCreates(b, ds[n - 1], parent, base + |front.code|, front.line); }
        DeclsCreates(ds, n - 1, parent) + DeclCreates(ds[n - 1], parent);
      }
    }
  }

  lemma {:induction false} GenDeclCreates(b: Bindings, d: Decl, parent: seq<string>, base: nat, line: int)
    requires GenDecl(b, d, parent, base, line).Success?
    decreases d, 1
    ensures Creations(GenDecl(b, d, parent, base, line).value.code) == DeclCreates(d, parent)
  {
    match d
    case NamespaceD(ns) => GenNamespaceCreates(b, ns, parent, base, line);
    case TypeDecl(name, _, cases, ns) =>
      var mk: seq<Instr<nat>> := [Instr(line, MkType(name[|name| - 1], parent + name[..|name| - 1], cases))];
      var members := GenTypeNamespace(b, ns, parent, base + 1, line).value;
      calc {
        Creations(GenDecl(b, d, parent, base, line).value.code);
        Creations(mk + members.code);
        { CreationsAppend(mk, members.code); assert mk[..0] == []; }
        [mk[0].op] + Creations(members.code);
        { if ns.Some? { GenNamespaceCreates(b, ns.value, parent, base + 1, line); } }
        DeclCreates(d, parent);
      }
    case BindingD(bnd) =>
      var rhs := GenBlock(b, bnd.block, false, base, line).value;
      var save := SavePattern(b, bnd.pattern, if bnd.public then Some(parent) else None, rhs.line).value;
      assert GenDecl(b, d, parent, base, line).value.code == rhs.code + save;
      GenBlockNoTail(b, bnd.block, base, line);
      SavePatternNoTail(b, bnd.pattern, if bnd.public then Some(parent) else None, rhs.line);
      CreationsEmpty(rhs.code + save);
  }

  /**
   * A whole program creates exactly the namespaces and types of its root declaration
   * tree, in order: imports and the trailing call create none.
   */
  lemma GenerateCreates(b: Bindings, ast: Program)
    requires Generate(b, ast).Success?
    ensures Creations(Generate(b, ast).value) == NamespaceCreates(ast.root, [])
  {
    var imports := GenImports(ast.imports, |ast.imports|, 0).value;
    var root := GenNamespace(b, ast.root, [], |imports|, 0).value;
    GenNamespaceCreates(b, ast.root, [], |imports|, 0);
    assert NoDeclOp(imports) by {
      forall i | 0 <= i < |imports|
        ensures !imports[i].op.MkNamespace? && !imports[i].op.MkType?
      {
        ImportsAreImports(ast.imports, |ast.imports|, 0, i);
      }
    }
    CreationsEmpty(imports);
    CreationsAppend(imports, root.code);
    if ast.expr.Some? {
      var main := GenCall(b, ast.expr.value, false, |imports| + |root.code|, root.line).value;
      GenCallNoTail(b, ast.expr.value, |imports| + |root.code|, root.line);
      CreationsEmpty(main.code);
      CreationsAppend(imports + root.code, main.code);
    }
  }

  /** Every instruction of the import code is an import. */
  lemma {:induction false} ImportsAreImports(imps: seq<ImportStmt>, n: nat, line: int, i: nat)
    requires n <= |imps| && GenImports(imps, n, line).Success? && i < n
    ensures var op := GenImports(imps, n, line).value[i].op; op.ImportAll? || op.ImportNames?
  {
    if i < n - 1 {
      ImportsAreImports(imps, n - 1, line, i);
    }
  }

  /* ------------------------------------------------------------ match layout */

  /** Test `i` of the match table: keep a copy of the scrutinee, and jump to case `i` if it matches. */
  lemma {:induction false} MatchTableAt(pats: seq<MatchPattern>, starts: seq<nat>, line: int, i: nat)
    requires |pats| <= |starts| && i < |pats|
    ensures MatchTable(pats, starts, line)[2 * i] == Instr(line, Duplicate)
    ensures MatchTable(pats, starts, line)[2 * i + 1] == Instr(line, JumpIfMatch(pats[i], starts[i]))
  {
    if i < |pats| - 1 {
      MatchTableAt(pats[..|pats| - 1], starts, line, i);
    }
  }

  /** Cases laid out one after another from `cb`: each starts where the ones before it end. */
  ghost predicate Contiguous(cases: seq<CaseCode>, cb: nat)
    decreases |cases|
  {
    cases == [] ||
    (Contiguous(cases[..|cases| - 1], cb) && cases[|cases| - 1].start == CasesEnd(cases[..|cases| - 1], cb))
  }

  /** The blocks of the first cases are a prefix of the blocks of all of them. */
  lemma {:induction false} CaseBlocksPrefix(cases: seq<CaseCode>, i: nat, end: nat)
    requires i <= |cases|
    decreases |cases|
    ensures CaseBlocks(cases[..i], end) <= CaseBlocks(cases, end)
  {
    if i < |cases| {
      var front := cases[..|cases| - 1];
      CaseBlocksPrefix(front, i, end);
      assert front[..i] == cases[..i];
    } else {
      assert cases[..i] == cases;
    }
  }

  /** Contiguous cases from `cb` fill CaseBlocks up to where the code after them starts. */
  lemma {:induction false} CaseBlocksLength(cases: seq<CaseCode>, cb: nat, end: nat)
    requires Contiguous(cases, cb)
    decreases |cases|
    ensures cb <= CasesEnd(cases, cb)
    ensures |CaseBlocks(cases, end)| == CasesEnd(cases, cb) - cb
  {
    if cases != [] {
      CaseBlocksLength(cases[..|cases| - 1], cb, end);
    }
  }

  /** A prefix of contiguous cases is contiguous, and case `i` starts where the first `i` end. */
  lemma {:induction false} ContiguousPrefix(cases: seq<CaseCode>, cb: nat, i: nat)
    requires Contiguous(cases, cb) && i <= |cases|
    decreases |cases|
    ensures Contiguous(cases[..i], cb)
    ensures i < |cases| ==> CasesEnd(cases[..i], cb) == cases[i].start
  {
    if i == |cases| {
      assert cases[..i] == cases;
    } else if i < |cases| - 1 {
      var front := cases[..|cases| - 1];
      ContiguousPrefix(front, cb, i);
      assert front[..i] == cases[..i] && front[i] == cases[i];
    }
  }

  /** Contiguous cases fill CaseBlocks, each at its own start and followed by its jump to `end`. */
  lemma CaseBlocksAt(cases: seq<CaseCode>, cb: nat, end: nat, i: nat)
    requires Contiguous(cases, cb) && i < |cases|
    ensures cb <= cases[i].start && cases[i].start - cb + |cases[i].body| < |CaseBlocks(cases, end)|
    ensures CaseBlocks(cases, end)[cases[i].start - cb..cases[i].start - cb + |cases[i].body|] == cases[i].body
    ensures CaseBlocks(cases, end)[cases[i].start - cb + |cases[i].body|] == Instr(cases[i].line, Jump(end))
  {
    var before := CaseBlocks(cases[..i], end);
    var body := cases[i].body;
    var rest := body + [Instr(cases[i].line, Jump(end))];
    assert cb <= cases[i].start && |before| == cases[i].start - cb by {
      ContiguousPrefix(cases, cb, i);
      CaseBlocksLength(cases[..i], cb, end);
    }
    assert before + rest <= CaseBlocks(cases, end) by {
      var upto := cases[..i + 1];
      CaseBlocksPrefix(cases, i + 1, end);
      assert upto[..i] == cases[..i] && upto[i] == cases[i];
      assert CaseBlocks(upto, end) == before + rest;
    }
    Landing(before, body, Instr(cases[i].line, Jump(end)), CaseBlocks(cases, end));
  }

  /** What follows a prefix `before` inside `big`, when `before + body + [after]` is a prefix of it. */
  lemma Landing<T>(before: seq<T>, body: seq<T>, after: T, big: seq<T>)
    requires before + (body + [after]) <= big
    ensures |before| + |body| < |big|
    ensures big[|before|..|before| + |body|] == body
    ensures big[|before| + |body|] == after
  {
    var a := before + (body + [after]);
    assert big[..|a|] == a;
    assert a[|before|..|before| + |body|] == body;
  }

  /** The first `i` of the cases generated are the cases generated from the first `i` blocks. */
  lemma {:induction false} GenMatchCasesPrefix(b: Bindings, cs: seq<Block>, n: nat, i: nat, allowTail: bool, base: nat, line: int)
    requires i <= n <= |cs| && MatchCases(cs) && GenMatchCases(b, cs, n, allowTail, base, line).Success?
    decreases n
    ensures GenMatchCases(b, cs, i, allowTail, base, line).Success?
    ensures GenMatchCases(b, cs, n, allowTail, base, line).value[..i] == GenMatchCases(b, cs, i, allowTail, base, line).value
  {
    var all := GenMatchCases(b, cs, n, allowTail, base, line).value;
    if i < n {
      GenMatchCasesPrefix(b, cs, n - 1, i, allowTail, base, line);
      assert all[..n - 1][..i] == all[..i];
    } else {
      assert all[..i] == all;
    }
  }

  /**
   * The cases are laid out one after another from `base`, and case `i` is the code of the
   * `i`-th block's lambda generated at its own start.
   */
  lemma {:induction false} GenMatchCasesLayout(b: Bindings, cs: seq<Block>, n: nat, allowTail: bool, base: nat, line: int)
    requires n <= |cs| && MatchCases(cs) && GenMatchCases(b, cs, n, allowTail, base, line).Success?
    decreases n
    ensures Contiguous(GenMatchCases(b, cs, n, allowTail, base, line).value, base)
  {
    if n > 0 {
      var all := GenMatchCases(b, cs, n, allowTail, base, line).value;
      var front := GenMatchCases(b, cs, n - 1, allowTail, base, line).value;
      GenMatchCasesLayout(b, cs, n - 1, allowTail, base, line);
      assert all[..n - 1] == front;
    }
  }

  /** Case `i` as generated: the lambda's code at the case's own start, after the cases before it. */
  lemma GenMatchCaseIs(b: Bindings, cs: seq<Block>, i: nat, allowTail: bool, base: nat, line: int)
    requires i < |cs| && MatchCases(cs) && GenMatchCases(b, cs, |cs|, allowTail, base, line).Success?
    ensures GenMatchCases(b, cs, i, allowTail, base, line).Success?
    ensures var before := GenMatchCases(b, cs, i, allowTail, base, line).value;
      var c := GenMatchCases(b, cs, |cs|, allowTail, base, line).value[i];
      && c.start == CasesEnd(before, base)
      && GenMatchCase(b, cs[i].expr, allowTail, c.start, LastLine(before, line)) == Success(Emitted(c.body, c.line))
  {
    GenMatchCasesPrefix(b, cs, |cs|, i + 1, allowTail, base, line);
    GenMatchCasesPrefix(b, cs, i + 1, i, allowTail, base, line);
    var all := GenMatchCases(b, cs, |cs|, allowTail, base, line).value;
    assert all[i] == all[..i + 1][i];
  }

  /**
   * genMatch raises for a call with other than two arguments, and, after the scrutinee,
   * when the second argument is not a list, when a case is not a lambda, and when a case
   * lambda has other than one parameter.
   */
  lemma MatchErrors(b: Bindings, e: Expr, allowTail: bool, base: nat, line: int)
    requires e.CallExpr?
    ensures |e.args| != 2 ==>
      (GenMatch(b, e, allowTail, base, line) ==
        Failure(CodeGenException("Incorrect number of args in match: " + NatToString(|e.args|), Some(e.line))))
    ensures |e.args| == 2 && GenExpr(b, e.args[0], false, base, line).Failure? ==>
      (GenMatch(b, e, allowTail, base, line) == Failure(GenExpr(b, e.args[0], false, base, line).error))
    ensures |e.args| == 2 && GenExpr(b, e.args[0], false, base, line).Success? && !e.args[1].ListExpr? ==>
      (GenMatch(b, e, allowTail, base, line) ==
        Failure(CodeGenException("match requires a list as second argument", Some(e.args[1].Line()))))
    ensures |e.args| == 2 && GenMatch(b, e, allowTail, base, line).Success? ==>
      e.args[1].ListExpr? && MatchCases(e.args[1].elements)
  {
    if |e.args| == 2 {
      assert GenMatch(b, e, allowTail, base, line) == GenMatchArgs(b, e.args, allowTail, base, line);
      var scrut := GenExpr(b, e.args[0], false, base, line);
      if scrut.Success? {
        assert GenMatchArgs(b, e.args, allowTail, base, line) == GenMatchList(b, e.args[1], allowTail, base, scrut.value);
      }
    }
  }

  /** The first case that is not a lambda is the one reported, at its own line. */
  lemma {:induction false} FirstNonLambda(cs: seq<Block>, n: nat, i: nat)
    requires i < n <= |cs|
    requires forall j :: 0 <= j < i ==> cs[j].expr.LambdaExpr?
    requires !cs[i].expr.LambdaExpr?
    decreases n
    ensures CheckLambdas(cs, n) == Raised(CodeGenException("every case in a match must be a lambda", Some(cs[i].expr.Line())))
  {
    if n > i + 1 {
      FirstNonLambda(cs, n - 1, i);
    } else {
      assert CheckLambdas(cs, i).Pass?;
    }
  }

  /** Among lambdas, the first one without exactly one parameter is the one reported. */
  lemma {:induction false} FirstBadArity(cs: seq<Block>, n: nat, i: nat)
    requires i < n <= |cs|
    requires forall j :: 0 <= j < n ==> cs[j].expr.LambdaExpr?
    requires forall j :: 0 <= j < i ==> |cs[j].expr.params| == 1
    requires |cs[i].expr.params| != 1
    decreases n
    ensures CheckArity(cs, n) ==
      Raised(CodeGenException("every case in a match must have exactly one parameter", Some(cs[i].expr.line)))
  {
    if n > i + 1 {
      FirstBadArity(cs, n - 1, i);
    } else {
      assert CheckArity(cs, i).Pass?;
    }
  }

  lemma SliceIn<T>(p: seq<T>, q: seq<T>, r: seq<T>, x: nat, y: nat)
    requires x <= y <= |q|
    ensures (p + q + r)[|p| + x..|p| + y] == q[x..y]
  {
  }

  lemma IndexIn<T>(p: seq<T>, q: seq<T>, r: seq<T>, x: nat)
    requires x < |q|
    ensures (p + q + r)[|p| + x] == q[x]
  {
  }

  /** The code of a match body with these parts. */
  function MatchCode(scrut: seq<Instr<nat>>, pats: seq<MatchPattern>, bodies: seq<CaseCode>, cb: nat, line: int): seq<Instr<nat>>
    requires |pats| <= |bodies|
  {
    scrut + MatchTable(pats, Starts(bodies), line) + [Instr(line, Fail("no match"))] + MatchEnd(bodies, cb, line)
  }

  /** The match layout: the scrutinee's code, the tests, `Fail`, the cases, and the final `NoOp`. */
  lemma MatchPartsHead(scrut: seq<Instr<nat>>, pats: seq<MatchPattern>, bodies: seq<CaseCode>, cb: nat, line: int)
    requires |pats| == |bodies| && Contiguous(bodies, cb)
    ensures var code := MatchCode(scrut, pats, bodies, cb, line);
      && |code| == |scrut| + 2 * |pats| + 1 + (CasesEnd(bodies, cb) - cb) + 1
      && code[..|scrut|] == scrut
      && code[|scrut| + 2 * |pats|].op == Fail("no match")
      && code[|code| - 1].op == NoOp
  {
    var end := CasesEnd(bodies, cb);
    CaseBlocksLength(bodies, cb, end);
    var head := scrut + MatchTable(pats, Starts(bodies), line);
    var code := MatchCode(scrut, pats, bodies, cb, line);
    assert code == head + [Instr(line, Fail("no match"))] + MatchEnd(bodies, cb, line);
    IndexIn(head, [Instr(line, Fail("no match"))], MatchEnd(bodies, cb, line), 0);
    assert code[..|scrut|] == scrut;
  }

  /** Test `i` of the match: keep a copy of the scrutinee, and jump to case `i` if it matches. */
  lemma MatchPartsTest(scrut: seq<Instr<nat>>, pats: seq<MatchPattern>, bodies: seq<CaseCode>, cb: nat, line: int, i: nat)
    requires |pats| == |bodies| && i < |pats|
    ensures var code := MatchCode(scrut, pats, bodies, cb, line);
      && |scrut| + 2 * i + 1 < |code|
      && code[|scrut| + 2 * i].op == Duplicate
      && code[|scrut| + 2 * i + 1].op == JumpIfMatch(pats[i], bodies[i].start)
  {
    var table := MatchTable(pats, Starts(bodies), line);
    var rest := [Instr(line, Fail("no match"))] + MatchEnd(bodies, cb, line);
    assert MatchCode(scrut, pats, bodies, cb, line) == scrut + table + rest;
    MatchTableAt(pats, Starts(bodies), line, i);
    IndexIn(scrut, table, rest, 2 * i);
    IndexIn(scrut, table, rest, 2 * i + 1);
  }

  /**
   * Case `i`'s code is placed at its own start when the cases are laid out from just after
   * the `Fail`, and it is followed by a jump to the final `NoOp`.
   */
  lemma MatchPartsCase(scrut: seq<Instr<nat>>, pats: seq<MatchPattern>, bodies: seq<CaseCode>, cb: nat, base: nat, line: int, i: nat)
    requires |pats| == |bodies| && Contiguous(bodies, cb) && cb == base + |scrut| + 2 * |pats| + 1 && i < |pats|
    ensures var code := MatchCode(scrut, pats, bodies, cb, line);
      && cb <= bodies[i].start
      && bodies[i].start - base + |bodies[i].body| < |code| - 1
      && code[bodies[i].start - base..bodies[i].start - base + |bodies[i].body|] == bodies[i].body
      && code[bodies[i].start - base + |bodies[i].body|].op == Jump(base + |code| - 1)
  {
    var end := CasesEnd(bodies, cb);
    var blocks := CaseBlocks(bodies, end);
    var noop := [Instr(LastLine(bodies, line), NoOp)];
    var head := scrut + MatchTable(pats, Starts(bodies), line) + [Instr(line, Fail("no match"))];
    var code := MatchCode(scrut, pats, bodies, cb, line);
    CaseBlocksLength(bodies, cb, end);
    CaseBlocksAt(bodies, cb, end, i);
    assert code == head + blocks + noop;
    assert |head| == cb - base;
    var off := bodies[i].start - cb;
    SliceIn(head, blocks, noop, off, off + |bodies[i].body|);
    IndexIn(head, blocks, noop, off + |bodies[i].body|);
  }

  /** A match that generates is its scrutinee, then the match body over the case list. */
  lemma MatchIsBody(b: Bindings, e: Expr, allowTail: bool, base: nat, line: int)
    requires e.CallExpr? && GenMatch(b, e, allowTail, base, line).Success?
    ensures |e.args| == 2 && e.args[1].ListExpr? && MatchCases(e.args[1].elements)
    ensures GenExpr(b, e.args[0], false, base, line).Success?
    ensures GenMatch(b, e, allowTail, base, line) ==
      GenMatchBody(b, e.args[1].elements, allowTail, base, GenExpr(b, e.args[0], false, base, line).value)
  {
    MatchErrors(b, e, allowTail, base, line);
    var scrut := GenExpr(b, e.args[0], false, base, line).value;
    assert GenMatch(b, e, allowTail, base, line) == GenMatchArgs(b, e.args, allowTail, base, line);
    assert GenMatchArgs(b, e.args, allowTail, base, line) == GenMatchList(b, e.args[1], allowTail, base, scrut);
  }

  /**
   * `code` is a match body over the cases `cs`: the scrutinee's code, the tests, `Fail`,
   * and the cases generated one after another from just after the `Fail`.
   */
  ghost predicate MatchBodyLaidOut(b: Bindings, cs: seq<Block>, allowTail: bool, base: nat, scrut: Emitted, code: seq<Instr<nat>>)
    requires MatchCases(cs)
  {
    var cb := base + |scrut.code| + 2 * |cs| + 1;
    var pats := CasePatterns(cs, |cs|);
    var bodies := GenMatchCases(b, cs, |cs|, allowTail, cb, scrut.line);
    && pats.Success? && bodies.Success?
    && code == MatchCode(scrut.code, pats.value, bodies.value, cb, scrut.line)
  }

  /** A match body that generates is laid out as MatchCode says. */
  lemma MatchBodyIsCode(b: Bindings, cs: seq<Block>, allowTail: bool, base: nat, scrut: Emitted)
    requires MatchCases(cs) && GenMatchBody(b, cs, allowTail, base, scrut).Success?
    ensures MatchBodyLaidOut(b, cs, allowTail, base, scrut, GenMatchBody(b, cs, allowTail, base, scrut).value.code)
  {
  }

  /* ------------------------------------------------------------ argument and element order */

  /** Expressions generated one after another in the order given, none in tail position. */
  function GenInOrder(b: Bindings, es: seq<Expr>, base: nat, line: int): Result<Emitted, CodeGenError>
    decreases |es|
  {
    if es == [] then Success(Emitted([], line))
    else
      var first :- GenExpr(b, es[0], false, base, line);
      var rest :- GenInOrder(b, es[1..], base + |first.code|, first.line);
      Success(Emitted(first.code + rest.code, rest.line))
  }

  /** The code so far followed by one more expression's. */
  function ThenExpr(b: Bindings, prev: Result<Emitted, CodeGenError>, x: Expr, base: nat): Result<Emitted, CodeGenError> {
    var p :- prev;
    var y :- GenExpr(b, x, false, base + |p.code|, p.line);
    Success(Emitted(p.code + y.code, y.line))
  }

  lemma {:induction false} GenInOrderSnoc(b: Bindings, es: seq<Expr>, x: Expr, base: nat, line: int)
    decreases |es|
    ensures GenInOrder(b, es + [x], base, line) == ThenExpr(b, GenInOrder(b, es, base, line), x, base)
  {
    if es == [] {
      assert [] + [x] == [x] && [x][1..] == [];
      var y := GenExpr(b, x, false, base, line);
      if y.Success? {
        assert y.value.code + [] == [] + y.value.code;
      }
    } else {
      assert (es + [x])[0] == es[0] && (es + [x])[1..] == es[1..] + [x];
      var first := GenExpr(b, es[0], false, base, line);
      if first.Success? {
        var f := first.value;
        GenInOrderSnoc(b, es[1..], x, base + |f.code|, f.line);
        var rest := GenInOrder(b, es[1..], base + |f.code|, f.line);
        if rest.Success? {
          var y := GenExpr(b, x, false, base + |f.code| + |rest.value.code|, rest.value.line);
          if y.Success? {
            assert f.code + (rest.value.code + y.value.code) == (f.code + rest.value.code) + y.value.code;
          }
        }
      }
    }
  }

  /**
   * genCall emits the arguments from the last one back: the code for the last `n`
   * arguments is that of those arguments generated in reverse order.
   */
  lemma {:induction false} ArgsInReverse(b: Bindings, args: seq<Expr>, n: nat, base: nat, line: int)
    requires n <= |args|
    decreases n
    ensures GenArgs(b, args, n, base, line) == GenInOrder(b, Reverse(args[|args| - n..]), base, line)
  {
    var k := |args| - n;
    if n == 0 {
      assert args[k..] == [];
    } else {
      ArgsInReverse(b, args, n - 1, base, line);
      ArgsStep(b, args, n, base, line);
      ReverseSuffix(args, k);
      GenInOrderSnoc(b, Reverse(args[k + 1..]), args[k], base, line);
    }
  }

  /** One more argument from the end: the code so far, then that argument's. */
  lemma ArgsStep(b: Bindings, args: seq<Expr>, n: nat, base: nat, line: int)
    requires 0 < n <= |args|
    ensures GenArgs(b, args, n, base, line) == ThenExpr(b, GenArgs(b, args, n - 1, base, line), args[|args| - n], base)
  {
  }

  /**
   * The calling convention of a call that is not a match and not a tail call: the
   * arguments in reverse syntactic order, then the callee, then `Call` of the argument count.
   */
  lemma CallConvention(b: Bindings, e: Expr, allowTail: bool, base: nat, line: int)
    requires e.CallExpr? && !IsMatch(e) && !e.callable.DotExpr?
    ensures GenCall(b, e, allowTail, base, line) ==
      (var args :- GenInOrder(b, Reverse(e.args), base, line);
       var callee :- GenExpr(b, e.callable, false, base + |args.code|, args.line);
       Success(Emitted(args.code + callee.code + [Instr(callee.line, Call(|e.args|))], callee.line)))
  {
    ArgsInReverse(b, e.args, |e.args|, base, line);
    assert e.args[0..] == e.args;
  }

  /** List elements generated one after another in the order given, each followed by a call of `::`. */
  function ListInOrder(b: Bindings, bs: seq<Block>, base: nat, acc: Emitted): Result<Emitted, CodeGenError>
    decreases |bs|
  {
    if bs == [] then Success(acc)
    else
      var el :- GenBlock(b, bs[0], false, base + |acc.code|, acc.line);
      ListInOrder(b, bs[1..], base, Emitted(acc.code + el.code + ConsCall(el.line), el.line))
  }

  /** The code so far followed by one more element and its cons call. */
  function ThenElement(b: Bindings, prev: Result<Emitted, CodeGenError>, x: Block, base: nat): Result<Emitted, CodeGenError> {
    var p :- prev;
    var el :- GenBlock(b, x, false, base + |p.code|, p.line);
    Success(Emitted(p.code + el.code + ConsCall(el.line), el.line))
  }

  lemma {:induction false} ListInOrderSnoc(b: Bindings, bs: seq<Block>, x: Block, base: nat, acc: Emitted)
    decreases |bs|
    ensures ListInOrder(b, bs + [x], base, acc) == ThenElement(b, ListInOrder(b, bs, base, acc), x, base)
  {
    if bs == [] {
      assert [] + [x] == [x] && [x][1..] == [];
    } else {
      assert (bs + [x])[0] == bs[0] && (bs + [x])[1..] == bs[1..] + [x];
      var el := GenBlock(b, bs[0], false, base + |acc.code|, acc.line);
      if el.Success? {
        ListInOrderSnoc(b, bs[1..], x, base, Emitted(acc.code + el.value.code + ConsCall(el.value.line), el.value.line));
      }
    }
  }

  /**
   * genList: `Empty`, then each element followed by its cons call, from the last element
   * back to the first.
   */
  lemma {:induction false} ListInReverse(b: Bindings, els: seq<Block>, n: nat, base: nat, line: int)
    requires n <= |els|
    decreases n
    ensures GenListItems(b, els, n, base, line) ==
      ListInOrder(b, Reverse(els[|els| - n..]), base, Emitted([Instr(line, LoadName(EmptyListName))], line))
  {
    var k := |els| - n;
    if n == 0 {
      assert els[k..] == [];
    } else {
      ListInReverse(b, els, n - 1, base, line);
      ListStep(b, els, n, base, line);
      ReverseSuffix(els, k);
      ListInOrderSnoc(b, Reverse(els[k + 1..]), els[k], base, Emitted([Instr(line, LoadName(EmptyListName))], line));
    }
  }

  /** One more element from the end: the code so far, then that element and its cons call. */
  lemma ListStep(b: Bindings, els: seq<Block>, n: nat, base: nat, line: int)
    requires 0 < n <= |els|
    ensures GenListItems(b, els, n, base, line) == ThenElement(b, GenListItems(b, els, n - 1, base, line), els[|els| - n], base)
  {
  }

  /** The code of a list succeeds with the starting code as its first part, and grows with each element. */
  lemma {:induction false} ListInOrderGrows(b: Bindings, bs: seq<Block>, base: nat, acc: Emitted)
    requires ListInOrder(b, bs, base, acc).Success?
    decreases |bs|
    ensures acc.code <= ListInOrder(b, bs, base, acc).value.code
    ensures bs != [] ==> var code := ListInOrder(b, bs, base, acc).value.code;
      |code| >= |acc.code| + 2 && code[|code| - 2..] == ConsCall(ListInOrder(b, bs, base, acc).value.line)
  {
    if bs != [] {
      var el := GenBlock(b, bs[0], false, base + |acc.code|, acc.line).value;
      var acc' := Emitted(acc.code + el.code + ConsCall(el.line), el.line);
      ListInOrderGrows(b, bs[1..], base, acc');
      if bs[1..] == [] {
        assert ListInOrder(b, bs[1..], base, acc') == Success(acc');
        assert acc'.code[|acc'.code| - 2..] == ConsCall(el.line);
      }
    }
  }

  /**
   * genList's code starts by loading `Empty`; for no elements that is all of it, and
   * otherwise it ends with the cons call of the first element.
   */
  lemma ListShape(b: Bindings, e: Expr, base: nat, line: int)
    requires e.ListExpr? && GenList(b, e, base, line).Success?
    ensures var code := GenList(b, e, base, line).value.code;
      && |code| > 0 && code[0] == Instr(line, LoadName(EmptyListName))
      && (e.elements == [] ==> code == [Instr(line, LoadName(EmptyListName))])
      && (e.elements != [] ==> |code| >= 3 && code[|code| - 2..] == ConsCall(GenList(b, e, base, line).value.line))
  {
    ListInReverse(b, e.elements, |e.elements|, base, line);
    assert e.elements[0..] == e.elements;
    ListInOrderGrows(b, Reverse(e.elements), base, Emitted([Instr(line, LoadName(EmptyListName))], line));
  }
}
