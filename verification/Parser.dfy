/** SimpleParser's expression parser: the next token, a stack of operators and a stack of operands. */
module Parser {
  import opened Trees
  import opened Parsing
  import opened Completeness
  import opened Soundness

  // An entry of the operator stack: its tokens, the arguments of a call or a subscript, its place in
  // the table.
  datatype StackOp = StackOp(tokens: seq<Token>, args: seq<Tree>, prio: nat, assoc: Assoc)

  datatype State = BeforeExpr | AfterExpr | Finished | Failed

  // What a parsing method reports: the value it read up to the next token, or that token as unexpected.
  predicate Reports<T(==)>(r: Outcome<T>, ok: bool, next: nat, value: T) {
    if ok then r == Done(value, next) else r == Unexpected(next)
  }

  function Prepended(es: seq<Tree>, r: Outcome<seq<Tree>>): Outcome<seq<Tree>> {
    if r.Done? then Done(es + r.value, r.next) else r
  }

  function Deeper(n: nat, r: Outcome<nat>): Outcome<nat> {
    if r.Done? then Done(n + r.value, r.next) else r
  }

  function Waiting(f: Frame): StackOp
    requires FrameOk(f)
  {
    if f.Left? then StackOp([Op(f.op)], [], InfixPrio(f.op), InfixAssoc(f.op))
    else StackOp([Op(f.op)], [], PREFIX, RightToLeft)
  }

  // The operator stack and the operand stack of the waiting operators.
  function Operators(F: seq<Frame>): (r: seq<StackOp>)
    requires FramesOk(F)
    ensures |r| == |F|
  {
    if F == [] then [] else Operators(F[..|F| - 1]) + [Waiting(F[|F| - 1])]
  }

  function Lefts(F: seq<Frame>): seq<Tree> {
    if F == [] then []
    else Lefts(F[..|F| - 1]) + if F[|F| - 1].Left? then [Strip(F[|F| - 1].left)] else []
  }

  predicate IsPostfix(op: StackOp) {
    && op.prio == POSTFIX && op.assoc == LeftToRight && |op.tokens| >= 2
    && (op.tokens[0] == GroupStart || (op.tokens[0] == SubscriptStart && |op.tokens| == 2 && |op.args| == 1))
  }

  // The node a call or a subscript becomes.
  function Applied(op: StackOp, operand: Tree): Tree
    requires IsPostfix(op)
  {
    if op.tokens[0] == GroupStart then Call(operand, op.args) else Index(operand, op.args[0])
  }

  // The stacks before an operand, and after the operand cur. A call or a subscript stays on the
  // operator stack until the next operator comes.
  predicate AtOperand(operators: seq<StackOp>, operands: seq<Tree>, F: seq<Frame>) {
    FramesOk(F) && operators == Operators(F) && operands == Lefts(F)
  }

  predicate Settled(operators: seq<StackOp>, operands: seq<Tree>, F: seq<Frame>, cur: Tree) {
    FramesOk(F) && operators == Operators(F) && operands == Lefts(F) + [Strip(cur)]
  }

  predicate Pending(operators: seq<StackOp>, operands: seq<Tree>, F: seq<Frame>, cur: Tree) {
    && FramesOk(F) && operators != [] && operands != []
    && var op, e := operators[|operators| - 1], operands[|operands| - 1];
    && IsPostfix(op) && Applied(op, e) == Strip(cur)
    && operators == Operators(F) + [op] && operands == Lefts(F) + [e]
  }

  predicate PastOperand(operators: seq<StackOp>, operands: seq<Tree>, F: seq<Frame>, cur: Tree) {
    Settled(operators, operands, F, cur) || Pending(operators, operands, F, cur)
  }

  // The priorities and associativities an operator can come with; zero stands for the end.
  predicate InTable(prio: nat, assoc: Assoc) {
    prio <= POSTFIX && (assoc.RightToLeft? <==> prio in {1, PREFIX})
  }

  // The innermost frame on the stacks.
  lemma FrameTop(F: seq<Frame>, cur: Tree)
    requires F != [] && FramesOk(F)
    ensures var f, G := F[|F| - 1], F[..|F| - 1];
            && FramesOk(G)
            && Operators(F) == Operators(G) + [Waiting(f)]
            && Lefts(F) == Lefts(G) + (if f.Left? then [Strip(f.left)] else [])
            && Strip(Join(f, cur)) ==
                 (if f.Left? then Binary(f.op, Strip(f.left), Strip(cur)) else Unary(f.op, Strip(cur)))
  {
  }

  lemma FramePush(F: seq<Frame>, f: Frame)
    requires FramesOk(F) && FrameOk(f)
    ensures FramesOk(F + [f]) && Operators(F + [f]) == Operators(F) + [Waiting(f)]
    ensures Lefts(F + [f]) == Lefts(F) + (if f.Left? then [Strip(f.left)] else [])
  {
    assert (F + [f])[..|F|] == F;
  }

  lemma {:induction false} ReduceToEnd(F: seq<Frame>, cur: Tree)
    requires FramesOk(F)
    ensures Reduce(F, cur, 0, LeftToRight) == ([], Plug(F, cur))
    decreases F
  {
    if F != [] {
      ReduceToEnd(F[..|F| - 1], Join(F[|F| - 1], cur));
    }
  }

  lemma ReduceNothing(F: seq<Frame>, cur: Tree)
    requires FramesOk(F)
    ensures Reduce(F, cur, POSTFIX, LeftToRight) == (F, cur)
  {
  }

  lemma {:induction false} StripSnoc(es: seq<Tree>, e: Tree)
    ensures StripAll(es + [e]) == StripAll(es) + [Strip(e)]
    decreases es
  {
    if es == [] {
      assert [] + [e] == [e];
      assert [e][1..] == [];
    } else {
      StripSnoc(es[1..], e);
      assert (es + [e])[1..] == es[1..] + [e];
    }
  }

  // An entry the parser pushes for an operator that waits.
  predicate IsWaiting(op: StackOp) {
    && |op.tokens| == 1 && op.tokens[0].Op?
    && (if op.prio == PREFIX then IsPrefix(op.tokens[0].op) && op.assoc == RightToLeft
        else IsInfix(op.tokens[0].op) && op.assoc == InfixAssoc(op.tokens[0].op))
  }

  lemma WaitingFacts(f: Frame)
    requires FrameOk(f)
    ensures var op := Waiting(f);
            && op.prio == FramePrio(f) && op.prio < POSTFIX && op.prio > 0 && IsWaiting(op)
            && (op.assoc.RightToLeft? <==> op.prio in {1, PREFIX})
  {
  }

  lemma TopWaiting(F: seq<Frame>)
    requires F != [] && FramesOk(F)
    ensures var op, f := Operators(F)[|F| - 1], F[|F| - 1];
            && op == Waiting(f) && op.prio == FramePrio(f) && op.prio < POSTFIX && op.prio > 0 && IsWaiting(op)
            && (op.assoc.RightToLeft? <==> op.prio in {1, PREFIX})
  {
    hide Waiting, FramePrio, IsWaiting, FrameOk, InfixPrio, IsInfix;
    WaitingFacts(F[|F| - 1]);
    var G, op := Operators(F[..|F| - 1]), Waiting(F[|F| - 1]);
    assert Operators(F) == G + [op];
    hide Operators;
    assert (G + [op])[|G|] == op;
  }

  // Reading on with a list, and where reading it stops.
  lemma ListGoesOn(ts: seq<Token>, start: nat, vs: seq<Tree>, i: nat, t: Tree, j: nat)
    requires start <= |ts| && i <= |ts| && List(ts, start) == Prepended(vs, List(ts, i)) && Parse(ts, i) == Done(t, j)
    ensures if Peek(ts, j).Separator? then j < |ts| && List(ts, start) == Prepended(vs + [t], List(ts, j + 1))
            else List(ts, start) == Done(vs + [t], j)
  {
    hide Parse;
    if Peek(ts, j).Separator? {
      var r := List(ts, j + 1);
      if r.Done? {
        assert vs + ([t] + r.value) == vs + [t] + r.value;
      }
    }
  }

  lemma ListFails(ts: seq<Token>, start: nat, vs: seq<Tree>, i: nat, at: nat)
    requires start <= |ts| && i <= |ts| && List(ts, start) == Prepended(vs, List(ts, i)) &&
      Parse(ts, i) == Unexpected(at)
    ensures List(ts, start) == Unexpected(at)
  {
    hide Parse;
  }

  // An expression and the token that closes it.
  function Enclosed(ts: seq<Token>, i: nat, end: Token): (r: Outcome<Tree>)
    requires i <= |ts| && end != FileEnd
    ensures r.Done? ==> i < r.next <= |ts|
  {
    match Parse(ts, i)
    case Unexpected(at) => Unexpected(at)
    case Done(e, j) => if Peek(ts, j) == end then Done(e, j + 1) else Unexpected(j)
  }

  lemma SizesGoOn(ts: seq<Token>, i: nat)
    requires i < |ts| && Peek(ts, i).SubscriptStart?
    ensures var r := Enclosed(ts, i + 1, SubscriptEnd);
            Sizes(ts, i) == if r.Done? then Prepended([r.value], Sizes(ts, r.next)) else Unexpected(r.at)
  {
    hide Parse;
  }

  lemma AddSize(ts: seq<Token>, start: nat, vs: seq<Tree>, i: nat)
    requires start <= |ts| && i < |ts| && Sizes(ts, start) == Prepended(vs, Sizes(ts, i)) && Peek(ts, i).SubscriptStart?
    ensures var r := Enclosed(ts, i + 1, SubscriptEnd);
            Sizes(ts, start) == if r.Done? then Prepended(vs + [r.value], Sizes(ts, r.next)) else Unexpected(r.at)
  {
    hide Sizes, Enclosed;
    SizesGoOn(ts, i);
    var r := Enclosed(ts, i + 1, SubscriptEnd);
    if r.Done? && Sizes(ts, r.next).Done? {
      assert vs + ([r.value] + Sizes(ts, r.next).value) == vs + [r.value] + Sizes(ts, r.next).value;
    }
  }

  lemma NoMoreSizes(ts: seq<Token>, start: nat, vs: seq<Tree>, i: nat)
    requires start <= |ts| && i <= |ts| && Sizes(ts, start) == Prepended(vs, Sizes(ts, i)) &&
      !Peek(ts, i).SubscriptStart?
    ensures Sizes(ts, start) == Done(vs, i)
  {
    hide Parse;
    SizesNone(ts, i);
    assert vs + [] == vs;
  }

  // What the machine of the expression does at each token, in terms of what the parser's methods report.
  lemma BeforeNew(ts: seq<Token>, i: nat, F: seq<Frame>)
    requires i < |ts| && FramesOk(F) && Peek(ts, i) == New
    ensures var r := Alloc(ts, i + 1);
            Before(ts, i, F) == if r.Done? then After(ts, r.next, F, r.value) else Unexpected(r.at)
  {
    hide Alloc, After, Parse;
  }

  lemma BeforeGroup(ts: seq<Token>, i: nat, F: seq<Frame>)
    requires i < |ts| && FramesOk(F) && Peek(ts, i) == GroupStart
    ensures var r := Enclosed(ts, i + 1, GroupEnd);
            Before(ts, i, F) == if r.Done? then After(ts, r.next, F, Group(r.value)) else Unexpected(r.at)
  {
    hide Alloc, After, Parse;
  }

  predicate Starts(tok: Token) {
    tok.Name? || tok.Literal? || tok.New? || tok.GroupStart? || (tok.Op? && IsPrefix(tok.op))
  }

  lemma BeforeOther(ts: seq<Token>, i: nat, F: seq<Frame>)
    requires i <= |ts| && FramesOk(F) && !Starts(Peek(ts, i))
    ensures Before(ts, i, F) == Unexpected(i)
  {
    hide Alloc, After, Parse;
  }

  lemma AfterCall(ts: seq<Token>, i: nat, F: seq<Frame>, cur: Tree)
    requires i < |ts| && FramesOk(F) && Peek(ts, i) == GroupStart
    ensures var r := Items(ts, i + 1, GroupEnd);
            After(ts, i, F, cur) == if r.Done? then After(ts, r.next, F, Call(cur, r.value)) else Unexpected(r.at)
  {
    hide Items, Before, Parse;
  }

  lemma AfterIndex(ts: seq<Token>, i: nat, F: seq<Frame>, cur: Tree)
    requires i < |ts| && FramesOk(F) && Peek(ts, i) == SubscriptStart
    ensures var r := Enclosed(ts, i + 1, SubscriptEnd);
            After(ts, i, F, cur) == if r.Done? then After(ts, r.next, F, Index(cur, r.value)) else Unexpected(r.at)
  {
    hide Items, Before, Parse;
  }

  method CreateBinaryExpr(operands: seq<Tree>, op: StackOp) returns (rest: seq<Tree>, expr: Tree)
    requires |operands| >= 2 && |op.tokens| == 1 && op.tokens[0].Op?
    ensures rest == operands[..|operands| - 2]
    ensures expr == Binary(op.tokens[0].op, operands[|operands| - 2], operands[|operands| - 1])
  {
    rest := operands;
    var right := rest[|rest| - 1];
    rest := rest[..|rest| - 1];
    var left := rest[|rest| - 1];
    rest := rest[..|rest| - 1];
    expr := Binary(op.tokens[0].op, left, right);
  }

  method CreateUnaryExpr(operands: seq<Tree>, op: StackOp) returns (rest: seq<Tree>, expr: Tree)
    requires |operands| >= 1 && |op.tokens| == 1 && op.tokens[0].Op?
    ensures rest == operands[..|operands| - 1] && expr == Unary(op.tokens[0].op, operands[|operands| - 1])
  {
    rest := operands[..|operands| - 1];
    expr := Unary(op.tokens[0].op, operands[|operands| - 1]);
  }

  // The switch of ReduceExpr: the node of the operator on top and the operands left under it.
  method CreateExpr(operands: seq<Tree>, op: StackOp) returns (rest: seq<Tree>, expr: Tree)
    requires IsPostfix(op) || IsWaiting(op)
    requires |operands| >= if IsWaiting(op) && op.prio != PREFIX then 2 else 1
    ensures !IsWaiting(op) ==> rest == operands[..|operands| - 1] && expr == Applied(op, operands[|operands| - 1])
    ensures IsWaiting(op) && op.prio == PREFIX ==>
      rest == operands[..|operands| - 1] && expr == Unary(op.tokens[0].op, operands[|operands| - 1])
    ensures IsWaiting(op) && op.prio != PREFIX ==>
      && rest == operands[..|operands| - 2]
      && expr == Binary(op.tokens[0].op, operands[|operands| - 2], operands[|operands| - 1])
  {
    match op.tokens[0]
    case Op(Sub) =>
      if op.assoc == LeftToRight {
        rest, expr := CreateBinaryExpr(operands, op);
      } else {
        rest, expr := CreateUnaryExpr(operands, op);
      }
    case Op(Not) => rest, expr := CreateUnaryExpr(operands, op);
    case Op(PreInc) => rest, expr := CreateUnaryExpr(operands, op);
    case Op(PreDec) => rest, expr := CreateUnaryExpr(operands, op);
    case Op(_) => rest, expr := CreateBinaryExpr(operands, op);
    case SubscriptStart =>
      rest, expr := operands[..|operands| - 1], Index(operands[|operands| - 1], op.args[0]);
    case GroupStart =>
      rest, expr := operands[..|operands| - 1], Call(operands[|operands| - 1], op.args);
  }

  // The operator on top of the stacks.
  lemma Top(ops: seq<StackOp>, exprs: seq<Tree>, G: seq<Frame>, c: Tree)
    requires ops != [] && PastOperand(ops, exprs, G, c)
    ensures exprs != []
    ensures Pending(ops, exprs, G, c) ==>
      IsPostfix(ops[|ops| - 1]) && !IsWaiting(ops[|ops| - 1]) && ops[|ops| - 1].prio == POSTFIX
    ensures !Pending(ops, exprs, G, c) ==> G != [] && WaitsOnTop(ops, G)
    ensures !Pending(ops, exprs, G, c) && ops[|ops| - 1].prio != PREFIX ==> |exprs| >= 2
  {
    if !Pending(ops, exprs, G, c) {
      TopWaiting(G);
      FrameTop(G, c);
    }
  }

  lemma TopBefore(ops: seq<StackOp>, exprs: seq<Tree>, F: seq<Frame>)
    requires ops != [] && AtOperand(ops, exprs, F)
    ensures F != [] && WaitsOnTop(ops, F)
  {
    TopWaiting(F);
  }

  predicate WaitsOnTop(ops: seq<StackOp>, F: seq<Frame>) {
    && ops != [] && F != [] && FramesOk(F)
    && var op, f := ops[|ops| - 1], F[|F| - 1];
    && op == Waiting(f) && op.prio == FramePrio(f) && 0 < op.prio < POSTFIX && IsWaiting(op)
    && (op.assoc.RightToLeft? <==> op.prio in {1, PREFIX})
  }

  lemma OnTop(ops: seq<StackOp>, G: seq<Frame>)
    requires WaitsOnTop(ops, G)
    ensures G != [] && FramesOk(G)
  {
  }

  lemma Waited(G: seq<Frame>, c: Tree, prio: nat, assoc: Assoc)
    requires FramesOk(G) && (G == [] || Waits(G[|G| - 1], prio, assoc))
    ensures Reduce(G, c, prio, assoc) == (G, c)
  {
  }

  lemma Emptied(exprs: seq<Tree>, G: seq<Frame>, c: Tree)
    requires PastOperand([], exprs, G, c)
    ensures G == [] && exprs == [Strip(c)]
  {
  }

  // A pending call or subscript becomes a node over its operand.
  lemma Applies(ops: seq<StackOp>, exprs: seq<Tree>, G: seq<Frame>, c: Tree)
    requires Pending(ops, exprs, G, c)
    ensures Settled(ops[..|ops| - 1], exprs[..|exprs| - 1] + [Applied(ops[|ops| - 1], exprs[|exprs| - 1])], G, c)
  {
  }

  // The innermost waiting operator becomes a node over its operands.
  lemma Joins(ops: seq<StackOp>, exprs: seq<Tree>, G: seq<Frame>, c: Tree, prio: nat, assoc: Assoc)
    requires Settled(ops, exprs, G, c) && WaitsOnTop(ops, G) && !Waits(G[|G| - 1], prio, assoc)
    ensures var f, H := G[|G| - 1], G[..|G| - 1];
            && FramesOk(H) && Reduce(G, c, prio, assoc) == Reduce(H, Join(f, c), prio, assoc)
            && ops[|ops| - 1].tokens[0].op == f.op && exprs != []
            && (f.Left? ==>
                  |exprs| >= 2 &&
                  Settled(ops[..|ops| - 1],
                    exprs[..|exprs| - 2] + [Binary(f.op, exprs[|exprs| - 2], exprs[|exprs| - 1])], H, Join(f, c)))
            && (f.Prefix? ==>
                  Settled(ops[..|ops| - 1], exprs[..|exprs| - 1] + [Unary(f.op, exprs[|exprs| - 1])], H, Join(f, c)))
            && (f.Prefix? <==> ops[|ops| - 1].prio == PREFIX)
  {
    hide Strip;
    FrameTop(G, c);
    var H := G[..|G| - 1];
    assert ops[..|ops| - 1] == Operators(H);
    var f := G[|G| - 1];
    if f.Left? {
      assert exprs == Lefts(H) + [Strip(f.left)] + [Strip(c)];
      assert exprs[..|exprs| - 2] == Lefts(H);
    } else {
      assert exprs[..|exprs| - 1] == Lefts(H);
    }
  }

  // What the comparison with the operator on top decides.
  lemma Comparison(ops: seq<StackOp>, exprs: seq<Tree>, past: bool, F: seq<Frame>, G: seq<Frame>, c: Tree, prio: nat,
                   assoc: Assoc)
    requires ops != [] && InTable(prio, assoc)
    requires past ==> PastOperand(ops, exprs, G, c) && prio != PREFIX
    requires !past ==> AtOperand(ops, exprs, F) && prio == PREFIX
    ensures var previous := ops[|ops| - 1];
            var stop := prio > previous.prio ||
              (prio == previous.prio && assoc == RightToLeft && previous.assoc == RightToLeft);
            && (prio == previous.prio ==> assoc == previous.assoc)
            && (!past ==> stop)
            && (past && stop ==> Settled(ops, exprs, G, c) && Reduce(G, c, prio, assoc) == (G, c))
            && (past && !stop && !Pending(ops, exprs, G, c) ==>
                  Settled(ops, exprs, G, c) && WaitsOnTop(ops, G) && !Waits(G[|G| - 1], prio, assoc))
            && (past && !stop ==> IsPostfix(previous) || IsWaiting(previous))
            && (past && !stop && IsWaiting(previous) ==> !Pending(ops, exprs, G, c))
            && (past && !stop && !IsWaiting(previous) ==> Pending(ops, exprs, G, c))
            && (past && !stop && IsWaiting(previous) && previous.prio != PREFIX ==> |exprs| >= 2)
            && (past ==> |exprs| >= 1)
  {
    hide Operators, Lefts, Strip, Applied, Waiting, IsWaiting, IsPostfix, Reduce;
    if past {
      Top(ops, exprs, G, c);
      if !Pending(ops, exprs, G, c) && Waits(G[|G| - 1], prio, assoc) {
        Waited(G, c, prio, assoc);
      }
    } else {
      TopBefore(ops, exprs, F);
    }
  }

  lemma PastOk(ops: seq<StackOp>, exprs: seq<Tree>, F: seq<Frame>, cur: Tree)
    requires PastOperand(ops, exprs, F, cur)
    ensures FramesOk(F)
  {
  }

  lemma PastSettled(ops: seq<StackOp>, exprs: seq<Tree>, F: seq<Frame>, cur: Tree)
    requires Settled(ops, exprs, F, cur)
    ensures PastOperand(ops, exprs, F, cur)
  {
  }

  lemma EmptyReduce(exprs: seq<Tree>, G: seq<Frame>, c: Tree, prio: nat, assoc: Assoc)
    requires G == [] && exprs == [Strip(c)]
    ensures Reduce(G, c, prio, assoc) == (G, c) && Settled([], exprs, G, c)
  {
  }

  // SimpleParser::Impl::ReduceExpr. Past an operand the two stacks come to stand for the reduced frames;
  // before an operand, where a prefix operator is next, nothing is reduced.
  method ReduceExpr(operators: seq<StackOp>, operands: seq<Tree>, prio: nat, assoc: Assoc,
                    ghost past: bool, ghost F: seq<Frame>, ghost cur: Tree)
    returns (ops: seq<StackOp>, exprs: seq<Tree>)
    requires InTable(prio, assoc)
    requires if past then PastOperand(operators, operands, F, cur) && prio != PREFIX
             else AtOperand(operators, operands, F) && prio == PREFIX
    ensures past ==> var r := Reduce(F, cur, prio, assoc); Settled(ops, exprs, r.0, r.1)
    ensures !past ==> ops == operators && exprs == operands
  {
    hide *;
    ops, exprs := operators, operands;
    ghost var G, c := F, cur;
    if past {
      PastOk(ops, exprs, F, cur);
    }
    while ops != []
      invariant past ==> FramesOk(F) && FramesOk(G) && PastOperand(ops, exprs, G, c)
      invariant past ==> Reduce(G, c, prio, assoc) == Reduce(F, cur, prio, assoc)
      invariant !past ==> ops == operators && exprs == operands
      decreases |ops|
    {
      var previous := ops[|ops| - 1];
      Comparison(ops, exprs, past, F, G, c, prio, assoc);
      if prio > previous.prio {
        break;
      } else if prio == previous.prio {
        assert assoc == previous.assoc;
        if assoc == RightToLeft && previous.assoc == RightToLeft {
          break;
        }
      }
      var rest, expr := CreateExpr(exprs, previous);
      if Pending(ops, exprs, G, c) {
        Applies(ops, exprs, G, c);
      } else {
        OnTop(ops, G);
        Joins(ops, exprs, G, c, prio, assoc);
        G, c := G[..|G| - 1], Join(G[|G| - 1], c);
      }
      PastSettled(ops[..|ops| - 1], rest + [expr], G, c);
      ops := ops[..|ops| - 1];
      exprs := rest + [expr];
    }
    if past && ops == [] {
      Emptied(exprs, G, c);
      EmptyReduce(exprs, G, c, prio, assoc);
    }
  }

  // ----- small steps of the methods below -----

  lemma Started(ts: seq<Token>, i: nat)
    requires i <= |ts|
    ensures FramesOk([]) && AtOperand([], [], []) && Parse(ts, i) == Before(ts, i, [])
  {
    hide Before;
  }

  lemma Reported<T>(r: Outcome<T>, ok: bool, next: nat, value: T)
    requires ok ==> r == Done(value, next)
    requires !ok ==> r == Unexpected(next)
    ensures Reports(r, ok, next, value)
  {
  }

  lemma Reporting<T>(r: Outcome<T>, ok: bool, next: nat, value: T)
    requires Reports(r, ok, next, value)
    ensures ok ==> r == Done(value, next)
    ensures !ok ==> r == Unexpected(next)
  {
  }

  lemma Peeked(ts: seq<Token>, i: nat)
    ensures Peek(ts, i) != FileEnd ==> i < |ts|
  {
  }

  lemma Operand(ops: seq<StackOp>, exprs: seq<Tree>, F: seq<Frame>, cur: Tree)
    requires AtOperand(ops, exprs, F)
    ensures PastOperand(ops, exprs + [Strip(cur)], F, cur)
    ensures cur.Leaf? ==> Strip(cur) == cur
    ensures cur.Group? ==> Strip(cur) == Strip(cur.inner)
  {
    hide Operators, Lefts;
  }

  lemma EnclosedReport(ts: seq<Token>, i: nat, end: Token, ok: bool, j: nat, t: Tree)
    requires i <= |ts| && end != FileEnd && Reports(Parse(ts, i), ok, j, t)
    ensures ok && Peek(ts, j) == end ==>
      Enclosed(ts, i, end) == Done(t, j + 1) && Reports(Enclosed(ts, i, end), true, j + 1, t)
    ensures !(ok && Peek(ts, j) == end) ==>
      Enclosed(ts, i, end) == Unexpected(j) && Reports(Enclosed(ts, i, end), false, j, t)
  {
    hide Parse;
  }

  lemma PrefixOp(op: Operator)
    ensures op in {Sub, Not, PreDec, PreInc} <==> IsPrefix(op)
    ensures IsPrefix(op) ==> InTable(PREFIX, RightToLeft)
    ensures !IsPrefix(op) ==> !Starts(Op(op))
  {
  }

  lemma InfixOp(op: Operator)
    ensures op !in {Not, PreInc, PreDec} <==> IsInfix(op)
    ensures IsInfix(op) ==>
      && InfixAssoc(op) == (if op == Assign then RightToLeft else LeftToRight)
      && InTable(InfixPrio(op), InfixAssoc(op)) && InfixPrio(op) != PREFIX
    ensures !IsInfix(op) ==> !Continues(Op(op))
  {
  }

  lemma TablePrios()
    ensures InTable(POSTFIX, LeftToRight) && InTable(0, LeftToRight)
  {
  }

  lemma Others(tok: Token)
    requires !tok.Name? && !tok.Literal? && !tok.New? && !tok.GroupStart? && !tok.Op?
    ensures !Starts(tok)
  {
  }

  lemma NoContinuation(tok: Token)
    requires !tok.GroupStart? && !tok.SubscriptStart? && !tok.Op?
    ensures !Continues(tok)
  {
  }

  lemma PushedPrefix(ops: seq<StackOp>, exprs: seq<Tree>, F: seq<Frame>, op: Operator)
    requires AtOperand(ops, exprs, F) && IsPrefix(op)
    ensures FramesOk(F + [Prefix(op)])
    ensures AtOperand(ops + [StackOp([Op(op)], [], PREFIX, RightToLeft)], exprs, F + [Prefix(op)])
  {
    hide Operators, Lefts;
    FramePush(F, Prefix(op));
  }

  lemma PushedLeft(ops: seq<StackOp>, exprs: seq<Tree>, F: seq<Frame>, l: Tree, op: Operator)
    requires ops != [] && Settled(ops[..|ops| - 1], exprs, F, l) && IsInfix(op)
    requires ops[|ops| - 1] == StackOp([Op(op)], [], InfixPrio(op), InfixAssoc(op))
    ensures FramesOk(F + [Left(l, op)]) && AtOperand(ops, exprs, F + [Left(l, op)])
  {
    hide Operators, Lefts;
    FramePush(F, Left(l, op));
  }

  lemma Ended(ops: seq<StackOp>, exprs: seq<Tree>, t: Tree)
    requires Settled(ops, exprs, [], t)
    ensures ops == [] && exprs == [Strip(t)] && FramesOk([])
  {
  }

  lemma PendingCall(ops: seq<StackOp>, exprs: seq<Tree>, F: seq<Frame>, cur: Tree, op: StackOp, args: seq<Tree>)
    requires ops != [] && Settled(ops[..|ops| - 1], exprs, F, cur) && ops[|ops| - 1] == op
    requires IsPostfix(op) && op.tokens[0] == GroupStart && op.args == StripAll(args)
    ensures PastOperand(ops, exprs, F, Call(cur, args))
  {
    hide Operators, Lefts;
    assert ops == ops[..|ops| - 1] + [op];
  }

  lemma PendingIndex(ops: seq<StackOp>, exprs: seq<Tree>, F: seq<Frame>, cur: Tree, op: StackOp, index: Tree)
    requires ops != [] && Settled(ops[..|ops| - 1], exprs, F, cur) && ops[|ops| - 1] == op
    requires IsPostfix(op) && op.tokens[0] == SubscriptStart && op.args == [Strip(index)]
    ensures PastOperand(ops, exprs, F, Index(cur, index))
  {
    hide Operators, Lefts;
    assert ops == ops[..|ops| - 1] + [op];
  }

  lemma ListStarts(ts: seq<Token>, i: nat)
    requires i <= |ts|
    ensures List(ts, i) == Prepended([], List(ts, i)) && StripAll([]) == []
  {
    hide List;
    var r := List(ts, i);
    if r.Done? {
      assert [] + r.value == r.value;
    }
  }

  lemma ItemsFail(ts: seq<Token>, i: nat, end: Token, at: nat, vs: seq<Tree>)
    requires i <= |ts| && end != FileEnd && Peek(ts, i) != end && List(ts, i) == Unexpected(at)
    ensures Reports(Items(ts, i, end), false, at, vs)
  {
    hide List;
  }

  lemma ItemsClose(ts: seq<Token>, i: nat, end: Token, j: nat, vs: seq<Tree>)
    requires i <= |ts| && end != FileEnd && Peek(ts, i) != end && List(ts, i) == Done(vs, j)
    ensures if Peek(ts, j) == end then Reports(Items(ts, i, end), true, j + 1, vs)
            else Reports(Items(ts, i, end), false, j, vs)
  {
    hide List;
  }

  lemma NoItems(ts: seq<Token>, i: nat, end: Token)
    requires i <= |ts| && end != FileEnd && Peek(ts, i) == end
    ensures i < |ts| && Reports(Items(ts, i, end), true, i + 1, [])
  {
  }

  lemma CallOp(op: StackOp)
    requires op.prio == POSTFIX && op.assoc == LeftToRight && |op.tokens| >= 2 && op.tokens[0] == GroupStart
    ensures IsPostfix(op)
  {
  }

  lemma SubscriptOp(op: StackOp)
    requires op.prio == POSTFIX && op.assoc == LeftToRight && |op.tokens| == 2 && op.tokens[0] == SubscriptStart &&
      |op.args| == 1
    ensures IsPostfix(op)
  {
  }

  // The two kinds of allocation, from the token behind new.
  function FilledFrom(ts: seq<Token>, i: nat, ty: ElementType): Outcome<Tree>
    requires i + 3 <= |ts|
  {
    match Empties(ts, i + 3)
    case Unexpected(at) => Unexpected(at)
    case Done(n, j) =>
      if Peek(ts, j) != ScopeStart then Unexpected(j)
      else match Items(ts, j + 1, ScopeEnd)
        case Unexpected(at) => Unexpected(at)
        case Done(vs, k) => Done(Filled(ty, n + 1, vs), k)
  }

  function SizedFrom(ts: seq<Token>, i: nat, ty: ElementType): Outcome<Tree>
    requires i + 1 <= |ts|
  {
    match Sizes(ts, i + 1)
    case Unexpected(at) => Unexpected(at)
    case Done(es, j) => Done(Sized(ty, es), j)
  }

  lemma FilledNone(ts: seq<Token>, i: nat, ty: ElementType, at: nat)
    requires i + 3 <= |ts|
    requires Empties(ts, i + 3) == Unexpected(at)
      || (Empties(ts, i + 3).Done? && Empties(ts, i + 3).next == at && Peek(ts, at) != ScopeStart)
    ensures FilledFrom(ts, i, ty) == Unexpected(at)
    ensures forall t :: Reports(FilledFrom(ts, i, ty), false, at, t)
  {
    hide Empties, Items;
  }

  lemma FilledSome(ts: seq<Token>, i: nat, ty: ElementType, n: nat, j: nat, ok: bool, k: nat, vs: seq<Tree>)
    requires i + 3 <= |ts| && Empties(ts, i + 3) == Done(n, j) && Peek(ts, j) == ScopeStart
    requires j < |ts| && Reports(Items(ts, j + 1, ScopeEnd), ok, k, vs)
    ensures Reports(FilledFrom(ts, i, ty), ok, k, Filled(ty, n + 1, vs))
  {
    hide Empties, Items;
  }

  lemma SizedAll(ts: seq<Token>, i: nat, ty: ElementType, ok: bool, k: nat, es: seq<Tree>)
    requires i + 1 <= |ts| && Reports(Sizes(ts, i + 1), ok, k, es)
    ensures Reports(SizedFrom(ts, i, ty), ok, k, Sized(ty, es))
  {
    hide Sizes;
  }

  lemma EmptiesStart(ts: seq<Token>, i: nat)
    requires i <= |ts|
    ensures Empties(ts, i) == Deeper(0, Empties(ts, i))
  {
    hide Empties;
  }

  lemma MoreEmpties(ts: seq<Token>, start: nat, n: nat, i: nat)
    requires start <= |ts| && i < |ts| && Empties(ts, start) == Deeper(n, Empties(ts, i)) &&
      Peek(ts, i) == SubscriptStart
    ensures
      if Peek(ts, i + 1) == SubscriptEnd then i + 2 <= |ts| && Empties(ts, start) == Deeper(n + 1, Empties(ts, i + 2))
            else Empties(ts, start) == Unexpected(i + 1)
  {
  }

  lemma NoMoreEmpties(ts: seq<Token>, start: nat, n: nat, i: nat)
    requires start <= |ts| && i <= |ts| && Empties(ts, start) == Deeper(n, Empties(ts, i)) &&
      Peek(ts, i) != SubscriptStart
    ensures Empties(ts, start) == Done(n, i)
  {
  }

  lemma StripFilled(ty: ElementType, n: nat, es: seq<Tree>)
    ensures Strip(Filled(ty, n, es)) == Filled(ty, n, StripAll(es)) && Strip(Sized(ty, es)) == Sized(ty, StripAll(es))
  {
  }

  lemma StripOne(t: Tree)
    ensures StripAll([t]) == [Strip(t)]
  {
    assert [t][1..] == [];
  }

  lemma SizesStart(ts: seq<Token>, i: nat, t: Tree)
    requires i <= |ts|
    ensures Sizes(ts, i) == Prepended([], Sizes(ts, i)) && [] + [t] == [t]
  {
    hide Sizes;
    var r := Sizes(ts, i);
    if r.Done? {
      assert [] + r.value == r.value;
    }
  }

  lemma AllocCases(ts: seq<Token>, i: nat, t: Tree)
    requires i <= |ts|
    ensures !Peek(ts, i).Type? ==> Reports(Alloc(ts, i), false, i, t)
    ensures Peek(ts, i).Type? && Peek(ts, i + 1) != SubscriptStart ==> Reports(Alloc(ts, i), false, i + 1, t)
    ensures Peek(ts, i).Type? && Peek(ts, i + 1) == SubscriptStart && Peek(ts, i + 2) == SubscriptEnd ==>
      i + 3 <= |ts| && Alloc(ts, i) == FilledFrom(ts, i, Peek(ts, i).ty)
    ensures Peek(ts, i).Type? && Peek(ts, i + 1) == SubscriptStart && Peek(ts, i + 2) != SubscriptEnd ==>
      i + 1 <= |ts| && Alloc(ts, i) == SizedFrom(ts, i, Peek(ts, i).ty)
  {
    hide Empties, Sizes, Items;
  }


  class Parser {
    const tokens: seq<Token>
    // How many tokens are consumed; the next token is the one behind them, or the file's end.
    var next: nat

    constructor (tokens: seq<Token>)
      ensures this.tokens == tokens && next == 0
    {
      this.tokens := tokens;
      next := 0;
    }

    method ConsumeNextToken()
      requires next < |tokens|
      modifies this
      ensures next == old(next) + 1
    {
      next := next + 1;
    }

    // SimpleParser::Impl::ParseExpr: the expression from the next token on, up to a token that does not
    // continue it, or failure at an unexpected token. It succeeds exactly when an expression stands there,
    // and then with the only one.
    method ParseExpr() returns (ok: bool, expr: Tree, ghost tree: Tree)
      requires next <= |tokens|
      modifies this
      ensures old(next) <= next <= |tokens| && Reports(Parse(tokens, old(next)), ok, next, tree)
      ensures ok ==> IsExpr(tokens, old(next), tree, next) && expr == Strip(tree)
      ensures !ok ==> forall t, j: nat :: !IsExpr(tokens, old(next), t, j)
      decreases |tokens| - next, 3
    {
      hide *;
      var operators: seq<StackOp>, operands: seq<Tree> := [], [];
      ghost var F: seq<Frame>, cur := [], Leaf(FileEnd);
      ghost var start := next;
      var state := BeforeExpr;
      Started(tokens, start);
      while state.BeforeExpr? || state.AfterExpr?
        invariant start <= next <= |tokens| && FramesOk(F)
        invariant state.BeforeExpr? ==>
          AtOperand(operators, operands, F) && Parse(tokens, start) == Before(tokens, next, F)
        invariant state.AfterExpr? ==>
          PastOperand(operators, operands, F, cur) && Parse(tokens, start) == After(tokens, next, F, cur)
        invariant state.Finished? ==>
          operators == [] && operands == [Strip(cur)] && Parse(tokens, start) == Done(cur, next)
        invariant state.Failed? ==> Parse(tokens, start) == Unexpected(next)
        decreases |tokens| - next, if state.BeforeExpr? || state.AfterExpr? then 1 else 0
      {
        if state.BeforeExpr? {
          state, operators, operands, F, cur := BeforeExprState(operators, operands, F);
        } else {
          state, operators, operands, F, cur := AfterExprState(operators, operands, F, cur);
        }
      }
      Reported(Parse(tokens, start), state.Finished?, next, cur);
      ParsesExactly(tokens, start, cur, next);
      RejectsExactly(tokens, start);
      if state.Failed? {
        return false, Leaf(FileEnd), cur;
      }
      assert |operands| == 1;
      assert operators == [];
      return true, operands[0], cur;
    }

    method BeforeExprState(operators: seq<StackOp>, operands: seq<Tree>, ghost F: seq<Frame>)
      returns (state: State, ops: seq<StackOp>, exprs: seq<Tree>, ghost G: seq<Frame>, ghost cur: Tree)
      requires next <= |tokens| && FramesOk(F) && AtOperand(operators, operands, F)
      modifies this
      ensures old(next) <= next <= |tokens| && !state.Finished? && FramesOk(G)
      ensures !state.Failed? ==> next > old(next)
      ensures state.BeforeExpr? ==>
        AtOperand(ops, exprs, G) && Before(tokens, old(next), F) == Before(tokens, next, G)
      ensures state.AfterExpr? ==>
        PastOperand(ops, exprs, G, cur) && Before(tokens, old(next), F) == After(tokens, next, G, cur)
      ensures state.Failed? ==> Before(tokens, old(next), F) == Unexpected(next)
      decreases |tokens| - next, 2
    {
      hide *;
      ops, exprs, G, cur := operators, operands, F, Leaf(FileEnd);
      ghost var i := next;
      Peeked(tokens, i);
      match Peek(tokens, next) {
        case Name(_) =>
          cur := Leaf(Peek(tokens, next));
          exprs := exprs + [Leaf(Peek(tokens, next))];
          StepLeaf(tokens, i, F);
          Operand(ops, operands, F, cur);
          ConsumeNextToken();
          state := AfterExpr;
        case Literal(_, _) =>
          cur := Leaf(Peek(tokens, next));
          exprs := exprs + [Leaf(Peek(tokens, next))];
          StepLeaf(tokens, i, F);
          Operand(ops, operands, F, cur);
          ConsumeNextToken();
          state := AfterExpr;
        case New =>
          var ok, expr;
          ok, expr, cur := ParseArrayAlloc();
          BeforeNew(tokens, i, F);
          Reporting(Alloc(tokens, i + 1), ok, next, cur);
          exprs := exprs + [expr];
          if ok {
            Operand(ops, operands, F, cur);
          }
          state := if ok then AfterExpr else Failed;
        case GroupStart =>
          ConsumeNextToken();
          var ok, expr;
          ghost var inner;
          ok, expr, inner := ParseExpr();
          BeforeGroup(tokens, i, F);
          EnclosedReport(tokens, i + 1, GroupEnd, ok, next, inner);
          exprs := exprs + [expr];
          if ok && Peek(tokens, next) == GroupEnd {
            cur := Group(inner);
            Operand(ops, operands, F, cur);
            Peeked(tokens, next);
            ConsumeNextToken();
            state := AfterExpr;
          } else {
            state := Failed;
          }
        case Op(op) =>
          if op in {Sub, Not, PreDec, PreInc} {
            PrefixOp(op);
            ops, exprs := ReduceExpr(operators, operands, PREFIX, RightToLeft, false, F, cur);
            ops := ops + [StackOp([Peek(tokens, next)], [], PREFIX, RightToLeft)];
            StepPrefix(tokens, i, F, op);
            PushedPrefix(operators, operands, F, op);
            G := F + [Prefix(op)];
            ConsumeNextToken();
            state := BeforeExpr;
          } else {
            PrefixOp(op);
            BeforeOther(tokens, i, F);
            state := Failed;
          }
        case _ =>
          Others(Peek(tokens, next));
          BeforeOther(tokens, i, F);
          state := Failed;
      }
    }

    method AfterExprState(operators: seq<StackOp>, operands: seq<Tree>, ghost F: seq<Frame>, ghost cur: Tree)
      returns (state: State, ops: seq<StackOp>, exprs: seq<Tree>, ghost G: seq<Frame>, ghost now: Tree)
      requires next <= |tokens| && FramesOk(F) && PastOperand(operators, operands, F, cur)
      modifies this
      ensures old(next) <= next <= |tokens| && FramesOk(G)
      ensures state.BeforeExpr? || state.AfterExpr? ==> next > old(next)
      ensures state.BeforeExpr? ==>
        AtOperand(ops, exprs, G) && After(tokens, old(next), F, cur) == Before(tokens, next, G)
      ensures state.AfterExpr? ==>
        PastOperand(ops, exprs, G, now) && After(tokens, old(next), F, cur) == After(tokens, next, G, now)
      ensures state.Finished? ==>
        ops == [] && exprs == [Strip(now)] && After(tokens, old(next), F, cur) == Done(now, next)
      ensures state.Failed? ==> After(tokens, old(next), F, cur) == Unexpected(next)
      decreases |tokens| - next, 2
    {
      hide *;
      G, now := F, cur;
      ghost var i := next;
      Peeked(tokens, i);
      TablePrios();
      match Peek(tokens, next) {
        case GroupStart =>
          ops, exprs := ReduceExpr(operators, operands, POSTFIX, LeftToRight, true, F, cur);
          ReduceNothing(F, cur);
          var ok, op;
          ghost var args;
          ok, op, args := ParseCall();
          AfterCall(tokens, i, F, cur);
          Reporting(Items(tokens, i + 1, GroupEnd), ok, next, args);
          ops := ops + [op];
          if ok {
            now := Call(cur, args);
            PendingCall(ops, exprs, F, cur, op, args);
            state := AfterExpr;
          } else {
            state := Failed;
          }
        case SubscriptStart =>
          ops, exprs := ReduceExpr(operators, operands, POSTFIX, LeftToRight, true, F, cur);
          ReduceNothing(F, cur);
          var ok, op;
          ghost var index;
          ok, op, index := ParseSubscript();
          AfterIndex(tokens, i, F, cur);
          Reporting(Enclosed(tokens, i + 1, SubscriptEnd), ok, next, index);
          ops := ops + [op];
          if ok {
            now := Index(cur, index);
            PendingIndex(ops, exprs, F, cur, op, index);
            state := AfterExpr;
          } else {
            state := Failed;
          }
        case Op(op) =>
          if op !in {Not, PreInc, PreDec} {
            InfixOp(op);
            var assoc := if op == Assign then RightToLeft else LeftToRight;
            ops, exprs := ReduceExpr(operators, operands, InfixPrio(op), assoc, true, F, cur);
            ghost var r := Reduce(F, cur, InfixPrio(op), assoc);
            ops := ops + [StackOp([Peek(tokens, next)], [], InfixPrio(op), assoc)];
            StepInfix(tokens, i, F, cur, op, r.0, r.1);
            PushedLeft(ops, exprs, r.0, r.1, op);
            G := r.0 + [Left(r.1, op)];
            ConsumeNextToken();
            state := BeforeExpr;
          } else {
            InfixOp(op);
            ops, exprs := ReduceExpr(operators, operands, 0, LeftToRight, true, F, cur);
            ReduceToEnd(F, cur);
            StepEnd(tokens, i, F, cur);
            Ended(ops, exprs, Plug(F, cur));
            G, now := [], Plug(F, cur);
            state := Finished;
          }
        case _ =>
          NoContinuation(Peek(tokens, next));
          ops, exprs := ReduceExpr(operators, operands, 0, LeftToRight, true, F, cur);
          ReduceToEnd(F, cur);
          StepEnd(tokens, i, F, cur);
          Ended(ops, exprs, Plug(F, cur));
          G, now := [], Plug(F, cur);
          state := Finished;
      }
    }

    // SimpleParser::Impl::ParseCall: the arguments and all their tokens.
    method ParseCall() returns (ok: bool, op: StackOp, ghost args: seq<Tree>)
      requires next < |tokens| && Peek(tokens, next) == GroupStart
      modifies this
      ensures old(next) < next <= |tokens| && Reports(Items(tokens, old(next) + 1, GroupEnd), ok, next, args)
      ensures ok ==> IsPostfix(op) && op.tokens[0] == GroupStart && op.args == StripAll(args)
      decreases |tokens| - next, 1
    {
      hide *;
      var opTokens := [Peek(tokens, next)];
      ConsumeNextToken();
      ghost var start := next;
      var opArgs: seq<Tree> := [];
      args := [];
      op := StackOp([], [], POSTFIX, LeftToRight);
      ListStarts(tokens, start);
      if Peek(tokens, next) != GroupEnd {
        while true
          invariant start <= next <= |tokens| && opTokens != [] && opTokens[0] == GroupStart
          invariant List(tokens, start) == Prepended(args, List(tokens, next)) && opArgs == StripAll(args)
          decreases |tokens| - next
        {
          ghost var i := next;
          var arg;
          ghost var t;
          ok, arg, t := ParseExpr();
          Reporting(Parse(tokens, i), ok, next, t);
          if !ok {
            ListFails(tokens, start, args, i, next);
            ItemsFail(tokens, start, GroupEnd, next, args);
            return;
          }
          ListGoesOn(tokens, start, args, i, t, next);
          StripSnoc(args, t);
          opArgs := opArgs + [arg];
          args := args + [t];
          if Peek(tokens, next) != Separator {
            break;
          }
          opTokens := opTokens + [Peek(tokens, next)];
          ConsumeNextToken();
        }
        ItemsClose(tokens, start, GroupEnd, next, args);
      } else {
        NoItems(tokens, start, GroupEnd);
      }
      if Peek(tokens, next) != GroupEnd {
        return false, op, args;
      }
      Peeked(tokens, next);
      opTokens := opTokens + [Peek(tokens, next)];
      ConsumeNextToken();
      op := StackOp(opTokens, opArgs, POSTFIX, LeftToRight);
      CallOp(op);
      ok := true;
    }

    // SimpleParser::Impl::ParseSubscript: the index between its two tokens.
    method ParseSubscript() returns (ok: bool, op: StackOp, ghost index: Tree)
      requires next < |tokens| && Peek(tokens, next) == SubscriptStart
      modifies this
      ensures old(next) < next <= |tokens| && Reports(Enclosed(tokens, old(next) + 1, SubscriptEnd), ok, next, index)
      ensures ok ==> IsPostfix(op) && op.tokens[0] == SubscriptStart && op.args == [Strip(index)]
      decreases |tokens| - next, 1
    {
      hide *;
      var opTokens := [Peek(tokens, next)];
      ConsumeNextToken();
      ghost var i := next;
      op := StackOp([], [], POSTFIX, LeftToRight);
      var arg;
      ok, arg, index := ParseExpr();
      EnclosedReport(tokens, i, SubscriptEnd, ok, next, index);
      if !ok || Peek(tokens, next) != SubscriptEnd {
        ok := false;
        return;
      }
      Peeked(tokens, next);
      opTokens := opTokens + [Peek(tokens, next)];
      ConsumeNextToken();
      op := StackOp(opTokens, [arg], POSTFIX, LeftToRight);
      SubscriptOp(op);
    }

    // SimpleParser::Impl::ParseArrayAlloc.
    method ParseArrayAlloc() returns (ok: bool, expr: Tree, ghost tree: Tree)
      requires next < |tokens| && Peek(tokens, next) == New
      modifies this
      ensures old(next) < next <= |tokens| && Reports(Alloc(tokens, old(next) + 1), ok, next, tree)
      ensures ok ==> expr == Strip(tree)
      decreases |tokens| - next, 1
    {
      hide *;
      ConsumeNextToken();
      ghost var i := next;
      expr, tree := Leaf(FileEnd), Leaf(FileEnd);
      AllocCases(tokens, i, tree);
      if !Peek(tokens, next).Type? {
        return false, expr, tree;
      }
      var ty := Peek(tokens, next).ty;
      Peeked(tokens, next);
      ConsumeNextToken();
      if Peek(tokens, next) != SubscriptStart {
        return false, expr, tree;
      }
      Peeked(tokens, next);
      ConsumeNextToken();
      if Peek(tokens, next) == SubscriptEnd {
        Peeked(tokens, next);
        ConsumeNextToken();
        var depth := 1;
        EmptiesStart(tokens, next);
        while Peek(tokens, next) == SubscriptStart
          invariant i + 3 <= next <= |tokens| && depth >= 1
          invariant Empties(tokens, i + 3) == Deeper(depth - 1, Empties(tokens, next))
          decreases |tokens| - next
        {
          Peeked(tokens, next);
          MoreEmpties(tokens, i + 3, depth - 1, next);
          ConsumeNextToken();
          if Peek(tokens, next) != SubscriptEnd {
            FilledNone(tokens, i, ty, next);
            return false, expr, tree;
          }
          Peeked(tokens, next);
          ConsumeNextToken();
          depth := depth + 1;
        }
        NoMoreEmpties(tokens, i + 3, depth - 1, next);
        if Peek(tokens, next) != ScopeStart {
          FilledNone(tokens, i, ty, next);
          return false, expr, tree;
        }
        Peeked(tokens, next);
        ConsumeNextToken();
        ghost var j := next;
        var values;
        ghost var vs;
        ok, values, vs := ParseArrayValues();
        FilledSome(tokens, i, ty, depth - 1, j - 1, ok, next, vs);
        expr, tree := Filled(ty, depth, values), Filled(ty, depth, vs);
        StripFilled(ty, depth, vs);
      } else {
        var sizes;
        ghost var es;
        ok, sizes, es := ParseArraySizes(i + 1);
        SizedAll(tokens, i, ty, ok, next, es);
        expr, tree := Sized(ty, sizes), Sized(ty, es);
        StripFilled(ty, 1, es);
      }
    }

    // The values of an array allocation, with its closing token.
    method ParseArrayValues() returns (ok: bool, values: seq<Tree>, ghost vs: seq<Tree>)
      requires next <= |tokens|
      modifies this
      ensures old(next) <= next <= |tokens| && Reports(Items(tokens, old(next), ScopeEnd), ok, next, vs)
      ensures ok ==> values == StripAll(vs)
      decreases |tokens| - next, 5
    {
      hide *;
      ghost var start := next;
      values, vs := [], [];
      ListStarts(tokens, start);
      if Peek(tokens, next) != ScopeEnd {
        var stop := false;
        while !stop
          invariant start <= next <= |tokens| && values == StripAll(vs)
          invariant !stop ==> List(tokens, start) == Prepended(vs, List(tokens, next))
          invariant stop ==> List(tokens, start) == Done(vs, next) && Peek(tokens, next) == ScopeEnd
          decreases !stop, |tokens| - next
        {
          ghost var i := next;
          var value;
          ghost var t;
          ok, value, t := ParseExpr();
          Reporting(Parse(tokens, i), ok, next, t);
          if !ok {
            ListFails(tokens, start, vs, i, next);
            ItemsFail(tokens, start, ScopeEnd, next, vs);
            return;
          }
          ListGoesOn(tokens, start, vs, i, t, next);
          StripSnoc(vs, t);
          values := values + [value];
          vs := vs + [t];
          match Peek(tokens, next) {
            case Separator => ConsumeNextToken();
            case ScopeEnd => stop := true;
            case _ =>
              ItemsClose(tokens, start, ScopeEnd, next, vs);
              return false, values, vs;
          }
        }
        ItemsClose(tokens, start, ScopeEnd, next, vs);
      } else {
        NoItems(tokens, start, ScopeEnd);
      }
      Peeked(tokens, next);
      ConsumeNextToken();
      ok := true;
    }

    // The sizes of an array allocation, from inside the first pair of brackets.
    method ParseArraySizes(ghost start: nat) returns (ok: bool, sizes: seq<Tree>, ghost es: seq<Tree>)
      requires start < |tokens| && next == start + 1 && Peek(tokens, start) == SubscriptStart
      modifies this
      ensures start < next <= |tokens| && Reports(Sizes(tokens, start), ok, next, es)
      ensures ok ==> sizes == StripAll(es)
      decreases |tokens| - next, 5
    {
      hide *;
      ghost var t;
      var size;
      ok, size, t := ParseExpr();
      SizesStart(tokens, start, t);
      EnclosedReport(tokens, start + 1, SubscriptEnd, ok, next, t);
      sizes, es := [size], [t];
      AddSize(tokens, start, [], start);
      if !ok || Peek(tokens, next) != SubscriptEnd {
        ok := false;
        Reported(Sizes(tokens, start), false, next, es);
        return;
      }
      Peeked(tokens, next);
      ConsumeNextToken();
      StripOne(t);
      while Peek(tokens, next) == SubscriptStart
        invariant start < next <= |tokens| && sizes == StripAll(es)
        invariant Sizes(tokens, start) == Prepended(es, Sizes(tokens, next))
        decreases |tokens| - next
      {
        ghost var i := next;
        Peeked(tokens, next);
        ConsumeNextToken();
        ok, size, t := ParseExpr();
        EnclosedReport(tokens, i + 1, SubscriptEnd, ok, next, t);
        AddSize(tokens, start, es, i);
        if !ok || Peek(tokens, next) != SubscriptEnd {
          ok := false;
          Reported(Sizes(tokens, start), false, next, es);
          return;
        }
        Peeked(tokens, next);
        ConsumeNextToken();
        StripSnoc(es, t);
        sizes, es := sizes + [size], es + [t];
      }
      NoMoreSizes(tokens, start, es, next);
      ok := true;
      Reported(Sizes(tokens, start), true, next, es);
    }
  }
}
