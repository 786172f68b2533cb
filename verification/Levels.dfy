/** The grammar of expressions by levels, each with its operators by name: what a reader takes from the
    language's description, without priorities as numbers. The parser's trees are exactly these. */
module Levels {
  import opened Trees
  import opened Parsing
  import opened Soundness

  // assignment: disjunction = assignment | disjunction
  predicate Assignment(t: Tree)
    decreases t, 9
  {
    (t.Binary? && t.op == Assign && Disjunction(t.left) && Assignment(t.right)) || Disjunction(t)
  }

  // disjunction: disjunction || conjunction | conjunction
  predicate Disjunction(t: Tree)
    decreases t, 8
  {
    (t.Binary? && t.op == Or && Disjunction(t.left) && Conjunction(t.right)) || Conjunction(t)
  }

  // conjunction: conjunction && equality | equality
  predicate Conjunction(t: Tree)
    decreases t, 7
  {
    (t.Binary? && t.op == And && Conjunction(t.left) && Equality(t.right)) || Equality(t)
  }

  // equality: equality == comparison | equality != comparison | comparison
  predicate Equality(t: Tree)
    decreases t, 6
  {
    (t.Binary? && (t.op == Equal || t.op == NotEqual) && Equality(t.left) && Comparison(t.right)) || Comparison(t)
  }

  // comparison: comparison < sum, and the same with <=, > and >= | sum
  predicate Comparison(t: Tree)
    decreases t, 5
  {
    (t.Binary? && (t.op == Less || t.op == LessOrEqual || t.op == Greater || t.op == GreaterOrEqual) &&
     Comparison(t.left) && SumOf(t.right)) || SumOf(t)
  }

  // sum: sum + product | sum - product | product
  predicate SumOf(t: Tree)
    decreases t, 4
  {
    (t.Binary? && (t.op == Sum || t.op == Sub) && SumOf(t.left) && Product(t.right)) || Product(t)
  }

  // product: product * prefixed | product / prefixed | prefixed
  predicate Product(t: Tree)
    decreases t, 3
  {
    (t.Binary? && (t.op == Mul || t.op == Div) && Product(t.left) && Prefixed(t.right)) || Prefixed(t)
  }

  // prefixed: ! prefixed | - prefixed | ++ prefixed | -- prefixed | postfixed
  predicate Prefixed(t: Tree)
    decreases t, 2
  {
    (t.Unary? && (t.op == Not || t.op == Sub || t.op == PreInc || t.op == PreDec) && Prefixed(t.operand)) ||
    Postfixed(t)
  }

  // postfixed: postfixed ( assignments ) | postfixed [ assignment ], but not behind an allocation by
  // sizes | operand
  predicate Postfixed(t: Tree)
    decreases t, 1
  {
    (t.Call? && Postfixed(t.callee) && forall e <- t.args :: Assignment(e)) ||
    (t.Index? && Postfixed(t.base) && !t.base.Sized? && Assignment(t.index)) || Operand(t)
  }

  // operand: name | literal | ( assignment ) | new type [ assignment ].. | new type [].. { assignments }
  predicate Operand(t: Tree)
    decreases t, 0
  {
    match t
    case Leaf(tok) => tok.Name? || tok.Literal?
    case Group(e) => Assignment(e)
    case Sized(_, sizes) => sizes != [] && forall e <- sizes :: Assignment(e)
    case Filled(_, depth, values) => depth > 0 && forall e <- values :: Assignment(e)
    case _ => false
  }

  lemma BinaryUnfolds(t: Tree)
    requires t.Binary?
    ensures var l, r := t.left, t.right;
      (Assignment(t) <==> (t.op == Assign && Disjunction(l) && Assignment(r)) || Disjunction(t)) &&
      (Disjunction(t) <==> (t.op == Or && Disjunction(l) && Conjunction(r)) || Conjunction(t)) &&
      (Conjunction(t) <==> (t.op == And && Conjunction(l) && Equality(r)) || Equality(t)) &&
      (Equality(t) <==> ((t.op == Equal || t.op == NotEqual) && Equality(l) && Comparison(r)) || Comparison(t)) &&
      (Comparison(t) <==>
        (t.op in {Less, LessOrEqual, Greater, GreaterOrEqual} && Comparison(l) && SumOf(r)) || SumOf(t)) &&
      (SumOf(t) <==> ((t.op == Sum || t.op == Sub) && SumOf(l) && Product(r)) || Product(t)) &&
      (Product(t) <==> (t.op == Mul || t.op == Div) && Product(l) && Prefixed(r))
    ensures !Prefixed(t) && !Postfixed(t)
  {
    assert !Operand(t);
    assert !Postfixed(t);
    assert !Prefixed(t);
  }

  lemma OthersUnfold(t: Tree)
    requires !t.Binary?
    ensures Assignment(t) == Disjunction(t) == Conjunction(t) == Equality(t) == Comparison(t)
    ensures Comparison(t) == SumOf(t) == Product(t) == Prefixed(t)
    ensures !t.Unary? ==> Prefixed(t) == Postfixed(t)
    ensures !t.Unary? && !t.Call? && !t.Index? ==> Postfixed(t) == Operand(t)
    ensures t.Unary? ==> !Postfixed(t)
  {
  }

  // The levels are the priorities of the operator table.
  predicate Levelled(t: Tree) {
    (Assignment(t) <==> Grammatical(t)) && (Disjunction(t) <==> Grammatical(t) && Prio(t) >= 2) &&
    (Conjunction(t) <==> Grammatical(t) && Prio(t) >= 3) && (Equality(t) <==> Grammatical(t) && Prio(t) >= 4) &&
    (Comparison(t) <==> Grammatical(t) && Prio(t) >= 5) && (SumOf(t) <==> Grammatical(t) && Prio(t) >= 6) &&
    (Product(t) <==> Grammatical(t) && Prio(t) >= 7) && (Prefixed(t) <==> Grammatical(t) && Prio(t) >= 8) &&
    (Postfixed(t) <==> Grammatical(t) && Prio(t) >= 9)
  }

  lemma BinaryLevels(t: Tree)
    requires t.Binary? && Levelled(t.left) && Levelled(t.right)
    ensures Levelled(t)
  {
    BinaryUnfolds(t);
    hide Assignment, Disjunction, Conjunction, Equality, Comparison, SumOf, Product, Prefixed, Postfixed;
    match t.op
    case Assign =>
    case Or =>
    case And =>
    case Sum =>
    case Sub =>
    case Mul =>
    case Div =>
    case _ =>
  }

  lemma {:induction false} LevelsAre(t: Tree)
    ensures Levelled(t)
  {
    if t.Binary? {
      LevelsAre(t.left);
      LevelsAre(t.right);
      hide Levelled;
      BinaryLevels(t);
    } else {
      OthersUnfold(t);
      hide Disjunction, Conjunction, Equality, Comparison, SumOf, Product;
      match t
      case Leaf(_) =>
      case Group(e) => LevelsAre(e);
      case Sized(_, sizes) =>
        forall e | e in sizes ensures Assignment(e) <==> Grammatical(e) { LevelsAre(e); }
        assert Postfixed(t) == Operand(t);
      case Filled(_, _, values) =>
        forall e | e in values ensures Assignment(e) <==> Grammatical(e) { LevelsAre(e); }
        assert Postfixed(t) == Operand(t);
      case Unary(_, e) => LevelsAre(e);
      case Call(f, args) =>
        LevelsAre(f);
        forall e | e in args ensures Assignment(e) <==> Grammatical(e) { LevelsAre(e); }
      case Index(b, k) =>
        LevelsAre(b);
        LevelsAre(k);
    }
  }

  // The parser returns a tree exactly if it is an assignment of this grammar, is written by the tokens
  // consumed, and is followed by no token that goes on with it.
  lemma ParsesByLevels(ts: seq<Token>, i: nat, t: Tree, j: nat)
    requires i <= |ts|
    ensures Parse(ts, i) == Done(t, j) <==>
      (Assignment(t) && At(ts, i, Yield(t)) && j == i + |Yield(t)| && !Continues(Peek(ts, j)))
  {
    hide Parse, Assignment, Grammatical, Yield, Continues, At;
    LevelsAre(t);
    ParsesExactly(ts, i, t, j);
  }

  // ----- the tree that is returned -----

  predicate Groupless(t: Tree) {
    match t
    case Leaf(_) => true
    case Group(_) => false
    case Sized(_, es) => forall e <- es :: Groupless(e)
    case Filled(_, _, es) => forall e <- es :: Groupless(e)
    case Unary(_, e) => Groupless(e)
    case Binary(_, l, r) => Groupless(l) && Groupless(r)
    case Call(f, es) => Groupless(f) && forall e <- es :: Groupless(e)
    case Index(b, k) => Groupless(b) && Groupless(k)
  }

  // The operands of a tree, from left to right.
  function Leaves(t: Tree): seq<Token> {
    match t
    case Leaf(tok) => [tok]
    case Group(e) => Leaves(e)
    case Sized(_, es) => LeavesAll(es)
    case Filled(_, _, es) => LeavesAll(es)
    case Unary(_, e) => Leaves(e)
    case Binary(_, l, r) => Leaves(l) + Leaves(r)
    case Call(f, es) => Leaves(f) + LeavesAll(es)
    case Index(b, k) => Leaves(b) + Leaves(k)
  }

  function LeavesAll(es: seq<Tree>): seq<Token> { if es == [] then [] else Leaves(es[0]) + LeavesAll(es[1..]) }

  // Without its parentheses a tree has the same operands in the same order, and a tree that has none is
  // returned as it is.
  lemma {:induction false} StripKeeps(t: Tree)
    ensures Groupless(Strip(t)) && Leaves(Strip(t)) == Leaves(t) && (Groupless(t) ==> Strip(t) == t)
    decreases t, 0
  {
    match t
    case Leaf(_) =>
    case Group(e) => StripKeeps(e);
    case Sized(_, es) => StripKeepsAll(es);
    case Filled(_, _, es) => StripKeepsAll(es);
    case Unary(_, e) => StripKeeps(e);
    case Binary(_, l, r) =>
      StripKeeps(l);
      StripKeeps(r);
    case Call(f, es) =>
      StripKeeps(f);
      StripKeepsAll(es);
    case Index(b, k) =>
      StripKeeps(b);
      StripKeeps(k);
  }

  lemma {:induction false} StripKeepsAll(es: seq<Tree>)
    ensures (forall e <- StripAll(es) :: Groupless(e)) && LeavesAll(StripAll(es)) == LeavesAll(es)
    ensures (forall e <- es :: Groupless(e)) ==> StripAll(es) == es
    decreases es, 0
  {
    hide Strip, Leaves, Groupless;
    if es != [] {
      StripKeeps(es[0]);
      StripKeepsAll(es[1..]);
      assert StripAll(es)[0] == Strip(es[0]) && StripAll(es)[1..] == StripAll(es[1..]);
      assert forall e <- es[1..] :: e in es;
      forall e | e in StripAll(es) ensures Groupless(e) {
        assert e == Strip(es[0]) || e in StripAll(es[1..]);
      }
      assert [es[0]] + es[1..] == es;
    }
  }

  // x = f(a, -b)[0] + new int[n][m]
  function SampleTokens(): seq<Token> {
    [Name("x"), Op(Assign), Name("f"), GroupStart, Name("a"), Separator, Op(Sub), Name("b"), GroupEnd,
     SubscriptStart, Literal(IntLit, "0"), SubscriptEnd, Op(Sum), New, Type(IntType), SubscriptStart, Name("n"),
     SubscriptEnd, SubscriptStart, Name("m"), SubscriptEnd]
  }

  function SampleCall(): Tree { Call(Leaf(Name("f")), [Leaf(Name("a")), Unary(Sub, Leaf(Name("b")))]) }

  function SampleSum(): Tree {
    Binary(Sum, Index(SampleCall(), Leaf(Literal(IntLit, "0"))), Sized(IntType, [Leaf(Name("n")), Leaf(Name("m"))]))
  }

  lemma SampleYields()
    ensures Yield(SampleCall()) ==
      [Name("f"), GroupStart, Name("a"), Separator, Op(Sub), Name("b"), GroupEnd]
    ensures Yield(Sized(IntType, [Leaf(Name("n")), Leaf(Name("m"))])) ==
      [New, Type(IntType), SubscriptStart, Name("n"), SubscriptEnd, SubscriptStart, Name("m"), SubscriptEnd]
  {
    var args := SampleCall().args;
    assert args[1..] == [args[1]];
    assert Yield(args[1]) == [Op(Sub), Name("b")];
    assert YieldList(args[1..]) == [Op(Sub), Name("b")];
    assert YieldList(args) == [Name("a"), Separator, Op(Sub), Name("b")];
    var sizes := [Leaf(Name("n")), Leaf(Name("m"))];
    assert sizes[1..] == [sizes[1]] && [sizes[1]][1..] == [];
    assert YieldSizes([sizes[1]]) == [SubscriptStart, Name("m"), SubscriptEnd];
  }

  lemma YieldsOf(op: Operator, l: Tree, r: Tree, b: Tree, k: Tree)
    ensures Yield(Binary(op, l, r)) == Yield(l) + [Op(op)] + Yield(r)
    ensures Yield(Index(b, k)) == Yield(b) + [SubscriptStart] + Yield(k) + [SubscriptEnd]
  {
  }

  lemma YieldLeaf(tok: Token)
    ensures Yield(Leaf(tok)) == [tok]
  {
  }

  lemma SampleSumYields()
    ensures Yield(SampleSum()) == SampleTokens()[2..]
  {
    hide Yield, SampleCall;
    var sum := SampleSum();
    SampleYields();
    YieldsOf(Sum, sum.left, sum.right, SampleCall(), sum.left.index);
    YieldLeaf(Literal(IntLit, "0"));
    var ts := SampleTokens();
    assert ts[2..9] == Yield(SampleCall());
    assert ts[13..] == Yield(sum.right);
    assert ts[2..] == ts[2..9] + [SubscriptStart] + [Literal(IntLit, "0")] + [SubscriptEnd] + [Op(Sum)] + ts[13..];
  }

  lemma SampleWhole()
    ensures Yield(Binary(Assign, Leaf(Name("x")), SampleSum())) == SampleTokens()
  {
    hide Yield, SampleSum;
    SampleSumYields();
    YieldsOf(Assign, Leaf(Name("x")), SampleSum(), SampleCall(), SampleCall());
    YieldLeaf(Name("x"));
    var ts := SampleTokens();
    assert ts == [Name("x")] + [Op(Assign)] + ts[2..];
  }

  lemma SampleAt()
    ensures |SampleTokens()| == 21 && At(SampleTokens(), 0, SampleTokens()) && !Continues(Peek(SampleTokens(), 21))
    ensures forall t: Tree :: Grammatical(t) && Yield(t) == SampleTokens() ==> IsExpr(SampleTokens(), 0, t, 21)
  {
    hide Yield, Grammatical;
    assert SampleTokens()[0..21] == SampleTokens();
  }

  // An expression with most of the syntax, token by token.
  lemma SampleParses()
    ensures Parse(SampleTokens(), 0) == Done(Binary(Assign, Leaf(Name("x")), SampleSum()), 21)
  {
    hide *;
    SampleGrammatical();
    SampleWhole();
    SampleAt();
    ParsesExactly(SampleTokens(), 0, Binary(Assign, Leaf(Name("x")), SampleSum()), 21);
  }

  lemma SampleGrammatical()
    ensures Grammatical(Binary(Assign, Leaf(Name("x")), SampleSum()))
  {
    assert Grammatical(SampleCall()) && Grammatical(SampleSum().left) && Grammatical(SampleSum().right);
  }
}
