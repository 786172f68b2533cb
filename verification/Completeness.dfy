/** Completeness of the expression parser: every grammatical tree is what its tokens parse to. */
module Completeness {
  import opened Trees
  import opened Parsing

  // The frames and the operand that are left when all tokens of a tree have been read.
  function Spine(t: Tree): (F: seq<Frame>)
    requires Grammatical(t)
    ensures FramesOk(F)
  {
    match t
    case Unary(op, e) => [Prefix(op)] + Spine(e)
    case Binary(op, l, r) => [Left(l, op)] + Spine(r)
    case _ => []
  }

  function Tip(t: Tree): Tree {
    match t
    case Unary(_, e) => Tip(e)
    case Binary(_, _, r) => Tip(r)
    case _ => t
  }

  // A tree can be read after these waiting operators: none of them takes a part of it.
  predicate Fits(F: seq<Frame>, t: Tree)
    requires FramesOk(F) && Grammatical(t)
  {
    F == [] || Prio(t) > FramePrio(F[|F| - 1])
    || (Prio(t) == FramePrio(F[|F| - 1]) && (F[|F| - 1].Prefix? || F[|F| - 1].op.Assign?))
  }

  lemma {:induction false} PlugSpine(F: seq<Frame>, t: Tree)
    requires Grammatical(t)
    ensures Plug(F + Spine(t), Tip(t)) == Plug(F, t)
    decreases t
  {
    hide Yield;
    match t
    case Unary(op, e) =>
      PlugSpine(F + [Prefix(op)], e);
      assert F + Spine(t) == F + [Prefix(op)] + Spine(e);
      assert (F + [Prefix(op)])[..|F|] == F;
    case Binary(op, l, r) =>
      PlugSpine(F + [Left(l, op)], r);
      assert F + Spine(t) == F + [Left(l, op)] + Spine(r);
      assert (F + [Left(l, op)])[..|F|] == F;
    case _ => assert F + [] == F;
  }

  // An operator that the tree's own operators do not wait for finds the tree complete.
  lemma {:induction false} ReduceSpine(F: seq<Frame>, t: Tree, prio: nat, assoc: Assoc)
    requires Grammatical(t) && FramesOk(F)
    requires Prio(t) > prio || (Prio(t) == prio && assoc.LeftToRight?)
    requires F == [] || Waits(F[|F| - 1], prio, assoc)
    ensures Reduce(F + Spine(t), Tip(t), prio, assoc) == (F, t)
  {
    ReduceSome(F, t, prio, assoc);
  }

  lemma {:induction false} ReduceSome(F: seq<Frame>, t: Tree, prio: nat, assoc: Assoc)
    requires Grammatical(t) && FramesOk(F)
    requires Prio(t) > prio || (Prio(t) == prio && assoc.LeftToRight?)
    ensures Reduce(F + Spine(t), Tip(t), prio, assoc) == Reduce(F, t, prio, assoc)
    decreases t
  {
    hide Yield, Reduce;
    match t
    case Unary(op, e) =>
      ReduceSome(F + [Prefix(op)], e, prio, assoc);
      assert F + Spine(t) == F + [Prefix(op)] + Spine(e);
      ReduceLast(F, Prefix(op), e, prio, assoc);
    case Binary(op, l, r) =>
      ReduceSome(F + [Left(l, op)], r, prio, assoc);
      assert F + Spine(t) == F + [Left(l, op)] + Spine(r);
      ReduceLast(F, Left(l, op), r, prio, assoc);
    case _ => assert F + [] == F;
  }

  lemma ReduceLast(F: seq<Frame>, f: Frame, cur: Tree, prio: nat, assoc: Assoc)
    requires FramesOk(F) && FrameOk(f) && !Waits(f, prio, assoc)
    ensures Reduce(F + [f], cur, prio, assoc) == Reduce(F, Join(f, cur), prio, assoc)
  {
    assert (F + [f])[..|F|] == F;
  }

  // No construct at the end of the tree would go on with the next token as a size.
  predicate Closed(t: Tree, next: Token)
    requires Grammatical(t)
  {
    Tip(t).Sized? ==> !next.SubscriptStart?
  }

  lemma {:induction false} FirstToken(t: Tree)
    requires Grammatical(t)
    ensures |Yield(t)| > 0
    ensures var tok := Yield(t)[0];
            tok.Name? || tok.Literal? || tok.New? || tok.GroupStart? || (tok.Op? && IsPrefix(tok.op))
  {
    match t
    case Binary(_, l, _) => FirstToken(l);
    case Call(f, _) => FirstToken(f);
    case Index(e, _) => FirstToken(e);
    case _ =>
  }

  // The machine's steps, one lemma each.

  lemma StepLeaf(ts: seq<Token>, i: nat, F: seq<Frame>)
    requires FramesOk(F) && (Peek(ts, i).Name? || Peek(ts, i).Literal?)
    ensures i < |ts| && Before(ts, i, F) == After(ts, i + 1, F, Leaf(Peek(ts, i)))
  {
  }

  lemma StepPrefix(ts: seq<Token>, i: nat, F: seq<Frame>, op: Operator)
    requires FramesOk(F) && IsPrefix(op) && Peek(ts, i) == Op(op)
    ensures i < |ts| && Before(ts, i, F) == Before(ts, i + 1, F + [Prefix(op)])
  {
  }

  lemma StepGroup(ts: seq<Token>, i: nat, F: seq<Frame>, e: Tree, j: nat)
    requires i < |ts| && FramesOk(F) && Peek(ts, i) == GroupStart
    requires Parse(ts, i + 1) == Done(e, j) && Peek(ts, j) == GroupEnd
    ensures j < |ts| && Before(ts, i, F) == After(ts, j + 1, F, Group(e))
  {
    hide Parse, After, Items;
  }

  lemma StepNew(ts: seq<Token>, i: nat, F: seq<Frame>, t: Tree, j: nat)
    requires i < |ts| && FramesOk(F) && Peek(ts, i) == New && Alloc(ts, i + 1) == Done(t, j)
    ensures Before(ts, i, F) == After(ts, j, F, t)
  {
    hide Alloc, After, Parse;
  }

  lemma StepInfix(ts: seq<Token>, i: nat, F: seq<Frame>, cur: Tree, op: Operator, G: seq<Frame>, l: Tree)
    requires i <= |ts| && FramesOk(F) && IsInfix(op) && Peek(ts, i) == Op(op)
    requires Reduce(F, cur, InfixPrio(op), InfixAssoc(op)) == (G, l)
    ensures i < |ts| && FramesOk(G) && After(ts, i, F, cur) == Before(ts, i + 1, G + [Left(l, op)])
  {
    hide Reduce, Before, Items, Parse;
  }

  lemma StepCall(ts: seq<Token>, i: nat, F: seq<Frame>, cur: Tree, args: seq<Tree>, j: nat)
    requires i < |ts| && FramesOk(F) && Peek(ts, i) == GroupStart && Items(ts, i + 1, GroupEnd) == Done(args, j)
    ensures After(ts, i, F, cur) == After(ts, j, F, Call(cur, args))
  {
    hide Items, Before, Parse;
  }

  lemma StepIndex(ts: seq<Token>, i: nat, F: seq<Frame>, cur: Tree, e: Tree, j: nat)
    requires i < |ts| && FramesOk(F) && Peek(ts, i) == SubscriptStart
    requires Parse(ts, i + 1) == Done(e, j) && Peek(ts, j) == SubscriptEnd
    ensures j < |ts| && After(ts, i, F, cur) == After(ts, j + 1, F, Index(cur, e))
  {
    hide Items, Before, Parse;
  }

  lemma StepEnd(ts: seq<Token>, i: nat, F: seq<Frame>, cur: Tree)
    requires i <= |ts| && FramesOk(F) && !Continues(Peek(ts, i))
    ensures After(ts, i, F, cur) == Done(Plug(F, cur), i)
  {
    hide Items, Before, Parse, Plug;
  }

  lemma StepSizes(ts: seq<Token>, i: nat, e: Tree, j: nat, es: seq<Tree>, k: nat)
    requires i < |ts| && Peek(ts, i) == SubscriptStart
    requires Parse(ts, i + 1) == Done(e, j) && Peek(ts, j) == SubscriptEnd
    requires j < |ts| && Sizes(ts, j + 1) == Done(es, k)
    ensures Sizes(ts, i) == Done([e] + es, k)
  {
    hide Parse;
  }

  lemma StepSized(ts: seq<Token>, i: nat, ty: ElementType, es: seq<Tree>, j: nat)
    requires i < |ts| && Peek(ts, i) == Type(ty) && Peek(ts, i + 1) == SubscriptStart && !Peek(ts, i + 2).SubscriptEnd?
    requires Sizes(ts, i + 1) == Done(es, j)
    ensures Alloc(ts, i) == Done(Sized(ty, es), j)
  {
    hide Sizes, Items, Empties;
  }

  lemma StepFilled(ts: seq<Token>, i: nat, ty: ElementType, n: nat, j: nat, vs: seq<Tree>, k: nat)
    requires Peek(ts, i) == Type(ty) && Peek(ts, i + 1) == SubscriptStart && Peek(ts, i + 2) == SubscriptEnd
    requires i + 3 <= |ts| && Empties(ts, i + 3) == Done(n, j) && Peek(ts, j) == ScopeStart
    requires j < |ts| && Items(ts, j + 1, ScopeEnd) == Done(vs, k)
    ensures Alloc(ts, i) == Done(Filled(ty, n + 1, vs), k)
  {
    hide Sizes, Items, Empties;
  }

  lemma StepItems(ts: seq<Token>, i: nat, end: Token, es: seq<Tree>, j: nat)
    requires i <= |ts| && end != FileEnd && Peek(ts, i) != end && List(ts, i) == Done(es, j) && Peek(ts, j) == end
    ensures Items(ts, i, end) == Done(es, j + 1)
  {
    hide List;
  }

  lemma StepLast(ts: seq<Token>, i: nat, e: Tree, j: nat)
    requires i <= |ts| && Parse(ts, i) == Done(e, j) && !Peek(ts, j).Separator?
    ensures List(ts, i) == Done([e], j)
  {
    hide Parse;
  }

  lemma StepNext(ts: seq<Token>, i: nat, e: Tree, j: nat, es: seq<Tree>, k: nat)
    requires i <= |ts| && Parse(ts, i) == Done(e, j) && Peek(ts, j).Separator?
    requires j < |ts| && List(ts, j + 1) == Done(es, k)
    ensures List(ts, i) == Done([e] + es, k)
  {
    hide Parse;
  }

  lemma SizesNone(ts: seq<Token>, i: nat)
    requires i <= |ts| && !Peek(ts, i).SubscriptStart?
    ensures Sizes(ts, i) == Done([], i)
  {
  }

  lemma ItemsNone(ts: seq<Token>, i: nat, end: Token)
    requires i <= |ts| && end != FileEnd && Peek(ts, i) == end
    ensures Items(ts, i, end) == Done([], i + 1)
  {
  }

  lemma PlugNone(t: Tree)
    ensures Plug([], t) == t
  {
  }

  lemma Within(ts: seq<Token>, i: nat, ys: seq<Token>)
    requires At(ts, i, ys)
    ensures i + |ys| <= |ts|
  {
  }

  lemma FittingUnary(F: seq<Frame>, t: Tree)
    requires FramesOk(F) && Grammatical(t) && Fits(F, t) && t.Unary?
    ensures FramesOk(F + [Prefix(t.op)]) && Fits(F + [Prefix(t.op)], t.operand)
  {
    hide Yield;
  }

  lemma FittingBinary(F: seq<Frame>, t: Tree)
    requires FramesOk(F) && Grammatical(t) && Fits(F, t) && t.Binary?
    ensures Fits(F, t.left) && FramesOk(F + [Left(t.left, t.op)]) && Fits(F + [Left(t.left, t.op)], t.right)
    ensures F == [] || Waits(F[|F| - 1], InfixPrio(t.op), InfixAssoc(t.op))
  {
    hide Yield;
  }

  lemma FittingPostfix(F: seq<Frame>, t: Tree, e: Tree)
    requires FramesOk(F) && Grammatical(t) && Fits(F, t) && Prio(t) == POSTFIX
    requires Grammatical(e) && Prio(e) >= POSTFIX
    ensures Fits(F, e) && Spine(e) == [] && Tip(e) == e
  {
    hide Yield;
  }

  // Reading the tokens of a tree leaves its waiting operators and its last operand behind.
  lemma {:induction false} Reads(ts: seq<Token>, i: nat, F: seq<Frame>, t: Tree)
    requires FramesOk(F) && Grammatical(t) && Fits(F, t)
    requires At(ts, i, Yield(t)) && Closed(t, Peek(ts, i + |Yield(t)|))
    ensures Before(ts, i, F) == After(ts, i + |Yield(t)|, F + Spine(t), Tip(t))
    decreases t, 1
  {
    hide Before, After, Parse, Items, List, Alloc, Sizes, Empties, Reduce, Plug;
    match t
    case Leaf(tok) => AtOne(ts, i, tok); StepLeaf(ts, i, F); assert F + [] == F;
    case Group(e) => ReadsGroup(ts, i, F, e); assert F + [] == F;
    case Sized(ty, es) => ReadsSized(ts, i, F, ty, es); assert F + [] == F;
    case Filled(ty, n, es) => ReadsFilled(ts, i, F, ty, n, es); assert F + [] == F;
    case Unary(op, e) =>
      AtSplits(ts, i, [Op(op)], Yield(e));
      AtOne(ts, i, Op(op));
      StepPrefix(ts, i, F, op);
      FittingUnary(F, t);
      Reads(ts, i + 1, F + [Prefix(op)], e);
      assert F + Spine(t) == F + [Prefix(op)] + Spine(e);
    case Binary(op, l, r) => ReadsBinary(ts, i, F, op, l, r);
    case Call(f, es) => ReadsCall(ts, i, F, f, es); assert F + [] == F;
    case Index(e, k) => ReadsIndex(ts, i, F, e, k); assert F + [] == F;
  }

  lemma AtBinary(ts: seq<Token>, i: nat, op: Operator, l: Tree, r: Tree)
    requires At(ts, i, Yield(Binary(op, l, r)))
    ensures At(ts, i, Yield(l)) && Peek(ts, i + |Yield(l)|) == Op(op) && At(ts, i + |Yield(l)| + 1, Yield(r))
    ensures |Yield(Binary(op, l, r))| == |Yield(l)| + 1 + |Yield(r)|
  {
    AtSplits(ts, i, Yield(l) + [Op(op)], Yield(r));
    AtSplits(ts, i, Yield(l), [Op(op)]);
    AtOne(ts, i + |Yield(l)|, Op(op));
  }

  lemma BinaryParts(F: seq<Frame>, t: Tree, next: Token)
    requires FramesOk(F) && Grammatical(t) && Fits(F, t) && t.Binary? && Closed(t, next)
    ensures Grammatical(t.left) && Grammatical(t.right) && Closed(t.right, next) && Closed(t.left, Op(t.op))
    ensures IsInfix(t.op) && Spine(t) == [Left(t.left, t.op)] + Spine(t.right) && Tip(t) == Tip(t.right)
    ensures FramesOk(Spine(t.left))
    ensures var p, a := InfixPrio(t.op), InfixAssoc(t.op);
            && (Prio(t.left) > p || (Prio(t.left) == p && a.LeftToRight?))
            && (F == [] || Waits(F[|F| - 1], p, a))
    ensures Fits(F, t.left) && FramesOk(F + [Left(t.left, t.op)]) && Fits(F + [Left(t.left, t.op)], t.right)
  {
    hide Yield;
    FittingBinary(F, t);
  }

  lemma SpinesOk(F: seq<Frame>, G: seq<Frame>)
    requires FramesOk(F) && FramesOk(G)
    ensures FramesOk(F + G)
  {
  }

  lemma {:induction false} ReadsBinary(ts: seq<Token>, i: nat, F: seq<Frame>, op: Operator, l: Tree, r: Tree)
    requires var t := Binary(op, l, r);
             && FramesOk(F) && Grammatical(t) && Fits(F, t)
             && At(ts, i, Yield(t)) && Closed(t, Peek(ts, i + |Yield(t)|))
    ensures var t := Binary(op, l, r);
            Before(ts, i, F) == After(ts, i + |Yield(t)|, F + Spine(t), Tip(t))
    decreases Binary(op, l, r), 0
  {
    var t := Binary(op, l, r);
    hide *;
    BinaryParts(F, t, Peek(ts, i + |Yield(t)|));
    AtBinary(ts, i, op, l, r);
    Within(ts, i, Yield(l));
    var j := i + |Yield(l)|;
    Reads(ts, i, F, l);
    ReduceSpine(F, l, InfixPrio(op), InfixAssoc(op));
    SpinesOk(F, Spine(l));
    StepInfix(ts, j, F + Spine(l), Tip(l), op, F, l);
    Reads(ts, j + 1, F + [Left(l, op)], r);
    assert F + Spine(t) == F + [Left(l, op)] + Spine(r);
  }

  lemma {:induction false} ReadsGroup(ts: seq<Token>, i: nat, F: seq<Frame>, e: Tree)
    requires FramesOk(F) && Grammatical(e) && At(ts, i, Yield(Group(e)))
    ensures Before(ts, i, F) == After(ts, i + |Yield(Group(e))|, F, Group(e))
    decreases Group(e), 0
  {
    hide Before, After, Parse, Items, List, Alloc, Sizes, Empties, Reduce, Plug;
    var j := i + 1 + |Yield(e)|;
    AtSplits(ts, i, [GroupStart] + Yield(e), [GroupEnd]);
    AtSplits(ts, i, [GroupStart], Yield(e));
    AtOne(ts, i, GroupStart);
    AtOne(ts, j, GroupEnd);
    ReadsWhole(ts, i + 1, e);
    StepGroup(ts, i, F, e, j);
  }

  lemma AtCall(ts: seq<Token>, i: nat, f: Tree, es: seq<Tree>)
    requires At(ts, i, Yield(Call(f, es)))
    ensures var j := i + |Yield(f)|;
            && At(ts, i, Yield(f)) && Peek(ts, j) == GroupStart && j < |ts| && At(ts, j + 1, YieldList(es) + [GroupEnd])
    ensures |Yield(Call(f, es))| == |Yield(f)| + |YieldList(es)| + 2
  {
    assert Yield(Call(f, es)) == Yield(f) + ([GroupStart] + (YieldList(es) + [GroupEnd]));
    hide Yield, YieldList;
    AtThen(ts, i, Yield(f), GroupStart, YieldList(es) + [GroupEnd]);
  }

  lemma AtThen(ts: seq<Token>, i: nat, a: seq<Token>, tok: Token, b: seq<Token>)
    requires tok != FileEnd && At(ts, i, a + ([tok] + b))
    ensures var j := i + |a|; At(ts, i, a) && Peek(ts, j) == tok && j < |ts| && At(ts, j + 1, b)
  {
    hide At;
    var j := i + |a|;
    AtSplits(ts, i, a, [tok] + b);
    AtSplits(ts, j, [tok], b);
    AtOne(ts, j, tok);
    Within(ts, j, [tok]);
  }

  lemma {:induction false} ReadsCall(ts: seq<Token>, i: nat, F: seq<Frame>, f: Tree, es: seq<Tree>)
    requires FramesOk(F) && Grammatical(Call(f, es)) && Fits(F, Call(f, es)) && At(ts, i, Yield(Call(f, es)))
    ensures Before(ts, i, F) == After(ts, i + |Yield(Call(f, es))|, F, Call(f, es))
    decreases Call(f, es), 0
  {
    hide Before, After, Parse, Items, Yield, YieldList, At;
    FittingPostfix(F, Call(f, es), f);
    AtCall(ts, i, f, es);
    var j := i + |Yield(f)|;
    Reads(ts, i, F, f);
    assert F + [] == F;
    ReadsItems(ts, j + 1, es, GroupEnd);
    StepCall(ts, j, F, f, es, j + 1 + |YieldList(es)| + 1);
  }

  lemma YieldIndex(e: Tree, k: Tree)
    ensures Yield(Index(e, k)) == Yield(e) + ([SubscriptStart] + (Yield(k) + ([SubscriptEnd] + [])))
  {
  }

  lemma AtIndex(ts: seq<Token>, i: nat, e: Tree, k: Tree)
    requires At(ts, i, Yield(Index(e, k)))
    ensures var j := i + |Yield(e)|;
            && At(ts, i, Yield(e)) && Peek(ts, j) == SubscriptStart && At(ts, j + 1, Yield(k))
            && Peek(ts, j + 1 + |Yield(k)|) == SubscriptEnd && j < |ts|
    ensures |Yield(Index(e, k))| == |Yield(e)| + |Yield(k)| + 2
  {
    hide *;
    YieldIndex(e, k);
    AtPostfix(ts, i, Yield(e), Yield(k));
  }

  lemma AtPostfix(ts: seq<Token>, i: nat, a: seq<Token>, b: seq<Token>)
    requires At(ts, i, a + ([SubscriptStart] + (b + ([SubscriptEnd] + []))))
    ensures var j := i + |a|;
            && At(ts, i, a) && Peek(ts, j) == SubscriptStart && At(ts, j + 1, b)
            && Peek(ts, j + 1 + |b|) == SubscriptEnd && j < |ts|
  {
    hide *;
    AtSplits(ts, i, a, [SubscriptStart] + (b + ([SubscriptEnd] + [])));
    AtBracketed(ts, i + |a|, b, []);
  }

  lemma {:induction false} ReadsIndex(ts: seq<Token>, i: nat, F: seq<Frame>, e: Tree, k: Tree)
    requires FramesOk(F) && Grammatical(Index(e, k)) && Fits(F, Index(e, k)) && At(ts, i, Yield(Index(e, k)))
    ensures Before(ts, i, F) == After(ts, i + |Yield(Index(e, k))|, F, Index(e, k))
    decreases Index(e, k), 0
  {
    hide Before, After, Parse, Yield, At;
    FittingPostfix(F, Index(e, k), e);
    AtIndex(ts, i, e, k);
    var j := i + |Yield(e)|;
    Reads(ts, i, F, e);
    assert F + [] == F;
    ReadsWhole(ts, j + 1, k);
    StepIndex(ts, j, F, e, k, j + 1 + |Yield(k)|);
  }

  lemma YieldSized(ty: ElementType, es: seq<Tree>)
    ensures Yield(Sized(ty, es)) == [New, Type(ty)] + YieldSizes(es)
    ensures |Yield(Sized(ty, es))| == 2 + |YieldSizes(es)|
  {
    hide YieldSizes;
  }

  lemma Reassociate(a: seq<Token>, b: seq<Token>, c: seq<Token>)
    ensures a + b + c == a + (b + c)
  {
  }

  lemma SizesHead(es: seq<Tree>)
    requires es != []
    ensures YieldSizes(es) == [SubscriptStart] + Yield(es[0]) + [SubscriptEnd] + YieldSizes(es[1..])
  {
    hide Yield;
  }

  lemma FirstSize(es: seq<Tree>)
    requires es != []
    ensures YieldSizes(es) == [SubscriptStart] + (Yield(es[0]) + ([SubscriptEnd] + YieldSizes(es[1..])))
  {
    hide *;
    SizesHead(es);
    var a, c := Yield(es[0]), YieldSizes(es[1..]);
    Reassociate([SubscriptStart] + a, [SubscriptEnd], c);
    Reassociate([SubscriptStart], a, [SubscriptEnd] + c);
  }

  lemma SizedParts(ty: ElementType, es: seq<Tree>)
    requires Grammatical(Sized(ty, es))
    ensures es != [] && forall e <- es :: Grammatical(e)
    ensures Yield(Sized(ty, es)) == [New, Type(ty)] + YieldSizes(es)
    ensures YieldSizes(es) == [SubscriptStart] + (Yield(es[0]) + ([SubscriptEnd] + YieldSizes(es[1..])))
    ensures |Yield(Sized(ty, es))| == 2 + |YieldSizes(es)|
  {
    hide *;
    GrammaticalSized(ty, es);
    YieldSized(ty, es);
    FirstSize(es);
  }

  lemma GrammaticalSized(ty: ElementType, es: seq<Tree>)
    ensures Grammatical(Sized(ty, es)) <==> es != [] && forall e <- es :: Grammatical(e)
  {
  }

  lemma {:induction false} ReadsSized(ts: seq<Token>, i: nat, F: seq<Frame>, ty: ElementType, es: seq<Tree>)
    requires var t := Sized(ty, es);
             FramesOk(F) && Grammatical(t) && At(ts, i, Yield(t)) && !Peek(ts, i + |Yield(t)|).SubscriptStart?
    ensures Before(ts, i, F) == After(ts, i + |Yield(Sized(ty, es))|, F, Sized(ty, es))
    decreases Sized(ty, es), 0
  {
    hide *;
    SizedParts(ty, es);
    AllocStart(ts, i, ty, YieldSizes(es));
    var rest := [SubscriptEnd] + YieldSizes(es[1..]);
    AtSplits(ts, i + 2, [SubscriptStart], Yield(es[0]) + rest);
    AtOne(ts, i + 2, SubscriptStart);
    FirstAt(ts, i + 3, es[0], rest);
    ReadsSizes(ts, i + 2, es);
    StepSized(ts, i + 1, ty, es, i + 2 + |YieldSizes(es)|);
    StepNew(ts, i, F, Sized(ty, es), i + 2 + |YieldSizes(es)|);
  }

  lemma AtBracketed(ts: seq<Token>, i: nat, a: seq<Token>, b: seq<Token>)
    requires At(ts, i, [SubscriptStart] + (a + ([SubscriptEnd] + b)))
    ensures var j := i + 1 + |a|;
            && Peek(ts, i) == SubscriptStart && At(ts, i + 1, a) && i < |ts|
            && Peek(ts, j) == SubscriptEnd && At(ts, j + 1, b) && j < |ts|
  {
    var j := i + 1 + |a|;
    AtSplits(ts, i, [SubscriptStart], a + ([SubscriptEnd] + b));
    AtSplits(ts, i + 1, a, [SubscriptEnd] + b);
    AtSplits(ts, j, [SubscriptEnd], b);
    AtOne(ts, i, SubscriptStart);
    AtOne(ts, j, SubscriptEnd);
  }

  lemma AtSizes(ts: seq<Token>, i: nat, es: seq<Tree>)
    requires es != [] && At(ts, i, YieldSizes(es))
    ensures var j := i + 1 + |Yield(es[0])|;
            && Peek(ts, i) == SubscriptStart && At(ts, i + 1, Yield(es[0])) && i < |ts|
            && Peek(ts, j) == SubscriptEnd && At(ts, j + 1, YieldSizes(es[1..])) && j < |ts|
    ensures |YieldSizes(es)| == |Yield(es[0])| + |YieldSizes(es[1..])| + 2
  {
    hide Yield, At;
    assert YieldSizes(es) == [SubscriptStart] + (Yield(es[0]) + ([SubscriptEnd] + YieldSizes(es[1..])));
    hide YieldSizes;
    AtBracketed(ts, i, Yield(es[0]), YieldSizes(es[1..]));
  }

  lemma {:induction false} ReadsSizes(ts: seq<Token>, i: nat, es: seq<Tree>)
    requires forall e <- es :: Grammatical(e)
    requires At(ts, i, YieldSizes(es)) && !Peek(ts, i + |YieldSizes(es)|).SubscriptStart?
    ensures Sizes(ts, i) == Done(es, i + |YieldSizes(es)|)
    decreases es
  {
    hide Parse, Sizes, Yield, At, Grammatical;
    Within(ts, i, YieldSizes(es));
    if es == [] {
      SizesNone(ts, i);
    } else {
      hide YieldSizes;
      AtSizes(ts, i, es);
      var j := i + 1 + |Yield(es[0])|;
      ReadsWhole(ts, i + 1, es[0]);
      ReadsSizes(ts, j + 1, es[1..]);
      StepSizes(ts, i, es[0], j, es[1..], j + 1 + |YieldSizes(es[1..])|);
      assert [es[0]] + es[1..] == es;
    }
  }

  lemma AllocStart(ts: seq<Token>, i: nat, ty: ElementType, ys: seq<Token>)
    requires At(ts, i, [New, Type(ty)] + ys)
    ensures Peek(ts, i) == New && Peek(ts, i + 1) == Type(ty) && At(ts, i + 2, ys)
  {
    AtSplits(ts, i, [New, Type(ty)], ys);
    assert [New, Type(ty)] == [New] + [Type(ty)];
    AtSplits(ts, i, [New], [Type(ty)]);
    AtOne(ts, i, New);
    AtOne(ts, i + 1, Type(ty));
  }

  lemma FirstAt(ts: seq<Token>, i: nat, t: Tree, ys: seq<Token>)
    requires Grammatical(t) && At(ts, i, Yield(t) + ys)
    ensures At(ts, i, Yield(t)) && Peek(ts, i) == Yield(t)[0]
    ensures Peek(ts, i) !in {GroupEnd, SubscriptEnd, ScopeEnd}
  {
    FirstToken(t);
    AtSplits(ts, i, Yield(t), ys);
    assert ts[i..i + |Yield(t)|][0] == ts[i];
  }

  lemma YieldFilled(ty: ElementType, n: nat, es: seq<Tree>)
    requires n > 0
    ensures Yield(Filled(ty, n, es)) ==
      [New, Type(ty)] + ([SubscriptStart] + ([SubscriptEnd] +
        (YieldEmpties(n - 1) + ([ScopeStart] + (YieldList(es) + [ScopeEnd])))))
  {
    hide YieldList;
  }

  lemma AtPair(ts: seq<Token>, i: nat, ys: seq<Token>)
    requires At(ts, i, [SubscriptStart] + ([SubscriptEnd] + ys))
    ensures Peek(ts, i) == SubscriptStart && Peek(ts, i + 1) == SubscriptEnd && i + 1 < |ts| && At(ts, i + 2, ys)
  {
    hide *;
    assert [] + ([SubscriptEnd] + ys) == [SubscriptEnd] + ys;
    AtBracketed(ts, i, [], ys);
  }

  lemma AtFilled(ts: seq<Token>, i: nat, ty: ElementType, n: nat, es: seq<Tree>)
    requires n > 0 && At(ts, i, Yield(Filled(ty, n, es)))
    ensures var j := i + 4 + |YieldEmpties(n - 1)|;
            && Peek(ts, i) == New && Peek(ts, i + 1) == Type(ty) && Peek(ts, i + 2) == SubscriptStart
            && Peek(ts, i + 3) == SubscriptEnd && i + 3 < |ts| && At(ts, i + 4, YieldEmpties(n - 1))
            && Peek(ts, j) == ScopeStart && j < |ts| && At(ts, j + 1, YieldList(es) + [ScopeEnd])
    ensures |Yield(Filled(ty, n, es))| == 6 + |YieldEmpties(n - 1)| + |YieldList(es)|
  {
    hide *;
    YieldFilled(ty, n, es);
    var rest := [ScopeStart] + (YieldList(es) + [ScopeEnd]);
    var empties := YieldEmpties(n - 1);
    AllocStart(ts, i, ty, [SubscriptStart] + ([SubscriptEnd] + (empties + rest)));
    AtPair(ts, i + 2, empties + rest);
    AtThen(ts, i + 4, empties, ScopeStart, YieldList(es) + [ScopeEnd]);
  }

  lemma {:induction false} ReadsFilled(ts: seq<Token>, i: nat, F: seq<Frame>, ty: ElementType, n: nat, es: seq<Tree>)
    requires FramesOk(F) && Grammatical(Filled(ty, n, es)) && At(ts, i, Yield(Filled(ty, n, es)))
    ensures Before(ts, i, F) == After(ts, i + |Yield(Filled(ty, n, es))|, F, Filled(ty, n, es))
    decreases Filled(ty, n, es), 0
  {
    hide Before, After, Parse, Items, Empties, Alloc, Yield, YieldList, YieldEmpties, At;
    AtFilled(ts, i, ty, n, es);
    var j := i + 4 + |YieldEmpties(n - 1)|;
    ReadsEmpties(ts, i + 4, n - 1);
    ReadsItems(ts, j + 1, es, ScopeEnd);
    var k := j + 1 + |YieldList(es)| + 1;
    StepFilled(ts, i + 1, ty, n - 1, j, es, k);
    StepNew(ts, i, F, Filled(ty, n, es), k);
  }

  lemma {:induction false} ReadsEmpties(ts: seq<Token>, i: nat, n: nat)
    requires At(ts, i, YieldEmpties(n)) && !Peek(ts, i + |YieldEmpties(n)|).SubscriptStart?
    ensures Empties(ts, i) == Done(n, i + |YieldEmpties(n)|)
    decreases n
  {
    if n > 0 {
      assert YieldEmpties(n) == [SubscriptStart] + ([SubscriptEnd] + YieldEmpties(n - 1));
      AtSplits(ts, i, [SubscriptStart], [SubscriptEnd] + YieldEmpties(n - 1));
      AtSplits(ts, i + 1, [SubscriptEnd], YieldEmpties(n - 1));
      AtOne(ts, i, SubscriptStart);
      AtOne(ts, i + 1, SubscriptEnd);
      ReadsEmpties(ts, i + 2, n - 1);
    }
  }

  lemma {:induction false} ReadsItems(ts: seq<Token>, i: nat, es: seq<Tree>, end: Token)
    requires (forall e <- es :: Grammatical(e)) && end in {GroupEnd, ScopeEnd}
    requires At(ts, i, YieldList(es) + [end])
    ensures Items(ts, i, end) == Done(es, i + |YieldList(es)| + 1)
    decreases es, 2
  {
    hide Before, After, Parse, Items, List, Alloc, Sizes, Empties, Reduce, Plug;
    AtSplits(ts, i, YieldList(es), [end]);
    AtOne(ts, i + |YieldList(es)|, end);
    if es != [] {
      var rest := if |es| == 1 then [] else [Separator] + YieldList(es[1..]);
      assert YieldList(es) == Yield(es[0]) + rest;
      FirstAt(ts, i, es[0], rest);
      ReadsList(ts, i, es);
      StepItems(ts, i, end, es, i + |YieldList(es)|);
    } else {
      assert YieldList(es) == [] && i + |YieldList(es)| == i;
      ItemsNone(ts, i, end);
    }
  }

  lemma AtSeparated(ts: seq<Token>, i: nat, a: seq<Token>, b: seq<Token>)
    requires At(ts, i, a + ([Separator] + b))
    ensures var j := i + |a|; At(ts, i, a) && Peek(ts, j) == Separator && j < |ts| && At(ts, j + 1, b)
  {
    hide *;
    AtThen(ts, i, a, Separator, b);
  }

  lemma AtList(ts: seq<Token>, i: nat, es: seq<Tree>)
    requires |es| > 1 && At(ts, i, YieldList(es))
    ensures var j := i + |Yield(es[0])|;
            && At(ts, i, Yield(es[0])) && Peek(ts, j) == Separator && j < |ts| && At(ts, j + 1, YieldList(es[1..]))
    ensures |YieldList(es)| == |Yield(es[0])| + 1 + |YieldList(es[1..])|
  {
    hide *;
    ListYield(es);
    AtSeparated(ts, i, Yield(es[0]), YieldList(es[1..]));
  }

  lemma ListYield(es: seq<Tree>)
    requires |es| > 1
    ensures YieldList(es) == Yield(es[0]) + ([Separator] + YieldList(es[1..]))
  {
    hide Yield;
  }

  lemma {:induction false} ReadsList(ts: seq<Token>, i: nat, es: seq<Tree>)
    requires es != [] && forall e <- es :: Grammatical(e)
    requires At(ts, i, YieldList(es)) && Peek(ts, i + |YieldList(es)|) in {GroupEnd, ScopeEnd}
    ensures List(ts, i) == Done(es, i + |YieldList(es)|)
    decreases es, 1
  {
    hide Parse, List, Yield, At, Grammatical;
    Within(ts, i, YieldList(es));
    if |es| == 1 {
      assert es == [es[0]];
      ReadsWhole(ts, i, es[0]);
      StepLast(ts, i, es[0], i + |Yield(es[0])|);
    } else {
      AtList(ts, i, es);
      hide YieldList;
      var j := i + |Yield(es[0])|;
      ReadsWhole(ts, i, es[0]);
      ReadsList(ts, j + 1, es[1..]);
      StepNext(ts, i, es[0], j, es[1..], j + 1 + |YieldList(es[1..])|);
      assert [es[0]] + es[1..] == es;
    }
  }

  // Every grammatical tree is what its tokens parse to, wherever no expression goes on after them.
  lemma {:induction false} ReadsWhole(ts: seq<Token>, i: nat, t: Tree)
    requires Grammatical(t) && At(ts, i, Yield(t)) && !Continues(Peek(ts, i + |Yield(t)|))
    ensures Parse(ts, i) == Done(t, i + |Yield(t)|)
    decreases t, 2
  {
    hide Before, After, Items, List, Alloc, Sizes, Empties, Reduce, Plug;
    Reads(ts, i, [], t);
    PlugSpine([], t);
    StepEnd(ts, i + |Yield(t)|, [] + Spine(t), Tip(t));
    assert Plug([], t) == t by { PlugNone(t); }
  }
}
