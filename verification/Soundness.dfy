/** Soundness of the expression parser: the tree it returns has exactly the consumed tokens and
    follows the grammar. */
module Soundness {
  import opened Trees
  import opened Parsing
  import opened Completeness

  // The tokens ys are those from i up to j.
  predicate Spans(ts: seq<Token>, i: nat, j: nat, ys: seq<Token>) { At(ts, i, ys) && j == i + |ys| }

  lemma SpansJoin(ts: seq<Token>, i: nat, j: nat, k: nat, a: seq<Token>, b: seq<Token>)
    requires Spans(ts, i, j, a) && Spans(ts, j, k, b)
    ensures Spans(ts, i, k, a + b)
  {
    AtSplits(ts, i, a, b);
  }

  lemma SpansOne(ts: seq<Token>, i: nat)
    requires i < |ts|
    ensures Spans(ts, i, i + 1, [Peek(ts, i)])
  {
  }

  // The operators that wait bind ever tighter, and each left operand fits its place.
  predicate Stacked(F: seq<Frame>) {
    && FramesOk(F)
    && (forall f <- F :: LeftOk(f))
    && (forall k :: 0 < k < |F| ==> Above(F[k - 1], F[k]))
  }

  predicate LeftOk(f: Frame)
    requires FrameOk(f)
  {
    f.Left? ==> (
      && Grammatical(f.left)
      && if f.op.Assign? then Prio(f.left) > InfixPrio(f.op) else Prio(f.left) >= InfixPrio(f.op))
  }

  predicate Above(f: Frame, g: Frame)
    requires FrameOk(f) && FrameOk(g)
  {
    FramePrio(g) > FramePrio(f) || (FramePrio(g) == FramePrio(f) && (f.Prefix? || f.op.Assign?))
  }

  function FrameYield(f: Frame): seq<Token> { if f.Left? then Yield(f.left) + [Op(f.op)] else [Op(f.op)] }

  function FramesYield(F: seq<Frame>): seq<Token> {
    if F == [] then [] else FramesYield(F[..|F| - 1]) + FrameYield(F[|F| - 1])
  }

  lemma Pushed(F: seq<Frame>, f: Frame)
    requires Stacked(F) && FrameOk(f) && LeftOk(f) && (F == [] || Above(F[|F| - 1], f))
    ensures Stacked(F + [f]) && FramesYield(F + [f]) == FramesYield(F) + FrameYield(f)
  {
    hide FramePrio, LeftOk, Above, FrameYield;
    var G := F + [f];
    assert G[..|G| - 1] == F;
    forall k | 0 < k < |G| ensures Above(G[k - 1], G[k]) {
      if k < |F| {
        assert Above(F[k - 1], F[k]);
      }
    }
  }

  // Giving the operand to the innermost waiting operator keeps all of this.
  lemma Joined(F: seq<Frame>, cur: Tree)
    requires F != [] && Stacked(F) && Grammatical(cur) && Fits(F, cur)
    ensures var G, f := F[..|F| - 1], F[|F| - 1];
            && Stacked(G) && FrameOk(f) && Grammatical(Join(f, cur)) && Fits(G, Join(f, cur))
            && Prio(Join(f, cur)) == FramePrio(f)
            && FramesYield(F) + Yield(cur) == FramesYield(G) + Yield(Join(f, cur))
  {
    hide FramesYield;
    var G, f := F[..|F| - 1], F[|F| - 1];
    JoinGrammatical(f, cur);
    JoinYields(F, cur);
    if G != [] {
      assert Above(F[|F| - 2], F[|F| - 1]);
      assert G[|G| - 1] == F[|F| - 2];
    }
  }

  lemma JoinGrammatical(f: Frame, cur: Tree)
    requires FrameOk(f) && LeftOk(f) && Grammatical(cur) && Fits([f], cur)
    ensures Grammatical(Join(f, cur)) && Prio(Join(f, cur)) == FramePrio(f)
  {
    hide Yield;
  }

  lemma JoinYield(f: Frame, cur: Tree)
    ensures Yield(Join(f, cur)) == FrameYield(f) + Yield(cur)
  {
  }

  lemma JoinYields(F: seq<Frame>, cur: Tree)
    requires F != []
    ensures FramesYield(F) + Yield(cur) == FramesYield(F[..|F| - 1]) + Yield(Join(F[|F| - 1], cur))
  {
    var f := F[|F| - 1];
    var ys := FramesYield(F[..|F| - 1]);
    assert FramesYield(F) == ys + FrameYield(f);
    hide FramesYield;
    JoinYield(f, cur);
    hide Yield, FrameYield, Join;
    assert (ys + FrameYield(f)) + Yield(cur) == ys + (FrameYield(f) + Yield(cur));
  }

  // An operand of at least this strength may stand left of the next operator.
  predicate Strong(cur: Tree, prio: nat, assoc: Assoc)
    requires Grammatical(cur)
  {
    Prio(cur) > prio || (Prio(cur) == prio && assoc.LeftToRight?)
  }

  lemma {:induction false} ReduceSound(F: seq<Frame>, cur: Tree, prio: nat, assoc: Assoc)
    requires Stacked(F) && Grammatical(cur) && Fits(F, cur) && Strong(cur, prio, assoc)
    ensures var r := Reduce(F, cur, prio, assoc);
            && Stacked(r.0) && Grammatical(r.1) && Strong(r.1, prio, assoc)
            && (r.0 == [] || Waits(r.0[|r.0| - 1], prio, assoc))
            && FramesYield(F) + Yield(cur) == FramesYield(r.0) + Yield(r.1)
    decreases F
  {
    hide Yield, FramesYield, Grammatical, LeftOk, Above;
    if F != [] && !Waits(F[|F| - 1], prio, assoc) {
      Joined(F, cur);
      hide Prio;
      ReduceSound(F[..|F| - 1], Join(F[|F| - 1], cur), prio, assoc);
    }
  }

  lemma {:induction false} PlugSound(F: seq<Frame>, cur: Tree)
    requires Stacked(F) && Grammatical(cur) && Fits(F, cur)
    ensures Grammatical(Plug(F, cur)) && Yield(Plug(F, cur)) == FramesYield(F) + Yield(cur)
    decreases F
  {
    hide Yield, Grammatical, LeftOk, Above;
    if F != [] {
      Joined(F, cur);
      PlugSound(F[..|F| - 1], Join(F[|F| - 1], cur));
    } else {
      assert [] + Yield(cur) == Yield(cur);
    }
  }

  predicate Good(r: Outcome<Tree>, ts: seq<Token>, i: nat) { r.Done? ==> IsExpr(ts, i, r.value, r.next) }

  predicate GoodList(r: Outcome<seq<Tree>>, ts: seq<Token>, i: nat, end: seq<Token>) {
    r.Done? ==> (forall e <- r.value :: Grammatical(e)) && Spans(ts, i, r.next, YieldList(r.value) + end)
  }

  predicate GoodAlloc(r: Outcome<Tree>, ts: seq<Token>, i: nat) {
    r.Done? ==>
      && Grammatical(r.value) && Prio(r.value) == ATOM && Spans(ts, i, r.next, Yield(r.value))
      && (r.value.Sized? ==> !Peek(ts, r.next).SubscriptStart?)
  }

  predicate GoodSizes(r: Outcome<seq<Tree>>, ts: seq<Token>, i: nat) {
    r.Done? ==>
      && (forall e <- r.value :: Grammatical(e)) && Spans(ts, i, r.next, YieldSizes(r.value))
      && !Peek(ts, r.next).SubscriptStart?
  }

  // What the parser returns is an expression of the tokens it consumed.
  lemma {:induction false} ParseSound(ts: seq<Token>, i: nat)
    requires i <= |ts|
    ensures Good(Parse(ts, i), ts, i)
    decreases |ts| - i, 3
  {
    hide Before;
    BeforeSound(ts, i, i, []);
  }

  lemma {:induction false} BeforeSound(ts: seq<Token>, s: nat, i: nat, F: seq<Frame>)
    requires Stacked(F) && Spans(ts, s, i, FramesYield(F))
    ensures Good(Before(ts, i, F), ts, s)
    decreases |ts| - i, 2
  {
    hide Good, Parse, After, Alloc, Yield, FramesYield, Grammatical;
    var tok := Peek(ts, i);
    if tok.Name? || tok.Literal? {
      SpansOne(ts, i);
      LeafSound(tok);
      AfterSound(ts, s, i, i + 1, F, Leaf(tok));
    } else if tok.New? {
      AllocSound(ts, i);
      var r := Alloc(ts, i + 1);
      if r.Done? {
        AfterSound(ts, s, i, r.next, F, r.value);
      } else {
        assert Good(Outcome<Tree>.Unexpected(r.at), ts, s) by { Failing(r.at, ts, s); }
      }
    } else if tok.GroupStart? {
      ParseSound(ts, i + 1);
      var r := Parse(ts, i + 1);
      if r.Done? && Peek(ts, r.next).GroupEnd? {
        GroupSound(ts, i, r.value, r.next);
        AfterSound(ts, s, i, r.next + 1, F, Group(r.value));
      } else {
        Failing(if r.Done? then r.next else r.at, ts, s);
      }
    } else if tok.Op? && IsPrefix(tok.op) {
      SpansOne(ts, i);
      PushPrefix(F, tok.op);
      SpansJoin(ts, s, i, i + 1, FramesYield(F), [tok]);
      BeforeSound(ts, s, i + 1, F + [Prefix(tok.op)]);
    } else {
      Failing(i, ts, s);
    }
  }

  lemma Failing(at: nat, ts: seq<Token>, s: nat)
    ensures Good(Unexpected(at), ts, s)
  {
  }

  lemma LeafSound(tok: Token)
    requires tok.Name? || tok.Literal?
    ensures Grammatical(Leaf(tok)) && Yield(Leaf(tok)) == [tok]
  {
  }

  lemma GroupSound(ts: seq<Token>, i: nat, e: Tree, j: nat)
    requires Peek(ts, i) == GroupStart && Good(Done(e, j), ts, i + 1) && Peek(ts, j) == GroupEnd
    ensures Grammatical(Group(e)) && Spans(ts, i, j + 1, Yield(Group(e)))
  {
    SpansOne(ts, i);
    SpansJoin(ts, i, i + 1, j, [GroupStart], Yield(e));
    SpansOne(ts, j);
    SpansJoin(ts, i, j, j + 1, [GroupStart] + Yield(e), [GroupEnd]);
  }

  lemma PushPrefix(F: seq<Frame>, op: Operator)
    requires Stacked(F) && IsPrefix(op)
    ensures Stacked(F + [Prefix(op)]) && FramesYield(F + [Prefix(op)]) == FramesYield(F) + [Op(op)]
  {
    Pushed(F, Prefix(op));
  }

  // After an operand: cur, whose tokens run from m to i, binds at least as tightly as a call.
  lemma {:induction false} AfterSound(ts: seq<Token>, s: nat, m: nat, i: nat, F: seq<Frame>, cur: Tree)
    requires Stacked(F) && Spans(ts, s, m, FramesYield(F))
    requires Grammatical(cur) && Prio(cur) >= POSTFIX && Spans(ts, m, i, Yield(cur))
    requires cur.Sized? ==> !Peek(ts, i).SubscriptStart?
    ensures Good(After(ts, i, F, cur), ts, s)
    decreases |ts| - i, 1
  {
    hide Good, Parse, Before, Items, Yield, FramesYield, Grammatical, Reduce, Plug, Prio;
    var tok := Peek(ts, i);
    if tok.GroupStart? {
      ItemsSound(ts, i + 1, GroupEnd);
      var r := Items(ts, i + 1, GroupEnd);
      if r.Done? {
        CallSound(ts, m, i, cur, r.value, r.next);
        AfterSound(ts, s, m, r.next, F, Call(cur, r.value));
      } else {
        Failing(r.at, ts, s);
      }
    } else if tok.SubscriptStart? {
      ParseSound(ts, i + 1);
      var r := Parse(ts, i + 1);
      if r.Done? && Peek(ts, r.next).SubscriptEnd? {
        IndexSound(ts, m, i, cur, r.value, r.next);
        AfterSound(ts, s, m, r.next + 1, F, Index(cur, r.value));
      } else {
        Failing(if r.Done? then r.next else r.at, ts, s);
      }
    } else if tok.Op? && IsInfix(tok.op) {
      InfixSound(ts, s, m, i, F, cur, tok.op);
      var r := Reduce(F, cur, InfixPrio(tok.op), InfixAssoc(tok.op));
      BeforeSound(ts, s, i + 1, r.0 + [Left(r.1, tok.op)]);
    } else {
      EndSound(ts, s, m, i, F, cur);
    }
  }

  lemma Present(ts: seq<Token>, i: nat)
    requires Peek(ts, i) != FileEnd
    ensures i < |ts|
  {
  }

  lemma CallSound(ts: seq<Token>, m: nat, i: nat, cur: Tree, es: seq<Tree>, j: nat)
    requires Grammatical(cur) && Prio(cur) >= POSTFIX && Spans(ts, m, i, Yield(cur)) && Peek(ts, i) == GroupStart
    requires GoodList(Done(es, j), ts, i + 1, [GroupEnd])
    ensures Grammatical(Call(cur, es)) && Prio(Call(cur, es)) == POSTFIX && Spans(ts, m, j, Yield(Call(cur, es)))
  {
    hide *;
    GoodListIs(ts, i + 1, es, j, [GroupEnd]);
    CallGrammar(cur, es);
    Present(ts, i);
    SpansOne(ts, i);
    SpansJoin(ts, i, i + 1, j, [GroupStart], YieldList(es) + [GroupEnd]);
    SpansJoin(ts, m, i, j, Yield(cur), [GroupStart] + (YieldList(es) + [GroupEnd]));
  }

  lemma IndexGrammar(cur: Tree, e: Tree)
    requires Grammatical(cur) && Prio(cur) >= POSTFIX && !cur.Sized? && Grammatical(e)
    ensures Grammatical(Index(cur, e)) && Prio(Index(cur, e)) == POSTFIX
    ensures Yield(Index(cur, e)) == Yield(cur) + ([SubscriptStart] + (Yield(e) + [SubscriptEnd]))
  {
  }

  lemma CallGrammar(cur: Tree, es: seq<Tree>)
    requires Grammatical(cur) && Prio(cur) >= POSTFIX && forall e <- es :: Grammatical(e)
    ensures Grammatical(Call(cur, es)) && Prio(Call(cur, es)) == POSTFIX
    ensures Yield(Call(cur, es)) == Yield(cur) + ([GroupStart] + (YieldList(es) + [GroupEnd]))
  {
    hide YieldList;
  }

  lemma GoodIs(ts: seq<Token>, i: nat, e: Tree, j: nat)
    requires Good(Done(e, j), ts, i)
    ensures Grammatical(e) && Spans(ts, i, j, Yield(e))
  {
    hide Grammatical, Yield;
  }

  lemma GoodListIs(ts: seq<Token>, i: nat, es: seq<Tree>, j: nat, end: seq<Token>)
    requires GoodList(Done(es, j), ts, i, end)
    ensures (forall e <- es :: Grammatical(e)) && Spans(ts, i, j, YieldList(es) + end)
  {
    hide Grammatical, YieldList, Spans;
  }

  lemma IndexSound(ts: seq<Token>, m: nat, i: nat, cur: Tree, e: Tree, j: nat)
    requires Grammatical(cur) && Prio(cur) >= POSTFIX && !cur.Sized? && Spans(ts, m, i, Yield(cur))
    requires Peek(ts, i) == SubscriptStart && Good(Done(e, j), ts, i + 1) && Peek(ts, j) == SubscriptEnd
    ensures var t := Index(cur, e); Grammatical(t) && Prio(t) == POSTFIX && Spans(ts, m, j + 1, Yield(t))
  {
    hide *;
    GoodIs(ts, i + 1, e, j);
    IndexGrammar(cur, e);
    Present(ts, i);
    Present(ts, j);
    SpansOne(ts, i);
    SpansOne(ts, j);
    SpansJoin(ts, i + 1, j, j + 1, Yield(e), [SubscriptEnd]);
    SpansJoin(ts, i, i + 1, j + 1, [SubscriptStart], Yield(e) + [SubscriptEnd]);
    SpansJoin(ts, m, i, j + 1, Yield(cur), [SubscriptStart] + (Yield(e) + [SubscriptEnd]));
  }

  lemma TipFits(F: seq<Frame>, cur: Tree)
    requires FramesOk(F) && Grammatical(cur) && Prio(cur) >= POSTFIX
    ensures Fits(F, cur)
    ensures forall op | IsInfix(op) :: Strong(cur, InfixPrio(op), InfixAssoc(op))
  {
    hide Grammatical;
  }

  lemma InfixSound(ts: seq<Token>, s: nat, m: nat, i: nat, F: seq<Frame>, cur: Tree, op: Operator)
    requires Stacked(F) && Spans(ts, s, m, FramesYield(F))
    requires Grammatical(cur) && Prio(cur) >= POSTFIX && Spans(ts, m, i, Yield(cur))
    requires IsInfix(op) && Peek(ts, i) == Op(op)
    ensures var r := Reduce(F, cur, InfixPrio(op), InfixAssoc(op));
            Stacked(r.0 + [Left(r.1, op)]) && Spans(ts, s, i + 1, FramesYield(r.0 + [Left(r.1, op)]))
  {
    hide Yield, FramesYield, Grammatical, Reduce, Prio, Stacked;
    StackedOk(F);
    TipFits(F, cur);
    ReduceSound(F, cur, InfixPrio(op), InfixAssoc(op));
    var (G, l) := Reduce(F, cur, InfixPrio(op), InfixAssoc(op));
    PushLeft(G, l, op);
    SpansOne(ts, i);
    SpansJoin(ts, s, m, i, FramesYield(F), Yield(cur));
    SpansJoin(ts, s, i, i + 1, FramesYield(F) + Yield(cur), [Op(op)]);
    assert (FramesYield(G) + Yield(l)) + [Op(op)] == FramesYield(G) + (Yield(l) + [Op(op)]);
  }

  lemma StackedOk(F: seq<Frame>)
    requires Stacked(F)
    ensures FramesOk(F)
  {
  }

  lemma PushLeft(G: seq<Frame>, l: Tree, op: Operator)
    requires Stacked(G) && IsInfix(op) && Grammatical(l) && Strong(l, InfixPrio(op), InfixAssoc(op))
    requires G == [] || Waits(G[|G| - 1], InfixPrio(op), InfixAssoc(op))
    ensures Stacked(G + [Left(l, op)])
    ensures FramesYield(G + [Left(l, op)]) == FramesYield(G) + (Yield(l) + [Op(op)])
  {
    hide Yield, FramesYield, Grammatical;
    Pushed(G, Left(l, op));
  }

  lemma EndSound(ts: seq<Token>, s: nat, m: nat, i: nat, F: seq<Frame>, cur: Tree)
    requires Stacked(F) && Spans(ts, s, m, FramesYield(F))
    requires Grammatical(cur) && Prio(cur) >= POSTFIX && Spans(ts, m, i, Yield(cur))
    requires !Continues(Peek(ts, i))
    ensures Good(Done(Plug(F, cur), i), ts, s)
  {
    hide Yield, FramesYield, Grammatical, Plug, Prio;
    TipFits(F, cur);
    PlugSound(F, cur);
    SpansJoin(ts, s, m, i, FramesYield(F), Yield(cur));
  }

  lemma {:induction false} ItemsSound(ts: seq<Token>, i: nat, end: Token)
    requires i <= |ts| && end != FileEnd
    ensures GoodList(Items(ts, i, end), ts, i, [end])
    decreases |ts| - i, 5
  {
    hide List, Grammatical;
    if Peek(ts, i) == end {
      SpansOne(ts, i);
    } else {
      ListSound(ts, i);
      var r := List(ts, i);
      if r.Done? && Peek(ts, r.next) == end {
        SpansOne(ts, r.next);
        SpansJoin(ts, i, r.next, r.next + 1, YieldList(r.value), [end]);
      }
    }
  }

  // One expression and the list behind a separator.
  lemma GoodRest(ts: seq<Token>, i: nat, e: Tree, j: nat, es: seq<Tree>, k: nat)
    requires Good(Done(e, j), ts, i) && Peek(ts, j).Separator? && es != []
    requires (forall t <- es :: Grammatical(t)) && Spans(ts, j + 1, k, YieldList(es))
    ensures forall t <- [e] + es :: Grammatical(t)
    ensures Spans(ts, i, k, YieldList([e] + es))
  {
    hide Grammatical, Yield;
    SpansOne(ts, j);
    SpansJoin(ts, i, j, j + 1, Yield(e), [Separator]);
    SpansJoin(ts, i, j + 1, k, Yield(e) + [Separator], YieldList(es));
    assert ([e] + es)[1..] == es;
  }

  lemma GoodSingle(ts: seq<Token>, i: nat, e: Tree, j: nat)
    requires Good(Done(e, j), ts, i)
    ensures forall t <- [e] :: Grammatical(t)
    ensures Spans(ts, i, j, YieldList([e]))
  {
    hide Grammatical, Yield;
  }

  lemma GoodPlain(ts: seq<Token>, i: nat, es: seq<Tree>, j: nat)
    requires (forall t <- es :: Grammatical(t)) && Spans(ts, i, j, YieldList(es))
    ensures GoodList(Done(es, j), ts, i, [])
  {
    hide Grammatical, Spans, YieldList;
    assert YieldList(es) + [] == YieldList(es);
  }

  lemma {:induction false} ListSound(ts: seq<Token>, i: nat)
    requires i <= |ts|
    ensures GoodList(List(ts, i), ts, i, [])
    ensures var r := List(ts, i); r.Done? ==> r.value != [] && Spans(ts, i, r.next, YieldList(r.value))
    decreases |ts| - i, 4
  {
    hide Parse, Grammatical, Yield, Spans, YieldList;
    ParseSound(ts, i);
    var r := Parse(ts, i);
    if r.Done? {
      if Peek(ts, r.next).Separator? {
        ListSound(ts, r.next + 1);
        var q := List(ts, r.next + 1);
        if q.Done? {
          GoodRest(ts, i, r.value, r.next, q.value, q.next);
          GoodPlain(ts, i, [r.value] + q.value, q.next);
        }
      } else {
        GoodSingle(ts, i, r.value, r.next);
        GoodPlain(ts, i, [r.value], r.next);
      }
    }
  }

  lemma {:induction false} EmptiesSound(ts: seq<Token>, i: nat)
    requires i <= |ts|
    ensures var r := Empties(ts, i); r.Done? ==> Spans(ts, i, r.next, YieldEmpties(r.value))
    decreases |ts| - i
  {
    if Peek(ts, i).SubscriptStart? && Peek(ts, i + 1).SubscriptEnd? {
      EmptiesSound(ts, i + 2);
      var r := Empties(ts, i + 2);
      if r.Done? {
        SpansPair(ts, i);
        SpansJoin(ts, i, i + 2, r.next, [SubscriptStart, SubscriptEnd], YieldEmpties(r.value));
      }
    }
  }

  lemma SpansPair(ts: seq<Token>, i: nat)
    requires i + 1 < |ts|
    ensures Spans(ts, i, i + 2, [Peek(ts, i), Peek(ts, i + 1)])
  {
  }

  lemma {:induction false} AllocSound(ts: seq<Token>, i: nat)
    requires i < |ts| && Peek(ts, i) == New
    ensures GoodAlloc(Alloc(ts, i + 1), ts, i)
    decreases |ts| - i, 1
  {
    hide Sizes, Items, Empties, Yield, GoodAlloc, Spans, YieldEmpties, GoodList, GoodSizes;
    if Peek(ts, i + 1).Type? && Peek(ts, i + 2).SubscriptStart? {
      if Peek(ts, i + 3).SubscriptEnd? {
        EmptiesSound(ts, i + 4);
        var r := Empties(ts, i + 4);
        if r.Done? && Peek(ts, r.next).ScopeStart? {
          ItemsSound(ts, r.next + 1, ScopeEnd);
          var q := Items(ts, r.next + 1, ScopeEnd);
          if q.Done? {
            FilledSound(ts, i, r.value, r.next, q.value, q.next);
          } else {
            NoAlloc(q.at, ts, i);
          }
        } else {
          NoAlloc(if r.Done? then r.next else r.at, ts, i);
        }
      } else {
        SizesSound(ts, i + 2);
        var r := Sizes(ts, i + 2);
        if r.Done? {
          SizedSound(ts, i, r.value, r.next);
        } else {
          NoAlloc(r.at, ts, i);
        }
      }
    } else {
      NoAlloc(if !Peek(ts, i + 1).Type? then i + 1 else i + 2, ts, i);
    }
  }

  lemma NoAlloc(at: nat, ts: seq<Token>, i: nat)
    ensures GoodAlloc(Unexpected(at), ts, i)
  {
  }

  lemma SizedSound(ts: seq<Token>, i: nat, es: seq<Tree>, j: nat)
    requires i + 1 < |ts| && ts[i] == New && ts[i + 1].Type? && Peek(ts, i + 2).SubscriptStart?
    requires GoodSizes(Done(es, j), ts, i + 2)
    ensures GoodAlloc(Done(Sized(ts[i + 1].ty, es), j), ts, i)
  {
    hide Prio, YieldSizes;
    SpansPair(ts, i);
    SpansJoin(ts, i, i + 2, j, [New, ts[i + 1]], YieldSizes(es));
    NoSizes(ts, i + 2, es, j);
    AtomPrio(Sized(ts[i + 1].ty, es));
  }

  lemma AtomPrio(t: Tree)
    requires t.Sized? || t.Filled?
    ensures Prio(t) == ATOM
  {
  }

  lemma NoSizes(ts: seq<Token>, i: nat, es: seq<Tree>, j: nat)
    requires Peek(ts, i).SubscriptStart? && GoodSizes(Done(es, j), ts, i)
    ensures es != []
  {
  }

  lemma FilledSound(ts: seq<Token>, i: nat, n: nat, j: nat, es: seq<Tree>, k: nat)
    requires i + 3 < |ts| && ts[i] == New && ts[i + 1].Type? && ts[i + 2] == SubscriptStart && ts[i + 3] == SubscriptEnd
    requires Spans(ts, i + 4, j, YieldEmpties(n)) && Peek(ts, j) == ScopeStart
    requires GoodList(Done(es, k), ts, j + 1, [ScopeEnd])
    ensures GoodAlloc(Done(Filled(ts[i + 1].ty, n + 1, es), k), ts, i)
  {
    hide Prio, YieldList, Spans;
    var head := [New, ts[i + 1]];
    var tail := [ScopeStart] + (YieldList(es) + [ScopeEnd]);
    SpansPair(ts, i);
    SpansPair(ts, i + 2);
    SpansOne(ts, j);
    SpansJoin(ts, j, j + 1, k, [ScopeStart], YieldList(es) + [ScopeEnd]);
    SpansJoin(ts, i + 4, j, k, YieldEmpties(n), tail);
    SpansJoin(ts, i + 2, i + 4, k, [SubscriptStart, SubscriptEnd], YieldEmpties(n) + tail);
    SpansJoin(ts, i, i + 2, k, head, [SubscriptStart, SubscriptEnd] + (YieldEmpties(n) + tail));
    FilledYield(ts[i + 1].ty, n, es);
    AtomPrio(Filled(ts[i + 1].ty, n + 1, es));
  }

  lemma FilledYield(ty: ElementType, n: nat, es: seq<Tree>)
    ensures Yield(Filled(ty, n + 1, es))
         == [New, Type(ty)] +
           ([SubscriptStart, SubscriptEnd] + (YieldEmpties(n) + ([ScopeStart] + (YieldList(es) + [ScopeEnd]))))
  {
    hide YieldList;
    assert YieldEmpties(n + 1) == [SubscriptStart, SubscriptEnd] + YieldEmpties(n);
  }

  lemma SpansBracketed(ts: seq<Token>, i: nat, j: nat, k: nat, a: seq<Token>, b: seq<Token>)
    requires Peek(ts, i) == SubscriptStart && Spans(ts, i + 1, j, a)
    requires Peek(ts, j) == SubscriptEnd && Spans(ts, j + 1, k, b)
    ensures Spans(ts, i, k, [SubscriptStart] + a + [SubscriptEnd] + b)
  {
    hide At;
    SpansOne(ts, i);
    SpansOne(ts, j);
    SpansJoin(ts, i, i + 1, j, [SubscriptStart], a);
    SpansJoin(ts, i, j, j + 1, [SubscriptStart] + a, [SubscriptEnd]);
    SpansJoin(ts, i, j + 1, k, [SubscriptStart] + a + [SubscriptEnd], b);
  }

  // Reading sizes, one step unrolled.
  lemma SizesIs(ts: seq<Token>, i: nat)
    requires i <= |ts|
    ensures !Peek(ts, i).SubscriptStart? ==> Sizes(ts, i) == Done([], i)
    ensures Sizes(ts, i).Done? && Peek(ts, i).SubscriptStart? ==> i + 1 <= |ts|
    ensures Sizes(ts, i).Done? && Peek(ts, i).SubscriptStart? ==> Parse(ts, i + 1).Done?
    ensures Sizes(ts, i).Done? && Peek(ts, i).SubscriptStart? ==>
      var r := Parse(ts, i + 1); i < r.next && r.next + 1 <= |ts| && Peek(ts, r.next).SubscriptEnd?
    ensures Sizes(ts, i).Done? && Peek(ts, i).SubscriptStart? ==> Sizes(ts, Parse(ts, i + 1).next + 1).Done?
    ensures Sizes(ts, i).Done? && Peek(ts, i).SubscriptStart? ==>
      var r := Parse(ts, i + 1);
      Sizes(ts, i) == Done([r.value] + Sizes(ts, r.next + 1).value, Sizes(ts, r.next + 1).next)
  {
  }

  lemma GoodNone(ts: seq<Token>, i: nat, r: Outcome<seq<Tree>>)
    requires i <= |ts| && (r.Unexpected? || (r == Done([], i) && !Peek(ts, i).SubscriptStart?))
    ensures GoodSizes(r, ts, i)
  {
    hide Grammatical;
  }

  lemma GoodMore(ts: seq<Token>, i: nat, e: Tree, j: nat, es: seq<Tree>, k: nat)
    requires Peek(ts, i).SubscriptStart? && Good(Done(e, j), ts, i + 1)
    requires Peek(ts, j).SubscriptEnd? && GoodSizes(Done(es, k), ts, j + 1)
    ensures GoodSizes(Done([e] + es, k), ts, i)
  {
    hide Grammatical, Yield;
    SpansBracketed(ts, i, j, k, Yield(e), YieldSizes(es));
    assert ([e] + es)[1..] == es;
  }

  lemma {:induction false} SizesSound(ts: seq<Token>, i: nat)
    requires i <= |ts|
    ensures GoodSizes(Sizes(ts, i), ts, i)
    decreases |ts| - i, 0
  {
    hide *;
    SizesIs(ts, i);
    if Sizes(ts, i).Unexpected? || !Peek(ts, i).SubscriptStart? {
      GoodNone(ts, i, Sizes(ts, i));
    } else {
      ParseSound(ts, i + 1);
      var r := Parse(ts, i + 1);
      SizesSound(ts, r.next + 1);
      var q := Sizes(ts, r.next + 1);
      GoodMore(ts, i, r.value, r.next, q.value, q.next);
    }
  }

  // The parser returns exactly the grammatical tree of the tokens it consumes: it accepts every
  // expression, whole, and nothing else.
  lemma ParsesExactly(ts: seq<Token>, i: nat, t: Tree, j: nat)
    requires i <= |ts|
    ensures Parse(ts, i) == Done(t, j) <==> IsExpr(ts, i, t, j)
  {
    hide Parse, Yield, Grammatical;
    ParseSound(ts, i);
    if IsExpr(ts, i, t, j) {
      ReadsWhole(ts, i, t);
    }
  }

  // It reports an unexpected token exactly where no expression stands.
  lemma RejectsExactly(ts: seq<Token>, i: nat)
    requires i <= |ts|
    ensures Parse(ts, i).Unexpected? <==> forall t, j: nat :: !IsExpr(ts, i, t, j)
  {
    hide Parse, IsExpr;
    forall t, j: nat ensures Parse(ts, i) == Done(t, j) <==> IsExpr(ts, i, t, j) {
      ParsesExactly(ts, i, t, j);
    }
    var r := Parse(ts, i);
    if r.Done? {
      assert IsExpr(ts, i, r.value, r.next);
    }
  }

  // The grammar is unambiguous: no two trees have the same tokens.
  lemma OneTree(t: Tree, u: Tree)
    requires Grammatical(t) && Grammatical(u) && Yield(t) == Yield(u)
    ensures t == u
  {
    hide Parse, Yield, Grammatical;
    var ts := Yield(t);
    assert ts[0..|ts|] == ts;
    ReadsWhole(ts, 0, t);
    ReadsWhole(ts, 0, u);
  }
}
