/** Printing an expression and parsing what was printed. Binary nodes print their own parentheses and
    no other node does, so a prefix operator printed before a call or a subscript takes both, and a
    subscript printed after an array allocation becomes one more of its sizes. */
module Printing {
  import opened Trees
  import opened Parsing
  import opened Completeness

  // The expressions the parser can build: its nodes, without parentheses.
  predicate Buildable(a: Tree) {
    match a
    case Leaf(tok) => tok.Name? || tok.Literal?
    case Group(_) => false
    case Sized(_, es) => es != [] && forall e <- es :: Buildable(e)
    case Filled(_, n, es) => n > 0 && forall e <- es :: Buildable(e)
    case Unary(op, e) => IsPrefix(op) && Buildable(e)
    case Binary(op, l, r) => IsInfix(op) && Buildable(l) && Buildable(r)
    case Call(f, es) => Buildable(f) && forall e <- es :: Buildable(e)
    case Index(e, k) => Buildable(e) && Buildable(k)
  }

  // The tokens the nodes print.
  function Print(a: Tree): seq<Token>
    requires Buildable(a)
  {
    match a
    case Leaf(tok) => [tok]
    case Sized(ty, es) => [New, Type(ty)] + PrintSizes(es)
    case Filled(ty, n, es) => [New, Type(ty)] + YieldEmpties(n) + [ScopeStart] + PrintList(es) + [ScopeEnd]
    case Unary(op, e) => [Op(op)] + Print(e)
    case Binary(op, l, r) => [GroupStart] + (Print(l) + [Op(op)] + Print(r)) + [GroupEnd]
    case Call(f, es) => Print(f) + [GroupStart] + PrintList(es) + [GroupEnd]
    case Index(e, k) => Print(e) + [SubscriptStart] + Print(k) + [SubscriptEnd]
  }

  function PrintList(es: seq<Tree>): seq<Token>
    requires forall e <- es :: Buildable(e)
  {
    if es == [] then []
    else if |es| == 1 then Print(es[0])
    else Print(es[0]) + [Separator] + PrintList(es[1..])
  }

  function PrintSizes(es: seq<Tree>): seq<Token>
    requires forall e <- es :: Buildable(e)
  {
    if es == [] then [] else [SubscriptStart] + Print(es[0]) + [SubscriptEnd] + PrintSizes(es[1..])
  }

  // How the printed tokens group.
  function Regroup(a: Tree): Tree {
    match a
    case Leaf(_) => a
    case Group(e) => Group(Regroup(e))
    case Sized(ty, es) => Sized(ty, RegroupAll(es))
    case Filled(ty, n, es) => Filled(ty, n, RegroupAll(es))
    case Unary(op, e) => Unary(op, Regroup(e))
    case Binary(op, l, r) => Group(Binary(op, Regroup(l), Regroup(r)))
    case Call(f, es) => Called(Regroup(f), RegroupAll(es))
    case Index(e, k) => Indexed(Regroup(e), Regroup(k))
  }

  function RegroupAll(es: seq<Tree>): (r: seq<Tree>)
    ensures |r| == |es|
  {
    if es == [] then [] else [Regroup(es[0])] + RegroupAll(es[1..])
  }

  function Called(t: Tree, es: seq<Tree>): Tree {
    if t.Unary? then Unary(t.op, Called(t.operand, es)) else Call(t, es)
  }

  function Indexed(t: Tree, k: Tree): Tree {
    if t.Unary? then Unary(t.op, Indexed(t.operand, k))
    else if t.Sized? then Sized(t.ty, t.sizes + [k])
    else Index(t, k)
  }

  // No call or subscript of a prefix expression, and no subscript of an allocation by sizes.
  predicate Printable(a: Tree) {
    match a
    case Leaf(_) => true
    case Group(e) => false
    case Sized(_, es) => forall e <- es :: Printable(e)
    case Filled(_, _, es) => forall e <- es :: Printable(e)
    case Unary(_, e) => Printable(e)
    case Binary(_, l, r) => Printable(l) && Printable(r)
    case Call(f, es) => !f.Unary? && Printable(f) && forall e <- es :: Printable(e)
    case Index(e, k) => !e.Unary? && !e.Sized? && Printable(e) && Printable(k)
  }

  // Tight trees: what a prefix operator or a call may stand before.
  predicate Tight(t: Tree) { Grammatical(t) && Prio(t) >= PREFIX }

  lemma {:induction false} CalledTight(t: Tree, es: seq<Tree>)
    requires Tight(t) && forall e <- es :: Grammatical(e)
    ensures Tight(Called(t, es)) && Yield(Called(t, es)) == Yield(t) + ([GroupStart] + (YieldList(es) + [GroupEnd]))
  {
    hide YieldList;
    if t.Unary? {
      CalledTight(t.operand, es);
    }
  }

  lemma {:induction false} IndexedTight(t: Tree, k: Tree)
    requires Tight(t) && Grammatical(k)
    ensures Tight(Indexed(t, k)) && Yield(Indexed(t, k)) == Yield(t) + ([SubscriptStart] + (Yield(k) + [SubscriptEnd]))
  {
    if t.Unary? {
      IndexedTight(t.operand, k);
    } else if t.Sized? {
      IndexedSized(t, k);
    }
  }

  lemma IndexedSized(t: Tree, k: Tree)
    requires t.Sized? && Grammatical(t) && Grammatical(k)
    ensures Tight(Indexed(t, k)) && Yield(Indexed(t, k)) == Yield(t) + ([SubscriptStart] + (Yield(k) + [SubscriptEnd]))
  {
    var more := [SubscriptStart] + (Yield(k) + [SubscriptEnd]);
    SizesAppend(t.sizes, k);
    hide YieldSizes;
    assert [New, Type(t.ty)] + (YieldSizes(t.sizes) + more) == [New, Type(t.ty)] + YieldSizes(t.sizes) + more;
  }

  lemma {:induction false} SizesAppend(es: seq<Tree>, k: Tree)
    ensures YieldSizes(es + [k]) == YieldSizes(es) + ([SubscriptStart] + (Yield(k) + [SubscriptEnd]))
    decreases es
  {
    hide Yield;
    if es == [] {
      assert [k][1..] == [];
      assert [] + [k] == [k];
    } else {
      SizesAppend(es[1..], k);
      assert (es + [k])[1..] == es[1..] + [k];
    }
  }

  lemma {:induction false} Regrouped(a: Tree)
    requires Buildable(a)
    ensures Tight(Regroup(a)) && Yield(Regroup(a)) == Print(a)
  {
    match a
    case Leaf(_) =>
    case Sized(ty, es) => RegroupedAll(es);
    case Filled(ty, n, es) => RegroupedAll(es);
    case Unary(op, e) => Regrouped(e);
    case Binary(op, l, r) => RegroupedBinary(op, l, r);
    case Call(f, es) => RegroupedCall(f, es);
    case Index(e, k) => RegroupedIndex(e, k);
  }

  lemma {:induction false} RegroupedBinary(op: Operator, l: Tree, r: Tree)
    requires Buildable(Binary(op, l, r))
    ensures var a := Binary(op, l, r); Tight(Regroup(a)) && Yield(Regroup(a)) == Print(a)
    decreases Binary(op, l, r), 0
  {
    Regrouped(l);
    Regrouped(r);
  }

  lemma {:induction false} RegroupedCall(f: Tree, es: seq<Tree>)
    requires Buildable(Call(f, es))
    ensures var a := Call(f, es); Tight(Regroup(a)) && Yield(Regroup(a)) == Print(a)
    decreases Call(f, es), 0
  {
    Regrouped(f);
    RegroupedAll(es);
    CalledTight(Regroup(f), RegroupAll(es));
  }

  lemma IndexParts(e: Tree, k: Tree)
    requires Buildable(Index(e, k))
    ensures Buildable(e) && Buildable(k)
    ensures Regroup(Index(e, k)) == Indexed(Regroup(e), Regroup(k))
    ensures Print(Index(e, k)) == Print(e) + ([SubscriptStart] + (Print(k) + [SubscriptEnd]))
  {
    hide Indexed;
  }

  lemma {:induction false} RegroupedIndex(e: Tree, k: Tree)
    requires Buildable(Index(e, k))
    ensures var a := Index(e, k); Tight(Regroup(a)) && Yield(Regroup(a)) == Print(a)
    decreases Index(e, k), 0
  {
    hide *;
    IndexParts(e, k);
    Regrouped(e);
    Regrouped(k);
    TightGrammatical(Regroup(k));
    IndexedTight(Regroup(e), Regroup(k));
  }

  lemma {:induction false} RegroupedAll(es: seq<Tree>)
    requires forall e <- es :: Buildable(e)
    ensures var r := RegroupAll(es);
            && (forall e <- r :: Grammatical(e)) && YieldList(r) == PrintList(es) && YieldSizes(r) == PrintSizes(es)
  {
    hide Regroup, Yield, Print, Grammatical, Buildable, Prio;
    if es != [] {
      Regrouped(es[0]);
      RegroupedAll(es[1..]);
      assert RegroupAll(es)[1..] == RegroupAll(es[1..]);
    }
  }

  // What is printed parses, to the regrouped tree.
  lemma PrintParses(ts: seq<Token>, i: nat, a: Tree)
    requires Buildable(a) && At(ts, i, Print(a)) && !Continues(Peek(ts, i + |Print(a)|))
    ensures Parse(ts, i) == Done(Regroup(a), i + |Print(a)|)
  {
    hide *;
    Regrouped(a);
    TightGrammatical(Regroup(a));
    ReadsWhole(ts, i, Regroup(a));
  }

  lemma TightGrammatical(t: Tree)
    requires Tight(t)
    ensures Grammatical(t)
  {
  }

  // Parsing what was printed gives the expression back exactly when it is printable.
  lemma PrintThenParse(ts: seq<Token>, i: nat, a: Tree)
    requires Buildable(a) && At(ts, i, Print(a)) && !Continues(Peek(ts, i + |Print(a)|))
    ensures Parse(ts, i).Done? && Parse(ts, i).next == i + |Print(a)|
    ensures Strip(Parse(ts, i).value) == a <==> Printable(a)
  {
    hide *;
    PrintParses(ts, i, a);
    Same(a);
  }

  lemma {:induction false} Same(a: Tree)
    requires Buildable(a)
    ensures Strip(Regroup(a)) == a <==> Printable(a)
  {
    match a
    case Leaf(_) =>
    case Sized(ty, es) => SameAll(es);
    case Filled(ty, n, es) => SameAll(es);
    case Unary(op, e) => Same(e);
    case Binary(op, l, r) => Same(l); Same(r);
    case Call(f, es) => Same(f); SameAll(es);
    case Index(e, k) => Same(e); Same(k);
  }

  lemma {:induction false} SameAll(es: seq<Tree>)
    requires forall e <- es :: Buildable(e)
    ensures StripAll(RegroupAll(es)) == es <==> forall e <- es :: Printable(e)
  {
    hide Regroup, Strip, Printable, Buildable;
    if es != [] {
      Same(es[0]);
      SameAll(es[1..]);
      var r := RegroupAll(es);
      assert r[1..] == RegroupAll(es[1..]);
      assert es == [es[0]] + es[1..];
      assert StripAll(r) == [Strip(r[0])] + StripAll(r[1..]);
      if StripAll(r) == es {
        assert StripAll(r)[0] == es[0];
        assert StripAll(r)[1..] == es[1..];
      }
    }
  }
}
