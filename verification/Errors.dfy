/** Which token the parser reports: the first one with which no expression goes on. All tokens before it begin
    some expression, and with it they begin none. */
module Errors {
  import opened Trees
  import opened Parsing
  import opened Completeness
  import opened Soundness

  // ----- what the parser has looked at -----

  // Where the parser stopped, at the latest.
  function Bound<T>(r: Outcome<T>): nat { if r.Done? then r.next else r.at }

  // The same tokens up to and including the b-th.
  predicate Same(ts: seq<Token>, us: seq<Token>, b: nat) {
    b <= |us| && forall k: nat :: k <= b ==> Peek(ts, k) == Peek(us, k)
  }

  // ----- steps -----

  lemma StepParens(ts: seq<Token>, i: nat, F: seq<Frame>)
    requires i < |ts| && FramesOk(F) && ts[i].GroupStart?
    ensures var r := Parse(ts, i + 1);
      Before(ts, i, F) ==
        if r.Unexpected? then Unexpected(r.at)
        else if Peek(ts, r.next).GroupEnd? then After(ts, r.next + 1, F, Group(r.value))
        else Unexpected(r.next)
  {
    hide Parse, After;
  }

  lemma StepCall(ts: seq<Token>, i: nat, F: seq<Frame>, cur: Tree)
    requires i < |ts| && FramesOk(F) && ts[i].GroupStart?
    ensures var r := Items(ts, i + 1, GroupEnd);
      After(ts, i, F, cur) == if r.Unexpected? then Unexpected(r.at) else After(ts, r.next, F, Call(cur, r.value))
  {
    hide Items;
  }

  lemma StepIndex(ts: seq<Token>, i: nat, F: seq<Frame>, cur: Tree)
    requires i < |ts| && FramesOk(F) && ts[i].SubscriptStart?
    ensures var r := Parse(ts, i + 1);
      After(ts, i, F, cur) ==
        if r.Unexpected? then Unexpected(r.at)
        else if Peek(ts, r.next).SubscriptEnd? then After(ts, r.next + 1, F, Index(cur, r.value))
        else Unexpected(r.next)
  {
    hide Parse;
  }

  lemma StepOther(ts: seq<Token>, i: nat, F: seq<Frame>, cur: Tree)
    requires i <= |ts| && FramesOk(F) && !Peek(ts, i).GroupStart? && !Peek(ts, i).SubscriptStart?
    ensures var tok := Peek(ts, i);
      if tok.Op? && IsInfix(tok.op) then
        var r := Reduce(F, cur, InfixPrio(tok.op), InfixAssoc(tok.op));
        i < |ts| && After(ts, i, F, cur) == Before(ts, i + 1, r.0 + [Left(r.1, tok.op)])
      else After(ts, i, F, cur) == Done(Plug(F, cur), i)
  {
    hide Before, Reduce, Plug;
  }

  lemma {:induction false} ParseAgrees(ts: seq<Token>, us: seq<Token>, i: nat)
    requires i <= |ts| && Same(ts, us, Bound(Parse(ts, i)))
    ensures Parse(us, i) == Parse(ts, i)
    decreases |ts| - i, 3
  {
    hide Before;
    BeforeAgrees(ts, us, i, []);
  }

  lemma {:induction false} BeforeAgrees(ts: seq<Token>, us: seq<Token>, i: nat, F: seq<Frame>)
    requires i <= |ts| && FramesOk(F) && Same(ts, us, Bound(Before(ts, i, F)))
    ensures Before(us, i, F) == Before(ts, i, F)
    decreases |ts| - i, 2
  {
    hide After, Alloc, Parse;
    match Peek(ts, i)
    case Name(_) => AfterAgrees(ts, us, i + 1, F, Leaf(Peek(ts, i)));
    case Literal(_, _) => AfterAgrees(ts, us, i + 1, F, Leaf(Peek(ts, i)));
    case New =>
      AllocAgrees(ts, us, i + 1);
      var r := Alloc(ts, i + 1);
      if r.Done? {
        AfterAgrees(ts, us, r.next, F, r.value);
      }
    case GroupStart =>
      ParseAgrees(ts, us, i + 1);
      var r := Parse(ts, i + 1);
      if r.Done? && Peek(ts, r.next).GroupEnd? {
        AfterAgrees(ts, us, r.next + 1, F, Group(r.value));
      }
    case Op(op) =>
      if IsPrefix(op) {
        BeforeAgrees(ts, us, i + 1, F + [Prefix(op)]);
      }
    case _ =>
  }

  lemma Less(ts: seq<Token>, us: seq<Token>, c: nat, b: nat, i: nat)
    requires Same(ts, us, b) && i <= b && c <= b
    ensures Same(ts, us, c) && Peek(us, i) == Peek(ts, i) && Peek(us, c) == Peek(ts, c) && i <= |us|
    ensures Peek(ts, i) != FileEnd ==> i < |us| && us[i] == Peek(ts, i)
  {
  }

  lemma {:induction false} AfterAgrees(ts: seq<Token>, us: seq<Token>, i: nat, F: seq<Frame>, cur: Tree)
    requires i <= |ts| && FramesOk(F) && Same(ts, us, Bound(After(ts, i, F, cur)))
    ensures After(us, i, F, cur) == After(ts, i, F, cur)
    decreases |ts| - i, 1
  {
    hide Before, Items, Parse, Reduce, Plug, After, Same;
    if Peek(ts, i).GroupStart? {
      StepCall(ts, i, F, cur);
      var r := Items(ts, i + 1, GroupEnd);
      Less(ts, us, Bound(r), Bound(After(ts, i, F, cur)), i);
      ItemsAgrees(ts, us, i + 1, GroupEnd);
      StepCall(us, i, F, cur);
      if r.Done? {
        AfterAgrees(ts, us, r.next, F, Call(cur, r.value));
      }
    } else if Peek(ts, i).SubscriptStart? {
      StepIndex(ts, i, F, cur);
      var r := Parse(ts, i + 1);
      Less(ts, us, Bound(r), Bound(After(ts, i, F, cur)), i);
      ParseAgrees(ts, us, i + 1);
      StepIndex(us, i, F, cur);
      if r.Done? && Peek(ts, r.next).SubscriptEnd? {
        AfterAgrees(ts, us, r.next + 1, F, Index(cur, r.value));
      }
    } else {
      StepOther(ts, i, F, cur);
      Less(ts, us, i, Bound(After(ts, i, F, cur)), i);
      StepOther(us, i, F, cur);
      var op := Peek(ts, i);
      if op.Op? && IsInfix(op.op) {
        var r := Reduce(F, cur, InfixPrio(op.op), InfixAssoc(op.op));
        BeforeAgrees(ts, us, i + 1, r.0 + [Left(r.1, op.op)]);
      }
    }
  }

  lemma {:induction false} ItemsAgrees(ts: seq<Token>, us: seq<Token>, i: nat, end: Token)
    requires i <= |ts| && end != FileEnd && Same(ts, us, Bound(Items(ts, i, end)))
    ensures Items(us, i, end) == Items(ts, i, end)
    decreases |ts| - i, 5
  {
    hide List;
    if Peek(ts, i) != end {
      ListAgrees(ts, us, i);
    }
  }

  lemma {:induction false} ListAgrees(ts: seq<Token>, us: seq<Token>, i: nat)
    requires i <= |ts| && Same(ts, us, Bound(List(ts, i)))
    ensures List(us, i) == List(ts, i)
    decreases |ts| - i, 4
  {
    hide Parse;
    ParseAgrees(ts, us, i);
    var r := Parse(ts, i);
    if r.Done? && Peek(ts, r.next).Separator? {
      ListAgrees(ts, us, r.next + 1);
    }
  }

  lemma {:induction false} AllocAgrees(ts: seq<Token>, us: seq<Token>, i: nat)
    requires i <= |ts| && Same(ts, us, Bound(Alloc(ts, i)))
    ensures Alloc(us, i) == Alloc(ts, i)
    decreases |ts| - i, 6
  {
    hide Empties, Items, Sizes;
    if Peek(ts, i).Type? && Peek(ts, i + 1).SubscriptStart? {
      if Peek(ts, i + 2).SubscriptEnd? {
        EmptiesAgrees(ts, us, i + 3);
        var r := Empties(ts, i + 3);
        if r.Done? && Peek(ts, r.next).ScopeStart? {
          ItemsAgrees(ts, us, r.next + 1, ScopeEnd);
        }
      } else {
        SizesLater(ts, i + 1);
        SizesAgrees(ts, us, i + 1);
      }
    }
  }

  lemma SizesLater(ts: seq<Token>, i: nat)
    requires i <= |ts| && Peek(ts, i).SubscriptStart?
    ensures Bound(Sizes(ts, i)) > i
  {
    hide Parse;
  }

  lemma {:induction false} EmptiesAgrees(ts: seq<Token>, us: seq<Token>, i: nat)
    requires i <= |ts| && Same(ts, us, Bound(Empties(ts, i)))
    ensures Empties(us, i) == Empties(ts, i)
    decreases |ts| - i
  {
    if Peek(ts, i).SubscriptStart? && Peek(ts, i + 1).SubscriptEnd? {
      EmptiesAgrees(ts, us, i + 2);
    }
  }

  lemma {:induction false} SizesAgrees(ts: seq<Token>, us: seq<Token>, i: nat)
    requires i <= |ts| && Same(ts, us, Bound(Sizes(ts, i)))
    ensures Sizes(us, i) == Sizes(ts, i)
    decreases |ts| - i, 0
  {
    hide Parse, Sizes, Same;
    SizesStep(ts, i);
    var b := Bound(Sizes(ts, i));
    Less(ts, us, i, b, i);
    if Peek(ts, i).SubscriptStart? {
      var r := Parse(ts, i + 1);
      SizesStep(us, i);
      SizesLater(ts, i);
      Less(ts, us, Bound(r), b, i);
      ParseAgrees(ts, us, i + 1);
      if r.Done? && Peek(ts, r.next).SubscriptEnd? {
        SizesAgrees(ts, us, r.next + 1);
      }
    } else {
      NoSizes(ts, i);
      NoSizes(us, i);
    }
  }

  // ----- what can follow -----

  const NAME: Token := Name("x")

  // The tokens before the one that is reported, and others behind them.
  function Instead(ts: seq<Token>, at: nat, rest: seq<Token>): seq<Token>
    requires at <= |ts|
  {
    ts[..at] + rest
  }

  lemma InsteadSame(ts: seq<Token>, at: nat, rest: seq<Token>, b: nat)
    requires b < at <= |ts|
    ensures Same(ts, Instead(ts, at, rest), b)
  {
  }

  // An expression stays where it is if the token behind it becomes another one that does not continue it.
  lemma ParseStays(ts: seq<Token>, us: seq<Token>, i: nat)
    requires i <= |ts| && Parse(ts, i).Done?
    requires var j := Parse(ts, i).next;
      j <= |us| && (forall k :: i <= k < j ==> us[k] == ts[k]) && !Continues(Peek(us, j))
    ensures Parse(us, i) == Parse(ts, i)
  {
    hide Parse, Yield, Grammatical, Continues;
    var e, j := Parse(ts, i).value, Parse(ts, i).next;
    ParsesExactly(ts, i, e, j);
    assert us[i..j] == ts[i..j];
    ParsesExactly(us, i, e, j);
  }

  lemma {:induction false} ListStays(ts: seq<Token>, us: seq<Token>, i: nat)
    requires i <= |ts| && List(ts, i).Done?
    requires var j := List(ts, i).next;
      j <= |us| && (forall k :: i <= k < j ==> us[k] == ts[k]) && !Continues(Peek(us, j)) && !Peek(us, j).Separator?
    ensures List(us, i) == List(ts, i)
    decreases |ts| - i
  {
    hide Parse;
    ParseStays(ts, us, i);
    var r := Parse(ts, i);
    if Peek(ts, r.next).Separator? {
      ListStays(ts, us, r.next + 1);
    }
  }

  lemma {:induction false} EmptiesStay(ts: seq<Token>, us: seq<Token>, i: nat)
    requires i <= |ts| && Empties(ts, i).Done?
    requires var j := Empties(ts, i).next;
      j <= |us| && (forall k :: i <= k < j ==> us[k] == ts[k]) && !Peek(us, j).SubscriptStart?
    ensures Empties(us, i) == Empties(ts, i)
    decreases |ts| - i
  {
    if Peek(ts, i).SubscriptStart? && Peek(ts, i + 1).SubscriptEnd? {
      EmptiesStay(ts, us, i + 2);
    }
  }

  // A closing token, or the end of the tokens, is not the start of an expression.
  lemma NoStart(ts: seq<Token>, i: nat)
    requires i <= |ts| && Parse(ts, i).Done?
    ensures Peek(ts, i) != GroupEnd && Peek(ts, i) != ScopeEnd && Peek(ts, i) != SubscriptEnd && i < |ts|
  {
    hide After, Alloc;
  }

  lemma AfterLater(ts: seq<Token>, i: nat, F: seq<Frame>, cur: Tree)
    requires i <= |ts| && FramesOk(F) && After(ts, i, F, cur).Unexpected?
    ensures After(ts, i, F, cur).at > i
  {
    hide Before, Items, Parse, Reduce, Plug;
  }

  lemma AfterEnd(ts: seq<Token>, F: seq<Frame>, cur: Tree)
    requires FramesOk(F)
    ensures After(ts, |ts|, F, cur) == Done(Plug(F, cur), |ts|)
  {
    hide Plug;
  }

  // Every function of the parser can be brought to the end by other tokens from the reported one on.
  ghost predicate Ends<T>(r: Outcome<T>, us: seq<Token>) { r.Done? && r.next == |us| }

  lemma {:induction false} ParseEnds(ts: seq<Token>, i: nat) returns (rest: seq<Token>)
    requires i <= |ts| && Parse(ts, i).Unexpected?
    ensures var us := Instead(ts, Parse(ts, i).at, rest); i <= |us| && Ends(Parse(us, i), us)
    decreases |ts| - i, 3
  {
    hide Before;
    rest := BeforeEnds(ts, i, []);
  }

  lemma {:induction false} BeforeEnds(ts: seq<Token>, i: nat, F: seq<Frame>) returns (rest: seq<Token>)
    requires i <= |ts| && FramesOk(F) && Before(ts, i, F).Unexpected?
    ensures var us := Instead(ts, Before(ts, i, F).at, rest); i <= |us| && Ends(Before(us, i, F), us)
    decreases |ts| - i, 2
  {
    hide After, Alloc, Parse, Plug;
    var at := Before(ts, i, F).at;
    match Peek(ts, i)
    case Name(_) => rest := AfterEnds(ts, i + 1, F, Leaf(Peek(ts, i)));
    case Literal(_, _) => rest := AfterEnds(ts, i + 1, F, Leaf(Peek(ts, i)));
    case New => rest := NewEnds(ts, i, F);
    case GroupStart => rest := GroupEnds(ts, i, F);
    case Op(op) =>
      if IsPrefix(op) {
        rest := BeforeEnds(ts, i + 1, F + [Prefix(op)]);
      } else {
        rest := [NAME];
        AfterEnd(Instead(ts, at, rest), F, Leaf(NAME));
      }
    case _ =>
      rest := [NAME];
      AfterEnd(Instead(ts, at, rest), F, Leaf(NAME));
  }

  lemma {:induction false} NewEnds(ts: seq<Token>, i: nat, F: seq<Frame>) returns (rest: seq<Token>)
    requires i < |ts| && FramesOk(F) && Before(ts, i, F).Unexpected? && Peek(ts, i).New?
    ensures var us := Instead(ts, Before(ts, i, F).at, rest); i <= |us| && Ends(Before(us, i, F), us)
    decreases |ts| - i, 1
  {
    hide After, Alloc, Plug;
    var at, r := Before(ts, i, F).at, Alloc(ts, i + 1);
    if r.Done? {
      AfterLater(ts, r.next, F, r.value);
      rest := AfterEnds(ts, r.next, F, r.value);
      InsteadSame(ts, at, rest, r.next);
      AllocAgrees(ts, Instead(ts, at, rest), i + 1);
    } else {
      rest := AllocEnds(ts, i + 1);
      var us := Instead(ts, at, rest);
      AfterEnd(us, F, Alloc(us, i + 1).value);
    }
  }

  lemma {:induction false} GroupEnds(ts: seq<Token>, i: nat, F: seq<Frame>) returns (rest: seq<Token>)
    requires i < |ts| && FramesOk(F) && Before(ts, i, F).Unexpected? && Peek(ts, i).GroupStart?
    ensures var us := Instead(ts, Before(ts, i, F).at, rest); i <= |us| && Ends(Before(us, i, F), us)
    decreases |ts| - i, 1
  {
    hide After, Parse, Plug, Before;
    StepParens(ts, i, F);
    var at, r := Before(ts, i, F).at, Parse(ts, i + 1);
    if r.Done? && Peek(ts, r.next).GroupEnd? {
      AfterLater(ts, r.next + 1, F, Group(r.value));
      rest := AfterEnds(ts, r.next + 1, F, Group(r.value));
      ParseStays(ts, Instead(ts, at, rest), i + 1);
      StepParens(Instead(ts, at, rest), i, F);
    } else {
      rest := ClosedEnds(ts, i + 1, GroupEnd);
      var us := Instead(ts, at, rest);
      StepParens(us, i, F);
      AfterEnd(us, F, Group(Parse(us, i + 1).value));
    }
  }

  // An expression that does not get to its closing token.
  lemma {:induction false} ClosedEnds(ts: seq<Token>, i: nat, close: Token) returns (rest: seq<Token>)
    requires i <= |ts| && (close == GroupEnd || close == SubscriptEnd)
    ensures var at := Bound(Parse(ts, i));
      var us := Instead(ts, at, rest);
      i <= |us| && Parse(us, i).Done? && Parse(us, i).next + 1 == |us| && us[|us| - 1] == close
    decreases |ts| - i, 4
  {
    hide Parse;
    var r := Parse(ts, i);
    if r.Done? {
      rest := [close];
      ParseStays(ts, Instead(ts, r.next, rest), i);
    } else {
      var rest1 := ParseEnds(ts, i);
      rest := rest1 + [close];
      var us1 := Instead(ts, r.at, rest1);
      assert Instead(ts, r.at, rest) == us1 + [close];
      ParseStays(us1, us1 + [close], i);
    }
  }

  lemma {:induction false} AfterEnds(ts: seq<Token>, i: nat, F: seq<Frame>, cur: Tree) returns (rest: seq<Token>)
    requires i <= |ts| && FramesOk(F) && After(ts, i, F, cur).Unexpected?
    ensures var us := Instead(ts, After(ts, i, F, cur).at, rest); i <= |us| && Ends(After(us, i, F, cur), us)
    decreases |ts| - i, 1
  {
    hide *;
    AfterOther(ts, i, F, cur);
    if Peek(ts, i).GroupStart? {
      rest := CallEnds(ts, i, F, cur);
    } else if Peek(ts, i).SubscriptStart? {
      rest := IndexEnds(ts, i, F, cur);
    } else {
      rest := OpEnds(ts, i, F, cur);
    }
  }

  lemma AfterOther(ts: seq<Token>, i: nat, F: seq<Frame>, cur: Tree)
    requires i <= |ts| && FramesOk(F) && After(ts, i, F, cur).Unexpected?
    ensures i < |ts|
    ensures !Peek(ts, i).GroupStart? && !Peek(ts, i).SubscriptStart? ==> Peek(ts, i).Op? && IsInfix(Peek(ts, i).op)
  {
    hide Before, Items, Parse, Reduce, Plug;
  }

  lemma {:induction false} CallEnds(ts: seq<Token>, i: nat, F: seq<Frame>, cur: Tree) returns (rest: seq<Token>)
    requires i < |ts| && FramesOk(F) && After(ts, i, F, cur).Unexpected? && Peek(ts, i).GroupStart?
    ensures var us := Instead(ts, After(ts, i, F, cur).at, rest); i <= |us| && Ends(After(us, i, F, cur), us)
    decreases |ts| - i, 0
  {
    hide Items, Plug, After;
    AfterLater(ts, i, F, cur);
    StepCall(ts, i, F, cur);
    var at, r := After(ts, i, F, cur).at, Items(ts, i + 1, GroupEnd);
    if r.Done? {
      AfterLater(ts, r.next, F, Call(cur, r.value));
      rest := AfterEnds(ts, r.next, F, Call(cur, r.value));
      InsteadSame(ts, at, rest, r.next);
      ItemsAgrees(ts, Instead(ts, at, rest), i + 1, GroupEnd);
      StepCall(Instead(ts, at, rest), i, F, cur);
    } else {
      rest := ItemsEnds(ts, i + 1, GroupEnd);
      var us := Instead(ts, at, rest);
      StepCall(us, i, F, cur);
      AfterEnd(us, F, Call(cur, Items(us, i + 1, GroupEnd).value));
    }
  }

  lemma {:induction false} IndexEnds(ts: seq<Token>, i: nat, F: seq<Frame>, cur: Tree) returns (rest: seq<Token>)
    requires i < |ts| && FramesOk(F) && After(ts, i, F, cur).Unexpected? && Peek(ts, i).SubscriptStart?
    ensures var us := Instead(ts, After(ts, i, F, cur).at, rest); i <= |us| && Ends(After(us, i, F, cur), us)
    decreases |ts| - i, 0
  {
    hide Parse, Plug, After;
    AfterLater(ts, i, F, cur);
    StepIndex(ts, i, F, cur);
    var at, r := After(ts, i, F, cur).at, Parse(ts, i + 1);
    if r.Done? && Peek(ts, r.next).SubscriptEnd? {
      AfterLater(ts, r.next + 1, F, Index(cur, r.value));
      rest := AfterEnds(ts, r.next + 1, F, Index(cur, r.value));
      ParseStays(ts, Instead(ts, at, rest), i + 1);
      StepIndex(Instead(ts, at, rest), i, F, cur);
    } else {
      rest := ClosedEnds(ts, i + 1, SubscriptEnd);
      var us := Instead(ts, at, rest);
      StepIndex(us, i, F, cur);
      AfterEnd(us, F, Index(cur, Parse(us, i + 1).value));
    }
  }

  lemma {:induction false} OpEnds(ts: seq<Token>, i: nat, F: seq<Frame>, cur: Tree) returns (rest: seq<Token>)
    requires i < |ts| && FramesOk(F) && After(ts, i, F, cur).Unexpected? && Peek(ts, i).Op? && IsInfix(Peek(ts, i).op)
    ensures var us := Instead(ts, After(ts, i, F, cur).at, rest); i <= |us| && Ends(After(us, i, F, cur), us)
    decreases |ts| - i, 0
  {
    hide Before, Reduce;
    AfterLater(ts, i, F, cur);
    var op := Peek(ts, i).op;
    var r := Reduce(F, cur, InfixPrio(op), InfixAssoc(op));
    rest := BeforeEnds(ts, i + 1, r.0 + [Left(r.1, op)]);
  }

  lemma {:induction false} ItemsEnds(ts: seq<Token>, i: nat, end: Token) returns (rest: seq<Token>)
    requires i <= |ts| && (end == GroupEnd || end == ScopeEnd) && Items(ts, i, end).Unexpected?
    ensures var us := Instead(ts, Items(ts, i, end).at, rest); i <= |us| && Ends(Items(us, i, end), us)
    decreases |ts| - i, 5
  {
    hide List;
    var r := List(ts, i);
    if r.Done? {
      rest := [end];
      ListStays(ts, Instead(ts, r.next, rest), i);
    } else {
      var rest1 := ListEnds(ts, i);
      rest := rest1 + [end];
      var us1 := Instead(ts, r.at, rest1);
      assert Instead(ts, r.at, rest) == us1 + [end];
      ListStays(us1, us1 + [end], i);
      ListStart(us1, i);
    }
  }

  lemma ListStart(ts: seq<Token>, i: nat)
    requires i <= |ts| && List(ts, i).Done?
    ensures Peek(ts, i) != GroupEnd && Peek(ts, i) != ScopeEnd && i < |ts|
  {
    hide Parse;
    NoStart(ts, i);
  }

  lemma {:induction false} ListEnds(ts: seq<Token>, i: nat) returns (rest: seq<Token>)
    requires i <= |ts| && List(ts, i).Unexpected?
    ensures var us := Instead(ts, List(ts, i).at, rest); i <= |us| && Ends(List(us, i), us)
    decreases |ts| - i, 4
  {
    hide Parse;
    var r := Parse(ts, i);
    if r.Done? {
      rest := ListEnds(ts, r.next + 1);
      ParseStays(ts, Instead(ts, List(ts, i).at, rest), i);
    } else {
      rest := ParseEnds(ts, i);
    }
  }

  lemma {:induction false} AllocEnds(ts: seq<Token>, i: nat) returns (rest: seq<Token>)
    requires i <= |ts| && Alloc(ts, i).Unexpected?
    ensures var us := Instead(ts, Alloc(ts, i).at, rest); i <= |us| && Ends(Alloc(us, i), us)
    decreases |ts| - i, 6
  {
    hide Empties, Items, Sizes;
    var at := Alloc(ts, i).at;
    if !Peek(ts, i).Type? {
      rest := [Type(IntType), SubscriptStart, NAME, SubscriptEnd];
      OneSize(Instead(ts, at, rest), i + 1);
    } else if !Peek(ts, i + 1).SubscriptStart? {
      rest := [SubscriptStart, NAME, SubscriptEnd];
      OneSize(Instead(ts, at, rest), i + 1);
    } else if Peek(ts, i + 2).SubscriptEnd? {
      rest := FilledEnds(ts, i);
    } else {
      rest := SizesEnds(ts, i + 1);
      SizesStart(Instead(ts, at, rest), i + 1);
    }
  }

  lemma OneSize(us: seq<Token>, i: nat)
    requires i + 3 == |us| && us[i..] == [SubscriptStart, NAME, SubscriptEnd]
    ensures Ends(Sizes(us, i), us)
  {
    assert us[i] == SubscriptStart && us[i + 1] == NAME && us[i + 2] == SubscriptEnd;
    assert After(us, i + 2, [], Leaf(NAME)) == Done(Leaf(NAME), i + 2);
    assert Parse(us, i + 1) == Done(Leaf(NAME), i + 2);
    assert Sizes(us, i + 3) == Done([], i + 3);
  }

  lemma SizesStart(us: seq<Token>, i: nat)
    requires i < |us| && us[i].SubscriptStart? && Sizes(us, i).Done?
    ensures !Peek(us, i + 1).SubscriptEnd?
  {
    hide Parse;
    NoStart(us, i + 1);
  }

  lemma {:induction false} FilledEnds(ts: seq<Token>, i: nat) returns (rest: seq<Token>)
    requires i <= |ts| && Alloc(ts, i).Unexpected?
    requires Peek(ts, i).Type? && Peek(ts, i + 1).SubscriptStart? && Peek(ts, i + 2).SubscriptEnd?
    ensures var us := Instead(ts, Alloc(ts, i).at, rest); i <= |us| && Ends(Alloc(us, i), us)
    decreases |ts| - i, 5
  {
    hide Empties, Items, Sizes;
    var at, r := Alloc(ts, i).at, Empties(ts, i + 3);
    if r.Done? && Peek(ts, r.next).ScopeStart? {
      rest := ItemsEnds(ts, r.next + 1, ScopeEnd);
      EmptiesStay(ts, Instead(ts, at, rest), i + 3);
    } else if r.Done? {
      rest := [ScopeStart, ScopeEnd];
      var us := Instead(ts, at, rest);
      EmptiesStay(ts, us, i + 3);
      NoItems(us, r.next + 1);
    } else {
      var rest1 := EmptiesEnds(ts, i + 3);
      rest := rest1 + [ScopeStart, ScopeEnd];
      var us1, us := Instead(ts, at, rest1), Instead(ts, at, rest);
      assert us == us1 + [ScopeStart, ScopeEnd];
      EmptiesStay(us1, us, i + 3);
      NoItems(us, |us1| + 1);
    }
  }

  lemma NoItems(us: seq<Token>, i: nat)
    requires i + 1 == |us| && us[i] == ScopeEnd
    ensures Ends(Items(us, i, ScopeEnd), us)
  {
    hide List;
  }

  lemma {:induction false} EmptiesEnds(ts: seq<Token>, i: nat) returns (rest: seq<Token>)
    requires i <= |ts| && Empties(ts, i).Unexpected?
    ensures var us := Instead(ts, Empties(ts, i).at, rest); i <= |us| && Ends(Empties(us, i), us)
    decreases |ts| - i
  {
    if Peek(ts, i + 1).SubscriptEnd? {
      rest := EmptiesEnds(ts, i + 2);
    } else {
      rest := [SubscriptEnd];
      var us := Instead(ts, i + 1, rest);
      assert Empties(us, i + 2) == Done(0, i + 2);
    }
  }

  lemma SizesStep(ts: seq<Token>, i: nat)
    requires i <= |ts|
    ensures Sizes(ts, i).Unexpected? ==> i < |ts| && ts[i].SubscriptStart?
    ensures i < |ts| && ts[i].SubscriptStart? ==>
      var r := Parse(ts, i + 1);
      Sizes(ts, i) ==
        if r.Unexpected? then Unexpected(r.at)
        else if !Peek(ts, r.next).SubscriptEnd? then Unexpected(r.next)
        else
          var q := Sizes(ts, r.next + 1);
          if q.Unexpected? then Unexpected(q.at) else Done([r.value] + q.value, q.next)
  {
    hide Parse;
  }

  lemma NoSizes(ts: seq<Token>, i: nat)
    requires i <= |ts| && !Peek(ts, i).SubscriptStart?
    ensures Sizes(ts, i) == Done([], i)
  {
  }

  lemma {:induction false} SizesEnds(ts: seq<Token>, i: nat) returns (rest: seq<Token>)
    requires i <= |ts| && Sizes(ts, i).Unexpected?
    ensures var us := Instead(ts, Sizes(ts, i).at, rest); i < |us| && Ends(Sizes(us, i), us) && us[i].SubscriptStart?
    decreases |ts| - i, 0
  {
    hide Parse, Sizes;
    SizesStep(ts, i);
    var at, r := Sizes(ts, i).at, Parse(ts, i + 1);
    if r.Done? && Peek(ts, r.next).SubscriptEnd? {
      rest := SizesEnds(ts, r.next + 1);
      ParseStays(ts, Instead(ts, at, rest), i + 1);
      SizesStep(Instead(ts, at, rest), i);
    } else {
      rest := ClosedEnds(ts, i + 1, SubscriptEnd);
      var us := Instead(ts, at, rest);
      SizesStep(us, i);
      NoSizes(us, |us|);
    }
  }

  // ----- the token that is reported -----

  // The tokens from i up to n begin an expression.
  ghost predicate Begins(ts: seq<Token>, i: nat, n: nat)
    requires i <= n <= |ts|
  {
    exists t: Tree :: Grammatical(t) && n - i <= |Yield(t)| && Yield(t)[..n - i] == ts[i..n]
  }

  // It is the first one that no expression goes on with: the tokens before it begin an expression, and those
  // up to and including it begin none.
  lemma ReportsFirst(ts: seq<Token>, i: nat)
    requires i <= |ts| && Parse(ts, i).Unexpected?
    ensures var at := Parse(ts, i).at; Begins(ts, i, at) && (at < |ts| ==> !Begins(ts, i, at + 1))
  {
    hide Parse, Grammatical, Yield, Continues;
    var at := Parse(ts, i).at;
    var rest := ParseEnds(ts, i);
    var us := Instead(ts, at, rest);
    var t := Parse(us, i).value;
    ParsesExactly(us, i, t, |us|);
    assert us[i..|us|] == Yield(t);
    assert Yield(t)[..at - i] == ts[i..at];
    if at < |ts| {
      forall u: Tree | Grammatical(u) && at + 1 - i <= |Yield(u)|
        ensures Yield(u)[..at + 1 - i] != ts[i..at + 1]
      {
        BeginsNone(ts, i, u);
      }
    }
  }

  lemma BeginsNone(ts: seq<Token>, i: nat, u: Tree)
    requires i <= |ts| && Parse(ts, i).Unexpected? && Parse(ts, i).at < |ts|
    requires Grammatical(u) && Parse(ts, i).at + 1 - i <= |Yield(u)|
    ensures Yield(u)[..Parse(ts, i).at + 1 - i] != ts[i..Parse(ts, i).at + 1]
  {
    hide Parse, Grammatical, Yield, Continues;
    var at, us := Parse(ts, i).at, ts[..i] + Yield(u);
    if Yield(u)[..at + 1 - i] == ts[i..at + 1] {
      forall k: nat | k <= at ensures us[k] == ts[k] {
        if k >= i {
          assert us[k] == Yield(u)[..at + 1 - i][k - i] == ts[i..at + 1][k - i];
        }
      }
      ParseAgrees(ts, us, i);
      assert us[i..] == Yield(u);
      EndContinues();
      ReadsWhole(us, i, u);
      assert false;
    }
  }

  lemma EndContinues()
    ensures !Continues(FileEnd)
  {
  }
}
