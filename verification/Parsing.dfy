/** The expression parser as a function of the tokens: before an operand and after one, with the
    operators still waiting for their right operand kept as frames. The imperative parser with its
    two stacks is proved to compute this function. */
module Parsing {
  import opened Trees

  // An operator waiting for its right operand, with its left operand when it is infix.
  datatype Frame = Left(left: Tree, op: Operator) | Prefix(op: Operator)

  datatype Outcome<T> = Done(value: T, next: nat) | Unexpected(at: nat)

  predicate FrameOk(f: Frame) { if f.Left? then IsInfix(f.op) else IsPrefix(f.op) }

  predicate FramesOk(F: seq<Frame>) { forall f <- F :: FrameOk(f) }

  function FramePrio(f: Frame): nat
    requires FrameOk(f)
  {
    if f.Left? then InfixPrio(f.op) else PREFIX
  }

  // Whether a waiting operator keeps waiting when an operator of this priority comes next.
  predicate Waits(f: Frame, prio: nat, assoc: Assoc)
    requires FrameOk(f)
  {
    prio > FramePrio(f) || (prio == FramePrio(f) && assoc.RightToLeft?)
  }

  function Join(f: Frame, cur: Tree): Tree {
    if f.Left? then Binary(f.op, f.left, cur) else Unary(f.op, cur)
  }

  // Gives the current operand to the waiting operators that bind at least as tightly as the next one.
  function Reduce(F: seq<Frame>, cur: Tree, prio: nat, assoc: Assoc): (r: (seq<Frame>, Tree))
    requires FramesOk(F)
    ensures FramesOk(r.0)
  {
    if F == [] || Waits(F[|F| - 1], prio, assoc) then (F, cur)
    else Reduce(F[..|F| - 1], Join(F[|F| - 1], cur), prio, assoc)
  }

  function Plug(F: seq<Frame>, cur: Tree): Tree {
    if F == [] then cur else Plug(F[..|F| - 1], Join(F[|F| - 1], cur))
  }

  function Parse(ts: seq<Token>, i: nat): (r: Outcome<Tree>)
    requires i <= |ts|
    ensures r.Done? ==> i < r.next <= |ts|
    ensures r.Unexpected? ==> i <= r.at <= |ts|
    decreases |ts| - i, 3
  {
    Before(ts, i, [])
  }

  function Before(ts: seq<Token>, i: nat, F: seq<Frame>): (r: Outcome<Tree>)
    requires i <= |ts| && FramesOk(F)
    ensures r.Done? ==> i < r.next <= |ts|
    ensures r.Unexpected? ==> i <= r.at <= |ts|
    decreases |ts| - i, 2
  {
    match Peek(ts, i)
    case Name(_) => After(ts, i + 1, F, Leaf(Peek(ts, i)))
    case Literal(_, _) => After(ts, i + 1, F, Leaf(Peek(ts, i)))
    case New =>
      (match Alloc(ts, i + 1)
       case Unexpected(at) => Unexpected(at)
       case Done(t, j) => After(ts, j, F, t))
    case GroupStart =>
      (match Parse(ts, i + 1)
       case Unexpected(at) => Unexpected(at)
       case Done(e, j) => if Peek(ts, j).GroupEnd? then After(ts, j + 1, F, Group(e)) else Unexpected(j))
    case Op(op) => if IsPrefix(op) then Before(ts, i + 1, F + [Prefix(op)]) else Unexpected(i)
    case _ => Unexpected(i)
  }

  function After(ts: seq<Token>, i: nat, F: seq<Frame>, cur: Tree): (r: Outcome<Tree>)
    requires i <= |ts| && FramesOk(F)
    ensures r.Done? ==> i <= r.next <= |ts|
    ensures r.Unexpected? ==> i <= r.at <= |ts|
    decreases |ts| - i, 1
  {
    match Peek(ts, i)
    case GroupStart =>
      (match Items(ts, i + 1, GroupEnd)
       case Unexpected(at) => Unexpected(at)
       case Done(args, j) => After(ts, j, F, Call(cur, args)))
    case SubscriptStart =>
      (match Parse(ts, i + 1)
       case Unexpected(at) => Unexpected(at)
       case Done(e, j) => if Peek(ts, j).SubscriptEnd? then After(ts, j + 1, F, Index(cur, e)) else Unexpected(j))
    case Op(op) =>
      if IsInfix(op) then
        var r := Reduce(F, cur, InfixPrio(op), InfixAssoc(op));
        Before(ts, i + 1, r.0 + [Left(r.1, op)])
      else Done(Plug(F, cur), i)
    case _ => Done(Plug(F, cur), i)
  }

  // A possibly empty list of expressions up to its closing token.
  function Items(ts: seq<Token>, i: nat, end: Token): (r: Outcome<seq<Tree>>)
    requires i <= |ts| && end != FileEnd
    ensures r.Done? ==> i < r.next <= |ts|
    ensures r.Unexpected? ==> i <= r.at <= |ts|
    decreases |ts| - i, 5
  {
    if Peek(ts, i) == end then Done([], i + 1)
    else match List(ts, i)
      case Unexpected(at) => Unexpected(at)
      case Done(es, j) => if Peek(ts, j) == end then Done(es, j + 1) else Unexpected(j)
  }

  function List(ts: seq<Token>, i: nat): (r: Outcome<seq<Tree>>)
    requires i <= |ts|
    ensures r.Done? ==> i < r.next <= |ts|
    ensures r.Unexpected? ==> i <= r.at <= |ts|
    decreases |ts| - i, 4
  {
    match Parse(ts, i)
    case Unexpected(at) => Unexpected(at)
    case Done(e, j) =>
      if Peek(ts, j).Separator? then
        match List(ts, j + 1)
        case Unexpected(at) => Unexpected(at)
        case Done(es, k) => Done([e] + es, k)
      else Done([e], j)
  }

  // An array allocation, from the token after new.
  function Alloc(ts: seq<Token>, i: nat): (r: Outcome<Tree>)
    requires i <= |ts|
    ensures r.Done? ==> i < r.next <= |ts|
    ensures r.Unexpected? ==> i <= r.at <= |ts|
    decreases |ts| - i, 6
  {
    if !Peek(ts, i).Type? then Unexpected(i)
    else if !Peek(ts, i + 1).SubscriptStart? then Unexpected(i + 1)
    else if Peek(ts, i + 2).SubscriptEnd? then
      match Empties(ts, i + 3)
      case Unexpected(at) => Unexpected(at)
      case Done(n, j) =>
        if !Peek(ts, j).ScopeStart? then Unexpected(j)
        else match Items(ts, j + 1, ScopeEnd)
          case Unexpected(at) => Unexpected(at)
          case Done(vs, k) => Done(Filled(ts[i].ty, n + 1, vs), k)
    else
      match Sizes(ts, i + 1)
      case Unexpected(at) => Unexpected(at)
      case Done(es, j) => Done(Sized(ts[i].ty, es), j)
  }

  function Empties(ts: seq<Token>, i: nat): (r: Outcome<nat>)
    requires i <= |ts|
    ensures r.Done? ==> i <= r.next <= |ts|
    ensures r.Unexpected? ==> i <= r.at <= |ts|
    decreases |ts| - i
  {
    if !Peek(ts, i).SubscriptStart? then Done(0, i)
    else if !Peek(ts, i + 1).SubscriptEnd? then Unexpected(i + 1)
    else match Empties(ts, i + 2)
      case Unexpected(at) => Unexpected(at)
      case Done(n, j) => Done(n + 1, j)
  }

  // Sizes in brackets, as many as follow.
  function Sizes(ts: seq<Token>, i: nat): (r: Outcome<seq<Tree>>)
    requires i <= |ts|
    ensures r.Done? ==> i <= r.next <= |ts|
    ensures r.Done? && Peek(ts, i).SubscriptStart? ==> i < r.next
    ensures r.Unexpected? ==> i <= r.at <= |ts|
    decreases |ts| - i, 0
  {
    if !Peek(ts, i).SubscriptStart? then Done([], i)
    else match Parse(ts, i + 1)
      case Unexpected(at) => Unexpected(at)
      case Done(e, j) =>
        if !Peek(ts, j).SubscriptEnd? then Unexpected(j)
        else match Sizes(ts, j + 1)
          case Unexpected(at) => Unexpected(at)
          case Done(es, k) => Done([e] + es, k)
  }
}
