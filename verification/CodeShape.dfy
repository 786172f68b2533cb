/** The code of an expression whose parent asked for no cast, and the one command a cast adds. */
module CodeShape {
  import opened Bytes
  import opened Language
  import opened Analysis
  import opened Commands
  import opened Codegen

  predicate FreshCode(te: TExpr)
    requires te.cast.None?
  {
    match te.node
    case TLit(v) => GenExpr(te) == [LoadValue(v)]
    case TLocal(t, flow, a) => GenExpr(te) == [if a then LoadLocalAddress(Slots(flow)) else LoadLocal(t, Slots(flow))]
    case TGlobal(x, t, a) => GenExpr(te) == [if a then LoadGlobalAddress(Sym(x)) else LoadGlobal(t, Sym(x))]
    case TFunc(f, native) => GenExpr(te) == [if native then LoadNative(Sym(f)) else LoadFunc(Sym(f))]
    case TAssign(l, r) => GenExpr(te) == GenExpr(r) + (GenExpr(l) + [StoreOf(FinalTy(l))])
    case TPreStep(inc, o) => GenExpr(te) == GenExpr(o) + [StepOf(inc, FinalTy(o))]
    case TUnary(op, o) => GenExpr(te) == GenExpr(o) + [UnOf(op, FinalTy(o))]
    case TBinary(op, l, r) => GenExpr(te) == GenExpr(l) + (GenExpr(r) + [BinOf(op, FinalTy(l))])
    case TAnd(l, r) => GenExpr(te) == GenLogic(ImplicitIfNot, GenExpr(l), GenExpr(r) + [AndCmd])
    case TOr(l, r) => GenExpr(te) == GenLogic(ImplicitIf, GenExpr(l), GenExpr(r) + [OrCmd])
    case TCall(c, args) => GenExpr(te) == GenArgs(args) + (GenExpr(c) + [GenCall(c)])
  }

  lemma GenFresh(te: TExpr)
    requires te.cast.None?
    ensures FreshCode(te)
  {
    hide GenLogic, GenArgs, Slots;
    assert CastCmds(te) == [];
    assert forall c: Cmd :: [c] + CastCmds(te) == [c];
  }

  // A cast is the last command of a value's code.
  lemma GenCast(te: TExpr, t: Ty)
    requires te.cast.None? && te.ty.Prim? && !te.node.TAnd? && !te.node.TOr?
    ensures GenExpr(te.(cast := Some(t))) == GenExpr(te) + [Cast(te.ty.t, t)]
  {
    hide GenArgs, Slots;
    var tc := te.(cast := Some(t));
    var c := [Cast(te.ty.t, t)];
    assert CastCmds(te) == [] && CastCmds(tc) == c;
    match te.node
    case TAssign(l, r) => Tail(GenExpr(r), GenExpr(l), StoreOf(FinalTy(l)), c);
    case TPreStep(inc, o) => Tail([], GenExpr(o), StepOf(inc, FinalTy(o)), c);
    case TUnary(op, o) => Tail([], GenExpr(o), UnOf(op, FinalTy(o)), c);
    case TBinary(op, l, r) => Tail(GenExpr(l), GenExpr(r), BinOf(op, FinalTy(l)), c);
    case TCall(f, args) => Tail(GenArgs(args), GenExpr(f), GenCall(f), c);
    case _ =>
  }

  lemma Tail(a: seq<Cmd>, b: seq<Cmd>, d: Cmd, c: seq<Cmd>)
    ensures a + (b + ([d] + c)) == (a + (b + ([d] + []))) + c
    ensures b + ([d] + c) == (b + ([d] + [])) + c
  {
  }

  lemma MeetCoerces(a: Ty, b: Ty)
    requires Meet(a, b).Some?
    ensures a == Meet(a, b).value || Castable(a, Meet(a, b).value)
    ensures b == Meet(a, b).value || Castable(b, Meet(a, b).value)
  {
  }
}
