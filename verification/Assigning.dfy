/** Assignments and pre-increments: the address, then the command that stores through it. */
module Assigning {
  import opened Bytes
  import opened Language
  import opened Semantics
  import opened Analysis
  import opened Commands
  import opened Codegen
  import opened Machine
  import opened Relation
  import opened Variables
  import opened Steps

  // The two commands for storing through an identifier's address.
  ghost predicate NextTwo(K: Setup, m: MState, c: Cmd, d: Cmd, cont: int, brk: int, inFunc: bool) {
    Framed(m, inFunc) && At(K, m.pc, [c, d], cont, brk, inFunc)
  }

  lemma FirstOfTwo(K: Setup, m: MState, c: Cmd, d: Cmd, cont: int, brk: int, inFunc: bool)
    requires NextTwo(K, m, c, d, cont, brk, inFunc)
    ensures Next(K, m, c, cont, brk, inFunc)
    ensures forall s: MState :: s.pc == m.pc + CmdSize(c) && s.frames == m.frames ==> Next(K, s, d, cont, brk, inFunc)
  {
    hide CmdSize, At, Size;
    assert [c, d] == [c] + [d];
    AtSplit(K, m.pc, [c], [d], cont, brk, inFunc);
    SizeOne(c);
  }

  lemma SizeOne(c: Cmd)
    ensures Size([c]) == CmdSize(c)
  {
    hide CmdSize;
    assert [c][1..] == [];
  }

  // The address that the generated command pushes.
  function AddressOf(K: Setup, te: TExpr, m: MState): Item
    requires IsLeft(te)
  {
    match te.node
    case TLocal(_, flow, _) => AddrLocal(FrameStart(m) + Slots(flow))
    case TGlobal(x, _, _) => AddrGlobal(if x in K.link.slots then K.link.slots[x] else 0)
  }

  // The initializer's own variable: visible, without a value.
  predicate Pending(st: SState, x: string) { Find(st.env, x) >= 0 && Find(st.env, x) >= LiveLen(st.env) }

  // Reading and writing through an address agree with reading and writing the variable by name.
  ghost predicate Reads(K: Setup, st: SState, m: MState, x: string, a: Item, t: Ty) {
    ReadVar(K.P, st, x).Some? && ReadVar(K.P, st, x).value.ty == t &&
    ReadAddr(m, a, t) == Some(ReadVar(K.P, st, x).value.raw)
  }

  ghost predicate Writes(K: Setup, cx: Ctx, st: SState, base: seq<Value>, m: MState, x: string, a: Item, t: Ty,
                         raw: Raw) {
    WriteVar(K.P, st, x, raw).Some? && WriteAddr(m, a, Val(t, raw)).Some? &&
    var m1 := WriteAddr(m, a, Val(t, raw)).value;
    var st1 := WriteVar(K.P, st, x, raw).value;
    m1.pc == m.pc && m1.operands == m.operands && m1.frames == m.frames &&
    Rel(K, cx, st1, base, m1) && LiveLen(st1.env) == LiveLen(st.env)
  }

  lemma LocalLvalue(K: Setup, cx: Ctx, x: string, st: SState, base: seq<Value>, m: MState, raw: Raw)
    requires Rel(K, cx, st, base, m)
    requires 0 <= Find(st.env, x) < LiveLen(st.env)
    ensures |Flat(cx.scopes)| == |st.env|
    ensures var k := Find(st.env, x);
      var a := AddrLocal(FrameStart(m) + Slots(Flat(cx.scopes)[k].flow));
      a.slot < Extent(m.locals) &&
      Reads(K, st, m, x, a, st.env[k].ty) && Writes(K, cx, st, base, m, x, a, st.env[k].ty, raw)
  {
    hide Rel, Flat, Find, Slots, EnvMatch, GlobalsMatch, Extent, AtSlot, ReadAddr, WriteAddr, FrameStart;
    IdAgrees(K, cx, st, base, m, x);
    LocalByAddress(K, cx, st, base, m, x);
    LocalWrite(K, cx, st, base, m, x, raw);
  }

  lemma GlobalLvalue(K: Setup, cx: Ctx, x: string, st: SState, base: seq<Value>, m: MState, raw: Raw)
    requires GlobalsLinked(K) && Rel(K, cx, st, base, m)
    requires Find(st.env, x) < 0 && x in K.P.globals
    ensures var a := AddrGlobal(K.link.slots[x]);
      (K.P.globals[x] != String ==> Reads(K, st, m, x, a, K.P.globals[x])) &&
      Writes(K, cx, st, base, m, x, a, K.P.globals[x], raw)
  {
    hide Flat, Find, EnvMatch, GlobalsMatch, Extent, GlobalsLinked, Nested, Extends, ReadGlobal, WriteGlobal, EnvOk;
    GlobalRead(K, st, m, x);
    GlobalWrite(K, st.globals, m.globals, x, Val(K.P.globals[x], raw));
  }

  // An assignee's address is good for writing, and for reading unless it is a string's; but for
  // neither while its variable is pending.
  lemma Lvalue(K: Setup, cx: Ctx, x: string, te: TExpr, st: SState, base: seq<Value>, m: MState, raw: Raw)
    requires Linked(K) && Rel(K, cx, st, base, m)
    requires AnalyzeId(cx, x, true) == Some(te) && te.ty.Prim?
    ensures VarType(K.P, st, x) == Some(te.ty.t)
    ensures IsLeft(te)
    ensures !Pending(st, x) ==>
      var a := AddressOf(K, te, m);
      (te.ty.t != String ==> Reads(K, st, m, x, a, te.ty.t)) && Writes(K, cx, st, base, m, x, a, te.ty.t, raw)
    ensures Pending(st, x) ==> ReadVar(K.P, st, x).None? && WriteVar(K.P, st, x, raw).None?
  {
    hide EnvMatch, NativesLinked, FuncsLinked, Flat, Slots, Find, Resolve, FrameStart, Reads, Writes, EnvOk,
      GlobalsMatch;
    IdAgrees(K, cx, st, base, m, x);
    if Find(st.env, x) >= 0 {
      if !Pending(st, x) {
        LocalLvalue(K, cx, x, st, base, m, raw);
      }
    } else {
      GlobalLvalue(K, cx, x, st, base, m, raw);
    }
  }

  lemma ExecAddress(img: Image, s: MState, slot: nat)
    ensures Exec(img, s, LoadLocalAddress(slot)) ==
      if FrameStart(s) + slot < Extent(s.locals) then Some(PushItem(s, AddrLocal(FrameStart(s) + slot))) else None
  {
    hide FrameStart, Extent;
  }

  lemma ExecGlobalAddress(img: Image, s: MState, slot: nat)
    ensures Exec(img, s, LoadGlobalAddress(Num(slot))) == Some(PushItem(s, AddrGlobal(slot)))
  {
  }

  // Pushing the address: stuck exactly when the variable is pending.
  lemma StepAddress(K: Setup, cx: Ctx, x: string, te: TExpr, st: SState, base: seq<Value>, m: MState,
                    cont: int, brk: int, inFunc: bool)
    requires Linked(K) && Rel(K, cx, st, base, m)
    requires AnalyzeId(cx, x, true) == Some(te) && te.ty.Prim?
    requires |GenExpr(te)| == 1 && Next(K, m, GenExpr(te)[0], cont, brk, inFunc)
    ensures IsLeft(te)
    ensures if Pending(st, x) then Stuck(K.img, 0, m)
      else Run(K.img, 1, m) == Some(PushItem(Past(m, GenExpr(te)[0]), AddressOf(K, te, m)))
  {
    hide At, Run, Rel, EnvMatch, NativesLinked, FuncsLinked, Flat, CmdSize, Slots, Find, Resolve, Extent, LiveLen,
      Exec, Reads, Writes;
    Lvalue(K, cx, x, te, st, base, m, []);
    var c := GenExpr(te)[0];
    Fetch(K, m, c, cont, brk, inFunc);
    IdAgrees(K, cx, st, base, m, x);
    if Find(st.env, x) >= 0 {
      ExecAddress(K.img, Past(m, c), Slots(te.node.flow));
      SlotOfLocal(K, cx, st, base, m, Find(st.env, x));
    } else {
      ExecGlobalAddress(K.img, Past(m, c), K.link.slots[x]);
    }
  }

  lemma ExecStore(img: Image, s: MState, t: Ty, ops: seq<Item>, raw: Raw, a: Item)
    requires s.operands == ops + [V(Val(t, raw))] + [a]
    ensures Exec(img, s, Store(t)) == WriteAddr(s.(operands := ops), a, Val(t, raw))
  {
    hide WriteAddr;
    TwoPopped(ops, V(Val(t, raw)), a);
  }

  lemma ExecStep(img: Image, s: MState, inc: bool, t: Ty, ops: seq<Item>, raw: Raw, a: Item)
    requires s.operands == ops + [a]
    requires ReadAddr(s, a, t) == Some(raw)
    ensures Exec(img, s, StepCmd(inc, t)) == WriteAddr(s.(operands := ops), a, Val(t, img.prims.step(inc, t, raw)))
  {
    hide WriteAddr, ReadAddr;
    assert s.operands[..|s.operands| - 1] == ops;
  }

  // The machine has written the variable and stands behind the command; or the variable was pending
  // and the machine is stuck.
  ghost predicate Written(K: Setup, cx: Ctx, st: SState, r: Option<SState>, base: seq<Value>, m: MState, size: nat,
                          ops: seq<Item>, n: nat, m1: MState)
  {
    match r
    case None => Stuck(K.img, n, m)
    case Some(st1) =>
      Run(K.img, n, m) == Some(m1) && m1.pc == m.pc + size && m1.operands == ops && m1.frames == m.frames &&
      Rel(K, cx, st1, base, m1) && LiveLen(st1.env) == LiveLen(st.env)
  }

  lemma RelOperands(K: Setup, cx: Ctx, st: SState, base: seq<Value>, m: MState, m1: MState)
    requires Rel(K, cx, st, base, m)
    requires m1 == m.(pc := m1.pc, operands := m1.operands)
    ensures Rel(K, cx, st, base, m1)
    ensures FrameStart(m1) == FrameStart(m)
  {
    hide EnvMatch, GlobalsMatch, Nested, Extends, EnvOk, LiveLen, Vals, Extent;
  }

  // VisitAssign after its right operand: the value's address is pushed and stored through.
  lemma SimStore(K: Setup, cx: Ctx, x: string, te: TExpr, v: Value, st: SState, base: seq<Value>, m: MState,
                 ops: seq<Item>, cont: int, brk: int, inFunc: bool) returns (n: nat, m1: MState)
    requires Linked(K) && Rel(K, cx, st, base, m)
    requires AnalyzeId(cx, x, true) == Some(te) && te.ty == Prim(v.ty)
    requires m.operands == ops + [V(v)]
    requires |GenExpr(te)| == 1 && NextTwo(K, m, GenExpr(te)[0], Store(v.ty), cont, brk, inFunc)
    ensures Written(K, cx, st, WriteVar(K.P, st, x, v.raw), base, m, CmdSize(GenExpr(te)[0]) + 1, ops, n, m1)
  {
    hide Rel, Run, At, AnalyzeId, Exec, ReadVar, WriteVar, Linked, Reads, GenExpr, WriteAddr, FrameStart, Find, LiveLen;
    var c := GenExpr(te)[0];
    FirstOfTwo(K, m, c, Store(v.ty), cont, brk, inFunc);
    StepAddress(K, cx, x, te, st, base, m, cont, brk, inFunc);
    Lvalue(K, cx, x, te, st, base, m, v.raw);
    if Pending(st, x) {
      return 0, m;
    }
    var a := AddressOf(K, te, m);
    var s := PushItem(Past(m, c), a);
    Fetch(K, s, Store(v.ty), cont, brk, inFunc);
    ExecStore(K.img, Past(s, Store(v.ty)), v.ty, ops, v.raw, a);
    Chain(K.img, 1, m, s, 1);
    var s1 := Past(s, Store(v.ty)).(operands := ops);
    RelOperands(K, cx, st, base, m, s1);
    Lvalue(K, cx, x, te, st, base, s1, v.raw);
    assert AddressOf(K, te, s1) == a;
    n, m1 := 2, WriteAddr(s1, a, v).value;
  }

  // VisitUnaryExpr for a pre-increment or decrement: the address, then the step through it.
  lemma SimStep(K: Setup, cx: Ctx, x: string, te: TExpr, inc: bool, st: SState, base: seq<Value>, m: MState,
                cont: int, brk: int, inFunc: bool) returns (n: nat, m1: MState)
    requires Linked(K) && Rel(K, cx, st, base, m)
    requires AnalyzeId(cx, x, true) == Some(te) && te.ty.Prim? && te.ty.t != String
    requires |GenExpr(te)| == 1 && NextTwo(K, m, GenExpr(te)[0], StepCmd(inc, te.ty.t), cont, brk, inFunc)
    ensures ReadVar(K.P, st, x).None? ==> Stuck(K.img, n, m)
    ensures ReadVar(K.P, st, x).Some? ==>
      var v := ReadVar(K.P, st, x).value;
      && v.ty == te.ty.t
      && Written(K, cx, st, WriteVar(K.P, st, x, K.P.prims.step(inc, v.ty, v.raw)), base, m,
           CmdSize(GenExpr(te)[0]) + 1, m.operands, n, m1)
  {
    hide Rel, Run, At, AnalyzeId, Exec, ReadVar, WriteVar, GenExpr, WriteAddr, ReadAddr, FrameStart, Find, LiveLen,
      GlobalsLinked, NativesLinked, FuncsLinked;
    var c, t := GenExpr(te)[0], te.ty.t;
    FirstOfTwo(K, m, c, StepCmd(inc, t), cont, brk, inFunc);
    StepAddress(K, cx, x, te, st, base, m, cont, brk, inFunc);
    Lvalue(K, cx, x, te, st, base, m, []);
    if Pending(st, x) {
      return 0, m;
    }
    var a := AddressOf(K, te, m);
    var s := PushItem(Past(m, c), a);
    Fetch(K, s, StepCmd(inc, t), cont, brk, inFunc);
    Chain(K.img, 1, m, s, 1);
    var prev := ReadVar(K.P, st, x).value.raw;
    var raw := K.P.prims.step(inc, t, prev);
    var s0 := Past(s, StepCmd(inc, t));
    RelOperands(K, cx, st, base, m, s0);
    Lvalue(K, cx, x, te, st, base, s0, raw);
    assert AddressOf(K, te, s0) == a;
    ExecStep(K.img, s0, inc, t, m.operands, prev, a);
    var s1 := s0.(operands := m.operands);
    RelOperands(K, cx, st, base, m, s1);
    Lvalue(K, cx, x, te, st, base, s1, raw);
    assert AddressOf(K, te, s1) == a;
    n, m1 := 2, WriteAddr(s1, a, Val(t, raw)).value;
  }
}
