/** One command at a time: what each does to a state that corresponds to a source state. */
module Steps {
  import opened Bytes
  import opened Language
  import opened Semantics
  import opened Analysis
  import opened Commands
  import opened Codegen
  import opened Machine
  import opened Relation
  import opened Variables

  // Within a function exactly when there is more than the main frame.
  predicate Framed(m: MState, inFunc: bool) { m.frames != [] && (inFunc <==> |m.frames| >= 2) }

  // The command c is the next one to run.
  ghost predicate Next(K: Setup, m: MState, c: Cmd, cont: int, brk: int, inFunc: bool) {
    Framed(m, inFunc) && At(K, m.pc, [c], cont, brk, inFunc)
  }

  function Past(m: MState, c: Cmd): MState { m.(pc := m.pc + CmdSize(c)) }

  lemma Fetch(K: Setup, m: MState, c: Cmd, cont: int, brk: int, inFunc: bool)
    requires Next(K, m, c, cont, brk, inFunc)
    ensures Run(K.img, 1, m) == Exec(K.img, Past(m, c), Ready(K.link, c, m.pc, cont, brk))
    ensures Run(K.img, 1, m) == None ==> Stuck(K.img, 0, m)
  {
    hide Decode, Ready, Exec;
    assert [c][0] == c;
    OneStep(K.img, m);
    assert Run(K.img, 0, m) == Some(m);
  }

  lemma StepValue(K: Setup, m: MState, v: Value, cont: int, brk: int, inFunc: bool)
    requires Next(K, m, LoadValue(v), cont, brk, inFunc)
    ensures Run(K.img, 1, m) == Some(PushItem(Past(m, LoadValue(v)), V(v)))
  {
    hide At, Run;
    Fetch(K, m, LoadValue(v), cont, brk, inFunc);
  }

  lemma StepCast(K: Setup, m: MState, ops: seq<Item>, v: Value, t: Ty, cont: int, brk: int, inFunc: bool)
    requires Next(K, m, Cast(v.ty, t), cont, brk, inFunc)
    requires m.operands == ops + [V(v)]
    ensures Run(K.img, 1, m) ==
      Some(Past(m, Cast(v.ty, t)).(operands := ops + [V(Val(t, K.img.prims.cast(v.ty, t, v.raw)))]))
  {
    hide At, Run;
    Fetch(K, m, Cast(v.ty, t), cont, brk, inFunc);
    assert m.operands[..|m.operands| - 1] == ops;
  }

  lemma StepUnary(K: Setup, m: MState, ops: seq<Item>, op: UnOp, v: Value, cont: int, brk: int, inFunc: bool)
    requires Next(K, m, UnCmd(op, v.ty), cont, brk, inFunc)
    requires m.operands == ops + [V(v)]
    ensures Run(K.img, 1, m) ==
      Some(Past(m, UnCmd(op, v.ty)).(operands := ops + [V(Val(v.ty, K.img.prims.un(op, v.ty, v.raw)))]))
  {
    hide At, Run;
    Fetch(K, m, UnCmd(op, v.ty), cont, brk, inFunc);
    assert m.operands[..|m.operands| - 1] == ops;
  }

  lemma StepBinary(K: Setup, m: MState, ops: seq<Item>, op: BinOp, a: Value, b: Value, cont: int, brk: int,
                   inFunc: bool)
    requires a.ty == b.ty
    requires Next(K, m, BinCmd(op, b.ty), cont, brk, inFunc)
    requires m.operands == ops + [V(a)] + [V(b)]
    ensures Apply(K.img.prims, op, b.ty, a.raw, b.raw).None? ==> Stuck(K.img, 0, m)
    ensures Apply(K.img.prims, op, b.ty, a.raw, b.raw).Some? ==>
      var u := Val(BinType(op, b.ty), Apply(K.img.prims, op, b.ty, a.raw, b.raw).value);
      Run(K.img, 1, m) == Some(Past(m, BinCmd(op, b.ty)).(operands := ops + [V(u)]))
  {
    hide At, Run, Apply, Stuck;
    Fetch(K, m, BinCmd(op, b.ty), cont, brk, inFunc);
    assert m.operands[..|m.operands| - 1] == ops + [V(a)];
    assert (ops + [V(a)])[..|ops + [V(a)]| - 1] == ops;
  }

  lemma TwoPopped(ops: seq<Item>, a: Item, b: Item)
    ensures var s := ops + [a] + [b];
      s[|s| - 1] == b && s[..|s| - 1] == ops + [a] && (ops + [a])[|ops|] == a && (ops + [a])[..|ops|] == ops
  {
  }

  lemma StepLogic(K: Setup, m: MState, ops: seq<Item>, c: Cmd, a: Raw, b: Raw, cont: int, brk: int, inFunc: bool)
    requires c == AndCmd || c == OrCmd
    requires Next(K, m, c, cont, brk, inFunc)
    requires m.operands == ops + [V(Val(Bool, a))] + [V(Val(Bool, b))]
    ensures Run(K.img, 1, m) == Some(Past(m, c).(operands :=
      ops + [V(Val(Bool, BoolRaw(if c.AndCmd? then Truth(a) && Truth(b) else Truth(a) || Truth(b))))]))
  {
    hide At, Run, CmdSize, Truth, BoolRaw;
    Fetch(K, m, c, cont, brk, inFunc);
    TwoPopped(ops, V(Val(Bool, a)), V(Val(Bool, b)));
    assert Exec(K.img, Past(m, c), c) == StepBool(Past(m, c), c.AndCmd?);
  }

  // A conditional jump over a Boolean on top of the stack; the implicit ones leave it there.
  lemma StepCond(K: Setup, m: MState, ops: seq<Item>, kind: JumpKind, off: nat, raw: Raw, cont: int, brk: int,
                 inFunc: bool)
    requires !kind.Direct?
    requires Next(K, m, Jump(kind, Off(off)), cont, brk, inFunc)
    requires m.operands == ops + [V(Val(Bool, raw))]
    ensures var jumps := Truth(raw) == kind.ImplicitIf?;
      Run(K.img, 1, m) == Some(m.(
        pc := m.pc + 5 + (if jumps then off else 0),
        operands := if kind.IfNot? then ops else m.operands))
  {
    hide At, Run;
    Fetch(K, m, Jump(kind, Off(off)), cont, brk, inFunc);
    assert m.operands[..|m.operands| - 1] == ops;
  }

  function Arrival(m: MState, t: Target, cont: int, brk: int): int {
    match t case Off(o) => m.pc + 5 + o case ToBreak => brk case ToContinue => cont
  }

  lemma StepDirect(K: Setup, m: MState, t: Target, cont: int, brk: int, inFunc: bool)
    requires Next(K, m, Jump(Direct, t), cont, brk, inFunc)
    requires cont >= 0 && brk >= 0 && (t.Off? ==> m.pc + 5 + t.offset >= 0)
    ensures Run(K.img, 1, m) == Some(m.(pc := Arrival(m, t, cont, brk)))
  {
    hide At, Run;
    Fetch(K, m, Jump(Direct, t), cont, brk, inFunc);
  }

  // ----- identifiers -----

  lemma LocalReadStep(K: Setup, cx: Ctx, x: string, st: SState, base: seq<Value>, m: MState, s1: MState)
    requires Rel(K, cx, st, base, m)
    requires s1.locals == m.locals && s1.frames == m.frames
    requires Find(st.env, x) >= 0
    ensures var k := Find(st.env, x);
      var d := Flat(cx.scopes)[k];
      var v, r := ReadVar(K.P, st, x), ReadAddr(s1, AddrLocal(FrameStart(s1) + Slots(d.flow)), d.t);
      Resolve(cx.scopes, x) == Some(d) && d.t == st.env[k].ty &&
      if v.None? then r == None else v.value.ty == d.t && r == Some(v.value.raw)
  {
    hide Rel, EnvMatch, Find, Flat, Extent, AtSlot, Slots, Resolve, FindDef;
    IdAgrees(K, cx, st, base, m, x);
    var k := Find(st.env, x);
    if k < LiveLen(st.env) {
      LocalByAddress(K, cx, st, base, m, x);
    } else {
      SlotOfLocal(K, cx, st, base, m, k);
      AtSlotMiss(m.locals, FrameStart(m) + Slots(Flat(cx.scopes)[k].flow));
    }
  }

  lemma ExecLoadLocal(img: Image, s: MState, t: Ty, slot: nat)
    ensures var r := ReadAddr(s, AddrLocal(FrameStart(s) + slot), t);
      Exec(img, s, LoadLocal(t, slot)) == if r.None? then None else Some(PushItem(s, V(Val(t, r.value))))
  {
    hide ReadAddr, FrameStart;
  }

  lemma StepReadLocal(K: Setup, cx: Ctx, x: string, d: LocalDef, st: SState, base: seq<Value>, m: MState,
                      cont: int, brk: int, inFunc: bool)
    requires Rel(K, cx, st, base, m)
    requires Resolve(cx.scopes, x) == Some(d)
    requires Next(K, m, LoadLocal(d.t, Slots(d.flow)), cont, brk, inFunc)
    ensures ReadVar(K.P, st, x).None? ==> Stuck(K.img, 0, m)
    ensures ReadVar(K.P, st, x).Some? ==>
      var v := ReadVar(K.P, st, x).value;
      v.ty == d.t && Run(K.img, 1, m) == Some(PushItem(Past(m, LoadLocal(d.t, Slots(d.flow))), V(v)))
  {
    hide Exec, At, Run, Rel, Flat, CmdSize, ReadAddr, ReadVar, Slots, FrameStart, Find, Resolve, EnvMatch;
    var c := LoadLocal(d.t, Slots(d.flow));
    Fetch(K, m, c, cont, brk, inFunc);
    IdAgrees(K, cx, st, base, m, x);
    LocalReadStep(K, cx, x, st, base, m, Past(m, c));
    ExecLoadLocal(K.img, Past(m, c), d.t, Slots(d.flow));
  }

  lemma StepReadGlobal(K: Setup, x: string, st: SState, m: MState, cont: int, brk: int, inFunc: bool)
    requires GlobalsLinked(K) && GlobalsMatch(K, st.globals, m.globals)
    requires x in K.P.globals && Find(st.env, x) < 0
    requires Next(K, m, LoadGlobal(K.P.globals[x], Sym(x)), cont, brk, inFunc)
    ensures ReadVar(K.P, st, x).None? ==> Stuck(K.img, 0, m)
    ensures ReadVar(K.P, st, x).Some? ==>
      var v := ReadVar(K.P, st, x).value;
      v.ty == K.P.globals[x] && Run(K.img, 1, m) == Some(PushItem(Past(m, LoadGlobal(K.P.globals[x], Sym(x))), V(v)))
  {
    hide At, Run, GlobalsMatch, CmdSize, ReadGlobal, ReadVar;
    var c := LoadGlobal(K.P.globals[x], Sym(x));
    Fetch(K, m, c, cont, brk, inFunc);
    GlobalRead(K, st, m, x);
    assert Exec(K.img, Past(m, c), Ready(K.link, c, m.pc, cont, brk)) ==
      StepLoad(K.img, Past(m, c), LoadGlobal(K.P.globals[x], Num(K.link.slots[x])));
  }

  // What the generator emits to read an identifier pushes its value; the machine is stuck when the
  // identifier is the local being initialized or a global string that is not set.
  lemma StepRead(K: Setup, cx: Ctx, x: string, te: TExpr, st: SState, base: seq<Value>, m: MState,
                 cont: int, brk: int, inFunc: bool)
    requires Linked(K) && Rel(K, cx, st, base, m)
    requires AnalyzeId(cx, x, false) == Some(te) && te.ty.Prim?
    requires |GenExpr(te)| == 1 && Next(K, m, GenExpr(te)[0], cont, brk, inFunc)
    ensures ReadVar(K.P, st, x).None? ==> Stuck(K.img, 0, m)
    ensures ReadVar(K.P, st, x).Some? ==>
      var v := ReadVar(K.P, st, x).value;
      v.ty == te.ty.t && Run(K.img, 1, m) == Some(PushItem(Past(m, GenExpr(te)[0]), V(v)))
  {
    hide At, Run, EnvMatch, NativesLinked, FuncsLinked, Flat, CmdSize, ReadVar, Slots, Find, Resolve;
    IdAgrees(K, cx, st, base, m, x);
    if Resolve(cx.scopes, x).Some? {
      StepReadLocal(K, cx, x, Resolve(cx.scopes, x).value, st, base, m, cont, brk, inFunc);
    } else {
      StepReadGlobal(K, x, st, m, cont, brk, inFunc);
    }
  }
}
