/** What the bytes of values mean, in numbers: the truth of bools and of what && and || leave, the slots that
    values need, and the integers for which a division has no result. */
module Meaning {
  import opened Bytes
  import opened Language
  import opened Semantics
  import opened Analysis
  import opened Commands
  import opened Codegen
  import opened Machine
  import opened Relation
  import opened Variables
  import opened Simulation
  import opened Steps

  // ----- bools -----

  lemma BoolMeans(b: bool, n: byte)
    ensures BoolRaw(true) == [1] && BoolRaw(false) == [0] && (Truth(BoolRaw(b)) <==> b)
    ensures Truth([n]) <==> n != 0
  {
  }

  // The result is a bool, true as a byte exactly if `truth`, in this state.
  predicate IsBool(r: ERes, truth: bool, st: SState) {
    r.EOk? && r.st == st && r.val.Some? && r.val.value.ty == Bool && (r.val.value.raw != [0] <==> truth)
  }

  // && is the conjunction of its operands, the right one evaluated only if the left one is true.
  lemma AndMeans(P: Prog, fuel: nat, st: SState, l: Expr, r: Expr, p: bool, st1: SState, q: bool, st2: SState)
    requires IsBool(EvalExpr(P, fuel, st, l), p, st1) && (p ==> IsBool(EvalExpr(P, fuel, st1, r), q, st2))
    ensures IsBool(EvalExpr(P, fuel, st, And(l, r)), p && q, if p then st2 else st1)
  {
  }

  // || is their disjunction, the right one evaluated only if the left one is false.
  lemma OrMeans(P: Prog, fuel: nat, st: SState, l: Expr, r: Expr, p: bool, st1: SState, q: bool, st2: SState)
    requires IsBool(EvalExpr(P, fuel, st, l), p, st1) && (!p ==> IsBool(EvalExpr(P, fuel, st1, r), q, st2))
    ensures IsBool(EvalExpr(P, fuel, st, Or(l, r)), p || q, if p then st1 else st2)
  {
  }

  // The commands of && and || leave the conjunction and the disjunction of the two bools on the stack.
  lemma LogicCmds(K: Setup, m: MState, ops: seq<Item>, c: Cmd, a: Raw, b: Raw, cont: int, brk: int, inFunc: bool)
      returns (raw: Raw)
    requires c == AndCmd || c == OrCmd
    requires Next(K, m, c, cont, brk, inFunc) && m.operands == ops + [V(Val(Bool, a))] + [V(Val(Bool, b))]
    ensures Run(K.img, 1, m) == Some(Past(m, c).(operands := ops + [V(Val(Bool, raw))]))
    ensures raw != [0] <==> if c.AndCmd? then a != [0] && b != [0] else a != [0] || b != [0]
    ensures raw == [0] || raw == [1]
  {
    hide Run, Next, Past;
    StepLogic(K, m, ops, c, a, b, cont, brk, inFunc);
    raw := BoolRaw(if c.AndCmd? then Truth(a) && Truth(b) else Truth(a) || Truth(b));
  }

  // What the commands of operators and casts do to the values on top, the right operand being the last one.
  lemma OpCmds(img: Image, s: MState, ops: seq<Item>, op: BinOp, t: Ty, a: Raw, b: Raw)
    requires s.operands == ops + [V(Val(t, a))] + [V(Val(t, b))] && !NoResult(op, t, a, b)
    ensures Exec(img, s, BinCmd(op, t)) ==
      Some(s.(operands := ops + [V(Val(if IsComparison(op) then Bool else t, img.prims.bin(op, t, a, b)))]))
  {
    hide NoResult;
    assert s.operands[..|s.operands| - 1] == ops + [V(Val(t, a))];
    assert (ops + [V(Val(t, a))])[..|ops|] == ops;
  }

  lemma OneCmds(img: Image, s: MState, ops: seq<Item>, op: UnOp, t: Ty, u: Ty, a: Raw)
    requires s.operands == ops + [V(Val(t, a))]
    ensures Exec(img, s, UnCmd(op, t)) == Some(s.(operands := ops + [V(Val(t, img.prims.un(op, t, a)))]))
    ensures Exec(img, s, Cast(t, u)) == Some(s.(operands := ops + [V(Val(u, img.prims.cast(t, u, a)))]))
  {
    assert s.operands[..|s.operands| - 1] == ops;
  }

  // The command of ++ and -- steps the variable whose address is on top, up or down.
  lemma StepCmds(img: Image, s: MState, ops: seq<Item>, inc: bool, t: Ty, slot: nat, k: nat, raw: Raw)
    requires s.operands == ops + [AddrLocal(slot)] && AtSlot(s.locals, slot) == Some(k) && k < |s.locals|
    requires s.locals[k] == Val(t, raw)
    ensures Exec(img, s, StepCmd(inc, t)) ==
      Some(s.(operands := ops, locals := s.locals[k := Val(t, img.prims.step(inc, t, raw))]))
  {
    assert s.operands[..|s.operands| - 1] == ops;
  }

  // The values as they are pushed for a call: the last one first, the first one on top.
  function Pushed(vs: seq<Value>): seq<Item> { if vs == [] then [] else Pushed(vs[1..]) + [V(vs[0])] }

  function Types(vs: seq<Value>): seq<Ty> { seq(|vs|, i requires 0 <= i < |vs| => vs[i].ty) }

  lemma {:induction false} TakesPushed(ops: seq<Item>, vs: seq<Value>)
    ensures TakeArgs(ops + Pushed(vs), Types(vs)) == Some(vs) && |Pushed(vs)| == |vs|
    decreases |vs|
  {
    if vs != [] {
      var all := ops + Pushed(vs);
      TakesPushed(ops, vs[1..]);
      assert all[..|all| - 1] == ops + Pushed(vs[1..]);
      assert Types(vs)[1..] == Types(vs[1..]);
      assert [vs[0]] + vs[1..] == vs;
    }
  }

  // A native function gets its arguments in the order of its parameters, and its result replaces them.
  lemma NativeCmd(img: Image, s: MState, ops: seq<Item>, vs: seq<Value>, i: nat, ret: Option<Ty>)
    requires i < |img.natives| && img.natives[i].sig == Sig(Types(vs), ret, true)
    requires s.operands == ops + Pushed(vs) + [NativeV(i)]
    ensures var r := img.prims.native(img.natives[i].name, vs, s.world);
      Exec(img, s, CallNative) ==
        Some(s.(operands := ops + (if ret.None? then [] else [V(Val(ret.value, r.0))]), world := r.1))
  {
    TakesPushed(ops, vs);
    var args := ops + Pushed(vs);
    assert s.operands[..|s.operands| - 1] == args && args[..|args| - |vs|] == ops;
    hide TakeArgs, Pushed;
    assert ops + [] == ops;
  }

  // A conditional jump goes on if the bool is the byte it waits for: a plain one and that of && wait for 0, that
  // of || for anything else.
  lemma JumpMeans(K: Setup, m: MState, ops: seq<Item>, kind: JumpKind, off: nat, raw: Raw, cont: int, brk: int,
                  inFunc: bool)
    requires !kind.Direct? && Next(K, m, Jump(kind, Off(off)), cont, brk, inFunc)
    requires m.operands == ops + [V(Val(Bool, raw))]
    ensures var jumps := if kind.ImplicitIf? then raw != [0] else raw == [0];
      Run(K.img, 1, m) == Some(m.(
        pc := m.pc + 5 + (if jumps then off else 0),
        operands := if kind.IfNot? then ops else m.operands))
  {
    hide Run, Next;
    StepCond(K, m, ops, kind, off, raw, cont, brk, inFunc);
  }

  // So the code of && and || ends with one bool on the untouched stack, which is true exactly if the
  // conjunction or the disjunction of the operands is.
  lemma LogicLeaves(K: Setup, cx: Ctx, fuel: nat, e: Expr, te: TExpr, st: SState, base: seq<Value>, m: MState,
                    cont: int, brk: int, inFunc: bool, p: bool, st1: SState, q: bool, st2: SState)
      returns (n: nat, m1: MState, raw: Raw)
    requires Linked(K) && Rel(K, cx, st, base, m)
    requires (e.And? || e.Or?) && AnalyzeExpr(cx, e, false) == Some(te)
    requires Ahead(K, m, GenExpr(te), cont, brk, inFunc)
    requires IsBool(EvalExpr(K.P, fuel, st, e.left), p, st1)
    requires p == e.And? ==> IsBool(EvalExpr(K.P, fuel, st1, e.right), q, st2)
    ensures Run(K.img, n, m) == Some(m1) && m1.pc == m.pc + Size(GenExpr(te)) && m1.frames == m.frames
    ensures m1.operands == m.operands + [V(Val(Bool, raw))]
    ensures raw != [0] <==> if e.And? then p && q else p || q
  {
    hide *;
    n, m1 := SimLogic(K, cx, fuel, e, te, st, base, m, cont, brk, inFunc);
    var last := if p == e.And? then st2 else st1;
    if e.And? {
      AndMeans(K.P, fuel, st, e.left, e.right, p, st1, q, st2);
      assert e == And(e.left, e.right);
      raw := Landed(K, cx, EvalExpr(K.P, fuel, st, e), te, p && q, last, fuel, st, base, m, n, m1);
    } else {
      OrMeans(K.P, fuel, st, e.left, e.right, p, st1, q, st2);
      assert e == Or(e.left, e.right);
      raw := Landed(K, cx, EvalExpr(K.P, fuel, st, e), te, p || q, last, fuel, st, base, m, n, m1);
    }
  }

  lemma Landed(K: Setup, cx: Ctx, r: ERes, te: TExpr, truth: bool, last: SState, fuel: nat, st: SState,
               base: seq<Value>, m: MState, n: nat, m1: MState) returns (raw: Raw)
    requires ExprDone(K, cx, r, te.ty, Size(GenExpr(te)), fuel, st, base, m, n, m1) && IsBool(r, truth, last)
    ensures Run(K.img, n, m) == Some(m1) && m1.pc == m.pc + Size(GenExpr(te)) && m1.frames == m.frames
    ensures m1.operands == m.operands + [V(Val(Bool, raw))] && (raw != [0] <==> truth)
  {
    hide Run, Size, GenExpr, Rel;
    raw := r.val.value.raw;
  }

  // ----- slots -----

  // With slots of four bytes, a value fits the slots of its type and needs all of them; a string is a
  // reference and takes one.
  lemma SlotsFit(t: Ty)
    ensures Width(t) > 0 ==> 4 * (SlotSize(t) - 1) < Width(t) <= 4 * SlotSize(t)
    ensures t == String ==> SlotSize(t) == 1
    ensures SlotSize(t) == 2 <==> t == Long || t == Double
  {
  }

  // The slots of a list of variables are the sum of theirs.
  lemma SlotsAre(ts: seq<Ty>, us: seq<Ty>, t: Ty)
    ensures Slots([]) == 0 && Slots([t]) == if t == Long || t == Double then 2 else 1
    ensures Slots(ts + us) == Slots(ts) + Slots(us)
    decreases |us|
  {
    assert [t][..0] == [];
    if us == [] {
      assert ts + us == ts;
    } else {
      var k := |us| - 1;
      assert (ts + us)[..|ts| + k] == ts + us[..k];
      SlotsAre(ts, us[..k], t);
    }
  }

  // ----- integers -----

  // The number that little-endian bytes are, and the signed one in two's complement.
  function Unsigned(raw: Raw): nat { if raw == [] then 0 else raw[0] as nat + 256 * Unsigned(raw[1..]) }

  function Power(n: nat): nat { if n == 0 then 1 else 256 * Power(n - 1) }

  function Signed(raw: Raw): int {
    if 2 * Unsigned(raw) < Power(|raw|) then Unsigned(raw) else Unsigned(raw) - Power(|raw|)
  }

  lemma {:induction false} UnsignedFits(raw: Raw)
    ensures Unsigned(raw) < Power(|raw|)
  {
    if raw != [] {
      UnsignedFits(raw[1..]);
    }
  }

  // Bytes of one length are determined by their number.
  lemma {:induction false} UnsignedOne(a: Raw, b: Raw)
    requires |a| == |b| && Unsigned(a) == Unsigned(b)
    ensures a == b
  {
    if a != [] {
      var x, y := Unsigned(a[1..]), Unsigned(b[1..]);
      assert a[0] == b[0] && x == y by {
        Digit(a[0], x);
        Digit(b[0], y);
      }
      UnsignedOne(a[1..], b[1..]);
      assert a == [a[0]] + a[1..] && b == [b[0]] + b[1..];
    }
  }

  lemma {:induction false} ZerosUnsigned(n: nat)
    ensures Unsigned(Zeros(n)) == 0
  {
    if n > 0 {
      assert Zeros(n)[1..] == Zeros(n - 1);
      ZerosUnsigned(n - 1);
    }
  }

  lemma {:induction false} OnesUnsigned(ones: Raw)
    requires forall i :: 0 <= i < |ones| ==> ones[i] == 0xFF
    ensures Unsigned(ones) == Power(|ones|) - 1
  {
    if ones != [] {
      OnesUnsigned(ones[1..]);
    }
  }

  lemma {:induction false} LeastUnsigned(n: nat)
    ensures Unsigned(Zeros(n) + [0x80]) * 2 == Power(n + 1)
  {
    if n == 0 {
      assert Zeros(0) + [0x80] == [0x80] && [0x80][1..] == [];
      assert Power(1) == 256 && Unsigned([]) == 0;
    } else {
      assert (Zeros(n) + [0x80])[1..] == Zeros(n - 1) + [0x80];
      LeastUnsigned(n - 1);
    }
  }

  lemma PowerPositive(n: nat)
    ensures Power(n) >= 1
  {
  }

  lemma SignedOne(a: Raw, b: Raw)
    requires |a| == |b| && Signed(a) == Signed(b)
    ensures a == b
  {
    UnsignedFits(a);
    UnsignedFits(b);
    UnsignedOne(a, b);
  }

  // Zero, minus one and the least number of an integer type.
  lemma Constants(t: Ty)
    requires t == Char || t == Int || t == Long
    ensures |Zeros(Width(t))| == |Least(t)| == |MinusOne(t)| == Width(t)
    ensures Signed(Zeros(Width(t))) == 0 && Signed(MinusOne(t)) == -1
    ensures -2 * Signed(Least(t)) == Power(Width(t))
  {
    ZerosUnsigned(Width(t));
    OnesUnsigned(MinusOne(t));
    LeastUnsigned(Width(t) - 1);
    PowerPositive(Width(t) - 1);
    hide Unsigned;
  }

  lemma Ranges()
    ensures Power(Width(Char)) == 0x100 && Power(Width(Int)) == 0x1_0000_0000
    ensures Power(Width(Long)) == 0x1_0000_0000_0000_0000 && Width(Bool) == 1 && Width(Double) == 8
  {
    assert Power(1) == 256 && Power(2) == 0x1_0000 && Power(3) == 0x100_0000 && Power(4) == 0x1_0000_0000;
    assert Power(5) == 0x100_0000_0000 && Power(6) == 0x1_0000_0000_0000;
    assert Power(7) == 0x100_0000_0000_0000 && Power(8) == 0x1_0000_0000_0000_0000;
  }

  // An operation has no result exactly if it divides an integer by zero, or an int or long whose quotient is
  // just beyond the greatest number.
  lemma NoResultMeans(op: BinOp, t: Ty, a: Raw, b: Raw)
    requires t == Char || t == Int || t == Long
    requires |a| == |b| == Width(t)
    ensures NoResult(op, t, a, b) <==>
      op == Div &&
      (Signed(b) == 0 || (t != Char && Signed(b) == -1 && -2 * Signed(a) == Power(Width(t))))
  {
    Constants(t);
    hide Signed, Power, Zeros, Width, Least, MinusOne;
    if Signed(b) == Signed(Zeros(Width(t))) {
      SignedOne(b, Zeros(Width(t)));
    }
    if Signed(b) == Signed(MinusOne(t)) {
      SignedOne(b, MinusOne(t));
    }
    if Signed(a) == Signed(Least(t)) {
      SignedOne(a, Least(t));
    }
  }

  // A variable that is created without a value is zero, false or the empty string.
  lemma DefaultMeans(t: Ty)
    ensures Default(t).ty == t && |Default(t).raw| == Width(t) && Unsigned(Default(t).raw) == 0
    ensures t == Bool ==> !Truth(Default(t).raw)
  {
    ZerosUnsigned(Width(t));
    assert Zeros(1) == [0];
  }
}
