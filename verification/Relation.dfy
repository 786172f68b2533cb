/** How a state of the source program and a state of the machine correspond, and what each of the two
    lookups (by name in the environment, by slot in the storage) says about the other. */
module Relation {
  import opened Bytes
  import opened Language
  import opened Semantics
  import opened Analysis
  import opened Commands
  import opened Codegen
  import opened Machine

  // The numbers that symbols stand for in a linked executable.
  datatype Link = Link(slots: map<string, nat>, funcs: map<string, nat>, natives: map<string, nat>)

  // A program, the declarations its parts were analyzed under, their analyses, and the executable.
  datatype Setup = Setup(
    P: Prog,
    G: map<string, GDef>,
    views: map<string, map<string, GDef>>,
    defs: map<string, TFuncDef>,
    link: Link,
    img: Image)

  function Number(names: map<string, nat>, r: Operand): Operand {
    if r.Sym? && r.name in names then Num(names[r.name]) else r
  }

  // A command as it stands at an address of the executable: symbols numbered, holes aimed.
  function Ready(link: Link, c: Cmd, pc: nat, cont: int, brk: int): (r: Cmd)
    ensures CmdSize(r) == CmdSize(c)
  {
    match c
    case CreateGlobal(t, r) => CreateGlobal(t, Number(link.slots, r))
    case InitGlobal(t, r) => InitGlobal(t, Number(link.slots, r))
    case LoadGlobal(t, r) => LoadGlobal(t, Number(link.slots, r))
    case LoadGlobalAddress(r) => LoadGlobalAddress(Number(link.slots, r))
    case LoadFunc(r) => LoadFunc(Number(link.funcs, r))
    case LoadNative(r) => LoadNative(Number(link.natives, r))
    case Jump(k, ToBreak) => Jump(k, Off(brk - (pc + CmdSize(c))))
    case Jump(k, ToContinue) => Jump(k, Off(cont - (pc + CmdSize(c))))
    case _ => c
  }

  // The code cs stands at pc, with its open jumps aimed at cont and brk; outside functions it stays
  // below the end of the main segment.
  ghost predicate At(K: Setup, pc: nat, cs: seq<Cmd>, cont: int, brk: int, inFunc: bool)
    decreases |cs|
  {
    cs == [] ||
    (Decode(K.img.code, pc) == Some(Ready(K.link, cs[0], pc, cont, brk))
     && (inFunc || pc < K.img.mainSize)
     && At(K, pc + CmdSize(cs[0]), cs[1..], cont, brk, inFunc))
  }

  lemma {:induction false} AtSplit(K: Setup, pc: nat, a: seq<Cmd>, b: seq<Cmd>, cont: int, brk: int, inFunc: bool)
    requires At(K, pc, a + b, cont, brk, inFunc)
    ensures At(K, pc, a, cont, brk, inFunc)
    ensures At(K, pc + Size(a), b, cont, brk, inFunc)
    decreases |a|
  {
    hide *;
    SizeHead(a);
    AtNone(K, pc, cont, brk, inFunc);
    if a == [] {
      assert a + b == b;
    } else {
      assert (a + b)[1..] == a[1..] + b && (a + b)[0] == a[0];
      AtHead(K, pc, a + b, cont, brk, inFunc);
      AtHead(K, pc, a, cont, brk, inFunc);
      AtSplit(K, pc + CmdSize(a[0]), a[1..], b, cont, brk, inFunc);
    }
  }

  lemma SizeHead(a: seq<Cmd>)
    ensures a == [] ==> Size(a) == 0
    ensures a != [] ==> Size(a) == CmdSize(a[0]) + Size(a[1..])
  {
    hide CmdSize;
  }

  lemma AtHead(K: Setup, pc: nat, cs: seq<Cmd>, cont: int, brk: int, inFunc: bool)
    requires cs != []
    ensures At(K, pc, cs, cont, brk, inFunc) <==>
      Decode(K.img.code, pc) == Some(Ready(K.link, cs[0], pc, cont, brk)) && (inFunc || pc < K.img.mainSize)
      && At(K, pc + CmdSize(cs[0]), cs[1..], cont, brk, inFunc)
  {
    hide Decode, Ready, CmdSize;
  }

  lemma AtNone(K: Setup, pc: nat, cont: int, brk: int, inFunc: bool)
    ensures At(K, pc, [], cont, brk, inFunc)
  {
  }

  // Code whose holes were filled relative to its own start is the same code aimed at those targets.
  lemma {:induction false} AtFill(K: Setup, pc: nat, cs: seq<Cmd>, toStart: int, toEnd: int,
                                  cont: int, brk: int, inFunc: bool)
    requires At(K, pc, Fill(cs, toStart, toEnd), cont, brk, inFunc)
    ensures At(K, pc, cs, pc + toStart, pc + toEnd, inFunc)
    decreases |cs|
  {
    hide At, Decode, Ready, CmdSize, FillCmd;
    if cs != [] {
      var f := Fill(cs, toStart, toEnd);
      var k := CmdSize(cs[0]);
      assert f[0] == FillCmd(cs[0], toStart, toEnd);
      FillCmdSize(cs[0], toStart, toEnd);
      AtHead(K, pc, f, cont, brk, inFunc);
      AtHead(K, pc, cs, pc + toStart, pc + toEnd, inFunc);
      assert f[1..] == Fill(cs[1..], toStart - k, toEnd - k);
      FilledReady(K.link, cs[0], pc, toStart, toEnd, cont, brk);
      AtFill(K, pc + k, cs[1..], toStart - k, toEnd - k, cont, brk, inFunc);
    } else {
      assert At(K, pc, [], pc + toStart, pc + toEnd, inFunc) by { AtNone(K, pc, pc + toStart, pc + toEnd, inFunc); }
    }
  }

  lemma FilledReady(link: Link, c: Cmd, pc: nat, toStart: int, toEnd: int, cont: int, brk: int)
    ensures Ready(link, FillCmd(c, toStart, toEnd), pc, cont, brk) == Ready(link, c, pc, pc + toStart, pc + toEnd)
  {
  }

  // ----- runs -----

  lemma {:induction false} Chain(img: Image, n1: nat, m: MState, m1: MState, n2: nat)
    requires Run(img, n1, m) == Some(m1)
    ensures Run(img, n1 + n2, m) == Run(img, n2, m1)
  {
    hide Step;
    if n1 > 0 {
      Chain(img, n1 - 1, Step(img, m).value, m1, n2);
    }
  }

  lemma OneStep(img: Image, m: MState)
    ensures Run(img, 1, m) == Step(img, m)
  {
    if Step(img, m).Some? {
      assert Run(img, 0, Step(img, m).value) == Some(Step(img, m).value);
    }
  }

  // ----- local variables -----

  function Flat(scopes: seq<Scope>): seq<LocalDef> {
    if scopes == [] then [] else Flat(scopes[..|scopes| - 1]) + scopes[|scopes| - 1].defs
  }

  // Only the outermost scope is a function's.
  predicate Nested(scopes: seq<Scope>) {
    forall i :: 0 < i < |scopes| ==> scopes[i].kind != FuncScope
  }

  // The environment binds what the scopes define, in the same order, and every definition recorded
  // the types of those before it.
  ghost predicate EnvMatch(scopes: seq<Scope>, env: seq<Var>) {
    var fl := Flat(scopes);
    |fl| == |env| &&
    (forall i :: 0 <= i < |fl| ==> fl[i].name == env[i].name && fl[i].t == env[i].ty) &&
    (forall i :: 0 <= i < |fl| ==> fl[i].flow == DefTypes(fl[..i]))
  }

  // All bindings but a pending last one.
  function LiveLen(env: seq<Var>): (n: nat)
    ensures n <= |env|
  {
    if env != [] && env[|env| - 1].raw.None? then |env| - 1 else |env|
  }

  predicate EnvOk(env: seq<Var>) {
    forall i :: 0 <= i < LiveLen(env) ==> env[i].raw.Some?
  }

  function Vals(env: seq<Var>): (vs: seq<Value>)
    ensures |vs| == |env|
  {
    seq(|env|, i requires 0 <= i < |env| => Val(env[i].ty, if env[i].raw.Some? then env[i].raw.value else []))
  }

  ghost predicate GlobalsMatch(K: Setup, g: map<string, Value>, mg: map<nat, Value>) {
    (forall x :: x in K.P.globals ==>
      x in K.link.slots && (x in g <==> K.link.slots[x] in mg) &&
      (x in g ==> g[x].ty == K.P.globals[x] && mg[K.link.slots[x]] == g[x])) &&
    (forall k :: k in mg ==> exists x :: x in K.P.globals && x in K.link.slots && K.link.slots[x] == k)
  }

  predicate Extends(a: map<string, GDef>, b: map<string, GDef>) {
    forall x :: x in a ==> x in b && b[x] == a[x]
  }

  ghost predicate Rel(K: Setup, cx: Ctx, st: SState, base: seq<Value>, m: MState) {
    EnvMatch(cx.scopes, st.env) && EnvOk(st.env) && Nested(cx.scopes) &&
    m.locals == base + Vals(st.env[..LiveLen(st.env)]) &&
    m.frames != [] && FrameStart(m) == Extent(base) &&
    GlobalsMatch(K, st.globals, m.globals) &&
    m.world == st.world &&
    Extends(cx.globals, K.G)
  }

  lemma {:induction false} FlowAll(scopes: seq<Scope>)
    requires Nested(scopes)
    ensures FlowUpTo(scopes, FuncScope) == Flat(scopes)
  {
    if scopes != [] {
      var k := |scopes| - 1;
      FlowAll(scopes[..k]);
      if scopes[k].kind == FuncScope {
        assert scopes[..k] == [];
      }
    }
  }

  lemma {:induction false} FindDefAppend(a: seq<LocalDef>, b: seq<LocalDef>, x: string)
    ensures FindDef(a + b, x) == if FindDef(b, x) >= 0 then |a| + FindDef(b, x) else FindDef(a, x)
    decreases |b|
  {
    if b == [] {
      assert a + b == a;
    } else {
      assert (a + b)[..|a + b| - 1] == a + b[..|b| - 1];
      FindDefAppend(a, b[..|b| - 1], x);
    }
  }

  lemma {:induction false} ResolveFlat(scopes: seq<Scope>, x: string)
    ensures FindDef(Flat(scopes), x) < 0 ==> Resolve(scopes, x).None?
    ensures FindDef(Flat(scopes), x) >= 0 ==> Resolve(scopes, x) == Some(Flat(scopes)[FindDef(Flat(scopes), x)])
  {
    if scopes != [] {
      var k := |scopes| - 1;
      ResolveFlat(scopes[..k], x);
      FindDefAppend(Flat(scopes[..k]), scopes[k].defs, x);
    }
  }

  lemma {:induction false} FindAgrees(ds: seq<LocalDef>, env: seq<Var>, x: string)
    requires |ds| == |env|
    requires forall i :: 0 <= i < |ds| ==> ds[i].name == env[i].name
    ensures FindDef(ds, x) == Find(env, x)
    decreases |ds|
  {
    if ds != [] {
      FindAgrees(ds[..|ds| - 1], env[..|env| - 1], x);
    }
  }

  // Name resolution by scopes finds the binding that the semantics finds.
  lemma ResolveAgrees(scopes: seq<Scope>, env: seq<Var>, x: string)
    requires EnvMatch(scopes, env)
    ensures Find(env, x) < 0 <==> Resolve(scopes, x).None?
    ensures Find(env, x) >= 0 ==>
      var k := Find(env, x);
      Resolve(scopes, x) == Some(Flat(scopes)[k]) && Flat(scopes)[k].t == env[k].ty
  {
    ResolveFlat(scopes, x);
    FindAgrees(Flat(scopes), env, x);
  }

  lemma IdAgrees(K: Setup, cx: Ctx, st: SState, base: seq<Value>, m: MState, x: string)
    requires Rel(K, cx, st, base, m)
    ensures |Flat(cx.scopes)| == |st.env|
    ensures Find(st.env, x) < 0 <==> Resolve(cx.scopes, x).None?
    ensures Find(st.env, x) >= 0 ==>
      var k := Find(st.env, x);
      Resolve(cx.scopes, x) == Some(Flat(cx.scopes)[k]) && Flat(cx.scopes)[k].t == st.env[k].ty
  {
    ResolveAgrees(cx.scopes, st.env, x);
  }

  // ----- slots -----

  lemma {:induction false} ExtentAppend(a: seq<Value>, b: seq<Value>)
    ensures Extent(a + b) == Extent(a) + Extent(b)
    decreases |b|
  {
    if b == [] {
      assert a + b == a;
    } else {
      assert (a + b)[..|a + b| - 1] == a + b[..|b| - 1];
      ExtentAppend(a, b[..|b| - 1]);
    }
  }

  lemma {:induction false} ExtentMono(vs: seq<Value>, i: nat, j: nat)
    requires i <= j <= |vs|
    ensures Extent(vs[..i]) + (j - i) <= Extent(vs[..j])
    decreases j - i
  {
    if i < j {
      ExtentMono(vs, i, j - 1);
      assert vs[..j][..j - 1] == vs[..j - 1];
    }
  }

  lemma {:induction false} AtSlotHit(vs: seq<Value>, k: nat)
    requires k < |vs|
    ensures AtSlot(vs, Extent(vs[..k])) == Some(k)
    decreases |vs|
  {
    var n := |vs| - 1;
    if k < n {
      ExtentMono(vs, k, n);
      assert vs[..n][..k] == vs[..k];
      AtSlotHit(vs[..n], k);
    }
  }

  lemma {:induction false} AtSlotMiss(vs: seq<Value>, slot: nat)
    requires slot >= Extent(vs)
    ensures AtSlot(vs, slot).None?
    decreases |vs|
  {
    if vs != [] {
      AtSlotMiss(vs[..|vs| - 1], slot);
    }
  }

  lemma {:induction false} SlotsExtent(ts: seq<Ty>, vs: seq<Value>)
    requires |ts| == |vs| && forall i :: 0 <= i < |ts| ==> vs[i].ty == ts[i]
    ensures Slots(ts) == Extent(vs)
    decreases |ts|
  {
    if ts != [] {
      SlotsExtent(ts[..|ts| - 1], vs[..|vs| - 1]);
    }
  }

  // The slot that the generator computes for the k-th live local is where that local starts; for a
  // pending one it is the end of the storage.
  lemma SlotOfLocal(K: Setup, cx: Ctx, st: SState, base: seq<Value>, m: MState, k: nat)
    requires Rel(K, cx, st, base, m)
    requires k < |st.env|
    ensures var slot := FrameStart(m) + Slots(Flat(cx.scopes)[k].flow);
      if k < LiveLen(st.env)
      then slot < Extent(m.locals) && AtSlot(m.locals, slot) == Some(|base| + k)
      else slot == Extent(m.locals)
  {
    hide Extent, AtSlot, Slots, GlobalsMatch, Nested, Extends;
    var vs := Vals(st.env[..LiveLen(st.env)]);
    SlotsExtent(Flat(cx.scopes)[k].flow, vs[..k]);
    PlaceAfter(base, vs, k);
  }

  // Where the k-th value on top of base starts.
  lemma PlaceAfter(base: seq<Value>, vs: seq<Value>, k: nat)
    requires k <= |vs|
    ensures var slot := Extent(base) + Extent(vs[..k]);
      if k < |vs| then slot < Extent(base + vs) && AtSlot(base + vs, slot) == Some(|base| + k)
      else slot == Extent(base + vs)
  {
    hide Extent, AtSlot;
    var all, j := base + vs, |base| + k;
    assert all[..j] == base + vs[..k];
    ExtentAppend(base, vs[..k]);
    assert all[..|all|] == all;
    if k < |vs| {
      AtSlotHit(all, j);
      ExtentMono(all, j, |all|);
    }
  }
}
