/** Every jump lands on the boundary of a command, within the code of its own function or of the
    top-level statements. */
module Landing {
  import opened Bytes
  import opened Language
  import opened Analysis
  import opened Commands
  import opened Codegen
  import opened Emission
  import opened Generator
  import opened ModuleFacts

  predicate Boundary(cs: seq<Cmd>, p: int) { exists j :: 0 <= j <= |cs| && p == Size(cs[..j]) }

  // The i-th command, if it is a jump with a known offset, lands on a boundary.
  predicate LandsAt(cs: seq<Cmd>, i: nat) {
    i < |cs| && (cs[i].Jump? && cs[i].target.Off? ==> Boundary(cs, Size(cs[..i + 1]) + cs[i].target.offset))
  }

  predicate Lands(cs: seq<Cmd>) { forall i: nat :: i < |cs| ==> LandsAt(cs, i) }

  lemma BoundaryLeft(a: seq<Cmd>, b: seq<Cmd>, p: int)
    requires Boundary(a, p)
    ensures Boundary(a + b, p)
  {
    var j :| 0 <= j <= |a| && p == Size(a[..j]);
    assert (a + b)[..j] == a[..j];
  }

  lemma BoundaryRight(a: seq<Cmd>, b: seq<Cmd>, p: int)
    requires Boundary(b, p)
    ensures Boundary(a + b, Size(a) + p)
  {
    var j :| 0 <= j <= |b| && p == Size(b[..j]);
    SizeRight(a, b, j);
    assert 0 <= |a| + j <= |a + b|;
  }

  lemma SizeRight(a: seq<Cmd>, b: seq<Cmd>, j: nat)
    requires j <= |b|
    ensures Size((a + b)[..|a| + j]) == Size(a) + Size(b[..j])
  {
    assert (a + b)[..|a| + j] == a + b[..j];
    SizeAppend(a, b[..j]);
  }

  lemma LandsAppend(a: seq<Cmd>, b: seq<Cmd>)
    requires Lands(a) && Lands(b)
    ensures Lands(a + b)
  {
    hide Boundary, Size;
    var cs := a + b;
    forall i: nat | i < |cs|
      ensures LandsAt(cs, i)
    {
      if i < |a| {
        assert LandsAt(a, i) && cs[..i + 1] == a[..i + 1];
        if a[i].Jump? && a[i].target.Off? {
          BoundaryLeft(a, b, Size(a[..i + 1]) + a[i].target.offset);
        }
      } else {
        var k := i - |a|;
        assert LandsAt(b, k);
        SizeRight(a, b, k + 1);
        if b[k].Jump? && b[k].target.Off? {
          BoundaryRight(a, b, Size(b[..k + 1]) + b[k].target.offset);
        }
      }
    }
  }

  lemma LandsOne(c: Cmd)
    requires c.Jump? ==> !c.target.Off?
    ensures Lands([c])
  {
  }

  lemma LandsNone()
    ensures Lands([])
  {
  }

  // A jump over x.
  lemma LandsOver(kind: JumpKind, x: seq<Cmd>, y: seq<Cmd>)
    requires Lands(x) && Lands(y)
    ensures Lands([Jump(kind, Off(Size(x)))] + (x + y))
  {
    hide Boundary, Size;
    var j := [Jump(kind, Off(Size(x)))];
    LandsAppend(x, y);
    var cs := j + (x + y);
    forall i: nat | i < |cs|
      ensures LandsAt(cs, i)
    {
      if i == 0 {
        assert cs[..1] == j;
        Ends(j, x, y);
      } else {
        assert LandsAt(x + y, i - 1);
        SizeRight(j, x + y, i);
        if cs[i].Jump? && cs[i].target.Off? {
          BoundaryRight(j, x + y, Size((x + y)[..i]) + cs[i].target.offset);
        }
      }
    }
  }

  lemma Ends(j: seq<Cmd>, x: seq<Cmd>, y: seq<Cmd>)
    ensures Boundary(j + (x + y), Size(j) + Size(x))
  {
    var cs := j + (x + y);
    assert cs[..|j| + |x|] == j + x;
    SizeAppend(j, x);
  }

  // ----- expressions -----

  lemma LandsFixed(c: Cmd)
    requires Fixed(c) || Symbolic(c)
    ensures Lands([c])
  {
    LandsOne(c);
  }

  lemma LandsCast(te: TExpr)
    ensures Lands(CastCmds(te))
  {
    LandsNone();
    if te.cast.Some? && te.ty.Prim? {
      LandsOne(Cast(te.ty.t, te.cast.value));
    }
  }

  lemma Tail(c: Cmd, te: TExpr)
    requires Fixed(c) || Symbolic(c)
    ensures Lands([c] + CastCmds(te))
  {
    hide Lands, CastCmds;
    LandsFixed(c);
    LandsCast(te);
    LandsAppend([c], CastCmds(te));
  }

  lemma {:induction false} LandsExpr(te: TExpr)
    ensures Lands(GenExpr(te))
    decreases te
  {
    hide Lands, GenExpr, GenLogic, GenArgs, CastCmds, Slots;
    GenShape(te);
    match te.node
    case TLit(v) => Tail(LoadValue(v), te);
    case TLocal(t, flow, a) => Tail(if a then LoadLocalAddress(Slots(flow)) else LoadLocal(t, Slots(flow)), te);
    case TGlobal(x, t, a) => Tail(if a then LoadGlobalAddress(Sym(x)) else LoadGlobal(t, Sym(x)), te);
    case TFunc(f, native) => Tail(if native then LoadNative(Sym(f)) else LoadFunc(Sym(f)), te);
    case TAssign(l, r) =>
      LandsExpr(l);
      LandsExpr(r);
      LandsTwo(GenExpr(r), GenExpr(l), StoreOf(FinalTy(l)), te);
    case TPreStep(inc, o) =>
      LandsExpr(o);
      LandsTwo([], GenExpr(o), StepOf(inc, FinalTy(o)), te);
    case TUnary(op, o) =>
      LandsExpr(o);
      LandsTwo([], GenExpr(o), UnOf(op, FinalTy(o)), te);
    case TBinary(op, l, r) =>
      LandsExpr(l);
      LandsExpr(r);
      LandsTwo(GenExpr(l), GenExpr(r), BinOf(op, FinalTy(l)), te);
    case TAnd(l, r) =>
      LandsExpr(l);
      LandsExpr(r);
      LandsLogic(ImplicitIfNot, GenExpr(l), GenExpr(r), AndCmd, te);
    case TOr(l, r) =>
      LandsExpr(l);
      LandsExpr(r);
      LandsLogic(ImplicitIf, GenExpr(l), GenExpr(r), OrCmd, te);
    case TCall(f, args) =>
      LandsArgs(args);
      LandsExpr(f);
      CallFixed(f);
      LandsTwo(GenArgs(args), GenExpr(f), GenCall(f), te);
  }

  lemma LandsTwo(a: seq<Cmd>, b: seq<Cmd>, c: Cmd, te: TExpr)
    requires (a == [] || Lands(a)) && Lands(b) && Fixed(c)
    ensures Lands(a + (b + ([c] + CastCmds(te)))) && Lands(b + ([c] + CastCmds(te)))
  {
    hide Lands, CastCmds;
    LandsNone();
    Tail(c, te);
    LandsAppend(b, [c] + CastCmds(te));
    LandsAppend(a, b + ([c] + CastCmds(te)));
  }

  lemma LandsLogic(kind: JumpKind, a: seq<Cmd>, b: seq<Cmd>, c: Cmd, te: TExpr)
    requires Lands(a) && Lands(b) && Fixed(c)
    ensures Lands(GenLogic(kind, a, b + ([c] + CastCmds(te))))
  {
    hide Lands, CastCmds, Size;
    var rest := b + ([c] + CastCmds(te));
    LandsTwo([], b, c, te);
    LandsNone();
    LandsOver(kind, rest, []);
    assert rest + [] == rest;
    LandsAppend(a, [Jump(kind, Off(Size(rest)))] + rest);
  }

  lemma {:induction false} LandsArgs(args: seq<TExpr>)
    ensures Lands(GenArgs(args))
    decreases args
  {
    hide Lands, GenExpr;
    if args == [] {
      LandsNone();
    } else {
      var k := |args| - 1;
      LandsExpr(args[k]);
      LandsArgs(args[..k]);
      LandsAppend(GenExpr(args[k]), GenArgs(args[..k]));
    }
  }

  // ----- loops -----

  lemma {:induction false} FillAt(cs: seq<Cmd>, toStart: int, toEnd: int, i: nat)
    requires i < |cs|
    ensures |Fill(cs, toStart, toEnd)| == |cs|
    ensures Fill(cs, toStart, toEnd)[i] == FillCmd(cs[i], toStart - Size(cs[..i]), toEnd - Size(cs[..i]))
    decreases |cs|
  {
    hide FillCmd, CmdSize, Encode;
    FillNoJumps(cs, toStart, toEnd);
    hide NoJumps;
    SizeFront(cs, i);
    if i > 0 {
      var k := CmdSize(cs[0]);
      FillAt(cs[1..], toStart - k, toEnd - k, i - 1);
    }
  }

  lemma FillPrefix(cs: seq<Cmd>, toStart: int, toEnd: int, j: nat)
    requires j <= |cs| == |Fill(cs, toStart, toEnd)|
    ensures Size(Fill(cs, toStart, toEnd)[..j]) == Size(cs[..j])
  {
    hide Size, FillCmd, CmdSize, Fill;
    assert cs == cs[..j] + cs[j..];
    FillAppend(cs[..j], cs[j..], toStart, toEnd);
    FillSize(cs[..j], toStart, toEnd);
    FillNoJumps(cs[..j], toStart, toEnd);
    assert Fill(cs, toStart, toEnd)[..j] == Fill(cs[..j], toStart, toEnd);
  }

  // The whole loop, and how its parts lie in it.
  lemma {:induction false} LandsWhile(C: seq<Cmd>, B: seq<Cmd>)
    requires Lands(C) && Lands(B)
    ensures Lands(C + (LoopExit(B) + (LoopBody(C, B) + LoopBack(C, B))))
  {
    hide Boundary, Size, LoopExit, LoopBody, LoopBack, Fill, NoJumps;
    var J, F, K := LoopExit(B), LoopBody(C, B), LoopBack(C, B);
    var W := C + (J + (F + K));
    LoopParts(C, B);
    forall i: nat | i < |W|
      ensures LandsAt(W, i)
    {
      if i < |C| {
        assert LandsAt(C, i) && W[..i + 1] == C[..i + 1];
        if C[i].Jump? && C[i].target.Off? {
          BoundaryLeft(C, J + (F + K), Size(C[..i + 1]) + C[i].target.offset);
        }
      } else if i == |C| {
        SizeRight(C, J + (F + K), 1);
        assert (J + (F + K))[..1] == J;
        LoopEnds(C, B);
      } else if i < |C| + 1 + |B| {
        LandsInBody(C, B, i - |C| - 1);
      } else {
        assert W[..i + 1] == W;
        LoopEnds(C, B);
      }
    }
  }

  lemma LoopParts(C: seq<Cmd>, B: seq<Cmd>)
    ensures |LoopExit(B)| == 1 && LoopExit(B)[0] == Jump(IfNot, Off(Size(B) + 5)) && Size(LoopExit(B)) == 5
    ensures |LoopBody(C, B)| == |B| && Size(LoopBody(C, B)) == Size(B)
    ensures |LoopBack(C, B)| == 1 && LoopBack(C, B)[0] == Jump(Direct, Off(-(Size(C) + 5 + Size(B) + 5)))
    ensures Size(LoopBack(C, B)) == 5
  {
    hide Size, NoJumps, Fill;
    LoopSizes(C, B, 0);
    FillNoJumps(B, -(Size(C) + 5), Size(B) + 5);
  }

  // The loop's start and end are boundaries, and the end is where they say.
  lemma LoopEnds(C: seq<Cmd>, B: seq<Cmd>)
    ensures var W := C + (LoopExit(B) + (LoopBody(C, B) + LoopBack(C, B)));
      Size(W) == Size(C) + 5 + Size(B) + 5 && Boundary(W, 0) && Boundary(W, Size(W))
  {
    hide Size, LoopExit, LoopBody, LoopBack;
    LoopParts(C, B);
    var J, F, K := LoopExit(B), LoopBody(C, B), LoopBack(C, B);
    var W := C + (J + (F + K));
    SizeAppend(F, K);
    SizeAppend(J, F + K);
    SizeAppend(C, J + (F + K));
    assert W[..0] == [] && W[..|W|] == W;
    NoSize();
  }

  lemma NoSize()
    ensures Size([]) == 0
  {
  }

  // Inside the body: its own jumps as before, breaks to the end, continues to the start.
  lemma LandsInBody(C: seq<Cmd>, B: seq<Cmd>, i: nat)
    requires Lands(B) && i < |B|
    ensures LandsAt(C + (LoopExit(B) + (LoopBody(C, B) + LoopBack(C, B))), |C| + 1 + i)
  {
    hide Boundary, Size, LoopExit, LoopBack, Fill, FillCmd;
    var J, F, K := LoopExit(B), LoopBody(C, B), LoopBack(C, B);
    var W := C + (J + (F + K));
    var toStart, toEnd := -(Size(C) + 5), Size(B) + 5;
    LoopParts(C, B);
    LoopEnds(C, B);
    FillAt(B, toStart, toEnd, i);
    FillPrefix(B, toStart, toEnd, i + 1);
    SizeIn(C, J, F, K, i + 1);
    SizeNext(B, i);
    assert W[|C| + 1 + i] == F[i];
    FilledJump(B[i], toStart - Size(B[..i]), toEnd - Size(B[..i]));
    assert LandsAt(B, i);
    if B[i].Jump? && B[i].target.Off? {
      BodyBoundary(C, B, Size(B[..i + 1]) + B[i].target.offset);
    }
  }

  lemma SizeIn(C: seq<Cmd>, J: seq<Cmd>, F: seq<Cmd>, K: seq<Cmd>, j: nat)
    requires j <= |F| && |J| == 1
    ensures Size((C + (J + (F + K)))[..|C| + 1 + j]) == Size(C) + Size(J) + Size(F[..j])
  {
    hide Size;
    assert (C + (J + (F + K)))[..|C| + 1 + j] == C + (J + F[..j]);
    SizeAppend(J, F[..j]);
    SizeAppend(C, J + F[..j]);
  }

  lemma BodyBoundary(C: seq<Cmd>, B: seq<Cmd>, p: int)
    requires Boundary(B, p)
    ensures Boundary(C + (LoopExit(B) + (LoopBody(C, B) + LoopBack(C, B))), Size(C) + 5 + p)
  {
    hide Size, LoopExit, LoopBack, Fill;
    var J, F, K := LoopExit(B), LoopBody(C, B), LoopBack(C, B);
    LoopParts(C, B);
    var j :| 0 <= j <= |B| && p == Size(B[..j]);
    FillPrefix(B, -(Size(C) + 5), Size(B) + 5, j);
    SizeIn(C, J, F, K, j);
    assert 0 <= |C| + 1 + j <= |C + (J + (F + K))|;
  }

  lemma FilledJump(c: Cmd, toStart: int, toEnd: int)
    ensures var f := FillCmd(c, toStart, toEnd);
      if IsBreak(c) then f == Jump(c.kind, Off(toEnd - 5)) && CmdSize(c) == 5
      else if IsContinue(c) then f == Jump(c.kind, Off(toStart - 5)) && CmdSize(c) == 5
      else f == c
  {
  }

  // ----- statements -----

  lemma {:induction false} LandsDestroy(ts: seq<Ty>)
    ensures Lands(Destroy(ts))
  {
    hide Lands;
    if ts == [] {
      LandsNone();
    } else {
      var k := |ts| - 1;
      LandsDestroy(ts[..k]);
      LandsOne(DestroyLocal(ts[k]));
      LandsAppend([DestroyLocal(ts[k])], Destroy(ts[..k]));
    }
  }

  lemma LandsThen(e: TExpr, c: Cmd)
    requires Fixed(c) || Symbolic(c)
    ensures Lands(GenExpr(e) + [c]) && Lands([c])
  {
    hide Lands, GenExpr;
    LandsExpr(e);
    LandsFixed(c);
    LandsAppend(GenExpr(e), [c]);
  }

  lemma LandsLeave(ts: seq<Ty>, c: Cmd)
    requires c.Jump? ==> !c.target.Off?
    ensures Lands(Destroy(ts) + [c])
  {
    hide Lands;
    LandsDestroy(ts);
    LandsOne(c);
    LandsAppend(Destroy(ts), [c]);
  }

  lemma {:induction false} LandsStmt(t: TStmt)
    ensures Lands(GenStmt(t))
    decreases t, 2
  {
    hide Lands, GenExpr, Destroy, GenStmt, GenUnload, LoopExit, LoopBody, LoopBack;
    StmtShape(t);
    match t
    case TExprStmt(e) =>
      UnloadShape(e.ty);
      LandsExpr(e);
      if e.ty.Prim? {
        LandsThen(e, Unload(e.ty.t));
      } else if e.ty.FuncT? {
        LandsThen(e, NoCmd);
      } else {
        assert GenExpr(e) + [] == GenExpr(e);
      }
    case TLocalDef(ty, None) => LandsFixed(CreateLocal(ty));
    case TLocalDef(ty, Some(e)) => LandsThen(e, InitLocal(ty));
    case TGlobalDef(x, ty, None) => LandsFixed(CreateGlobal(ty, Sym(x)));
    case TGlobalDef(x, ty, Some(e)) => LandsThen(e, InitGlobal(ty, Sym(x)));
    case TIf(_, _) =>
      IfShape(t);
      LandsBranches(t, 0);
    case TWhile(c, b, defs) =>
      WhileShape(t);
      LandsExpr(c);
      LandsBody(b, defs);
      LandsWhile(GenExpr(c), GenStmts(b) + Destroy(defs));
    case TBreak(flow) => LandsLeave(flow, Jump(Direct, ToBreak));
    case TContinue(flow) => LandsLeave(flow, Jump(Direct, ToContinue));
    case TReturn(value, flow) =>
      ReturnShape(value, flow);
      LandsLeave(flow, Ret);
      if value.Some? {
        LandsExpr(value.value);
        LandsAppend(GenExpr(value.value), Destroy(flow) + [Ret]);
      }
  }

  lemma {:induction false} LandsStmts(ss: seq<TStmt>)
    ensures Lands(GenStmts(ss))
    decreases ss, 0
  {
    hide Lands, GenStmt;
    if ss == [] {
      LandsNone();
    } else {
      LandsStmt(ss[0]);
      LandsStmts(ss[1..]);
      LandsAppend(GenStmt(ss[0]), GenStmts(ss[1..]));
    }
  }

  lemma {:induction false} LandsBody(ss: seq<TStmt>, defs: seq<Ty>)
    ensures Lands(GenStmts(ss) + Destroy(defs))
    decreases ss, 1
  {
    hide Lands, GenStmts, Destroy;
    LandsStmts(ss);
    LandsDestroy(defs);
    LandsAppend(GenStmts(ss), Destroy(defs));
  }

  lemma {:induction false} LandsBranches(t: TStmt, i: nat)
    requires t.TIf? && i <= |t.branches|
    ensures Lands(GenBranches(t, i))
    decreases t, 1, |t.branches| - i
  {
    hide Lands, GenBranches, GenStmts, Destroy, GenExpr, BranchHead;
    ElseShape(t);
    if i == |t.branches| {
      if t.els.TElse? {
        LandsBody(t.els.body, t.els.defs);
      } else {
        LandsNone();
      }
    } else {
      var b, rest := t.branches[i], GenBranches(t, i + 1);
      var last := i + 1 == |t.branches| && t.els.TNoElse?;
      BranchesShape(t, i);
      LandsBranches(t, i + 1);
      LandsExpr(b.cond);
      LandsBody(b.body, b.defs);
      ElseShape(t);
      LandsBranch(b, last, rest);
    }
  }

  lemma LandsBranch(b: TBranch, last: bool, rest: seq<Cmd>)
    requires Lands(GenExpr(b.cond)) && Lands(GenStmts(b.body) + Destroy(b.defs)) && Lands(rest)
    ensures Lands(BranchHead(b, last, rest) + rest)
  {
    hide Lands, GenStmts, Destroy, GenExpr, BranchHead, BranchExit, Size;
    var C, B, X := GenExpr(b.cond), GenStmts(b.body) + Destroy(b.defs), BranchExit(last, rest);
    var J := [Jump(IfNot, Off(Size(B + X)))];
    HeadIs(b, last, rest);
    ExitIs(last, rest);
    LandsNone();
    assert rest + [] == rest;
    if last {
      assert B + X == B;
      LandsOver(IfNot, B, rest);
    } else {
      LandsOver(Direct, rest, []);
      LandsExit(B, Size(rest), rest);
    }
    LandsAppend(C, J + (B + X + rest));
    assert C + (J + (B + X)) + rest == C + (J + (B + X + rest));
  }

  // A condition's jump lands behind the exit; the exit behind the rest.
  lemma LandsExit(B: seq<Cmd>, o: int, rest: seq<Cmd>)
    requires Lands(B) && Lands([Jump(Direct, Off(o))] + rest)
    ensures var X := [Jump(Direct, Off(o))]; Lands([Jump(IfNot, Off(Size(B + X)))] + (B + X + rest))
  {
    hide Boundary, Size;
    var X := [Jump(Direct, Off(o))];
    var j := [Jump(IfNot, Off(Size(B + X)))];
    LandsAppend(B, X + rest);
    assert B + (X + rest) == B + X + rest;
    var y := B + X + rest;
    var cs := j + y;
    forall i: nat | i < |cs|
      ensures LandsAt(cs, i)
    {
      if i == 0 {
        assert cs[..1] == j;
        Ends(j, B + X, rest);
      } else {
        assert LandsAt(y, i - 1);
        SizeRight(j, y, i);
        if cs[i].Jump? && cs[i].target.Off? {
          BoundaryRight(j, y, Size(y[..i]) + cs[i].target.offset);
        }
      }
    }
  }

  lemma {:induction false} LandsParams(ts: seq<Ty>)
    ensures Lands(GenParams(ts))
  {
    hide Lands;
    if ts == [] {
      LandsNone();
    } else {
      LandsParams(ts[1..]);
      LandsOne(InitLocal(ts[0]));
      LandsAppend([InitLocal(ts[0])], GenParams(ts[1..]));
    }
  }

  // A function's jumps stay within its own code.
  lemma LandsFunc(f: TFuncDef)
    ensures Lands(GenFunc(f))
  {
    hide Lands, GenStmts, GenParams, Destroy, GenFunc;
    FuncShape(f);
    LandsNone();
    LandsLeave(f.defs, Ret);
    LandsStmts(f.body);
    LandsParams(f.args);
    LandsAppend(GenStmts(f.body), FuncTail(f));
    LandsAppend(GenParams(f.args), GenStmts(f.body) + FuncTail(f));
  }

  lemma {:induction false} LandsDecls(ds: seq<Decl>)
    ensures Lands(DeclCmds(ds))
  {
    hide Lands, GenFunc;
    if ds == [] {
      LandsNone();
    } else {
      DeclsShape(ds, 0);
      LandsDecls(ds[1..]);
      if ds[0].FuncDecl? {
        LandsFunc(ds[0].f);
        LandsAppend(GenFunc(ds[0].f), DeclCmds(ds[1..]));
      }
    }
  }

  // So every offset is less than the code is long.
  lemma JumpShort(cs: seq<Cmd>, i: nat)
    requires Lands(cs) && i < |cs| && cs[i].Jump? && cs[i].target.Off?
    ensures 0 <= Size(cs) + cs[i].target.offset && cs[i].target.offset <= Size(cs)
  {
    hide Size;
    assert LandsAt(cs, i);
    var j :| 0 <= j <= |cs| && Size(cs[..i + 1]) + cs[i].target.offset == Size(cs[..j]);
    SizeGrows(cs, i + 1, |cs|);
    SizeGrows(cs, j, |cs|);
  }
}
