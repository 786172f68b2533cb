/** The code generator: visitors that append to the code buffer, record what the linkers need, and go
    back to fill in the jumps whose targets were not known. */
module Generator {
  import opened Bytes
  import opened Buffer
  import opened Language
  import opened Analysis
  import opened Commands
  import opened Codegen
  import opened Containers
  import opened Emission

  // What the visitors assert of a command: it exists, and its operand fits its field.
  predicate Writable(c: Cmd) { Exists(c) && OperandFits(c) }

  predicate AllWritable(cs: seq<Cmd>) { forall i :: 0 <= i < |cs| ==> Writable(cs[i]) }

  lemma WritableAppend(a: seq<Cmd>, b: seq<Cmd>)
    ensures AllWritable(a + b) <==> AllWritable(a) && AllWritable(b)
  {
    if AllWritable(a + b) {
      assert forall i :: 0 <= i < |a| ==> a[i] == (a + b)[i];
      assert forall i :: 0 <= i < |b| ==> b[i] == (a + b)[|a| + i];
    }
  }

  // A command written as it is: no symbol and no jump.
  predicate Fixed(c: Cmd) {
    match c
    case CreateGlobal(_, r) => r.Num?
    case InitGlobal(_, r) => r.Num?
    case LoadGlobal(_, r) => r.Num?
    case LoadGlobalAddress(r) => r.Num?
    case LoadFunc(r) => r.Num?
    case LoadNative(r) => r.Num?
    case Jump(_, _) => false
    case _ => true
  }

  predicate Symbolic(c: Cmd) {
    match c
    case CreateGlobal(_, r) => r.Sym?
    case InitGlobal(_, r) => r.Sym?
    case LoadGlobal(_, r) => r.Sym?
    case LoadGlobalAddress(r) => r.Sym?
    case LoadFunc(r) => r.Sym?
    case LoadNative(r) => r.Sym?
    case _ => false
  }

  lemma Room(code: Code, count: nat)
    requires code.Valid() && code.size + count < I31
    ensures !Short(code.size, code.capacity, code.position, count) && code.CanGrow(count)
  {
    GrowExact(code.size, code.capacity, code.position, count);
  }

  lemma FixedAfter(s: St, c: Cmd, cont: int, brk: int)
    requires Fixed(c)
    ensures After(s, [c], cont, brk) == s.(target := s.target + Encode(c))
  {
    hide Encode;
    AfterOne(s, c, cont, brk);
    assert FillCmd(c, cont - |s.target|, brk - |s.target|) == c && !IsBreak(c) &&
      NoteCmd(s.notes, c, |s.target|) == s.notes;
    hide After, NoteCmd;
    assert s.holes + {} == s.holes;
  }

  lemma JumpAfter(s: St, kind: JumpKind, o: int, cont: int, brk: int)
    ensures After(s, [Jump(kind, Off(o))], cont, brk) == s.(target := s.target + Encode(Jump(kind, Off(o))))
  {
    var c := Jump(kind, Off(o));
    hide Encode;
    AfterOne(s, c, cont, brk);
    assert FillCmd(c, cont - |s.target|, brk - |s.target|) == c && !IsBreak(c) &&
      NoteCmd(s.notes, c, |s.target|) == s.notes;
    hide After, NoteCmd;
    assert s.holes + {} == s.holes;
  }

  predicate HolesFit(holes: set<nat>, n: nat) { forall h :: h in holes ==> h + 4 <= n }

  lemma AgreeMore(c: seq<byte>, t: seq<byte>, holes: set<nat>, bs: seq<byte>)
    requires Agree(c, t, holes) && HolesFit(holes, |t|)
    ensures Agree(c + bs, t + bs, holes) && HolesFit(holes, |t + bs|)
  {
  }

  // A command's identifier, then four bytes of anything where its operand will be.
  lemma AgreeHole(c: seq<byte>, t: seq<byte>, holes: set<nat>, f: Cmd, bs: seq<byte>)
    requires Agree(c, t, holes) && HolesFit(holes, |t|)
    requires |Encode(f)| == 5 && |bs| == 5 && bs[0] == IdOf(f)
    ensures Agree(c + bs, t + Encode(f), holes + {|t| + 1}) && HolesFit(holes + {|t| + 1}, |t + Encode(f)|)
  {
    var n := holes + {|t| + 1};
    hide IdOf, OperandBytes;
    forall p: nat | p < |c + bs| && !InHole(n, p)
      ensures (c + bs)[p] == (t + Encode(f))[p]
    {
      if p < |c| {
        assert !InHole(holes, p);
      } else {
        assert |t| + 1 in n;
        assert p == |t|;
      }
    }
  }

  class Generator {
    var code: Code
    var globalRefs: map<string, seq<nat>>
    var funcRefs: map<string, seq<nat>>
    var nativeRefs: map<string, seq<nat>>
    var globalDefs: seq<IdSize>
    var funcDefs: seq<IdAddress>
    var nativeDefs: seq<string>
    var scopes: seq<LoopScope>
    // The bytes as they will be once every open jump is filled in, and where they are not so yet.
    ghost var target: seq<byte>
    ghost var holes: set<nat>

    ghost predicate Valid()
      reads this, code, code.bytes
    {
      code.Valid() && code.position == code.size && Agree(code.Contents(), target, holes) && HolesFit(holes, |target|)
    }

    ghost function Snap(): St
      reads this
    {
      St(target, holes, Notes(globalRefs, funcRefs, nativeRefs, globalDefs), scopes)
    }

    constructor ()
      ensures Valid() && fresh(code) && fresh(code.bytes)
      ensures Snap() == St([], {}, Notes(map[], map[], map[], []), []) && funcDefs == [] && nativeDefs == []
    {
      code := new Code();
      globalRefs, funcRefs, nativeRefs := map[], map[], map[];
      globalDefs, funcDefs, nativeDefs, scopes := [], [], [], [];
      target, holes := [], {};
    }

    // Code::Write where the buffer has room to grow.
    method Append(bs: seq<byte>)
      requires code.Valid() && code.position == code.size && code.size + |bs| < I31
      modifies code, code.bytes
      ensures code.Valid() && code.position == code.size && (code.bytes == old(code.bytes) || fresh(code.bytes))
      ensures code.Contents() == old(code.Contents()) + bs
    {
      Room(code, |bs|);
      var ok := code.Write(bs);
    }

    method Emit(c: Cmd, ghost cont: int, ghost brk: int)
      requires Valid() && Fixed(c) && Writable(c) && |target| + Size([c]) < I31
      modifies this, code, code.bytes
      ensures Valid() && code == old(code) && (code.bytes == old(code.bytes) || fresh(code.bytes))
      ensures funcDefs == old(funcDefs) && nativeDefs == old(nativeDefs)
      ensures Snap() == After(old(Snap()), [c], cont, brk)
    {
      hide *;
      SnapIs();
      ValidParts();
      FixedAfter(Snap(), c, cont, brk);
      OneParts(c, Notes(map[], map[], map[], []), 0, 0, 0);
      AgreeMore(code.Contents(), target, holes, Encode(c));
      ghost var before := code.Contents();
      EncodeParts(c);
      Append([IdOf(c)]);
      Append(OperandBytes(c));
      assert code.Contents() == before + Encode(c);
      target := target + Encode(c);
      SnapIs();
      ValidAgain();
    }

    // A command whose operand a linker fills in: a placeholder of all ones, and a record of where it is.
    method EmitSymbol(c: Cmd, ghost cont: int, ghost brk: int)
      requires Valid() && Symbolic(c) && |target| + Size([c]) < I31
      modifies this, code, code.bytes
      ensures Valid() && code == old(code) && (code.bytes == old(code.bytes) || fresh(code.bytes))
      ensures funcDefs == old(funcDefs) && nativeDefs == old(nativeDefs)
      ensures Snap() == After(old(Snap()), [c], cont, brk)
    {
      hide *;
      SnapIs();
      ValidParts();
      SymbolAfter(Snap(), c, cont, brk);
      OneParts(c, Notes(map[], map[], map[], []), 0, 0, 0);
      AgreeMore(code.Contents(), target, holes, Encode(c));
      ghost var before := code.Contents();
      var placeholder := code.position + 1;
      Append([IdOf(c)]);
      Append(LE32(U32 - 1));
      assert code.Contents() == before + Encode(c);
      target := target + Encode(c);
      SnapIs();
      Note(c, placeholder);
      ValidAgain();
    }

    lemma ValidParts()
      requires Valid()
      ensures code.Valid() && code.position == code.size && Agree(code.Contents(), target, holes) &&
        HolesFit(holes, |target|)
      ensures code.size == |target| == |code.Contents()|
    {
    }

    lemma ValidAgain()
      requires code.Valid() && code.position == code.size && Agree(code.Contents(), target, holes) &&
        HolesFit(holes, |target|)
      ensures Valid()
    {
    }

    method Note(c: Cmd, placeholder: nat)
      requires Symbolic(c) && placeholder > 0
      modifies `globalRefs, `funcRefs, `nativeRefs, `globalDefs
      ensures Snap() == old(Snap()).(notes := NoteCmd(old(Snap()).notes, c, placeholder - 1))
    {
      match c
      case CreateGlobal(t, r) =>
        globalRefs := Record(globalRefs, r.name, placeholder);
        globalDefs := globalDefs + [IdSize(r.name, SlotSize(t))];
      case InitGlobal(t, r) =>
        globalRefs := Record(globalRefs, r.name, placeholder);
        globalDefs := globalDefs + [IdSize(r.name, SlotSize(t))];
      case LoadGlobal(_, r) => globalRefs := Record(globalRefs, r.name, placeholder);
      case LoadGlobalAddress(r) => globalRefs := Record(globalRefs, r.name, placeholder);
      case LoadFunc(r) => funcRefs := Record(funcRefs, r.name, placeholder);
      case LoadNative(r) => nativeRefs := Record(nativeRefs, r.name, placeholder);
    }

    // Four bytes left for later.
    method SkipOperand() returns (placeholder: nat)
      requires code.Valid() && code.position == code.size && code.size + 4 < I31
      modifies code, code.bytes
      ensures code.Valid() && code.position == code.size && (code.bytes == old(code.bytes) || fresh(code.bytes))
      ensures placeholder == old(code.size)
      ensures |code.Contents()| == placeholder + 4 && code.Contents()[..placeholder] == old(code.Contents())
    {
      Room(code, 4);
      placeholder := code.position;
      var ok := code.Skip(4);
    }

    // A jump whose offset will be o, still to be filled in.
    method EmitHole(kind: JumpKind, ghost o: int, ghost cont: int, ghost brk: int) returns (placeholder: nat)
      requires Valid() && |target| + 5 < I31 && -I31 <= o < I31
      modifies this, code, code.bytes
      ensures Valid() && code == old(code) && (code.bytes == old(code.bytes) || fresh(code.bytes))
      ensures funcDefs == old(funcDefs) && nativeDefs == old(nativeDefs)
      ensures placeholder == |old(target)| + 1
      ensures var s := After(old(Snap()), [Jump(kind, Off(o))], cont, brk);
        Snap() == s.(holes := s.holes + {placeholder})
      ensures |target| == |old(target)| + 5 && Aimed(target, placeholder, |target| + o)
    {
      hide After, IdOf, Agree, LE32, HolesFit, Encode, Aimed;
      ghost var f := Jump(kind, Off(o));
      JumpAfter(Snap(), kind, o, cont, brk);
      JumpBytes(kind, o);
      JumpAimed(target, kind, |target| + 5 + o);
      AgreeSize(code.Contents(), target, holes);
      ghost var before := code.Contents();
      Append([IdOf(Jump(kind, Off(0)))]);
      placeholder := SkipOperand();
      ghost var bs := code.Contents()[|before|..];
      assert code.Contents() == before + bs && bs[0] == IdOf(f);
      AgreeHole(before, target, holes, f, bs);
      target := target + Encode(f);
      holes := holes + {placeholder};
    }

    // A jump to the end of the loop.
    method EmitBreak(ghost cont: int, ghost brk: int)
      requires Valid() && scopes != [] && |target| + 5 < I31 && 0 <= brk < I31
      modifies this, code, code.bytes
      ensures Valid() && code == old(code) && (code.bytes == old(code.bytes) || fresh(code.bytes))
      ensures funcDefs == old(funcDefs) && nativeDefs == old(nativeDefs)
      ensures Snap() == After(old(Snap()), [Jump(Direct, ToBreak)], cont, brk)
    {
      hide After, IdOf, Agree, LE32, HolesFit, Encode;
      ghost var o := brk - (|target| + 5);
      ghost var f := Jump(Direct, Off(o));
      BreakAfter(Snap(), cont, brk);
      JumpBytes(Direct, o);
      AgreeSize(code.Contents(), target, holes);
      ghost var before := code.Contents();
      Append([IdOf(Jump(Direct, Off(0)))]);
      var placeholder := SkipOperand();
      ghost var bs := code.Contents()[|before|..];
      assert code.Contents() == before + bs && bs[0] == IdOf(f);
      AgreeHole(before, target, holes, f, bs);
      target := target + Encode(f);
      holes := holes + {placeholder};
      scopes := AddEnds(scopes, [placeholder]);
    }

    // A jump back by a known distance.
    method EmitBack(to: nat)
      requires Valid() && to <= |target| && |target| + 5 < I31
      modifies this, code, code.bytes
      ensures Valid() && code == old(code) && (code.bytes == old(code.bytes) || fresh(code.bytes))
      ensures funcDefs == old(funcDefs) && nativeDefs == old(nativeDefs)
      ensures var p := |old(target)|;
        Snap() == old(Snap()).(target := old(target) + Encode(Jump(Direct, Off(to - (p + 5)))))
    {
      hide After, IdOf, Agree, LE32, HolesFit, Encode;
      ghost var f := Jump(Direct, Off(to - (|target| + 5)));
      AgreeSize(code.Contents(), target, holes);
      JumpBytes(Direct, to - (|target| + 5));
      AgreeMore(code.Contents(), target, holes, Encode(f));
      ghost var before := code.Contents();
      Append([IdOf(Jump(Direct, Off(0)))]);
      var offset := to - (code.position + 4);
      Append(LE32(ToUnsigned(offset)));
      assert code.Contents() == before + Encode(f);
      target := target + Encode(f);
    }

    // A jump to the start of the loop.
    method EmitContinue(ghost brk: int)
      requires Valid() && scopes != [] && |target| + 5 < I31 && Start(scopes) <= |target|
      modifies this, code, code.bytes
      ensures Valid() && code == old(code) && (code.bytes == old(code.bytes) || fresh(code.bytes))
      ensures funcDefs == old(funcDefs) && nativeDefs == old(nativeDefs)
      ensures Snap() == After(old(Snap()), [Jump(Direct, ToContinue)], Start(old(scopes)), brk)
    {
      hide After, Encode, Agree, HolesFit;
      ContinueAfter(Snap(), Start(scopes), brk);
      EmitBack(scopes[|scopes| - 1].start);
    }

    // One placeholder filled with the offset to the current position.
    method FillHole(placeholder: nat)
      requires code.Valid() && |code.Contents()| == |target| < I31 && Agree(code.Contents(), target, holes)
      requires HolesFit(holes, |target|) && Aimed(target, placeholder, |target|)
      modifies this, code, code.bytes
      ensures code.Valid() && code == old(code) && (code.bytes == old(code.bytes) || fresh(code.bytes))
      ensures funcDefs == old(funcDefs) && nativeDefs == old(nativeDefs) && code.size == old(code.size)
      ensures |code.Contents()| == |target| && Agree(code.Contents(), target, holes) && HolesFit(holes, |target|)
      ensures Snap() == old(Snap()).(holes := old(holes) - {placeholder})
    {
      hide Agree, LE32, ToUnsigned;
      var end := code.size;
      code.SetPosition(placeholder);
      var offset := end - (placeholder + 4);
      ghost var before := code.Contents();
      var ok := code.WriteU32(ToUnsigned(offset));
      assert code.Contents() == before[..placeholder] + LE32(ToUnsigned(offset)) + before[placeholder + 4..];
      Closed(before, target, holes, placeholder, |target|, code.Contents());
      holes := holes - {placeholder};
    }

    method WriteCurrentCmdOffset(placeholders: seq<nat>)
      requires Valid() && |target| < I31
      requires forall i :: 0 <= i < |placeholders| ==> Aimed(target, placeholders[i], |target|)
      modifies this, code, code.bytes
      ensures Valid() && code == old(code) && (code.bytes == old(code.bytes) || fresh(code.bytes))
      ensures funcDefs == old(funcDefs) && nativeDefs == old(nativeDefs)
      ensures Snap() == old(Snap()).(holes := old(holes) - SetOf(placeholders))
    {
      hide Agree, Aimed, HolesFit;
      AgreeSize(code.Contents(), target, holes);
      var current := code.position;
      var i := 0;
      assert holes - SetOf(placeholders[..0]) == holes;
      while i < |placeholders|
        invariant 0 <= i <= |placeholders|
        invariant code.Valid() && code == old(code) && (code.bytes == old(code.bytes) || fresh(code.bytes))
        invariant funcDefs == old(funcDefs) && nativeDefs == old(nativeDefs) && code.size == current == |target|
        invariant Agree(code.Contents(), target, holes) && HolesFit(holes, |target|)
        invariant Snap() == old(Snap()).(holes := old(holes) - SetOf(placeholders[..i]))
      {
        FillHole(placeholders[i]);
        i := i + 1;
        assert SetOf(placeholders[..i]) == SetOf(placeholders[..i - 1]) + {placeholders[i - 1]};
      }
      assert placeholders[..i] == placeholders;
      code.SetPosition(current);
    }

    // ----- expressions -----

    // One command, with or without a symbol.
    method EmitOne(c: Cmd, ghost cont: int, ghost brk: int)
      requires Valid() && (Fixed(c) || Symbolic(c)) && Fine([c], |target|)
      modifies this, code, code.bytes
      ensures Valid() && code == old(code) && (code.bytes == old(code.bytes) || fresh(code.bytes))
      ensures funcDefs == old(funcDefs) && nativeDefs == old(nativeDefs)
      ensures Snap() == After(old(Snap()), [c], cont, brk)
    {
      hide *;
      FineOne(c, |target|);
      if Fixed(c) {
        Emit(c, cont, brk);
      } else {
        EmitSymbol(c, cont, brk);
      }
    }

    // GenerateCastCmdIfNeeded.
    method EmitCast(te: TExpr, ghost cont: int, ghost brk: int)
      requires Valid() && Fine(CastCmds(te), |target|)
      modifies this, code, code.bytes
      ensures Valid() && code == old(code) && (code.bytes == old(code.bytes) || fresh(code.bytes))
      ensures funcDefs == old(funcDefs) && nativeDefs == old(nativeDefs)
      ensures Snap() == After(old(Snap()), CastCmds(te), cont, brk)
    {
      hide After, Valid, Snap, Fine;
      CastPresent(te, |target|);
      if te.cast.Some? {
        EmitOne(Cast(te.ty.t, te.cast.value), cont, brk);
      } else {
        AfterNone(Snap(), cont, brk);
      }
    }

    // A command, and the cast behind it.
    method EmitWithCast(c: Cmd, te: TExpr, ghost cont: int, ghost brk: int)
      requires Valid() && (Fixed(c) || Symbolic(c)) && Fine([c] + CastCmds(te), |target|)
      modifies this, code, code.bytes
      ensures Valid() && code == old(code) && (code.bytes == old(code.bytes) || fresh(code.bytes))
      ensures funcDefs == old(funcDefs) && nativeDefs == old(nativeDefs)
      ensures Snap() == After(old(Snap()), [c] + CastCmds(te), cont, brk)
    {
      hide *;
      SnapIs();
      Split(Snap(), [c], CastCmds(te), cont, brk);
      EmitOne(c, cont, brk);
      SnapIs();
      EmitCast(te, cont, brk);
    }

    lemma SnapIs()
      ensures Snap() == St(target, holes, Notes(globalRefs, funcRefs, nativeRefs, globalDefs), scopes)
    {
    }

    method VisitExpr(te: TExpr, ghost cont: int, ghost brk: int)
      requires Valid() && Fine(GenExpr(te), |target|)
      modifies this, code, code.bytes
      ensures Valid() && code == old(code) && (code.bytes == old(code.bytes) || fresh(code.bytes))
      ensures funcDefs == old(funcDefs) && nativeDefs == old(nativeDefs)
      ensures Snap() == After(old(Snap()), GenExpr(te), cont, brk)
      decreases te, 2
    {
      hide *;
      GenShape(te);
      match te.node
      case TLit(v) => EmitWithCast(LoadValue(v), te, cont, brk);
      case TLocal(t, flow, assignee) =>
        EmitWithCast(if assignee then LoadLocalAddress(Slots(flow)) else LoadLocal(t, Slots(flow)), te, cont, brk);
      case TGlobal(x, t, assignee) =>
        EmitWithCast(if assignee then LoadGlobalAddress(Sym(x)) else LoadGlobal(t, Sym(x)), te, cont, brk);
      case TFunc(f, native) => EmitWithCast(if native then LoadNative(Sym(f)) else LoadFunc(Sym(f)), te, cont, brk);
      case TAssign(l, r) => VisitTwo(r, l, StoreOf(FinalTy(l)), te, cont, brk);
      case TPreStep(inc, o) => VisitOne(o, StepOf(inc, FinalTy(o)), te, cont, brk);
      case TUnary(op, o) => VisitOne(o, UnOf(op, FinalTy(o)), te, cont, brk);
      case TBinary(op, l, r) => VisitTwo(l, r, BinOf(op, FinalTy(l)), te, cont, brk);
      case TAnd(l, r) => VisitLogic(l, r, te, ImplicitIfNot, AndCmd, cont, brk);
      case TOr(l, r) => VisitLogic(l, r, te, ImplicitIf, OrCmd, cont, brk);
      case TCall(c, args) => VisitCall(c, args, te, cont, brk);
    }

    // An operand and a command.
    method VisitOne(o: TExpr, c: Cmd, te: TExpr, ghost cont: int, ghost brk: int)
      requires Valid() && o < te && Fixed(c) && Fine(GenExpr(o) + ([c] + CastCmds(te)), |target|)
      modifies this, code, code.bytes
      ensures Valid() && code == old(code) && (code.bytes == old(code.bytes) || fresh(code.bytes))
      ensures funcDefs == old(funcDefs) && nativeDefs == old(nativeDefs)
      ensures Snap() == After(old(Snap()), GenExpr(o) + ([c] + CastCmds(te)), cont, brk)
      decreases te, 0
    {
      hide *;
      SnapIs();
      Split(Snap(), GenExpr(o), [c] + CastCmds(te), cont, brk);
      VisitExpr(o, cont, brk);
      SnapIs();
      EmitWithCast(c, te, cont, brk);
    }

    // Two operands and a command.
    method VisitTwo(a: TExpr, b: TExpr, c: Cmd, te: TExpr, ghost cont: int, ghost brk: int)
      requires Valid() && a < te && b < te && Fixed(c) &&
        Fine(GenExpr(a) + (GenExpr(b) + ([c] + CastCmds(te))), |target|)
      modifies this, code, code.bytes
      ensures Valid() && code == old(code) && (code.bytes == old(code.bytes) || fresh(code.bytes))
      ensures funcDefs == old(funcDefs) && nativeDefs == old(nativeDefs)
      ensures Snap() == After(old(Snap()), GenExpr(a) + (GenExpr(b) + ([c] + CastCmds(te))), cont, brk)
      decreases te, 1
    {
      hide *;
      SnapIs();
      Split(Snap(), GenExpr(a), GenExpr(b) + ([c] + CastCmds(te)), cont, brk);
      VisitExpr(a, cont, brk);
      SnapIs();
      VisitOne(b, c, te, cont, brk);
    }

    // The right operand is jumped over; where to is known behind it.
    method VisitLogic(l: TExpr, r: TExpr, te: TExpr, kind: JumpKind, c: Cmd, ghost cont: int, ghost brk: int)
      requires Valid() && l < te && r < te && Fixed(c)
      requires Fine(GenLogic(kind, GenExpr(l), GenExpr(r) + ([c] + CastCmds(te))), |target|)
      modifies this, code, code.bytes
      ensures Valid() && code == old(code) && (code.bytes == old(code.bytes) || fresh(code.bytes))
      ensures funcDefs == old(funcDefs) && nativeDefs == old(nativeDefs)
      ensures Snap() == After(old(Snap()), GenLogic(kind, GenExpr(l), GenExpr(r) + ([c] + CastCmds(te))), cont, brk)
      decreases te, 1
    {
      hide *;
      ghost var rest := GenExpr(r) + ([c] + CastCmds(te));
      ghost var jump := [Jump(kind, Off(Size(rest)))];
      LogicIs(kind, GenExpr(l), rest);
      SnapIs();
      Split(Snap(), GenExpr(l), jump + rest, cont, brk);
      VisitExpr(l, cont, brk);
      ghost var s1 := Snap();
      SnapIs();
      Split(s1, jump, rest, cont, brk);
      JumpFits(kind, Size(rest), |target|, rest);
      ValidHoles();
      var placeholder := EmitHole(kind, Size(rest), cont, brk);
      ghost var s2 := After(s1, jump, cont, brk);
      SnapIs();
      HoleOver(s1, s2, placeholder, jump, rest, cont, brk);
      ghost var end := |target| + Size(rest);
      ghost var before := target;
      VisitOne(r, c, te, cont, brk);
      SnapIs();
      AimedAfter(s2.(holes := s2.holes + {placeholder}), rest, cont, brk, placeholder, end);
      AfterSize(s2.(holes := s2.holes + {placeholder}), rest, cont, brk);
      FineSize(rest, |s2.target|);
      OnePlaceholder(placeholder, target);
      WriteCurrentCmdOffset([placeholder]);
      SnapIs();
    }

    lemma ValidHoles()
      requires Valid()
      ensures HolesFit(holes, |target|)
    {
    }

    method VisitCall(c: TExpr, args: seq<TExpr>, te: TExpr, ghost cont: int, ghost brk: int)
      requires Valid() && c < te && (forall i :: 0 <= i < |args| ==> args[i] < te)
      requires Fine(GenArgs(args) + (GenExpr(c) + ([GenCall(c)] + CastCmds(te))), |target|)
      modifies this, code, code.bytes
      ensures Valid() && code == old(code) && (code.bytes == old(code.bytes) || fresh(code.bytes))
      ensures funcDefs == old(funcDefs) && nativeDefs == old(nativeDefs)
      ensures Snap() == After(old(Snap()), GenArgs(args) + (GenExpr(c) + ([GenCall(c)] + CastCmds(te))), cont, brk)
      decreases te, 1
    {
      hide *;
      ghost var tail := GenExpr(c) + ([GenCall(c)] + CastCmds(te));
      SnapIs();
      Split(Snap(), GenArgs(args), tail, cont, brk);
      SnapIs();
      VisitArgs(args, te, cont, brk);
      SnapIs();
      CallFixed(c);
      VisitOne(c, GenCall(c), te, cont, brk);
    }

    // Arguments from the last to the first.
    method VisitArgs(args: seq<TExpr>, te: TExpr, ghost cont: int, ghost brk: int)
      requires Valid() && (forall i :: 0 <= i < |args| ==> args[i] < te) && Fine(GenArgs(args), |target|)
      modifies this, code, code.bytes
      ensures Valid() && code == old(code) && (code.bytes == old(code.bytes) || fresh(code.bytes))
      ensures funcDefs == old(funcDefs) && nativeDefs == old(nativeDefs)
      ensures Snap() == After(old(Snap()), GenArgs(args), cont, brk)
      decreases te, 0
    {
      hide *;
      var i := |args|;
      ghost var s0 := Snap();
      assert args[..i] == args;
      while i > 0
        invariant 0 <= i <= |args|
        invariant Valid() && code == old(code) && (code.bytes == old(code.bytes) || fresh(code.bytes))
        invariant funcDefs == old(funcDefs) && nativeDefs == old(nativeDefs) && Fine(GenArgs(args[..i]), |target|)
        invariant After(Snap(), GenArgs(args[..i]), cont, brk) == After(s0, GenArgs(args), cont, brk)
      {
        i := i - 1;
        ArgsShape(args[..i + 1]);
        assert args[..i + 1][..i] == args[..i] && args[..i + 1][i] == args[i];
        SnapIs();
        Split(Snap(), GenExpr(args[i]), GenArgs(args[..i]), cont, brk);
        SnapIs();
        VisitExpr(args[i], cont, brk);
        SnapIs();
      }
      assert args[..0] == [];
      ArgsNone();
      AfterNone(Snap(), cont, brk);
    }

    // ----- statements -----

    // GenerateDestroyLocalVarCmds: the last defined first.
    method EmitDestroy(ts: seq<Ty>, ghost cont: int, ghost brk: int)
      requires Valid() && Fine(Destroy(ts), |target|)
      modifies this, code, code.bytes
      ensures Valid() && code == old(code) && (code.bytes == old(code.bytes) || fresh(code.bytes))
      ensures funcDefs == old(funcDefs) && nativeDefs == old(nativeDefs)
      ensures Snap() == After(old(Snap()), Destroy(ts), cont, brk)
    {
      hide *;
      var i := |ts|;
      ghost var s0 := Snap();
      assert ts[..i] == ts;
      while i > 0
        invariant 0 <= i <= |ts|
        invariant Valid() && code == old(code) && (code.bytes == old(code.bytes) || fresh(code.bytes))
        invariant funcDefs == old(funcDefs) && nativeDefs == old(nativeDefs) && Fine(Destroy(ts[..i]), |target|)
        invariant After(Snap(), Destroy(ts[..i]), cont, brk) == After(s0, Destroy(ts), cont, brk)
      {
        i := i - 1;
        DestroyShape(ts[..i + 1]);
        assert ts[..i + 1][..i] == ts[..i] && ts[..i + 1][i] == ts[i];
        SnapIs();
        Split(Snap(), [DestroyLocal(ts[i])], Destroy(ts[..i]), cont, brk);
        EmitOne(DestroyLocal(ts[i]), cont, brk);
        SnapIs();
      }
      assert ts[..0] == [];
      DestroyShape([]);
      AfterNone(Snap(), cont, brk);
    }

    // An expression and a command.
    method VisitThen(e: TExpr, c: Cmd, ghost cont: int, ghost brk: int)
      requires Valid() && (Fixed(c) || Symbolic(c)) && Fine(GenExpr(e) + [c], |target|)
      modifies this, code, code.bytes
      ensures Valid() && code == old(code) && (code.bytes == old(code.bytes) || fresh(code.bytes))
      ensures funcDefs == old(funcDefs) && nativeDefs == old(nativeDefs)
      ensures Snap() == After(old(Snap()), GenExpr(e) + [c], cont, brk)
    {
      hide *;
      SnapIs();
      Split(Snap(), GenExpr(e), [c], cont, brk);
      VisitExpr(e, cont, brk);
      SnapIs();
      EmitOne(c, cont, brk);
    }

    method VisitExprStmt(e: TExpr, ghost cont: int, ghost brk: int)
      requires Valid() && !e.ty.FuncT? && Fine(GenExpr(e) + GenUnload(e.ty), |target|)
      modifies this, code, code.bytes
      ensures Valid() && code == old(code) && (code.bytes == old(code.bytes) || fresh(code.bytes))
      ensures funcDefs == old(funcDefs) && nativeDefs == old(nativeDefs)
      ensures Snap() == After(old(Snap()), GenExpr(e) + GenUnload(e.ty), cont, brk)
    {
      hide *;
      UnloadShape(e.ty);
      if e.ty.Prim? {
        VisitThen(e, Unload(e.ty.t), cont, brk);
      } else {
        assert GenExpr(e) + [] == GenExpr(e);
        VisitExpr(e, cont, brk);
      }
    }

    method VisitReturn(value: Option<TExpr>, flow: seq<Ty>, ghost cont: int, ghost brk: int)
      requires Valid() && Fine(GenStmt(TReturn(value, flow)), |target|)
      modifies this, code, code.bytes
      ensures Valid() && code == old(code) && (code.bytes == old(code.bytes) || fresh(code.bytes))
      ensures funcDefs == old(funcDefs) && nativeDefs == old(nativeDefs)
      ensures Snap() == After(old(Snap()), GenStmt(TReturn(value, flow)), cont, brk)
    {
      hide *;
      ReturnShape(value, flow);
      if value.Some? {
        SnapIs();
        Split(Snap(), GenExpr(value.value), Destroy(flow) + [Ret], cont, brk);
        VisitExpr(value.value, cont, brk);
      }
      SnapIs();
      EmitReturn(flow, cont, brk);
    }

    // GenerateReturnCmd.
    method EmitReturn(flow: seq<Ty>, ghost cont: int, ghost brk: int)
      requires Valid() && Fine(Destroy(flow) + [Ret], |target|)
      modifies this, code, code.bytes
      ensures Valid() && code == old(code) && (code.bytes == old(code.bytes) || fresh(code.bytes))
      ensures funcDefs == old(funcDefs) && nativeDefs == old(nativeDefs)
      ensures Snap() == After(old(Snap()), Destroy(flow) + [Ret], cont, brk)
    {
      hide *;
      SnapIs();
      Split(Snap(), Destroy(flow), [Ret], cont, brk);
      EmitDestroy(flow, cont, brk);
      SnapIs();
      RetFixed();
      EmitOne(Ret, cont, brk);
    }

    method VisitStmt(t: TStmt, ghost cont: int, ghost brk: int)
      requires Valid() && Fine(GenStmt(t), |target|) && Loops(scopes, GenStmt(t), |target|, cont, brk)
      modifies this, code, code.bytes
      ensures Valid() && code == old(code) && (code.bytes == old(code.bytes) || fresh(code.bytes))
      ensures funcDefs == old(funcDefs) && nativeDefs == old(nativeDefs)
      ensures Snap() == After(old(Snap()), GenStmt(t), cont, brk)
      decreases t, 3
    {
      hide *;
      StmtShape(t);
      match t
      case TExprStmt(e) =>
        Unloadable(e, |target|);
        VisitExprStmt(e, cont, brk);
      case TLocalDef(ty, None) => EmitOne(CreateLocal(ty), cont, brk);
      case TLocalDef(ty, Some(e)) => VisitThen(e, InitLocal(ty), cont, brk);
      case TGlobalDef(x, ty, None) => EmitOne(CreateGlobal(ty, Sym(x)), cont, brk);
      case TGlobalDef(x, ty, Some(e)) => VisitThen(e, InitGlobal(ty, Sym(x)), cont, brk);
      case TIf(_, _) => VisitIf(t, cont, brk);
      case TWhile(c, b, defs) => VisitWhile(t, cont, brk);
      case TBreak(flow) =>
        SnapIs();
        Split(Snap(), Destroy(flow), [Jump(Direct, ToBreak)], cont, brk);
        ghost var s0 := Snap();
        BreakInLoop(scopes, Destroy(flow), |target|, cont, brk);
        EmitDestroy(flow, cont, brk);
        SnapIs();
        ScopesAfter(s0, Destroy(flow), cont, brk);
        JumpRoom(ToBreak, |target|);
        EmitBreak(cont, brk);
      case TContinue(flow) =>
        SnapIs();
        Split(Snap(), Destroy(flow), [Jump(Direct, ToContinue)], cont, brk);
        ghost var s0 := Snap();
        ContinueInLoop(scopes, Destroy(flow), |target|, cont, brk);
        EmitDestroy(flow, cont, brk);
        SnapIs();
        ScopesAfter(s0, Destroy(flow), cont, brk);
        JumpRoom(ToContinue, |target|);
        EmitContinue(brk);
      case TReturn(value, flow) => VisitReturn(value, flow, cont, brk);
    }

    method VisitStmts(ss: seq<TStmt>, ghost cont: int, ghost brk: int)
      requires Valid() && Fine(GenStmts(ss), |target|) && Loops(scopes, GenStmts(ss), |target|, cont, brk)
      modifies this, code, code.bytes
      ensures Valid() && code == old(code) && (code.bytes == old(code.bytes) || fresh(code.bytes))
      ensures funcDefs == old(funcDefs) && nativeDefs == old(nativeDefs)
      ensures Snap() == After(old(Snap()), GenStmts(ss), cont, brk)
      decreases ss, 1
    {
      hide *;
      var i := 0;
      ghost var s0 := Snap();
      assert ss[0..] == ss;
      while i < |ss|
        invariant 0 <= i <= |ss|
        invariant Valid() && code == old(code) && (code.bytes == old(code.bytes) || fresh(code.bytes))
        invariant funcDefs == old(funcDefs) && nativeDefs == old(nativeDefs)
        invariant Fine(GenStmts(ss[i..]), |target|) && Loops(scopes, GenStmts(ss[i..]), |target|, cont, brk)
        invariant After(Snap(), GenStmts(ss[i..]), cont, brk) == After(s0, GenStmts(ss), cont, brk)
      {
        StmtsShape(ss[i..]);
        assert ss[i..][0] == ss[i] && ss[i..][1..] == ss[i + 1..];
        SnapIs();
        ghost var s1 := Snap();
        Split(s1, GenStmt(ss[i]), GenStmts(ss[i + 1..]), cont, brk);
        LoopsSplit(s1, GenStmt(ss[i]), GenStmts(ss[i + 1..]), cont, brk);
        VisitStmt(ss[i], cont, brk);
        SnapIs();
        i := i + 1;
      }
      assert ss[i..] == [];
      StmtsNone();
      AfterNone(Snap(), cont, brk);
    }

    // A body and the destruction of what its scope defined.
    method VisitBody(ss: seq<TStmt>, defs: seq<Ty>, ghost cont: int, ghost brk: int)
      requires Valid() && Fine(GenStmts(ss) + Destroy(defs), |target|)
      requires Loops(scopes, GenStmts(ss) + Destroy(defs), |target|, cont, brk)
      modifies this, code, code.bytes
      ensures Valid() && code == old(code) && (code.bytes == old(code.bytes) || fresh(code.bytes))
      ensures funcDefs == old(funcDefs) && nativeDefs == old(nativeDefs)
      ensures Snap() == After(old(Snap()), GenStmts(ss) + Destroy(defs), cont, brk)
      decreases ss, 2
    {
      hide *;
      SnapIs();
      Split(Snap(), GenStmts(ss), Destroy(defs), cont, brk);
      LoopsSplit(Snap(), GenStmts(ss), Destroy(defs), cont, brk);
      VisitStmts(ss, cont, brk);
      SnapIs();
      EmitDestroy(defs, cont, brk);
    }

    // VisitPreTestLoop.
    method VisitWhile(t: TStmt, ghost cont: int, ghost brk: int)
      requires t.TWhile? && Valid() && Fine(GenStmt(t), |target|)
      modifies this, code, code.bytes
      ensures Valid() && code == old(code) && (code.bytes == old(code.bytes) || fresh(code.bytes))
      ensures funcDefs == old(funcDefs) && nativeDefs == old(nativeDefs)
      ensures Snap() == After(old(Snap()), GenStmt(t), cont, brk)
      decreases t, 2
    {
      hide *;
      ghost var C, B := GenExpr(t.cond), GenStmts(t.body) + Destroy(t.defs);
      ghost var J, F, K := LoopExit(B), LoopBody(C, B), LoopBack(C, B);
      WhileShape(t);
      SnapIs();
      ValidParts();
      ghost var s0 := Snap();
      var start := code.position;
      Split(s0, C, J + (F + K), cont, brk);
      VisitExpr(t.cond, cont, brk);
      SnapIs();
      ghost var s1 := Snap();
      Split(s1, J, F + K, cont, brk);
      ghost var s2 := After(s1, J, cont, brk);
      Split(s2, F, K, cont, brk);
      WhileFits(C, B, |target|);
      LoopSizes(C, B, 0);
      AfterClosed(s1, J, cont, brk);
      ValidHoles();
      var placeholder := EmitHole(IfNot, Size(B) + 5, cont, brk);
      SnapIs();
      ValidScopes();
      scopes := scopes + [LoopScope(start, [placeholder])];
      SnapIs();
      ValidScopes();
      ghost var s3 := Snap();
      ghost var end := |target| + Size(B) + 5;
      LastScope(s1.scopes, start, placeholder, Breaks(B, |s3.target|));
      BodyFine(C, B, s3, start, end);
      VisitBody(t.body, t.defs, start, end);
      SnapIs();
      CloseLoop(start, C, B, s1, s2, s3, end, placeholder, cont, brk);
    }

    // Behind the body: the jump back, and the jumps to the end aimed here.
    method CloseLoop(start: nat, ghost C: seq<Cmd>, ghost B: seq<Cmd>, ghost s1: St, ghost s2: St, ghost s3: St,
                     ghost end: nat, ghost h: nat, ghost cont: int, ghost brk: int)
      requires Valid() && Snap() == After(s3, B, start, end)
      requires s2 == After(s1, LoopExit(B), cont, brk) && HolesFit(s1.holes, |s1.target|) && h == |s1.target| + 1
      requires s3 == s2.(holes := s2.holes + {h}, scopes := s1.scopes + [LoopScope(start, [h])]) &&
        Aimed(s3.target, h, end)
      requires start == |s3.target| - Size(C) - 5 && end == |s3.target| + Size(B) + 5 && end < I31
      modifies this, code, code.bytes
      ensures Valid() && code == old(code) && (code.bytes == old(code.bytes) || fresh(code.bytes))
      ensures funcDefs == old(funcDefs) && nativeDefs == old(nativeDefs)
      ensures Snap() == After(s2, LoopBody(C, B) + LoopBack(C, B), cont, brk)
    {
      hide *;
      SnapIs();
      BodyAfter(C, B, s3, start, end);
      LastScope(s1.scopes, start, h, Breaks(B, |s3.target|));
      EmitBack(start);
      SnapIs();
      ghost var s5 := Snap();
      JumpLength(Direct, start - (|s3.target| + Size(B) + 5));
      EndsAimed(C, B, s3, start, end, s5, h);
      var ends := scopes[|scopes| - 1].ends;
      WriteCurrentCmdOffset(ends);
      SnapIs();
      ValidScopes();
      scopes := scopes[..|scopes| - 1];
      SnapIs();
      ValidScopes();
      WhileDone(C, B, s1, s2, s3, s5, h, start, end, cont, brk);
    }

    // VisitIf: one branch; the placeholder of the jump over the remaining ones, unless it is the last.
    method VisitBranch(b: TBranch, last: bool, ghost rest: seq<Cmd>, ghost cont: int, ghost brk: int)
        returns (exits: seq<nat>)
      requires Valid() && Fine(BranchHead(b, last, rest) + rest, |target|)
      requires Loops(scopes, BranchHead(b, last, rest), |target|, cont, brk)
      modifies this, code, code.bytes
      ensures Valid() && code == old(code) && (code.bytes == old(code.bytes) || fresh(code.bytes))
      ensures funcDefs == old(funcDefs) && nativeDefs == old(nativeDefs)
      ensures var r := After(old(Snap()), BranchHead(b, last, rest), cont, brk);
        Snap() == r.(holes := r.holes + SetOf(exits))
      ensures exits == if last then [] else [|target| - 4]
      ensures !last ==> |target| >= 4 && Aimed(target, |target| - 4, |target| + Size(rest))
      decreases b, 1
    {
      hide *;
      ghost var C, B, X := GenExpr(b.cond), GenStmts(b.body) + Destroy(b.defs), BranchExit(last, rest);
      ghost var J := [Jump(IfNot, Off(Size(B + X)))];
      HeadIs(b, last, rest);
      SnapIs();
      ghost var s0 := Snap();
      Split(s0, BranchHead(b, last, rest), rest, cont, brk);
      Split(s0, C, J + (B + X), cont, brk);
      LoopsSplit(s0, C, J + (B + X), cont, brk);
      VisitExpr(b.cond, cont, brk);
      SnapIs();
      ghost var s1 := Snap();
      Split(s1, J, B + X, cont, brk);
      LoopsSplit(s1, J, B + X, cont, brk);
      ghost var s2 := After(s1, J, cont, brk);
      Split(s2, B, X, cont, brk);
      LoopsSplit(s2, B, X, cont, brk);
      JumpFits(IfNot, Size(B + X), |target|, B + X);
      ValidHoles();
      var placeholder := EmitHole(IfNot, Size(B + X), cont, brk);
      SnapIs();
      AfterHole(s2, placeholder, B, cont, brk);
      ghost var s2h := Snap();
      ghost var end := |target| + Size(B + X);
      VisitBody(b.body, b.defs, cont, brk);
      SnapIs();
      ghost var s3 := After(s2, B, cont, brk);
      AimedAfter(s2h, B, cont, brk, placeholder, end);
      AfterSize(s2h, B, cont, brk);
      SizeAppend(B, X);
      BranchHoles(s1, s2, placeholder, J, B, X, cont, brk);
      AfterSize(s3, X, cont, brk);
      FineSize(X, |s3.target|);
      ghost var s3h := Snap();
      exits := [];
      ExitIs(last, rest);
      if last {
        AfterNone(s3, cont, brk);
      } else {
        JumpFits(Direct, Size(rest), |target|, rest);
        AfterHole(s3, placeholder, X, cont, brk);
        var exit := EmitHole(Direct, Size(rest), cont, brk);
        exits := [exit];
        SnapIs();
      }
      AimedAfter(s3h, X, cont, brk, placeholder, end);
      AfterNone(s3h, cont, brk);
      OnePlaceholder(placeholder, target);
      WriteCurrentCmdOffset([placeholder]);
      SnapIs();
      BranchDone(s3, X, placeholder, exits, cont, brk);
    }

    // VisitIfElseIfElse and VisitIfElseIf.
    method VisitIf(t: TStmt, ghost cont: int, ghost brk: int)
      requires t.TIf? && Valid() && Fine(GenStmt(t), |target|) && Loops(scopes, GenStmt(t), |target|, cont, brk)
      modifies this, code, code.bytes
      ensures Valid() && code == old(code) && (code.bytes == old(code.bytes) || fresh(code.bytes))
      ensures funcDefs == old(funcDefs) && nativeDefs == old(nativeDefs)
      ensures Snap() == After(old(Snap()), GenStmt(t), cont, brk)
      decreases t, 2
    {
      hide *;
      IfShape(t);
      SnapIs();
      ghost var s0, clean := Snap(), Snap();
      ghost var final := After(s0, GenBranches(t, 0), cont, brk);
      ghost var end := |final.target|;
      var ends: seq<nat> := [];
      NoEnds(s0, end, final.holes);
      var i := 0;
      while i < |t.branches|
        invariant 0 <= i <= |t.branches|
        invariant Valid() && code == old(code) && (code.bytes == old(code.bytes) || fresh(code.bytes))
        invariant funcDefs == old(funcDefs) && nativeDefs == old(nativeDefs)
        invariant Snap() == clean.(holes := clean.holes + SetOf(ends)) && clean.target == target &&
          clean.scopes == scopes
        invariant After(clean, GenBranches(t, i), cont, brk) == final
        invariant Fine(GenBranches(t, i), |target|) && Loops(scopes, GenBranches(t, i), |target|, cont, brk)
        invariant Waiting(ends, target, end, final.holes)
      {
        var last := i + 1 == |t.branches| && t.els.TNoElse?;
        ghost var head, rest := BranchHead(t.branches[i], last, GenBranches(t, i + 1)), GenBranches(t, i + 1);
        BranchesShape(t, i);
        SnapIs();
        ghost var s1 := clean;
        Split(s1, head, rest, cont, brk);
        LoopsSplit(s1, head, rest, cont, brk);
        AfterHoles(s1, SetOf(ends), head, cont, brk);
        ValidHoles();
        var exits := VisitBranch(t.branches[i], last, rest, cont, brk);
        SnapIs();
        clean := After(s1, head, cont, brk);
        AfterSize(clean, rest, cont, brk);
        SetOfAppend(ends, exits);
        WaitingAfter(s1, head, cont, brk, ends, end, final.holes);
        if last {
          NoEnds(clean, end, final.holes);
        } else {
          NewEnd(s1, SetOf(ends), t.branches[i], rest, end, cont, brk);
          OneEnd(|target| - 4, target, end, final.holes);
        }
        MoreEnds(ends, exits, target, end, final.holes);
        ends := ends + exits;
        i := i + 1;
      }
      ElseShape(t);
      ghost var tail := GenBranches(t, |t.branches|);
      AfterHoles(clean, SetOf(ends), tail, cont, brk);
      WaitingAfter(clean.(holes := clean.holes + SetOf(ends)), tail, cont, brk, ends, end, final.holes);
      FineSize(tail, |target|);
      AfterSize(clean, tail, cont, brk);
      if t.els.TElse? {
        VisitBody(t.els.body, t.els.defs, cont, brk);
      } else {
        AfterNone(Snap(), cont, brk);
      }
      SnapIs();
      EndsReady(ends, target, end, final.holes);
      WriteCurrentCmdOffset(ends);
      SnapIs();
    }

    // ----- functions and modules -----

    method EmitParams(ts: seq<Ty>)
      requires Valid() && Fine(GenParams(ts), |target|)
      modifies this, code, code.bytes
      ensures Valid() && code == old(code) && (code.bytes == old(code.bytes) || fresh(code.bytes))
      ensures funcDefs == old(funcDefs) && nativeDefs == old(nativeDefs)
      ensures Snap() == After(old(Snap()), GenParams(ts), 0, 0)
    {
      hide *;
      var i := 0;
      ghost var s0 := Snap();
      assert ts[0..] == ts;
      while i < |ts|
        invariant 0 <= i <= |ts|
        invariant Valid() && code == old(code) && (code.bytes == old(code.bytes) || fresh(code.bytes))
        invariant funcDefs == old(funcDefs) && nativeDefs == old(nativeDefs) && Fine(GenParams(ts[i..]), |target|)
        invariant After(Snap(), GenParams(ts[i..]), 0, 0) == After(s0, GenParams(ts), 0, 0)
      {
        ParamsShape(ts[i..]);
        assert ts[i..][0] == ts[i] && ts[i..][1..] == ts[i + 1..];
        SnapIs();
        Split(Snap(), [InitLocal(ts[i])], GenParams(ts[i + 1..]), 0, 0);
        EmitOne(InitLocal(ts[i]), 0, 0);
        SnapIs();
        i := i + 1;
      }
      assert ts[i..] == [];
      ParamsShape([]);
      AfterNone(Snap(), 0, 0);
    }

    // VisitFuncDefWithBody.
    method VisitFunc(name: string, f: TFuncDef)
      requires Valid() && scopes == [] && Fine(GenFunc(f), |target|) && NoJumps(GenStmts(f.body))
      modifies this, code, code.bytes
      ensures Valid() && code == old(code) && (code.bytes == old(code.bytes) || fresh(code.bytes))
      ensures Snap() == After(old(Snap()), GenFunc(f), 0, 0)
      ensures funcDefs == old(funcDefs) + [IdAddress(name, |old(target)|)] && nativeDefs == old(nativeDefs)
    {
      hide *;
      FuncShape(f);
      ghost var tail := FuncTail(f);
      SnapIs();
      ValidParts();
      ghost var s0 := Snap();
      var start := code.position;
      Split(s0, GenParams(f.args), GenStmts(f.body) + tail, 0, 0);
      EmitParams(f.args);
      SnapIs();
      ghost var s1 := Snap();
      ScopesAfter(s0, GenParams(f.args), 0, 0);
      Split(s1, GenStmts(f.body), tail, 0, 0);
      LoopsOutside(scopes, GenStmts(f.body), |target|, 0, 0);
      VisitStmts(f.body, 0, 0);
      SnapIs();
      if f.trailingReturn {
        EmitReturn(f.defs, 0, 0);
      } else {
        AfterNone(Snap(), 0, 0);
      }
      SnapIs();
      ValidTables();
      funcDefs := funcDefs + [IdAddress(name, start)];
      ValidTables();
      SnapIs();
    }

    lemma ValidTables()
      ensures Valid() <==>
        code.Valid() && code.position == code.size && Agree(code.Contents(), target, holes) && HolesFit(holes, |target|)
    {
    }

    // Every function definition, with or without a body.
    method VisitDecls(ds: seq<Decl>)
      requires Valid() && scopes == [] && Fine(DeclCmds(ds), |target|) && DeclsClosed(ds)
      modifies this, code, code.bytes
      ensures Valid() && code == old(code) && (code.bytes == old(code.bytes) || fresh(code.bytes))
      ensures Snap() == After(old(Snap()), DeclCmds(ds), 0, 0)
      ensures funcDefs == old(funcDefs) + DeclDefs(ds, |old(target)|) && nativeDefs == old(nativeDefs) + DeclNatives(ds)
    {
      hide *;
      var i := 0;
      ghost var s0 := Snap();
      ghost var p := |target|;
      assert ds[0..] == ds;
      SnapIs();
      while i < |ds|
        invariant 0 <= i <= |ds|
        invariant Valid() && code == old(code) && (code.bytes == old(code.bytes) || fresh(code.bytes))
        invariant Fine(DeclCmds(ds[i..]), |target|) && scopes == []
        invariant After(Snap(), DeclCmds(ds[i..]), 0, 0) == After(s0, DeclCmds(ds), 0, 0)
        invariant funcDefs + DeclDefs(ds[i..], |target|) == old(funcDefs) + DeclDefs(ds, p)
        invariant nativeDefs + DeclNatives(ds[i..]) == old(nativeDefs) + DeclNatives(ds)
      {
        DeclsShape(ds[i..], |target|);
        assert ds[i..][0] == ds[i] && ds[i..][1..] == ds[i + 1..];
        DeclClosed(ds, i);
        SnapIs();
        ghost var s1 := Snap();
        match ds[i] {
          case FuncDecl(name, f) =>
            Split(s1, GenFunc(f), DeclCmds(ds[i + 1..]), 0, 0);
            ScopesAfter(s1, GenFunc(f), 0, 0);
            VisitFunc(name, f);
            SnapIs();
          case NativeDecl(name) =>
            ValidTables();
            nativeDefs := nativeDefs + [name];
            ValidTables();
            SnapIs();
        }
        i := i + 1;
      }
      assert ds[i..] == [];
      DeclsNone(|target|);
      AfterNone(Snap(), 0, 0);
    }

    // Nothing recorded: between two compilations.
    ghost predicate Idle()
      reads this
    {
      globalRefs == map[] && funcRefs == map[] && nativeRefs == map[] &&
      globalDefs == [] && funcDefs == [] && nativeDefs == [] && scopes == []
    }

    method Reset()
      requires Idle()
      modifies this
      ensures fresh(code) && fresh(code.bytes) && Valid() && Idle() && target == []
      ensures Snap() == Nothing()
    {
      code := new Code();
      target, holes := [], {};
    }

    method Clear()
      modifies this
      ensures Idle() && code == old(code)
    {
      globalRefs, funcRefs, nativeRefs := map[], map[], map[];
      globalDefs, funcDefs, nativeDefs, scopes := [], [], [], [];
    }

    // A compilation: top-level statements first, then the functions.
    method Generate(main: seq<TStmt>, decls: seq<Decl>, version: nat) returns (m: Module)
      requires Idle() && Fine(AllCmds(main, decls), 0) && NoJumps(GenStmts(main)) && DeclsClosed(decls)
      modifies this
      ensures Idle()
      ensures IsModule(m, main, decls, version)
    {
      hide *;
      Reset();
      AllShape(main, decls);
      SnapIs();
      ghost var s0 := Snap();
      Split(s0, GenStmts(main), DeclCmds(decls), 0, 0);
      IdleScopes();
      LoopsOutside(scopes, GenStmts(main), |target|, 0, 0);
      VisitStmts(main, 0, 0);
      SnapIs();
      ValidParts();
      var mainSize := code.position;
      ScopesAfter(s0, GenStmts(main), 0, 0);
      VisitDecls(decls);
      SnapIs();
      ValidParts();
      AllClosed(main, decls);
      AfterClosed(s0, AllCmds(main, decls), 0, 0);
      NoHoles(code.Contents(), target);
      var globals := TransformIdAddresses(globalRefs);
      var funcs := TransformIdAddresses(funcRefs);
      var natives := TransformIdAddresses(nativeRefs);
      m := Module(version, code.Contents(), mainSize, funcDefs, globalDefs, nativeDefs, funcs, natives, globals);
      ModuleIs(m, main, decls, version);
      Clear();
    }

    lemma IdleScopes()
      requires Idle()
      ensures |scopes| == 0 && funcDefs == [] && nativeDefs == []
    {
    }

    lemma ValidScopes()
      ensures Valid() <==>
        code.Valid() && code.position == code.size && Agree(code.Contents(), target, holes) && HolesFit(holes, |target|)
    {
    }
  }

  // The commands can be written behind n bytes.
  predicate Fine(cs: seq<Cmd>, n: nat) { AllWritable(cs) && n + Size(cs) < I31 }

  // Emitting in two steps.
  lemma Split(s: St, a: seq<Cmd>, b: seq<Cmd>, cont: int, brk: int)
    requires Fine(a + b, |s.target|)
    ensures Fine(a, |s.target|) && Fine(b, |After(s, a, cont, brk).target|)
    ensures After(After(s, a, cont, brk), b, cont, brk) == After(s, a + b, cont, brk)
    ensures |After(s, a, cont, brk).target| == |s.target| + Size(a) && Size(a + b) == Size(a) + Size(b)
  {
    hide AllWritable, Size, After;
    WritableAppend(a, b);
    SizeAppend(a, b);
    AfterSize(s, a, cont, brk);
    AfterAppend(s, a, b, cont, brk);
  }

  lemma FineSize(cs: seq<Cmd>, n: nat)
    requires Fine(cs, n)
    ensures n + Size(cs) < I31
  {
  }

  lemma FineOne(c: Cmd, n: nat)
    requires Fine([c], n)
    ensures Writable(c) && n + Size([c]) < I31 && Size([c]) == CmdSize(c)
  {
    hide Writable;
    OneParts(c, Notes(map[], map[], map[], []), 0, 0, 0);
    assert [c][0] == c;
  }

  lemma LeafShape(te: TExpr)
    ensures te.node.TLit? ==> GenExpr(te) == [LoadValue(te.node.v)] + CastCmds(te) && Fixed(LoadValue(te.node.v))
    ensures te.node.TLocal? ==>
      var slot := Slots(te.node.flow);
      var c := if te.node.assignee then LoadLocalAddress(slot) else LoadLocal(te.node.t, slot);
      GenExpr(te) == [c] + CastCmds(te) && Fixed(c)
    ensures te.node.TGlobal? ==>
      var symbol := Sym(te.node.name);
      var c := if te.node.assignee then LoadGlobalAddress(symbol) else LoadGlobal(te.node.t, symbol);
      GenExpr(te) == [c] + CastCmds(te) && Symbolic(c)
    ensures te.node.TFunc? ==>
      var c := if te.node.native then LoadNative(Sym(te.node.name)) else LoadFunc(Sym(te.node.name));
      GenExpr(te) == [c] + CastCmds(te) && Symbolic(c)
  {
    hide GenLogic, GenArgs, CastCmds, Slots, FinalTy, GenCall, IsLeft;
  }

  lemma SingleShape(te: TExpr)
    ensures te.node.TPreStep? ==>
      var c := StepOf(te.node.inc, FinalTy(te.node.operand));
      GenExpr(te) == GenExpr(te.node.operand) + ([c] + CastCmds(te)) && Fixed(c)
    ensures te.node.TUnary? ==>
      var c := UnOf(te.node.uop, FinalTy(te.node.operand));
      GenExpr(te) == GenExpr(te.node.operand) + ([c] + CastCmds(te)) && Fixed(c)
  {
    hide GenLogic, GenArgs, CastCmds, Slots, FinalTy, GenCall, IsLeft;
  }

  lemma PairShape(te: TExpr)
    ensures te.node.TAssign? ==>
      var c := StoreOf(FinalTy(te.node.left));
      GenExpr(te) == GenExpr(te.node.right) + (GenExpr(te.node.left) + ([c] + CastCmds(te))) && Fixed(c)
    ensures te.node.TBinary? ==>
      var c := BinOf(te.node.bop, FinalTy(te.node.left));
      GenExpr(te) == GenExpr(te.node.left) + (GenExpr(te.node.right) + ([c] + CastCmds(te))) && Fixed(c)
    ensures te.node.TAnd? ==>
      GenExpr(te) == GenLogic(ImplicitIfNot, GenExpr(te.node.left),
        GenExpr(te.node.right) + ([AndCmd] + CastCmds(te))) &&
      Fixed(AndCmd)
    ensures te.node.TOr? ==>
      GenExpr(te) == GenLogic(ImplicitIf, GenExpr(te.node.left), GenExpr(te.node.right) + ([OrCmd] + CastCmds(te))) &&
      Fixed(OrCmd)
  {
    hide GenLogic, GenArgs, CastCmds, Slots, FinalTy, GenCall, IsLeft;
  }

  lemma CallShape(te: TExpr)
    ensures te.node.TCall? ==>
      GenExpr(te) == GenArgs(te.node.args) + (GenExpr(te.node.callee) + ([GenCall(te.node.callee)] + CastCmds(te)))
  {
    hide GenLogic, GenArgs, CastCmds, Slots, FinalTy, GenCall, IsLeft;
  }

  lemma GenShape(te: TExpr)
    ensures te.node.TLit? ==> GenExpr(te) == [LoadValue(te.node.v)] + CastCmds(te) && Fixed(LoadValue(te.node.v))
    ensures te.node.TLocal? ==>
      var slot := Slots(te.node.flow);
      var c := if te.node.assignee then LoadLocalAddress(slot) else LoadLocal(te.node.t, slot);
      GenExpr(te) == [c] + CastCmds(te) && Fixed(c)
    ensures te.node.TGlobal? ==>
      var symbol := Sym(te.node.name);
      var c := if te.node.assignee then LoadGlobalAddress(symbol) else LoadGlobal(te.node.t, symbol);
      GenExpr(te) == [c] + CastCmds(te) && Symbolic(c)
    ensures te.node.TFunc? ==>
      var c := if te.node.native then LoadNative(Sym(te.node.name)) else LoadFunc(Sym(te.node.name));
      GenExpr(te) == [c] + CastCmds(te) && Symbolic(c)
    ensures te.node.TAssign? ==>
      var c := StoreOf(FinalTy(te.node.left));
      GenExpr(te) == GenExpr(te.node.right) + (GenExpr(te.node.left) + ([c] + CastCmds(te))) && Fixed(c)
    ensures te.node.TPreStep? ==>
      var c := StepOf(te.node.inc, FinalTy(te.node.operand));
      GenExpr(te) == GenExpr(te.node.operand) + ([c] + CastCmds(te)) && Fixed(c)
    ensures te.node.TUnary? ==>
      var c := UnOf(te.node.uop, FinalTy(te.node.operand));
      GenExpr(te) == GenExpr(te.node.operand) + ([c] + CastCmds(te)) && Fixed(c)
    ensures te.node.TBinary? ==>
      var c := BinOf(te.node.bop, FinalTy(te.node.left));
      GenExpr(te) == GenExpr(te.node.left) + (GenExpr(te.node.right) + ([c] + CastCmds(te))) && Fixed(c)
    ensures te.node.TAnd? ==>
      GenExpr(te) == GenLogic(ImplicitIfNot, GenExpr(te.node.left),
        GenExpr(te.node.right) + ([AndCmd] + CastCmds(te))) &&
      Fixed(AndCmd)
    ensures te.node.TOr? ==>
      GenExpr(te) == GenLogic(ImplicitIf, GenExpr(te.node.left), GenExpr(te.node.right) + ([OrCmd] + CastCmds(te))) &&
      Fixed(OrCmd)
    ensures te.node.TCall? ==>
      GenExpr(te) == GenArgs(te.node.args) + (GenExpr(te.node.callee) + ([GenCall(te.node.callee)] + CastCmds(te)))
  {
    hide *;
    LeafShape(te);
    SingleShape(te);
    PairShape(te);
    CallShape(te);
  }

  lemma LogicIs(kind: JumpKind, left: seq<Cmd>, rest: seq<Cmd>)
    ensures GenLogic(kind, left, rest) == left + ([Jump(kind, Off(Size(rest)))] + rest)
  {
  }

  lemma CallFixed(c: TExpr)
    ensures Fixed(GenCall(c))
  {
  }

  lemma ArgsShape(args: seq<TExpr>)
    requires args != []
    ensures GenArgs(args) == GenExpr(args[|args| - 1]) + GenArgs(args[..|args| - 1])
  {
    hide GenExpr;
  }

  lemma ArgsNone()
    ensures GenArgs([]) == []
  {
  }

  // A jump over what fits is short enough.
  lemma JumpFits(kind: JumpKind, o: nat, n: nat, rest: seq<Cmd>)
    requires Fine([Jump(kind, Off(o))], n) && o == Size(rest) && Fine(rest, n + Size([Jump(kind, Off(o))]))
    ensures n + 5 < I31 && -I31 <= o < I31 && Size([Jump(kind, Off(o))]) == 5
    ensures Breaks([Jump(kind, Off(o))], n) == []
  {
    hide AllWritable;
    OneParts(Jump(kind, Off(o)), Notes(map[], map[], map[], []), n, 0, 0);
    JumpLength(kind, o);
    hide Size;
  }

  lemma JumpLength(kind: JumpKind, o: int)
    ensures CmdSize(Jump(kind, Off(o))) == 5
  {
  }

  // A hole opened before `rest` and closed behind it leaves no trace.
  lemma HoleOver(s1: St, s2: St, h: nat, jump: seq<Cmd>, rest: seq<Cmd>, cont: int, brk: int)
    requires s2 == After(s1, jump, cont, brk) && h > |s1.target| && HolesFit(s1.holes, |s1.target|)
    requires Breaks(jump, |s1.target|) == [] && h + 4 <= |s2.target|
    ensures var r := After(s2.(holes := s2.holes + {h}), rest, cont, brk);
      r.(holes := r.holes - {h}) == After(s2, rest, cont, brk)
  {
    hide After;
    AfterHole(s2, h, rest, cont, brk);
    NotHole(s1, s2, h, jump, rest, cont, brk);
    var r := After(s2, rest, cont, brk);
    assert (r.holes + {h}) - {h} == r.holes;
  }

  lemma NotHole(s1: St, s2: St, h: nat, jump: seq<Cmd>, rest: seq<Cmd>, cont: int, brk: int)
    requires s2 == After(s1, jump, cont, brk) && h > |s1.target| && HolesFit(s1.holes, |s1.target|)
    requires Breaks(jump, |s1.target|) == [] && h + 4 <= |s2.target|
    ensures h !in After(s2, rest, cont, brk).holes
  {
    hide Fill, EncodeAll, Note, AddEnds;
    BreaksBehind(rest, |s2.target|);
  }

  lemma {:induction false} BreaksBehind(cs: seq<Cmd>, pos: nat)
    ensures forall h :: h in Breaks(cs, pos) ==> h > pos
    decreases |cs|
  {
    hide IsBreak, Encode, CmdSize;
    if cs != [] {
      BreaksBehind(cs[1..], pos + CmdSize(cs[0]));
    }
  }

  lemma OnePlaceholder(h: nat, t: seq<byte>)
    requires Aimed(t, h, |t|)
    ensures forall i :: 0 <= i < |[h]| ==> Aimed(t, [h][i], |t|)
    ensures SetOf([h]) == {h}
  {
  }

  lemma AimedAfter(s: St, cs: seq<Cmd>, cont: int, brk: int, h: nat, end: int)
    requires Aimed(s.target, h, end)
    ensures Aimed(After(s, cs, cont, brk).target, h, end)
  {
    hide Aimed;
    AimedLater(s.target, EncodeAll(Fill(cs, cont - |s.target|, brk - |s.target|)), h, end);
  }

  // ----- statements -----

  // Breaks and continues stand in a loop, which starts at cont and will end at brk.
  predicate Loops(scopes: seq<LoopScope>, cs: seq<Cmd>, n: nat, cont: int, brk: int) {
    if scopes == [] then NoJumps(cs) else cont == Start(scopes) <= n && 0 <= brk < I31
  }

  lemma StartKept(scopes: seq<LoopScope>, ends: seq<nat>)
    ensures Start(AddEnds(scopes, ends)) == Start(scopes) && |AddEnds(scopes, ends)| == |scopes|
  {
  }

  lemma ScopesAfter(s: St, cs: seq<Cmd>, cont: int, brk: int)
    ensures Start(After(s, cs, cont, brk).scopes) == Start(s.scopes) && |After(s, cs, cont, brk).scopes| == |s.scopes|
    ensures |After(s, cs, cont, brk).target| >= |s.target|
  {
    hide Fill, EncodeAll, Note, Breaks, AddEnds, Start;
    StartKept(s.scopes, Breaks(cs, |s.target|));
  }

  lemma LoopsSplit(s: St, a: seq<Cmd>, b: seq<Cmd>, cont: int, brk: int)
    requires Loops(s.scopes, a + b, |s.target|, cont, brk)
    ensures Loops(s.scopes, a, |s.target|, cont, brk)
    ensures Loops(After(s, a, cont, brk).scopes, b, |After(s, a, cont, brk).target|, cont, brk)
  {
    hide After, NoJumps, Start;
    NoJumpsAppend(a, b);
    ScopesAfter(s, a, cont, brk);
  }

  lemma BreakInLoop(scopes: seq<LoopScope>, d: seq<Cmd>, n: nat, cont: int, brk: int)
    requires Loops(scopes, d + [Jump(Direct, ToBreak)], n, cont, brk)
    ensures scopes != [] && 0 <= brk < I31
  {
    var c := Jump(Direct, ToBreak);
    assert IsBreak(c) && (d + [c])[|d|] == c;
  }

  lemma ContinueInLoop(scopes: seq<LoopScope>, d: seq<Cmd>, n: nat, cont: int, brk: int)
    requires Loops(scopes, d + [Jump(Direct, ToContinue)], n, cont, brk)
    ensures scopes != [] && 0 <= brk < I31 && cont == Start(scopes) <= n
  {
    var c := Jump(Direct, ToContinue);
    assert IsContinue(c) && (d + [c])[|d|] == c;
  }

  lemma JumpRoom(target: Target, n: nat)
    requires Fine([Jump(Direct, target)], n)
    ensures n + 5 < I31
  {
    hide AllWritable;
    OneParts(Jump(Direct, target), Notes(map[], map[], map[], []), n, 0, 0);
    assert CmdSize(Jump(Direct, target)) == 5;
  }

  lemma DestroyShape(ts: seq<Ty>)
    ensures Destroy(ts) == if ts == [] then [] else [DestroyLocal(ts[|ts| - 1])] + Destroy(ts[..|ts| - 1])
    ensures ts != [] ==> Fixed(DestroyLocal(ts[|ts| - 1]))
  {
  }

  lemma UnloadShape(ty: ETy)
    ensures ty.Prim? ==> GenUnload(ty) == [Unload(ty.t)] && Fixed(Unload(ty.t))
    ensures ty.Void? ==> GenUnload(ty) == []
    ensures ty.FuncT? ==> GenUnload(ty) == [NoCmd]
  {
  }

  // The generator is asked to unload nothing but a value or no value.
  lemma Unloadable(e: TExpr, n: nat)
    requires Fine(GenExpr(e) + GenUnload(e.ty), n)
    ensures !e.ty.FuncT?
  {
    hide GenExpr, GenUnload, Size, AllWritable;
    WritableAppend(GenExpr(e), GenUnload(e.ty));
    UnloadShape(e.ty);
    NoCmdUnwritable();
  }

  // And to cast nothing but a value.
  lemma CastPresent(te: TExpr, n: nat)
    requires Fine(CastCmds(te), n)
    ensures te.cast.Some? ==> te.ty.Prim?
  {
    hide Size, AllWritable;
    NoCmdUnwritable();
  }

  lemma NoCmdUnwritable()
    ensures !AllWritable([NoCmd])
  {
    assert !Writable([NoCmd][0]);
  }

  lemma ReturnShape(value: Option<TExpr>, flow: seq<Ty>)
    ensures GenStmt(TReturn(value, flow)) ==
      if value.Some? then GenExpr(value.value) + (Destroy(flow) + [Ret]) else Destroy(flow) + [Ret]
  {
    hide GenExpr, Destroy;
    assert forall s: seq<Cmd> :: [] + s == s;
  }

  lemma RetFixed()
    ensures Fixed(Ret)
  {
  }

  lemma StmtShape(t: TStmt)
    ensures t.TExprStmt? ==> GenStmt(t) == GenExpr(t.e) + GenUnload(t.e.ty)
    ensures t.TLocalDef? && t.init.None? ==> GenStmt(t) == [CreateLocal(t.t)] && Fixed(CreateLocal(t.t))
    ensures t.TLocalDef? && t.init.Some? ==>
      GenStmt(t) == GenExpr(t.init.value) + [InitLocal(t.t)] && Fixed(InitLocal(t.t))
    ensures t.TGlobalDef? && t.init.None? ==>
      GenStmt(t) == [CreateGlobal(t.t, Sym(t.name))] && Symbolic(CreateGlobal(t.t, Sym(t.name)))
    ensures t.TGlobalDef? && t.init.Some? ==>
      GenStmt(t) == GenExpr(t.init.value) + [InitGlobal(t.t, Sym(t.name))] && Symbolic(InitGlobal(t.t, Sym(t.name)))
    ensures t.TBreak? ==> GenStmt(t) == Destroy(t.flow) + [Jump(Direct, ToBreak)]
    ensures t.TContinue? ==> GenStmt(t) == Destroy(t.flow) + [Jump(Direct, ToContinue)]
  {
    hide GenExpr, Destroy, GenUnload, GenBranches, GenWhile, GenStmts;
  }

  lemma StmtsShape(ss: seq<TStmt>)
    requires ss != []
    ensures GenStmts(ss) == GenStmt(ss[0]) + GenStmts(ss[1..])
  {
    hide GenStmt;
  }

  lemma StmtsNone()
    ensures GenStmts([]) == []
  {
  }

  // ----- loops -----

  function LoopExit(B: seq<Cmd>): seq<Cmd> { [Jump(IfNot, Off(Size(B) + 5))] }
  function LoopBody(C: seq<Cmd>, B: seq<Cmd>): seq<Cmd> { Fill(B, -(Size(C) + 5), Size(B) + 5) }
  function LoopBack(C: seq<Cmd>, B: seq<Cmd>): seq<Cmd> { [Jump(Direct, Off(-(Size(C) + 5 + Size(B) + 5)))] }

  lemma WhileShape(t: TStmt)
    requires t.TWhile?
    ensures var C, B := GenExpr(t.cond), GenStmts(t.body) + Destroy(t.defs);
      GenStmt(t) == C + (LoopExit(B) + (LoopBody(C, B) + LoopBack(C, B)))
  {
    hide GenExpr, GenStmts, Destroy, Fill, Size;
  }

  lemma LoopSizes(C: seq<Cmd>, B: seq<Cmd>, n: nat)
    ensures Size(LoopExit(B)) == 5 && Size(LoopBody(C, B)) == Size(B) && Size(LoopBack(C, B)) == 5
    ensures NoJumps(LoopExit(B)) && NoJumps(LoopBody(C, B)) && NoJumps(LoopBack(C, B))
    ensures LoopExit(B) == [Jump(IfNot, Off(Size(B) + 5))]
  {
    hide Size, Fill, CmdSize, Encode;
    var x, y := LoopExit(B)[0], LoopBack(C, B)[0];
    JumpLength(x.kind, x.target.offset);
    JumpLength(y.kind, y.target.offset);
    OneParts(x, Notes(map[], map[], map[], []), 0, 0, 0);
    OneParts(y, Notes(map[], map[], map[], []), 0, 0, 0);
    FillSize(B, -(Size(C) + 5), Size(B) + 5);
    FillNoJumps(B, -(Size(C) + 5), Size(B) + 5);
  }

  lemma WhileFits(C: seq<Cmd>, B: seq<Cmd>, n: nat)
    requires Fine(LoopExit(B) + (LoopBody(C, B) + LoopBack(C, B)), n)
    ensures n + 5 < I31 && n + 5 + Size(B) + 5 < I31
  {
    hide AllWritable, Size, LoopExit, LoopBody, LoopBack;
    LoopSizes(C, B, n);
    SizeAppend(LoopExit(B), LoopBody(C, B) + LoopBack(C, B));
    SizeAppend(LoopBody(C, B), LoopBack(C, B));
  }

  lemma {:induction false} FillWritable(cs: seq<Cmd>, toStart: int, toEnd: int)
    requires AllWritable(Fill(cs, toStart, toEnd))
    ensures AllWritable(cs)
    decreases |cs|
  {
    hide Encode, CmdSize, Writable;
    if cs != [] {
      var f := Fill(cs, toStart, toEnd);
      assert f[1..] == Fill(cs[1..], toStart - CmdSize(cs[0]), toEnd - CmdSize(cs[0]));
      assert forall i :: 0 <= i < |f[1..]| ==> f[1..][i] == f[i + 1];
      FillWritable(cs[1..], toStart - CmdSize(cs[0]), toEnd - CmdSize(cs[0]));
      assert Writable(f[0]) && f[0] == FillCmd(cs[0], toStart, toEnd);
      CmdWritable(cs[0], toStart, toEnd);
      assert cs == [cs[0]] + cs[1..];
    }
  }

  lemma CmdWritable(c: Cmd, toStart: int, toEnd: int)
    requires Writable(FillCmd(c, toStart, toEnd))
    ensures Writable(c)
  {
  }

  lemma BodyFine(C: seq<Cmd>, B: seq<Cmd>, s: St, start: nat, end: int)
    requires Fine(LoopBody(C, B), |s.target|) && s.scopes != [] && Start(s.scopes) == start <= |s.target| &&
      0 <= end < I31
    ensures Fine(B, |s.target|) && Loops(s.scopes, B, |s.target|, start, end)
  {
    hide AllWritable, Size, Start, Fill, NoJumps;
    FillWritable(B, -(Size(C) + 5), Size(B) + 5);
    LoopSizes(C, B, 0);
  }

  // The body in its own loop.
  lemma BodyAfter(C: seq<Cmd>, B: seq<Cmd>, s: St, start: nat, end: int)
    requires start == |s.target| - Size(C) - 5 && end == |s.target| + Size(B) + 5
    ensures var r := After(s, B, start, end);
      r == St(s.target + EncodeAll(LoopBody(C, B)), s.holes + SetOf(Breaks(B, |s.target|)),
        Note(s.notes, LoopBody(C, B), |s.target|), AddEnds(s.scopes, Breaks(B, |s.target|)))
      && |r.target| == |s.target| + Size(B)
  {
    hide Size, Fill, Note, Breaks, AddEnds, EncodeAll;
    NoteFill(s.notes, B, |s.target|, -(Size(C) + 5), Size(B) + 5);
    AfterSize(s, B, start, end);
  }

  lemma BreaksWithin(cs: seq<Cmd>, pos: nat)
    ensures forall h :: h in Breaks(cs, pos) ==> pos < h && h + 4 <= pos + Size(cs)
    decreases |cs|
  {
    hide Encode, CmdSize;
    if cs != [] {
      BreaksWithin(cs[1..], pos + CmdSize(cs[0]));
      if IsBreak(cs[0]) {
        assert CmdSize(cs[0]) == 5 by { BreakLength(cs[0]); }
      }
    }
  }

  lemma BreakLength(c: Cmd)
    requires IsBreak(c)
    ensures CmdSize(c) == 5
  {
  }

  // All jumps to the loop's end aim there.
  lemma EndsAimed(C: seq<Cmd>, B: seq<Cmd>, s3: St, start: nat, end: int, s5: St, h: nat)
    requires start == |s3.target| - Size(C) - 5 && end == |s3.target| + Size(B) + 5 && end < I31
    requires Aimed(s3.target, h, end)
    requires var back := Encode(Jump(Direct, Off(start - (|s3.target| + Size(B) + 5))));
      s5.target == After(s3, B, start, end).target + back && |s5.target| == end
    ensures forall i :: 0 <= i < |[h] + Breaks(B, |s3.target|)| ==>
      Aimed(s5.target, ([h] + Breaks(B, |s3.target|))[i], |s5.target|)
  {
    hide Aimed, Encode, After, Breaks, Size;
    var ends := [h] + Breaks(B, |s3.target|);
    var back := Encode(Jump(Direct, Off(start - (|s3.target| + Size(B) + 5))));
    BreaksAimed(s3, B, start, end);
    AimedAfter(s3, B, start, end, h, end);
    forall i | 0 <= i < |ends|
      ensures Aimed(s5.target, ends[i], |s5.target|)
    {
      assert i > 0 ==> ends[i] in Breaks(B, |s3.target|);
      AimedLater(After(s3, B, start, end).target, back, ends[i], end);
    }
  }

  lemma LastScope(scopes: seq<LoopScope>, start: nat, h: nat, more: seq<nat>)
    ensures var r := AddEnds(scopes + [LoopScope(start, [h])], more);
      r != [] && r[|r| - 1].ends == [h] + more && r[..|r| - 1] == scopes
    ensures Start(scopes + [LoopScope(start, [h])]) == start
  {
  }

  // The loop's holes are closed and its scope is gone: the loop has been emitted.
  lemma WhileDone(C: seq<Cmd>, B: seq<Cmd>, s1: St, s2: St, s3: St, s5: St, h: nat, start: nat, end: int, cont: int,
                  brk: int)
    requires s2 == After(s1, LoopExit(B), cont, brk) && HolesFit(s1.holes, |s1.target|) && h == |s1.target| + 1
    requires s3 == s2.(holes := s2.holes + {h}, scopes := s1.scopes + [LoopScope(start, [h])])
    requires start == |s3.target| - Size(C) - 5 && end == |s3.target| + Size(B) + 5
    requires s5 == After(s3, B, start, end).(target :=
      After(s3, B, start, end).target + Encode(Jump(Direct, Off(start - (|s3.target| + Size(B) + 5)))))
    ensures s5.scopes != []
    ensures s5.(holes := s5.holes - SetOf([h] + Breaks(B, |s3.target|)), scopes := s5.scopes[..|s5.scopes| - 1]) ==
      After(s2, LoopBody(C, B) + LoopBack(C, B), cont, brk)
  {
    hide Size, Fill, Note, Breaks, AddEnds, EncodeAll, Encode, LoopExit, LoopBody, NoJumps, HolesFit;
    var F, K, q := LoopBody(C, B), LoopBack(C, B), |s3.target|;
    LoopSizes(C, B, 0);
    BodyAfter(C, B, s3, start, end);
    LastScope(s1.scopes, start, h, Breaks(B, q));
    AfterClosed(s1, LoopExit(B), cont, brk);
    AfterClosed(s2, F, cont, brk);
    var s4 := After(s2, F, cont, brk);
    AfterAppend(s2, F, K, cont, brk);
    AfterClosed(s4, K, cont, brk);
    OneParts(K[0], s4.notes, |s4.target|, 0, 0);
    assert NoteCmd(s4.notes, K[0], |s4.target|) == s4.notes;
    LoopHoles(s1, s2.target, B, h);
    hide After;
  }

  lemma LoopHoles(s1: St, t: seq<byte>, B: seq<Cmd>, h: nat)
    requires HolesFit(s1.holes, |s1.target|) && h == |s1.target| + 1 && |t| >= |s1.target|
    ensures (s1.holes + {h} + SetOf(Breaks(B, |t|))) - SetOf([h] + Breaks(B, |t|)) == s1.holes
  {
    hide Breaks;
    BreaksWithin(B, |t|);
    var x := SetOf(Breaks(B, |t|));
    assert SetOf([h] + Breaks(B, |t|)) == {h} + x;
    assert forall k :: k in s1.holes ==> k != h && k !in x;
  }

  // ----- branches -----

  function BranchExit(last: bool, rest: seq<Cmd>): seq<Cmd> { if last then [] else [Jump(Direct, Off(Size(rest)))] }

  function BranchHead(b: TBranch, last: bool, rest: seq<Cmd>): seq<Cmd> {
    var body, exit := GenStmts(b.body) + Destroy(b.defs), BranchExit(last, rest);
    GenExpr(b.cond) + ([Jump(IfNot, Off(Size(body + exit)))] + (body + exit))
  }

  lemma HeadIs(b: TBranch, last: bool, rest: seq<Cmd>)
    ensures var body, exit := GenStmts(b.body) + Destroy(b.defs), BranchExit(last, rest);
      BranchHead(b, last, rest) == GenExpr(b.cond) + ([Jump(IfNot, Off(Size(body + exit)))] + (body + exit))
  {
  }

  lemma ExitIs(last: bool, rest: seq<Cmd>)
    ensures BranchExit(last, rest) == if last then [] else [Jump(Direct, Off(Size(rest)))]
  {
  }

  lemma BranchesShape(t: TStmt, i: nat)
    requires t.TIf? && i < |t.branches|
    ensures var last := i + 1 == |t.branches| && t.els.TNoElse?;
      GenBranches(t, i) == BranchHead(t.branches[i], last, GenBranches(t, i + 1)) + GenBranches(t, i + 1)
  {
    hide GenExpr, GenStmts, Destroy, Size;
    var b, rest := t.branches[i], GenBranches(t, i + 1);
    var last := i + 1 == |t.branches| && t.els.TNoElse?;
    var body, exit := GenStmts(b.body) + Destroy(b.defs), BranchExit(last, rest);
    var J := [Jump(IfNot, Off(Size(body + exit)))];
    assert GenBranches(t, i) == GenExpr(b.cond) + (J + (body + (exit + rest)));
    assert GenExpr(b.cond) + (J + (body + (exit + rest))) == GenExpr(b.cond) + (J + (body + exit)) + rest;
  }

  lemma IfShape(t: TStmt)
    requires t.TIf?
    ensures GenStmt(t) == GenBranches(t, 0)
  {
    hide GenBranches;
  }

  lemma ElseShape(t: TStmt)
    requires t.TIf?
    ensures GenBranches(t, |t.branches|) == if t.els.TElse? then GenStmts(t.els.body) + Destroy(t.els.defs) else []
  {
    hide GenStmts, Destroy;
  }

  lemma BranchHoles(s1: St, s2: St, h: nat, J: seq<Cmd>, B: seq<Cmd>, X: seq<Cmd>, cont: int, brk: int)
    requires s2 == After(s1, J, cont, brk) && h > |s1.target| && HolesFit(s1.holes, |s1.target|)
    requires Breaks(J, |s1.target|) == [] && h + 4 <= |s2.target|
    ensures h !in After(After(s2, B, cont, brk), X, cont, brk).holes
  {
    hide After, HolesFit, Breaks;
    NotHole(s1, s2, h, J, B + X, cont, brk);
    AfterAppend(s2, B, X, cont, brk);
  }

  lemma BranchDone(s3: St, X: seq<Cmd>, h: nat, exits: seq<nat>, cont: int, brk: int)
    requires h !in After(s3, X, cont, brk).holes && h !in exits && |exits| <= 1
    ensures var H := After(s3, X, cont, brk).holes;
      (H + {h}) - {h} == H && H + SetOf([]) == H && (H + {h} + SetOf(exits)) - {h} == H + SetOf(exits)
    ensures exits != [] ==> SetOf(exits) == {exits[0]}
  {
    hide After;
  }

  lemma AfterHoles(s: St, more: set<nat>, cs: seq<Cmd>, cont: int, brk: int)
    ensures After(s.(holes := s.holes + more), cs, cont, brk) ==
      After(s, cs, cont, brk).(holes := After(s, cs, cont, brk).holes + more)
  {
    hide EncodeAll, Fill, Note, Breaks, AddEnds;
    var x := SetOf(Breaks(cs, |s.target|));
    assert s.holes + more + x == s.holes + x + more;
  }

  // The jumps over the remaining branches: where they will lead, and that they are no jumps to the loop's
  // end.
  predicate Waiting(ends: seq<nat>, target: seq<byte>, end: int, holes: set<nat>) {
    forall i :: 0 <= i < |ends| ==> Aimed(target, ends[i], end) && ends[i] !in holes
  }

  lemma NoEnds(s: St, end: int, holes: set<nat>)
    ensures s.(holes := s.holes + SetOf([])) == s && Waiting([], s.target, end, holes)
  {
  }

  lemma MoreEnds(ends: seq<nat>, exits: seq<nat>, target: seq<byte>, end: int, holes: set<nat>)
    requires Waiting(ends, target, end, holes) && Waiting(exits, target, end, holes)
    ensures Waiting(ends + exits, target, end, holes)
  {
    hide Aimed;
  }

  lemma OneEnd(h: nat, target: seq<byte>, end: int, holes: set<nat>)
    requires Aimed(target, h, end) && h !in holes
    ensures Waiting([h], target, end, holes)
  {
    hide Aimed;
  }

  lemma WaitingAfter(s: St, cs: seq<Cmd>, cont: int, brk: int, ends: seq<nat>, end: int, holes: set<nat>)
    requires Waiting(ends, s.target, end, holes)
    ensures Waiting(ends, After(s, cs, cont, brk).target, end, holes)
  {
    hide Aimed, After;
    forall i | 0 <= i < |ends|
      ensures Aimed(After(s, cs, cont, brk).target, ends[i], end)
    {
      AimedAfter(s, cs, cont, brk, ends[i], end);
    }
  }

  lemma EndsReady(ends: seq<nat>, target: seq<byte>, end: int, holes: set<nat>)
    requires Waiting(ends, target, end, holes) && |target| == end
    ensures forall i :: 0 <= i < |ends| ==> Aimed(target, ends[i], |target|)
    ensures (holes + SetOf(ends)) - SetOf(ends) == holes
  {
  }

  // A branch's exit is behind everything before it and in front of the rest.
  lemma NewEnd(s1: St, more: set<nat>, b: TBranch, rest: seq<Cmd>, end: int, cont: int, brk: int)
    requires HolesFit(s1.holes + more, |s1.target|)
    ensures var clean := After(s1, BranchHead(b, false, rest), cont, brk);
      |clean.target| >= 5 && |clean.target| - 4 !in After(clean, rest, cont, brk).holes
  {
    var C, B, X := GenExpr(b.cond), GenStmts(b.body) + Destroy(b.defs), BranchExit(false, rest);
    var A := C + ([Jump(IfNot, Off(Size(B + X)))] + B);
    HeadIs(b, false, rest);
    ExitIs(false, rest);
    assert BranchHead(b, false, rest) == A + X;
    hide BranchHead, BranchExit, GenExpr, GenStmts, Destroy;
    ExitNotHole(s1, more, A, rest, cont, brk);
  }

  lemma ExitNotHole(s1: St, more: set<nat>, A: seq<Cmd>, rest: seq<Cmd>, cont: int, brk: int)
    requires HolesFit(s1.holes + more, |s1.target|)
    ensures var X := [Jump(Direct, Off(Size(rest)))];
      var clean := After(s1, A + X, cont, brk);
      |clean.target| >= 5 && |clean.target| - 4 !in After(clean, rest, cont, brk).holes
  {
    hide Size, After, Breaks, CmdSize, Encode;
    var X := [Jump(Direct, Off(Size(rest)))];
    var p, q := |s1.target|, |s1.target| + Size(A);
    JumpLength(Direct, Size(rest));
    OneParts(X[0], Notes(map[], map[], map[], []), q, 0, 0);
    SizeAppend(A, X);
    AfterSize(s1, A + X, cont, brk);
    BreaksAppend(A, X, p);
    BreaksWithin(A, p);
    BreaksWithin(rest, q + 5);
    HolesAre(s1, A + X, rest, cont, brk);
    assert forall h :: h in s1.holes ==> h in s1.holes + more;
    assert Breaks(A + X, p) == Breaks(A, p) + [] == Breaks(A, p);
  }

  lemma HolesAre(s1: St, cs: seq<Cmd>, rest: seq<Cmd>, cont: int, brk: int)
    ensures var clean := After(s1, cs, cont, brk);
      After(clean, rest, cont, brk).holes ==
        s1.holes + SetOf(Breaks(cs, |s1.target|)) + SetOf(Breaks(rest, |clean.target|))
  {
    hide Fill, EncodeAll, Note, AddEnds, Breaks;
  }

  // ----- functions and modules -----

  lemma ParamsShape(ts: seq<Ty>)
    ensures GenParams(ts) == if ts == [] then [] else [InitLocal(ts[0])] + GenParams(ts[1..])
    ensures ts != [] ==> Fixed(InitLocal(ts[0]))
  {
  }

  function FuncTail(f: TFuncDef): seq<Cmd> { if f.trailingReturn then Destroy(f.defs) + [Ret] else [] }

  lemma FuncShape(f: TFuncDef)
    ensures GenFunc(f) == GenParams(f.args) + (GenStmts(f.body) + FuncTail(f))
    ensures FuncTail(f) == if f.trailingReturn then Destroy(f.defs) + [Ret] else []
  {
  }

  lemma LoopsOutside(scopes: seq<LoopScope>, cs: seq<Cmd>, n: nat, cont: int, brk: int)
    requires |scopes| == 0 && NoJumps(cs)
    ensures Loops(scopes, cs, n, cont, brk)
  {
  }

  datatype Decl = FuncDecl(name: string, f: TFuncDef) | NativeDecl(name: string)

  function DeclCmds(ds: seq<Decl>): seq<Cmd> {
    if ds == [] then []
    else (match ds[0] case FuncDecl(_, f) => GenFunc(f) case NativeDecl(_) => []) + DeclCmds(ds[1..])
  }

  // Where the functions' code starts, from pos on.
  function DeclDefs(ds: seq<Decl>, pos: nat): seq<IdAddress> {
    if ds == [] then []
    else
      match ds[0]
      case FuncDecl(name, f) => [IdAddress(name, pos)] + DeclDefs(ds[1..], pos + Size(GenFunc(f)))
      case NativeDecl(_) => DeclDefs(ds[1..], pos)
  }

  function DeclNatives(ds: seq<Decl>): seq<string> {
    if ds == [] then []
    else (match ds[0] case FuncDecl(_, _) => [] case NativeDecl(name) => [name]) + DeclNatives(ds[1..])
  }

  predicate DeclsClosed(ds: seq<Decl>) {
    forall i :: 0 <= i < |ds| ==>
      match ds[i] case FuncDecl(_, f) => NoJumps(GenStmts(f.body)) case NativeDecl(_) => true
  }

  lemma DeclClosed(ds: seq<Decl>, i: nat)
    requires DeclsClosed(ds) && i < |ds|
    ensures ds[i].FuncDecl? ==> NoJumps(GenStmts(ds[i].f.body))
  {
    hide NoJumps, GenStmts;
  }

  lemma DeclsShape(ds: seq<Decl>, pos: nat)
    requires ds != []
    ensures ds[0].FuncDecl? ==>
      && DeclCmds(ds) == GenFunc(ds[0].f) + DeclCmds(ds[1..]) && DeclNatives(ds) == DeclNatives(ds[1..])
      && DeclDefs(ds, pos) == [IdAddress(ds[0].name, pos)] + DeclDefs(ds[1..], pos + Size(GenFunc(ds[0].f)))
    ensures ds[0].NativeDecl? ==>
      && DeclCmds(ds) == DeclCmds(ds[1..]) && DeclNatives(ds) == [ds[0].name] + DeclNatives(ds[1..])
      && DeclDefs(ds, pos) == DeclDefs(ds[1..], pos)
  {
    hide GenFunc;
    assert forall s: seq<Cmd> :: [] + s == s;
    assert forall s: seq<string> :: [] + s == s;
  }

  lemma DeclsNone(pos: nat)
    ensures DeclCmds([]) == [] && DeclDefs([], pos) == [] && DeclNatives([]) == []
  {
  }

  function Nothing(): St { St([], {}, NoNotes(), []) }
  function NoNotes(): Notes { Notes(map[], map[], map[], []) }

  function AllCmds(main: seq<TStmt>, decls: seq<Decl>): seq<Cmd> { GenStmts(main) + DeclCmds(decls) }

  lemma AllShape(main: seq<TStmt>, decls: seq<Decl>)
    ensures AllCmds(main, decls) == GenStmts(main) + DeclCmds(decls)
    ensures Nothing() == St([], {}, NoNotes(), [])
  {
  }

  lemma {:induction false} DeclsNoJumps(ds: seq<Decl>)
    requires DeclsClosed(ds)
    ensures NoJumps(DeclCmds(ds))
  {
    hide NoJumps, GenFunc;
    if ds == [] {
      assert NoJumps([]) by { NothingJumps(); }
    } else {
      assert forall i :: 0 <= i < |ds[1..]| ==> ds[1..][i] == ds[i + 1];
      DeclsNoJumps(ds[1..]);
      match ds[0]
      case FuncDecl(_, f) =>
        DeclClosed(ds, 0);
        FuncNoJumps(f);
        NoJumpsAppend(GenFunc(f), DeclCmds(ds[1..]));
      case NativeDecl(_) =>
        assert [] + DeclCmds(ds[1..]) == DeclCmds(ds[1..]);
    }
  }

  lemma NothingJumps()
    ensures NoJumps([])
  {
  }

  lemma FuncNoJumps(f: TFuncDef)
    requires NoJumps(GenStmts(f.body))
    ensures NoJumps(GenFunc(f))
  {
    hide NoJumps;
    ParamsNoJumps(f.args);
    DestroyNoJumps(f.defs);
    NoJumpsAppend(Destroy(f.defs), [Ret]);
    assert NoJumps([Ret]) && NoJumps([]) by { RetNoJump(); }
    NoJumpsAppend(GenStmts(f.body), FuncTail(f));
    NoJumpsAppend(GenParams(f.args), GenStmts(f.body) + FuncTail(f));
    hide GenStmts, GenParams;
  }

  lemma RetNoJump()
    ensures NoJumps([Ret]) && NoJumps([])
  {
  }

  lemma {:induction false} ParamsNoJumps(ts: seq<Ty>)
    ensures NoJumps(GenParams(ts))
  {
    if ts != [] {
      ParamsNoJumps(ts[1..]);
    }
  }

  lemma {:induction false} DestroyNoJumps(ts: seq<Ty>)
    ensures NoJumps(Destroy(ts))
  {
    if ts != [] {
      DestroyNoJumps(ts[..|ts| - 1]);
    }
  }

  lemma AllClosed(main: seq<TStmt>, decls: seq<Decl>)
    requires NoJumps(GenStmts(main)) && DeclsClosed(decls)
    ensures NoJumps(AllCmds(main, decls))
  {
    hide NoJumps, GenStmts, DeclCmds, DeclsClosed;
    DeclsNoJumps(decls);
    NoJumpsAppend(GenStmts(main), DeclCmds(decls));
  }

  lemma NoHoles(c: seq<byte>, t: seq<byte>)
    ensures Agree(c, t, {}) ==> c == t
    ensures [] + t == t
  {
    if Agree(c, t, {}) {
      assert forall p: nat :: p < |c| ==> !InHole({}, p);
    }
  }

  // ----- tables -----

  // The entries of an unordered map, in whatever order.
  ghost predicate TableOf(m: map<string, seq<nat>>, refs: seq<IdAddresses>) {
    (forall i, j :: 0 <= i < j < |refs| ==> refs[i].id != refs[j].id) &&
    (forall i :: 0 <= i < |refs| ==> refs[i].id in m && refs[i].addresses == m[refs[i].id]) &&
    (forall x :: x in m ==> exists i :: 0 <= i < |refs| && refs[i].id == x)
  }

  method TransformIdAddresses(m: map<string, seq<nat>>) returns (refs: seq<IdAddresses>)
    ensures TableOf(m, refs)
  {
    refs := [];
    var rest := m.Keys;
    while rest != {}
      invariant rest <= m.Keys
      invariant forall i, j :: 0 <= i < j < |refs| ==> refs[i].id != refs[j].id
      invariant forall i :: 0 <= i < |refs| ==>
        refs[i].id in m && refs[i].id !in rest && refs[i].addresses == m[refs[i].id]
      invariant forall x :: x in m && x !in rest ==> exists i :: 0 <= i < |refs| && refs[i].id == x
      decreases |rest|
    {
      var id :| id in rest;
      ghost var before := refs;
      refs := refs + [IdAddresses(id, m[id])];
      rest := rest - {id};
      forall x | x in m && x !in rest
        ensures exists i :: 0 <= i < |refs| && refs[i].id == x
      {
        if x == id {
          assert refs[|before|].id == x;
        } else {
          var i :| 0 <= i < |before| && before[i].id == x;
          assert refs[i].id == x;
        }
      }
    }
  }

  // What a compilation yields.
  ghost predicate IsModule(m: Module, main: seq<TStmt>, decls: seq<Decl>, version: nat) {
    var cs := AllCmds(main, decls);
    var n := Note(NoNotes(), cs, 0);
    m.version == version && m.code == EncodeAll(cs) && m.mainSize == Size(GenStmts(main)) &&
    m.funcDefs == DeclDefs(decls, m.mainSize) && m.nativeDefs == DeclNatives(decls) && m.globalDefs == n.defs &&
    TableOf(n.globals, m.globalRefs) && TableOf(n.funcs, m.funcRefs) && TableOf(n.natives, m.nativeRefs)
  }

  lemma ModuleIs(m: Module, main: seq<TStmt>, decls: seq<Decl>, version: nat)
    requires m.version == version && m.mainSize == Size(GenStmts(main))
    requires var s := Nothing().(target := Nothing().target + EncodeAll(AllCmds(main, decls)),
        notes := Note(Nothing().notes, AllCmds(main, decls), |Nothing().target|));
      m.code == s.target && m.globalDefs == s.notes.defs &&
      TableOf(s.notes.globals, m.globalRefs) && TableOf(s.notes.funcs, m.funcRefs) &&
      TableOf(s.notes.natives, m.nativeRefs)
    requires m.funcDefs == DeclDefs(decls, m.mainSize) && m.nativeDefs == DeclNatives(decls)
    ensures IsModule(m, main, decls, version)
  {
    hide AllCmds, TableOf, EncodeAll, Note, DeclDefs, DeclNatives, GenStmts, Size;
    assert [] + EncodeAll(AllCmds(main, decls)) == EncodeAll(AllCmds(main, decls));
  }

  // The loops around, for the jump back to the innermost one's start.
  function Start(scopes: seq<LoopScope>): int { if scopes == [] then 0 else scopes[|scopes| - 1].start }

  lemma SymbolAfter(s: St, c: Cmd, cont: int, brk: int)
    requires Symbolic(c)
    ensures After(s, [c], cont, brk) == s.(target := s.target + Encode(c), notes := NoteCmd(s.notes, c, |s.target|))
    ensures Encode(c) == [IdOf(c)] + LE32(U32 - 1)
  {
    hide IdOf;
    AfterOne(s, c, cont, brk);
    assert FillCmd(c, cont - |s.target|, brk - |s.target|) == c && !IsBreak(c);
    hide After, NoteCmd, Encode;
    assert s.holes + {} == s.holes;
  }

  lemma BreakAfter(s: St, cont: int, brk: int)
    ensures After(s, [Jump(Direct, ToBreak)], cont, brk) ==
      St(s.target + Encode(Jump(Direct, Off(brk - (|s.target| + 5)))), s.holes + {|s.target| + 1}, s.notes,
        AddEnds(s.scopes, [|s.target| + 1]))
  {
    var c := Jump(Direct, ToBreak);
    AfterOne(s, c, cont, brk);
    assert CmdSize(c) == 5;
    assert FillCmd(c, cont - |s.target|, brk - |s.target|) == Jump(Direct, Off(brk - (|s.target| + 5)));
    assert NoteCmd(s.notes, c, |s.target|) == s.notes;
    hide After, Encode;
  }

  lemma ContinueAfter(s: St, cont: int, brk: int)
    ensures After(s, [Jump(Direct, ToContinue)], cont, brk) ==
      s.(target := s.target + Encode(Jump(Direct, Off(cont - (|s.target| + 5)))))
  {
    var c := Jump(Direct, ToContinue);
    AfterOne(s, c, cont, brk);
    assert CmdSize(c) == 5;
    assert FillCmd(c, cont - |s.target|, brk - |s.target|) == Jump(Direct, Off(cont - (|s.target| + 5)));
    assert NoteCmd(s.notes, c, |s.target|) == s.notes && !IsBreak(c);
    hide After, Encode;
    assert s.holes + {} == s.holes;
  }

  lemma JumpBytes(kind: JumpKind, o: int)
    requires -I31 <= o < I31
    ensures Encode(Jump(kind, Off(o))) == [IdOf(Jump(kind, Off(o)))] + LE32(ToUnsigned(o))
    ensures |Encode(Jump(kind, Off(o)))| == 5
    ensures IdOf(Jump(kind, Off(o))) == IdOf(Jump(kind, Off(0)))
  {
    hide LE32;
  }

  lemma EncodeParts(c: Cmd)
    ensures Encode(c) == [IdOf(c)] + OperandBytes(c) && CmdSize(c) == 1 + |OperandBytes(c)|
  {
  }

  lemma AgreeSize(c: seq<byte>, t: seq<byte>, holes: set<nat>)
    requires Agree(c, t, holes)
    ensures |c| == |t|
  {
  }
}
