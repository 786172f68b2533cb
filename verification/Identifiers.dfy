/** The identifiers of commands are their positions in the enumeration of the command set: the families of
    commands in its order, each with its types in its order. */
module Identifiers {
  import opened Bytes
  import opened Language
  import opened Commands

  // Consecutive commands of the enumeration, with the number of the first; none for those of arrays and for
  // the cast from char to double.
  datatype Family = Family(first: nat, cmds: seq<Option<Cmd>>)

  // The family's commands have the numbers from its first one on.
  predicate Numbered(f: Family) {
    forall k :: 0 <= k < |f.cmds| && f.cmds[k].Some? ==> IdOf(f.cmds[k].value) == f.first + k
  }

  // The same by the parts of the enumeration.
  predicate VarNumbered(f: Family) {
    forall k :: 0 <= k < |f.cmds| && f.cmds[k].Some? ==>
      IsVarCmd(f.cmds[k].value) && VarId(f.cmds[k].value) == f.first + k
  }

  predicate LoadNumbered(f: Family) {
    forall k :: 0 <= k < |f.cmds| && f.cmds[k].Some? ==>
      IsLoadCmd(f.cmds[k].value) && LoadId(f.cmds[k].value) == f.first + k
  }

  predicate OpNumbered(f: Family) {
    forall k :: 0 <= k < |f.cmds| && f.cmds[k].Some? ==>
      IsOpCmd(f.cmds[k].value) && OpId(f.cmds[k].value) == f.first + k
  }

  predicate FlowNumbered(f: Family) {
    forall k :: 0 <= k < |f.cmds| && f.cmds[k].Some? ==>
      var c := f.cmds[k].value;
      !IsVarCmd(c) && !IsLoadCmd(c) && !IsOpCmd(c) && FlowId(c) == f.first + k
  }

  lemma PartNumbered(f: Family)
    requires VarNumbered(f) || LoadNumbered(f) || OpNumbered(f) || FlowNumbered(f)
    ensures Numbered(f)
  {
    hide VarId, LoadId, OpId, FlowId;
  }

  function Arrays(first: nat): (f: Family)
    ensures VarNumbered(f) && LoadNumbered(f) && OpNumbered(f)
  {
    Family(first, [None, None, None, None, None, None])
  }

  function CreateGlobals(): (f: Family)
    ensures VarNumbered(f)
  {
    Family(1, [Some(CreateGlobal(Int, Num(0))), None, Some(CreateGlobal(Long, Num(0))),
      Some(CreateGlobal(Double, Num(0))), Some(CreateGlobal(Char, Num(0))), Some(CreateGlobal(String, Num(0))),
      Some(CreateGlobal(Bool, Num(0)))])
  }

  function InitGlobals(): (f: Family)
    ensures VarNumbered(f)
  {
    Family(8, [Some(InitGlobal(Int, Num(0))), Some(InitGlobal(Long, Num(0))), Some(InitGlobal(Double, Num(0))),
      Some(InitGlobal(Char, Num(0))), Some(InitGlobal(String, Num(0))), Some(InitGlobal(Bool, Num(0)))])
  }

  function CreateLocals(): (f: Family)
    ensures VarNumbered(f)
  {
    Family(20, [Some(CreateLocal(Int)), None, Some(CreateLocal(Long)), Some(CreateLocal(Double)),
      Some(CreateLocal(Char)), Some(CreateLocal(String)), Some(CreateLocal(Bool))])
  }

  function InitLocals(): (f: Family)
    ensures VarNumbered(f)
  {
    Family(27, [Some(InitLocal(Int)), Some(InitLocal(Long)), Some(InitLocal(Double)), Some(InitLocal(Char)),
      Some(InitLocal(String)), Some(InitLocal(Bool))])
  }

  function DestroyLocals(): (f: Family)
    ensures VarNumbered(f)
  {
    Family(51, [Some(DestroyLocal(Int)), Some(DestroyLocal(Long)), Some(DestroyLocal(Double)),
      Some(DestroyLocal(Char)), Some(DestroyLocal(String)), Some(DestroyLocal(Bool))])
  }

  function Unloads(): (f: Family)
    ensures VarNumbered(f)
  {
    Family(63, [Some(Unload(Int)), Some(Unload(Long)), Some(Unload(Double)), Some(Unload(Bool)),
      Some(Unload(Char)), Some(Unload(String))])
  }

  function LoadValues(): (f: Family)
    ensures LoadNumbered(f)
  {
    Family(75, [Some(LoadValue(Val(Int, []))), Some(LoadValue(Val(Long, []))), Some(LoadValue(Val(Bool, []))),
      Some(LoadValue(Val(Char, []))), Some(LoadValue(Val(String, []))), Some(LoadValue(Val(Double, [])))])
  }

  function LoadFuncs(): (f: Family)
    ensures LoadNumbered(f)
  {
    Family(81, [Some(LoadFunc(Num(0))), Some(LoadNative(Num(0)))])
  }

  function LoadGlobals(): (f: Family)
    ensures LoadNumbered(f)
  {
    Family(83, [Some(LoadGlobal(Int, Num(0))), Some(LoadGlobal(Long, Num(0))), Some(LoadGlobal(Double, Num(0))),
      Some(LoadGlobal(Bool, Num(0))), Some(LoadGlobal(Char, Num(0))), Some(LoadGlobal(String, Num(0)))])
  }

  function LoadLocals(): (f: Family)
    ensures LoadNumbered(f)
  {
    Family(95, [Some(LoadLocal(Int, 0)), Some(LoadLocal(Long, 0)), Some(LoadLocal(Double, 0)),
      Some(LoadLocal(Bool, 0)), Some(LoadLocal(Char, 0)), Some(LoadLocal(String, 0))])
  }

  function LoadAddresses(): (f: Family)
    ensures LoadNumbered(f)
  {
    Family(107, [Some(LoadGlobalAddress(Num(0))), Some(LoadLocalAddress(0))])
  }

  function Stores(): (f: Family)
    ensures LoadNumbered(f)
  {
    Family(121, [Some(Store(Int)), Some(Store(Long)), Some(Store(Double)), Some(Store(Bool)), Some(Store(Char)),
      Some(Store(String))])
  }

  function Casts(): (f: Family)
    ensures FlowNumbered(f)
  {
    Family(133, [Some(Cast(Char, Int)), Some(Cast(Char, Long)), None, Some(Cast(Char, String)),
      Some(Cast(Int, Long)), Some(Cast(Int, Double)), Some(Cast(Long, Double))])
  }

  function Jumps(): (f: Family)
    ensures FlowNumbered(f)
  {
    Family(140, [Some(Jump(IfNot, Off(0))), Some(Jump(ImplicitIfNot, Off(0))), Some(Jump(ImplicitIf, Off(0))),
      Some(Jump(Direct, Off(0)))])
  }

  function Others(): (f: Family)
    ensures FlowNumbered(f)
  {
    Family(144, [Some(Ret), Some(CallFunc), Some(CallNative), Some(AndCmd), Some(OrCmd)])
  }

  function Products(): (f: Family)
    ensures OpNumbered(f)
  {
    Family(149, [Some(BinCmd(Mul, Char)), Some(BinCmd(Mul, Int)), Some(BinCmd(Mul, Long)),
      Some(BinCmd(Mul, Double))])
  }

  function Quotients(): (f: Family)
    ensures OpNumbered(f)
  {
    Family(153, [Some(BinCmd(Div, Char)), Some(BinCmd(Div, Int)), Some(BinCmd(Div, Long)),
      Some(BinCmd(Div, Double))])
  }

  function Sums(): (f: Family)
    ensures OpNumbered(f)
  {
    Family(157, [Some(BinCmd(Sum, Char)), Some(BinCmd(Sum, Int)), Some(BinCmd(Sum, Long)),
      Some(BinCmd(Sum, Double)), Some(BinCmd(Sum, String))])
  }

  function Differences(): (f: Family)
    ensures OpNumbered(f)
  {
    Family(162, [Some(BinCmd(Sub, Char)), Some(BinCmd(Sub, Int)), Some(BinCmd(Sub, Long)),
      Some(BinCmd(Sub, Double))])
  }

  function Equals(): (f: Family)
    ensures OpNumbered(f)
  {
    Family(166, [Some(BinCmd(Equal, Int)), Some(BinCmd(Equal, Long)), Some(BinCmd(Equal, Double)),
      Some(BinCmd(Equal, Bool)), Some(BinCmd(Equal, Char)), Some(BinCmd(Equal, String))])
  }

  function NotEquals(): (f: Family)
    ensures OpNumbered(f)
  {
    Family(178, [Some(BinCmd(NotEqual, Int)), Some(BinCmd(NotEqual, Long)), Some(BinCmd(NotEqual, Double)),
      Some(BinCmd(NotEqual, Bool)), Some(BinCmd(NotEqual, Char)), Some(BinCmd(NotEqual, String))])
  }

  function Greaters(): (f: Family)
    ensures OpNumbered(f)
  {
    Family(190, [Some(BinCmd(Greater, Char)), Some(BinCmd(Greater, Int)), Some(BinCmd(Greater, Long)),
      Some(BinCmd(Greater, Double))])
  }

  function GreaterOrEquals(): (f: Family)
    ensures OpNumbered(f)
  {
    Family(194, [Some(BinCmd(GreaterOrEqual, Char)), Some(BinCmd(GreaterOrEqual, Int)),
      Some(BinCmd(GreaterOrEqual, Long)), Some(BinCmd(GreaterOrEqual, Double))])
  }

  function Lesses(): (f: Family)
    ensures OpNumbered(f)
  {
    Family(198, [Some(BinCmd(Less, Char)), Some(BinCmd(Less, Int)), Some(BinCmd(Less, Long)),
      Some(BinCmd(Less, Double))])
  }

  function LessOrEquals(): (f: Family)
    ensures OpNumbered(f)
  {
    Family(202, [Some(BinCmd(LessOrEqual, Char)), Some(BinCmd(LessOrEqual, Int)),
      Some(BinCmd(LessOrEqual, Long)), Some(BinCmd(LessOrEqual, Double))])
  }

  function Decrements(): (f: Family)
    ensures OpNumbered(f)
  {
    Family(206, [Some(StepCmd(false, Char)), Some(StepCmd(false, Int)), Some(StepCmd(false, Long)),
      Some(StepCmd(false, Double))])
  }

  function Increments(): (f: Family)
    ensures OpNumbered(f)
  {
    Family(210, [Some(StepCmd(true, Char)), Some(StepCmd(true, Int)), Some(StepCmd(true, Long)),
      Some(StepCmd(true, Double))])
  }

  function Negations(): (f: Family)
    ensures OpNumbered(f)
  {
    Family(214, [Some(UnCmd(Not, Bool)), Some(UnCmd(Negative, Int)), Some(UnCmd(Negative, Long)),
      Some(UnCmd(Negative, Double))])
  }

  function VarFamilies(): seq<Family> {
    [CreateGlobals(), InitGlobals(), Arrays(14), CreateLocals(), InitLocals(), Arrays(33)]
  }

  function MoreVarFamilies(): seq<Family> {
    [Arrays(39), Arrays(45), DestroyLocals(), Arrays(57), Unloads(), Arrays(69)]
  }

  function LoadFamilies(): seq<Family> {
    [LoadValues(), LoadFuncs(), LoadGlobals(), Arrays(89), LoadLocals(), Arrays(101)]
  }

  function AddressFamilies(): seq<Family> {
    [LoadAddresses(), Arrays(109), Arrays(115), Stores(), Arrays(127)]
  }

  function FlowFamilies(): seq<Family> {
    [Casts(), Jumps(), Others()]
  }

  function OpFamilies(): seq<Family> {
    [Products(), Quotients(), Sums(), Differences(), Equals(), Arrays(172), NotEquals(), Arrays(184)]
  }

  function CompareFamilies(): seq<Family> {
    [Greaters(), GreaterOrEquals(), Lesses(), LessOrEquals(), Decrements(), Increments(), Negations()]
  }

  function Enumeration(): seq<Family> {
    VarFamilies() + MoreVarFamilies() + LoadFamilies() + AddressFamilies() +
    FlowFamilies() + OpFamilies() + CompareFamilies()
  }

  // Families that count on from one another, from a number to another.
  predicate Count(fs: seq<Family>, first: nat, next: nat) {
    fs != [] && fs[0].first == first && fs[|fs| - 1].first + |fs[|fs| - 1].cmds| == next &&
    (forall i :: 0 < i < |fs| ==> fs[i].first == fs[i - 1].first + |fs[i - 1].cmds|) &&
    forall i :: 0 <= i < |fs| ==> Numbered(fs[i])
  }

  lemma CountAppend(a: seq<Family>, b: seq<Family>, first: nat, mid: nat, next: nat)
    requires Count(a, first, mid) && Count(b, mid, next)
    ensures Count(a + b, first, next)
  {
    hide Numbered;
    var fs := a + b;
    forall i | 0 < i < |fs| ensures fs[i].first == fs[i - 1].first + |fs[i - 1].cmds| {
      if i > |a| {
        assert fs[i] == b[i - |a|] && fs[i - 1] == b[i - |a| - 1];
      } else if i < |a| {
        assert fs[i] == a[i] && fs[i - 1] == a[i - 1];
      }
    }
    forall i | 0 <= i < |fs| ensures Numbered(fs[i]) {
      assert fs[i] == if i < |a| then a[i] else b[i - |a|];
    }
  }

  lemma VarFamiliesCount()
    ensures Count(VarFamilies(), 1, 39)
  {
    hide Numbered, VarNumbered, LoadNumbered, OpNumbered, FlowNumbered;
    var fs := VarFamilies();
    forall i | 0 <= i < |fs| ensures Numbered(fs[i]) {
      assert i == 0 || i == 1 || i == 2 || i == 3 || i == 4 || i == 5;
      PartNumbered(fs[i]);
    }
  }

  lemma MoreVarFamiliesCount()
    ensures Count(MoreVarFamilies(), 39, 75)
  {
    hide Numbered, VarNumbered, LoadNumbered, OpNumbered, FlowNumbered;
    var fs := MoreVarFamilies();
    forall i | 0 <= i < |fs| ensures Numbered(fs[i]) {
      assert i == 0 || i == 1 || i == 2 || i == 3 || i == 4 || i == 5;
      PartNumbered(fs[i]);
    }
  }

  lemma LoadFamiliesCount()
    ensures Count(LoadFamilies(), 75, 107)
  {
    hide Numbered, VarNumbered, LoadNumbered, OpNumbered, FlowNumbered;
    var fs := LoadFamilies();
    forall i | 0 <= i < |fs| ensures Numbered(fs[i]) {
      assert i == 0 || i == 1 || i == 2 || i == 3 || i == 4 || i == 5;
      PartNumbered(fs[i]);
    }
  }

  lemma AddressFamiliesCount()
    ensures Count(AddressFamilies(), 107, 133)
  {
    hide Numbered, VarNumbered, LoadNumbered, OpNumbered, FlowNumbered;
    var fs := AddressFamilies();
    forall i | 0 <= i < |fs| ensures Numbered(fs[i]) {
      assert i == 0 || i == 1 || i == 2 || i == 3 || i == 4;
      PartNumbered(fs[i]);
    }
  }

  lemma FlowFamiliesCount()
    ensures Count(FlowFamilies(), 133, 149)
  {
    hide Numbered, VarNumbered, LoadNumbered, OpNumbered, FlowNumbered;
    var fs := FlowFamilies();
    forall i | 0 <= i < |fs| ensures Numbered(fs[i]) {
      assert i == 0 || i == 1 || i == 2;
      PartNumbered(fs[i]);
    }
  }

  lemma OpFamiliesCount()
    ensures Count(OpFamilies(), 149, 190)
  {
    hide Numbered, VarNumbered, LoadNumbered, OpNumbered, FlowNumbered;
    var fs := OpFamilies();
    forall i | 0 <= i < |fs| ensures Numbered(fs[i]) {
      assert i == 0 || i == 1 || i == 2 || i == 3 || i == 4 || i == 5 || i == 6 || i == 7;
      PartNumbered(fs[i]);
    }
  }

  lemma CompareFamiliesCount()
    ensures Count(CompareFamilies(), 190, 218)
  {
    hide Numbered, VarNumbered, LoadNumbered, OpNumbered, FlowNumbered;
    var fs := CompareFamilies();
    forall i | 0 <= i < |fs| ensures Numbered(fs[i]) {
      assert i == 0 || i == 1 || i == 2 || i == 3 || i == 4 || i == 5 || i == 6;
      PartNumbered(fs[i]);
    }
  }

  // The enumeration starts at one and counts without a gap, and every identifier is its command's number.
  lemma Enumerated()
    ensures Count(Enumeration(), 1, 218)
  {
    hide Count, VarFamilies, MoreVarFamilies, LoadFamilies, AddressFamilies, FlowFamilies, OpFamilies,
      CompareFamilies;
    VarFamiliesCount();
    MoreVarFamiliesCount();
    LoadFamiliesCount();
    AddressFamiliesCount();
    FlowFamiliesCount();
    OpFamiliesCount();
    CompareFamiliesCount();
    CountAppend(VarFamilies(), MoreVarFamilies(), 1, 39, 75);
    var a := VarFamilies() + MoreVarFamilies();
    CountAppend(a, LoadFamilies(), 1, 75, 107);
    var b := a + LoadFamilies();
    CountAppend(b, AddressFamilies(), 1, 107, 133);
    var c := b + AddressFamilies();
    CountAppend(c, FlowFamilies(), 1, 133, 149);
    var d := c + FlowFamilies();
    CountAppend(d, OpFamilies(), 1, 149, 190);
    var e := d + OpFamilies();
    CountAppend(e, CompareFamilies(), 1, 190, 218);
  }
}
