/** The command set: the commands the generator emits for the modelled language, their identifiers and
    operands as bytes, and the decoder that the VM reads them back with. */
module Commands {
  import opened Bytes
  import opened Language

  // A 4-byte operand that a linker fills in: still a name, or already a number.
  datatype Operand = Sym(name: string) | Num(n: nat)

  // A jump's operand: an offset from the end of the command, or a jump out of, or to the start of,
  // the enclosing loop whose offset is not known yet.
  datatype Target = Off(offset: int) | ToBreak | ToContinue

  datatype JumpKind = IfNot | ImplicitIfNot | ImplicitIf | Direct

  datatype Cmd =
    | CreateGlobal(t: Ty, ref: Operand)
    | InitGlobal(t: Ty, ref: Operand)
    | CreateLocal(t: Ty)
    | InitLocal(t: Ty)
    | DestroyLocal(t: Ty)
    | Unload(t: Ty)
    | LoadValue(v: Value)
    | LoadFunc(ref: Operand)
    | LoadNative(ref: Operand)
    | LoadGlobal(t: Ty, ref: Operand)
    | LoadLocal(t: Ty, slot: nat)
    | LoadGlobalAddress(ref: Operand)
    | LoadLocalAddress(slot: nat)
    | Store(t: Ty)
    | Cast(src: Ty, dst: Ty)
    | Jump(kind: JumpKind, target: Target)
    | Ret
    | CallFunc
    | CallNative
    | AndCmd
    | OrCmd
    | BinCmd(op: BinOp, t: Ty)
    | UnCmd(uop: UnOp, t: Ty)
    | StepCmd(inc: bool, t: Ty)
    | NoCmd // where the generator has no command and asserts that it is not asked for one

  // The orders in which families of command identifiers list their element types.
  function InitIndex(t: Ty): nat {
    match t case Int => 0 case Long => 1 case Double => 2 case Char => 3 case String => 4 case Bool => 5
  }
  function InitTy(i: nat): Ty
    requires i < 6
  {
    if i == 0 then Int else if i == 1 then Long else if i == 2 then Double
    else if i == 3 then Char else if i == 4 then String else Bool
  }

  // Creating without a value is one command for all arrays: index 1.
  function CreateIndex(t: Ty): nat { if t == Int then 0 else InitIndex(t) + 1 }

  function LoadIndex(t: Ty): nat {
    match t case Int => 0 case Long => 1 case Double => 2 case Bool => 3 case Char => 4 case String => 5
  }
  function LoadTy(i: nat): Ty
    requires i < 6
  {
    if i == 0 then Int else if i == 1 then Long else if i == 2 then Double
    else if i == 3 then Bool else if i == 4 then Char else String
  }

  function LiteralIndex(t: Ty): nat {
    match t case Int => 0 case Long => 1 case Bool => 2 case Char => 3 case String => 4 case Double => 5
  }
  function LiteralTy(i: nat): Ty
    requires i < 6
  {
    if i == 0 then Int else if i == 1 then Long else if i == 2 then Bool
    else if i == 3 then Char else if i == 4 then String else Double
  }

  function NumIndex(t: Ty): nat {
    match t case Char => 0 case Int => 1 case Long => 2 case Double => 3 case String => 4 case Bool => 5
  }
  function NumTy(i: nat): Ty
    requires i < 5
  {
    if i == 0 then Char else if i == 1 then Int else if i == 2 then Long else if i == 3 then Double else String
  }

  function BinId(op: BinOp, t: Ty): nat {
    match op
    case Mul => 149 + NumIndex(t)
    case Div => 153 + NumIndex(t)
    case Sum => 157 + NumIndex(t)
    case Sub => 162 + NumIndex(t)
    case Equal => 166 + LoadIndex(t)
    case NotEqual => 178 + LoadIndex(t)
    case Greater => 190 + NumIndex(t)
    case GreaterOrEqual => 194 + NumIndex(t)
    case Less => 198 + NumIndex(t)
    case LessOrEqual => 202 + NumIndex(t)
  }

  function CastId(src: Ty, dst: Ty): nat {
    match src
    case Char => if dst == Int then 133 else if dst == Long then 134 else 136
    case Int => if dst == Long then 137 else 138
    case _ => 139
  }

  predicate IsVarCmd(c: Cmd) {
    c.CreateGlobal? || c.InitGlobal? || c.CreateLocal? || c.InitLocal? || c.DestroyLocal? || c.Unload?
  }

  function VarId(c: Cmd): (id: byte)
    requires IsVarCmd(c)
    ensures 0 < id < 75
  {
    match c
    case CreateGlobal(t, _) => 1 + CreateIndex(t)
    case InitGlobal(t, _) => 8 + InitIndex(t)
    case CreateLocal(t) => 20 + CreateIndex(t)
    case InitLocal(t) => 27 + InitIndex(t)
    case DestroyLocal(t) => 51 + InitIndex(t)
    case Unload(t) => 63 + LoadIndex(t)
  }

  predicate IsLoadCmd(c: Cmd) {
    c.LoadValue? || c.LoadFunc? || c.LoadNative? || c.LoadGlobal? || c.LoadLocal? || c.LoadGlobalAddress?
    || c.LoadLocalAddress? || c.Store?
  }

  function LoadId(c: Cmd): (id: byte)
    requires IsLoadCmd(c)
    ensures 75 <= id < 133
  {
    match c
    case LoadValue(v) => 75 + LiteralIndex(v.ty)
    case LoadFunc(_) => 81
    case LoadNative(_) => 82
    case LoadGlobal(t, _) => 83 + LoadIndex(t)
    case LoadLocal(t, _) => 95 + LoadIndex(t)
    case LoadGlobalAddress(_) => 107
    case LoadLocalAddress(_) => 108
    case Store(t) => 121 + LoadIndex(t)
  }

  predicate IsOpCmd(c: Cmd) { c.BinCmd? || c.UnCmd? || c.StepCmd? }

  function OpId(c: Cmd): (id: byte)
    requires IsOpCmd(c)
    ensures 149 <= id
  {
    match c
    case BinCmd(op, t) => BinId(op, t)
    case UnCmd(op, t) => if op == Not then 214 else 214 + NumIndex(t)
    case StepCmd(inc, t) => (if inc then 210 else 206) + NumIndex(t)
  }

  function FlowId(c: Cmd): (id: byte)
    requires !IsVarCmd(c) && !IsLoadCmd(c) && !IsOpCmd(c)
    ensures 133 <= id < 149
  {
    match c
    case Cast(src, dst) => CastId(src, dst)
    case Jump(k, _) =>
      (match k case IfNot => 140 case ImplicitIfNot => 141 case ImplicitIf => 142 case Direct => 143)
    case Ret => 144
    case CallFunc => 145
    case CallNative => 146
    case AndCmd => 147
    case OrCmd => 148
    case NoCmd => 148
  }

  // CmdId.
  function IdOf(c: Cmd): byte {
    if IsVarCmd(c) then VarId(c)
    else if IsLoadCmd(c) then LoadId(c)
    else if IsOpCmd(c) then OpId(c)
    else FlowId(c)
  }

  // The command without its operand.
  function Template(c: Cmd): Cmd {
    match c
    case CreateGlobal(t, _) => CreateGlobal(t, Num(0))
    case InitGlobal(t, _) => InitGlobal(t, Num(0))
    case LoadValue(v) => LoadValue(Val(v.ty, []))
    case LoadFunc(_) => LoadFunc(Num(0))
    case LoadNative(_) => LoadNative(Num(0))
    case LoadGlobal(t, _) => LoadGlobal(t, Num(0))
    case LoadLocal(t, _) => LoadLocal(t, 0)
    case LoadGlobalAddress(_) => LoadGlobalAddress(Num(0))
    case LoadLocalAddress(_) => LoadLocalAddress(0)
    case Jump(k, _) => Jump(k, Off(0))
    case _ => c
  }

  // The commands that exist: an operator or a cast for which there is an identifier.
  predicate Exists(c: Cmd) {
    match c
    case NoCmd => false
    case Cast(src, dst) => Castable(src, dst)
    case BinCmd(op, t) => SupportsBin(op, t)
    case UnCmd(op, t) => SupportsUn(op, t)
    case StepCmd(_, t) => SupportsStep(t)
    case _ => true
  }

  function DecodeCreate(i: nat): Option<Ty>
    requires i < 7
  {
    if i == 0 then Some(Int) else if i == 1 then None else Some(InitTy(i - 1))
  }

  function DecodeVarId(id: byte): Option<Cmd> {
    if id < 1 then None
    else if id < 8 then
      (match DecodeCreate(id - 1) case None => None case Some(t) => Some(CreateGlobal(t, Num(0))))
    else if id < 14 then Some(InitGlobal(InitTy(id - 8), Num(0)))
    else if id < 20 then None
    else if id < 27 then
      (match DecodeCreate(id - 20) case None => None case Some(t) => Some(CreateLocal(t)))
    else if id < 33 then Some(InitLocal(InitTy(id - 27)))
    else if id < 51 then None
    else if id < 57 then Some(DestroyLocal(InitTy(id - 51)))
    else if id < 63 then None
    else if id < 69 then Some(Unload(LoadTy(id - 63)))
    else None
  }

  function DecodeLoadId(id: byte): Option<Cmd> {
    if id < 75 then None
    else if id < 81 then Some(LoadValue(Val(LiteralTy(id - 75), [])))
    else if id == 81 then Some(LoadFunc(Num(0)))
    else if id == 82 then Some(LoadNative(Num(0)))
    else if id < 89 then Some(LoadGlobal(LoadTy(id - 83), Num(0)))
    else if id < 95 then None
    else if id < 101 then Some(LoadLocal(LoadTy(id - 95), 0))
    else if id == 107 then Some(LoadGlobalAddress(Num(0)))
    else if id == 108 then Some(LoadLocalAddress(0))
    else if 121 <= id < 127 then Some(Store(LoadTy(id - 121)))
    else None
  }

  function DecodeFlowId(id: byte): Option<Cmd> {
    if id == 133 then Some(Cast(Char, Int))
    else if id == 134 then Some(Cast(Char, Long))
    else if id == 136 then Some(Cast(Char, String))
    else if id == 137 then Some(Cast(Int, Long))
    else if id == 138 then Some(Cast(Int, Double))
    else if id == 139 then Some(Cast(Long, Double))
    else if id == 140 then Some(Jump(IfNot, Off(0)))
    else if id == 141 then Some(Jump(ImplicitIfNot, Off(0)))
    else if id == 142 then Some(Jump(ImplicitIf, Off(0)))
    else if id == 143 then Some(Jump(Direct, Off(0)))
    else if id == 144 then Some(Ret)
    else if id == 145 then Some(CallFunc)
    else if id == 146 then Some(CallNative)
    else if id == 147 then Some(AndCmd)
    else if id == 148 then Some(OrCmd)
    else None
  }

  function DecodeOpId(id: byte): Option<Cmd> {
    if id < 149 then None
    else if id < 153 then Some(BinCmd(Mul, NumTy(id - 149)))
    else if id < 157 then Some(BinCmd(Div, NumTy(id - 153)))
    else if id < 162 then Some(BinCmd(Sum, NumTy(id - 157)))
    else if id < 166 then Some(BinCmd(Sub, NumTy(id - 162)))
    else if id < 172 then Some(BinCmd(Equal, LoadTy(id - 166)))
    else if id < 178 then None
    else if id < 184 then Some(BinCmd(NotEqual, LoadTy(id - 178)))
    else if id < 190 then None
    else if id < 194 then Some(BinCmd(Greater, NumTy(id - 190)))
    else if id < 198 then Some(BinCmd(GreaterOrEqual, NumTy(id - 194)))
    else if id < 202 then Some(BinCmd(Less, NumTy(id - 198)))
    else if id < 206 then Some(BinCmd(LessOrEqual, NumTy(id - 202)))
    else if id < 210 then Some(StepCmd(false, NumTy(id - 206)))
    else if id < 214 then Some(StepCmd(true, NumTy(id - 210)))
    else if id == 214 then Some(UnCmd(Not, Bool))
    else if id < 218 then Some(UnCmd(Negative, NumTy(id - 214)))
    else None
  }

  // GetNextCmd's switch: the command an identifier stands for.
  function DecodeId(id: byte): Option<Cmd> {
    if id < 75 then DecodeVarId(id)
    else if id < 133 then DecodeLoadId(id)
    else if id < 149 then DecodeFlowId(id)
    else DecodeOpId(id)
  }

  lemma DecodeBinId(op: BinOp, t: Ty)
    requires SupportsBin(op, t)
    ensures 149 <= BinId(op, t) < 206 && DecodeOpId(BinId(op, t)) == Some(BinCmd(op, t))
  {
    match op
    case Equal => assert LoadTy(LoadIndex(t)) == t;
    case NotEqual => assert LoadTy(LoadIndex(t)) == t;
    case _ => assert NumIndex(t) < 5 && NumTy(NumIndex(t)) == t;
  }

  // Every command's identifier is its own.
  lemma DecodeIdOf(c: Cmd)
    requires Exists(c)
    ensures DecodeId(IdOf(c)) == Some(Template(c))
  {
    if IsVarCmd(c) {
      assert InitTy(InitIndex(c.t)) == c.t && LoadTy(LoadIndex(c.t)) == c.t;
      assert DecodeCreate(CreateIndex(c.t)) == Some(c.t);
      assert DecodeVarId(VarId(c)) == Some(Template(c));
    } else if IsLoadCmd(c) {
      DecodeLoad(c);
    } else if c.BinCmd? {
      DecodeBinId(c.op, c.t);
    } else if IsOpCmd(c) {
      assert c.t != Bool ==> NumTy(NumIndex(c.t)) == c.t;
    } else {
      assert DecodeFlowId(FlowId(c)) == Some(Template(c));
    }
  }

  lemma DecodeLoad(c: Cmd)
    requires IsLoadCmd(c)
    ensures DecodeLoadId(LoadId(c)) == Some(Template(c))
  {
    match c
    case LoadValue(v) => assert LiteralTy(LiteralIndex(v.ty)) == v.ty;
    case LoadGlobal(t, _) => assert LoadTy(LoadIndex(t)) == t;
    case LoadLocal(t, _) => assert LoadTy(LoadIndex(t)) == t;
    case Store(t) => assert LoadTy(LoadIndex(t)) == t;
    case _ =>
  }

  // Operands: placeholders are written as 0xFFFFFFFF, jump holes as anything (zeros here).
  function OperandBytes(c: Cmd): seq<byte> {
    match c
    case CreateGlobal(_, r) => RefBytes(r)
    case InitGlobal(_, r) => RefBytes(r)
    case LoadValue(v) => if v.ty == String then LE32(|v.raw|) + v.raw else v.raw
    case LoadFunc(r) => RefBytes(r)
    case LoadNative(r) => RefBytes(r)
    case LoadGlobal(_, r) => RefBytes(r)
    case LoadLocal(_, slot) => LE32(slot)
    case LoadGlobalAddress(r) => RefBytes(r)
    case LoadLocalAddress(slot) => LE32(slot)
    case Jump(_, Off(o)) => if -I31 <= o < I31 then LE32(ToUnsigned(o)) else LE32(0)
    case Jump(_, _) => LE32(0)
    case _ => []
  }

  function RefBytes(r: Operand): (b: seq<byte>)
    ensures |b| == 4
  {
    match r case Sym(_) => LE32(U32 - 1) case Num(n) => LE32(n)
  }

  function Encode(c: Cmd): seq<byte> { [IdOf(c)] + OperandBytes(c) }

  function CmdSize(c: Cmd): (n: nat)
    ensures n == |Encode(c)|
  {
    1 + |OperandBytes(c)|
  }

  function Size(cs: seq<Cmd>): nat {
    if cs == [] then 0 else CmdSize(cs[0]) + Size(cs[1..])
  }

  function EncodeAll(cs: seq<Cmd>): (b: seq<byte>)
    ensures |b| == Size(cs)
  {
    if cs == [] then [] else Encode(cs[0]) + EncodeAll(cs[1..])
  }

  lemma {:induction false} SizeAppend(a: seq<Cmd>, b: seq<Cmd>)
    ensures Size(a + b) == Size(a) + Size(b)
  {
    if a == [] {
      assert a + b == b;
    } else {
      assert (a + b)[1..] == a[1..] + b;
      SizeAppend(a[1..], b);
    }
  }

  predicate RefFits(r: Operand) { r.Sym? || r.n < U32 }

  // A literal has its type's width, and a number fits its field.
  predicate OperandFits(c: Cmd) {
    match c
    case CreateGlobal(_, r) => RefFits(r)
    case InitGlobal(_, r) => RefFits(r)
    case LoadValue(v) => if v.ty == String then |v.raw| < U32 else |v.raw| == Width(v.ty)
    case LoadFunc(r) => RefFits(r)
    case LoadNative(r) => RefFits(r)
    case LoadGlobal(_, r) => RefFits(r)
    case LoadLocal(_, slot) => slot < U32
    case LoadGlobalAddress(r) => RefFits(r)
    case LoadLocalAddress(slot) => slot < U32
    case _ => true
  }

  // No placeholder is left, and a jump's offset is known and fits.
  predicate Settled(c: Cmd) {
    match c
    case CreateGlobal(_, r) => r.Num?
    case InitGlobal(_, r) => r.Num?
    case LoadFunc(r) => r.Num?
    case LoadNative(r) => r.Num?
    case LoadGlobal(_, r) => r.Num?
    case LoadGlobalAddress(r) => r.Num?
    case Jump(_, Off(o)) => -I31 <= o < I31
    case Jump(_, _) => false
    case _ => true
  }

  // The commands that can be read back: what the generator's assertions on literals, slot numbers and
  // offsets, and the linkers' filling of placeholders, amount to.
  predicate Encodable(c: Cmd) { Exists(c) && OperandFits(c) && Settled(c) }

  function Word(img: seq<byte>, pos: nat): Option<nat> {
    if pos + 4 <= |img| then Some(FromLE32(img[pos..pos + 4])) else None
  }

  function Chunk(img: seq<byte>, pos: nat, len: nat): Option<seq<byte>> {
    if pos + len <= |img| then Some(img[pos..pos + len]) else None
  }

  function DecodeValue(img: seq<byte>, pos: nat, t: Ty): Option<Cmd> {
    if t != String then
      match Chunk(img, pos, Width(t)) case None => None case Some(raw) => Some(LoadValue(Val(t, raw)))
    else
      match Word(img, pos)
      case None => None
      case Some(len) =>
        match Chunk(img, pos + 4, len) case None => None case Some(raw) => Some(LoadValue(Val(t, raw)))
  }

  // The template with the operand found at pos.
  function DecodeOperand(img: seq<byte>, pos: nat, t: Cmd): Option<Cmd> {
    match t
    case LoadValue(v) => DecodeValue(img, pos, v.ty)
    case CreateGlobal(ty, _) => (match Word(img, pos) case None => None case Some(n) => Some(CreateGlobal(ty, Num(n))))
    case InitGlobal(ty, _) => (match Word(img, pos) case None => None case Some(n) => Some(InitGlobal(ty, Num(n))))
    case LoadFunc(_) => (match Word(img, pos) case None => None case Some(n) => Some(LoadFunc(Num(n))))
    case LoadNative(_) => (match Word(img, pos) case None => None case Some(n) => Some(LoadNative(Num(n))))
    case LoadGlobal(ty, _) => (match Word(img, pos) case None => None case Some(n) => Some(LoadGlobal(ty, Num(n))))
    case LoadLocal(ty, _) => (match Word(img, pos) case None => None case Some(n) => Some(LoadLocal(ty, n)))
    case LoadGlobalAddress(_) =>
      (match Word(img, pos) case None => None case Some(n) => Some(LoadGlobalAddress(Num(n))))
    case LoadLocalAddress(_) => (match Word(img, pos) case None => None case Some(n) => Some(LoadLocalAddress(n)))
    case Jump(k, _) => (match Word(img, pos) case None => None case Some(n) => Some(Jump(k, Off(ToSigned(n)))))
    case _ => Some(t)
  }

  // GetNextCmd: the command at a position.
  function Decode(img: seq<byte>, pos: nat): Option<Cmd> {
    if pos >= |img| then None
    else
      match DecodeId(img[pos])
      case None => None
      case Some(t) => DecodeOperand(img, pos + 1, t)
  }

  lemma WordAt(img: seq<byte>, pos: nat, n: nat)
    requires n < U32 && pos + 4 <= |img| && img[pos..pos + 4] == LE32(n)
    ensures Word(img, pos) == Some(n)
  {
    LE32RoundTrip(n);
  }

  lemma ValueRoundTrip(img: seq<byte>, pos: nat, v: Value)
    requires Encodable(LoadValue(v)) && pos + |OperandBytes(LoadValue(v))| <= |img|
    requires img[pos..pos + |OperandBytes(LoadValue(v))|] == OperandBytes(LoadValue(v))
    ensures DecodeValue(img, pos, v.ty) == Some(LoadValue(v))
  {
    if v.ty == String {
      var b := img[pos..pos + 4 + |v.raw|];
      assert img[pos..pos + 4] == b[..4];
      assert img[pos + 4..pos + 4 + |v.raw|] == b[4..];
      WordAt(img, pos, |v.raw|);
    }
  }

  lemma OperandRoundTrip(img: seq<byte>, pos: nat, c: Cmd)
    requires Encodable(c)
    requires pos + |OperandBytes(c)| <= |img|
    requires img[pos..pos + |OperandBytes(c)|] == OperandBytes(c)
    ensures DecodeOperand(img, pos, Template(c)) == Some(c)
  {
    hide LE32, Word, DecodeValue;
    match c
    case CreateGlobal(_, r) => WordAt(img, pos, r.n);
    case InitGlobal(_, r) => WordAt(img, pos, r.n);
    case LoadFunc(r) => WordAt(img, pos, r.n);
    case LoadNative(r) => WordAt(img, pos, r.n);
    case LoadGlobal(_, r) => WordAt(img, pos, r.n);
    case LoadLocal(_, slot) => WordAt(img, pos, slot);
    case LoadGlobalAddress(r) => WordAt(img, pos, r.n);
    case LoadLocalAddress(slot) => WordAt(img, pos, slot);
    case Jump(_, Off(o)) => WordAt(img, pos, ToUnsigned(o));
    case LoadValue(v) =>
      ValueRoundTrip(img, pos, v);
    case _ =>
  }

  // Decoding undoes encoding, wherever the bytes stand.
  lemma DecodeEncode(img: seq<byte>, pos: nat, c: Cmd)
    requires Encodable(c)
    requires pos + CmdSize(c) <= |img|
    requires img[pos..pos + CmdSize(c)] == Encode(c)
    ensures Decode(img, pos) == Some(c)
  {
    var b := img[pos..pos + CmdSize(c)];
    assert b[0] == img[pos];
    assert img[pos + 1..pos + CmdSize(c)] == b[1..] == OperandBytes(c);
    DecodeIdOf(c);
    OperandRoundTrip(img, pos + 1, c);
  }
}
