/** The virtual machine: it decodes the command at the code position and applies it to the operand
    stack, the local storage, the global storage and the stack of frames. Where the VM would trip over
    an assertion or misread a value (a wrong type on top, a slot that holds no variable, a string that
    was never created, a store over a neighbour), or divide without a result, the machine gets stuck. */
module Machine {
  import opened Bytes
  import opened Language
  import opened Commands

  datatype Item = V(v: Value) | FuncV(addr: nat) | NativeV(index: nat) | AddrLocal(slot: nat) | AddrGlobal(slot: nat)

  datatype Frame = Frame(start: nat, ret: nat)

  datatype Native = Native(name: string, sig: Sig)

  // The executable with the natives linked to it.
  datatype Image = Image(code: seq<byte>, mainSize: nat, natives: seq<Native>, prims: Prims)

  datatype MState = MState(
    pc: nat,
    operands: seq<Item>,
    locals: seq<Value>,
    frames: seq<Frame>,
    globals: map<nat, Value>,
    world: World)

  // The number of slots that a stack of variables takes.
  function Extent(vs: seq<Value>): nat {
    if vs == [] then 0 else Extent(vs[..|vs| - 1]) + SlotSize(vs[|vs| - 1].ty)
  }

  // The variable that starts at a slot.
  function AtSlot(vs: seq<Value>, slot: nat): Option<nat> {
    if vs == [] then None
    else if Extent(vs[..|vs| - 1]) == slot then Some(|vs| - 1)
    else AtSlot(vs[..|vs| - 1], slot)
  }

  // The storage of the globals starts out zeroed, which stands for no string.
  function ReadGlobal(g: map<nat, Value>, t: Ty, slot: nat): Option<Value> {
    if slot !in g then (if t == String then None else Some(Default(t)))
    else if g[slot].ty == t then Some(g[slot])
    else None
  }

  predicate Clear(g: map<nat, Value>, t: Ty, slot: nat) {
    forall k :: k in g && k != slot ==> k + SlotSize(g[k].ty) <= slot || slot + SlotSize(t) <= k
  }

  function WriteGlobal(g: map<nat, Value>, slot: nat, v: Value): Option<map<nat, Value>> {
    if !Clear(g, v.ty, slot) || (slot in g && g[slot].ty != v.ty) then None else Some(g[slot := v])
  }

  function Top(s: MState): Option<Item> {
    if s.operands == [] then None else Some(s.operands[|s.operands| - 1])
  }

  // The typed value on top of the operand stack.
  function TopValue(s: MState, t: Ty): Option<Raw> {
    match Top(s)
    case None => None
    case Some(i) => if i.V? && i.v.ty == t then Some(i.v.raw) else None
  }

  function Popped(s: MState): MState
    requires s.operands != []
  {
    s.(operands := s.operands[..|s.operands| - 1])
  }

  function PushItem(s: MState, i: Item): MState { s.(operands := s.operands + [i]) }

  function JumpBy(s: MState, offset: int): Option<MState> {
    if s.pc + offset < 0 then None else Some(s.(pc := s.pc + offset))
  }

  function StepVar(s: MState, c: Cmd): Option<MState>
    requires IsVarCmd(c)
  {
    match c
    case CreateLocal(t) => Some(s.(locals := s.locals + [Default(t)]))
    case InitLocal(t) =>
      (match TopValue(s, t) case None => None case Some(raw) => Some(Popped(s).(locals := s.locals + [Val(t, raw)])))
    case DestroyLocal(t) =>
      if s.locals == [] || s.locals[|s.locals| - 1].ty != t then None
      else Some(s.(locals := s.locals[..|s.locals| - 1]))
    case Unload(t) => (match TopValue(s, t) case None => None case Some(_) => Some(Popped(s)))
    case CreateGlobal(t, r) => if r.Sym? then None else StoreGlobal(s, r.n, Default(t))
    case InitGlobal(t, r) =>
      match TopValue(s, t)
      case None => None
      case Some(raw) => if r.Sym? then None else StoreGlobal(Popped(s), r.n, Val(t, raw))
  }

  function StoreGlobal(s: MState, slot: nat, v: Value): Option<MState> {
    match WriteGlobal(s.globals, slot, v) case None => None case Some(g) => Some(s.(globals := g))
  }

  function ReadAddr(s: MState, a: Item, t: Ty): Option<Raw> {
    match a
    case AddrLocal(slot) =>
      (match AtSlot(s.locals, slot)
       case None => None
       case Some(k) => if k < |s.locals| && s.locals[k].ty == t then Some(s.locals[k].raw) else None)
    case AddrGlobal(slot) =>
      (match ReadGlobal(s.globals, t, slot) case None => None case Some(v) => Some(v.raw))
    case _ => None
  }

  function WriteAddr(s: MState, a: Item, v: Value): Option<MState> {
    match a
    case AddrLocal(slot) =>
      (match AtSlot(s.locals, slot)
       case None => None
       case Some(k) =>
         if k < |s.locals| && s.locals[k].ty == v.ty then Some(s.(locals := s.locals[k := v])) else None)
    case AddrGlobal(slot) => StoreGlobal(s, slot, v)
    case _ => None
  }

  function FrameStart(s: MState): nat {
    if s.frames == [] then 0 else s.frames[|s.frames| - 1].start
  }

  function StepLoad(img: Image, s: MState, c: Cmd): Option<MState>
    requires IsLoadCmd(c)
  {
    match c
    case LoadValue(v) => Some(PushItem(s, V(v)))
    case LoadFunc(r) => if r.Sym? then None else Some(PushItem(s, FuncV(r.n)))
    case LoadNative(r) => if r.Sym? then None else Some(PushItem(s, NativeV(r.n)))
    case LoadGlobal(t, r) =>
      if r.Sym? then None else
      (match ReadGlobal(s.globals, t, r.n) case None => None case Some(v) => Some(PushItem(s, V(v))))
    case LoadLocal(t, slot) =>
      (match ReadAddr(s, AddrLocal(FrameStart(s) + slot), t)
       case None => None
       case Some(raw) => Some(PushItem(s, V(Val(t, raw)))))
    case LoadGlobalAddress(r) => if r.Sym? then None else Some(PushItem(s, AddrGlobal(r.n)))
    case LoadLocalAddress(slot) =>
      if FrameStart(s) + slot < Extent(s.locals) then Some(PushItem(s, AddrLocal(FrameStart(s) + slot))) else None
    case Store(t) =>
      match Top(s)
      case None => None
      case Some(a) =>
        match TopValue(Popped(s), t)
        case None => None
        case Some(raw) => WriteAddr(Popped(Popped(s)), a, Val(t, raw))
  }

  function StepOp(img: Image, s: MState, c: Cmd): Option<MState>
    requires IsOpCmd(c)
  {
    match c
    case BinCmd(op, t) =>
      (match TopValue(s, t)
       case None => None
       case Some(b) =>
         match TopValue(Popped(s), t)
         case None => None
         case Some(a) =>
           match Apply(img.prims, op, t, a, b)
           case None => None
           case Some(raw) => Some(PushItem(Popped(Popped(s)), V(Val(BinType(op, t), raw)))))
    case UnCmd(op, t) =>
      (match TopValue(s, t)
       case None => None
       case Some(a) => Some(PushItem(Popped(s), V(Val(t, img.prims.un(op, t, a))))))
    case StepCmd(inc, t) =>
      match Top(s)
      case None => None
      case Some(a) =>
        match ReadAddr(s, a, t)
        case None => None
        case Some(raw) => WriteAddr(Popped(s), a, Val(t, img.prims.step(inc, t, raw)))
  }

  function StepJump(s: MState, kind: JumpKind, target: Target): Option<MState> {
    if !target.Off? then None
    else if kind.Direct? then JumpBy(s, target.offset)
    else
      match TopValue(s, Bool)
      case None => None
      case Some(raw) =>
        match kind
        case IfNot => if Truth(raw) then Some(Popped(s)) else JumpBy(Popped(s), target.offset)
        case ImplicitIfNot => if Truth(raw) then Some(s) else JumpBy(s, target.offset)
        case _ => if !Truth(raw) then Some(s) else JumpBy(s, target.offset)
  }

  function StepFlow(img: Image, s: MState, c: Cmd): Option<MState>
    requires !IsVarCmd(c) && !IsLoadCmd(c) && !IsOpCmd(c)
  {
    match c
    case Cast(src, dst) =>
      (match TopValue(s, src)
       case None => None
       case Some(raw) => Some(PushItem(Popped(s), V(Val(dst, img.prims.cast(src, dst, raw))))))
    case Jump(kind, target) => StepJump(s, kind, target)
    case Ret =>
      if |s.frames| < 2 then None
      else Some(s.(pc := s.frames[|s.frames| - 1].ret, frames := s.frames[..|s.frames| - 1]))
    case CallFunc =>
      (match Top(s)
       case None => None
       case Some(f) =>
         if !f.FuncV? then None
         else Some(Popped(s).(pc := f.addr, frames := s.frames + [Frame(Extent(s.locals), s.pc)])))
    case CallNative =>
      (match Top(s)
       case None => None
       case Some(f) =>
         if !f.NativeV? || f.index >= |img.natives| then None
         else StepNative(img, Popped(s), img.natives[f.index]))
    case AndCmd => StepBool(s, true)
    case OrCmd => StepBool(s, false)
    case NoCmd => None
  }

  function StepBool(s: MState, conj: bool): Option<MState> {
    match TopValue(s, Bool)
    case None => None
    case Some(b) =>
      match TopValue(Popped(s), Bool)
      case None => None
      case Some(a) =>
        var r := if conj then Truth(a) && Truth(b) else Truth(a) || Truth(b);
        Some(PushItem(Popped(Popped(s)), V(Val(Bool, BoolRaw(r)))))
  }

  // The values on top of the stack, the first parameter's on top.
  function TakeArgs(operands: seq<Item>, ts: seq<Ty>): Option<seq<Value>> {
    if ts == [] then Some([])
    else if operands == [] then None
    else
      var i := operands[|operands| - 1];
      if !i.V? || i.v.ty != ts[0] then None
      else
        match TakeArgs(operands[..|operands| - 1], ts[1..])
        case None => None
        case Some(vs) => Some([i.v] + vs)
  }

  // A native function pops its arguments and pushes its result.
  function StepNative(img: Image, s: MState, f: Native): Option<MState> {
    match TakeArgs(s.operands, f.sig.args)
    case None => None
    case Some(vs) =>
      if |f.sig.args| > |s.operands| then None
      else
        var (raw, w) := img.prims.native(f.name, vs, s.world);
        var s1 := s.(operands := s.operands[..|s.operands| - |f.sig.args|], world := w);
        Some(if f.sig.ret.None? then s1 else PushItem(s1, V(Val(f.sig.ret.value, raw))))
  }

  predicate Halted(img: Image, s: MState) { s.pc == img.mainSize && |s.frames| == 1 }

  // What a command does once it has been read.
  function Exec(img: Image, s: MState, c: Cmd): Option<MState> {
    if IsVarCmd(c) then StepVar(s, c)
    else if IsLoadCmd(c) then StepLoad(img, s, c)
    else if IsOpCmd(c) then StepOp(img, s, c)
    else StepFlow(img, s, c)
  }

  // One turn of the execution loop; none when the program is over or the machine is stuck.
  function Step(img: Image, s: MState): Option<MState> {
    if Halted(img, s) then None
    else
      match Decode(img.code, s.pc)
      case None => None
      case Some(c) => Exec(img, s.(pc := s.pc + CmdSize(c)), c)
  }

  function Run(img: Image, n: nat, s: MState): Option<MState> {
    if n == 0 then Some(s)
    else match Step(img, s) case None => None case Some(s1) => Run(img, n - 1, s1)
  }

  // After n steps the program is not over, and yet there is no next step.
  predicate Stuck(img: Image, n: nat, s: MState) {
    match Run(img, n, s)
    case None => false
    case Some(s1) => !Halted(img, s1) && Step(img, s1).None?
  }
}
