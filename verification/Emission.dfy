/** What emitting commands does to the generator's state: bytes, recorded references and definitions,
    and the jumps that are still open. */
module Emission {
  import opened Bytes
  import opened Language
  import opened Commands
  import opened Codegen
  import opened Containers

  // Where the enclosing loop starts, and the placeholders of jumps to its end.
  datatype LoopScope = LoopScope(start: nat, ends: seq<nat>)

  // What has been recorded for the linkers.
  datatype Notes = Notes(
    globals: map<string, seq<nat>>,
    funcs: map<string, seq<nat>>,
    natives: map<string, seq<nat>>,
    defs: seq<IdSize>)

  function Record(m: map<string, seq<nat>>, id: string, a: nat): map<string, seq<nat>> {
    m[id := (if id in m then m[id] else []) + [a]]
  }

  // A symbol's placeholder is the operand, one byte behind the command's start.
  function NoteCmd(n: Notes, c: Cmd, pos: nat): Notes {
    match c
    case CreateGlobal(t, Sym(x)) =>
      n.(globals := Record(n.globals, x, pos + 1), defs := n.defs + [IdSize(x, SlotSize(t))])
    case InitGlobal(t, Sym(x)) =>
      n.(globals := Record(n.globals, x, pos + 1), defs := n.defs + [IdSize(x, SlotSize(t))])
    case LoadGlobal(_, Sym(x)) => n.(globals := Record(n.globals, x, pos + 1))
    case LoadGlobalAddress(Sym(x)) => n.(globals := Record(n.globals, x, pos + 1))
    case LoadFunc(Sym(f)) => n.(funcs := Record(n.funcs, f, pos + 1))
    case LoadNative(Sym(f)) => n.(natives := Record(n.natives, f, pos + 1))
    case _ => n
  }

  function Note(n: Notes, cs: seq<Cmd>, pos: nat): Notes
    decreases |cs|
  {
    if cs == [] then n else Note(NoteCmd(n, cs[0], pos), cs[1..], pos + CmdSize(cs[0]))
  }

  predicate IsBreak(c: Cmd) { c.Jump? && c.target == ToBreak }

  // The placeholders of the jumps out of the enclosing loop, in order.
  function Breaks(cs: seq<Cmd>, pos: nat): seq<nat>
    decreases |cs|
  {
    if cs == [] then []
    else (if IsBreak(cs[0]) then [pos + 1] else []) + Breaks(cs[1..], pos + CmdSize(cs[0]))
  }

  function AddEnds(scopes: seq<LoopScope>, ends: seq<nat>): seq<LoopScope> {
    if scopes == [] then []
    else
      var k := |scopes| - 1;
      scopes[..k] + [scopes[k].(ends := scopes[k].ends + ends)]
  }

  // The bytes as they will be in the end, the placeholders where they are not so yet, the records, and
  // the loops around.
  datatype St = St(target: seq<byte>, holes: set<nat>, notes: Notes, scopes: seq<LoopScope>)

  // The state behind cs, in a loop that starts at cont and will end at brk.
  function After(s: St, cs: seq<Cmd>, cont: int, brk: int): St {
    var p := |s.target|;
    St(s.target + EncodeAll(Fill(cs, cont - p, brk - p)), s.holes + SetOf(Breaks(cs, p)), Note(s.notes, cs, p),
      AddEnds(s.scopes, Breaks(cs, p)))
  }

  function SetOf(s: seq<nat>): set<nat> { set x | x in s }

  // ----- sequences of commands -----

  lemma {:induction false} EncodeAllAppend(a: seq<Cmd>, b: seq<Cmd>)
    ensures EncodeAll(a + b) == EncodeAll(a) + EncodeAll(b)
    decreases |a|
  {
    hide Encode;
    if a == [] {
      assert a + b == b;
    } else {
      assert (a + b)[1..] == a[1..] + b;
      EncodeAllAppend(a[1..], b);
    }
  }

  lemma {:induction false} FillAppend(a: seq<Cmd>, b: seq<Cmd>, toStart: int, toEnd: int)
    ensures Fill(a + b, toStart, toEnd) == Fill(a, toStart, toEnd) + Fill(b, toStart - Size(a), toEnd - Size(a))
    decreases |a|
  {
    hide FillCmd, CmdSize, Encode;
    FillCmdSize(if a == [] then Ret else a[0], toStart, toEnd);
    if a == [] {
      assert a + b == b;
    } else {
      assert (a + b)[1..] == a[1..] + b;
      FillAppend(a[1..], b, toStart - CmdSize(a[0]), toEnd - CmdSize(a[0]));
    }
  }

  lemma {:induction false} NoteAppend(n: Notes, a: seq<Cmd>, b: seq<Cmd>, pos: nat)
    ensures Note(n, a + b, pos) == Note(Note(n, a, pos), b, pos + Size(a))
    decreases |a|
  {
    hide NoteCmd, CmdSize, Encode;
    if a == [] {
      assert a + b == b;
    } else {
      assert (a + b)[1..] == a[1..] + b;
      NoteAppend(NoteCmd(n, a[0], pos), a[1..], b, pos + CmdSize(a[0]));
    }
  }

  lemma {:induction false} BreaksAppend(a: seq<Cmd>, b: seq<Cmd>, pos: nat)
    ensures Breaks(a + b, pos) == Breaks(a, pos) + Breaks(b, pos + Size(a))
    decreases |a|
  {
    hide IsBreak, CmdSize, Encode;
    if a == [] {
      assert a + b == b;
    } else {
      assert (a + b)[1..] == a[1..] + b;
      BreaksAppend(a[1..], b, pos + CmdSize(a[0]));
    }
  }

  lemma AfterSize(s: St, cs: seq<Cmd>, cont: int, brk: int)
    ensures |After(s, cs, cont, brk).target| == |s.target| + Size(cs)
  {
    hide Fill, Size, Encode, Note, Breaks, AddEnds;
    FillSize(cs, cont - |s.target|, brk - |s.target|);
  }

  // Emitting in two parts.
  lemma AfterAppend(s: St, a: seq<Cmd>, b: seq<Cmd>, cont: int, brk: int)
    ensures After(s, a + b, cont, brk) == After(After(s, a, cont, brk), b, cont, brk)
  {
    hide EncodeAll, Fill, Note, Breaks, Size, AddEnds, SetOf;
    var p := |s.target|;
    var q := p + Size(a);
    AfterSize(s, a, cont, brk);
    FillAppend(a, b, cont - p, brk - p);
    EncodeAllAppend(Fill(a, cont - p, brk - p), Fill(b, cont - q, brk - q));
    NoteAppend(s.notes, a, b, p);
    BreaksAppend(a, b, p);
    SetOfAppend(Breaks(a, p), Breaks(b, q));
    AddEndsAppend(s.scopes, Breaks(a, p), Breaks(b, q));
  }

  lemma AddEndsAppend(scopes: seq<LoopScope>, a: seq<nat>, b: seq<nat>)
    ensures AddEnds(scopes, a + b) == AddEnds(AddEnds(scopes, a), b)
    ensures AddEnds(scopes, []) == scopes
  {
    if scopes != [] {
      var k := |scopes| - 1;
      assert scopes[k].ends + (a + b) == scopes[k].ends + a + b;
      assert scopes[k].ends + [] == scopes[k].ends;
    }
  }

  lemma SetOfAppend(a: seq<nat>, b: seq<nat>)
    ensures SetOf(a + b) == SetOf(a) + SetOf(b)
  {
  }

  lemma AfterNone(s: St, cont: int, brk: int)
    ensures After(s, [], cont, brk) == s
  {
    AddEndsAppend(s.scopes, [], []);
  }

  lemma OneParts(c: Cmd, n: Notes, pos: nat, toStart: int, toEnd: int)
    ensures Fill([c], toStart, toEnd) == [FillCmd(c, toStart, toEnd)]
    ensures EncodeAll([c]) == Encode(c) && Size([c]) == CmdSize(c)
    ensures Note(n, [c], pos) == NoteCmd(n, c, pos)
    ensures Breaks([c], pos) == if IsBreak(c) then [pos + 1] else []
  {
    hide NoteCmd, CmdSize, Encode, FillCmd, IsBreak;
    assert [c][1..] == [];
    assert Encode(c) + [] == Encode(c);
    assert Fill([], toStart, toEnd) == [] && EncodeAll([]) == [];
  }

  // One command.
  lemma AfterOne(s: St, c: Cmd, cont: int, brk: int)
    ensures var p := |s.target|;
      After(s, [c], cont, brk) == St(s.target + Encode(FillCmd(c, cont - p, brk - p)),
        s.holes + (if IsBreak(c) then {p + 1} else {}), NoteCmd(s.notes, c, p),
        if IsBreak(c) then AddEnds(s.scopes, [p + 1]) else s.scopes)
  {
    hide NoteCmd, CmdSize, Encode, FillCmd, IsBreak, AddEnds, Fill, EncodeAll, Breaks, Note;
    var p := |s.target|;
    var f := FillCmd(c, cont - p, brk - p);
    OneParts(c, s.notes, p, cont - p, brk - p);
    OneParts(f, s.notes, p, 0, 0);
    AddEndsAppend(s.scopes, [], []);
    assert SetOf([]) == {} && SetOf([p + 1]) == {p + 1};
  }

  // An extra hole does not matter to what is emitted behind it.
  lemma AfterHole(s: St, h: nat, cs: seq<Cmd>, cont: int, brk: int)
    ensures After(s.(holes := s.holes + {h}), cs, cont, brk) ==
      After(s, cs, cont, brk).(holes := After(s, cs, cont, brk).holes + {h})
  {
    hide EncodeAll, Fill, Note, Breaks, AddEnds;
  }

  // ----- agreement with the final bytes -----

  predicate InHole(holes: set<nat>, p: nat) { exists h :: h in holes && h <= p < h + 4 }

  predicate Agree(c: seq<byte>, t: seq<byte>, holes: set<nat>) {
    |c| == |t| && forall p: nat :: p < |c| && !InHole(holes, p) ==> c[p] == t[p]
  }

  // The final bytes have at h the offset to end.
  predicate Aimed(t: seq<byte>, h: nat, end: int) {
    h + 4 <= |t| && -I31 <= end - (h + 4) < I31 && t[h..h + 4] == LE32(ToUnsigned(end - (h + 4)))
  }

  lemma AimedLater(t: seq<byte>, u: seq<byte>, h: nat, end: int)
    requires Aimed(t, h, end)
    ensures Aimed(t + u, h, end)
  {
    assert (t + u)[h..h + 4] == t[h..h + 4];
  }

  // What the placeholders of emitted breaks will hold.
  lemma {:induction false} BreaksAimed(s: St, cs: seq<Cmd>, cont: int, brk: int)
    requires 0 <= brk < I31 && |s.target| + Size(cs) < I31
    ensures forall h :: h in Breaks(cs, |s.target|) ==>
      |s.target| < h && h + 4 <= |s.target| + Size(cs) && Aimed(After(s, cs, cont, brk).target, h, brk)
    decreases |cs|
  {
    hide EncodeAll, Fill, Note, AddEnds, LE32, Aimed, Encode;
    if cs != [] {
      var p, c := |s.target|, cs[0];
      assert cs == [c] + cs[1..];
      var s1 := After(s, [c], cont, brk);
      AfterSize(s, [c], cont, brk);
      assert Size([c]) == CmdSize(c);
      AfterAppend(s, [c], cs[1..], cont, brk);
      BreaksAimed(s1, cs[1..], cont, brk);
      if IsBreak(c) {
        BreakAimed(s, c, cont, brk);
        var rest := EncodeAll(Fill(cs[1..], cont - |s1.target|, brk - |s1.target|));
        AimedLater(s1.target, rest, p + 1, brk);
      }
    }
  }

  lemma BreakAimed(s: St, c: Cmd, cont: int, brk: int)
    requires IsBreak(c) && 0 <= brk < I31 && |s.target| + 5 < I31
    ensures CmdSize(c) == 5 && Aimed(After(s, [c], cont, brk).target, |s.target| + 1, brk)
  {
    var p := |s.target|;
    AfterOne(s, c, cont, brk);
    assert CmdSize(c) == 5 && FillCmd(c, cont - p, brk - p) == Jump(c.kind, Off(brk - (p + 5)));
    hide Encode, After, Aimed;
    JumpAimed(s.target, c.kind, brk);
  }

  // An emitted jump aims where its offset leads.
  lemma JumpAimed(t: seq<byte>, kind: JumpKind, end: int)
    requires -I31 <= end - (|t| + 5) < I31
    ensures var f := Jump(kind, Off(end - (|t| + 5))); CmdSize(f) == 5 && Aimed(t + Encode(f), |t| + 1, end)
  {
    hide LE32;
    var o := end - (|t| + 5);
    var f := Jump(kind, Off(o));
    assert OperandBytes(f) == LE32(ToUnsigned(o));
    var u := t + Encode(f);
    assert u[|t| + 1..|t| + 5] == OperandBytes(f);
  }

  lemma OtherHole(holes: set<nat>, h: nat, p: nat)
    requires !(h <= p < h + 4)
    ensures InHole(holes, p) ==> InHole(holes - {h}, p)
  {
    if k :| k in holes && k <= p < k + 4 {
      assert k in holes - {h};
    }
  }

  // Writing the aimed offset closes the hole.
  lemma Closed(c: seq<byte>, t: seq<byte>, holes: set<nat>, h: nat, end: int, d: seq<byte>)
    requires Agree(c, t, holes) && Aimed(t, h, end)
    requires d == c[..h] + LE32(ToUnsigned(end - (h + 4))) + c[h + 4..]
    ensures Agree(d, t, holes - {h})
  {
    hide LE32, ToUnsigned;
    var w := LE32(ToUnsigned(end - (h + 4)));
    forall p: nat | p < |d| && !InHole(holes - {h}, p)
      ensures d[p] == t[p]
    {
      if h <= p < h + 4 {
        assert d[p] == w[p - h] == t[h..h + 4][p - h];
      } else {
        assert d[p] == c[p];
        OtherHole(holes, h, p);
      }
    }
  }

  // ----- jumps out of the loop -----

  predicate NoJumps(cs: seq<Cmd>) { forall i :: 0 <= i < |cs| ==> !IsBreak(cs[i]) && !IsContinue(cs[i]) }

  predicate IsContinue(c: Cmd) { c.Jump? && c.target == ToContinue }

  lemma NoJumpsAppend(a: seq<Cmd>, b: seq<Cmd>)
    ensures NoJumps(a + b) <==> NoJumps(a) && NoJumps(b)
  {
    if NoJumps(a + b) {
      assert forall i :: 0 <= i < |a| ==> a[i] == (a + b)[i];
      assert forall i :: 0 <= i < |b| ==> b[i] == (a + b)[|a| + i];
    }
  }

  lemma {:induction false} FillClosed(cs: seq<Cmd>, toStart: int, toEnd: int, pos: nat)
    requires NoJumps(cs)
    ensures Fill(cs, toStart, toEnd) == cs && Breaks(cs, pos) == []
    decreases |cs|
  {
    hide Encode, CmdSize;
    if cs != [] {
      assert !IsBreak(cs[0]) && !IsContinue(cs[0]);
      FillClosed(cs[1..], toStart - CmdSize(cs[0]), toEnd - CmdSize(cs[0]), pos + CmdSize(cs[0]));
    }
  }

  lemma {:induction false} FillNoJumps(cs: seq<Cmd>, toStart: int, toEnd: int)
    ensures NoJumps(Fill(cs, toStart, toEnd)) && |Fill(cs, toStart, toEnd)| == |cs|
    decreases |cs|
  {
    hide Encode, CmdSize;
    if cs != [] {
      FillNoJumps(cs[1..], toStart - CmdSize(cs[0]), toEnd - CmdSize(cs[0]));
    }
  }

  lemma {:induction false} NoteFill(n: Notes, cs: seq<Cmd>, pos: nat, toStart: int, toEnd: int)
    ensures Note(n, Fill(cs, toStart, toEnd), pos) == Note(n, cs, pos)
    decreases |cs|
  {
    hide CmdSize, NoteCmd;
    if cs != [] {
      var k := CmdSize(cs[0]);
      FillCmdSize(cs[0], toStart, toEnd);
      FillCmdNote(n, cs[0], pos, toStart, toEnd);
      NoteFill(NoteCmd(n, cs[0], pos), cs[1..], pos + k, toStart - k, toEnd - k);
    }
  }

  lemma FillCmdNote(n: Notes, c: Cmd, pos: nat, toStart: int, toEnd: int)
    ensures NoteCmd(n, FillCmd(c, toStart, toEnd), pos) == NoteCmd(n, c, pos)
  {
  }

  // Commands without such jumps only add bytes and records.
  lemma AfterClosed(s: St, cs: seq<Cmd>, cont: int, brk: int)
    requires NoJumps(cs)
    ensures After(s, cs, cont, brk) ==
      s.(target := s.target + EncodeAll(cs), notes := Note(s.notes, cs, |s.target|))
  {
    hide NoJumps, EncodeAll, Fill, Note, Breaks, AddEnds;
    FillClosed(cs, cont - |s.target|, brk - |s.target|, |s.target|);
    AddEndsAppend(s.scopes, [], []);
    assert s.holes + SetOf([]) == s.holes;
  }
}
