/** CmdReader: the command at the cursor, which it moves behind the operand. Reading on from command to
    command gives back the commands that were written. */
module CmdReader {
  import opened Bytes
  import opened Language
  import opened Buffer
  import opened Commands

  // What is read off the cursor for a command that a byte identifies.
  method ReadWord(code: Code) returns (n: nat)
    requires code.Valid() && Word(code.Contents(), code.position).Some?
    modifies code`position
    ensures code.Valid() && code.Contents() == old(code.Contents()) && code.position == old(code.position) + 4
    ensures n < U32 && Word(code.Contents(), old(code.position)) == Some(n)
  {
    n := code.ReadU32();
  }

  method ReadValue(code: Code, t: Ty) returns (c: Cmd)
    requires code.Valid() && DecodeValue(code.Contents(), code.position, t).Some?
    modifies code`position
    ensures code.Valid() && code.Contents() == old(code.Contents())
    ensures DecodeValue(code.Contents(), old(code.position), t) == Some(c)
    ensures code.position == old(code.position) + |OperandBytes(c)|
  {
    var len := Width(t);
    if t == String {
      len := ReadWord(code);
    }
    var raw := code.Read(len);
    c := LoadValue(Val(t, raw));
  }

  method ReadOperand(code: Code, t: Cmd) returns (c: Cmd)
    requires code.Valid() && DecodeOperand(code.Contents(), code.position, t).Some?
    modifies code`position
    ensures code.Valid() && code.Contents() == old(code.Contents())
    ensures DecodeOperand(code.Contents(), old(code.position), t) == Some(c)
    ensures code.position == old(code.position) + |OperandBytes(c)|
  {
    hide Word, DecodeValue;
    c := t;
    match t
    case LoadValue(v) => c := ReadValue(code, v.ty);
    case CreateGlobal(ty, _) => var n := ReadWord(code); c := CreateGlobal(ty, Num(n));
    case InitGlobal(ty, _) => var n := ReadWord(code); c := InitGlobal(ty, Num(n));
    case LoadFunc(_) => var n := ReadWord(code); c := LoadFunc(Num(n));
    case LoadNative(_) => var n := ReadWord(code); c := LoadNative(Num(n));
    case LoadGlobal(ty, _) => var n := ReadWord(code); c := LoadGlobal(ty, Num(n));
    case LoadLocal(ty, _) => var n := ReadWord(code); c := LoadLocal(ty, n);
    case LoadGlobalAddress(_) => var n := ReadWord(code); c := LoadGlobalAddress(Num(n));
    case LoadLocalAddress(_) => var n := ReadWord(code); c := LoadLocalAddress(n);
    case Jump(kind, _) => var n := ReadWord(code); c := Jump(kind, Off(ToSigned(n)));
    case _ =>
  }

  // CmdReader::GetNextCmd.
  method GetNextCmd(code: Code) returns (c: Cmd)
    requires code.Valid() && Decode(code.Contents(), code.position).Some?
    modifies code`position
    ensures code.Valid() && code.Contents() == old(code.Contents())
    ensures Decode(code.Contents(), old(code.position)) == Some(c)
    ensures code.position == old(code.position) + CmdSize(c)
  {
    hide DecodeId, DecodeOperand, OperandBytes, Encode;
    var id := code.Read(1);
    c := ReadOperand(code, DecodeId(id[0]).value);
  }

  // Each command of a stream is decoded at its own boundary, as it was written.
  lemma {:induction false} StreamDecodes(front: seq<byte>, cs: seq<Cmd>, back: seq<byte>, i: nat)
    requires i < |cs| && forall c <- cs :: Encodable(c)
    ensures Decode(front + EncodeAll(cs) + back, |front| + Size(cs[..i])) == Some(cs[i])
    decreases i
  {
    hide Decode, Encodable, Encode;
    var img, rest := front + EncodeAll(cs) + back, EncodeAll(cs[1..]);
    if i == 0 {
      assert img[|front|..|front| + CmdSize(cs[0])] == Encode(cs[0]);
      DecodeEncode(img, |front|, cs[0]);
    } else {
      assert img == (front + Encode(cs[0])) + rest + back;
      StreamDecodes(front + Encode(cs[0]), cs[1..], back, i - 1);
      assert cs[..i][0] == cs[0] && cs[..i][1..] == cs[1..][..i - 1];
    }
  }
}
