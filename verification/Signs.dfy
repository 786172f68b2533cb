/** The characters of prefix operators: each is printed right in front of its operand, and the lexer
    takes two of them for one longer operator where it can. */
module Signs {
  import opened Trees

  predicate SignChar(c: char) { c == '+' || c == '-' || c == '!' }

  // ParsePlusOrMinusToken and ParseOneOrTwoCharTokenWithSharedPrefix: the longer operator if the next
  // character allows it. The operators at the start of a text, and what is left of it.
  function Scan(s: string): (seq<Operator>, string) {
    if s == [] || !SignChar(s[0]) then ([], s)
    else
      var two := |s| > 1 && s[1] == (if s[0] == '!' then '=' else s[0]);
      var op := if s[0] == '+' then (if two then PreInc else Sum)
        else if s[0] == '-' then (if two then PreDec else Sub)
        else (if two then NotEqual else Not);
      var r := Scan(s[if two then 2 else 1..]);
      ([op] + r.0, r.1)
  }

  function SignText(op: Operator): string
    requires IsPrefix(op)
  {
    match op
    case Sub => "-"
    case Not => "!"
    case PreInc => "++"
    case PreDec => "--"
  }

  // A run of prefix operators, and the text of what they apply to.
  function RunText(ops: seq<Operator>, rest: string): string
    requires forall op <- ops :: IsPrefix(op)
  {
    if ops == [] then rest else SignText(ops[0]) + RunText(ops[1..], rest)
  }

  // No minus stands in front of a minus or of a decrement.
  predicate Apart(ops: seq<Operator>) {
    |ops| > 1 ==> !(ops[0].Sub? && (ops[1].Sub? || ops[1].PreDec?)) && Apart(ops[1..])
  }

  // One operator in front of a text that it does not join.
  lemma OneRead(op: Operator, tail: string)
    requires IsPrefix(op) && (tail == [] || tail[0] != '=')
    ensures var s, r := SignText(op) + tail, Scan(tail);
      if op.Sub? && tail != [] && tail[0] == '-' then Scan(s).0 != [] && Scan(s).0[0] == PreDec
      else Scan(s) == ([op] + r.0, r.1)
  {
    var s := SignText(op) + tail;
    assert s[|SignText(op)|..] == tail && s[0] == SignText(op)[0];
    match op
    case Sub => assert tail != [] ==> s[1] == tail[0];
    case Not => assert tail != [] ==> s[1] == tail[0];
    case PreInc => assert s[1] == '+';
    case PreDec => assert s[1] == '-';
  }

  lemma TailStart(ops: seq<Operator>, rest: string)
    requires forall op <- ops :: IsPrefix(op)
    ensures ops == [] ==> RunText(ops, rest) == rest
    ensures ops != [] ==>
      RunText(ops, rest) == SignText(ops[0]) + RunText(ops[1..], rest) && RunText(ops, rest) != [] &&
      RunText(ops, rest)[0] == (if ops[0].Not? then '!' else if ops[0].PreInc? then '+' else '-')
  {
    if ops != [] {
      assert IsPrefix(ops[0]);
      hide RunText;
    }
  }

  // The first operator of a run is read back unless its minus joins the one behind it.
  lemma FirstRead(ops: seq<Operator>, rest: string)
    requires ops != [] && forall op <- ops :: IsPrefix(op)
    requires rest == [] || (!SignChar(rest[0]) && rest[0] != '=')
    ensures var s, r := Scan(RunText(ops, rest)), Scan(RunText(ops[1..], rest));
      if |ops| > 1 && ops[0].Sub? && (ops[1].Sub? || ops[1].PreDec?) then s.0 != [] && s.0[0] == PreDec
      else s == ([ops[0]] + r.0, r.1)
  {
    hide Scan, RunText, SignText;
    TailStart(ops, rest);
    TailStart(ops[1..], rest);
    assert |ops| > 1 ==> ops[1] in ops;
    OneRead(ops[0], RunText(ops[1..], rest));
  }

  // A run of printed prefix operators is read back as those operators if and only if no minus in it stands
  // in front of a minus or of a decrement.
  lemma {:induction false} SignsRead(ops: seq<Operator>, rest: string)
    requires forall op <- ops :: IsPrefix(op)
    requires rest == [] || (!SignChar(rest[0]) && rest[0] != '=')
    ensures Scan(RunText(ops, rest)) == (ops, rest) <==> Apart(ops)
  {
    if ops == [] {
      TailStart(ops, rest);
    } else {
      FirstRead(ops, rest);
      SignsRead(ops[1..], rest);
      var r := Scan(RunText(ops[1..], rest));
      hide Scan, RunText;
      assert [ops[0]] + ops[1..] == ops;
      if [ops[0]] + r.0 == ops {
        assert r.0 == ([ops[0]] + r.0)[1..];
      }
    }
  }

  // `- -x` is printed as `--x`, which is a decrement.
  lemma MinusJoins()
    ensures RunText([Sub, Sub], "x") == "--x" && Scan("--x") == ([PreDec], "x")
  {
    var ops, s := [Sub, Sub], "--x";
    assert ops[1..] == [Sub] && [Sub][1..] == [];
    assert RunText([Sub], "x") == "-x" && RunText(ops, "x") == s;
    var none: seq<Operator> := [];
    assert s[2..] == "x" && Scan("x") == (none, "x");
    assert Scan(s) == ([PreDec] + none, "x");
    assert [PreDec] + none == [PreDec];
  }
}
