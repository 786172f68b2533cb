/** String and char literals: the lexer's scan for the closing quote and the decoder of escapes, which
    rely on each other: every backslash the lexer lets into a token has a character behind it. */
module Literals {
  import opened Language

  const ESCAPE := '\\'
  const CHAR_MAX := 127

  datatype Decoded = Text(value: string) | EmptyHexValue | OutOfRange | MultipleChars

  // What may stand between quotes q: no bare quote, and every backslash takes the next character along.
  predicate Body(b: string, q: char) {
    b == [] ||
    (if b[0] == ESCAPE then |b| > 1 && Body(b[2..], q) else b[0] != q && Body(b[1..], q))
  }

  // A literal token: a body between two quotes.
  predicate Quoted(s: string) { |s| >= 2 && s[0] != ESCAPE && s[|s| - 1] == s[0] && Body(s[1..|s| - 1], s[0]) }

  // The length of the run of hexadecimal digits.
  predicate IsHex(c: char) { '0' <= c <= '9' || 'a' <= c <= 'f' || 'A' <= c <= 'F' }

  predicate AllHex(s: string) { forall i :: 0 <= i < |s| ==> IsHex(s[i]) }

  function HexRun(s: string): (n: nat)
    ensures n <= |s| && AllHex(s[..n])
    ensures n < |s| ==> !IsHex(s[n])
  {
    if s == [] || !IsHex(s[0]) then 0 else 1 + HexRun(s[1..])
  }

  function HexDigit(c: char): nat
    requires IsHex(c)
  {
    if c <= '9' then c as int - '0' as int
    else if c <= 'F' then c as int - 'A' as int + 10
    else c as int - 'a' as int + 10
  }

  function HexValue(s: string): nat
    requires AllHex(s)
  {
    if s == [] then 0 else 16 * HexValue(s[..|s| - 1]) + HexDigit(s[|s| - 1])
  }

  // The character an escape stands for.
  function Escaped(c: char): char {
    match c
    case 'a' => 7 as char
    case 'b' => 8 as char
    case 'f' => 12 as char
    case 'n' => '\n'
    case 'r' => '\r'
    case 't' => '\t'
    case 'v' => 11 as char
    case _ => c
  }

  // What a body stands for.
  function Decode(b: string): Decoded {
    if b == [] then Text([])
    else if b[0] != ESCAPE then Before(b[0], Decode(b[1..]))
    else if |b| == 1 then Text([])
    else if b[1] != 'x' then Before(Escaped(b[1]), Decode(b[2..]))
    else
      var n := HexRun(b[2..]);
      if n == 0 then EmptyHexValue
      else if HexValue(b[2..][..n]) > CHAR_MAX then OutOfRange
      else Before(HexValue(b[2..][..n]) as char, Decode(b[2 + n..]))
  }

  function Before(c: char, r: Decoded): Decoded { if r.Text? then Text([c] + r.value) else r }

  function Behind(s: string, r: Decoded): Decoded { if r.Text? then Text(s + r.value) else r }

  // Where the closing quote stands, from inside a literal.
  function Closing(text: string, i: nat, q: char): Option<nat>
    requires i <= |text|
    decreases |text| - i
  {
    if i == |text| then None
    else if text[i] == ESCAPE then if i + 1 < |text| then Closing(text, i + 2, q) else None
    else if text[i] == q then Some(i)
    else Closing(text, i + 1, q)
  }

  // The closing quote is the one that leaves a body in front of it.
  lemma {:induction false} ClosingIs(text: string, i: nat, q: char, k: nat)
    requires i <= |text| && q != ESCAPE
    ensures Closing(text, i, q) == Some(k) <==> i <= k < |text| && text[k] == q && Body(text[i..k], q)
    decreases |text| - i
  {
    if i < |text| {
      var n := if text[i] == ESCAPE then 2 else 1;
      if i + n <= |text| && (n == 2 || text[i] != q) {
        ClosingIs(text, i + n, q, k);
        if i + n <= k < |text| {
          assert text[i..k][n..] == text[i + n..k];
        }
      }
      if i < k < |text| {
        assert text[i..k][0] == text[i];
      }
    }
  }

  // One step of the scan.
  lemma ScanStep(text: string, i: nat, q: char)
    requires i < |text| && q != ESCAPE
    ensures text[i] == ESCAPE ==>
      Closing(text, i, q) == (if i + 1 < |text| then Closing(text, i + 2, q) else None)
    ensures text[i] != ESCAPE && text[i] != q ==> Closing(text, i, q) == Closing(text, i + 1, q)
    ensures text[i] == q ==> Closing(text, i, q) == Some(i)
  {
  }

  lemma ScanEnd(text: string, q: char)
    ensures Closing(text, |text|, q) == None
  {
  }

  lemma Found(text: string, start: nat, i: nat)
    requires start < i < |text| && text[start] != ESCAPE && Closing(text, start + 1, text[start]) == Some(i)
    ensures text[i] == text[start] && Quoted(text[start..i + 1])
  {
    hide Body, Closing;
    ClosingIs(text, start + 1, text[start], i);
    assert text[start..i + 1][1..|text[start..i + 1]| - 1] == text[start + 1..i];
  }

  // SimpleLexer::ParseStringToken: the token from its opening quote on, or the end of the file.
  method ParseStringToken(text: string, start: nat) returns (ok: bool, value: string)
    requires start < |text| && text[start] != ESCAPE
    ensures ok ==> start + |value| <= |text| && value == text[start..start + |value|] && Quoted(value)
    ensures !ok ==> forall end :: start <= end <= |text| ==> !Quoted(text[start..end])
  {
    hide *;
    var q := text[start];
    var i := start + 1;
    value := [q];
    while i < |text|
      invariant start < i <= |text| && value == text[start..i]
      invariant Closing(text, start + 1, q) == Closing(text, i, q)
    {
      ScanStep(text, i, q);
      if text[i] == ESCAPE {
        value := value + [text[i]];
        i := i + 1;
        if i == |text| {
          Unclosed(text, start);
          return false, value;
        }
        value := value + [text[i]];
        i := i + 1;
      } else if text[i] == q {
        value := value + [text[i]];
        Found(text, start, i);
        return true, value;
      } else {
        value := value + [text[i]];
        i := i + 1;
      }
    }
    ScanEnd(text, q);
    Unclosed(text, start);
    ok := false;
  }

  lemma Inside(text: string, start: nat, end: nat)
    requires start <= end <= |text| && Quoted(text[start..end])
    ensures start + 1 < end && text[end - 1] == text[start] && Body(text[start + 1..end - 1], text[start])
  {
    hide Body;
    var s := text[start..end];
    assert s[0] == text[start] && s[|s| - 1] == text[end - 1];
    assert |s| == end - start >= 2;
    var a, b := s[1..|s| - 1], text[start + 1..end - 1];
    assert |a| == |b| && forall k :: 0 <= k < |b| ==> a[k] == b[k];
    assert a == b;
  }

  lemma Unclosed(text: string, start: nat)
    requires start < |text| && text[start] != ESCAPE && Closing(text, start + 1, text[start]) == None
    ensures forall end :: start <= end <= |text| ==> !Quoted(text[start..end])
  {
    forall end | start <= end <= |text| && Quoted(text[start..end]) ensures false {
      Inside(text, start, end);
      ClosingIs(text, start + 1, text[start], end - 1);
    }
  }

  // The digits at the front of a string, as a character.
  function HexChar(s: string): Decoded {
    var n := HexRun(s);
    if n == 0 then EmptyHexValue
    else if HexValue(s[..n]) > CHAR_MAX then OutOfRange
    else Text([HexValue(s[..n]) as char])
  }

  // SimpleLitParser::ParseHexValue: the digits from the cursor on, which is left on the last of them.
  method ParseHexValue(str: string, start: nat, end: nat) returns (r: Decoded, at: nat)
    requires 1 <= start <= end <= |str|
    ensures r == HexChar(str[start..end]) && at == start + HexRun(str[start..end]) - 1
  {
    var length := 0;
    var i := start;
    while i != end
      invariant start <= i <= end && length == i - start
      invariant HexRun(str[start..end]) == length + HexRun(str[i..end])
      decreases end - i
    {
      if !IsHex(str[i]) {
        assert str[i..end][0] == str[i];
        assert HexRun(str[i..end]) == 0;
        break;
      }
      assert str[i..end][0] == str[i] && str[i..end][1..] == str[i + 1..end];
      length := length + 1;
      i := i + 1;
    }
    at := i - 1;
    if length == 0 {
      return EmptyHexValue, at;
    }
    ghost var d := str[start..end];
    assert HexRun(d) == length;
    assert d[..length] == str[start..start + length];
    var value := HexValue(str[start..start + length]);
    r := if value > CHAR_MAX then OutOfRange else Text([value as char]);
  }

  // One step of the loop: an ordinary character, and an escape that is not hexadecimal.
  lemma PlainStep(rest: string, value: string, q: char)
    requires rest != [] && rest[0] != ESCAPE && Body(rest, q)
    ensures Body(rest[1..], q) && Behind(value, Decode(rest)) == Behind(value + [rest[0]], Decode(rest[1..]))
  {
    hide Behind, Before;
    Moved(value, rest[0], Decode(rest[1..]));
  }

  lemma EscapeStep(rest: string, value: string, q: char)
    requires rest != [] && rest[0] == ESCAPE && Body(rest, q)
    ensures |rest| >= 2
    ensures rest[1] != 'x' ==> Body(rest[2..], q)
    ensures rest[1] != 'x' ==>
      Behind(value, Decode(rest)) == Behind(value + [Escaped(rest[1])], Decode(rest[2..]))
  {
    hide Behind, Before, HexRun;
    Moved(value, Escaped(rest[1]), Decode(rest[2..]));
  }

  lemma QuotedBody(str: string)
    requires Quoted(str)
    ensures |str| >= 2 && Body(str[1..|str| - 1], str[0])
  {
    hide Body;
  }

  // SimpleLitParser::DoParseString: of a token the lexer produced, it never reaches the closing quote
  // within an escape.
  method DoParseString(str: string) returns (r: Decoded)
    requires Quoted(str)
    ensures r == Decode(str[1..|str| - 1])
  {
    hide *;
    QuotedBody(str);
    var end := |str| - 1;
    var i := 1;
    var value: string := [];
    ghost var b := str[1..end];
    Started(b);
    while i != end
      invariant 1 <= i <= end && Body(str[i..end], str[0])
      invariant Decode(b) == Behind(value, Decode(str[i..end]))
      decreases end - i
    {
      var current := str[i];
      ghost var rest := str[i..end];
      assert rest[0] == current;
      if current == ESCAPE {
        EscapeStep(rest, value, str[0]);
        i := i + 1;
        assert i != end;
        current := str[i];
        assert rest[1] == current && rest[2..] == str[i + 1..end];
        if current == 'x' {
          i := i + 1;
          HexCases(rest, value, str[0]);
          var hex, at := ParseHexValue(str, i, end);
          if !hex.Text? {
            return hex;
          }
          assert rest[2..][at + 1 - i..] == str[at + 1..end];
          i := at;
          value := value + hex.value;
        } else {
          value := value + [Escaped(current)];
        }
      } else {
        assert rest[1..] == str[i + 1..end];
        PlainStep(rest, value, str[0]);
        value := value + [current];
      }
      i := i + 1;
    }
    assert str[end..end] == [];
    Stopped(value);
    r := Text(value);
  }

  lemma Started(b: string)
    ensures Decode(b) == Behind([], Decode(b))
  {
    hide Decode;
    var r := Decode(b);
    if r.Text? {
      assert [] + r.value == r.value;
    }
  }

  lemma Stopped(value: string)
    ensures Behind(value, Decode([])) == Text(value)
  {
    assert value + [] == value;
  }

  lemma Moved(s: string, c: char, r: Decoded)
    ensures Behind(s, Before(c, r)) == Behind(s + [c], r)
  {
    if r.Text? {
      assert s + ([c] + r.value) == s + [c] + r.value;
    }
  }

  // An escape of hexadecimal digits: the digits belong to the body, and decoding goes on behind them.
  lemma HexCases(rest: string, value: string, q: char)
    requires |rest| >= 2 && rest[0] == ESCAPE && rest[1] == 'x' && Body(rest, q)
    ensures var d := rest[2..];
      var hex, n := HexChar(d), HexRun(d);
      && n <= |d|
      && (!hex.Text? ==> Behind(value, Decode(rest)) == hex)
      && (hex.Text? ==> n > 0 && |hex.value| == 1)
      && (hex.Text? ==> Behind(value, Decode(rest)) == Behind(value + hex.value, Decode(d[n..])))
      && Body(d[n..], q)
  {
    var d := rest[2..];
    var n := HexRun(d);
    SkipDigits(d, n, q);
    assert rest[2 + n..] == d[n..];
    if n > 0 && HexValue(d[..n]) <= CHAR_MAX {
      Moved(value, HexValue(d[..n]) as char, Decode(d[n..]));
    }
  }

  lemma {:induction false} SkipDigits(d: string, n: nat, q: char)
    requires n <= |d| && Body(d, q) && AllHex(d[..n])
    ensures Body(d[n..], q)
    decreases n
  {
    if n > 0 {
      assert d[..n][0] == d[0];
      assert d[1..][..n - 1] == d[..n][1..];
      SkipDigits(d[1..], n - 1, q);
      assert d[1..][n - 1..] == d[n..];
    }
  }

  // SimpleLitParser::ParseChar: at most one character; none stands for the null character.
  method ParseChar(str: string) returns (r: Decoded)
    requires Quoted(str)
    ensures var d := Decode(str[1..|str| - 1]);
      r ==
        if !d.Text? then d
        else if |d.value| > 1 then MultipleChars
        else if d.value == [] then Text([0 as char])
        else d
  {
    r := DoParseString(str);
    if r.Text? {
      if |r.value| > 1 {
        return MultipleChars;
      } else if |r.value| == 0 {
        return Text([0 as char]);
      }
    }
  }

  // A literal has one extent: no proper prefix of a literal is a literal.
  lemma OneEnd(s: string, n: nat)
    requires Quoted(s) && n <= |s| && Quoted(s[..n])
    ensures n == |s|
  {
    if n < |s| {
      var b := s[1..|s| - 1];
      assert s[..n][1..n - 1] == b[..n - 2];
      QuoteInside(b, n - 2, s[0]);
    }
  }

  lemma {:induction false} QuoteInside(b: string, k: nat, q: char)
    requires q != ESCAPE && k < |b| && Body(b, q) && Body(b[..k], q)
    ensures b[k] != q
    decreases |b|
  {
    if k > 0 {
      var n := if b[0] == ESCAPE then 2 else 1;
      assert b[..k][0] == b[0] && b[..k][n..] == b[n..][..k - n];
      QuoteInside(b[n..], k - n, q);
    }
  }
}
