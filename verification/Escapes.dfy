/** What escapes stand for, by writing texts with them: a printer with its own table of letters, and a
    printer of hexadecimal escapes, both undone by the decoder. */
module Escapes {
  import opened Literals

  // The letters of the codes 7 to 13: alert, backspace, tab, line feed, vertical tab, form feed, return.
  const LETTERS := "abtnvfr"
  const DIGITS := "0123456789abcdef"
  const CAPITALS := "0123456789ABCDEF"

  // A character within quotes q: a control character by its letter, a backslash and the quote behind a
  // backslash, any other as it is.
  function Written(c: char, q: char): string {
    if 7 <= c as int <= 13 then [ESCAPE, LETTERS[c as int - 7]]
    else if c == ESCAPE || c == q then [ESCAPE, c]
    else [c]
  }

  function WrittenAll(s: string, q: char): string {
    if s == [] then [] else Written(s[0], q) + WrittenAll(s[1..], q)
  }

  predicate IsQuote(q: char) { q == '"' || q == '\'' }

  // One character is read back, whatever follows.
  lemma WrittenOne(c: char, q: char, rest: string)
    requires IsQuote(q)
    ensures Decode(Written(c, q) + rest) == Before(c, Decode(rest))
    ensures Body(Written(c, q) + rest, q) <==> Body(rest, q)
  {
    var w := Written(c, q) + rest;
    if 7 <= c as int <= 13 {
      var i := c as int - 7;
      assert i == 0 || i == 1 || i == 2 || i == 3 || i == 4 || i == 5 || i == 6;
      assert w[0] == ESCAPE && w[1] == LETTERS[i] && w[2..] == rest;
      assert LETTERS[i] != 'x' && Escaped(LETTERS[i]) == c;
    } else if c == ESCAPE || c == q {
      assert w[0] == ESCAPE && w[1] == c && w[2..] == rest;
    } else {
      assert w[0] == c && w[1..] == rest;
    }
  }

  // Every text can be written as a literal that stands for it.
  lemma {:induction false} ReadsBack(s: string, q: char)
    requires IsQuote(q)
    ensures Decode(WrittenAll(s, q)) == Text(s) && Body(WrittenAll(s, q), q)
  {
    hide Decode, Written;
    if s == [] {
      DecodeNone();
    } else {
      ReadsBack(s[1..], q);
      WrittenOne(s[0], q, WrittenAll(s[1..], q));
      assert [s[0]] + s[1..] == s;
    }
  }

  lemma DecodeNone()
    ensures Decode([]) == Text([])
  {
  }

  // The literal is a token of the lexer, so the parser of string literals gives the text back.
  method ReadWritten(s: string, q: char) returns (r: Decoded)
    requires IsQuote(q)
    ensures r == Text(s)
  {
    ReadsBack(s, q);
    var lit := [q] + WrittenAll(s, q) + [q];
    assert lit[1..|lit| - 1] == WrittenAll(s, q);
    r := DoParseString(lit);
  }

  lemma EscapeOne(c: char)
    requires c != 'x'
    ensures Decode([ESCAPE, c]) == Text([Escaped(c)])
  {
    hide Escaped;
    assert [ESCAPE, c][2..] == [];
    DecodeNone();
  }

  // Every lettered escape, with its code.
  lemma Lettered()
    ensures Decode("\\a") == Text([7 as char]) && Decode("\\b") == Text([8 as char])
    ensures Decode("\\t") == Text([9 as char]) && Decode("\\n") == Text([10 as char])
    ensures Decode("\\v") == Text([11 as char]) && Decode("\\f") == Text([12 as char])
    ensures Decode("\\r") == Text([13 as char]) && Decode("\\\\") == Text([92 as char])
  {
    EscapeOne('a');
    EscapeOne('b');
    EscapeOne('t');
    EscapeOne('n');
    EscapeOne('v');
    EscapeOne('f');
    EscapeOne('r');
    EscapeOne(ESCAPE);
    hide Decode;
    assert "\\a" == [ESCAPE, 'a'] && "\\b" == [ESCAPE, 'b'] && "\\t" == [ESCAPE, 't'] && "\\n" == [ESCAPE, 'n'];
    assert "\\v" == [ESCAPE, 'v'] && "\\f" == [ESCAPE, 'f'] && "\\r" == [ESCAPE, 'r'] && "\\\\" == [ESCAPE, '\\'];
  }

  // A backslash in front of any other character leaves it as it is.
  lemma Unlettered(c: char)
    requires c !in "abtnvfrx"
    ensures Decode([ESCAPE, c]) == Text([c])
  {
    EscapeOne(c);
    hide Decode;
    assert "abtnvfrx"[0] == 'a' && "abtnvfrx"[1] == 'b' && "abtnvfrx"[2] == 't' && "abtnvfrx"[3] == 'n';
    assert "abtnvfrx"[4] == 'v' && "abtnvfrx"[5] == 'f' && "abtnvfrx"[6] == 'r' && "abtnvfrx"[7] == 'x';
  }

  // ----- hexadecimal -----

  predicate Hex(c: char, n: nat) { n < 16 && (c == DIGITS[n] || c == CAPITALS[n]) }

  lemma HexIs(c: char, n: nat)
    requires Hex(c, n)
    ensures IsHex(c) && HexDigit(c) == n
  {
  }

  lemma PairRun(c: char, d: char, rest: string)
    requires IsHex(c) && IsHex(d) && (rest == [] || !IsHex(rest[0]))
    ensures HexRun([c, d] + rest) == 2
  {
    hide IsHex;
    var ds := [c, d] + rest;
    assert ds[1..] == [d] + rest && ds[1..][1..] == rest;
    assert HexRun(rest) == 0 && HexRun(ds[1..]) == 1;
  }

  lemma PairValue(c: char, d: char)
    requires IsHex(c) && IsHex(d)
    ensures AllHex([c, d]) && HexValue([c, d]) == 16 * HexDigit(c) + HexDigit(d)
  {
    hide HexDigit, IsHex;
    assert [c, d][..1] == [c] && [c][..0] == [];
    assert HexValue([]) == 0 && HexValue([c]) == HexDigit(c);
  }

  lemma DecodePair(b: string)
    requires |b| >= 4 && b[0] == ESCAPE && b[1] == 'x' && HexRun(b[2..]) == 2
    ensures AllHex(b[2..][..2])
    ensures var n := HexValue(b[2..][..2]);
      Decode(b) == if n > 127 then OutOfRange else Before(n as char, Decode(b[4..]))
  {
    hide HexRun, HexValue, Before, Escaped;
  }

  // Two digits, of either case, are the character of their number, up to 127; nothing above is one.
  lemma HexPair(c: char, d: char, high: nat, low: nat, rest: string)
    requires Hex(c, high) && Hex(d, low) && (rest == [] || !IsHex(rest[0]))
    ensures Decode([ESCAPE, 'x', c, d] + rest) ==
      if 16 * high + low <= 127 then Before((16 * high + low) as char, Decode(rest)) else OutOfRange
  {
    hide *;
    HexIs(c, high);
    HexIs(d, low);
    PairRun(c, d, rest);
    PairValue(c, d);
    var b := [ESCAPE, 'x', c, d] + rest;
    assert b[2..] == [c, d] + rest && b[2..][..2] == [c, d] && b[4..] == rest;
    DecodePair(b);
  }

  // A hexadecimal escape needs a digit.
  lemma NoDigit(rest: string)
    requires rest == [] || !IsHex(rest[0])
    ensures Decode([ESCAPE, 'x'] + rest) == EmptyHexValue
  {
    assert ([ESCAPE, 'x'] + rest)[2..] == rest;
  }

  predicate Ascii(s: string) { forall i :: 0 <= i < |s| ==> s[i] as int <= 127 }

  function HexWritten(s: string): string
    requires Ascii(s)
  {
    if s == [] then []
    else [ESCAPE, 'x', DIGITS[s[0] as int / 16], DIGITS[s[0] as int % 16]] + HexWritten(s[1..])
  }

  lemma HexOne(c: char, rest: string)
    requires c as int <= 127 && (rest == [] || !IsHex(rest[0]))
    ensures Decode([ESCAPE, 'x', DIGITS[c as int / 16], DIGITS[c as int % 16]] + rest) == Before(c, Decode(rest))
  {
    hide Decode, IsHex;
    var n := c as int;
    HexPair(DIGITS[n / 16], DIGITS[n % 16], n / 16, n % 16, rest);
  }

  // Every text of characters up to 127 can be written in hexadecimal.
  lemma {:induction false} HexReadsBack(s: string)
    requires Ascii(s)
    ensures Decode(HexWritten(s)) == Text(s)
  {
    if s == [] {
      DecodeNone();
    } else {
      HexReadsBack(s[1..]);
      HexStart(s[1..]);
      HexOne(s[0], HexWritten(s[1..]));
      hide Decode;
      assert [s[0]] + s[1..] == s;
    }
  }

  lemma HexStart(s: string)
    requires Ascii(s)
    ensures HexWritten(s) == [] || !IsHex(HexWritten(s)[0])
  {
  }
}
