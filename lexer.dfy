/**
 * The assembler's tokenizer. The source keeps its state in globals (the
 * current input byte, the token, its value and its text); here the input is
 * a string, the current byte is the character at `pos`, and the globals are
 * the fields of a `Lexer` object. The specification functions below describe
 * one call of the tokenizer; the methods of `Lexer` are proved to follow them.
 */
module Lexer {
  import opened Base
  import opened Digits

  /** The CP/M end-of-file marker, which is also what a NUL byte reads as. */
  const EOF: char := 26 as char

  /** The current byte: the input character, or end of file past the end or at a NUL. */
  function CharAt(text: string, i: nat): char
  {
    if i < |text| && text[i] != 0 as char then text[i] else EOF
  }

  /** `consumeByte`: move to the next character; at the end of the input the position stays. */
  function Next(text: string, i: nat): (j: nat)
    requires i <= |text|
    ensures j <= |text| && (if i < |text| then j == i + 1 else j == i)
  {
    if i < |text| then i + 1 else i
  }

  datatype Token =
    | Punct(symbol: char)        // a one-character token; a line end reads as ';'
    | Identifier(name: string)
    | Number(value: u16)
    | Str(bytes: string)
    | EndOfFile

  /** A token, the position after it and the line number after it. */
  datatype Lexed = Lexed(token: Token, pos: nat, line: nat)

  /** The characters that are tokens on their own. */
  predicate IsPunct(c: char)
  {
    c in {'&', '^', '|', '~', '#', '(', ')', '*', '+', ',', '-', '.', '/', ':', ';', '<', '=', '>'}
  }

  predicate IsBlank(c: char) { c == ' ' || c == '\t' || c == '\r' }

  predicate IsIdentChar(c: char) { IsDigit(c) || IsAlpha(c) || c == '_' }

  // --- Specification of one tokenizer call ---------------------------------

  /** A comment runs up to, not including, the line end (or end of file). */
  function CommentEnd(text: string, i: nat): (r: nat)
    requires i <= |text|
    ensures i <= r <= |text|
    ensures CharAt(text, r) == '\n' || CharAt(text, r) == EOF
    ensures forall k :: i <= k < r ==> CharAt(text, k) != '\n' && CharAt(text, k) != EOF
    decreases |text| - i
  {
    if CharAt(text, i) == '\n' || CharAt(text, i) == EOF then i else CommentEnd(text, i + 1)
  }

  /** Blanks and backslash comments are skipped before a token. */
  function BlanksEnd(text: string, i: nat): (r: nat)
    requires i <= |text|
    ensures i <= r <= |text|
    ensures !IsBlank(CharAt(text, r)) && CharAt(text, r) != '\\'
    decreases |text| - i
  {
    var c := CharAt(text, i);
    if c == '\\' then BlanksEnd(text, CommentEnd(text, i + 1))
    else if IsBlank(c) then BlanksEnd(text, i + 1)
    else i
  }

  /** An identifier continues over letters, digits and underscores. */
  function IdentEnd(text: string, i: nat): (r: nat)
    requires i <= |text|
    ensures i <= r <= |text| && !IsIdentChar(CharAt(text, r))
    ensures forall k :: i <= k < r ==> IsIdentChar(CharAt(text, k))
    decreases |text| - i
  {
    if IsIdentChar(CharAt(text, i)) then IdentEnd(text, i + 1) else i
  }

  /** The base of a number starting at `i` and where its digits start: `0x`, `0b`, `0o` and `$` select 16, 2, 8 and 16. */
  function NumberStart(text: string, i: nat): (r: (nat, nat))
    requires i <= |text|
    ensures r.0 in {2, 8, 10, 16} && i <= r.1 <= |text|
  {
    if CharAt(text, i) == '0' then
      var c := CharAt(text, i + 1);
      if c == 'x' then (16, i + 2)
      else if c == 'b' then (2, i + 2)
      else if c == 'o' then (8, i + 2)
      else (10, i + 1)
    else if CharAt(text, i) == '$' then (16, i + 1)
    else (10, i)
  }

  /**
   * The digit loop: every hex character is a digit, accumulated into a
   * 16-bit value; a digit at or above the base is fatal.
   */
  function LexDigits(text: string, i: nat, base: nat, acc: u16): (r: Result<(u16, nat)>)
    requires i <= |text|
    ensures r.Success? ==> i <= r.value.1 <= |text| && !IsHexChar(CharAt(text, r.value.1))
    ensures r.Failure? ==> r.message == "invalid number"
    decreases |text| - i
  {
    var c := CharAt(text, i);
    if !IsHexChar(c) then Success((acc, i))
    else if HexValue(c) >= base then Failure("invalid number")
    else LexDigits(text, i + 1, base, (acc * base + HexValue(c)) % 0x1_0000)
  }

  /** The character a backslash escape stands for; anything else is a bad escape. */
  function Escape(c: char): (r: Option<char>)
    ensures r.Some? <==> c in {'n', 'r', 't', '\\'}
    ensures r.Some? ==> r.value in {10 as char, 13 as char, 9 as char, '\\'}
  {
    if c == 'n' then Some(10 as char)
    else if c == 'r' then Some(13 as char)
    else if c == 't' then Some(9 as char)
    else if c == '\\' then Some('\\')
    else None
  }

  /** The rest of a string constant after its opening quote, accumulated into `acc`. */
  function LexString(text: string, i: nat, acc: string): (r: Result<(string, nat)>)
    requires i <= |text|
    ensures r.Success? ==> i < r.value.1 <= |text|
    decreases |text| - i
  {
    if i == |text| then Failure("unterminated string constant")
    else
      var c := CharAt(text, i);
      if c == '"' then Success((acc, i + 1))
      else if c == '\n' then Failure("unterminated string constant")
      else if c == '\\' then
        match Escape(CharAt(text, i + 1))
        case None => Failure("bad escape")
        case Some(e) => LexString(text, i + 2, acc + [e])
      else LexString(text, i + 1, acc + [c])
  }

  /**
   * A character constant after its opening quote: the character or escape,
   * then one more character skipped (the closing quote is not checked). The
   * only failure is an escape that is not one of the four.
   */
  function LexCharacter(text: string, i: nat): (r: Result<(u16, nat)>)
    requires i <= |text|
    ensures r.Success? ==> i <= r.value.1 <= |text|
    ensures r.Failure? <==> CharAt(text, i) == '\\' && Escape(CharAt(text, i + 1)).None?
    ensures r.Failure? ==> r.message == "bad escape"
  {
    var c := CharAt(text, i);
    if c == '\\' then
      var j := Next(text, i);
      match Escape(CharAt(text, j))
      case None => Failure("bad escape")
      case Some(e) => Success(((e as int) % 0x1_0000, Next(text, Next(text, j))))
    else Success(((c as int) % 0x1_0000, Next(text, Next(text, i))))
  }

  /** A number token starting at `i`: base prefix, then the digit loop from zero. */
  function LexNumber(text: string, i: nat): (r: Result<(u16, nat)>)
    requires i <= |text|
    ensures r.Success? ==> i <= r.value.1 <= |text|
  {
    var (base, start) := NumberStart(text, i);
    LexDigits(text, start, base, 0)
  }

  /** The token at `i`, where blanks and comments have been skipped. */
  function LexAt(text: string, i: nat, line: nat): (r: Result<Lexed>)
    requires i <= |text|
    ensures r.Success? ==> r.value.pos <= |text| && r.value.line in {line, line + 1}
  {
    var c := CharAt(text, i);
    if c == '\n' then Success(Lexed(Punct(';'), i + 1, line + 1))
    else if c == EOF then Success(Lexed(EndOfFile, Next(text, i), line))
    else if IsPunct(c) then Success(Lexed(Punct(c), i + 1, line))
    else if IsAlpha(c) then
      var j := IdentEnd(text, i + 1);
      Success(Lexed(Identifier(text[i..j]), j, line))
    else if IsDigit(c) || c == '$' then
      match LexNumber(text, i)
      case Failure(m) => Failure(m)
      case Success((v, j)) => Success(Lexed(Number(v), j, line))
    else if c == '"' then
      match LexString(text, i + 1, [])
      case Failure(m) => Failure(m)
      case Success((s, j)) => Success(Lexed(Str(s), j, line))
    else if c == '\'' then
      match LexCharacter(text, i + 1)
      case Failure(m) => Failure(m)
      case Success((v, j)) => Success(Lexed(Number(v), j, line))
    else Failure("bad parse")
  }

  /** One call of `consumeToken` at position `pos` on line `line`; at end of file nothing is consumed. */
  function Lex(text: string, pos: nat, line: nat): (r: Result<Lexed>)
    requires pos <= |text|
    ensures r.Success? ==> pos <= r.value.pos <= |text| && r.value.line in {line, line + 1}
  {
    if CharAt(text, pos) == EOF then Success(Lexed(EndOfFile, pos, line))
    else LexAt(text, BlanksEnd(text, pos), line)
  }

  // --- Properties of the specification -------------------------------------

  /** `s` occurs in `text` at position `i`, and every character of it reads as itself. */
  predicate At(text: string, i: nat, s: string)
  {
    i + |s| <= |text| && text[i..i + |s|] == s && forall k :: 0 <= k < |s| ==> s[k] != 0 as char
  }

  /** Both parts of a concatenation occur one after the other. */
  lemma AtSplit(text: string, i: nat, a: string, b: string)
    requires At(text, i, a + b)
    ensures At(text, i, a) && At(text, i + |a|, b)
  {
    var w := a + b;
    assert text[i..i + |a|] == text[i..i + |w|][..|a|];
    assert text[i + |a|..i + |a| + |b|] == text[i..i + |w|][|a|..];
    assert forall k :: 0 <= k < |a| ==> a[k] == w[k];
    assert forall k :: 0 <= k < |b| ==> b[k] == w[|a| + k];
  }

  /** The mod-65536 accumulation agrees with the exact value reduced at the end. */
  lemma HornerStepMod(h: nat, base: nat, d: nat)
    ensures ((h % 0x1_0000) * base + d) % 0x1_0000 == (h * base + d) % 0x1_0000
  {
    var q := h / 0x1_0000;
    assert h == q * 0x1_0000 + h % 0x1_0000;
    assert h * base + d == (h % 0x1_0000) * base + d + (q * base) * 0x1_0000;
  }

  /**
   * A run of digits of the base followed by a non-digit is read as the
   * value of all digits so far, reduced to 16 bits.
   */
  lemma {:induction false} LexDigitsValue(text: string, i: nat, base: nat, pre: string, s: string)
    requires i <= |text| && At(text, i, s) && DigitsIn(pre, base) && DigitsIn(pre + s, base)
    requires !IsHexChar(CharAt(text, i + |s|))
    ensures LexDigits(text, i, base, Value(pre, base) % 0x1_0000) == Success((Value(pre + s, base) % 0x1_0000, i + |s|))
    decreases |s|
  {
    if s == [] {
      assert pre + s == pre;
    } else {
      assert s[0] == text[i..i + |s|][0] == text[i];
      assert CharAt(text, i) == s[0];
      assert (pre + s)[|pre|] == s[0];
      var pre' := pre + [s[0]];
      assert pre' + s[1..] == pre + s;
      assert text[i + 1..i + 1 + |s[1..]|] == text[i..i + |s|][1..];
      ValueSnoc(pre, s[0], base);
      HornerStepMod(Value(pre, base), base, HexValue(s[0]));
      LexDigitsValue(text, i + 1, base, pre', s[1..]);
    }
  }

  /** A digit at or above the base inside the run makes the number invalid. */
  lemma {:induction false} LexDigitsInvalid(text: string, i: nat, base: nat, acc: u16, s: string, k: nat)
    requires i <= |text| && At(text, i, s) && AllHex(s)
    requires k < |s| && HexValue(s[k]) >= base
    ensures LexDigits(text, i, base, acc) == Failure("invalid number")
    decreases k
  {
    assert s[0] == text[i..i + |s|][0] == text[i];
    if k > 0 && HexValue(s[0]) < base {
      assert text[i + 1..i + 1 + |s[1..]|] == text[i..i + |s|][1..];
      LexDigitsInvalid(text, i + 1, base, (acc * base + HexValue(s[0])) % 0x1_0000, s[1..], k - 1);
    }
  }

  /** The prefix that selects each base (decimal numbers have none). */
  function BasePrefix(base: nat): string
  {
    if base == 16 then "0x" else if base == 2 then "0b" else if base == 8 then "0o" else ""
  }

  /**
   * A number written with the prefix of its base (`$` also selects 16) is
   * read as its digits' value modulo 2^16, and the token ends after the last
   * digit. A decimal number must not start with 0, which would be read as a
   * prefix.
   */
  lemma {:induction false} NumberValue(text: string, i: nat, prefix: string, base: nat, s: string)
    requires base in {2, 8, 10, 16}
    requires prefix == BasePrefix(base) || (base == 16 && prefix == "$")
    requires base == 10 ==> |s| > 0 && s[0] != '0'
    requires At(text, i, prefix + s) && DigitsIn(s, base)
    requires !IsHexChar(CharAt(text, i + |prefix| + |s|))
    ensures LexNumber(text, i) == Success((Value(s, base) % 0x1_0000, i + |prefix| + |s|))
  {
    AtSplit(text, i, prefix, s);
    if base == 10 {
      assert text[i] == text[i..i + |s|][0] == s[0];
    }
    NumberStartAt(text, i, prefix, base);
    DigitRunValue(text, i + |prefix|, base, s);
  }

  /** The digit loop started from zero reads a run of digits as their value modulo 2^16. */
  lemma {:induction false} DigitRunValue(text: string, j: nat, base: nat, s: string)
    requires At(text, j, s) && DigitsIn(s, base)
    requires !IsHexChar(CharAt(text, j + |s|))
    ensures LexDigits(text, j, base, 0) == Success((Value(s, base) % 0x1_0000, j + |s|))
  {
    assert [] + s == s;
    assert Value([], base) == 0;
    assert DigitsIn([], base);
    assert DigitsIn([] + s, base);
    LexDigitsValue(text, j, base, [], s);
    assert LexDigits(text, j, base, Value([], base) % 0x1_0000) == Success((Value([] + s, base) % 0x1_0000, j + |s|));
  }

  /** The prefix decides the base, and the digits start right after it. */
  lemma NumberStartAt(text: string, i: nat, prefix: string, base: nat)
    requires base in {2, 8, 10, 16}
    requires prefix == BasePrefix(base) || (base == 16 && prefix == "$")
    requires i + |prefix| <= |text| && text[i..i + |prefix|] == prefix
    requires base == 10 ==> i < |text| && '1' <= text[i] <= '9'
    ensures NumberStart(text, i) == (base, i + |prefix|)
  {
    if prefix != "" {
      assert text[i] == text[i..i + |prefix|][0] == prefix[0];
    }
    if |prefix| == 2 {
      assert text[i + 1] == text[i..i + |prefix|][1] == prefix[1];
    }
  }

  /** The listing's hex form, written with a `$`, reads back as the same 16-bit value. */
  lemma HexRoundTrip(v: u16, rest: string, line: nat)
    requires |rest| > 0 && !IsHexChar(rest[0]) && rest[0] != 0 as char
    ensures Lex("$" + Hex16(v) + rest, 0, line) == Success(Lexed(Number(v), 5, line))
  {
    var text := "$" + Hex16(v) + rest;
    Hex16Value(v);
    assert text[0..5] == "$" + Hex16(v);
    assert CharAt(text, 5) == rest[0];
    assert BlanksEnd(text, 0) == 0;
    NumberValue(text, 0, "$", 16, Hex16(v));
  }

  /** The characters a backslash escape can stand for, and the letter that writes each. */
  function EscapeLetter(c: char): (l: char)
  {
    if c == 10 as char then 'n' else if c == 13 as char then 'r' else if c == 9 as char then 't' else '\\'
  }

  /** Every escape letter is accepted, and exactly those four characters are produced. */
  lemma EscapeRoundTrip(c: char)
    ensures Escape(c).Some? <==> c in {'n', 'r', 't', '\\'}
    ensures Escape(c).Some? ==> EscapeLetter(Escape(c).value) == c
  {
  }

  /** How a string constant writes one character: the characters escapes produce are written as escapes. */
  function QuotedChar(c: char): (q: string)
    ensures 1 <= |q| <= 2
  {
    if c in {10 as char, 13 as char, 9 as char, '\\'} then ['\\', EscapeLetter(c)] else [c]
  }

  /** How a string constant writes `s`. */
  function Quoted(s: string): (q: string)
  {
    if s == [] then [] else QuotedChar(s[0]) + Quoted(s[1..])
  }

  /** Reading the written form of one character gives the character back. */
  lemma StringStep(text: string, i: nat, acc: string, c: char)
    requires At(text, i, QuotedChar(c)) && c != '"' && c != 0 as char
    ensures LexString(text, i, acc) == LexString(text, i + |QuotedChar(c)|, acc + [c])
  {
    var q := QuotedChar(c);
    assert text[i] == text[i..i + |q|][0] == q[0];
    if |q| == 2 {
      assert text[i + 1] == text[i..i + |q|][1] == q[1];
      assert Escape(EscapeLetter(c)) == Some(c);
    }
  }

  /**
   * A character constant can hold any byte but NUL: written as a string
   * constant would write it and followed by the closing quote, it reads back
   * as its own code, and the token ends after the quote.
   */
  lemma CharRoundTrip(text: string, i: nat, c: char)
    requires At(text, i, QuotedChar(c) + "'") && c != 0 as char && c as int < 256
    ensures LexCharacter(text, i) == Success((c as int, i + |QuotedChar(c)| + 1))
  {
    var w := QuotedChar(c) + "'";
    assert text[i] == text[i..i + |w|][0] == w[0];
    assert text[i + 1] == text[i..i + |w|][1] == w[1];
    if |QuotedChar(c)| == 2 {
      assert text[i + 2] == text[i..i + |w|][2] == w[2];
      assert Escape(EscapeLetter(c)) == Some(c);
    }
  }

  /** Moving the first character of `s` onto `acc` keeps the concatenation. */
  lemma AppendHead(acc: string, s: string)
    requires s != []
    ensures acc + [s[0]] + s[1..] == acc + s
  {
    assert [s[0]] + s[1..] == s;
  }

  /** A string constant can hold any text without quotes and NULs: quoting and reading back gives it unchanged. */
  lemma {:induction false} StringRoundTrip(text: string, i: nat, acc: string, s: string)
    requires i <= |text| && At(text, i, Quoted(s) + "\"")
    requires forall k :: 0 <= k < |s| ==> s[k] != '"' && s[k] != 0 as char
    ensures LexString(text, i, acc) == Success((acc + s, i + |Quoted(s)| + 1))
    decreases |s|
  {
    var w := Quoted(s) + "\"";
    if s == [] {
      assert text[i] == text[i..i + |w|][0] == w[0];
      assert acc + s == acc;
    } else {
      var c := s[0];
      var rest := Quoted(s[1..]) + "\"";
      assert w == QuotedChar(c) + rest;
      AtSplit(text, i, QuotedChar(c), rest);
      var tail := s[1..];
      assert forall k :: 0 <= k < |tail| ==> tail[k] == s[k + 1];
      calc {
        LexString(text, i, acc);
        { StringStep(text, i, acc, c); }
        LexString(text, i + |QuotedChar(c)|, acc + [c]);
        { StringRoundTrip(text, i + |QuotedChar(c)|, acc + [c], tail); }
        Success((acc + [c] + tail, i + |QuotedChar(c)| + |Quoted(tail)| + 1));
        { AppendHead(acc, s); }
        Success((acc + s, i + |Quoted(s)| + 1));
      }
    }
  }

  // --- The tokenizer state --------------------------------------------------

  class Lexer {
    /** The whole input. */
    const text: string
    /** The position of the current byte. */
    var pos: nat
    var line: nat
    var token: Token

    ghost predicate Valid()
      reads this
    {
      pos <= |text|
    }

    constructor (input: string)
      ensures Valid() && text == input && pos == 0 && line == 1 && token == EndOfFile
    {
      text := input;
      pos := 0;
      line := 1;
      token := EndOfFile;
    }

    /** Skip blanks and comments. */
    method SkipBlanks()
      requires Valid()
      modifies this`pos
      ensures Valid() && pos == BlanksEnd(text, old(pos))
    {
      while true
        invariant Valid() && BlanksEnd(text, pos) == BlanksEnd(text, old(pos))
        decreases |text| - pos
      {
        var c := CharAt(text, pos);
        if c == '\\' {
          pos := pos + 1;
          ghost var start := pos;
          while CharAt(text, pos) != '\n' && CharAt(text, pos) != EOF
            invariant Valid() && start <= pos && CommentEnd(text, pos) == CommentEnd(text, start)
            decreases |text| - pos
          {
            pos := pos + 1;
          }
        } else if IsBlank(c) {
          pos := pos + 1;
        } else {
          return;
        }
      }
    }

    /** The digit loop of a number, accumulating its value. */
    method ScanDigits(base: nat) returns (st: Status, value: u16)
      requires Valid()
      modifies this`pos
      ensures Valid()
      ensures LexDigits(text, old(pos), base, 0).Success? ==>
        st == Ok && (value, pos) == LexDigits(text, old(pos), base, 0).value
      ensures LexDigits(text, old(pos), base, 0).Failure? ==> st == Fatal("invalid number")
    {
      value := 0;
      while IsHexChar(CharAt(text, pos))
        invariant Valid() && LexDigits(text, pos, base, value) == LexDigits(text, old(pos), base, 0)
        decreases |text| - pos
      {
        var c := HexValue(CharAt(text, pos));
        if c >= base {
          return Fatal("invalid number"), value;
        }
        value := (value * base + c) % 0x1_0000;
        pos := pos + 1;
      }
      st := Ok;
    }

    /** The body of a string constant, after its opening quote. */
    method ScanString() returns (st: Status, s: string)
      requires Valid()
      modifies this`pos
      ensures Valid()
      ensures LexString(text, old(pos), []).Success? ==>
        st == Ok && (s, pos) == LexString(text, old(pos), []).value
      ensures LexString(text, old(pos), []).Failure? ==>
        st == Fatal(LexString(text, old(pos), []).message)
    {
      s := [];
      while true
        invariant Valid() && LexString(text, pos, s) == LexString(text, old(pos), [])
        decreases |text| - pos
      {
        if pos == |text| {
          return Fatal("unterminated string constant"), s;
        }
        var c := CharAt(text, pos);
        pos := pos + 1;
        if c == '"' {
          return Ok, s;
        }
        if c == '\n' {
          return Fatal("unterminated string constant"), s;
        }
        if c == '\\' {
          var e := Escape(CharAt(text, pos));
          if e.None? {
            return Fatal("bad escape"), s;
          }
          c := e.value;
          pos := pos + 1;
        }
        s := s + [c];
      }
    }

    /** A number: its base prefix, then the digit loop. */
    method ScanNumber() returns (st: Status, value: u16)
      requires Valid()
      modifies this`pos
      ensures Valid()
      ensures LexNumber(text, old(pos)).Success? ==> st == Ok && (value, pos) == LexNumber(text, old(pos)).value
      ensures LexNumber(text, old(pos)).Failure? ==> st == Fatal(LexNumber(text, old(pos)).message)
    {
      var base := 10;
      var c := CharAt(text, pos);
      if c == '0' {
        pos := Next(text, pos);
        var d := CharAt(text, pos);
        if d == 'x' {
          base := 16;
          pos := Next(text, pos);
        } else if d == 'b' {
          base := 2;
          pos := Next(text, pos);
        } else if d == 'o' {
          base := 8;
          pos := Next(text, pos);
        }
      } else if c == '$' {
        pos := Next(text, pos);
        base := 16;
      }
      assert NumberStart(text, old(pos)) == (base, pos);
      st, value := ScanDigits(base);
    }

    /** An identifier starting with the letter at `pos`. */
    method ScanIdentifier() returns (name: string)
      requires Valid() && pos < |text|
      modifies this`pos
      ensures Valid() && pos == IdentEnd(text, old(pos) + 1) && name == text[old(pos)..pos]
    {
      var start := pos;
      pos := pos + 1;
      while IsIdentChar(CharAt(text, pos))
        invariant Valid() && start < pos && IdentEnd(text, pos) == IdentEnd(text, start + 1)
        decreases |text| - pos
      {
        pos := pos + 1;
      }
      name := text[start..pos];
    }

    /** A character constant after its opening quote. */
    method ScanCharacter() returns (st: Status, value: u16)
      requires Valid()
      modifies this`pos
      ensures Valid()
      ensures LexCharacter(text, old(pos)).Success? ==> st == Ok && (value, pos) == LexCharacter(text, old(pos)).value
      ensures LexCharacter(text, old(pos)).Failure? ==> st == Fatal(LexCharacter(text, old(pos)).message)
    {
      var v := CharAt(text, pos);
      if v == '\\' {
        pos := Next(text, pos);
        var e := Escape(CharAt(text, pos));
        if e.None? {
          return Fatal("bad escape"), 0;
        }
        v := e.value;
      }
      pos := Next(text, Next(text, pos));
      return Ok, (v as int) % 0x1_0000;
    }

    /** The token at the current position, where blanks and comments have been skipped. */
    method ScanToken() returns (st: Status)
      requires Valid()
      modifies this
      ensures Valid()
      ensures LexAt(text, old(pos), old(line)).Success? ==>
        st == Ok && Lexed(token, pos, line) == LexAt(text, old(pos), old(line)).value
      ensures LexAt(text, old(pos), old(line)).Failure? ==>
        st == Fatal(LexAt(text, old(pos), old(line)).message)
    {
      var c := CharAt(text, pos);
      st := Ok;
      if c == '\n' {
        line := line + 1;
        token := Punct(';');
        pos := pos + 1;
      } else if c == EOF {
        token := EndOfFile;
        pos := Next(text, pos);
      } else if IsPunct(c) {
        token := Punct(c);
        pos := pos + 1;
      } else if IsAlpha(c) {
        var name := ScanIdentifier();
        token := Identifier(name);
      } else if IsDigit(c) || c == '$' {
        var value;
        st, value := ScanNumber();
        token := Number(value);
      } else if c == '"' {
        pos := pos + 1;
        var s;
        st, s := ScanString();
        token := Str(s);
      } else if c == '\'' {
        pos := pos + 1;
        var value;
        st, value := ScanCharacter();
        token := Number(value);
      } else {
        st := Fatal("bad parse");
      }
    }

    /** `consumeToken`: read the next token, or report why the input is malformed. */
    method ConsumeToken() returns (st: Status)
      requires Valid()
      modifies this
      ensures Valid()
      ensures Lex(text, old(pos), old(line)).Success? ==>
        st == Ok && Lexed(token, pos, line) == Lex(text, old(pos), old(line)).value
      ensures Lex(text, old(pos), old(line)).Failure? ==>
        st == Fatal(Lex(text, old(pos), old(line)).message)
    {
      if CharAt(text, pos) == EOF {
        token := EndOfFile;
        return Ok;
      }
      SkipBlanks();
      st := ScanToken();
    }
  }
}
