/** The character-level terminals of every generated grammar: numbers and strings as they are spelled. */
module Lexemes {
  import opened Bytes

  datatype Lex =
    | Chars(chars: string)
    | Except(chars: string)
    | Span(lo: char, hi: char)
    | Then(first: Lex, rest: Lex)
    | Either(left: Lex, right: Lex)
    | Maybe(body: Lex)
    | Many(body: Lex)

  ghost predicate Accepts(e: Lex, s: string)
    decreases e, |s|
  {
    match e
    case Chars(cs) => |s| == 1 && s[0] in cs
    case Except(cs) => |s| == 1 && s[0] !in cs
    case Span(lo, hi) => |s| == 1 && lo <= s[0] <= hi
    case Then(a, b) => exists i :: 0 <= i <= |s| && Accepts(a, s[..i]) && Accepts(b, s[i..])
    case Either(a, b) => Accepts(a, s) || Accepts(b, s)
    case Maybe(body) => s == "" || Accepts(body, s)
    case Many(body) => s == "" || exists i :: 0 < i <= |s| && Accepts(body, s[..i]) && Accepts(e, s[i..])
  }

  // ----- the terminals -----

  const DIGIT := Span('0', '9')
  const DIGITS := Then(DIGIT, Many(DIGIT))
  const NATURAL := Either(Chars("0"), Then(Span('1', '9'), Many(DIGIT)))
  const INTEGER := Then(Maybe(Chars("-")), NATURAL)
  const FRACTION := Then(Chars("."), DIGITS)
  const EXPONENT := Then(Chars("eE"), Then(Maybe(Chars("-+")), DIGITS))
  const NUMBER := Then(INTEGER, Then(Maybe(FRACTION), Maybe(EXPONENT)))

  const HEX := Either(Span('0', '9'), Either(Span('a', 'f'), Span('A', 'F')))
  const UNICODE := Then(Chars("u"), Then(HEX, Then(HEX, Then(HEX, HEX))))
  const ESCAPE := Then(Chars("\\"), Either(Chars("\"\\/bfnrt"), UNICODE))
  const CHAR := Either(Except("\"\\"), ESCAPE)
  const STRING := Then(Chars("\""), Then(Many(CHAR), Chars("\"")))

  // ----- what they are meant to accept -----

  predicate Digits(s: string)
  {
    forall i :: 0 <= i < |s| ==> '0' <= s[i] <= '9'
  }

  predicate NaturalText(s: string)
  {
    s == "0" || (|s| >= 1 && '1' <= s[0] <= '9' && Digits(s[1..]))
  }

  predicate IntegerText(s: string)
  {
    NaturalText(s) || (|s| >= 1 && s[0] == '-' && NaturalText(s[1..]))
  }

  predicate FractionText(s: string)
  {
    s == "" || (|s| >= 2 && s[0] == '.' && Digits(s[1..]))
  }

  predicate ExponentText(s: string)
  {
    s == ""
    || (|s| >= 2 && s[0] in "eE" && Digits(s[1..]))
    || (|s| >= 3 && s[0] in "eE" && s[1] in "+-" && Digits(s[2..]))
  }

  ghost predicate NumberText(s: string)
  {
    exists i, j :: 0 <= i <= j <= |s| && IntegerText(s[..i]) && FractionText(s[i..j]) && ExponentText(s[j..])
  }

  predicate HexDigit(c: char)
  {
    '0' <= c <= '9' || 'a' <= c <= 'f' || 'A' <= c <= 'F'
  }

  /** The inside of a string, read from the left: plain characters and escapes. */
  predicate Scans(s: string)
  {
    if s == "" then true
    else if s[0] == '\"' then false
    else if s[0] != '\\' then Scans(s[1..])
    else if |s| < 2 then false
    else if s[1] in "\"\\/bfnrt" then Scans(s[2..])
    else
      |s| >= 6 && s[1] == 'u' && HexDigit(s[2]) && HexDigit(s[3]) && HexDigit(s[4]) && HexDigit(s[5]) && Scans(s[6..])
  }

  /** A quoted string: quotes around an inside that scans to its end. */
  predicate StringText(s: string)
  {
    |s| >= 2 && s[0] == '\"' && s[|s| - 1] == '\"' && Scans(s[1..|s| - 1])
  }

  // ----- one character at a time -----

  predicate Single(e: Lex)
  {
    e.Chars? || e.Except? || e.Span?
  }

  lemma {:induction false} ThenSingle(a: Lex, b: Lex, s: string)
    requires Single(a)
    ensures Accepts(Then(a, b), s) <==> s != "" && Accepts(a, s[..1]) && Accepts(b, s[1..])
  {
    if Accepts(Then(a, b), s) {
      var i :| 0 <= i <= |s| && Accepts(a, s[..i]) && Accepts(b, s[i..]);
      assert |s[..i]| == 1;
    }
  }

  lemma {:induction false} ThenMaybeSingle(a: Lex, b: Lex, s: string)
    requires Single(a)
    ensures Accepts(Then(Maybe(a), b), s) <==> Accepts(b, s) || (s != "" && Accepts(a, s[..1]) && Accepts(b, s[1..]))
  {
    if Accepts(Then(Maybe(a), b), s) {
      var i :| 0 <= i <= |s| && Accepts(Maybe(a), s[..i]) && Accepts(b, s[i..]);
      if s[..i] == "" {
        assert s[i..] == s;
      } else {
        assert Accepts(a, s[..i]);
        assert i == 1;
      }
    }
    if Accepts(b, s) {
      assert s[..0] == "" && s[0..] == s;
      assert Accepts(Maybe(a), s[..0]);
    }
    if s != "" && Accepts(a, s[..1]) && Accepts(b, s[1..]) {
      assert Accepts(Maybe(a), s[..1]);
    }
  }

  lemma {:induction false} ManySingle(a: Lex, s: string)
    requires Single(a)
    ensures Accepts(Many(a), s) <==> s == "" || (Accepts(a, s[..1]) && Accepts(Many(a), s[1..]))
  {
    if s != "" && Accepts(Many(a), s) {
      var i :| 0 < i <= |s| && Accepts(a, s[..i]) && Accepts(Many(a), s[i..]);
      assert |s[..i]| == 1;
    }
  }

  // ----- numbers -----

  lemma {:induction false} ManyDigits(s: string)
    ensures Accepts(Many(DIGIT), s) <==> Digits(s)
    decreases |s|
  {
    ManySingle(DIGIT, s);
    if s != "" {
      ManyDigits(s[1..]);
      assert Digits(s) <==> '0' <= s[0] <= '9' && Digits(s[1..]) by {
        assert Digits(s[1..]) ==> forall i :: 1 <= i < |s| ==> s[i] == s[1..][i - 1];
      }
    }
  }

  lemma {:induction false} SomeDigits(s: string)
    ensures Accepts(DIGITS, s) <==> |s| >= 1 && Digits(s)
  {
    ThenSingle(DIGIT, Many(DIGIT), s);
    if s != "" {
      ManyDigits(s[1..]);
      assert Digits(s) <==> '0' <= s[0] <= '9' && Digits(s[1..]) by {
        assert Digits(s[1..]) ==> forall i :: 1 <= i < |s| ==> s[i] == s[1..][i - 1];
      }
    }
  }

  lemma {:induction false} NaturalExact(s: string)
    ensures Accepts(NATURAL, s) <==> NaturalText(s)
  {
    ThenSingle(Span('1', '9'), Many(DIGIT), s);
    if s != "" { ManyDigits(s[1..]); }
    assert Accepts(Chars("0"), s) <==> s == "0";
  }

  /** `integer` accepts exactly the integers without leading zeros. */
  lemma {:induction false} IntegerExact(s: string)
    ensures Accepts(INTEGER, s) <==> IntegerText(s)
  {
    ThenMaybeSingle(Chars("-"), NATURAL, s);
    NaturalExact(s);
    if s != "" { NaturalExact(s[1..]); }
  }

  lemma {:induction false} FractionExact(s: string)
    ensures Accepts(Maybe(FRACTION), s) <==> FractionText(s)
  {
    ThenSingle(Chars("."), DIGITS, s);
    if s != "" { SomeDigits(s[1..]); }
  }

  lemma {:induction false} ExponentExact(s: string)
    ensures Accepts(Maybe(EXPONENT), s) <==> ExponentText(s)
  {
    hide Digits;
    ThenSingle(Chars("eE"), Then(Maybe(Chars("-+")), DIGITS), s);
    if s != "" {
      var rest := s[1..];
      ThenMaybeSingle(Chars("-+"), DIGITS, rest);
      SomeDigits(rest);
      if rest != "" {
        SomeDigits(rest[1..]);
        assert rest[1..] == s[2..];
      }
    }
  }

  /** `number` accepts exactly an integer with an optional fraction and an optional exponent. */
  lemma {:induction false} NumberExact(s: string)
    ensures Accepts(NUMBER, s) <==> NumberText(s)
  {
    hide IntegerText, FractionText, ExponentText;
    if Accepts(NUMBER, s) {
      var i :| 0 <= i <= |s| && Accepts(INTEGER, s[..i]) && Accepts(Then(Maybe(FRACTION), Maybe(EXPONENT)), s[i..]);
      var rest := s[i..];
      var k :| 0 <= k <= |rest| && Accepts(Maybe(FRACTION), rest[..k]) && Accepts(Maybe(EXPONENT), rest[k..]);
      IntegerExact(s[..i]);
      FractionExact(rest[..k]);
      ExponentExact(rest[k..]);
      assert rest[..k] == s[i..i + k] && rest[k..] == s[i + k..];
    }
    if NumberText(s) {
      var i, j :| 0 <= i <= j <= |s| && IntegerText(s[..i]) && FractionText(s[i..j]) && ExponentText(s[j..]);
      IntegerExact(s[..i]);
      FractionExact(s[i..j]);
      ExponentExact(s[j..]);
      var rest := s[i..];
      assert rest[..j - i] == s[i..j] && rest[j - i..] == s[j..];
      assert Accepts(Then(Maybe(FRACTION), Maybe(EXPONENT)), rest);
    }
  }

  // ----- strings -----

  lemma {:induction false} HexExact(s: string)
    ensures Accepts(HEX, s) <==> |s| == 1 && HexDigit(s[0])
  {
    assert Accepts(HEX.right, s) <==> |s| == 1 && ('a' <= s[0] <= 'f' || 'A' <= s[0] <= 'F');
  }

  lemma {:induction false} ThenHex(b: Lex, s: string)
    ensures Accepts(Then(HEX, b), s) <==> s != "" && HexDigit(s[0]) && Accepts(b, s[1..])
  {
    if Accepts(Then(HEX, b), s) {
      var i :| 0 <= i <= |s| && Accepts(HEX, s[..i]) && Accepts(b, s[i..]);
      HexExact(s[..i]);
    }
    if s != "" && HexDigit(s[0]) && Accepts(b, s[1..]) {
      HexExact(s[..1]);
    }
  }

  lemma {:induction false} UnicodeExact(s: string)
    ensures Accepts(UNICODE, s) <==>
            |s| == 5 && s[0] == 'u' && HexDigit(s[1]) && HexDigit(s[2]) && HexDigit(s[3]) && HexDigit(s[4])
  {
    hide HexDigit;
    ThenSingle(Chars("u"), UNICODE.rest, s);
    if s != "" {
      ThenHex(UNICODE.rest.rest, s[1..]);
      if |s| >= 2 {
        assert s[1..][1..] == s[2..];
        ThenHex(UNICODE.rest.rest.rest, s[2..]);
        if |s| >= 3 {
          assert s[2..][1..] == s[3..];
          ThenHex(HEX, s[3..]);
          if |s| >= 4 {
            assert s[3..][1..] == s[4..];
            HexExact(s[4..]);
          }
        }
      }
    }
  }

  /** The characters and escapes that the `char` terminal accepts. */
  predicate CharText(s: string)
  {
    || (|s| == 1 && s[0] !in "\"\\")
    || (|s| == 2 && s[0] == '\\' && s[1] in "\"\\/bfnrt")
    || (|s| == 6 && s[0] == '\\' && s[1] == 'u'
        && HexDigit(s[2]) && HexDigit(s[3]) && HexDigit(s[4]) && HexDigit(s[5]))
  }

  lemma {:induction false} CharExact(s: string)
    ensures Accepts(CHAR, s) <==> CharText(s)
  {
    hide HexDigit;
    ThenSingle(Chars("\\"), ESCAPE.rest, s);
    if s != "" {
      UnicodeExact(s[1..]);
    }
  }

  /** A text scans exactly when it starts with a character or escape and the rest scans. */
  lemma {:induction false} ScanStep(s: string, i: nat)
    requires 0 < i <= |s| && CharText(s[..i])
    ensures Scans(s) <==> Scans(s[i..])
  {
    hide HexDigit;
    assert forall k :: 0 <= k < i ==> s[..i][k] == s[k];
    assert s[0] == s[..i][0];
    if i >= 2 { assert s[1] == s[..i][1]; }
    if i == 6 {
      assert s[2] == s[..i][2] && s[3] == s[..i][3] && s[4] == s[..i][4] && s[5] == s[..i][5];
    }
  }

  lemma {:induction false} FirstChar(s: string) returns (i: nat)
    requires s != "" && Scans(s)
    ensures 0 < i <= |s| && CharText(s[..i]) && Scans(s[i..])
  {
    hide HexDigit;
    if s[0] != '\\' {
      i := 1;
    } else if s[1] in "\"\\/bfnrt" {
      i := 2;
    } else {
      i := 6;
    }
    assert forall k :: 0 <= k < i ==> s[..i][k] == s[k];
  }

  lemma {:induction false} InsideExact(s: string)
    ensures Accepts(Many(CHAR), s) <==> Scans(s)
    decreases |s|
  {
    hide CharText, Scans;
    if s == "" {
      EmptyScans();
    } else {
      if Accepts(Many(CHAR), s) {
        var i :| 0 < i <= |s| && Accepts(CHAR, s[..i]) && Accepts(Many(CHAR), s[i..]);
        CharExact(s[..i]);
        InsideExact(s[i..]);
        ScanStep(s, i);
      }
      if Scans(s) {
        var i := FirstChar(s);
        CharExact(s[..i]);
        InsideExact(s[i..]);
      }
    }
  }

  lemma {:induction false} EmptyScans()
    ensures Scans("")
  {
  }

  /** `string` accepts exactly the quoted strings. */
  lemma {:induction false} StringExact(s: string)
    ensures Accepts(STRING, s) <==> StringText(s)
  {
    hide Scans, Accepts;
    ThenSingle(Chars("\""), STRING.rest, s);
    if s != "" {
      IsQuote(s[..1]);
      var rest := s[1..];
      ThenLastSingle(Many(CHAR), Chars("\""), rest);
      if rest != "" {
        var i := |rest| - 1;
        IsQuote(rest[i..]);
        InsideExact(rest[..i]);
        assert rest[..i] == s[1..|s| - 1] && rest[i..] == [s[|s| - 1]];
      }
    }
  }

  lemma {:induction false} IsQuote(s: string)
    ensures Accepts(Chars("\""), s) <==> |s| == 1 && s[0] == '\"'
  {
  }

  lemma {:induction false} ThenLastSingle(a: Lex, b: Lex, s: string)
    requires Single(b)
    ensures Accepts(Then(a, b), s) <==> s != "" && Accepts(a, s[..|s| - 1]) && Accepts(b, s[|s| - 1..])
  {
    if Accepts(Then(a, b), s) {
      var i :| 0 <= i <= |s| && Accepts(a, s[..i]) && Accepts(b, s[i..]);
      assert |s[i..]| == 1;
    }
  }

  // ----- what a string stands for -----

  /** The value of a hexadecimal digit. */
  function HexValue(c: char): (n: nat)
    requires HexDigit(c)
    ensures n < 16
  {
    if '0' <= c <= '9' then (c - '0') as int
    else if 'a' <= c <= 'f' then (c - 'a') as int + 10
    else (c - 'A') as int + 10
  }

  function Named(c: char): char
  {
    if c == 'b' then 8 as char
    else if c == 'f' then 12 as char
    else if c == 'n' then '\n'
    else if c == 'r' then '\r'
    else if c == 't' then '\t'
    else c
  }

  /** What the inside of a string stands for; an escaped surrogate is not read. */
  function Unescape(s: string): Option<string>
    requires Scans(s)
  {
    if s == "" then Some("")
    else if s[0] != '\\' then
      var rest := Unescape(s[1..]);
      if rest.None? then None else Some([s[0]] + rest.value)
    else if s[1] in "\"\\/bfnrt" then
      var rest := Unescape(s[2..]);
      if rest.None? then None else Some([Named(s[1])] + rest.value)
    else
      var code := ((HexValue(s[2]) * 16 + HexValue(s[3])) * 16 + HexValue(s[4])) * 16 + HexValue(s[5]);
      var rest := Unescape(s[6..]);
      if 0xd800 <= code < 0xe000 || rest.None? then None else Some([code as char] + rest.value)
  }

  // ----- which accepted texts are JSON -----

  /** The inside of a string by section 7 of RFC 8259: a character written as itself is at least U+0020. */
  predicate JsonInside(s: string)
  {
    if s == "" then true
    else if ' ' <= s[0] && s[0] != '\"' && s[0] != '\\' then JsonInside(s[1..])
    else if |s| < 2 || s[0] != '\\' then false
    else if s[1] in "\"\\/bfnrt" then JsonInside(s[2..])
    else |s| >= 6 && s[1] == 'u' && (forall k :: 2 <= k < 6 ==> HexDigit(s[k])) && JsonInside(s[6..])
  }

  predicate JsonString(s: string)
  {
    |s| >= 2 && s[0] == '\"' && s[|s| - 1] == '\"' && JsonInside(s[1..|s| - 1])
  }

  /** No character below U+0020 is written as itself. */
  predicate Printable(s: string)
  {
    forall k :: 0 <= k < |s| ==> ' ' <= s[k]
  }

  lemma {:induction false} PrintableSplit(s: string, i: nat)
    requires i <= |s|
    ensures Printable(s) <==> Printable(s[..i]) && Printable(s[i..])
  {
    assert s == s[..i] + s[i..];
  }

  lemma {:induction false} InsideIsJson(s: string)
    ensures JsonInside(s) <==> Scans(s) && Printable(s)
  {
    if s != "" && s[0] != '\\' {
      PrintableSplit(s, 1);
      InsideIsJson(s[1..]);
    } else if |s| >= 2 && s[1] in "\"\\/bfnrt" {
      PrintableSplit(s, 2);
      InsideIsJson(s[2..]);
    } else if |s| >= 6 {
      PrintableSplit(s, 6);
      InsideIsJson(s[6..]);
    }
  }

  /** A text that the `string` terminal accepts is a JSON string if and only if it is printable, and every JSON string
      is accepted. */
  lemma {:induction false} AcceptedIsJson(s: string)
    ensures JsonString(s) <==> Accepts(STRING, s) && Printable(s)
  {
    hide Scans, JsonInside, Accepts;
    StringExact(s);
    if |s| >= 2 {
      InsideIsJson(s[1..|s| - 1]);
      PrintableSplit(s, 1);
      PrintableSplit(s[1..], |s| - 2);
      assert s[1..][..|s| - 2] == s[1..|s| - 1] && s[1..][|s| - 2..] == [s[|s| - 1]];
    }
  }

  /** A line feed between quotes is accepted and is not JSON. */
  lemma {:induction false} RawLineFeed()
    ensures Accepts(STRING, "\"\n\"") && !JsonString("\"\n\"")
  {
    hide Accepts;
    var s := "\"\n\"";
    assert s[1..|s| - 1] == "\n" && "\n"[1..] == "";
    StringExact(s);
    AcceptedIsJson(s);
    assert s[1] < ' ';
  }

  // ----- letters -----

  const SMALL := "abcdefghijklmnopqrstuvwxyz"
  const CAPITAL := "ABCDEFGHIJKLMNOPQRSTUVWXYZ"

  lemma {:induction false} Alphabet(k: nat)
    requires k < 26
    ensures CAPITAL[k] == 'A' + k as char && SMALL[k] == 'a' + k as char
  {
  }

  lemma {:induction false} LetterExact(c: char)
    ensures c in SMALL <==> 'a' <= c <= 'z'
    ensures c in CAPITAL <==> 'A' <= c <= 'Z'
  {
    if 'a' <= c <= 'z' {
      Alphabet((c - 'a') as int);
      assert c in SMALL;
    } else if 'A' <= c <= 'Z' {
      Alphabet((c - 'A') as int);
      assert c in CAPITAL;
    }
    forall k | 0 <= k < 26
      ensures 'a' <= SMALL[k] <= 'z' && 'A' <= CAPITAL[k] <= 'Z'
    {
      Alphabet(k);
    }
  }

  // ----- every string can be spelled -----

  function HexOf(n: nat): (c: char)
    requires n < 16
    ensures HexDigit(c) && HexValue(c) == n
  {
    "0123456789abcdef"[n]
  }

  /** One character of a string as JSON writes it. */
  function Spelled(c: char): string
  {
    if c == '\"' || c == '\\' then ['\\', c]
    else if c < ' ' then "\\u00" + [HexOf(c as int / 16), HexOf(c as int % 16)]
    else [c]
  }

  function Escaped(s: string): string
  {
    if s == "" then "" else Spelled(s[0]) + Escaped(s[1..])
  }

  lemma {:induction false} PlainReadsBack(c: char, rest: string, s: string)
    requires JsonInside(rest) && Scans(rest) && Unescape(rest) == Some(s) && (c == '\"' || c == '\\' || ' ' <= c)
    ensures var e := Spelled(c) + rest; JsonInside(e) && Scans(e) && Unescape(e) == Some([c] + s)
  {
    hide HexOf, HexValue;
    var e := Spelled(c) + rest;
    if c == '\"' || c == '\\' {
      assert e[0] == '\\' && e[1] == c && e[2..] == rest;
    } else {
      assert e[0] == c && e[1..] == rest;
    }
  }

  lemma {:induction false} ControlReadsBack(c: char, rest: string, s: string)
    requires JsonInside(rest) && Scans(rest) && Unescape(rest) == Some(s) && c < ' '
    ensures var e := Spelled(c) + rest; JsonInside(e) && Scans(e) && Unescape(e) == Some([c] + s)
  {
    hide HexOf;
    var e, hi, lo := Spelled(c) + rest, HexOf(c as int / 16), HexOf(c as int % 16);
    assert e[0] == '\\' && e[1] == 'u' && e[2] == '0' && e[3] == '0' && e[4] == hi && e[5] == lo && e[6..] == rest;
    assert HexValue('0') == 0;
    hide HexValue;
  }

  lemma {:induction false} EscapedReadsBack(s: string)
    ensures JsonInside(Escaped(s)) && Scans(Escaped(s)) && Unescape(Escaped(s)) == Some(s)
  {
    if s != "" {
      hide Spelled, JsonInside, Scans, Unescape;
      EscapedReadsBack(s[1..]);
      if s[0] < ' ' {
        ControlReadsBack(s[0], Escaped(s[1..]), s[1..]);
      } else {
        PlainReadsBack(s[0], Escaped(s[1..]), s[1..]);
      }
      assert [s[0]] + s[1..] == s;
    }
  }

  /** Some JSON string that the `string` terminal accepts stands for these characters. */
  ghost predicate Spellable(s: string)
  {
    exists text ::
      JsonString(text) && Accepts(STRING, text) && StringText(text) && Unescape(text[1..|text| - 1]) == Some(s)
  }

  /** There is no string that the grammar cannot write as JSON. */
  lemma {:induction false} EverythingSpellable(s: string)
    ensures Spellable(s)
  {
    hide Scans, Unescape, Escaped, JsonInside;
    EscapedReadsBack(s);
    var text := "\"" + Escaped(s) + "\"";
    assert text[1..|text| - 1] == Escaped(s);
    StringExact(text);
  }
}
