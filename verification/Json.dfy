/** JSON string escaping (section 7 of RFC 8259) the way the server's serializer writes it, and
    what a text costs when it appears once and once more escaped. */
module Json {
  import opened Common
  import opened Utf8
  import opened Text

  function HexDigit(n: nat): char
    requires n < 16
  {
    if n < 10 then ('0' as int + n) as char else ('a' as int + n - 10) as char
  }

  function EscapeChar(c: char): string {
    if c == '"' then "\\\""
    else if c == '\\' then "\\\\"
    else if c == '\U{8}' then "\\b"
    else if c == '\U{C}' then "\\f"
    else if c == '\n' then "\\n"
    else if c == '\r' then "\\r"
    else if c == '\t' then "\\t"
    else if c < ' ' then "\\u00" + [HexDigit(c as int / 16), HexDigit(c as int % 16)]
    else [c]
  }

  /** The text between the quotes of a JSON string. */
  function Escape(text: string): string {
    if text == "" then "" else EscapeChar(text[0]) + Escape(text[1..])
  }

  lemma {:induction false} EscapeConcat(a: string, b: string)
    ensures Escape(a + b) == Escape(a) + Escape(b)
  {
    if a == "" {
      assert a + b == b;
    } else {
      assert (a + b)[1..] == a[1..] + b;
      EscapeConcat(a[1..], b);
    }
  }

  // ----- reading -----

  function HexValue(c: char): Option<nat> {
    if '0' <= c <= '9' then Some(c as int - '0' as int)
    else if 'a' <= c <= 'f' then Some(c as int - 'a' as int + 10)
    else if 'A' <= c <= 'F' then Some(c as int - 'A' as int + 10)
    else None
  }

  /** The character that the four digits after `\u` stand for; no half of a surrogate pair. */
  function UnicodeAt(text: string): Option<char> {
    if |text| < 6 then None
    else
      match (HexValue(text[2]), HexValue(text[3]), HexValue(text[4]), HexValue(text[5]))
      case (Some(a), Some(b), Some(c), Some(d)) =>
        var n := ((a * 16 + b) * 16 + c) * 16 + d;
        if n < 0xD800 then Some(n as char) else None
      case _ => None
  }

  /** The character that the escape sequence at the start stands for, and the length of the sequence. */
  function EscapedAt(text: string): (read: Option<(char, nat)>)
    requires text != ""
    ensures read.Some? ==> 0 < read.value.1 <= |text|
  {
    if text[0] == '"' || text[0] < ' ' then None
    else if text[0] != '\\' then Some((text[0], 1))
    else if |text| < 2 then None
    else
      match text[1]
      case '"' => Some(('"', 2))
      case '\\' => Some(('\\', 2))
      case '/' => Some(('/', 2))
      case 'b' => Some(('\U{8}', 2))
      case 'f' => Some(('\U{C}', 2))
      case 'n' => Some(('\n', 2))
      case 'r' => Some(('\r', 2))
      case 't' => Some(('\t', 2))
      case 'u' => (match UnicodeAt(text) case Some(c) => Some((c, 6)) case None => None)
      case _ => None
  }

  /** What a string of section 7 of RFC 8259 stands for, its quotes left out. */
  function ReadString(text: string): Option<string>
    decreases |text|
  {
    if text == "" then Some("")
    else
      match EscapedAt(text)
      case None => None
      case Some((c, length)) =>
        match ReadString(text[length..])
        case None => None
        case Some(rest) => Some([c] + rest)
  }

  lemma HexDigitReads(n: nat)
    requires n < 16
    ensures HexValue(HexDigit(n)) == Some(n)
  {}

  lemma EscapedCharReads(c: char, rest: string)
    ensures EscapedAt(EscapeChar(c) + rest) == Some((c, |EscapeChar(c)|))
  {
    if c < ' ' {
      HexDigitReads(c as int / 16);
      HexDigitReads(c as int % 16);
    }
  }

  /** Escaped text stands for the text, whatever characters it holds. */
  lemma {:induction false} EscapedReadsBack(text: string)
    ensures ReadString(Escape(text)) == Some(text)
  {
    if text != "" {
      var (first, rest) := (EscapeChar(text[0]), Escape(text[1..]));
      EscapedCharReads(text[0], rest);
      assert (first + rest)[|first|..] == rest;
      EscapedReadsBack(text[1..]);
      assert text == [text[0]] + text[1..];
    }
  }

  // ----- costs -----

  /** Bytes of a text and of its escaped copy. */
  function Cost(text: string): nat {
    ByteLen(text) + ByteLen(Escape(text))
  }

  lemma CostConcat(a: string, b: string)
    ensures Cost(a + b) == Cost(a) + Cost(b)
  {
    EscapeConcat(a, b);
    ByteLenConcat(a, b);
    ByteLenConcat(Escape(a), Escape(b));
  }

  /** One byte that needs no escaping. */
  predicate PlainChar(c: char) { ' ' <= c < '\U{80}' && c != '"' && c != '\\' }

  predicate Plain(text: string) { forall i :: 0 <= i < |text| ==> PlainChar(text[i]) }

  lemma {:induction false} PlainCost(text: string)
    requires Plain(text)
    ensures Cost(text) == 2 * |text| && ByteLen(text) == |text| && Escape(text) == text
  {
    if text != "" {
      PlainCost(text[1..]);
      assert text == [text[0]] + text[1..];
    }
  }

  lemma QuoteCost()
    ensures Cost("\"") == 3
  {
    assert Escape("\"") == "\\\"" + Escape("\""[1..]) == "\\\"";
    assert Encode("\\\"") == EncodeChar('\\') + Encode("\\\""[1..]);
    assert "\\\""[1..] == "\"";
  }

  // ----- numbers -----

  function Decimal(n: nat): (digits: string)
    ensures digits != "" && AllDigits(digits) && Plain(digits)
  {
    if n < 10 then [DigitChar(n)] else Decimal(n / 10) + [DigitChar(n % 10)]
  }

  lemma {:induction false} NumberOfDecimal(n: nat)
    ensures Number(Decimal(n)) == n
  {
    if n < 10 {
      assert Decimal(n)[..0] == "";
    } else {
      NumberOfDecimal(n / 10);
      assert Decimal(n)[..|Decimal(n)| - 1] == Decimal(n / 10);
    }
  }

  lemma {:induction false} LeadingDigitCounts(digits: string)
    requires digits != "" && AllDigits(digits) && digits[0] != '0'
    ensures Number(digits) > 0
  {
    if |digits| > 1 { LeadingDigitCounts(digits[..|digits| - 1]); }
  }

  /** Only digits without leading zero are the decimal text of a number. */
  lemma {:induction false} DecimalOfNumber(digits: string)
    requires digits != "" && AllDigits(digits) && (digits[0] == '0' ==> |digits| == 1)
    ensures Decimal(Number(digits)) == digits
  {
    if |digits| > 1 {
      var rest := digits[..|digits| - 1];
      LeadingDigitCounts(rest);
      DecimalOfNumber(rest);
      assert digits == rest + [digits[|digits| - 1]];
    } else {
      assert digits[..0] == "" && digits == [digits[0]];
    }
  }

  lemma {:induction false} DecimalLeads(n: nat)
    ensures Decimal(n)[0] == '0' <==> n == 0
  {
    if n >= 10 { DecimalLeads(n / 10); }
  }

  lemma {:induction false} SmallerIsNotLonger(n: nat, m: nat)
    requires n <= m
    ensures |Decimal(n)| <= |Decimal(m)|
  {
    if n >= 10 {
      SmallerIsNotLonger(n / 10, m / 10);
    }
  }

  // ----- the cost of one character -----

  /** The server's formula: escaped once in the structured JSON, and twice in the text that
      repeats that JSON. */
  function ResponseCost(c: char): nat {
    if c in {'"', '\\'} then 2 + 4
    else if c in {'\U{8}', '\U{C}', '\n', '\r', '\t'} then 2 + 3
    else if c < ' ' then 6 + 7
    else 2 * LenUtf8(c)
  }

  function FragmentCost(text: string): nat {
    if text == "" then 0 else ResponseCost(text[0]) + FragmentCost(text[1..])
  }

  lemma {:induction false} FragmentCostConcat(a: string, b: string)
    ensures FragmentCost(a + b) == FragmentCost(a) + FragmentCost(b)
  {
    if a == "" {
      assert a + b == b;
    } else {
      assert (a + b)[1..] == a[1..] + b;
      FragmentCostConcat(a[1..], b);
    }
  }

  /** A backslash and plain characters, as every escape but the two self-escapes is. */
  lemma BackslashCost(tail: string)
    requires Plain(tail)
    ensures Cost("\\" + tail) == 3 + 2 * |tail|
  {
    CostConcat("\\", tail);
    PlainCost(tail);
    assert Escape("\\") == "\\\\" + Escape("\\"[1..]) == "\\\\";
    assert "\\\\"[1..] == "\\";
    assert Encode("\\\\") == EncodeChar('\\') + Encode("\\");
    assert Encode("\\") == EncodeChar('\\') + Encode("\\"[1..]);
  }

  lemma SelfEscapeCost(c: char)
    requires c in {'"', '\\'}
    ensures Cost(EscapeChar(c)) == 6
  {
    BackslashCost("");
    QuoteCost();
    assert "\\" + "" == "\\";
    assert EscapeChar(c) == "\\" + [c];
    CostConcat("\\", [c]);
  }

  lemma ShortEscapeCost(c: char)
    requires c in {'\U{8}', '\U{C}', '\n', '\r', '\t'}
    ensures Cost(EscapeChar(c)) == 5
  {
    var letter := EscapeChar(c)[1];
    BackslashCost([letter]);
    assert EscapeChar(c) == "\\" + [letter];
  }

  lemma ControlEscapeCost(c: char)
    requires c < ' ' && c !in {'\U{8}', '\U{C}', '\n', '\r', '\t'}
    ensures Cost(EscapeChar(c)) == 13
  {
    var tail := "u00" + [HexDigit(c as int / 16), HexDigit(c as int % 16)];
    BackslashCost(tail);
    assert EscapeChar(c) == "\\" + tail;
  }

  lemma UnescapedCost(c: char)
    requires ' ' <= c && c !in {'"', '\\'}
    ensures Cost(EscapeChar(c)) == 2 * LenUtf8(c)
  {
    assert Escape([c]) == EscapeChar(c) + Escape([c][1..]) == [c];
    assert Encode([c]) == EncodeChar(c) + Encode([c][1..]) == EncodeChar(c);
  }

  /** The server's formula is exactly what the character adds to a response. */
  lemma ResponseCostIsExact(c: char)
    ensures ResponseCost(c) == ByteLen(EscapeChar(c)) + ByteLen(Escape(EscapeChar(c)))
  {
    if c in {'"', '\\'} {
      SelfEscapeCost(c);
    } else if c in {'\U{8}', '\U{C}', '\n', '\r', '\t'} {
      ShortEscapeCost(c);
    } else if c < ' ' {
      ControlEscapeCost(c);
    } else {
      UnescapedCost(c);
    }
  }

  lemma {:induction false} FragmentCostIsExact(text: string)
    ensures FragmentCost(text) == Cost(Escape(text))
  {
    if text != "" {
      FragmentCostIsExact(text[1..]);
      ResponseCostIsExact(text[0]);
      CostConcat(EscapeChar(text[0]), Escape(text[1..]));
    }
  }
}
