/**
 * The JSON text the debug UI writes (DebugUiControl.cs): `StreamUtil.WriteEscapedString`, which
 * quotes a string and escapes every character outside printable ASCII as \uXXXX, and
 * `StreamUtil.WriteColorRGBA`, which writes a colour as "#rrggbbaa"; and `ChildrenToJson`, which
 * writes the children's objects comma-separated in child order. A stream is the text written to it.
 */
module JsonText {
  import opened Wrappers

  /** A UTF-16 code unit: the C# `char`, of which a C# string is a sequence. */
  newtype CodeUnit = c: int | 0 <= c < 0x1_0000

  /** A byte: one channel of a `Color32`. */
  newtype Byte = b: int | 0 <= b < 0x100

  const QUOTE: CodeUnit := 0x22
  const BACKSLASH: CodeUnit := 0x5c
  const LOWER_U: CodeUnit := 0x75
  const HASH: CodeUnit := 0x23
  const COMMA: CodeUnit := 0x2c

  /** Printable ASCII, 0x20 to 0x7e: what `WriteEscapedString` writes as it is. */
  predicate Printable(c: CodeUnit)
  {
    0x20 <= c <= 0x7e
  }

  /** A lower-case hexadecimal digit, as the "x" format specifier writes it. */
  function HexDigit(d: int): (c: CodeUnit)
    requires 0 <= d < 16
    ensures Printable(c) && c != QUOTE && c != BACKSLASH
  {
    if d < 10 then (0x30 + d) as CodeUnit else (0x61 + d - 10) as CodeUnit
  }

  /** The value of a hexadecimal digit of either case (the HEXDIG of RFC 8259), if c is one. */
  function DigitValue(c: CodeUnit): (r: Option<int>)
    ensures r.Some? ==> 0 <= r.value < 16
  {
    if 0x30 <= c <= 0x39 then Some(c as int - 0x30)
    else if 0x61 <= c <= 0x66 then Some(c as int - 0x61 + 10)
    else if 0x41 <= c <= 0x46 then Some(c as int - 0x41 + 10)
    else None
  }

  lemma DigitValueOfHexDigit(d: int)
    requires 0 <= d < 16
    ensures DigitValue(HexDigit(d)) == Some(d)
  {
  }

  /** 16 to the power n: one more than the largest value n hexadecimal digits can hold. */
  function Power16(n: nat): nat
  {
    if n == 0 then 1 else 16 * Power16(n - 1)
  }

  /** The value of a run of hexadecimal digits, most significant first. */
  function HexValue(s: seq<CodeUnit>): (r: Option<int>)
    ensures r.Some? ==> 0 <= r.value < Power16(|s|)
  {
    if |s| == 0 then Some(0)
    else match (HexValue(s[..|s| - 1]), DigitValue(s[|s| - 1]))
      case (Some(h), Some(d)) => Some(16 * h + d)
      case _ => None
  }

  /** `((int)ch).ToString("x4")`: four lower-case hexadecimal digits, enough for any code unit. */
  function Hex4(c: CodeUnit): seq<CodeUnit>
  {
    var v := c as int;
    [HexDigit(v / 0x1000), HexDigit(v / 0x100 % 16), HexDigit(v / 0x10 % 16), HexDigit(v % 16)]
  }

  /** The four digits read back give the code unit. */
  lemma Hex4Value(c: CodeUnit)
    ensures HexValue(Hex4(c)) == Some(c as int)
  {
    var v := c as int;
    var h := Hex4(c);
    DigitValueOfHexDigit(v / 0x1000);
    DigitValueOfHexDigit(v / 0x100 % 16);
    DigitValueOfHexDigit(v / 0x10 % 16);
    DigitValueOfHexDigit(v % 16);
    assert h[..3][..2] == h[..2] && h[..2][..1] == h[..1] && h[..1][..0] == [];
    assert HexValue(h[..1]) == Some(v / 0x1000);
    assert HexValue(h[..2]) == Some(v / 0x100) by {
      assert 16 * (v / 0x1000) + v / 0x100 % 16 == v / 0x100;
    }
    assert HexValue(h[..3]) == Some(v / 0x10) by {
      assert 16 * (v / 0x100) + v / 0x10 % 16 == v / 0x10;
    }
    assert 16 * (v / 0x10) + v % 16 == v;
    assert h[..4] == h;
  }

  // Escaping

  /**
   * One character as `WriteEscapedString` writes it: printable ASCII as it is, a quote preceded
   * by a backslash, anything else as \u and four hexadecimal digits. A backslash is written bare.
   */
  function EscapeAsWritten(c: CodeUnit): (r: seq<CodeUnit>)
    ensures |r| == 1 <==> Printable(c) && c != QUOTE
    ensures |r| != 1 ==> |r| >= 2 && r[0] == BACKSLASH
  {
    if Printable(c) then (if c == QUOTE then [BACKSLASH, c] else [c])
    else [BACKSLASH, LOWER_U] + Hex4(c)
  }

  /** The characters of a text, each escaped as `WriteEscapedString` does. */
  function BodyAsWritten(s: seq<CodeUnit>): (r: seq<CodeUnit>)
    ensures |r| >= |s|
  {
    if |s| == 0 then [] else EscapeAsWritten(s[0]) + BodyAsWritten(s[1..])
  }

  /** `WriteEscapedString`: a null or empty text is "" and any other text is quoted and escaped. */
  function QuotedAsWritten(text: Option<seq<CodeUnit>>): (r: seq<CodeUnit>)
    ensures |r| >= 2 && r[0] == QUOTE && r[|r| - 1] == QUOTE
    ensures text.Some? ==> |r| >= |text.value| + 2
  {
    if text.None? || |text.value| == 0 then [QUOTE, QUOTE] else [QUOTE] + BodyAsWritten(text.value) + [QUOTE]
  }

  /** Escaping one more character appends its escape. */
  lemma {:induction false} BodyAsWrittenSnoc(s: seq<CodeUnit>, c: CodeUnit)
    ensures BodyAsWritten(s + [c]) == BodyAsWritten(s) + EscapeAsWritten(c)
  {
    if |s| == 0 {
      assert [c][1..] == [];
    } else {
      assert (s + [c])[1..] == s[1..] + [c];
      BodyAsWrittenSnoc(s[1..], c);
    }
  }

  /**
   * One character as section 7 of RFC 8259 requires: quotation mark and reverse solidus escaped
   * with a backslash, control characters and everything outside printable ASCII as \uXXXX.
   */
  function Escape(c: CodeUnit): (r: seq<CodeUnit>)
    ensures |r| == 1 <==> Printable(c) && c != QUOTE && c != BACKSLASH
    ensures |r| != 1 ==> |r| >= 2 && r[0] == BACKSLASH
  {
    if Printable(c) then (if c == QUOTE || c == BACKSLASH then [BACKSLASH, c] else [c])
    else [BACKSLASH, LOWER_U] + Hex4(c)
  }

  function Body(s: seq<CodeUnit>): (r: seq<CodeUnit>)
    ensures |r| >= |s|
  {
    if |s| == 0 then [] else Escape(s[0]) + Body(s[1..])
  }

  /** The corrected `WriteEscapedString`: a backslash is escaped too. */
  function Quoted(text: Option<seq<CodeUnit>>): (r: seq<CodeUnit>)
    ensures |r| >= 2 && r[0] == QUOTE && r[|r| - 1] == QUOTE
    ensures text.Some? ==> |r| >= |text.value| + 2
  {
    if text.None? || |text.value| == 0 then [QUOTE, QUOTE] else [QUOTE] + Body(text.value) + [QUOTE]
  }

  // Reading a JSON string back (section 7 of RFC 8259)

  /** The character before the rest of a decoded string, when the rest decodes. */
  function Prepend(c: CodeUnit, rest: Option<seq<CodeUnit>>): Option<seq<CodeUnit>>
  {
    match rest
    case None => None
    case Some(r) => Some([c] + r)
  }

  /**
   * The characters of a JSON string up to its closing quote, which must end the text: an escape
   * \" \\ or \uXXXX stands for one character, an unescaped quote closes the string, and a control
   * character may not appear unescaped.
   */
  function DecodeBody(t: seq<CodeUnit>): Option<seq<CodeUnit>>
  {
    if |t| == 0 then None
    else if t[0] == QUOTE then (if |t| == 1 then Some([]) else None)
    else if t[0] == BACKSLASH then
      if |t| >= 2 && (t[1] == QUOTE || t[1] == BACKSLASH) then Prepend(t[1], DecodeBody(t[2..]))
      else if |t| >= 6 && t[1] == LOWER_U then
        assert |t[2..6]| == 4;
        match HexValue(t[2..6])
        case Some(v) => Prepend(v as CodeUnit, DecodeBody(t[6..]))
        case None => None
      else None
    else if t[0] < 0x20 then None
    else Prepend(t[0], DecodeBody(t[1..]))
  }

  /** A whole JSON string: an opening quote, then its characters up to the closing quote at the end. */
  function Decode(t: seq<CodeUnit>): Option<seq<CodeUnit>>
  {
    if |t| > 0 && t[0] == QUOTE then DecodeBody(t[1..]) else None
  }

  /** One escaped character decodes to itself, whatever follows it. */
  lemma DecodeEscape(c: CodeUnit, rest: seq<CodeUnit>)
    ensures DecodeBody(Escape(c) + rest) == Prepend(c, DecodeBody(rest))
  {
    var t := Escape(c) + rest;
    if Printable(c) {
      if c == QUOTE || c == BACKSLASH {
        assert t[2..] == rest;
      } else {
        assert t[1..] == rest;
      }
    } else {
      Hex4Value(c);
      assert t[2..6] == Hex4(c);
      assert t[6..] == rest;
    }
  }

  /** The characters of any text, escaped and closed by a quote, decode to the text. */
  lemma {:induction false} BodyRoundTrip(s: seq<CodeUnit>)
    ensures DecodeBody(Body(s) + [QUOTE]) == Some(s)
  {
    if |s| == 0 {
      assert Body(s) + [QUOTE] == [QUOTE];
    } else {
      BodyRoundTrip(s[1..]);
      assert Body(s) + [QUOTE] == Escape(s[0]) + (Body(s[1..]) + [QUOTE]);
      DecodeEscape(s[0], Body(s[1..]) + [QUOTE]);
      assert [s[0]] + s[1..] == s;
    }
  }

  /** The corrected writer round-trips: reading back what it writes for a text gives the text, the empty text for null. */
  lemma QuotedRoundTrip(text: Option<seq<CodeUnit>>)
    ensures Decode(Quoted(text)) == Some(if text.None? then [] else text.value)
  {
    if text.None? || |text.value| == 0 {
      assert Quoted(text)[1..] == [QUOTE];
    } else {
      BodyRoundTrip(text.value);
      assert Quoted(text)[1..] == Body(text.value) + [QUOTE];
    }
  }

  /** Both writers agree on every text without a backslash, so the written form round-trips there. */
  lemma {:induction false} AsWrittenAgreesWithoutBackslash(s: seq<CodeUnit>)
    requires BACKSLASH !in s
    ensures BodyAsWritten(s) == Body(s)
    ensures Decode(QuotedAsWritten(Some(s))) == Some(s)
  {
    if |s| > 0 {
      assert s[0] in s;
      assert forall c :: c in s[1..] ==> c in s;
      AsWrittenAgreesWithoutBackslash(s[1..]);
    }
    QuotedRoundTrip(Some(s));
  }

  /**
   * A text holding one backslash is written as `"\"`: the backslash escapes the closing quote,
   * so what is written is not a complete JSON string and reads back as nothing.
   */
  lemma BackslashBreaksRoundTrip()
    ensures QuotedAsWritten(Some([BACKSLASH])) == [QUOTE, BACKSLASH, QUOTE]
    ensures Decode(QuotedAsWritten(Some([BACKSLASH]))) == None
  {
    assert BodyAsWritten([BACKSLASH]) == [BACKSLASH];
    var t := QuotedAsWritten(Some([BACKSLASH]));
    assert t[1..] == [BACKSLASH, QUOTE];
    assert t[1..][2..] == [];
    assert DecodeBody(t[1..][2..]) == None;
    assert DecodeBody(t[1..]) == None;
  }

  /**
   * `WriteEscapedString` as its loop writes it: "" for a null or empty text, otherwise a quote,
   * each character escaped in turn, and a closing quote.
   */
  method WriteEscapedString(text: Option<seq<CodeUnit>>) returns (written: seq<CodeUnit>)
    ensures written == QuotedAsWritten(text)
  {
    if text.None? || |text.value| == 0 {
      return [QUOTE, QUOTE];
    }
    var s := text.value;
    written := [QUOTE];
    for i := 0 to |s|
      invariant written == [QUOTE] + BodyAsWritten(s[..i])
    {
      var ch := s[i];
      if 0x20 <= ch <= 0x7e {
        if ch == QUOTE {
          written := written + [BACKSLASH];
        }
        written := written + [ch];
      } else {
        written := written + [BACKSLASH, LOWER_U] + Hex4(ch);
      }
      assert s[..i + 1] == s[..i] + [ch];
      BodyAsWrittenSnoc(s[..i], ch);
    }
    assert s[..|s|] == s;
    written := written + [QUOTE];
  }

  // Colours

  /** `Color32`: four byte channels. */
  datatype Color32 = Color32(r: Byte, g: Byte, b: Byte, a: Byte)

  /** The "x02" format of one channel: two lower-case hexadecimal digits. */
  function Hex2(b: Byte): seq<CodeUnit>
  {
    [HexDigit(b as int / 16), HexDigit(b as int % 16)]
  }

  /** `WriteColorRGBA`: "#rrggbbaa" in quotes. */
  function ColorRGBA(c: Color32): (t: seq<CodeUnit>)
    ensures |t| == 11 && t[0] == QUOTE && t[1] == HASH && t[10] == QUOTE
  {
    [QUOTE, HASH] + Hex2(c.r) + Hex2(c.g) + Hex2(c.b) + Hex2(c.a) + [QUOTE]
  }

  /** A channel read back from two hexadecimal digits. */
  function ParseByte(t: seq<CodeUnit>): Option<Byte>
    requires |t| == 2
  {
    match (DigitValue(t[0]), DigitValue(t[1]))
    case (Some(h), Some(l)) => Some((16 * h + l) as Byte)
    case _ => None
  }

  /** A colour read back from the quoted "#rrggbbaa" form. */
  function ParseColor(t: seq<CodeUnit>): Option<Color32>
  {
    if |t| != 11 || t[0] != QUOTE || t[1] != HASH || t[10] != QUOTE then None
    else match (ParseByte(t[2..4]), ParseByte(t[4..6]), ParseByte(t[6..8]), ParseByte(t[8..10]))
      case (Some(r), Some(g), Some(b), Some(a)) => Some(Color32(r, g, b, a))
      case _ => None
  }

  lemma ParseHex2(b: Byte)
    ensures ParseByte(Hex2(b)) == Some(b)
  {
    DigitValueOfHexDigit(b as int / 16);
    DigitValueOfHexDigit(b as int % 16);
  }

  /** The written colour reads back as the colour. */
  lemma ColorRoundTrip(c: Color32)
    ensures ParseColor(ColorRGBA(c)) == Some(c)
  {
    var t := ColorRGBA(c);
    assert t[2..4] == Hex2(c.r) && t[4..6] == Hex2(c.g) && t[6..8] == Hex2(c.b) && t[8..10] == Hex2(c.a);
    ParseHex2(c.r);
    ParseHex2(c.g);
    ParseHex2(c.b);
    ParseHex2(c.a);
  }

  // Children

  /** Why writing JSON can fail: `ChildrenToJson` reads `firstChild` without checking it for null. */
  datatype Fault = NullReference

  /** ASCII text as code units. */
  function Ascii(s: string): (t: seq<CodeUnit>)
    requires forall i :: 0 <= i < |s| ==> s[i] < 128 as char
    ensures |t| == |s|
  {
    seq(|s|, i requires 0 <= i < |s| => s[i] as int as CodeUnit)
  }

  /** The children's objects, separated by commas. */
  function Joined(parts: seq<seq<CodeUnit>>): seq<CodeUnit>
    requires |parts| > 0
  {
    if |parts| == 1 then parts[0] else Joined(parts[..|parts| - 1]) + [COMMA] + parts[|parts| - 1]
  }

  /** Where child k's object starts in `Joined(parts)`: after every earlier object and its comma. */
  function Offset(parts: seq<seq<CodeUnit>>, k: nat): nat
    requires k <= |parts|
  {
    if k == 0 then 0 else Offset(parts, k - 1) + |parts[k - 1]| + 1
  }

  /**
   * The children are written in child order: child k's object sits at `Offset(parts, k)`, with a
   * comma just before it when it is not the first, and nothing follows the last one.
   */
  lemma {:induction false} JoinedInOrder(parts: seq<seq<CodeUnit>>, k: nat)
    requires k < |parts|
    ensures var o := Offset(parts, k);
      o + |parts[k]| <= |Joined(parts)| && Joined(parts)[o..o + |parts[k]|] == parts[k]
    ensures k > 0 ==> Joined(parts)[Offset(parts, k) - 1] == COMMA
    ensures |Joined(parts)| == Offset(parts, |parts|) - 1
    decreases |parts|
  {
    var n := |parts|;
    if n == 1 {
    } else {
      var init := parts[..n - 1];
      assert forall j :: 0 <= j <= n - 1 ==> Offset(init, j) == Offset(parts, j) by {
        forall j | 0 <= j <= n - 1 ensures Offset(init, j) == Offset(parts, j) {
          OffsetPrefix(parts, init, j);
        }
      }
      if k < n - 1 {
        JoinedInOrder(init, k);
      } else {
        JoinedInOrder(init, 0);
      }
    }
  }

  lemma {:induction false} OffsetPrefix(parts: seq<seq<CodeUnit>>, init: seq<seq<CodeUnit>>, j: nat)
    requires |init| <= |parts| && init == parts[..|init|] && j <= |init|
    ensures Offset(init, j) == Offset(parts, j)
  {
    if j > 0 {
      OffsetPrefix(parts, init, j - 1);
    }
  }

  /**
   * `ChildrenToJson`: "children":[ then the children's objects comma-separated, then ]; no child
   * is a null dereference. The source has already written "children":[ to the stream when it
   * throws; `Failure(NullReference)` carries no partial output.
   */
  function ChildrenJson(parts: seq<seq<CodeUnit>>): (r: Result<seq<CodeUnit>, Fault>)
    ensures r.Failure? <==> |parts| == 0
    ensures r.Success? ==> |r.value| >= 13 && r.value[..12] == Ascii("\"children\":[") && r.value[|r.value| - 1] == Ascii("]")[0]
  {
    if |parts| == 0 then Failure(NullReference)
    else Success(Ascii("\"children\":[") + Joined(parts) + Ascii("]"))
  }

  /**
   * `ChildrenToJson` as its loop writes it: the children's objects, in child order, with a comma
   * between two of them; with no child the first dereference fails.
   */
  method ChildrenToJson(parts: seq<seq<CodeUnit>>) returns (r: Result<seq<CodeUnit>, Fault>)
    ensures r == ChildrenJson(parts)
  {
    var written := Ascii("\"children\":[");
    if |parts| == 0 {
      return Failure(NullReference);
    }
    var k := 0;
    written := written + parts[0];
    assert parts[..1] == [parts[0]];
    while true
      invariant k < |parts|
      invariant written == Ascii("\"children\":[") + Joined(parts[..k + 1])
      decreases |parts| - k
    {
      if k + 1 == |parts| {
        break;
      }
      written := written + [COMMA] + parts[k + 1];
      k := k + 1;
      assert parts[..k + 1][..k] == parts[..k];
    }
    assert parts[..k + 1] == parts;
    r := Success(written + Ascii("]"));
  }
}
