/** Addresses as text: what is printed parses back, and what parses prints back. */
module Hex {
  import opened Prelude

  datatype HexError = WrongLength(got: nat) | NotHex

  /** Unicode's White_Space characters, which `trim` removes. */
  predicate IsSpace(c: char) {
    var n := c as int;
    || 0x09 <= n <= 0x0D || n == 0x20 || n == 0x85 || n == 0xA0 || n == 0x1680
    || 0x2000 <= n <= 0x200A || n == 0x2028 || n == 0x2029 || n == 0x202F || n == 0x205F || n == 0x3000
  }

  function TrimStart(text: string): string {
    if text != [] && IsSpace(text[0]) then TrimStart(text[1..]) else text
  }

  function TrimEnd(text: string): string {
    if text != [] && IsSpace(text[|text| - 1]) then TrimEnd(text[..|text| - 1]) else text
  }

  function Trim(text: string): string {
    TrimEnd(TrimStart(text))
  }

  function Utf8(c: char): Bytes {
    var n := c as int;
    if n < 0x80 then [n]
    else if n < 0x800 then [0xC0 + n / 0x40, 0x80 + n % 0x40]
    else if n < 0x1_0000 then [0xE0 + n / 0x1000, 0x80 + n / 0x40 % 0x40, 0x80 + n % 0x40]
    else [0xF0 + n / 0x4_0000 % 8, 0x80 + n / 0x1000 % 0x40, 0x80 + n / 0x40 % 0x40, 0x80 + n % 0x40]
  }

  /** `text.as_bytes()` */
  function AsBytes(text: string): Bytes {
    if text == [] then [] else Utf8(text[0]) + AsBytes(text[1..])
  }

  /** `hex_digit` */
  function Digit(byte: Byte): Option<nat> {
    if 0x30 <= byte <= 0x39 then Some(byte - 0x30)
    else if 0x61 <= byte <= 0x66 then Some(byte - 0x61 + 10)
    else if 0x41 <= byte <= 0x46 then Some(byte - 0x41 + 10)
    else None
  }

  predicate IsHexChar(c: char) {
    '0' <= c <= '9' || 'a' <= c <= 'f' || 'A' <= c <= 'F'
  }

  function Lower(c: char): char {
    if 'A' <= c <= 'F' then ((c as int) + 32) as char else c
  }

  function LowerAll(text: string): string {
    seq(|text|, i requires 0 <= i < |text| => Lower(text[i]))
  }

  function DigitChar(n: nat): char
    requires n < 16
  {
    if n < 10 then (0x30 + n) as char else (0x61 + n - 10) as char
  }

  /** `hex` and `toHex`: two lower-case digits a byte. */
  function Print(bytes: Bytes): string {
    if bytes == [] then []
    else [DigitChar(bytes[0] / 16), DigitChar(bytes[0] % 16)] + Print(bytes[1..])
  }

  /** The bytes that pairs of digits spell, when all are digits. */
  function Pairs(digits: Bytes): Option<Bytes>
    requires |digits| % 2 == 0
  {
    if digits == [] then Some([])
    else
      match (Digit(digits[0]), Digit(digits[1]), Pairs(digits[2..]))
      case (Some(hi), Some(lo), Some(rest)) => Some([hi * 16 + lo] + rest)
      case _ => None
  }

  method ParseHexAddress(text: string) returns (r: Result<Bytes, HexError>)
    ensures r == Parse(text)
  {
    var digits := AsBytes(Trim(text));
    if |digits| != 2 * ADDRESS_LEN {
      return Err(WrongLength(|digits|));
    }
    var out: Bytes := [];
    var left := digits;
    assert Pairs(digits).Some? ==> out + Pairs(digits).value == Pairs(digits).value;
    while left != []
      invariant |left| % 2 == 0
      invariant Pairs(digits) == if Pairs(left).None? then None else Some(out + Pairs(left).value)
      decreases |left|
    {
      var hi, lo := Digit(left[0]), Digit(left[1]);
      if hi.None? || lo.None? {
        return Err(NotHex);
      }
      if Pairs(left[2..]).Some? {
        assert out + ([hi.value * 16 + lo.value] + Pairs(left[2..]).value)
            == out + [hi.value * 16 + lo.value] + Pairs(left[2..]).value;
      }
      out := out + [hi.value * 16 + lo.value];
      left := left[2..];
    }
    assert out + [] == out;
    r := Ok(out);
  }

  /** What parsing a text means. */
  function Parse(text: string): Result<Bytes, HexError> {
    var digits := AsBytes(Trim(text));
    if |digits| != 2 * ADDRESS_LEN then Err(WrongLength(|digits|))
    else
      match Pairs(digits)
      case None => Err(NotHex)
      case Some(bytes) => Ok(bytes)
  }

  // ----- Text and bytes agree on hex digits -----

  lemma DigitsAreChars(c: char)
    ensures IsHexChar(c) <==> Digit(Utf8(c)[0]).Some?
    ensures IsHexChar(c) ==> Utf8(c) == [c as int] && !IsSpace(c)
    ensures IsHexChar(c) ==> Digit(c as int).value < 16 && DigitChar(Digit(c as int).value) == Lower(c)
  {
  }

  lemma {:induction false} AsciiBytes(text: string)
    requires forall i :: 0 <= i < |text| ==> IsHexChar(text[i])
    ensures |AsBytes(text)| == |text|
    ensures forall i :: 0 <= i < |text| ==> AsBytes(text)[i] == text[i] as int
  {
    if text != [] {
      DigitsAreChars(text[0]);
      AsciiBytes(text[1..]);
    }
  }

  lemma {:induction false} AllDigitsMeansHex(text: string)
    requires forall i :: 0 <= i < |AsBytes(text)| ==> Digit(AsBytes(text)[i]).Some?
    ensures forall i :: 0 <= i < |text| ==> IsHexChar(text[i])
  {
    if text != [] {
      var bytes := AsBytes(text);
      assert bytes[0] == Utf8(text[0])[0];
      DigitsAreChars(text[0]);
      forall i | 0 <= i < |AsBytes(text[1..])| ensures Digit(AsBytes(text[1..])[i]).Some? {
        assert AsBytes(text[1..])[i] == bytes[i + |Utf8(text[0])|];
      }
      AllDigitsMeansHex(text[1..]);
    }
  }

  lemma {:induction false} PairsIffDigits(digits: Bytes)
    requires |digits| % 2 == 0
    ensures Pairs(digits).Some? <==> forall i :: 0 <= i < |digits| ==> Digit(digits[i]).Some?
    ensures Pairs(digits).Some? ==> |Pairs(digits).value| == |digits| / 2
  {
    if digits != [] {
      PairsIffDigits(digits[2..]);
      assert forall i :: 2 <= i < |digits| ==> digits[i] == digits[2..][i - 2];
      assert forall i :: 0 <= i < |digits[2..]| ==> digits[2..][i] == digits[i + 2];
    }
  }

  /** A text is accepted exactly when, trimmed, it is 64 hex digits. */
  lemma AcceptedIffHex(text: string)
    ensures Parse(text).Ok? <==>
            |Trim(text)| == 2 * ADDRESS_LEN && forall i :: 0 <= i < |Trim(text)| ==> IsHexChar(Trim(text)[i])
    ensures Parse(text).Ok? ==> |Parse(text).value| == ADDRESS_LEN
  {
    var trimmed := Trim(text);
    var digits := AsBytes(trimmed);
    if |digits| == 2 * ADDRESS_LEN {
      PairsIffDigits(digits);
      if Pairs(digits).Some? {
        AllDigitsMeansHex(trimmed);
        AsciiBytes(trimmed);
      }
    }
    if |trimmed| == 2 * ADDRESS_LEN && forall i :: 0 <= i < |trimmed| ==> IsHexChar(trimmed[i]) {
      AsciiBytes(trimmed);
      forall i | 0 <= i < |digits| ensures Digit(digits[i]).Some? {
        DigitsAreChars(trimmed[i]);
      }
      PairsIffDigits(digits);
    }
  }

  // ----- What a text spells -----

  /** The code points that have Unicode's White_Space property. */
  const WHITE_SPACE: set<int> := {
    0x09, 0x0A, 0x0B, 0x0C, 0x0D, 0x20, 0x85, 0xA0, 0x1680, 0x2000, 0x2001, 0x2002, 0x2003, 0x2004, 0x2005,
    0x2006, 0x2007, 0x2008, 0x2009, 0x200A, 0x2028, 0x2029, 0x202F, 0x205F, 0x3000 }

  ghost predicate Blank(text: string) {
    forall i :: 0 <= i < |text| ==> text[i] as int in WHITE_SPACE
  }

  /** Neither the first nor the last character is white space. */
  ghost predicate Tight(text: string) {
    text != [] ==> text[0] as int !in WHITE_SPACE && text[|text| - 1] as int !in WHITE_SPACE
  }

  const HEX_DIGITS: set<char> := {
    '0', '1', '2', '3', '4', '5', '6', '7', '8', '9', 'a', 'b', 'c', 'd', 'e', 'f', 'A', 'B', 'C', 'D', 'E', 'F' }

  lemma HexDigits(text: string)
    ensures (forall i :: 0 <= i < |text| ==> IsHexChar(text[i])) <==>
            forall i :: 0 <= i < |text| ==> text[i] in HEX_DIGITS
  {
  }

  lemma SpacesAreWhite(c: char)
    ensures IsSpace(c) <==> c as int in WHITE_SPACE
  {
  }

  lemma {:induction false} TrimStartDropsBlank(pre: string, text: string)
    requires (forall i :: 0 <= i < |pre| ==> IsSpace(pre[i])) && (text != [] ==> !IsSpace(text[0]))
    ensures TrimStart(pre + text) == text
  {
    if pre == [] {
      assert pre + text == text;
    } else {
      assert (pre + text)[1..] == pre[1..] + text;
      TrimStartDropsBlank(pre[1..], text);
    }
  }

  lemma {:induction false} TrimEndDropsBlank(text: string, post: string)
    requires (forall i :: 0 <= i < |post| ==> IsSpace(post[i])) && (text != [] ==> !IsSpace(text[|text| - 1]))
    ensures TrimEnd(text + post) == text
  {
    if post == [] {
      assert text + post == text;
    } else {
      var n := |text + post| - 1;
      assert (text + post)[n] == post[|post| - 1];
      assert (text + post)[..n] == text + post[..|post| - 1];
      TrimEndDropsBlank(text, post[..|post| - 1]);
    }
  }

  /** Trimming removes the white space at both ends and nothing else. */
  lemma TrimKeepsCore(pre: string, core: string, post: string)
    requires Blank(pre) && Tight(core) && Blank(post)
    ensures Trim(pre + core + post) == core
  {
    forall c: char ensures IsSpace(c) <==> c as int in WHITE_SPACE {
      SpacesAreWhite(c);
    }
    if core == [] {
      assert pre + core + post == pre + post + [];
      TrimStartDropsBlank(pre + post, []);
    } else {
      assert pre + core + post == pre + (core + post);
      TrimStartDropsBlank(pre, core + post);
      TrimEndDropsBlank(core, post);
    }
  }

  /** The value of a hex digit, and the bytes a character takes in UTF-8. */
  ghost function Value(c: char): int {
    if '0' <= c <= '9' then c as int - '0' as int
    else if 'a' <= c <= 'f' then c as int - 'a' as int + 10
    else c as int - 'A' as int + 10
  }

  ghost function Width(c: char): nat {
    if c as int <= 0x7F then 1 else if c as int <= 0x7FF then 2 else if c as int <= 0xFFFF then 3 else 4
  }

  ghost function TotalWidth(text: string): nat {
    if text == [] then 0 else Width(text[0]) + TotalWidth(text[1..])
  }

  lemma {:induction false} BytesHaveWidth(text: string)
    ensures |AsBytes(text)| == TotalWidth(text)
  {
    if text != [] {
      BytesHaveWidth(text[1..]);
    }
  }

  lemma {:induction false} PairsSpell(core: string, digits: Bytes)
    requires |core| == |digits| && |core| % 2 == 0
    requires forall i :: 0 <= i < |core| ==> IsHexChar(core[i]) && digits[i] == core[i] as int
    ensures Pairs(digits).Some? && |Pairs(digits).value| * 2 == |core|
    ensures forall i :: 0 <= i < |Pairs(digits).value| ==>
              Pairs(digits).value[i] == 16 * Value(core[2 * i]) + Value(core[2 * i + 1])
  {
    if core != [] {
      var rest := core[2..];
      PairsSpell(rest, digits[2..]);
      forall i | 0 <= i < |Pairs(digits).value|
        ensures Pairs(digits).value[i] == 16 * Value(core[2 * i]) + Value(core[2 * i + 1])
      {
        if i > 0 {
          assert core[2 * i] == rest[2 * (i - 1)] && core[2 * i + 1] == rest[2 * (i - 1) + 1];
          assert Pairs(digits).value[i] == Pairs(digits[2..]).value[i - 1];
        }
      }
    }
  }

  /**
   Parsing any text, given as its core between white space: it is accepted exactly
   when the core is 64 hex digits, and then each byte is the pair of digits at its
   place, the higher one first; a core that is not 64 bytes long and a core of 64
   bytes that are not all digits have their own errors.
   */
  lemma ParseSpells(pre: string, core: string, post: string)
    requires Blank(pre) && Tight(core) && Blank(post)
    ensures Parse(pre + core + post).Ok? <==> |core| == 64 && forall i :: 0 <= i < |core| ==> core[i] in HEX_DIGITS
    ensures Parse(pre + core + post).Ok? ==>
              && |Parse(pre + core + post).value| == 32
              && forall i :: 0 <= i < 32 ==>
                   Parse(pre + core + post).value[i] == 16 * Value(core[2 * i]) + Value(core[2 * i + 1])
    ensures TotalWidth(core) != 64 ==> Parse(pre + core + post) == Err(WrongLength(TotalWidth(core)))
    ensures Parse(pre + core + post) == Err(NotHex) <==>
            TotalWidth(core) == 64 && exists i :: 0 <= i < |core| && core[i] !in HEX_DIGITS
  {
    var text := pre + core + post;
    HexDigits(core);
    TrimKeepsCore(pre, core, post);
    BytesHaveWidth(core);
    AcceptedIffHex(text);
    if |core| == 64 && forall i :: 0 <= i < |core| ==> IsHexChar(core[i]) {
      AsciiBytes(core);
      PairsSpell(core, AsBytes(core));
    }
    if TotalWidth(core) == 64 && forall i :: 0 <= i < |core| ==> IsHexChar(core[i]) {
      AsciiBytes(core);
    }
  }

  /** Every text is white space, a tight core, white space. */
  lemma TrimSplits(text: string) returns (pre: string, core: string, post: string)
    ensures text == pre + core + post && Blank(pre) && Tight(core) && Blank(post)
    ensures Trim(text) == core
  {
    var from, to := 0, |text|;
    while from < |text| && text[from] as int in WHITE_SPACE
      invariant 0 <= from <= |text| && Blank(text[..from])
    {
      from := from + 1;
    }
    while to > from && text[to - 1] as int in WHITE_SPACE
      invariant from <= to <= |text| && Blank(text[to..])
    {
      to := to - 1;
    }
    pre, core, post := text[..from], text[from..to], text[to..];
    TrimKeepsCore(pre, core, post);
    assert text == pre + core + post;
  }

  // ----- Round trips -----

  lemma {:induction false} PrintPairs(text: string, digits: Bytes)
    requires |text| == |digits| && |text| % 2 == 0
    requires forall i :: 0 <= i < |text| ==> IsHexChar(text[i]) && digits[i] == text[i] as int
    ensures Pairs(digits).Some? && Print(Pairs(digits).value) == LowerAll(text)
  {
    if text != [] {
      PrintPairs(text[2..], digits[2..]);
      DigitsAreChars(text[0]);
      DigitsAreChars(text[1]);
      var byte := Digit(digits[0]).value * 16 + Digit(digits[1]).value;
      assert byte / 16 == Digit(digits[0]).value && byte % 16 == Digit(digits[1]).value;
      assert LowerAll(text) == [Lower(text[0]), Lower(text[1])] + LowerAll(text[2..]);
    }
  }

  /** Printing what was parsed gives the text trimmed and in lower case. */
  lemma PrintUndoesParse(text: string)
    requires Parse(text).Ok?
    ensures Print(Parse(text).value) == LowerAll(Trim(text))
  {
    AcceptedIffHex(text);
    AsciiBytes(Trim(text));
    PrintPairs(Trim(text), AsBytes(Trim(text)));
  }

  lemma {:induction false} PrintIsHex(bytes: Bytes)
    ensures |Print(bytes)| == 2 * |bytes|
    ensures forall i :: 0 <= i < |Print(bytes)| ==> IsHexChar(Print(bytes)[i])
  {
    if bytes != [] {
      PrintIsHex(bytes[1..]);
    }
  }

  /** Each byte is printed as two lower-case digits, the higher one first. */
  lemma {:induction false} PrintSpells(bytes: Bytes)
    ensures |Print(bytes)| == 2 * |bytes|
    ensures forall i :: 0 <= i < |bytes| ==>
              Print(bytes)[2 * i] == "0123456789abcdef"[bytes[i] / 16] &&
              Print(bytes)[2 * i + 1] == "0123456789abcdef"[bytes[i] % 16]
  {
    PrintIsHex(bytes);
    if bytes != [] {
      PrintSpells(bytes[1..]);
      DigitsInOrder(bytes[0] / 16);
      DigitsInOrder(bytes[0] % 16);
      forall i | 0 < i < |bytes|
        ensures Print(bytes)[2 * i] == "0123456789abcdef"[bytes[i] / 16]
        ensures Print(bytes)[2 * i + 1] == "0123456789abcdef"[bytes[i] % 16]
      {
        assert Print(bytes)[2 * i] == Print(bytes[1..])[2 * (i - 1)];
        assert Print(bytes)[2 * i + 1] == Print(bytes[1..])[2 * (i - 1) + 1];
      }
    }
  }

  lemma DigitsInOrder(n: nat)
    requires n < 16
    ensures DigitChar(n) == "0123456789abcdef"[n]
  {
  }

  lemma {:induction false} PairsOfPrinted(bytes: Bytes, digits: Bytes)
    requires |digits| == 2 * |bytes| && |Print(bytes)| == |digits|
    requires forall i :: 0 <= i < |digits| ==> digits[i] == Print(bytes)[i] as int
    ensures Pairs(digits) == Some(bytes)
  {
    if bytes != [] {
      var text := Print(bytes);
      assert text[2..] == Print(bytes[1..]);
      PairsOfPrinted(bytes[1..], digits[2..]);
      assert digits[0] == DigitChar(bytes[0] / 16) as int && digits[1] == DigitChar(bytes[0] % 16) as int;
      assert Digit(digits[0]) == Some(bytes[0] / 16) && Digit(digits[1]) == Some(bytes[0] % 16);
      assert bytes == [bytes[0]] + bytes[1..];
    }
  }

  /** Parsing the printed form of any address gives the address back. */
  lemma ParseUndoesPrint(address: Address)
    ensures Parse(Print(address)) == Ok(address)
  {
    var text := Print(address);
    PrintIsHex(address);
    DigitsAreChars(text[0]);
    DigitsAreChars(text[|text| - 1]);
    assert Trim(text) == text;
    AsciiBytes(text);
    PairsOfPrinted(address, AsBytes(text));
  }
}
