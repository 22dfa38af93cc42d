/** Byte classes of JSON text (RFC 8259), as the extractor tests them.
    A byte is carried as the character with the same code, so a record is a string. */
module JsonBytes {
  type Byte = char

  const QUOTE: Byte := '\"'
  const BACKSLASH: Byte := '\\'
  const KEY: string := "cwd"

  predicate IsWhitespace(b: Byte) {
    b == ' ' || b == '\t' || b == '\r' || b == '\n'
  }

  predicate IsDelimiter(b: Byte) {
    IsWhitespace(b) || b == ',' || b == '}' || b == ']'
  }

  predicate IsDigit(b: Byte) {
    '0' <= b <= '9'
  }

  predicate IsNonZeroDigit(b: Byte) {
    '1' <= b <= '9'
  }

  predicate IsHexDigit(b: Byte) {
    '0' <= b <= '9' || 'a' <= b <= 'f' || 'A' <= b <= 'F'
  }

  function HexValue(b: Byte): (v: nat)
    requires IsHexDigit(b)
    ensures v < 16
  {
    if '0' <= b <= '9' then b as int - '0' as int
    else if 'a' <= b <= 'f' then b as int - 'a' as int + 10
    else b as int - 'A' as int + 10
  }

  predicate IsShortEscape(b: Byte) {
    b == QUOTE || b == BACKSLASH || b == '/' || b == 'b' || b == 'f' || b == 'n' || b == 'r' || b == 't'
  }

  predicate AllWhitespace(s: string) {
    forall i :: 0 <= i < |s| ==> IsWhitespace(s[i])
  }

  predicate AllDigits(s: string) {
    forall i :: 0 <= i < |s| ==> IsDigit(s[i])
  }

  /** The classes byte by byte: which bytes are whitespace, end a token, are digits, or may follow a backslash. */
  lemma ClassesAreListed(b: Byte)
    ensures IsWhitespace(b) <==> b in " \t\n\r"
    ensures IsDelimiter(b) <==> b in " \t\n\r,]}"
    ensures IsDigit(b) <==> b in "0123456789"
    ensures IsNonZeroDigit(b) <==> b in "123456789"
    ensures IsShortEscape(b) <==> b in "\"\\/bfnrt"
  {
    DigitsAreListed(b);
  }

  lemma DigitsAreListed(b: Byte)
    ensures IsDigit(b) <==> b in "0123456789"
    ensures IsHexDigit(b) <==> b in "0123456789abcdefABCDEF"
  {
    if IsDigit(b) {
      var i := b as int - '0' as int;
      assert "0123456789"[i] == b;
    }
    if 'a' <= b <= 'f' {
      var i := b as int - 'a' as int + 10;
      assert "0123456789abcdefABCDEF"[i] == b;
    } else if 'A' <= b <= 'F' {
      var i := b as int - 'A' as int + 16;
      assert "0123456789abcdefABCDEF"[i] == b;
    } else if IsDigit(b) {
      assert "0123456789abcdefABCDEF"[b as int - '0' as int] == b;
    }
  }

  /** A hexadecimal digit is worth its place among the digits, in either case. */
  lemma HexDigitsCount(i: nat)
    requires i < 16
    ensures IsHexDigit("0123456789abcdef"[i]) && HexValue("0123456789abcdef"[i]) == i
    ensures IsHexDigit("0123456789ABCDEF"[i]) && HexValue("0123456789ABCDEF"[i]) == i
  {
  }
}
