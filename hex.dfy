/** Hexadecimal digits as the sketch converts them (main.cpp:224-303).
    Characters are their integer codes; -1 is what Serial.read() gives
    when nothing is waiting, and it is never a digit. */
module Hex {

  /** avr-libc toupper: 'a'..'z' become upper case, every other value is kept. */
  function ToUpper(c: int): int
  {
    if 'a' as int <= c <= 'z' as int then c - 32 else c
  }

  /** avr-libc tolower. */
  function ToLower(c: int): int
  {
    if 'A' as int <= c <= 'Z' as int then c + 32 else c
  }

  /** An upper-case hexadecimal digit. */
  predicate IsHexDigit(c: int)
  {
    '0' as int <= c <= '9' as int || 'A' as int <= c <= 'F' as int
  }

  /** hex_digit_val_dec: the sixteen-case switch of the source. */
  function HexDigitValue(ch: int): (v: int)
    ensures -1 <= v <= 15
    ensures v == -1 <==> !IsHexDigit(ch)
    ensures '0' as int <= ch <= '9' as int ==> v == ch - '0' as int
    ensures 'A' as int <= ch <= 'F' as int ==> v == ch - 'A' as int + 10
  {
    if ch == '0' as int then 0
    else if ch == '1' as int then 1
    else if ch == '2' as int then 2
    else if ch == '3' as int then 3
    else if ch == '4' as int then 4
    else if ch == '5' as int then 5
    else if ch == '6' as int then 6
    else if ch == '7' as int then 7
    else if ch == '8' as int then 8
    else if ch == '9' as int then 9
    else if ch == 'A' as int then 10
    else if ch == 'B' as int then 11
    else if ch == 'C' as int then 12
    else if ch == 'D' as int then 13
    else if ch == 'E' as int then 14
    else if ch == 'F' as int then 15
    else -1
  }

  /** The digit Arduino's print(n, HEX) emits for 0 <= n < 16 (upper case). */
  function HexChar(n: int): (c: int)
    requires 0 <= n < 16
    ensures IsHexDigit(c)
    ensures HexDigitValue(c) == n
  {
    if n < 10 then '0' as int + n else 'A' as int + n - 10
  }

  /** hexstr_to_int: a two-character string of hex digits (either case) to
      its value, -1 for any other length or character. */
  function HexStrToInt(hex: seq<int>): (r: int)
  {
    if |hex| == 2 then
      var hi := HexDigitValue(ToUpper(hex[0]));
      if hi == -1 then -1
      else
        var lo := HexDigitValue(ToUpper(hex[1]));
        if lo == -1 then -1 else hi * 16 + lo
    else -1
  }

  /** What hexstr_to_int accepts and what it yields: both directions. */
  lemma HexStrToIntSpec(hex: seq<int>)
    ensures var r := HexStrToInt(hex);
      && -1 <= r < 256
      && (r != -1 <==> |hex| == 2 && IsHexDigit(ToUpper(hex[0])) && IsHexDigit(ToUpper(hex[1])))
      && (r != -1 ==> r == 16 * HexDigitValue(ToUpper(hex[0])) + HexDigitValue(ToUpper(hex[1])))
  {
  }

  /** The upper-case pair that print_mem shows for a byte converts back to it. */
  lemma HexStrToIntOfHexChars(b: int)
    requires 0 <= b < 256
    ensures HexStrToInt([HexChar(b / 16), HexChar(b % 16)]) == b
  {
  }

  /** The same byte typed in lower case converts to the same value. */
  lemma HexStrToIntLowerCase(b: int)
    requires 0 <= b < 256
    ensures HexStrToInt([ToLower(HexChar(b / 16)), ToLower(HexChar(b % 16))]) == b
  {
  }
}
