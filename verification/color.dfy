/**
 * `hexToRGBA`: the red, green and blue channels of a `#rrggbb` colour, each
 * parsed in base 16 from a two-character slice. The formatting of the result
 * into an rgba string is not modelled; the channels and the opacity are
 * returned as they would be formatted.
 */
module Color {
  import opened Wrappers
  import Field

  predicate IsHexDigit(c: char) {
    '0' <= c <= '9' || 'a' <= c <= 'f' || 'A' <= c <= 'F'
  }

  predicate AllHexDigits(s: string) {
    forall i :: 0 <= i < |s| ==> IsHexDigit(s[i])
  }

  function HexDigitValue(c: char): (v: nat)
    requires IsHexDigit(c)
    ensures v < 16
  {
    if '0' <= c <= '9' then (c as int - '0' as int)
    else if 'a' <= c <= 'f' then (c as int - 'a' as int) + 10
    else (c as int - 'A' as int) + 10
  }

  /** The lower-case digit for 0 .. 15. */
  function HexDigit(v: nat): (c: char)
    requires v < 16
    ensures IsHexDigit(c) && HexDigitValue(c) == v
  {
    if v < 10 then ('0' as int + v) as char else ('a' as int + v - 10) as char
  }

  function Pow16(n: nat): (p: nat)
    ensures 0 < p
  {
    if n == 0 then 1 else 16 * Pow16(n - 1)
  }

  /** The base-16 value of a string of hex digits, most significant digit first. */
  function HexValue(digits: string): (v: nat)
    requires AllHexDigits(digits)
    ensures v < Pow16(|digits|)
  {
    if |digits| == 0 then 0
    else HexValue(digits[..|digits| - 1]) * 16 + HexDigitValue(digits[|digits| - 1])
  }

  /** The number of hex digits `s` starts with. */
  function HexPrefixLength(s: string): (n: nat)
    ensures n <= |s| && AllHexDigits(s[..n])
    ensures n < |s| ==> !IsHexDigit(s[n])
  {
    if |s| == 0 || !IsHexDigit(s[0]) then 0
    else
      var n := 1 + HexPrefixLength(s[1..]);
      assert s[..n] == [s[0]] + s[1..][..n - 1];
      n
  }

  /**
   * `parseInt(s, 16)`: an optional sign, an optional `0x`/`0X` prefix, then
   * the longest run of hex digits; NaN (`None`) when that run is empty.
   */
  function ParseIntHex(s: string): (r: Option<int>)
    ensures |s| == 0 ==> r.None?
    ensures 0 < |s| && AllHexDigits(s) ==> r == Some(HexValue(s))
  {
    var negative := 0 < |s| && s[0] == '-';
    var unsigned := if 0 < |s| && (s[0] == '-' || s[0] == '+') then s[1..] else s;
    var body := if 2 <= |unsigned| && unsigned[0] == '0' && (unsigned[1] == 'x' || unsigned[1] == 'X')
                then unsigned[2..] else unsigned;
    var n := HexPrefixLength(body);
    assert AllHexDigits(s) ==> body == s && n == |s| && body[..n] == s;
    if n == 0 then None
    else if negative then Some(-(HexValue(body[..n]) as int))
    else Some(HexValue(body[..n]))
  }

  /** `String.prototype.slice(start, end)` for non-negative bounds: both clamped to the length. */
  function Slice(s: string, start: nat, end: nat): (r: string)
    ensures start <= end <= |s| ==> r == s[start..end]
    ensures start <= |s| <= end ==> r == s[start..]
    ensures |s| <= start || end <= start ==> r == []
  {
    var b := if start < |s| then start else |s|;
    var e := if end < |s| then end else |s|;
    if b < e then s[b..e] else []
  }

  /** The channels `hexToRGBA` formats, and the opacity it passes through. */
  datatype Rgba = Rgba(red: Option<int>, green: Option<int>, blue: Option<int>, opacity: real)

  /** A `#rrggbb` colour. */
  predicate WellFormedColor(hex: string) {
    |hex| == 7 && hex[0] == '#' && forall i :: 1 <= i < 7 ==> IsHexDigit(hex[i])
  }

  /** The value of the two hex digits at `hex[i]` and `hex[i + 1]`. */
  function Channel(hex: string, i: nat): (v: nat)
    requires i + 1 < |hex| && IsHexDigit(hex[i]) && IsHexDigit(hex[i + 1])
    ensures v <= 255
  {
    16 * HexDigitValue(hex[i]) + HexDigitValue(hex[i + 1])
  }

  /** Two hex digits at `hex[i]`, `hex[i + 1]` parse to their channel value. */
  lemma ParsedChannel(hex: string, i: nat)
    ensures i + 1 < |hex| && IsHexDigit(hex[i]) && IsHexDigit(hex[i + 1]) ==>
      ParseIntHex(Slice(hex, i, i + 2)) == Some(Channel(hex, i))
  {
    if i + 1 < |hex| && IsHexDigit(hex[i]) && IsHexDigit(hex[i + 1]) {
      var digits := hex[i..i + 2];
      assert digits[..1] == [hex[i]];
      assert HexValue(digits[..1]) == HexDigitValue(hex[i]) by {
        assert digits[..1][..0] == [];
      }
    }
  }

  lemma ParsedChannels(hex: string)
    ensures WellFormedColor(hex) ==>
      && ParseIntHex(Slice(hex, 1, 3)) == Some(Channel(hex, 1))
      && ParseIntHex(Slice(hex, 3, 5)) == Some(Channel(hex, 3))
      && ParseIntHex(Slice(hex, 5, 7)) == Some(Channel(hex, 5))
  {
    if WellFormedColor(hex) {
      assert IsHexDigit(hex[1]) && IsHexDigit(hex[2]);
      assert IsHexDigit(hex[3]) && IsHexDigit(hex[4]);
      assert IsHexDigit(hex[5]) && IsHexDigit(hex[6]);
      ParsedChannel(hex, 1);
      ParsedChannel(hex, 3);
      ParsedChannel(hex, 5);
    }
  }

  /** `hexToRGBA`: red from characters 1-2, green from 3-4, blue from 5-6. */
  function HexToRGBA(hex: string, opacity: real): (c: Rgba)
    ensures c.opacity == opacity
    ensures WellFormedColor(hex) ==>
      && c.red == Some(Channel(hex, 1))
      && c.green == Some(Channel(hex, 3))
      && c.blue == Some(Channel(hex, 5))
  {
    ParsedChannels(hex);
    Rgba(ParseIntHex(Slice(hex, 1, 3)), ParseIntHex(Slice(hex, 3, 5)), ParseIntHex(Slice(hex, 5, 7)), opacity)
  }

  /** `#rrggbb` with lower-case digits for channel values below 256. */
  function ToHexColor(red: nat, green: nat, blue: nat): (hex: string)
    requires red < 256 && green < 256 && blue < 256
    ensures WellFormedColor(hex)
  {
    ['#', HexDigit(red / 16), HexDigit(red % 16), HexDigit(green / 16), HexDigit(green % 16),
     HexDigit(blue / 16), HexDigit(blue % 16)]
  }

  /** Reading back a formatted colour gives its channels: `hexToRGBA` inverts `ToHexColor`. */
  lemma HexToRGBARoundTrip(red: nat, green: nat, blue: nat, opacity: real)
    requires red < 256 && green < 256 && blue < 256
    ensures HexToRGBA(ToHexColor(red, green, blue), opacity) == Rgba(Some(red), Some(green), Some(blue), opacity)
  {
    var hex := ToHexColor(red, green, blue);
    assert Channel(hex, 1) == red;
    assert Channel(hex, 3) == green;
    assert Channel(hex, 5) == blue;
  }

  /**
   * The model's `HexToRGBA` on the default colours: the dot colour `#7f7f7f`
   * gives grey 127 on every channel, the vertex colour `#000000` black. (The
   * program parses only the vertex colour; the dot colour is used as a fill
   * style as it is.)
   */
  lemma DefaultColors(opacity: real)
    ensures HexToRGBA(Field.DefaultOptions.dotColor, opacity) == Rgba(Some(127), Some(127), Some(127), opacity)
    ensures HexToRGBA(Field.DefaultOptions.vertexColor, opacity) == Rgba(Some(0), Some(0), Some(0), opacity)
  {
    var dot, vertex := Field.DefaultOptions.dotColor, Field.DefaultOptions.vertexColor;
    assert dot == "#7f7f7f" && vertex == "#000000";
    assert WellFormedColor(dot) && Channel(dot, 1) == 127 && Channel(dot, 3) == 127 && Channel(dot, 5) == 127;
    assert WellFormedColor(vertex) && Channel(vertex, 1) == 0 && Channel(vertex, 3) == 0 && Channel(vertex, 5) == 0;
  }
}
