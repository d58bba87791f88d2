/**
 * `DisplayManager.HexToColor`: a fail-safe reader of the configured text colour.
 * All leading '#' characters are stripped; six remaining characters that
 * `int.TryParse(_, NumberStyles.HexNumber)` accepts give the red, green and blue
 * bytes; anything else gives opaque white.
 */
module HexColor {
  import opened Wrappers

  /** An XNA colour: four bytes, red, green, blue and alpha. */
  datatype Color = Color(r: int, g: int, b: int, a: int)

  const White: Color := Color(255, 255, 255, 255)

  /** `s.TrimStart(c)`: removes every leading occurrence of `c`. */
  function TrimStart(s: string, c: char): (t: string)
    ensures |t| <= |s|
    ensures t == [] || t[0] != c
    decreases |s|
  {
    if |s| > 0 && s[0] == c then TrimStart(s[1..], c) else s
  }

  /** What `TrimStart` removes: a run of `c` at the front, and all of it. */
  lemma {:induction false} TrimStartRemovesPrefix(s: string, c: char)
    ensures var t := TrimStart(s, c);
      && |t| <= |s| && t == s[|s| - |t|..]
      && (t == [] || t[0] != c)
      && forall i :: 0 <= i < |s| - |t| ==> s[i] == c
    decreases |s|
  {
    if |s| > 0 && s[0] == c {
      TrimStartRemovesPrefix(s[1..], c);
    }
  }

  /** White space as .NET number parsing understands it: U+0009 to U+000D and U+0020. */
  predicate IsWhite(c: char) {
    c == ' ' || '\t' <= c <= '\r'
  }

  predicate IsHexDigit(c: char) {
    '0' <= c <= '9' || 'a' <= c <= 'f' || 'A' <= c <= 'F'
  }

  predicate AllHex(s: string) {
    forall i :: 0 <= i < |s| ==> IsHexDigit(s[i])
  }

  function HexDigitValue(c: char): (v: nat)
    requires IsHexDigit(c)
    ensures v < 16
  {
    if '0' <= c <= '9' then c as int - '0' as int
    else if 'a' <= c <= 'f' then c as int - 'a' as int + 10
    else c as int - 'A' as int + 10
  }

  /** The value of a string of hexadecimal digits, most significant first. */
  function HexValue(s: string): nat
    requires AllHex(s)
    decreases |s|
  {
    if s == [] then 0
    else
      var prefix := s[..|s| - 1];
      assert AllHex(prefix) by {
        forall i | 0 <= i < |prefix| ensures IsHexDigit(prefix[i]) {
          assert prefix[i] == s[i];
        }
      }
      HexValue(prefix) * 16 + HexDigitValue(s[|s| - 1])
  }

  /** The number of white-space characters `s` starts with. */
  function LeadingWhite(s: string): (n: nat)
    ensures n <= |s|
    decreases |s|
  {
    if |s| > 0 && IsWhite(s[0]) then 1 + LeadingWhite(s[1..]) else 0
  }

  lemma {:induction false} LeadingWhiteIsMaximal(s: string)
    ensures forall i :: 0 <= i < LeadingWhite(s) ==> IsWhite(s[i])
    ensures LeadingWhite(s) < |s| ==> !IsWhite(s[LeadingWhite(s)])
    decreases |s|
  {
    if |s| > 0 && IsWhite(s[0]) {
      LeadingWhiteIsMaximal(s[1..]);
    }
  }

  /** The number of white-space characters `s` ends with. */
  function TrailingWhite(s: string): (n: nat)
    ensures n <= |s|
    decreases |s|
  {
    if |s| > 0 && IsWhite(s[|s| - 1]) then 1 + TrailingWhite(s[..|s| - 1]) else 0
  }

  lemma {:induction false} TrailingWhiteIsMaximal(s: string)
    ensures forall i :: |s| - TrailingWhite(s) <= i < |s| ==> IsWhite(s[i])
    ensures TrailingWhite(s) < |s| ==> !IsWhite(s[|s| - 1 - TrailingWhite(s)])
    decreases |s|
  {
    if |s| > 0 && IsWhite(s[|s| - 1]) {
      TrailingWhiteIsMaximal(s[..|s| - 1]);
    }
  }

  /** `s` without the white space `NumberStyles.HexNumber` allows around the digits. */
  function TrimWhite(s: string): string {
    var rest := s[LeadingWhite(s)..];
    rest[..|rest| - TrailingWhite(rest)]
  }

  /** `int.TryParse(s, NumberStyles.HexNumber, null, out rgb)`: hexadecimal digits with
      optional surrounding white space, read as a 32-bit pattern (so "FFFFFFFF" is -1);
      longer values fail. */
  function TryParseHexNumber(s: string): (r: Option<int>)
    ensures r.Some? ==> -0x8000_0000 <= r.value < 0x8000_0000
    ensures r.Some? ==> |TrimWhite(s)| > 0
  {
    var t := TrimWhite(s);
    if |t| > 0 && AllHex(t) then
      var v := HexValue(t);
      if v < 0x1_0000_0000 then Some(if v < 0x8000_0000 then v else v - 0x1_0000_0000) else None
    else None
  }

  /** `(byte)((v >> shift) & 0xFF)`: for an `int`, an arithmetic shift by 8k is floor
      division by 256^k and `& 0xFF` is the non-negative remainder modulo 256. */
  function ByteAt(v: int, divisor: int): (b: int)
    requires divisor > 0
    ensures 0 <= b < 256
  {
    (v / divisor) % 256
  }

  function HexToColor(hex: string): (c: Color)
    ensures c.a == 255
    ensures 0 <= c.r < 256 && 0 <= c.g < 256 && 0 <= c.b < 256
    ensures |TrimStart(hex, '#')| != 6 ==> c == White
  {
    var h := TrimStart(hex, '#');
    if |h| == 6 then
      match TryParseHexNumber(h)
      case Some(rgb) => Color(ByteAt(rgb, 0x1_0000), ByteAt(rgb, 0x100), ByteAt(rgb, 1), 255)
      case None => White
    else White
  }

  function HexChar(d: nat): (c: char)
    requires d < 16
    ensures IsHexDigit(c) && HexDigitValue(c) == d
  {
    "0123456789ABCDEF"[d]
  }

  /** The six-digit `RRGGBB` rendering of a colour. */
  function Hex6(r: nat, g: nat, b: nat): string
    requires r < 256 && g < 256 && b < 256
  {
    [HexChar(r / 16), HexChar(r % 16), HexChar(g / 16), HexChar(g % 16), HexChar(b / 16), HexChar(b % 16)]
  }

  /** Leading '#' characters never change the colour. */
  lemma HashPrefixIgnored(s: string)
    ensures HexToColor("#" + s) == HexToColor(s)
  {
    assert ("#" + s)[1..] == s;
  }

  lemma HexValueSnoc(s: string, c: char)
    requires AllHex(s) && IsHexDigit(c)
    ensures AllHex(s + [c])
    ensures HexValue(s + [c]) == HexValue(s) * 16 + HexDigitValue(c)
  {
    assert (s + [c])[..|s|] == s;
  }

  lemma {:induction false} Hex6Value(r: nat, g: nat, b: nat)
    requires r < 256 && g < 256 && b < 256
    ensures AllHex(Hex6(r, g, b))
    ensures HexValue(Hex6(r, g, b)) == r * 0x1_0000 + g * 0x100 + b
  {
    var p0: string := [];
    HexValueSnoc(p0, HexChar(r / 16));
    var p1 := p0 + [HexChar(r / 16)];
    HexValueSnoc(p1, HexChar(r % 16));
    var p2 := p1 + [HexChar(r % 16)];
    assert HexValue(p2) == r;
    HexValueSnoc(p2, HexChar(g / 16));
    var p3 := p2 + [HexChar(g / 16)];
    HexValueSnoc(p3, HexChar(g % 16));
    var p4 := p3 + [HexChar(g % 16)];
    assert HexValue(p4) == r * 0x100 + g;
    HexValueSnoc(p4, HexChar(b / 16));
    var p5 := p4 + [HexChar(b / 16)];
    HexValueSnoc(p5, HexChar(b % 16));
    var p6 := p5 + [HexChar(b % 16)];
    assert HexValue(p6) == r * 0x1_0000 + g * 0x100 + b;
    assert p6 == Hex6(r, g, b);
  }

  /** Six hexadecimal digits with no white space parse to their value. */
  lemma PlainHexParses(s: string)
    requires AllHex(s) && |s| == 6
    ensures TrimStart(s, '#') == s
    ensures TryParseHexNumber(s) == Some(HexValue(s))
  {
    HexValueBound(s);
    assert Pow16(6) == 0x100_0000;
    assert !IsWhite(s[0]) && !IsWhite(s[5]);
    assert LeadingWhite(s) == 0;
    assert s[0..] == s;
    assert TrailingWhite(s) == 0;
    assert s[..|s|] == s;
    assert TrimWhite(s) == s;
  }

  lemma {:induction false} HexValueBound(s: string)
    requires AllHex(s)
    ensures HexValue(s) < Pow16(|s|)
    decreases |s|
  {
    if s != [] {
      HexValueBound(s[..|s| - 1]);
    }
  }

  function Pow16(n: nat): (p: nat)
    ensures p > 0
  {
    if n == 0 then 1 else 16 * Pow16(n - 1)
  }

  /** The bytes of `0xRRGGBB`, as the shifts and masks of `HexToColor` read them. */
  lemma ByteSplit(r: nat, g: nat, b: nat, v: int)
    requires r < 256 && g < 256 && b < 256
    requires v == r * 0x1_0000 + g * 0x100 + b
    ensures ByteAt(v, 0x1_0000) == r
    ensures ByteAt(v, 0x100) == g
    ensures ByteAt(v, 1) == b
  {
    assert v / 0x1_0000 == r;
    assert v / 0x100 == r * 0x100 + g;
    assert (r * 0x100 + g) % 256 == g;
    assert v % 256 == b;
  }

  /** Reading a formatted colour gives it back, with or without the leading '#'. */
  lemma {:induction false} HexToColorRoundTrip(r: nat, g: nat, b: nat)
    requires r < 256 && g < 256 && b < 256
    ensures HexToColor(Hex6(r, g, b)) == Color(r, g, b, 255)
    ensures HexToColor("#" + Hex6(r, g, b)) == Color(r, g, b, 255)
  {
    Hex6Value(r, g, b);
    ColorOfDigits(Hex6(r, g, b), r, g, b);
  }

  /** Six hexadecimal digits whose value packs the bytes `r`, `g`, `b` give that colour,
      with or without a leading '#'. */
  lemma ColorOfDigits(s: string, r: nat, g: nat, b: nat)
    requires r < 256 && g < 256 && b < 256
    requires |s| == 6 && AllHex(s) && HexValue(s) == r * 0x1_0000 + g * 0x100 + b
    ensures HexToColor(s) == Color(r, g, b, 255)
    ensures HexToColor("#" + s) == Color(r, g, b, 255)
  {
    PlainHexColor(s);
    ByteSplit(r, g, b, HexValue(s));
    HashPrefixIgnored(s);
  }

  /** Six hexadecimal digits without a '#' give the bytes of their value. */
  lemma PlainHexColor(s: string)
    requires AllHex(s) && |s| == 6
    ensures var v := HexValue(s);
      HexToColor(s) == Color(ByteAt(v, 0x1_0000), ByteAt(v, 0x100), ByteAt(v, 1), 255)
  {
    PlainHexParses(s);
  }

  /** Any length other than six after the '#' characters gives white. */
  lemma WrongLengthIsWhite(hex: string)
    requires |TrimStart(hex, '#')| != 6
    ensures HexToColor(hex) == White
  {
  }

  /** A character that is neither a hexadecimal digit nor white space gives white. */
  lemma {:induction false} NonHexIsWhite(hex: string, i: nat)
    requires i < |TrimStart(hex, '#')|
    requires !IsHexDigit(TrimStart(hex, '#')[i]) && !IsWhite(TrimStart(hex, '#')[i])
    ensures HexToColor(hex) == White
  {
    var h := TrimStart(hex, '#');
    var lo := LeadingWhite(h);
    var rest := h[lo..];
    var tr := TrailingWhite(rest);
    var t := TrimWhite(h);
    LeadingWhiteIsMaximal(h);
    TrailingWhiteIsMaximal(rest);
    assert lo <= i;
    assert i - lo < |rest| - tr by {
      assert rest[i - lo] == h[i];
    }
    assert t[i - lo] == h[i];
  }

  lemma ExampleWithHash()
    ensures HexToColor("#336699") == Color(51, 102, 153, 255)
  {
    assert Hex6(51, 102, 153) == "336699";
    HexToColorRoundTrip(51, 102, 153);
    assert "#" + "336699" == "#336699";
  }

  lemma ExampleWithoutHash()
    ensures HexToColor("336699") == Color(51, 102, 153, 255)
  {
    assert Hex6(51, 102, 153) == "336699";
    HexToColorRoundTrip(51, 102, 153);
  }

  lemma ExampleNotAColor()
    ensures HexToColor("not-a-color") == White
  {
    assert TrimStart("not-a-color", '#') == "not-a-color";
  }

  lemma TrimsOneSpace()
    ensures TrimStart(" 12345", '#') == " 12345"
    ensures TrimWhite(" 12345") == "12345"
  {
    var s := " 12345";
    var t := "12345";
    assert s[1..] == t;
    assert LeadingWhite(t) == 0;
    assert LeadingWhite(s) == 1;
    assert TrailingWhite(t) == 0;
    assert t[..|t|] == t;
  }

  lemma Value12345()
    ensures AllHex("12345") && HexValue("12345") == 0x12345
  {
    var p0: string := [];
    HexValueSnoc(p0, '1');
    var p1 := p0 + ['1'];
    assert HexValue(p1) == 1;
    HexValueSnoc(p1, '2');
    var p2 := p1 + ['2'];
    assert HexValue(p2) == 0x12;
    HexValueSnoc(p2, '3');
    var p3 := p2 + ['3'];
    assert HexValue(p3) == 0x123;
    HexValueSnoc(p3, '4');
    var p4 := p3 + ['4'];
    assert HexValue(p4) == 0x1234;
    HexValueSnoc(p4, '5');
    var p5 := p4 + ['5'];
    assert HexValue(p5) == 0x12345;
    assert p5 == "12345";
  }

  /** The length is tested before parsing, so white space counts towards the six
      characters: "  336699" is eight characters long and gives white. */
  lemma PaddedSixDigitsIsWhite()
    ensures HexToColor("  336699") == White
  {
    assert TrimStart("  336699", '#') == "  336699";
    WrongLengthIsWhite("  336699");
  }

  /** The white space `NumberStyles.HexNumber` tolerates is accepted: " 12345" is 0x012345. */
  lemma WhiteSpaceAccepted()
    ensures HexToColor(" 12345") == Color(0x01, 0x23, 0x45, 255)
  {
    TrimsOneSpace();
    Value12345();
    assert TryParseHexNumber(" 12345") == Some(0x12345);
    ByteSplit(0x01, 0x23, 0x45, 0x12345);
  }
}
