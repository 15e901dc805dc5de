/**
 * The colour helpers of scanomatic/ui_server_data/js/ccc/helpers.js: `hexToRgb`, which reads the
 * #rgb and #rrggbb notations of section 4.2.1 of CSS Color Module Level 3 (with the '#'
 * optional), and `RGBColor.toCSSString`, which writes the rgb() notation.
 */
module CccColors {
  import opened Wrappers
  import opened JsNumbers

  datatype RGB = RGB(r: int, g: int, b: int)

  // ---------------------------------------------------------------------------------------
  // RGBColor.toCSSString
  // ---------------------------------------------------------------------------------------

  /** The end `, b)` of the rgb() text. */
  function Closing(b: int): (s: string)
    ensures |s| > 0 && s[0] == ','
  {
    ", " + (JsString(b) + ")")
  }

  /** The part `, g, b)` after the red channel. */
  function AfterRed(g: int, b: int): (s: string)
    ensures |s| > 0 && s[0] == ','
  {
    ", " + (JsString(g) + Closing(b))
  }

  /** The text `rgb(r, g, b)` of `toCSSString`. */
  function CssString(c: RGB): string {
    "rgb(" + (JsString(c.r) + AfterRed(c.g, c.b))
  }

  /** Colours with non-negative channels have distinct CSS strings: the rgb() text determines the colour. */
  lemma CssStringInjective(c1: RGB, c2: RGB)
    requires 0 <= c1.r && 0 <= c1.g && 0 <= c1.b && 0 <= c2.r && 0 <= c2.g && 0 <= c2.b
    requires CssString(c1) == CssString(c2)
    ensures c1 == c2
  {
    DropLiteral("rgb(", JsString(c1.r) + AfterRed(c1.g, c1.b), JsString(c2.r) + AfterRed(c2.g, c2.b));
    NumeralPrefix(Decimal(c1.r), AfterRed(c1.g, c1.b), Decimal(c2.r), AfterRed(c2.g, c2.b));
    DecimalInjective(c1.r, c2.r);
    DropLiteral(", ", JsString(c1.g) + Closing(c1.b), JsString(c2.g) + Closing(c2.b));
    NumeralPrefix(Decimal(c1.g), Closing(c1.b), Decimal(c2.g), Closing(c2.b));
    DecimalInjective(c1.g, c2.g);
    DropLiteral(", ", JsString(c1.b) + ")", JsString(c2.b) + ")");
    NumeralPrefix(Decimal(c1.b), ")", Decimal(c2.b), ")");
    DecimalInjective(c1.b, c2.b);
  }

  /** `RGBColor`: a colour object with three channels. */
  class RGBColor {
    var r: int
    var g: int
    var b: int

    constructor (r: int, g: int, b: int)
      ensures this.r == r && this.g == g && this.b == b
    {
      this.r := r;
      this.g := g;
      this.b := b;
    }

    /** `toCSSString`: the rgb() text of the current channels. */
    function ToCSSString(): (s: string)
      reads this
      ensures s == CssString(RGB(r, g, b))
    {
      CssString(RGB(r, g, b))
    }
  }

  /** `featureColors`. */
  const BlobColor: RGB := RGB(253, 231, 35)
  const BackgroundColor: RGB := RGB(32, 144, 140)
  const NeitherColor: RGB := RGB(68, 1, 84)

  // ---------------------------------------------------------------------------------------
  // hexToRgb
  // ---------------------------------------------------------------------------------------

  /** `[a-f\d]` under the `i` flag. */
  predicate IsHexDigit(c: char) {
    ('0' <= c <= '9') || ('a' <= c <= 'f') || ('A' <= c <= 'F')
  }

  predicate AllHex(s: string) {
    forall i :: 0 <= i < |s| ==> IsHexDigit(s[i])
  }

  function HexValue(c: char): (v: nat)
    requires IsHexDigit(c)
    ensures v < 16
  {
    if '0' <= c <= '9' then c as int - '0' as int
    else if 'a' <= c <= 'f' then c as int - 'a' as int + 10
    else c as int - 'A' as int + 10
  }

  /** `parseInt(pair, 16)` for two hex digits. */
  function PairValue(hi: char, lo: char): (v: nat)
    requires IsHexDigit(hi) && IsHexDigit(lo)
    ensures v <= 255
  {
    16 * HexValue(hi) + HexValue(lo)
  }

  /** The text after one optional leading '#'. */
  function StripHash(hex: string): string {
    if |hex| > 0 && hex[0] == '#' then hex[1..] else hex
  }

  /** The replace with `/^#?([a-f\d])([a-f\d])([a-f\d])$/i`: a whole-string shorthand becomes its six doubled digits, without '#'. */
  function ExpandShorthand(hex: string): string {
    var body := StripHash(hex);
    if |body| == 3 && AllHex(body) then [body[0], body[0], body[1], body[1], body[2], body[2]] else hex
  }

  /** The match with `/^#?([a-f\d]{2})([a-f\d]{2})([a-f\d]{2})$/i` and the three `parseInt` calls. */
  function ParseLonghand(s: string): (c: Option<RGB>)
    ensures c.Some? ==> 0 <= c.value.r <= 255 && 0 <= c.value.g <= 255 && 0 <= c.value.b <= 255
  {
    var body := StripHash(s);
    if |body| == 6 && AllHex(body) then
      Some(RGB(PairValue(body[0], body[1]), PairValue(body[2], body[3]), PairValue(body[4], body[5])))
    else None
  }

  /** `hexToRgb(hex)`: the colour, or null (None) when the text is not a hex colour. */
  function HexToRgb(hex: string): (c: Option<RGB>)
    ensures c.Some? ==> 0 <= c.value.r <= 255 && 0 <= c.value.g <= 255 && 0 <= c.value.b <= 255
  {
    ParseLonghand(ExpandShorthand(hex))
  }

  /** An optional '#' and then three or six hex digits, in either case. */
  predicate IsHexColor(hex: string) {
    var body := StripHash(hex);
    (|body| == 3 || |body| == 6) && AllHex(body)
  }

  /** `hexToRgb` accepts exactly the hex colours. */
  lemma HexToRgbAccepts(hex: string)
    ensures HexToRgb(hex).Some? <==> IsHexColor(hex)
  {
    var body := StripHash(hex);
    if |body| == 3 && AllHex(body) {
      var e := ExpandShorthand(hex);
      assert StripHash(e) == e;
      assert AllHex(e);
    }
  }

  /** A shorthand reads as the six-digit colour with each of its digits doubled. */
  lemma ShorthandDoubles(hash: string, x: char, y: char, z: char)
    requires hash == "" || hash == "#"
    requires IsHexDigit(x) && IsHexDigit(y) && IsHexDigit(z)
    ensures HexToRgb(hash + [x, y, z]) == HexToRgb(hash + [x, x, y, y, z, z])
    ensures HexToRgb(hash + [x, y, z]) == Some(RGB(17 * HexValue(x), 17 * HexValue(y), 17 * HexValue(z)))
  {
    assert StripHash(hash + [x, y, z]) == [x, y, z];
    assert StripHash(hash + [x, x, y, y, z, z]) == [x, x, y, y, z, z];
  }

  /** The lower-case hex digit of d. */
  function HexChar(d: nat): (c: char)
    requires d < 16
    ensures IsHexDigit(c) && HexValue(c) == d
  {
    if d < 10 then ('0' as int + d) as char else ('a' as int + d - 10) as char
  }

  /** Two lower-case hex digits for a channel, as `n.toString(16).padStart(2, '0')` writes it. */
  function Hex2(n: nat): (s: string)
    requires n <= 255
    ensures |s| == 2 && AllHex(s) && PairValue(s[0], s[1]) == n
  {
    [HexChar(n / 16), HexChar(n % 16)]
  }

  /** `hexToRgb` inverts two-digit hex formatting of the channels, with or without the '#'. */
  lemma HexToRgbRoundTrip(hash: string, c: RGB)
    requires hash == "" || hash == "#"
    requires 0 <= c.r <= 255 && 0 <= c.g <= 255 && 0 <= c.b <= 255
    ensures HexToRgb(hash + Hex2(c.r) + Hex2(c.g) + Hex2(c.b)) == Some(c)
  {
    var body := Hex2(c.r) + Hex2(c.g) + Hex2(c.b);
    var s := hash + body;
    assert s == hash + Hex2(c.r) + Hex2(c.g) + Hex2(c.b);
    assert StripHash(s) == body;
    assert ExpandShorthand(s) == s;
    assert body[0] == Hex2(c.r)[0] && body[1] == Hex2(c.r)[1];
    assert body[2] == Hex2(c.g)[0] && body[3] == Hex2(c.g)[1];
    assert body[4] == Hex2(c.b)[0] && body[5] == Hex2(c.b)[1];
  }
}
