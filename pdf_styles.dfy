/** src/utils/pdfStyles.ts: `hexToRgb`, which reads a `#RRGGBB` colour
    with three calls of `parseInt(…, 16)`. */
module PdfStyles {

  import opened Wrappers
  import opened Text

  predicate IsHexDigit(c: char)
  {
    '0' <= c <= '9' || 'a' <= c <= 'f' || 'A' <= c <= 'F'
  }

  /** The value of one hexadecimal digit, either case. */
  function DigitValue(c: char): (d: nat)
    requires IsHexDigit(c)
    ensures d < 16
    ensures '0' <= c <= '9' ==> d == c as int - '0' as int
    ensures 'a' <= c <= 'f' ==> d == c as int - 'a' as int + 10
    ensures 'A' <= c <= 'F' ==> d == c as int - 'A' as int + 10
  {
    if '0' <= c <= '9' then c as int - '0' as int
    else if 'a' <= c <= 'f' then c as int - 'a' as int + 10
    else c as int - 'A' as int + 10
  }

  /** The longest prefix of `s` made of hexadecimal digits. */
  function HexPrefix(s: string): (p: string)
    ensures |p| <= |s| && p == s[..|p|]
    ensures forall i :: 0 <= i < |p| ==> IsHexDigit(p[i])
    ensures |p| < |s| ==> !IsHexDigit(s[|p|])
  {
    if s != [] && IsHexDigit(s[0]) then [s[0]] + HexPrefix(s[1..]) else []
  }

  function Pow16(n: nat): (p: nat)
    ensures p >= 1
  {
    if n == 0 then 1 else 16 * Pow16(n - 1)
  }

  /** The number a run of hexadecimal digits denotes, most significant
      first; it has no more digits than it needs. */
  function HexValue(ds: string): (v: nat)
    requires forall i :: 0 <= i < |ds| ==> IsHexDigit(ds[i])
    ensures v < Pow16(|ds|)
  {
    if ds == [] then 0
    else
      var init := ds[..|ds| - 1];
      var high := HexValue(init);
      assert high * 16 <= (Pow16(|init|) - 1) * 16;
      high * 16 + DigitValue(ds[|ds| - 1])
  }

  /** The text after one optional sign. */
  function Unsigned(t: string): (u: string)
    ensures |u| <= |t|
  {
    if t != [] && (t[0] == '-' || t[0] == '+') then t[1..] else t
  }

  /** The text after an optional `0x` or `0X`. */
  function WithoutRadixPrefix(u: string): (w: string)
    ensures |w| <= |u|
  {
    if |u| >= 2 && u[0] == '0' && (u[1] == 'x' || u[1] == 'X') then u[2..] else u
  }

  /** `parseInt(s, 16)`: leading white space is skipped, then one optional
      sign, then an optional `0x`/`0X`; the longest run of hexadecimal
      digits that follows is the magnitude; no digit at all gives `NaN`,
      here `None`. */
  function ParseInt16(s: string): (r: Option<int>)
    ensures r.Some? ==> -(Pow16(|s|) as int) < r.value < Pow16(|s|)
  {
    var t := TrimStart(s);
    var run := HexPrefix(WithoutRadixPrefix(Unsigned(t)));
    TrimStartShorter(s);
    Pow16Monotone(|run|, |s|);
    var magnitude: int := HexValue(run);
    if run == [] then None
    else if t != [] && t[0] == '-' then Some(-magnitude)
    else Some(magnitude)
  }

  lemma {:induction false} TrimStartShorter(s: string)
    ensures |TrimStart(s)| <= |s|
  {
    if s != [] && IsSpace(s[0]) {
      TrimStartShorter(s[1..]);
    }
  }

  lemma {:induction false} Pow16Monotone(m: nat, n: nat)
    requires m <= n
    ensures Pow16(m) <= Pow16(n)
  {
    if m < n {
      Pow16Monotone(m, n - 1);
    }
  }

  /** The number two hexadecimal digits denote, high digit first. */
  function PairValue(hi: char, lo: char): (v: nat)
    requires IsHexDigit(hi) && IsHexDigit(lo)
    ensures v < 256
  {
    16 * DigitValue(hi) + DigitValue(lo)
  }

  /** Two hexadecimal digits parse to the number they denote. */
  lemma ParsePair(s: string)
    requires |s| == 2 && IsHexDigit(s[0]) && IsHexDigit(s[1])
    ensures ParseInt16(s) == Some(PairValue(s[0], s[1]))
  {
    assert !IsSpace(s[0]);
    assert TrimStart(s) == s;
    assert Unsigned(s) == s;
    assert WithoutRadixPrefix(s) == s;
    assert s[1..][1..] == [];
    assert HexPrefix(s) == s;
    assert s[..1] == [s[0]];
    assert HexValue(s[..1]) == DigitValue(s[0]);
  }

  /** The `{ r, g, b }` object; `None` is a `NaN` component. */
  datatype Rgb = Rgb(r: Option<int>, g: Option<int>, b: Option<int>)

  /** `hexToRgb(hex)`: characters 1-2, 3-4 and 5-6 read in base 16. */
  function HexToRgb(hex: string): Rgb
  {
    Rgb(ParseInt16(Slice(hex, 1, 3)), ParseInt16(Slice(hex, 3, 5)), ParseInt16(Slice(hex, 5, 7)))
  }

  /** The three components, each read from its own slice. */
  lemma HexToRgbParts(hex: string)
    ensures HexToRgb(hex) == Rgb(ParseInt16(Slice(hex, 1, 3)), ParseInt16(Slice(hex, 3, 5)), ParseInt16(Slice(hex, 5, 7)))
  {
  }

  /** `#RRGGBB` with six hexadecimal digits of either case. */
  predicate IsHexColor(hex: string)
  {
    |hex| == 7 && hex[0] == '#' && forall i :: 1 <= i < 7 ==> IsHexDigit(hex[i])
  }

  /** The component read from characters `i` and `i + 1`. */
  lemma PairAt(hex: string, i: nat)
    requires i + 2 <= |hex| && IsHexDigit(hex[i]) && IsHexDigit(hex[i + 1])
    ensures ParseInt16(Slice(hex, i, i + 2)) == Some(PairValue(hex[i], hex[i + 1]))
  {
    var pair := hex[i..i + 2];
    assert Slice(hex, i, i + 2) == pair;
    assert pair[0] == hex[i] && pair[1] == hex[i + 1];
    ParsePair(pair);
  }

  /** On a well-formed colour each component is the base-16 value of its
      two characters. */
  lemma HexToRgbDigits(hex: string)
    requires IsHexColor(hex)
    ensures HexToRgb(hex) == Rgb(
      Some(PairValue(hex[1], hex[2])),
      Some(PairValue(hex[3], hex[4])),
      Some(PairValue(hex[5], hex[6])))
  {
    HexToRgbParts(hex);
    PairAt(hex, 1);
    PairAt(hex, 3);
    PairAt(hex, 5);
  }

  /** On a well-formed colour every component lies in [0, 255]. */
  lemma HexToRgbRange(hex: string)
    requires IsHexColor(hex)
    ensures var c := HexToRgb(hex);
      c.r.Some? && c.g.Some? && c.b.Some? &&
      0 <= c.r.value <= 255 && 0 <= c.g.value <= 255 && 0 <= c.b.value <= 255
  {
    HexToRgbDigits(hex);
  }

  /** Upper- and lower-case digits give the same colour. */
  lemma HexToRgbIgnoresCase(a: string, b: string)
    requires IsHexColor(a) && IsHexColor(b)
    requires forall i :: 1 <= i < 7 ==> ToUpper(a[i]) == ToUpper(b[i])
    ensures HexToRgb(a) == HexToRgb(b)
  {
    assert ToUpper(a[1]) == ToUpper(b[1]) && ToUpper(a[2]) == ToUpper(b[2]) && ToUpper(a[3]) == ToUpper(b[3]);
    assert ToUpper(a[4]) == ToUpper(b[4]) && ToUpper(a[5]) == ToUpper(b[5]) && ToUpper(a[6]) == ToUpper(b[6]);
    HexToRgbDigits(a);
    HexToRgbDigits(b);
    SameDigit(a[1], b[1]);
    SameDigit(a[2], b[2]);
    SameDigit(a[3], b[3]);
    SameDigit(a[4], b[4]);
    SameDigit(a[5], b[5]);
    SameDigit(a[6], b[6]);
    assert PairValue(a[1], a[2]) == PairValue(b[1], b[2]);
    assert PairValue(a[3], a[4]) == PairValue(b[3], b[4]);
    assert PairValue(a[5], a[6]) == PairValue(b[5], b[6]);
  }

  lemma SameDigit(c: char, d: char)
    requires IsHexDigit(c) && IsHexDigit(d) && ToUpper(c) == ToUpper(d)
    ensures DigitValue(c) == DigitValue(d)
  {
  }

  /** The upper-case digit for a value below 16. */
  function HexChar(d: int): (c: char)
    requires 0 <= d < 16
    ensures IsHexDigit(c) && DigitValue(c) == d
  {
    if d < 10 then ('0' as int + d) as char else ('A' as int + d - 10) as char
  }

  /** A byte as two upper-case digits. */
  function ByteHex(n: int): string
    requires 0 <= n < 256
  {
    [HexChar(n / 16), HexChar(n % 16)]
  }

  /** The `#RRGGBB` spelling of a byte triple. */
  function RgbToHex(r: int, g: int, b: int): (hex: string)
    requires 0 <= r < 256 && 0 <= g < 256 && 0 <= b < 256
    ensures IsHexColor(hex)
  {
    "#" + ByteHex(r) + ByteHex(g) + ByteHex(b)
  }

  /** Writing a byte triple as `#RRGGBB` and reading it back gives the
      same triple. */
  lemma RgbRoundTrip(r: int, g: int, b: int)
    requires 0 <= r < 256 && 0 <= g < 256 && 0 <= b < 256
    ensures HexToRgb(RgbToHex(r, g, b)) == Rgb(Some(r), Some(g), Some(b))
  {
    var hex := RgbToHex(r, g, b);
    HexToRgbDigits(hex);
    assert hex[1] == ByteHex(r)[0] && hex[2] == ByteHex(r)[1];
    assert hex[3] == ByteHex(g)[0] && hex[4] == ByteHex(g)[1];
    assert hex[5] == ByteHex(b)[0] && hex[6] == ByteHex(b)[1];
    ByteRoundTrip(r);
    ByteRoundTrip(g);
    ByteRoundTrip(b);
  }

  /** The two digits `ByteHex` writes denote the byte again. */
  lemma ByteRoundTrip(n: int)
    requires 0 <= n < 256
    ensures PairValue(ByteHex(n)[0], ByteHex(n)[1]) == n
  {
    assert n == 16 * (n / 16) + n % 16;
  }

  /** `WORD_COLORS`. */
  const WordColors: seq<string> := ["#FFD700", "#FF69B4", "#98FB98", "#87CEEB", "#DDA0DD",
    "#F0E68C", "#E6E6FA", "#FFA07A", "#00CED1", "#FFA500"]

  /** Every palette colour is a well-formed `#RRGGBB`. */
  lemma PaletteIsWellFormed()
    ensures forall k :: 0 <= k < |WordColors| ==> IsHexColor(WordColors[k])
  {
  }

  /** A red component that starts with a character that is not a digit,
      a blank or a sign reads as `NaN`. */
  lemma NonDigitIsNaN(hex: string)
    requires |hex| >= 3 && !IsHexDigit(hex[1]) && !IsSpace(hex[1]) && hex[1] != '-' && hex[1] != '+'
    ensures HexToRgb(hex).r.None?
  {
    HexToRgbParts(hex);
    var pair := hex[1..3];
    assert Slice(hex, 1, 3) == pair && pair[0] == hex[1];
    assert TrimStart(pair) == pair;
    assert WithoutRadixPrefix(Unsigned(pair)) == pair;
  }

  /** A three-digit colour is not expanded: its second component reads one
      digit and its third reads nothing. */
  lemma ShortColorNotExpanded()
    ensures HexToRgb("#FFF") == Rgb(Some(255), Some(15), None)
  {
    ParsePair("FF");
    assert Slice("#FFF", 1, 3) == "FF";
    assert Slice("#FFF", 3, 5) == "F";
    assert HexPrefix("F") == "F";
    assert Slice("#FFF", 5, 7) == "";
  }
}
