/**
 * `hexToRgba`: three fixed two-character slots of a `#RRGGBB` string, each
 * read by JavaScript's `parseInt(…, 16)`, spliced into an `rgba(…)` string.
 */
module Colors {
  import opened Wrappers
  import opened Values
  import opened Text

  predicate IsHexDigit(c: char)
  {
    ('0' <= c <= '9') || ('a' <= c <= 'f') || ('A' <= c <= 'F')
  }

  function HexDigitValue(c: char): (d: int)
    requires IsHexDigit(c)
    ensures 0 <= d < 16
  {
    if '0' <= c <= '9' then c as int - '0' as int
    else if 'a' <= c <= 'f' then c as int - 'a' as int + 10
    else c as int - 'A' as int + 10
  }

  /** The number of leading hex digits. */
  function HexRun(s: string): (n: nat)
    ensures n <= |s|
    ensures forall i :: 0 <= i < n ==> IsHexDigit(s[i])
    ensures n < |s| ==> !IsHexDigit(s[n])
    decreases |s|
  {
    if s != [] && IsHexDigit(s[0]) then
      var n := 1 + HexRun(s[1..]);
      assert forall i :: 1 <= i < n ==> s[i] == s[1..][i - 1];
      n
    else 0
  }

  /** The base-16 value of a run of hex digits, most significant first. */
  function HexValue(s: string): (v: nat)
    requires forall i :: 0 <= i < |s| ==> IsHexDigit(s[i])
    decreases |s|
  {
    if s == [] then 0 else 16 * HexValue(s[..|s| - 1]) + HexDigitValue(s[|s| - 1])
  }

  /** A JavaScript number as `parseInt` can return it: an integer or `NaN`. */
  datatype JsNumber = NaN | Int(n: int)

  predicate IsNegative(t: string)
  {
    |t| > 0 && t[0] == '-'
  }

  /** The text after a leading `-` or `+`. */
  function DropSign(t: string): string
  {
    if |t| > 0 && (t[0] == '-' || t[0] == '+') then t[1..] else t
  }

  /** The text after a leading `0x` or `0X`, which radix 16 allows. */
  function DropRadixPrefix(u: string): string
  {
    if |u| >= 2 && u[0] == '0' && (u[1] == 'x' || u[1] == 'X') then u[2..] else u
  }

  /** The value of the leading hex digits of `v`, `NaN` when there are none. */
  function LeadingHex(v: string): JsNumber
  {
    var n := HexRun(v);
    if n == 0 then NaN else Int(HexValue(v[..n]))
  }

  function Negate(x: JsNumber): JsNumber
  {
    match x
    case NaN => NaN
    case Int(n) => Int(-n)
  }

  /** `parseInt(s, 16)`: leading white space, a sign, an optional `0x`, then the longest run of hex digits. */
  function ParseHex(s: string): JsNumber
  {
    var t := TrimStart(s);
    var x := LeadingHex(DropRadixPrefix(DropSign(t)));
    if IsNegative(t) then Negate(x) else x
  }

  /** `s.substring(start, end)`: both ends clamped into the string, swapped when reversed. */
  function Substring(s: string, start: int, end: int): (r: string)
    ensures |r| <= |s|
  {
    var a := if start < 0 then 0 else if start > |s| then |s| else start;
    var b := if end < 0 then 0 else if end > |s| then |s| else end;
    if a <= b then s[a..b] else s[b..a]
  }

  /** `${n}` of a number. */
  function NumberText(x: JsNumber): string
  {
    match x
    case NaN => "NaN"
    case Int(n) => IntToString(n)
  }

  /** The red, green and blue channels `parseInt` reads from the slots [1,3), [3,5) and [5,7). */
  function Channels(hex: string): (JsNumber, JsNumber, JsNumber)
  {
    (Channel(hex, 1), Channel(hex, 3), Channel(hex, 5))
  }

  /** The slot starting at index `i`, read by `parseInt(hex.substring(i, i + 2), 16)`. */
  function Channel(hex: string, i: int): JsNumber
  {
    ParseHex(Substring(hex, i, i + 2))
  }

  /** The alpha argument as its text; an omitted argument defaults to 1. */
  function AlphaText(alpha: Option<string>): string
  {
    match alpha
    case Some(a) => a
    case None => "1"
  }

  function RgbaText(r: string, g: string, b: string, a: string): string
  {
    "rgba(" + r + ", " + g + ", " + b + ", " + a + ")"
  }

  lemma RgbaTextShape(r: string, g: string, b: string, a: string)
    ensures var x := RgbaText(r, g, b, a);
      |x| >= 12 + |a| && x[..5] == "rgba(" && x[|x| - 1] == ')' && x[|x| - 1 - |a|..|x| - 1] == a
  {
  }

  /**
   * `hexToRgba(hex, alpha)`. Whatever the input, the output has the shape
   * `rgba(…)` and ends with the alpha text, given verbatim (1 when omitted).
   */
  function HexToRgba(hex: string, alpha: Option<string>): (r: string)
    ensures |r| >= 12 + |AlphaText(alpha)| && r[..5] == "rgba(" && r[|r| - 1] == ')'
    ensures r[|r| - 1 - |AlphaText(alpha)|..|r| - 1] == AlphaText(alpha)
  {
    var c := Channels(hex);
    RgbaTextShape(NumberText(c.0), NumberText(c.1), NumberText(c.2), AlphaText(alpha));
    RgbaText(NumberText(c.0), NumberText(c.1), NumberText(c.2), AlphaText(alpha))
  }

  /** A well-formed colour: `#` and six hex digits. */
  predicate IsHexColor(hex: string)
  {
    |hex| == 7 && hex[0] == '#' && forall i :: 1 <= i < 7 ==> IsHexDigit(hex[i])
  }

  /** Text that starts with a hex digit parses to the value of its leading digits. */
  lemma DigitFirst(s: string)
    requires |s| > 0 && IsHexDigit(s[0]) && (|s| >= 2 ==> IsHexDigit(s[1]))
    ensures ParseHex(s) == LeadingHex(s)
  {
    assert !IsSpace(s[0]);
    assert TrimStart(s) == s;
    assert !IsNegative(s);
    assert DropSign(s) == s;
    assert DropRadixPrefix(s) == s by {
      if |s| >= 2 {
        assert !IsHexDigit('x') && !IsHexDigit('X');
      }
    }
  }

  /** Two hex digits parse to their base-16 value, whatever case the letters are in. */
  lemma TwoDigits(s: string)
    requires |s| == 2 && IsHexDigit(s[0]) && IsHexDigit(s[1])
    ensures ParseHex(s) == Int(16 * HexDigitValue(s[0]) + HexDigitValue(s[1]))
    ensures 0 <= 16 * HexDigitValue(s[0]) + HexDigitValue(s[1]) <= 255
  {
    DigitFirst(s);
    assert HexRun(s) == 2;
    assert s[..2] == s;
    assert s[..1] == [s[0]];
    assert HexValue(s) == 16 * HexValue([s[0]]) + HexDigitValue(s[1]);
    assert [s[0]][..0] == [];
  }

  /** For `#RRGGBB` each channel is the base-16 value of its two digits, in 0..255. */
  lemma WellFormedChannel(hex: string, i: int)
    requires IsHexColor(hex) && (i == 1 || i == 3 || i == 5)
    ensures Channel(hex, i) == Int(16 * HexDigitValue(hex[i]) + HexDigitValue(hex[i + 1]))
    ensures 0 <= 16 * HexDigitValue(hex[i]) + HexDigitValue(hex[i + 1]) <= 255
  {
    var s := Substring(hex, i, i + 2);
    assert s == [hex[i], hex[i + 1]];
    TwoDigits(s);
  }

  /** Only the characters at indices 1 to 6 matter: character 0 is never checked and any tail after index 7 is ignored. */
  lemma OnlySlotsMatter(h1: string, h2: string, alpha: Option<string>)
    requires |h1| >= 7 && |h2| >= 7 && h1[1..7] == h2[1..7]
    ensures HexToRgba(h1, alpha) == HexToRgba(h2, alpha)
  {
    forall i | 1 <= i < 7 ensures h1[i] == h2[i] {
      assert h1[i] == h1[1..7][i - 1];
    }
    assert h1[1..3] == h2[1..3];
    assert h1[3..5] == h2[3..5];
    assert h1[5..7] == h2[5..7];
  }

  /** Leaving the alpha out is the same as passing the text 1. */
  lemma AlphaDefaultsToOne(hex: string)
    ensures HexToRgba(hex, None) == HexToRgba(hex, Some("1"))
  {
  }

  /** Lower-case hex digit of a value below 16. */
  function HexChar(d: nat): (c: char)
    requires d < 16
    ensures IsHexDigit(c) && HexDigitValue(c) == d
  {
    "0123456789abcdef"[d]
  }

  /** `#RRGGBB` of three channel values, the encoding `hexToRgba` is meant to undo. */
  function Encode(r: nat, g: nat, b: nat): (hex: string)
    requires r < 256 && g < 256 && b < 256
    ensures IsHexColor(hex)
  {
    ['#', HexChar(r / 16), HexChar(r % 16), HexChar(g / 16), HexChar(g % 16), HexChar(b / 16), HexChar(b % 16)]
  }

  /** The two hex digits of a byte give the byte back. */
  lemma PairValue(v: nat)
    requires v < 256
    ensures 16 * HexDigitValue(HexChar(v / 16)) + HexDigitValue(HexChar(v % 16)) == v
  {
  }

  /** A slot holding the two hex digits of a byte reads back as that byte. */
  lemma EncodedSlot(hex: string, v: nat, i: int)
    requires v < 256 && IsHexColor(hex) && (i == 1 || i == 3 || i == 5)
    requires hex[i] == HexChar(v / 16) && hex[i + 1] == HexChar(v % 16)
    ensures Channel(hex, i) == Int(v)
  {
    WellFormedChannel(hex, i);
    PairValue(v);
  }

  lemma EncodedChannels(r: nat, g: nat, b: nat)
    requires r < 256 && g < 256 && b < 256
    ensures Channels(Encode(r, g, b)) == (Int(r), Int(g), Int(b))
  {
    var hex := Encode(r, g, b);
    EncodedSlot(hex, r, 1);
    EncodedSlot(hex, g, 3);
    EncodedSlot(hex, b, 5);
  }

  /** Round trip: the channels of an encoded colour come back as their decimal text. */
  lemma EncodeRoundTrip(r: nat, g: nat, b: nat, alpha: Option<string>)
    requires r < 256 && g < 256 && b < 256
    ensures HexToRgba(Encode(r, g, b), alpha) == RgbaText(IntToString(r), IntToString(g), IntToString(b), AlphaText(alpha))
  {
    EncodedChannels(r, g, b);
  }

  /** Nothing bounds a channel: a `-` in a slot followed by a digit is read as a negative number. */
  lemma SignedSlotGoesNegative(hex: string, i: int)
    requires 0 <= i && i + 2 <= |hex| && hex[i] == '-' && IsHexDigit(hex[i + 1])
    ensures Channel(hex, i) == Int(-HexDigitValue(hex[i + 1]))
  {
    var s := Substring(hex, i, i + 2);
    assert s == ['-', hex[i + 1]];
    assert !IsSpace('-');
    assert TrimStart(s) == s;
    assert DropSign(s) == [hex[i + 1]];
    assert DropRadixPrefix([hex[i + 1]]) == [hex[i + 1]];
    assert HexRun([hex[i + 1]]) == 1;
    assert [hex[i + 1]][..1] == [hex[i + 1]];
    assert HexValue([hex[i + 1]]) == HexDigitValue(hex[i + 1]) by {
      assert [hex[i + 1]][..0] == [];
    }
  }

  /** A single hex digit parses to its value. */
  lemma OneDigit(s: string)
    requires |s| == 1 && IsHexDigit(s[0])
    ensures ParseHex(s) == Int(HexDigitValue(s[0]))
  {
    DigitFirst(s);
    assert HexRun(s) == 1;
    assert s[..1] == s;
    assert HexValue(s) == HexDigitValue(s[0]) by {
      assert s[..0] == [];
    }
  }

  /** The three-digit shorthand is not understood: `#RGB` reads as the value of `RG`, then of `B` alone, then `NaN`. */
  lemma ShorthandIsMisread(hex: string)
    requires |hex| == 4 && forall i :: 1 <= i < 4 ==> IsHexDigit(hex[i])
    ensures Channels(hex) == (Int(16 * HexDigitValue(hex[1]) + HexDigitValue(hex[2])), Int(HexDigitValue(hex[3])), NaN)
  {
    var s1 := Substring(hex, 1, 3);
    assert s1 == [hex[1], hex[2]];
    TwoDigits(s1);
    var s2 := Substring(hex, 3, 5);
    assert s2 == [hex[3]];
    OneDigit(s2);
    assert Substring(hex, 5, 7) == [];
    assert ParseHex([]) == NaN;
    assert Channel(hex, 1) == Int(16 * HexDigitValue(hex[1]) + HexDigitValue(hex[2]));
    assert Channel(hex, 3) == Int(HexDigitValue(hex[3]));
  }
}
