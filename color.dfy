/**
  The colour tint applied to the base background (`ColorHelper` / `ColorFactory`): parse a hex
  colour into channels, average them, pick a direction (dark colours lighten, light colours
  darken), shift the first three channels by `256 * percent / 100` and re-encode with `%02x`.

  The same text sits in all/styled_tooltip.py, all/StyledPopup.py, st3/styled_popup.py and
  st3/StyledPopup.py, so `TintedColor` is defined once. styled_tooltip.py decides the
  direction on the floating-point mean `sum / 3` instead: `MeanTintedColor`.

  Python computes `c + 256 * (percent / 100) * mode` as a float and the interpreter of the
  host (Python 3.3) truncates it toward zero when formatting with `%02x`. With integers, and
  for channels below 2^53 where the float sum is exact enough, this is
  `(100 * c + mode * 256 * percent)` divided by 100, truncated toward zero. Nothing
  clamps the result, so a channel outside 0..255 gives a longer or negative hex field.
 */
module Color {
  import opened Wrappers
  import Text

  /** Value of one hexadecimal digit, in either case. */
  function HexDigitValue(c: char): Option<nat> {
    if '0' <= c <= '9' then Some(c as int - '0' as int)
    else if 'a' <= c <= 'f' then Some(c as int - 'a' as int + 10)
    else if 'A' <= c <= 'F' then Some(c as int - 'A' as int + 10)
    else None
  }

  /** `int(s, 16)` for a string of hex digits: None (ValueError) for an empty string or one
      holding any other character. */
  function ParseHex(s: string): Option<nat> {
    if s == [] then None
    else
      var d := HexDigitValue(s[|s| - 1]);
      if d.None? then None
      else if |s| == 1 then d
      else match ParseHex(s[..|s| - 1])
        case None => None
        case Some(h) => Some(16 * h + d.value)
  }

  /** `s.lstrip("#")` */
  function LStripHash(s: string): string {
    if s != [] && s[0] == '#' then LStripHash(s[1..]) else s
  }

  /** `[s[i:i + k] for i in range(0, len(s), k)]`: consecutive pieces of length `k`, the last
      one possibly shorter. */
  function Chunks(s: string, k: nat): (r: seq<string>)
    requires k > 0
    decreases |s|
  {
    if |s| <= k then (if s == [] then [] else [s]) else [s[..k]] + Chunks(s[k..], k)
  }

  /** Parses every piece, failing if one fails. */
  function ParseAll(pieces: seq<string>): (r: Option<seq<nat>>)
    ensures r.Some? ==> |r.value| == |pieces|
  {
    if pieces == [] then Some([])
    else match (ParseHex(pieces[0]), ParseAll(pieces[1..]))
      case (Some(h), Some(t)) => Some([h] + t)
      case _ => None
  }

  /** `hex_to_rgb`: the digits after the leading `#`s, cut into pieces of a third of their
      length. Fewer than three digits make the step of `range` zero (ValueError). */
  function HexToRgb(color: string): (r: Option<seq<nat>>)
    ensures r.Some? ==> |r.value| >= 3
  {
    var h := LStripHash(color);
    var k := |h| / 3;
    if k == 0 then None
    else
      ChunksAtLeast(h, k, 3);
      ParseAll(Chunks(h, k))
  }

  function Sum(rgb: seq<nat>): nat {
    if rgb == [] then 0 else rgb[0] + Sum(rgb[1..])
  }

  /** `get_rgb_average`: `int(sum(rgb) / len(rgb))`, which for non-negative channels is the
      floor of the quotient. */
  function RgbAverage(rgb: seq<nat>): nat
    requires |rgb| > 0
  {
    Sum(rgb) / |rgb|
  }

  /** `mode = 1 if average < 128 else -1` */
  function Mode(average: int): int {
    if average < 128 then 1 else -1
  }

  /** Integer division by 100 rounding toward zero, as `int()` of a float does. */
  function TruncDiv100(n: int): int {
    if n >= 0 then n / 100 else -((-n) / 100)
  }

  /** One channel after adding `256 * (percent / 100) * mode` and truncating. */
  function ShiftChannel(c: int, mode: int, percent: nat): int {
    TruncDiv100(100 * c + mode * 256 * percent)
  }

  /** The lower-case digit for `d`, as `%x` writes it. */
  function HexDigit(d: nat): char
    requires d < 16
  {
    if d < 10 then ('0' as int + d) as char else ('a' as int + d - 10) as char
  }

  /** Lower-case hex digits of `n`, without leading zeros. */
  function HexDigits(n: nat): string
    decreases n
  {
    if n < 16 then [HexDigit(n)] else HexDigits(n / 16) + [HexDigit(n % 16)]
  }

  /** `"%02x" % n`: zero-padded to two characters; a negative number gets a minus sign. */
  function Format02(n: int): string {
    if n < 0 then "-" + HexDigits(-n)
    else if n < 16 then "0" + HexDigits(n)
    else HexDigits(n)
  }

  /** `rgb_to_hex` */
  function RgbToHex(r: int, g: int, b: int): string {
    "#" + Format02(r) + Format02(g) + Format02(b)
  }

  /** `getTintedColor(color, percent)`; None when `hex_to_rgb` raises. */
  function TintedColor(color: string, percent: nat): Option<string> {
    match HexToRgb(color)
    case None => None
    case Some(rgb) =>
      var mode := Mode(RgbAverage(rgb));
      Some(RgbToHex(ShiftChannel(rgb[0], mode, percent), ShiftChannel(rgb[1], mode, percent),
                    ShiftChannel(rgb[2], mode, percent)))
  }

  /** `get_mean` of styled_tooltip.py: the total of all channels divided by three, as a float. */
  function Mean(rgb: seq<nat>): real {
    Sum(rgb) as real / 3.0
  }

  /** `getTintedColor` of styled_tooltip.py: the direction comes from `Mean`. */
  function MeanTintedColor(color: string, percent: nat): Option<string> {
    match HexToRgb(color)
    case None => None
    case Some(rgb) =>
      var mode := if Mean(rgb) < 128.0 then 1 else -1;
      Some(RgbToHex(ShiftChannel(rgb[0], mode, percent), ShiftChannel(rgb[1], mode, percent),
                    ShiftChannel(rgb[2], mode, percent)))
  }

  /** `get_mean` as it is written, a loop summing the channels. */
  method GetMean(rgb: seq<nat>) returns (mean: real)
    ensures mean * 3.0 == Sum(rgb) as real
  {
    var tot := 0;
    for i := 0 to |rgb|
      invariant tot + Sum(rgb[i..]) == Sum(rgb)
    {
      assert rgb[i..][1..] == rgb[i + 1..];
      tot := tot + rgb[i];
    }
    assert rgb[|rgb|..] == [];
    mean := tot as real / 3.0;
  }

  /** At least `j` pieces when the string is at least `j` pieces long. */
  lemma {:induction false} ChunksAtLeast(s: string, k: nat, j: nat)
    requires k > 0 && j * k <= |s|
    ensures |Chunks(s, k)| >= j
    decreases |s|
  {
    if j > 0 && |s| > k {
      ChunksAtLeast(s[k..], k, j - 1);
    }
  }

  /** Exactly `j` pieces when the string is exactly `j` pieces long, and more otherwise. */
  lemma {:induction false} ChunksCount(s: string, k: nat, j: nat)
    requires k > 0 && j * k <= |s|
    ensures |s| == j * k ==> |Chunks(s, k)| == j
    ensures |s| > j * k ==> |Chunks(s, k)| > j
    decreases |s|
  {
    if j > 0 && |s| > k {
      ChunksCount(s[k..], k, j - 1);
    }
  }

  /** `hex_to_rgb` gives three channels exactly when the number of digits is a multiple of
      three; otherwise it gives more, and only the first three reach the output. */
  lemma ChannelCount(color: string)
    requires HexToRgb(color).Some?
    ensures |HexToRgb(color).value| == 3 <==> |LStripHash(color)| % 3 == 0
  {
    var h := LStripHash(color);
    ChunksCount(h, |h| / 3, 3);
  }

  /** A three-digit colour such as `#abc` gives one-digit channels 0..15, not 0..255. */
  lemma ShortHexChannels(color: string)
    requires var h := LStripHash(color);
      |h| == 3 && forall i :: 0 <= i < 3 ==> HexDigitValue(h[i]).Some?
    ensures var h := LStripHash(color);
      HexToRgb(color)
        == Some([HexDigitValue(h[0]).value, HexDigitValue(h[1]).value, HexDigitValue(h[2]).value])
    ensures forall i :: 0 <= i < 3 ==> HexToRgb(color).value[i] < 16
  {
    var h := LStripHash(color);
    var pieces := [h[..1], h[1..2], h[2..]];
    assert Chunks(h, 1) == pieces by {
      assert Chunks(h[2..], 1) == [h[2..]];
      assert h[1..][1..] == h[2..] && h[1..][..1] == h[1..2];
    }
    assert h[..1] == [h[0]] && h[1..2] == [h[1]] && h[2..] == [h[2]];
    var v0, v1, v2 := HexDigitValue(h[0]).value, HexDigitValue(h[1]).value, HexDigitValue(h[2]).value;
    assert ParseHex([h[0]]) == Some(v0) && ParseHex([h[1]]) == Some(v1) && ParseHex([h[2]]) == Some(v2);
    ParseAllCons([h[2]], [], v2, []);
    assert [[h[2]]] + [] == [[h[2]]] && [v2] + [] == [v2];
    ParseAllCons([h[1]], [[h[2]]], v1, [v2]);
    assert [[h[1]]] + [[h[2]]] == [[h[1]], [h[2]]] && [v1] + [v2] == [v1, v2];
    ParseAllCons([h[0]], [[h[1]], [h[2]]], v0, [v1, v2]);
    assert pieces == [[h[0]]] + [[h[1]], [h[2]]] && [v0] + [v1, v2] == [v0, v1, v2];
    assert |h| / 3 == 1;
    assert HexToRgb(color) == ParseAll(Chunks(h, 1));
  }

  lemma HexDigitRoundTrip(d: nat)
    requires d < 16
    ensures HexDigitValue(HexDigit(d)) == Some(d)
  {
  }

  /** Re-encoding a parsed digit gives the digit in lower case. */
  lemma HexDigitOfValue(c: char)
    requires HexDigitValue(c).Some?
    ensures HexDigit(HexDigitValue(c).value) == Text.LowerChar(c)
  {
  }

  /** The two digits `%02x` writes for a byte. */
  lemma Format02Byte(n: nat)
    requires n < 256
    ensures Format02(n) == [HexDigit(n / 16), HexDigit(n % 16)]
  {
    if n >= 16 {
      assert HexDigits(n / 16) == [HexDigit(n / 16)];
    }
  }

  lemma ParseAllCons(p: string, t: seq<string>, x: nat, xs: seq<nat>)
    requires ParseHex(p) == Some(x) && ParseAll(t) == Some(xs)
    ensures ParseAll([p] + t) == Some([x] + xs)
  {
    assert ([p] + t)[1..] == t;
  }

  lemma ParseHexPair(a: char, b: char)
    requires HexDigitValue(a).Some? && HexDigitValue(b).Some?
    ensures ParseHex([a, b]) == Some(16 * HexDigitValue(a).value + HexDigitValue(b).value)
  {
    assert [a, b][..1] == [a];
  }

  /** Six digits after the `#`s parse as three two-digit channels. */
  lemma SixDigitChannels(color: string)
    requires var h := LStripHash(color);
      |h| == 6 && forall i :: 0 <= i < 6 ==> HexDigitValue(h[i]).Some?
    ensures var h := LStripHash(color);
      HexToRgb(color) == Some([16 * HexDigitValue(h[0]).value + HexDigitValue(h[1]).value,
                               16 * HexDigitValue(h[2]).value + HexDigitValue(h[3]).value,
                               16 * HexDigitValue(h[4]).value + HexDigitValue(h[5]).value])
  {
    var h := LStripHash(color);
    var pieces := [[h[0], h[1]], [h[2], h[3]], [h[4], h[5]]];
    assert Chunks(h, 2) == pieces by {
      assert Chunks(h[4..], 2) == [h[4..]];
      assert h[2..][2..] == h[4..] && h[2..][..2] == h[2..4];
      assert h[..2] == [h[0], h[1]] && h[2..4] == [h[2], h[3]] && h[4..] == [h[4], h[5]];
    }
    ParseHexPair(h[0], h[1]);
    ParseHexPair(h[2], h[3]);
    ParseHexPair(h[4], h[5]);
    var c0 := 16 * HexDigitValue(h[0]).value + HexDigitValue(h[1]).value;
    var c1 := 16 * HexDigitValue(h[2]).value + HexDigitValue(h[3]).value;
    var c2 := 16 * HexDigitValue(h[4]).value + HexDigitValue(h[5]).value;
    ParseAllCons([h[4], h[5]], [], c2, []);
    assert [[h[4], h[5]]] + [] == [[h[4], h[5]]] && [c2] + [] == [c2];
    ParseAllCons([h[2], h[3]], [[h[4], h[5]]], c1, [c2]);
    assert [[h[2], h[3]]] + [[h[4], h[5]]] == [[h[2], h[3]], [h[4], h[5]]] && [c1] + [c2] == [c1, c2];
    ParseAllCons([h[0], h[1]], [[h[2], h[3]], [h[4], h[5]]], c0, [c1, c2]);
    assert pieces == [[h[0], h[1]]] + [[h[2], h[3]], [h[4], h[5]]] && [c0] + [c1, c2] == [c0, c1, c2];
    assert |h| / 3 == 2;
    assert HexToRgb(color) == ParseAll(Chunks(h, 2));
  }

  lemma LStripHashOfDigit(s: string)
    requires s != [] && HexDigitValue(s[0]).Some?
    ensures LStripHash(s) == s
  {
  }

  /** Encoding three bytes and parsing the result gives them back. */
  lemma RgbHexRoundTrip(r: nat, g: nat, b: nat)
    requires r < 256 && g < 256 && b < 256
    ensures HexToRgb(RgbToHex(r, g, b)) == Some([r, g, b])
  {
    Format02Byte(r);
    Format02Byte(g);
    Format02Byte(b);
    var s := RgbToHex(r, g, b);
    HexDigitRoundTrip(r / 16);
    HexDigitRoundTrip(g / 16);
    HexDigitRoundTrip(b / 16);
    HexDigitRoundTrip(r % 16);
    HexDigitRoundTrip(g % 16);
    HexDigitRoundTrip(b % 16);
    assert LStripHash(s) == s[1..] by {
      LStripHashOfDigit(s[1..]);
    }
    SixDigitChannels(s);
  }

  /** A colour in the usual form: `#` and six lower-case hex digits. */
  predicate IsLowerHexColor(s: string) {
    |s| == 7 && s[0] == '#'
    && forall i :: 1 <= i < 7 ==> ('0' <= s[i] <= '9' || 'a' <= s[i] <= 'f')
  }

  /** When every shifted channel stays within 0..255 the tint is `#` plus two lower-case
      digits per channel, and it decodes to the shifted channels. */
  lemma TintedColorShape(color: string, percent: nat)
    requires HexToRgb(color).Some?
    requires var rgb := HexToRgb(color).value;
      forall i :: 0 <= i < 3 ==> 0 <= ShiftChannel(rgb[i], Mode(RgbAverage(rgb)), percent) < 256
    ensures TintedColor(color, percent).Some?
    ensures IsLowerHexColor(TintedColor(color, percent).value)
    ensures var rgb := HexToRgb(color).value;
      var mode := Mode(RgbAverage(rgb));
      HexToRgb(TintedColor(color, percent).value)
        == Some([ShiftChannel(rgb[0], mode, percent), ShiftChannel(rgb[1], mode, percent),
                 ShiftChannel(rgb[2], mode, percent)])
  {
    var rgb := HexToRgb(color).value;
    var mode := Mode(RgbAverage(rgb));
    var r, g, b := ShiftChannel(rgb[0], mode, percent), ShiftChannel(rgb[1], mode, percent),
                   ShiftChannel(rgb[2], mode, percent);
    assert 0 <= r < 256 && 0 <= g < 256 && 0 <= b < 256 by {
      assert 0 <= ShiftChannel(rgb[0], mode, percent) < 256;
      assert 0 <= ShiftChannel(rgb[1], mode, percent) < 256;
      assert 0 <= ShiftChannel(rgb[2], mode, percent) < 256;
    }
    Format02Byte(r);
    Format02Byte(g);
    Format02Byte(b);
    RgbHexRoundTrip(r, g, b);
  }

  /** `%02x` of a parsed two-digit channel writes the two digits in lower case. */
  lemma Format02Pair(x: char, y: char)
    requires HexDigitValue(x).Some? && HexDigitValue(y).Some?
    ensures Format02(16 * HexDigitValue(x).value + HexDigitValue(y).value)
      == [Text.LowerChar(x), Text.LowerChar(y)]
  {
    var n := 16 * HexDigitValue(x).value + HexDigitValue(y).value;
    Format02Byte(n);
    assert n / 16 == HexDigitValue(x).value && n % 16 == HexDigitValue(y).value;
    HexDigitOfValue(x);
    HexDigitOfValue(y);
  }

  /** With percent 0 no channel moves. */
  lemma TintZeroKeepsChannels(color: string)
    requires HexToRgb(color).Some?
    ensures var rgb := HexToRgb(color).value;
      TintedColor(color, 0) == Some(RgbToHex(rgb[0], rgb[1], rgb[2]))
  {
  }

  lemma RgbToHexOfPairs(r: int, g: int, b: int, s: string)
    requires |s| == 6
    requires Format02(r) == s[..2] && Format02(g) == s[2..4] && Format02(b) == s[4..]
    ensures RgbToHex(r, g, b) == "#" + s
  {
    assert s == s[..2] + s[2..4] + s[4..];
  }

  /** With percent 0 a six-digit colour comes back lower-cased, with a single `#`. */
  lemma TintZeroLowercases(color: string)
    requires var h := LStripHash(color);
      |h| == 6 && forall i :: 0 <= i < 6 ==> HexDigitValue(h[i]).Some?
    ensures TintedColor(color, 0) == Some("#" + Text.Lower(LStripHash(color)))
  {
    var h := LStripHash(color);
    SixDigitChannels(color);
    TintZeroKeepsChannels(color);
    var rgb := HexToRgb(color).value;
    var low := Text.Lower(h);
    Text.LowerAt(h);
    Format02Pair(h[0], h[1]);
    Format02Pair(h[2], h[3]);
    Format02Pair(h[4], h[5]);
    assert low[..2] == [low[0], low[1]] && low[2..4] == [low[2], low[3]] && low[4..] == [low[4], low[5]];
    RgbToHexOfPairs(rgb[0], rgb[1], rgb[2], low);
  }

  /** The shift of one channel, in whole units: `floor(2.56 * percent)` up when lightening,
      `ceil(2.56 * percent)` down when darkening. */
  function Delta(mode: int, percent: nat): int {
    if mode > 0 then (256 * percent) / 100 else -((256 * percent + 99) / 100)
  }

  /** A channel that stays non-negative moves by exactly `Delta`, whatever its value. */
  lemma ShiftIsDelta(c: nat, mode: int, percent: nat)
    requires mode == 1 || mode == -1
    requires 100 * c + mode * 256 * percent >= 0
    ensures ShiftChannel(c, mode, percent) == c + Delta(mode, percent)
  {
    var q := 256 * percent;
    if mode == 1 {
      assert (100 * c + q) / 100 == c + q / 100;
    } else {
      var a, b := q / 100, q % 100;
      assert q == 100 * a + b;
      if b == 0 {
        assert (100 * c - q) / 100 == c - a;
        assert (q + 99) / 100 == a;
      } else {
        assert 100 * c - q == 100 * (c - a - 1) + (100 - b);
        assert (100 * c - q) / 100 == c - a - 1;
        assert q + 99 == 100 * (a + 1) + (b - 1);
        assert (q + 99) / 100 == a + 1;
      }
    }
  }

  /** A channel darkened below zero is truncated toward zero, so it moves one step less than
      `Delta` unless `2.56 * percent` is whole: at 10 percent, 255 moves by 26 but 10 by 25,
      to -15. */
  lemma ShiftBelowZero(c: nat, percent: nat)
    requires 100 * c < 256 * percent
    ensures (256 * percent) % 100 == 0 ==> ShiftChannel(c, -1, percent) == c + Delta(-1, percent)
    ensures (256 * percent) % 100 != 0 ==> ShiftChannel(c, -1, percent) == c + Delta(-1, percent) + 1
  {
    var q := 256 * percent;
    var a, b := q / 100, q % 100;
    assert q == 100 * a + b;
    var m := q - 100 * c;
    assert m == 100 * (a - c) + b;
    assert m / 100 == a - c;
    if b == 0 {
      assert (q + 99) / 100 == a;
    } else {
      assert q + 99 == 100 * (a + 1) + (b - 1);
      assert (q + 99) / 100 == a + 1;
    }
  }

  /** The tint direction: every channel moves by the same amount, upward when the average
      is below 128 and downward otherwise (channels that go below zero aside). */
  lemma TintDirection(color: string, percent: nat)
    requires HexToRgb(color).Some?
    requires var rgb := HexToRgb(color).value;
      RgbAverage(rgb) >= 128 ==> forall i :: 0 <= i < 3 ==> 100 * rgb[i] >= 256 * percent
    ensures var rgb := HexToRgb(color).value;
      var d := Delta(Mode(RgbAverage(rgb)), percent);
      && (d >= 0 <==> RgbAverage(rgb) < 128 || percent == 0)
      && TintedColor(color, percent) == Some(RgbToHex(rgb[0] + d, rgb[1] + d, rgb[2] + d))
  {
    var rgb := HexToRgb(color).value;
    var mode := Mode(RgbAverage(rgb));
    ShiftIsDelta(rgb[0], mode, percent);
    ShiftIsDelta(rgb[1], mode, percent);
    ShiftIsDelta(rgb[2], mode, percent);
  }

  lemma TruncDiv100Monotonic(a: int, b: int)
    requires a <= b
    ensures TruncDiv100(a) <= TruncDiv100(b)
  {
  }

  /** A larger percent moves a channel further in the chosen direction. */
  lemma ShiftMonotonic(c: nat, mode: int, p1: nat, p2: nat)
    requires mode == 1 || mode == -1
    requires p1 <= p2
    ensures mode == 1 ==> ShiftChannel(c, mode, p1) <= ShiftChannel(c, mode, p2)
    ensures mode == -1 ==> ShiftChannel(c, mode, p1) >= ShiftChannel(c, mode, p2)
  {
    if mode == 1 {
      TruncDiv100Monotonic(100 * c + 256 * p1, 100 * c + 256 * p2);
    } else {
      TruncDiv100Monotonic(100 * c - 256 * p2, 100 * c - 256 * p1);
    }
  }

  /** The floating-point mean is below 128 exactly when the total is below 384. */
  lemma MeanBelow128(rgb: seq<nat>)
    ensures Mean(rgb) < 128.0 <==> Sum(rgb) < 384
  {
  }

  /** For three channels the mean of styled_tooltip.py and the integer average of the other
      variants pick the same direction, so the two tints agree. */
  lemma MeanTintAgrees(color: string, percent: nat)
    requires HexToRgb(color).Some? && |HexToRgb(color).value| == 3
    ensures MeanTintedColor(color, percent) == TintedColor(color, percent)
  {
    var rgb := HexToRgb(color).value;
    MeanBelow128(rgb);
    assert RgbAverage(rgb) < 128 <==> Sum(rgb) < 384;
  }
}
