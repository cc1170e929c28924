/**
  The colour-picker string codec: `rgbToHex` builds `#rrggbb` by printing
  `(1 << 24) + (r << 16) + (g << 8) + b` in base 16 and dropping the leading
  `1`; `hexToRgb` accepts an optional `#` followed by exactly six hex digits,
  in either case, and answers `[0, 0, 0]` for anything else.
 */
module Colors {

  function Pow16(k: nat): nat {
    if k == 0 then 1 else 16 * Pow16(k - 1)
  }

  /** The lower-case digit `Number.prototype.toString(16)` prints for `d`. */
  function HexDigit(d: nat): (c: char)
    requires d < 16
    ensures IsHexDigit(c) && HexValue(c) == d
  {
    if d < 10 then (48 + d) as char else (87 + d) as char
  }

  /** A character the pattern `[a-f\d]` matches under the `i` flag. */
  predicate IsHexDigit(c: char) {
    '0' <= c <= '9' || 'a' <= c <= 'f' || 'A' <= c <= 'F'
  }

  /** The digit value `parseInt(_, 16)` gives a hex character. */
  function HexValue(c: char): (v: nat)
    requires IsHexDigit(c)
    ensures v < 16
  {
    if '0' <= c <= '9' then c as int - 48
    else if 'a' <= c <= 'f' then c as int - 87
    else c as int - 55
  }

  /** `n.toString(16)`: base-16 digits, most significant first, no leading zeros. */
  function ToHex(n: nat): (s: string)
    ensures |s| >= 1
    decreases n
  {
    if n < 16 then [HexDigit(n)] else ToHex(n / 16) + [HexDigit(n % 16)]
  }

  /** The low `k` base-16 digits of `v`, zero-padded, most significant first. */
  function Pad(v: nat, k: nat): (s: string)
    ensures |s| == k
  {
    if k == 0 then [] else Pad(v / 16, k - 1) + [HexDigit(v % 16)]
  }

  /** `rgbToHex(r, g, b)` (main.js:1089-1091) for components whose floor lies in 0..255. */
  function RgbToHex(r: real, g: real, b: real): (s: string)
    requires 0.0 <= r < 256.0 && 0.0 <= g < 256.0 && 0.0 <= b < 256.0
    ensures |s| == 7 && s[0] == '#'
    ensures s[1..] == Pad(r.Floor, 2) + Pad(g.Floor, 2) + Pad(b.Floor, 2)
  {
    var v := r.Floor * 65536 + g.Floor * 256 + b.Floor;
    EncodeDigits(r.Floor, g.Floor, b.Floor);
    "#" + ToHex(16777216 + v)[1..]
  }

  /** Printing `(1 << 24) + (r << 16) + (g << 8) + b` gives `1` then two digits per component. */
  lemma EncodeDigits(r: nat, g: nat, b: nat)
    requires r < 256 && g < 256 && b < 256
    ensures ToHex(16777216 + (r * 65536 + g * 256 + b)) == "1" + Pad(r, 2) + Pad(g, 2) + Pad(b, 2)
  {
    var low := g * 256 + b;
    var v := r * 65536 + low;
    Digits2(g, b);
    Digits4(r, low);
    Digits6(v);
  }

  /** Two components of two digits each make four digits. */
  lemma Digits2(g: nat, b: nat)
    requires g < 256 && b < 256
    ensures g * 256 + b < 65536 && Pad(g * 256 + b, 4) == Pad(g, 2) + Pad(b, 2)
  {
    Pow16Values();
    PadSplit(g, 2, 2, b);
  }

  /** A two-digit component ahead of four digits makes six digits. */
  lemma Digits4(r: nat, low: nat)
    requires r < 256 && low < 65536
    ensures r * 65536 + low < 16777216 && Pad(r * 65536 + low, 6) == Pad(r, 2) + Pad(low, 4)
  {
    Pow16Values();
    PadSplit(r, 2, 4, low);
  }

  /** The leading `1` of `1 << 24` is followed by the six low digits. */
  lemma Digits6(v: nat)
    requires v < 16777216
    ensures ToHex(16777216 + v) == "1" + Pad(v, 6)
  {
    Pow16Values();
    ToHexShift(1, 6, v);
    assert ToHex(1) == "1";
  }

  lemma Pow16Values()
    ensures Pow16(2) == 256 && Pow16(4) == 65536 && Pow16(6) == 16777216
  {
    assert Pow16(1) == 16;
    assert Pow16(2) == 256;
    assert Pow16(3) == 4096;
    assert Pow16(4) == 65536;
    assert Pow16(5) == 1048576;
  }

  lemma DivMod16(q: nat, d: nat)
    requires d < 16
    ensures (16 * q + d) / 16 == q && (16 * q + d) % 16 == d
  {
  }

  /** `a * 16^k + v`, with `v < 16^k`, is `16 * (a * 16^(k-1) + v / 16) + v % 16`. */
  lemma ShiftDigit(a: nat, k: nat, v: nat)
    requires k > 0 && v < Pow16(k)
    ensures var q := Pow16(k - 1);
      && v / 16 < q
      && a * Pow16(k) + v == 16 * (a * q + v / 16) + v % 16
      && (a * Pow16(k) + v) / 16 == a * q + v / 16
      && (a * Pow16(k) + v) % 16 == v % 16
      && (a >= 1 ==> a * q >= 1)
  {
    var q := Pow16(k - 1);
    assert Pow16(k) == 16 * q;
    assert a * Pow16(k) == 16 * (a * q);
    DivMod16(a * q + v / 16, v % 16);
  }

  /** Printing `a * 16^k + v` prints `a`, then `v` padded to `k` digits. */
  lemma {:induction false} ToHexShift(a: nat, k: nat, v: nat)
    requires a >= 1 && v < Pow16(k)
    ensures ToHex(a * Pow16(k) + v) == ToHex(a) + Pad(v, k)
    decreases k
  {
    if k > 0 {
      var m := a * Pow16(k - 1) + v / 16;
      ShiftDigit(a, k, v);
      ToHexShift(a, k - 1, v / 16);
      assert ToHex(a * Pow16(k) + v) == ToHex(m) + [HexDigit(v % 16)];
    }
  }

  /** The low `j + k` digits of `a * 16^k + v` are those of `a`, then those of `v`. */
  lemma {:induction false} PadSplit(a: nat, j: nat, k: nat, v: nat)
    requires v < Pow16(k)
    ensures Pad(a * Pow16(k) + v, j + k) == Pad(a, j) + Pad(v, k)
    decreases k
  {
    if k > 0 {
      var m := a * Pow16(k - 1) + v / 16;
      ShiftDigit(a, k, v);
      PadSplit(a, j, k - 1, v / 16);
      assert Pad(a * Pow16(k) + v, j + k) == Pad(m, j + k - 1) + [HexDigit(v % 16)];
    }
  }

  /** Every character is a hex digit. */
  predicate AllHex(s: string) {
    forall i :: 0 <= i < |s| ==> IsHexDigit(s[i])
  }

  /** The whole string matches `/^#?([a-f\d]{2})([a-f\d]{2})([a-f\d]{2})$/i`. */
  predicate Matches(s: string) {
    (|s| == 6 && AllHex(s)) || (|s| == 7 && s[0] == '#' && AllHex(s[1..]))
  }

  /** `parseInt(pair, 16)` for a two-digit group. */
  function ParsePair(c1: char, c2: char): (v: nat)
    requires IsHexDigit(c1) && IsHexDigit(c2)
    ensures v < 256
  {
    16 * HexValue(c1) + HexValue(c2)
  }

  /** `hexToRgb(hex)` (main.js:1094-1101). */
  function HexToRgb(s: string): (rgb: seq<int>)
    ensures |rgb| == 3
    ensures !Matches(s) ==> rgb == [0, 0, 0]
    ensures forall i :: 0 <= i < 3 ==> 0 <= rgb[i] < 256
  {
    var digits := if |s| == 7 && s[0] == '#' then s[1..] else s;
    if |digits| == 6 && AllHex(digits) then
      [ParsePair(digits[0], digits[1]), ParsePair(digits[2], digits[3]), ParsePair(digits[4], digits[5])]
    else [0, 0, 0]
  }

  /** Decoding reads the three digit pairs after the optional `#`. */
  lemma HexToRgbReadsPairs(s: string)
    requires Matches(s)
    ensures var d := if |s| == 7 then s[1..] else s;
      HexToRgb(s) == [ParsePair(d[0], d[1]), ParsePair(d[2], d[3]), ParsePair(d[4], d[5])]
  {
  }

  lemma PairRoundTrip(v: nat)
    requires v < 256
    ensures IsHexDigit(Pad(v, 2)[0]) && IsHexDigit(Pad(v, 2)[1])
    ensures ParsePair(Pad(v, 2)[0], Pad(v, 2)[1]) == v
  {
    assert Pad(v, 2) == [HexDigit(v / 16 % 16), HexDigit(v % 16)];
  }

  /** Encoding then decoding returns the integer components. */
  lemma RoundTrip(r: int, g: int, b: int)
    requires 0 <= r < 256 && 0 <= g < 256 && 0 <= b < 256
    ensures HexToRgb(RgbToHex(r as real, g as real, b as real)) == [r, g, b]
  {
    var s := RgbToHex(r as real, g as real, b as real);
    assert (r as real).Floor == r && (g as real).Floor == g && (b as real).Floor == b;
    PairRoundTrip(r);
    PairRoundTrip(g);
    PairRoundTrip(b);
    var d := s[1..];
    assert d == Pad(r, 2) + Pad(g, 2) + Pad(b, 2);
    assert AllHex(d);
  }

  /** Decoding ignores letter case. */
  lemma DecodeIgnoresCase(s: string, t: string)
    requires |s| == |t|
    requires forall i :: 0 <= i < |s| ==> SameDigit(s[i], t[i])
    ensures HexToRgb(s) == HexToRgb(t)
  {
    assert !IsHexDigit('#');
    var ds := if |s| == 7 && s[0] == '#' then s[1..] else s;
    var dt := if |t| == 7 && t[0] == '#' then t[1..] else t;
    if |s| == 7 {
      assert SameDigit(s[0], t[0]);
    }
    assert |ds| == |dt| && forall i :: 0 <= i < |ds| ==> SameDigit(ds[i], dt[i]);
    SameDigits(ds, dt);
  }

  /** The two characters are equal or hex digits of equal value. */
  predicate SameDigit(c: char, d: char) {
    c == d || (IsHexDigit(c) && IsHexDigit(d) && HexValue(c) == HexValue(d))
  }

  /** Digit strings that agree up to case are hex together and parse alike. */
  lemma SameDigits(ds: string, dt: string)
    requires |ds| == |dt| && forall i :: 0 <= i < |ds| ==> SameDigit(ds[i], dt[i])
    ensures AllHex(ds) <==> AllHex(dt)
    ensures |ds| == 6 && AllHex(ds) ==>
      [ParsePair(ds[0], ds[1]), ParsePair(ds[2], ds[3]), ParsePair(ds[4], ds[5])]
        == [ParsePair(dt[0], dt[1]), ParsePair(dt[2], dt[3]), ParsePair(dt[4], dt[5])]
  {
  }
}
