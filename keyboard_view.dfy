/**
 * The non-visual logic of the keyboard screen: decoding a hex colour string
 * into integer channels, the four colour themes and their cyclic successor,
 * and the slice of keys shown on each row of the numeric grid.
 */
module KeyboardView {
  import opened Wrappers
  import opened KeyboardConfig
  import opened KeyboardViewModel

  // ------------------------------------------------------------- hex colours

  /** The integer channels of a colour, each meant to range over 0 to 255. */
  datatype Argb = Argb(a: nat, r: nat, g: nat, b: nat)

  /** 16 to the power `n`: one more than the largest value `n` hex digits can write. */
  function Pow16(n: nat): (p: nat)
    ensures p >= 1
  {
    if n == 0 then 1 else 16 * Pow16(n - 1)
  }

  lemma {:induction false} Pow16Monotonic(m: nat, n: nat)
    requires m <= n
    ensures Pow16(m) <= Pow16(n)
    decreases n
  {
    if m < n {
      Pow16Monotonic(m, n - 1);
    }
  }

  /** ASCII letters and digits: what the trimming keeps at either end. */
  predicate IsAlphanumeric(c: char) {
    'a' <= c <= 'z' || 'A' <= c <= 'Z' || '0' <= c <= '9'
  }

  /** Drops the leading characters that are not alphanumeric. */
  function TrimStart(s: string): (t: string)
    ensures |t| <= |s| && t == s[|s| - |t|..]
    ensures t != "" ==> IsAlphanumeric(t[0])
    ensures forall i :: 0 <= i < |s| - |t| ==> !IsAlphanumeric(s[i])
  {
    if s != "" && !IsAlphanumeric(s[0]) then
      var t := TrimStart(s[1..]);
      assert s[1..][|s| - 1 - |t|..] == s[|s| - |t|..];
      assert forall i :: 1 <= i < |s| - |t| ==> s[i] == s[1..][i - 1];
      t
    else s
  }

  /** Drops the trailing characters that are not alphanumeric. */
  function TrimEnd(s: string): (t: string)
    ensures |t| <= |s| && t == s[..|t|]
    ensures t != "" ==> IsAlphanumeric(t[|t| - 1])
    ensures forall i :: |t| <= i < |s| ==> !IsAlphanumeric(s[i])
  {
    if s != "" && !IsAlphanumeric(s[|s| - 1]) then
      var t := TrimEnd(s[..|s| - 1]);
      assert s[..|s| - 1][..|t|] == s[..|t|];
      t
    else s
  }

  /** `trimmingCharacters(in: CharacterSet.alphanumerics.inverted)`. */
  function Trim(s: string): (r: string)
    ensures r == "" || (IsAlphanumeric(r[0]) && IsAlphanumeric(r[|r| - 1]))
    ensures |r| <= |s|
    ensures r != "" <==> exists i :: 0 <= i < |s| && IsAlphanumeric(s[i])
  {
    TrimEnd(TrimStart(s))
  }

  /** A string of alphanumerics is left as it is, and a leading '#' is dropped. */
  lemma TrimKeepsAlphanumerics(s: string)
    requires forall i :: 0 <= i < |s| ==> IsAlphanumeric(s[i])
    ensures Trim(s) == s
    ensures Trim("#" + s) == s
  {
    var t := "#" + s;
    if s != "" {
      assert t[1..] == s;
      assert TrimStart(t) == TrimStart(s);
    } else {
      assert TrimStart(t) == "";
    }
  }

  predicate IsHexDigit(c: char) {
    '0' <= c <= '9' || 'a' <= c <= 'f' || 'A' <= c <= 'F'
  }

  function DigitValue(c: char): (v: nat)
    requires IsHexDigit(c)
    ensures v < 16
  {
    if '0' <= c <= '9' then c as int - '0' as int
    else if 'a' <= c <= 'f' then c as int - 'a' as int + 10
    else c as int - 'A' as int + 10
  }

  /** The longest prefix made of hex digits. */
  function HexPrefix(s: string): (d: string)
    ensures |d| <= |s| && d == s[..|d|]
    ensures forall i :: 0 <= i < |d| ==> IsHexDigit(d[i])
    ensures |d| < |s| ==> !IsHexDigit(s[|d|])
  {
    if s == "" || !IsHexDigit(s[0]) then "" else [s[0]] + HexPrefix(s[1..])
  }

  /** The number a string of hex digits denotes, most significant digit first. */
  function HexValue(d: string): (v: nat)
    requires forall i :: 0 <= i < |d| ==> IsHexDigit(d[i])
    ensures v < Pow16(|d|)
  {
    if d == "" then 0 else HexValue(d[..|d| - 1]) * 16 + DigitValue(d[|d| - 1])
  }

  /** `Scanner.scanHexInt64`: the value of the leading hex digits, 0 when there are none. */
  function ScanHex(s: string): (v: nat)
    ensures v < Pow16(|s|)
    ensures HexPrefix(s) == "" ==> v == 0
  {
    var d := HexPrefix(s);
    Pow16Monotonic(|d|, |s|);
    HexValue(d)
  }

  /** Three nibbles, each scaled by 17 (so 0xF becomes 255), re-assemble the number. */
  lemma ThreeNibbles(value: nat)
    requires value < 0x1000
    ensures value / 0x100 < 0x10
    ensures (value / 0x100) * 0x100 + (value / 0x10 % 0x10) * 0x10 + value % 0x10 == value
  {
    assert value == (value / 0x10) * 0x10 + value % 0x10;
    assert value / 0x10 == (value / 0x10 / 0x10) * 0x10 + value / 0x10 % 0x10;
    assert value / 0x10 / 0x10 == value / 0x100;
  }

  /** Three bytes re-assemble the number. */
  lemma ThreeBytes(value: nat)
    requires value < 0x100_0000
    ensures value / 0x1_0000 < 0x100
    ensures (value / 0x1_0000) * 0x1_0000 + (value / 0x100 % 0x100) * 0x100 + value % 0x100 == value
  {
    assert value == (value / 0x100) * 0x100 + value % 0x100;
    assert value / 0x100 == (value / 0x100 / 0x100) * 0x100 + value / 0x100 % 0x100;
    assert value / 0x100 / 0x100 == value / 0x1_0000;
  }

  /** Four bytes re-assemble the number. */
  lemma FourBytes(value: nat)
    requires value < 0x1_0000_0000
    ensures value / 0x100_0000 < 0x100
    ensures (value / 0x100_0000) * 0x100_0000 + (value / 0x1_0000 % 0x100) * 0x1_0000
            + (value / 0x100 % 0x100) * 0x100 + value % 0x100 == value
  {
    var high := value / 0x100;
    assert value == high * 0x100 + value % 0x100;
    ThreeBytes(high);
    assert high / 0x1_0000 == value / 0x100_0000;
    assert high / 0x100 == value / 0x1_0000;
    assert high % 0x100 == value / 0x100 % 0x100;
  }

  /**
   * The channel extraction of `Color(hex:)` from the scanned integer and the
   * digit count. On an unsigned integer a right shift by `k` is division by
   * `2^k` and a mask of the low `k` bits is the remainder modulo `2^k`. The
   * scanned integer has at most `count` hex digits.
   */
  function Channels(value: nat, count: nat): (c: Argb)
    requires count == 3 || count == 6 || count == 8 ==> value < Pow16(count)
    ensures count == 3 ==>
      && c.a == 255 && c.r <= 255 && c.g <= 255 && c.b <= 255
      && c.r % 17 == 0 && c.g % 17 == 0 && c.b % 17 == 0
      && (c.r / 17) * 0x100 + (c.g / 17) * 0x10 + c.b / 17 == value
    ensures count == 6 ==>
      && c.a == 255 && c.r <= 255 && c.g <= 255 && c.b <= 255
      && c.r * 0x1_0000 + c.g * 0x100 + c.b == value
    ensures count == 8 ==>
      && c.a <= 255 && c.r <= 255 && c.g <= 255 && c.b <= 255
      && c.a * 0x100_0000 + c.r * 0x1_0000 + c.g * 0x100 + c.b == value
    ensures count != 3 && count != 6 && count != 8 ==> c == Argb(1, 1, 1, 0)
  {
    if count == 3 then
      // 12-bit RGB: each nibble times 17, opaque
      ThreeNibbles(value);
      var r, g, b := value / 0x100, value / 0x10 % 0x10, value % 0x10;
      assert (r * 17) / 17 == r && (g * 17) / 17 == g && (b * 17) / 17 == b;
      Argb(255, r * 17, g * 17, b * 17)
    else if count == 6 then
      // 24-bit RGB: the three bytes, opaque
      ThreeBytes(value);
      Argb(255, value / 0x1_0000, value / 0x100 % 0x100, value % 0x100)
    else if count == 8 then
      // 32-bit ARGB: alpha is the top byte
      FourBytes(value);
      Argb(value / 0x100_0000, value / 0x1_0000 % 0x100, value / 0x100 % 0x100, value % 0x100)
    else
      Argb(1, 1, 1, 0)
  }

  /** In the 12-bit form each nibble is scaled by 17, so the digit F becomes the full channel 255. */
  lemma ShorthandNibbleScaling(value: nat)
    requires value < 0x1000
    ensures value == 0xFFF ==> Channels(value, 3) == Argb(255, 255, 255, 255)
    ensures value == 0 ==> Channels(value, 3) == Argb(255, 0, 0, 0)
  {
  }

  /** `Color(hex:)` up to the final division of each channel by 255. */
  function ColorFromHex(hex: string): (c: Argb)
    ensures c.a <= 255 && c.r <= 255 && c.g <= 255 && c.b <= 255
  {
    var t := Trim(hex);
    Channels(ScanHex(t), |t|)
  }

  /** On a string of hex digits the scan reads all of it. */
  lemma ScanAllDigits(d: string)
    requires forall i :: 0 <= i < |d| ==> IsHexDigit(d[i])
    ensures ScanHex(d) == HexValue(d)
  {
    assert HexPrefix(d) == d;
  }

  /** Trimming a '#' followed by hex digits leaves the digits. */
  lemma TrimHexCode(digits: string)
    requires forall i :: 0 <= i < |digits| ==> IsHexDigit(digits[i])
    ensures Trim("#" + digits) == digits
  {
    assert forall i :: 0 <= i < |digits| ==> IsAlphanumeric(digits[i]);
    TrimKeepsAlphanumerics(digits);
  }

  /** A '#' and six hex digits decode to an opaque colour whose bytes re-assemble the number. */
  lemma SixDigitColor(digits: string)
    requires |digits| == 6 && forall i :: 0 <= i < 6 ==> IsHexDigit(digits[i])
    ensures ColorFromHex("#" + digits).a == 255
    ensures var c := ColorFromHex("#" + digits);
            c.r * 0x1_0000 + c.g * 0x100 + c.b == HexValue(digits)
  {
    TrimHexCode(digits);
    ScanAllDigits(digits);
    assert Pow16(6) == 0x100_0000;
  }

  /** A colour given by its hex code, as written in `Color(hex:)`; its channels are `ColorFromHex(code)`. */
  datatype Color = Hex(code: string)

  datatype Theme = Theme(primary: Color, secondary: Color, accent: Color, name: string, icon: string)

  const Red: Theme := Theme(Hex("#FF4B4B"), Hex("#FF8F1F"), Hex("#FFB74D"),
                            "\U{7EA2}\U{8272}", "flame.fill")
  const Blue: Theme := Theme(Hex("#2196F3"), Hex("#42A5F5"), Hex("#64B5F6"),
                             "\U{84DD}\U{8272}", "water.waves")
  const Purple: Theme := Theme(Hex("#9C27B0"), Hex("#AB47BC"), Hex("#BA68C8"),
                               "\U{7D2B}\U{8272}", "sparkles")
  const Green: Theme := Theme(Hex("#4CAF50"), Hex("#66BB6A"), Hex("#81C784"),
                              "\U{7EFF}\U{8272}", "leaf.fill")

  const AllThemes: seq<Theme> := [Red, Blue, Purple, Green]

  /** The four themes are pairwise different (their names differ). */
  lemma ThemesDistinct()
    ensures |AllThemes| == 4 && Distinct(AllThemes)
  {
    assert Red.name[0] != Blue.name[0] && Red.name[0] != Purple.name[0] && Red.name[0] != Green.name[0];
    assert Blue.name[0] != Purple.name[0] && Blue.name[0] != Green.name[0];
    assert Purple.name[0] != Green.name[0];
  }

  /** `firstIndex(of:)`: the first position holding `x`, or none when `x` does not occur. */
  function FirstIndex<T(==)>(s: seq<T>, x: T): (r: Option<nat>)
    ensures r.Some? ==> r.value < |s| && s[r.value] == x && forall j :: 0 <= j < r.value ==> s[j] != x
    ensures r.None? <==> x !in s
  {
    if s == [] then None
    else if s[0] == x then Some(0)
    else match FirstIndex(s[1..], x)
         case None => None
         case Some(k) => Some(k + 1)
  }

  /** In a duplicate-free sequence the first index of an element is its position. */
  lemma FirstIndexOfDistinct<T>(s: seq<T>, k: nat)
    requires Distinct(s) && k < |s|
    ensures FirstIndex(s, s[k]) == Some(k)
  {
  }

  /** The theme that follows `t` in the cycle; a theme outside the list has no successor but itself. */
  function Successor(t: Theme): (r: Theme)
    ensures t !in AllThemes ==> r == t
  {
    match FirstIndex(AllThemes, t)
    case None => t
    case Some(k) => AllThemes[(k + 1) % |AllThemes|]
  }

  /** Red, blue, purple, green, and back to red. */
  lemma SuccessorTable()
    ensures Successor(Red) == Blue && Successor(Blue) == Purple
    ensures Successor(Purple) == Green && Successor(Green) == Red
  {
  }

  /** The successor of the `k`-th theme is the `(k + 1) % 4`-th. */
  lemma SuccessorAt(k: nat)
    requires k < |AllThemes|
    ensures Successor(AllThemes[k]) == AllThemes[(k + 1) % 4]
  {
    SuccessorTable();
    if k == 0 {
      assert AllThemes[0] == Red && AllThemes[1] == Blue;
    } else if k == 1 {
      assert AllThemes[1] == Blue && AllThemes[2] == Purple;
    } else if k == 2 {
      assert AllThemes[2] == Purple && AllThemes[3] == Green;
    } else {
      assert AllThemes[3] == Green && AllThemes[0] == Red;
    }
  }

  /** The list is closed under the successor, and a theme outside it is fixed. */
  lemma SuccessorStaysInList(t: Theme)
    ensures t in AllThemes <==> Successor(t) in AllThemes
    ensures t !in AllThemes ==> Successor(t) == t
  {
  }

  /** Four steps bring every theme back to itself. */
  lemma FourStepsReturn(t: Theme)
    ensures Successor(Successor(Successor(Successor(t)))) == t
  {
    if t in AllThemes {
      SuccessorTable();
    } else {
      SuccessorStaysInList(t);
    }
  }

  class ThemeManager {
    var currentTheme: Theme

    constructor ()
      ensures currentTheme == Red
    {
      currentTheme := Red;
    }

    /** `nextTheme`: moves to the following theme of the list, cyclically; unknown themes stay. */
    method NextTheme()
      modifies this
      ensures currentTheme == Successor(old(currentTheme))
      ensures old(currentTheme) !in AllThemes ==> currentTheme == old(currentTheme)
      ensures forall k {:trigger AllThemes[k]} :: 0 <= k < |AllThemes| && old(currentTheme) == AllThemes[k] ==>
                currentTheme == AllThemes[(k + 1) % |AllThemes|]
      ensures old(currentTheme) in AllThemes ==> currentTheme in AllThemes
    {
      var currentIndex := FirstIndex(AllThemes, currentTheme);
      if currentIndex.None? {
        return;
      }
      var nextIndex := (currentIndex.value + 1) % |AllThemes|;
      ThemesDistinct();
      SuccessorAt(currentIndex.value);
      currentTheme := AllThemes[nextIndex];
    }
  }

  // ------------------------------------------------------------ number rows

  /** The grid shows rows 0 to 3 (`ForEach(0..<4)`), three keys to a row. */
  const GridRows: nat := 4
  const RowWidth: nat := 3

  /**
   * The bounds of `keys[(row * 3)..<min((row * 3) + 3, keys.count)]`, or None
   * where Swift stops the program because the lower bound passes the upper one.
   */
  function RowRange(row: nat, count: nat): (r: Option<(nat, nat)>)
    ensures r.Some? <==> RowWidth * row <= count
    ensures r.Some? ==> r.value.0 == RowWidth * row && r.value.0 <= r.value.1 <= count
    ensures r.Some? ==> r.value.1 - r.value.0 == if count < RowWidth * row + RowWidth then count - RowWidth * row else RowWidth
  {
    var lo := row * RowWidth;
    var hi := if lo + RowWidth < count then lo + RowWidth else count;
    if lo <= hi then Some((lo, hi)) else None
  }

  /** The keys of one row, as the source slices them (None where the slice traps). */
  function NumberRow(keys: seq<Key>, row: nat): (r: Option<seq<Key>>)
    ensures r.Some? <==> RowWidth * row <= |keys|
    ensures r.Some? ==> |r.value| <= RowWidth && RowWidth * row + |r.value| <= |keys|
    ensures r.Some? ==> r.value == keys[RowWidth * row..RowWidth * row + |r.value|]
    ensures r.Some? && RowWidth * row + RowWidth <= |keys| ==> |r.value| == RowWidth
    ensures r.Some? && |keys| < RowWidth * row + RowWidth ==> |r.value| == |keys| - RowWidth * row
  {
    match RowRange(row, |keys|)
    case None => None
    case Some((lo, hi)) => Some(keys[lo..hi])
  }

  /** The keys of one row with the lower bound clamped to the number of keys: never traps. */
  function ClampedRow(keys: seq<Key>, row: nat): (r: seq<Key>)
    ensures NumberRow(keys, row).Some? ==> r == NumberRow(keys, row).value
    ensures |keys| <= RowWidth * row ==> r == []
  {
    var lo := if row * RowWidth < |keys| then row * RowWidth else |keys|;
    var hi := if lo + RowWidth < |keys| then lo + RowWidth else |keys|;
    keys[lo..hi]
  }

  /** What the grid shows, row after row, with the clamped slice. */
  function DisplayedKeys(keys: seq<Key>): (r: seq<Key>)
    ensures |r| <= GridRows * RowWidth && |r| <= |keys|
  {
    ClampedRow(keys, 0) + ClampedRow(keys, 1) + ClampedRow(keys, 2) + ClampedRow(keys, 3)
  }

  /** The grid shows exactly the first twelve keys (all of them when there are at most twelve). */
  lemma DisplayedKeysArePrefix(keys: seq<Key>)
    ensures DisplayedKeys(keys) == keys[..if |keys| < 12 then |keys| else 12]
  {
    var n := |keys|;
    var m := if n < 12 then n else 12;
    var c0, c1 := if 3 < n then 3 else n, if 6 < n then 6 else n;
    var c2 := if 9 < n then 9 else n;
    assert ClampedRow(keys, 0) == keys[0..c0];
    assert ClampedRow(keys, 1) == keys[c0..c1];
    assert ClampedRow(keys, 2) == keys[c1..c2];
    assert ClampedRow(keys, 3) == keys[c2..m];
    assert keys[0..c1] == keys[0..c0] + keys[c0..c1];
    assert keys[0..c2] == keys[0..c1] + keys[c1..c2];
    assert keys[0..m] == keys[0..c2] + keys[c2..m];
    assert keys[..m] == keys[0..m];
  }

  /** With at least nine keys the source's slices never trap and show the first twelve keys. */
  lemma RowsOfNineOrMore(keys: seq<Key>)
    requires |keys| >= 9
    ensures forall row :: 0 <= row < GridRows ==> NumberRow(keys, row).Some?
    ensures NumberRow(keys, 0).value + NumberRow(keys, 1).value + NumberRow(keys, 2).value
            + NumberRow(keys, 3).value == keys[..if |keys| < 12 then |keys| else 12]
  {
    DisplayedKeysArePrefix(keys);
  }

  /** The 11 keys of the numeric pad fall into rows of 3, 3, 3 and 2 that together are all of them. */
  lemma NumericPadRows(keys: seq<Key>)
    requires |keys| == 11
    ensures forall row :: 0 <= row < GridRows ==> NumberRow(keys, row).Some?
    ensures |NumberRow(keys, 0).value| == 3 && |NumberRow(keys, 1).value| == 3
    ensures |NumberRow(keys, 2).value| == 3 && |NumberRow(keys, 3).value| == 2
    ensures NumberRow(keys, 0).value + NumberRow(keys, 1).value + NumberRow(keys, 2).value
            + NumberRow(keys, 3).value == keys
  {
    RowsOfNineOrMore(keys);
    assert keys[..11] == keys;
  }

  /** With fewer than nine keys the last row's slice traps: its lower bound 9 passes the key count. */
  lemma FewKeysTrap(keys: seq<Key>)
    requires |keys| < 9
    ensures NumberRow(keys, 3) == None
  {
  }

  /** A custom set of five labels already traps on row 2, where the slice would be 6..<5. */
  lemma FiveKeysTrapOnRowTwo(keys: seq<Key>)
    requires |keys| == 5
    ensures NumberRow(keys, 1).Some? && NumberRow(keys, 2) == None
  {
  }
}
