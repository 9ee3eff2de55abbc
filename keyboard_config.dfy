/**
 * The configuration tables of the keyboard: layout columns, the character
 * lists of each character set, the mask character of each input mode and the
 * default field values of the configuration record.
 */
module KeyboardConfig {

  /** No element occurs twice. */
  predicate Distinct<T(==)>(s: seq<T>) {
    forall i, j :: 0 <= i < j < |s| ==> s[i] != s[j]
  }

  /**
   * A Swift `Set<String>`, represented by the order in which it enumerates
   * its elements (the order `Array(set)` produces); a set holds no element twice.
   */
  type StringSet = s: seq<string> | Distinct(s) witness []

  // ---------------------------------------------------------------- layout

  datatype LayoutMode = Grid3x3 | Grid4x4 | Grid5x5

  /** Number of columns of a layout. */
  function Columns(m: LayoutMode): (c: nat)
    ensures 3 <= c <= 5
  {
    match m
    case Grid3x3 => 3
    case Grid4x4 => 4
    case Grid5x5 => 5
  }

  /** Each layout has as many columns as its name says, and no two share a count. */
  lemma ColumnsTable()
    ensures Columns(Grid3x3) == 3 && Columns(Grid4x4) == 4 && Columns(Grid5x5) == 5
    ensures forall m, n :: Columns(m) == Columns(n) ==> m == n
  {
  }

  // -------------------------------------------------------- character sets

  datatype CharacterSet = Letters | Numbers | Symbols | Custom(chars: StringSet)

  const Alphabet: string := "ABCDEFGHIJKLMNOPQRSTUVWXYZ"

  /** Each character of `s` as a string of its own (`.map(String.init)`). */
  function Singletons(s: string): seq<string> {
    seq(|s|, i requires 0 <= i < |s| => [s[i]])
  }

  /** The upper-case letters, computed from their code points. */
  function AlphabetFromCodes(): (r: seq<string>)
    ensures |r| == 26
    ensures forall i :: 0 <= i < |r| ==> |r[i]| == 1 && 'A' <= r[i][0] <= 'Z'
    ensures Distinct(r)
  {
    seq(26, i requires 0 <= i < 26 => [('A' as int + i) as char])
  }

  /** The alphabet literal is the letters A to Z in code-point order. */
  lemma AlphabetInOrder()
    ensures Singletons(Alphabet) == AlphabetFromCodes()
  {
    var r := AlphabetFromCodes();
    assert r[0] == ['A'] && r[1] == ['B'] && r[2] == ['C'] && r[3] == ['D'];
    assert r[4] == ['E'] && r[5] == ['F'] && r[6] == ['G'] && r[7] == ['H'];
    assert r[8] == ['I'] && r[9] == ['J'] && r[10] == ['K'] && r[11] == ['L'];
    assert r[12] == ['M'] && r[13] == ['N'] && r[14] == ['O'] && r[15] == ['P'];
    assert r[16] == ['Q'] && r[17] == ['R'] && r[18] == ['S'] && r[19] == ['T'];
    assert r[20] == ['U'] && r[21] == ['V'] && r[22] == ['W'] && r[23] == ['X'];
    assert r[24] == ['Y'] && r[25] == ['Z'];
  }

  /** The display labels of a character set; no label occurs twice. */
  function Characters(cs: CharacterSet): (r: seq<string>)
    ensures Distinct(r)
  {
    match cs
    case Letters =>
      AlphabetInOrder();
      Singletons(Alphabet)
    case Numbers => ["7", "8", "9", "4", "5", "6", "1", "2", "3", "0", "."]
    case Symbols => ["@", "#", "$", "%", "&", "*", "(", ")", "-", "+", "=", "?"]
    case Custom(chars) => chars
  }

  /** The letters are the 26 letters A to Z in order. */
  lemma LettersList()
    ensures |Characters(Letters)| == 26
    ensures forall i :: 0 <= i < 26 ==> Characters(Letters)[i] == [('A' as int + i) as char]
  {
    AlphabetInOrder();
  }

  /** The numeric pad: 11 labels, in telephone-pad order 7 8 9 / 4 5 6 / 1 2 3 / 0 . */
  lemma NumbersList()
    ensures Characters(Numbers) == ["7", "8", "9", "4", "5", "6", "1", "2", "3", "0", "."]
    ensures |Characters(Numbers)| == 11
    ensures (set c | c in Characters(Numbers)) ==
            {"0", "1", "2", "3", "4", "5", "6", "7", "8", "9", "."}
  {
  }

  /** The symbol set has 12 labels. */
  lemma SymbolsList()
    ensures |Characters(Symbols)| == 12
  {
  }

  /** A sequence without duplicates has as many elements as its set. */
  lemma {:induction false} DistinctCardinality<T>(s: seq<T>)
    requires Distinct(s)
    ensures |set x | x in s| == |s|
  {
    if s != [] {
      var t := s[1..];
      assert Distinct(t) by {
        forall i, j | 0 <= i < j < |t| ensures t[i] != t[j] {
          assert t[i] == s[i + 1] && t[j] == s[j + 1];
        }
      }
      DistinctCardinality(t);
      assert s[0] !in t by {
        forall k | 0 <= k < |t| ensures t[k] != s[0] {
          assert t[k] == s[k + 1];
        }
      }
      assert (set x | x in s) == (set x | x in t) + {s[0]} by {
        assert s == [s[0]] + t;
      }
    }
  }

  /** A custom set yields one label per element of the set, and none twice. */
  lemma CustomList(chars: StringSet)
    ensures |Characters(Custom(chars))| == |set c | c in chars|
    ensures (set c | c in Characters(Custom(chars))) == (set c | c in chars)
  {
    DistinctCardinality(chars);
  }

  // ----------------------------------------------------------- input modes

  datatype InputMode = Normal | Password

  /** The character shown in place of each input character; empty for normal mode. */
  function MaskCharacter(m: InputMode): (r: string)
    ensures |r| <= 1
  {
    match m
    case Normal => ""
    case Password => "\U{2022}"  // BULLET
  }

  /** Normal mode masks nothing; password mode masks with one bullet character. */
  lemma MaskTable()
    ensures MaskCharacter(Normal) == ""
    ensures MaskCharacter(Password) == ['\U{2022}']
    ensures forall m :: MaskCharacter(m) == "" <==> m == Normal
  {
  }

  // -------------------------------------------------------- configuration

  datatype KeyboardConfig = KeyboardConfig(
    layoutMode: LayoutMode,
    characterSet: CharacterSet,
    inputMode: InputMode,
    animationEnabled: bool,
    hapticEnabled: bool,
    soundEnabled: bool,
    minimumShufflePercentage: real,
    maxPasswordLength: int,
    shouldClearAfterSubmit: bool)

  /** `KeyboardConfig()` with every field at its declared default. */
  const Default: KeyboardConfig :=
    KeyboardConfig(Grid3x3, Numbers, Normal, true, true, true, 0.3, 20, false)

  /** The default configuration: the numeric pad, a 3x3 grid, threshold 0.3 in [0, 1). */
  lemma DefaultSettings()
    ensures Default.minimumShufflePercentage == 0.3
    ensures 0.0 <= Default.minimumShufflePercentage < 1.0
    ensures Default.characterSet == Numbers && |Characters(Default.characterSet)| == 11
    ensures Default.layoutMode == Grid3x3 && Default.inputMode == Normal
    ensures Default.hapticEnabled && Default.maxPasswordLength == 20
    ensures Default.animationEnabled && Default.soundEnabled && !Default.shouldClearAfterSubmit
  {
  }
}
