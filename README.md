# ShuffleKey keyboard core, modelled in Dafny

ShuffleKey is a numeric-entry keyboard for iOS. Its one interesting feature is
the *shuffle*: on request the keys are rearranged at random. A rearrangement
is kept only once enough of the keys show a different label than before. This
project models the logic under the SwiftUI views and proves properties of it:

- `keyboard_config.dfy`, module `KeyboardConfig`: the configuration record and its tables. These are the
  columns of each grid layout, the labels of each character set (letters,
  numeric pad, symbols, custom set), the mask character of each input mode,
  and the default values, including the shuffle threshold 0.3.
- `keyboard_view_model.dfy`, module `KeyboardViewModel`: the `Key` record and
  the view-model class. The class holds the key arrangement `keys`, the typed
  text `inputText` and the busy flag `isShuffling`. Its methods are set-up,
  the rejection-sampling shuffle and the three text edits. The shuffle's
  acceptance test `IsValidShuffle` is a real-valued fraction test. Lemmas
  cover its edge cases: no keys, a threshold above 1, the unchanged
  arrangement, and 11 keys at 0.3, where at least 4 labels must move.
- `keyboard_view.dfy`, module `KeyboardView`: the non-visual parts of the
  keyboard screen. These are the integer channel extraction of
  `Color(hex:)`, the four colour themes, the theme manager that cycles
  through them, and the slice of keys each grid row shows.
- `wrappers.dfy`, module `Wrappers`: an `Option` type.

How the shuffle is modelled. The source copies `keys` and calls the library's
`shuffle()` on the copy, again and again. It stops at the first arrangement
that passes `isValidShuffle` and has the same set of labels. A `shuffle()`
call is modelled as the list of `swapAt` exchanges it performs (type `Swap`).
Every permutation is a product of such exchanges. Whole `Key` records move,
so ids travel with their labels. `ShuffleKeys` takes the random choices as a
parameter `draws`: element `n` is the swap list of the `n`-th `shuffle()`
call. The source's `repeat … while` has no bound and loops forever when no
draw is ever accepted. So `ShuffleKeys` requires `Reaches`: some draw in the
stream is accepted, which holds exactly for the runs that end.
`FirstAccepted` is the arrangement such a run keeps. `NoKeysNeverReached`
and `OneLabelNeverReached` show two configurations for which no run ends.

Three behaviours of the code are worth noting:

- `appendCharacter` has no length cap. `maxPasswordLength` is declared but never checked.
- The shuffle moves whole keys. Labels are not re-dealt onto fixed ids.
- There is no masking function in the view model.

The grid always shows rows 0 to 3 of three keys each. This gives two consequences:

- With the 26 letters only the first twelve keys appear (`DisplayedKeysArePrefix`, `RowsOfNineOrMore`).
- With fewer than nine keys the last row's slice traps (see Findings).

## Model

| member | source | states |
|---|---|---|
| `KeyboardConfig.Columns` | ShuffleKey/Core/Models/KeyboardConfig.swift:9-15 | every layout has between 3 and 5 columns |
| `KeyboardConfig.ColumnsTable` | ShuffleKey/Core/Models/KeyboardConfig.swift:9-15 | grid3x3, grid4x4 and grid5x5 have 3, 4 and 5 columns; no two layouts share a count |
| `KeyboardConfig.Characters` | ShuffleKey/Core/Models/KeyboardConfig.swift:24-35 | the label list of every character set, custom ones included, has no duplicates |
| `KeyboardConfig.AlphabetFromCodes` | ShuffleKey/Core/Models/KeyboardConfig.swift:27 | the independent reference for the letters, built from code points: 26 distinct one-character strings, each an upper-case letter; `AlphabetInOrder` checks the literal against it |
| `KeyboardConfig.AlphabetInOrder` | ShuffleKey/Core/Models/KeyboardConfig.swift:27 | the alphabet literal, split into one-character strings, is A to Z in code-point order |
| `KeyboardConfig.LettersList` | ShuffleKey/Core/Models/KeyboardConfig.swift:27 | the letters set has 26 labels; label `i` is the `i`-th letter after A |
| `KeyboardConfig.NumbersList` | ShuffleKey/Core/Models/KeyboardConfig.swift:29 | the numeric set is the 11 labels 7 8 9 4 5 6 1 2 3 0 . in this order: the ten digits and the point |
| `KeyboardConfig.SymbolsList` | ShuffleKey/Core/Models/KeyboardConfig.swift:31 | the symbol set has 12 labels (distinct by `Characters`) |
| `KeyboardConfig.DistinctCardinality` | ShuffleKey/Core/Models/KeyboardConfig.swift:32-33 | a duplicate-free sequence has as many elements as its set |
| `KeyboardConfig.CustomList` | ShuffleKey/Core/Models/KeyboardConfig.swift:32-33 | a custom set yields one label per element of the set and exactly the set's elements |
| `KeyboardConfig.MaskCharacter` | ShuffleKey/Core/Models/KeyboardConfig.swift:42-47 | a mask is at most one character |
| `KeyboardConfig.MaskTable` | ShuffleKey/Core/Models/KeyboardConfig.swift:42-47 | normal mode masks with the empty string, password mode with the bullet; only normal mode has an empty mask |
| `KeyboardConfig.DefaultSettings` | ShuffleKey/Core/Models/KeyboardConfig.swift:50-60 | the default threshold is 0.3, inside [0, 1); the default character set is the numeric pad of 11 labels; grid 3x3, normal input, animation, haptics and sound on, a password cap of 20, no clearing after submit |
| `KeyboardViewModel.KeyEquality` | ShuffleKey/Features/Keyboard/KeyboardViewModel.swift:83-90 | two keys are equal exactly when id and label are both equal |
| `KeyboardViewModel.KeysOf` | ShuffleKey/Features/Keyboard/KeyboardViewModel.swift:64-67 | one key per character, and no two keys are equal, because ids are positions |
| `KeyboardViewModel.ValueSet` | ShuffleKey/Features/Keyboard/KeyboardViewModel.swift:28 | the label set is empty exactly when there are no keys |
| `KeyboardViewModel.ValueSetOfValues` | ShuffleKey/Features/Keyboard/KeyboardViewModel.swift:28 | the label set is the set of the mapped labels, `Set(keys.map { $0.value })` |
| `KeyboardViewModel.KeysOfRoundTrip` | ShuffleKey/Features/Keyboard/KeyboardViewModel.swift:64-67 | reading the labels back from freshly built keys gives the character list; each id is its position |
| `KeyboardViewModel.ChangedCount` | ShuffleKey/Features/Keyboard/KeyboardViewModel.swift:70-72 | the changed count is at most the length of either arrangement |
| `KeyboardViewModel.NoChangeIffSameValues` | ShuffleKey/Features/Keyboard/KeyboardViewModel.swift:70-72 | the count is 0 exactly when every common position shows the same label, both directions |
| `KeyboardViewModel.IsValidShuffle` | ShuffleKey/Features/Keyboard/KeyboardViewModel.swift:69-74 | a valid shuffle needs at least one key (0/0 is NaN); with keys, a threshold of at most 0 accepts every arrangement |
| `KeyboardViewModel.FractionAtLeast` | ShuffleKey/Features/Keyboard/KeyboardViewModel.swift:73 | for a positive divisor, comparing the quotient equals comparing the scaled threshold |
| `KeyboardViewModel.ValidIffEnoughChanges` | ShuffleKey/Features/Keyboard/KeyboardViewModel.swift:69-74 | for non-empty keys, a shuffle is valid exactly when the changed count is at least threshold times the key count |
| `KeyboardViewModel.ElevenKeysNeedFourChanges` | ShuffleKey/Features/Keyboard/KeyboardViewModel.swift:69-74 | with 11 keys and threshold 0.3, valid exactly when at least 4 positions changed |
| `KeyboardViewModel.UnchangedValidIffZeroThreshold` | ShuffleKey/Features/Keyboard/KeyboardViewModel.swift:69-74 | the unchanged arrangement is valid exactly when there are keys and the threshold is at most 0 |
| `KeyboardViewModel.ThresholdAboveOneUnreachable` | ShuffleKey/Features/Keyboard/KeyboardViewModel.swift:69-74 | no arrangement is valid for a threshold above 1 |
| `KeyboardViewModel.SwapAt` | ShuffleKey/Features/Keyboard/KeyboardViewModel.swift:33 | one exchange swaps the two positions, leaves all others, and preserves the multiset of keys |
| `KeyboardViewModel.Shuffled` | ShuffleKey/Features/Keyboard/KeyboardViewModel.swift:33 | a whole `shuffle()` keeps the length and the multiset of keys (ids included) |
| `KeyboardViewModel.PermutationKeepsValueSet` | ShuffleKey/Features/Keyboard/KeyboardViewModel.swift:28-35 | rearranging keys never changes the set of labels |
| `KeyboardViewModel.Accepted` | ShuffleKey/Features/Keyboard/KeyboardViewModel.swift:35 | the loop stops only on a non-empty start and a non-empty new arrangement |
| `KeyboardViewModel.AcceptedIffValid` | ShuffleKey/Features/Keyboard/KeyboardViewModel.swift:35 | for a permutation the label-set half of the loop test always holds; acceptance is validity |
| `KeyboardViewModel.FirstAccepted` | ShuffleKey/Features/Keyboard/KeyboardViewModel.swift:31-37 | the first accepted arrangement along the draws is a permutation of the start and passes the loop test |
| `KeyboardViewModel.FirstAcceptedStep` | ShuffleKey/Features/Keyboard/KeyboardViewModel.swift:32-35 | one turn of the loop: what is kept is the next arrangement when it is accepted, and otherwise the first accepted one after it, which the remaining draws still reach |
| `KeyboardViewModel.NoKeysNeverReached` | ShuffleKey/Features/Keyboard/KeyboardViewModel.swift:32-35 | with no keys no draw is ever accepted, so the loop never ends |
| `KeyboardViewModel.OneLabelNeverReached` | ShuffleKey/Features/Keyboard/KeyboardViewModel.swift:32-35 | when all keys show one label and the threshold is positive, no draw is ever accepted |
| `KeyboardViewModel.DefaultShuffleMovesFour` | ShuffleKey/Features/Keyboard/KeyboardViewModel.swift:69-74 | with the default configuration every accepted arrangement moves at least 4 of the 11 labels |
| `KeyboardViewModel.DropLast` | ShuffleKey/Features/Keyboard/KeyboardViewModel.swift:54-57 | empty text stays empty; otherwise the result followed by the old last character is the old text |
| `KeyboardViewModel.DeleteUndoesAppend` | ShuffleKey/Features/Keyboard/KeyboardViewModel.swift:47-57 | deleting after typing one character restores the text |
| `KeyboardViewModel.KeyboardViewModel.constructor` | ShuffleKey/Features/Keyboard/KeyboardViewModel.swift:15-18 | a new view model, by default with the default configuration, has empty text, is not shuffling, and has the keys built from its character set |
| `KeyboardViewModel.KeyboardViewModel.SetupKeys` | ShuffleKey/Features/Keyboard/KeyboardViewModel.swift:64-67 | afterwards there is one key per character and key `i` is `Key(i, characters[i])`; text and flag unchanged |
| `KeyboardViewModel.KeyboardViewModel.ShuffleKeys` | ShuffleKey/Features/Keyboard/KeyboardViewModel.swift:21-45 | when already shuffling nothing changes; otherwise the new keys are the first accepted draw, a permutation of the old keys with a changed fraction at least the threshold and the same label set, and the flag is false again; the text never changes |
| `KeyboardViewModel.KeyboardViewModel.AppendCharacter` | ShuffleKey/Features/Keyboard/KeyboardViewModel.swift:47-52 | the text becomes the old text followed by the typed string, with no cap; keys and flag unchanged |
| `KeyboardViewModel.KeyboardViewModel.DeleteCharacter` | ShuffleKey/Features/Keyboard/KeyboardViewModel.swift:54-57 | no change on empty text; otherwise exactly the last character goes; keys and flag unchanged |
| `KeyboardViewModel.KeyboardViewModel.ClearText` | ShuffleKey/Features/Keyboard/KeyboardViewModel.swift:59-61 | the text is empty afterwards whatever it was, so clearing twice equals clearing once; keys and flag unchanged |
| `KeyboardView.Pow16` | ShuffleKey/Features/Keyboard/KeyboardView.swift:131 | 16^n, the bound on `n` scanned digits, is positive |
| `KeyboardView.Pow16Monotonic` | ShuffleKey/Features/Keyboard/KeyboardView.swift:131 | more digits allow larger values |
| `KeyboardView.TrimStart` | ShuffleKey/Features/Keyboard/KeyboardView.swift:129 | the result is a suffix that starts with an alphanumeric; everything removed was not alphanumeric |
| `KeyboardView.TrimEnd` | ShuffleKey/Features/Keyboard/KeyboardView.swift:129 | the result is a prefix that ends with an alphanumeric; everything removed was not alphanumeric |
| `KeyboardView.Trim` | ShuffleKey/Features/Keyboard/KeyboardView.swift:129 | the trimmed code is not longer than the input, starts and ends with an alphanumeric, and is empty exactly when the input has no alphanumeric |
| `KeyboardView.TrimKeepsAlphanumerics` | ShuffleKey/Features/Keyboard/KeyboardView.swift:129 | an alphanumeric string is left as it is, and a leading '#' is dropped from it |
| `KeyboardView.DigitValue` | ShuffleKey/Features/Keyboard/KeyboardView.swift:131 | a hex digit is worth less than 16 |
| `KeyboardView.HexPrefix` | ShuffleKey/Features/Keyboard/KeyboardView.swift:131 | the scan reads the longest prefix of hex digits and stops at the first other character |
| `KeyboardView.HexValue` | ShuffleKey/Features/Keyboard/KeyboardView.swift:131 | `n` hex digits denote a number below 16^n |
| `KeyboardView.ScanHex` | ShuffleKey/Features/Keyboard/KeyboardView.swift:130-131 | the scanned integer of a string of length `n` is below 16^n; it is 0 when there are no leading digits |
| `KeyboardView.ScanAllDigits` | ShuffleKey/Features/Keyboard/KeyboardView.swift:131 | on a string of hex digits the scan reads the whole string |
| `KeyboardView.ThreeNibbles` | ShuffleKey/Features/Keyboard/KeyboardView.swift:135 | a number below 0x1000 is the sum of its three shifted nibbles |
| `KeyboardView.ThreeBytes` | ShuffleKey/Features/Keyboard/KeyboardView.swift:137 | a number below 2^24 is the sum of its three shifted bytes |
| `KeyboardView.FourBytes` | ShuffleKey/Features/Keyboard/KeyboardView.swift:139 | a number below 2^32 is the sum of its four shifted bytes |
| `KeyboardView.Channels` | ShuffleKey/Features/Keyboard/KeyboardView.swift:132-142 | 3 digits: opaque, each channel a nibble times 17 (at most 255) that re-assembles the number; 6 digits: opaque, the three bytes re-assemble the number; 8 digits: alpha is the top byte and all four bytes re-assemble the number; any other count: (1, 1, 1, 0) |
| `KeyboardView.ShorthandNibbleScaling` | ShuffleKey/Features/Keyboard/KeyboardView.swift:135 | 3-digit FFF is opaque white (F becomes 255) and 000 opaque black |
| `KeyboardView.ColorFromHex` | ShuffleKey/Features/Keyboard/KeyboardView.swift:128-142 | every string decodes to channels that are each at most 255 |
| `KeyboardView.TrimHexCode` | ShuffleKey/Features/Keyboard/KeyboardView.swift:129 | trimming '#' plus hex digits leaves the digits |
| `KeyboardView.SixDigitColor` | ShuffleKey/Features/Keyboard/KeyboardView.swift:128-142 | '#' plus six hex digits is opaque, and its red, green and blue bytes re-assemble the digits' value |
| `KeyboardView.ThemesDistinct` | ShuffleKey/Features/Keyboard/KeyboardView.swift:43-75 | the theme list has four pairwise different themes |
| `KeyboardView.FirstIndex` | ShuffleKey/Features/Keyboard/KeyboardView.swift:82 | the result is the first position holding the theme; it is absent exactly when the theme is not in the list |
| `KeyboardView.FirstIndexOfDistinct` | ShuffleKey/Features/Keyboard/KeyboardView.swift:82 | in a duplicate-free list the first index of the `k`-th element is `k` |
| `KeyboardView.Successor` | ShuffleKey/Features/Keyboard/KeyboardView.swift:81-85 | a theme outside the list is left as it is (the `guard` returns) |
| `KeyboardView.SuccessorTable` | ShuffleKey/Features/Keyboard/KeyboardView.swift:75-85 | red goes to blue, blue to purple, purple to green, green to red |
| `KeyboardView.SuccessorAt` | ShuffleKey/Features/Keyboard/KeyboardView.swift:81-85 | the successor of theme `k` is theme `(k + 1) % 4` |
| `KeyboardView.SuccessorStaysInList` | ShuffleKey/Features/Keyboard/KeyboardView.swift:82-84 | a theme is in the list exactly when its successor is; a theme outside the list is its own successor |
| `KeyboardView.FourStepsReturn` | ShuffleKey/Features/Keyboard/KeyboardView.swift:75-85 | four steps bring every theme back to itself |
| `KeyboardView.ThemeManager.constructor` | ShuffleKey/Features/Keyboard/KeyboardView.swift:79 | the manager starts on the red theme |
| `KeyboardView.ThemeManager.NextTheme` | ShuffleKey/Features/Keyboard/KeyboardView.swift:81-85 | from theme `k` of the list the current theme moves to theme `(k + 1) % 4` and stays in the list; a theme not in the list is left unchanged |
| `KeyboardView.RowRange` | ShuffleKey/Features/Keyboard/KeyboardView.swift:237 | a row's slice exists exactly when `3 * row` is at most the key count; it then starts at `3 * row` and holds 3 keys, or the rest when fewer remain |
| `KeyboardView.NumberRow` | ShuffleKey/Features/Keyboard/KeyboardView.swift:237 | the row slice exists exactly when `3 * row` is at most the key count; it is then the run of at most three keys starting at `3 * row`, a full three when that many remain, or the rest when fewer remain |
| `KeyboardView.ClampedRow` | ShuffleKey/Features/Keyboard/KeyboardView.swift:237 | the clamped slice agrees with the source's wherever the source's does not trap, and is empty for a row past the last key |
| `KeyboardView.DisplayedKeys` | ShuffleKey/Features/Keyboard/KeyboardView.swift:180-181 | the four clamped rows show at most twelve keys and no more keys than there are |
| `KeyboardView.DisplayedKeysArePrefix` | ShuffleKey/Features/Keyboard/KeyboardView.swift:180-181 | the four clamped rows together are exactly the first twelve keys, or all keys when there are fewer |
| `KeyboardView.RowsOfNineOrMore` | ShuffleKey/Features/Keyboard/KeyboardView.swift:237 | with at least nine keys none of the rows 0 to 3 traps, and together they show the first twelve keys |
| `KeyboardView.NumericPadRows` | ShuffleKey/Features/Keyboard/KeyboardView.swift:237 | the 11 numeric keys fall into rows of 3, 3, 3 and 2 that together are the whole array |
| `KeyboardView.FewKeysTrap` | ShuffleKey/Features/Keyboard/KeyboardView.swift:237 | with fewer than nine keys row 3's slice traps |
| `KeyboardView.FiveKeysTrapOnRowTwo` | ShuffleKey/Features/Keyboard/KeyboardView.swift:237 | with five keys row 1 is fine but row 2's slice traps |

## Left out

- SwiftUI views, gradients, shadows, animations and previews: these are pure presentation. This covers KeyboardView.swift's view bodies, KeyboardButton.swift and KeyboardSettingsView.swift.
- The `withAnimation` wrapper around the shuffle and the `DispatchQueue` callback of the function buttons: they only affect timing and presentation.
- Haptic and sound feedback: they are foreign UIKit and AudioToolbox calls with no result the core uses. This covers `generateHapticFeedback`, HapticManager.swift, SoundManager.swift and FeedbackGenerator.swift. So `hapticEnabled` has no visible effect in the model.
- AppIcon.swift: it renders images and writes files.
- KeyboardSettings.swift and the size slider: a floating-point singleton with clamping.
- `displayText`, `isPasswordMode` and `togglePasswordMode`: the view uses them, but the view model never defines them. No password masking is modelled.
- `maxPasswordLength`: the model has the field, but no operation enforces it, as in the code.
- ShuffleKeys: the randomness of `shuffle()` is a parameter. The model shows neither that the choices are uniform nor that every permutation can be drawn.
- ShuffleKeys: the source's loop has no bound. The model requires that the draws reach an accepted arrangement, so the runs that never end are not modelled.
- IsValidShuffle: the threshold and the fraction are exact reals. Double rounding may differ from the model when the fraction meets the threshold exactly.
- ColorFromHex: the final division of each channel by 255 is floating point and is left out.
- ScanHex: some scanner behaviours are not modelled. An optional `0x` prefix is not skipped. The scanner's clamping of values that overflow 64 bits is missing; only strings of more than 16 digits overflow, and those fall to the default branch.
- Trim: only ASCII letters and digits count as alphanumeric, where the source uses the Unicode set. Strings are counted in characters, not grapheme clusters.
- DeleteCharacter: removes one character, where Swift's `removeLast()` removes one grapheme cluster.
- Theme: each colour is kept as its hex code. Swift compares the decoded colours instead. The four themes differ by name either way.
- The custom character set: a Swift `Set` enumerates in an unspecified order. The model represents the set by one such order, without duplicates.
- Published-property change notification and the unused `cancellables` field: they carry no logic.
- A theme manager's `currentTheme` can only be assigned from outside through the published property. The model lets any theme be current.

## Findings

| source | as written | input that shows it | evidently intended | confidence | as-written member | corrected member |
|---|---|---|---|---|---|---|
| ShuffleKey/Features/Keyboard/KeyboardView.swift:237 | the row slice starts at `row * 3` without clamping it to `keys.count`; the upper bound is clamped | a custom character set of five labels: row 2 slices `6..<5`, which traps; every set of fewer than nine labels traps on row 3 | each of the four rows shows the keys that exist, and an empty row when there are none | medium, not executed | `KeyboardView.FiveKeysTrapOnRowTwo` | `KeyboardView.DisplayedKeysArePrefix` |
