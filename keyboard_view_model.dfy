/**
 * The keyboard's view model: the arrangement of keys, the typed text and the
 * busy flag of the shuffle, with the rejection-sampling shuffle and the text edits.
 */
module KeyboardViewModel {
  import opened KeyboardConfig

  /** One key: its position index at set-up time and its label. */
  datatype Key = Key(id: int, value: string)

  /** Swift's `==` on `Key` compares both fields, which is Dafny's equality on `Key`. */
  lemma KeyEquality(a: Key, b: Key)
    ensures a == b <==> a.id == b.id && a.value == b.value
  {
  }

  /** The keys built from a character list: key `i` has id `i` and label `chars[i]`. */
  function KeysOf(chars: seq<string>): (r: seq<Key>)
    ensures |r| == |chars|
    ensures Distinct(r)
  {
    seq(|chars|, i requires 0 <= i < |chars| => Key(i, chars[i]))
  }

  /** The labels of an arrangement, in order (`keys.map { $0.value }`). */
  function Values(ks: seq<Key>): seq<string> {
    seq(|ks|, i requires 0 <= i < |ks| => ks[i].value)
  }

  /** The set of labels of an arrangement (`Set(keys.map { $0.value })`). */
  function ValueSet(ks: seq<Key>): (r: set<string>)
    ensures r == {} <==> ks == []
  {
    var r := set k | k in ks :: k.value;
    assert ks != [] ==> ks[0].value in r;
    r
  }

  /** The label of every member of an arrangement is among its labels in order. */
  lemma LabelsOfMembers(ks: seq<Key>)
    ensures forall k :: k in ks ==> k.value in Values(ks)
  {
    forall k | k in ks
      ensures k.value in Values(ks)
    {
      var i :| 0 <= i < |ks| && ks[i] == k;
      assert Values(ks)[i] == k.value;
    }
  }

  /** The label set is the set of the labels read in order, duplicates merged. */
  lemma ValueSetOfValues(ks: seq<Key>)
    ensures ValueSet(ks) == (set v | v in Values(ks))
  {
    LabelsOfMembers(ks);
    assert forall i :: 0 <= i < |ks| ==> Values(ks)[i] in ValueSet(ks);
  }

  /** Reading the labels back from freshly built keys gives the character list, and ids are positions. */
  lemma KeysOfRoundTrip(chars: seq<string>)
    ensures Values(KeysOf(chars)) == chars
    ensures forall i :: 0 <= i < |chars| ==> KeysOf(chars)[i].id == i
  {
  }

  // --------------------------------------------------------- validity test

  /**
   * The number of positions, over the common length, at which the two
   * arrangements show different labels (`zip(old, new).filter { ... }.count`).
   */
  function ChangedCount(a: seq<Key>, b: seq<Key>): (n: nat)
    ensures n <= |a| && n <= |b|
    decreases |a|
  {
    if a == [] || b == [] then 0
    else (if a[0].value != b[0].value then 1 else 0) + ChangedCount(a[1..], b[1..])
  }

  /** Nothing changed exactly when every common position shows the same label. */
  lemma {:induction false} NoChangeIffSameValues(a: seq<Key>, b: seq<Key>)
    ensures ChangedCount(a, b) == 0 <==>
            forall i :: 0 <= i < |a| && i < |b| ==> a[i].value == b[i].value
    decreases |a|
  {
    if a != [] && b != [] {
      NoChangeIffSameValues(a[1..], b[1..]);
      if ChangedCount(a, b) == 0 {
        forall i | 0 <= i < |a| && i < |b| ensures a[i].value == b[i].value {
          if i > 0 { assert a[1..][i - 1] == a[i] && b[1..][i - 1] == b[i]; }
        }
      } else if a[0].value == b[0].value {
        var i :| 0 <= i < |a[1..]| && i < |b[1..]| && a[1..][i].value != b[1..][i].value;
        assert a[i + 1].value != b[i + 1].value;
      }
    }
  }

  /**
   * `isValidShuffle`: the fraction of positions whose label changed is at least
   * the threshold. With no keys Swift divides 0 by 0, giving NaN, and a
   * comparison with NaN is false.
   */
  predicate IsValidShuffle(keys: seq<Key>, newKeys: seq<Key>, threshold: real)
    ensures IsValidShuffle(keys, newKeys, threshold) ==> |keys| > 0
    ensures |keys| > 0 && threshold <= 0.0 ==> IsValidShuffle(keys, newKeys, threshold)
  {
    |keys| > 0 && (ChangedCount(keys, newKeys) as real) / (|keys| as real) >= threshold
  }

  /** Dividing by a positive count and comparing is comparing the scaled threshold. */
  lemma FractionAtLeast(c: real, n: real, t: real)
    requires n > 0.0
    ensures c / n >= t <==> c >= t * n
  {
    var q := c / n;
    assert q * n == c;
    if q >= t {
      assert (q - t) * n >= 0.0;
    } else {
      assert (t - q) * n > 0.0;
    }
  }

  /** For a non-empty arrangement the test is "changed count at least threshold times length". */
  lemma ValidIffEnoughChanges(keys: seq<Key>, newKeys: seq<Key>, threshold: real)
    requires |keys| > 0
    ensures IsValidShuffle(keys, newKeys, threshold) <==>
            ChangedCount(keys, newKeys) as real >= threshold * (|keys| as real)
  {
    FractionAtLeast(ChangedCount(keys, newKeys) as real, |keys| as real, threshold);
  }

  /** With 11 keys and the threshold 0.3, a shuffle is valid exactly when at least 4 labels moved. */
  lemma ElevenKeysNeedFourChanges(keys: seq<Key>, newKeys: seq<Key>)
    requires |keys| == 11
    ensures IsValidShuffle(keys, newKeys, 0.3) <==> ChangedCount(keys, newKeys) >= 4
  {
    ValidIffEnoughChanges(keys, newKeys, 0.3);
  }

  /** The unchanged arrangement passes only a threshold of at most 0. */
  lemma UnchangedValidIffZeroThreshold(keys: seq<Key>, threshold: real)
    ensures IsValidShuffle(keys, keys, threshold) <==> |keys| > 0 && threshold <= 0.0
  {
    NoChangeIffSameValues(keys, keys);
  }

  /** A threshold above 1 can never be met. */
  lemma ThresholdAboveOneUnreachable(keys: seq<Key>, newKeys: seq<Key>, threshold: real)
    requires threshold > 1.0
    ensures !IsValidShuffle(keys, newKeys, threshold)
  {
    if |keys| > 0 {
      var c, n := ChangedCount(keys, newKeys) as real, |keys| as real;
      assert c <= n;
      var d := threshold - 1.0;
      assert d * n > 0.0;
      assert threshold * n == d * n + n;
      assert threshold * n > c;
      ValidIffEnoughChanges(keys, newKeys, threshold);
    }
  }

  // ----------------------------------------------------------- permutations

  /** One `swapAt(i, j)` of the in-place shuffle. */
  datatype Swap = Swap(i: nat, j: nat)

  predicate SwapsWithin(sw: seq<Swap>, n: nat) {
    forall k :: 0 <= k < |sw| ==> sw[k].i < n && sw[k].j < n
  }

  predicate DrawsWithin(draws: seq<seq<Swap>>, n: nat) {
    forall k :: 0 <= k < |draws| ==> SwapsWithin(draws[k], n)
  }

  /** `swapAt(i, j)`: exchanges two positions and leaves the others alone. */
  function SwapAt(s: seq<Key>, i: nat, j: nat): (r: seq<Key>)
    requires i < |s| && j < |s|
    ensures |r| == |s| && r[i] == s[j] && r[j] == s[i]
    ensures forall k :: 0 <= k < |s| && k != i && k != j ==> r[k] == s[k]
    ensures multiset(r) == multiset(s)
  {
    s[i := s[j]][j := s[i]]
  }

  /**
   * One `shuffle()` of the whole array, given as the sequence of swaps it
   * performs; the keys are moved whole, so the result is a permutation.
   */
  function Shuffled(s: seq<Key>, sw: seq<Swap>): (r: seq<Key>)
    requires SwapsWithin(sw, |s|)
    ensures |r| == |s| && multiset(r) == multiset(s)
    decreases |sw|
  {
    if sw == [] then s else Shuffled(SwapAt(s, sw[0].i, sw[0].j), sw[1..])
  }

  /** The exit condition of the `repeat ... while` loop: valid, and the same set of labels. */
  predicate Accepted(keys: seq<Key>, newKeys: seq<Key>, threshold: real)
    ensures Accepted(keys, newKeys, threshold) ==> keys != [] && newKeys != []
  {
    IsValidShuffle(keys, newKeys, threshold) && ValueSet(newKeys) == ValueSet(keys)
  }

  /** Rearranging keys never changes which labels are present. */
  lemma PermutationKeepsValueSet(a: seq<Key>, b: seq<Key>)
    requires multiset(a) == multiset(b)
    ensures ValueSet(a) == ValueSet(b)
  {
    forall v | v in ValueSet(a) ensures v in ValueSet(b) {
      var k :| k in a && k.value == v;
      assert k in multiset(a);
    }
    forall v | v in ValueSet(b) ensures v in ValueSet(a) {
      var k :| k in b && k.value == v;
      assert k in multiset(b);
    }
  }

  /** For a permutation the second half of the exit condition always holds. */
  lemma AcceptedIffValid(keys: seq<Key>, newKeys: seq<Key>, threshold: real)
    requires multiset(newKeys) == multiset(keys)
    ensures Accepted(keys, newKeys, threshold) <==> IsValidShuffle(keys, newKeys, threshold)
  {
    PermutationKeepsValueSet(keys, newKeys);
  }

  /**
   * The loop leaves: starting from the arrangement `cur`, one of the shuffles
   * in `draws`, applied one after the other, gives an accepted arrangement.
   */
  predicate Reaches(keys: seq<Key>, cur: seq<Key>, draws: seq<seq<Swap>>, threshold: real)
    requires DrawsWithin(draws, |cur|)
    decreases |draws|
  {
    draws != [] &&
    var next := Shuffled(cur, draws[0]);
    Accepted(keys, next, threshold) || Reaches(keys, next, draws[1..], threshold)
  }

  /** The first accepted arrangement along the draws: what `shuffleKeys` keeps. */
  function FirstAccepted(keys: seq<Key>, cur: seq<Key>, draws: seq<seq<Swap>>, threshold: real): (r: seq<Key>)
    requires DrawsWithin(draws, |cur|)
    requires Reaches(keys, cur, draws, threshold)
    ensures |r| == |cur| && multiset(r) == multiset(cur)
    ensures Accepted(keys, r, threshold)
    decreases |draws|
  {
    var next := Shuffled(cur, draws[0]);
    if Accepted(keys, next, threshold) then next else FirstAccepted(keys, next, draws[1..], threshold)
  }

  /** One turn of the loop: the first accepted arrangement is the next one, or the first accepted after it. */
  lemma FirstAcceptedStep(keys: seq<Key>, cur: seq<Key>, draws: seq<seq<Swap>>, threshold: real)
    requires DrawsWithin(draws, |cur|)
    requires Reaches(keys, cur, draws, threshold)
    ensures var next := Shuffled(cur, draws[0]);
            && DrawsWithin(draws[1..], |next|)
            && (!Accepted(keys, next, threshold) ==> Reaches(keys, next, draws[1..], threshold))
            && FirstAccepted(keys, cur, draws, threshold) ==
               if Accepted(keys, next, threshold) then next
               else FirstAccepted(keys, next, draws[1..], threshold)
  {
  }

  /** With no keys the loop never leaves, whatever the draws. */
  lemma {:induction false} NoKeysNeverReached(keys: seq<Key>, cur: seq<Key>, draws: seq<seq<Swap>>, threshold: real)
    requires |keys| == 0
    requires DrawsWithin(draws, |cur|)
    ensures !Reaches(keys, cur, draws, threshold)
    decreases |draws|
  {
    if draws != [] {
      NoKeysNeverReached(keys, Shuffled(cur, draws[0]), draws[1..], threshold);
    }
  }

  /** When every key shows the same label, no positive threshold is ever met, whatever the draws. */
  lemma {:induction false} OneLabelNeverReached(keys: seq<Key>, cur: seq<Key>, v: string,
                                                draws: seq<seq<Swap>>, threshold: real)
    requires forall k :: k in keys ==> k.value == v
    requires forall k :: k in cur ==> k.value == v
    requires threshold > 0.0
    requires DrawsWithin(draws, |cur|)
    ensures !Reaches(keys, cur, draws, threshold)
    decreases |draws|
  {
    if draws != [] {
      var next := Shuffled(cur, draws[0]);
      forall k | k in next ensures k.value == v {
        assert k in multiset(next);
      }
      NoChangeIffSameValues(keys, next);
      assert ChangedCount(keys, next) == 0;
      assert !IsValidShuffle(keys, next, threshold) by {
        if |keys| > 0 {
          FractionAtLeast(0.0, |keys| as real, threshold);
        }
      }
      OneLabelNeverReached(keys, next, v, draws[1..], threshold);
    }
  }

  /** With the default numeric pad and threshold, every accepted arrangement moves at least 4 of the 11 labels. */
  lemma DefaultShuffleMovesFour(newKeys: seq<Key>)
    requires Accepted(KeysOf(Characters(Default.characterSet)), newKeys, Default.minimumShufflePercentage)
    ensures ChangedCount(KeysOf(Characters(Default.characterSet)), newKeys) >= 4
  {
    NumbersList();
    ElevenKeysNeedFourChanges(KeysOf(Characters(Numbers)), newKeys);
  }

  // ------------------------------------------------------------- text edits

  /** The text without its last character; the empty text stays empty. */
  function DropLast(s: string): (r: string)
    ensures s == "" ==> r == ""
    ensures s != "" ==> r + [s[|s| - 1]] == s
  {
    if s == "" then s else s[..|s| - 1]
  }

  /** Deleting after typing one character gives back the text before it. */
  lemma DeleteUndoesAppend(s: string, c: char)
    ensures DropLast(s + [c]) == s
  {
    assert (s + [c])[..|s|] == s;
  }

  // -------------------------------------------------------------- the class

  class KeyboardViewModel {
    var keys: seq<Key>
    var inputText: string
    var isShuffling: bool
    const config: KeyboardConfig

    /** `init(config:)`, by default with the default configuration: empty text, not busy, keys built from the configured character set. */
    constructor (config: KeyboardConfig := Default)
      ensures this.config == config
      ensures keys == KeysOf(Characters(config.characterSet))
      ensures inputText == "" && !isShuffling
    {
      this.config := config;
      keys := [];
      inputText := "";
      isShuffling := false;
      new;
      SetupKeys();
    }

    /** `setupKeys`: one key per character, numbered by position. */
    method SetupKeys()
      modifies this
      ensures keys == KeysOf(Characters(config.characterSet))
      ensures |keys| == |Characters(config.characterSet)|
      ensures forall i :: 0 <= i < |keys| ==> keys[i] == Key(i, Characters(config.characterSet)[i])
      ensures inputText == old(inputText) && isShuffling == old(isShuffling)
    {
      var characters := Characters(config.characterSet);
      keys := seq(|characters|, i requires 0 <= i < |characters| => Key(i, characters[i]));
    }

    /**
     * `shuffleKeys`: unless a shuffle is already running, shuffles a copy of the
     * keys again and again until the result is accepted, then installs it.
     * `draws` stands for the random choices: element `n` lists the swaps that the
     * `n`-th call of `shuffle()` performs. The source loops forever when no
     * shuffle is ever accepted, so a run that ends is one whose draws reach an
     * accepted arrangement.
     */
    method ShuffleKeys(draws: seq<seq<Swap>>)
      requires DrawsWithin(draws, |keys|)
      requires !isShuffling ==> Reaches(keys, keys, draws, config.minimumShufflePercentage)
      modifies this
      ensures inputText == old(inputText)
      ensures old(isShuffling) ==> isShuffling && keys == old(keys)
      ensures !old(isShuffling) ==>
        && !isShuffling
        && keys == FirstAccepted(old(keys), old(keys), draws, config.minimumShufflePercentage)
        && |keys| == |old(keys)| && multiset(keys) == multiset(old(keys))
        && IsValidShuffle(old(keys), keys, config.minimumShufflePercentage)
        && ValueSet(keys) == ValueSet(old(keys))
    {
      if isShuffling {
        return;
      }
      // `keys` stays the same until the end; `current` names it during the loop
      var current, threshold := keys, config.minimumShufflePercentage;
      isShuffling := true;
      var currentValues := ValueSet(current);
      var newKeys := current;
      // the body of `repeat ... while` runs once before the test
      FirstAcceptedStep(current, newKeys, draws, threshold);
      newKeys := Shuffled(newKeys, draws[0]);
      var rest := draws[1..];
      while !IsValidShuffle(current, newKeys, threshold) || ValueSet(newKeys) != currentValues
        invariant |newKeys| == |current| && multiset(newKeys) == multiset(current)
        invariant DrawsWithin(rest, |newKeys|)
        invariant !Accepted(current, newKeys, threshold) ==> Reaches(current, newKeys, rest, threshold)
        invariant FirstAccepted(current, current, draws, threshold) ==
                  if Accepted(current, newKeys, threshold) then newKeys
                  else FirstAccepted(current, newKeys, rest, threshold)
        modifies {}
        decreases |rest|
      {
        FirstAcceptedStep(current, newKeys, rest, threshold);
        newKeys := Shuffled(newKeys, rest[0]);
        rest := rest[1..];
      }
      keys := newKeys;
      isShuffling := false;
    }

    /** `appendCharacter`: the text grows by the typed string; there is no length cap. */
    method AppendCharacter(c: string)
      modifies this
      ensures inputText == old(inputText) + c
      ensures keys == old(keys) && isShuffling == old(isShuffling)
    {
      inputText := inputText + c;
    }

    /** `deleteCharacter`: removes the last character; nothing happens on empty text. */
    method DeleteCharacter()
      modifies this
      ensures inputText == DropLast(old(inputText))
      ensures |old(inputText)| > 0 ==> |inputText| == |old(inputText)| - 1
      ensures keys == old(keys) && isShuffling == old(isShuffling)
    {
      if inputText == "" {
        return;
      }
      inputText := inputText[..|inputText| - 1];
    }

    /** `clearText`: the text becomes empty, whatever it was; so clearing twice is clearing once. */
    method ClearText()
      modifies this
      ensures inputText == ""
      ensures keys == old(keys) && isShuffling == old(isShuffling)
    {
      inputText := "";
    }
  }
}
