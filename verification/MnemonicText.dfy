/** Mnemonics as text: words of a sorted list, between spaces. */
module MnemonicText {
  import opened Results
  import opened Binary
  import opened BitPacking
  import opened Chunks
  import opened Mnemonic
  import opened Words

  /** A list of 2048 different words, in order. */
  ghost predicate WordList(space: Space, list: seq<string>) {
    && |list| == 2048 && StrictlySorted(list)
    && forall w :: w in list ==> IsWord(space, w)
  }

  /** The words of a file, split at spaces, are words; the rest is up to the file. */
  lemma ListFromFile(space: Space, file: string)
    requires |Split(space, file)| == 2048 && StrictlySorted(Split(space, file))
    ensures WordList(space, Split(space, file))
  {
    SplitIntoWords(space, file);
  }

  ghost function WordsAt(list: seq<string>, indexes: seq<nat>): (words: seq<string>)
    requires forall i :: 0 <= i < |indexes| ==> indexes[i] < |list|
    ensures |words| == |indexes|
  {
    seq(|indexes|, i requires 0 <= i < |indexes| => list[indexes[i]])
  }

  ghost predicate Names(list: seq<string>, indexes: seq<nat>, words: seq<string>) {
    (forall i :: 0 <= i < |indexes| ==> indexes[i] < |list|) && WordsAt(list, indexes) == words
  }

  /** The words of the text spell the entropy and its checksum. */
  ghost predicate SpellsText(space: Space, list: seq<string>, hash: seq<nat> -> byte, entropy: seq<nat>, text: string) {
    exists indexes :: Spells(hash, entropy, indexes) && Names(list, indexes, Split(space, text))
  }

  lemma NamedOnce(list: seq<string>, a: seq<nat>, b: seq<nat>, words: seq<string>)
    requires StrictlySorted(list) && Names(list, a, words) && Names(list, b, words)
    ensures a == b
  {
    forall i | 0 <= i < |a| ensures a[i] == b[i] {
      assert words[i] == list[a[i]] == list[b[i]];
      OneIndex(list, a[i], b[i]);
    }
  }

  lemma Eleven()
    ensures Pow2(11) == 2048
  {
    assert Pow2(4) == 16 && Pow2(8) == 256;
  }

  ghost predicate FirstUnknown(list: seq<string>, words: seq<string>, word: string) {
    exists i :: 0 <= i < |words| && words[i] == word && word !in list && forall j :: 0 <= j < i ==> words[j] in list
  }

  /** Looks up every word; the first that is not in the list is an error. */
  method SearchAll(list: seq<string>, words: seq<string>) returns (r: Result<seq<nat>, Error>)
    requires StrictlySorted(list)
    ensures r.Ok? ==> Names(list, r.value, words)
    ensures r.Err? ==> r.error.BadWord? && FirstUnknown(list, words, r.error.word)
  {
    var indexes: seq<nat> := [];
    for i := 0 to |words|
      invariant |indexes| == i
      invariant forall j :: 0 <= j < i ==> indexes[j] < |list| && list[indexes[j]] == words[j]
      invariant forall j :: 0 <= j < i ==> words[j] in list
    {
      var found := Search(list, words[i]);
      match found {
        case None => return Err(BadWord(words[i]));
        case Some(index) => indexes := indexes + [index];
      }
    }
    r := Ok(indexes);
  }

  /** Every entropy of an allowed length is written; all texts that spell it have the same words. */
  method FromEntropyText(space: Space, list: seq<string>, hash: seq<nat> -> byte, entropy: seq<nat>)
    returns (r: Result<string, Error>)
    requires WordList(space, list) && WordsBelow(entropy, 8)
    ensures |entropy| !in BYTE_LENGTHS ==> r == Err(InvalidLength(|entropy|))
    ensures |entropy| in BYTE_LENGTHS ==> r.Ok? && SpellsText(space, list, hash, entropy, r.value)
    ensures r.Ok? ==> SingleBlanks(space, r.value)
    ensures forall text :: SpellsText(space, list, hash, entropy, text) ==>
              r.Ok? && Split(space, text) == Split(space, r.value)
  {
    hide Spells, WordsBelow, Split, StrictlySorted, IsWord, Pow2;
    var result := FromEntropy(hash, entropy);
    match result {
      case Err(e) =>
        r := Err(e);
        forall text | SpellsText(space, list, hash, entropy, text) ensures false {
          NoText(space, list, hash, entropy, text);
        }
      case Ok(indexes) =>
        InList(hash, entropy, indexes);
        var words := seq(|indexes|, i requires 0 <= i < |indexes| => list[indexes[i]]);
        assert words == WordsAt(list, indexes);
        forall w | w in words ensures IsWord(space, w) { assert w in list; }
        SplitJoin(space, words);
        JoinMeans(space, words);
        r := Ok(Join(words));
        assert Names(list, indexes, Split(space, r.value));
        forall text | SpellsText(space, list, hash, entropy, text) ensures Split(space, text) == words {
          var other :| Spells(hash, entropy, other) && Names(list, other, Split(space, text));
          assert other == indexes;
        }
    }
  }

  lemma NoText(space: Space, list: seq<string>, hash: seq<nat> -> byte, entropy: seq<nat>, text: string)
    requires SpellsText(space, list, hash, entropy, text)
    ensures |entropy| in BYTE_LENGTHS
  {
  }

  /** Spelled indexes point into a list of 2048. */
  lemma InList(hash: seq<nat> -> byte, entropy: seq<nat>, indexes: seq<nat>)
    requires Spells(hash, entropy, indexes)
    ensures forall i :: 0 <= i < |indexes| ==> indexes[i] < 2048
  {
    hide Stream, End, Pow2;
    Eleven();
  }

  /** A text is accepted if and only if its words spell some entropy, which is then returned. */
  method ToEntropyText(space: Space, list: seq<string>, hash: seq<nat> -> byte, text: string)
    returns (r: Result<seq<nat>, Error>)
    requires WordList(space, list)
    ensures |Split(space, text)| !in WORD_COUNTS ==> r == Err(InvalidLength(|Split(space, text)|))
    ensures |Split(space, text)| in WORD_COUNTS && (exists w :: w in Split(space, text) && w !in list) ==>
              r.Err? && r.error.BadWord? && FirstUnknown(list, Split(space, text), r.error.word)
    ensures r.Ok? ==> SpellsText(space, list, hash, r.value, text)
    ensures forall e :: SpellsText(space, list, hash, e, text) ==> r == Ok(e)
  {
    hide Spells, Split, StrictlySorted, IsWord, Pow2, Packs;
    var words := Split(space, text);
    if |words| !in WORD_COUNTS {
      r := Err(InvalidLength(|words|));
      forall e | SpellsText(space, list, hash, e, text) ensures false { CountFits(space, list, hash, e, text); }
      return;
    }
    var found := SearchAll(list, words);
    match found {
      case Err(e) =>
        r := Err(e);
        forall e | SpellsText(space, list, hash, e, text) ensures false { AllListed(space, list, hash, e, text); }
      case Ok(indexes) =>
        Eleven();
        assert WordsBelow(indexes, 11);
        r := ToEntropy(hash, indexes);
        forall e | SpellsText(space, list, hash, e, text) ensures r == Ok(e) {
          var other :| Spells(hash, e, other) && Names(list, other, words);
          NamedOnce(list, other, indexes, words);
        }
    }
  }

  lemma CountFits(space: Space, list: seq<string>, hash: seq<nat> -> byte, e: seq<nat>, text: string)
    requires SpellsText(space, list, hash, e, text)
    ensures |Split(space, text)| in WORD_COUNTS
  {
  }

  lemma AllListed(space: Space, list: seq<string>, hash: seq<nat> -> byte, e: seq<nat>, text: string)
    requires SpellsText(space, list, hash, e, text)
    ensures forall w :: w in Split(space, text) ==> w in list
  {
    hide Spells, Split;
    var indexes :| Spells(hash, e, indexes) && Names(list, indexes, Split(space, text));
    forall i | 0 <= i < |indexes| ensures WordsAt(list, indexes)[i] in list {
    }
  }
}
