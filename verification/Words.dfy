/** Words: their order, the search in a sorted list, and splitting text into words. */
module Words {
  import opened Options

  /** The order of strings, character by character. */
  predicate Less(a: string, b: string) {
    if b == "" then false
    else if a == "" then true
    else a[0] < b[0] || (a[0] == b[0] && Less(a[1..], b[1..]))
  }

  /** Where they part, the first is at its end or has the lesser character. */
  ghost predicate PartsBelow(a: string, b: string, k: nat) {
    k <= |a| && k < |b| && a[..k] == b[..k] && (k == |a| || a[k] < b[k])
  }

  lemma {:induction false} LessMeans(a: string, b: string)
    ensures Less(a, b) <==> exists k: nat :: PartsBelow(a, b, k)
    decreases |b|
  {
    if b != "" && a != "" {
      LessMeans(a[1..], b[1..]);
      if Less(a, b) {
        if a[0] < b[0] {
          assert PartsBelow(a, b, 0);
        } else {
          var k: nat :| PartsBelow(a[1..], b[1..], k);
          assert a[..k + 1] == [a[0]] + a[1..][..k] && b[..k + 1] == [b[0]] + b[1..][..k];
          assert PartsBelow(a, b, k + 1);
        }
      }
      if k: nat :| PartsBelow(a, b, k) && k > 0 {
        assert a[0] == a[..k][0] == b[..k][0] == b[0];
        assert a[1..][..k - 1] == a[..k][1..] && b[1..][..k - 1] == b[..k][1..];
        assert PartsBelow(a[1..], b[1..], k - 1);
      }
    } else if b != "" {
      assert PartsBelow(a, b, 0);
    }
  }

  lemma {:induction false} OneOrder(a: string, b: string)
    ensures a != b ==> Less(a, b) || Less(b, a)
    ensures !(Less(a, b) && Less(b, a)) && !Less(a, a)
  {
    if a != "" && b != "" {
      OneOrder(a[1..], b[1..]);
      if a[0] == b[0] && a[1..] == b[1..] { assert a == [a[0]] + a[1..] == b; }
      OneOrder(a[1..], a[1..]);
    } else if a != "" {
      OneOrder(a[1..], a[1..]);
    }
  }

  /** In strictly ascending order, so without repetition. */
  ghost predicate StrictlySorted(list: seq<string>) {
    forall i, j :: 0 <= i < j < |list| ==> Less(list[i], list[j])
  }

  /** Finds a word in a sorted list. */
  method Search(list: seq<string>, word: string) returns (r: Option<nat>)
    requires StrictlySorted(list)
    ensures r.Some? ==> r.value < |list| && list[r.value] == word
    ensures r.None? ==> word !in list
  {
    var lo, hi := 0, |list|;
    while lo < hi
      invariant 0 <= lo <= hi <= |list|
      invariant forall i :: 0 <= i < lo ==> list[i] != word
      invariant forall i :: hi <= i < |list| ==> list[i] != word
    {
      var mid := (lo + hi) / 2;
      if list[mid] == word {
        return Some(mid);
      }
      Aside(list, mid, word);
      if Less(list[mid], word) {
        lo := mid + 1;
      } else {
        hi := mid;
      }
    }
    r := None;
  }

  /** A word greater than an entry is not before it, one less not after it. */
  lemma Aside(list: seq<string>, mid: nat, word: string)
    requires StrictlySorted(list) && mid < |list| && list[mid] != word
    ensures Less(list[mid], word) ==> forall i :: 0 <= i <= mid ==> list[i] != word
    ensures !Less(list[mid], word) ==> forall i :: mid <= i < |list| ==> list[i] != word
  {
    OneOrder(list[mid], word);
    forall i | 0 <= i < |list| && i != mid && (i < mid <==> Less(list[mid], word)) ensures list[i] != word {
      OneOrder(list[i], list[mid]);
    }
  }

  lemma OneIndex(list: seq<string>, i: nat, j: nat)
    requires StrictlySorted(list) && i < |list| && j < |list| && list[i] == list[j]
    ensures i == j
  {
    OneOrder(list[i], list[j]);
  }

  /** What ends a word, the blank among it. */
  type Space = f: char -> bool | f(' ') witness (c: char) => c == ' '

  /** The length of the word a text starts with. */
  function Run(space: Space, text: string): (n: nat)
    ensures n <= |text| && (forall i :: 0 <= i < n ==> !space(text[i])) && (n < |text| ==> space(text[n]))
  {
    if text == "" || space(text[0]) then 0 else 1 + Run(space, text[1..])
  }

  /** The words of a text, between any amount of space. */
  function Split(space: Space, text: string): seq<string>
    decreases |text|
  {
    if text == "" then []
    else if space(text[0]) then Split(space, text[1..])
    else
      var n := Run(space, text);
      [text[..n]] + Split(space, text[n..])
  }

  predicate IsWord(space: Space, word: string) {
    word != "" && forall i :: 0 <= i < |word| ==> !space(word[i])
  }

  lemma {:induction false} SplitIntoWords(space: Space, text: string)
    ensures forall w :: w in Split(space, text) ==> IsWord(space, w)
    decreases |text|
  {
    if text != "" {
      if space(text[0]) {
        SplitIntoWords(space, text[1..]);
      } else {
        SplitIntoWords(space, text[Run(space, text)..]);
      }
    }
  }

  function Flat(words: seq<string>): string {
    if words == [] then "" else words[0] + Flat(words[1..])
  }

  function Visible(space: Space, text: string): string {
    if text == "" then "" else (if space(text[0]) then "" else [text[0]]) + Visible(space, text[1..])
  }

  lemma {:induction false} VisibleWord(space: Space, text: string, n: nat)
    requires n <= |text| && forall i :: 0 <= i < n ==> !space(text[i])
    ensures Visible(space, text) == text[..n] + Visible(space, text[n..])
    decreases n
  {
    if n > 0 {
      VisibleWord(space, text[1..], n - 1);
      assert text[1..][n - 1..] == text[n..] && text[..n] == [text[0]] + text[1..][..n - 1];
    }
  }

  /** Every character but the spaces is in a word, in the order of the text. */
  lemma {:induction false} SplitKeepsAll(space: Space, text: string)
    ensures Flat(Split(space, text)) == Visible(space, text)
    decreases |text|
  {
    if text != "" {
      if space(text[0]) {
        SplitKeepsAll(space, text[1..]);
      } else {
        var n := Run(space, text);
        SplitKeepsAll(space, text[n..]);
        VisibleWord(space, text, n);
      }
    }
  }

  function Join(words: seq<string>): string {
    if words == [] then "" else if |words| == 1 then words[0] else words[0] + " " + Join(words[1..])
  }

  lemma {:induction false} RunOfWord(space: Space, word: string, rest: string)
    requires (forall i :: 0 <= i < |word| ==> !space(word[i])) && (rest == "" || space(rest[0]))
    ensures Run(space, word + rest) == |word|
    decreases |word|
  {
    if word != "" {
      RunOfWord(space, word[1..], rest);
      assert (word + rest)[1..] == word[1..] + rest;
    } else {
      assert word + rest == rest;
    }
  }

  /** Words joined by blanks are the words of the text. */
  lemma {:induction false} SplitJoin(space: Space, words: seq<string>)
    requires forall w :: w in words ==> IsWord(space, w)
    ensures Split(space, Join(words)) == words
  {
    if words != [] {
      var rest := if |words| == 1 then "" else " " + Join(words[1..]);
      var text := words[0] + rest;
      assert Join(words) == text;
      assert words[0] in words;
      RunOfWord(space, words[0], rest);
      assert text[..|words[0]|] == words[0] && text[|words[0]|..] == rest;
      if |words| > 1 {
        SplitJoin(space, words[1..]);
        assert rest[1..] == Join(words[1..]);
      }
      assert words == [words[0]] + words[1..];
    }
  }

  /** The words of the text have one blank between them, and nothing else is beside them. */
  ghost predicate SingleBlanks(space: Space, text: string) {
    && |text| + 1 == |Flat(Split(space, text))| + |Split(space, text)|
    && (forall i :: 0 <= i < |text| && space(text[i]) ==> text[i] == ' ')
  }

  lemma {:induction false} JoinMeans(space: Space, words: seq<string>)
    requires forall w :: w in words ==> IsWord(space, w)
    ensures words != [] ==> |Join(words)| == |Flat(words)| + |words| - 1
    ensures forall i :: 0 <= i < |Join(words)| && space(Join(words)[i]) ==> Join(words)[i] == ' '
    decreases |words|
  {
    if words != [] {
      assert words[0] in words;
      JoinMeans(space, words[1..]);
      var text := Join(words);
      if |words| == 1 {
        assert words[1..] == [];
      } else {
        var rest := Join(words[1..]);
        assert text == words[0] + " " + rest;
        forall i | 0 <= i < |text| && space(text[i]) ensures text[i] == ' ' {
          if i > |words[0]| { assert text[i] == rest[i - |words[0]| - 1]; }
        }
      }
    }
  }
}
