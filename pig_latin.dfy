/**
  `build/lib/src/pig_latin.py`: each whitespace-separated word is translated; a word
  that starts with ASCII letters has that run translated and the run of non-letters
  after it kept, and anything after that second run is dropped.
*/
module PigLatinBuild {
  import opened PyStr

  /** The vowels of `translate`: lower-case only. */
  predicate IsVowel(c: char)
  {
    c == 'a' || c == 'e' || c == 'i' || c == 'o' || c == 'u'
  }

  /** `[a-zA-Z]`. */
  predicate IsLetter(c: char)
  {
    'a' <= c <= 'z' || 'A' <= c <= 'Z'
  }

  /** The length of the longest prefix without a vowel: what the loop of `translate`
      collects. */
  function Consonants(w: string): (n: nat)
    ensures n <= |w|
  {
    if w == [] || IsVowel(w[0]) then 0 else 1 + Consonants(w[1..])
  }

  /** The first `Consonants(w)` characters are not vowels and the next one is. */
  lemma {:induction false} ConsonantsAreLongest(w: string)
    ensures forall k :: 0 <= k < Consonants(w) ==> !IsVowel(w[k])
    ensures Consonants(w) < |w| ==> IsVowel(w[Consonants(w)])
  {
    if w != [] && !IsVowel(w[0]) {
      ConsonantsAreLongest(w[1..]);
      forall k | 0 < k < Consonants(w) ensures !IsVowel(w[k]) {
        assert w[k] == w[1..][k - 1];
      }
    }
  }

  /** A vowel-free prefix followed by a vowel or the end has the length `Consonants`. */
  lemma {:induction false} ConsonantsUnique(w: string, n: nat)
    requires n <= |w| && (forall k :: 0 <= k < n ==> !IsVowel(w[k])) && (n < |w| ==> IsVowel(w[n]))
    ensures n == Consonants(w)
    decreases n
  {
    if n > 0 {
      ConsonantsUnique(w[1..], n - 1);
    }
  }

  /** What `translate(word)` returns (the word is never empty: `word[0]` is read). */
  function Translation(w: string): (r: string)
    requires w != []
  {
    if IsVowel(w[0]) then w + "way"
    else
      var n := Consonants(w);
      w[n..] + w[..n] + "ay"
  }

  /** `translate`: a vowel-initial word gets "way"; otherwise the `for` loop collects the
      consonants up to the first vowel, which move to the end before "ay". */
  method Translate(word: string) returns (r: string)
    requires word != []
    ensures r == Translation(word)
  {
    if IsVowel(word[0]) {
      return word + "way";
    }
    var consonants := "";
    for i := 0 to |word|
      invariant consonants == word[..i]
      invariant forall k :: 0 <= k < i ==> !IsVowel(word[k])
    {
      if !IsVowel(word[i]) {
        consonants := consonants + [word[i]];
      } else {
        break;
      }
    }
    ConsonantsUnique(word, |consonants|);
    r := word[|consonants|..] + consonants + "ay";
  }

  /** The translation is determined by the position `i` of the first vowel (`i == |w|`:
      none): "way" is appended when it is the first character, otherwise the word is
      rotated to start at it and "ay" is appended. */
  lemma TranslationAt(w: string, i: nat)
    requires w != [] && i <= |w|
    requires (forall k :: 0 <= k < i ==> !IsVowel(w[k])) && (i < |w| ==> IsVowel(w[i]))
    ensures Translation(w) == if i == 0 then w + "way" else w[i..] + w[..i] + "ay"
  {
    ConsonantsUnique(w, i);
  }

  /** A consonant-initial word is rotated so that it starts at its first vowel, or
      left as it is when it has none, and "ay" follows. */
  lemma TranslationRotates(w: string)
    requires w != [] && !IsVowel(w[0])
    ensures var i := Consonants(w);
      && 0 < i <= |w|
      && Translation(w) == w[i..] + w[..i] + "ay"
      && (i < |w| ==> IsVowel(w[i]))
      && (forall k :: 0 <= k < i ==> !IsVowel(w[k]))
  {
    ConsonantsAreLongest(w);
  }

  /** A word without a vowel only gets "ay". */
  lemma TranslationWithoutVowel(w: string)
    requires w != [] && forall k :: 0 <= k < |w| ==> !IsVowel(w[k])
    ensures Translation(w) == w + "ay"
  {
    ConsonantsAreLongest(w);
    assert Consonants(w) == |w|;
    assert w[..|w|] == w;
  }

  /** The translation keeps the word's letters and adds "way" or "ay". */
  lemma TranslationLetters(w: string)
    requires w != []
    ensures multiset(Translation(w)) == multiset(w) + multiset(if IsVowel(w[0]) then "way" else "ay")
  {
    if !IsVowel(w[0]) {
      var n := Consonants(w);
      assert w == w[..n] + w[n..];
    }
  }

  /** A word (non-empty, without whitespace) translates to a word. */
  lemma TranslationIsWord(w: string)
    requires IsWord(w)
    ensures IsWord(Translation(w))
  {
    assert SpaceFree(w);
    assert SpaceFree("way") && SpaceFree("ay");
    if IsVowel(w[0]) {
      SpaceFreeConcat(w, "way");
    } else {
      var i := Consonants(w);
      SpaceFreeSlice(w, i, |w|);
      SpaceFreeSlice(w, 0, i);
      assert w[i..|w|] == w[i..];
      SpaceFreeConcat(w[i..], w[..i]);
      SpaceFreeConcat(w[i..] + w[..i], "ay");
    }
  }

  /** The length of the longest prefix of ASCII letters: group 1 of the pattern. */
  function Letters(w: string): (n: nat)
    ensures n <= |w|
  {
    if w == [] || !IsLetter(w[0]) then 0 else 1 + Letters(w[1..])
  }

  /** The length of the longest prefix of non-letters: group 2 of the pattern. */
  function NonLetters(w: string): (n: nat)
    ensures n <= |w|
  {
    if w == [] || IsLetter(w[0]) then 0 else 1 + NonLetters(w[1..])
  }

  /** The first `Letters(w)` characters are letters and the next one is not. */
  lemma {:induction false} LettersAreLongest(w: string)
    ensures forall k :: 0 <= k < Letters(w) ==> IsLetter(w[k])
    ensures Letters(w) < |w| ==> !IsLetter(w[Letters(w)])
  {
    if w != [] && IsLetter(w[0]) {
      LettersAreLongest(w[1..]);
      forall k | 0 < k < Letters(w) ensures IsLetter(w[k]) {
        assert w[k] == w[1..][k - 1];
      }
    }
  }

  /** The first `NonLetters(w)` characters are not letters and the next one is. */
  lemma {:induction false} NonLettersAreLongest(w: string)
    ensures forall k :: 0 <= k < NonLetters(w) ==> !IsLetter(w[k])
    ensures NonLetters(w) < |w| ==> IsLetter(w[NonLetters(w)])
  {
    if w != [] && !IsLetter(w[0]) {
      NonLettersAreLongest(w[1..]);
      forall k | 0 < k < NonLetters(w) ensures !IsLetter(w[k]) {
        assert w[k] == w[1..][k - 1];
      }
    }
  }

  /** `translate_with_punctuation`: `re.match(r"([a-zA-Z]+)([^a-zA-Z]*)", word)`; group 1
      is the leading letters, group 2 the non-letters after them. */
  function TranslateWithPunctuation(w: string): string
  {
    var n := Letters(w);
    if n == 0 then w
    else Translation(w[..n]) + w[n..n + NonLetters(w[n..])]
  }

  /** A word that does not start with a letter is kept. */
  lemma WithPunctuationKeeps(w: string)
    requires w == [] || !IsLetter(w[0])
    ensures TranslateWithPunctuation(w) == w
  {
    assert Letters(w) == 0;
  }

  /** With `n > 0` leading letters and `m` non-letters after them, the result is the
      translation of the letters followed by those non-letters. */
  lemma WithPunctuationOf(w: string, n: nat, m: nat)
    requires n == Letters(w) && 0 < n && m == NonLetters(w[n..])
    ensures TranslateWithPunctuation(w) == Translation(w[..n]) + w[n..n + m]
  {
  }

  /** The non-letters counted after position `n`, seen as positions of `w`. */
  lemma MarksAfterLetters(w: string, n: nat)
    requires n <= |w|
    ensures var m := NonLetters(w[n..]);
      && n + m <= |w|
      && (forall k :: n <= k < n + m ==> !IsLetter(w[k]))
      && (n + m < |w| ==> IsLetter(w[n + m]))
  {
    var rest := w[n..];
    NonLettersAreLongest(rest);
    var m := NonLetters(rest);
    forall k | n <= k < n + m ensures !IsLetter(w[k]) {
      assert w[k] == rest[k - n];
    }
    if n + m < |w| {
      assert w[n + m] == rest[m];
    }
  }

  /** A run of letters ended by a non-letter or the end has the length `Letters`. */
  lemma {:induction false} LettersExactly(w: string, n: nat)
    requires n <= |w| && (forall k :: 0 <= k < n ==> IsLetter(w[k])) && (n < |w| ==> !IsLetter(w[n]))
    ensures Letters(w) == n
    decreases n
  {
    if n > 0 {
      LettersExactly(w[1..], n - 1);
    }
  }

  /** A run of non-letters ended by a letter or the end has the length `NonLetters`. */
  lemma {:induction false} NonLettersExactly(w: string, n: nat)
    requires n <= |w| && (forall k :: 0 <= k < n ==> !IsLetter(w[k])) && (n < |w| ==> IsLetter(w[n]))
    ensures NonLetters(w) == n
    decreases n
  {
    if n > 0 {
      NonLettersExactly(w[1..], n - 1);
    }
  }

  /** A word of `n` letters, whose first vowel is at `i` (or `i == n`: none), followed
      only by non-letters: the letters are translated and the non-letters kept. */
  lemma LettersThenMarks(w: string, n: nat, i: nat)
    requires 0 < n <= |w| && i <= n
    requires forall k :: 0 <= k < n ==> IsLetter(w[k])
    requires forall k :: n <= k < |w| ==> !IsLetter(w[k])
    requires (forall k :: 0 <= k < i ==> !IsVowel(w[k])) && (i < n ==> IsVowel(w[i]))
    ensures TranslateWithPunctuation(w) == (if i == 0 then w[..n] + "way" else w[i..n] + w[..i] + "ay") + w[n..]
  {
    LettersExactly(w, n);
    NonLettersExactly(w[n..], |w| - n);
    WithPunctuationOf(w, n, |w| - n);
    var u := w[..n];
    TranslationAt(u, i);
    assert u[i..] == w[i..n] && u[..i] == w[..i];
  }

  /** "don't" loses its "t": only "don" and "'" reach the result. */
  lemma DropsAfterApostrophe(w: string)
    requires w == "don't"
    ensures TranslateWithPunctuation(w) == "onday'"
  {
    LettersExactly(w, 3);
    NonLettersExactly(w[3..], 1);
    ConsonantsUnique(w[..3], 1);
    assert w[..3][1..] + w[..3][..1] + "ay" + w[3..][..1] == "onday'";
  }

  /** A word translates to a word. */
  lemma WithPunctuationIsWord(w: string)
    requires IsWord(w)
    ensures IsWord(TranslateWithPunctuation(w))
  {
    var n := Letters(w);
    if n != 0 {
      var m := NonLetters(w[n..]);
      assert SpaceFree(w);
      SpaceFreeSlice(w, 0, n);
      SpaceFreeSlice(w, n, n + m);
      TranslationIsWord(w[..n]);
      SpaceFreeConcat(Translation(w[..n]), w[n..n + m]);
    }
  }

  /** `pig_latin`: split on whitespace, translate each word, join with single spaces. */
  function PigLatin(text: string): string
  {
    var words := Words(text);
    Join(seq(|words|, k requires 0 <= k < |words| => TranslateWithPunctuation(words[k])), " ")
  }

  /** The result has exactly the text's number of words, each the translation of the
      text's word at the same position. */
  lemma PigLatinKeepsWords(text: string)
    ensures var words := Words(text);
      Words(PigLatin(text)) == seq(|words|, k requires 0 <= k < |words| => TranslateWithPunctuation(words[k]))
    ensures |Words(PigLatin(text))| == |Words(text)|
  {
    var words := Words(text);
    var out := seq(|words|, k requires 0 <= k < |words| => TranslateWithPunctuation(words[k]));
    forall k | 0 <= k < |out| ensures IsWord(out[k]) {
      WithPunctuationIsWord(words[k]);
    }
    WordsOfJoin(out);
  }

  /** The asserts at the end of the file on single words. */
  lemma CheckedInWords()
    ensures TranslateWithPunctuation("hello") == "ellohay"
    ensures TranslateWithPunctuation("world") == "orldway"
    ensures TranslateWithPunctuation("apple") == "appleway"
    ensures TranslateWithPunctuation("123") == "123"
    ensures TranslateWithPunctuation("world!") == "orldway!"
  {
    Hello("hello");
    World("world");
    Apple("apple");
    World("world!");
    Digits("123");
  }

  lemma Digits(w: string)
    requires w == "123"
    ensures TranslateWithPunctuation(w) == w
  {
    LettersExactly(w, 0);
  }

  lemma Hello(w: string)
    requires w == "hello"
    ensures TranslateWithPunctuation(w) == "ellohay"
  {
    LettersThenMarks(w, 5, 1);
    assert w[1..5] + w[..1] + "ay" + w[5..] == "ellohay";
  }

  /** "world" and "world!". */
  lemma World(w: string)
    requires w == "world" || w == "world!"
    ensures TranslateWithPunctuation(w) == "orldway" + w[5..]
  {
    LettersThenMarks(w, 5, 1);
    assert w[1..5] + w[..1] + "ay" == "orldway";
  }

  lemma Apple(w: string)
    requires w == "apple"
    ensures TranslateWithPunctuation(w) == "appleway"
  {
    LettersThenMarks(w, 5, 0);
    assert w[..5] + "way" + w[5..] == "appleway";
  }

  /** The last assert: "hello world!" becomes "ellohay orldway!". */
  lemma CheckedInText(text: string)
    requires text == "hello world!"
    ensures PigLatin(text) == "ellohay orldway!"
  {
    var a, b := HelloWorld(text);
    var ws := [a, b];
    JoinPair(a, b);
    PigLatinOfJoin(ws);
    TranslatedPair(ws);
  }

  /** "hello world!" is "hello" and "world!" joined by a space. */
  lemma HelloWorld(text: string) returns (a: string, b: string)
    requires text == "hello world!"
    ensures text == a + " " + b && IsWord(a) && IsWord(b)
    ensures TranslateWithPunctuation(a) + " " + TranslateWithPunctuation(b) == "ellohay orldway!"
  {
    a, b := "hello", "world!";
    assert text == a + " " + b;
    assert forall k :: 0 <= k < |a| ==> !IsSpace(a[k]);
    assert forall k :: 0 <= k < |b| ==> !IsSpace(b[k]);
    HelloWorldTranslated(a, b);
  }

  lemma HelloWorldTranslated(a: string, b: string)
    requires a == "hello" && b == "world!"
    ensures TranslateWithPunctuation(a) + " " + TranslateWithPunctuation(b) == "ellohay orldway!"
  {
    Hello(a);
    World(b);
    assert b[5..] == "!";
  }

  lemma TranslatedPair(ws: seq<string>)
    requires |ws| == 2
    ensures Join(seq(|ws|, k requires 0 <= k < |ws| => TranslateWithPunctuation(ws[k])), " ")
         == TranslateWithPunctuation(ws[0]) + " " + TranslateWithPunctuation(ws[1])
  {
    var out := seq(|ws|, k requires 0 <= k < |ws| => TranslateWithPunctuation(ws[k]));
    assert out == [out[0], out[1]];
    JoinPair(out[0], out[1]);
  }

  /** Words joined by single spaces translate one by one. */
  lemma PigLatinOfJoin(ws: seq<string>)
    requires forall k :: 0 <= k < |ws| ==> IsWord(ws[k])
    ensures PigLatin(Join(ws, " ")) == Join(seq(|ws|, k requires 0 <= k < |ws| => TranslateWithPunctuation(ws[k])), " ")
  {
    WordsOfJoin(ws);
  }

  lemma JoinPair(a: string, b: string)
    ensures Join([a, b], " ") == a + " " + b
  {
    assert [a, b][1..] == [b];
  }
}

/**
  `src/pig_latin.py`: leading and trailing punctuation (`string.punctuation` without
  '-') is peeled off and put back around the translated core; a core with a digit or
  without a vowel gets "way" after the trailing punctuation; vowels of either case count.
*/
module PigLatinSrc {
  import opened PyStr

  /** A character of `string.punctuation.replace("-", "")`: the printable ASCII
      characters that are neither letters, digits nor the space, except '-'. */
  predicate IsPunct(c: char)
  {
    ('!' <= c <= '/' && c != '-') || (':' <= c <= '@') || ('[' <= c <= '`') || ('{' <= c <= '~')
  }

  predicate IsVowel(c: char)
  {
    || c == 'a' || c == 'e' || c == 'i' || c == 'o' || c == 'u'
    || c == 'A' || c == 'E' || c == 'I' || c == 'O' || c == 'U'
  }

  /** `c.isdigit()` for ASCII. */
  predicate IsDigit(c: char)
  {
    '0' <= c <= '9'
  }

  predicate HasDigit(s: string)
  {
    exists k :: 0 <= k < |s| && IsDigit(s[k])
  }

  /** The length of the longest prefix of punctuation. */
  function LeadingPunct(w: string): (n: nat)
    ensures n <= |w|
  {
    if w == [] || !IsPunct(w[0]) then 0 else 1 + LeadingPunct(w[1..])
  }

  /** The first `LeadingPunct(w)` characters are punctuation and the next one is not. */
  lemma {:induction false} LeadingPunctIsLongest(w: string)
    ensures forall k :: 0 <= k < LeadingPunct(w) ==> IsPunct(w[k])
    ensures LeadingPunct(w) < |w| ==> !IsPunct(w[LeadingPunct(w)])
  {
    if w != [] && IsPunct(w[0]) {
      LeadingPunctIsLongest(w[1..]);
      forall k | 0 < k < LeadingPunct(w) ensures IsPunct(w[k]) {
        assert w[k] == w[1..][k - 1];
      }
    }
  }

  /** The length of the longest suffix of punctuation. */
  function TrailingPunct(w: string): (n: nat)
    ensures n <= |w|
  {
    if w == [] || !IsPunct(w[|w| - 1]) then 0 else 1 + TrailingPunct(w[..|w| - 1])
  }

  /** The last `TrailingPunct(w)` characters are punctuation and the one before is not. */
  lemma {:induction false} TrailingPunctIsLongest(w: string)
    ensures forall k :: |w| - TrailingPunct(w) <= k < |w| ==> IsPunct(w[k])
    ensures TrailingPunct(w) < |w| ==> !IsPunct(w[|w| - TrailingPunct(w) - 1])
  {
    if w != [] && IsPunct(w[|w| - 1]) {
      TrailingPunctIsLongest(w[..|w| - 1]);
      forall k | |w| - TrailingPunct(w) <= k < |w| - 1 ensures IsPunct(w[k]) {
        assert w[k] == w[..|w| - 1][k];
      }
    }
  }

  /** Index of the first vowel, or the length when there is none. */
  function FirstVowel(w: string): (i: nat)
    ensures i <= |w| && (i < |w| ==> IsVowel(w[i]))
    ensures forall k :: 0 <= k < i ==> !IsVowel(w[k])
  {
    if w == [] || IsVowel(w[0]) then 0 else 1 + FirstVowel(w[1..])
  }

  /** A word split into its leading punctuation, its core and its trailing punctuation. */
  datatype Peeled = Peeled(prefix: string, core: string, suffix: string)

  function Peel(word: string): Peeled
  {
    var n := LeadingPunct(word);
    var rest := word[n..];
    var m := TrailingPunct(rest);
    Peeled(word[..n], rest[..|rest| - m], rest[|rest| - m..])
  }

  /** What `translate_word(word)` returns. */
  function Translation(word: string): string
  {
    var p := Peel(word);
    if p.core == [] then p.prefix + p.core + p.suffix
    else if HasDigit(p.core) then p.prefix + p.core + p.suffix + "way"
    else if IsVowel(p.core[0]) then p.prefix + p.core + "way" + p.suffix
    else
      var i := FirstVowel(p.core);
      if i == |p.core| then p.prefix + p.core + p.suffix + "way"
      else p.prefix + (p.core[i..] + p.core[..i] + "ay") + p.suffix
  }

  /** The two `while` loops at the start of `translate_word`: the first moves the
      leading punctuation into `initialPunct`, the second the trailing punctuation of
      what is left into `finalPunct`. */
  method PeelPunctuation(word: string) returns (initialPunct: string, w: string, finalPunct: string)
    ensures Peel(word) == Peeled(initialPunct, w, finalPunct)
  {
    w := word;
    initialPunct := "";
    while w != [] && IsPunct(w[0])
      invariant initialPunct + w == word
      invariant |initialPunct| + LeadingPunct(w) == LeadingPunct(word)
    {
      assert w == [w[0]] + w[1..];
      initialPunct := initialPunct + [w[0]];
      w := w[1..];
    }
    ghost var rest := w;
    finalPunct := "";
    while w != [] && IsPunct(w[|w| - 1])
      invariant w + finalPunct == rest
      invariant TrailingPunct(w) + |finalPunct| == TrailingPunct(rest)
    {
      assert w == w[..|w| - 1] + [w[|w| - 1]];
      finalPunct := [w[|w| - 1]] + finalPunct;
      w := w[..|w| - 1];
    }
    PeelOf(word, initialPunct, rest, w, finalPunct);
  }

  /** `translate_word`: peel the punctuation, then a `for` loop finds the first vowel. */
  method TranslateWord(word: string) returns (r: string)
    ensures r == Translation(word)
  {
    var initialPunct, w, finalPunct := PeelPunctuation(word);
    if w == [] {
      return initialPunct + w + finalPunct;
    }
    if HasDigit(w) {
      return initialPunct + w + finalPunct + "way";
    }
    if IsVowel(w[0]) {
      return initialPunct + w + "way" + finalPunct;
    }
    var firstVowelIndex := |w|;
    for index := 0 to |w|
      invariant firstVowelIndex == |w| && forall k :: 0 <= k < index ==> !IsVowel(w[k])
    {
      if IsVowel(w[index]) {
        firstVowelIndex := index;
        break;
      }
    }
    FirstVowelUnique(w, firstVowelIndex);
    if firstVowelIndex == |w| {
      return initialPunct + w + finalPunct + "way";
    }
    var translated := w[firstVowelIndex..] + w[..firstVowelIndex] + "ay";
    r := initialPunct + translated + finalPunct;
  }

  /** An index before which there is no vowel, at a vowel or the end, is the first vowel. */
  lemma FirstVowelUnique(w: string, i: nat)
    requires i <= |w| && (i < |w| ==> IsVowel(w[i])) && forall k :: 0 <= k < i ==> !IsVowel(w[k])
    ensures i == FirstVowel(w)
  {
  }

  /** A word cut into its leading punctuation and a rest, and the rest cut into a
      middle and its trailing punctuation, is peeled into those three parts. */
  lemma PeelOf(word: string, prefix: string, rest: string, core: string, suffix: string)
    requires prefix + rest == word && core + suffix == rest
    requires |prefix| == LeadingPunct(word) && |suffix| == TrailingPunct(rest)
    ensures Peel(word) == Peeled(prefix, core, suffix)
  {
    assert word[..|prefix|] == prefix;
    assert word[|prefix|..] == rest;
    assert rest[..|core|] == core;
    assert rest[|core|..] == suffix;
  }

  /** Peeling splits the word: the prefix and suffix are punctuation, and a non-empty
      core neither starts nor ends with punctuation. */
  lemma PeelSplits(word: string)
    ensures var p := Peel(word);
      && p.prefix + p.core + p.suffix == word
      && (forall k :: 0 <= k < |p.prefix| ==> IsPunct(p.prefix[k]))
      && (forall k :: 0 <= k < |p.suffix| ==> IsPunct(p.suffix[k]))
      && (p.core != [] ==> !IsPunct(p.core[0]) && !IsPunct(p.core[|p.core| - 1]))
  {
    PeelConcat(word);
    PeelIsPunctuation(word);
    PeelCore(word);
  }

  lemma PeelConcat(word: string)
    ensures var p := Peel(word); p.prefix + p.core + p.suffix == word
  {
    var p := Peel(word);
    var rest := word[LeadingPunct(word)..];
    assert p.core + p.suffix == rest;
    assert word == p.prefix + rest;
  }

  lemma PeelIsPunctuation(word: string)
    ensures var p := Peel(word);
      && (forall k :: 0 <= k < |p.prefix| ==> IsPunct(p.prefix[k]))
      && (forall k :: 0 <= k < |p.suffix| ==> IsPunct(p.suffix[k]))
  {
    var rest := word[LeadingPunct(word)..];
    var m := TrailingPunct(rest);
    var p := Peel(word);
    LeadingPunctIsLongest(word);
    TrailingPunctIsLongest(rest);
    forall k | 0 <= k < |p.suffix| ensures IsPunct(p.suffix[k]) {
      assert p.suffix[k] == rest[|rest| - m + k];
    }
  }

  lemma PeelCore(word: string)
    ensures var p := Peel(word); p.core != [] ==> !IsPunct(p.core[0]) && !IsPunct(p.core[|p.core| - 1])
  {
    var n := LeadingPunct(word);
    var rest := word[n..];
    var m := TrailingPunct(rest);
    var p := Peel(word);
    LeadingPunctIsLongest(word);
    TrailingPunctIsLongest(rest);
    if p.core != [] {
      assert p.core[0] == word[n];
      assert p.core[|p.core| - 1] == rest[|rest| - m - 1];
    }
  }

  /** A word made only of punctuation is returned unchanged. */
  lemma PunctuationOnly(word: string)
    requires forall k :: 0 <= k < |word| ==> IsPunct(word[k])
    ensures Translation(word) == word
  {
    var n := LeadingPunct(word);
    LeadingPunctIsLongest(word);
    assert n == |word|;
    assert word[..n] == word;
  }

  /** A core with a digit keeps its letters and gets "way" after the trailing
      punctuation. */
  lemma TranslationWithDigit(word: string)
    requires Peel(word).core != [] && HasDigit(Peel(word).core)
    ensures var p := Peel(word); Translation(word) == p.prefix + p.core + p.suffix + "way"
  {
  }

  /** A vowel-initial core without digits gets "way" before the trailing punctuation. */
  lemma TranslationVowelFirst(word: string)
    requires Peel(word).core != [] && !HasDigit(Peel(word).core) && IsVowel(Peel(word).core[0])
    ensures var p := Peel(word); Translation(word) == p.prefix + p.core + "way" + p.suffix
  {
  }

  /** A core without digits or vowels gets "way" after the trailing punctuation. */
  lemma TranslationWithoutVowel(word: string)
    requires Peel(word).core != [] && !HasDigit(Peel(word).core)
    requires forall k :: 0 <= k < |Peel(word).core| ==> !IsVowel(Peel(word).core[k])
    ensures var p := Peel(word); Translation(word) == p.prefix + p.core + p.suffix + "way"
  {
  }

  /** A consonant-initial core without digits but with a vowel is rotated to start at its
      first vowel and gets "ay", inside the punctuation. */
  lemma TranslationRotates(word: string, i: nat)
    requires Peel(word).core != [] && !HasDigit(Peel(word).core) && !IsVowel(Peel(word).core[0])
    requires i < |Peel(word).core| && IsVowel(Peel(word).core[i])
    requires forall k :: 0 <= k < i ==> !IsVowel(Peel(word).core[k])
    ensures var p := Peel(word); 0 < i && Translation(word) == p.prefix + p.core[i..] + p.core[..i] + "ay" + p.suffix
  {
    var p := Peel(word);
    FirstVowelUnique(p.core, i);
    assert p.prefix + (p.core[i..] + p.core[..i] + "ay") + p.suffix == p.prefix + p.core[i..] + p.core[..i] + "ay" + p.suffix;
  }

  /** The parts of a word without whitespace have none either. */
  lemma PeelSpaceFree(word: string)
    requires SpaceFree(word)
    ensures var p := Peel(word); SpaceFree(p.prefix) && SpaceFree(p.core) && SpaceFree(p.suffix)
  {
    var n := LeadingPunct(word);
    var rest := word[n..];
    var m := TrailingPunct(rest);
    SpaceFreeSlice(word, 0, n);
    SpaceFreeSlice(word, n, |word|);
    SpaceFreeSlice(rest, 0, |rest| - m);
    SpaceFreeSlice(rest, |rest| - m, |rest|);
    assert rest[|rest| - m..|rest|] == rest[|rest| - m..];
  }

  /** Three whitespace-free parts and a whitespace-free tail in either of the two
      orders the translation uses. */
  lemma SpaceFreeParts(a: string, b: string, c: string, tail: string)
    requires SpaceFree(a) && SpaceFree(b) && SpaceFree(c) && SpaceFree(tail)
    ensures SpaceFree(a + b + c + tail) && SpaceFree(a + b + tail + c)
  {
    SpaceFreeConcat(a, b);
    SpaceFreeConcat(a + b, c);
    SpaceFreeConcat(a + b + c, tail);
    SpaceFreeConcat(a + b, tail);
    SpaceFreeConcat(a + b + tail, c);
  }

  /** A rotation of a whitespace-free core followed by "ay" is whitespace-free. */
  lemma RotationSpaceFree(core: string, i: nat)
    requires SpaceFree(core) && i <= |core|
    ensures SpaceFree(core[i..] + core[..i] + "ay")
  {
    SpaceFreeSlice(core, i, |core|);
    SpaceFreeSlice(core, 0, i);
    assert core[i..|core|] == core[i..];
    SpaceFreeConcat(core[i..], core[..i]);
    assert SpaceFree("ay");
    SpaceFreeConcat(core[i..] + core[..i], "ay");
  }

  /** The translation is the word, the word with "way" after or before its trailing
      punctuation, or the word with its core rotated at the first vowel and "ay" added. */
  lemma TranslationForms(word: string)
    ensures var p := Peel(word); var r := Translation(word);
      || r == p.prefix + p.core + p.suffix
      || r == p.prefix + p.core + p.suffix + "way"
      || r == p.prefix + p.core + "way" + p.suffix
      || (FirstVowel(p.core) < |p.core|
          && r == p.prefix + (p.core[FirstVowel(p.core)..] + p.core[..FirstVowel(p.core)] + "ay") + p.suffix)
  {
  }

  /** Every form of `TranslationForms` built from whitespace-free parts is a word. */
  lemma FormsAreWords(prefix: string, core: string, suffix: string, i: nat, r: string)
    requires SpaceFree(prefix) && SpaceFree(core) && SpaceFree(suffix) && prefix + core + suffix != []
    requires || r == prefix + core + suffix
             || r == prefix + core + suffix + "way"
             || r == prefix + core + "way" + suffix
             || (i < |core| && r == prefix + (core[i..] + core[..i] + "ay") + suffix)
    ensures IsWord(r)
  {
    assert SpaceFree("way") && SpaceFree("");
    SpaceFreeParts(prefix, core, suffix, "way");
    SpaceFreeParts(prefix, core, suffix, "");
    assert prefix + core + "" + suffix == prefix + core + suffix;
    if i < |core| {
      var t := core[i..] + core[..i] + "ay";
      RotationSpaceFree(core, i);
      SpaceFreeParts(prefix, t, suffix, "");
      assert prefix + t + "" + suffix == prefix + t + suffix;
    }
  }

  /** A word translates to a word. */
  lemma TranslationIsWord(word: string)
    requires IsWord(word)
    ensures IsWord(Translation(word))
  {
    var p := Peel(word);
    PeelSpaceFree(word);
    PeelConcat(word);
    TranslationForms(word);
    FormsAreWords(p.prefix, p.core, p.suffix, FirstVowel(p.core), Translation(word));
  }

  /** `pig_latin`: split on whitespace, translate each word, join with single spaces. */
  function PigLatin(text: string): string
  {
    var words := Words(text);
    Join(seq(|words|, k requires 0 <= k < |words| => Translation(words[k])), " ")
  }

  /** The result has exactly the text's number of words, each the translation of the
      text's word at the same position. */
  lemma PigLatinKeepsWords(text: string)
    ensures var words := Words(text);
      Words(PigLatin(text)) == seq(|words|, k requires 0 <= k < |words| => Translation(words[k]))
    ensures |Words(PigLatin(text))| == |Words(text)|
  {
    var words := Words(text);
    var out := seq(|words|, k requires 0 <= k < |words| => Translation(words[k]));
    forall k | 0 <= k < |out| ensures IsWord(out[k]) {
      TranslationIsWord(words[k]);
    }
    WordsOfJoin(out);
  }
}
