/** WordCount: the response value (an execution id and a content string) and the
    text analysis every route relies on: splitting the text into words, the word
    count and the average word length. */
module WordCount {
  import opened JavaLang

  /** The object every route returns: the call's id and the rendered result. */
  datatype WordCount = WordCount(executionId: int, content: string)

  /** The getters hand back what the constructor was given.  The last clause is about
      this value type: the Java class has no equals, so its objects compare by identity. */
  lemma ResponseReadsBack(executionId: int, content: string, other: WordCount)
    ensures WordCount(executionId, content).executionId == executionId
    ensures WordCount(executionId, content).content == content
    ensures WordCount(executionId, content) == other <==>
              other.executionId == executionId && other.content == content
  {
  }

  // ---------------------------------------------------------------------------
  // separateWords
  // ---------------------------------------------------------------------------

  /** The five characters stripped before splitting. */
  predicate IsStrippedPunctuation(c: char) {
    c == '.' || c == ',' || c == ';' || c == ':' || c == '*'
  }

  /** The five replaceAll calls, in the order the source makes them: every stripped
      character goes, every other one stays as often as it was there. */
  function StripPunctuation(s: string): (r: string)
    ensures multiset(r) == multiset(s)['.' := 0][',' := 0][';' := 0][':' := 0]['*' := 0]
    ensures forall c :: c in r <==> c in s && !IsStrippedPunctuation(c)
  {
    RemoveAll(RemoveAll(RemoveAll(RemoveAll(RemoveAll(s, '.'), ','), ';'), ':'), '*')
  }

  /** Stripping works piece by piece, so the remaining characters keep their order. */
  lemma StripPunctuationAppend(a: string, b: string)
    ensures StripPunctuation(a + b) == StripPunctuation(a) + StripPunctuation(b)
  {
    var x := a;
    var y := b;
    RemoveAllAppend(x, y, '.');
    x, y := RemoveAll(x, '.'), RemoveAll(y, '.');
    RemoveAllAppend(x, y, ',');
    x, y := RemoveAll(x, ','), RemoveAll(y, ',');
    RemoveAllAppend(x, y, ';');
    x, y := RemoveAll(x, ';'), RemoveAll(y, ';');
    RemoveAllAppend(x, y, ':');
    x, y := RemoveAll(x, ':'), RemoveAll(y, ':');
    RemoveAllAppend(x, y, '*');
  }

  /** The text that is actually split: punctuation removed, then trimmed. */
  function Prepared(input: string): (t: string)
    ensures t == [] || (!IsRegexSpace(t[0]) && !IsRegexSpace(t[|t| - 1]))
  {
    var t := Trim(StripPunctuation(input));
    if t == [] then t
    else
      RegexSpaceIsTrimmable(t[0]);
      RegexSpaceIsTrimmable(t[|t| - 1]);
      t
  }

  /** separateWords: strip the punctuation, trim, split on runs of \s. */
  function SeparateWords(input: string): (words: seq<string>)
    ensures |words| >= 1
  {
    SplitOfTrimmed(Prepared(input));
    SplitOnSpaceRuns(Prepared(input))
  }

  /** An input "has no words" when every character is stripped punctuation or is
      removed by trim(). */
  predicate HasNoWords(input: string) {
    forall c :: c in input ==> IsStrippedPunctuation(c) || IsTrimmable(c)
  }

  lemma PreparedEmpty(input: string)
    ensures Prepared(input) == [] <==> HasNoWords(input)
  {
    var s := StripPunctuation(input);
    if HasNoWords(input) {
      assert forall k :: 0 <= k < |s| ==> s[k] in s && IsTrimmable(s[k]);
    } else {
      var c :| c in input && !IsStrippedPunctuation(c) && !IsTrimmable(c);
      assert c in s;
      var k :| 0 <= k < |s| && s[k] == c;
    }
  }

  /** The token array is never empty: an input without words gives exactly one empty
      token, and any other input gives only non-empty tokens. */
  lemma SeparateWordsShape(input: string)
    ensures HasNoWords(input) <==> SeparateWords(input) == [""]
    ensures !HasNoWords(input) ==>
              forall i :: 0 <= i < |SeparateWords(input)| ==> SeparateWords(input)[i] != []
  {
    var t := Prepared(input);
    SplitOfTrimmed(t);
    PreparedEmpty(input);
    TrimmedPiecesNonEmpty(t);
    if !HasNoWords(input) {
      assert Pieces(t)[0] != [];
    }
  }

  /** No token holds one of the stripped punctuation characters or a \s character. */
  lemma SeparateWordsCharacters(input: string)
    ensures forall i, j :: 0 <= i < |SeparateWords(input)| && 0 <= j < |SeparateWords(input)[i]| ==>
              !IsStrippedPunctuation(SeparateWords(input)[i][j]) && !IsRegexSpace(SeparateWords(input)[i][j])
  {
    var t := Prepared(input);
    SplitOfTrimmed(t);
    FlattenPieces(t);
    var words := Pieces(t);
    forall i, j | 0 <= i < |words| && 0 <= j < |words[i]|
      ensures !IsStrippedPunctuation(words[i][j])
    {
      FlattenHolds(words, i, j);
      var c := words[i][j];
      assert c in RemoveSpaces(t);
      assert c in StripPunctuation(input);
    }
  }

  /** Read in order, the tokens spell the prepared text with its \s characters removed. */
  lemma SeparateWordsSpellText(input: string)
    ensures Flatten(SeparateWords(input)) == RemoveSpaces(Trim(StripPunctuation(input)))
  {
    SplitOfTrimmed(Prepared(input));
    FlattenPieces(Prepared(input));
  }

  /** Where the prepared text is cut: it is the tokens with one non-empty run of \s
      between every two of them. */
  lemma SeparateWordsJoin(input: string)
    ensures |Gaps(Prepared(input))| + 1 == |SeparateWords(input)|
    ensures Join(SeparateWords(input), Gaps(Prepared(input))) == Prepared(input)
  {
    SplitOfTrimmed(Prepared(input));
    PiecesJoin(Prepared(input));
  }

  // ---------------------------------------------------------------------------
  // countWords
  // ---------------------------------------------------------------------------

  /** countWords: the length of the token array. There is one word more than there are
      gaps (runs of \s) inside the prepared text; in particular never fewer than one. */
  function CountWords(input: string): (n: int)
    ensures n >= 1
    ensures n == 1 + SpaceRuns(Prepared(input))
  {
    SplitOfTrimmed(Prepared(input));
    PiecesCount(Prepared(input));
    |SeparateWords(input)|
  }

  // ---------------------------------------------------------------------------
  // averageWordLength
  // ---------------------------------------------------------------------------

  /** The sum of the lengths of the words. */
  function TotalLength(words: seq<string>): nat {
    if words == [] then 0 else |words[0]| + TotalLength(words[1..])
  }

  lemma {:induction false} TotalLengthAppend(a: seq<string>, b: seq<string>)
    ensures TotalLength(a + b) == TotalLength(a) + TotalLength(b)
    decreases |a|
  {
    if a == [] {
      assert a + b == b;
    } else {
      assert (a + b)[1..] == a[1..] + b;
      TotalLengthAppend(a[1..], b);
    }
  }

  lemma {:induction false} TotalLengthIsFlattenLength(words: seq<string>)
    ensures TotalLength(words) == |Flatten(words)|
    decreases |words|
  {
    if words != [] {
      TotalLengthIsFlattenLength(words[1..]);
    }
  }

  /** The words hold every character of the prepared text except the \s ones, and
      nothing but the empty token when the input has no words. */
  lemma TotalLengthOfWords(input: string)
    ensures TotalLength(SeparateWords(input)) == |RemoveSpaces(Prepared(input))|
    ensures HasNoWords(input) ==> TotalLength(SeparateWords(input)) == 0
  {
    SeparateWordsSpellText(input);
    TotalLengthIsFlattenLength(SeparateWords(input));
    PreparedEmpty(input);
  }

  /** The loop of averageWordLength that adds up the lengths of the words. */
  method SumOfLengths(words: seq<string>) returns (sum: int)
    ensures sum == TotalLength(words)
  {
    sum := 0;
    for i := 0 to |words|
      invariant sum == TotalLength(words[..i])
    {
      assert words[..i + 1] == words[..i] + [words[i]];
      TotalLengthAppend(words[..i], [words[i]]);
      sum := sum + |words[i]|;
    }
    assert words[..|words|] == words;
  }

  /** averageWordLength: the sum of the word lengths (accumulated in a loop) over the
      word count.  That is the number of characters of the prepared text that are not
      \s, divided by the word count, and 0 for an input without words.  The
      division-by-zero guard is dead: there is always at least one token. */
  method AverageWordLength(input: string) returns (average: real)
    ensures average == (|RemoveSpaces(Prepared(input))| as real) / (CountWords(input) as real)
    ensures HasNoWords(input) ==> average == 0.0
  {
    var words := SeparateWords(input);
    var sum := SumOfLengths(words);
    TotalLengthOfWords(input);
    assert sum == |RemoveSpaces(Prepared(input))| && |words| == CountWords(input);
    if |words| != 0 {
      average := (sum as real) / (|words| as real);
      NoCharactersNoAverage(sum, |words|);
    } else {
      average := 0.0;
    }
  }

  lemma NoCharactersNoAverage(sum: nat, count: nat)
    requires count >= 1
    ensures sum == 0 ==> (sum as real) / (count as real) == 0.0
  {
  }
}
