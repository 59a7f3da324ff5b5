/** WordCountController: the four routes.  Each reads the file the path parameter
    names, echoes the text when the read failed, and otherwise renders one analysis
    of the text; every call takes the next execution id.  The text of each response is
    specified by a function of the text read (WordCountText, WordLengthsText,
    MaxSentence), and the loops that build it are proved to produce exactly that. */
module Controller {
  import opened JavaLang
  import opened Entries
  import opened WordCount
  import opened WordLengths
  import opened FileReadUtil

  const WordCountPrefix := "Word count = "
  const AverageLengthPrefix := "Average word length = "
  const NumberOfWordTemplate := "Number of words of length "
  const WordLengthMaxTemplate := "The most frequently occurring word length is "
  const NoOccurrencesText := "The input text returned 0 word occurences"

  /** The test every route makes on the text it read. */
  predicate ReadFailed(text: string) {
    Contains(text, FailureSentinel)
  }

  /** A read that fails is always taken for one; a file that was read is taken for a
      failure exactly when its own contents hold the sentinel. */
  lemma ReadFailedCases(filePath: string, disk: map<string, string>)
    ensures filePath !in disk ==> ReadFailed(FileRead(filePath, disk))
    ensures filePath in disk ==>
              (ReadFailed(FileRead(filePath, disk)) <==> Contains(disk[filePath], FailureSentinel))
  {
  }

  // Shapes of concatenations, stated for any strings so that no rendering has to be
  // unfolded to use them.

  lemma AppendAssociates(a: string, b: string, c: string)
    ensures (a + b) + c == a + (b + c)
  {
  }

  lemma AppendSlices(a: string, b: string)
    ensures (a + b)[..|a|] == a && (a + b)[|a|..] == b
  {
  }

  lemma AmpersandRegroup(a: string, b: string)
    ensures a + " & " + b == (a + " ") + ("& " + b)
  {
  }

  lemma AppendIsPrefix(a: string, b: string, text: string)
    requires a + b <= text
    ensures a <= text
  {
    assert (a + b)[..|a|] == a;
  }

  /** A prefix of a text followed by a piece: the piece sits in the text right after it. */
  lemma PieceInText(before: string, piece: string, text: string)
    requires before + piece <= text
    ensures |before| + |piece| <= |text| && text[|before|..|before| + |piece|] == piece
  {
    assert (before + piece)[|before|..] == piece;
  }

  // ---------------------------------------------------------------------------
  // wordcount
  // ---------------------------------------------------------------------------

  /** String.format("Word count = %s", countWords(text)). */
  function WordCountText(text: string): string {
    WordCountPrefix + IntToString(CountWords(text))
  }

  /** The number after the prefix reads back as the word count. */
  lemma WordCountTextReadsBack(text: string)
    ensures WordCountPrefix <= WordCountText(text)
    ensures WordCountText(text)[|WordCountPrefix|..] == IntToString(CountWords(text))
    ensures forall k :: 1 <= k < |IntToString(CountWords(text))| ==> IntToString(CountWords(text))[k] != '-'
    ensures ParseInt(WordCountText(text)[|WordCountPrefix|..]) == CountWords(text)
  {
    AppendSlices(WordCountPrefix, IntToString(CountWords(text)));
    IntToStringRoundTrip(CountWords(text));
  }

  // ---------------------------------------------------------------------------
  // wordlengths
  // ---------------------------------------------------------------------------

  /** The line printed for one histogram entry. */
  function WordLengthLine(e: LengthCount, sep: string): string {
    NumberOfWordTemplate + IntToString(e.wordLength) + " is " + IntToString(e.occurrences) + sep
  }

  /** The wordlengths response: one line per entry, in the order of the entries. */
  function WordLengthsText(h: seq<LengthCount>, sep: string): string {
    if h == [] then "" else WordLengthsText(h[..|h| - 1], sep) + WordLengthLine(h[|h| - 1], sep)
  }

  /** The text for fewer entries is a prefix of the text for more. */
  lemma {:induction false} WordLengthsTextPrefix(h: seq<LengthCount>, sep: string, n: nat)
    requires n <= |h|
    ensures WordLengthsText(h[..n], sep) <= WordLengthsText(h, sep)
    decreases |h| - n
  {
    if n < |h| {
      WordLengthsTextPrefix(h, sep, n + 1);
      WordLengthsTextStep(h, sep, n);
      AppendIsPrefix(WordLengthsText(h[..n], sep), WordLengthLine(h[n], sep), WordLengthsText(h, sep));
    } else {
      assert h[..n] == h;
    }
  }

  /** One more entry adds its line at the end. */
  lemma WordLengthsTextStep(h: seq<LengthCount>, sep: string, i: nat)
    requires i < |h|
    ensures WordLengthsText(h[..i + 1], sep) == WordLengthsText(h[..i], sep) + WordLengthLine(h[i], sep)
  {
    assert h[..i + 1][..i] == h[..i] && h[..i + 1][i] == h[i];
  }

  /** Entry i's line sits in the text right after the lines of the entries before it. */
  lemma WordLengthsTextHasLine(h: seq<LengthCount>, sep: string, i: nat)
    requires i < |h|
    ensures var start := |WordLengthsText(h[..i], sep)|;
            var line := WordLengthLine(h[i], sep);
            start + |line| <= |WordLengthsText(h, sep)| &&
            WordLengthsText(h, sep)[start..start + |line|] == line
  {
    WordLengthsTextStep(h, sep, i);
    WordLengthsTextPrefix(h, sep, i + 1);
    PieceInText(WordLengthsText(h[..i], sep), WordLengthLine(h[i], sep), WordLengthsText(h, sep));
  }

  /** The for-each loop that appends the line of every entry to the output. */
  method FormatWordLengths(entries: seq<NumberOfWordLengthEntry>, sep: string) returns (output: string)
    ensures output == WordLengthsText(View(entries), sep)
  {
    ghost var h := View(entries);
    output := "";
    for i := 0 to |entries|
      invariant output == WordLengthsText(h[..i], sep)
    {
      var wordLength := entries[i];
      var line := NumberOfWordTemplate + IntToString(wordLength.GetWordLength()) +
                  " is " + IntToString(wordLength.GetOccurrences()) + sep;
      assert line == WordLengthLine(h[i], sep);
      WordLengthsTextStep(h, sep, i);
      output := output + line;
    }
    assert h[..|entries|] == h;
  }

  // ---------------------------------------------------------------------------
  // wordlengthmax
  // ---------------------------------------------------------------------------

  /** "a, b, c, " for the lengths a, b, c. */
  function CommaList(ls: seq<int>): string {
    if ls == [] then "" else CommaList(ls[..|ls| - 1]) + IntToString(ls[|ls| - 1]) + ", "
  }

  /** "a, b, c & d": commas between the lengths, an ampersand before the last. */
  function AmpersandList(ls: seq<int>): string
    requires |ls| >= 2
  {
    CommaList(ls[..|ls| - 2]) + IntToString(ls[|ls| - 2]) + " & " + IntToString(ls[|ls| - 1])
  }

  /** The wordlengthmax response for the group of entries of largest occurrence count. */
  function MaxSentence(group: seq<LengthCount>): string {
    if group == [] then NoOccurrencesText
    else if |group| == 1 then
      WordLengthMaxTemplate + IntToString(group[0].occurrences) + ", for the word length " +
      IntToString(group[0].wordLength)
    else
      WordLengthMaxTemplate + IntToString(group[0].occurrences) + ", for word lengths of " +
      AmpersandList(Lengths(group))
  }

  lemma {:induction false} CommaListHasNoAmpersand(ls: seq<int>)
    ensures '&' !in CommaList(ls)
    decreases |ls|
  {
    if ls != [] {
      CommaListHasNoAmpersand(ls[..|ls| - 1]);
    }
  }

  /** Exactly one ampersand appears: it opens the tail "& <last length>", and neither
      the text before the tail nor the last length holds another. */
  lemma AmpersandListShape(ls: seq<int>)
    requires |ls| >= 2
    ensures var list := AmpersandList(ls);
            var tail := "& " + IntToString(ls[|ls| - 1]);
            |tail| <= |list| &&
            list[|list| - |tail|..] == tail &&
            '&' !in list[..|list| - |tail|] &&
            '&' !in IntToString(ls[|ls| - 1])
  {
    var front := CommaList(ls[..|ls| - 2]) + IntToString(ls[|ls| - 2]) + " ";
    var tail := "& " + IntToString(ls[|ls| - 1]);
    CommaListHasNoAmpersand(ls[..|ls| - 2]);
    AmpersandRegroup(CommaList(ls[..|ls| - 2]) + IntToString(ls[|ls| - 2]), IntToString(ls[|ls| - 1]));
    assert AmpersandList(ls) == front + tail;
    AppendSlices(front, tail);
  }

  /** What the loop appends for the entry at position i of n: its length then ", ",
      except " " after the second to last and "& " before the last. */
  function LoopPiece(ls: seq<int>, i: nat): string
    requires i < |ls|
  {
    if i == |ls| - 2 then IntToString(ls[i]) + " "
    else if i == |ls| - 1 then "& " + IntToString(ls[i])
    else IntToString(ls[i]) + ", "
  }

  /** What the listCount loop has appended after n positions: the comma list of the
      first n lengths, then " " rather than ", " after the second to last, and at the
      end the whole ampersand list. */
  function ListSoFar(ls: seq<int>, n: nat): string
    requires |ls| >= 2 && n <= |ls|
  {
    if n <= |ls| - 2 then CommaList(ls[..n])
    else if n == |ls| - 1 then CommaList(ls[..|ls| - 2]) + IntToString(ls[|ls| - 2]) + " "
    else AmpersandList(ls)
  }

  /** One more length with ", " after it extends the comma list by that length. */
  lemma CommaListStep(ls: seq<int>, n: nat)
    requires n < |ls|
    ensures CommaList(ls[..n]) + (IntToString(ls[n]) + ", ") == CommaList(ls[..n + 1])
  {
    var front := ls[..n + 1];
    assert front[..n] == ls[..n] && front[n] == ls[n];
    assert CommaList(front) == CommaList(ls[..n]) + IntToString(ls[n]) + ", ";
    AppendAssociates(CommaList(ls[..n]), IntToString(ls[n]), ", ");
  }

  /** Before the second to last position the piece is the length and ", ". */
  lemma ListSoFarStepComma(ls: seq<int>, n: nat)
    requires n + 2 < |ls|
    ensures ListSoFar(ls, n) + LoopPiece(ls, n) == ListSoFar(ls, n + 1)
  {
    CommaListStep(ls, n);
  }

  /** At the second to last position the piece is the length and " ". */
  lemma ListSoFarStepSpace(ls: seq<int>)
    requires |ls| >= 2
    ensures ListSoFar(ls, |ls| - 2) + LoopPiece(ls, |ls| - 2) == ListSoFar(ls, |ls| - 1)
  {
    AppendAssociates(CommaList(ls[..|ls| - 2]), IntToString(ls[|ls| - 2]), " ");
  }

  /** At the last position the piece is "& " and the length, closing the list. */
  lemma ListSoFarStepAmpersand(ls: seq<int>)
    requires |ls| >= 2
    ensures ListSoFar(ls, |ls| - 1) + LoopPiece(ls, |ls| - 1) == ListSoFar(ls, |ls|)
  {
    AmpersandRegroup(CommaList(ls[..|ls| - 2]) + IntToString(ls[|ls| - 2]), IntToString(ls[|ls| - 1]));
  }

  /** Each piece the loop appends takes the text from n positions to n + 1. */
  lemma ListSoFarStep(ls: seq<int>, n: nat)
    requires |ls| >= 2 && n < |ls|
    ensures ListSoFar(ls, n) + LoopPiece(ls, n) == ListSoFar(ls, n + 1)
  {
    if n + 2 < |ls| {
      ListSoFarStepComma(ls, n);
    } else if n + 2 == |ls| {
      ListSoFarStepSpace(ls);
    } else {
      ListSoFarStepAmpersand(ls);
    }
  }

  /** The loop invariant carried one iteration further. */
  lemma AppendPieceStep(output0: string, ls: seq<int>, n: nat, output: string, piece: string)
    requires |ls| >= 2 && n < |ls|
    requires output == output0 + ListSoFar(ls, n) && piece == LoopPiece(ls, n)
    ensures output + piece == output0 + ListSoFar(ls, n + 1)
  {
    AppendAssociates(output0, ListSoFar(ls, n), piece);
    ListSoFarStep(ls, n);
  }

  /** The listCount loop: each length is appended with ", " after it, except " " after
      the second to last and "& " before the last. */
  method AppendLengthList(output0: string, wordLengths: seq<NumberOfWordLengthEntry>) returns (output: string)
    requires |wordLengths| >= 2
    ensures output == output0 + AmpersandList(Lengths(View(wordLengths)))
  {
    ghost var ls := Lengths(View(wordLengths));
    output := output0;
    var listCount := 0;
    while listCount < |wordLengths|
      invariant 0 <= listCount <= |wordLengths|
      invariant output == output0 + ListSoFar(ls, listCount)
    {
      var wordLength := wordLengths[listCount];
      var length := wordLength.GetWordLength();
      assert length == ls[listCount];
      var piece;
      if listCount == |wordLengths| - 2 {
        piece := IntToString(length) + " ";
      } else if listCount == |wordLengths| - 1 {
        piece := "& " + IntToString(length);
      } else {
        piece := IntToString(length) + ", ";
      }
      assert piece == LoopPiece(ls, listCount);
      AppendPieceStep(output0, ls, listCount, output, piece);
      output := output + piece;
      listCount := listCount + 1;
    }
  }

  /** The wordlengthmax rendering: the fixed text for an empty group, one sentence for a
      single entry, and for more the template followed by the list of lengths. */
  method FormatMaxOccurring(wordLengths: seq<NumberOfWordLengthEntry>) returns (output: string)
    ensures output == MaxSentence(View(wordLengths))
  {
    output := "";
    if |wordLengths| == 0 {
      output := output + NoOccurrencesText;
      assert output == NoOccurrencesText;
    } else if |wordLengths| == 1 {
      var sentence := WordLengthMaxTemplate + IntToString(wordLengths[0].GetOccurrences()) +
                      ", for the word length " + IntToString(wordLengths[0].GetWordLength());
      assert "" + sentence == sentence;
      output := output + sentence;
    } else {
      var head := WordLengthMaxTemplate + IntToString(wordLengths[0].GetOccurrences()) + ", for word lengths of ";
      assert "" + head == head;
      output := output + head;
      output := AppendLengthList(output, wordLengths);
    }
  }

  /** A text without words has the single token "", whose histogram is one entry:
      length 0, occurring once. */
  lemma BlankTextHistogram(text: string)
    requires HasNoWords(text)
    ensures LengthHistogram(SeparateWords(text)) == [LengthCount(0, 1)]
  {
    SeparateWordsShape(text);
    var words := SeparateWords(text);
    assert WordLengthsOf(words) == [0];
    assert InsertIncreasing([], 0) == [0];
    assert DistinctIncreasing([0]) == [0];
    assert CountLength(words, 0) == 1;
  }

  /** The histogram is never empty, so neither is its max group: the "0 word
      occurences" branch of wordlengthmax cannot be taken.  A text without words
      reports one word of length 0 instead. */
  lemma BlankTextReportsLengthZero(text: string)
    ensures MaxGroup(LengthHistogram(SeparateWords(text))) != []
    ensures HasNoWords(text) ==>
              MaxSentence(MaxGroup(LengthHistogram(SeparateWords(text)))) ==
              WordLengthMaxTemplate + IntToString(1) + ", for the word length " + IntToString(0)
  {
    MaxGroupProperties(LengthHistogram(SeparateWords(text)));
    if HasNoWords(text) {
      BlankTextHistogram(text);
      var h := [LengthCount(0, 1)];
      assert OccurrencesOf(h) == [1];
      assert MaxGroup(h) == WithOccurrences(h, 1);
      assert WithOccurrences(h, 1) == h;
    }
  }

  // ---------------------------------------------------------------------------
  // The controller and its routes
  // ---------------------------------------------------------------------------

  class WordCountController {
    /** The AtomicLong behind the ids, seen one call at a time. */
    var executionId: int

    constructor ()
      ensures executionId == 0
    {
      executionId := 0;
    }

    /** incrementAndGet: the counter goes up by one and the new value is the id. */
    method NextExecutionId() returns (id: int)
      modifies this
      ensures executionId == old(executionId) + 1 && id == executionId
    {
      executionId := executionId + 1;
      id := executionId;
    }

    /** GET /wordcount. */
    method Wordcount(path: Option<string>, disk: map<string, string>) returns (response: WordCount)
      modifies this
      ensures executionId == old(executionId) + 1 && response.executionId == executionId
      ensures var text := FileRead(ConstructPath(path), disk);
              response.content == if ReadFailed(text) then text else WordCountText(text)
    {
      var output := "";
      var text := FileRead(ConstructPath(path), disk);
      if Contains(text, FailureSentinel) {
        output := text;
      } else {
        output := WordCountPrefix + IntToString(CountWords(text));
      }
      var id := NextExecutionId();
      response := WordCount(id, output);
    }

    /** GET /averagelength; format stands for String.format("%s", double). */
    method Averagelength(path: Option<string>, disk: map<string, string>, format: real -> string)
      returns (response: WordCount)
      modifies this
      ensures executionId == old(executionId) + 1 && response.executionId == executionId
      ensures var text := FileRead(ConstructPath(path), disk);
              response.content ==
                if ReadFailed(text) then text
                else AverageLengthPrefix + format((|RemoveSpaces(Prepared(text))| as real) / (CountWords(text) as real))
    {
      var output := "";
      var text := FileRead(ConstructPath(path), disk);
      if Contains(text, FailureSentinel) {
        output := text;
      } else {
        var average := AverageWordLength(text);
        output := AverageLengthPrefix + format(average);
      }
      var id := NextExecutionId();
      response := WordCount(id, output);
    }

    /** GET /wordlengths; lineSeparator stands for System.getProperty("line.separator"). */
    method Wordlengths(path: Option<string>, disk: map<string, string>, lineSeparator: string)
      returns (response: WordCount)
      modifies this
      ensures executionId == old(executionId) + 1 && response.executionId == executionId
      ensures var text := FileRead(ConstructPath(path), disk);
              response.content ==
                if ReadFailed(text) then text
                else WordLengthsText(LengthHistogram(SeparateWords(text)), lineSeparator)
    {
      var output := "";
      var text := FileRead(ConstructPath(path), disk);
      if Contains(text, FailureSentinel) {
        output := text;
      } else {
        var wordLengths := NumberOfWordsOfLength(text);
        output := FormatWordLengths(wordLengths, lineSeparator);
      }
      var id := NextExecutionId();
      response := WordCount(id, output);
    }

    /** GET /wordlengthmax. */
    method Wordlengthmax(path: Option<string>, disk: map<string, string>) returns (response: WordCount)
      modifies this
      ensures executionId == old(executionId) + 1 && response.executionId == executionId
      ensures var text := FileRead(ConstructPath(path), disk);
              response.content ==
                if ReadFailed(text) then text
                else MaxSentence(MaxGroup(LengthHistogram(SeparateWords(text))))
    {
      var output := "";
      var text := FileRead(ConstructPath(path), disk);
      if Contains(text, FailureSentinel) {
        output := text;
      } else {
        var entries := NumberOfWordsOfLength(text);
        var wordLengths := WordLengthMaxOccurringSummary(entries);
        ghost var group := View(wordLengths);
        assert group == MaxGroup(LengthHistogram(SeparateWords(text)));
        output := FormatMaxOccurring(wordLengths);
        assert output == MaxSentence(group);
      }
      var id := NextExecutionId();
      response := WordCount(id, output);
    }
  }
}
