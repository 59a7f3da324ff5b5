# WordCountProject core, modelled in Dafny

The word-count service reads a text file and answers four questions about it. Each question has its own route:

- how many words the file has;
- their average length;
- how many words there are of each length;
- which lengths occur most often.

This project models what the service does with the text and proves properties of that model:

- the tokeniser;
- the metrics;
- the length histogram, built in place over mutable entry objects and then sorted;
- the selection of the lengths that occur most often;
- the strings each route renders;
- the construction of the file path.

Modules, one per file, follow the Java classes:

| file | module | models |
|---|---|---|
| `java_lang.dfy` | `JavaLang` | The parts of the Java library the code relies on: `String.trim`, `String.isBlank`, `String.contains`, `replaceAll` of one literal character, `Pattern.compile("\\s+").split`, `Integer.toString`. |
| `entries.dfy` | `Entries` | `NumberOfWordLengthEntry` as a class with mutable fields; `LengthCount` is the value an entry holds at one moment. |
| `word_count.dfy` | `WordCount` | The id/content response value; `separateWords`, `countWords`, `averageWordLength`. |
| `word_lengths.dfy` | `WordLengths` | `numberOfWordsOfLength` and `wordLengthMaxOccurringSummary`. |
| `file_read_util.dfy` | `FileReadUtil` | `constructPath`, and the result of `fileRead`. |
| `controller.dfy` | `Controller` | `WordCountController`: the failed-read test, the rendering loops, the four routes and the id counter. |

Main facts the model establishes:

- **Tokens are never empty as a list.** The token list always has at least one element.
  - A text with no words (only stripped punctuation and characters `trim()` removes) gives exactly `[""]`.
  - Every other text gives only non-empty tokens.
  - So `countWords` is at least 1, and the `words.length != 0` guard in `averageWordLength` is never false.
  - A text without words counts as one word of length 0. Its average is 0, and `wordlengthmax` reports "1, for the word length 0".
  - The "0 word occurences" branch of `wordlengthmax` cannot be taken.
- **Three kinds of white space stay separate.**
  - `trim()` removes every character up to U+0020.
  - `\s` is `[ \t\n\x0B\f\r]`.
  - `isBlank` uses `Character.isWhitespace`.
- **The histogram loop is implemented, not just specified.** Each step makes a linear search, then either a `setOccurences(+1)` on the matching entry object, updated in place, or an append of a new `(length, 1)` entry to the list (a sequence of objects that the loop reassigns). The model proves:
  - after each word, the list holds `Tally` of the words seen so far;
  - `Tally` is a histogram of them, with entries in order of first occurrence of each length;
  - after `Collections.sort` (an insertion sort by `compareTo` here), the list holds exactly `LengthHistogram`. That is an independent description of the histogram: each distinct length, ascending, with its count.
- **The summary of most frequent lengths** is defined by `groupingBy` into a `TreeMap` followed by `lastEntry`. It equals the entries whose count is the largest, in input order. For a histogram of a text, those entries come out in ascending order of length.
- **Every route's output is a stated function of the text read.** Each rendering loop is proved to produce exactly its function, and each function is then read back:
  - the number after "Word count = " parses back to the word count;
  - entry i's line sits in the wordlengths text right after the lines of the entries before it;
  - in the wordlengthmax list, one `&` sits right before the last length.

Parameters stand in for everything outside the text:

- **The file system** is a map from path to contents. A path that is not a key is a read that fails.
- **`System.getProperty("line.separator")`** is a string parameter, `lineSeparator`.
- **`String.format("%s", double)`** is a function parameter `format: real -> string`, applied to the exact average as a real number.

## Model

| member | source | states |
|---|---|---|
| JavaLang.RegexSpaceIsTrimmable | src/main/java/com/synalogik/wordcountproject/WordCount.java:65-68 | Every `\s` character is one that `trim()` removes, so a trimmed text neither starts nor ends with `\s`. |
| JavaLang.TrimStartIndex | src/main/java/com/synalogik/wordcountproject/WordCount.java:65 | The first scan of `trim()` stops at the first character above U+0020, and everything it skips is at most U+0020. |
| JavaLang.TrimEndIndex | src/main/java/com/synalogik/wordcountproject/WordCount.java:65 | The second scan of `trim()` stops after the last character above U+0020, and everything it drops is at most U+0020. |
| JavaLang.Trim | src/main/java/com/synalogik/wordcountproject/WordCount.java:65 | The input is the trimmed text with a prefix and a suffix of characters at most U+0020 around it. The trimmed text neither starts nor ends with such a character, so no longer infix of that kind exists. It is empty exactly when every character of the input is at most U+0020. |
| JavaLang.BlankTrimsToEmpty | src/main/java/com/synalogik/wordcountproject/FileReadUtil.java:43 | On characters below U+0080, a text `isBlank` accepts trims to the empty text, so `isBlank` is the narrower test. |
| JavaLang.TrimmedAwayButNotBlank | src/main/java/com/synalogik/wordcountproject/FileReadUtil.java:43 | The converse fails even on ASCII: U+0000 trims away but is not `Character.isWhitespace`, so the two tests are strictly different. |
| JavaLang.ContainsAt | src/main/java/com/synalogik/wordcountproject/WordCountController.java:49 | `contains` holds whenever the pattern sits at some offset of the text. |
| JavaLang.ContainsFound | src/main/java/com/synalogik/wordcountproject/WordCountController.java:49 | Conversely, when `contains` holds, the pattern sits at some offset of the text. |
| JavaLang.RemoveAll | src/main/java/com/synalogik/wordcountproject/WordCount.java:57-61 | `replaceAll` of one literal character removes every occurrence of it. Every other character stays, as often as it occurred (the multisets agree), and the text never grows. |
| JavaLang.RemoveAllAppend | src/main/java/com/synalogik/wordcountproject/WordCount.java:57-61 | The removal works piece by piece, so the characters that stay keep their order. |
| JavaLang.DropSpaces | src/main/java/com/synalogik/wordcountproject/WordCount.java:68 | Skipping a run of `\s` leaves a suffix that does not start with `\s`; everything skipped is `\s`. |
| JavaLang.Pieces | src/main/java/com/synalogik/wordcountproject/WordCount.java:68 | Cutting at the runs of `\s` gives at least one piece, and no piece holds a `\s` character. Where the cuts fall is pinned by `PiecesJoin`. |
| JavaLang.DropTrailingEmpty | src/main/java/com/synalogik/wordcountproject/WordCount.java:68 | Split with limit 0 drops the trailing empty pieces and nothing else. The result is a prefix of the pieces, every piece after it is empty, and it does not end with an empty piece. |
| JavaLang.RemoveSpaces | src/main/java/com/synalogik/wordcountproject/WordCount.java:68 | The text with its `\s` characters removed holds exactly the characters of the text other than `\s`, and is no longer than the text. |
| JavaLang.RemoveSpacesAppend | src/main/java/com/synalogik/wordcountproject/WordCount.java:68 | The removal works piece by piece, so the remaining characters keep their order. |
| JavaLang.SplitOnSpaceRuns | src/main/java/com/synalogik/wordcountproject/WordCount.java:68 | No token of the split holds a `\s` character. |
| JavaLang.SplitOnSpaceRunsSpells | src/main/java/com/synalogik/wordcountproject/WordCount.java:68 | Read in order, the split's tokens spell the text with every `\s` character removed. |
| JavaLang.FlattenDropTrailingEmpty | src/main/java/com/synalogik/wordcountproject/WordCount.java:68 | Dropping trailing empty pieces does not change what the pieces spell. |
| JavaLang.FlattenAppend | src/main/java/com/synalogik/wordcountproject/WordCount.java:68 | Concatenating the tokens distributes over appending token lists. |
| JavaLang.FlattenHolds | src/main/java/com/synalogik/wordcountproject/WordCount.java:68 | Every character of every token occurs in the tokens' concatenation. |
| JavaLang.RemoveSpacesDropSpaces | src/main/java/com/synalogik/wordcountproject/WordCount.java:68 | Skipping a leading run of `\s` does not change the text's non-`\s` characters. |
| JavaLang.FlattenPieces | src/main/java/com/synalogik/wordcountproject/WordCount.java:68 | Read in order, the pieces spell the text with every `\s` character removed. |
| JavaLang.FirstPieceNonEmpty | src/main/java/com/synalogik/wordcountproject/WordCount.java:68 | A text that does not start with `\s` has a non-empty first piece. |
| JavaLang.LaterPiecesNonEmpty | src/main/java/com/synalogik/wordcountproject/WordCount.java:68 | A text that does not end with `\s` has no empty piece after the first. |
| JavaLang.SplitDropsTrailing | src/main/java/com/synalogik/wordcountproject/WordCount.java:68 | On a non-empty text, split gives the pieces without their trailing empty ones, whether or not `\s` occurs (the no-match case `[t]` agrees). |
| JavaLang.SplitOfTrimmed | src/main/java/com/synalogik/wordcountproject/WordCount.java:65-68 | For a text that neither starts nor ends with `\s`, Java's split gives exactly the pieces. For the empty text that is `[""]`. |
| JavaLang.TrimmedPiecesNonEmpty | src/main/java/com/synalogik/wordcountproject/WordCount.java:65-68 | For such a text, the pieces are exactly `[""]` when the text is empty, and all non-empty otherwise. |
| JavaLang.SpaceRunsDropSpaces | src/main/java/com/synalogik/wordcountproject/WordCount.java:68 | A leading run of `\s` is exactly one of the text's runs. |
| JavaLang.PiecesCount | src/main/java/com/synalogik/wordcountproject/WordCount.java:68 | There is one piece more than there are runs of `\s`. Runs of several blanks or newlines therefore add only one piece. |
| JavaLang.NoSpacesSinglePiece | src/main/java/com/synalogik/wordcountproject/WordCount.java:68 | Without any `\s` character, the text itself is the only piece. |
| JavaLang.Gaps | src/main/java/com/synalogik/wordcountproject/WordCount.java:68 | The separators of a text are non-empty runs made only of `\s` characters. |
| JavaLang.JoinCons | src/main/java/com/synalogik/wordcountproject/WordCount.java:68 | Putting a piece and a separator in front joins them in front. |
| JavaLang.JoinExtendFirst | src/main/java/com/synalogik/wordcountproject/WordCount.java:68 | Characters put in front of the first piece come out in front of the joined text. |
| JavaLang.PiecesJoin | src/main/java/com/synalogik/wordcountproject/WordCount.java:68 | Where the split cuts: the text is its pieces with one non-empty run of `\s` between every two, and only the first and the last piece can be empty. |
| JavaLang.CutAfterRun | src/main/java/com/synalogik/wordcountproject/WordCount.java:68 | A leading run of `\s` adds an empty first piece with that run as the first separator. |
| JavaLang.CutAfterLetter | src/main/java/com/synalogik/wordcountproject/WordCount.java:68 | A leading non-`\s` character goes to the front of the first piece. |
| JavaLang.DigitChar | src/main/java/com/synalogik/wordcountproject/WordCountController.java:56 | The decimal digit character for a value below 10 carries that value. |
| JavaLang.NatToString | src/main/java/com/synalogik/wordcountproject/WordCountController.java:56 | The decimal form of a natural number is non-empty and all digits, with a leading '0' only for zero. |
| JavaLang.IntToString | src/main/java/com/synalogik/wordcountproject/WordCountController.java:111 | `Integer.toString` is non-empty and made of digits and '-'. |
| JavaLang.DigitValue | src/main/java/com/synalogik/wordcountproject/WordCountController.java:56 | Reading a digit character gives the value whose digit it is. |
| JavaLang.ParseNatToString | src/main/java/com/synalogik/wordcountproject/WordCountController.java:56 | Parsing the decimal form of n gives back n. |
| JavaLang.IntToStringRoundTrip | src/main/java/com/synalogik/wordcountproject/WordCountController.java:56 | `Integer.toString` is undone by parsing, so different numbers print differently. Only the first character can be a '-'. |
| JavaLang.SignedDigits | src/main/java/com/synalogik/wordcountproject/WordCountController.java:111 | After the minus sign of a negative number come its digits, with no further sign. |
| Entries.CompareInts | src/main/java/com/synalogik/wordcountproject/NumberOfWordLengthEntry.java:35 | `Integer.compare` is -1, 0 or 1, and each sign holds exactly when x is below, equal to or above y. |
| Entries.NumberOfWordLengthEntry.constructor | src/main/java/com/synalogik/wordcountproject/NumberOfWordLengthEntry.java:14-17 | A new entry holds exactly the given length and count. |
| Entries.NumberOfWordLengthEntry.GetWordLength | src/main/java/com/synalogik/wordcountproject/NumberOfWordLengthEntry.java:19-21 | The length the entry holds now. |
| Entries.NumberOfWordLengthEntry.SetWordLength | src/main/java/com/synalogik/wordcountproject/NumberOfWordLengthEntry.java:22-24 | Sets the length and leaves the count unchanged. |
| Entries.NumberOfWordLengthEntry.GetOccurrences | src/main/java/com/synalogik/wordcountproject/NumberOfWordLengthEntry.java:25-27 | The count the entry holds now. |
| Entries.NumberOfWordLengthEntry.SetOccurrences | src/main/java/com/synalogik/wordcountproject/NumberOfWordLengthEntry.java:28-30 | Sets the count and leaves the length unchanged. |
| Entries.NumberOfWordLengthEntry.CompareTo | src/main/java/com/synalogik/wordcountproject/NumberOfWordLengthEntry.java:33-36 | Negative, zero or positive exactly when this length is below, equal to or above the other's. The counts play no part. |
| Entries.CompareToIsTotalPreorder | src/main/java/com/synalogik/wordcountproject/NumberOfWordLengthEntry.java:34-36 | `compareTo` is reflexive, sign-antisymmetric, transitive and total. Two entries tie exactly when their lengths agree. |
| Entries.View | src/main/java/com/synalogik/wordcountproject/WordCount.java:136 | The values a list of entry objects holds, position by position. |
| WordCount.ResponseReadsBack | src/main/java/com/synalogik/wordcountproject/WordCount.java:12-26 | The getters return what the constructor was given. The model's response is a value, equal exactly when ids and contents agree; the Java class has no `equals`, so its objects compare by identity, and nothing in the source compares responses. |
| WordCount.StripPunctuation | src/main/java/com/synalogik/wordcountproject/WordCount.java:57-61 | After the five `replaceAll` calls, every `. , ; : *` is gone. Every other character stays, as often as it occurred (the multisets agree). |
| WordCount.StripPunctuationAppend | src/main/java/com/synalogik/wordcountproject/WordCount.java:57-61 | Stripping works piece by piece, so the remaining characters keep their order. |
| WordCount.Prepared | src/main/java/com/synalogik/wordcountproject/WordCount.java:57-65 | The text that is split is empty or neither starts nor ends with `\s`. |
| WordCount.SeparateWords | src/main/java/com/synalogik/wordcountproject/WordCount.java:53-69 | `separateWords` always returns at least one token. |
| WordCount.PreparedEmpty | src/main/java/com/synalogik/wordcountproject/WordCount.java:57-65 | The prepared text is empty exactly when every character is stripped punctuation or removed by `trim()`. |
| WordCount.SeparateWordsShape | src/main/java/com/synalogik/wordcountproject/WordCount.java:65-68 | A text without words gives exactly `[""]`, and only such a text does. Any other text gives only non-empty tokens. |
| WordCount.SeparateWordsCharacters | src/main/java/com/synalogik/wordcountproject/WordCount.java:57-68 | No token holds `. , ; : *` or a `\s` character. |
| WordCount.SeparateWordsSpellText | src/main/java/com/synalogik/wordcountproject/WordCount.java:65-68 | Read in order, the tokens spell the stripped, trimmed text with its `\s` characters removed. |
| WordCount.SeparateWordsJoin | src/main/java/com/synalogik/wordcountproject/WordCount.java:65-68 | Where the prepared text is cut: it is the tokens with one non-empty run of `\s` between every two. |
| WordCount.CountWords | src/main/java/com/synalogik/wordcountproject/WordCount.java:80-84 | The word count is at least 1, and is one more than the number of `\s` runs inside the prepared text. |
| WordCount.TotalLengthAppend | src/main/java/com/synalogik/wordcountproject/WordCount.java:106-108 | The length sum distributes over appending word lists. |
| WordCount.TotalLengthIsFlattenLength | src/main/java/com/synalogik/wordcountproject/WordCount.java:106-108 | The length sum of the words is the length of their concatenation. |
| WordCount.TotalLengthOfWords | src/main/java/com/synalogik/wordcountproject/WordCount.java:103-108 | The length sum is the number of non-`\s` characters of the prepared text, and 0 for a text without words. |
| WordCount.SumOfLengths | src/main/java/com/synalogik/wordcountproject/WordCount.java:106-108 | The for-each loop adds up exactly the lengths of all the words. |
| WordCount.AverageWordLength | src/main/java/com/synalogik/wordcountproject/WordCount.java:97-118 | The average is the number of non-`\s` characters of the prepared text over the word count, as an exact ratio. It is 0 for a text without words. |
| WordLengths.CountLengthAppend | src/main/java/com/synalogik/wordcountproject/WordCount.java:141-154 | One more word adds one to the count of its own length and nothing to other counts. |
| WordLengths.CountLengthPositive | src/main/java/com/synalogik/wordcountproject/WordCount.java:141-154 | A length has a positive count exactly when some word has it. |
| WordLengths.HistogramLengths | src/main/java/com/synalogik/wordcountproject/WordCount.java:141-154 | A histogram's lengths are exactly the word lengths that occur. |
| WordLengths.FirstWithLength | src/main/java/com/synalogik/wordcountproject/WordCount.java:144 | `filter(...).findFirst().orElse(null)` finds the first entry of the length, with none before it; null means no entry has it. |
| WordLengths.FirstWithLengthAbsent | src/main/java/com/synalogik/wordcountproject/WordCount.java:144-148 | The search comes back empty exactly when the length is not yet in the list. |
| WordLengths.BumpIsHistogram | src/main/java/com/synalogik/wordcountproject/WordCount.java:144-153 | Counting one more word keeps a histogram of the words seen so far: distinct lengths, exact counts, all at least 1, every length covered. |
| WordLengths.TallyIsHistogram | src/main/java/com/synalogik/wordcountproject/WordCount.java:141-154 | Before the sort, the list the loop builds is a histogram of the words. |
| WordLengths.FirstPosition | src/main/java/com/synalogik/wordcountproject/WordCount.java:141 | The position of the first word of a length, with no earlier word of that length. |
| WordLengths.FirstPositionAppend | src/main/java/com/synalogik/wordcountproject/WordCount.java:141 | Appending a word changes the first position only for a length seen for the first time. |
| WordLengths.FirstPositionPresent | src/main/java/com/synalogik/wordcountproject/WordCount.java:141-154 | A length some word has is in the histogram. |
| WordLengths.TallyFirstOccurrenceOrder | src/main/java/com/synalogik/wordcountproject/WordCount.java:141-154 | Before the sort, entries appear in the order in which their lengths first occur in the text. |
| WordLengths.WithoutLength | src/main/java/com/synalogik/wordcountproject/WordCount.java:141-154 | Removing the words of one length removes exactly its count and keeps every other count and length. |
| WordLengths.EmptyHistogram | src/main/java/com/synalogik/wordcountproject/WordCount.java:141-154 | A list that covers some words is not empty. |
| WordLengths.HistogramTotal | src/main/java/com/synalogik/wordcountproject/WordCount.java:141-154 | In any histogram of the words, the counts add up to the number of words. |
| WordLengths.TailIncreasing | src/main/java/com/synalogik/wordcountproject/WordCount.java:157 | The tail of an increasing sequence is increasing and lies above its head. |
| WordLengths.PrependIncreasing | src/main/java/com/synalogik/wordcountproject/WordCount.java:157 | A value below an increasing sequence can be put in front of it. |
| WordLengths.InsertIncreasing | src/main/java/com/synalogik/wordcountproject/WordCount.java:157 | Inserting into an increasing sequence keeps it increasing and adds exactly the value. |
| WordLengths.DistinctIncreasing | src/main/java/com/synalogik/wordcountproject/WordCount.java:157 | The distinct elements, increasing, with the same members as the input. |
| WordLengths.LengthHistogram | src/main/java/com/synalogik/wordcountproject/WordCount.java:133-161 | The reference histogram is non-empty whenever there are words. |
| WordLengths.LengthHistogramIsHistogram | src/main/java/com/synalogik/wordcountproject/WordCount.java:133-161 | The reference histogram is a histogram of the words, strictly ascending by length. |
| WordLengths.NonEmptyTogether | src/main/java/com/synalogik/wordcountproject/WordCount.java:157 | Two sequences with the same members are empty together. |
| WordLengths.IncreasingUnique | src/main/java/com/synalogik/wordcountproject/WordCount.java:157 | Two increasing sequences with the same members are equal. |
| WordLengths.SortedHistogramUnique | src/main/java/com/synalogik/wordcountproject/WordCount.java:157 | Any strictly ascending histogram of the words is the reference histogram. |
| WordLengths.FindFirstByLength | src/main/java/com/synalogik/wordcountproject/WordCount.java:144 | The stream search over the entry objects agrees with the search over their values. |
| WordLengths.CountWord | src/main/java/com/synalogik/wordcountproject/WordCount.java:144-153 | One loop step adds one, in place, to the matching entry object, or appends a fresh `(len, 1)` entry. The list's values become `Bump` of the old values, and no object appears twice. |
| WordLengths.InsertionSorted | src/main/java/com/synalogik/wordcountproject/WordCount.java:157 | Inserting x after the entries not above it and before the longer ones keeps the list sorted by length. |
| WordLengths.InsertionDistinct | src/main/java/com/synalogik/wordcountproject/WordCount.java:157 | Inserting an entry of a new length keeps the lengths distinct. |
| WordLengths.InsertionContents | src/main/java/com/synalogik/wordcountproject/WordCount.java:157 | Inserting adds exactly that entry to the multiset of entries. |
| WordLengths.InsertByLength | src/main/java/com/synalogik/wordcountproject/WordCount.java:157 | One step of the sort: the result is sorted by `compareTo`, is the old list plus x as a multiset, and keeps distinct lengths distinct. |
| WordLengths.SortByWordLength | src/main/java/com/synalogik/wordcountproject/WordCount.java:157 | `Collections.sort` returns a permutation of the list, sorted by length, with distinct lengths kept distinct. |
| WordLengths.SortedTallyIsLengthHistogram | src/main/java/com/synalogik/wordcountproject/WordCount.java:141-157 | After sorting the tally, the values held are exactly the reference histogram. |
| WordLengths.SortedEntriesCount | src/main/java/com/synalogik/wordcountproject/WordCount.java:157 | Entries taken from a histogram still count the words of their lengths, each at least once. |
| WordLengths.SortedEntriesCover | src/main/java/com/synalogik/wordcountproject/WordCount.java:157 | A list holding every entry of a histogram still covers every word. |
| WordLengths.SortedEntriesAscend | src/main/java/com/synalogik/wordcountproject/WordCount.java:157 | Sorted by length with no length twice means strictly ascending. |
| WordLengths.CountWordLengths | src/main/java/com/synalogik/wordcountproject/WordCount.java:136-154 | The counting loop builds fresh, distinct entry objects whose values are the tally of the words. |
| WordLengths.NumberOfWordsOfLength | src/main/java/com/synalogik/wordcountproject/WordCount.java:133-161 | The result holds exactly the reference histogram of the tokens. Lengths are distinct and ascending, each count is exact and at least 1, no entry object appears twice. |
| WordLengths.MaxOf | src/main/java/com/synalogik/wordcountproject/WordCount.java:174 | The largest key: a member of the sequence, and no element is above it. |
| WordLengths.WithOccurrences | src/main/java/com/synalogik/wordcountproject/WordCount.java:173 | The group for key k holds exactly the entries with count k. |
| WordLengths.MaxGroupProperties | src/main/java/com/synalogik/wordcountproject/WordCount.java:169-176 | For a non-empty list, the summary is non-empty. Every entry in it has the largest count, and every entry of the largest count is in it. |
| WordLengths.AscendingTail | src/main/java/com/synalogik/wordcountproject/WordCount.java:172-175 | The tail of an ascending histogram is ascending and lies above its head. |
| WordLengths.AscendingPrepend | src/main/java/com/synalogik/wordcountproject/WordCount.java:172-175 | An entry shorter than every entry of an ascending histogram can be put in front. |
| WordLengths.WithOccurrencesAscending | src/main/java/com/synalogik/wordcountproject/WordCount.java:172-175 | Grouping keeps encounter order, so a group taken from an ascending histogram is ascending. |
| WordLengths.HistogramOfText | src/main/java/com/synalogik/wordcountproject/WordCount.java:133-176 | For any text, the histogram is non-empty and its counts add up to `countWords`. The lengths of largest count come out ascending. |
| WordLengths.EntriesWithOccurrences | src/main/java/com/synalogik/wordcountproject/WordCount.java:173 | The `toList()` collector for one key keeps only entry objects of the list, and its values are the input's entries with that count, in order. |
| WordLengths.OccurrenceCounts | src/main/java/com/synalogik/wordcountproject/WordCount.java:173 | `getOccurrences` read from each entry object matches the counts of their values. |
| WordLengths.GroupByOccurrences | src/main/java/com/synalogik/wordcountproject/WordCount.java:172-173 | `groupingBy` has one key per count present. Each key holds the entries with that count, in input order. |
| WordLengths.WordLengthMaxOccurringSummary | src/main/java/com/synalogik/wordcountproject/WordCount.java:169-176 | `lastEntry().getValue()` is the group of the largest count: entries of the input, with values exactly `MaxGroup` of the input's values. |
| FileReadUtil.ConstructPath | src/main/java/com/synalogik/wordcountproject/FileReadUtil.java:41-47 | Every constructed path starts with "fileToRead/" and ends with ".txt". |
| FileReadUtil.ConstructPathReadsBack | src/main/java/com/synalogik/wordcountproject/FileReadUtil.java:43-44 | A non-blank path is recovered, untrimmed, from between the directory and the extension. |
| FileReadUtil.ConstructPathInjective | src/main/java/com/synalogik/wordcountproject/FileReadUtil.java:44 | Different non-blank paths construct different file paths. |
| FileReadUtil.ConstructPathDefault | src/main/java/com/synalogik/wordcountproject/FileReadUtil.java:43-46 | A null path, a blank path and "target" all construct "fileToRead/target.txt". |
| FileReadUtil.FileRead | src/main/java/com/synalogik/wordcountproject/FileReadUtil.java:21-30 | A read that succeeds returns the contents unchanged. A failed read returns "Failed to read file: " followed by the path, and that always contains the sentinel the controller tests for. |
| Controller.ReadFailedCases | src/main/java/com/synalogik/wordcountproject/WordCountController.java:49-52 | A failed read is always taken for a failure. A file that was read is taken for one exactly when its own contents hold the sentinel. |
| Controller.WordCountTextReadsBack | src/main/java/com/synalogik/wordcountproject/WordCountController.java:56 | The wordcount output is "Word count = " followed by a decimal number that parses back to `countWords(text)`. |
| Controller.WordLengthsTextPrefix | src/main/java/com/synalogik/wordcountproject/WordCountController.java:110-113 | The output after fewer entries is a prefix of the output after more. |
| Controller.WordLengthsTextStep | src/main/java/com/synalogik/wordcountproject/WordCountController.java:111-112 | Each entry adds its own line, "Number of words of length L is O" plus the separator, at the end. |
| Controller.WordLengthsTextHasLine | src/main/java/com/synalogik/wordcountproject/WordCountController.java:110-113 | Entry i's line sits in the output right after the lines of the entries before it. |
| Controller.FormatWordLengths | src/main/java/com/synalogik/wordcountproject/WordCountController.java:110-113 | The `+=` loop produces exactly one line per entry, in list order. |
| Controller.CommaListHasNoAmpersand | src/main/java/com/synalogik/wordcountproject/WordCountController.java:171-172 | The "L, " pieces never hold an ampersand. |
| Controller.AmpersandListShape | src/main/java/com/synalogik/wordcountproject/WordCountController.java:154-176 | The list of lengths ends with "& " and the last length. Neither the text before it nor the last length holds another '&'. |
| Controller.CommaListStep | src/main/java/com/synalogik/wordcountproject/WordCountController.java:171-172 | A length followed by ", " extends the comma list by that length. |
| Controller.ListSoFarStepComma | src/main/java/com/synalogik/wordcountproject/WordCountController.java:170-172 | Before the second to last position, the loop's piece extends the comma list. |
| Controller.ListSoFarStepSpace | src/main/java/com/synalogik/wordcountproject/WordCountController.java:162-164 | At the second to last position, the piece is the length and a space. |
| Controller.ListSoFarStepAmpersand | src/main/java/com/synalogik/wordcountproject/WordCountController.java:166-168 | At the last position, the piece "& L" completes the list. |
| Controller.ListSoFarStep | src/main/java/com/synalogik/wordcountproject/WordCountController.java:160-175 | Each iteration takes the text from n positions to n + 1. |
| Controller.AppendPieceStep | src/main/java/com/synalogik/wordcountproject/WordCountController.java:160-175 | The `listCount` loop's invariant survives one more iteration. |
| Controller.AppendLengthList | src/main/java/com/synalogik/wordcountproject/WordCountController.java:155-175 | The `listCount` loop appends exactly "L1, ..., L(k-2), L(k-1) & Lk". |
| Controller.FormatMaxOccurring | src/main/java/com/synalogik/wordcountproject/WordCountController.java:142-176 | The rendering follows the three branches: fixed text for an empty list, one sentence for one entry, and otherwise the template, the first entry's count and the ampersand list. |
| Controller.BlankTextHistogram | src/main/java/com/synalogik/wordcountproject/WordCount.java:139-157 | A text without words has the histogram [(0, 1)], from its single empty token. |
| Controller.BlankTextReportsLengthZero | src/main/java/com/synalogik/wordcountproject/WordCountController.java:140-152 | The max group of a text is never empty, so "0 word occurences" is never printed. A text without words reports one word of length 0. |
| Controller.WordCountController.constructor | src/main/java/com/synalogik/wordcountproject/WordCountController.java:35 | The id counter starts at 0. |
| Controller.WordCountController.NextExecutionId | src/main/java/com/synalogik/wordcountproject/WordCountController.java:61 | `incrementAndGet`: the counter goes up by one, and the new value is the id. |
| Controller.WordCountController.Wordcount | src/main/java/com/synalogik/wordcountproject/WordCountController.java:41-62 | The id is one more than the previous call's. The content is the read text, if it contains the sentinel, and "Word count = n" otherwise. |
| Controller.WordCountController.Averagelength | src/main/java/com/synalogik/wordcountproject/WordCountController.java:67-87 | The next id. The content is the read text on failure, and otherwise "Average word length = " followed by the formatted exact average. |
| Controller.WordCountController.Wordlengths | src/main/java/com/synalogik/wordcountproject/WordCountController.java:92-119 | The next id. The content is the read text on failure, and otherwise one line per entry of the reference histogram, ascending by length. |
| Controller.WordCountController.Wordlengthmax | src/main/java/com/synalogik/wordcountproject/WordCountController.java:124-182 | The next id. The content is the read text on failure, and otherwise the sentence for the group of lengths of largest count. |

## Left out

- `WordCountApplication.java` (Spring Boot start-up, the browser launch) is not part of this model. The Spring machinery is left out too: request mapping, `@RequestParam` defaults, `Model.addAttribute`. This is framework I/O; the routes take their parameters directly.
- Reading a real file (`Path.of`, `Files.readString`) is replaced by a map from path to contents; a missing key stands for any `IOException`. An `InvalidPathException` from `Path.of` is not modelled.
- Floating point is left out: the average is the exact real ratio of two integers instead of a `double`. `String.format("%s", double)` is a function parameter whose output is not described.
- The line separator `System.getProperty("line.separator")` is a parameter.
- `AtomicLong` is a plain counter: calls are seen one at a time, and concurrent calls are not modelled.
- Integers are unbounded. A Java `int` count or `long` id would overflow only beyond 2^31 - 1 words or 2^63 - 1 calls; that is not modelled.
- Java's general regular-expression engine is not modelled. Only the fixed patterns the code uses are: the five one-character `replaceAll` patterns and the split on `\s+`.
- Characters are Dafny `char` values, which are Unicode scalar values, while Java's `String.length()` counts UTF-16 units. A character above U+FFFF is therefore one character here and two in Java, so a word such as "😀" has length 1 in the model and 2 in the source; every length, count and average that involves such characters differs accordingly.
- `IsJavaWhitespace` is the Unicode space and separator list as a fixed character predicate; Unicode category lookups are not modelled.
- `Collections.sort` is modelled as an insertion sort that returns a new sequence. Its own merge sort and its in-place update of the `ArrayList` are not modelled. The sequence only orders by `compareTo` and is a permutation; since stability is irrelevant once lengths are distinct, it is not stated.
- The `ArrayList` that `numberOfWordsOfLength` appends to is a `seq` of entry objects that the loop reassigns, not a mutable list object.
- The loops of `averageWordLength` and `numberOfWordsOfLength` are separate methods: `WordCount.SumOfLengths` and `WordLengths.CountWordLengths`.
- WordLengths.WordLengthMaxOccurringSummary: requires a non-empty list. The source throws a `NullPointerException` on an empty one, because `lastEntry()` is null there. Every caller passes a histogram of a text, which is never empty.
- Controller.FormatMaxOccurring: the `wordLengths == null` test is left out. The list is never null.
- Controller.AmpersandListShape: stated for the list of lengths only; the fixed template texts in front of it are not proved free of '&'.
- The concrete test scenarios are not proved as separate facts (for example five words for " Hello I'm  a  ginger     guy"); the general lemmas cover them.
