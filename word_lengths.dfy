/** numberOfWordsOfLength and wordLengthMaxOccurringSummary: the histogram of word
    lengths, built in place over a list of NumberOfWordLengthEntry objects and then
    sorted by length, and the group of entries whose occurrence count is largest.

    The specification side works on the values the entries hold (LengthCount):
    Tally is what the counting loop has built after each word, LengthHistogram is an
    independent description of the sorted result, and MaxGroup describes the summary. */
module WordLengths {
  import opened JavaLang
  import opened Entries
  import opened WordCount

  // ---------------------------------------------------------------------------
  // Specification: histograms as values
  // ---------------------------------------------------------------------------

  /** The number of words whose length is len. */
  function CountLength(words: seq<string>, len: int): nat {
    if words == [] then 0
    else CountLength(words[..|words| - 1], len) + (if |words[|words| - 1]| == len then 1 else 0)
  }

  lemma CountLengthAppend(words: seq<string>, w: string, len: int)
    ensures CountLength(words + [w], len) == CountLength(words, len) + (if |w| == len then 1 else 0)
  {
    assert (words + [w])[..|words|] == words;
  }

  /** The lengths of the words, in order. */
  function WordLengthsOf(words: seq<string>): (ls: seq<int>)
    ensures |ls| == |words|
    ensures forall p :: 0 <= p < |words| ==> ls[p] == |words[p]|
  {
    seq(|words|, p requires 0 <= p < |words| => |words[p]|)
  }

  /** A length is counted at least once exactly when some word has it. */
  lemma {:induction false} CountLengthPositive(words: seq<string>, len: int)
    ensures CountLength(words, len) >= 1 <==> len in WordLengthsOf(words)
    decreases |words|
  {
    if words != [] {
      var front := words[..|words| - 1];
      CountLengthPositive(front, len);
      assert WordLengthsOf(words) == WordLengthsOf(front) + [|words[|words| - 1]|];
    }
  }

  /** The lengths the entries carry, in order. */
  function Lengths(h: seq<LengthCount>): (ls: seq<int>)
    ensures |ls| == |h|
    ensures forall i :: 0 <= i < |h| ==> ls[i] == h[i].wordLength
  {
    seq(|h|, i requires 0 <= i < |h| => h[i].wordLength)
  }

  predicate DistinctLengths(h: seq<LengthCount>) {
    forall i, j :: 0 <= i < j < |h| ==> h[i].wordLength != h[j].wordLength
  }

  predicate StrictlyAscending(h: seq<LengthCount>) {
    forall i, j :: 0 <= i < j < |h| ==> h[i].wordLength < h[j].wordLength
  }

  /** Every entry counts the words of its length. */
  predicate Counts(h: seq<LengthCount>, words: seq<string>) {
    forall i :: 0 <= i < |h| ==> h[i].occurrences == CountLength(words, h[i].wordLength)
  }

  /** Every word's length has an entry. */
  predicate Covers(h: seq<LengthCount>, words: seq<string>) {
    forall p :: 0 <= p < |words| ==> |words[p]| in Lengths(h)
  }

  /** h is a histogram of the lengths of words: one entry per distinct length, no entry
      for a length that does not occur, each entry counting the words of its length. */
  predicate IsHistogramOf(h: seq<LengthCount>, words: seq<string>) {
    && DistinctLengths(h)
    && Counts(h, words)
    && (forall i :: 0 <= i < |h| ==> h[i].occurrences >= 1)
    && Covers(h, words)
  }

  /** The lengths of a histogram are exactly the lengths of the words. */
  lemma HistogramLengths(h: seq<LengthCount>, words: seq<string>)
    requires IsHistogramOf(h, words)
    ensures forall len :: len in Lengths(h) <==> len in WordLengthsOf(words)
  {
    forall len
      ensures len in Lengths(h) <==> len in WordLengthsOf(words)
    {
      CountLengthPositive(words, len);
      if len in Lengths(h) {
        var i :| 0 <= i < |h| && Lengths(h)[i] == len;
      }
      if len in WordLengthsOf(words) {
        var p :| 0 <= p < |words| && WordLengthsOf(words)[p] == len;
      }
    }
  }

  /** The index of the first entry of length len, or -1 (Java's null) if there is none. */
  function FirstWithLength(h: seq<LengthCount>, len: int): (k: int)
    ensures -1 <= k < |h|
    ensures k >= 0 ==> h[k].wordLength == len && forall j :: 0 <= j < k ==> h[j].wordLength != len
    ensures k == -1 ==> forall j :: 0 <= j < |h| ==> h[j].wordLength != len
  {
    if h == [] then -1
    else if h[0].wordLength == len then 0
    else
      var k := FirstWithLength(h[1..], len);
      assert forall j :: 0 <= j < |h| - 1 ==> h[1..][j] == h[j + 1];
      if k < 0 then -1 else k + 1
  }

  /** No entry has length len exactly when FirstWithLength finds none. */
  lemma FirstWithLengthAbsent(h: seq<LengthCount>, len: int)
    ensures FirstWithLength(h, len) == -1 <==> len !in Lengths(h)
  {
    var k := FirstWithLength(h, len);
    if k >= 0 {
      assert Lengths(h)[k] == len;
    } else {
      assert forall i :: 0 <= i < |h| ==> Lengths(h)[i] != len;
    }
  }

  /** One step of the counting loop: add 1 to the entry of length len, or append (len, 1). */
  function Bump(h: seq<LengthCount>, len: int): seq<LengthCount> {
    var k := FirstWithLength(h, len);
    if k < 0 then h + [LengthCount(len, 1)]
    else h[k := LengthCount(len, h[k].occurrences + 1)]
  }

  /** The entries the counting loop holds after the given words, before the sort. */
  function Tally(words: seq<string>): seq<LengthCount> {
    if words == [] then []
    else Bump(Tally(words[..|words| - 1]), |words[|words| - 1]|)
  }

  /** Counting one more word keeps a histogram a histogram. */
  lemma BumpIsHistogram(h: seq<LengthCount>, words: seq<string>, w: string)
    requires IsHistogramOf(h, words)
    ensures IsHistogramOf(Bump(h, |w|), words + [w])
  {
    var len := |w|;
    var ws := words + [w];
    var k := FirstWithLength(h, len);
    var h' := Bump(h, len);
    forall m
      ensures CountLength(ws, m) == CountLength(words, m) + (if len == m then 1 else 0)
    {
      CountLengthAppend(words, w, m);
    }
    if k < 0 {
      FirstWithLengthAbsent(h, len);
      assert Lengths(h') == Lengths(h) + [len];
      CountLengthPositive(words, len);
      HistogramLengths(h, words);
    } else {
      assert Lengths(h') == Lengths(h);
    }
    assert forall p :: 0 <= p < |words| ==> ws[p] == words[p];
    assert Covers(h', ws);
  }

  /** The counting loop builds a histogram of the words it has seen. */
  lemma {:induction false} TallyIsHistogram(words: seq<string>)
    ensures IsHistogramOf(Tally(words), words)
    decreases |words|
  {
    if words != [] {
      var front := words[..|words| - 1];
      TallyIsHistogram(front);
      BumpIsHistogram(Tally(front), front, words[|words| - 1]);
      assert front + [words[|words| - 1]] == words;
    }
  }

  /** Position of the first word of length len; |words| when there is none. */
  function FirstPosition(words: seq<string>, len: int): (p: nat)
    ensures p <= |words|
    ensures p < |words| ==> |words[p]| == len
    ensures forall q :: 0 <= q < p ==> |words[q]| != len
  {
    if words == [] then 0
    else if |words[0]| == len then 0
    else 1 + FirstPosition(words[1..], len)
  }

  lemma FirstPositionAppend(words: seq<string>, w: string, len: int)
    ensures FirstPosition(words + [w], len) ==
              if FirstPosition(words, len) < |words| then FirstPosition(words, len)
              else if |w| == len then |words| else |words| + 1
  {
    var ws := words + [w];
    var p := FirstPosition(words, len);
    var q := FirstPosition(ws, len);
    assert forall j :: 0 <= j < |words| ==> ws[j] == words[j];
    if p < |words| {
      assert ws[p] == words[p];
    } else {
      assert ws[|words|] == w;
      assert q >= |words|;
    }
  }

  /** A length some word has is a length the histogram carries. */
  lemma FirstPositionPresent(words: seq<string>, h: seq<LengthCount>, len: int)
    requires IsHistogramOf(h, words)
    ensures FirstPosition(words, len) < |words| ==> len in Lengths(h)
  {
    var p := FirstPosition(words, len);
    if p < |words| {
      assert |words[p]| == len;
    }
  }

  /** Before the sort, entries appear in the order in which their lengths first occur. */
  lemma {:induction false} TallyFirstOccurrenceOrder(words: seq<string>)
    ensures forall i :: 0 <= i < |Tally(words)| ==> FirstPosition(words, Tally(words)[i].wordLength) < |words|
    ensures forall i, j :: 0 <= i < j < |Tally(words)| ==>
              FirstPosition(words, Tally(words)[i].wordLength) < FirstPosition(words, Tally(words)[j].wordLength)
    decreases |words|
  {
    if words != [] {
      var front := words[..|words| - 1];
      var w := words[|words| - 1];
      assert words == front + [w];
      TallyFirstOccurrenceOrder(front);
      TallyIsHistogram(front);
      var h := Tally(front);
      var k := FirstWithLength(h, |w|);
      var h' := Tally(words);
      assert h' == Bump(h, |w|);
      forall i | 0 <= i < |h'|
        ensures FirstPosition(words, h'[i].wordLength) == (if i < |h| then FirstPosition(front, h[i].wordLength) else |front|)
      {
        FirstPositionAppend(front, w, h'[i].wordLength);
        if i < |h| {
          assert h'[i].wordLength == h[i].wordLength;
        } else {
          FirstPositionPresent(front, h, |w|);
        }
      }
    }
  }

  /** The occurrences of the entries, added up. */
  function SumOccurrences(h: seq<LengthCount>): int {
    if h == [] then 0 else SumOccurrences(h[..|h| - 1]) + h[|h| - 1].occurrences
  }

  /** The words whose length is not len, in order. */
  function WithoutLength(words: seq<string>, len: int): (r: seq<string>)
    ensures |r| + CountLength(words, len) == |words|
    ensures forall m :: m != len ==> CountLength(r, m) == CountLength(words, m)
    ensures forall m :: m in WordLengthsOf(r) <==> m in WordLengthsOf(words) && m != len
  {
    if words == [] then []
    else
      var front := words[..|words| - 1];
      var w := words[|words| - 1];
      var rest := WithoutLength(front, len);
      assert WordLengthsOf(words) == WordLengthsOf(front) + [|w|];
      if |w| == len then rest
      else
        assert (rest + [w])[..|rest|] == rest;
        assert WordLengthsOf(rest + [w]) == WordLengthsOf(rest) + [|w|];
        rest + [w]
  }

  /** With no entries there are no words. */
  lemma EmptyHistogram(h: seq<LengthCount>, words: seq<string>)
    requires Covers(h, words)
    ensures words != [] ==> h != []
  {
    if words != [] {
      assert |words[0]| in Lengths(h);
    }
  }

  /** In any histogram of the words the occurrences add up to the number of words. */
  lemma {:induction false} HistogramTotal(h: seq<LengthCount>, words: seq<string>)
    requires IsHistogramOf(h, words)
    ensures SumOccurrences(h) == |words|
    decreases |h|
  {
    EmptyHistogram(h, words);
    if h != [] {
      var last := h[|h| - 1];
      var front := h[..|h| - 1];
      var rest := WithoutLength(words, last.wordLength);
      HistogramLengths(h, words);
      assert Lengths(h) == Lengths(front) + [last.wordLength];
      forall p | 0 <= p < |rest|
        ensures |rest[p]| in Lengths(front)
      {
        assert WordLengthsOf(rest)[p] == |rest[p]|;
        assert |rest[p]| in Lengths(h);
      }
      assert IsHistogramOf(front, rest);
      HistogramTotal(front, rest);
    }
  }

  // ---------------------------------------------------------------------------
  // An independent description of the sorted histogram
  // ---------------------------------------------------------------------------

  predicate Increasing(xs: seq<int>) {
    forall i, j :: 0 <= i < j < |xs| ==> xs[i] < xs[j]
  }

  /** The tail of an increasing sequence is increasing and above its head. */
  lemma TailIncreasing(xs: seq<int>)
    requires xs != [] && Increasing(xs)
    ensures Increasing(xs[1..])
    ensures forall y :: y in xs[1..] ==> xs[0] < y
  {
    assert forall i :: 0 <= i < |xs| - 1 ==> xs[1..][i] == xs[i + 1];
  }

  lemma PrependIncreasing(x: int, rest: seq<int>)
    requires Increasing(rest)
    requires forall y :: y in rest ==> x < y
    ensures Increasing([x] + rest)
  {
    var r := [x] + rest;
    assert forall i :: 1 <= i < |r| ==> r[i] == rest[i - 1] && r[i] in rest;
  }

  /** Insert v into an increasing sequence, unless it is already there. */
  function InsertIncreasing(xs: seq<int>, v: int): (r: seq<int>)
    requires Increasing(xs)
    ensures Increasing(r)
    ensures forall x :: x in r <==> x in xs || x == v
  {
    if xs == [] then [v]
    else if v < xs[0] then [v] + xs
    else if v == xs[0] then xs
    else
      TailIncreasing(xs);
      var rest := InsertIncreasing(xs[1..], v);
      PrependIncreasing(xs[0], rest);
      assert xs == [xs[0]] + xs[1..];
      [xs[0]] + rest
  }

  /** The distinct elements of xs, in increasing order. */
  function DistinctIncreasing(xs: seq<int>): (r: seq<int>)
    ensures Increasing(r)
    ensures forall x :: x in r <==> x in xs
  {
    if xs == [] then []
    else
      var rest := DistinctIncreasing(xs[..|xs| - 1]);
      assert xs == xs[..|xs| - 1] + [xs[|xs| - 1]];
      InsertIncreasing(rest, xs[|xs| - 1])
  }

  /** What the sorted histogram is meant to be: for each length that occurs, in
      increasing order, that length and the number of words having it. */
  function LengthHistogram(words: seq<string>): (h: seq<LengthCount>)
    ensures words != [] ==> h != []
  {
    var ls := DistinctIncreasing(WordLengthsOf(words));
    assert words != [] ==> WordLengthsOf(words)[0] in ls;
    seq(|ls|, i requires 0 <= i < |ls| => LengthCount(ls[i], CountLength(words, ls[i])))
  }

  /** LengthHistogram is itself a histogram of the words, sorted strictly by length. */
  lemma LengthHistogramIsHistogram(words: seq<string>)
    ensures IsHistogramOf(LengthHistogram(words), words)
    ensures StrictlyAscending(LengthHistogram(words))
  {
    var h := LengthHistogram(words);
    var ls := DistinctIncreasing(WordLengthsOf(words));
    assert Lengths(h) == ls;
    forall i | 0 <= i < |h|
      ensures h[i].occurrences >= 1
    {
      CountLengthPositive(words, ls[i]);
    }
    forall p | 0 <= p < |words|
      ensures |words[p]| in Lengths(h)
    {
      assert WordLengthsOf(words)[p] == |words[p]|;
    }
  }

  lemma NonEmptyTogether(xs: seq<int>, ys: seq<int>)
    requires forall x :: x in xs <==> x in ys
    ensures xs != [] <==> ys != []
  {
    if xs != [] {
      var a := xs[0];
      assert a in xs;
      assert a in ys;
    }
    if ys != [] {
      var b := ys[0];
      assert b in ys;
      assert b in xs;
    }
  }

  /** Two increasing sequences with the same elements are equal. */
  lemma {:induction false} IncreasingUnique(xs: seq<int>, ys: seq<int>)
    requires Increasing(xs) && Increasing(ys)
    requires forall x :: x in xs <==> x in ys
    ensures xs == ys
    decreases |xs|
  {
    NonEmptyTogether(xs, ys);
    if xs != [] {
      assert xs[0] in ys && ys[0] in xs;
      assert xs[0] == ys[0];
      forall x
        ensures x in xs[1..] <==> x in ys[1..]
      {
        if x in xs[1..] {
          assert x in ys && x != ys[0];
        }
        if x in ys[1..] {
          assert x in xs && x != xs[0];
        }
      }
      IncreasingUnique(xs[1..], ys[1..]);
      assert xs == [xs[0]] + xs[1..] && ys == [ys[0]] + ys[1..];
    }
  }

  /** A histogram sorted strictly by length is the one LengthHistogram describes. */
  lemma SortedHistogramUnique(h: seq<LengthCount>, words: seq<string>)
    requires IsHistogramOf(h, words) && StrictlyAscending(h)
    ensures h == LengthHistogram(words)
  {
    HistogramLengths(h, words);
    var ls := DistinctIncreasing(WordLengthsOf(words));
    IncreasingUnique(Lengths(h), ls);
    var r := LengthHistogram(words);
    assert |h| == |Lengths(h)| == |ls| == |r|;
    forall i | 0 <= i < |h|
      ensures h[i] == r[i]
    {
      assert Lengths(h)[i] == ls[i];
    }
  }

  // ---------------------------------------------------------------------------
  // numberOfWordsOfLength
  // ---------------------------------------------------------------------------

  /** The stream().filter(length matches).findFirst() search: the index of the first
      entry of the given length, -1 for orElse(null). */
  function FindFirstByLength(list: seq<NumberOfWordLengthEntry>, len: int): (k: int)
    reads list
    ensures k == FirstWithLength(View(list), len)
  {
    if list == [] then -1
    else if list[0].GetWordLength() == len then 0
    else
      var k := FindFirstByLength(list[1..], len);
      assert View(list)[1..] == View(list[1..]);
      if k < 0 then -1 else k + 1
  }

  /** No two entries of the list are the same object. */
  predicate DistinctObjects(list: seq<NumberOfWordLengthEntry>) {
    forall i, j :: 0 <= i < j < |list| ==> list[i] != list[j]
  }

  /** The body of the counting loop for one word of length len: the matching entry's
      occurrences are raised by one in place, or a new entry (len, 1) is appended. */
  method CountWord(list: seq<NumberOfWordLengthEntry>, len: int) returns (result: seq<NumberOfWordLengthEntry>)
    requires DistinctObjects(list)
    modifies set e | e in list
    ensures DistinctObjects(result)
    ensures forall e :: e in result ==> e in list || fresh(e)
    ensures View(result) == Bump(old(View(list)), len)
  {
    ghost var before := View(list);
    var k := FindFirstByLength(list, len);
    assert k == FirstWithLength(before, len);
    if k < 0 {
      var entry := new NumberOfWordLengthEntry(len, 1);
      result := list + [entry];
      ghost var after := before + [LengthCount(len, 1)];
      assert Bump(before, len) == after;
      forall i | 0 <= i < |result|
        ensures View(result)[i] == after[i]
      {
        if i < |list| {
          assert result[i] == list[i];
        }
      }
      assert View(result) == after;
    } else {
      var entry := list[k];
      ghost var after := before[k := LengthCount(len, before[k].occurrences + 1)];
      assert Bump(before, len) == after;
      entry.SetOccurrences(entry.GetOccurrences() + 1);
      result := list;
      forall i | 0 <= i < |result|
        ensures View(result)[i] == after[i]
      {
        if i != k {
          assert list[i] != entry;
        }
      }
      assert View(result) == after;
    }
  }

  /** The entries are ordered by word length without descending. */
  predicate SortedByLength(list: seq<NumberOfWordLengthEntry>)
    reads list
  {
    forall i, j :: 0 <= i < j < |list| ==> list[i].wordLength <= list[j].wordLength
  }

  /** No two entries carry the same length. */
  predicate DistinctEntryLengths(list: seq<NumberOfWordLengthEntry>)
    reads list
  {
    forall i, j :: 0 <= i < j < |list| ==> list[i].wordLength != list[j].wordLength
  }

  /** Placing x between the two halves of a list sorted by length, where everything
      before is not longer and everything after is longer, keeps the list sorted. */
  lemma InsertionSorted(sorted: seq<NumberOfWordLengthEntry>, j: nat, x: NumberOfWordLengthEntry)
    requires j <= |sorted| && SortedByLength(sorted)
    requires j > 0 ==> sorted[j - 1].wordLength <= x.wordLength
    requires forall k :: j <= k < |sorted| ==> sorted[k].wordLength > x.wordLength
    ensures SortedByLength(sorted[..j] + [x] + sorted[j..])
  {
    var r := sorted[..j] + [x] + sorted[j..];
    assert forall k :: 0 <= k < j ==> r[k] == sorted[k];
    assert forall k :: j < k < |r| ==> r[k] == sorted[k - 1];
  }

  /** The same, for distinct lengths: if x's length is new, the lengths stay distinct. */
  lemma InsertionDistinct(sorted: seq<NumberOfWordLengthEntry>, j: nat, x: NumberOfWordLengthEntry)
    requires j <= |sorted| && DistinctEntryLengths(sorted)
    requires forall e :: e in sorted ==> e.wordLength != x.wordLength
    ensures DistinctEntryLengths(sorted[..j] + [x] + sorted[j..])
  {
    var r := sorted[..j] + [x] + sorted[j..];
    assert forall k :: 0 <= k < j ==> r[k] == sorted[k];
    assert forall k :: j < k < |r| ==> r[k] == sorted[k - 1];
    assert forall k :: 0 <= k < |sorted| ==> sorted[k] in sorted;
  }

  /** Inserting x anywhere adds exactly x to the contents. */
  lemma InsertionContents(s: seq<NumberOfWordLengthEntry>, j: nat, x: NumberOfWordLengthEntry)
    requires j <= |s|
    ensures multiset(s[..j] + [x] + s[j..]) == multiset(s) + multiset{x}
    ensures forall e :: e in s[..j] + [x] + s[j..] <==> e in s || e == x
  {
    assert s == s[..j] + s[j..];
  }

  /** One insertion step of the sort: x goes after every entry that compareTo does not
      place above it. */
  method InsertByLength(sorted: seq<NumberOfWordLengthEntry>, x: NumberOfWordLengthEntry)
    returns (r: seq<NumberOfWordLengthEntry>)
    requires SortedByLength(sorted)
    ensures multiset(r) == multiset(sorted) + multiset{x}
    ensures forall e :: e in r <==> e in sorted || e == x
    ensures SortedByLength(r)
    ensures DistinctEntryLengths(sorted) && (forall e :: e in sorted ==> e.wordLength != x.wordLength) ==>
              DistinctEntryLengths(r)
  {
    var j := |sorted|;
    while j > 0 && sorted[j - 1].CompareTo(x) > 0
      invariant 0 <= j <= |sorted|
      invariant forall k :: j <= k < |sorted| ==> sorted[k].wordLength > x.wordLength
    {
      j := j - 1;
    }
    InsertionSorted(sorted, j, x);
    if DistinctEntryLengths(sorted) && (forall e :: e in sorted ==> e.wordLength != x.wordLength) {
      InsertionDistinct(sorted, j, x);
    }
    InsertionContents(sorted, j, x);
    r := sorted[..j] + [x] + sorted[j..];
  }

  /** Collections.sort by compareTo: the result holds the same entries, ordered by word
      length, and strictly so when no two entries share a length. */
  method SortByWordLength(list: seq<NumberOfWordLengthEntry>) returns (sorted: seq<NumberOfWordLengthEntry>)
    ensures multiset(sorted) == multiset(list)
    ensures forall e :: e in sorted <==> e in list
    ensures SortedByLength(sorted)
    ensures DistinctEntryLengths(list) ==> DistinctEntryLengths(sorted)
  {
    sorted := [];
    for n := 0 to |list|
      invariant multiset(sorted) == multiset(list[..n])
      invariant forall e :: e in sorted <==> e in list[..n]
      invariant SortedByLength(sorted)
      invariant DistinctEntryLengths(list) ==> DistinctEntryLengths(sorted)
    {
      assert list[..n + 1] == list[..n] + [list[n]];
      if DistinctEntryLengths(list) {
        forall e | e in sorted
          ensures e.wordLength != list[n].wordLength
        {
          var p :| 0 <= p < n && list[p] == e;
        }
      }
      sorted := InsertByLength(sorted, list[n]);
    }
    assert list[..|list|] == list;
  }

  /** After the sort the entries hold the same histogram, now ascending, so it is the
      one LengthHistogram describes. */
  lemma SortedTallyIsLengthHistogram(list: seq<NumberOfWordLengthEntry>, sorted: seq<NumberOfWordLengthEntry>, words: seq<string>)
    requires IsHistogramOf(View(list), words)
    requires forall e :: e in sorted <==> e in list
    requires SortedByLength(sorted) && DistinctEntryLengths(sorted)
    ensures View(sorted) == LengthHistogram(words)
  {
    SortedEntriesCount(list, sorted, words);
    SortedEntriesCover(list, sorted, words);
    SortedEntriesAscend(sorted);
    SortedHistogramUnique(View(sorted), words);
  }

  /** Entries taken from a histogram still count the words of their lengths. */
  lemma SortedEntriesCount(list: seq<NumberOfWordLengthEntry>, sorted: seq<NumberOfWordLengthEntry>, words: seq<string>)
    requires IsHistogramOf(View(list), words)
    requires forall e :: e in sorted ==> e in list
    ensures Counts(View(sorted), words)
    ensures forall i :: 0 <= i < |sorted| ==> View(sorted)[i].occurrences >= 1
  {
    var h := View(list);
    var s := View(sorted);
    forall i | 0 <= i < |s|
      ensures s[i].occurrences == CountLength(words, s[i].wordLength) && s[i].occurrences >= 1
    {
      assert sorted[i] in list;
      var p :| 0 <= p < |list| && list[p] == sorted[i];
      assert s[i] == h[p];
    }
  }

  /** Entries holding every entry of a histogram still cover every word. */
  lemma SortedEntriesCover(list: seq<NumberOfWordLengthEntry>, sorted: seq<NumberOfWordLengthEntry>, words: seq<string>)
    requires Covers(View(list), words)
    requires forall e :: e in list ==> e in sorted
    ensures Covers(View(sorted), words)
  {
    var h := View(list);
    var s := View(sorted);
    forall q | 0 <= q < |words|
      ensures |words[q]| in Lengths(s)
    {
      var p :| 0 <= p < |h| && Lengths(h)[p] == |words[q]|;
      assert list[p] in sorted;
      var i :| 0 <= i < |sorted| && sorted[i] == list[p];
      assert Lengths(s)[i] == |words[q]|;
    }
  }

  /** Sorted by length with no length twice: strictly ascending. */
  lemma SortedEntriesAscend(sorted: seq<NumberOfWordLengthEntry>)
    requires SortedByLength(sorted) && DistinctEntryLengths(sorted)
    ensures StrictlyAscending(View(sorted)) && DistinctLengths(View(sorted))
  {
  }

  /** The counting loop of numberOfWordsOfLength: every word bumps the entry of its
      length, so the entries, in order, are the tally of the words. */
  method CountWordLengths(words: seq<string>) returns (list: seq<NumberOfWordLengthEntry>)
    ensures forall e :: e in list ==> fresh(e)
    ensures DistinctObjects(list)
    ensures View(list) == Tally(words)
  {
    list := [];
    for n := 0 to |words|
      invariant forall e :: e in list ==> fresh(e)
      invariant DistinctObjects(list)
      invariant View(list) == Tally(words[..n])
    {
      assert words[..n + 1][..n] == words[..n];
      list := CountWord(list, |words[n]|);
    }
    assert words[..|words|] == words;
  }

  /** numberOfWordsOfLength: one pass over the words that finds the entry of each word's
      length and adds one to it in place, or appends a new entry (length, 1); then the
      list is sorted.  The result is exactly the sorted histogram of the word lengths,
      with no entry object twice. */
  method NumberOfWordsOfLength(input: string) returns (entries: seq<NumberOfWordLengthEntry>)
    ensures DistinctObjects(entries)
    ensures View(entries) == LengthHistogram(SeparateWords(input))
  {
    var words := SeparateWords(input);
    var list := CountWordLengths(words);
    TallyIsHistogram(words);
    assert DistinctEntryLengths(list);
    entries := SortByWordLength(list);
    SortedTallyIsLengthHistogram(list, entries, words);
  }

  // ---------------------------------------------------------------------------
  // wordLengthMaxOccurringSummary
  // ---------------------------------------------------------------------------

  /** The largest element of a non-empty sequence. */
  function MaxOf(xs: seq<int>): (m: int)
    requires xs != []
    ensures m in xs
    ensures forall i :: 0 <= i < |xs| ==> xs[i] <= m
  {
    if |xs| == 1 then xs[0]
    else
      var m := MaxOf(xs[1..]);
      assert forall i :: 1 <= i < |xs| ==> xs[i] == xs[1..][i - 1];
      if xs[0] > m then xs[0] else m
  }

  /** The occurrence counts of the entries, in order. */
  function OccurrencesOf(h: seq<LengthCount>): (ks: seq<int>)
    ensures |ks| == |h|
    ensures forall i :: 0 <= i < |h| ==> ks[i] == h[i].occurrences
  {
    seq(|h|, i requires 0 <= i < |h| => h[i].occurrences)
  }

  /** The entries whose occurrence count is k, in the order of h. */
  function WithOccurrences(h: seq<LengthCount>, k: int): (r: seq<LengthCount>)
    ensures forall e :: e in r <==> e in h && e.occurrences == k
  {
    if h == [] then []
    else
      var rest := WithOccurrences(h[1..], k);
      assert h == [h[0]] + h[1..];
      if h[0].occurrences == k then [h[0]] + rest else rest
  }

  /** What the summary is meant to be: the entries sharing the largest occurrence
      count, in their original order. */
  function MaxGroup(h: seq<LengthCount>): seq<LengthCount>
    requires h != []
  {
    WithOccurrences(h, MaxOf(OccurrencesOf(h)))
  }

  /** The summary of a non-empty list is non-empty, every entry in it has the largest
      count, and every entry of that count is in it. */
  lemma MaxGroupProperties(h: seq<LengthCount>)
    requires h != []
    ensures MaxGroup(h) != []
    ensures forall e :: e in MaxGroup(h) ==> e in h && forall f :: f in h ==> f.occurrences <= e.occurrences
    ensures forall e :: e in h && (forall f :: f in h ==> f.occurrences <= e.occurrences) ==> e in MaxGroup(h)
  {
    var ks := OccurrencesOf(h);
    var m := MaxOf(ks);
    var i :| 0 <= i < |ks| && ks[i] == m;
    assert h[i] in MaxGroup(h);
    forall f | f in h
      ensures f.occurrences <= m
    {
      var j :| 0 <= j < |h| && h[j] == f;
      assert ks[j] in ks;
    }
    forall e | e in h && (forall f :: f in h ==> f.occurrences <= e.occurrences)
      ensures e in MaxGroup(h)
    {
      var j :| 0 <= j < |h| && h[j] == e;
      assert ks[j] in ks;
      assert h[i] in h;
    }
  }

  /** The tail of an ascending histogram is ascending and lies above its head. */
  lemma AscendingTail(h: seq<LengthCount>)
    requires h != [] && StrictlyAscending(h)
    ensures StrictlyAscending(h[1..])
    ensures forall e :: e in h[1..] ==> h[0].wordLength < e.wordLength
  {
    var tail := h[1..];
    assert forall i :: 0 <= i < |tail| ==> tail[i] == h[i + 1];
  }

  /** An entry below every entry of an ascending histogram can be put in front. */
  lemma AscendingPrepend(x: LengthCount, rest: seq<LengthCount>)
    requires StrictlyAscending(rest)
    requires forall e :: e in rest ==> x.wordLength < e.wordLength
    ensures StrictlyAscending([x] + rest)
  {
    var r := [x] + rest;
    assert forall i :: 1 <= i < |r| ==> r[i] == rest[i - 1] && r[i] in rest;
  }

  /** Selecting by occurrence count keeps the order: from an ascending histogram the
      selected entries come out ascending too. */
  lemma {:induction false} WithOccurrencesAscending(h: seq<LengthCount>, k: int)
    requires StrictlyAscending(h)
    ensures StrictlyAscending(WithOccurrences(h, k))
    decreases |h|
  {
    if h != [] {
      AscendingTail(h);
      WithOccurrencesAscending(h[1..], k);
      if h[0].occurrences == k {
        AscendingPrepend(h[0], WithOccurrences(h[1..], k));
      }
    }
  }

  /** For any text: the histogram is never empty, its counts add up to the word count,
      and the lengths of largest count come out in ascending order. */
  lemma HistogramOfText(input: string)
    ensures LengthHistogram(SeparateWords(input)) != []
    ensures SumOccurrences(LengthHistogram(SeparateWords(input))) == CountWords(input)
    ensures StrictlyAscending(MaxGroup(LengthHistogram(SeparateWords(input))))
  {
    var words := SeparateWords(input);
    var h := LengthHistogram(words);
    LengthHistogramIsHistogram(words);
    HistogramTotal(h, words);
    WithOccurrencesAscending(h, MaxOf(OccurrencesOf(h)));
  }

  /** The entries of es whose occurrence count is k, in encounter order (the toList()
      downstream collector). */
  function EntriesWithOccurrences(es: seq<NumberOfWordLengthEntry>, k: int): (r: seq<NumberOfWordLengthEntry>)
    reads es
    ensures forall e :: e in r ==> e in es
    ensures View(r) == WithOccurrences(View(es), k)
  {
    if es == [] then []
    else
      var rest := EntriesWithOccurrences(es[1..], k);
      assert View(es)[1..] == View(es[1..]);
      if es[0].occurrences == k then
        assert ([es[0]] + rest)[1..] == rest;
        [es[0]] + rest
      else rest
  }

  /** The occurrence counts of the entry objects, in order. */
  function OccurrenceCounts(es: seq<NumberOfWordLengthEntry>): (ks: seq<int>)
    reads es
    ensures ks == OccurrencesOf(View(es))
  {
    seq(|es|, i reads es requires 0 <= i < |es| => es[i].GetOccurrences())
  }

  /** Collectors.groupingBy(getOccurrences, TreeMap::new, toList()): one key per
      occurrence count present, holding the entries with that count. */
  function GroupByOccurrences(es: seq<NumberOfWordLengthEntry>): (groups: map<int, seq<NumberOfWordLengthEntry>>)
    reads es
    ensures forall k :: k in groups <==> k in OccurrencesOf(View(es))
    ensures forall k :: k in groups ==> View(groups[k]) == WithOccurrences(View(es), k)
  {
    var ks := OccurrenceCounts(es);
    map k | k in ks :: EntriesWithOccurrences(es, k)
  }

  /** wordLengthMaxOccurringSummary: the group under the largest key (TreeMap.lastEntry)
      after grouping by occurrences.  These are entries of es, and they are exactly the
      entries of the largest occurrence count, in input order.  For an empty list the
      source calls getValue() on a null lastEntry() and throws; that case is excluded. */
  function WordLengthMaxOccurringSummary(es: seq<NumberOfWordLengthEntry>): (r: seq<NumberOfWordLengthEntry>)
    requires es != []
    reads es
    ensures forall e :: e in r ==> e in es
    ensures View(r) == MaxGroup(View(es))
  {
    var groups := GroupByOccurrences(es);
    var top := MaxOf(OccurrenceCounts(es));
    groups[top]
  }
}
