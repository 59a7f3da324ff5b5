/** NumberOfWordLengthEntry: one distinct word length together with the number of
    words of that length, updated in place while the histogram is built. */
module Entries {

  /** The value an entry holds at one moment: (wordLength, occurrences). */
  datatype LengthCount = LengthCount(wordLength: int, occurrences: int)

  /** Integer.compare, which Integer.compareTo (and so the entry's compareTo) uses:
      -1, 0 or 1 as x is below, equal to or above y. */
  function CompareInts(x: int, y: int): (r: int)
    ensures r == -1 || r == 0 || r == 1
    ensures r < 0 <==> x < y
    ensures r == 0 <==> x == y
    ensures r > 0 <==> x > y
  {
    if x < y then -1 else if x == y then 0 else 1
  }

  class NumberOfWordLengthEntry {
    var wordLength: int
    var occurrences: int

    constructor (wordLength: int, occurrences: int)
      ensures this.wordLength == wordLength && this.occurrences == occurrences
    {
      this.wordLength := wordLength;
      this.occurrences := occurrences;
    }

    /** getWordLength and getOccurrences hand back the fields as they are now. */
    function GetWordLength(): (w: int)
      reads this
      ensures w == Snapshot().wordLength
    {
      wordLength
    }

    function GetOccurrences(): (n: int)
      reads this
      ensures n == Snapshot().occurrences
    {
      occurrences
    }

    method SetWordLength(wordLength: int)
      modifies this
      ensures this.wordLength == wordLength && occurrences == old(occurrences)
    {
      this.wordLength := wordLength;
    }

    method SetOccurrences(occurrences: int)
      modifies this
      ensures this.occurrences == occurrences && wordLength == old(wordLength)
    {
      this.occurrences := occurrences;
    }

    /** compareTo orders entries by word length alone; occurrences play no part. */
    function CompareTo(o: NumberOfWordLengthEntry): (r: int)
      reads this, o
      ensures r < 0 <==> wordLength < o.wordLength
      ensures r == 0 <==> wordLength == o.wordLength
      ensures r > 0 <==> wordLength > o.wordLength
    {
      CompareInts(GetWordLength(), o.GetWordLength())
    }

    function Snapshot(): LengthCount
      reads this
    {
      LengthCount(wordLength, occurrences)
    }
  }

  /** compareTo is a total preorder: reflexive, sign-antisymmetric, transitive and total,
      with two entries tied exactly when their word lengths agree. */
  lemma CompareToIsTotalPreorder(a: NumberOfWordLengthEntry, b: NumberOfWordLengthEntry, c: NumberOfWordLengthEntry)
    ensures a.CompareTo(a) == 0
    ensures a.CompareTo(b) == -b.CompareTo(a)
    ensures a.CompareTo(b) <= 0 && b.CompareTo(c) <= 0 ==> a.CompareTo(c) <= 0
    ensures a.CompareTo(b) <= 0 || b.CompareTo(a) <= 0
    ensures a.CompareTo(b) == 0 <==> a.wordLength == b.wordLength
  {
  }

  /** The values held, in order, by a list of entries. */
  ghost function View(es: seq<NumberOfWordLengthEntry>): (v: seq<LengthCount>)
    reads es
    ensures |v| == |es|
    ensures forall i :: 0 <= i < |es| ==> v[i] == LengthCount(es[i].wordLength, es[i].occurrences)
  {
    if es == [] then [] else [es[0].Snapshot()] + View(es[1..])
  }
}
