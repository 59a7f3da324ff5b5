/** The few pieces of the Java standard library that the word-count service leans on,
    stated over Dafny strings: the three different notions of "white space" that
    String.trim, the regular-expression class \s and Character.isWhitespace use,
    String.trim itself, String.contains, String.replaceAll with a one-character
    literal pattern, Pattern.compile("\\s+").split(...) and Integer.toString. */
module JavaLang {

  datatype Option<T> = None | Some(value: T)

  // ---------------------------------------------------------------------------
  // Character classes (kept distinct on purpose: the source mixes all three)
  // ---------------------------------------------------------------------------

  /** The characters String.trim() removes at both ends: every code unit <= U+0020. */
  predicate IsTrimmable(c: char) {
    c <= ' '
  }

  /** The regular-expression class \s without UNICODE_CHARACTER_CLASS: [ \t\n\x0B\f\r]. */
  predicate IsRegexSpace(c: char) {
    c == ' ' || c == '\t' || c == '\n' || c == '\U{0B}' || c == '\U{0C}' || c == '\r'
  }

  /** Character.isWhitespace: the space, line and paragraph separators of Unicode other
      than the non-breaking ones (U+00A0, U+2007, U+202F), plus U+0009..U+000D and
      U+001C..U+001F.  Used by String.isBlank. */
  predicate IsJavaWhitespace(c: char) {
    ('\t' <= c <= '\r') || ('\U{1C}' <= c <= ' ')
    || c == '\U{1680}'
    || ('\U{2000}' <= c <= '\U{2006}') || ('\U{2008}' <= c <= '\U{200A}')
    || c == '\U{2028}' || c == '\U{2029}' || c == '\U{205F}' || c == '\U{3000}'
  }

  /** Every \s character is one that trim() removes. */
  lemma RegexSpaceIsTrimmable(c: char)
    ensures IsRegexSpace(c) ==> IsTrimmable(c)
  {
  }

  // ---------------------------------------------------------------------------
  // String.trim and String.isBlank
  // ---------------------------------------------------------------------------

  /** trim()'s first loop: the index of the first character above U+0020 from i on. */
  function TrimStartIndex(s: string, i: nat): (st: nat)
    requires i <= |s|
    ensures i <= st <= |s|
    ensures forall k :: i <= k < st ==> IsTrimmable(s[k])
    ensures st == |s| || !IsTrimmable(s[st])
    decreases |s| - i
  {
    if i < |s| && IsTrimmable(s[i]) then TrimStartIndex(s, i + 1) else i
  }

  /** trim()'s second loop: shrink len while the character before it is <= U+0020. */
  function TrimEndIndex(s: string, st: nat, len: nat): (end: nat)
    requires st <= len <= |s|
    ensures st <= end <= len
    ensures forall k :: end <= k < len ==> IsTrimmable(s[k])
    ensures end == st || !IsTrimmable(s[end - 1])
  {
    if st < len && IsTrimmable(s[len - 1]) then TrimEndIndex(s, st, len - 1) else len
  }

  /** String.trim(): the infix of s left once every character <= U+0020 is removed
      from both ends.  It neither starts nor ends with such a character, so it is the
      longest such infix; it is empty exactly when every character of s is one. */
  function Trim(s: string): (r: string)
    ensures r == [] || (!IsTrimmable(r[0]) && !IsTrimmable(r[|r| - 1]))
    ensures forall c :: c in r ==> c in s
    ensures r == [] <==> forall k :: 0 <= k < |s| ==> IsTrimmable(s[k])
    ensures IsTrimmedInfix(r, s)
  {
    var st := TrimStartIndex(s, 0);
    var end := TrimEndIndex(s, st, |s|);
    TrimmedSlice(s, st, end);
    s[st..end]
  }

  /** The slice between trim()'s two scans has every property Trim promises. */
  lemma TrimmedSlice(s: string, st: nat, end: nat)
    requires st <= end <= |s|
    requires forall k :: 0 <= k < st ==> IsTrimmable(s[k])
    requires forall k :: end <= k < |s| ==> IsTrimmable(s[k])
    requires st == |s| || !IsTrimmable(s[st])
    requires end == st || !IsTrimmable(s[end - 1])
    ensures var r := s[st..end];
      (r == [] || (!IsTrimmable(r[0]) && !IsTrimmable(r[|r| - 1]))) &&
      (forall c :: c in r ==> c in s) &&
      (r == [] <==> forall k :: 0 <= k < |s| ==> IsTrimmable(s[k])) &&
      IsTrimmedInfix(r, s)
  {
    TrimKeeps(s, st, end);
    TrimDrops(s, st, end);
  }

  /** r is s with some characters <= U+0020 removed from its front and its end. */
  ghost predicate IsTrimmedInfix(r: string, s: string) {
    exists pre, post :: s == pre + r + post &&
      (forall c :: c in pre ==> IsTrimmable(c)) && (forall c :: c in post ==> IsTrimmable(c))
  }

  /** What trim()'s two scans keep: the characters from st up to end. */
  lemma TrimKeeps(s: string, st: nat, end: nat)
    requires st <= end <= |s|
    requires forall k :: 0 <= k < st ==> IsTrimmable(s[k])
    requires forall k :: end <= k < |s| ==> IsTrimmable(s[k])
    requires st == |s| || !IsTrimmable(s[st])
    requires end == st || !IsTrimmable(s[end - 1])
    ensures s[st..end] == [] || (!IsTrimmable(s[st..end][0]) && !IsTrimmable(s[st..end][end - st - 1]))
    ensures forall c :: c in s[st..end] ==> c in s
    ensures s[st..end] == [] <==> forall k :: 0 <= k < |s| ==> IsTrimmable(s[k])
  {
    assert forall k :: st <= k < end ==> s[k] == s[st..end][k - st];
  }

  /** What they drop: the characters before st and from end on, all <= U+0020. */
  lemma TrimDrops(s: string, st: nat, end: nat)
    requires st <= end <= |s|
    requires forall k :: 0 <= k < st ==> IsTrimmable(s[k])
    requires forall k :: end <= k < |s| ==> IsTrimmable(s[k])
    ensures IsTrimmedInfix(s[st..end], s)
  {
    var pre, post := s[..st], s[end..];
    assert s == pre + s[st..end] + post;
    assert forall k :: 0 <= k < |pre| ==> pre[k] == s[k];
    assert forall k :: 0 <= k < |post| ==> post[k] == s[end + k];
  }

  /** String.isBlank(): empty, or made only of Character.isWhitespace characters. */
  predicate IsBlank(s: string) {
    forall c :: c in s ==> IsJavaWhitespace(c)
  }

  /** isBlank is the narrower test: on characters below U+0080, a blank text trims to
      the empty text. */
  lemma BlankTrimsToEmpty(s: string)
    requires forall c :: c in s ==> c < '\U{80}'
    ensures IsBlank(s) ==> Trim(s) == []
  {
    if IsBlank(s) {
      assert forall k :: 0 <= k < |s| ==> s[k] in s;
    }
  }

  /** The converse fails: U+0000 is removed by trim() but is not Character.isWhitespace,
      so the two tests differ even on characters below U+0080. */
  lemma TrimmedAwayButNotBlank()
    ensures Trim("\U{0}") == [] && !IsBlank("\U{0}")
  {
    assert "\U{0}"[0] == '\U{0}';
    assert '\U{0}' in "\U{0}" && !IsJavaWhitespace('\U{0}');
  }

  // ---------------------------------------------------------------------------
  // String.contains, String.replaceAll with a single literal character
  // ---------------------------------------------------------------------------

  /** String.contains: pattern occurs somewhere in text as a contiguous piece. */
  predicate Contains(text: string, pattern: string)
    decreases |text|
  {
    pattern <= text || (text != [] && Contains(text[1..], pattern))
  }

  /** Contains agrees with the "there is an offset where pattern sits" reading. */
  lemma {:induction false} ContainsAt(text: string, pattern: string, i: nat)
    requires i + |pattern| <= |text| && text[i..i + |pattern|] == pattern
    ensures Contains(text, pattern)
    decreases i
  {
    if i == 0 {
      assert pattern <= text;
    } else {
      assert text[1..][i - 1..i - 1 + |pattern|] == pattern;
      ContainsAt(text[1..], pattern, i - 1);
    }
  }

  /** And conversely: when contains holds, the pattern sits at some offset of the text. */
  lemma {:induction false} ContainsFound(text: string, pattern: string)
    requires Contains(text, pattern)
    ensures exists i :: 0 <= i <= |text| && pattern <= text[i..]
    decreases |text|
  {
    if pattern <= text {
      assert text[0..] == text;
    } else {
      ContainsFound(text[1..], pattern);
      var i :| 0 <= i <= |text[1..]| && pattern <= text[1..][i..];
      assert text[1..][i..] == text[i + 1..];
    }
  }

  /** `s.replaceAll("\\" + c, "")` for a single literal character c: every occurrence
      of c goes, every other character stays as often as it was there. */
  function RemoveAll(s: string, c: char): (r: string)
    ensures multiset(r) == multiset(s)[c := 0]
    ensures |r| <= |s|
    ensures forall x :: x in r <==> x in s && x != c
  {
    if s == [] then []
    else
      assert s == [s[0]] + s[1..];
      if s[0] == c then RemoveAll(s[1..], c)
      else [s[0]] + RemoveAll(s[1..], c)
  }

  /** The removal works piece by piece, so the remaining characters keep their order. */
  lemma {:induction false} RemoveAllAppend(a: string, b: string, c: char)
    ensures RemoveAll(a + b, c) == RemoveAll(a, c) + RemoveAll(b, c)
    decreases |a|
  {
    if a == [] {
      assert a + b == b;
    } else {
      assert (a + b)[0] == a[0] && (a + b)[1..] == a[1..] + b;
      RemoveAllAppend(a[1..], b, c);
    }
  }

  // ---------------------------------------------------------------------------
  // Pattern.compile("\\s+").split(t)
  // ---------------------------------------------------------------------------

  /** The longest suffix of t that does not start with a \s character. */
  function DropSpaces(t: string): (r: string)
    ensures |r| <= |t| && r == t[|t| - |r|..]
    ensures r == [] || !IsRegexSpace(r[0])
    ensures forall k :: 0 <= k < |t| - |r| ==> IsRegexSpace(t[k])
  {
    if t != [] && IsRegexSpace(t[0]) then
      DropSpaces(t[1..])
    else t
  }

  /** The pieces of t between maximal runs of \s, before the trailing empty pieces
      are discarded: a leading run yields a leading "", a trailing run a trailing "". */
  function Pieces(t: string): (r: seq<string>)
    ensures |r| >= 1
    ensures forall i, j :: 0 <= i < |r| && 0 <= j < |r[i]| ==> !IsRegexSpace(r[i][j])
    decreases |t|
  {
    if t == [] then [""]
    else if IsRegexSpace(t[0]) then [""] + Pieces(DropSpaces(t))
    else
      var rest := Pieces(t[1..]);
      [[t[0]] + rest[0]] + rest[1..]
  }

  /** Split with limit 0 discards every trailing empty piece, and nothing else. */
  function DropTrailingEmpty(r: seq<string>): (q: seq<string>)
    ensures q <= r
    ensures forall k :: |q| <= k < |r| ==> r[k] == []
    ensures q == [] || q[|q| - 1] != []
  {
    if r != [] && r[|r| - 1] == [] then DropTrailingEmpty(r[..|r| - 1]) else r
  }

  /** Pattern.split(t) for the pattern \s+: if \s never occurs the result is [t]
      (so the empty string gives [""]); otherwise the pieces between the runs,
      with the trailing empty ones removed. */
  function SplitOnSpaceRuns(t: string): (r: seq<string>)
    ensures forall i, j :: 0 <= i < |r| && 0 <= j < |r[i]| ==> !IsRegexSpace(r[i][j])
  {
    if forall c :: c in t ==> !IsRegexSpace(c) then
      assert forall j :: 0 <= j < |t| ==> t[j] in t;
      [t]
    else DropTrailingEmpty(Pieces(t))
  }

  /** Read in order, the parts of any split spell the text without its \s characters. */
  lemma SplitOnSpaceRunsSpells(t: string)
    ensures Flatten(SplitOnSpaceRuns(t)) == RemoveSpaces(t)
  {
    FlattenPieces(t);
    if forall c :: c in t ==> !IsRegexSpace(c) {
      NoSpacesSinglePiece(t);
      assert Flatten([t]) == t + Flatten([]);
    } else {
      FlattenDropTrailingEmpty(Pieces(t));
    }
  }

  /** Dropping empty pieces at the end does not change the concatenation. */
  lemma {:induction false} FlattenDropTrailingEmpty(r: seq<string>)
    ensures Flatten(DropTrailingEmpty(r)) == Flatten(r)
    decreases |r|
  {
    if r != [] && r[|r| - 1] == [] {
      var front := r[..|r| - 1];
      FlattenDropTrailingEmpty(front);
      assert r == front + [[]];
      FlattenAppend(front, [[]]);
    }
  }

  /** The characters of t other than \s, in order. */
  function RemoveSpaces(t: string): (r: string)
    ensures |r| <= |t|
    ensures forall c :: c in r <==> c in t && !IsRegexSpace(c)
  {
    if t == [] then []
    else
      assert t == [t[0]] + t[1..];
      if IsRegexSpace(t[0]) then RemoveSpaces(t[1..])
      else [t[0]] + RemoveSpaces(t[1..])
  }

  /** The removal works piece by piece, so the remaining characters keep their order. */
  lemma {:induction false} RemoveSpacesAppend(a: string, b: string)
    ensures RemoveSpaces(a + b) == RemoveSpaces(a) + RemoveSpaces(b)
    decreases |a|
  {
    if a == [] {
      assert a + b == b;
    } else {
      assert (a + b)[0] == a[0] && (a + b)[1..] == a[1..] + b;
      RemoveSpacesAppend(a[1..], b);
    }
  }

  /** The concatenation of a sequence of strings, in order. */
  function Flatten(ss: seq<string>): string {
    if ss == [] then [] else ss[0] + Flatten(ss[1..])
  }

  lemma {:induction false} FlattenAppend(a: seq<string>, b: seq<string>)
    ensures Flatten(a + b) == Flatten(a) + Flatten(b)
    decreases |a|
  {
    if a == [] {
      assert a + b == b;
    } else {
      assert (a + b)[1..] == a[1..] + b;
      assert Flatten(a + b) == a[0] + Flatten(a[1..] + b);
      FlattenAppend(a[1..], b);
      assert Flatten(a) == a[0] + Flatten(a[1..]);
    }
  }

  /** Every character of every piece occurs in the concatenation. */
  lemma {:induction false} FlattenHolds(ss: seq<string>, i: nat, j: nat)
    requires i < |ss| && j < |ss[i]|
    ensures ss[i][j] in Flatten(ss)
    decreases i
  {
    if i == 0 {
      assert Flatten(ss)[j] == ss[0][j];
    } else {
      FlattenHolds(ss[1..], i - 1, j);
    }
  }

  lemma {:induction false} RemoveSpacesDropSpaces(t: string)
    ensures RemoveSpaces(DropSpaces(t)) == RemoveSpaces(t)
    decreases |t|
  {
    if t != [] && IsRegexSpace(t[0]) {
      RemoveSpacesDropSpaces(t[1..]);
    }
  }

  /** Gluing the pieces back together gives t with every \s character removed. */
  lemma {:induction false} FlattenPieces(t: string)
    ensures Flatten(Pieces(t)) == RemoveSpaces(t)
    decreases |t|
  {
    if t == [] {
    } else if IsRegexSpace(t[0]) {
      var u := DropSpaces(t);
      FlattenPieces(u);
      RemoveSpacesDropSpaces(t);
      assert ([""] + Pieces(u))[1..] == Pieces(u);
    } else {
      var rest := Pieces(t[1..]);
      FlattenPieces(t[1..]);
      var r := [[t[0]] + rest[0]] + rest[1..];
      assert r[1..] == rest[1..];
      assert Flatten(rest) == rest[0] + Flatten(rest[1..]);
    }
  }

  /** A text without a leading \s character has a non-empty first piece. */
  lemma FirstPieceNonEmpty(t: string)
    requires t != [] && !IsRegexSpace(t[0])
    ensures Pieces(t)[0] != []
  {
  }

  /** A text without a trailing \s character has no empty piece after the first. */
  lemma {:induction false} LaterPiecesNonEmpty(t: string)
    requires t == [] || !IsRegexSpace(t[|t| - 1])
    ensures forall i :: 1 <= i < |Pieces(t)| ==> Pieces(t)[i] != []
    decreases |t|
  {
    if t == [] {
    } else if IsRegexSpace(t[0]) {
      var u := DropSpaces(t);
      assert u != [];
      assert u[|u| - 1] == t[|t| - 1];
      LaterPiecesNonEmpty(u);
      FirstPieceNonEmpty(u);
      assert Pieces(t) == [""] + Pieces(u);
    } else {
      var tail := t[1..];
      assert tail == [] || tail[|tail| - 1] == t[|t| - 1];
      LaterPiecesNonEmpty(tail);
    }
  }

  /** For a text that neither starts nor ends with \s, Java's split yields exactly
      the pieces: for the empty text [""], and no trailing piece is empty otherwise. */
  lemma SplitOfTrimmed(t: string)
    requires t == [] || (!IsRegexSpace(t[0]) && !IsRegexSpace(t[|t| - 1]))
    ensures SplitOnSpaceRuns(t) == Pieces(t)
  {
    if t == [] {
      assert SplitOnSpaceRuns(t) == [t];
    } else {
      SplitDropsTrailing(t);
      LastPieceNonEmpty(t);
      KeepNonEmptyLast(Pieces(t));
    }
  }

  /** On a non-empty text, split is always the pieces without their trailing empty ones. */
  lemma SplitDropsTrailing(t: string)
    requires t != []
    ensures SplitOnSpaceRuns(t) == DropTrailingEmpty(Pieces(t))
  {
    if forall c :: c in t ==> !IsRegexSpace(c) {
      NoSpacesSinglePiece(t);
      KeepNonEmptyLast([t]);
    }
  }

  /** A text that neither starts nor ends with \s has a non-empty last piece. */
  lemma LastPieceNonEmpty(t: string)
    requires t != [] && !IsRegexSpace(t[0]) && !IsRegexSpace(t[|t| - 1])
    ensures |Pieces(t)[|Pieces(t)| - 1]| > 0
  {
    LaterPiecesNonEmpty(t);
    FirstPieceNonEmpty(t);
  }

  /** Nothing is dropped from pieces whose last one is non-empty. */
  lemma KeepNonEmptyLast(p: seq<string>)
    requires |p| > 0 && |p[|p| - 1]| > 0
    ensures DropTrailingEmpty(p) == p
  {
  }

  /** The pieces of a text that neither starts nor ends with \s: for the empty text
      exactly [""], otherwise only non-empty pieces. */
  lemma TrimmedPiecesNonEmpty(t: string)
    requires t == [] || (!IsRegexSpace(t[0]) && !IsRegexSpace(t[|t| - 1]))
    ensures t == [] ==> Pieces(t) == [""]
    ensures t != [] ==> forall i :: 0 <= i < |Pieces(t)| ==> Pieces(t)[i] != []
  {
    if t != [] {
      LaterPiecesNonEmpty(t);
      FirstPieceNonEmpty(t);
    }
  }

  /** The number of maximal runs of \s characters in t (counted at the run's last character). */
  function SpaceRuns(t: string): nat {
    if t == [] then 0
    else (if IsRegexSpace(t[0]) && (|t| == 1 || !IsRegexSpace(t[1])) then 1 else 0) + SpaceRuns(t[1..])
  }

  lemma {:induction false} SpaceRunsDropSpaces(t: string)
    requires t != [] && IsRegexSpace(t[0])
    ensures SpaceRuns(t) == 1 + SpaceRuns(DropSpaces(t))
    decreases |t|
  {
    var tail := t[1..];
    if tail != [] && IsRegexSpace(tail[0]) {
      SpaceRunsDropSpaces(tail);
    }
  }

  /** Every run of \s characters adds exactly one piece. */
  lemma {:induction false} PiecesCount(t: string)
    ensures |Pieces(t)| == 1 + SpaceRuns(t)
    decreases |t|
  {
    if t == [] {
    } else if IsRegexSpace(t[0]) {
      SpaceRunsDropSpaces(t);
      PiecesCount(DropSpaces(t));
    } else {
      PiecesCount(t[1..]);
    }
  }

  /** Without any \s character, the only piece is the text itself. */
  lemma {:induction false} NoSpacesSinglePiece(t: string)
    requires forall c :: c in t ==> !IsRegexSpace(c)
    ensures Pieces(t) == [t]
    decreases |t|
  {
    if t != [] {
      assert t[0] in t;
      assert forall c :: c in t[1..] ==> c in t;
      NoSpacesSinglePiece(t[1..]);
      assert [t[0]] + t[1..] == t;
    }
  }

  /** The runs of \s that separate the pieces of t, in order. */
  function Gaps(t: string): (gs: seq<string>)
    ensures forall i :: 0 <= i < |gs| ==> gs[i] != []
    ensures forall i, j :: 0 <= i < |gs| && 0 <= j < |gs[i]| ==> IsRegexSpace(gs[i][j])
    decreases |t|
  {
    if t == [] then []
    else if IsRegexSpace(t[0]) then
      var u := DropSpaces(t);
      [t[..|t| - |u|]] + Gaps(u)
    else Gaps(t[1..])
  }

  /** Pieces put back together with the given separators between them. */
  function Join(ps: seq<string>, gs: seq<string>): string
    requires |ps| == |gs| + 1
    decreases |gs|
  {
    if gs == [] then ps[0] else ps[0] + gs[0] + Join(ps[1..], gs[1..])
  }

  lemma JoinCons(p: string, g: string, ps: seq<string>, gs: seq<string>)
    requires |ps| == |gs| + 1
    ensures Join([p] + ps, [g] + gs) == p + g + Join(ps, gs)
  {
    assert ([p] + ps)[1..] == ps && ([g] + gs)[1..] == gs;
  }

  /** Characters put in front of the first piece come out in front of the text. */
  lemma JoinExtendFirst(x: string, ps: seq<string>, gs: seq<string>)
    requires |ps| == |gs| + 1
    ensures Join([x + ps[0]] + ps[1..], gs) == x + Join(ps, gs)
  {
    var qs := [x + ps[0]] + ps[1..];
    if gs != [] {
      assert qs[1..] == ps[1..];
      var tail := Join(ps[1..], gs[1..]);
      assert Join(qs, gs) == (x + ps[0]) + gs[0] + tail;
      assert Join(ps, gs) == ps[0] + gs[0] + tail;
    }
  }

  /** Only the first and the last piece may be empty. */
  predicate InnerPiecesNonEmpty(ps: seq<string>) {
    forall i :: 0 < i < |ps| - 1 ==> ps[i] != []
  }

  lemma InnerAfterEmpty(ps: seq<string>)
    requires InnerPiecesNonEmpty(ps) && (|ps| >= 2 ==> ps[0] != [])
    ensures InnerPiecesNonEmpty([""] + ps)
  {
    var qs := [""] + ps;
    assert forall i :: 0 < i < |qs| ==> qs[i] == ps[i - 1];
  }

  lemma InnerAfterExtend(x: string, ps: seq<string>)
    requires ps != [] && InnerPiecesNonEmpty(ps)
    ensures InnerPiecesNonEmpty([x + ps[0]] + ps[1..])
  {
    var qs := [x + ps[0]] + ps[1..];
    assert forall i :: 0 < i < |qs| ==> qs[i] == ps[i];
  }

  /** Where t is cut: it is its pieces with one non-empty run of \s between every two,
      and only the first and the last piece can be empty. */
  predicate CutAtSpaceRuns(t: string) {
    |Gaps(t)| + 1 == |Pieces(t)| && Join(Pieces(t), Gaps(t)) == t && InnerPiecesNonEmpty(Pieces(t))
  }

  lemma {:induction false} PiecesJoin(t: string)
    ensures |Gaps(t)| + 1 == |Pieces(t)|
    ensures Join(Pieces(t), Gaps(t)) == t
    ensures InnerPiecesNonEmpty(Pieces(t))
    decreases |t|
  {
    if t == [] {
    } else if IsRegexSpace(t[0]) {
      PiecesJoin(DropSpaces(t));
      CutAfterRun(t);
    } else {
      PiecesJoin(t[1..]);
      CutAfterLetter(t);
    }
  }

  /** A leading run of \s adds an empty first piece and that run as the first gap. */
  lemma CutAfterRun(t: string)
    requires t != [] && IsRegexSpace(t[0]) && CutAtSpaceRuns(DropSpaces(t))
    ensures CutAtSpaceRuns(t)
  {
    var u := DropSpaces(t);
    var run := t[..|t| - |u|];
    var ps, gs := Pieces(u), Gaps(u);
    assert Pieces(t) == [""] + ps;
    assert Gaps(t) == [run] + gs;
    if u != [] {
      FirstPieceNonEmpty(u);
    }
    RunThenPieces(run, u, ps, gs);
    SplitAtSuffix(t, u);
  }

  /** An empty piece and a run in front of a cut of u give a cut of run + u. */
  lemma RunThenPieces(run: string, u: string, ps: seq<string>, gs: seq<string>)
    requires |ps| == |gs| + 1 && Join(ps, gs) == u && InnerPiecesNonEmpty(ps)
    requires |ps| >= 2 ==> ps[0] != []
    ensures |[run] + gs| + 1 == |[""] + ps|
    ensures Join([""] + ps, [run] + gs) == run + u
    ensures InnerPiecesNonEmpty([""] + ps)
  {
    JoinCons("", run, ps, gs);
    InnerAfterEmpty(ps);
  }

  lemma SplitAtSuffix(t: string, u: string)
    requires |u| <= |t| && u == t[|t| - |u|..]
    ensures t[..|t| - |u|] + u == t
  {
  }

  /** A leading non-space character goes to the front of the first piece. */
  lemma CutAfterLetter(t: string)
    requires t != [] && !IsRegexSpace(t[0]) && CutAtSpaceRuns(t[1..])
    ensures CutAtSpaceRuns(t)
  {
    var rest := Pieces(t[1..]);
    assert Pieces(t) == [[t[0]] + rest[0]] + rest[1..];
    assert Gaps(t) == Gaps(t[1..]);
    JoinExtendFirst([t[0]], rest, Gaps(t[1..]));
    assert [t[0]] + t[1..] == t;
    InnerAfterExtend([t[0]], rest);
  }

  // ---------------------------------------------------------------------------
  // Integer.toString (and the decimal form String.format("%s", n) and `"" + n` give)
  // ---------------------------------------------------------------------------

  predicate IsDigit(c: char) {
    '0' <= c <= '9'
  }

  function DigitChar(d: nat): (c: char)
    requires d < 10
    ensures IsDigit(c) && c as int - '0' as int == d
  {
    ('0' as int + d) as char
  }

  /** The decimal digits of n, most significant first, without leading zeros. */
  function NatToString(n: nat): (s: string)
    ensures |s| >= 1
    ensures forall c :: c in s ==> IsDigit(c)
    ensures s[0] == '0' <==> n == 0
  {
    if n < 10 then [DigitChar(n)] else NatToString(n / 10) + [DigitChar(n % 10)]
  }

  /** Integer.toString(i): a minus sign for negative values, then the digits of |i|. */
  function IntToString(i: int): (s: string)
    ensures |s| >= 1
    ensures forall c :: c in s ==> IsDigit(c) || c == '-'
  {
    if i < 0 then "-" + NatToString(-i) else NatToString(i)
  }

  function DigitValue(c: char): (d: nat)
    requires IsDigit(c)
    ensures d < 10 && DigitChar(d) == c
  {
    c as int - '0' as int
  }

  /** Reading a string of decimal digits back as a number. */
  function ParseDigits(s: string): nat
    requires forall c :: c in s ==> IsDigit(c)
  {
    if s == [] then 0
    else
      assert forall c :: c in s[..|s| - 1] ==> c in s;
      10 * ParseDigits(s[..|s| - 1]) + DigitValue(s[|s| - 1])
  }

  /** Integer.parseInt on the strings Integer.toString produces. */
  function ParseInt(s: string): int
    requires forall c :: c in s ==> IsDigit(c) || c == '-'
    requires forall k :: 1 <= k < |s| ==> s[k] != '-'
  {
    if s != [] && s[0] == '-' then
      assert forall c :: c in s[1..] ==> IsDigit(c);
      -(ParseDigits(s[1..]) as int)
    else
      assert forall c :: c in s ==> IsDigit(c);
      ParseDigits(s)
  }

  lemma {:induction false} ParseNatToString(n: nat)
    ensures ParseDigits(NatToString(n)) == n
    decreases n
  {
    if n >= 10 {
      ParseNatToString(n / 10);
      var s := NatToString(n);
      assert s[..|s| - 1] == NatToString(n / 10);
    }
  }

  /** Integer.toString is undone by parsing: different numbers print differently. */
  lemma IntToStringRoundTrip(i: int)
    ensures forall k :: 1 <= k < |IntToString(i)| ==> IntToString(i)[k] != '-'
    ensures ParseInt(IntToString(i)) == i
  {
    var s := IntToString(i);
    if i < 0 {
      ParseNatToString(-i);
      SignedDigits(NatToString(-i));
    } else {
      ParseNatToString(i);
      var t := NatToString(i);
      assert t[0] in t;
      assert forall k :: 0 <= k < |t| ==> t[k] in t;
    }
  }

  /** A minus sign followed by digits: the digits follow it and hold no other sign. */
  lemma SignedDigits(t: string)
    requires forall c :: c in t ==> IsDigit(c)
    ensures ("-" + t)[1..] == t
    ensures forall k :: 1 <= k < |"-" + t| ==> ("-" + t)[k] != '-'
  {
    var s := "-" + t;
    assert forall k :: 1 <= k < |s| ==> s[k] == t[k - 1] && t[k - 1] in t;
  }
}
