/**
 * The text analyser page (app/code/nt-01/page.tsx): a word count, a keyword-based
 * sentiment and a 50-character preview of the input.
 */
module TextAnalyzer {
  import opened Options
  import opened Strings
  import opened Seqs

  const PositiveWords: seq<string> := ["good", "great", "amazing", "excellent", "love", "wonderful"]
  const NegativeWords: seq<string> := ["bad", "terrible", "awful", "hate", "horrible", "poor"]

  const PreviewLength: nat := 50

  datatype Sentiment = Positive | Negative | Neutral

  datatype Analysis = Analysis(sentiment: Sentiment, wordCount: nat, preview: string)

  /** The position of the first white-space character, or -1. */
  function FirstSpace(s: string): (r: int)
    ensures -1 <= r < |s|
    ensures r >= 0 ==> IsSpace(s[r])
    ensures forall j :: 0 <= j < |s| && (r == -1 || j < r) ==> !IsSpace(s[j])
  {
    FindIndex(s, IsSpace)
  }

  /** `s.split(/\s+/)`: the pieces between maximal runs of white space. */
  function SplitSpaces(s: string): (r: seq<string>)
    ensures |r| >= 1
    decreases |s|
  {
    var i := FirstSpace(s);
    if i == -1 then [s]
    else
      var rest := TrimStart(s[i..]);
      [s[..i]] + SplitSpaces(rest)
  }

  function Flatten(xs: seq<string>): string
  {
    if |xs| == 0 then "" else xs[0] + Flatten(xs[1..])
  }

  predicate NotSpace(c: char)
  {
    !IsSpace(c)
  }

  /** The characters of `s` that are not white space. */
  function Unspaced(s: string): string
  {
    Filter(s, NotSpace)
  }

  lemma {:induction false} UnspacedBlank(gap: string)
    requires AllSpace(gap)
    ensures Unspaced(gap) == []
  {
    if |gap| > 0 {
      UnspacedBlank(gap[1..]);
    }
  }

  /** A string with no white space at either end. */
  predicate Trimmed(s: string)
  {
    |s| > 0 && !IsSpace(s[0]) && !IsSpace(s[|s| - 1])
  }

  /** What follows the first white-space run of a trimmed string is trimmed and shorter. */
  lemma RestTrimmed(s: string, i: nat)
    requires Trimmed(s) && i < |s| && IsSpace(s[i])
    ensures var rest := TrimStart(s[i..]); Trimmed(rest) && |rest| < |s| - i
  {
    var t := s[i..];
    var rest := TrimStart(t);
    assert rest[|rest| - 1] == t[|t| - 1];
  }

  /** A string cut at a white-space character is the part before it, the white-space run
      from there, and what `TrimStart` leaves. */
  lemma SplitAround(s: string, i: nat) returns (gap: string)
    requires i < |s|
    ensures AllSpace(gap)
    ensures s == s[..i] + gap + TrimStart(s[i..])
  {
    var t := s[i..];
    var rest := TrimStart(t);
    gap := t[..|t| - |rest|];
    assert t == gap + rest;
    assert s == s[..i] + t;
    assert s[..i] + gap + rest == s[..i] + (gap + rest);
  }

  /** Removing white space from a word, a gap and a tail leaves the word and the tail's
      characters. */
  lemma UnspacedParts(a: string, gap: string, b: string)
    requires forall j :: 0 <= j < |a| ==> !IsSpace(a[j])
    requires AllSpace(gap)
    ensures Unspaced(a + gap + b) == a + Unspaced(b)
  {
    var ag := a + gap;
    FilterConcat(ag, b, NotSpace);
    FilterConcat(a, gap, NotSpace);
    assert forall j :: 0 <= j < |a| ==> NotSpace(a[j]);
    FilterAll(a, NotSpace);
    UnspacedBlank(gap);
    assert Filter(ag, NotSpace) == a + [];
    assert a + [] == a;
  }

  /** A word of a split is non-empty and free of white space. */
  predicate Word(w: string)
  {
    |w| > 0 && forall j :: 0 <= j < |w| ==> !IsSpace(w[j])
  }

  /** Split into white-space runs, a trimmed string falls into words. */
  lemma {:induction false} SplitSpacesPieces(s: string)
    requires Trimmed(s)
    ensures var ws := SplitSpaces(s); forall k :: 0 <= k < |ws| ==> Word(ws[k])
    decreases |s|
  {
    var i := FirstSpace(s);
    if i >= 0 {
      var rest := TrimStart(s[i..]);
      RestTrimmed(s, i);
      SplitSpacesPieces(rest);
      assert SplitSpaces(s) == [s[..i]] + SplitSpaces(rest);
      assert Word(s[..i]);
      WordsCons(s[..i], SplitSpaces(rest));
    } else {
      assert SplitSpaces(s) == [s];
      assert Word(s);
    }
  }

  lemma WordsCons(w: string, ws: seq<string>)
    requires Word(w) && forall k :: 0 <= k < |ws| ==> Word(ws[k])
    ensures forall k :: 0 <= k < |[w] + ws| ==> Word(([w] + ws)[k])
  {
  }

  /** Put back together, the words of a trimmed string are the string without its white
      space. */
  lemma {:induction false} SplitSpacesFlatten(s: string)
    requires Trimmed(s)
    ensures Flatten(SplitSpaces(s)) == Unspaced(s)
    decreases |s|
  {
    var i := FirstSpace(s);
    if i == -1 {
      FilterAll(s, NotSpace);
      assert Flatten([s]) == s + Flatten([]);
    } else {
      var rest := TrimStart(s[i..]);
      RestTrimmed(s, i);
      SplitSpacesFlatten(rest);
      FlattenStep(s, i);
    }
  }

  /** One step of the split: the first word, then the words of what follows the first
      white-space run. */
  lemma FlattenStep(s: string, i: nat)
    requires Trimmed(s) && i == FirstSpace(s)
    ensures var rest := TrimStart(s[i..]);
            && Unspaced(s) == s[..i] + Unspaced(rest)
            && Flatten(SplitSpaces(s)) == s[..i] + Flatten(SplitSpaces(rest))
  {
    UnspacedStep(s, i);
    SplitStep(s, i);
  }

  lemma UnspacedStep(s: string, i: nat)
    requires i < |s| && forall j :: 0 <= j < i ==> !IsSpace(s[j])
    ensures Unspaced(s) == s[..i] + Unspaced(TrimStart(s[i..]))
  {
    var gap := SplitAround(s, i);
    UnspacedParts(s[..i], gap, TrimStart(s[i..]));
  }

  lemma SplitStep(s: string, i: nat)
    requires i == FirstSpace(s)
    ensures Flatten(SplitSpaces(s)) == s[..i] + Flatten(SplitSpaces(TrimStart(s[i..])))
  {
    FlattenCons(s[..i], SplitSpaces(TrimStart(s[i..])));
  }

  lemma FlattenCons(w: string, ws: seq<string>)
    ensures Flatten([w] + ws) == w + Flatten(ws)
  {
    assert ([w] + ws)[1..] == ws;
  }

  /** Position `i` begins a word: a non-space character at the start or after a space. */
  predicate StartsWord(s: string, i: nat)
    requires i < |s|
  {
    !IsSpace(s[i]) && (i == 0 || IsSpace(s[i - 1]))
  }

  /** The number of word beginnings at positions `i` and later. */
  function WordStartsFrom(s: string, i: nat): nat
    requires i <= |s|
    decreases |s| - i
  {
    if i == |s| then 0 else (if StartsWord(s, i) then 1 else 0) + WordStartsFrom(s, i + 1)
  }

  /** The number of words of `s`, counted as the positions where one begins. */
  function WordStarts(s: string): nat
  {
    WordStartsFrom(s, 0)
  }

  /** A stretch with no word beginning adds nothing to the count. */
  lemma {:induction false} SkipNoStarts(s: string, k: nat, m: nat)
    requires k <= m <= |s|
    requires forall j :: k <= j < m ==> !StartsWord(s, j)
    ensures WordStartsFrom(s, k) == WordStartsFrom(s, m)
    decreases m - k
  {
    if k < m {
      SkipNoStarts(s, k + 1, m);
    }
  }

  /** After a space, a suffix has the same word beginnings as the whole string there. */
  lemma {:induction false} ShiftStarts(s: string, j: nat, rest: string, m: nat)
    requires 0 < j <= |s| && rest == s[j..] && IsSpace(s[j - 1]) && m <= |rest|
    ensures WordStartsFrom(s, j + m) == WordStartsFrom(rest, m)
    decreases |rest| - m
  {
    if m < |rest| {
      ShiftStarts(s, j, rest, m + 1);
      assert StartsWord(s, j + m) == StartsWord(rest, m);
    }
  }

  /** `split(/\s+/)` on a trimmed string gives one piece per word beginning. */
  lemma {:induction false} SplitSpacesCount(s: string)
    requires Trimmed(s)
    ensures |SplitSpaces(s)| == WordStarts(s)
    decreases |s|
  {
    var i := FirstSpace(s);
    if i == -1 {
      OneWordStart(s);
    } else {
      var rest := TrimStart(s[i..]);
      RestTrimmed(s, i);
      WordStartsStep(s, i, rest);
      SplitSpacesCount(rest);
      SplitSpacesLength(s, i, rest);
    }
  }

  /** A trimmed string without white space is one word, beginning at its start. */
  lemma OneWordStart(s: string)
    requires Trimmed(s) && FirstSpace(s) == -1
    ensures |SplitSpaces(s)| == 1 && WordStarts(s) == 1
  {
    FirstStart(s);
    SkipNoStarts(s, 1, |s|);
  }

  /** The first word, then the words after the first white-space run. */
  lemma WordStartsStep(s: string, i: nat, rest: string)
    requires Trimmed(s) && i == FirstSpace(s) && rest == TrimStart(s[i..])
    ensures WordStarts(s) == 1 + WordStarts(rest)
  {
    var j := |s| - |rest|;
    GapHasNoStarts(s, i, j, rest);
    FirstStart(s);
    SkipNoStarts(s, 1, j);
    ShiftStarts(s, j, rest, 0);
  }

  lemma FirstStart(s: string)
    requires Trimmed(s)
    ensures WordStarts(s) == 1 + WordStartsFrom(s, 1)
  {
  }

  lemma SplitSpacesLength(s: string, i: int, rest: string)
    requires 0 <= i == FirstSpace(s) && rest == TrimStart(s[i..])
    ensures |SplitSpaces(s)| == 1 + |SplitSpaces(rest)|
  {
  }

  /** Between the start and the end of the first white-space run no word begins. */
  lemma GapHasNoStarts(s: string, i: nat, j: int, rest: string)
    requires Trimmed(s) && i == FirstSpace(s) && rest == TrimStart(s[i..]) && j == |s| - |rest|
    ensures 0 < i < j <= |s| && rest == s[j..] && IsSpace(s[j - 1])
    ensures forall k :: 1 <= k < j ==> !StartsWord(s, k)
  {
    var t := s[i..];
    assert rest == t[|t| - |rest|..];
    forall k | i <= k < j
      ensures IsSpace(s[k])
    {
      assert s[k] == t[..|t| - |rest|][k - i];
    }
  }

  /** The input contains a keyword, ignoring ASCII case. Every keyword is ASCII letters,
      and a case-insensitive regular expression without the unicode flag matches an ASCII
      letter only with an ASCII letter, so lower-casing ASCII is exact here. */
  predicate HasAny(input: string, words: seq<string>)
  {
    exists k :: 0 <= k < |words| && Contains(ToLower(input), words[k])
  }

  /** `analyzeText`: a blank input leaves the previous analysis in place. */
  function Analyze(prev: Option<Analysis>, input: string): (r: Option<Analysis>)
    ensures IsBlank(input) ==> r == prev
    ensures !IsBlank(input) ==> r.Some?
    ensures !IsBlank(input) ==>
              && (r.value.sentiment == Positive <==> HasAny(input, PositiveWords))
              && (r.value.sentiment == Negative <==> !HasAny(input, PositiveWords) && HasAny(input, NegativeWords))
              && r.value.wordCount == |SplitSpaces(Trim(input))| && r.value.wordCount >= 1
              && |r.value.preview| <= PreviewLength + 3
              && (|input| <= PreviewLength ==> r.value.preview == input)
              && (|input| > PreviewLength ==> r.value.preview == input[..PreviewLength] + "...")
  {
    var t := Trim(input);
    if t == "" then prev
    else
      var sentiment :=
        if HasAny(input, PositiveWords) then Positive
        else if HasAny(input, NegativeWords) then Negative
        else Neutral;
      var preview := (if |input| <= PreviewLength then input else input[..PreviewLength])
                     + (if |input| > PreviewLength then "..." else "");
      Some(Analysis(sentiment, |SplitSpaces(t)|, preview))
  }

  /** The words counted are the non-empty white-space-free pieces of the input, in order;
      there are as many as there are word beginnings in the trimmed input. */
  lemma WordCountCountsWords(input: string)
    requires !IsBlank(input)
    ensures var ws := SplitSpaces(Trim(input));
            && Analyze(None, input).value.wordCount == |ws| == WordStarts(Trim(input))
            && (forall k :: 0 <= k < |ws| ==> Word(ws[k]))
            && Flatten(ws) == Unspaced(Trim(input))
  {
    SplitSpacesPieces(Trim(input));
    SplitSpacesFlatten(Trim(input));
    SplitSpacesCount(Trim(input));
  }

  lemma UpperKeepsBlank(s: string)
    ensures IsBlank(ToUpper(s)) <==> IsBlank(s)
  {
    BlankIffAllSpace(s);
    BlankIffAllSpace(ToUpper(s));
    forall i | 0 <= i < |s|
      ensures IsSpace(ToUpper(s)[i]) <==> IsSpace(s[i])
    {
      UpperSpace(s[i]);
    }
  }

  lemma UpperSpace(c: char)
    ensures IsSpace(UpperChar(c)) <==> IsSpace(c)
  {
  }

  /** Upper-casing the input changes neither the sentiment nor the blankness. */
  lemma CaseDoesNotMatter(input: string)
    requires !IsBlank(input)
    ensures !IsBlank(ToUpper(input))
    ensures Analyze(None, ToUpper(input)).value.sentiment == Analyze(None, input).value.sentiment
  {
    UpperKeepsBlank(input);
    LowerOfUpper(input);
    assert HasAny(ToUpper(input), PositiveWords) == HasAny(input, PositiveWords);
    assert HasAny(ToUpper(input), NegativeWords) == HasAny(input, NegativeWords);
  }
}
