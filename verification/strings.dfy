/**
 * String helpers that follow the JavaScript built-ins the pages call:
 * `String.prototype.trim`, `split` and `join` with a one-character separator,
 * `indexOf`, `includes`, upper- and lower-casing restricted to ASCII, the decimal
 * rendering of a non-negative integer, and `length` in UTF-16 code units.
 */
module Strings {

  /** The WhiteSpace and LineTerminator code points of ECMA-262 (sections 12.2 and 12.3):
      what `trim` removes and what the regular-expression class `\s` matches. */
  predicate IsSpace(c: char)
  {
    || c == '\t' || c == '\n' || c == '\U{B}' || c == '\U{C}' || c == '\r' || c == ' '
    || c == '\U{A0}' || c == '\U{1680}' || ('\U{2000}' <= c <= '\U{200A}')
    || c == '\U{2028}' || c == '\U{2029}' || c == '\U{202F}' || c == '\U{205F}'
    || c == '\U{3000}' || c == '\U{FEFF}'
  }

  predicate AllSpace(s: string)
  {
    forall i :: 0 <= i < |s| ==> IsSpace(s[i])
  }

  /** `s.length` in JavaScript: the number of UTF-16 code units, one for a code point up
      to U+FFFF and a surrogate pair for one above. */
  function Utf16Length(s: string): (r: nat)
    ensures |s| <= r <= 2 * |s|
    ensures (forall i :: 0 <= i < |s| ==> s[i] < '\U{10000}') ==> r == |s|
  {
    if |s| == 0 then 0
    else
      assert forall i :: 0 <= i < |s| - 1 ==> s[1..][i] == s[i + 1];
      (if s[0] < '\U{10000}' then 1 else 2) + Utf16Length(s[1..])
  }

  /** Code units add up over concatenation. */
  lemma {:induction false} Utf16LengthConcat(a: string, b: string)
    ensures Utf16Length(a + b) == Utf16Length(a) + Utf16Length(b)
    decreases |a|
  {
    if |a| > 0 {
      Utf16LengthConcat(a[1..], b);
      assert (a + b)[1..] == a[1..] + b;
    } else {
      assert a + b == b;
    }
  }

  /** The end of the run of white space that starts at `i`. */
  function SpaceRun(s: string, i: nat): (r: nat)
    requires i <= |s|
    ensures i <= r <= |s|
    ensures forall k :: i <= k < r ==> IsSpace(s[k])
    ensures r < |s| ==> !IsSpace(s[r])
    decreases |s| - i
  {
    if i < |s| && IsSpace(s[i]) then SpaceRun(s, i + 1) else i
  }

  /** The start of the run of white space that ends at `j`, going back no further than `lo`. */
  function SpaceRunBack(s: string, lo: nat, j: nat): (r: nat)
    requires lo <= j <= |s|
    ensures lo <= r <= j
    ensures forall k :: r <= k < j ==> IsSpace(s[k])
    ensures r > lo ==> !IsSpace(s[r - 1])
    decreases j
  {
    if j > lo && IsSpace(s[j - 1]) then SpaceRunBack(s, lo, j - 1) else j
  }

  /** Drops leading white space: the result is a suffix of `s` preceded only by white space. */
  function TrimStart(s: string): (r: string)
    ensures |r| <= |s| && r == s[|s| - |r|..]
    ensures AllSpace(s[..|s| - |r|])
    ensures |r| > 0 ==> !IsSpace(r[0])
  {
    var a := SpaceRun(s, 0);
    assert forall k :: 0 <= k < a ==> s[..a][k] == s[k];
    s[a..]
  }

  /** Drops trailing white space: the result is a prefix of `s` followed only by white space. */
  function TrimEnd(s: string): (r: string)
    ensures |r| <= |s| && r == s[..|r|]
    ensures AllSpace(s[|r|..])
    ensures |r| > 0 ==> !IsSpace(r[|r| - 1])
  {
    var b := SpaceRunBack(s, 0, |s|);
    assert forall k :: 0 <= k < |s| - b ==> s[b..][k] == s[b + k];
    s[..b]
  }

  /** `s.trim()`: the infix of `s` that starts where the leading white space ends and is
      followed only by white space. */
  function Trim(s: string): (r: string)
    ensures var i := |s| - |TrimStart(s)|;
            && i + |r| <= |s| && r == s[i..i + |r|]
            && AllSpace(s[..i]) && AllSpace(s[i + |r|..])
    ensures |r| > 0 ==> !IsSpace(r[0]) && !IsSpace(r[|r| - 1])
  {
    var a := SpaceRun(s, 0);
    var b := SpaceRunBack(s, a, |s|);
    assert |TrimStart(s)| == |s| - a;
    assert forall k :: 0 <= k < a ==> s[..a][k] == s[k];
    assert forall k :: 0 <= k < |s| - b ==> s[b..][k] == s[b + k];
    s[a..b]
  }

  /** JavaScript's `!s.trim()`: the string is empty or made only of white space. */
  predicate IsBlank(s: string)
  {
    Trim(s) == ""
  }

  lemma TrimStartEmpty(s: string)
    ensures TrimStart(s) == "" <==> AllSpace(s)
  {
    var r := TrimStart(s);
    if r != "" {
      assert s[|s| - |r|] == r[0];
    } else {
      assert s[..|s|] == s;
    }
  }

  lemma TrimEndEmpty(s: string)
    ensures TrimEnd(s) == "" <==> AllSpace(s)
  {
    var r := TrimEnd(s);
    if r != "" {
      assert s[|r| - 1] == r[|r| - 1];
    } else {
      assert s[0..] == s;
    }
  }

  /** A string is blank exactly when every character of it is white space. */
  lemma BlankIffAllSpace(s: string)
    ensures IsBlank(s) <==> AllSpace(s)
  {
    var t := TrimStart(s);
    TrimStartEmpty(s);
    TrimEndEmpty(t);
    if t != "" {
      assert !IsSpace(t[0]);
    }
  }

  /** The first position at or after `i` holding `c`, or -1. */
  function IndexFrom(s: string, c: char, i: nat): (r: int)
    requires i <= |s|
    ensures r == -1 || i <= r < |s|
    ensures r >= 0 ==> s[r] == c
    ensures forall k :: i <= k < |s| && (r == -1 || k < r) ==> s[k] != c
    decreases |s| - i
  {
    if i == |s| then -1 else if s[i] == c then i else IndexFrom(s, c, i + 1)
  }

  /** `s.indexOf(c)`: the first position of `c` in `s`, or -1. */
  function IndexOf(s: string, c: char): (r: int)
    ensures -1 <= r < |s|
    ensures r == -1 <==> c !in s
    ensures r >= 0 ==> s[r] == c && c !in s[..r]
  {
    var r := IndexFrom(s, c, 0);
    assert r >= 0 ==> forall k :: 0 <= k < r ==> s[..r][k] == s[k];
    r
  }

  /** The last position before `j` holding `c`, or -1. */
  function IndexBefore(s: string, c: char, j: nat): (r: int)
    requires j <= |s|
    ensures -1 <= r < j
    ensures r >= 0 ==> s[r] == c
    ensures forall k :: r < k < j ==> s[k] != c
  {
    if j == 0 then -1 else if s[j - 1] == c then j - 1 else IndexBefore(s, c, j - 1)
  }

  /** The last position of `c` in `s`, or -1 (`s.lastIndexOf(c)`). */
  function LastIndexOf(s: string, c: char): (r: int)
    ensures -1 <= r < |s|
    ensures r == -1 <==> c !in s
    ensures r >= 0 ==> s[r] == c && c !in s[r + 1..]
  {
    var r := IndexBefore(s, c, |s|);
    assert forall k :: r + 1 <= k < |s| ==> s[r + 1..][k - r - 1] == s[k];
    r
  }

  /** `IndexOf` is the one position holding `c` with no `c` before it. */
  lemma IndexOfIs(s: string, c: char, k: nat)
    requires k < |s| && s[k] == c && c !in s[..k]
    ensures IndexOf(s, c) == k
  {
  }

  /** `LastIndexOf` is the one position holding `c` with no `c` after it. */
  lemma LastIndexOfIs(s: string, c: char, k: nat)
    requires k < |s| && s[k] == c && c !in s[k + 1..]
    ensures LastIndexOf(s, c) == k
  {
  }

  /** `s.split(c)` for a one-character separator: the pieces between separators, in order. */
  function Split(s: string, c: char): (r: seq<string>)
    ensures |r| >= 1
    ensures forall k :: 0 <= k < |r| ==> c !in r[k]
    decreases |s|
  {
    var i := IndexOf(s, c);
    if i == -1 then [s]
    else
      var rest := Split(s[i + 1..], c);
      PiecesCons(s[..i], rest, c);
      [s[..i]] + rest
  }

  lemma PiecesCons(x: string, ys: seq<string>, c: char)
    requires c !in x && forall k :: 0 <= k < |ys| ==> c !in ys[k]
    ensures forall k :: 0 <= k < |[x] + ys| ==> c !in ([x] + ys)[k]
  {
  }

  /** A string is the text before position `i`, the character there and the text after. */
  lemma CutAt(s: string, i: nat)
    requires i < |s|
    ensures s == s[..i] + [s[i]] + s[i + 1..]
  {
  }

  /** `xs.join(c)` for a one-character separator. */
  function Join(xs: seq<string>, c: char): string
  {
    if |xs| == 0 then ""
    else if |xs| == 1 then xs[0]
    else xs[0] + [c] + Join(xs[1..], c)
  }

  /** A split whose separator occurs: the text before it, then the split of the rest. */
  lemma SplitStep(s: string, c: char)
    requires c in s
    ensures var i := IndexOf(s, c);
            Split(s, c) == [s[..i]] + Split(s[i + 1..], c)
  {
  }

  lemma JoinStep(x: string, xs: seq<string>, c: char)
    requires |xs| >= 1
    ensures Join([x] + xs, c) == x + [c] + Join(xs, c)
  {
    assert ([x] + xs)[1..] == xs;
  }

  /** Joining the pieces of a split gives back the original string. */
  lemma {:induction false} JoinSplit(s: string, c: char)
    ensures Join(Split(s, c), c) == s
    decreases |s|
  {
    if c in s {
      var i := IndexOf(s, c);
      var rest := s[i + 1..];
      JoinSplit(rest, c);
      SplitStep(s, c);
      JoinStep(s[..i], Split(rest, c), c);
      CutAt(s, i);
    } else {
      assert Split(s, c) == [s];
    }
  }

  /** Splitting a join gives back the pieces, when no piece holds the separator. */
  lemma {:induction false} SplitJoin(xs: seq<string>, c: char)
    requires |xs| >= 1
    requires forall k :: 0 <= k < |xs| ==> c !in xs[k]
    ensures Split(Join(xs, c), c) == xs
  {
    if |xs| > 1 {
      var x := xs[0];
      var rest := Join(xs[1..], c);
      SplitJoin(xs[1..], c);
      assert xs == [x] + xs[1..];
      JoinStep(x, xs[1..], c);
      SplitAtFirst(x, rest, c);
    } else {
      assert Join(xs, c) == xs[0];
      assert Split(xs[0], c) == [xs[0]];
    }
  }

  /** Splitting at a first separator placed after `x`. */
  lemma SplitAtFirst(x: string, rest: string, c: char)
    requires c !in x
    ensures Split(x + [c] + rest, c) == [x] + Split(rest, c)
  {
    var s := x + [c] + rest;
    assert s[|x|] == c;
    assert s[..|x|] == x;
    IndexOfIs(s, c, |x|);
    SplitStep(s, c);
    assert s[|x| + 1..] == rest;
  }

  /** The first piece of a split is the text before the first separator, and there is more
      than one piece exactly when the separator occurs. */
  lemma SplitFirst(s: string, c: char)
    ensures |Split(s, c)| > 1 <==> c in s
    ensures Split(s, c)[0] == if c in s then s[..IndexOf(s, c)] else s
  {
  }

  /** The last piece of a split `r` of `s` is the text after the last separator. The split
      is named by the caller, which keeps the recursive definition out of the goal. */
  lemma SplitLast(s: string, c: char, r: seq<string>)
    requires r == Split(s, c)
    ensures |r| >= 1 && r[|r| - 1] == s[LastIndexOf(s, c) + 1..]
  {
    JoinSplit(s, c);
    LastOfJoin(s, r, c);
  }

  /** In a join whose last piece holds no separator, that piece is the text after the last
      separator. */
  lemma LastOfJoin(s: string, xs: seq<string>, c: char)
    requires |xs| >= 1 && c !in xs[|xs| - 1] && s == Join(xs, c)
    ensures xs[|xs| - 1] == s[LastIndexOf(s, c) + 1..]
  {
    var n := |xs|;
    if n == 1 {
      assert s == xs[0];
    } else {
      JoinSnoc(xs, c);
      var p := Join(xs[..n - 1], c);
      assert s == p + [c] + xs[n - 1];
      assert s[|p| + 1..] == xs[n - 1];
      LastIndexOfIs(s, c, |p|);
    }
  }

  /** A join of two or more pieces ends with a separator and the last piece. */
  lemma {:induction false} JoinSnoc(xs: seq<string>, c: char)
    requires |xs| >= 2
    ensures Join(xs, c) == Join(xs[..|xs| - 1], c) + [c] + xs[|xs| - 1]
    decreases |xs|
  {
    var n := |xs|;
    var init := xs[..n - 1];
    if n == 2 {
      assert init == [xs[0]];
    } else {
      JoinSnoc(xs[1..], c);
      assert xs[1..][..n - 2] == init[1..];
      assert Join(init, c) == xs[0] + [c] + Join(init[1..], c);
    }
  }

  /** ASCII upper-casing of one character. */
  function UpperChar(c: char): char
  {
    if 'a' <= c <= 'z' then (c as int - 32) as char else c
  }

  /** ASCII lower-casing of one character. */
  function LowerChar(c: char): char
  {
    if 'A' <= c <= 'Z' then (c as int + 32) as char else c
  }

  /** `s.toUpperCase()` on ASCII letters; every other character is kept. */
  function ToUpper(s: string): (r: string)
    ensures |r| == |s|
    ensures forall i :: 0 <= i < |s| ==> r[i] == UpperChar(s[i])
  {
    seq(|s|, i requires 0 <= i < |s| => UpperChar(s[i]))
  }

  /** `s.toLowerCase()` on ASCII letters; every other character is kept. */
  function ToLower(s: string): (r: string)
    ensures |r| == |s|
    ensures forall i :: 0 <= i < |s| ==> r[i] == LowerChar(s[i])
  {
    seq(|s|, i requires 0 <= i < |s| => LowerChar(s[i]))
  }

  /** Lower-casing forgets an earlier upper-casing. */
  lemma LowerOfUpper(s: string)
    ensures ToLower(ToUpper(s)) == ToLower(s)
  {
    assert forall i :: 0 <= i < |s| ==> LowerChar(UpperChar(s[i])) == LowerChar(s[i]);
  }

  /** `s` has `p` starting at position `i`. */
  predicate OccursAt(s: string, p: string, i: nat)
  {
    i + |p| <= |s| && s[i..i + |p|] == p
  }

  /** `s.startsWith(p)`. */
  predicate StartsWith(s: string, p: string)
  {
    |p| <= |s| && s[..|p|] == p
  }

  /** `s.includes(p)`, computed by scanning from the left. */
  predicate Contains(s: string, p: string)
    decreases |s|
  {
    StartsWith(s, p) || (|s| > 0 && Contains(s[1..], p))
  }

  /** The scan finds `p` exactly when `p` occurs at some position of `s`. */
  lemma {:induction false} ContainsIffOccurs(s: string, p: string)
    ensures Contains(s, p) <==> exists i: nat :: OccursAt(s, p, i)
    decreases |s|
  {
    if |p| <= |s| && s[..|p|] == p {
      assert OccursAt(s, p, 0);
    } else if |s| > 0 {
      ContainsIffOccurs(s[1..], p);
      if Contains(s[1..], p) {
        var i: nat :| OccursAt(s[1..], p, i);
        OccursInTail(s, p, i + 1);
      }
      if i: nat :| OccursAt(s, p, i) {
        assert i != 0;
        OccursInTail(s, p, i);
      }
    }
  }

  /** An occurrence past the first position is an occurrence in the tail, one earlier. */
  lemma OccursInTail(s: string, p: string, i: nat)
    requires 0 < i && 0 < |s|
    ensures OccursAt(s, p, i) <==> OccursAt(s[1..], p, i - 1)
  {
    if i + |p| <= |s| {
      assert s[1..][i - 1..i - 1 + |p|] == s[i..i + |p|];
    }
  }

  predicate IsDigit(c: char)
  {
    '0' <= c <= '9'
  }

  function DigitChar(d: nat): char
    requires d < 10
  {
    ('0' as int + d) as char
  }

  /** The value of a string of decimal digits. */
  function DigitsValue(s: string): nat
    requires forall i :: 0 <= i < |s| ==> IsDigit(s[i])
  {
    if |s| == 0 then 0
    else
      assert IsDigit(s[|s| - 1]);
      10 * DigitsValue(s[..|s| - 1]) + (s[|s| - 1] as int - '0' as int)
  }

  /** The decimal rendering of a non-negative integer (JavaScript `String(n)` for an integer
      below 10^21). */
  function NatToString(n: nat): (r: string)
    ensures |r| >= 1
    ensures forall i :: 0 <= i < |r| ==> IsDigit(r[i])
  {
    if n < 10 then [DigitChar(n)] else NatToString(n / 10) + [DigitChar(n % 10)]
  }

  /** Reading the digits back gives the number. */
  lemma {:induction false} NatToStringValue(n: nat)
    ensures DigitsValue(NatToString(n)) == n
  {
    if n >= 10 {
      NatToStringValue(n / 10);
      var s := NatToString(n);
      assert s[..|s| - 1] == NatToString(n / 10);
    }
  }
}
