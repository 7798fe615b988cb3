/**
 * The banner text renderer of components/ascii-hero.tsx: each character is drawn as a
 * six-row block glyph, the rows of all glyphs are joined into six lines, and every line is
 * followed by shaded copies shifted right to give the banner depth.
 */
module AsciiHero {
  import opened Options
  import opened Strings

  const GlyphRows: nat := 6

  /** The glyph table: the 26 capital letters and the space. Every glyph is eight columns
      wide, except that the bottom row of Q has nine. */
  function Glyph(c: char): (g: Option<seq<string>>)
    ensures g.Some? ==> |g.value| == GlyphRows
    ensures g.Some? <==> ('A' <= c <= 'Z' || c == ' ')
  {
    match c
    case 'A' => Some(["  ████  ", " ██  ██ ", "████████", "██    ██", "██    ██", "██    ██"])
    case 'B' => Some(["███████ ", "██    ██", "███████ ", "██    ██", "██    ██", "███████ "])
    case 'C' => Some([" ███████", "██      ", "██      ", "██      ", "██      ", " ███████"])
    case 'D' => Some(["███████ ", "██    ██", "██    ██", "██    ██", "██    ██", "███████ "])
    case 'E' => Some(["████████", "██      ", "██████  ", "██      ", "██      ", "████████"])
    case 'F' => Some(["████████", "██      ", "██████  ", "██      ", "██      ", "██      "])
    case 'G' => Some([" ███████", "██      ", "██  ████", "██    ██", "██    ██", " ███████"])
    case 'H' => Some(["██    ██", "██    ██", "████████", "██    ██", "██    ██", "██    ██"])
    case 'I' => Some(["████████", "   ██   ", "   ██   ", "   ██   ", "   ██   ", "████████"])
    case 'J' => Some(["████████", "      ██", "      ██", "      ██", "██    ██", " ███████"])
    case 'K' => Some(["██    ██", "██  ██  ", "████    ", "██  ██  ", "██    ██", "██    ██"])
    case 'L' => Some(["██      ", "██      ", "██      ", "██      ", "██      ", "████████"])
    case 'M' => Some(["██    ██", "████████", "██ ██ ██", "██    ██", "██    ██", "██    ██"])
    case 'N' => Some(["██    ██", "███   ██", "██ ██ ██", "██   ███", "██    ██", "██    ██"])
    case 'O' => Some([" ███████", "██    ██", "██    ██", "██    ██", "██    ██", " ███████"])
    case 'P' => Some(["███████ ", "██    ██", "███████ ", "██      ", "██      ", "██      "])
    case 'Q' => Some([" ███████", "██    ██", "██    ██", "██ ██ ██", "██   ███", " ████████"])
    case 'R' => Some(["███████ ", "██    ██", "███████ ", "██   ██ ", "██    ██", "██    ██"])
    case 'S' => Some([" ███████", "██      ", " ██████ ", "      ██", "      ██", "███████ "])
    case 'T' => Some(["████████", "   ██   ", "   ██   ", "   ██   ", "   ██   ", "   ██   "])
    case 'U' => Some(["██    ██", "██    ██", "██    ██", "██    ██", "██    ██", " ███████"])
    case 'V' => Some(["██    ██", "██    ██", "██    ██", " ██  ██ ", "  ████  ", "   ██   "])
    case 'W' => Some(["██    ██", "██    ██", "██    ██", "██ ██ ██", "████████", "██    ██"])
    case 'X' => Some(["██    ██", " ██  ██ ", "  ████  ", "  ████  ", " ██  ██ ", "██    ██"])
    case 'Y' => Some(["██    ██", " ██  ██ ", "  ████  ", "   ██   ", "   ██   ", "   ██   "])
    case 'Z' => Some(["████████", "      ██", "    ██  ", "  ██    ", "██      ", "████████"])
    case ' ' => Some(["        ", "        ", "        ", "        ", "        ", "        "])
    case _ => None
  }

  /** The glyph drawn for an upper-cased character: characters outside the table are drawn
      as E. */
  function LetterGlyph(c: char): (g: seq<string>)
    ensures |g| == GlyphRows
    ensures Glyph(c).None? ==> g == Glyph('E').value
  {
    Glyph(c).GetOr(Glyph('E').value)
  }

  /** Row `row` of the glyphs of `cs`, each followed by two spaces of letter spacing. */
  function GlyphRow(cs: string, row: nat): string
    requires row < GlyphRows
  {
    if |cs| == 0 then "" else GlyphRow(cs[..|cs| - 1], row) + LetterGlyph(cs[|cs| - 1])[row] + "  "
  }

  /** Main line `row` of the banner for `text`, which is upper-cased first. */
  function MainLine(text: string, row: nat): string
    requires row < GlyphRows
  {
    GlyphRow(ToUpper(text), row)
  }

  /** Solid blocks replaced by shaded ones. */
  function Shade(line: string): (r: string)
    ensures |r| == |line|
    ensures forall i :: 0 <= i < |line| ==> r[i] == (if line[i] == '█' then '▓' else line[i])
  {
    seq(|line|, i requires 0 <= i < |line| => if line[i] == '█' then '▓' else line[i])
  }

  function Spaces(n: nat): (r: string)
    ensures |r| == n && forall i :: 0 <= i < n ==> r[i] == ' '
  {
    seq(n, i => ' ')
  }

  /** Line `d` of the block drawn for one main line: the line itself for `d` = 0, and for
      `d` >= 1 the line shaded and shifted right by `d` spaces. */
  function DepthLine(line: string, d: nat): string
  {
    if d == 0 then line else Spaces(d) + Shade(line)
  }

  /** A main line followed by its `depth` shaded copies. */
  function Block(line: string, depth: nat): (r: seq<string>)
    ensures |r| == depth + 1
    ensures forall d :: 0 <= d <= depth ==> r[d] == DepthLine(line, d)
  {
    seq(depth + 1, d requires 0 <= d <= depth => DepthLine(line, d))
  }

  /** The blocks of the first `n` main lines. */
  function Blocks(text: string, depth: nat, n: nat): (r: seq<string>)
    requires n <= GlyphRows
    ensures |r| == n * (depth + 1)
    ensures forall row, d :: 0 <= row < n && 0 <= d <= depth ==>
              row * (depth + 1) + d < |r| && r[row * (depth + 1) + d] == DepthLine(MainLine(text, row), d)
  {
    if n == 0 then []
    else
      var prev := Blocks(text, depth, n - 1);
      var blk := Block(MainLine(text, n - 1), depth);
      AppendBlock(text, depth, n, prev, blk);
      prev + blk
  }

  /** Appending the block of main line `n` - 1 to the blocks of the lines above it. */
  lemma AppendBlock(text: string, depth: nat, n: nat, prev: seq<string>, blk: seq<string>)
    requires 1 <= n <= GlyphRows
    requires |prev| == (n - 1) * (depth + 1) && |blk| == depth + 1
    requires forall row, d :: 0 <= row < n - 1 && 0 <= d <= depth ==>
               row * (depth + 1) + d < |prev| && prev[row * (depth + 1) + d] == DepthLine(MainLine(text, row), d)
    requires forall d :: 0 <= d <= depth ==> blk[d] == DepthLine(MainLine(text, n - 1), d)
    ensures var r := prev + blk;
            && |r| == n * (depth + 1)
            && forall row, d :: 0 <= row < n && 0 <= d <= depth ==>
                 row * (depth + 1) + d < |r| && r[row * (depth + 1) + d] == DepthLine(MainLine(text, row), d)
  {
    var r := prev + blk;
    assert n * (depth + 1) == (n - 1) * (depth + 1) + (depth + 1);
    forall row, d | 0 <= row < n && 0 <= d <= depth
      ensures row * (depth + 1) + d < |r| && r[row * (depth + 1) + d] == DepthLine(MainLine(text, row), d)
    {
      if row < n - 1 {
        assert prev[row * (depth + 1) + d] == DepthLine(MainLine(text, row), d);
      } else {
        assert row * (depth + 1) == |prev|;
      }
    }
  }

  /** `create3DText`: six blocks of `depth` + 1 lines, top row first. */
  function Create3DText(text: string, depth: nat): (r: seq<string>)
    ensures |r| == GlyphRows * (depth + 1)
    ensures forall row, d :: 0 <= row < GlyphRows && 0 <= d <= depth ==>
              row * (depth + 1) + d < |r| && r[row * (depth + 1) + d] == DepthLine(MainLine(text, row), d)
  {
    Blocks(text, depth, GlyphRows)
  }

  /** The glyph rows of a string depend only on its characters' glyphs. */
  lemma {:induction false} GlyphRowSame(a: string, b: string, row: nat)
    requires row < GlyphRows && |a| == |b|
    requires forall i :: 0 <= i < |a| ==> LetterGlyph(a[i]) == LetterGlyph(b[i])
    ensures GlyphRow(a, row) == GlyphRow(b, row)
  {
    if |a| > 0 {
      GlyphRowSame(a[..|a| - 1], b[..|b| - 1], row);
    }
  }

  /** Lower- and upper-case letters render identically, because the text is upper-cased
      before the glyphs are looked up. */
  lemma CaseInsensitive(text: string, depth: nat)
    ensures Create3DText(ToLower(text), depth) == Create3DText(text, depth)
  {
    var a := ToUpper(ToLower(text));
    var b := ToUpper(text);
    forall row | 0 <= row < GlyphRows
      ensures MainLine(ToLower(text), row) == MainLine(text, row)
    {
      GlyphRowSame(a, b, row);
    }
    BlocksSame(ToLower(text), text, depth, GlyphRows);
  }

  lemma {:induction false} BlocksSame(a: string, b: string, depth: nat, n: nat)
    requires n <= GlyphRows
    requires forall row :: 0 <= row < GlyphRows ==> MainLine(a, row) == MainLine(b, row)
    ensures Blocks(a, depth, n) == Blocks(b, depth, n)
  {
    if n > 0 {
      BlocksSame(a, b, depth, n - 1);
    }
  }

  /** A character outside the table renders exactly like E. */
  lemma UnknownRendersAsE(c: char, depth: nat)
    requires Glyph(UpperChar(c)).None?
    ensures Create3DText([c], depth) == Create3DText("E", depth)
  {
    forall row | 0 <= row < GlyphRows
      ensures MainLine([c], row) == MainLine("E", row)
    {
      GlyphRowSame(ToUpper([c]), ToUpper("E"), row);
    }
    BlocksSame([c], "E", depth, GlyphRows);
  }

  /** Every row of every glyph is eight columns wide, except the bottom row of Q. */
  lemma GlyphWidth(c: char, row: nat)
    requires row < GlyphRows
    ensures |LetterGlyph(c)[row]| == if c == 'Q' && row == 5 then 9 else 8
  {
  }

  /** So a main line is ten columns per character, except the bottom line, which is one
      wider for every Q. */
  lemma {:induction false} MainLineWidth(cs: string, row: nat)
    requires row < GlyphRows
    ensures |GlyphRow(cs, row)| == 10 * |cs| + (if row == 5 then multiset(cs)['Q'] else 0)
  {
    if |cs| > 0 {
      MainLineWidth(cs[..|cs| - 1], row);
      GlyphWidth(cs[|cs| - 1], row);
      assert cs == cs[..|cs| - 1] + [cs[|cs| - 1]];
    }
  }

  /** `handleUpdateText`: a blank input is ignored; otherwise the banner shows the trimmed
      input. */
  function UpdateText(current: string, input: string): (r: string)
    ensures IsBlank(input) ==> r == current
    ensures !IsBlank(input) ==> r == Trim(input) && r != "" && !IsSpace(r[0]) && !IsSpace(r[|r| - 1])
  {
    if Trim(input) != "" then Trim(input) else current
  }
}
