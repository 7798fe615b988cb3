/**
 * The file hosting page (app/code/fh-01/page.tsx): the category filter, the per-category
 * counts, the icon chosen from a file's extension and the unit its size is shown in.
 */
module FileHosting {
  import opened Strings
  import opened Seqs

  datatype FileData = FileData(url: string, pathname: string, filename: string, size: nat, uploadedAt: string, category: string)

  const Categories: seq<string> := ["images", "videos", "documents", "other"]
  const AllFiles := "all"

  /** `filteredFiles`: every file for "all", otherwise the files of that category in order. */
  function FilterFiles(files: seq<FileData>, category: string): (r: seq<FileData>)
    ensures category == AllFiles ==> r == files
    ensures category != AllFiles ==>
              && (forall f :: f in r ==> f in files && f.category == category)
              && (forall f :: f in files && f.category == category ==> f in r)
              && forall f :: multiset(r)[f] == if f.category == category then multiset(files)[f] else 0
  {
    if category == AllFiles then files
    else
      var p := (f: FileData) => f.category == category;
      FilterMultiset(files, p);
      Filter(files, p)
  }

  /** The filter keeps the files in their original order: it distributes over concatenation
      and keeps or drops a single file by its category. */
  lemma FilterFilesOrder(a: seq<FileData>, b: seq<FileData>, category: string)
    ensures FilterFiles(a + b, category) == FilterFiles(a, category) + FilterFiles(b, category)
    ensures forall f :: FilterFiles([f], category) == if category == AllFiles || f.category == category then [f] else []
  {
    if category != AllFiles {
      FilterConcat(a, b, (f: FileData) => f.category == category);
    }
  }

  /** The number of files filed under `category`. */
  function CountOf(files: seq<FileData>, category: string): nat
  {
    if |files| == 0 then 0
    else (if files[0].category == category then 1 else 0) + CountOf(files[1..], category)
  }

  /** `categoryCounts`: one entry per category, the length of that category's filter. */
  function CategoryCounts(files: seq<FileData>): (r: map<string, nat>)
    ensures forall c :: c in r <==> c in Categories
    ensures forall c :: c in r ==> r[c] == CountOf(files, c)
  {
    CountsAreFilterLengths(files);
    map c | c in Categories :: |FilterFiles(files, c)|
  }

  lemma CountsAreFilterLengths(files: seq<FileData>)
    ensures forall c :: c in Categories ==> CountOf(files, c) == |FilterFiles(files, c)|
  {
    forall c | c in Categories
      ensures CountOf(files, c) == |FilterFiles(files, c)|
    {
      CountIsFilterLength(files, c);
    }
  }

  /** A category's count is the length of its filter, so it counts exactly the files the
      category button shows. */
  lemma {:induction false} CountIsFilterLength(files: seq<FileData>, category: string)
    requires category != AllFiles
    ensures CountOf(files, category) == |FilterFiles(files, category)|
  {
    var p := (f: FileData) => f.category == category;
    assert FilterFiles(files, category) == Filter(files, p);
    CountIsFilteredCount(files, category, p);
  }

  lemma {:induction false} CountIsFilteredCount(files: seq<FileData>, category: string, p: FileData -> bool)
    requires forall f :: p(f) <==> f.category == category
    ensures CountOf(files, category) == |Filter(files, p)|
    decreases |files|
  {
    if |files| > 0 {
      CountIsFilteredCount(files[1..], category, p);
    }
  }

  function CountSum(files: seq<FileData>): nat
  {
    CountOf(files, "images") + CountOf(files, "videos") + CountOf(files, "documents") + CountOf(files, "other")
  }

  /** The four counts never add up to more than the files there are, and they add up to
      exactly that when every file carries one of the four categories. */
  lemma {:induction false} CountsBounded(files: seq<FileData>)
    ensures CountSum(files) <= |files|
    ensures (forall f :: f in files ==> f.category in Categories) ==> CountSum(files) == |files|
  {
    if |files| > 0 {
      CountsBounded(files[1..]);
      assert forall f :: f in files[1..] ==> f in files;
    }
  }

  /** `filename.split(".").pop()?.toLowerCase()`: the text after the last dot, or the
      whole name when it has no dot, with ASCII letters lower-cased. */
  function Extension(filename: string): string
  {
    var pieces := Split(filename, '.');
    ToLower(pieces[|pieces| - 1])
  }

  lemma ExtensionAfterLastDot(filename: string)
    ensures Extension(filename) == ToLower(filename[LastIndexOf(filename, '.') + 1..])
  {
    var pieces := Split(filename, '.');
    ExtensionIsLastPiece(filename, pieces);
    SplitLast(filename, '.', pieces);
  }

  lemma ExtensionIsLastPiece(filename: string, pieces: seq<string>)
    requires pieces == Split(filename, '.')
    ensures |pieces| >= 1 && Extension(filename) == ToLower(pieces[|pieces| - 1])
  {
  }

  /** A name with no dot is its own extension. */
  lemma ExtensionWithoutDot(filename: string)
    requires '.' !in filename
    ensures Extension(filename) == ToLower(filename)
  {
    SplitFirst(filename, '.');
  }

  const ImageExtensions: seq<string> := ["jpg", "jpeg", "png", "gif", "webp", "svg"]
  const VideoExtensions: seq<string> := ["mp4", "avi", "mov", "webm"]

  /** The three icons `getFileIcon` draws; documents and everything else share one. */
  datatype Icon = ImageIcon | VideoIcon | FileIcon

  function FileIconOf(filename: string): (r: Icon)
    ensures r == ImageIcon <==> Extension(filename) in ImageExtensions
    ensures r == VideoIcon <==> Extension(filename) !in ImageExtensions && Extension(filename) in VideoExtensions
  {
    var ext := Extension(filename);
    if ext in ImageExtensions then ImageIcon
    else if ext in VideoExtensions then VideoIcon
    else FileIcon
  }

  lemma UpperDot(c: char)
    ensures UpperChar(c) == '.' <==> c == '.'
  {
  }

  /** Two strings with the separator at the same places have it last at the same place. */
  lemma {:induction false} LastIndexOfSame(s: string, t: string, c: char)
    requires |s| == |t|
    requires forall i :: 0 <= i < |s| ==> (s[i] == c <==> t[i] == c)
    ensures LastIndexOf(s, c) == LastIndexOf(t, c)
  {
    if |s| > 0 && s[|s| - 1] != c {
      LastIndexOfSame(s[..|s| - 1], t[..|t| - 1], c);
    }
  }

  /** Upper-casing a name leaves its last dot where it was. */
  lemma LastDotOfUpper(s: string)
    ensures LastIndexOf(ToUpper(s), '.') == LastIndexOf(s, '.')
  {
    var u := ToUpper(s);
    forall i | 0 <= i < |s|
      ensures u[i] == '.' <==> s[i] == '.'
    {
      UpperDot(s[i]);
    }
    LastIndexOfSame(u, s, '.');
  }

  lemma UpperSlice(s: string, k: nat)
    requires k <= |s|
    ensures ToUpper(s)[k..] == ToUpper(s[k..])
  {
  }

  /** The extension does not depend on the case of the file name. */
  lemma ExtensionIgnoresCase(filename: string)
    ensures Extension(ToUpper(filename)) == Extension(filename)
  {
    var k := LastIndexOf(filename, '.') + 1;
    UpperExtension(filename);
    ExtensionAfterLastDot(filename);
    LowerOfUpper(filename[k..]);
  }

  /** The extension of an upper-cased name is the lower-casing of the upper-cased text after
      the original name's last dot. */
  lemma UpperExtension(filename: string)
    ensures var k := LastIndexOf(filename, '.') + 1;
            Extension(ToUpper(filename)) == ToLower(ToUpper(filename[k..]))
  {
    var u := ToUpper(filename);
    var k := LastIndexOf(filename, '.') + 1;
    LastDotOfUpper(filename);
    ExtensionAfterLastDot(u);
    UpperSlice(filename, k);
  }

  /** Neither does the icon. */
  lemma IconIgnoresCase(filename: string)
    ensures FileIconOf(ToUpper(filename)) == FileIconOf(filename)
  {
    ExtensionIgnoresCase(filename);
  }

  /** The unit `formatFileSize` picks, with the size expressed in it. The two-decimal text
      of the kilobyte and megabyte figures is not modelled. */
  datatype SizeLabel = Bytes(text: string) | Kilobytes(value: real) | Megabytes(value: real)

  const KiB: nat := 1024

  function FormatFileSize(bytes: nat): (r: SizeLabel)
    ensures r.Bytes? <==> bytes < KiB
    ensures r.Kilobytes? <==> KiB <= bytes < KiB * KiB
    ensures r.Megabytes? <==> KiB * KiB <= bytes
    ensures r.Bytes? ==> r.text == NatToString(bytes) + " B" && DigitsValue(r.text[..|r.text| - 2]) == bytes
    ensures r.Kilobytes? ==> r.value * KiB as real == bytes as real
    ensures r.Megabytes? ==> r.value * (KiB * KiB) as real == bytes as real
  {
    if bytes < KiB then
      var t := NatToString(bytes) + " B";
      assert t[..|t| - 2] == NatToString(bytes);
      NatToStringValue(bytes);
      Bytes(t)
    else if bytes < KiB * KiB then Kilobytes(bytes as real / KiB as real)
    else Megabytes(bytes as real / (KiB * KiB) as real)
  }

  function UnitRank(l: SizeLabel): nat
  {
    match l
    case Bytes(_) => 0
    case Kilobytes(_) => 1
    case Megabytes(_) => 2
  }

  /** A larger file never gets a smaller unit, and the figure shown is at most 1024 below
      the megabyte unit. */
  lemma UnitsAreOrdered(a: nat, b: nat)
    requires a <= b
    ensures UnitRank(FormatFileSize(a)) <= UnitRank(FormatFileSize(b))
    ensures FormatFileSize(a).Kilobytes? ==> 1.0 <= FormatFileSize(a).value < 1024.0
  {
  }
}
