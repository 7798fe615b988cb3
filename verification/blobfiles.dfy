/**
 * The file-hosting API routes: `POST` in app/api/files/upload/route.ts stores an uploaded
 * file under the blob path `<category>/<timestamp>-<name>`, and `GET` in
 * app/api/files/list/route.ts lists the stored blobs, reading the category and the original
 * file name back out of each path.
 *
 * The blob store, the request body parser and the clocks are outside the model: the parsed
 * form, the store's answer to `put` and `list`, and the times are parameters.
 */
module BlobFiles {
  import opened Options
  import opened Strings

  /** An uploaded file as the form delivers it. */
  datatype FormFile = FormFile(name: string, size: nat, mime: string)

  /** The fields of the upload form; absent fields are `None`. */
  datatype Form = Form(file: Option<FormFile>, category: Option<string>, uploader: Option<string>)

  /** A stored blob as the store reports it. */
  datatype Blob = Blob(url: string, pathname: string, size: nat, uploadedAt: string)

  datatype UploadReply =
    | Uploaded(url: string, filename: string, pathname: string, size: nat, mime: string,
               category: Option<string>, uploader: Option<string>, uploadedAt: string)
    | UploadError(status: nat, error: string)

  /** A form field interpolated into a template string: an absent field reads "null". */
  function FieldText(v: Option<string>): (r: string)
    ensures v.Some? ==> r == v.value
    ensures v.None? ==> r == "null"
  {
    match v
    case Some(s) => s
    case None => "null"
  }

  /** The blob path an upload is stored under. */
  function BlobPath(category: Option<string>, timestamp: nat, name: string): (p: string)
    ensures |FieldText(category)| + 1 + |name| < |p|
    ensures p[..|FieldText(category)|] == FieldText(category) && p[|FieldText(category)|] == '/'
    ensures p[|p| - |name|..] == name
  {
    FieldText(category) + "/" + NatToString(timestamp) + "-" + name
  }

  /** The upload handler. `form` is `None` when the request body cannot be read, and
      `put(path)` is `None` when the store fails; both answer 500. A form without a file
      answers 400 and stores nothing. On success the reply echoes the original file name
      (not the path), the category and the uploader as given. */
  function Upload(form: Option<Form>, timestamp: nat, now: string, put: string -> Option<Blob>): (r: UploadReply)
    ensures form.None? ==> r == UploadError(500, "Upload failed")
    ensures form.Some? && form.value.file.None? ==> r == UploadError(400, "No file provided")
    ensures form.Some? && form.value.file.Some? ==>
              var f := form.value.file.value;
              var stored := put(BlobPath(form.value.category, timestamp, f.name));
              if stored.None? then r == UploadError(500, "Upload failed")
              else r == Uploaded(stored.value.url, f.name, stored.value.pathname, f.size, f.mime,
                                 form.value.category, form.value.uploader, now)
  {
    match form
    case None => UploadError(500, "Upload failed")
    case Some(fm) =>
      match fm.file
      case None => UploadError(400, "No file provided")
      case Some(f) =>
        match put(BlobPath(fm.category, timestamp, f.name))
        case None => UploadError(500, "Upload failed")
        case Some(b) => Uploaded(b.url, f.name, b.pathname, f.size, f.mime, fm.category, fm.uploader, now)
  }

  /** The last `/`-segment of a path, with "unknown" for an empty one. */
  function LastSegment(pathname: string): (r: string)
    ensures var seg := pathname[LastIndexOf(pathname, '/') + 1..];
            r == if seg == "" then "unknown" else seg
  {
    var parts := Split(pathname, '/');
    SplitLast(pathname, '/', parts);
    var last := parts[|parts| - 1];
    assert last == pathname[LastIndexOf(pathname, '/') + 1..];
    if last == "" then "unknown" else last
  }

  /** A stored file name with its `<timestamp>-` prefix removed: the text after the first
      `-`, or the whole name when it has none. */
  function OriginalName(segment: string): (r: string)
    ensures '-' in segment ==> r == segment[IndexOf(segment, '-') + 1..]
    ensures '-' !in segment ==> r == segment
  {
    var i := IndexOf(segment, '-');
    if i != -1 then segment[i + 1..] else segment
  }

  /** The category and original file name the list handler reads from a blob path: the
      category is the text before the first `/`, or "uncategorized" for a path without one;
      the name is the last segment after its first `-`, or the whole segment without one. */
  function ParsePath(pathname: string): (r: (string, string))
    ensures '/' in pathname ==> r.0 == pathname[..IndexOf(pathname, '/')]
    ensures '/' !in pathname ==> r.0 == "uncategorized"
    ensures r.1 == OriginalName(LastSegment(pathname))
  {
    SplitFirst(pathname, '/');
    var parts := Split(pathname, '/');
    var category := if |parts| > 1 then parts[0] else "uncategorized";
    (category, OriginalName(LastSegment(pathname)))
  }

  /** Reading back a path built by the upload handler gives the category and file name
      that were uploaded, when neither contains `/`. */
  lemma UploadPathRoundTrip(category: string, timestamp: nat, name: string)
    requires '/' !in category && '/' !in name
    ensures ParsePath(BlobPath(Some(category), timestamp, name)) == (category, name)
  {
    var digits := NatToString(timestamp);
    var seg := digits + "-" + name;
    assert BlobPath(Some(category), timestamp, name) == category + "/" + seg;
    StoredName(digits, name);
    PathParts(category, seg);
  }

  /** A stored name is the timestamp's digits, `-` and the original name, with no `/`; the
      original name is what follows the first `-`. */
  lemma StoredName(digits: string, name: string)
    requires forall i :: 0 <= i < |digits| ==> IsDigit(digits[i])
    requires '/' !in name
    ensures var seg := digits + "-" + name;
            '/' !in seg && OriginalName(seg) == name
  {
    var seg := digits + "-" + name;
    assert '-' !in digits && '/' !in digits by {
      forall i | 0 <= i < |digits| ensures digits[i] != '-' && digits[i] != '/' {
        assert IsDigit(digits[i]);
      }
    }
    assert seg[..|digits|] == digits;
    IndexOfIs(seg, '-', |digits|);
    assert seg[|digits| + 1..] == name;
  }

  /** A path made of a category, `/` and a non-empty segment, neither holding `/`, reads
      back as that category and that segment's original name. */
  lemma PathParts(category: string, seg: string)
    requires '/' !in category && '/' !in seg && seg != ""
    ensures ParsePath(category + "/" + seg) == (category, OriginalName(seg))
  {
    var p := category + "/" + seg;
    assert p[..|category|] == category;
    IndexOfIs(p, '/', |category|);
    assert p[|category| + 1..] == seg;
    LastIndexOfIs(p, '/', |category|);
  }

  /** One entry of the list reply. */
  datatype FileEntry = FileEntry(url: string, pathname: string, filename: string, size: nat,
                                 uploadedAt: string, category: string)

  datatype ListReply = Files(files: seq<FileEntry>) | ListError(status: nat, error: string)

  function Describe(b: Blob): (e: FileEntry)
    ensures e.url == b.url && e.pathname == b.pathname && e.size == b.size && e.uploadedAt == b.uploadedAt
    ensures (e.category, e.filename) == ParsePath(b.pathname)
  {
    var (category, name) := ParsePath(b.pathname);
    FileEntry(b.url, b.pathname, name, b.size, b.uploadedAt, category)
  }

  /** The list handler. `blobs` is `None` when the store fails, which answers 500;
      otherwise there is one entry per blob, in the store's order. */
  function ListFiles(blobs: Option<seq<Blob>>): (r: ListReply)
    ensures blobs.None? ==> r == ListError(500, "Failed to list files")
    ensures blobs.Some? ==> r.Files? && |r.files| == |blobs.value|
    ensures blobs.Some? ==> forall i :: 0 <= i < |blobs.value| ==> r.files[i] == Describe(blobs.value[i])
  {
    match blobs
    case None => ListError(500, "Failed to list files")
    case Some(bs) => Files(seq(|bs|, i requires 0 <= i < |bs| => Describe(bs[i])))
  }

  /** Uploading and then listing the stored blob reports the uploaded category and name,
      when the store keeps the path it was given. */
  lemma UploadThenList(form: Form, timestamp: nat, now: string, put: string -> Option<Blob>)
    requires form.file.Some? && form.category.Some?
    requires '/' !in form.category.value && '/' !in form.file.value.name
    requires var path := BlobPath(form.category, timestamp, form.file.value.name);
             put(path).Some? && put(path).value.pathname == path
    ensures var up := Upload(Some(form), timestamp, now, put);
            var path := BlobPath(form.category, timestamp, form.file.value.name);
            && up.Uploaded?
            && ListFiles(Some([put(path).value])).files[0].category == form.category.value
            && ListFiles(Some([put(path).value])).files[0].filename == up.filename
  {
    UploadPathRoundTrip(form.category.value, timestamp, form.file.value.name);
  }
}
