# cloudplus-sitedev in Dafny

A model of the stateful core of the cloudplus-sitedev site: the layered drawing editor
(`app/code/dr-01/page.tsx`), the browser credential store (`lib/auth.ts`), the file
upload and list API routes, and the small pure functions behind the other pages (weather
banding, text analysis, the ASCII banner, hex encoding of digests, the script library,
file hosting, the project-code lookup, the login form and the music player). Every
operation is a pure function over immutable datatypes. Its contract states what the page
promises, and lemmas relate the operations to one another: undo and redo, signup then login,
upload then list, grow then shrink, and encode then decode.

One module per source file or component, all at the top level:

| file | module | models |
|---|---|---|
| option.dfy | `Options` | the optional-value datatype |
| seqs.dfy | `Seqs` | `filter`, `find`, `findIndex`, `map` with a condition, `splice` |
| strings.dfy | `Strings` | JavaScript `trim`, `indexOf`/`lastIndexOf`, `split`/`join` on one character, ASCII case, decimal digits |
| raster.dfy | `Raster` | RGBA canvases, `drawImage` at the origin into a new size, `clearRect` |
| history.dfy | `History` | `saveToHistory`, `undo`, `redo` |
| layers.dfy | `Layers` | `createNewLayer`, visibility, opacity, `handleLayerDrop` |
| scene.dfy | `Scene` | texts and images: delete-tool and move-tool hit priority; rotate, resize and drag |
| effects.dfy | `Effects` | `applyEffect` |
| editor.dfy | `Editor` | the editor state and every handler that records history; zoom |
| auth.dfy | `Auth` | `lib/auth.ts` over a key-value store |
| blobfiles.dfy | `BlobFiles` | the upload and list routes |
| asciihero.dfy | `AsciiHero` | the glyph table, `create3DText`, `handleUpdateText` |
| weather.dfy | `Weather` | weather-code banding, `VerticalText`, the search guard |
| textanalyzer.dfy | `TextAnalyzer` | `analyzeText` |
| hashgen.dfy | `HashGen` | hex encoding of digests, `handleGenerate` |
| scripts.dfy | `Scripts` | categories, filter, current script, copy-all text |
| filehosting.dfy | `FileHosting` | filter, counts, extension, icon, size unit |
| codelookup.dfy | `CodeLookup` | the `projects` table, `handleSubmit`, `currentProject` |
| loginpage.dfy | `LoginPage` | the login form's `handleSubmit` |
| musicplayer.dfy | `MusicPlayer` | the playlist provider |

Handlers in the editor read `layers`, `images` and `textObjects` from the render that
created them. So each model operation records the snapshot its call site actually takes.
For most handlers that is the document before their own change. A brush or eraser stroke
paints in place, so its snapshot includes the stroke. A shape is painted after its save.

## Model

| member | source | states |
|---|---|---|
| History.Save | app/code/dr-01/page.tsx:245-265 | the snapshot becomes the newest entry and the pointer is set to it; the entries after the old pointer are dropped; at most the 49 entries before it are kept, so the oldest is shifted out on overflow |
| History.SaveToEmpty | app/code/dr-01/page.tsx:245-265 | the first save into an empty history holds just that snapshot, with the pointer on it |
| History.Undo | app/code/dr-01/page.tsx:279-293 | a no-op at pointer 0 or -1; otherwise the pointer moves back one and that snapshot is loaded; entries are unchanged |
| History.Redo | app/code/dr-01/page.tsx:295-309 | a no-op at the newest entry; otherwise the pointer moves forward one and that snapshot is loaded |
| History.UndoThenRedo | app/code/dr-01/page.tsx:279-309 | undo then redo gives the same history back and reloads the snapshot at the pointer |
| History.RedoThenUndo | app/code/dr-01/page.tsx:279-309 | redo then undo gives the same history back |
| History.SaveDiscardsRedo | app/code/dr-01/page.tsx:255-256 | after a save there is nothing to redo |
| History.SavesStayBounded | app/code/dr-01/page.tsx:255-265 | any run of saves keeps the history valid (at most 50 entries, pointer in range) with the last snapshot at the pointer |
| History.SaveAllKeepsNewest | app/code/dr-01/page.tsx:255-265 | from the empty history, any run of saves keeps exactly the newest 50 snapshots, oldest first |
| Layers.CreateNewLayer | app/code/dr-01/page.tsx:326-342 | a visible layer at opacity 100 with the given id, name and kind, and a blank canvas of the current size |
| Layers.AppendLayer | app/code/dr-01/page.tsx:344-346 | one layer appended on top, named "Layer n+1", blank and visible; the existing layers are unchanged |
| Layers.FindLayer | app/code/dr-01/page.tsx:713 | `layers.find` by id: found exactly when some layer has that id, and then it is the first such layer |
| Seqs.Find | app/code/dr-01/page.tsx:713 | `find`: something is found exactly when some element satisfies the test, and it is the first such element |
| Layers.ToggleVisibility | app/code/dr-01/page.tsx:363-365 | the layers with that id flip their visibility and nothing else; the other layers are unchanged |
| Layers.ToggleTwice | app/code/dr-01/page.tsx:363-365 | toggling twice restores the stack |
| Layers.SetOpacity | app/code/dr-01/page.tsx:367-369 | the layers with that id take the new opacity; every other field and layer is unchanged |
| Layers.SetOpacityLastWins | app/code/dr-01/page.tsx:367-369 | two opacity edits equal the second one alone |
| Layers.Drop | app/code/dr-01/page.tsx:1002-1022 | no drag, or dropping on itself, clears the drag state and changes nothing; an unknown id changes nothing; otherwise the result is a permutation with the dragged layer at the target's index, and removing that layer from both sides gives the same stack |
| Seqs.FindIndex | app/code/dr-01/page.tsx:1010-1011 | `findIndex`: the first index whose element satisfies the test, or -1 when none does |
| Seqs.FilterMultiset | app/code/dr-01/page.tsx:353-356 | `filter` keeps each element that passes the test as often as it occurs, and drops the rest |
| Seqs.FilterConcat | app/code/fh-01/page.tsx:142 | `filter` keeps the order of what it keeps: filtering a concatenation is the concatenation of the filtered parts |
| Seqs.InsertAt | app/code/dr-01/page.tsx:1015-1017 | `splice(i, 0, x)` puts x at index i; removing it again gives the original sequence |
| Raster.Blit | app/code/dr-01/page.tsx:979-986 | a new w×h canvas holding the old pixel where the old canvas reaches, and transparent elsewhere |
| Raster.BlitGrowThenShrink | app/code/dr-01/page.tsx:972-990 | enlarging a canvas and shrinking it back loses nothing |
| Raster.BlitShrinkClips | app/code/dr-01/page.tsx:972-990 | shrinking keeps exactly the top-left part |
| Raster.ClearRegion | app/code/dr-01/page.tsx:898 | `clearRect(0, 0, w, h)`: the pixels inside become transparent and the rest are kept |
| Raster.ClearWholeIsBlank | app/code/dr-01/page.tsx:894-900 | clearing a canvas of exactly that size leaves it blank |
| Editor.Init | app/code/dr-01/page.tsx:135-139 | one drawing layer named "Background", made active; no objects; empty history; zoom 100 on an 800×600 canvas |
| Editor.AddLayer | app/code/dr-01/page.tsx:344-349 | one new "Layer n+1" on top, made active; objects unchanged; the snapshot recorded is the stack before the change |
| Editor.DeleteLayer | app/code/dr-01/page.tsx:351-361 | refused while one layer is left; otherwise the layer and its images and texts are removed, the first remaining layer becomes active if the deleted one was, and the old document is recorded |
| Editor.DeleteLayerCascade | app/code/dr-01/page.tsx:351-361 | with distinct layer ids, no image or text of the deleted layer survives and every other image and text does |
| Editor.DeleteUnknownLayer | app/code/dr-01/page.tsx:351-361 | deleting an id no layer has keeps the layers but still records a history entry |
| Editor.Undo | app/code/dr-01/page.tsx:279-293 | the editor's undo: the history steps back and the loaded snapshot becomes the document |
| Editor.Redo | app/code/dr-01/page.tsx:295-309 | the editor's redo: the history steps forward and the loaded snapshot becomes the document |
| Editor.UndoThenRedo | app/code/dr-01/page.tsx:279-309 | undo then redo restores the history and loads the snapshot at the pointer |
| Editor.UndoAfterOneAdd | app/code/dr-01/page.tsx:344-349 | the first add into an editor with an empty history stores its document as the only snapshot, current, so undo changes nothing |
| Editor.UndoAfterTwoAdds | app/code/dr-01/page.tsx:344-349 | from a history holding one current snapshot, an add stores the current document after it, and undo then loads that snapshot |
| Editor.UndoAfterAddsFromEmpty | app/code/dr-01/page.tsx:344-349 | from any editor with an empty history: undo after one add does nothing; undo after two adds restores the document from before both |
| Editor.UndoAfterAdds | app/code/dr-01/page.tsx:344-349 | snapshots precede each change: after one add, undo does nothing (the pointer is at 0); after two adds, undo loads the fresh editor's document, not the document after the first add |
| Editor.AddText | app/code/dr-01/page.tsx:852-873 | needs a non-empty text, a position and an existing active layer; then appends one text at rotation 0 on that layer, records the old document and resets the draft |
| Editor.UpdateText | app/code/dr-01/page.tsx:875-892 | without an edited id nothing happens; otherwise the texts with that id take the form's text, size, font and colour, the old document is recorded and the form closes |
| Editor.AddImage | app/code/dr-01/page.tsx:943-970 | needs an existing active layer; then appends one image at (50, 50) with the picture's size and rotation 0, and records the old document |
| Editor.AddBackground | app/code/dr-01/page.tsx:915-941 | the canvas takes the picture's size, and a background layer holding the picture goes to the bottom; the old document is recorded |
| Editor.ClearCanvas | app/code/dr-01/page.tsx:894-905 | every layer keeps its place but its canvas region is cleared; texts and images are dropped; the recorded snapshot holds the cleared layers with the old objects |
| Editor.ClearCanvasBlanks | app/code/dr-01/page.tsx:894-905 | on canvas-sized layers, clearing leaves every layer blank, and clearing twice equals clearing once |
| Editor.ApplyCanvasSize | app/code/dr-01/page.tsx:972-990 | the new size is taken; every layer is redrawn top-left into it, clipped; the old document is recorded |
| Editor.GrowThenShrinkRestores | app/code/dr-01/page.tsx:972-990 | enlarging the canvas and shrinking it back restores the document |
| Editor.Paint | app/code/dr-01/page.tsx:713-758 | a stroke repaints only the first layer with the active id (`layers.find`); without one nothing changes; no history is recorded |
| Editor.PaintHitsFirstActive | app/code/dr-01/page.tsx:713 | the layer painted is the first one carrying the active id, and every other layer is untouched |
| Editor.EndStroke | app/code/dr-01/page.tsx:789-794 | pointer-up after a stroke records the current document, stroke included |
| Editor.EndShape | app/code/dr-01/page.tsx:789-836 | pointer-up with the shape tool records the document and then paints the shape onto the active layer |
| Editor.StrokeRecordedShapeNot | app/code/dr-01/page.tsx:789-836 | the newest snapshot after a stroke holds the stroke, while after a shape it is the document before the shape |
| Editor.DeleteTool | app/code/dr-01/page.tsx:453-495 | a delete click that removes an object records the old document; a miss changes nothing |
| Editor.ZoomIn | app/code/dr-01/page.tsx:1029-1031 | `min(z + 10, 200)`: the step when it stays within 200, exactly 200 when it would pass it; never below the old zoom inside the range |
| Editor.ZoomOut | app/code/dr-01/page.tsx:1033-1035 | `max(z − 10, 25)`: the step when it stays at or above 25, exactly 25 when it would pass below; never above the old zoom inside the range |
| Editor.ZoomRoundTrip | app/code/dr-01/page.tsx:1029-1035 | out then in returns to the same zoom above the bottom step; both ends are fixed points |
| Editor.ZoomKeepsInv | app/code/dr-01/page.tsx:1029-1039 | zoom in, zoom out and reset keep the zoom within 25..200 |
| Scene.DeletePick | app/code/dr-01/page.tsx:453-495 | texts are scanned from the last one down, then images from the last one down; the pick is the first hit, and nothing above it was hit |
| Scene.DeleteClick | app/code/dr-01/page.tsx:453-495 | the picked object's id is filtered out of its list and a save follows; a miss changes nothing |
| Scene.DeleteRemovesExactlyOne | app/code/dr-01/page.tsx:453-495 | with distinct ids, a delete click removes exactly the picked object and keeps everything else in order |
| Scene.TextGrab | app/code/dr-01/page.tsx:531-573 | a text's handles in the source's order (rotation knob, resize handle, body); a body grab records the offset from the anchor |
| Scene.ImageGrab | app/code/dr-01/page.tsx:575-610 | an image's handles in the same order; a body grab records the offset from the top-left corner |
| Scene.MoveToolDown | app/code/dr-01/page.tsx:497-615 | a click on the selected text's body opens the editor; otherwise the topmost grabbed text, then the topmost grabbed image, is selected with its handle; a miss deselects |
| Scene.RotateTexts | app/code/dr-01/page.tsx:660-666 | the texts with the selected id take the angle; the others are unchanged |
| Scene.RotateImages | app/code/dr-01/page.tsx:652-659 | the images with the selected id take the angle; the others are unchanged |
| Scene.ResizeImageAbout | app/code/dr-01/page.tsx:671-683 | each side becomes max(20, 2 × the pointer's local offset), and the centre is kept |
| Scene.ResizeImages | app/code/dr-01/page.tsx:668-687 | the first image with the id is measured, and every image with that id takes the resulting box; the others are unchanged |
| Scene.ResizeTexts | app/code/dr-01/page.tsx:688-693 | every text with the id takes font size max(12, \|px − x\| / 5), where x is that of the first text with the id; the others are unchanged |
| Scene.DragTexts | app/code/dr-01/page.tsx:702-708 | the texts with the id are placed so that the grab offset sits under the pointer; the others are unchanged |
| Scene.DragImages | app/code/dr-01/page.tsx:695-701 | the same for images |
| Scene.DragBackIsIdentity | app/code/dr-01/page.tsx:565-573 | grabbing a text's body and dragging to the grab point leaves every text where it was |
| Effects.RoundHalfEven | app/code/dr-01/page.tsx:379 | the byte stored for a non-negative rational: the nearest integer, ties to even |
| Effects.GrayLevel | app/code/dr-01/page.tsx:376-381 | the stored grey level is (r+g+b+1) div 3, the mean rounded to the nearest integer |
| Effects.Brighten | app/code/dr-01/page.tsx:399-405 | min(255, c + 50) |
| Effects.ContrastChannel | app/code/dr-01/page.tsx:406-413 | 1.5 × (c − 128) + 128 clamped to 0..255, rounded to the nearest byte, a tie (odd 3c − 128) going to the even byte |
| Effects.SepiaChannel | app/code/dr-01/page.tsx:389-397 | 255 once the weighted sum reaches 255; below that, the byte within one half of the exact weighted sum, ties going to the even byte (see Left out for doubles) |
| Effects.MapPixels | app/code/dr-01/page.tsx:376-413 | the per-pixel effects apply the same transform to every pixel, in place |
| Effects.PixelateGrid | app/code/dr-01/page.tsx:414-435 | every pixel, alpha included, takes the original value of its 8×8 tile's top-left pixel, with tiles clipped at the edges |
| Effects.PixelateTiles | app/code/dr-01/page.tsx:414-435 | the source's tile loop: band by band, left to right; each tile reads its corner and then fills itself; it computes PixelateGrid |
| Effects.ApplyEffect | app/code/dr-01/page.tsx:371-438 | every effect gives a w×h image; the per-pixel laws are in the lemmas below |
| Effects.EffectKeepsAlpha | app/code/dr-01/page.tsx:375-413 | every effect other than pixelate keeps alpha; "blur" has no case and changes nothing |
| Effects.InvertTwice | app/code/dr-01/page.tsx:382-388 | invert maps each of R, G and B from c to 255 − c and keeps alpha, so inverting twice is the identity |
| Effects.GrayscaleIsGrey | app/code/dr-01/page.tsx:376-381 | grayscale gives equal R, G and B and keeps alpha; a grey pixel is a fixed point |
| Effects.GrayscaleOfRed | app/code/dr-01/page.tsx:376-381 | pure red becomes (85, 85, 85) |
| Effects.BrightnessBounds | app/code/dr-01/page.tsx:399-405 | brightness never darkens a channel and saturates at 255 |
| Effects.ContrastFixpoints | app/code/dr-01/page.tsx:406-413 | contrast fixes 128, 0 and 255, and sends 129 to 130 and 131 to 132 (129.5 and 132.5 rounded to even) |
| Effects.PixelateIdempotent | app/code/dr-01/page.tsx:414-435 | pixelating twice is pixelating once |
| Auth.Login | lib/auth.ts:13-37 | the built-in administrator always gets in as admin; anyone else gets in exactly when a non-empty stored password equals the given one, as a non-admin; failure changes nothing; stored items never change |
| Auth.Signup | lib/auth.ts:38-67 | mismatch, then too short (name < 3 or password < 6, counted in UTF-16 code units as `length` counts), then name taken, each refused with no change; otherwise the password is stored and the user is signed in as non-admin |
| Auth.SignupCountsCodeUnits | lib/auth.ts:46 | a password of three emoji is six code units long, so it is accepted though it has only three characters |
| Strings.Utf16Length | lib/auth.ts:46 | `length` counts one unit per character up to U+FFFF and two above, so it lies between the character count and twice it, and equals it for text without astral characters |
| Auth.SignupThenLogin | lib/auth.ts:13-67 | after a successful sign-up, the same credentials log in, as admin only for the built-in pair |
| Auth.Logout | lib/auth.ts:69-72 | only the signed-in user is removed; afterwards nobody is authenticated or admin |
| Auth.LoginSignsIn | lib/auth.ts:74-94 | after a successful login the user is authenticated, `getCurrentUser` names them, and `isAdmin` holds exactly for the built-in pair |
| Auth.DeleteUser | lib/auth.ts:127-136 | the built-in administrator is refused with no change; for anyone else, exactly the password and metadata keys are removed |
| Auth.MakeAdmin | lib/auth.ts:138-157 | refused without a stored password; otherwise the admin metadata is written, and the signed-in user becomes admin when it is the same user |
| Auth.ListKeys | lib/auth.ts:102-122 | exactly one entry per `user_` key other than `user_meta`, in the order the keys are enumerated: the i-th entry is named by the i-th such key without its prefix and carries the admin flag from that name's metadata |
| Auth.GetAllUsers | lib/auth.ts:96-125 | the built-in administrator first, then one entry per enumerated `user_` key other than `user_meta`, in enumeration order, each a stored account with the admin flag read from its metadata |
| Auth.ListedIffStored | lib/auth.ts:96-125 | a name is listed after the administrator exactly when its `user_` key is stored and the name is not "meta" |
| Auth.MakeAdminListed | lib/auth.ts:96-157 | after `makeAdmin`, the list shows that account as admin |
| Auth.DeleteUserUnlisted | lib/auth.ts:96-136 | after `deleteUser`, the name is no longer listed |
| BlobFiles.FieldText | app/api/files/upload/route.ts:8-17 | a missing form field reads "null" in the path template |
| BlobFiles.BlobPath | app/api/files/upload/route.ts:16-17 | the path starts with the category and "/" and ends with the file name, with the timestamp between them |
| BlobFiles.Upload | app/api/files/upload/route.ts:4-37 | no file gives 400 "No file provided"; an unreadable form or a failed store gives 500 "Upload failed"; otherwise the reply echoes the original name, category and uploader, with the store's url and path |
| BlobFiles.ParsePath | app/api/files/list/route.ts:9-14 | the category is the part before the first "/" (or "uncategorized"); the name is the last segment (or "unknown") without its text up to the first "-" |
| BlobFiles.UploadPathRoundTrip | app/api/files/list/route.ts:9-14 | parsing a path built at upload gives back the category and the original name, when neither holds "/" |
| BlobFiles.ListFiles | app/api/files/list/route.ts:4-31 | a store failure gives 500; otherwise one entry per blob in the same order, with url, path, size and time copied and the parsed category and name |
| BlobFiles.UploadThenList | app/api/files/list/route.ts:8-24 | uploading and then listing the stored blob reports the uploaded category and name |
| AsciiHero.Glyph | components/ascii-hero.tsx:21-50 | the table has a six-row glyph exactly for A–Z and the space |
| AsciiHero.LetterGlyph | components/ascii-hero.tsx:53-56 | a character outside the table is drawn with the E glyph |
| AsciiHero.Create3DText | components/ascii-hero.tsx:52-81 | 6 × (depth + 1) lines: for each glyph row, the main line of the upper-cased text, then `depth` copies with █ shaded to ▓, shifted right by 1, 2, … spaces |
| AsciiHero.CaseInsensitive | components/ascii-hero.tsx:53-56 | lower- and upper-case text render identically |
| AsciiHero.UnknownRendersAsE | components/ascii-hero.tsx:53-56 | a character outside the table renders exactly like E |
| AsciiHero.MainLineWidth | components/ascii-hero.tsx:60-66 | each main line is ten columns per character, plus one on the bottom row for each Q |
| AsciiHero.UpdateText | components/ascii-hero.tsx:193-198 | a blank input leaves the banner text alone; otherwise it becomes the trimmed input |
| Weather.BandOf | app/code/1300/page.tsx:35-57 | the band of a code by range: 0 clear; below 0 or 1–3 partly cloudy; 4–48 fog; 49–67 rain; 68–77 snow; 78–82 rain showers; 83–86 snow showers; 87–99 thunderstorm; above 99 unknown |
| Weather.ChainsFollowBands | app/code/1300/page.tsx:35-57 | both if-chains pick the band the ranges give, the first bound that fits winning |
| Weather.SymbolAgreesWithDescription | app/code/1300/page.tsx:35-57 | two codes share a symbol exactly when they share a description |
| Weather.BandNamesDistinct | app/code/1300/page.tsx:35-57 | different bands have different symbols and different descriptions |
| Weather.VerticalText | app/code/1300/page.tsx:65-71 | one element per character, with spaces shown as "." |
| Weather.Search | app/code/1300/page.tsx:88-114 | a blank location gives "ENTER A LOCATION" before any lookup; a failure gives "SEARCH FAILED"; no match gives "LOCATION NOT FOUND"; otherwise the first match is shown |
| Weather.SpacesAreBlank | app/code/1300/page.tsx:92-95 | a location of spaces never reaches the geocoder |
| TextAnalyzer.Analyze | app/code/nt-01/page.tsx:14-27 | a blank input keeps the old analysis; positive wins over negative; the word count is the number of white-space-separated words of the trimmed input; the preview is the first 50 characters with "..." exactly when longer |
| TextAnalyzer.WordCountCountsWords | app/code/nt-01/page.tsx:17 | the pieces counted are non-empty, free of white space, and together are the input without its white space; their number is the number of word beginnings in the trimmed input |
| TextAnalyzer.SplitSpacesCount | app/code/nt-01/page.tsx:17 | splitting a trimmed string at white-space runs gives one piece per word beginning, a non-space character at the start or right after white space |
| TextAnalyzer.CaseDoesNotMatter | app/code/nt-01/page.tsx:18-20 | upper-casing the input changes neither blankness nor sentiment |
| HashGen.PaddedIsHexByte | app/code/cl-02/page.tsx:34 | `toString(16).padStart(2, '0')` is the two-digit lowercase form of the byte |
| HashGen.Hex | app/code/cl-02/page.tsx:33-35 | two characters per byte |
| HashGen.HexDigits | app/code/cl-02/page.tsx:33-35 | positions 2i and 2i+1 hold byte i's high and low nibble digits |
| HashGen.HexRoundTrip | app/code/cl-02/page.tsx:33-35 | decoding the encoding gives the bytes back |
| HashGen.HexInjective | app/code/cl-02/page.tsx:33-35 | different digests never share an encoding |
| HashGen.Digests | app/code/cl-02/page.tsx:25-58 | the four digests, each hex-encoded under its name; the first throw abandons the rest and its message is reported |
| HashGen.HandleGenerate | app/code/cl-02/page.tsx:16-59 | a blank input gives "INPUT REQUIRED" and no hashes; otherwise exactly the keys SHA-256, SHA-384, SHA-512 and SHA-1, or the failure message with no hashes |
| Scripts.DedupIsFirstAppearance | app/code/is-01/page.tsx:359 | `[...new Set(xs)]` holds each value once, every value of xs, in order of first appearance |
| Scripts.Categories | app/code/is-01/page.tsx:359 | "All" followed by the distinct categories, built the way a Set fills |
| Scripts.FilterScripts | app/code/is-01/page.tsx:360-362 | "All" returns every script; otherwise exactly the scripts of that category, each as often as before |
| Scripts.FilterScriptsOrder | app/code/is-01/page.tsx:360-362 | the filter keeps the scripts in their original order: it distributes over concatenation and keeps or drops one script by its category |
| Scripts.EveryCategoryShowsSomething | app/code/is-01/page.tsx:359-362 | every category button other than "All" shows at least one script |
| Scripts.CurrentScript | app/code/is-01/page.tsx:364-366 | nothing without a selection; otherwise the first script with the selected id, or nothing when none has it |
| Scripts.CopyAllKeepsCommands | app/code/is-01/page.tsx:485 | splitting the copy-all text on newlines gives back the commands |
| FileHosting.FilterFiles | app/code/fh-01/page.tsx:142 | "all" returns every file; otherwise exactly the files of that category, each as often as before |
| FileHosting.FilterFilesOrder | app/code/fh-01/page.tsx:142 | the filter keeps the files in their original order: it distributes over concatenation and keeps or drops one file by its category |
| FileHosting.CategoryCounts | app/code/fh-01/page.tsx:144-150 | one count per category of the four, the number of files filed under it |
| FileHosting.CountsAreFilterLengths | app/code/fh-01/page.tsx:142-150 | each count equals the length of that category's filter |
| FileHosting.CountsBounded | app/code/fh-01/page.tsx:144-150 | the counts add up to at most the number of files, and to exactly that when every file has one of the four categories |
| FileHosting.ExtensionAfterLastDot | app/code/fh-01/page.tsx:123 | the extension is the text after the last "." with A–Z turned into a–z, or the whole name so converted when there is no dot |
| FileHosting.FileIconOf | app/code/fh-01/page.tsx:122-134 | image icon exactly for the image extensions, video icon for the video ones, otherwise the file icon |
| FileHosting.ExtensionIgnoresCase | app/code/fh-01/page.tsx:123 | the extension does not depend on the ASCII case of the name |
| FileHosting.IconIgnoresCase | app/code/fh-01/page.tsx:122-134 | neither does the icon |
| FileHosting.FormatFileSize | app/code/fh-01/page.tsx:136-140 | B below 1024, shown as the decimal number and " B"; KB below 1024²; otherwise MB; the figure is the size divided by the unit |
| FileHosting.UnitsAreOrdered | app/code/fh-01/page.tsx:136-140 | a larger file never gets a smaller unit |
| CodeLookup.LookupIn | app/code/page.tsx:10-98 | a project is found exactly when the table holds that code |
| CodeLookup.RoutesFollowKeys | app/code/page.tsx:10-98 | codes 24918, 12345 and 54321 have no route; every other code routes to "/code/" and its lower-cased code |
| CodeLookup.CodeShapes | app/code/page.tsx:10-98 | every code is one to six characters long and its first character sorts no later than Z, so never a lower-case letter |
| CodeLookup.HandleSubmit | app/code/page.tsx:106-120 | a blank code gives "Please enter a code" and keeps the recorded code; otherwise the trimmed code is recorded and the error is "Invalid code" exactly when it is not one of the table's own codes (the page also accepts inherited names; see Findings) |
| CodeLookup.CurrentProject | app/code/page.tsx:122 | the project of the recorded code, if any |
| CodeLookup.SubmitThenShow | app/code/page.tsx:106-122 | after a valid submission the page shows that project; a blank one changes nothing shown |
| CodeLookup.LowerCaseCodeIsInvalid | app/code/page.tsx:115-117 | lookup is case-sensitive: a code starting with a lower-case letter is invalid |
| CodeLookup.HandleSubmitAsWritten | app/code/page.tsx:106-120 | the page's own test: any truthy `projects[code]`, inherited properties included, counts as found |
| CodeLookup.LookupAboveZ | app/code/page.tsx:117 | a key whose first character sorts after Z is not one of the table's codes |
| CodeLookup.InheritedNameAccepted | app/code/page.tsx:117 | "toString" is accepted as written though the table has no such code |
| CodeLookup.AsWrittenAgreesElsewhere | app/code/page.tsx:106-120 | on every code that is not an inherited name, the two handlers agree |
| LoginPage.HandleSubmit | app/code/lg-01/page.tsx:36-56 | a blank name or password gives "ALL FIELDS REQUIRED" without calling `login`; otherwise `login` gets the trimmed name and untrimmed password; on success the user is shown, on failure "INVALID CREDENTIALS"; loading ends false on every path |
| LoginPage.AdminThroughPage | app/code/lg-01/page.tsx:36-56 | the administrator gets in through the page even with white space around the name |
| LoginPage.PasswordNotTrimmed | app/code/lg-01/page.tsx:47 | a trailing space on the password makes a correct login fail |
| MusicPlayer.Next | components/music-player-provider.tsx:37 | (i + 1) mod 3, staying within the playlist |
| MusicPlayer.AllRedIsThirdTrack | components/music-player-provider.tsx:29 | the theme is red exactly while the third track plays |
| MusicPlayer.Skip | components/music-player-provider.tsx:84-91 | marks interaction, moves to the next track and plays |
| MusicPlayer.Ended | components/music-player-provider.tsx:36-39 | the next track plays; interaction is unchanged |
| MusicPlayer.Toggle | components/music-player-provider.tsx:64-82 | marks interaction and keeps the track; without an audio element the playing flag is unchanged; playing pauses; otherwise it plays exactly when `play()` succeeds |
| MusicPlayer.Settle | components/music-player-provider.tsx:43-53 | after an interaction a playing player keeps playing only if `play()` succeeds |
| MusicPlayer.ThreeSkipsCycle | components/music-player-provider.tsx:84-91 | three skips return to the same track |
| MusicPlayer.TwoSkipsReachAllRed | components/music-player-provider.tsx:24-29 | from the start, two skips turn the theme red |
| Strings.Trim | app/code/lg-01/page.tsx:41 | `trim()`: the middle of the input with only white space cut from both ends, neither end of the result being white space |
| Strings.BlankIffAllSpace | app/code/lg-01/page.tsx:41 | `!s.trim()` holds exactly when every character is white space |
| Strings.JoinSplit | app/code/is-01/page.tsx:485 | joining the pieces of a split on the same character gives the input back |
| Strings.SplitJoin | app/code/is-01/page.tsx:485 | splitting a join gives the pieces back when none holds the separator |
| Strings.SplitLast | app/api/files/list/route.ts:11 | a split has at least one piece, and its last piece is the text after the last separator (all of it when there is none) |
| Strings.NatToStringValue | app/code/fh-01/page.tsx:137 | the decimal text of a number reads back as that number |

## Left out

- Effects.SepiaChannel: exact rational rounding; can differ by one from the double result at .5 ties. For the pixel (1, 31, 12) the red sum is 26.5 exactly, which rounds to even (26, stated by `Effects.SepiaTieRoundsToEven`), but 26.500000000000004 in doubles, which the canvas stores as 27.
- Effects.ApplyEffect: its own contract states only the image's shape; the per-effect laws are lemmas, and sepia differs as above.
- AsciiHero.Create3DText: upper-cases ASCII letters only and splits the text by code point. JavaScript's `toUpperCase` maps "ß" to "SS" (two S glyphs), and `split("")` cuts "😀" into two UTF-16 units (two E glyphs); the model draws one E glyph for each.
- TextAnalyzer.Analyze: the preview's `substring(0, 50)` and the `length > 50` test count UTF-16 units in the source; the model counts code points, so 26 emoji (52 units) get "..." in the source and not in the model. Keyword matching ignores ASCII case only.
- Auth.GetAllUsers: the order in which `localStorage.key(i)` enumerates keys is the `keys` parameter, and `JSON.parse` of the metadata is the `parsesAdmin` parameter.
- Auth.CurrentUser: `auth_user` is held as a parsed record; a stored value that fails to parse (read as null by the source) is not modelled.
- Editor.AddLayer: identifiers built from `Date.now()` and `Math.random()` are parameters, here and in Editor.AddText, Editor.AddImage, Editor.AddBackground and Editor.Init.
- Editor.Record: the snapshot each handler records is passed in by that handler, as the render's closure saw it; React's batching of state updates is not modelled.
- Editor.Paint: stroke, spray, airbrush and shape rasterisation (lines, arcs, `Math.random` scatter, `globalAlpha`) is a parameter: the painted canvas is given, not computed.
- Editor.ApplyCanvasSize: width and height are natural numbers; the source's number inputs could hold fractions or negatives.
- Scene.MoveToolDown: the rotated local coordinates, the measured text width and the `atan2` angles are inputs (`TextProbe`, `ImageProbe`, `angle`); trigonometry and `measureText` are not modelled. Pointer scaling to canvas coordinates is left out.
- MusicPlayer.Toggle: the audio element is reduced to whether it exists and whether `play()` succeeds. The playback position is not modelled: the effect re-creates the Audio whenever playing changes, so resuming restarts the track from its beginning.
- BlobFiles.Upload: the timestamp, the ISO upload time and the blob store's `put` are parameters; a form whose `file` field is a string rather than a File is not modelled.
- Weather.BandOf: codes are integers; a fractional or NaN code (possible for a JavaScript number) is not modelled. The forecast fetch, date formatting and temperature rounding are left out.
- HashGen.HandleGenerate: the Web Crypto digest of the UTF-8 encoded input is a parameter.
- FileHosting.ExtensionAfterLastDot: lower-cases ASCII letters only; `toLowerCase` also maps non-ASCII letters (É to é, for example), which the model leaves as they are. The icon lists are plain ASCII and hold no "k", the only ASCII letter a single non-ASCII letter lower-cases to (the Kelvin sign), so the icon choice is unaffected.
- FileHosting.FormatFileSize: the `toFixed(2)` text of the KB and MB figures is not modelled; the figure is kept as an exact real.
- Scripts.CurrentScript: the script table's contents (names, commands) are not transcribed; the functions take any list of scripts. Clipboard writes are left out.
- The canvas compositing that draws layers, images and texts with their selection outlines, the download, the keyboard shortcuts and the ASCII banner's animation are rendering and are not modelled.
- Flags that only open or close dialogs and forms (the banner's modal, the text editor panel, the loading spinner before `login`) are not modelled beyond the form state each handler returns; the login page's mount effect, its logout button and the file-hosting page's network handlers are left out.

## Findings

| source | as written | input that shows it | evidently intended | confidence | as-written member | corrected member |
|---|---|---|---|---|---|---|
| app/code/page.tsx:117 | `!projects[code.trim()]` tests a plain object, so inherited `Object.prototype` properties count as codes | the code "toString": no "Invalid code" is set, and `currentProject` (line 122) becomes a function | only the table's own codes are accepted; any other code gives "Invalid code" | medium, not executed | CodeLookup.HandleSubmitAsWritten, CodeLookup.InheritedNameAccepted | CodeLookup.HandleSubmit |
