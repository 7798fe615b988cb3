/**
 * The drawing editor's document operations (app/code/dr-01/page.tsx): the layer stack, the
 * images and texts on it, the canvas size, zoom, and the undo history they feed.
 *
 * Every operation that records history records the snapshot its call site really takes.
 * The source's handlers read `layers`, `images` and `textObjects` from the render they were
 * created in, so `addLayer`, `deleteLayer`, the delete tool, `addText`, `updateText`,
 * `addImage`, the background upload and `applyCanvasSize` record the document as it was
 * BEFORE their own change. Brush and eraser strokes paint the layer's canvas in place while
 * the pointer moves, so the save on pointer-up sees the finished stroke; a shape is painted
 * after that save; `clearCanvas` empties the canvases in place before saving but the image
 * and text lists it records are the old ones.
 */
module Editor {
  import opened Options
  import opened Raster
  import opened Seqs
  import History
  import opened Layers
  import opened Scene

  /** What a history snapshot holds. */
  datatype Doc = Doc(layers: seq<Layer>, images: seq<ImageObj>, texts: seq<TextObj>)

  datatype Point = Point(x: real, y: real)

  datatype Editor = Editor(
    doc: Doc, active: string, hist: History.History<Doc>, zoom: int, width: nat, height: nat)

  const DefaultWidth: nat := 800
  const DefaultHeight: nat := 600
  const MinZoom := 25
  const MaxZoom := 200
  const ZoomStep := 10
  const DefaultZoom := 100

  /** What every state the editor reaches satisfies. */
  predicate Inv(e: Editor)
  {
    History.Valid(e.hist) && MinZoom <= e.zoom <= MaxZoom
  }

  /** The editor after mounting: one drawing layer named "Background" on an 800×600 canvas,
      active, and an empty history. */
  function Init(id: string): (e: Editor)
    ensures Inv(e)
    ensures |e.doc.layers| == 1 && e.active == id && e.doc.layers[0].id == id
    ensures e.doc.layers[0].name == "Background" && e.doc.layers[0].kind == Drawing
    ensures e.doc.images == [] && e.doc.texts == []
    ensures e.hist.entries == [] && e.hist.index == -1
    ensures e.zoom == 100 && e.width == 800 && e.height == 600
  {
    Editor(Doc([CreateNewLayer(id, "Background", Drawing, DefaultWidth, DefaultHeight)], [], []),
           id, History.Empty(), DefaultZoom, DefaultWidth, DefaultHeight)
  }

  /** Stores the document `snap` in the history. */
  function Record(e: Editor, snap: Doc): (r: Editor)
    ensures r.hist == History.Save(e.hist, snap)
    ensures Inv(e) ==> Inv(r)
    ensures r == e.(hist := r.hist)
  {
    e.(hist := History.Save(e.hist, snap))
  }

  /** `addLayer`: a new drawing layer "Layer n+1" on top, made active. */
  function AddLayer(e: Editor, id: string): (r: Editor)
    ensures Inv(e) ==> Inv(r)
    ensures |r.doc.layers| == |e.doc.layers| + 1 && r.doc.layers[..|e.doc.layers|] == e.doc.layers
    ensures var l := r.doc.layers[|e.doc.layers|];
            && l.id == id && l.name == NewLayerName(|e.doc.layers|) && l.kind == Drawing
            && l.visible && l.opacity == 100 && l.raster == Blank(e.width, e.height)
    ensures r.active == id
    ensures r.doc.images == e.doc.images && r.doc.texts == e.doc.texts
    ensures r.hist == History.Save(e.hist, e.doc)
    ensures r.zoom == e.zoom && r.width == e.width && r.height == e.height
  {
    Record(e, e.doc).(doc := e.doc.(layers := AppendLayer(e.doc.layers, id, e.width, e.height)), active := id)
  }

  /** `deleteLayer`: refused while exactly one layer is left. Otherwise the layer, every
      image and every text on it are removed; if it was the active layer the first remaining
      layer becomes active, or none when no layer remains. */
  function DeleteLayer(e: Editor, id: string): (r: Editor)
    ensures Inv(e) ==> Inv(r)
    ensures |e.doc.layers| == 1 ==> r == e
    ensures |e.doc.layers| != 1 ==>
              && r.doc.layers == Filter(e.doc.layers, (l: Layer) => l.id != id)
              && r.doc.images == Filter(e.doc.images, (m: ImageObj) => m.layerId != id)
              && r.doc.texts == Filter(e.doc.texts, (t: TextObj) => t.layerId != id)
              && r.active == (if e.active != id then e.active
                              else if |r.doc.layers| > 0 then r.doc.layers[0].id else "")
              && r.hist == History.Save(e.hist, e.doc)
              && r.zoom == e.zoom && r.width == e.width && r.height == e.height
  {
    if |e.doc.layers| == 1 then e
    else
      var layers := Filter(e.doc.layers, (l: Layer) => l.id != id);
      var active := if e.active != id then e.active else if |layers| > 0 then layers[0].id else "";
      Record(e, e.doc).(
        doc := Doc(layers,
                   Filter(e.doc.images, (m: ImageObj) => m.layerId != id),
                   Filter(e.doc.texts, (t: TextObj) => t.layerId != id)),
        active := active)
  }

  predicate UniqueLayerIds(layers: seq<Layer>)
  {
    forall i, j :: 0 <= i < j < |layers| ==> layers[i].id != layers[j].id
  }

  /** Deleting the layer at index `k` of a stack of two or more with distinct identifiers
      removes exactly that layer, leaves no image or text on it, keeps every image and text
      on another layer, and leaves a layer to make active. */
  lemma DeleteLayerCascade(e: Editor, k: nat)
    requires k < |e.doc.layers| && |e.doc.layers| >= 2 && UniqueLayerIds(e.doc.layers)
    ensures var id := e.doc.layers[k].id;
            var r := DeleteLayer(e, id);
            && r.doc.layers == e.doc.layers[..k] + e.doc.layers[k + 1..]
            && (forall m :: m in r.doc.images ==> m.layerId != id)
            && (forall t :: t in r.doc.texts ==> t.layerId != id)
            && (forall m :: m in e.doc.images && m.layerId != id ==> m in r.doc.images)
            && (forall t :: t in e.doc.texts && t.layerId != id ==> t in r.doc.texts)
            && (e.active == id ==> r.active == r.doc.layers[0].id)
  {
    var id := e.doc.layers[k].id;
    FilterRemovesOne(e.doc.layers, k, (l: Layer) => l.id != id);
    var r := DeleteLayer(e, id);
    forall m | m in r.doc.images
      ensures m.layerId != id
    {
      var i :| 0 <= i < |r.doc.images| && r.doc.images[i] == m;
    }
    forall t | t in r.doc.texts
      ensures t.layerId != id
    {
      var i :| 0 <= i < |r.doc.texts| && r.doc.texts[i] == t;
    }
    forall m | m in e.doc.images && m.layerId != id
      ensures m in r.doc.images
    {
      var i :| 0 <= i < |e.doc.images| && e.doc.images[i] == m;
    }
    forall t | t in e.doc.texts && t.layerId != id
      ensures t in r.doc.texts
    {
      var i :| 0 <= i < |e.doc.texts| && e.doc.texts[i] == t;
    }
  }

  /** Deleting an identifier no layer has still records a history entry, and the layers
      stay as they were. */
  lemma DeleteUnknownLayer(e: Editor, id: string)
    requires |e.doc.layers| != 1
    requires forall i :: 0 <= i < |e.doc.layers| ==> e.doc.layers[i].id != id
    ensures DeleteLayer(e, id).doc.layers == e.doc.layers
    ensures DeleteLayer(e, id).hist == History.Save(e.hist, e.doc)
  {
    FilterAll(e.doc.layers, (l: Layer) => l.id != id);
  }

  /** `undo`: with the pointer above 0, it moves back one and that snapshot becomes the
      document; otherwise nothing changes. */
  function Undo(e: Editor): (r: Editor)
    requires Inv(e)
    ensures Inv(r) && r.hist.entries == e.hist.entries
    ensures e.hist.index <= 0 ==> r == e
    ensures e.hist.index > 0 ==>
              && r.hist.index == e.hist.index - 1
              && r.doc == e.hist.entries[e.hist.index - 1]
              && r == e.(doc := r.doc, hist := r.hist)
  {
    var s := History.Undo(e.hist);
    e.(hist := s.hist, doc := s.loaded.GetOr(e.doc))
  }

  /** `redo`: with a snapshot after the pointer, it moves forward one and that snapshot
      becomes the document; otherwise nothing changes. */
  function Redo(e: Editor): (r: Editor)
    requires Inv(e)
    ensures Inv(r) && r.hist.entries == e.hist.entries
    ensures e.hist.index >= |e.hist.entries| - 1 ==> r == e
    ensures e.hist.index < |e.hist.entries| - 1 ==>
              && r.hist.index == e.hist.index + 1
              && r.doc == e.hist.entries[e.hist.index + 1]
              && r == e.(doc := r.doc, hist := r.hist)
  {
    var s := History.Redo(e.hist);
    e.(hist := s.hist, doc := s.loaded.GetOr(e.doc))
  }

  /** Undo then redo restores the pointer and leaves the snapshot at the pointer loaded. */
  lemma UndoThenRedo(e: Editor)
    requires Inv(e) && e.hist.index > 0
    ensures Redo(Undo(e)).hist == e.hist
    ensures Redo(Undo(e)).doc == e.hist.entries[e.hist.index]
  {
    History.UndoThenRedo(e.hist);
  }

  /** The snapshots are taken before each change: after adding two layers to a fresh editor,
      one undo goes back past both, to the single background layer; after adding only one,
      undo does nothing. */
  lemma UndoAfterAdds(a: string, b: string, c: string)
    ensures Undo(AddLayer(Init(a), b)) == AddLayer(Init(a), b)
    ensures Undo(AddLayer(AddLayer(Init(a), b), c)).doc == Init(a).doc
  {
    UndoAfterAddsFromEmpty(Init(a), b, c);
  }

  /** An editor in a valid state with nothing stored in its history, as a fresh one is. */
  predicate EmptyHistory(e: Editor)
  {
    Inv(e) && e.hist.entries == [] && e.hist.index == -1
  }

  /** An editor in a valid state whose history holds the one snapshot `d`, current. */
  predicate OneSnapshot(e: Editor, d: Doc)
  {
    Inv(e) && e.hist.entries == [d] && e.hist.index == 0
  }

  /** The same for any editor whose history is empty, as a fresh editor's is. */
  lemma UndoAfterAddsFromEmpty(e0: Editor, b: string, c: string)
    requires EmptyHistory(e0)
    ensures Undo(AddLayer(e0, b)) == AddLayer(e0, b)
    ensures Undo(AddLayer(AddLayer(e0, b), c)).doc == e0.doc
  {
    UndoAfterOneAdd(e0, b);
    UndoAfterTwoAdds(AddLayer(e0, b), e0.doc, c);
  }

  /** The first add into an empty history stores the editor's document as the only snapshot,
      and it is the current one, so undo changes nothing. */
  lemma UndoAfterOneAdd(e0: Editor, b: string)
    requires EmptyHistory(e0)
    ensures OneSnapshot(AddLayer(e0, b), e0.doc)
    ensures Undo(AddLayer(e0, b)) == AddLayer(e0, b)
  {
    History.SaveToEmpty(e0.hist, e0.doc);
  }

  /** The next add stores the current document after the one snapshot; undo loads that
      snapshot. */
  lemma UndoAfterTwoAdds(e1: Editor, d: Doc, c: string)
    requires OneSnapshot(e1, d)
    ensures Undo(AddLayer(e1, c)).doc == d
  {
    var e2 := AddLayer(e1, c);
    assert e2.hist == History.Save(e1.hist, e1.doc);
    assert e2.hist.entries == [d, e1.doc] && e2.hist.index == 1;
  }

  /** A text the user is placing: the typed text and where the text tool was clicked. */
  datatype Draft = Draft(input: string, at: Option<Point>)

  /** `addText`: needs a non-empty text, a clicked position and an existing active layer.
      The text is appended on the active layer, upright, and the draft is cleared. */
  function AddText(e: Editor, d: Draft, id: string, fontSize: real, fontFamily: string, color: string): (r: (Editor, Draft))
    ensures Inv(e) ==> Inv(r.0)
    ensures d.input == "" || d.at.None? || FindLayer(e.doc.layers, e.active).None? ==> r == (e, d)
    ensures d.input != "" && d.at.Some? && FindLayer(e.doc.layers, e.active).Some? ==>
              && r.1 == Draft("", None)
              && r.0.doc.texts == e.doc.texts + [TextObj(id, d.input, d.at.value.x, d.at.value.y,
                                                         fontSize, fontFamily, color, 0.0, e.active)]
              && r.0.doc.layers == e.doc.layers && r.0.doc.images == e.doc.images
              && r.0.hist == History.Save(e.hist, e.doc)
              && r.0 == e.(doc := r.0.doc, hist := r.0.hist)
  {
    if d.input == "" || d.at.None? then (e, d)
    else match FindLayer(e.doc.layers, e.active)
      case None => (e, d)
      case Some(l) =>
        var t := TextObj(id, d.input, d.at.value.x, d.at.value.y, fontSize, fontFamily, color, 0.0, l.id);
        (Record(e, e.doc).(doc := e.doc.(texts := e.doc.texts + [t])), Draft("", None))
  }

  /** The text editor form opened by a second click on a selected text. */
  datatype TextForm = TextForm(editing: Option<string>, text: string, fontSize: real, fontFamily: string, color: string)

  /** `updateText`: without an edited text (an empty identifier counts as none) nothing
      happens; otherwise every text with that identifier takes the form's content, size,
      font and colour, keeping its position, rotation and layer, and the form closes. */
  function UpdateText(e: Editor, f: TextForm): (r: (Editor, Option<string>))
    ensures Inv(e) ==> Inv(r.0)
    ensures f.editing.None? || f.editing.value == "" ==> r == (e, f.editing)
    ensures f.editing.Some? && f.editing.value != "" ==>
              && r.1 == None
              && |r.0.doc.texts| == |e.doc.texts|
              && (forall i :: 0 <= i < |e.doc.texts| ==>
                    var t := e.doc.texts[i];
                    r.0.doc.texts[i] == if t.id == f.editing.value
                      then TextObj(t.id, f.text, t.x, t.y, f.fontSize, f.fontFamily, f.color, t.rotation, t.layerId)
                      else t)
              && r.0.doc.layers == e.doc.layers && r.0.doc.images == e.doc.images
              && r.0.hist == History.Save(e.hist, e.doc)
              && r.0 == e.(doc := r.0.doc, hist := r.0.hist)
  {
    if f.editing.None? || f.editing.value == "" then (e, f.editing)
    else
      var id := f.editing.value;
      var texts := MapWhere(e.doc.texts, (t: TextObj) => t.id == id,
        (t: TextObj) => t.(text := f.text, fontSize := f.fontSize, fontFamily := f.fontFamily, color := f.color));
      (Record(e, e.doc).(doc := e.doc.(texts := texts)), None)
  }

  /** Where `addImage` puts a new image. */
  const ImageOrigin: real := 50.0

  /** `handleAddImage` once the file is decoded: needs an existing active layer; the image
      is appended on it at (50, 50), upright, at its natural size. */
  function AddImage(e: Editor, id: string, source: string, w: real, h: real): (r: Editor)
    ensures Inv(e) ==> Inv(r)
    ensures FindLayer(e.doc.layers, e.active).None? ==> r == e
    ensures FindLayer(e.doc.layers, e.active).Some? ==>
              && r.doc.images == e.doc.images + [ImageObj(id, source, 50.0, 50.0, w, h, 0.0, e.active)]
              && r.doc.layers == e.doc.layers && r.doc.texts == e.doc.texts
              && r.hist == History.Save(e.hist, e.doc)
              && r == e.(doc := r.doc, hist := r.hist)
  {
    match FindLayer(e.doc.layers, e.active)
    case None => e
    case Some(l) =>
      var m := ImageObj(id, source, ImageOrigin, ImageOrigin, w, h, 0.0, l.id);
      Record(e, e.doc).(doc := e.doc.(images := e.doc.images + [m]))
  }

  /** `handleBackgroundUpload` once the file is decoded: the canvas takes the image's size
      and a "Background Image" layer holding the image is put at the bottom of the stack. */
  function AddBackground(e: Editor, id: string, img: Grid, w: nat, h: nat): (r: Editor)
    ensures Inv(e) ==> Inv(r)
    ensures r.width == w && r.height == h
    ensures |r.doc.layers| == |e.doc.layers| + 1 && r.doc.layers[1..] == e.doc.layers
    ensures var l := r.doc.layers[0];
            && l.id == id && l.name == "Background Image" && l.kind == Background
            && l.visible && l.opacity == 100
            && IsGrid(l.raster, w, h)
            && forall y, x :: 0 <= y < h && 0 <= x < w ==> l.raster[y][x] == At(img, x, y)
    ensures r.doc.images == e.doc.images && r.doc.texts == e.doc.texts && r.active == e.active
    ensures r.hist == History.Save(e.hist, e.doc)
  {
    var l := CreateNewLayer(id, "Background Image", Background, w, h).(raster := Blit(img, w, h));
    Record(e, e.doc).(doc := e.doc.(layers := [l] + e.doc.layers), width := w, height := h)
  }

  /** Every layer's raster with the canvas-sized region at the top left made transparent. */
  function ClearLayers(layers: seq<Layer>, w: nat, h: nat): (r: seq<Layer>)
    ensures |r| == |layers|
    ensures forall i :: 0 <= i < |layers| ==> r[i] == layers[i].(raster := ClearRegion(layers[i].raster, w, h))
  {
    seq(|layers|, i requires 0 <= i < |layers| => layers[i].(raster := ClearRegion(layers[i].raster, w, h)))
  }

  /** `clearCanvas`: every layer keeps its place and settings but its canvas is cleared,
      and all images and texts are removed. The history records the cleared layers with the
      old images and texts. */
  function ClearCanvas(e: Editor): (r: Editor)
    ensures Inv(e) ==> Inv(r)
    ensures r.doc.images == [] && r.doc.texts == []
    ensures |r.doc.layers| == |e.doc.layers|
    ensures forall i :: 0 <= i < |e.doc.layers| ==>
              var l := e.doc.layers[i];
              var c := r.doc.layers[i];
              && c == l.(raster := c.raster)
              && |c.raster| == |l.raster|
              && (forall y :: 0 <= y < |l.raster| ==> |c.raster[y]| == |l.raster[y]|)
              && forall y, x :: 0 <= y < |l.raster| && 0 <= x < |l.raster[y]| ==>
                   c.raster[y][x] == if y < e.height && x < e.width then Transparent else l.raster[y][x]
    ensures r.hist == History.Save(e.hist, Doc(r.doc.layers, e.doc.images, e.doc.texts))
    ensures r == e.(doc := r.doc, hist := r.hist)
  {
    var layers := ClearLayers(e.doc.layers, e.width, e.height);
    Record(e, Doc(layers, e.doc.images, e.doc.texts)).(doc := Doc(layers, [], []))
  }

  /** Every layer is exactly canvas-sized. */
  predicate Fitted(e: Editor)
  {
    forall i :: 0 <= i < |e.doc.layers| ==> IsGrid(e.doc.layers[i].raster, e.width, e.height)
  }

  /** On canvas-sized layers clearing leaves every layer blank, and clearing twice gives the
      same document as clearing once. */
  lemma ClearCanvasBlanks(e: Editor)
    requires Fitted(e)
    ensures forall i :: 0 <= i < |e.doc.layers| ==> ClearCanvas(e).doc.layers[i].raster == Blank(e.width, e.height)
    ensures ClearCanvas(ClearCanvas(e)).doc == ClearCanvas(e).doc
  {
    var once := ClearCanvas(e);
    forall i | 0 <= i < |e.doc.layers|
      ensures once.doc.layers[i].raster == Blank(e.width, e.height)
    {
      ClearWholeIsBlank(e.doc.layers[i].raster, e.width, e.height);
    }
    var twice := ClearCanvas(once);
    forall i | 0 <= i < |e.doc.layers|
      ensures twice.doc.layers[i] == once.doc.layers[i]
    {
      ClearWholeIsBlank(once.doc.layers[i].raster, e.width, e.height);
    }
  }

  /** Every layer's raster copied to the top left of a fresh `w`×`h` canvas. */
  function BlitLayers(layers: seq<Layer>, w: nat, h: nat): (r: seq<Layer>)
    ensures |r| == |layers|
    ensures forall i :: 0 <= i < |layers| ==> r[i] == layers[i].(raster := Blit(layers[i].raster, w, h))
  {
    seq(|layers|, i requires 0 <= i < |layers| => layers[i].(raster := Blit(layers[i].raster, w, h)))
  }

  /** `applyCanvasSize`: the canvas takes the new size and every layer's drawing is kept at
      the top left, clipped or padded with transparency. */
  function ApplyCanvasSize(e: Editor, w: nat, h: nat): (r: Editor)
    ensures Inv(e) ==> Inv(r)
    ensures r.width == w && r.height == h && Fitted(r)
    ensures |r.doc.layers| == |e.doc.layers|
    ensures forall i :: 0 <= i < |e.doc.layers| ==>
              var l := e.doc.layers[i];
              && r.doc.layers[i] == l.(raster := r.doc.layers[i].raster)
              && forall y, x :: 0 <= y < h && 0 <= x < w ==> r.doc.layers[i].raster[y][x] == At(l.raster, x, y)
    ensures r.doc.images == e.doc.images && r.doc.texts == e.doc.texts && r.active == e.active
    ensures r.hist == History.Save(e.hist, e.doc)
  {
    Record(e, e.doc).(doc := e.doc.(layers := BlitLayers(e.doc.layers, w, h)), width := w, height := h)
  }

  /** Growing the canvas and shrinking it back restores every drawing. */
  lemma GrowThenShrinkRestores(e: Editor, w: nat, h: nat)
    requires Fitted(e) && e.width <= w && e.height <= h
    ensures ApplyCanvasSize(ApplyCanvasSize(e, w, h), e.width, e.height).doc == e.doc
  {
    var back := ApplyCanvasSize(ApplyCanvasSize(e, w, h), e.width, e.height);
    forall i | 0 <= i < |e.doc.layers|
      ensures back.doc.layers[i] == e.doc.layers[i]
    {
      BlitGrowThenShrink(e.doc.layers[i].raster, e.width, e.height, w, h);
    }
  }

  /** The test `l => l.id === id` used to find the active layer. */
  function LayerWithId(id: string): Layer -> bool
  {
    (l: Layer) => l.id == id
  }

  /** While the brush or eraser moves, the canvas of the active layer (the first layer with
      the active identifier) is painted in place; no history is recorded. `painted` is that
      canvas after the stroke segment. Without such a layer nothing happens. */
  function Paint(e: Editor, painted: Grid): (r: Editor)
    ensures Inv(e) ==> Inv(r)
    ensures |r.doc.layers| == |e.doc.layers|
    ensures (forall i :: 0 <= i < |e.doc.layers| ==> e.doc.layers[i].id != e.active) ==> r == e
    ensures forall i :: 0 <= i < |e.doc.layers| ==>
              r.doc.layers[i] == if i == FindIndex(e.doc.layers, LayerWithId(e.active))
                                 then e.doc.layers[i].(raster := painted) else e.doc.layers[i]
    ensures r == e.(doc := e.doc.(layers := r.doc.layers))
  {
    var k := FindIndex(e.doc.layers, LayerWithId(e.active));
    if k == -1 then e
    else e.(doc := e.doc.(layers := e.doc.layers[k := e.doc.layers[k].(raster := painted)]))
  }

  /** The layer painted is the first one carrying the active identifier. */
  lemma PaintHitsFirstActive(e: Editor, painted: Grid, i: nat)
    requires i < |e.doc.layers| && e.doc.layers[i].id == e.active
    requires forall j :: 0 <= j < i ==> e.doc.layers[j].id != e.active
    ensures Paint(e, painted).doc.layers[i] == e.doc.layers[i].(raster := painted)
    ensures forall j :: 0 <= j < |e.doc.layers| && j != i ==> Paint(e, painted).doc.layers[j] == e.doc.layers[j]
  {
    var k := FindIndex(e.doc.layers, LayerWithId(e.active));
    assert LayerWithId(e.active)(e.doc.layers[i]);
    assert k == i;
  }

  /** Pointer-up after a brush or eraser stroke: the document, stroke included, is
      recorded. */
  function EndStroke(e: Editor): (r: Editor)
    ensures Inv(e) ==> Inv(r)
    ensures r == e.(hist := History.Save(e.hist, e.doc))
  {
    Record(e, e.doc)
  }

  /** Pointer-up with the shape tool: the document is recorded, then the shape (`shaped` is
      the active layer's canvas with it drawn) is painted on the active layer. */
  function EndShape(e: Editor, shaped: Grid): (r: Editor)
    ensures Inv(e) ==> Inv(r)
    ensures r.hist == History.Save(e.hist, e.doc)
    ensures r.doc == Paint(e, shaped).doc
  {
    Paint(Record(e, e.doc), shaped)
  }

  /** So the newest snapshot after a stroke holds the stroke, while the newest snapshot
      after a shape is the document without it. */
  lemma StrokeRecordedShapeNot(e: Editor, painted: Grid, shaped: Grid)
    requires Inv(e)
    ensures var s := EndStroke(Paint(e, painted)); s.hist.entries[s.hist.index] == s.doc
    ensures var s := EndShape(e, shaped); s.hist.entries[s.hist.index] == e.doc
  {
  }

  /** A delete-tool click on the editor: if it removes an object, the document before the
      click is recorded. */
  function DeleteTool(e: Editor, tp: TextObj -> TextProbe, ip: ImageObj -> ImageProbe): (r: Editor)
    ensures Inv(e) ==> Inv(r)
    ensures var c := DeleteClick(e.doc.texts, e.doc.images, tp, ip);
            if c.saved
            then r == e.(doc := Doc(e.doc.layers, c.images, c.texts), hist := History.Save(e.hist, e.doc))
            else r == e
  {
    var c := DeleteClick(e.doc.texts, e.doc.images, tp, ip);
    if c.saved then Record(e, e.doc).(doc := Doc(e.doc.layers, c.images, c.texts)) else e
  }

  // ----- zoom -----

  function ZoomIn(z: int): (r: int)
    ensures r <= MaxZoom && (z + ZoomStep <= MaxZoom ==> r == z + ZoomStep)
    ensures z + ZoomStep > MaxZoom ==> r == MaxZoom
    ensures MinZoom <= z <= MaxZoom ==> MinZoom <= r && z <= r
  {
    if z + ZoomStep < MaxZoom then z + ZoomStep else MaxZoom
  }

  function ZoomOut(z: int): (r: int)
    ensures r >= MinZoom && (z - ZoomStep >= MinZoom ==> r == z - ZoomStep)
    ensures z - ZoomStep < MinZoom ==> r == MinZoom
    ensures MinZoom <= z <= MaxZoom ==> r <= MaxZoom && r <= z
  {
    if z - ZoomStep > MinZoom then z - ZoomStep else MinZoom
  }

  /** Zooming out then in returns to the same zoom except at the bottom of the range, and
      repeated zooming in stops at the maximum. */
  lemma ZoomRoundTrip(z: int)
    requires MinZoom + ZoomStep <= z <= MaxZoom
    ensures ZoomIn(ZoomOut(z)) == z
    ensures ZoomIn(MaxZoom) == MaxZoom && ZoomOut(MinZoom) == MinZoom
  {
  }

  function SetZoom(e: Editor, z: int): (r: Editor)
    ensures r == e.(zoom := z)
  {
    e.(zoom := z)
  }

  /** The zoom buttons keep the editor's invariant. */
  lemma ZoomKeepsInv(e: Editor)
    requires Inv(e)
    ensures Inv(SetZoom(e, ZoomIn(e.zoom))) && Inv(SetZoom(e, ZoomOut(e.zoom)))
    ensures Inv(SetZoom(e, DefaultZoom))
  {
  }
}
