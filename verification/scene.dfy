/**
 * Images and text objects placed on the layers of the drawing editor
 * (app/code/dr-01/page.tsx), and what the delete and move tools do to them.
 *
 * Hit-testing in the source rotates the pointer into an object's own frame with cos/sin and
 * measures text with the canvas; both are deterministic in the object and the pointer, so
 * the model takes them as a function from object to probe (the pointer in the object's
 * rotated frame, plus the measured width for text).
 */
module Scene {
  import opened Options
  import opened Seqs

  datatype ImageObj = ImageObj(
    id: string, source: string, x: real, y: real, width: real, height: real,
    rotation: real, layerId: string)

  datatype TextObj = TextObj(
    id: string, text: string, x: real, y: real, fontSize: real, fontFamily: string,
    color: string, rotation: real, layerId: string)

  /** The pointer in a text's rotated frame (origin at the text's anchor) and the measured
      width of the text. */
  datatype TextProbe = TextProbe(lx: real, ly: real, width: real)

  /** The pointer in an image's rotated frame (origin at the image's centre). */
  datatype ImageProbe = ImageProbe(lx: real, ly: real)

  function Abs(v: real): (r: real)
    ensures r >= 0.0 && (r == v || r == -v)
  {
    if v < 0.0 then -v else v
  }

  function Max(a: real, b: real): (r: real)
    ensures r >= a && r >= b && (r == a || r == b)
  {
    if a >= b then a else b
  }

  /** The text's selection box: 5 units of slack left and right, from one font size above
      the baseline to 10 below it. */
  predicate TextBodyHit(t: TextObj, p: TextProbe)
  {
    -5.0 <= p.lx <= p.width + 5.0 && -t.fontSize <= p.ly <= 10.0
  }

  /** Strictly within 10 of the rotation knob centred 20 above the box, over its middle.
      Comparing squared distances with 100 is the source's square root compared with 10. */
  predicate TextRotateHit(t: TextObj, p: TextProbe)
  {
    var ex := p.lx - p.width / 2.0;
    var ey := p.ly + t.fontSize + 20.0;
    ex * ex + ey * ey < 100.0
  }

  /** The resize square at the box's lower-right corner. */
  predicate TextResizeHit(t: TextObj, p: TextProbe)
  {
    p.width - 5.0 <= p.lx <= p.width + 15.0 && -5.0 <= p.ly <= 15.0
  }

  predicate ImageBodyHit(m: ImageObj, p: ImageProbe)
  {
    Abs(p.lx) <= m.width / 2.0 && Abs(p.ly) <= m.height / 2.0
  }

  predicate ImageRotateHit(m: ImageObj, p: ImageProbe)
  {
    var ey := p.ly + m.height / 2.0 + 20.0;
    p.lx * p.lx + ey * ey < 100.0
  }

  /** Strictly within 8 of the lower-right corner on both axes. */
  predicate ImageResizeHit(m: ImageObj, p: ImageProbe)
  {
    Abs(p.lx - m.width / 2.0) < 8.0 && Abs(p.ly - m.height / 2.0) < 8.0
  }

  /** Whether each text's body is under the pointer, index by index. */
  function TextBodyHits(texts: seq<TextObj>, tp: TextObj -> TextProbe): (r: seq<bool>)
    ensures |r| == |texts|
    ensures forall i :: 0 <= i < |texts| ==> (r[i] <==> TextBodyHit(texts[i], tp(texts[i])))
  {
    seq(|texts|, i requires 0 <= i < |texts| => TextBodyHit(texts[i], tp(texts[i])))
  }

  function ImageBodyHits(images: seq<ImageObj>, ip: ImageObj -> ImageProbe): (r: seq<bool>)
    ensures |r| == |images|
    ensures forall i :: 0 <= i < |images| ==> (r[i] <==> ImageBodyHit(images[i], ip(images[i])))
  {
    seq(|images|, i requires 0 <= i < |images| => ImageBodyHit(images[i], ip(images[i])))
  }

  // ----- delete tool -----

  datatype DeleteTarget = DeleteText(index: nat) | DeleteImage(index: nat) | NoTarget

  /** Which object a delete-tool click picks: texts are scanned from the topmost (last)
      down, then images likewise, and the first hit wins. */
  function DeletePick(texts: seq<TextObj>, images: seq<ImageObj>,
                      tp: TextObj -> TextProbe, ip: ImageObj -> ImageProbe): (r: DeleteTarget)
    ensures r.DeleteText? ==>
              && r.index < |texts| && TextBodyHit(texts[r.index], tp(texts[r.index]))
              && forall j :: r.index < j < |texts| ==> !TextBodyHit(texts[j], tp(texts[j]))
    ensures !r.DeleteText? ==> forall j :: 0 <= j < |texts| ==> !TextBodyHit(texts[j], tp(texts[j]))
    ensures r.DeleteImage? ==>
              && r.index < |images| && ImageBodyHit(images[r.index], ip(images[r.index]))
              && forall j :: r.index < j < |images| ==> !ImageBodyHit(images[j], ip(images[j]))
    ensures r.NoTarget? ==> forall j :: 0 <= j < |images| ==> !ImageBodyHit(images[j], ip(images[j]))
  {
    var ti := LastTrue(TextBodyHits(texts, tp));
    if ti >= 0 then DeleteText(ti)
    else
      var ii := LastTrue(ImageBodyHits(images, ip));
      if ii >= 0 then DeleteImage(ii) else NoTarget
  }

  /** A delete-tool click: the picked object is removed by filtering out every object with
      its identifier; `saved` says whether the click records a history entry. */
  datatype DeleteResult = DeleteResult(texts: seq<TextObj>, images: seq<ImageObj>, saved: bool)

  function DeleteClick(texts: seq<TextObj>, images: seq<ImageObj>,
                       tp: TextObj -> TextProbe, ip: ImageObj -> ImageProbe): (r: DeleteResult)
    ensures var pick := DeletePick(texts, images, tp, ip);
            pick.NoTarget? ==> r == DeleteResult(texts, images, false)
    ensures var pick := DeletePick(texts, images, tp, ip);
            pick.DeleteText? ==>
              && r.images == images && r.saved
              && r.texts == Filter(texts, OtherText(texts[pick.index].id))
    ensures var pick := DeletePick(texts, images, tp, ip);
            pick.DeleteImage? ==>
              && r.texts == texts && r.saved
              && r.images == Filter(images, OtherImage(images[pick.index].id))
  {
    match DeletePick(texts, images, tp, ip)
    case NoTarget => DeleteResult(texts, images, false)
    case DeleteText(k) =>
      var id := texts[k].id;
      DeleteResult(Filter(texts, OtherText(id)), images, true)
    case DeleteImage(k) =>
      var id := images[k].id;
      DeleteResult(texts, Filter(images, OtherImage(id)), true)
  }

  /** The filter `t => t.id !== id` the delete tool keeps texts with. */
  function OtherText(id: string): TextObj -> bool
  {
    (t: TextObj) => t.id != id
  }

  function OtherImage(id: string): ImageObj -> bool
  {
    (m: ImageObj) => m.id != id
  }

  predicate UniqueTextIds(texts: seq<TextObj>)
  {
    forall i, j :: 0 <= i < j < |texts| ==> texts[i].id != texts[j].id
  }

  predicate UniqueImageIds(images: seq<ImageObj>)
  {
    forall i, j :: 0 <= i < j < |images| ==> images[i].id != images[j].id
  }

  /** With distinct identifiers a delete-tool click removes exactly the picked object and
      keeps every other object, in order. */
  lemma DeleteRemovesExactlyOne(texts: seq<TextObj>, images: seq<ImageObj>,
                                tp: TextObj -> TextProbe, ip: ImageObj -> ImageProbe)
    requires UniqueTextIds(texts) && UniqueImageIds(images)
    ensures var r := DeleteClick(texts, images, tp, ip);
            DeletePick(texts, images, tp, ip).NoTarget? ==> r.texts == texts && r.images == images
    ensures var r := DeleteClick(texts, images, tp, ip);
            var pick := DeletePick(texts, images, tp, ip);
            pick.DeleteText? ==>
              r.texts == texts[..pick.index] + texts[pick.index + 1..] && r.images == images
    ensures var r := DeleteClick(texts, images, tp, ip);
            var pick := DeletePick(texts, images, tp, ip);
            pick.DeleteImage? ==>
              r.images == images[..pick.index] + images[pick.index + 1..] && r.texts == texts
  {
    match DeletePick(texts, images, tp, ip)
    case NoTarget =>
    case DeleteText(k) => RemoveTextById(texts, k);
    case DeleteImage(k) => RemoveImageById(images, k);
  }

  /** With distinct identifiers, filtering out the identifier of the text at `k` removes that
      text alone. */
  lemma RemoveTextById(texts: seq<TextObj>, k: nat)
    requires k < |texts| && UniqueTextIds(texts)
    ensures Filter(texts, OtherText(texts[k].id)) == texts[..k] + texts[k + 1..]
  {
    var p := OtherText(texts[k].id);
    forall j | 0 <= j < |texts| && j != k
      ensures p(texts[j])
    {
      if j < k { assert texts[j].id != texts[k].id; } else { assert texts[k].id != texts[j].id; }
    }
    FilterRemovesOne(texts, k, p);
  }

  /** The same for images. */
  lemma RemoveImageById(images: seq<ImageObj>, k: nat)
    requires k < |images| && UniqueImageIds(images)
    ensures Filter(images, OtherImage(images[k].id)) == images[..k] + images[k + 1..]
  {
    var p := OtherImage(images[k].id);
    forall j | 0 <= j < |images| && j != k
      ensures p(images[j])
    {
      if j < k { assert images[j].id != images[k].id; } else { assert images[k].id != images[j].id; }
    }
    FilterRemovesOne(images, k, p);
  }

  // ----- move tool -----

  datatype ObjKind = TextKind | ImageKind

  /** What a pointer-down grabs: a rotation knob, a resize handle, or the body, with the
      offset from the object's position to the pointer. */
  datatype Grab = Rotate | Resize | Drag(dx: real, dy: real)

  /** The handles of one text, tested in the source's order: rotation knob, resize handle,
      body. (`px`, `py`) is the pointer on the canvas. */
  function TextGrab(t: TextObj, p: TextProbe, px: real, py: real): (r: Option<Grab>)
    ensures r == None <==> !TextRotateHit(t, p) && !TextResizeHit(t, p) && !TextBodyHit(t, p)
    ensures r == Some(Rotate) <==> TextRotateHit(t, p)
    ensures r == Some(Resize) <==> !TextRotateHit(t, p) && TextResizeHit(t, p)
    ensures r.Some? && r.value.Drag? ==> t.x + r.value.dx == px && t.y + r.value.dy == py
  {
    if TextRotateHit(t, p) then Some(Rotate)
    else if TextResizeHit(t, p) then Some(Resize)
    else if TextBodyHit(t, p) then Some(Drag(px - t.x, py - t.y))
    else None
  }

  /** The same for an image, whose drag offset is taken from its top-left corner. */
  function ImageGrab(m: ImageObj, p: ImageProbe, px: real, py: real): (r: Option<Grab>)
    ensures r == None <==> !ImageRotateHit(m, p) && !ImageResizeHit(m, p) && !ImageBodyHit(m, p)
    ensures r == Some(Rotate) <==> ImageRotateHit(m, p)
    ensures r == Some(Resize) <==> !ImageRotateHit(m, p) && ImageResizeHit(m, p)
    ensures r.Some? && r.value.Drag? ==> m.x + r.value.dx == px && m.y + r.value.dy == py
  {
    if ImageRotateHit(m, p) then Some(Rotate)
    else if ImageResizeHit(m, p) then Some(Resize)
    else if ImageBodyHit(m, p) then Some(Drag(px - m.x, py - m.y))
    else None
  }

  function TextGrabs(texts: seq<TextObj>, tp: TextObj -> TextProbe, px: real, py: real): (r: seq<bool>)
    ensures |r| == |texts|
    ensures forall i :: 0 <= i < |texts| ==> (r[i] <==> TextGrab(texts[i], tp(texts[i]), px, py).Some?)
  {
    seq(|texts|, i requires 0 <= i < |texts| => TextGrab(texts[i], tp(texts[i]), px, py).Some?)
  }

  function ImageGrabs(images: seq<ImageObj>, ip: ImageObj -> ImageProbe, px: real, py: real): (r: seq<bool>)
    ensures |r| == |images|
    ensures forall i :: 0 <= i < |images| ==> (r[i] <==> ImageGrab(images[i], ip(images[i]), px, py).Some?)
  {
    seq(|images|, i requires 0 <= i < |images| => ImageGrab(images[i], ip(images[i]), px, py).Some?)
  }

  /** The current selection: an identifier and the kind of object it names. */
  datatype Selection = Selection(id: string, kind: ObjKind)

  /** The outcome of a move-tool pointer-down. */
  datatype MoveDown =
    | EditText(text: TextObj)                   // second click on the selected text opens its editor
    | Select(id: string, kind: ObjKind, grab: Grab)
    | Deselect

  /** A move-tool pointer-down. A click on the body of the already selected text opens the
      text editor; otherwise texts are scanned topmost first, then images, and the first
      object with any handle under the pointer is selected with that handle; a click on
      nothing clears the selection. An empty selected identifier counts as no selection. */
  function MoveToolDown(selected: Option<Selection>, texts: seq<TextObj>, images: seq<ImageObj>,
                        tp: TextObj -> TextProbe, ip: ImageObj -> ImageProbe,
                        px: real, py: real): (r: MoveDown)
    ensures r.EditText? <==>
              && selected.Some? && selected.value.id != "" && selected.value.kind == TextKind
              && var t := Find(texts, (t: TextObj) => t.id == selected.value.id);
                 t.Some? && TextBodyHit(t.value, tp(t.value))
    ensures r.EditText? ==> r.text in texts && r.text.id == selected.value.id
    ensures r.Select? && r.kind == TextKind ==>
              exists k :: 0 <= k < |texts| && texts[k].id == r.id
                && TextGrab(texts[k], tp(texts[k]), px, py) == Some(r.grab)
                && forall j :: k < j < |texts| ==> TextGrab(texts[j], tp(texts[j]), px, py).None?
    ensures r.Select? && r.kind == ImageKind ==>
              && (forall j :: 0 <= j < |texts| ==> TextGrab(texts[j], tp(texts[j]), px, py).None?)
              && exists k :: 0 <= k < |images| && images[k].id == r.id
                   && ImageGrab(images[k], ip(images[k]), px, py) == Some(r.grab)
                   && forall j :: k < j < |images| ==> ImageGrab(images[j], ip(images[j]), px, py).None?
    ensures r.Deselect? ==>
              && (forall j :: 0 <= j < |texts| ==> TextGrab(texts[j], tp(texts[j]), px, py).None?)
              && (forall j :: 0 <= j < |images| ==> ImageGrab(images[j], ip(images[j]), px, py).None?)
  {
    var editing :=
      if selected.Some? && selected.value.id != "" && selected.value.kind == TextKind
      then Find(texts, (t: TextObj) => t.id == selected.value.id)
      else None;
    if editing.Some? && TextBodyHit(editing.value, tp(editing.value)) then EditText(editing.value)
    else
      var ti := LastTrue(TextGrabs(texts, tp, px, py));
      if ti >= 0 then
        Select(texts[ti].id, TextKind, TextGrab(texts[ti], tp(texts[ti]), px, py).value)
      else
        var ii := LastTrue(ImageGrabs(images, ip, px, py));
        if ii >= 0 then
          Select(images[ii].id, ImageKind, ImageGrab(images[ii], ip(images[ii]), px, py).value)
        else Deselect
  }

  // ----- pointer-move updates while a handle is held -----

  /** Rotating: every text with the selected identifier takes the pointer's angle (computed
      with atan2 in the source and passed in here). */
  function RotateTexts(texts: seq<TextObj>, id: string, angle: real): (r: seq<TextObj>)
    ensures |r| == |texts|
    ensures forall i :: 0 <= i < |texts| ==>
              if texts[i].id == id then r[i] == texts[i].(rotation := angle) else r[i] == texts[i]
  {
    MapWhere(texts, (t: TextObj) => t.id == id, (t: TextObj) => t.(rotation := angle))
  }

  function RotateImages(images: seq<ImageObj>, id: string, angle: real): (r: seq<ImageObj>)
    ensures |r| == |images|
    ensures forall i :: 0 <= i < |images| ==>
              if images[i].id == id then r[i] == images[i].(rotation := angle) else r[i] == images[i]
  {
    MapWhere(images, (m: ImageObj) => m.id == id, (m: ImageObj) => m.(rotation := angle))
  }

  /** The image the resize handle is dragged on, resized about its centre: each side becomes
      twice the pointer's offset from the centre in the image's frame, but at least 20. */
  function ResizeImageAbout(m: ImageObj, p: ImageProbe): (r: ImageObj)
    ensures r.width == Max(20.0, 2.0 * p.lx) && r.height == Max(20.0, 2.0 * p.ly)
    ensures r.width >= 20.0 && r.height >= 20.0
    ensures r.width >= 2.0 * p.lx && r.height >= 2.0 * p.ly
    ensures r.x + r.width / 2.0 == m.x + m.width / 2.0
    ensures r.y + r.height / 2.0 == m.y + m.height / 2.0
    ensures r == m.(x := r.x, y := r.y, width := r.width, height := r.height)
  {
    var cx := m.x + m.width / 2.0;
    var cy := m.y + m.height / 2.0;
    var w := Max(20.0, p.lx * 2.0);
    var h := Max(20.0, p.ly * 2.0);
    m.(width := w, height := h, x := cx - w / 2.0, y := cy - h / 2.0)
  }

  /** The test `o => o.id === id` the resize handlers look objects up with. */
  function ImageWithId(id: string): ImageObj -> bool
  {
    (m: ImageObj) => m.id == id
  }

  function TextWithId(id: string): TextObj -> bool
  {
    (t: TextObj) => t.id == id
  }

  /** Resizing an image: the first image with the selected identifier is measured, and every
      image with that identifier takes the new geometry, keeping its other fields. With
      distinct identifiers that is the one image, resized about its own centre. */
  function ResizeImages(images: seq<ImageObj>, id: string, ip: ImageObj -> ImageProbe): (r: seq<ImageObj>)
    ensures |r| == |images|
    ensures forall i :: 0 <= i < |images| && images[i].id != id ==> r[i] == images[i]
    ensures forall i :: 0 <= i < |images| && images[i].id == id ==>
              var k := FindIndex(images, ImageWithId(id));
              var n := ResizeImageAbout(images[k], ip(images[k]));
              r[i] == images[i].(x := n.x, y := n.y, width := n.width, height := n.height)
    ensures forall i :: 0 <= i < |images| && images[i].id == id ==>
              && r[i].width >= 20.0 && r[i].height >= 20.0
              && r[i] == images[i].(x := r[i].x, y := r[i].y, width := r[i].width, height := r[i].height)
    ensures UniqueImageIds(images) ==>
              forall i :: 0 <= i < |images| && images[i].id == id ==>
                && r[i].x + r[i].width / 2.0 == images[i].x + images[i].width / 2.0
                && r[i].y + r[i].height / 2.0 == images[i].y + images[i].height / 2.0
  {
    var k := FindIndex(images, ImageWithId(id));
    if k == -1 then images
    else
      var n := ResizeImageAbout(images[k], ip(images[k]));
      MapWhere(images, ImageWithId(id),
               (i: ImageObj) => i.(width := n.width, height := n.height, x := n.x, y := n.y))
  }

  /** Resizing a text: the first text with the selected identifier is measured, and every
      text with that identifier takes a font size of a fifth of the pointer's horizontal
      distance from that text's anchor, but at least 12. */
  function ResizeTexts(texts: seq<TextObj>, id: string, px: real): (r: seq<TextObj>)
    ensures |r| == |texts|
    ensures forall i :: 0 <= i < |texts| && texts[i].id != id ==> r[i] == texts[i]
    ensures forall i :: 0 <= i < |texts| && texts[i].id == id ==>
              var k := FindIndex(texts, TextWithId(id));
              0 <= k <= i && r[i] == texts[i].(fontSize := Max(12.0, Abs(px - texts[k].x) / 5.0))
    ensures forall i :: 0 <= i < |texts| && texts[i].id == id ==>
              && r[i].fontSize >= 12.0
              && r[i] == texts[i].(fontSize := r[i].fontSize)
  {
    var k := FindIndex(texts, TextWithId(id));
    if k == -1 then texts
    else
      var size := Max(12.0, Abs(px - texts[k].x) / 5.0);
      MapWhere(texts, TextWithId(id), (u: TextObj) => u.(fontSize := size))
  }

  /** Dragging: objects with the selected identifier are placed so that the grab offset is
      kept under the pointer. */
  function DragTexts(texts: seq<TextObj>, id: string, px: real, py: real, dx: real, dy: real): (r: seq<TextObj>)
    ensures |r| == |texts|
    ensures forall i :: 0 <= i < |texts| ==>
              if texts[i].id == id
              then r[i].x + dx == px && r[i].y + dy == py && r[i] == texts[i].(x := r[i].x, y := r[i].y)
              else r[i] == texts[i]
  {
    MapWhere(texts, (t: TextObj) => t.id == id, (t: TextObj) => t.(x := px - dx, y := py - dy))
  }

  function DragImages(images: seq<ImageObj>, id: string, px: real, py: real, dx: real, dy: real): (r: seq<ImageObj>)
    ensures |r| == |images|
    ensures forall i :: 0 <= i < |images| ==>
              if images[i].id == id
              then r[i].x + dx == px && r[i].y + dy == py && r[i] == images[i].(x := r[i].x, y := r[i].y)
              else r[i] == images[i]
  {
    MapWhere(images, (m: ImageObj) => m.id == id, (m: ImageObj) => m.(x := px - dx, y := py - dy))
  }

  /** Grabbing a body and moving the pointer back to where it was grabbed leaves the object
      where it was. */
  lemma DragBackIsIdentity(texts: seq<TextObj>, k: nat, tp: TextObj -> TextProbe, px: real, py: real)
    requires k < |texts| && UniqueTextIds(texts)
    requires TextGrab(texts[k], tp(texts[k]), px, py).Some?
    requires TextGrab(texts[k], tp(texts[k]), px, py).value.Drag?
    ensures var g := TextGrab(texts[k], tp(texts[k]), px, py).value;
            DragTexts(texts, texts[k].id, px, py, g.dx, g.dy) == texts
  {
    var g := TextGrab(texts[k], tp(texts[k]), px, py).value;
    var r := DragTexts(texts, texts[k].id, px, py, g.dx, g.dy);
    forall i | 0 <= i < |texts|
      ensures r[i] == texts[i]
    {
      if texts[i].id == texts[k].id {
        assert i == k;
      }
    }
  }
}
