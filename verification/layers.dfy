/**
 * The layer stack of the drawing editor (app/code/dr-01/page.tsx): creation, appending,
 * visibility and opacity edits, and drag-and-drop reordering. Deletion, which also touches
 * the scene objects and the active layer, is in module Editor.
 */
module Layers {
  import opened Options
  import opened Strings
  import opened Raster
  import opened Seqs

  datatype LayerKind = Drawing | Background | ImageLayer | TextLayer

  /** A layer: its identifier, display name, visibility, opacity in percent, the canvas it
      owns, and its kind. */
  datatype Layer = Layer(id: string, name: string, visible: bool, opacity: int, raster: Grid, kind: LayerKind)

  /** `createNewLayer`: a visible, fully opaque layer with a blank canvas of the current
      canvas size. The identifier (built from the clock and a random number in the source)
      is supplied by the caller. */
  function CreateNewLayer(id: string, name: string, kind: LayerKind, w: nat, h: nat): (l: Layer)
    ensures l.id == id && l.name == name && l.kind == kind
    ensures l.visible && l.opacity == 100
    ensures IsGrid(l.raster, w, h)
    ensures forall y, x :: 0 <= y < h && 0 <= x < w ==> l.raster[y][x] == Transparent
  {
    Layer(id, name, true, 100, Blank(w, h), kind)
  }

  /** The name `addLayer` gives the layer it appends to a stack of `n` layers. */
  function NewLayerName(n: nat): string
  {
    "Layer " + NatToString(n + 1)
  }

  /** The stack part of `addLayer`: one new drawing layer appended on top. */
  function AppendLayer(layers: seq<Layer>, id: string, w: nat, h: nat): (r: seq<Layer>)
    ensures |r| == |layers| + 1 && r[..|layers|] == layers
    ensures var l := r[|layers|];
            && l.id == id && l.name == NewLayerName(|layers|) && l.kind == Drawing
            && l.visible && l.opacity == 100 && l.raster == Blank(w, h)
  {
    layers + [CreateNewLayer(id, NewLayerName(|layers|), Drawing, w, h)]
  }

  /** `layers.find(l => l.id === id)`. */
  function FindLayer(layers: seq<Layer>, id: string): (r: Option<Layer>)
    ensures r.Some? <==> exists i :: 0 <= i < |layers| && layers[i].id == id
    ensures r.Some? ==> r.value in layers && r.value.id == id
    ensures forall i :: 0 <= i < |layers| && layers[i].id == id && (forall j :: 0 <= j < i ==> layers[j].id != id) ==>
              r == Some(layers[i])
  {
    Find(layers, (l: Layer) => l.id == id)
  }

  /** `toggleLayerVisibility`: flips the visibility of the layers with identifier `id`;
      nothing else changes. */
  function ToggleVisibility(layers: seq<Layer>, id: string): (r: seq<Layer>)
    ensures |r| == |layers|
    ensures forall i :: 0 <= i < |layers| && layers[i].id != id ==> r[i] == layers[i]
    ensures forall i :: 0 <= i < |layers| && layers[i].id == id ==>
              r[i].visible == !layers[i].visible && r[i] == layers[i].(visible := r[i].visible)
  {
    seq(|layers|, i requires 0 <= i < |layers| =>
      if layers[i].id == id then layers[i].(visible := !layers[i].visible) else layers[i])
  }

  /** Toggling twice restores the stack. */
  lemma ToggleTwice(layers: seq<Layer>, id: string)
    ensures ToggleVisibility(ToggleVisibility(layers, id), id) == layers
  {
  }

  /** `updateLayerOpacity`: sets the opacity of the layers with identifier `id`; nothing else
      changes. */
  function SetOpacity(layers: seq<Layer>, id: string, opacity: int): (r: seq<Layer>)
    ensures |r| == |layers|
    ensures forall i :: 0 <= i < |layers| ==>
              r[i] == (if layers[i].id == id then layers[i].(opacity := opacity) else layers[i])
  {
    seq(|layers|, i requires 0 <= i < |layers| =>
      if layers[i].id == id then layers[i].(opacity := opacity) else layers[i])
  }

  /** Opacity edits are last-write-wins, and an edit never touches another layer's opacity. */
  lemma SetOpacityLastWins(layers: seq<Layer>, id: string, a: int, b: int)
    ensures SetOpacity(SetOpacity(layers, id, a), id, b) == SetOpacity(layers, id, b)
  {
  }

  /** Which layer is being dragged and which one the pointer is over. */
  datatype DragState = DragState(dragged: Option<string>, over: Option<string>)

  const NoDrag := DragState(None, None)

  /** JavaScript truthiness of an optional identifier: absent and empty are both false. */
  predicate Truthy(id: Option<string>)
  {
    id.Some? && id.value != ""
  }

  /** `handleLayerDrop`: the dragged layer is taken out and inserted at the index the target
      had before, so it lands there. */
  function Drop(layers: seq<Layer>, drag: DragState, target: string): (r: (seq<Layer>, DragState))
    ensures !Truthy(drag.dragged) || drag.dragged.value == target ==> r == (layers, NoDrag)
    ensures Truthy(drag.dragged) && drag.dragged.value != target ==>
              var di := FindIndex(layers, (l: Layer) => l.id == drag.dragged.value);
              var ti := FindIndex(layers, (l: Layer) => l.id == target);
              if di == -1 || ti == -1 then r == (layers, drag)
              else
                && r.1 == NoDrag
                && |r.0| == |layers|
                && r.0[ti] == layers[di]
                && multiset(r.0) == multiset(layers)
                && RemoveAt(r.0, ti) == RemoveAt(layers, di)
  {
    if !Truthy(drag.dragged) || drag.dragged.value == target then (layers, NoDrag)
    else
      var di := FindIndex(layers, (l: Layer) => l.id == drag.dragged.value);
      var ti := FindIndex(layers, (l: Layer) => l.id == target);
      if di == -1 || ti == -1 then (layers, drag)
      else
        var removed := RemoveAt(layers, di);
        var moved := InsertAt(removed, ti, layers[di]);
        assert multiset(removed) + multiset{layers[di]} == multiset(layers);
        (moved, NoDrag)
  }
}
