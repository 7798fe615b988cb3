/**
 * The drawing editor's linear undo/redo history (`saveToHistory`, `undo`, `redo` in
 * app/code/dr-01/page.tsx): a list of document snapshots and a pointer to the snapshot that
 * is currently materialised. Snapshots are values here; the source's deep copies of canvases
 * on store and on load make its snapshots behave as values too.
 */
module History {
  import opened Options

  /** At most this many snapshots are kept; the oldest is dropped on overflow. */
  const MaxDepth: nat := 50

  datatype History<S> = History(entries: seq<S>, index: int)

  /** The history the editor starts with: nothing stored, pointer at -1. */
  function Empty<S>(): History<S>
  {
    History([], -1)
  }

  /** What every reachable history satisfies: the pointer is -1 or indexes a snapshot, and
      the list holds at most `MaxDepth` snapshots. */
  predicate Valid<S>(h: History<S>)
  {
    -1 <= h.index < |h.entries| <= MaxDepth
  }

  /** `history.slice(0, end)`: JavaScript clamps the end to the list, and a negative end
      counts from the back. */
  function SliceTo<S>(s: seq<S>, end: int): (r: seq<S>)
    ensures |r| <= |s| && r == s[..|r|]
    ensures 0 <= end <= |s| ==> |r| == end
    ensures end > |s| ==> r == s
  {
    if end < 0 then (if |s| + end < 0 then [] else s[..|s| + end])
    else if end > |s| then s
    else s[..end]
  }

  /** `saveToHistory` with the snapshot the caller took: entries after the pointer are
      discarded, the snapshot is appended, and when that makes 51 entries the oldest is
      shifted out and the pointer stays; otherwise the pointer advances. */
  function Save<S>(h: History<S>, snap: S): (r: History<S>)
    ensures |r.entries| >= 1 && r.entries[|r.entries| - 1] == snap
    ensures Valid(h) ==> Valid(r) && r.index == |r.entries| - 1
    ensures Valid(h) ==>
              var n := |r.entries| - 1;
              && n == (if h.index + 1 < MaxDepth then h.index + 1 else MaxDepth - 1)
              && r.entries[..n] == h.entries[h.index + 1 - n..h.index + 1]
  {
    var kept := SliceTo(h.entries, h.index + 1);
    var pushed := kept + [snap];
    if |pushed| > MaxDepth then History(pushed[1..], h.index)
    else History(pushed, h.index + 1)
  }

  /** The outcome of undo or redo: the new history and the snapshot to load, if any. */
  datatype Step<S> = Step(hist: History<S>, loaded: Option<S>)

  /** The first save into an empty history holds just that snapshot, current. */
  lemma SaveToEmpty<S>(h: History<S>, snap: S)
    requires h.entries == [] && h.index == -1
    ensures Save(h, snap) == History([snap], 0)
  {
  }

  /** `undo`: a no-op at pointer 0 or -1; otherwise the pointer moves back one and that
      snapshot is loaded. */
  function Undo<S>(h: History<S>): (r: Step<S>)
    requires Valid(h)
    ensures Valid(r.hist) && r.hist.entries == h.entries
    ensures h.index <= 0 ==> r.hist == h && r.loaded == None
    ensures h.index > 0 ==> r.hist.index == h.index - 1 && r.loaded == Some(h.entries[h.index - 1])
  {
    if h.index > 0 then
      var i := h.index - 1;
      Step(History(h.entries, i), Some(h.entries[i]))
    else Step(h, None)
  }

  /** `redo`: a no-op at the newest snapshot; otherwise the pointer moves forward one and
      that snapshot is loaded. */
  function Redo<S>(h: History<S>): (r: Step<S>)
    requires Valid(h)
    ensures Valid(r.hist) && r.hist.entries == h.entries
    ensures h.index >= |h.entries| - 1 ==> r.hist == h && r.loaded == None
    ensures h.index < |h.entries| - 1 ==>
              r.hist.index == h.index + 1 && r.loaded == Some(h.entries[h.index + 1])
  {
    if h.index < |h.entries| - 1 then
      var i := h.index + 1;
      Step(History(h.entries, i), Some(h.entries[i]))
    else Step(h, None)
  }

  /** Undo then redo returns the pointer to where it was and reloads the snapshot that was
      materialised before the undo. */
  lemma UndoThenRedo<S>(h: History<S>)
    requires Valid(h) && h.index > 0
    ensures Redo(Undo(h).hist).hist == h
    ensures Redo(Undo(h).hist).loaded == Some(h.entries[h.index])
  {
  }

  /** Redo then undo returns the pointer to where it was. */
  lemma RedoThenUndo<S>(h: History<S>)
    requires Valid(h) && 0 <= h.index < |h.entries| - 1
    ensures Undo(Redo(h).hist).hist == h
    ensures Undo(Redo(h).hist).loaded == Some(h.entries[h.index])
  {
  }

  /** A save after any number of undos leaves nothing to redo. */
  lemma SaveDiscardsRedo<S>(h: History<S>, snap: S)
    requires Valid(h)
    ensures Redo(Save(h, snap)).hist == Save(h, snap)
    ensures Redo(Save(h, snap)).loaded == None
  {
  }

  /** Any sequence of saves, starting from any reachable history, never keeps more than
      `MaxDepth` snapshots, and the newest save is the materialised one. */
  lemma {:induction false} SavesStayBounded<S>(h: History<S>, snaps: seq<S>)
    requires Valid(h)
    ensures Valid(SaveAll(h, snaps))
    ensures |snaps| > 0 ==> var r := SaveAll(h, snaps); 0 <= r.index < |r.entries| && r.entries[r.index] == snaps[|snaps| - 1]
    decreases |snaps|
  {
    if |snaps| > 0 {
      SavesStayBounded(Save(h, snaps[0]), snaps[1..]);
      if |snaps| == 1 {
        assert SaveAll(Save(h, snaps[0]), snaps[1..]) == Save(h, snaps[0]);
      } else {
        assert snaps[1..][|snaps[1..]| - 1] == snaps[|snaps| - 1];
      }
    }
  }

  /** Saves `snaps` one after the other. */
  function SaveAll<S>(h: History<S>, snaps: seq<S>): History<S>
    decreases |snaps|
  {
    if |snaps| == 0 then h else SaveAll(Save(h, snaps[0]), snaps[1..])
  }

  /** The newest `MaxDepth` elements of `s`, oldest first (all of `s` when it is shorter). */
  function Newest<S>(s: seq<S>): (r: seq<S>)
    ensures |r| == if |s| < MaxDepth then |s| else MaxDepth
    ensures r == s[|s| - |r|..]
  {
    if |s| < MaxDepth then s else s[|s| - MaxDepth..]
  }

  /** After any number of saves from the empty history, the newest `MaxDepth` snapshots are
      kept, oldest first, and the pointer is at the last of them. */
  lemma SaveAllKeepsNewest<S>(snaps: seq<S>)
    ensures var r := SaveAll(Empty(), snaps);
            r.entries == Newest(snaps) && r.index == |r.entries| - 1
  {
    var e: seq<S> := [];
    assert e + snaps == snaps;
    SaveAllKeepsNewestFrom(Empty(), e, snaps);
  }

  /** Generalisation: from a full-pointer history holding the newest part of `done`, saving
      `todo` keeps the newest part of `done + todo`. */
  lemma {:induction false} SaveAllKeepsNewestFrom<S>(h: History<S>, done: seq<S>, todo: seq<S>)
    requires h.index == |h.entries| - 1 && h.entries == Newest(done)
    ensures var r := SaveAll(h, todo);
            r.entries == Newest(done + todo) && r.index == |r.entries| - 1
    decreases |todo|
  {
    if |todo| == 0 {
      assert done + todo == done;
    } else {
      var x := todo[0];
      var h' := Save(h, x);
      var done' := done + [x];
      SaveAtTip(h, done, x);
      SaveAllKeepsNewestFrom(h', done', todo[1..]);
      SaveAllStep(h, todo);
      ConcatStep(done, todo);
    }
  }

  lemma SaveAllStep<S>(h: History<S>, todo: seq<S>)
    requires |todo| > 0
    ensures SaveAll(h, todo) == SaveAll(Save(h, todo[0]), todo[1..])
  {
  }

  lemma ConcatStep<S>(done: seq<S>, todo: seq<S>)
    requires |todo| > 0
    ensures done + [todo[0]] + todo[1..] == done + todo
  {
    assert [todo[0]] + todo[1..] == todo;
  }

  /** One save at the tip of a history holding the newest part of `done`. */
  lemma SaveAtTip<S>(h: History<S>, done: seq<S>, x: S)
    requires h.index == |h.entries| - 1 && h.entries == Newest(done)
    ensures var r := Save(h, x);
            r.entries == Newest(done + [x]) && r.index == |r.entries| - 1
  {
    var done' := done + [x];
    assert SliceTo(h.entries, h.index + 1) == h.entries;
    var n := |Newest(done)|;
    assert h.entries + [x] == done'[|done| - n..];
  }
}
