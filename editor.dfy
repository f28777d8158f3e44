/** The drag-and-drop layer editor's bookkeeping (`phantom/editor.py`):
    the drag state driven by mouse press, motion and release, the upper
    boundary of a layer's visible pixels, and the list of positions it
    exports.  The Tk canvas is not modelled: the ids under the mouse are
    a parameter of a press, and the event's y coordinate a parameter of a
    press or a motion. */
module Editor {

  import opened Util
  import opened Layer

  /** `drag_data`: the layer being dragged, its offset when the drag
      started and the mouse's y coordinate then. */
  datatype DragData = DragData(item: Option<LayerItem>, y0: int, mouseY0: int)

  const NoDrag := DragData(None, 0, 0)

  /** The position of the last layer drawn as canvas item `cid`. */
  function LastWithId(ls: seq<LayerItem>, cid: int): (r: Option<nat>)
    reads ls
    ensures r.Some? ==> r.value < |ls| && ls[r.value].canvasId == Some(cid)
    ensures r.Some? ==> forall k :: r.value < k < |ls| ==> ls[k].canvasId != Some(cid)
    ensures r.None? ==> forall k :: 0 <= k < |ls| ==> ls[k].canvasId != Some(cid)
  {
    if |ls| == 0 then None
    else if ls[|ls| - 1].canvasId == Some(cid) then Some(|ls| - 1)
    else LastWithId(ls[..|ls| - 1], cid)
  }

  /** The offset a drag gives a layer of height `h`: the start offset
      moved by the mouse's displacement, then kept within
      [-h + 1, canvas_h - 1] (the lower bound winning if they cross).
      A dragged layer keeps at least one row on the canvas, and within
      that range it follows the mouse exactly. */
  function DragY(y0: int, mouseY0: int, eventY: int, h: int, canvasH: int): (y: int)
    ensures -h + 1 <= y
    ensures -h + 1 <= canvasH - 1 ==> y <= canvasH - 1
    ensures -h + 1 <= y0 + (eventY - mouseY0) <= canvasH - 1 ==> y == y0 + (eventY - mouseY0)
  {
    MaxInt(-h + 1, MinInt(canvasH - 1, y0 + (eventY - mouseY0)))
  }

  /** Beyond it the layer stops at the nearer bound. */
  lemma DragYStops(y0: int, mouseY0: int, eventY: int, h: int, canvasH: int)
    requires -h + 1 <= canvasH - 1
    ensures y0 + (eventY - mouseY0) < -h + 1 ==> DragY(y0, mouseY0, eventY, h, canvasH) == -h + 1
    ensures y0 + (eventY - mouseY0) > canvasH - 1 ==> DragY(y0, mouseY0, eventY, h, canvasH) == canvasH - 1
  {
  }

  /** The first row of column `x` whose alpha is positive. */
  function TopOpaqueRow(alpha: Grid<int>, x: nat, from: nat): (r: Option<nat>)
    requires forall i :: 0 <= i < |alpha| ==> x < |alpha[i]|
    requires from <= |alpha|
    ensures r.Some? ==> from <= r.value < |alpha| && alpha[r.value][x] > 0
    ensures r.Some? ==> forall i :: from <= i < r.value ==> alpha[i][x] <= 0
    ensures r.None? ==> forall i :: from <= i < |alpha| ==> alpha[i][x] <= 0
    decreases |alpha| - from
  {
    if from == |alpha| then None
    else if alpha[from][x] > 0 then Some(from)
    else TopOpaqueRow(alpha, x, from + 1)
  }

  /** `get_layer_upper_boundary` as a value: `canvas_w` entries; column
      `x` holds the canvas row of the topmost visible pixel of the layer
      in that column, none for a fully transparent column or one beyond
      the image. */
  function UpperBoundary(img: RgbaImage, y: int, canvasW: int): (out: seq<Option<int>>)
    requires img.Valid()
    ensures |out| == MaxInt(canvasW, 0)
    ensures forall x :: 0 <= x < |out| && img.width <= x ==> out[x].None?
    ensures forall x :: 0 <= x < |out| && x < img.width ==>
              out[x] == match TopOpaqueRow(img.alpha, x, 0)
                        case None => None
                        case Some(r) => Some(y + r)
  {
    seq(MaxInt(canvasW, 0), x requires 0 <= x =>
      if x < img.width then
        match TopOpaqueRow(img.alpha, x, 0)
        case None => None
        case Some(r) => Some(y + r)
      else None)
  }

  /** One exported entry of `save_all` / `on_close`. */
  datatype ExportedLayer = ExportedLayer(name: string, y: int, upperBoundary: seq<Option<int>>)

  /** Whether the export skips a layer: the background and every layer
      that cannot be dragged. */
  predicate Skipped(l: LayerItem)
    reads l
  {
    l.name == "background" || !l.draggable
  }

  /** The exported list, in layer order. */
  function Exported(ls: seq<LayerItem>, canvasW: int): (out: seq<ExportedLayer>)
    reads ls
    requires forall k :: 0 <= k < |ls| ==> ls[k].pilImage.Valid()
    ensures |out| <= |ls|
    ensures forall k :: 0 <= k < |out| ==> out[k].name != "background"
  {
    if |ls| == 0 then []
    else
      var l := ls[|ls| - 1];
      var init := Exported(ls[..|ls| - 1], canvasW);
      if Skipped(l) then init
      else init + [ExportedLayer(l.name, l.y, UpperBoundary(l.pilImage, l.y, canvasW))]
  }

  /** Exporting two runs of layers exports the first run's entries before
      the second's: the export keeps layer order. */
  lemma {:induction false} ExportedConcat(a: seq<LayerItem>, b: seq<LayerItem>, canvasW: int)
    requires forall k :: 0 <= k < |a| ==> a[k].pilImage.Valid()
    requires forall k :: 0 <= k < |b| ==> b[k].pilImage.Valid()
    ensures Exported(a + b, canvasW) == Exported(a, canvasW) + Exported(b, canvasW)
    decreases |b|
  {
    if |b| == 0 {
      assert a + b == a;
    } else {
      var b' := b[..|b| - 1];
      assert (a + b)[..|a + b| - 1] == a + b';
      ExportedConcat(a, b', canvasW);
    }
  }

  /** A single layer is exported, with its offset and boundary, exactly
      when it is not skipped. */
  lemma ExportedOne(l: LayerItem, canvasW: int)
    requires l.pilImage.Valid()
    ensures Exported([l], canvasW) ==
            if Skipped(l) then [] else [ExportedLayer(l.name, l.y, UpperBoundary(l.pilImage, l.y, canvasW))]
  {
    assert [l][..0] == [];
  }

  class LayerEditorApp {
    const canvasW: int
    const canvasH: int
    var layers: seq<LayerItem>
    var dragData: DragData

    /** The editor starts with no drag in progress (drawing the layers
        on the Tk canvas is not modelled). */
    constructor(layers: seq<LayerItem>, canvasW: int, canvasH: int)
      ensures this.layers == layers && this.canvasW == canvasW && this.canvasH == canvasH
      ensures dragData == NoDrag
    {
      this.canvasW := canvasW;
      this.canvasH := canvasH;
      this.layers := layers;
      this.dragData := NoDrag;
    }

    /** `on_press`: `clicked` are the ids of the canvas items under the
        mouse.  The last layer drawn as the first of them starts a drag,
        unless it cannot be dragged; a press on no layer changes nothing. */
    method OnPress(clicked: seq<int>, eventY: int)
      modifies this
      ensures layers == old(layers)
      ensures |clicked| == 0 ==> dragData == old(dragData)
      ensures 0 < |clicked| ==>
                var hit := LastWithId(layers, clicked[0]);
                if hit.Some? && layers[hit.value].draggable
                then dragData == DragData(Some(layers[hit.value]), layers[hit.value].y, eventY)
                else dragData == old(dragData)
    {
      if |clicked| == 0 {
        return;
      }
      var cid := clicked[0];
      var li: Option<nat> := None;
      var k := |layers|;
      while k > 0
        invariant 0 <= k <= |layers|
        invariant li.None? ==> forall m :: k <= m < |layers| ==> layers[m].canvasId != Some(cid)
        invariant li.Some? ==> li == LastWithId(layers, cid)
        decreases k
      {
        k := k - 1;
        if layers[k].canvasId == Some(cid) {
          li := Some(k);
          LastIsHit(layers, cid, k);
          break;
        }
      }
      if li.None? {
        NoneHit(layers, cid);
        return;
      }
      var item := layers[li.value];
      if !item.draggable {
        return;
      }
      dragData := DragData(Some(item), item.y, eventY);
    }

    /** `on_motion`: the dragged layer, if any, moves to `DragY`; only
        its `y` field may change, so its name, images, flag and canvas
        item stay as they were. */
    method OnMotion(eventY: int)
      modifies (if dragData.item.Some? then {dragData.item.value} else {})`y
      ensures dragData.item.Some? ==>
                dragData.item.value.y ==
                  DragY(dragData.y0, dragData.mouseY0, eventY,
                        old(dragData.item.value.pilImage).Height(), canvasH)
    {
      match dragData.item {
        case None =>
        case Some(li) =>
          var dy := eventY - dragData.mouseY0;
          var newY := dragData.y0 + dy;
          var h: int := li.pilImage.Height();
          newY := MaxInt(-h + 1, MinInt(canvasH - 1, newY));
          li.y := newY;
      }
    }

    /** `on_release`: back to no drag. */
    method OnRelease()
      modifies this
      ensures layers == old(layers) && dragData == NoDrag
    {
      dragData := NoDrag;
    }

    /** `get_layer_upper_boundary`: fills a list of `canvas_w` empty
        entries column by column. */
    method GetLayerUpperBoundary(li: LayerItem) returns (out: seq<Option<int>>)
      requires li.pilImage.Valid()
      ensures out == UpperBoundary(li.pilImage, li.y, canvasW)
    {
      var alpha := li.pilImage.alpha;
      var w := li.pilImage.width;
      out := seq(MaxInt(canvasW, 0), _ => None);
      var cols := MinInt(w, canvasW);
      for x := 0 to MaxInt(cols, 0)
        invariant |out| == MaxInt(canvasW, 0)
        invariant forall c :: 0 <= c < x ==> out[c] == UpperBoundary(li.pilImage, li.y, canvasW)[c]
        invariant forall c :: x <= c < |out| ==> out[c].None?
      {
        var top := TopOpaqueRow(alpha, x, 0);
        if top.None? {
          out := out[x := None];
        } else {
          out := out[x := Some(li.y + top.value)];
        }
      }
    }

    /** The positions written by `save_all` and `on_close`. */
    method ExportPositions() returns (out: seq<ExportedLayer>)
      requires forall k :: 0 <= k < |layers| ==> layers[k].pilImage.Valid()
      ensures out == Exported(layers, canvasW)
    {
      out := [];
      for k := 0 to |layers|
        invariant out == Exported(layers[..k], canvasW)
      {
        var li := layers[k];
        assert layers[..k + 1][..k] == layers[..k];
        if li.name == "background" || !li.draggable {
          continue;
        }
        var ub := GetLayerUpperBoundary(li);
        out := out + [ExportedLayer(li.name, li.y, ub)];
      }
      assert layers[..|layers|] == layers;
    }
  }

  /** A layer found from the end is the last one with that id. */
  lemma LastIsHit(ls: seq<LayerItem>, cid: int, k: nat)
    requires k < |ls| && ls[k].canvasId == Some(cid)
    requires forall m :: k < m < |ls| ==> ls[m].canvasId != Some(cid)
    ensures LastWithId(ls, cid) == Some(k)
  {
  }

  lemma NoneHit(ls: seq<LayerItem>, cid: int)
    requires forall m :: 0 <= m < |ls| ==> ls[m].canvasId != Some(cid)
    ensures LastWithId(ls, cid).None?
  {
  }

  /** The boundary test's image: 10 columns and 6 rows, opaque from row 2
      down in column 2 and from row 3 down in column 5. */
  function BoundaryTestImage(): RgbaImage {
    RgbaImage(seq(6, i => seq(10, j => if (j == 2 && i >= 2) || (j == 5 && i >= 3) then 255 else 0)), 10)
  }

  /** At offset 4 on a 15-column canvas, columns 2 and 5 start at canvas
      rows 6 and 7; every other column is empty. */
  lemma BoundaryTest()
    ensures BoundaryTestImage().Valid()
    ensures var out := UpperBoundary(BoundaryTestImage(), 4, 15);
            |out| == 15 && out[2] == Some(6) && out[5] == Some(7) &&
            forall x :: 0 <= x < 15 && x != 2 && x != 5 ==> out[x].None?
  {
    var img := BoundaryTestImage();
    assert TopOpaqueRow(img.alpha, 2, 0) == Some(2) by {
      assert img.alpha[0][2] == 0 && img.alpha[1][2] == 0 && img.alpha[2][2] == 255;
    }
    assert TopOpaqueRow(img.alpha, 5, 0) == Some(3) by {
      assert img.alpha[0][5] == 0 && img.alpha[1][5] == 0 && img.alpha[2][5] == 0;
      assert img.alpha[3][5] == 255;
    }
    forall x | 0 <= x < 10 && x != 2 && x != 5
      ensures TopOpaqueRow(img.alpha, x, 0).None?
    {
      assert forall i :: 0 <= i < 6 ==> img.alpha[i][x] == 0;
    }
  }
}
