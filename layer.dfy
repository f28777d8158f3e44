/** One layer of the phantom editor (`phantom/layer.py`): a named RGBA
    image placed at a vertical offset on the canvas. */
module Layer {

  import opened Util

  /** An RGBA image as far as layer placement needs it: `width` columns
      and `|alpha|` rows of alpha values (0..255). */
  datatype RgbaImage = RgbaImage(alpha: Grid<int>, width: nat)
  {
    predicate Valid() {
      IsGrid(alpha, |alpha|, width)
    }

    function Height(): nat {
      |alpha|
    }
  }

  /** The vertical offset a new layer gets: `y` when given, otherwise
      `init_y` when given, otherwise 0. */
  function ChosenY(initY: Option<int>, y: Option<int>): (r: int)
    ensures y.Some? ==> r == y.value
    ensures y.None? ==> r == (if initY.Some? then initY.value else 0)
  {
    match y
    case Some(v) => v
    case None => if initY.Some? then initY.value else 0
  }

  class LayerItem {
    var name: string
    var pilImage: RgbaImage
    var originalImage: RgbaImage
    var y: int
    var draggable: bool
    /** The Tk photo the editor draws (none until it draws the layer). */
    var tkImage: Option<RgbaImage>
    /** The canvas item showing the layer (none until it is drawn). */
    var canvasId: Option<int>

    /** `LayerItem.__init__`: the image is kept with an untouched copy,
        the offset follows `ChosenY`, and the layer is not yet drawn. */
    constructor(name: string, pilImage: RgbaImage, initY: Option<int>, y: Option<int>, draggable: bool)
      ensures this.name == name && this.pilImage == pilImage && this.originalImage == pilImage
      ensures this.y == ChosenY(initY, y)
      ensures this.draggable == draggable
      ensures tkImage.None? && canvasId.None?
    {
      this.name := name;
      this.pilImage := pilImage;
      this.originalImage := pilImage;
      this.tkImage := None;
      var chosen: int;
      if y.Some? {
        chosen := y.value;
      } else if initY.Some? {
        chosen := initY.value;
      } else {
        chosen := 0;
      }
      this.y := chosen;
      this.canvasId := None;
      this.draggable := draggable;
    }
  }
}
