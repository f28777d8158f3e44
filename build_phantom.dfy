/** Rebuilding the phantom from exported positions
    (`scripts/build_phantom_from_json.py`, `build_phantom_from_positions`).

    Only the placement is modelled: which layer is drawn, in which order
    and at which row offset.  Decoding the PNG files, the gamma noise and
    PIL's alpha compositing are not; the composite is described by the
    list of placements drawn onto the blank canvas, in drawing order.
    Loading a layer's PNG is a parameter that gives the loaded image's
    height, or nothing when loading fails. */
module BuildPhantom {

  import opened Util
  import Editor

  /** A JSON number: an integer or a float. */
  datatype JsonNumber = JInt(i: int) | JFloat(r: real)

  /** One entry of the positions list: the keys 'name' and 'y' when
      present (other keys play no part). */
  datatype PositionEntry = PositionEntry(name: Option<string>, y: Option<JsonNumber>)

  /** Gamma parameters per layer name: each a dictionary of named values
      ('shape', 'scale'). */
  type GammaParams = map<string, map<string, real>>

  /** One layer drawn onto the canvas at row offset `y`, column 0. */
  datatype Placement = Placement(layer: string, y: int, height: nat)

  /** Python's `int(x)`: an integer stays, a float is truncated toward
      zero. */
  function ToInt(v: JsonNumber): (t: int)
    ensures v.JInt? ==> t == v.i
    ensures v.JFloat? && 0.0 <= v.r ==> t as real <= v.r < t as real + 1.0
    ensures v.JFloat? && v.r < 0.0 ==> t as real - 1.0 < v.r <= t as real
  {
    match v
    case JInt(i) => i
    case JFloat(r) => if r >= 0.0 then r.Floor else -((-r).Floor)
  }

  /** The position of the last entry named `nm`. */
  function LastNamed(ps: seq<PositionEntry>, nm: string): (r: Option<nat>)
    ensures r.Some? ==> r.value < |ps| && ps[r.value].name == Some(nm)
    ensures r.Some? ==> forall k :: r.value < k < |ps| ==> ps[k].name != Some(nm)
    ensures r.None? ==> forall k :: 0 <= k < |ps| ==> ps[k].name != Some(nm)
  {
    if |ps| == 0 then None
    else if ps[|ps| - 1].name == Some(nm) then Some(|ps| - 1)
    else LastNamed(ps[..|ps| - 1], nm)
  }

  /** `pos_by_name`: entries without a name are left out, and of several
      entries with one name the last is kept. */
  function PosByName(ps: seq<PositionEntry>): (m: map<string, PositionEntry>)
    ensures forall nm :: nm in m <==> LastNamed(ps, nm).Some?
    ensures forall nm :: nm in m ==> m[nm] == ps[LastNamed(ps, nm).value]
  {
    if |ps| == 0 then map[]
    else
      var init := ps[..|ps| - 1];
      var last := ps[|ps| - 1];
      var m := PosByName(init);
      assert forall k :: 0 <= k < |init| ==> init[k] == ps[k];
      if last.name.Some? then m[last.name.value := last] else m
  }

  /** A layer's requested offset: `int(entry['y'])` when its entry exists
      and has a 'y', 0 otherwise. */
  function RequestedY(byName: map<string, PositionEntry>, layerName: string): (y: int)
    ensures layerName !in byName || byName[layerName].y.None? ==> y == 0
    ensures layerName in byName && byName[layerName].y.Some? && byName[layerName].y.value.JInt? ==>
              y == byName[layerName].y.value.i
  {
    if layerName in byName && byName[layerName].y.Some? then ToInt(byName[layerName].y.value) else 0
  }

  /** The two clipping steps in their order: first raised to
      `-height + 1`, then lowered to `canvas_h - 1`, so the upper bound
      wins when the bounds cross. */
  function ClippedY(y: int, height: int, canvasH: int): (r: int)
    ensures r <= canvasH - 1
    ensures -height + 1 <= canvasH - 1 ==> -height + 1 <= r
    ensures -height + 1 <= y <= canvasH - 1 ==> r == y
  {
    var raised := if y < -height + 1 then -height + 1 else y;
    if raised > canvasH - 1 then canvasH - 1 else raised
  }

  /** The editor's drag clamp and this clipping agree whenever the bounds
      do not cross, that is for every layer at least one row high on a
      canvas at least one row high. */
  lemma ClampsAgree(y0: int, mouseY0: int, eventY: int, height: int, canvasH: int)
    requires -height + 1 <= canvasH - 1
    ensures Editor.DragY(y0, mouseY0, eventY, height, canvasH) ==
            ClippedY(y0 + (eventY - mouseY0), height, canvasH)
  {
  }

  /** Whether a dictionary of parameters is present and truthy (not
      empty), as `gamma_params.get(name) if gamma_params else None`
      followed by `if params:`. */
  predicate HasParams(gamma: GammaParams, name: string): (b: bool)
    ensures b <==> name in gamma && 0 < |gamma[name]|
  {
    0 < |gamma| && name in gamma && 0 < |gamma[name]|
  }

  /** `layer_names[1:]`. */
  function Tail(names: seq<string>): seq<string> {
    if |names| == 0 then [] else names[1..]
  }

  /** The height of the image a layer is drawn from: the loaded PNG's, or
      the canvas-sized transparent placeholder's when loading failed. */
  function LayerHeight(loaded: Option<nat>, canvasH: nat): nat {
    if loaded.Some? then loaded.value else canvasH
  }

  /** The placement of the `k`-th non-background layer. */
  function LayerPlacement(byName: map<string, PositionEntry>, pngFiles: seq<string>, names: seq<string>,
                          k: nat, canvasW: nat, canvasH: nat,
                          load: (string, nat) -> Option<nat>): (p: Placement)
    requires k < |pngFiles| && k < |names|
  {
    var h := LayerHeight(load(pngFiles[k], canvasW), canvasH);
    Placement(names[k], ClippedY(RequestedY(byName, names[k]), h, canvasH), h)
  }

  /** The placements of the layers of `zip(png_files, names)`, up to the
      shorter of the two lists. */
  function LayerPlacements(byName: map<string, PositionEntry>, pngFiles: seq<string>, names: seq<string>,
                           canvasW: nat, canvasH: nat,
                           load: (string, nat) -> Option<nat>): (ps: seq<Placement>)
    ensures |ps| == MinInt(|pngFiles|, |names|)
    ensures forall k :: 0 <= k < |ps| ==> ps[k] == LayerPlacement(byName, pngFiles, names, k, canvasW, canvasH, load)
  {
    seq(MinInt(|pngFiles|, |names|), k requires 0 <= k < MinInt(|pngFiles|, |names|) =>
      LayerPlacement(byName, pngFiles, names, k, canvasW, canvasH, load))
  }

  /** What is drawn before the layers: the canvas-sized background at
      offset 0 when its parameters are present, nothing otherwise. */
  function Background(gamma: GammaParams, canvasH: nat): (bg: seq<Placement>)
    ensures |bg| <= 1
    ensures |bg| == 1 <==> HasParams(gamma, "background")
    ensures forall k :: 0 <= k < |bg| ==> bg[k] == Placement("background", 0, canvasH)
  {
    if HasParams(gamma, "background") then [Placement("background", 0, canvasH)] else []
  }

  /** The drawing order of `build_phantom_from_positions`: the
      background first when its parameters are present, then one layer
      per pair of `zip(png_files, layer_names[1:])` in that order. Every
      layer ends on the canvas's last row or above and, unless the bounds
      cross, keeps a row on the canvas. */
  function Placements(positions: seq<PositionEntry>, canvasW: nat, canvasH: nat,
                      pngFiles: seq<string>, layerNames: seq<string>, gamma: GammaParams,
                      load: (string, nat) -> Option<nat>): (ps: seq<Placement>)
    ensures |ps| == |Background(gamma, canvasH)| + MinInt(|pngFiles|, |Tail(layerNames)|)
    ensures HasParams(gamma, "background") ==> ps[0] == Placement("background", 0, canvasH)
    ensures forall k :: |Background(gamma, canvasH)| <= k < |ps| ==>
              ps[k].layer == Tail(layerNames)[k - |Background(gamma, canvasH)|]
    ensures forall k :: |Background(gamma, canvasH)| <= k < |ps| ==>
              ps[k].y <= canvasH - 1 && (2 <= ps[k].height + canvasH ==> 1 - ps[k].height as int <= ps[k].y)
  {
    Background(gamma, canvasH) +
    LayerPlacements(PosByName(positions), pngFiles, Tail(layerNames), canvasW, canvasH, load)
  }

  /** `build_phantom_from_positions`: the loop over layers computes each
      offset step by step and draws the layer. */
  method BuildPhantomFromPositions(positions: seq<PositionEntry>, canvasW: nat, canvasH: nat,
                                   pngFiles: seq<string>, layerNames: seq<string>, gamma: GammaParams,
                                   load: (string, nat) -> Option<nat>)
    returns (drawn: seq<Placement>)
    ensures drawn == Placements(positions, canvasW, canvasH, pngFiles, layerNames, gamma, load)
  {
    var posByName := PosByName(positions);
    drawn := [];
    if HasParams(gamma, "background") {
      drawn := drawn + [Placement("background", 0, canvasH)];
    }
    var names := Tail(layerNames);
    ghost var target := LayerPlacements(posByName, pngFiles, names, canvasW, canvasH, load);
    var n := MinInt(|pngFiles|, |names|);
    for k := 0 to n
      invariant drawn == Background(gamma, canvasH) + target[..k]
    {
      PrefixSnoc(target, k);
      var loaded := load(pngFiles[k], canvasW);
      var h := if loaded.Some? then loaded.value else canvasH;
      var y := LayerOffset(posByName, names[k], h, canvasH);
      drawn := drawn + [Placement(names[k], y, h)];
    }
    assert target[..n] == target;
  }

  /** The offset of one layer, resolved and then clipped in two steps. */
  method LayerOffset(posByName: map<string, PositionEntry>, layerName: string, h: nat, canvasH: nat)
    returns (y: int)
    ensures y == ClippedY(RequestedY(posByName, layerName), h, canvasH)
  {
    y := 0;
    if layerName in posByName && posByName[layerName].y.Some? {
      y := ToInt(posByName[layerName].y.value);
    }
    if y < -(h as int) + 1 {
      y := -(h as int) + 1;
    }
    if y > canvasH - 1 {
      y := canvasH - 1;
    }
  }

  /** An offset the editor exported for a layer, which the drag clamp
      kept within range for the layer's height, is reproduced exactly. */
  lemma ExportedOffsetReproduced(positions: seq<PositionEntry>, canvasW: nat, canvasH: nat,
                                 pngFiles: seq<string>, layerNames: seq<string>,
                                 load: (string, nat) -> Option<nat>, k: nat, v: int)
    requires k < |pngFiles| && k < |Tail(layerNames)|
    requires var nm := Tail(layerNames)[k];
             LastNamed(positions, nm).Some? && positions[LastNamed(positions, nm).value].y == Some(JInt(v))
    requires 1 - LayerHeight(load(pngFiles[k], canvasW), canvasH) as int <= v <= canvasH - 1
    ensures LayerPlacement(PosByName(positions), pngFiles, Tail(layerNames), k, canvasW, canvasH, load).y == v
  {
  }

  /** An entry without a 'y' key, or no entry at all, puts the layer at
      offset 0 (clipped). */
  lemma MissingOffsetIsZero(positions: seq<PositionEntry>, nm: string)
    requires LastNamed(positions, nm).None? || positions[LastNamed(positions, nm).value].y.None?
    ensures RequestedY(PosByName(positions), nm) == 0
  {
  }

  /** Of two entries with the same name, the later one's offset is used. */
  lemma LaterDuplicateWins(positions: seq<PositionEntry>, first: PositionEntry, second: PositionEntry)
    requires first.name.Some? && second.name == first.name && second.y.Some?
    ensures RequestedY(PosByName(positions + [first, second]), first.name.value) == ToInt(second.y.value)
  {
    var ps := positions + [first, second];
    assert LastNamed(ps, first.name.value) == Some(|ps| - 1);
  }
}
