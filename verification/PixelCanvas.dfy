/** Rasters drawn in place: the three-way diff mosaic, cropping, and fitting onto a fixed canvas. */
module PixelCanvas {
  import opened Basics

  newtype byte = x: int | 0 <= x < 256

  datatype Rgba = Rgba(r: byte, g: byte, b: byte, a: byte)

  /** A colour as callers give it; fillPng always paints it opaque. */
  datatype Rgb = Rgb(r: byte, g: byte, b: byte) {
    function Opaque(): Rgba {
      Rgba(r, g, b, 255)
    }
  }

  const TRANSPARENT := Rgba(0, 0, 0, 0)
  const PLACEHOLDER_RGB := Rgb(220, 220, 220)
  const MAX_PNG_PIXELS := 4_194_304
  const MAX_CANVAS_PIXELS := 16_777_216

  /** A decoded PNG, addressed as data[y, x]. */
  class Png {
    const width: nat
    const height: nat
    const data: array2<Rgba>

    ghost predicate Valid() {
      data.Length0 == height && data.Length1 == width
    }

    constructor (width: nat, height: nat)
      ensures Valid() && this.width == width && this.height == height && fresh(data)
    {
      this.width := width;
      this.height := height;
      data := new Rgba[height, width];
    }
  }

  /** A rectangle of a canvas. */
  datatype Rect = Rect(x: int, y: int, width: nat, height: nat) {
    predicate Covers(px: int, py: int) {
      x <= px < x + width && y <= py < y + height
    }

    predicate Inside(w: nat, h: nat) {
      0 <= x && 0 <= y && x + width <= w && y + height <= h
    }

    ghost predicate Disjoint(other: Rect) {
      forall px, py :: !(Covers(px, py) && other.Covers(px, py))
    }
  }

  /** Every pixel becomes the given one. */
  method FillData(png: Png, pixel: Rgba)
    requires png.Valid()
    modifies png.data
    ensures forall x, y :: 0 <= x < png.width && 0 <= y < png.height ==> png.data[y, x] == pixel
  {
    for row := 0 to png.height
      invariant forall x, y :: 0 <= x < png.width && 0 <= y < row ==> png.data[y, x] == pixel
    {
      for col := 0 to png.width
        invariant forall x, y :: 0 <= x < png.width && 0 <= y < row ==> png.data[y, x] == pixel
        invariant forall x :: 0 <= x < col ==> png.data[row, x] == pixel
      {
        png.data[row, col] := pixel;
      }
    }
  }

  /** fillPng: every pixel gets the colour, and alpha 255. */
  method Fill(png: Png, color: Rgb)
    requires png.Valid()
    modifies png.data
    ensures forall x, y :: 0 <= x < png.width && 0 <= y < png.height ==> png.data[y, x] == color.Opaque()
    ensures forall x, y :: 0 <= x < png.width && 0 <= y < png.height ==> png.data[y, x].a == 255
  {
    FillData(png, color.Opaque());
  }

  /** PNG.bitblt: copies a rectangle of source to (dx, dy) and leaves every other pixel alone. */
  method Bitblt(source: Png, target: Png, sx: nat, sy: nat, width: nat, height: nat, dx: nat, dy: nat)
    requires source.Valid() && target.Valid() && source.data != target.data
    requires Rect(sx, sy, width, height).Inside(source.width, source.height)
    requires Rect(dx, dy, width, height).Inside(target.width, target.height)
    modifies target.data
    ensures forall x, y :: 0 <= x < target.width && 0 <= y < target.height ==>
              target.data[y, x] == if Rect(dx, dy, width, height).Covers(x, y) then source.data[sy + (y - dy), sx + (x - dx)]
                                   else old(target.data[y, x])
  {
    for row := 0 to height
      invariant forall x, y :: 0 <= x < target.width && 0 <= y < target.height ==>
                  target.data[y, x] == if Rect(dx, dy, width, row).Covers(x, y) then source.data[sy + (y - dy), sx + (x - dx)]
                                       else old(target.data[y, x])
    {
      for col := 0 to width
        invariant forall x, y :: 0 <= x < target.width && 0 <= y < target.height ==>
                    target.data[y, x] == if Rect(dx, dy, width, row).Covers(x, y) || Rect(dx, dy + row, col, 1).Covers(x, y)
                                         then source.data[sy + (y - dy), sx + (x - dx)]
                                         else old(target.data[y, x])
      {
        target.data[dy + row, dx + col] := source.data[sy + row, sx + col];
      }
    }
  }

  // ---- Cropping and fitting --------------------------------------------------------------------

  /** The part of a w-by-h source a crop box selects: clamped into the source, never empty. */
  function SafeBox(w: nat, h: nat, x: int, y: int, width: int, height: int): (r: Rect)
    requires w >= 1 && h >= 1
    ensures r.Inside(w, h) && r.width >= 1 && r.height >= 1
  {
    var safeX := Max(0, Min(x, w - 1));
    var safeY := Max(0, Min(y, h - 1));
    Rect(safeX, safeY, Max(1, Min(width, w - safeX)), Max(1, Min(height, h - safeY)))
  }

  /** A non-empty box that already lies inside the source is taken as it is. */
  lemma SafeBoxKeepsInnerBoxes(w: nat, h: nat, box: Rect)
    requires w >= 1 && h >= 1
    ensures SafeBox(w, h, box.x, box.y, box.width, box.height) == box
        <==> box.Inside(w, h) && box.width >= 1 && box.height >= 1
  {
  }

  function Distance(a: int, b: int): int {
    if a < b then b - a else a - b
  }

  /** Any other box starts at the nearest pixel of the source, and keeps its extent as far as that fits, but
      never less than one pixel. */
  lemma SafeBoxIsNearest(w: nat, h: nat, x: int, y: int, width: int, height: int)
    requires w >= 1 && h >= 1
    ensures var r := SafeBox(w, h, x, y, width, height);
            && (forall c :: 0 <= c < w ==> Distance(r.x, x) <= Distance(c, x))
            && (forall c :: 0 <= c < h ==> Distance(r.y, y) <= Distance(c, y))
            && (1 <= width <= w - r.x ==> r.width == width) && (width > w - r.x ==> r.width == w - r.x) && (width < 1 ==> r.width == 1)
            && (1 <= height <= h - r.y ==> r.height == height) && (height > h - r.y ==> r.height == h - r.y) && (height < 1 ==> r.height == 1)
  {
  }

  /** cropPngBuffer: a non-empty in-bounds sub-image, copied verbatim, for any box whatever. */
  method Crop(source: Png, x: int, y: int, width: int, height: int) returns (cropped: Png)
    requires source.Valid() && source.width >= 1 && source.height >= 1
    ensures fresh(cropped) && fresh(cropped.data) && cropped.Valid()
    ensures var box := SafeBox(source.width, source.height, x, y, width, height);
            && cropped.width == box.width && cropped.height == box.height
            && forall px, py :: 0 <= px < box.width && 0 <= py < box.height ==>
                 cropped.data[py, px] == source.data[box.y + py, box.x + px]
  {
    var box := SafeBox(source.width, source.height, x, y, width, height);
    cropped := new Png(box.width, box.height);
    Bitblt(source, cropped, box.x, box.y, box.width, box.height, 0, 0);
  }

  /** normalizePngBufferToCanvas: the requested size, the overlap verbatim at the top left, the rest
      transparent; a warning exactly when the source was clipped. */
  method NormalizeToCanvas(source: Png, canvasWidth: nat, canvasHeight: nat) returns (target: Png, clipped: bool)
    requires source.Valid() && canvasWidth >= 1 && canvasHeight >= 1
    ensures fresh(target) && fresh(target.data) && target.Valid() && target.width == canvasWidth && target.height == canvasHeight
    ensures forall x, y :: 0 <= x < canvasWidth && 0 <= y < canvasHeight ==>
              target.data[y, x] == if x < source.width && y < source.height then source.data[y, x] else TRANSPARENT
    ensures clipped <==> source.width > canvasWidth || source.height > canvasHeight
  {
    target := new Png(canvasWidth, canvasHeight);
    FillData(target, TRANSPARENT);
    var copyWidth := Min(source.width, canvasWidth);
    var copyHeight := Min(source.height, canvasHeight);
    clipped := source.width > canvasWidth || source.height > canvasHeight;
    assert forall x, y :: 0 <= x < canvasWidth && 0 <= y < canvasHeight ==> target.data[y, x] == TRANSPARENT;
    Bitblt(source, target, 0, 0, copyWidth, copyHeight, 0, 0);
    forall x, y | 0 <= x < canvasWidth && 0 <= y < canvasHeight
      ensures target.data[y, x] == if x < source.width && y < source.height then source.data[y, x] else TRANSPARENT
    {
      assert Rect(0, 0, copyWidth, copyHeight).Covers(x, y) <==> x < source.width && y < source.height;
    }
  }
}
