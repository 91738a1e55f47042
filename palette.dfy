/**
 The conversion of an emulator frame into the two pictures the program uses:
 the 8-bit pygame surface, filled pixel by pixel in place from the planar
 colour buffer, and the height x width x 3 image numpy makes of the same
 buffer by a reshape to (3, height, width) followed by rolling axis 0 to the end.

 The emulator's fills of the index and colour buffers are foreign calls: the
 colour buffer arrives as a parameter of the length the program allocates.
 pygame's map_rgb is a parameter too (a function of the red, green and blue
 bytes to a surface pixel).
 */
module Palette {
  import opened Arith
  import opened Wrappers

  newtype byte = x: int | 0 <= x < 256

  /**
   Writes surface pixel i for every i below n, from the i-th entries of the
   red, green and blue planes of rgb. Indexing past the end of the surface
   buffer raises: the method then reports false, having written every pixel
   the buffer has.
   */
  method FillSurface(rgb: seq<byte>, n: nat, rgbNew: array<byte>, mapRgb: (byte, byte, byte) -> byte)
    returns (ok: bool)
    requires |rgb| == 3 * n
    modifies rgbNew
    ensures ok <==> n <= rgbNew.Length
    ensures forall i {:trigger rgbNew[i]} :: 0 <= i < n && i < rgbNew.Length ==>
      rgbNew[i] == mapRgb(rgb[i], rgb[i + n], rgb[i + 2 * n])
    ensures forall i :: n <= i < rgbNew.Length ==> rgbNew[i] == old(rgbNew[i])
  {
    var i := 0;
    while i < n
      invariant 0 <= i <= n && i <= rgbNew.Length
      invariant forall j {:trigger rgbNew[j]} :: 0 <= j < i ==> rgbNew[j] == mapRgb(rgb[j], rgb[j + n], rgb[j + 2 * n])
      invariant forall j :: i <= j < rgbNew.Length ==> rgbNew[j] == old(rgbNew[j])
    {
      if i == rgbNew.Length {
        return false;
      }
      rgbNew[i] := mapRgb(rgb[i], rgb[i + n], rgb[i + 2 * n]);
      i := i + 1;
    }
    return true;
  }

  /** Where row y, column x sits in a row-major plane of width w: also the surface pixel's offset. */
  function Offset(y: int, x: int, w: int): int
  {
    y * w + x
  }

  /** Where channel c of row y, column x sits in a flat array of shape (3, h, w) in numpy's C order. */
  function FlatIndex(c: int, y: int, x: int, h: int, w: int): int
  {
    c * (h * w) + Offset(y, x, w)
  }

  /** A three-dimensional array of shape (d0, d1, d2). */
  predicate Shaped(a: seq<seq<seq<byte>>>, d0: nat, d1: nat, d2: nat)
  {
    |a| == d0 && forall i :: 0 <= i < d0 ==> |a[i]| == d1 && forall j :: 0 <= j < d1 ==> |a[i][j]| == d2
  }

  /** numpy's reshape of a flat array of 3 * h * w entries to shape (3, h, w). */
  function Reshape(rgb: seq<byte>, h: nat, w: nat): (a: seq<seq<seq<byte>>>)
    requires |rgb| == 3 * (h * w)
    ensures Shaped(a, 3, h, w)
  {
    seq(3, c requires 0 <= c < 3 =>
      seq(h, y requires 0 <= y < h =>
        seq(w, x requires 0 <= x < w =>
          FlatIndexInRange(c, y, x, h, w);
          rgb[FlatIndex(c, y, x, h, w)])))
  }

  /** numpy's rollaxis(a, axis=0, start=3): shape (d0, d1, d2) becomes (d1, d2, d0) and entry [k][i][j] moves to [i][j][k]. */
  function RollAxis(a: seq<seq<seq<byte>>>, d0: nat, d1: nat, d2: nat): (r: seq<seq<seq<byte>>>)
    requires Shaped(a, d0, d1, d2)
    ensures Shaped(r, d1, d2, d0)
  {
    seq(d1, i requires 0 <= i < d1 =>
      seq(d2, j requires 0 <= j < d2 =>
        seq(d0, k requires 0 <= k < d0 => a[k][i][j])))
  }

  /** The image getRgbFromPalette returns: rows, then columns, then the three channels. */
  function Image(rgb: seq<byte>, h: nat, w: nat): (img: seq<seq<seq<byte>>>)
    requires |rgb| == 3 * (h * w)
    ensures Shaped(img, h, w, 3)
  {
    RollAxis(Reshape(rgb, h, w), 3, h, w)
  }

  /** Channel c of the image's pixel at row y, column x is entry c * h * w + y * w + x of the planar buffer. */
  lemma ImageIndex(rgb: seq<byte>, h: nat, w: nat, y: int, x: int, c: int)
    requires |rgb| == 3 * (h * w)
    requires 0 <= y < h && 0 <= x < w && 0 <= c < 3
    ensures 0 <= FlatIndex(c, y, x, h, w) < |rgb|
    ensures Image(rgb, h, w)[y][x][c] == rgb[FlatIndex(c, y, x, h, w)]
  {
    FlatIndexInRange(c, y, x, h, w);
  }

  /** The planar buffer an image of shape (h, w, 3) comes from: the inverse of Image. */
  function Planar(img: seq<seq<seq<byte>>>, h: nat, w: nat): (rgb: seq<byte>)
    requires h > 0 && w > 0 && Shaped(img, h, w, 3)
    ensures |rgb| == 3 * (h * w)
  {
    seq(3 * (h * w), k requires 0 <= k < 3 * (h * w) =>
      Decompose(k, h, w);
      img[Row(k, h, w)][Col(k, h, w)][Chan(k, h, w)])
  }

  function Chan(k: int, h: nat, w: nat): int
    requires h > 0 && w > 0
  {
    k / (h * w)
  }

  function Row(k: int, h: nat, w: nat): int
    requires h > 0 && w > 0
  {
    k % (h * w) / w
  }

  function Col(k: int, h: nat, w: nat): int
    requires h > 0 && w > 0
  {
    k % (h * w) % w
  }

  /** Reading an image back into planar order and reshaping it again gives the image. */
  lemma ImageOfPlanar(img: seq<seq<seq<byte>>>, h: nat, w: nat)
    requires h > 0 && w > 0 && Shaped(img, h, w, 3)
    ensures Image(Planar(img, h, w), h, w) == img
  {
    var rgb := Planar(img, h, w);
    var img' := Image(rgb, h, w);
    forall y, x, c | 0 <= y < h && 0 <= x < w && 0 <= c < 3
      ensures img'[y][x][c] == img[y][x][c]
    {
      ImageIndex(rgb, h, w, y, x, c);
      Compose(c, y, x, h, w);
    }
    SameImage(img', img, h, w);
  }

  /** Reshaping a planar buffer and reading it back in planar order gives the buffer. */
  lemma PlanarOfImage(rgb: seq<byte>, h: nat, w: nat)
    requires h > 0 && w > 0 && |rgb| == 3 * (h * w)
    ensures Planar(Image(rgb, h, w), h, w) == rgb
  {
    var img := Image(rgb, h, w);
    var rgb' := Planar(img, h, w);
    forall k | 0 <= k < |rgb|
      ensures rgb'[k] == rgb[k]
    {
      Decompose(k, h, w);
      ImageIndex(rgb, h, w, Row(k, h, w), Col(k, h, w), Chan(k, h, w));
    }
  }

  /** Two images of shape (h, w, 3) that agree at every pixel and channel are equal. */
  lemma SameImage(a: seq<seq<seq<byte>>>, b: seq<seq<seq<byte>>>, h: nat, w: nat)
    requires Shaped(a, h, w, 3) && Shaped(b, h, w, 3)
    requires forall y, x, c :: 0 <= y < h && 0 <= x < w && 0 <= c < 3 ==> a[y][x][c] == b[y][x][c]
    ensures a == b
  {
    forall y | 0 <= y < h
      ensures a[y] == b[y]
    {
      forall x | 0 <= x < w
        ensures a[y][x] == b[y][x]
      {
        assert forall c :: 0 <= c < 3 ==> a[y][x][c] == b[y][x][c];
      }
    }
  }

  /** Every in-range channel, row and column has a flat position inside the buffer. */
  lemma FlatIndexInRange(c: int, y: int, x: int, h: int, w: int)
    requires 0 <= c < 3 && 0 <= y < h && 0 <= x < w
    ensures 0 <= Offset(y, x, w) < h * w
    ensures 0 <= FlatIndex(c, y, x, h, w) < 3 * (h * w)
  {
    MulLess(y, h, w);
    MulLess(c, 3, h * w);
  }

  /** A flat position splits into its channel, row and column, in range. */
  lemma Decompose(k: int, h: nat, w: nat)
    requires h > 0 && w > 0 && 0 <= k < 3 * (h * w)
    ensures 0 <= Chan(k, h, w) < 3 && 0 <= Row(k, h, w) < h && 0 <= Col(k, h, w) < w
    ensures k == FlatIndex(Chan(k, h, w), Row(k, h, w), Col(k, h, w), h, w)
  {
    var n := h * w;
    var r := k % n;
    DivBelow(k, n, 3);
    DivBelow(r, w, h);
  }

  /** The channel, row and column of a flat position are the ones it was built from. */
  lemma Compose(c: int, y: int, x: int, h: nat, w: nat)
    requires 0 <= c < 3 && 0 <= y < h && 0 <= x < w
    ensures var k := FlatIndex(c, y, x, h, w);
      Chan(k, h, w) == c && Row(k, h, w) == y && Col(k, h, w) == x
  {
    FlatIndexInRange(c, y, x, h, w);
    DivMod(c, h * w, Offset(y, x, w));
    DivMod(y, w, x);
  }

  /** The three planes' entries at pixel y * w + x are the three channels of the image's pixel at row y, column x. */
  lemma PixelPlanes(rgb: seq<byte>, h: nat, w: nat, y: int, x: int)
    requires |rgb| == 3 * (h * w)
    requires 0 <= y < h && 0 <= x < w
    ensures var i, img := Offset(y, x, w), Image(rgb, h, w);
      && 0 <= i < h * w
      && rgb[i] == img[y][x][0] && rgb[i + h * w] == img[y][x][1] && rgb[i + 2 * (h * w)] == img[y][x][2]
  {
    var i := Offset(y, x, w);
    FlatIndexInRange(0, y, x, h, w);
    ImageIndex(rgb, h, w, y, x, 0);
    ImageIndex(rgb, h, w, y, x, 1);
    ImageIndex(rgb, h, w, y, x, 2);
    assert FlatIndex(0, y, x, h, w) == i;
    assert FlatIndex(1, y, x, h, w) == i + h * w;
    assert FlatIndex(2, y, x, h, w) == i + 2 * (h * w);
  }

  /** A surface filled from the planar buffer shows, at pixel y * w + x, the image's pixel at row y, column x. */
  lemma SurfaceShowsImage(px: seq<byte>, rgb: seq<byte>, h: nat, w: nat, mapRgb: (byte, byte, byte) -> byte)
    requires |rgb| == 3 * (h * w) && h * w <= |px|
    requires forall i {:trigger px[i]} :: 0 <= i < h * w ==>
      px[i] == mapRgb(rgb[i], rgb[i + h * w], rgb[i + 2 * (h * w)])
    ensures forall y, x :: 0 <= y < h && 0 <= x < w ==>
      0 <= Offset(y, x, w) < |px| && px[Offset(y, x, w)] == Pixel(Image(rgb, h, w)[y][x], mapRgb)
  {
    forall y, x | 0 <= y < h && 0 <= x < w
      ensures 0 <= Offset(y, x, w) < |px| && px[Offset(y, x, w)] == Pixel(Image(rgb, h, w)[y][x], mapRgb)
    {
      SurfacePixel(px, rgb, h, w, mapRgb, y, x);
    }
  }

  lemma SurfacePixel(px: seq<byte>, rgb: seq<byte>, h: nat, w: nat, mapRgb: (byte, byte, byte) -> byte, y: int, x: int)
    requires |rgb| == 3 * (h * w) && h * w <= |px|
    requires forall i {:trigger px[i]} :: 0 <= i < h * w ==>
      px[i] == mapRgb(rgb[i], rgb[i + h * w], rgb[i + 2 * (h * w)])
    requires 0 <= y < h && 0 <= x < w
    ensures 0 <= Offset(y, x, w) < |px| && px[Offset(y, x, w)] == Pixel(Image(rgb, h, w)[y][x], mapRgb)
  {
    var i := Offset(y, x, w);
    PixelPlanes(rgb, h, w, y, x);
    assert px[i] == mapRgb(rgb[i], rgb[i + h * w], rgb[i + 2 * (h * w)]);
  }

  /** map_rgb of the red, green and blue channels of an image pixel. */
  function Pixel(channels: seq<byte>, mapRgb: (byte, byte, byte) -> byte): byte
    requires |channels| == 3
  {
    mapRgb(channels[0], channels[1], channels[2])
  }

  /**
   The whole conversion: fill the surface from the colour buffer, then
   return the image of the same buffer. On a surface buffer too short for the
   frame the fill raises and there is no image (None).
   */
  method GetRgbFromPalette(width: nat, height: nat, rgb: seq<byte>, rgbNew: array<byte>,
                           mapRgb: (byte, byte, byte) -> byte)
    returns (img: Option<seq<seq<seq<byte>>>>)
    requires |rgb| == 3 * (height * width)
    modifies rgbNew
    ensures img.None? <==> rgbNew.Length < height * width
    ensures img.Some? ==> img.value == Image(rgb, height, width)
    ensures img.Some? ==> forall y, x :: 0 <= y < height && 0 <= x < width ==>
      0 <= Offset(y, x, width) < rgbNew.Length &&
      rgbNew[Offset(y, x, width)] == Pixel(img.value[y][x], mapRgb)
    ensures forall i {:trigger rgbNew[i]} :: 0 <= i < height * width && i < rgbNew.Length ==>
      rgbNew[i] == mapRgb(rgb[i], rgb[i + height * width], rgb[i + 2 * (height * width)])
    ensures forall i :: height * width <= i < rgbNew.Length ==> rgbNew[i] == old(rgbNew[i])
  {
    var n := height * width;
    var ok := FillSurface(rgb, n, rgbNew, mapRgb);
    if !ok {
      return None;
    }
    SurfaceShowsImage(rgbNew[..], rgb, height, width, mapRgb);
    return Some(Image(rgb, height, width));
  }
}
