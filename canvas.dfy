/**
 * The browser canvas as the analyser sees it: a decoded image drawn at the
 * origin of a canvas of the same size, and the RGBA byte buffer that
 * `getImageData` hands back for a rectangle of that canvas.
 *
 * Drawing and reading back are foreign browser calls. Their result is modelled
 * under one explicit assumption: inside the image a pixel reads back as the
 * decoded pixel, and every pixel of the rectangle that lies outside the canvas
 * reads back as transparent black (all four bytes zero).
 */
module Canvas {

  /** One channel value of an ImageData buffer (a Uint8ClampedArray element). */
  type byte = x: int | 0 <= x < 256

  /** The offset of a channel inside one RGBA quadruple. */
  type Channel = c: int | 0 <= c < 4

  const RED: Channel := 0
  const GREEN: Channel := 1
  const BLUE: Channel := 2
  const ALPHA: Channel := 3

  datatype Pixel = Pixel(r: byte, g: byte, b: byte, a: byte) {

    /** The byte stored at offset `c` of this pixel's RGBA quadruple. */
    function At(c: Channel): byte {
      if c == RED then r else if c == GREEN then g else if c == BLUE then b else a
    }
  }

  const TRANSPARENT_BLACK := Pixel(0, 0, 0, 0)

  /** A decoded image: `rows[y][x]` is the pixel in column `x` of row `y`. */
  datatype Image = Image(width: nat, height: nat, rows: seq<seq<Pixel>>) {

    predicate Valid() {
      |rows| == height && forall y :: 0 <= y < |rows| ==> |rows[y]| == width
    }
  }

  /** The pixel the canvas holds at (x, y); transparent black off the image. */
  function PixelAt(img: Image, x: int, y: int): (p: Pixel)
    ensures img.Valid() && 0 <= x < img.width && 0 <= y < img.height ==> p == img.rows[y][x]
    ensures !(0 <= x < img.width && 0 <= y < img.height) ==> p == TRANSPARENT_BLACK
  {
    if 0 <= y < img.height && 0 <= x < img.width && y < |img.rows| && x < |img.rows[y]|
    then img.rows[y][x]
    else TRANSPARENT_BLACK
  }

  /** Byte `c` of pixel `k` in an RGBA buffer laid out four bytes per pixel. */
  function ChannelByte(data: seq<byte>, k: nat, c: Channel): byte
    requires 4 * k + c < |data|
  {
    data[4 * k + c]
  }

  /**
   * `ctx.getImageData(sx, sy, sw, sh)` after `ctx.drawImage(img, 0, 0)` on a
   * canvas sized to the image: the `sw * sh` pixels of the rectangle, row by
   * row, four bytes each (the zero-fill assumption above).
   */
  function GetImageData(img: Image, sx: int, sy: int, sw: nat, sh: nat): (data: seq<byte>)
    requires sw > 0 && sh > 0
    ensures |data| == 4 * (sw * sh)
  {
    seq(4 * (sw * sh), i requires 0 <= i < 4 * (sw * sh) =>
      var k := i / 4;
      PixelAt(img, sx + k % sw, sy + k / sw).At(i % 4))
  }

  /**
   * Pixel `k` of the readback is the canvas pixel at column `sx + k mod sw`,
   * row `sy + k div sw`, byte for byte.
   */
  lemma ReadbackPixel(img: Image, sx: int, sy: int, sw: nat, sh: nat, k: nat, c: Channel)
    requires sw > 0 && sh > 0 && k < sw * sh
    ensures 4 * k + c < |GetImageData(img, sx, sy, sw, sh)|
    ensures ChannelByte(GetImageData(img, sx, sy, sw, sh), k, c)
            == PixelAt(img, sx + k % sw, sy + k / sw).At(c)
  {
    var i := 4 * k + c;
    assert i / 4 == k && i % 4 == c;
  }

  /** A readback pixel that falls outside the image is transparent black. */
  lemma ReadbackOutside(img: Image, sx: int, sy: int, sw: nat, sh: nat, k: nat, c: Channel)
    requires sw > 0 && sh > 0 && k < sw * sh
    requires !(0 <= sx + k % sw < img.width && 0 <= sy + k / sw < img.height)
    ensures 4 * k + c < |GetImageData(img, sx, sy, sw, sh)|
    ensures ChannelByte(GetImageData(img, sx, sy, sw, sh), k, c) == 0
  {
    ReadbackPixel(img, sx, sy, sw, sh, k, c);
  }

  /** A readback pixel inside a well-formed image is the decoded pixel. */
  lemma ReadbackInside(img: Image, sx: int, sy: int, sw: nat, sh: nat, k: nat, c: Channel)
    requires img.Valid()
    requires sw > 0 && sh > 0 && k < sw * sh
    requires 0 <= sx + k % sw < img.width && 0 <= sy + k / sw < img.height
    ensures 4 * k + c < |GetImageData(img, sx, sy, sw, sh)|
    ensures ChannelByte(GetImageData(img, sx, sy, sw, sh), k, c)
            == img.rows[sy + k / sw][sx + k % sw].At(c)
  {
    ReadbackPixel(img, sx, sy, sw, sh, k, c);
  }
}
