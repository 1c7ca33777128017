/**
 * The atlas blit of src/utils/texture_packer.cpp: loaded RGBA images are
 * given padded rectangles, the rectangle packer places them, and each
 * image is copied pixel by pixel into a zero-filled 2048x2048 RGBA buffer
 * at its placement plus the margin, with one metadata frame per image name.
 * Loading, the packer itself and the PNG/JSON writers are foreign: the
 * loaded images and the packer's placements are inputs.
 */
module TexturePacking {
  import opened Components

  const ATLAS_WIDTH: int := 2048
  const ATLAS_HEIGHT: int := 2048
  const MARGIN: int := 1
  /** Images are loaded with four channels, and every pixel is copied as 4 bytes. */
  const CHANNELS: int := 4
  const ATLAS_BYTES: int := ATLAS_WIDTH * ATLAS_HEIGHT * CHANNELS

  /** A loaded image: file name, size in pixels, RGBA bytes row by row. */
  datatype PackedImage = PackedImage(name: string, width: int, height: int, pixels: seq<bv8>)

  predicate ValidImage(img: PackedImage)
  {
    img.width >= 0 && img.height >= 0 && |img.pixels| == img.width * img.height * CHANNELS
  }

  /** A packer rectangle: the image it stands for, its padded size and its placement. */
  datatype Rect = Rect(id: int, w: int, h: int, x: int, y: int)

  /** A placement the packer chose for one rectangle. */
  datatype Position = Position(x: int, y: int)

  /** The metadata record of one image: where its pixels start in the atlas and its size. */
  datatype Frame = Frame(x: int, y: int, width: int, height: int)

  /** What packer produces: nothing when no image was loaded or packing failed. */
  datatype PackOutcome = NoImages | PackFailed | Packed(atlas: array<bv8>, frames: map<string, Frame>)

  // ---------------------------------------------------------------------
  // Byte offsets in the atlas
  // ---------------------------------------------------------------------

  /** Offset of channel ch of the pixel at (col, row). */
  function ByteIndex(row: int, col: int, ch: int): int
  {
    (row * ATLAS_WIDTH + col) * CHANNELS + ch
  }

  function Row(k: int): int
  {
    k / (ATLAS_WIDTH * CHANNELS)
  }

  function Col(k: int): int
  {
    (k / CHANNELS) % ATLAS_WIDTH
  }

  function Chan(k: int): int
  {
    k % CHANNELS
  }

  /** Every pixel channel of the atlas has one offset in the buffer, and it decodes back. */
  lemma DecodeIndex(row: int, col: int, ch: int)
    requires 0 <= row < ATLAS_HEIGHT && 0 <= col < ATLAS_WIDTH && 0 <= ch < CHANNELS
    ensures var k := ByteIndex(row, col, ch);
      0 <= k < ATLAS_BYTES && Row(k) == row && Col(k) == col && Chan(k) == ch
  {
    var k := ByteIndex(row, col, ch);
    assert k == row * 8192 + col * 4 + ch;
    assert k / 4 == row * 2048 + col;
  }

  /** Every offset of the buffer is the offset of one pixel channel. */
  lemma EncodeIndex(k: int)
    requires 0 <= k < ATLAS_BYTES
    ensures 0 <= Row(k) < ATLAS_HEIGHT && 0 <= Col(k) < ATLAS_WIDTH && 0 <= Chan(k) < CHANNELS
    ensures k == ByteIndex(Row(k), Col(k), Chan(k))
  {
    assert k == (k / 4) * 4 + k % 4;
    assert k / 4 == ((k / 4) / 2048) * 2048 + (k / 4) % 2048;
    assert (k / 4) / 2048 == k / 8192;
  }

  /** The bytes of pixels (dstX .. dstX + w - 1, row) are one contiguous run. */
  lemma RowSpan(row: int, dstX: int, w: int, k: int)
    requires 0 <= row < ATLAS_HEIGHT && 0 <= dstX && 0 <= w && dstX + w <= ATLAS_WIDTH
    requires 0 <= k < ATLAS_BYTES
    ensures var start := ByteIndex(row, dstX, 0);
      (start <= k < start + w * CHANNELS) <==> (Row(k) == row && dstX <= Col(k) < dstX + w)
    ensures Row(k) == row ==> k - ByteIndex(row, dstX, 0) == (Col(k) - dstX) * CHANNELS + Chan(k)
  {
    EncodeIndex(k);
  }

  /** Source offsets of an image stay inside its pixel data. */
  lemma PixelIndexBound(y: int, x: int, w: int, h: int)
    requires 0 <= y < h && 0 <= x < w
    ensures 0 <= y * w && 0 <= (y * w + x) * CHANNELS && (y * w + x) * CHANNELS + CHANNELS <= w * h * CHANNELS
  {
    MulLe(y, h, w);
    MulLe(y + 1, h, w);
  }

  lemma {:induction false} MulLe(a: int, b: int, c: int)
    requires 0 <= a <= b && 0 <= c
    ensures 0 <= a * c <= b * c
  {
    if a < b {
      MulLe(a, b - 1, c);
      assert (b - 1) * c + c == b * c;
    }
  }

  // ---------------------------------------------------------------------
  // Rectangles and placements
  // ---------------------------------------------------------------------

  /** Step 2 of packer: rect i stands for image i, padded by MARGIN on every side. */
  method PrepareRects(images: seq<PackedImage>) returns (rects: seq<Rect>)
    ensures |rects| == |images|
    ensures forall i :: 0 <= i < |rects| ==>
      rects[i].id == i && rects[i].w == images[i].width + 2 * MARGIN && rects[i].h == images[i].height + 2 * MARGIN
    ensures forall i :: 0 <= i < |rects| ==> rects[i].x == 0 && rects[i].y == 0
  {
    rects := [];
    for i := 0 to |images|
      invariant |rects| == i
      invariant forall j :: 0 <= j < i ==>
        rects[j] == Rect(j, images[j].width + MARGIN * 2, images[j].height + MARGIN * 2, 0, 0)
    {
      rects := rects + [Rect(i, images[i].width + MARGIN * 2, images[i].height + MARGIN * 2, 0, 0)];
    }
  }

  /** The packer's result applied to the rectangles: each gets its placement. */
  function Place(rects: seq<Rect>, positions: seq<Position>): (placed: seq<Rect>)
    requires |rects| == |positions|
    ensures |placed| == |rects|
    ensures forall i :: 0 <= i < |placed| ==>
      placed[i] == rects[i].(x := positions[i].x, y := positions[i].y)
  {
    seq(|rects|, i requires 0 <= i < |rects| => rects[i].(x := positions[i].x, y := positions[i].y))
  }

  /** Every padded rectangle lies inside the atlas, as the packer guarantees. */
  ghost predicate InsideAtlas(images: seq<PackedImage>, positions: seq<Position>)
    requires |images| == |positions|
  {
    forall i :: 0 <= i < |images| ==>
      && 0 <= positions[i].x && positions[i].x + images[i].width + 2 * MARGIN <= ATLAS_WIDTH
      && 0 <= positions[i].y && positions[i].y + images[i].height + 2 * MARGIN <= ATLAS_HEIGHT
  }

  /** Two padded rectangles share no pixel. */
  predicate PaddedApart(a: PackedImage, pa: Position, b: PackedImage, pb: Position)
  {
    || pa.x + a.width + 2 * MARGIN <= pb.x
    || pb.x + b.width + 2 * MARGIN <= pa.x
    || pa.y + a.height + 2 * MARGIN <= pb.y
    || pb.y + b.height + 2 * MARGIN <= pa.y
  }

  /** No two padded rectangles overlap, as the packer guarantees. */
  ghost predicate Disjoint(images: seq<PackedImage>, positions: seq<Position>)
    requires |images| == |positions|
  {
    forall i, j :: 0 <= i < |images| && 0 <= j < |images| && i != j ==>
      PaddedApart(images[i], positions[i], images[j], positions[j])
  }

  ghost predicate Packable(images: seq<PackedImage>, positions: seq<Position>)
  {
    && |images| == |positions|
    && (forall i :: 0 <= i < |images| ==> ValidImage(images[i]))
    && InsideAtlas(images, positions)
  }

  // ---------------------------------------------------------------------
  // What the atlas holds
  // ---------------------------------------------------------------------

  /** Offset k lies in the image's destination rectangle with top-left (dstX, dstY). */
  predicate Covers(img: PackedImage, dstX: int, dstY: int, k: int)
  {
    dstY <= Row(k) < dstY + img.height && dstX <= Col(k) < dstX + img.width
  }

  /** Channel c of pixel (x, y) of an image, at (y * width + x) * 4 + c. */
  function PixelByte(img: PackedImage, x: int, y: int, c: int): bv8
    requires ValidImage(img) && 0 <= y < img.height && 0 <= x < img.width && 0 <= c < CHANNELS
  {
    PixelIndexBound(y, x, img.width, img.height);
    img.pixels[(y * img.width + x) * CHANNELS + c]
  }

  /** The image byte that belongs at offset k of its destination rectangle. */
  function SourceByte(img: PackedImage, dstX: int, dstY: int, k: int): bv8
    requires ValidImage(img) && Covers(img, dstX, dstY, k) && 0 <= k
  {
    PixelByte(img, Col(k) - dstX, Row(k) - dstY, Chan(k))
  }

  /**
   * The byte at offset k after the first n images were copied: the byte of
   * the last of them whose destination covers k, or the initial zero.
   */
  ghost function Layered(images: seq<PackedImage>, positions: seq<Position>, n: int, k: int): bv8
    requires Packable(images, positions) && 0 <= n <= |images| && 0 <= k
    decreases n
  {
    if n == 0 then 0
    else
      var img, p := images[n - 1], positions[n - 1];
      if Covers(img, p.x + MARGIN, p.y + MARGIN, k) then SourceByte(img, p.x + MARGIN, p.y + MARGIN, k)
      else Layered(images, positions, n - 1, k)
  }

  /** The metadata after the first n images: one frame per name, the last image of a name winning. */
  function Frames(images: seq<PackedImage>, positions: seq<Position>, n: int): map<string, Frame>
    requires |images| == |positions| && 0 <= n <= |images|
  {
    if n == 0 then map[]
    else
      var img, p := images[n - 1], positions[n - 1];
      Frames(images, positions, n - 1)[img.name := Frame(p.x + MARGIN, p.y + MARGIN, img.width, img.height)]
  }

  /** Byte j of row y of an image. */
  function RowByte(img: PackedImage, y: int, j: int): bv8
    requires ValidImage(img) && 0 <= y < img.height && 0 <= j < img.width * CHANNELS
  {
    PixelIndexBound(y, img.width - 1, img.width, img.height);
    img.pixels[y * img.width * CHANNELS + j]
  }

  /** Offset k lies in the padded rectangle placed at p, margin ring included. */
  predicate InPadded(img: PackedImage, p: Position, k: int)
  {
    p.y <= Row(k) < p.y + img.height + 2 * MARGIN && p.x <= Col(k) < p.x + img.width + 2 * MARGIN
  }

  /**
   * With disjoint placements, pixel (x, y) of image i ends up at its
   * placement plus the margin plus (x, y), whatever the images after it.
   */
  lemma {:induction false} PixelLands(images: seq<PackedImage>, positions: seq<Position>, n: int,
                                      i: int, x: int, y: int, c: int)
    requires Packable(images, positions) && Disjoint(images, positions)
    requires 0 <= i < n <= |images|
    requires 0 <= y < images[i].height && 0 <= x < images[i].width && 0 <= c < CHANNELS
    ensures var p := positions[i];
      var k := ByteIndex(p.y + MARGIN + y, p.x + MARGIN + x, c);
      0 <= k < ATLAS_BYTES && Layered(images, positions, n, k) == PixelByte(images[i], x, y, c)
  {
    var p := positions[i];
    var k := ByteIndex(p.y + MARGIN + y, p.x + MARGIN + x, c);
    DecodeIndex(p.y + MARGIN + y, p.x + MARGIN + x, c);
    if n - 1 != i {
      var q := positions[n - 1];
      assert PaddedApart(images[i], p, images[n - 1], q);
      assert !Covers(images[n - 1], q.x + MARGIN, q.y + MARGIN, k);
      PixelLands(images, positions, n - 1, i, x, y, c);
    }
  }

  /** A byte no copied image covers keeps the buffer's initial zero. */
  lemma {:induction false} UncoveredIsZero(images: seq<PackedImage>, positions: seq<Position>, n: int, k: int)
    requires Packable(images, positions) && 0 <= n <= |images| && 0 <= k
    requires forall j :: 0 <= j < n ==> !Covers(images[j], positions[j].x + MARGIN, positions[j].y + MARGIN, k)
    ensures Layered(images, positions, n, k) == 0
  {
    if n > 0 {
      UncoveredIsZero(images, positions, n - 1, k);
    }
  }

  /** With disjoint placements, the margin ring around every image stays zero. */
  lemma MarginIsZero(images: seq<PackedImage>, positions: seq<Position>, i: int, k: int)
    requires Packable(images, positions) && Disjoint(images, positions)
    requires 0 <= i < |images| && 0 <= k
    requires InPadded(images[i], positions[i], k)
    requires !Covers(images[i], positions[i].x + MARGIN, positions[i].y + MARGIN, k)
    ensures Layered(images, positions, |images|, k) == 0
  {
    forall j | 0 <= j < |images| ensures !Covers(images[j], positions[j].x + MARGIN, positions[j].y + MARGIN, k) {
      if j != i {
        assert PaddedApart(images[i], positions[i], images[j], positions[j]);
      }
    }
    UncoveredIsZero(images, positions, |images|, k);
  }

  /** The metadata has a frame for exactly the names of the copied images. */
  lemma {:induction false} FramesDomain(images: seq<PackedImage>, positions: seq<Position>, n: int, name: string)
    requires |images| == |positions| && 0 <= n <= |images|
    ensures name in Frames(images, positions, n) <==> exists j :: 0 <= j < n && images[j].name == name
  {
    if n > 0 {
      FramesDomain(images, positions, n - 1, name);
    }
  }

  /** The frame of a name describes the last image with that name: its pixel origin and size. */
  lemma {:induction false} FramesLastWins(images: seq<PackedImage>, positions: seq<Position>, n: int, j: int)
    requires |images| == |positions| && 0 <= j < n <= |images|
    requires forall l :: j < l < n ==> images[l].name != images[j].name
    ensures images[j].name in Frames(images, positions, n)
    ensures Frames(images, positions, n)[images[j].name] ==
      Frame(positions[j].x + MARGIN, positions[j].y + MARGIN, images[j].width, images[j].height)
  {
    if n - 1 != j {
      FramesLastWins(images, positions, n - 1, j);
    }
  }

  /**
   * Reading the atlas where a frame says: with disjoint placements, the
   * bytes at the frame's origin plus (x, y) are those of the image the frame
   * was recorded for.
   */
  lemma FrameLocatesPixels(images: seq<PackedImage>, positions: seq<Position>, j: int, x: int, y: int, c: int)
    requires Packable(images, positions) && Disjoint(images, positions)
    requires 0 <= j < |images| && forall l :: j < l < |images| ==> images[l].name != images[j].name
    requires 0 <= y < images[j].height && 0 <= x < images[j].width && 0 <= c < CHANNELS
    ensures images[j].name in Frames(images, positions, |images|)
    ensures var f := Frames(images, positions, |images|)[images[j].name];
      var k := ByteIndex(f.y + y, f.x + x, c);
      0 <= k < ATLAS_BYTES && Layered(images, positions, |images|, k) == PixelByte(images[j], x, y, c)
  {
    FramesLastWins(images, positions, |images|, j);
    PixelLands(images, positions, |images|, j, x, y, c);
  }

  // ---------------------------------------------------------------------
  // The blit
  // ---------------------------------------------------------------------

  /**
   * packer: returns early without an atlas when no image was loaded or the
   * packer could not place every rectangle; otherwise every image is
   * copied to its placement plus the margin, over a zero-filled buffer, and
   * recorded in the metadata.
   */
  method Packer(images: seq<PackedImage>, packed: Option<seq<Position>>) returns (r: PackOutcome)
    requires forall i :: 0 <= i < |images| ==> ValidImage(images[i])
    requires packed.Some? ==> Packable(images, packed.value)
    ensures |images| == 0 ==> r == NoImages
    ensures |images| > 0 && packed.None? ==> r == PackFailed
    ensures |images| > 0 && packed.Some? ==>
      && r.Packed? && fresh(r.atlas) && r.atlas.Length == ATLAS_BYTES
      && (forall k :: 0 <= k < ATLAS_BYTES ==> r.atlas[k] == Layered(images, packed.value, |images|, k))
      && r.frames == Frames(images, packed.value, |images|)
  {
    if |images| == 0 {
      return NoImages;
    }
    var rects := PrepareRects(images);
    if packed.None? {
      return PackFailed;
    }
    var placed := Place(rects, packed.value);
    var atlas, frames := Blit(images, packed.value, placed);
    return Packed(atlas, frames);
  }

  /**
   * Steps 4 and 5 of packer: a zero-filled buffer, then for every placed
   * rectangle in order the image it stands for is copied at the placement
   * plus the margin and its frame recorded.
   */
  method Blit(images: seq<PackedImage>, positions: seq<Position>, placed: seq<Rect>)
    returns (atlas: array<bv8>, frames: map<string, Frame>)
    requires Packable(images, positions) && |placed| == |images|
    requires forall i :: 0 <= i < |placed| ==>
      placed[i].id == i && placed[i].x == positions[i].x && placed[i].y == positions[i].y
    ensures fresh(atlas) && atlas.Length == ATLAS_BYTES
    ensures forall k :: 0 <= k < ATLAS_BYTES ==> atlas[k] == Layered(images, positions, |images|, k)
    ensures frames == Frames(images, positions, |images|)
  {
    atlas := new bv8[ATLAS_BYTES](_ => 0);
    frames := map[];
    for i := 0 to |placed|
      invariant forall k :: 0 <= k < ATLAS_BYTES ==> atlas[k] == Layered(images, positions, i, k)
      invariant frames == Frames(images, positions, i)
    {
      var rect := placed[i];
      var img := images[rect.id];
      var dstX := rect.x + MARGIN;
      var dstY := rect.y + MARGIN;
      CopyImage(atlas, img, dstX, dstY);
      frames := frames[img.name := Frame(dstX, dstY, img.width, img.height)];
    }
  }

  /** The y and x loops for one image: its destination rectangle is overwritten, nothing else. */
  method CopyImage(atlas: array<bv8>, img: PackedImage, dstX: int, dstY: int)
    requires atlas.Length == ATLAS_BYTES && ValidImage(img)
    requires 0 <= dstX && dstX + img.width <= ATLAS_WIDTH && 0 <= dstY && dstY + img.height <= ATLAS_HEIGHT
    modifies atlas
    ensures forall k :: 0 <= k < ATLAS_BYTES ==>
      atlas[k] == if Covers(img, dstX, dstY, k) then SourceByte(img, dstX, dstY, k) else old(atlas[k])
  {
    for y := 0 to img.height
      invariant forall k :: 0 <= k < ATLAS_BYTES ==>
        atlas[k] == if Covers(img, dstX, dstY, k) && Row(k) < dstY + y then SourceByte(img, dstX, dstY, k) else old(atlas[k])
    {
      ghost var before := atlas[..];
      CopyRow(atlas, img, dstX, dstY, y);
      forall k | 0 <= k < ATLAS_BYTES
        ensures atlas[k] == if Covers(img, dstX, dstY, k) && Row(k) < dstY + y + 1
                            then SourceByte(img, dstX, dstY, k) else old(atlas[k])
      {
        RowSpan(dstY + y, dstX, img.width, k);
        assert atlas[k] == before[k] || Row(k) == dstY + y;
      }
    }
  }

  /** The x loop for row y of an image: one contiguous run of bytes is copied from the image. */
  method CopyRow(atlas: array<bv8>, img: PackedImage, dstX: int, dstY: int, y: int)
    requires atlas.Length == ATLAS_BYTES && ValidImage(img) && 0 <= y < img.height
    requires 0 <= dstX && dstX + img.width <= ATLAS_WIDTH && 0 <= dstY && dstY + img.height <= ATLAS_HEIGHT
    modifies atlas
    ensures var start := ByteIndex(dstY + y, dstX, 0);
      forall k :: 0 <= k < ATLAS_BYTES ==>
        atlas[k] == if start <= k < start + img.width * CHANNELS
                    then RowByte(img, y, k - start) else old(atlas[k])
  {
    ghost var start := ByteIndex(dstY + y, dstX, 0);
    for x := 0 to img.width
      invariant forall k :: 0 <= k < ATLAS_BYTES ==>
        atlas[k] == if start <= k < start + x * CHANNELS
                    then RowByte(img, y, k - start) else old(atlas[k])
    {
      PixelIndexBound(y, x, img.width, img.height);
      var srcIdx := (y * img.width + x) * 4;
      var dstIdx := ((dstY + y) * ATLAS_WIDTH + (dstX + x)) * 4;
      CopyPixel(atlas, dstIdx, img.pixels, srcIdx);
    }
  }

  /** memcpy of one RGBA pixel. */
  method CopyPixel(atlas: array<bv8>, dstIdx: int, pixels: seq<bv8>, srcIdx: int)
    requires 0 <= dstIdx && dstIdx + CHANNELS <= atlas.Length
    requires 0 <= srcIdx && srcIdx + CHANNELS <= |pixels|
    modifies atlas
    ensures forall k :: 0 <= k < atlas.Length ==>
      atlas[k] == if dstIdx <= k < dstIdx + CHANNELS then pixels[srcIdx + (k - dstIdx)] else old(atlas[k])
  {
    for c := 0 to CHANNELS
      invariant forall k :: 0 <= k < atlas.Length ==>
        atlas[k] == if dstIdx <= k < dstIdx + c then pixels[srcIdx + (k - dstIdx)] else old(atlas[k])
    {
      atlas[dstIdx + c] := pixels[srcIdx + c];
    }
  }
}
