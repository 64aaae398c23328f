/** The sprite sheet of the viewer (spriteview.cpp): the converted sprite sheet,
    its slicing into scaled sprites (init_sprites, destroy_sprites), and the
    hot-reload handler file_observer_impl::on_write. SDL surfaces are modelled
    as a width, a height, a pitch counted in 32-bit pixels, and a flat pixel
    array; all surfaces here are 32 bits per pixel. */
module SpriteSheet {
  import opened Results
  import opened SpriteConfig
  import opened Arith
  import opened Animation

  type pixel = bv32

  // ---------------------------------------------------------------------------
  // Arithmetic on flat pixel indices

  /** The flat index of pixel (x, y) in rows of pitch pixels: x + y * pitch. */
  function Idx(x: int, y: int, pitch: int): int
  {
    x + y * pitch
  }

  /** Pixel (x, y) of a flat buffer, 0 outside it. */
  function PixelAt(p: seq<pixel>, x: int, y: int, pitch: int): pixel
  {
    var i := Idx(x, y, pitch);
    if 0 <= i < |p| then p[i] else 0
  }

  lemma IdxInRange(x: int, y: int, pitch: int, rows: int)
    requires 0 <= x < pitch && 0 <= y < rows
    ensures 0 <= Idx(x, y, pitch) < pitch * rows
  {
    MulMono(y + 1, rows, pitch);
  }

  lemma IdxDistinct(x: int, y: int, x': int, y': int, pitch: int)
    requires 0 <= x < pitch && 0 <= x' < pitch && 0 <= y && 0 <= y'
    requires x != x' || y != y'
    ensures Idx(x, y, pitch) != Idx(x', y', pitch)
  {
    if y < y' {
      MulMono(y + 1, y', pitch);
    } else if y' < y {
      MulMono(y' + 1, y, pitch);
    }
  }

  lemma IdxInjective(x0: int, y0: int, pitch: int)
    requires 0 <= x0 < pitch && 0 <= y0
    ensures forall x, y | 0 <= x < pitch && 0 <= y && (x != x0 || y != y0) ::
              Idx(x, y, pitch) != Idx(x0, y0, pitch)
  {
    forall x, y | 0 <= x < pitch && 0 <= y && (x != x0 || y != y0)
      ensures Idx(x, y, pitch) != Idx(x0, y0, pitch)
    {
      IdxDistinct(x, y, x0, y0, pitch);
    }
  }

  // ---------------------------------------------------------------------------
  // Nearest-neighbour scaling of one tile

  /** The sheet pixel that sprite pixel (x, y) of the tile at (ox, oy) shows when
      the tile is enlarged scale times. */
  function TileSource(sheet: seq<pixel>, sheetPitch: nat, ox: nat, oy: nat, scale: nat, x: nat, y: nat): pixel
    requires scale >= 1
  {
    PixelAt(sheet, ox + x / scale, oy + y / scale, sheetPitch)
  }

  /** Writing one pixel of a w-pixel-wide buffer changes that pixel only. */
  lemma OnePixelWritten(before: seq<pixel>, after: seq<pixel>, w: nat, h: nat, x0: nat, y0: nat, color: pixel)
    requires |before| == w * h && x0 < w && y0 < h && 0 <= Idx(x0, y0, w) < |before|
    requires after == before[Idx(x0, y0, w) := color]
    ensures forall x, y | 0 <= x < w && 0 <= y < h ::
              PixelAt(after, x, y, w) == if x == x0 && y == y0 then color else PixelAt(before, x, y, w)
  {
    IdxInjective(x0, y0, w);
  }

  /** The two inner loops of init_sprites: paints the scale x scale block at
      (blockX, blockY) of a w-pixel-wide buffer with one colour. */
  method FillBlock(dst: array<pixel>, w: nat, h: nat, blockX: nat, blockY: nat, scale: nat, color: pixel)
    requires dst.Length == w * h && blockX + scale <= w && blockY + scale <= h
    modifies dst
    ensures forall x, y | 0 <= x < w && 0 <= y < h ::
              PixelAt(dst[..], x, y, w)
                == if blockX <= x < blockX + scale && blockY <= y < blockY + scale then color else PixelAt(old(dst[..]), x, y, w)
  {
    for sy := 0 to scale
      invariant forall x, y | 0 <= x < w && 0 <= y < h ::
                  PixelAt(dst[..], x, y, w)
                    == if blockX <= x < blockX + scale && blockY <= y < blockY + sy then color else PixelAt(old(dst[..]), x, y, w)
    {
      for sx := 0 to scale
        invariant forall x, y | 0 <= x < w && 0 <= y < h ::
                    PixelAt(dst[..], x, y, w)
                      == if (blockX <= x < blockX + scale && blockY <= y < blockY + sy) || (y == blockY + sy && blockX <= x < blockX + sx)
                         then color else PixelAt(old(dst[..]), x, y, w)
      {
        IdxInRange(blockX + sx, blockY + sy, w, h);
        ghost var before := dst[..];
        dst[Idx(blockX + sx, blockY + sy, w)] := color;
        OnePixelWritten(before, dst[..], w, h, blockX + sx, blockY + sy, color);
      }
    }
  }

  /** The sprite pixels written once the sheet pixels before (ix, iy), in row
      order, have each been painted as a block. */
  ghost predicate PaintedUpTo(d: seq<pixel>, w: nat, h: nat, sheet: seq<pixel>, sheetPitch: nat,
                              ox: nat, oy: nat, scale: nat, ix: nat, iy: nat)
    requires scale >= 1
  {
    forall x, y | 0 <= x < w && 0 <= y < h && (y < iy * scale || (y < iy * scale + scale && x < ix * scale)) ::
      PixelAt(d, x, y, w) == TileSource(sheet, sheetPitch, ox, oy, scale, x, y)
  }

  /** The body of the two middle loops of init_sprites: the sheet pixel
      (ox + ix, oy + iy) painted as the scale x scale block at
      (ix * scale, iy * scale) of the sprite. */
  method PaintPixel(sheet: array<pixel>, sheetPitch: nat, sheetRows: nat, ox: nat, oy: nat,
                    sw: nat, sh: nat, scale: nat, dst: array<pixel>, ix: nat, iy: nat)
    requires scale >= 1 && ix < sw && iy < sh && dst != sheet
    requires ox + sw <= sheetPitch && oy + sh <= sheetRows && sheet.Length == sheetPitch * sheetRows
    requires dst.Length == (sw * scale) * (sh * scale)
    requires PaintedUpTo(dst[..], sw * scale, sh * scale, sheet[..], sheetPitch, ox, oy, scale, ix, iy)
    modifies dst
    ensures PaintedUpTo(dst[..], sw * scale, sh * scale, sheet[..], sheetPitch, ox, oy, scale, ix + 1, iy)
  {
    var w, h := sw * scale, sh * scale;
    IdxInRange(ox + ix, oy + iy, sheetPitch, sheetRows);
    var color := sheet[Idx(ox + ix, oy + iy, sheetPitch)];
    var dstX, dstY := ix * scale, iy * scale;
    MulMono(ix + 1, sw, scale);
    MulMono(iy + 1, sh, scale);
    assert dstX + scale == (ix + 1) * scale && dstY + scale == (iy + 1) * scale;
    ghost var before := dst[..];
    FillBlock(dst, w, h, dstX, dstY, scale, color);
    forall x, y | 0 <= x < w && 0 <= y < h && (y < dstY || (y < dstY + scale && x < dstX + scale))
      ensures PixelAt(dst[..], x, y, w) == TileSource(sheet[..], sheetPitch, ox, oy, scale, x, y)
    {
      if dstX <= x < dstX + scale && dstY <= y < dstY + scale {
        DivInBlock(x, ix, scale);
        DivInBlock(y, iy, scale);
      } else {
        assert PixelAt(dst[..], x, y, w) == PixelAt(before, x, y, w);
      }
    }
  }

  /** One sprite of init_sprites: the sw x sh tile at (ox, oy) of the map,
      each pixel repeated scale times in both directions. */
  method ScaleTile(sheet: array<pixel>, sheetPitch: nat, sheetRows: nat, ox: nat, oy: nat, sw: nat, sh: nat, scale: nat)
    returns (dst: array<pixel>)
    requires scale >= 1
    requires ox + sw <= sheetPitch && oy + sh <= sheetRows && sheet.Length == sheetPitch * sheetRows
    ensures fresh(dst) && dst.Length == (sw * scale) * (sh * scale)
    ensures forall x, y | 0 <= x < sw * scale && 0 <= y < sh * scale ::
              PixelAt(dst[..], x, y, sw * scale) == TileSource(sheet[..], sheetPitch, ox, oy, scale, x, y)
  {
    var w, h := sw * scale, sh * scale;
    dst := new pixel[w * h];
    for iy := 0 to sh
      invariant PaintedUpTo(dst[..], w, h, sheet[..], sheetPitch, ox, oy, scale, 0, iy)
    {
      for ix := 0 to sw
        invariant PaintedUpTo(dst[..], w, h, sheet[..], sheetPitch, ox, oy, scale, ix, iy)
      {
        PaintPixel(sheet, sheetPitch, sheetRows, ox, oy, sw, sh, scale, dst, ix, iy);
      }
      assert (iy + 1) * scale == iy * scale + scale;
    }
    assert sh * scale == h;
  }

  /** Every sheet pixel becomes a scale x scale block of the sprite. */
  lemma BlockRepeatsSheetPixel(sheet: seq<pixel>, sheetPitch: nat, ox: nat, oy: nat, scale: nat,
                               ix: nat, iy: nat, sx: nat, sy: nat)
    requires scale >= 1 && sx < scale && sy < scale
    ensures TileSource(sheet, sheetPitch, ox, oy, scale, ix * scale + sx, iy * scale + sy)
              == PixelAt(sheet, ox + ix, oy + iy, sheetPitch)
  {
    DivInBlock(ix * scale + sx, ix, scale);
    DivInBlock(iy * scale + sy, iy, scale);
  }

  // ---------------------------------------------------------------------------
  // Surfaces and the viewer's sprite state

  /** An SDL surface of 32-bit pixels: row y starts at pixels[y * pitch]. */
  class Surface {
    const width: nat
    const height: nat
    const pitch: nat
    const pixels: array<pixel>

    ghost predicate Valid()
    {
      width <= pitch && pixels.Length == pitch * height
    }

    constructor (width: nat, height: nat, pitch: nat, pixels: array<pixel>)
      ensures this.width == width && this.height == height && this.pitch == pitch && this.pixels == pixels
    {
      this.width := width;
      this.height := height;
      this.pitch := pitch;
      this.pixels := pixels;
    }
  }

  /** sprite holds tile (tx, ty) of sheet enlarged scale times, in rows of
      exactly its own width. */
  ghost predicate IsSpriteOf(sprite: Surface, sheet: Surface, spriteW: nat, spriteH: nat, scale: nat, tx: nat, ty: nat)
    requires scale >= 1
    reads sprite.pixels, sheet.pixels
  {
    && sprite.width == spriteW * scale && sprite.height == spriteH * scale
    && sprite.pitch == sprite.width && sprite.Valid()
    && forall x, y | 0 <= x < sprite.width && 0 <= y < sprite.height ::
         PixelAt(sprite.pixels[..], x, y, sprite.pitch)
           == TileSource(sheet.pixels[..], sheet.pitch, tx * spriteW, ty * spriteH, scale, x, y)
  }

  /** The body of the two outer loops of init_sprites: a new sprite surface
      holding tile (tx, ty) of the sheet enlarged scale times. */
  method MakeSprite(sheet: Surface, spriteW: nat, spriteH: nat, scale: nat, tx: nat, ty: nat) returns (sprite: Surface)
    requires sheet.Valid() && scale >= 1
    requires (tx + 1) * spriteW <= sheet.width && (ty + 1) * spriteH <= sheet.height
    ensures fresh(sprite.pixels)
    ensures IsSpriteOf(sprite, sheet, spriteW, spriteH, scale, tx, ty)
  {
    var pixels := ScaleTile(sheet.pixels, sheet.pitch, sheet.height, tx * spriteW, ty * spriteH, spriteW, spriteH, scale);
    sprite := new Surface(spriteW * scale, spriteH * scale, spriteW * scale, pixels);
  }

  /** The loops of init_sprites over the tiles: the sprites of the
      perRow x perCol tiles of the sheet, row by row. */
  method SliceSheet(sheet: Surface, spriteW: nat, spriteH: nat, scale: nat, perRow: nat, perCol: nat)
    returns (sprites: seq<Surface>)
    requires sheet.Valid() && scale >= 1 && perRow >= 1 && spriteW >= 1 && spriteH >= 1
    requires perRow * spriteW == sheet.width && perCol * spriteH == sheet.height
    ensures |sprites| == perRow * perCol
    ensures forall k | 0 <= k < |sprites| ::
              IsSpriteOf(sprites[k], sheet, spriteW, spriteH, scale, k % perRow, k / perRow)
  {
    sprites := [];
    for y := 0 to perCol
      invariant |sprites| == y * perRow
      invariant forall k | 0 <= k < |sprites| ::
                  IsSpriteOf(sprites[k], sheet, spriteW, spriteH, scale, k % perRow, k / perRow)
    {
      for x := 0 to perRow
        invariant |sprites| == y * perRow + x
        invariant forall k | 0 <= k < |sprites| ::
                    IsSpriteOf(sprites[k], sheet, spriteW, spriteH, scale, k % perRow, k / perRow)
      {
        MulMono(x + 1, perRow, spriteW);
        MulMono(y + 1, perCol, spriteH);
        var sprite := MakeSprite(sheet, spriteW, spriteH, scale, x, y);
        DivInBlock(y * perRow + x, y, perRow);
        sprites := sprites + [sprite];
      }
    }
  }

  /** What reloading the sheet after a change on disk did. */
  datatype ReloadOutcome =
    | Unchanged    // the file could not be loaded or its size differs
    | Reloaded     // the sheet was replaced and the sprites rebuilt
    | NullSheet    // the conversion failed: the sheet is null and no sprites remain

  /** The result of IMG_Load: the size of the loaded image. */
  datatype Image = Image(width: nat, height: nat)

  /** The global sprite state of the viewer: spriteMap, spritesPerRow,
      spritesPerCol and spriteList, with the options that shape them. */
  class Viewer {
    const spriteW: nat
    const spriteH: nat
    const scale: nat
    var spriteMap: Surface?
    var perRow: nat
    var perCol: nat
    var spriteList: seq<Surface>

    /** The sheet is present and holds perRow x perCol whole sprites. */
    ghost predicate Valid()
      reads this
    {
      && spriteW >= 4 && spriteH >= 4 && scale >= 1
      && spriteMap != null && spriteMap.Valid()
      && perRow >= 1 && perCol >= 1
      && perRow * spriteW == spriteMap.width && perCol * spriteH == spriteMap.height
    }

    /** Sprite k of the list is tile (k % perRow, k / perRow) of the sheet. */
    ghost predicate SpritesMatchMap()
      reads this, (if spriteMap != null then {spriteMap.pixels} else {}), set s | s in spriteList :: s.pixels
    {
      && Valid()
      && |spriteList| == perRow * perCol
      && forall k | 0 <= k < |spriteList| ::
           IsSpriteOf(spriteList[k], spriteMap, spriteW, spriteH, scale, k % perRow, k / perRow)
    }

    /** The state after init: a validated sheet and no sprites yet. */
    constructor (spriteW: nat, spriteH: nat, scale: nat, sheet: Surface, g: Geometry)
      requires spriteW >= 4 && spriteH >= 4 && scale >= 1 && sheet.Valid()
      requires g.perRow >= 1 && g.perCol >= 1
      requires g.perRow * spriteW == sheet.width && g.perCol * spriteH == sheet.height
      ensures Valid() && spriteList == []
      ensures this.spriteW == spriteW && this.spriteH == spriteH && this.scale == scale
      ensures spriteMap == sheet && perRow == g.perRow && perCol == g.perCol
    {
      this.spriteW := spriteW;
      this.spriteH := spriteH;
      this.scale := scale;
      spriteMap := sheet;
      perRow := g.perRow;
      perCol := g.perCol;
      spriteList := [];
    }

    /** init_sprites: appends one enlarged sprite per tile, row by row. */
    method InitSprites()
      requires Valid()
      modifies this`spriteList
      ensures Valid()
      ensures |spriteList| == |old(spriteList)| + perRow * perCol
      ensures spriteList[..|old(spriteList)|] == old(spriteList)
      ensures forall k | 0 <= k < perRow * perCol ::
                IsSpriteOf(spriteList[|old(spriteList)| + k], spriteMap, spriteW, spriteH, scale, k % perRow, k / perRow)
    {
      var sprites := SliceSheet(spriteMap, spriteW, spriteH, scale, perRow, perCol);
      spriteList := spriteList + sprites;
    }

    /** destroy_sprites: frees every sprite and empties the list. */
    method DestroySprites()
      modifies this`spriteList
      ensures spriteList == []
    {
      spriteList := [];
    }

    /** file_observer_impl::on_write as written: an image that fails to load
        or differs in size from the sheet is ignored; otherwise the sheet is
        freed and replaced by the converted image, which is not checked for
        null, and the sprites are rebuilt. When the conversion fails,
        init_sprites dereferences the null sheet: the model stops there with
        outcome NullSheet. */
    method OnWrite(loaded: Option<Image>, converted: Surface?) returns (outcome: ReloadOutcome)
      requires Valid()
      requires converted != null ==>
                 loaded.Some? && converted.Valid()
                 && converted.width == loaded.value.width && converted.height == loaded.value.height
      modifies this`spriteMap, this`spriteList
      ensures outcome == Unchanged <==>
                loaded.None? || loaded.value.width != old(spriteMap.width) || loaded.value.height != old(spriteMap.height)
      ensures outcome == Unchanged ==> spriteMap == old(spriteMap) && spriteList == old(spriteList)
      ensures outcome == NullSheet <==> outcome != Unchanged && converted == null
      ensures outcome == NullSheet ==> spriteMap == null && spriteList == [] && !Valid()
      ensures outcome == Reloaded ==> spriteMap == converted && SpritesMatchMap()
    {
      if loaded.None? {
        return Unchanged;
      }
      if loaded.value.width != spriteMap.width {
        return Unchanged;
      }
      if loaded.value.height != spriteMap.height {
        return Unchanged;
      }
      spriteMap := converted;
      DestroySprites();
      if spriteMap == null {
        return NullSheet;
      }
      InitSprites();
      outcome := Reloaded;
    }

    /** on_write with the conversion checked before the old sheet is freed:
        a failed conversion leaves sheet and sprites as they were, so the
        sprites match the sheet after every reload. */
    method OnWriteChecked(loaded: Option<Image>, converted: Surface?) returns (outcome: ReloadOutcome)
      requires SpritesMatchMap()
      requires converted != null ==>
                 loaded.Some? && converted.Valid()
                 && converted.width == loaded.value.width && converted.height == loaded.value.height
      modifies this`spriteMap, this`spriteList
      ensures SpritesMatchMap() && outcome != NullSheet && |spriteList| == old(|spriteList|)
      ensures outcome == Reloaded <==>
                && loaded.Some? && loaded.value.width == old(spriteMap.width)
                && loaded.value.height == old(spriteMap.height) && converted != null
      ensures outcome == Reloaded ==> spriteMap == converted
      ensures outcome == Unchanged ==> spriteMap == old(spriteMap) && spriteList == old(spriteList)
    {
      if loaded.None? || loaded.value.width != spriteMap.width || loaded.value.height != spriteMap.height
         || converted == null {
        return Unchanged;
      }
      spriteMap := converted;
      DestroySprites();
      InitSprites();
      outcome := Reloaded;
    }

    /** draw_sprite: the sprite spriteList[spriteIdx] and where it is blitted
        on a dstW x dstH screen. The index must name a sprite; the source
        indexes the vector unchecked. */
    method DrawSprite(spriteIdx: int, tiled: bool, dstW: int, dstH: int) returns (sprite: Surface, blits: seq<Point>)
      requires SpritesMatchMap()
      requires 0 <= spriteIdx < |spriteList|
      ensures sprite == spriteList[spriteIdx]
      ensures var w, h := spriteW * scale, spriteH * scale;
              && (Tiles(tiled, w, h, dstW, dstH) ==> blits == Grid(0, w, h, dstW, dstH))
              && (!Tiles(tiled, w, h, dstW, dstH) ==> blits == [Point(TruncDiv2(dstW - w), TruncDiv2(dstH - h))])
    {
      sprite := spriteList[spriteIdx];
      SpriteSize(spriteIdx);
      var srcW, srcH := sprite.width, sprite.height;
      MulMono(1, spriteW, scale);
      MulMono(1, spriteH, scale);
      blits := BlitPositions(tiled, srcW, srcH, dstW, dstH);
    }

    /** init_sprites fills the list row by row: the sprite of tile (x, y) is
        at index y * perRow + x. */
    lemma SpriteOfTile(x: nat, y: nat)
      requires SpritesMatchMap() && x < perRow && y < perCol
      ensures y * perRow + x < |spriteList|
      ensures IsSpriteOf(spriteList[y * perRow + x], spriteMap, spriteW, spriteH, scale, x, y)
    {
      MulMono(y + 1, perCol, perRow);
      DivInBlock(y * perRow + x, y, perRow);
    }

    lemma SpriteSize(k: nat)
      requires SpritesMatchMap() && k < |spriteList|
      ensures spriteList[k].width == spriteW * scale && spriteList[k].height == spriteH * scale
    {
      assert IsSpriteOf(spriteList[k], spriteMap, spriteW, spriteH, scale, k % perRow, k / perRow);
    }

    /** Sprite k of a matching list shows the tile in column k % perRow and
        row k / perRow of the sheet. */
    lemma SpriteShowsTile(k: nat, x: nat, y: nat)
      requires SpritesMatchMap() && k < |spriteList|
      requires x < spriteW * scale && y < spriteH * scale
      ensures PixelAt(spriteList[k].pixels[..], x, y, spriteW * scale)
                == PixelAt(spriteMap.pixels[..], (k % perRow) * spriteW + x / scale, (k / perRow) * spriteH + y / scale, spriteMap.pitch)
    {
      assert IsSpriteOf(spriteList[k], spriteMap, spriteW, spriteH, scale, k % perRow, k / perRow);
    }
  }

  // ---------------------------------------------------------------------------
  // The start index -1

  /** As written, init accepts -1 as a start index: with a 16 x 16 sheet of
      4 x 4 sprites and -i -1:-1 validation succeeds, and every frame the
      timer draws is index -1, which names no sprite. */
  lemma MinusOneStartIsDrawn(k: nat)
    ensures ValidateGeometry(16, 16, 4, 4, -1, -1).Ok?
    ensures forall i | 0 <= i < k :: DrawSequence(-1, NumFrames(-1, -1), 0, k)[i] == -1
  {
    assert ValidateGeometry(16, 16, 4, 4, -1, -1).value.perRow == 4;
  }

  /** With the start index checked against 0, every index the timer draws
      names a sprite of the sheet. */
  lemma StrictRangeDrawsOnlySprites(imageW: nat, imageH: nat, spriteW: int, spriteH: int,
                                    start: int, end: int, offs: nat, k: nat)
    requires spriteW >= 4 && spriteH >= 4
    requires ValidateGeometryStrict(imageW, imageH, spriteW, spriteH, start, end).Ok?
    requires offs < NumFrames(start, end)
    ensures var g := ValidateGeometryStrict(imageW, imageH, spriteW, spriteH, start, end).value;
            forall i | 0 <= i < k :: 0 <= DrawSequence(start, NumFrames(start, end), offs, k)[i] < g.perRow * g.perCol
  {
    DrawnWithinRange(start, NumFrames(start, end), offs, k);
  }
}
