/**
 * The integer logic of examples/raytracing/raytracing.py: cutting the rows
 * of the image into tiles, one rendering task per tile, rendering a tile in
 * row-major order, collecting the tiles that came back, and assembling them
 * into a flat pixel buffer. The colour of a pixel is opaque: it is given by
 * a function `shade(x, y)` that stands for tracing the ray of that pixel
 * through the fixed camera and scene.
 */
module Raytracing {
  import opened Wrappers

  /** An RGB triple as `to_color` returns it. */
  datatype Color = Color(r: int, g: int, b: int)

  /** The colour of pixels that no tile provided. */
  const MissingTileColor: Color := Color(255, 0, 255)

  /** The row range `[yStart, yEnd)` given to one `render_tile_task`. */
  datatype Tile = Tile(yStart: nat, yEnd: nat)

  /** What a tile task returns: its first row and its pixels. */
  datatype TileResult = TileResult(yStart: nat, pixels: seq<Color>)

  function Min(a: int, b: int): int {
    if a <= b then a else b
  }

  function Max(a: int, b: int): int {
    if a >= b then a else b
  }

  // ---------------------------------------------------------------------
  // Arithmetic on row-major indices
  // ---------------------------------------------------------------------

  lemma MulMonotone(a: nat, b: nat, c: nat)
    requires a <= b
    ensures a * c <= b * c
  {
  }

  /** The row of a flat index lies in `[lo, hi)` exactly when the index lies in `[lo * w, hi * w)`. */
  lemma RowOfIndex(idx: nat, width: nat, lo: nat, hi: nat)
    requires width > 0
    ensures lo <= idx / width < hi <==> lo * width <= idx < hi * width
  {
    var y := idx / width;
    assert idx == y * width + idx % width;
    assert 0 <= idx % width < width;
    if y < lo {
      MulMonotone(y + 1, lo, width);
      assert (y + 1) * width == y * width + width;
    }
    if lo <= y {
      MulMonotone(lo, y, width);
    }
    if y < hi {
      MulMonotone(y + 1, hi, width);
      assert (y + 1) * width == y * width + width;
    }
    if hi <= y {
      MulMonotone(hi, y, width);
    }
  }

  // ---------------------------------------------------------------------
  // Cutting the image into tiles
  // ---------------------------------------------------------------------

  /** `max(1, min(num_tasks, img_height))`. */
  function ClampTaskCount(numTasks: int, height: nat): (count: nat)
    ensures count >= 1
    ensures height >= 1 ==> count <= height
    ensures 1 <= numTasks <= height ==> count == numTasks
    ensures numTasks < 1 ==> count == 1
    ensures height == 0 ==> count == 1
    ensures 1 <= height < numTasks ==> count == height
  {
    Max(1, Min(numTasks, height))
  }

  /** `math.ceil(img_height / num_tasks)`: the least row count whose `count` tiles reach the last row. */
  function RowsPerTask(height: nat, count: nat): (rows: nat)
    requires count >= 1
    ensures rows * count >= height
    ensures rows > 0 ==> (rows - 1) * count < height
    ensures height >= 1 ==> rows >= 1
    ensures height == 0 ==> rows == 0
  {
    var q := (height + count - 1) / count;
    assert height + count - 1 == q * count + (height + count - 1) % count;
    assert q * count - count == (q - 1) * count;
    q
  }

  /** The tiles are non-empty, in order, back to back, and cover the rows `[0, height)`. */
  ghost predicate IsPartition(tiles: seq<Tile>, height: nat) {
    && (tiles == [] <==> height == 0)
    && (tiles != [] ==> tiles[0].yStart == 0 && tiles[|tiles| - 1].yEnd == height)
    && (forall k :: 0 <= k < |tiles| ==> tiles[k].yStart < tiles[k].yEnd <= height)
    && (forall k :: 0 <= k < |tiles| - 1 ==> tiles[k].yEnd == tiles[k + 1].yStart)
  }

  /** Tile k runs from `k * rows` to the next multiple of `rows` or the bottom row, and is not empty. */
  ghost predicate EvenTiles(tiles: seq<Tile>, rows: nat, height: nat) {
    forall k :: 0 <= k < |tiles| ==>
      && tiles[k].yStart == k * rows
      && tiles[k].yEnd == Min(k * rows + rows, height)
      && tiles[k].yStart < tiles[k].yEnd
  }

  /** Once a task is left with no rows, the tiles collected so far already reach the bottom row. */
  lemma SkippedTaskReachesBottom(i: nat, n: nat, rows: nat, height: nat)
    requires n <= i && (n < i ==> n * rows >= height)
    requires i * rows >= Min(i * rows + rows, height) && (height >= 1 ==> rows >= 1)
    ensures n * rows >= height
  {
  }

  /** A task with rows comes right after the tiles collected so far. */
  lemma KeptTaskIsNext(i: nat, n: nat, rows: nat, height: nat)
    requires n <= i && (n < i ==> n * rows >= height)
    requires i * rows < Min(i * rows + rows, height)
    ensures n == i
  {
  }

  /** The tiles of the loop form a partition when `count` tiles of `rows` rows reach the bottom. */
  lemma EvenTilesPartition(tiles: seq<Tile>, rows: nat, count: nat, height: nat)
    requires EvenTiles(tiles, rows, height)
    requires |tiles| <= count && (|tiles| < count ==> |tiles| * rows >= height)
    requires rows * count >= height && (height == 0 ==> rows == 0) && (height >= 1 ==> rows >= 1)
    ensures IsPartition(tiles, height)
    ensures forall k :: 0 <= k < |tiles| ==> tiles[k].yEnd - tiles[k].yStart <= rows
  {
    if height > 0 {
      var last := |tiles| - 1;
      assert last * rows + rows == |tiles| * rows;
    }
    assert tiles != [] ==> tiles[0].yStart < tiles[0].yEnd <= height;
    forall k | 0 <= k < |tiles| - 1
      ensures tiles[k].yEnd == tiles[k + 1].yStart
    {
      assert (k + 1) * rows == k * rows + rows;
    }
  }

  /**
   * The loop of `__main__` that builds `task_args_list`: task i gets the rows
   * from `i * rows_per_task` up to the next multiple or the image's bottom,
   * and tasks left with no rows are skipped.
   */
  method PartitionRows(numTasks: int, height: nat) returns (tiles: seq<Tile>)
    ensures IsPartition(tiles, height)
    ensures |tiles| <= ClampTaskCount(numTasks, height)
    ensures forall k :: 0 <= k < |tiles| ==>
              tiles[k].yStart == k * RowsPerTask(height, ClampTaskCount(numTasks, height))
    ensures forall k :: 0 <= k < |tiles| ==>
              tiles[k].yEnd - tiles[k].yStart <= RowsPerTask(height, ClampTaskCount(numTasks, height))
  {
    var count := ClampTaskCount(numTasks, height);
    var rowsPerTask := RowsPerTask(height, count);
    tiles := [];
    for i := 0 to count
      invariant |tiles| <= i
      invariant EvenTiles(tiles, rowsPerTask, height)
      invariant |tiles| < i ==> |tiles| * rowsPerTask >= height
    {
      var yStart := i * rowsPerTask;
      var yEnd := Min((i + 1) * rowsPerTask, height);
      assert (i + 1) * rowsPerTask == yStart + rowsPerTask;
      if yStart >= yEnd {
        SkippedTaskReachesBottom(i, |tiles|, rowsPerTask, height);
        continue;
      }
      KeptTaskIsNext(i, |tiles|, rowsPerTask, height);
      tiles := tiles + [Tile(yStart, yEnd)];
    }
    EvenTilesPartition(tiles, rowsPerTask, count, height);
  }

  lemma {:induction false} PartitionOrdered(tiles: seq<Tile>, height: nat, j: nat, k: nat)
    requires IsPartition(tiles, height)
    requires j < k < |tiles|
    ensures tiles[j].yEnd <= tiles[k].yStart
    decreases k - j
  {
    if j + 1 < k {
      PartitionOrdered(tiles, height, j + 1, k);
    }
  }

  lemma {:induction false} PartitionCoversFrom(tiles: seq<Tile>, height: nat, j: nat, y: nat)
    requires IsPartition(tiles, height)
    requires j < |tiles| && tiles[j].yStart <= y < height
    ensures exists k :: j <= k < |tiles| && tiles[k].yStart <= y < tiles[k].yEnd
    decreases |tiles| - j
  {
    if y >= tiles[j].yEnd {
      PartitionCoversFrom(tiles, height, j + 1, y);
    }
  }

  /** Every row of the image lies in exactly one tile. */
  lemma PartitionCoversOnce(tiles: seq<Tile>, height: nat, y: nat)
    requires IsPartition(tiles, height) && y < height
    ensures exists k :: 0 <= k < |tiles| && tiles[k].yStart <= y < tiles[k].yEnd
    ensures forall j, k :: 0 <= j < |tiles| && 0 <= k < |tiles|
              && tiles[j].yStart <= y < tiles[j].yEnd && tiles[k].yStart <= y < tiles[k].yEnd
              ==> j == k
  {
    PartitionCoversFrom(tiles, height, 0, y);
    forall j, k | 0 <= j < |tiles| && 0 <= k < |tiles|
        && tiles[j].yStart <= y < tiles[j].yEnd && tiles[k].yStart <= y < tiles[k].yEnd
      ensures j == k
    {
      if j < k {
        PartitionOrdered(tiles, height, j, k);
      } else if k < j {
        PartitionOrdered(tiles, height, k, j);
      }
    }
  }

  // ---------------------------------------------------------------------
  // Rendering one tile
  // ---------------------------------------------------------------------

  /** Row y of the image, left to right. */
  function Row(y: int, width: nat, shade: (int, int) -> Color): seq<Color> {
    seq(width, x => shade(x, y))
  }

  /** The rows `[yStart, yEnd)`, top to bottom: the pixel list of a rendered tile. */
  function TilePixels(yStart: int, yEnd: int, width: nat, shade: (int, int) -> Color): seq<Color>
    decreases yEnd - yStart
  {
    if yEnd <= yStart then [] else TilePixels(yStart, yEnd - 1, width, shade) + Row(yEnd - 1, width, shade)
  }

  /** A tile of `h` rows holds `h * width` pixels. */
  lemma {:induction false} TilePixelsLength(yStart: int, yEnd: int, width: nat, shade: (int, int) -> Color)
    requires yStart <= yEnd
    ensures |TilePixels(yStart, yEnd, width, shade)| == (yEnd - yStart) * width
    decreases yEnd - yStart
  {
    if yStart < yEnd {
      var h := yEnd - yStart;
      TilePixelsLength(yStart, yEnd - 1, width, shade);
      assert h * width == (h - 1) * width + width;
    }
  }

  /** Pixel `off * width + x` of a tile is that of column x, row `yStart + off`. */
  lemma {:induction false} TilePixelsAt(yStart: int, yEnd: int, width: nat, shade: (int, int) -> Color,
                                        off: nat, x: nat)
    requires yStart + off < yEnd && x < width
    ensures off * width + x < |TilePixels(yStart, yEnd, width, shade)|
    ensures TilePixels(yStart, yEnd, width, shade)[off * width + x] == shade(x, yStart + off)
    decreases yEnd - yStart
  {
    var h := yEnd - yStart;
    var front := TilePixels(yStart, yEnd - 1, width, shade);
    var row := Row(yEnd - 1, width, shade);
    assert TilePixels(yStart, yEnd, width, shade) == front + row;
    TilePixelsLength(yStart, yEnd - 1, width, shade);
    if off < h - 1 {
      TilePixelsAt(yStart, yEnd - 1, width, shade, off, x);
    } else {
      assert off * width + x == |front| + x;
    }
  }

  /**
   * `render_tile_task`: visit the rows of the tile, and each row left to
   * right, appending the colour of each pixel.
   */
  method RenderTileTask(tileYStart: nat, tileYEnd: nat, imageWidth: nat, shade: (int, int) -> Color)
    returns (result: TileResult)
    ensures result.yStart == tileYStart
    ensures result.pixels == TilePixels(tileYStart, tileYEnd, imageWidth, shade)
  {
    var tilePixelData := [];
    var y := tileYStart;
    while y < tileYEnd
      invariant tileYStart <= y && (y <= tileYEnd || y == tileYStart)
      invariant tilePixelData == TilePixels(tileYStart, y, imageWidth, shade)
    {
      for x := 0 to imageWidth
        invariant tilePixelData == TilePixels(tileYStart, y, imageWidth, shade) + Row(y, imageWidth, shade)[..x]
      {
        assert Row(y, imageWidth, shade)[..x + 1] == Row(y, imageWidth, shade)[..x] + [shade(x, y)];
        tilePixelData := tilePixelData + [shade(x, y)];
      }
      assert Row(y, imageWidth, shade)[..imageWidth] == Row(y, imageWidth, shade);
      y := y + 1;
    }
    result := TileResult(tileYStart, tilePixelData);
  }

  // ---------------------------------------------------------------------
  // Collecting the tiles that came back
  // ---------------------------------------------------------------------

  /** `rendered_tiles_data` after the loop: a later result for the same first row replaces an earlier one. */
  function Collected(results: seq<Option<TileResult>>): map<nat, seq<Color>>
    decreases |results|
  {
    if results == [] then map[]
    else
      var previous := Collected(results[..|results| - 1]);
      match results[|results| - 1]
      case None => previous
      case Some(r) => previous[r.yStart := r.pixels]
  }

  /** The collection loop; `None` stands for a task whose `get()` raised. */
  method CollectTiles(results: seq<Option<TileResult>>) returns (renderedTilesData: map<nat, seq<Color>>)
    ensures renderedTilesData == Collected(results)
  {
    renderedTilesData := map[];
    for taskIdx := 0 to |results|
      invariant renderedTilesData == Collected(results[..taskIdx])
    {
      assert results[..taskIdx + 1][..taskIdx] == results[..taskIdx];
      match results[taskIdx]
      case None =>
      case Some(r) =>
        renderedTilesData := renderedTilesData[r.yStart := r.pixels];
    }
    assert results[..|results|] == results;
  }

  /**
   * When task k returns its own tile's first row and first rows are
   * distinct, that row is collected exactly when task k succeeded, with
   * task k's pixels.
   */
  lemma {:induction false} CollectedLookup(tiles: seq<Tile>, results: seq<Option<TileResult>>, k: nat)
    requires |results| == |tiles| && k < |tiles|
    requires forall i, j :: 0 <= i < j < |tiles| ==> tiles[i].yStart != tiles[j].yStart
    requires forall i :: 0 <= i < |results| && results[i].Some? ==> results[i].value.yStart == tiles[i].yStart
    ensures tiles[k].yStart in Collected(results) <==> results[k].Some?
    ensures results[k].Some? ==> Collected(results)[tiles[k].yStart] == results[k].value.pixels
    decreases |results|
  {
    var n := |results| - 1;
    var previous := Collected(results[..n]);
    if k < n {
      CollectedLookup(tiles[..n], results[..n], k);
    } else {
      if tiles[k].yStart in previous {
        CollectedAbsent(tiles[..n], results[..n], tiles[k].yStart);
        assert false;
      }
    }
  }

  /** A first row that no task's tile starts at is never collected. */
  lemma {:induction false} CollectedAbsent(tiles: seq<Tile>, results: seq<Option<TileResult>>, y: nat)
    requires |results| == |tiles|
    requires forall i :: 0 <= i < |results| && results[i].Some? ==> results[i].value.yStart == tiles[i].yStart
    requires forall i :: 0 <= i < |tiles| ==> tiles[i].yStart != y
    ensures y !in Collected(results)
    decreases |results|
  {
    if results != [] {
      var n := |results| - 1;
      CollectedAbsent(tiles[..n], results[..n], y);
    }
  }

  // ---------------------------------------------------------------------
  // Assembling the flat buffer
  // ---------------------------------------------------------------------

  /** How many rows of the tile lie inside the image. */
  function RowsInImage(tile: Tile, height: nat): nat {
    if tile.yStart < Min(tile.yEnd, height) then Min(tile.yEnd, height) - tile.yStart else 0
  }

  /**
   * Whether assembling a tile with these pixels writes flat index idx: its
   * row is a row of the tile inside the image, and the tile has a pixel for it.
   */
  predicate Writes(tile: Tile, pixels: seq<Color>, width: nat, height: nat, idx: int) {
    && tile.yStart * width <= idx < tile.yStart * width + RowsInImage(tile, height) * width
    && idx - tile.yStart * width < |pixels|
  }

  /** The arithmetic of one row of the image inside a tile: where it starts in the buffer and in the counter. */
  lemma RowInBuffer(yStart: nat, yOffset: nat, rowsDone: nat, width: nat, height: nat)
    requires yStart + yOffset < height
    requires rowsDone == RowsInImage(Tile(yStart, yStart + yOffset), height)
    ensures (yStart + yOffset) * width == yStart * width + rowsDone * width
    ensures (yStart + yOffset) * width + width <= height * width
    ensures (rowsDone + 1) * width == rowsDone * width + width
    ensures RowsInImage(Tile(yStart, yStart + yOffset + 1), height) == rowsDone + 1
  {
    assert rowsDone == yOffset;
    MulMonotone(yStart + yOffset + 1, height, width);
  }

  /** The buffer holds the tile's pixels at the first `count` positions after base (as far as the tile has pixels), and its old contents elsewhere. */
  ghost predicate WrittenPrefix(flat: array<Color>, before: seq<Color>, base: int, count: int, pixels: seq<Color>)
    requires |before| == flat.Length
    reads flat
  {
    forall idx :: 0 <= idx < flat.Length ==>
      flat[idx] == if base <= idx < base + count && idx - base < |pixels| then pixels[idx - base] else before[idx]
  }

  /**
   * The inner loops of the assembly for one tile: rows outside the image are
   * skipped, and the running pixel counter is used as long as the tile has
   * pixels left.
   */
  method WriteTile(flat: array<Color>, width: nat, height: nat, tile: Tile, tilePixels: seq<Color>)
    requires flat.Length == width * height
    modifies flat
    ensures forall idx :: 0 <= idx < flat.Length ==>
              flat[idx] == if Writes(tile, tilePixels, width, height, idx)
                           then tilePixels[idx - tile.yStart * width]
                           else old(flat[idx])
  {
    ghost var before := flat[..];
    ghost var base := tile.yStart * width;
    ghost var rowsDone := 0;
    var rows := if tile.yEnd > tile.yStart then tile.yEnd - tile.yStart else 0;
    var currentPixelIdxInTile := 0;
    var yOffset := 0;
    while yOffset < rows
      invariant 0 <= yOffset <= rows
      invariant rowsDone == RowsInImage(Tile(tile.yStart, tile.yStart + yOffset), height)
      invariant currentPixelIdxInTile == rowsDone * width
      invariant WrittenPrefix(flat, before, base, currentPixelIdxInTile, tilePixels)
    {
      var currentY := tile.yStart + yOffset;
      if currentY >= height {
        yOffset := yOffset + 1;
        continue;
      }
      RowInBuffer(tile.yStart, yOffset, rowsDone, width, height);
      var rowBase := currentY * width;
      ghost var rowCounter := currentPixelIdxInTile;
      for x := 0 to width
        invariant currentPixelIdxInTile == rowCounter + x
        invariant WrittenPrefix(flat, before, base, currentPixelIdxInTile, tilePixels)
      {
        if currentPixelIdxInTile < |tilePixels| {
          var flatIdx := rowBase + x;
          assert flatIdx < flat.Length;
          flat[flatIdx] := tilePixels[currentPixelIdxInTile];
        }
        currentPixelIdxInTile := currentPixelIdxInTile + 1;
      }
      rowsDone := rowsDone + 1;
      yOffset := yOffset + 1;
    }
    assert RowsInImage(Tile(tile.yStart, tile.yStart + rows), height) == RowsInImage(tile, height);
  }

  /** The colour the assembled buffer holds at idx: that of the last tile in the list that writes it. */
  function Painted(width: nat, height: nat, tiles: seq<Tile>, rendered: map<nat, seq<Color>>, idx: int): Color
    decreases |tiles|
  {
    if tiles == [] then MissingTileColor
    else
      var t := tiles[|tiles| - 1];
      if t.yStart in rendered && Writes(t, rendered[t.yStart], width, height, idx)
      then rendered[t.yStart][idx - t.yStart * width]
      else Painted(width, height, tiles[..|tiles| - 1], rendered, idx)
  }

  /** The assembly loop over `task_args_list`: start from the missing-tile colour, then write every tile that came back. */
  method AssembleImage(width: nat, height: nat, tiles: seq<Tile>, rendered: map<nat, seq<Color>>)
    returns (flatPixelList: array<Color>)
    ensures fresh(flatPixelList) && flatPixelList.Length == width * height
    ensures forall idx :: 0 <= idx < flatPixelList.Length ==>
              flatPixelList[idx] == Painted(width, height, tiles, rendered, idx)
  {
    flatPixelList := new Color[width * height](_ => MissingTileColor);
    for i := 0 to |tiles|
      invariant forall idx :: 0 <= idx < flatPixelList.Length ==>
                  flatPixelList[idx] == Painted(width, height, tiles[..i], rendered, idx)
    {
      PaintedSnoc(width, height, tiles, rendered, i);
      var t := tiles[i];
      if t.yStart in rendered {
        WriteTile(flatPixelList, width, height, t, rendered[t.yStart]);
      }
    }
    assert tiles[..|tiles|] == tiles;
  }

  /** Adding tile i to the first i tiles changes the colour only where tile i writes. */
  lemma PaintedSnoc(width: nat, height: nat, tiles: seq<Tile>, rendered: map<nat, seq<Color>>, i: nat)
    requires i < |tiles|
    ensures forall idx :: Painted(width, height, tiles[..i + 1], rendered, idx)
              == if tiles[i].yStart in rendered && Writes(tiles[i], rendered[tiles[i].yStart], width, height, idx)
                 then rendered[tiles[i].yStart][idx - tiles[i].yStart * width]
                 else Painted(width, height, tiles[..i], rendered, idx)
  {
    assert tiles[..i + 1][..i] == tiles[..i];
  }

  /** An index no tile writes keeps the missing-tile colour. */
  lemma {:induction false} PaintedUnwritten(width: nat, height: nat, tiles: seq<Tile>,
                                            rendered: map<nat, seq<Color>>, idx: int)
    requires forall k :: 0 <= k < |tiles| && tiles[k].yStart in rendered ==>
               !Writes(tiles[k], rendered[tiles[k].yStart], width, height, idx)
    ensures Painted(width, height, tiles, rendered, idx) == MissingTileColor
    decreases |tiles|
  {
    if tiles != [] {
      PaintedUnwritten(width, height, tiles[..|tiles| - 1], rendered, idx);
    }
  }

  /** An index written by tile k and by no later tile holds tile k's pixel. */
  lemma {:induction false} PaintedByLastWriter(width: nat, height: nat, tiles: seq<Tile>,
                                               rendered: map<nat, seq<Color>>, idx: int, k: nat)
    requires k < |tiles| && tiles[k].yStart in rendered
    requires Writes(tiles[k], rendered[tiles[k].yStart], width, height, idx)
    requires forall j :: k < j < |tiles| && tiles[j].yStart in rendered ==>
               !Writes(tiles[j], rendered[tiles[j].yStart], width, height, idx)
    ensures Painted(width, height, tiles, rendered, idx) == rendered[tiles[k].yStart][idx - tiles[k].yStart * width]
    decreases |tiles|
  {
    if k < |tiles| - 1 {
      PaintedByLastWriter(width, height, tiles[..|tiles| - 1], rendered, idx, k);
    }
  }

  /** Any tile writes only inside its own rows. */
  lemma WritesInsideTile(tile: Tile, pixels: seq<Color>, width: nat, height: nat, idx: int)
    requires Writes(tile, pixels, width, height, idx)
    ensures tile.yStart * width <= idx < tile.yEnd * width
  {
  }

  /** Every index a tile writes lies inside the `W*H` buffer. */
  lemma WritesInImage(tile: Tile, pixels: seq<Color>, width: nat, height: nat, idx: int)
    requires Writes(tile, pixels, width, height, idx)
    ensures 0 <= idx < width * height
  {
    var rows := RowsInImage(tile, height);
    assert tile.yStart + rows <= height;
    assert tile.yStart * width + rows * width == (tile.yStart + rows) * width;
    MulMonotone(tile.yStart + rows, height, width);
  }

  /** Two distinct tiles of a partition never write the same index. */
  lemma PartitionWritesDisjoint(tiles: seq<Tile>, height: nat, width: nat, rendered: map<nat, seq<Color>>,
                                k: nat, j: nat, idx: int)
    requires IsPartition(tiles, height)
    requires k < |tiles| && j < |tiles| && j != k
    requires tiles[k].yStart * width <= idx < tiles[k].yEnd * width
    requires tiles[j].yStart in rendered
    ensures !Writes(tiles[j], rendered[tiles[j].yStart], width, height, idx)
  {
    if Writes(tiles[j], rendered[tiles[j].yStart], width, height, idx) {
      WritesInsideTile(tiles[j], rendered[tiles[j].yStart], width, height, idx);
      if j < k {
        PartitionOrdered(tiles, height, j, k);
        MulMonotone(tiles[j].yEnd, tiles[k].yStart, width);
      } else {
        PartitionOrdered(tiles, height, k, j);
        MulMonotone(tiles[k].yEnd, tiles[j].yStart, width);
      }
    }
  }

  /** The rows of a tile whose result is missing keep the missing-tile colour. */
  lemma MissingTileKeepsDefault(width: nat, height: nat, tiles: seq<Tile>, rendered: map<nat, seq<Color>>,
                                k: nat, idx: int)
    requires IsPartition(tiles, height)
    requires k < |tiles| && tiles[k].yStart !in rendered
    requires tiles[k].yStart * width <= idx < tiles[k].yEnd * width
    ensures Painted(width, height, tiles, rendered, idx) == MissingTileColor
  {
    forall j | 0 <= j < |tiles| && tiles[j].yStart in rendered
      ensures !Writes(tiles[j], rendered[tiles[j].yStart], width, height, idx)
    {
      PartitionWritesDisjoint(tiles, height, width, rendered, k, j, idx);
    }
    PaintedUnwritten(width, height, tiles, rendered, idx);
  }

  /** A tile of a partition whose result holds all its pixels provides every index of its rows. */
  lemma CompleteTileProvides(width: nat, height: nat, tiles: seq<Tile>, rendered: map<nat, seq<Color>>,
                             k: nat, idx: int)
    requires IsPartition(tiles, height)
    requires k < |tiles| && tiles[k].yStart in rendered
    requires |rendered[tiles[k].yStart]| >= (tiles[k].yEnd - tiles[k].yStart) * width
    requires tiles[k].yStart * width <= idx < tiles[k].yEnd * width
    ensures Painted(width, height, tiles, rendered, idx) == rendered[tiles[k].yStart][idx - tiles[k].yStart * width]
  {
    var t := tiles[k];
    assert RowsInImage(t, height) == t.yEnd - t.yStart;
    assert (t.yEnd - t.yStart) * width == t.yEnd * width - t.yStart * width;
    assert Writes(t, rendered[t.yStart], width, height, idx);
    forall j | k < j < |tiles| && tiles[j].yStart in rendered
      ensures !Writes(tiles[j], rendered[tiles[j].yStart], width, height, idx)
    {
      PartitionWritesDisjoint(tiles, height, width, rendered, k, j, idx);
    }
    PaintedByLastWriter(width, height, tiles, rendered, idx, k);
  }

  /** Every index of the buffer lies in the rows of a tile of the partition. */
  lemma IndexInTile(tiles: seq<Tile>, width: nat, height: nat, idx: nat) returns (k: nat)
    requires IsPartition(tiles, height) && idx < width * height
    ensures width > 0
    ensures k < |tiles| && tiles[k].yStart <= idx / width < tiles[k].yEnd
    ensures tiles[k].yStart * width <= idx < tiles[k].yEnd * width
  {
    var y := idx / width;
    RowOfIndex(idx, width, 0, height);
    PartitionCoversOnce(tiles, height, y);
    k :| 0 <= k < |tiles| && tiles[k].yStart <= y < tiles[k].yEnd;
    RowOfIndex(idx, width, tiles[k].yStart, tiles[k].yEnd);
  }

  lemma PartitionStartsDistinct(tiles: seq<Tile>, height: nat)
    requires IsPartition(tiles, height)
    ensures forall i, j :: 0 <= i < j < |tiles| ==> tiles[i].yStart != tiles[j].yStart
  {
    forall i, j | 0 <= i < j < |tiles|
      ensures tiles[i].yStart != tiles[j].yStart
    {
      PartitionOrdered(tiles, height, i, j);
    }
  }

  /** When every tile came back with all its pixels, every index holds a pixel of the tile that covers its row. */
  lemma CompleteTilesFillImage(width: nat, height: nat, tiles: seq<Tile>, rendered: map<nat, seq<Color>>,
                               idx: nat)
    requires IsPartition(tiles, height)
    requires forall k :: 0 <= k < |tiles| ==>
               tiles[k].yStart in rendered
               && |rendered[tiles[k].yStart]| >= (tiles[k].yEnd - tiles[k].yStart) * width
    requires idx < width * height
    ensures exists k :: 0 <= k < |tiles|
              && tiles[k].yStart <= idx / width < tiles[k].yEnd
              && 0 <= idx - tiles[k].yStart * width < |rendered[tiles[k].yStart]|
              && Painted(width, height, tiles, rendered, idx)
                 == rendered[tiles[k].yStart][idx - tiles[k].yStart * width]
  {
    var k := IndexInTile(tiles, width, height, idx);
    CompleteTileProvides(width, height, tiles, rendered, k, idx);
  }

  /** What task k's tile shows at idx: the rendered pixel, or the missing-tile colour when the task failed. */
  function Expected(tiles: seq<Tile>, k: nat, width: nat, shade: (int, int) -> Color, failed: set<nat>,
                    idx: nat): Color
    requires width > 0
  {
    if k in failed then MissingTileColor else shade(idx % width, idx / width)
  }

  /** A rendered tile's pixel for idx is the shade of idx's column and row. */
  lemma RenderedPixel(t: Tile, width: nat, shade: (int, int) -> Color, idx: nat)
    requires width > 0 && t.yStart <= idx / width < t.yEnd
    ensures t.yStart * width <= idx < t.yStart * width + |TilePixels(t.yStart, t.yEnd, width, shade)|
    ensures TilePixels(t.yStart, t.yEnd, width, shade)[idx - t.yStart * width] == shade(idx % width, idx / width)
  {
    var y := idx / width;
    var x := idx % width;
    var off := y - t.yStart;
    assert idx == y * width + x;
    assert off * width == y * width - t.yStart * width;
    TilePixelsAt(t.yStart, t.yEnd, width, shade, off, x);
  }

  /** One pixel of RenderImage's buffer, from the lemmas about collection and assembly. */
  lemma PixelOfRenderedImage(width: nat, height: nat, shade: (int, int) -> Color, failed: set<nat>,
                             tiles: seq<Tile>, results: seq<Option<TileResult>>, idx: nat)
    returns (k: nat)
    requires IsPartition(tiles, height) && |results| == |tiles|
    requires forall j :: 0 <= j < |tiles| ==>
               if j in failed then results[j] == None
               else results[j] == Some(TileResult(tiles[j].yStart,
                                                  TilePixels(tiles[j].yStart, tiles[j].yEnd, width, shade)))
    requires idx < width * height
    ensures width > 0
    ensures k < |tiles| && tiles[k].yStart <= idx / width < tiles[k].yEnd
    ensures Painted(width, height, tiles, Collected(results), idx) == Expected(tiles, k, width, shade, failed, idx)
  {
    var rendered := Collected(results);
    k := IndexInTile(tiles, width, height, idx);
    var t := tiles[k];
    PartitionStartsDistinct(tiles, height);
    CollectedLookup(tiles, results, k);
    if k in failed {
      MissingTileKeepsDefault(width, height, tiles, rendered, k, idx);
    } else {
      TilePixelsLength(t.yStart, t.yEnd, width, shade);
      CompleteTileProvides(width, height, tiles, rendered, k, idx);
      RenderedPixel(t, width, shade, idx);
    }
  }

  /**
   * `map_invoke` over the tiles followed by `get()` on each handle, in task
   * order: the tasks in `failed` raise, the others return their rendered tile.
   */
  method RenderTiles(tiles: seq<Tile>, width: nat, shade: (int, int) -> Color, failed: set<nat>)
    returns (results: seq<Option<TileResult>>)
    ensures |results| == |tiles|
    ensures forall j :: 0 <= j < |tiles| ==>
              if j in failed then results[j] == None
              else results[j] == Some(TileResult(tiles[j].yStart,
                                                 TilePixels(tiles[j].yStart, tiles[j].yEnd, width, shade)))
  {
    results := [];
    for i := 0 to |tiles|
      invariant |results| == i
      invariant forall j :: 0 <= j < i ==>
                  if j in failed then results[j] == None
                  else results[j] == Some(TileResult(tiles[j].yStart,
                                                     TilePixels(tiles[j].yStart, tiles[j].yEnd, width, shade)))
    {
      if i in failed {
        results := results + [None];
      } else {
        var r := RenderTileTask(tiles[i].yStart, tiles[i].yEnd, width, shade);
        results := results + [Some(r)];
      }
    }
  }

  /**
   * The whole of `__main__`'s integer logic: partition, render every tile,
   * collect what came back (the tasks in `failed` raise on `get()`), and
   * assemble. The script stops, with no image, when no tile was generated.
   * Every pixel of a tile that came back is the pixel rendered for its row
   * and column; every pixel of a failed tile is the missing-tile colour.
   */
  method RenderImage(numTasks: int, width: nat, height: nat, shade: (int, int) -> Color, failed: set<nat>)
    returns (tiles: seq<Tile>, image: Option<array<Color>>)
    ensures IsPartition(tiles, height) && |tiles| <= ClampTaskCount(numTasks, height)
    ensures image.None? <==> height == 0
    ensures image.Some? ==> image.value.Length == width * height
    ensures image.Some? ==> forall idx :: 0 <= idx < image.value.Length ==>
              exists k :: 0 <= k < |tiles| && tiles[k].yStart <= idx / width < tiles[k].yEnd
                && image.value[idx] == Expected(tiles, k, width, shade, failed, idx)
  {
    tiles := PartitionRows(numTasks, height);
    if tiles == [] {
      return tiles, None;
    }
    var results := RenderTiles(tiles, width, shade, failed);
    var rendered := CollectTiles(results);
    var flatPixelList := AssembleImage(width, height, tiles, rendered);
    forall idx | 0 <= idx < flatPixelList.Length
      ensures exists k :: 0 <= k < |tiles| && tiles[k].yStart <= idx / width < tiles[k].yEnd
                && flatPixelList[idx] == Expected(tiles, k, width, shade, failed, idx)
    {
      var k := PixelOfRenderedImage(width, height, shade, failed, tiles, results, idx);
      assert flatPixelList[idx] == Painted(width, height, tiles, rendered, idx);
      assert flatPixelList[idx] == Expected(tiles, k, width, shade, failed, idx);
    }
    image := Some(flatPixelList);
  }
}
