// What a clear tile is, on coordinates alone, and that only such tiles are proposed,
// kept and materialized.
module ClearTiles {
  import opened Labels
  import opened Reviews
  import opened HardNegatives
  import opened Revalidation
  import opened Materialization
  import M = Merge

  // The point lies strictly inside the box.
  predicate Inside(x: real, y: real, xyxy: seq<real>) {
    |xyxy| == 4 && xyxy[0] < x < xyxy[2] && xyxy[1] < y < xyxy[3]
  }

  // The point lies strictly inside the part of the tile that the photo fills.
  predicate InTile(x: real, y: real, im: Image, tile: int, left: int, top: int) {
    && left as real < x && x < (left + tile) as real && x < im.width as real
    && top as real < y && y < (top + tile) as real && y < im.height as real
  }

  // No object and no ignore region of the photo has a point in the tile.
  ghost predicate Untouched(im: Image, tile: int, left: int, top: int) {
    && (forall a, x, y | a in im.objects && Inside(x, y, a.xyxy) :: !InTile(x, y, im, tile, left, top))
    && (forall r, x, y | r in im.ignoreRegions && Inside(x, y, r.xyxy) :: !InTile(x, y, im, tile, left, top))
  }

  predicate InBox(x: real, y: real, b: M.Box) {
    b.x0 < x < b.x1 && b.y0 < y < b.y1
  }

  lemma ProductIsPositive(w: real, h: real)
    requires w >= 0.0 && h >= 0.0
    ensures w * h > 0.0 <==> w > 0.0 && h > 0.0
  {
  }

  // Two boxes overlap exactly when some point is strictly inside both.
  lemma OverlapHasAPoint(a: M.Box, b: M.Box)
    ensures M.Intersection(a, b) > 0.0 <==> exists x, y :: InBox(x, y, a) && InBox(x, y, b)
  {
    var left, right := M.MaxReal(a.x0, b.x0), M.MinReal(a.x1, b.x1);
    var top, bottom := M.MaxReal(a.y0, b.y0), M.MinReal(a.y1, b.y1);
    ProductIsPositive(M.MaxReal(0.0, right - left), M.MaxReal(0.0, bottom - top));
    if left < right && top < bottom {
      var x, y := (left + right) / 2.0, (top + bottom) / 2.0;
      assert InBox(x, y, a) && InBox(x, y, b);
    }
    if x, y :| InBox(x, y, a) && InBox(x, y, b) {
      assert left < x < right && top < y < bottom;
    }
  }

  lemma TilePoints(im: Image, tile: int, left: int, top: int, x: real, y: real)
    ensures InBox(x, y, TileRect((left, top), tile, im)) <==> InTile(x, y, im, tile, left, top)
  {
  }

  lemma BoxPoints(xyxy: seq<real>, x: real, y: real)
    ensures InBox(x, y, BoxOf(xyxy)) <==> Inside(x, y, xyxy)
  {
  }

  lemma BoxTouchesTile(im: Image, tile: int, left: int, top: int, xyxy: seq<real>, rect: M.Box, box: M.Box)
    requires rect == TileRect((left, top), tile, im) && box == BoxOf(xyxy)
    ensures M.Intersection(rect, box) > 0.0 <==> exists x, y :: Inside(x, y, xyxy) && InTile(x, y, im, tile, left, top)
  {
    OverlapHasAPoint(rect, box);
    if x, y :| InBox(x, y, rect) && InBox(x, y, box) {
      TilePoints(im, tile, left, top, x, y);
      BoxPoints(xyxy, x, y);
      assert Inside(x, y, xyxy) && InTile(x, y, im, tile, left, top);
    }
    if x, y :| Inside(x, y, xyxy) && InTile(x, y, im, tile, left, top) {
      TilePoints(im, tile, left, top, x, y);
      BoxPoints(xyxy, x, y);
      assert InBox(x, y, rect) && InBox(x, y, box);
    }
  }

  // The code's test of a tile is exactly that.
  lemma ClearMeansUntouched(im: Image, tile: int, left: int, top: int)
    ensures Clear(im, tile, (left, top)) <==> Untouched(im, tile, left, top)
  {
    forall a | a in im.objects
      ensures M.Intersection(TileRect((left, top), tile, im), BoxOf(a.xyxy)) > 0.0
              <==> exists x, y :: Inside(x, y, a.xyxy) && InTile(x, y, im, tile, left, top)
    {
      BoxTouchesTile(im, tile, left, top, a.xyxy, TileRect((left, top), tile, im), BoxOf(a.xyxy));
    }
    forall r | r in im.ignoreRegions
      ensures M.Intersection(TileRect((left, top), tile, im), BoxOf(r.xyxy)) > 0.0
              <==> exists x, y :: Inside(x, y, r.xyxy) && InTile(x, y, im, tile, left, top)
    {
      BoxTouchesTile(im, tile, left, top, r.xyxy, TileRect((left, top), tile, im), BoxOf(r.xyxy));
    }
  }

  // ---- Proposed, kept and materialized tiles ----

  // The entry names a certified photo of a training role, and a whole tile of the
  // given size that no annotation of that photo reaches into.
  ghost predicate NamesUntouchedTile(e: Entry, images: seq<Image>, tile: int) {
    exists i, left, top ::
      && 0 <= i < |images| && images[i].sourceSha256 == e.sourceSha256 && images[i].source == e.source
      && images[i].reviewState == "certified"
      && (images[i].role == "training_candidate" || images[i].role == "hard_negative_pool")
      && e.tileXyxy == [left, top, left + tile, top + tile] && Untouched(images[i], tile, left, top)
  }

  lemma SoundNamesUntouched(e: Entry, images: seq<Image>, tile: int)
    requires ValidEntry(e, tile) && SomewhereSound(e, images, tile)
    ensures NamesUntouchedTile(e, images, tile)
  {
    var i :| 0 <= i < |images| && StillSound(e, images[i], tile);
    var left, top := e.tileXyxy[0], e.tileXyxy[1];
    ClearMeansUntouched(images[i], tile, left, top);
    assert e.tileXyxy == [left, top, left + tile, top + tile];
  }

  // Every entry of a review of the inputs, whatever the decisions in it, names such a tile,
  lemma AcceptedTilesAreUntouched(r: Review, labels: Document, b: Baseline, setup: Setup, e: Entry)
    requires IsReviewOf(r, labels, b, setup) && e in r.entries
    ensures NamesUntouchedTile(e, labels.images, r.tilePx)
  {
    RecheckIsRedundant(r, labels, b, setup);
    var k :| 0 <= k < |r.entries| && r.entries[k] == e;
    SoundNamesUntouched(r.entries[k], labels.images, r.tilePx);
  }

  // so every proposed one does,
  lemma ProposedTilesAreUntouched(labels: Document, b: Baseline, setup: Setup, r: Review, e: Entry)
    requires IsProposal(labels, b, setup, r) && e in r.entries
    ensures NamesUntouchedTile(e, labels.images, r.tilePx)
  {
    ProposalIsSound(labels, b, setup, r);
    AcceptedTilesAreUntouched(r, labels, b, setup, e);
  }

  // and every materialized one.
  lemma EmittedTilesAreUntouched(
    r: Review, labels: Document, b: Baseline, setup: Setup, crops: Crops, backed: bool, e: Entry)
    requires IsMaterializable(r, labels, b, setup, crops, backed) && e in Unique(r.entries, crops)
    ensures NamesUntouchedTile(e, labels.images, r.tilePx)
  {
    IsSelected(r.entries, crops, e);
    AcceptedTilesAreUntouched(r, labels, b, setup, e);
  }
}
