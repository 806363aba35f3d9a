/** Tile collision (Server/GameServer/MapCollision.cpp and its client twin): the tile loop of
    IsWalkableWithRadius and the continuous question it decides. */
module MapCollisions {
  import opened Grid
  import opened Zones

  datatype MapData = MapData(origin: Pos, tileSize: real, width: nat, height: nat, cells: string)

  const WALL := '0'

  /** A loaded map as a value: what the fields of MapCollision say. */
  datatype Tiles = Tiles(origin: Pos, tileSize: real, width: nat, height: nat, blocked: seq<bool>) {
    predicate Valid() { tileSize > 0.0 && |blocked| == width * height }

    predicate IsLoaded() { width > 0 && height > 0 }

    predicate IsTileWalkable(tx: int, ty: int)
      requires Valid()
    {
      && 0 <= tx < width
      && 0 <= ty < height
      && (IntMulMono(0, ty, width); IntMulMono(ty + 1, height, width); !blocked[ty * width + tx])
    }

    function TileX(x: real): int requires Valid() { Cell(x - origin.x, tileSize) }
    function TileY(y: real): int requires Valid() { Cell(y - origin.y, tileSize) }

    function WorldWidth(): real { width as real * tileSize }
    function WorldHeight(): real { height as real * tileSize }
    function Right(): real { origin.x + WorldWidth() }
    function Top(): real { origin.y + WorldHeight() }

    predicate IsWalkable(p: Pos)
      requires Valid()
    {
      IsLoaded() && IsTileWalkable(TileX(p.x), TileY(p.y))
    }

    /** The map is too narrow for a square of this half-width. */
    predicate Narrow(radius: real) {
      origin.x + radius > Right() - radius || origin.y + radius > Top() - radius
    }

    predicate IsInsideWorldBounds(p: Pos, radius: real)
      requires Valid()
    {
      IsLoaded() &&
      if Narrow(radius) then IsWalkable(p)
      else origin.x + radius <= p.x <= Right() - radius && origin.y + radius <= p.y <= Top() - radius
    }

    function MinTileX(p: Pos, radius: real): int
      requires Valid()
    {
      var t := TileX(p.x - radius); if t < 0 then 0 else t
    }
    function MaxTileX(p: Pos, radius: real): int
      requires Valid()
    {
      var t := TileX(p.x + radius); if t > width - 1 then width - 1 else t
    }
    function MinTileY(p: Pos, radius: real): int
      requires Valid()
    {
      var t := TileY(p.y - radius); if t < 0 then 0 else t
    }
    function MaxTileY(p: Pos, radius: real): int
      requires Valid()
    {
      var t := TileY(p.y + radius); if t > height - 1 then height - 1 else t
    }

    ghost predicate AllTilesWalkable(fromX: int, toX: int, fromY: int, toY: int)
      requires Valid()
    {
      forall tx, ty :: fromX <= tx <= toX && fromY <= ty <= toY ==> IsTileWalkable(tx, ty)
    }

    ghost predicate IsWalkableWithRadius(p: Pos, radius: real)
      requires Valid()
    {
      && IsInsideWorldBounds(p, radius)
      && if radius <= 0.0 then IsWalkable(p) else
         && MinTileX(p, radius) <= MaxTileX(p, radius)
         && MinTileY(p, radius) <= MaxTileY(p, radius)
         && AllTilesWalkable(MinTileX(p, radius), MaxTileX(p, radius), MinTileY(p, radius), MaxTileY(p, radius))
    }

    ghost function ResolveMove(from: Pos, to: Pos, radius: real): Pos
      requires Valid()
    {
      if !IsLoaded() then from
      else if IsWalkableWithRadius(to, radius) then to
      else if IsWalkableWithRadius(Pos(to.x, from.y), radius) then Pos(to.x, from.y)
      else if IsWalkableWithRadius(Pos(from.x, to.y), radius) then Pos(from.x, to.y)
      else from
    }

    predicate InHalfOpenMap(q: Pos) {
      origin.x <= q.x < Right() && origin.y <= q.y < Top()
    }

    predicate SquareInClosedMap(p: Pos, radius: real) {
      origin.x <= p.x - radius && p.x + radius <= Right() && origin.y <= p.y - radius && p.y + radius <= Top()
    }
  }

  // ---------- Tiles and coordinates ----------

  /** Whether a tile covers a point: tiles are squares, in rows upwards from the origin, and a tile
      does not contain its right and its upper edge. */
  predicate OnTile(origin: Pos, tileSize: real, column: int, row: int, q: Pos) {
    && origin.x + column as real * tileSize <= q.x < origin.x + (column + 1) as real * tileSize
    && origin.y + row as real * tileSize <= q.y < origin.y + (row + 1) as real * tileSize
  }

  /** The tile of the `k`-th flag covers the point. */
  predicate Covers(m: Tiles, k: nat, q: Pos)
    requires m.width > 0
  {
    OnTile(m.origin, m.tileSize, k % m.width, k / m.width, q)
  }

  /** The point is on some tile of the map, and that is no wall. */
  ghost predicate Open(m: Tiles, q: Pos) {
    m.width > 0 && exists k :: 0 <= k < |m.blocked| && Covers(m, k, q) && !m.blocked[k]
  }

  /** Nothing that a wall covers lies in the square. */
  ghost predicate NoWallIn(m: Tiles, p: Pos, radius: real)
    requires m.width > 0
  {
    forall q, k :: InSquare(p, radius, q) && 0 <= k < |m.blocked| && Covers(m, k, q) ==> !m.blocked[k]
  }

  /** The square is inside the map, borders included; on a map too narrow for it, its centre is
      open. No wall reaches into it. */
  ghost predicate Free(m: Tiles, p: Pos, radius: real)
    requires m.width > 0
  {
    var w, h := m.width as real * m.tileSize, m.height as real * m.tileSize;
    && (if 2.0 * radius > w || 2.0 * radius > h then Open(m, p)
        else m.origin.x <= p.x - radius && p.x + radius <= m.origin.x + w
             && m.origin.y <= p.y - radius && p.y + radius <= m.origin.y + h)
    && NoWallIn(m, p, radius)
  }

  /** The point is on a cell of the loaded text that is not marked as a wall, or on one that the text
      is too short for; cells are read row by row from the origin, and are 1 wide if the size is
      unusable. */
  ghost predicate OpenInText(data: MapData, q: Pos) {
    var size := if data.tileSize > 0.0 then data.tileSize else 1.0;
    data.width > 0 &&
    exists k :: 0 <= k < data.width * data.height && OnTile(data.origin, size, k % data.width, k / data.width, q)
                && (k < |data.cells| ==> data.cells[k] != '0')
  }

  lemma TextDecides(data: MapData, m: Tiles)
    requires m.Valid() && m.origin == data.origin && m.width == data.width && m.height == data.height
    requires m.tileSize == if data.tileSize > 0.0 then data.tileSize else 1.0
    requires forall i :: 0 <= i < |m.blocked| ==> (m.blocked[i] <==> i < |data.cells| && data.cells[i] == '0')
    ensures forall q :: Open(m, q) <==> OpenInText(data, q)
  {
    hide OnTile;
    forall q ensures Open(m, q) <==> OpenInText(data, q) {
      if Open(m, q) {
        var k :| 0 <= k < |m.blocked| && Covers(m, k, q) && !m.blocked[k];
        assert OnTile(data.origin, m.tileSize, k % data.width, k / data.width, q);
      }
      if OpenInText(data, q) {
        var k :| 0 <= k < data.width * data.height && (k < |data.cells| ==> data.cells[k] != '0')
                 && OnTile(data.origin, m.tileSize, k % data.width, k / data.width, q);
        assert Covers(m, k, q);
      }
    }
  }

  lemma CoversTile(m: Tiles, k: nat, q: Pos)
    requires m.Valid() && m.width > 0
    ensures Covers(m, k, q) <==> m.TileX(q.x) == k % m.width && m.TileY(q.y) == k / m.width
  {
    CellInterval(q.x - m.origin.x, m.tileSize, k % m.width);
    CellInterval(q.y - m.origin.y, m.tileSize, k / m.width);
  }

  lemma TileNumber(m: Tiles, k: nat)
    requires m.Valid() && k < |m.blocked|
    ensures m.width > 0 && 0 <= k % m.width < m.width && 0 <= k / m.width < m.height
    ensures m.IsTileWalkable(k % m.width, k / m.width) <==> !m.blocked[k]
  {
    var row := k / m.width;
    assert k == row * m.width + k % m.width;
    if row >= m.height {
      IntMulMono(m.height, row, m.width);
    }
  }

  lemma NumberOfTile(m: Tiles, column: int, row: int) returns (k: nat)
    requires m.Valid() && 0 <= column < m.width && 0 <= row < m.height
    ensures k < |m.blocked| && k % m.width == column && k / m.width == row
  {
    IntMulMono(0, row, m.width);
    IntMulMono(row + 1, m.height, m.width);
    k := row * m.width + column;
    DivModUnique(k, m.width, row, column);
  }

  /** Which flag decides about a point, from its coordinates. */
  lemma WalkableIsOpen(m: Tiles, q: Pos)
    requires m.Valid()
    ensures m.IsWalkable(q) <==> Open(m, q)
    ensures m.InHalfOpenMap(q) <==> m.width > 0 && exists k :: 0 <= k < |m.blocked| && Covers(m, k, q)
    ensures forall k :: 0 <= k < |m.blocked| && m.width > 0 && Covers(m, k, q) ==> (m.IsWalkable(q) <==> !m.blocked[k])
  {
    InMapIffTileInRange(m, q);
    forall k | 0 <= k < |m.blocked|
      ensures m.width > 0 && 0 <= k % m.width < m.width && 0 <= k / m.width < m.height
      ensures Covers(m, k, q) <==> m.TileX(q.x) == k % m.width && m.TileY(q.y) == k / m.width
      ensures m.IsTileWalkable(k % m.width, k / m.width) <==> !m.blocked[k]
    {
      TileNumber(m, k);
      CoversTile(m, k, q);
    }
    hide Covers, Tiles.TileX, Tiles.TileY, Tiles.IsTileWalkable;
    if m.InHalfOpenMap(q) {
      var k := NumberOfTile(m, m.TileX(q.x), m.TileY(q.y));
      assert Covers(m, k, q);
    } else if m.IsLoaded() {
      OffTheMap(m, q);
    }
  }

  lemma OffTheMap(m: Tiles, q: Pos)
    requires m.Valid() && m.IsLoaded() && !m.InHalfOpenMap(q)
    ensures !m.IsWalkable(q)
  {
    InMapIffTileInRange(m, q);
  }

  ghost predicate SquareClear(m: Tiles, p: Pos, radius: real)
    requires m.Valid()
  {
    forall q: Pos :: InSquare(p, radius, q) && m.InHalfOpenMap(q) ==> m.IsWalkable(q)
  }

  /** A point is inside the half-open map exactly when its tile exists. */
  lemma InMapIffTileInRange(m: Tiles, q: Pos)
    requires m.Valid()
    ensures m.InHalfOpenMap(q) <==> 0 <= m.TileX(q.x) < m.width && 0 <= m.TileY(q.y) < m.height
  {
    var x, y := q.x - m.origin.x, q.y - m.origin.y;
    CoordinateInRange(x, m.tileSize, m.width);
    CoordinateInRange(y, m.tileSize, m.height);
  }

  lemma CoordinateInRange(x: real, size: real, n: nat)
    requires size > 0.0
    ensures 0.0 <= x < n as real * size <==> 0 <= Cell(x, size) < n
  {
    QuotientBelow(x, size, 0.0);
    QuotientBelow(x, size, n as real);
  }

  /** The loop over tiles asks about every point of the square that the map contains. */
  lemma TilesDecideSquare(m: Tiles, p: Pos, radius: real)
    requires m.Valid() && m.IsLoaded() && radius > 0.0
    ensures m.AllTilesWalkable(m.MinTileX(p, radius), m.MaxTileX(p, radius), m.MinTileY(p, radius),
                               m.MaxTileY(p, radius))
            <==> SquareClear(m, p, radius)
  {
    var x0, x1, y0, y1 := m.MinTileX(p, radius), m.MaxTileX(p, radius), m.MinTileY(p, radius), m.MaxTileY(p, radius);
    if m.AllTilesWalkable(x0, x1, y0, y1) {
      forall q: Pos | InSquare(p, radius, q) && m.InHalfOpenMap(q)
        ensures m.IsWalkable(q)
      {
        InMapIffTileInRange(m, q);
        CellMonotone(p.x - radius - m.origin.x, q.x - m.origin.x, m.tileSize);
        CellMonotone(q.x - m.origin.x, p.x + radius - m.origin.x, m.tileSize);
        CellMonotone(p.y - radius - m.origin.y, q.y - m.origin.y, m.tileSize);
        CellMonotone(q.y - m.origin.y, p.y + radius - m.origin.y, m.tileSize);
        assert x0 <= m.TileX(q.x) <= x1 && y0 <= m.TileY(q.y) <= y1;
      }
    }
    if SquareClear(m, p, radius) {
      forall tx, ty | x0 <= tx <= x1 && y0 <= ty <= y1
        ensures m.IsTileWalkable(tx, ty)
      {
        var x := CellTouched(p.x - radius - m.origin.x, p.x + radius - m.origin.x, m.tileSize, tx);
        var y := CellTouched(p.y - radius - m.origin.y, p.y + radius - m.origin.y, m.tileSize, ty);
        var q := Pos(x + m.origin.x, y + m.origin.y);
        assert q.x - m.origin.x == x && q.y - m.origin.y == y;
        InMapIffTileInRange(m, q);
        assert InSquare(p, radius, q) && m.IsWalkable(q);
      }
    }
  }

  /** Exactly when the check succeeds, on every map. On a map too narrow for the square the
      border test degrades to "the centre is walkable", otherwise it is containment. */
  lemma WalkableWithRadiusMeaning(m: Tiles, p: Pos, radius: real)
    requires m.Valid() && m.IsLoaded() && radius > 0.0
    ensures m.IsWalkableWithRadius(p, radius) <==>
            (if m.Narrow(radius) then m.IsWalkable(p) else m.SquareInClosedMap(p, radius)) && SquareClear(m, p, radius)
  {
    TilesDecideSquare(m, p, radius);
    if m.IsInsideWorldBounds(p, radius) {
      var q := if m.Narrow(radius) then p else InnerPoint(m, p, radius);
      assert InSquare(p, radius, q);
      InMapIffTileInRange(m, q);
      CellMonotone(p.x - radius - m.origin.x, q.x - m.origin.x, m.tileSize);
      CellMonotone(q.x - m.origin.x, p.x + radius - m.origin.x, m.tileSize);
      CellMonotone(p.y - radius - m.origin.y, q.y - m.origin.y, m.tileSize);
      CellMonotone(q.y - m.origin.y, p.y + radius - m.origin.y, m.tileSize);
    }
  }

  /** The same from coordinates alone. */
  lemma WalkableIsFree(m: Tiles, p: Pos, radius: real)
    requires m.Valid() && m.IsLoaded() && radius > 0.0
    ensures m.IsWalkableWithRadius(p, radius) <==> Free(m, p, radius)
  {
    WalkableWithRadiusMeaning(m, p, radius);
    ClearIsNoWall(m, p, radius);
    WalkableIsOpen(m, p);
    hide Tiles.IsWalkableWithRadius, Tiles.IsWalkable, SquareClear, NoWallIn, Open;
    MapEdges(m, p, radius);
    hide *;
    assert m.IsLoaded();
    FreeParts(m, p, radius);
  }

  lemma FreeParts(m: Tiles, p: Pos, radius: real)
    requires m.width > 0
    ensures var w, h := m.width as real * m.tileSize, m.height as real * m.tileSize;
            Free(m, p, radius) <==>
            (if 2.0 * radius > w || 2.0 * radius > h then Open(m, p)
             else m.origin.x <= p.x - radius && p.x + radius <= m.origin.x + w
                  && m.origin.y <= p.y - radius && p.y + radius <= m.origin.y + h)
            && NoWallIn(m, p, radius)
  {}

  lemma MapEdges(m: Tiles, p: Pos, radius: real)
    ensures var w, h := m.width as real * m.tileSize, m.height as real * m.tileSize;
            && (m.Narrow(radius) <==> 2.0 * radius > w || 2.0 * radius > h)
            && (m.SquareInClosedMap(p, radius) <==>
                && m.origin.x <= p.x - radius && p.x + radius <= m.origin.x + w
                && m.origin.y <= p.y - radius && p.y + radius <= m.origin.y + h)
  {
    assert m.Right() == m.origin.x + m.WorldWidth() && m.Top() == m.origin.y + m.WorldHeight();
    EdgesAre(m);
    hide *;
  }

  lemma EdgesAre(m: Tiles)
    ensures m.WorldWidth() == m.width as real * m.tileSize && m.WorldHeight() == m.height as real * m.tileSize
  {}

  lemma ClearIsNoWall(m: Tiles, p: Pos, radius: real)
    requires m.Valid() && m.IsLoaded()
    ensures SquareClear(m, p, radius) <==> NoWallIn(m, p, radius)
  {
    forall q: Pos
      ensures m.InHalfOpenMap(q) <==> exists k :: 0 <= k < |m.blocked| && Covers(m, k, q)
      ensures forall k :: 0 <= k < |m.blocked| && Covers(m, k, q) ==> (m.IsWalkable(q) <==> !m.blocked[k])
    {
      WalkableIsOpen(m, q);
    }
    hide Covers, Tiles.IsWalkable, Tiles.InHalfOpenMap, InSquare;
  }

  ghost function InnerPoint(m: Tiles, p: Pos, radius: real): (q: Pos)
    requires radius > 0.0 && m.SquareInClosedMap(p, radius)
    ensures InSquare(p, radius, q) && m.InHalfOpenMap(q)
  {
    Pos(p.x - radius, p.y - radius)
  }

  /** On a map at least as wide and high as the square: the square lies in the closed map and
      every point of it inside the half-open map is walkable. */
  lemma WalkableWithRadiusOnWideMap(m: Tiles, p: Pos, radius: real)
    requires m.Valid() && m.IsLoaded() && radius > 0.0
    requires 2.0 * radius <= m.WorldWidth() && 2.0 * radius <= m.WorldHeight()
    ensures m.IsWalkableWithRadius(p, radius) <==> m.SquareInClosedMap(p, radius) && SquareClear(m, p, radius)
  {
    var w, h := m.WorldWidth(), m.WorldHeight();
    assert !m.Narrow(radius);
    WalkableWithRadiusMeaning(m, p, radius);
  }

  /** On a map too narrow for the square, the check accepts squares that stick out of the map:
      every one whose centre is on an all-open map. */
  lemma NarrowMapAcceptsOverhang(m: Tiles, p: Pos, radius: real)
    requires m.Valid() && m.IsLoaded() && radius > 0.0 && m.Narrow(radius)
    requires forall i :: 0 <= i < |m.blocked| ==> !m.blocked[i]
    requires m.InHalfOpenMap(p)
    ensures m.IsWalkableWithRadius(p, radius) && !m.SquareInClosedMap(p, radius)
  {
    NarrowNeverContains(m, p, radius);
    forall q: Pos | m.InHalfOpenMap(q) ensures m.IsWalkable(q) {
      OpenMapIsWalkable(m, q);
    }
    WalkableWithRadiusMeaning(m, p, radius);
  }

  lemma NarrowNeverContains(m: Tiles, p: Pos, radius: real)
    requires m.Narrow(radius)
    ensures !m.SquareInClosedMap(p, radius)
  {}

  lemma OpenMapIsWalkable(m: Tiles, q: Pos)
    requires m.Valid() && m.IsLoaded() && m.InHalfOpenMap(q)
    requires forall i :: 0 <= i < |m.blocked| ==> !m.blocked[i]
    ensures m.IsWalkable(q)
  {
    InMapIffTileInRange(m, q);
    hide Tiles.InHalfOpenMap, Tiles.TileX, Tiles.TileY;
    OpenTile(m, m.TileX(q.x), m.TileY(q.y));
  }

  lemma OpenTile(m: Tiles, tx: int, ty: int)
    requires m.Valid() && 0 <= tx < m.width && 0 <= ty < m.height
    requires forall i :: 0 <= i < |m.blocked| ==> !m.blocked[i]
    ensures m.IsTileWalkable(tx, ty)
  {
    IntMulMono(0, ty, m.width);
    IntMulMono(ty + 1, m.height, m.width);
    assert 0 <= ty * m.width + tx < |m.blocked|;
  }

  lemma ResolveMoveKeepsWalkable(m: Tiles, from: Pos, to: Pos, radius: real)
    requires m.Valid() && m.IsWalkableWithRadius(from, radius)
    ensures m.IsWalkableWithRadius(m.ResolveMove(from, to, radius), radius)
  {}

  /** What becomes of a move, from coordinates alone: it is taken whole if the target is free, else
      along x only, else along y only, and not at all if none of the three is free. */
  ghost predicate Resolved(m: Tiles, from: Pos, to: Pos, radius: real, out: Pos)
    requires m.width > 0
  {
    var alongX, alongY := Pos(to.x, from.y), Pos(from.x, to.y);
    && (Free(m, to, radius) ==> out == to)
    && (!Free(m, to, radius) && Free(m, alongX, radius) ==> out == alongX)
    && (!Free(m, to, radius) && !Free(m, alongX, radius) && Free(m, alongY, radius) ==> out == alongY)
    && (!Free(m, to, radius) && !Free(m, alongX, radius) && !Free(m, alongY, radius) ==> out == from)
  }

  lemma ResolveMoveMeaning(m: Tiles, from: Pos, to: Pos, radius: real)
    requires m.Valid() && radius > 0.0
    ensures if m.width > 0 && m.height > 0 then Resolved(m, from, to, radius, m.ResolveMove(from, to, radius))
            else m.ResolveMove(from, to, radius) == from
  {
    if m.IsLoaded() {
      WalkableIsFree(m, to, radius);
      WalkableIsFree(m, Pos(to.x, from.y), radius);
      WalkableIsFree(m, Pos(from.x, to.y), radius);
      hide Free, Tiles.IsWalkableWithRadius;
    }
  }

  /** A second resolution from the same start changes nothing: what the client resolved, the
      server accepts. */
  lemma ResolveMoveIdempotent(m: Tiles, from: Pos, to: Pos, radius: real)
    requires m.Valid()
    ensures m.ResolveMove(from, m.ResolveMove(from, to, radius), radius) == m.ResolveMove(from, to, radius)
  {
    assert Pos(from.x, from.y) == from;
  }

  /** Sliding along an axis never moves further than the request. */
  lemma ResolveMoveNoFurther(m: Tiles, from: Pos, to: Pos, radius: real)
    requires m.Valid()
    ensures DistSq(from, m.ResolveMove(from, to, radius)) <= DistSq(from, to)
  {
    SquareNonNegative(to.x - from.x);
    SquareNonNegative(to.y - from.y);
  }

  class MapCollision {
    const origin: Pos
    const tileSize: real
    const width: nat
    const height: nat
    const blocked: array<bool>

    ghost predicate Valid()
      reads this
    {
      tileSize > 0.0 && blocked.Length == width * height
    }

    ghost function View(): (m: Tiles)
      requires Valid()
      reads this, blocked
      ensures m.Valid()
    {
      Tiles(origin, tileSize, width, height, blocked[..])
    }

    predicate IsLoaded() { width > 0 && height > 0 }

    /** Cells that the text does not cover stay open. */
    constructor FromData(data: MapData)
      ensures Valid() && fresh(blocked)
      ensures View().origin == data.origin && View().width == data.width && View().height == data.height
      ensures View().tileSize == if data.tileSize > 0.0 then data.tileSize else 1.0
      ensures forall i :: 0 <= i < data.width * data.height ==>
                (View().blocked[i] <==> i < |data.cells| && data.cells[i] == '0')
      ensures forall q :: Open(View(), q) <==> OpenInText(data, q)
    {
      origin := data.origin;
      tileSize := if data.tileSize > 0.0 then data.tileSize else 1.0;
      width := data.width;
      height := data.height;
      blocked := new bool[data.width * data.height](_ => false);
      new;
      var i := 0;
      while i < blocked.Length && i < |data.cells|
        invariant 0 <= i <= blocked.Length && i <= |data.cells|
        invariant forall j :: 0 <= j < i ==> (blocked[j] <==> data.cells[j] == WALL)
        invariant forall j :: i <= j < blocked.Length ==> !blocked[j]
      {
        blocked[i] := data.cells[i] == WALL;
        i := i + 1;
      }
      TextDecides(data, View());
      hide Open, OpenInText;
    }

    method IsTileWalkable(tx: int, ty: int) returns (r: bool)
      requires Valid()
      ensures r == View().IsTileWalkable(tx, ty)
    {
      if tx < 0 || ty < 0 || tx >= width || ty >= height {
        return false;
      }
      IntMulMono(0, ty, width);
      IntMulMono(ty + 1, height, width);
      return !blocked[ty * width + tx];
    }

    method IsWalkable(p: Pos) returns (r: bool)
      requires Valid()
      ensures r == View().IsWalkable(p) == Open(View(), p)
    {
      WalkableIsOpen(View(), p);
      hide Open;
      if width == 0 || height == 0 {
        return false;
      }
      r := IsTileWalkable(Cell(p.x - origin.x, tileSize), Cell(p.y - origin.y, tileSize));
    }

    method IsInsideWorldBounds(p: Pos, radius: real) returns (r: bool)
      requires Valid()
      ensures r == View().IsInsideWorldBounds(p, radius)
    {
      if width == 0 || height == 0 {
        return false;
      }
      ghost var m := View();
      var right, top := origin.x + width as real * tileSize, origin.y + height as real * tileSize;
      assert right == m.Right() && top == m.Top();
      if origin.x + radius > right - radius || origin.y + radius > top - radius {
        assert m.Narrow(radius);
        r := IsWalkable(p);
      } else {
        assert !m.Narrow(radius);
        r := origin.x + radius <= p.x <= right - radius && origin.y + radius <= p.y <= top - radius;
      }
    }

    method IsWalkableWithRadius(p: Pos, radius: real) returns (r: bool)
      requires Valid()
      ensures r == View().IsWalkableWithRadius(p, radius)
      ensures radius > 0.0 && width > 0 && height > 0 ==> r == Free(View(), p, radius)
    {
      if radius > 0.0 && width > 0 && height > 0 {
        WalkableIsFree(View(), p, radius);
      }
      hide Free;
      ghost var m := View();
      var inside := IsInsideWorldBounds(p, radius);
      if !inside {
        return false;
      }
      if radius <= 0.0 {
        r := IsWalkable(p);
        return;
      }
      var minTileX, maxTileX := Cell(p.x - radius - origin.x, tileSize), Cell(p.x + radius - origin.x, tileSize);
      var minTileY, maxTileY := Cell(p.y - radius - origin.y, tileSize), Cell(p.y + radius - origin.y, tileSize);
      minTileX, minTileY := if minTileX < 0 then 0 else minTileX, if minTileY < 0 then 0 else minTileY;
      maxTileX := if maxTileX > width - 1 then width - 1 else maxTileX;
      maxTileY := if maxTileY > height - 1 then height - 1 else maxTileY;
      if minTileX > maxTileX || minTileY > maxTileY {
        return false;
      }
      r := TilesWalkable(minTileX, maxTileX, minTileY, maxTileY);
    }

    /** The two loops of IsWalkableWithRadius. */
    method TilesWalkable(minTileX: int, maxTileX: int, minTileY: int, maxTileY: int) returns (r: bool)
      requires Valid() && minTileX <= maxTileX && minTileY <= maxTileY
      ensures r == View().AllTilesWalkable(minTileX, maxTileX, minTileY, maxTileY)
    {
      ghost var m := View();
      var ty := minTileY;
      while ty <= maxTileY
        invariant minTileY <= ty <= maxTileY + 1
        invariant m.AllTilesWalkable(minTileX, maxTileX, minTileY, ty - 1)
      {
        var tx := minTileX;
        while tx <= maxTileX
          invariant minTileX <= tx <= maxTileX + 1
          invariant m.AllTilesWalkable(minTileX, tx - 1, ty, ty)
        {
          var walkable := IsTileWalkable(tx, ty);
          if !walkable {
            return false;
          }
          tx := tx + 1;
        }
        ty := ty + 1;
      }
      return true;
    }

    method ResolveMove(from: Pos, to: Pos, radius: real) returns (out: Pos)
      requires Valid()
      ensures out == View().ResolveMove(from, to, radius)
      ensures radius > 0.0 && width > 0 && height > 0 ==> Resolved(View(), from, to, radius, out)
      ensures width == 0 || height == 0 ==> out == from
    {
      if radius > 0.0 {
        ResolveMoveMeaning(View(), from, to, radius);
      }
      hide Resolved;
      if width == 0 || height == 0 {
        return from;
      }
      var free := IsWalkableWithRadius(to, radius);
      if free {
        return to;
      }
      free := IsWalkableWithRadius(Pos(to.x, from.y), radius);
      if free {
        return Pos(to.x, from.y);
      }
      free := IsWalkableWithRadius(Pos(from.x, to.y), radius);
      if free {
        return Pos(from.x, to.y);
      }
      return from;
    }
  }
}
