/** The zone grid of a room (Server/GameServer/Room.cpp): a spatial index that is clamped at
    its border, so that a position outside the grid belongs to the nearest border zone. */
module Zones {
  import opened Grid

  datatype Pos = Pos(x: real, y: real)

  function DistSq(a: Pos, b: Pos): (d: real)
    ensures d >= 0.0
  {
    SquareNonNegative(b.x - a.x);
    SquareNonNegative(b.y - a.y);
    Square(b.x - a.x) + Square(b.y - a.y)
  }

  /** The plain disc test that the zone index is meant to accelerate. */
  predicate Within(a: Pos, b: Pos, radius: real) {
    DistSq(a, b) <= radius * radius
  }

  /** The closed square of half-width `radius` around a position. */
  predicate InSquare(p: Pos, radius: real, q: Pos) {
    p.x - radius <= q.x <= p.x + radius && p.y - radius <= q.y <= p.y + radius
  }

  /** Zone layout as it is loaded, before the constructor of Room replaces unusable values. */
  datatype RoomData = RoomData(origin: Pos, zoneSize: real, viewRadius: real,
                               spawn: Pos, countX: int, countY: int)

  datatype Layout = Layout(origin: Pos, zoneSize: real, viewRadius: real,
                           spawn: Pos, countX: int, countY: int) {
    predicate Valid() {
      zoneSize > 0.0 && viewRadius > 0.0 && countX > 0 && countY > 0
    }

    function ZoneCount(): int { countX * countY }

    function ColumnAt(x: real): (c: int)
      requires Valid()
      ensures 0 <= c < countX
    {
      Clamp(Cell(x - origin.x, zoneSize), 0, countX - 1)
    }

    function RowAt(y: real): (r: int)
      requires Valid()
      ensures 0 <= r < countY
    {
      Clamp(Cell(y - origin.y, zoneSize), 0, countY - 1)
    }

    function WorldToZoneIndex(p: Pos): int
      requires Valid()
    {
      ZoneAt(ColumnAt(p.x), RowAt(p.y))
    }

    function IndexToColumn(index: int): int requires countX > 0 { index % countX }

    function IndexToRow(index: int): int requires countX > 0 { index / countX }

    predicate IsValidZoneIndex(index: int) { 0 <= index < ZoneCount() }

    function ZoneAt(col: int, row: int): int { row * countX + col }

    /** The zones of the rectangle around the viewing disc. */
    ghost predicate InVisibleRect(viewer: Pos, index: int)
      requires Valid()
    {
      exists col, row ::
        && ColumnAt(viewer.x - viewRadius) <= col <= ColumnAt(viewer.x + viewRadius)
        && RowAt(viewer.y - viewRadius) <= row <= RowAt(viewer.y + viewRadius)
        && index == ZoneAt(col, row)
    }

    /** Interest is a plain disc around the viewer. */
    predicate Near(a: Pos, b: Pos) { Within(a, b, viewRadius) }

    /** The two-stage test of the source: the disc first, then the zone rectangle. */
    ghost predicate CanSee(viewer: Pos, target: Pos)
      requires Valid()
    {
      Near(viewer, target) && InVisibleRect(viewer, WorldToZoneIndex(target))
    }
  }

  /** The member initialisers of Room::Room. */
  function FromRoomData(d: RoomData): (l: Layout)
    ensures l.Valid()
    ensures l.origin == d.origin && l.spawn == d.spawn
    ensures if d.zoneSize > 0.0 then l.zoneSize == d.zoneSize else l.zoneSize == 10.0
    ensures if d.viewRadius > 0.0 then l.viewRadius == d.viewRadius
            else l.viewRadius == l.zoneSize * 0.45 && 2.0 * l.viewRadius < l.zoneSize
    ensures if d.countX > 0 then l.countX == d.countX else l.countX == 1
    ensures if d.countY > 0 then l.countY == d.countY else l.countY == 1
    ensures d.countX <= 0 && d.countY <= 0 ==> l.ZoneCount() == 1
  {
    var zoneSize := if d.zoneSize > 0.0 then d.zoneSize else 10.0;
    Layout(d.origin, zoneSize,
           if d.viewRadius > 0.0 then d.viewRadius else zoneSize * 0.45, d.spawn, if d.countX > 0 then d.countX else 1,
           if d.countY > 0 then d.countY else 1)
  }

  /** Row-major numbering: every column/row pair has exactly one index and back. */
  lemma IndexRoundTrip(l: Layout, col: int, row: int)
    requires l.Valid() && 0 <= col < l.countX && 0 <= row < l.countY
    ensures l.IsValidZoneIndex(l.ZoneAt(col, row))
    ensures l.IndexToColumn(l.ZoneAt(col, row)) == col
    ensures l.IndexToRow(l.ZoneAt(col, row)) == row
  {
    IntMulMono(0, row, l.countX);
    IntMulMono(row + 1, l.countY, l.countX);
    DivModUnique(l.ZoneAt(col, row), l.countX, row, col);
  }

  /** ... and every valid index is the number of the pair it decodes to. */
  lemma IndexDecodes(l: Layout, index: int)
    requires l.Valid() && l.IsValidZoneIndex(index)
    ensures l.ZoneAt(l.IndexToColumn(index), l.IndexToRow(index)) == index
    ensures 0 <= l.IndexToColumn(index) < l.countX && 0 <= l.IndexToRow(index) < l.countY
  {
    var row := index / l.countX;
    assert index == row * l.countX + index % l.countX;
    if row >= l.countY {
      IntMulMono(l.countY, row, l.countX);
    } else if row < 0 {
      IntMulMono(row + 1, 0, l.countX);
    }
  }

  // ---------- Zones and coordinates ----------

  /** A coordinate lies in the `k`-th of `count` strips of a width; the outer strips have no outer
      edge. */
  ghost predicate InStrip(x: real, first: real, width: real, count: int, k: int) {
    && 0 <= k < count
    && (k > 0 ==> first + k as real * width <= x)
    && (k < count - 1 ==> x < first + (k + 1) as real * width)
  }

  /** The piece of the world that zone `index` stands for. */
  ghost predicate InRegion(l: Layout, index: int, p: Pos)
    requires l.countX > 0
  {
    && InStrip(p.x, l.origin.x, l.zoneSize, l.countX, index % l.countX)
    && InStrip(p.y, l.origin.y, l.zoneSize, l.countY, index / l.countX)
  }

  lemma ClampedCell(x: real, first: real, width: real, count: int, k: int)
    requires width > 0.0 && count > 0
    ensures Clamp(Cell(x - first, width), 0, count - 1) == k <==> InStrip(x, first, width, count, k)
  {
    QuotientBelow(x - first, width, k as real);
    QuotientBelow(x - first, width, (k + 1) as real);
  }

  /** The zone of a position, from its coordinates. */
  lemma ZoneOfPosition(l: Layout, p: Pos, index: int)
    requires l.Valid()
    ensures l.WorldToZoneIndex(p) == index <==> InRegion(l, index, p)
    ensures InRegion(l, index, p) ==> l.IsValidZoneIndex(index)
  {
    var col, row := index % l.countX, index / l.countX;
    ClampedCell(p.x, l.origin.x, l.zoneSize, l.countX, col);
    ClampedCell(p.y, l.origin.y, l.zoneSize, l.countY, row);
    IndexRoundTrip(l, l.ColumnAt(p.x), l.RowAt(p.y));
    if InRegion(l, index, p) {
      assert index == l.ZoneAt(col, row);
      IndexRoundTrip(l, col, row);
    }
  }

  /** The strips that an interval meets are those from that of its lower end to that of its upper
      end. */
  lemma StripsMet(lo: real, hi: real, first: real, width: real, count: int, k: int)
    requires width > 0.0 && count > 0 && lo <= hi
    ensures (exists x :: lo <= x <= hi && InStrip(x, first, width, count, k)) <==>
            Clamp(Cell(lo - first, width), 0, count - 1) <= k <= Clamp(Cell(hi - first, width), 0, count - 1)
  {
    var a, b := Cell(lo - first, width), Cell(hi - first, width);
    CellMonotone(lo - first, hi - first, width);
    if x :| lo <= x <= hi && InStrip(x, first, width, count, k) {
      ClampedCell(x, first, width, count, k);
      CellMonotone(lo - first, x - first, width);
      CellMonotone(x - first, hi - first, width);
    }
    if Clamp(a, 0, count - 1) <= k <= Clamp(b, 0, count - 1) {
      ClampedCell(lo, first, width, count, k);
      ClampedCell(hi, first, width, count, k);
      if Clamp(a, 0, count - 1) < k < Clamp(b, 0, count - 1) {
        var x := CellTouched(lo - first, hi - first, width, k);
        ClampedCell(x + first, first, width, count, k);
        assert x + first - first == x;
        assert InStrip(x + first, first, width, count, k);
      } else if k == Clamp(a, 0, count - 1) {
        assert InStrip(lo, first, width, count, k);
      } else {
        assert InStrip(hi, first, width, count, k);
      }
    }
  }

  /** The zones listed around a viewer are exactly those whose piece of the world meets the square
      around it. */
  lemma VisibleZonesMeetSquare(l: Layout, viewer: Pos, index: int)
    requires l.Valid()
    ensures index in VisibleZones(l, viewer) <==>
            exists q :: InSquare(viewer, l.viewRadius, q) && InRegion(l, index, q)
  {
    var r, col, row := l.viewRadius, index % l.countX, index / l.countX;
    VisibleZonesExact(l, viewer);
    StripsMet(viewer.x - r, viewer.x + r, l.origin.x, l.zoneSize, l.countX, col);
    StripsMet(viewer.y - r, viewer.y + r, l.origin.y, l.zoneSize, l.countY, row);
    RectDecodes(l, viewer, index);
    hide InStrip, VisibleZones, Layout.InVisibleRect, StrictlyIncreasing;
    if l.InVisibleRect(viewer, index) {
      var x :| viewer.x - r <= x <= viewer.x + r && InStrip(x, l.origin.x, l.zoneSize, l.countX, col);
      var y :| viewer.y - r <= y <= viewer.y + r && InStrip(y, l.origin.y, l.zoneSize, l.countY, row);
      assert InSquare(viewer, r, Pos(x, y)) && InRegion(l, index, Pos(x, y));
    }
    if q :| InSquare(viewer, r, q) && InRegion(l, index, q) {
      ZoneOfPosition(l, q, index);
      assert l.ColumnAt(viewer.x - r) <= col <= l.ColumnAt(viewer.x + r);
      assert l.RowAt(viewer.y - r) <= row <= l.RowAt(viewer.y + r);
    }
  }

  lemma RectDecodes(l: Layout, viewer: Pos, index: int)
    requires l.Valid()
    ensures l.InVisibleRect(viewer, index) <==>
            var r, col, row := l.viewRadius, index % l.countX, index / l.countX;
            && l.IsValidZoneIndex(index)
            && l.ColumnAt(viewer.x - r) <= col <= l.ColumnAt(viewer.x + r)
            && l.RowAt(viewer.y - r) <= row <= l.RowAt(viewer.y + r)
  {
    if l.IsValidZoneIndex(index) {
      IndexDecodes(l, index);
    }
    if l.InVisibleRect(viewer, index) {
      RectIsValid(l, viewer, index);
      var c, d :| l.ColumnAt(viewer.x - l.viewRadius) <= c <= l.ColumnAt(viewer.x + l.viewRadius)
                  && l.RowAt(viewer.y - l.viewRadius) <= d <= l.RowAt(viewer.y + l.viewRadius)
                  && index == l.ZoneAt(c, d);
      IndexRoundTrip(l, c, d);
    }
    hide Layout.ColumnAt, Layout.RowAt, Layout.ZoneAt;
  }

  lemma ListingMeetsSquare(l: Layout, viewer: Pos)
    requires l.Valid()
    ensures StrictlyIncreasing(VisibleZones(l, viewer))
    ensures forall i :: i in VisibleZones(l, viewer) <==>
              exists q :: InSquare(viewer, l.viewRadius, q) && InRegion(l, i, q)
  {
    VisibleZonesExact(l, viewer);
    hide *;
    forall i
      ensures i in VisibleZones(l, viewer) <==> exists q :: InSquare(viewer, l.viewRadius, q) && InRegion(l, i, q)
    {
      VisibleZonesMeetSquare(l, viewer, i);
    }
  }

  lemma WithinBounds(a: Pos, b: Pos, radius: real)
    requires radius >= 0.0 && Within(a, b, radius)
    ensures a.x - radius <= b.x <= a.x + radius
    ensures a.y - radius <= b.y <= a.y + radius
  {
    SquareNonNegative(b.x - a.x);
    SquareNonNegative(b.y - a.y);
    SquareReflects(b.x - a.x, radius);
    SquareReflects(b.y - a.y, radius);
  }

  /** Every target in the viewing disc lies in a zone of the visible rectangle, on the grid
      or outside it: flooring and clamping are both monotone. */
  lemma DiscInsideRect(l: Layout, viewer: Pos, target: Pos)
    requires l.Valid() && l.Near(viewer, target)
    ensures l.InVisibleRect(viewer, l.WorldToZoneIndex(target))
  {
    var r := l.viewRadius;
    WithinBounds(viewer, target, r);
    CellMonotone(viewer.x - r - l.origin.x, target.x - l.origin.x, l.zoneSize);
    CellMonotone(target.x - l.origin.x, viewer.x + r - l.origin.x, l.zoneSize);
    CellMonotone(viewer.y - r - l.origin.y, target.y - l.origin.y, l.zoneSize);
    CellMonotone(target.y - l.origin.y, viewer.y + r - l.origin.y, l.zoneSize);
  }

  /** The zone test never rejects: visibility is the disc, for all points. */
  lemma CanSeeIsDisc(l: Layout, viewer: Pos, target: Pos)
    requires l.Valid()
    ensures l.CanSee(viewer, target) <==> l.Near(viewer, target)
  {
    if l.Near(viewer, target) {
      DiscInsideRect(l, viewer, target);
    }
  }

  ghost predicate StrictlyIncreasing(s: seq<int>) {
    forall i, j :: 0 <= i < j < |s| ==> s[i] < s[j]
  }

  /** `n` consecutive zone indices: part of one row, left to right. */
  ghost function ZoneRun(start: int, n: nat): (s: seq<int>)
    ensures |s| == n
    ensures forall i :: i in s <==> start <= i < start + n
  {
    if n == 0 then [] else ZoneRun(start, n - 1) + [start + n - 1]
  }

  ghost function ZoneRows(l: Layout, bottom: int, top: int, from: int, n: nat): seq<int>
    decreases top - bottom
  {
    if top <= bottom then []
    else ZoneRows(l, bottom, top - 1, from, n) + ZoneRun(l.ZoneAt(from, top - 1), n)
  }

  lemma {:induction false} ZoneRowsMembers(l: Layout, bottom: int, top: int, from: int, n: nat, index: int)
    ensures index in ZoneRows(l, bottom, top, from, n) <==>
            exists col, row :: from <= col < from + n && bottom <= row < top && index == l.ZoneAt(col, row)
    decreases top - bottom
  {
    if bottom < top {
      ZoneRowsMembers(l, bottom, top - 1, from, n, index);
      var start := l.ZoneAt(from, top - 1);
      if start <= index < start + n {
        assert index == l.ZoneAt(from + (index - start), top - 1);
      }
    }
  }

  lemma {:induction false} ZoneRunIncreasing(start: int, n: nat)
    ensures StrictlyIncreasing(ZoneRun(start, n))
  {
    if n > 0 {
      ZoneRunIncreasing(start, n - 1);
      forall i | 0 <= i < n - 1 ensures ZoneRun(start, n)[i] < start + n - 1 {
        assert ZoneRun(start, n)[i] in ZoneRun(start, n - 1);
      }
    }
  }

  lemma {:induction false} ZoneRowsIncreasing(l: Layout, bottom: int, top: int, from: int, n: nat)
    requires 0 <= from && from + n <= l.countX && bottom <= top
    ensures StrictlyIncreasing(ZoneRows(l, bottom, top, from, n))
    ensures forall i :: i in ZoneRows(l, bottom, top, from, n) ==> i < l.ZoneAt(0, top)
    decreases top - bottom
  {
    if bottom < top {
      ZoneRowsIncreasing(l, bottom, top - 1, from, n);
      var below, start := ZoneRows(l, bottom, top - 1, from, n), l.ZoneAt(from, top - 1);
      assert l.ZoneAt(0, top) == start - from + l.countX;
      ZoneRunIncreasing(start, n);
      forall i, j | 0 <= i < j < |below| + n
        ensures (below + ZoneRun(start, n))[i] < (below + ZoneRun(start, n))[j]
      {
        if i < |below| <= j {
          assert below[i] in below && ZoneRun(start, n)[j - |below|] in ZoneRun(start, n);
        }
      }
    }
  }

  /** What CollectVisibleZoneIndices lists, in its order. */
  ghost function VisibleZones(l: Layout, viewer: Pos): seq<int>
    requires l.Valid()
  {
    var r := l.viewRadius;
    CellMonotone(viewer.x - r - l.origin.x, viewer.x + r - l.origin.x, l.zoneSize);
    ZoneRows(l, l.RowAt(viewer.y - r), l.RowAt(viewer.y + r) + 1,
             l.ColumnAt(viewer.x - r), l.ColumnAt(viewer.x + r) - l.ColumnAt(viewer.x - r) + 1)
  }

  /** The listing has the zones of the visible rectangle, each exactly once, in index order. */
  lemma VisibleZonesExact(l: Layout, viewer: Pos)
    requires l.Valid()
    ensures forall i :: i in VisibleZones(l, viewer) <==> l.InVisibleRect(viewer, i)
    ensures forall i :: i in VisibleZones(l, viewer) ==> l.IsValidZoneIndex(i)
    ensures StrictlyIncreasing(VisibleZones(l, viewer))
  {
    VisibleZonesMembers(l, viewer);
    VisibleZonesIncrease(l, viewer);
    forall i | l.InVisibleRect(viewer, i) ensures l.IsValidZoneIndex(i) {
      RectIsValid(l, viewer, i);
    }
    hide *;
  }

  lemma VisibleZonesMembers(l: Layout, viewer: Pos)
    requires l.Valid()
    ensures forall i :: i in VisibleZones(l, viewer) <==> l.InVisibleRect(viewer, i)
  {
    var r := l.viewRadius;
    var minX, maxX := l.ColumnAt(viewer.x - r), l.ColumnAt(viewer.x + r);
    var minY, maxY := l.RowAt(viewer.y - r), l.RowAt(viewer.y + r);
    CellMonotone(viewer.x - r - l.origin.x, viewer.x + r - l.origin.x, l.zoneSize);
    forall i ensures i in VisibleZones(l, viewer) <==> l.InVisibleRect(viewer, i) {
      hide ZoneRows, Layout.ColumnAt, Layout.RowAt, Layout.ZoneAt;
      ZoneRowsMembers(l, minY, maxY + 1, minX, maxX - minX + 1, i);
    }
  }

  lemma VisibleZonesIncrease(l: Layout, viewer: Pos)
    requires l.Valid()
    ensures StrictlyIncreasing(VisibleZones(l, viewer))
  {
    var r := l.viewRadius;
    CellMonotone(viewer.x - r - l.origin.x, viewer.x + r - l.origin.x, l.zoneSize);
    CellMonotone(viewer.y - r - l.origin.y, viewer.y + r - l.origin.y, l.zoneSize);
    ZoneRowsIncreasing(l, l.RowAt(viewer.y - r), l.RowAt(viewer.y + r) + 1,
                       l.ColumnAt(viewer.x - r), l.ColumnAt(viewer.x + r) - l.ColumnAt(viewer.x - r) + 1);
  }

  lemma RectIsValid(l: Layout, viewer: Pos, i: int)
    requires l.Valid() && l.InVisibleRect(viewer, i)
    ensures l.IsValidZoneIndex(i)
  {
    var col, row :| l.ColumnAt(viewer.x - l.viewRadius) <= col <= l.ColumnAt(viewer.x + l.viewRadius)
                    && l.RowAt(viewer.y - l.viewRadius) <= row <= l.RowAt(viewer.y + l.viewRadius)
                    && i == l.ZoneAt(col, row);
    IndexRoundTrip(l, col, row);
  }

  lemma VisibleZonesValid(l: Layout, viewer: Pos)
    requires l.Valid()
    ensures forall i :: i in VisibleZones(l, viewer) ==> 0 <= i < l.ZoneCount()
  {
    VisibleZonesExact(l, viewer);
  }

  lemma VisibleZonesOnce(l: Layout, viewer: Pos)
    requires l.Valid()
    ensures forall i, j ::
              0 <= i < j < |VisibleZones(l, viewer)| ==> VisibleZones(l, viewer)[i] != VisibleZones(l, viewer)[j]
  {
    VisibleZonesExact(l, viewer);
  }

  method CollectVisibleZoneIndices(l: Layout, viewer: Pos) returns (out: seq<int>)
    requires l.Valid()
    ensures out == VisibleZones(l, viewer) && StrictlyIncreasing(out)
    ensures forall i :: i in out <==> exists q :: InSquare(viewer, l.viewRadius, q) && InRegion(l, i, q)
  {
    hide InRegion, InSquare, StrictlyIncreasing;
    ListingMeetsSquare(l, viewer);
    var minX, maxX := l.ColumnAt(viewer.x - l.viewRadius), l.ColumnAt(viewer.x + l.viewRadius);
    var minY, maxY := l.RowAt(viewer.y - l.viewRadius), l.RowAt(viewer.y + l.viewRadius);
    CellMonotone(viewer.x - l.viewRadius - l.origin.x, viewer.x + l.viewRadius - l.origin.x, l.zoneSize);
    CellMonotone(viewer.y - l.viewRadius - l.origin.y, viewer.y + l.viewRadius - l.origin.y, l.zoneSize);
    out := [];
    var y := minY;
    while y <= maxY
      invariant minY <= y <= maxY + 1
      invariant out == ZoneRows(l, minY, y, minX, maxX - minX + 1)
    {
      var row := ZonesOfRow(l, y, minX, maxX);
      out := out + row;
      y := y + 1;
    }
  }

  /** The inner loop of CollectVisibleZoneIndices. */
  method ZonesOfRow(l: Layout, y: int, minX: int, maxX: int) returns (row: seq<int>)
    requires minX <= maxX
    ensures row == ZoneRun(l.ZoneAt(minX, y), maxX - minX + 1)
  {
    row := [];
    var x := minX;
    while x <= maxX
      invariant minX <= x <= maxX + 1
      invariant row == ZoneRun(l.ZoneAt(minX, y), x - minX)
    {
      row := row + [l.ZoneAt(x, y)];
      x := x + 1;
    }
  }
}
