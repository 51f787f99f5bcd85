/** Grid geometry of the chunk world: the cell an observer stands in, the world
    position a chunk is placed at, and the two view tests of ChunkManager
    (the Euclidean keep test and the square fill window). */
module Grid {

  /** World units per chunk edge (ChunkManager.ChunkSize). */
  const ChunkSize: int := 6

  /** A grid cell (Vector2Int); `z` is the world z axis, stored in the
      vector's y component by the source. */
  datatype Cell = Cell(x: int, z: int)

  /** A world position (Vector3) with integer coordinates. */
  datatype WorldPos = WorldPos(x: int, y: int, z: int)

  /** The cell holding a world position: each horizontal coordinate divided
      by the chunk size and rounded toward negative infinity; y is ignored. */
  function GetCurrentChunkPosition(playerPosition: WorldPos): (cell: Cell)
    ensures ChunkSize * cell.x <= playerPosition.x < ChunkSize * (cell.x + 1)
    ensures ChunkSize * cell.z <= playerPosition.z < ChunkSize * (cell.z + 1)
  {
    Cell(playerPosition.x / ChunkSize, playerPosition.z / ChunkSize)
  }

  /** The floor bounds determine the cell: no other cell contains the position. */
  lemma {:induction false} ChunkPositionIsUnique(playerPosition: WorldPos, cell: Cell)
    requires ChunkSize * cell.x <= playerPosition.x < ChunkSize * (cell.x + 1)
    requires ChunkSize * cell.z <= playerPosition.z < ChunkSize * (cell.z + 1)
    ensures GetCurrentChunkPosition(playerPosition) == cell
  {
    var found := GetCurrentChunkPosition(playerPosition);
    FloorIsUnique(playerPosition.x, cell.x, found.x);
    FloorIsUnique(playerPosition.z, cell.z, found.z);
  }

  lemma FloorIsUnique(v: int, a: int, b: int)
    requires ChunkSize * a <= v < ChunkSize * (a + 1)
    requires ChunkSize * b <= v < ChunkSize * (b + 1)
    ensures a == b
  {
  }

  /** Negative coordinates round down, not toward zero. */
  lemma NegativePositionsRoundDown()
    ensures GetCurrentChunkPosition(WorldPos(7, 0, -1)) == Cell(1, -1)
    ensures GetCurrentChunkPosition(WorldPos(-6, 3, -7)) == Cell(-1, -2)
  {
  }

  /** The world position a chunk of `chunkPosition` is placed at: its corner
      at height 0, which lies in that very cell again. */
  function CalculateWorldPosition(chunkPosition: Cell): (position: WorldPos)
    ensures position.y == 0
    ensures GetCurrentChunkPosition(position) == chunkPosition
    ensures position.x % ChunkSize == 0 && position.z % ChunkSize == 0
  {
    WorldPos(chunkPosition.x * ChunkSize, 0, chunkPosition.z * ChunkSize)
  }

  /** Distinct cells are placed at distinct world positions. */
  lemma {:induction false} WorldPositionIsInjective(a: Cell, b: Cell)
    requires CalculateWorldPosition(a) == CalculateWorldPosition(b)
    ensures a == b
  {
    assert GetCurrentChunkPosition(CalculateWorldPosition(a)) == a;
    assert GetCurrentChunkPosition(CalculateWorldPosition(b)) == b;
  }

  function Square(d: int): nat
  {
    d * d
  }

  /** `Vector2Int.Distance(cell, center) > viewDistance`, decided exactly on
      squared integer distances; a negative view distance is exceeded by
      every distance, including 0. */
  predicate OutOfView(cell: Cell, center: Cell, viewDistance: int)
  {
    viewDistance < 0
    || Square(cell.x - center.x) + Square(cell.z - center.z) > viewDistance * viewDistance
  }

  /** The square fill window: both offsets within [-viewDistance, viewDistance]. */
  predicate InWindow(cell: Cell, center: Cell, viewDistance: int)
  {
    -viewDistance <= cell.x - center.x <= viewDistance
    && -viewDistance <= cell.z - center.z <= viewDistance
  }

  lemma {:induction false} SquareGrows(m: int, n: int)
    requires 0 <= m < n
    ensures m * m < n * n
  {
    assert m * m <= m * n by {
      MultiplyMonotone(m, m, n);
    }
    assert m * n < n * n by {
      assert n * n - m * n == (n - m) * n;
      MultiplyPositive(n - m, n);
    }
  }

  lemma MultiplyMonotone(k: int, a: int, b: int)
    requires 0 <= k && a <= b
    ensures k * a <= k * b
  {
  }

  lemma MultiplyPositive(a: int, b: int)
    requires 0 < a && 0 < b
    ensures 0 < a * b
  {
  }

  /** An offset beyond the view distance already puts the cell out of view. */
  lemma {:induction false} FarOffsetIsOutOfView(d: int, e: int, viewDistance: int)
    requires 0 <= viewDistance < (if d < 0 then -d else d)
    ensures Square(d) + Square(e) > viewDistance * viewDistance
  {
    SquareGrows(viewDistance, if d < 0 then -d else d);
  }

  /** The Euclidean keep disc lies inside the square fill window: a cell the
      eviction pass keeps is one the fill pass would enumerate. */
  lemma {:induction false} KeptCellsLieInWindow(cell: Cell, center: Cell, viewDistance: int)
    requires !OutOfView(cell, center, viewDistance)
    ensures InWindow(cell, center, viewDistance)
  {
    var dx, dz := cell.x - center.x, cell.z - center.z;
    if !(-viewDistance <= dx <= viewDistance) {
      FarOffsetIsOutOfView(dx, dz, viewDistance);
    }
    if !(-viewDistance <= dz <= viewDistance) {
      FarOffsetIsOutOfView(dz, dx, viewDistance);
    }
  }

  /** The converse fails: with view distance 1 the diagonal neighbour is in
      the fill window but out of view, so the windows are asymmetric. */
  lemma DiagonalNeighbourIsFilledButOutOfView()
    ensures InWindow(Cell(1, 1), Cell(0, 0), 1)
    ensures OutOfView(Cell(1, 1), Cell(0, 0), 1)
  {
  }
}
