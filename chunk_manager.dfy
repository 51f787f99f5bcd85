/** The streaming side of the world (ChunkManager): which cells are active,
    the variant and decoration record remembered for every visited cell, and
    the reconciliation run when the observer enters a new cell. */
module Streaming {
  import opened Grid
  import opened ChunkPools

  /** The record taken on a cell's first visit: one entry per spawn point,
      100 where a decoration is present and 0 where none is. `decorated` is
      the read-back of the decoration roll made when the chunk was activated. */
  function SpawnRecord(slotCount: nat, position: Cell, decorated: (Cell, int) -> bool): seq<int>
  {
    seq(slotCount, i => if decorated(position, i) then 100 else 0)
  }

  /** The spawn chances of a chunk after the record is replayed onto it: every
      slot but the last takes the recorded value, the last keeps its own. */
  function Replayed(spawnChances: seq<int>, record: seq<int>): seq<int>
    requires |spawnChances| - 1 <= |record|
  {
    seq(|spawnChances|, i requires 0 <= i < |spawnChances| =>
      if i < |spawnChances| - 1 then record[i] else spawnChances[i])
  }

  /** Replay keeps the slot count, restores every slot but the last from the
      record and never writes the last one (nothing at all with at most one slot). */
  lemma ReplayRestoresAllButLast(spawnChances: seq<int>, record: seq<int>)
    requires |spawnChances| - 1 <= |record|
    ensures |Replayed(spawnChances, record)| == |spawnChances|
    ensures forall i | 0 <= i < |spawnChances| - 1 :: Replayed(spawnChances, record)[i] == record[i]
    ensures |spawnChances| > 0 ==>
      Replayed(spawnChances, record)[|spawnChances| - 1] == spawnChances[|spawnChances| - 1]
    ensures |spawnChances| <= 1 ==> Replayed(spawnChances, record) == spawnChances
  {
  }

  /** Replaying the same record twice gives what replaying it once gave. */
  lemma ReplayIsIdempotent(spawnChances: seq<int>, record: seq<int>)
    requires |spawnChances| - 1 <= |record|
    ensures Replayed(Replayed(spawnChances, record), record) == Replayed(spawnChances, record)
  {
  }

  /** What a chunk held in an earlier life does not matter for the replayed
      slots: two chunks of one variant agree after replay except in the last slot. */
  lemma {:induction false} ReplayForgetsEarlierLife(first: seq<int>, second: seq<int>, record: seq<int>)
    requires |first| == |second| && |first| - 1 <= |record|
    ensures |Replayed(first, record)| == |Replayed(second, record)|
    ensures forall i | 0 <= i < |first| - 1 :: Replayed(first, record)[i] == Replayed(second, record)[i]
  {
  }

  /** Replaying a first-visit record restores the decoration pattern of every
      slot but the last: present exactly where the roll placed a decoration. */
  lemma ReplayOfRecordRestoresPattern(spawnChances: seq<int>, position: Cell, decorated: (Cell, int) -> bool)
    ensures forall i | 0 <= i < |spawnChances| - 1 ::
      (Replayed(spawnChances, SpawnRecord(|spawnChances|, position, decorated))[i] == 100) == decorated(position, i)
  {
  }

  /** The cells of `activeChunks` farther than `viewDistance` from `current`,
      each once (the source collects them while enumerating the dictionary). */
  method CollectChunksToRemove(activeChunks: map<Cell, Chunk>, current: Cell, viewDistance: int)
    returns (chunksToRemove: seq<Cell>)
    ensures forall c :: c in chunksToRemove <==> c in activeChunks && OutOfView(c, current, viewDistance)
    ensures Distinct(chunksToRemove)
  {
    chunksToRemove := [];
    var remaining := activeChunks.Keys;
    while remaining != {}
      invariant remaining <= activeChunks.Keys
      invariant forall c :: c in chunksToRemove <==>
        c in activeChunks && c !in remaining && OutOfView(c, current, viewDistance)
      invariant Distinct(chunksToRemove)
      decreases remaining
    {
      var chunk :| chunk in remaining;
      if OutOfView(chunk, current, viewDistance) {
        chunksToRemove := chunksToRemove + [chunk];
      }
      remaining := remaining - {chunk};
    }
  }

  /** The streaming tables agree with the registry: every remembered cell has
      a variant in range and a record of that variant's slot count; every
      active cell is remembered and holds a known chunk of its variant that is
      not queued; and no chunk is active at two cells. */
  ghost predicate Tracked(chunkPools: seq<ChunkPrefabPool>, queued: set<Chunk>, allChunks: set<Chunk>,
                          chunksData: map<Cell, int>, chunksSpawnPoint: map<Cell, seq<int>>,
                          activeChunks: map<Cell, Chunk>)
  {
    && chunksSpawnPoint.Keys == chunksData.Keys
    && activeChunks.Keys <= chunksData.Keys
    && (forall c {:trigger chunksData[c]} | c in chunksData ::
          0 <= chunksData[c] < |chunkPools|
          && |chunksSpawnPoint[c]| == |chunkPools[chunksData[c]].prefab.spawnChances|)
    && (forall c {:trigger activeChunks[c]} | c in activeChunks ::
          && activeChunks[c] in allChunks
          && activeChunks[c] !in queued
          && activeChunks[c].variant == chunksData[c])
    // No chunk is active at two cells: each active chunk's cell is recovered from the chunk.
    && (forall c {:trigger activeChunks[c]} | c in activeChunks :: CellOf(activeChunks, activeChunks[c]) == c)
  }

  /** The cell at which an active chunk stands. */
  ghost function CellOf(activeChunks: map<Cell, Chunk>, chunk: Chunk): Cell
    requires chunk in activeChunks.Values
  {
    var c :| c in activeChunks && activeChunks[c] == chunk; c
  }

  /** Remembering a new cell with an in-range variant and a record of the
      right length keeps the tables consistent. */
  lemma RecordingKeepsTracked(chunkPools: seq<ChunkPrefabPool>, queued: set<Chunk>, allChunks: set<Chunk>,
                              chunksData: map<Cell, int>, chunksSpawnPoint: map<Cell, seq<int>>,
                              activeChunks: map<Cell, Chunk>,
                              position: Cell, chunkIndex: int, record: seq<int>,
                              chunksData': map<Cell, int>, chunksSpawnPoint': map<Cell, seq<int>>)
    requires Tracked(chunkPools, queued, allChunks, chunksData, chunksSpawnPoint, activeChunks)
    requires position !in chunksData
    requires 0 <= chunkIndex < |chunkPools| && |record| == |chunkPools[chunkIndex].prefab.spawnChances|
    requires chunksData' == chunksData[position := chunkIndex] && chunksSpawnPoint' == chunksSpawnPoint[position := record]
    ensures Tracked(chunkPools, queued, allChunks, chunksData', chunksSpawnPoint', activeChunks)
  {
  }

  /** Evicting an active cell keeps the tables consistent once its chunk is
      queued again. */
  lemma EvictionKeepsTracked(chunkPools: seq<ChunkPrefabPool>, queued: set<Chunk>, allChunks: set<Chunk>,
                             chunksData: map<Cell, int>, chunksSpawnPoint: map<Cell, seq<int>>,
                             activeChunks: map<Cell, Chunk>, position: Cell,
                             queued': set<Chunk>, activeChunks': map<Cell, Chunk>)
    requires Tracked(chunkPools, queued, allChunks, chunksData, chunksSpawnPoint, activeChunks)
    requires position in activeChunks
    requires queued' == queued + {activeChunks[position]}
    requires activeChunks' == activeChunks - {position}
    ensures Tracked(chunkPools, queued', allChunks, chunksData, chunksSpawnPoint, activeChunks')
  {
  }

  /** A checkout from the registry keeps the tables consistent: the queued
      set only shrinks and the known set only grows. The chunk handed out was
      queued or new, so it is no active cell's chunk. */
  lemma PoolCheckoutKeepsTracked(chunkPools: seq<ChunkPrefabPool>, queued: set<Chunk>, allChunks: set<Chunk>,
                                 chunksData: map<Cell, int>, chunksSpawnPoint: map<Cell, seq<int>>,
                                 activeChunks: map<Cell, Chunk>, chunk: Chunk,
                                 queued': set<Chunk>, allChunks': set<Chunk>)
    requires Tracked(chunkPools, queued, allChunks, chunksData, chunksSpawnPoint, activeChunks)
    requires chunk in queued || chunk !in allChunks
    requires queued' <= queued && allChunks <= allChunks'
    ensures Tracked(chunkPools, queued', allChunks', chunksData, chunksSpawnPoint, activeChunks)
    ensures forall c | c in activeChunks :: activeChunks[c] != chunk
  {
  }

  /** Entering a known, unqueued chunk of a remembered, inactive cell's
      variant as that cell's chunk keeps the tables consistent, provided no
      other cell holds it. */
  lemma EntryKeepsTracked(chunkPools: seq<ChunkPrefabPool>, queued: set<Chunk>, allChunks: set<Chunk>,
                          chunksData: map<Cell, int>, chunksSpawnPoint: map<Cell, seq<int>>,
                          activeChunks: map<Cell, Chunk>, position: Cell, chunk: Chunk,
                          activeChunks': map<Cell, Chunk>)
    requires Tracked(chunkPools, queued, allChunks, chunksData, chunksSpawnPoint, activeChunks)
    requires position in chunksData && position !in activeChunks
    requires chunk in allChunks && chunk !in queued && chunk.variant == chunksData[position]
    requires forall c | c in activeChunks :: activeChunks[c] != chunk
    requires activeChunks' == activeChunks[position := chunk]
    ensures Tracked(chunkPools, queued, allChunks, chunksData, chunksSpawnPoint, activeChunks')
  {
  }

  /** The tables `chunksData'` and `chunksSpawnPoint'` extend `chunksData`
      and `chunksSpawnPoint`: no entry is changed or removed, and the cells
      added are the active cells not remembered before. */
  ghost predicate TablesExtend(chunksData: map<Cell, int>, chunksSpawnPoint: map<Cell, seq<int>>,
                               chunksData': map<Cell, int>, chunksSpawnPoint': map<Cell, seq<int>>,
                               activeChunks': map<Cell, Chunk>)
  {
    && (forall c {:trigger c in chunksData} | c in chunksData :: c in chunksData' && chunksData'[c] == chunksData[c])
    && (forall c {:trigger c in chunksSpawnPoint} | c in chunksSpawnPoint ::
          c in chunksSpawnPoint' && chunksSpawnPoint'[c] == chunksSpawnPoint[c])
    && chunksData'.Keys == chunksData.Keys + activeChunks'.Keys
  }

  /** Extension composes, as long as the active cells only grow. */
  lemma TablesExtendTransitive(chunksData: map<Cell, int>, chunksSpawnPoint: map<Cell, seq<int>>,
                               chunksData': map<Cell, int>, chunksSpawnPoint': map<Cell, seq<int>>,
                               activeChunks': map<Cell, Chunk>,
                               chunksData'': map<Cell, int>, chunksSpawnPoint'': map<Cell, seq<int>>,
                               activeChunks'': map<Cell, Chunk>)
    requires TablesExtend(chunksData, chunksSpawnPoint, chunksData', chunksSpawnPoint', activeChunks')
    requires TablesExtend(chunksData', chunksSpawnPoint', chunksData'', chunksSpawnPoint'', activeChunks'')
    requires activeChunks'.Keys <= activeChunks''.Keys
    ensures TablesExtend(chunksData, chunksSpawnPoint, chunksData'', chunksSpawnPoint'', activeChunks'')
  {
  }

  class ChunkManager {
    const viewDistance: int
    const chunkPoolManager: ChunkPoolManager
    /** Variant id of every cell ever visited; never removed. */
    var chunksData: map<Cell, int>
    /** Decoration record of every cell ever visited; never removed. */
    var chunksSpawnPoint: map<Cell, seq<int>>
    var activeChunks: map<Cell, Chunk>
    var playerChunkPosition: Cell

    /** The registry is consistent, has at least one variant, the streaming
        tables agree with it, and every active chunk is in place. */
    ghost predicate Valid()
      reads this, chunkPoolManager, chunkPoolManager.allChunks
    {
      var registry := chunkPoolManager;
      && registry.Valid()
      && |registry.chunkPools| > 0
      && Tracked(registry.chunkPools, registry.queued, registry.allChunks,
                 chunksData, chunksSpawnPoint, activeChunks)
      && (forall c {:trigger activeChunks[c]} | c in activeChunks ::
            && activeChunks[c].active
            && activeChunks[c].position == CalculateWorldPosition(c)
            && activeChunks[c].rotation == Identity)
    }

    /** Start: nothing visited yet, and the last cell is (1, 1). At least one
        variant must be registered, or no cell could ever be filled. */
    constructor (viewDistance: int, chunkPoolManager: ChunkPoolManager)
      requires chunkPoolManager.Valid() && chunkPoolManager.allChunks == {}
      requires |chunkPoolManager.chunkPools| > 0
      ensures Valid()
      ensures this.viewDistance == viewDistance && this.chunkPoolManager == chunkPoolManager
      ensures chunksData == map[] && chunksSpawnPoint == map[] && activeChunks == map[]
      ensures playerChunkPosition == Cell(1, 1)
    {
      this.viewDistance := viewDistance;
      this.chunkPoolManager := chunkPoolManager;
      chunksData := map[];
      chunksSpawnPoint := map[];
      activeChunks := map[];
      playerChunkPosition := Cell(1, 1);
    }

    /** Remembered variants and records are never changed or removed, and the
        cells remembered anew are exactly the cells made active. */
    twostate predicate TablesGrown()
      reads this
    {
      TablesExtend(old(chunksData), old(chunksSpawnPoint), chunksData, chunksSpawnPoint, activeChunks)
    }

    /** What a reconciliation around `current` leaves behind: the active cells
        are exactly the square window; cells kept by the Euclidean test keep
        their chunk object; and the tables only grew, by the cells made active. */
    twostate predicate Reconciled(current: Cell)
      reads this
    {
      && playerChunkPosition == current
      && (forall c :: c in activeChunks <==> InWindow(c, current, viewDistance))
      && (forall c | c in old(activeChunks) && !OutOfView(c, current, viewDistance) ::
            c in activeChunks && activeChunks[c] == old(activeChunks[c]))
      && TablesGrown()
    }

    /** One frame: reconcile when the observer's cell differs from the last
        one, otherwise change nothing. */
    method Update(playerPosition: WorldPos, decorated: (Cell, int) -> bool)
      requires Valid()
      modifies this, chunkPoolManager, chunkPoolManager.Repr
      ensures Valid()
      ensures GetCurrentChunkPosition(playerPosition) == old(playerChunkPosition) ==>
        unchanged(this, chunkPoolManager) && unchanged(old(chunkPoolManager.Repr))
      ensures GetCurrentChunkPosition(playerPosition) != old(playerChunkPosition) ==>
        Reconciled(GetCurrentChunkPosition(playerPosition))
      ensures fresh(chunkPoolManager.Repr - old(chunkPoolManager.Repr))
    {
      var currentChunkPosition := GetCurrentChunkPosition(playerPosition);
      if currentChunkPosition != playerChunkPosition {
        CheckChunksToUpdate(currentChunkPosition, decorated);
      }
    }

    /** Reconciliation: evict every active cell out of Euclidean view, then
        fill every missing cell of the square window, column by column, then
        remember the cell. */
    method CheckChunksToUpdate(currentChunkPosition: Cell, decorated: (Cell, int) -> bool)
      requires Valid()
      modifies this, chunkPoolManager, chunkPoolManager.Repr
      ensures Valid()
      ensures Reconciled(currentChunkPosition)
      ensures fresh(chunkPoolManager.Repr - old(chunkPoolManager.Repr))
    {
      var chunksToRemove := CollectChunksToRemove(activeChunks, currentChunkPosition, viewDistance);

      EvictCells(chunksToRemove);

      ghost var kept := activeChunks;
      forall c | c in kept ensures InWindow(c, currentChunkPosition, viewDistance) {
        KeptCellsLieInWindow(c, currentChunkPosition, viewDistance);
      }

      FillWindow(currentChunkPosition, decorated);

      playerChunkPosition := currentChunkPosition;
    }

    /** The eviction loop: every listed cell is handed to DeactivateOrStoreChunk
        in turn; the other active cells keep their chunks. */
    method EvictCells(chunksToRemove: seq<Cell>)
      requires Valid()
      modifies this, chunkPoolManager, chunkPoolManager.allChunks
      ensures Valid()
      ensures playerChunkPosition == old(playerChunkPosition)
      ensures forall c {:trigger c in activeChunks} :: c in activeChunks <==> c in old(activeChunks) && c !in chunksToRemove
      ensures forall c | c in activeChunks :: activeChunks[c] == old(activeChunks[c])
      ensures chunksData == old(chunksData) && chunksSpawnPoint == old(chunksSpawnPoint)
      ensures chunkPoolManager.allChunks == old(chunkPoolManager.allChunks) && chunkPoolManager.Repr == old(chunkPoolManager.Repr)
      ensures forall ch | ch in old(chunkPoolManager.allChunks) :: unchanged(ch.spawnChances)
    {
      var n := 0;
      while n < |chunksToRemove|
        invariant 0 <= n <= |chunksToRemove|
        invariant Valid()
        invariant playerChunkPosition == old(playerChunkPosition)
        invariant forall c {:trigger c in activeChunks} :: c in activeChunks <==> c in old(activeChunks) && c !in chunksToRemove[..n]
        invariant forall c | c in activeChunks :: activeChunks[c] == old(activeChunks[c])
        invariant chunksData == old(chunksData) && chunksSpawnPoint == old(chunksSpawnPoint)
        invariant chunkPoolManager.allChunks == old(chunkPoolManager.allChunks) && chunkPoolManager.Repr == old(chunkPoolManager.Repr)
      {
        DeactivateOrStoreChunk(chunksToRemove[n]);
        n := n + 1;
      }
      assert chunksToRemove[..n] == chunksToRemove;
    }

    /** The outer fill loop: every cell of the square window that is not
        active is activated, column by column; cells already active keep
        their chunks. */
    method FillWindow(currentChunkPosition: Cell, decorated: (Cell, int) -> bool)
      requires Valid()
      modifies this, chunkPoolManager, chunkPoolManager.Repr
      ensures Valid()
      ensures playerChunkPosition == old(playerChunkPosition)
      ensures forall c {:trigger c in activeChunks} :: c in activeChunks <==>
        c in old(activeChunks) || InWindow(c, currentChunkPosition, viewDistance)
      ensures forall c | c in old(activeChunks) :: activeChunks[c] == old(activeChunks[c])
      ensures TablesGrown()
      ensures fresh(chunkPoolManager.Repr - old(chunkPoolManager.Repr))
    {
      var x := -viewDistance;
      while x <= viewDistance
        invariant viewDistance >= 0 ==> -viewDistance <= x <= viewDistance + 1
        invariant Valid()
        invariant playerChunkPosition == old(playerChunkPosition)
        invariant forall c {:trigger c in activeChunks} :: c in activeChunks <==>
          c in old(activeChunks) || (InWindow(c, currentChunkPosition, viewDistance) && c.x - currentChunkPosition.x < x)
        invariant forall c | c in old(activeChunks) :: activeChunks[c] == old(activeChunks[c])
        invariant TablesGrown()
        invariant fresh(chunkPoolManager.Repr - old(chunkPoolManager.Repr))
      {
        FillColumn(currentChunkPosition, x, decorated);
        x := x + 1;
      }
    }

    /** The inner fill loop, for the cells at offset `x` across: every cell of
        that column of the window that is not active is activated. */
    method FillColumn(currentChunkPosition: Cell, x: int, decorated: (Cell, int) -> bool)
      requires Valid()
      requires -viewDistance <= x <= viewDistance
      modifies this, chunkPoolManager, chunkPoolManager.Repr
      ensures Valid()
      ensures playerChunkPosition == old(playerChunkPosition)
      ensures forall c {:trigger c in activeChunks} :: c in activeChunks <==>
        c in old(activeChunks)
        || (c.x - currentChunkPosition.x == x && -viewDistance <= c.z - currentChunkPosition.z <= viewDistance)
      ensures forall c | c in old(activeChunks) :: activeChunks[c] == old(activeChunks[c])
      ensures TablesGrown()
      ensures fresh(chunkPoolManager.Repr - old(chunkPoolManager.Repr))
    {
      var z := -viewDistance;
      while z <= viewDistance
        invariant -viewDistance <= z <= viewDistance + 1
        invariant Valid()
        invariant playerChunkPosition == old(playerChunkPosition)
        invariant forall c {:trigger c in activeChunks} :: c in activeChunks <==>
          c in old(activeChunks)
          || (c.x - currentChunkPosition.x == x && -viewDistance <= c.z - currentChunkPosition.z < z)
        invariant forall c | c in old(activeChunks) :: activeChunks[c] == old(activeChunks[c])
        invariant TablesGrown()
        invariant fresh(chunkPoolManager.Repr - old(chunkPoolManager.Repr))
      {
        var chunkPosition := Cell(x + currentChunkPosition.x, z + currentChunkPosition.z);
        if chunkPosition !in activeChunks {
          ghost var data, spawnPoints, active := chunksData, chunksSpawnPoint, activeChunks;
          CreateOrActivateChunk(chunkPosition, decorated);
          TablesExtendTransitive(old(chunksData), old(chunksSpawnPoint), data, spawnPoints, active,
                                 chunksData, chunksSpawnPoint, activeChunks);
        }
        z := z + 1;
      }
    }

    /** Activation of a cell: a cell already active is only re-activated (the
        reconciliation never asks for one); a remembered cell is refilled by
        ActivateStoredChunk, a new one by CreateNewChunk. */
    method CreateOrActivateChunk(position: Cell, decorated: (Cell, int) -> bool)
      requires Valid()
      modifies this, chunkPoolManager, chunkPoolManager.Repr
      ensures Valid()
      ensures playerChunkPosition == old(playerChunkPosition)
      ensures position in activeChunks && activeChunks == old(activeChunks)[position := activeChunks[position]]
      ensures activeChunks[position].active
      ensures TablesGrown()
      ensures fresh(chunkPoolManager.Repr - old(chunkPoolManager.Repr))
    {
      if position in activeChunks {
        activeChunks[position].active := true;
      } else if position in chunksData {
        ActivateStoredChunk(position);
      } else {
        CreateNewChunk(position, decorated);
      }
    }

    /** A remembered cell: a chunk of its remembered variant is checked out to
        the cell's world position and entered as the cell's chunk, the cell's
        record is replayed onto it, and it is activated. */
    method ActivateStoredChunk(position: Cell)
      requires Valid()
      requires position in chunksData && position !in activeChunks
      modifies this, chunkPoolManager, chunkPoolManager.Repr
      ensures Valid()
      ensures playerChunkPosition == old(playerChunkPosition)
      ensures chunksData == old(chunksData) && chunksSpawnPoint == old(chunksSpawnPoint)
      ensures position in activeChunks && activeChunks == old(activeChunks)[position := activeChunks[position]]
      ensures fresh(chunkPoolManager.Repr - old(chunkPoolManager.Repr))
      ensures var chunk := activeChunks[position];
        && chunk.active && chunk.variant == chunksData[position]
        && chunk.position == CalculateWorldPosition(position) && chunk.rotation == Identity
        && CheckedOut(old(chunkPoolManager.poolDictionary), chunkPoolManager.poolDictionary, chunksData[position], chunk)
        && (!fresh(chunk) ==> chunk.spawnChances[..] == Replayed(old(chunk.spawnChances[..]), chunksSpawnPoint[position]))
        && (fresh(chunk) ==>
              chunk.spawnChances[..] ==
              Replayed(chunkPoolManager.chunkPools[chunksData[position]].prefab.spawnChances, chunksSpawnPoint[position]))
    {
      var registry := chunkPoolManager;
      var chunkIndex := chunksData[position];
      var chunk := registry.GetChunkFromPool(chunkIndex, CalculateWorldPosition(position), Identity);
      activeChunks := activeChunks[position := chunk];
      var listSpawnPoint := chunksSpawnPoint[position];
      RestoreChunk(chunk, listSpawnPoint);
      PoolCheckoutKeepsTracked(registry.chunkPools, old(registry.queued), old(registry.allChunks),
                               chunksData, chunksSpawnPoint, old(activeChunks), chunk, registry.queued, registry.allChunks);
      EntryKeepsTracked(registry.chunkPools, registry.queued, registry.allChunks,
                        chunksData, chunksSpawnPoint, old(activeChunks), position, chunk, activeChunks);
    }

    /** A new cell: a variant is drawn in [0, count), a chunk of it is checked
        out to the cell's world position and activated, its decoration pattern
        is read back, and the cell's variant, record and chunk are entered. */
    method CreateNewChunk(position: Cell, decorated: (Cell, int) -> bool)
      requires Valid()
      requires position !in chunksData
      modifies this, chunkPoolManager, chunkPoolManager.Repr
      ensures Valid()
      ensures playerChunkPosition == old(playerChunkPosition)
      ensures position in activeChunks && activeChunks == old(activeChunks)[position := activeChunks[position]]
      ensures position in chunksData && chunksData == old(chunksData)[position := chunksData[position]]
      ensures chunksSpawnPoint == old(chunksSpawnPoint)[position := chunksSpawnPoint[position]]
      ensures fresh(chunkPoolManager.Repr - old(chunkPoolManager.Repr))
      ensures var chunk := activeChunks[position];
        && chunk.active && chunk.variant == chunksData[position]
        && 0 <= chunksData[position] < |chunkPoolManager.chunkPools|
        && chunk.position == CalculateWorldPosition(position) && chunk.rotation == Identity
        && CheckedOut(old(chunkPoolManager.poolDictionary), chunkPoolManager.poolDictionary, chunksData[position], chunk)
        && chunksSpawnPoint[position] == SpawnRecord(chunk.spawnChances.Length, position, decorated)
        && (!fresh(chunk) ==> chunk.spawnChances[..] == old(chunk.spawnChances[..]))
        && (fresh(chunk) ==> chunk.spawnChances[..] == chunkPoolManager.chunkPools[chunksData[position]].prefab.spawnChances)
    {
      var registry := chunkPoolManager;
      var prefabIndex :| 0 <= prefabIndex < |registry.chunkPools|;
      var chunkIndex := prefabIndex;
      var chunk := registry.GetChunkFromPool(chunkIndex, CalculateWorldPosition(position), Identity);
      chunk.active := true;
      PoolCheckoutKeepsTracked(registry.chunkPools, old(registry.queued), old(registry.allChunks),
                               chunksData, chunksSpawnPoint, activeChunks, chunk, registry.queued, registry.allChunks);
      RecordFirstVisit(position, chunkIndex, chunk, decorated);
    }

    /** The end of a first visit: the decoration pattern of the checked-out
        chunk is read back, and the cell's variant, record and chunk are
        entered. */
    method RecordFirstVisit(position: Cell, chunkIndex: int, chunk: Chunk, decorated: (Cell, int) -> bool)
      requires Valid()
      requires position !in chunksData
      requires chunk in chunkPoolManager.allChunks && chunk !in chunkPoolManager.queued
      requires chunk.variant == chunkIndex
      requires chunk.active && chunk.position == CalculateWorldPosition(position) && chunk.rotation == Identity
      requires forall c | c in activeChunks :: activeChunks[c] != chunk
      modifies this
      ensures Valid()
      ensures playerChunkPosition == old(playerChunkPosition)
      ensures chunksData == old(chunksData)[position := chunkIndex]
      ensures chunksSpawnPoint == old(chunksSpawnPoint)[position := SpawnRecord(chunk.spawnChances.Length, position, decorated)]
      ensures activeChunks == old(activeChunks)[position := chunk]
    {
      var registry := chunkPoolManager;
      var listSpawnPoint := CaptureSpawnPoints(chunk, position, decorated);
      chunksData := chunksData[position := chunkIndex];
      chunksSpawnPoint := chunksSpawnPoint[position := listSpawnPoint];
      activeChunks := activeChunks[position := chunk];
      RecordingKeepsTracked(registry.chunkPools, registry.queued, registry.allChunks,
                            old(chunksData), old(chunksSpawnPoint), old(activeChunks),
                            position, chunkIndex, listSpawnPoint, chunksData, chunksSpawnPoint);
      EntryKeepsTracked(registry.chunkPools, registry.queued, registry.allChunks,
                        chunksData, chunksSpawnPoint, old(activeChunks), position, chunk, activeChunks);
    }

    /** The first-visit read-back: one entry per spawn point of the chunk. */
    static method CaptureSpawnPoints(chunk: Chunk, position: Cell, decorated: (Cell, int) -> bool)
      returns (listSpawnPoint: seq<int>)
      ensures listSpawnPoint == SpawnRecord(chunk.spawnChances.Length, position, decorated)
    {
      listSpawnPoint := [];
      var i := 0;
      while i < chunk.spawnChances.Length
        invariant 0 <= i <= chunk.spawnChances.Length
        invariant listSpawnPoint == SpawnRecord(i, position, decorated)
      {
        listSpawnPoint := listSpawnPoint + [if decorated(position, i) then 100 else 0];
        i := i + 1;
      }
    }

    /** A remembered cell's chunk gets its record replayed and is made visible;
        where it stands is left as it is. */
    static method RestoreChunk(chunk: Chunk, listSpawnPoint: seq<int>)
      requires chunk.spawnChances.Length - 1 <= |listSpawnPoint|
      modifies chunk`active, chunk.spawnChances
      ensures chunk.active
      ensures chunk.spawnChances[..] == Replayed(old(chunk.spawnChances[..]), listSpawnPoint)
    {
      ReplaySpawnPoints(chunk, listSpawnPoint);
      chunk.active := true;
    }

    /** The replay loop, whose bound is the slot count minus one. */
    static method ReplaySpawnPoints(chunk: Chunk, listSpawnPoint: seq<int>)
      requires chunk.spawnChances.Length - 1 <= |listSpawnPoint|
      modifies chunk.spawnChances
      ensures chunk.spawnChances[..] == Replayed(old(chunk.spawnChances[..]), listSpawnPoint)
    {
      var spawnPoints := chunk.spawnChances;
      var i := 0;
      while i < spawnPoints.Length - 1
        invariant 0 <= i && (i <= spawnPoints.Length - 1 || i == 0)
        invariant forall j | 0 <= j < spawnPoints.Length ::
          spawnPoints[j] == if j < i then listSpawnPoint[j] else old(spawnPoints[j])
      {
        spawnPoints[i] := listSpawnPoint[i];
        i := i + 1;
      }
    }

    /** Eviction of one cell: its chunk goes back, deactivated, to the queue of
        the cell's remembered variant and the cell stops being active; a cell
        that is not active is left alone. */
    method DeactivateOrStoreChunk(position: Cell)
      requires Valid()
      modifies this, chunkPoolManager, chunkPoolManager.allChunks
      ensures Valid()
      ensures chunksData == old(chunksData) && chunksSpawnPoint == old(chunksSpawnPoint)
      ensures playerChunkPosition == old(playerChunkPosition)
      ensures chunkPoolManager.allChunks == old(chunkPoolManager.allChunks) && chunkPoolManager.Repr == old(chunkPoolManager.Repr)
      ensures activeChunks == old(activeChunks) - {position}
      ensures position !in old(activeChunks) ==> unchanged(chunkPoolManager) && unchanged(old(chunkPoolManager.Repr))
      ensures position in old(activeChunks) ==>
        var chunk := old(activeChunks[position]);
        && !chunk.active
        && CheckedIn(old(chunkPoolManager.poolDictionary), chunkPoolManager.poolDictionary, chunksData[position], chunk)
        && chunk.spawnChances[..] == old(chunk.spawnChances[..])
    {
      if position !in activeChunks {
        return;
      }
      var chunk := activeChunks[position];
      var chunkIndex := chunksData[position];
      var registry := chunkPoolManager;
      registry.ReturnChunkToPool(chunk, chunkIndex);
      activeChunks := activeChunks - {position};
      EvictionKeepsTracked(registry.chunkPools, old(registry.queued), old(registry.allChunks),
                           chunksData, chunksSpawnPoint, old(activeChunks), position,
                           registry.queued, activeChunks);
    }
  }
}
