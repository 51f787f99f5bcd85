# Chunk streaming and pooling of InfiniteExplorer3D, in Dafny

This project models the two classes that stream the endless world around the
player: `ChunkManager` and `ChunkPoolManager`.

- `ChunkManager` keeps a dictionary of active chunks keyed by grid cell.
  Whenever the player enters a new cell, it reconciles that dictionary:
  - it evicts every active cell farther (Euclidean distance) than
    `viewDistance`;
  - it then fills every missing cell of the square `(2V+1)²` window around
    the new cell.
- It remembers two things for every cell ever visited: the variant index
  (`_chunksData`) and a per-slot decoration record (`_chunksSpawnPoint`).
  When a cell is visited again, the record is replayed onto the chunk.
  The replay loop stops at `Count - 1`, so it never writes the last slot.
  The replay is the only write to a spawn chance, so a chunk's last slot
  keeps its prefab's chance, and a revisited cell gets the same chances on
  every revisit.
  The decorations themselves are rolled when a chunk is enabled. A chunk
  taken from a queue is inactive, so activating it after the replay rolls
  with the replayed chances. When the variant's queue is empty, the new
  instance is already active: its decorations were rolled with the prefab's
  chances before the replay, and activating it again changes nothing.
- `ChunkPoolManager` keeps one FIFO queue of inactive chunks per variant.
  - A checkout dequeues the oldest chunk of the variant. If the queue is
    empty, it instantiates a new chunk.
  - A check-in deactivates the chunk and enqueues it.

The project has three modules.

- `Grid` (grid.dfy) holds the cell arithmetic:
  - the floor division by the chunk size 6;
  - the world position of a cell;
  - the Euclidean keep test and the square fill window.
- `ChunkPools` (chunk_pools.dfy) models the pool side:
  - `Chunk` is a class. Its spawn-point chances are an array the replay
    writes in place, and it has an active flag, a position and a rotation.
  - `ChunkPrefabPool` is a value: a prefab and a queue, with the front at
    index 0.
  - `ChunkPoolManager` is a class. Its methods dequeue from and enqueue to
    the per-variant queues of `poolDictionary`.
  - Ghost state records which chunks are queued and which the registry knows.
  - `PoolsValid` is the registry invariant. It says:
    - queues never mix variants;
    - no chunk waits twice;
    - every known chunk has its variant's slot count.
  - The registry's `Valid` adds that every queued chunk is inactive.
- `Streaming` (chunk_manager.dfy) models `ChunkManager` as a class.
  - Its fields `chunksData`, `chunksSpawnPoint`, `activeChunks` and
    `playerChunkPosition` are updated by methods whose loops mirror the
    source's loops.
  - The invariant `Tracked` says:
    - every remembered cell has an in-range variant and a record of that
      variant's slot count;
    - every active cell holds a known, unqueued chunk of its own variant;
    - no chunk is active at two cells.
  - `Valid` adds that every active cell's chunk is active, unrotated and at
    the cell's world position. Every method that changes the state keeps
    `Valid`.
  - `Reconciled` states the outcome of a reconciliation:
    - the active cells are exactly the square window;
    - surviving cells keep their chunk object;
    - the two tables only grow, and the cells they gain are exactly the
      cells made active (`TablesExtend`).

Inputs the source reads from the engine are parameters:
- The player position is a parameter of `Update`.
- The decoration read-back `spawnedDecoration != null` is an oracle
  `decorated(cell, slot)`.
- The random variant draw is a nondeterministic choice in `[0, count)`.

## Model

| member | source | states |
|---|---|---|
| Grid.GetCurrentChunkPosition | Assets/Scripts/Managers/ChunkManager.cs:63-70 | the cell's corner is at most the position and the next cell's corner is beyond it, on both axes, i.e. floor division by ChunkSize 6 |
| Grid.ChunkPositionIsUnique | Assets/Scripts/Managers/ChunkManager.cs:63-70 | any cell whose span contains the position is the computed cell, so the floor bounds characterise the result completely |
| Grid.NegativePositionsRoundDown | Assets/Scripts/Managers/ChunkManager.cs:66-69 | (7, -1) maps to cell (1, -1) and (-6, -7) to (-1, -2): rounding is toward negative infinity |
| Grid.CalculateWorldPosition | Assets/Scripts/Managers/ChunkManager.cs:165-168 | the world position has height 0 and lies on chunk-size multiples, and mapping it back to a cell gives the original cell |
| Grid.WorldPositionIsInjective | Assets/Scripts/Managers/ChunkManager.cs:165-168 | distinct cells are placed at distinct world positions |
| Grid.KeptCellsLieInWindow | Assets/Scripts/Managers/ChunkManager.cs:79-104 | a cell the Euclidean eviction test keeps lies inside the square fill window |
| Grid.DiagonalNeighbourIsFilledButOutOfView | Assets/Scripts/Managers/ChunkManager.cs:79-104 | the converse fails: with view distance 1 the diagonal neighbour is filled but is out of view |
| ChunkPools.Chunk.Instantiate | Assets/Scripts/Managers/ChunkPoolManager.cs:79-81 | a fresh, active chunk whose slot list is the prefab's, placed at the given position and rotation |
| ChunkPools.DequeueKeepsPoolsValid | Assets/Scripts/Managers/ChunkPoolManager.cs:70-72 | removing a queue's front chunk keeps the registry invariant, and that chunk is then queued nowhere |
| ChunkPools.EnqueueKeepsPoolsValid | Assets/Scripts/Managers/ChunkPoolManager.cs:94-97 | appending an unqueued chunk to the back of its own variant's queue keeps the registry invariant |
| ChunkPools.InstanceKeepsPoolsValid | Assets/Scripts/Managers/ChunkPoolManager.cs:77-82 | a newly instantiated chunk of a registered variant keeps the registry invariant and is in no queue |
| ChunkPools.ChunkPoolManager.constructor | Assets/Scripts/Managers/ChunkPoolManager.cs:29-41 | after start-up the registry is valid, every variant id maps to its prefab with an empty queue, and no chunk is known |
| ChunkPools.ChunkPoolManager.InitializePools | Assets/Scripts/Managers/ChunkPoolManager.cs:46-56 | the dictionary maps every index i of the list to the i-th pool and has no other key |
| ChunkPools.ChunkPoolManager.GetChunkFromPool | Assets/Scripts/Managers/ChunkPoolManager.cs:65-85 | requires a registered id; a non-empty queue yields its front chunk, which is inactive, loses only that chunk, and no other chunk changes; an empty queue yields a fresh active chunk of the prefab and no queue changes; either way the chunk is of that variant and is moved to the position and rotation; the invariant is kept |
| ChunkPools.ChunkPoolManager.ReturnChunkToPool | Assets/Scripts/Managers/ChunkPoolManager.cs:92-103 | with a registered id the chunk is deactivated and appended to that queue alone; with an unknown id nothing changes; the invariant is kept |
| ChunkPools.CheckInThenOutRestores | Assets/Scripts/Managers/ChunkPoolManager.cs:70-97 | on the queues alone: a check-in to an empty queue followed by a checkout of that variant yields the same chunk and restores every queue |
| ChunkPools.ReturnThenTake | Assets/Scripts/Managers/ChunkPoolManager.cs:65-103 | returning a chunk to an empty pool and then checking out that variant hands back the same, inactive chunk and leaves the dictionary as before |
| Streaming.ReplayRestoresAllButLast | Assets/Scripts/Managers/ChunkManager.cs:127-133 | replay keeps the slot count, copies the record into every slot but the last, never writes the last slot, and writes nothing with at most one slot |
| Streaming.ReplayIsIdempotent | Assets/Scripts/Managers/ChunkManager.cs:127-133 | replaying the same record twice gives the same chances as replaying it once |
| Streaming.ReplayForgetsEarlierLife | Assets/Scripts/Managers/ChunkManager.cs:127-133 | two chunks of one variant agree after replay in every slot but the last, whatever they held before |
| Streaming.ReplayOfRecordRestoresPattern | Assets/Scripts/Managers/ChunkManager.cs:127-153 | replaying a first-visit record gives chance 100 exactly at the slots (but the last) where a decoration was present |
| Streaming.CollectChunksToRemove | Assets/Scripts/Managers/ChunkManager.cs:79-86 | the list holds exactly the active cells whose Euclidean distance to the new cell exceeds viewDistance, each once |
| Streaming.RecordingKeepsTracked | Assets/Scripts/Managers/ChunkManager.cs:152-153 | remembering a new cell with an in-range variant and a record of that variant's slot count keeps the table invariant |
| Streaming.EvictionKeepsTracked | Assets/Scripts/Managers/ChunkManager.cs:175-181 | removing an active cell whose chunk is queued again keeps the table invariant |
| Streaming.PoolCheckoutKeepsTracked | Assets/Scripts/Managers/ChunkManager.cs:122-124 | a checkout keeps the table invariant, and the chunk handed out (queued or new) is no active cell's chunk |
| Streaming.EntryKeepsTracked | Assets/Scripts/Managers/ChunkManager.cs:125 | entering an unqueued chunk of the cell's own variant, held by no other cell, as a remembered cell's chunk keeps the table invariant |
| Streaming.TablesExtendTransitive | Assets/Scripts/Managers/ChunkManager.cs:93-104 | two successive extensions of the variant and record tables make one extension, so entries survive the whole fill |
| Streaming.ChunkManager.constructor | Assets/Scripts/Managers/ChunkManager.cs:31-36 | the tables start empty and the last cell starts at (1, 1) |
| Streaming.ChunkManager.Update | Assets/Scripts/Managers/ChunkManager.cs:39-46 | nothing changes when the player's cell equals the last cell; otherwise the state is reconciled around the new cell; either way every active cell's chunk is active at its world position and every queued chunk is inactive |
| Streaming.ChunkManager.CheckChunksToUpdate | Assets/Scripts/Managers/ChunkManager.cs:77-107 | afterwards the active cells are exactly the square window; cells within view keep their chunk object; every active cell's chunk is active at its world position; every queued chunk is inactive; the tables only grew, by the cells made active; the last cell is the new cell |
| Streaming.ChunkManager.EvictCells | Assets/Scripts/Managers/ChunkManager.cs:88-91 | exactly the listed cells stop being active, the others keep their chunks, which stay active at their world positions; the tables and the set of known chunks are untouched, and no chunk's spawn chances change |
| Streaming.ChunkManager.FillWindow | Assets/Scripts/Managers/ChunkManager.cs:93-104 | afterwards the active cells are the earlier ones plus the whole square window, cells already active keep their chunk, every active cell's chunk is active at its world position, and the tables only grow by the cells made active |
| Streaming.ChunkManager.FillColumn | Assets/Scripts/Managers/ChunkManager.cs:95-103 | every cell of one column of the window becomes active, cells already active keep their chunk, every active cell's chunk is active at its world position, and the tables only grow by the cells made active |
| Streaming.ChunkManager.CreateOrActivateChunk | Assets/Scripts/Managers/ChunkManager.cs:114-157 | the cell becomes active with an active chunk, no other active entry changes, every active cell's chunk stays active at its world position, and the tables only grow by that cell |
| Streaming.ChunkManager.ActivateStoredChunk | Assets/Scripts/Managers/ChunkManager.cs:122-136 | a remembered cell gets a chunk of its remembered variant, checked out of that variant's pool, made active and placed at its world position; the chunk's chances are the record replayed; the other active cells' chunks stay active where they were; the tables are unchanged |
| Streaming.ChunkManager.CreateNewChunk | Assets/Scripts/Managers/ChunkManager.cs:137-155 | a new cell gets a variant in [0, count) and an active chunk of it, checked out of that pool and placed at its world position; a chunk taken from the queue keeps its spawn chances and a new instance has the prefab's; its record is the decoration read-back, one entry per slot; the other active cells' chunks stay active where they were |
| Streaming.ChunkManager.RecordFirstVisit | Assets/Scripts/Managers/ChunkManager.cs:146-154 | the variant, the read-back record and the chunk are entered for the cell and the table invariant is kept |
| Streaming.ChunkManager.CaptureSpawnPoints | Assets/Scripts/Managers/ChunkManager.cs:146-150 | the list has one entry per slot: 100 where a decoration is present, else 0 |
| Streaming.ChunkManager.RestoreChunk | Assets/Scripts/Managers/ChunkManager.cs:127-135 | the chunk's chances become the record replayed and the chunk is active; its position and rotation are untouched |
| Streaming.ChunkManager.ReplaySpawnPoints | Assets/Scripts/Managers/ChunkManager.cs:127-133 | the chunk's chances become the record replayed with loop bound Count - 1, so the last slot keeps its old chance |
| Streaming.ChunkManager.DeactivateOrStoreChunk | Assets/Scripts/Managers/ChunkManager.cs:175-181 | an inactive cell is left alone; an active cell's chunk is deactivated, keeps its spawn chances and is appended to the queue of the cell's remembered variant; only that cell stops being active, every other active cell's chunk stays active at its world position, and no spawn chances change |

## Left out

- Floating point is not modelled:
  - World positions are integers, and `Mathf.FloorToInt(x / 6f)` is exact floor division.
  - `Vector2Int.Distance > viewDistance` is decided on squared integer distances, with a negative view distance exceeded by every distance.
  - `SpawnChance` is a float in the source and an integer here, since the model only writes 0 or 100 to it.
- Vector2Int and Vector3 components are 32-bit in the source. Overflow of `6 * cell` far from the origin is not modelled.
- The player lookup `GetPlayerPosition` (`FindGameObjectWithTag` and its fall-back to the origin) is left out. The position is a parameter of `Update`.
- Several parts of the Unity lifecycle are left out:
  - `Start`, `Awake` and `OnDestroy`;
  - `FindObjectOfType`, `DontDestroyOnLoad` and the `Instance` pseudo-singleton.
  - `ChunkManager._chunkPool`: it is never filled, so its teardown loop does nothing.
- `SpawnPoint` is left out: its float roll, its `OnEnable`/`OnDisable` decoration spawning and its gizmos.
  - `SetActive(b)` only sets the chunk's `active` flag.
  - The decoration read-back is an oracle.
- Rotation is opaque. ChunkManager only ever passes the identity.
- In the source, the serialized `chunkPools` list and `_chunkPoolDictionary` share their `ChunkPrefabPool` objects. The model keeps the queues only in the dictionary, and keeps the list as constant prefabs. ChunkManager reads only the list's `Count`.
- Dictionary enumeration order is not modelled. The eviction list is collected in an arbitrary order.
- How many chunks the pools hold over time (a bound such as `(2V+1)²`) is not stated.
- Streaming.ChunkManager.constructor: requires a registry with at least one variant and no known chunks. With no variants the source fails only later, with a missing key at the first new cell.
- ChunkPools.ChunkPoolManager.ReturnChunkToPool: for a registered id, the caller must hand back a chunk that is not queued and was made for that variant. The source accepts any chunk, and ChunkManager's own calls always meet this.
- Streaming.ChunkManager.CreateOrActivateChunk: states only what the three branches share. The branch for a remembered cell is stated by ActivateStoredChunk, and the branch for a new cell by CreateNewChunk. The branch for an already-active cell is never taken by the reconciliation, and its model only re-activates the chunk.
- Streaming.ChunkManager.CheckChunksToUpdate: does not state which chunks are queued after the reconciliation. Each eviction's check-in is stated by DeactivateOrStoreChunk, and each checkout by ActivateStoredChunk and CreateNewChunk.
- Streaming.ChunkManager.EvictCells: states the cells and the tables, not the queues. The per-cell effect is stated by DeactivateOrStoreChunk.
- ChunkPools.ChunkPoolManager.Valid: does not state that every known chunk is queued or held by an active cell (`allChunks == queued + activeChunks.Values`). The model keeps no invariant that says so.
- Streaming.ChunkManager.Update: the invariant fixes the active flag, position and rotation of every active chunk and the inactivity of every queued chunk. The spawn chances are stated per call only: the replay is stated by ActivateStoredChunk for the one call that makes it. Nothing says that a chunk refilled during the pass still holds its replayed record at the end, or that the chances of chunks the pass does not check out stay unchanged.
- Streaming.ChunkManager.CheckChunksToUpdate: the replay is stated per call only, as for Update. It does not say that a refilled cell's chunk still holds its replayed record at the end, that other chunks keep their chances, or where queued chunks stand.
- Streaming.ChunkManager.FillWindow: the replay is stated per call only. It does not say that a refilled cell's chunk still holds its replayed record at the end, or that already-active chunks keep their chances.
- Streaming.ChunkManager.FillColumn: the replay is stated per call only. It does not say that a refilled cell's chunk still holds its replayed record at the end, or that already-active chunks keep their chances.
- Streaming.ChunkManager.ActivateStoredChunk: does not state that the spawn chances of the other chunks stay unchanged.
- Streaming.ChunkManager.CreateNewChunk: does not state that the spawn chances of the other chunks stay unchanged.
- No invariant says that a chunk's last slot always holds its prefab's chance. Each replay is stated to leave the last slot as it was.
- The decoration roll of `SpawnPoint.OnEnable` is not modelled. So the model does not show that a fresh instance handed out on a revisit has its decorations rolled with the prefab's chances instead of the replayed ones.
