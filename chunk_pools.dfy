/** Chunk objects and the per-variant FIFO free-lists that recycle them
    (Chunk, ChunkPrefabPool, ChunkPoolManager). */
module ChunkPools {
  import opened Grid

  /** An orientation; ChunkManager only ever passes the identity. */
  datatype Rotation = Rotation(handle: int)

  const Identity: Rotation := Rotation(0)

  /** A chunk prefab, seen through the SpawnChance of each spawn point it carries. */
  datatype Prefab = Prefab(spawnChances: seq<int>)

  ghost predicate Distinct<T>(s: seq<T>)
  {
    forall i, j | 0 <= i < j < |s| :: s[i] != s[j]
  }

  /** A live or pooled chunk. `spawnChances` holds the SpawnChance of each
      entry of ListSpawnPoint, in order: the list is fixed when the chunk is
      instantiated, the chances in it are not. `variant` records the pool the
      chunk was made for. */
  class Chunk {
    const spawnChances: array<int>
    var active: bool
    var position: WorldPos
    var rotation: Rotation
    ghost const variant: int

    /** Instantiate(prefab, position, rotation) followed by the discovery of
        the spawn points: an active copy of the prefab placed as asked. */
    constructor Instantiate(prefab: Prefab, position: WorldPos, rotation: Rotation, ghost variant: int)
      ensures fresh(spawnChances) && spawnChances[..] == prefab.spawnChances && active
      ensures this.position == position && this.rotation == rotation
      ensures this.variant == variant
    {
      spawnChances := new int[|prefab.spawnChances|](i requires 0 <= i < |prefab.spawnChances| => prefab.spawnChances[i]);
      active := true;
      this.position := position;
      this.rotation := rotation;
      this.variant := variant;
    }
  }

  /** One variant: its prefab and the queue of inactive chunks (front at index 0). */
  datatype ChunkPrefabPool = ChunkPrefabPool(prefab: Prefab, pool: seq<Chunk>)

  /** What a checkout of variant `prefabIndex` does to the queues: a non-empty
      queue gives up its front chunk and nothing else changes; with an empty
      queue no queue changes. */
  ghost predicate CheckedOut(pools: map<int, ChunkPrefabPool>, pools': map<int, ChunkPrefabPool>, prefabIndex: int, chunk: Chunk)
  {
    && prefabIndex in pools
    && (pools[prefabIndex].pool != [] ==>
          && chunk == pools[prefabIndex].pool[0]
          && pools' == pools[prefabIndex := pools[prefabIndex].(pool := pools[prefabIndex].pool[1..])])
    && (pools[prefabIndex].pool == [] ==> pools' == pools)
  }

  /** What a check-in to variant `prefabIndex` does to the queues: the chunk
      joins the back of that queue and no other queue changes. */
  ghost predicate CheckedIn(pools: map<int, ChunkPrefabPool>, pools': map<int, ChunkPrefabPool>, prefabIndex: int, chunk: Chunk)
  {
    && prefabIndex in pools
    && pools' == pools[prefabIndex := pools[prefabIndex].(pool := pools[prefabIndex].pool + [chunk])]
  }

  /** Registered ids are exactly 0 .. |chunkPools|-1, each with its list
      entry's prefab; no chunk waits twice in a queue; `queued` holds exactly
      the chunks waiting in some queue, each in the queue of the variant it was
      made for (so no chunk waits in two queues); every queued chunk is known;
      every known chunk has its variant's slot count and lies, with its
      spawn-point array, in `Repr`. */
  ghost predicate PoolsValid(chunkPools: seq<ChunkPrefabPool>, pools: map<int, ChunkPrefabPool>,
                             queued: set<Chunk>, allChunks: set<Chunk>, Repr: set<object>)
  {
    && (forall i :: i in pools <==> 0 <= i < |chunkPools|)
    && (forall i {:trigger i in pools} | i in pools :: pools[i].prefab == chunkPools[i].prefab && Distinct(pools[i].pool))
    && (forall i, k | i in pools && 0 <= k < |pools[i].pool| ::
          pools[i].pool[k] in queued && pools[i].pool[k].variant == i)
    && (forall ch {:trigger ch in queued} | ch in queued ::
          ch in allChunks && ch.variant in pools && ch in pools[ch.variant].pool)
    && (forall ch {:trigger ch in allChunks} | ch in allChunks ::
          && 0 <= ch.variant < |chunkPools|
          && ch.spawnChances.Length == |chunkPools[ch.variant].prefab.spawnChances|
          && ch in Repr && ch.spawnChances in Repr)
  }

  /** Dequeuing the front chunk of a queue keeps the registry consistent and
      leaves that chunk queued nowhere. */
  lemma DequeueKeepsPoolsValid(chunkPools: seq<ChunkPrefabPool>, pools: map<int, ChunkPrefabPool>,
                               queued: set<Chunk>, allChunks: set<Chunk>, Repr: set<object>, prefabIndex: int,
                               pools': map<int, ChunkPrefabPool>, queued': set<Chunk>)
    requires PoolsValid(chunkPools, pools, queued, allChunks, Repr)
    requires prefabIndex in pools && pools[prefabIndex].pool != []
    requires pools' == pools[prefabIndex := pools[prefabIndex].(pool := pools[prefabIndex].pool[1..])]
    requires queued' == queued - {pools[prefabIndex].pool[0]}
    ensures PoolsValid(chunkPools, pools', queued', allChunks, Repr)
  {
    var queue := pools[prefabIndex].pool;
    assert forall ch | ch in queue && ch != queue[0] :: ch in queue[1..];
  }

  /** Enqueuing a chunk that waits nowhere, at the back of its own variant's
      queue, keeps the registry consistent. */
  lemma EnqueueKeepsPoolsValid(chunkPools: seq<ChunkPrefabPool>, pools: map<int, ChunkPrefabPool>,
                               queued: set<Chunk>, allChunks: set<Chunk>, Repr: set<object>, prefabIndex: int, chunk: Chunk,
                               pools': map<int, ChunkPrefabPool>, queued': set<Chunk>,
                               allChunks': set<Chunk>, Repr': set<object>)
    requires PoolsValid(chunkPools, pools, queued, allChunks, Repr)
    requires prefabIndex in pools && chunk !in queued && chunk.variant == prefabIndex
    requires chunk.spawnChances.Length == |chunkPools[prefabIndex].prefab.spawnChances|
    requires CheckedIn(pools, pools', prefabIndex, chunk) && queued' == queued + {chunk}
    requires allChunks' == allChunks + {chunk} && Repr' == Repr + {chunk, chunk.spawnChances}
    ensures PoolsValid(chunkPools, pools', queued', allChunks', Repr')
  {
  }

  /** Adding a new chunk that waits nowhere keeps the registry consistent. */
  lemma InstanceKeepsPoolsValid(chunkPools: seq<ChunkPrefabPool>, pools: map<int, ChunkPrefabPool>,
                                queued: set<Chunk>, allChunks: set<Chunk>, Repr: set<object>, chunk: Chunk,
                                allChunks': set<Chunk>, Repr': set<object>)
    requires PoolsValid(chunkPools, pools, queued, allChunks, Repr)
    requires chunk !in allChunks && 0 <= chunk.variant < |chunkPools|
    requires chunk.spawnChances.Length == |chunkPools[chunk.variant].prefab.spawnChances|
    requires allChunks' == allChunks + {chunk} && Repr' == Repr + {chunk, chunk.spawnChances}
    ensures PoolsValid(chunkPools, pools, queued, allChunks', Repr')
    ensures chunk !in queued
  {
  }

  class ChunkPoolManager {
    /** The registered variants, in order; variant ids are positions in this list. */
    const chunkPools: seq<ChunkPrefabPool>
    var poolDictionary: map<int, ChunkPrefabPool>
    /** The chunks waiting in some queue. */
    ghost var queued: set<Chunk>
    /** Every chunk this registry has instantiated or been handed back. */
    ghost var allChunks: set<Chunk>
    /** Those chunks and their spawn-point arrays. */
    ghost var Repr: set<object>


    /** The queues are consistent, and every chunk waiting in one is inactive. */
    ghost predicate Valid()
      reads this, allChunks
    {
      && PoolsValid(chunkPools, poolDictionary, queued, allChunks, Repr)
      && (forall ch | ch in queued :: !ch.active)
    }

    /** A registry over `prefabs`, each with an empty queue, indexed by Awake. */
    constructor (prefabs: seq<Prefab>)
      ensures Valid() && queued == {} && allChunks == {} && Repr == {}
      ensures |chunkPools| == |prefabs|
      ensures forall i | 0 <= i < |prefabs| :: poolDictionary[i] == ChunkPrefabPool(prefabs[i], [])
    {
      chunkPools := seq(|prefabs|, i requires 0 <= i < |prefabs| => ChunkPrefabPool(prefabs[i], []));
      queued := {};
      allChunks := {};
      Repr := {};
      new;
      poolDictionary := InitializePools(chunkPools);
    }

    /** The dictionary maps each position i of the list to the list's i-th
        pool, and has no other keys. */
    static method InitializePools(chunkPools: seq<ChunkPrefabPool>) returns (dictionary: map<int, ChunkPrefabPool>)
      ensures forall i :: i in dictionary <==> 0 <= i < |chunkPools|
      ensures forall i | 0 <= i < |chunkPools| :: dictionary[i] == chunkPools[i]
    {
      dictionary := map[];
      var index := 0;
      while index < |chunkPools|
        invariant 0 <= index <= |chunkPools|
        invariant forall i :: i in dictionary <==> 0 <= i < index
        invariant forall i | 0 <= i < index :: dictionary[i] == chunkPools[i]
      {
        dictionary := dictionary[index := chunkPools[index]];
        index := index + 1;
      }
    }

    /** Checkout: the oldest queued chunk of the variant, moved to `position`
        and `rotation`, or a fresh instance of the prefab when the queue is
        empty. The dictionary lookup fails for an unregistered id. */
    method GetChunkFromPool(prefabIndex: int, position: WorldPos, rotation: Rotation) returns (chunk: Chunk)
      requires Valid()
      requires prefabIndex in poolDictionary
      modifies this, if poolDictionary[prefabIndex].pool != [] then {poolDictionary[prefabIndex].pool[0]} else {}
      ensures Valid()
      ensures CheckedOut(old(poolDictionary), poolDictionary, prefabIndex, chunk)
      ensures chunk.variant == prefabIndex
      ensures chunk.position == position && chunk.rotation == rotation
      ensures queued == old(queued) - {chunk} && chunk in allChunks
      ensures old(poolDictionary[prefabIndex].pool) != [] ==>
        && chunk in old(queued)
        && allChunks == old(allChunks) && Repr == old(Repr)
        && !chunk.active
      ensures old(poolDictionary[prefabIndex].pool) == [] ==>
        && fresh(chunk) && fresh(chunk.spawnChances)
        && allChunks == old(allChunks) + {chunk}
        && Repr == old(Repr) + {chunk, chunk.spawnChances}
        && chunk.active && chunk.spawnChances[..] == chunkPools[prefabIndex].prefab.spawnChances
    {
      var selectedPool := poolDictionary[prefabIndex];
      if |selectedPool.pool| > 0 {
        chunk := selectedPool.pool[0];
        poolDictionary := poolDictionary[prefabIndex := selectedPool.(pool := selectedPool.pool[1..])];
        queued := queued - {chunk};
        chunk.position := position;
        chunk.rotation := rotation;
        DequeueKeepsPoolsValid(chunkPools, old(poolDictionary), old(queued), allChunks, Repr, prefabIndex,
                               poolDictionary, queued);
      } else {
        chunk := new Chunk.Instantiate(selectedPool.prefab, position, rotation, prefabIndex);
        allChunks := allChunks + {chunk};
        Repr := Repr + {chunk, chunk.spawnChances};
        InstanceKeepsPoolsValid(chunkPools, poolDictionary, queued, old(allChunks), old(Repr), chunk, allChunks, Repr);
        assert queued == queued - {chunk};
      }
    }

    /** Check-in: a registered variant gets the chunk, deactivated, at the back
        of its queue; an unregistered id is only logged and changes nothing.
        The caller hands back a chunk that is not already queued and was made
        for that variant. */
    method ReturnChunkToPool(chunk: Chunk, prefabIndex: int)
      requires Valid()
      requires prefabIndex in poolDictionary ==>
        chunk !in queued && chunk.variant == prefabIndex && chunk.spawnChances.Length == |chunkPools[prefabIndex].prefab.spawnChances|
      modifies this, chunk`active
      ensures Valid()
      ensures prefabIndex in old(poolDictionary) ==>
        && !chunk.active
        && CheckedIn(old(poolDictionary), poolDictionary, prefabIndex, chunk)
        && queued == old(queued) + {chunk}
        && (chunk in old(allChunks) ==> allChunks == old(allChunks) && Repr == old(Repr))
        && (chunk !in old(allChunks) ==>
              allChunks == old(allChunks) + {chunk} && Repr == old(Repr) + {chunk, chunk.spawnChances})
      ensures prefabIndex !in old(poolDictionary) ==> unchanged(this, chunk)
    {
      if prefabIndex in poolDictionary {
        chunk.active := false;
        var selectedPool := poolDictionary[prefabIndex];
        poolDictionary := poolDictionary[prefabIndex := selectedPool.(pool := selectedPool.pool + [chunk])];
        queued := queued + {chunk};
        if chunk !in allChunks {
          allChunks := allChunks + {chunk};
          Repr := Repr + {chunk, chunk.spawnChances};
        } else {
          assert allChunks == allChunks + {chunk} && Repr == Repr + {chunk, chunk.spawnChances};
        }
        EnqueueKeepsPoolsValid(chunkPools, old(poolDictionary), old(queued), old(allChunks), old(Repr), prefabIndex, chunk,
                               poolDictionary, queued, allChunks, Repr);
      }
    }
  }

  /** On the queues alone: a chunk checked in to an empty queue is the next
      one checked out of it, and the queues are then as they were. */
  lemma CheckInThenOutRestores(pools: map<int, ChunkPrefabPool>, pools': map<int, ChunkPrefabPool>,
                               pools'': map<int, ChunkPrefabPool>, prefabIndex: int, chunk: Chunk, taken: Chunk)
    requires prefabIndex in pools && pools[prefabIndex].pool == []
    requires CheckedIn(pools, pools', prefabIndex, chunk)
    requires CheckedOut(pools', pools'', prefabIndex, taken)
    ensures taken == chunk
    ensures pools'' == pools
  {
    assert pools'[prefabIndex].pool == [chunk];
    assert pools''[prefabIndex] == pools[prefabIndex];
  }

  /** A chunk checked in to an empty queue is the next one checked out of it. */
  method ReturnThenTake(registry: ChunkPoolManager, chunk: Chunk, prefabIndex: int, position: WorldPos, rotation: Rotation)
    returns (taken: Chunk)
    requires registry.Valid()
    requires prefabIndex in registry.poolDictionary && registry.poolDictionary[prefabIndex].pool == []
    requires chunk !in registry.queued && chunk.variant == prefabIndex
    requires chunk.spawnChances.Length == |registry.chunkPools[prefabIndex].prefab.spawnChances|
    modifies registry, chunk
    ensures taken == chunk && !taken.active
    ensures registry.poolDictionary == old(registry.poolDictionary)
  {
    registry.ReturnChunkToPool(chunk, prefabIndex);
    ghost var middle := registry.poolDictionary;
    taken := registry.GetChunkFromPool(prefabIndex, position, rotation);
    CheckInThenOutRestores(old(registry.poolDictionary), middle, registry.poolDictionary, prefabIndex, chunk, taken);
  }
}
