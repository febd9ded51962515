/** ThreadedChunkMap.hpp: the loaded chunks, keyed by chunk coordinate. The
    mutex that guards every operation is not modelled (one sequential
    interleaving). A removal is deferred: RemoveChunk queues the erase on the
    main thread, and the drain runs it as `Erase`. */
module ChunkStore {
  import opened Vectors
  import opened StdMap
  import opened MainThreadExecutor
  import opened Chunks

  /** The keys of the visited entries, in visiting order. */
  function KeysOf(entries: seq<(IVec3, Chunk)>): (keys: seq<IVec3>)
    ensures |keys| == |entries|
    ensures forall i :: 0 <= i < |entries| ==> keys[i] == entries[i].0
  {
    seq(|entries|, i requires 0 <= i < |entries| => entries[i].0)
  }

  /** A visit of every entry of `m`, each entry once. */
  ghost predicate VisitsEachOnce(entries: seq<(IVec3, Chunk)>, m: map<IVec3, Chunk>) {
    && (forall i :: 0 <= i < |entries| ==> entries[i].0 in m && entries[i].1 == m[entries[i].0])
    && (forall i, j :: 0 <= i < j < |entries| ==> entries[i].0 != entries[j].0)
    && (forall k :: k in m ==> k in KeysOf(entries))
  }

  /** A visit of each entry once has exactly as many steps as there are entries. */
  lemma {:induction false} VisitLength(entries: seq<(IVec3, Chunk)>, m: map<IVec3, Chunk>)
    requires VisitsEachOnce(entries, m)
    ensures |entries| == |m|
  {
    var keys := KeysOf(entries);
    DistinctKeys(keys);
    assert m.Keys == ToSet(keys) by {
      forall k | k in ToSet(keys)
        ensures k in m
      {
        var i :| 0 <= i < |keys| && keys[i] == k;
        assert entries[i].0 == k;
      }
    }
  }

  function ToSet(keys: seq<IVec3>): set<IVec3> {
    set i | 0 <= i < |keys| :: keys[i]
  }

  /** A sequence without repetitions has as many elements as its set. */
  lemma {:induction false} DistinctKeys(keys: seq<IVec3>)
    requires forall i, j :: 0 <= i < j < |keys| ==> keys[i] != keys[j]
    ensures |ToSet(keys)| == |keys|
    decreases |keys|
  {
    if keys != [] {
      var prefix, last := keys[..|keys| - 1], keys[|keys| - 1];
      DistinctKeys(prefix);
      assert ToSet(keys) == ToSet(prefix) + {last} by {
        forall k | k in ToSet(keys)
          ensures k in ToSet(prefix) + {last}
        {
          var i :| 0 <= i < |keys| && keys[i] == k;
          if i < |keys| - 1 {
            assert prefix[i] == k;
          }
        }
      }
      assert last !in ToSet(prefix) by {
        forall i | 0 <= i < |prefix|
          ensures prefix[i] != last
        {
          assert prefix[i] == keys[i];
        }
      }
    }
  }

  class ThreadedChunkMap {
    var loadedChunks: map<IVec3, Chunk>

    constructor ()
      ensures loadedChunks == map[]
    {
      loadedChunks := map[];
    }

    /** ThreadedChunkMap::AddChunk: loadedChunks[key] = chunk, which replaces
        an earlier chunk under the same key. */
    method AddChunk(key: IVec3, chunk: Chunk)
      modifies this
      ensures loadedChunks == old(loadedChunks)[key := chunk]
    {
      loadedChunks := loadedChunks[key := chunk];
    }

    /** ThreadedChunkMap::Contains: a find that changes nothing. */
    method Contains(key: IVec3) returns (found: bool)
      ensures found <==> key in loadedChunks
    {
      found := key in loadedChunks;
    }

    /** ThreadedChunkMap::Copy: the entries as they are now. */
    method Copy() returns (chunks: map<IVec3, Chunk>)
      ensures chunks == loadedChunks
    {
      chunks := loadedChunks;
    }

    /** ThreadedChunkMap::ForEach: the visitor sees every entry once, in some
        order of the keys; the result is the sequence of entries it was
        handed. */
    method ForEach() returns (visited: seq<(IVec3, Chunk)>)
      ensures VisitsEachOnce(visited, loadedChunks)
      ensures |visited| == |loadedChunks|
    {
      var remaining := loadedChunks.Keys;
      visited := [];
      while remaining != {}
        invariant remaining <= loadedChunks.Keys
        invariant forall i :: 0 <= i < |visited| ==>
          visited[i].0 in loadedChunks - remaining && visited[i].1 == loadedChunks[visited[i].0]
        invariant forall i, j :: 0 <= i < j < |visited| ==> visited[i].0 != visited[j].0
        invariant forall k :: k in loadedChunks.Keys - remaining ==> k in KeysOf(visited)
        decreases remaining
      {
        var key := AnyKey(remaining);
        ghost var before := visited;
        visited := visited + [(key, loadedChunks[key])];
        assert forall i :: 0 <= i < |before| ==> visited[i] == before[i];
        assert KeysOf(visited) == KeysOf(before) + [key];
        remaining := remaining - {key};
      }
      VisitLength(visited, loadedChunks);
    }

    /** ThreadedChunkMap::RemoveChunk: the map is unchanged; the erase is
        queued for the main thread. */
    method RemoveChunk(key: IVec3, q: TaskQueue)
      modifies q
      ensures q.tasks == old(q.tasks) + [EraseChunk(key)]
    {
      q.QueueTask(EraseChunk(key));
    }

    /** The closure RemoveChunk queues: loadedChunks.erase(key); erasing an
        absent key changes nothing. */
    method Erase(key: IVec3)
      modifies this
      ensures loadedChunks == old(loadedChunks) - {key}
      ensures key !in old(loadedChunks) ==> loadedChunks == old(loadedChunks)
    {
      loadedChunks := loadedChunks - {key};
    }

    /** ThreadedChunkMap::GetChunk: the stored chunk, or null on a miss. */
    method GetChunk(key: IVec3) returns (chunk: Chunk?)
      ensures key in loadedChunks ==> chunk == loadedChunks[key]
      ensures key !in loadedChunks ==> chunk == null
    {
      if key in loadedChunks {
        return loadedChunks[key];
      }
      return null;
    }
  }
}
