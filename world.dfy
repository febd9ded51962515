/** World.hpp: chunk coordinates and the streaming tick, together with the
    main-thread drain of MainThreadExecutor.hpp, which needs the whole engine
    to run the deferred operations. The world thread, its sleep loop and its
    crash handler are not modelled: one sequential interleaving of Update and
    UpdateTasks is. The chunks the queued closures capture are held in an
    arena, keyed by the id each chunk carries. */
module World {
  import opened Vectors
  import opened StdMap
  import opened NameIDTag
  import opened Textures
  import opened TextureManager
  import opened ShaderManager
  import opened MainThreadExecutor
  import opened Renderables
  import opened Renderer
  import opened ChunkMesh
  import opened Chunks
  import opened ChunkStore

  const ViewDistance := 1

  /** floor(p / 16) for the integer overload of WorldToChunkCoordinates. The
      source divides in double precision, which is exact for 32-bit integers;
      Dafny's `/` rounds down for a positive divisor. */
  function ChunkCoordinate(p: int): (c: int)
    ensures ChunkSize * c <= p < ChunkSize * c + ChunkSize
  {
    p / ChunkSize
  }

  /** World::WorldToChunkCoordinates (integer overload), componentwise. */
  function WorldToChunkCoordinates(p: IVec3): (c: IVec3)
    ensures ChunkSize * c.x <= p.x < ChunkSize * c.x + ChunkSize
    ensures ChunkSize * c.y <= p.y < ChunkSize * c.y + ChunkSize
    ensures ChunkSize * c.z <= p.z < ChunkSize * c.z + ChunkSize
  {
    IVec3(ChunkCoordinate(p.x), ChunkCoordinate(p.y), ChunkCoordinate(p.z))
  }

  /** The chunk coordinate is the only c with 16c <= p < 16c + 16: it is the
      floor, also for negative positions. */
  lemma ChunkCoordinateUnique(p: int, c: int)
    requires ChunkSize * c <= p < ChunkSize * c + ChunkSize
    ensures c == ChunkCoordinate(p)
  {
  }

  /** A world position is its chunk's origin plus its block coordinate. */
  lemma ChunkPlusBlock(p: IVec3)
    ensures var c, b := WorldToChunkCoordinates(p), WorldToBlockCoordinates(p);
      p == IVec3(ChunkSize * c.x + b.x, ChunkSize * c.y + b.y, ChunkSize * c.z + b.z)
  {
    var c, b := WorldToChunkCoordinates(p), WorldToBlockCoordinates(p);
    assert b.x == p.x - ChunkSize * c.x;
    assert b.y == p.y - ChunkSize * c.y;
    assert b.z == p.z - ChunkSize * c.z;
  }

  function Abs(i: int): nat {
    if i < 0 then -i else i
  }

  /** The coordinates the load pass keeps loaded around chunk pc: height 0,
      within the view distance on x and on z. */
  predicate InView(pc: IVec3, k: IVec3) {
    k.y == 0 && Abs(k.x - pc.x) <= ViewDistance && Abs(k.z - pc.z) <= ViewDistance
  }

  /** The eviction rule as written: far on x AND far on z. */
  predicate Evicts(pc: IVec3, k: IVec3) {
    Abs(k.x - pc.x) > ViewDistance && Abs(k.z - pc.z) > ViewDistance
  }

  /** Row dx of the load pass, in loop order: z from pc.z - ViewDistance up. */
  function Row(pc: IVec3, dx: int): (r: seq<IVec3>)
    ensures |r| == 2 * ViewDistance + 1
    ensures forall j :: 0 <= j < |r| ==> r[j] == IVec3(pc.x + dx, 0, pc.z + j - ViewDistance)
  {
    seq(2 * ViewDistance + 1, j => IVec3(pc.x + dx, 0, pc.z + j - ViewDistance))
  }

  /** The rows the load pass visits before row dx, x outer, z inner. */
  function RowsBefore(pc: IVec3, dx: int): seq<IVec3>
    requires -ViewDistance <= dx <= ViewDistance + 1
    decreases dx + ViewDistance
  {
    if dx == -ViewDistance then [] else RowsBefore(pc, dx - 1) + Row(pc, dx - 1)
  }

  /** Every coordinate the load pass visits, in loop order. */
  function ViewOrder(pc: IVec3): seq<IVec3> {
    RowsBefore(pc, ViewDistance + 1)
  }

  /** The rows before dx hold exactly the height-0 coordinates left of dx and
      within the view distance on z. */
  lemma {:induction false} RowsBeforeMembers(pc: IVec3, dx: int, k: IVec3)
    requires -ViewDistance <= dx <= ViewDistance + 1
    ensures k in RowsBefore(pc, dx) <==>
      k.y == 0 && -ViewDistance <= k.x - pc.x < dx && Abs(k.z - pc.z) <= ViewDistance
    decreases dx + ViewDistance
  {
    if dx != -ViewDistance {
      RowsBeforeMembers(pc, dx - 1, k);
      var r := Row(pc, dx - 1);
      if k.y == 0 && k.x == pc.x + dx - 1 && Abs(k.z - pc.z) <= ViewDistance {
        assert r[k.z - pc.z + ViewDistance] == k;
      }
    }
  }

  /** The load pass visits exactly the in-view coordinates. */
  lemma ViewOrderMembers(pc: IVec3, k: IVec3)
    ensures k in ViewOrder(pc) <==> InView(pc, k)
  {
    RowsBeforeMembers(pc, ViewDistance + 1, k);
  }

  /** The coordinate at z offset dz of row dx comes next in the row and is
      not among the coordinates visited before it. */
  lemma NotYetVisited(done: seq<IVec3>, pc: IVec3, dx: int, dz: int)
    requires forall k :: k in done ==> k.x < pc.x + dx
    requires -ViewDistance <= dz <= ViewDistance
    ensures IVec3(pc.x + dx, 0, pc.z + dz) !in done + Row(pc, dx)[..dz + ViewDistance]
    ensures done + Row(pc, dx)[..dz + ViewDistance + 1]
         == done + Row(pc, dx)[..dz + ViewDistance] + [IVec3(pc.x + dx, 0, pc.z + dz)]
  {
    var coord, row := IVec3(pc.x + dx, 0, pc.z + dz), Row(pc, dx);
    var r := row[..dz + ViewDistance];
    assert forall j :: 0 <= j < |r| ==> r[j].z < coord.z;
    assert row[..dz + ViewDistance + 1] == r + [coord];
  }

  /** Every coordinate visited before row dx lies left of it. */
  lemma RowsBeforeLeft(pc: IVec3, dx: int)
    requires -ViewDistance <= dx <= ViewDistance
    ensures forall k :: k in RowsBefore(pc, dx) ==> k.x < pc.x + dx
  {
    forall k | k in RowsBefore(pc, dx)
      ensures k.x < pc.x + dx
    {
      RowsBeforeMembers(pc, dx, k);
    }
  }

  /** The coordinates of `ks` that `m` lacks, in order. */
  function Missing(ks: seq<IVec3>, m: map<IVec3, Chunk>): seq<IVec3> {
    if ks == [] then []
    else
      var k := ks[|ks| - 1];
      Missing(ks[..|ks| - 1], m) + (if k in m then [] else [k])
  }

  lemma MissingAppend(ks: seq<IVec3>, k: IVec3, m: map<IVec3, Chunk>)
    ensures Missing(ks + [k], m) == Missing(ks, m) + (if k in m then [] else [k])
  {
    assert (ks + [k])[..|ks|] == ks;
  }

  /** A missing coordinate is one of `ks` and is absent from `m`. */
  lemma {:induction false} MissingMembers(ks: seq<IVec3>, m: map<IVec3, Chunk>, k: IVec3)
    ensures k in Missing(ks, m) <==> k in ks && k !in m
    decreases |ks|
  {
    if ks != [] {
      var prefix := ks[..|ks| - 1];
      MissingMembers(prefix, m, k);
      assert ks == prefix + [ks[|ks| - 1]];
    }
  }

  /** A coordinate in view is never evicted, so nothing loaded in a tick is
      evicted in the same tick. */
  lemma InViewIsKept(pc: IVec3, k: IVec3)
    requires InView(pc, k)
    ensures !Evicts(pc, k)
  {
  }

  /** A chunk far on x but near on z (or the other way round) is kept. */
  lemma OneFarAxisIsKept(pc: IVec3, k: IVec3)
    requires Abs(k.x - pc.x) <= ViewDistance || Abs(k.z - pc.z) <= ViewDistance
    ensures !Evicts(pc, k)
  {
  }

  /** The observer's height enters neither rule. */
  lemma HeightIsIgnored(pc: IVec3, pc': IVec3, k: IVec3)
    requires pc.x == pc'.x && pc.z == pc'.z
    ensures InView(pc, k) == InView(pc', k) && Evicts(pc, k) == Evicts(pc', k)
    ensures ViewOrder(pc) == ViewOrder(pc')
  {
  }

  /** The tasks the load pass queues for the chunks with ids from..from+n-1:
      each chunk's atlas attachment and first upload, chunk by chunk. */
  function LoadTasks(from: nat, n: nat): (ts: seq<Task>)
    ensures |ts| == 2 * n
    decreases n
  {
    if n == 0 then [] else LoadTasks(from, n - 1) + [AttachAtlas(from + n - 1), UploadMesh(from + n - 1)]
  }

  /** What the load pass leaves in a chunk it creates for coordinate k. */
  ghost predicate Loaded(k: IVec3, c: Chunk)
    reads c.transform, c.blocks
  {
    && c.transform.position == IVec3(ChunkSize * k.x, 0, ChunkSize * k.z)
    && c.blocks[..] == Terrain(false)
  }

  /** The release tasks Chunk::CleanUp queues through Renderer::RemoveObject
      for a chunk whose mesh is registered (entries are never null here). */
  function CleanUpTasks(n: Tag, objects: map<Tag, Renderable?>): seq<Task> {
    if n in objects && objects[n] != null then [ReleaseMesh(objects[n].name), EraseObject(n)] else []
  }

  /** What CleanUp logs: a miss in the renderer. */
  function CleanUpLog(n: Tag, objects: map<Tag, Renderable?>): seq<string> {
    if n in objects then [] else [MissingObjectMessage(n.name)]
  }

  /** The tasks the eviction pass queues for `keys`, in visiting order: the
      chunk's clean-up, then its deferred removal from the store. */
  function EvictionTasks(keys: seq<IVec3>, store: map<IVec3, Chunk>, objects: map<Tag, Renderable?>): seq<Task>
    requires forall k :: k in keys ==> k in store
  {
    if keys == [] then [] else EvictionTasks(keys[..|keys| - 1], store, objects) + EvictionOf(keys[|keys| - 1], store, objects)
  }

  /** The tasks evicting the chunk under k queues. */
  function EvictionOf(k: IVec3, store: map<IVec3, Chunk>, objects: map<Tag, Renderable?>): seq<Task>
    requires k in store
  {
    CleanUpTasks(store[k].mesh.name, objects) + [EraseChunk(k)]
  }

  function EvictionLog(keys: seq<IVec3>, store: map<IVec3, Chunk>, objects: map<Tag, Renderable?>): seq<string>
    requires forall k :: k in keys ==> k in store
  {
    if keys == [] then []
    else
      var k := keys[|keys| - 1];
      EvictionLog(keys[..|keys| - 1], store, objects) + CleanUpLog(store[k].mesh.name, objects)
  }

  /** The chunk coordinates whose erase is among `ts`. */
  function ErasedKeys(ts: seq<Task>): set<IVec3> {
    if ts == [] then {}
    else
      var t := ts[|ts| - 1];
      ErasedKeys(ts[..|ts| - 1]) + (if t.EraseChunk? then {t.key} else {})
  }

  lemma {:induction false} ErasedKeysMembers(ts: seq<Task>, k: IVec3)
    ensures k in ErasedKeys(ts) <==> EraseChunk(k) in ts
    decreases |ts|
  {
    if ts != [] {
      var prefix := ts[..|ts| - 1];
      ErasedKeysMembers(prefix, k);
      assert ts == prefix + [ts[|ts| - 1]];
    }
  }

  /** `store0` with the chunks `made` put under the coordinates `loaded`, in order. */
  function Placed(store0: map<IVec3, Chunk>, loaded: seq<IVec3>, made: seq<Chunk>): map<IVec3, Chunk>
    requires |loaded| == |made|
  {
    if loaded == [] then store0
    else Placed(store0, loaded[..|loaded| - 1], made[..|made| - 1])[loaded[|loaded| - 1] := made[|made| - 1]]
  }

  /** `arena0` with the chunks `made` put under the ids id0, id0 + 1, ... */
  function Numbered(arena0: map<nat, Chunk>, id0: nat, made: seq<Chunk>): map<nat, Chunk> {
    if made == [] then arena0
    else Numbered(arena0, id0, made[..|made| - 1])[id0 + |made| - 1 := made[|made| - 1]]
  }

  /** The placed store holds the old coordinates and the new ones; a new
      coordinate holds one of the chunks placed under it, an old one that was
      not re-placed keeps its entry. */
  lemma {:induction false} PlacedMembers(store0: map<IVec3, Chunk>, loaded: seq<IVec3>, made: seq<Chunk>, k: IVec3)
    requires |loaded| == |made|
    ensures k in Placed(store0, loaded, made) <==> k in store0 || k in loaded
    ensures k in store0 && k !in loaded ==> Placed(store0, loaded, made)[k] == store0[k]
    ensures k in loaded ==> exists i :: 0 <= i < |loaded| && loaded[i] == k && Placed(store0, loaded, made)[k] == made[i]
    decreases |loaded|
  {
    if loaded != [] {
      var n := |loaded| - 1;
      var prefix, cs := loaded[..n], made[..n];
      PlacedMembers(store0, prefix, cs, k);
      assert loaded == prefix + [loaded[n]];
      if k in loaded && k != loaded[n] {
        var i :| 0 <= i < n && prefix[i] == k && Placed(store0, prefix, cs)[k] == cs[i];
        assert loaded[i] == k && made[i] == cs[i];
      }
    }
  }

  /** The numbered arena holds the old ids and id0..id0 + |made| - 1. */
  lemma {:induction false} NumberedMembers(arena0: map<nat, Chunk>, id0: nat, made: seq<Chunk>, id: nat)
    ensures id in Numbered(arena0, id0, made) <==> id in arena0 || id0 <= id < id0 + |made|
    ensures id0 <= id < id0 + |made| ==> Numbered(arena0, id0, made)[id] == made[id - id0]
    ensures id in arena0 && !(id0 <= id < id0 + |made|) ==> Numbered(arena0, id0, made)[id] == arena0[id]
    decreases |made|
  {
    if made != [] {
      NumberedMembers(arena0, id0, made[..|made| - 1], id);
    }
  }

  /** Where the load pass stands after visiting `done`, relative to the
      store, arena, next id and queue it started from: the coordinates of
      `done` the store lacked got the chunks `made`, in order and with
      consecutive ids, and the queue gained those chunks' tasks. */
  ghost predicate Progress(store: map<IVec3, Chunk>, arena: map<nat, Chunk>, nextId: nat, tasks: seq<Task>,
                           store0: map<IVec3, Chunk>, arena0: map<nat, Chunk>, id0: nat, q0: seq<Task>,
                           done: seq<IVec3>, loaded: seq<IVec3>, made: seq<Chunk>)
  {
    && loaded == Missing(done, store0)
    && |made| == |loaded|
    && store == Placed(store0, loaded, made)
    && arena == Numbered(arena0, id0, made)
    && nextId == id0 + |made|
    && tasks == q0 + LoadTasks(id0, |made|)
    && (forall i :: 0 <= i < |made| ==> made[i].id == id0 + i)
  }

  /** A visited coordinate that was already present changes nothing. */
  lemma ProgressKeeps(store: map<IVec3, Chunk>, arena: map<nat, Chunk>, nextId: nat, tasks: seq<Task>,
                      store0: map<IVec3, Chunk>, arena0: map<nat, Chunk>, id0: nat, q0: seq<Task>,
                      done: seq<IVec3>, loaded: seq<IVec3>, made: seq<Chunk>, coord: IVec3)
    requires Progress(store, arena, nextId, tasks, store0, arena0, id0, q0, done, loaded, made)
    requires coord in store0
    ensures Progress(store, arena, nextId, tasks, store0, arena0, id0, q0, done + [coord], loaded, made)
  {
    MissingAppend(done, coord, store0);
    assert loaded + [] == loaded;
  }

  lemma PlacedStep(store0: map<IVec3, Chunk>, loaded: seq<IVec3>, made: seq<Chunk>, coord: IVec3, c: Chunk)
    requires |loaded| == |made|
    ensures Placed(store0, loaded + [coord], made + [c]) == Placed(store0, loaded, made)[coord := c]
  {
    assert (loaded + [coord])[..|loaded|] == loaded && (made + [c])[..|made|] == made;
  }

  lemma NumberedStep(arena0: map<nat, Chunk>, id0: nat, made: seq<Chunk>, c: Chunk)
    ensures Numbered(arena0, id0, made + [c]) == Numbered(arena0, id0, made)[id0 + |made| := c]
  {
    assert (made + [c])[..|made|] == made;
  }

  lemma IdsStep(id0: nat, made: seq<Chunk>, c: Chunk)
    requires forall i :: 0 <= i < |made| ==> made[i].id == id0 + i
    requires c.id == id0 + |made|
    ensures forall i :: 0 <= i < |made| + 1 ==> (made + [c])[i].id == id0 + i
  {
    forall i | 0 <= i < |made| + 1
      ensures (made + [c])[i].id == id0 + i
    {
      if i < |made| { assert (made + [c])[i] == made[i]; }
    }
  }

  /** A visited coordinate that was missing gets the next id's chunk. */
  lemma ProgressAdds(store: map<IVec3, Chunk>, arena: map<nat, Chunk>, nextId: nat, tasks: seq<Task>,
                     store0: map<IVec3, Chunk>, arena0: map<nat, Chunk>, id0: nat, q0: seq<Task>,
                     done: seq<IVec3>, loaded: seq<IVec3>, made: seq<Chunk>, coord: IVec3, c: Chunk)
    requires Progress(store, arena, nextId, tasks, store0, arena0, id0, q0, done, loaded, made)
    requires coord !in store0 && c.id == nextId
    ensures Progress(store[coord := c], arena[nextId := c], nextId + 1, tasks + [AttachAtlas(nextId), UploadMesh(nextId)],
                     store0, arena0, id0, q0, done + [coord], loaded + [coord], made + [c])
  {
    MissingAppend(done, coord, store0);
    PlacedStep(store0, loaded, made, coord, c);
    NumberedStep(arena0, id0, made, c);
    IdsStep(id0, made, c);
    assert LoadTasks(id0, |made| + 1) == LoadTasks(id0, |made|) + [AttachAtlas(nextId), UploadMesh(nextId)];
  }

  /** One visit of the load loops on plain values: a present coordinate
      changes nothing; a missing one gets the chunk with the next id and its
      two tasks. */
  lemma ProgressStep(s: map<IVec3, Chunk>, a: map<nat, Chunk>, n: nat, t: seq<Task>,
                     s': map<IVec3, Chunk>, a': map<nat, Chunk>, n': nat, t': seq<Task>,
                     store0: map<IVec3, Chunk>, arena0: map<nat, Chunk>, id0: nat, q0: seq<Task>,
                     done: seq<IVec3>, loaded: seq<IVec3>, made: seq<Chunk>, coord: IVec3)
    returns (loaded': seq<IVec3>, made': seq<Chunk>)
    requires Progress(s, a, n, t, store0, arena0, id0, q0, done, loaded, made) && coord !in done
    requires coord in s ==> s' == s && a' == a && n' == n && t' == t
    requires coord !in s ==>
      coord in s' && s' == s[coord := s'[coord]] && s'[coord].id == n
      && a' == a[n := s'[coord]] && n' == n + 1 && t' == t + [AttachAtlas(n), UploadMesh(n)]
    ensures Progress(s', a', n', t', store0, arena0, id0, q0, done + [coord], loaded', made')
    ensures loaded' == loaded + (if coord in store0 then [] else [coord])
  {
    MissingMembers(done, store0, coord);
    PlacedMembers(store0, loaded, made, coord);
    if coord in store0 {
      ProgressKeeps(s, a, n, t, store0, arena0, id0, q0, done, loaded, made, coord);
      loaded', made' := loaded, made;
    } else {
      ProgressAdds(s, a, n, t, store0, arena0, id0, q0, done, loaded, made, coord, s'[coord]);
      loaded', made' := loaded + [coord], made + [s'[coord]];
    }
  }

  /** What a whole load pass leaves, read off its Progress: the store holds
      its old entries unchanged and every in-view coordinate; each new entry
      is a chunk with a new id, under that id in the arena; the arena keeps
      the entries below the first new id; the queue gained the new chunks'
      tasks. */
  lemma PassLoadsView(store: map<IVec3, Chunk>, arena: map<nat, Chunk>, nextId: nat, tasks: seq<Task>,
                      store0: map<IVec3, Chunk>, arena0: map<nat, Chunk>, id0: nat, q0: seq<Task>,
                      pc: IVec3, loaded: seq<IVec3>, made: seq<Chunk>)
    requires Progress(store, arena, nextId, tasks, store0, arena0, id0, q0, ViewOrder(pc), loaded, made)
    ensures forall k :: k in store <==> k in store0 || InView(pc, k)
    ensures forall k :: k in store0 ==> store[k] == store0[k]
    ensures forall k :: k in store && k !in store0 ==>
      id0 <= store[k].id < nextId && store[k].id in arena && arena[store[k].id] == store[k]
    ensures forall id :: id in arena0 && id < id0 ==> id in arena && arena[id] == arena0[id]
    ensures id0 <= nextId && tasks == q0 + LoadTasks(id0, nextId - id0)
  {
    forall k
      ensures k in store <==> k in store0 || InView(pc, k)
      ensures k in store0 ==> store[k] == store0[k]
      ensures k in store && k !in store0 ==>
        id0 <= store[k].id < nextId && store[k].id in arena && arena[store[k].id] == store[k]
    {
      PlacedMembers(store0, loaded, made, k);
      MissingMembers(ViewOrder(pc), store0, k);
      ViewOrderMembers(pc, k);
      if k in store && k !in store0 {
        var i :| 0 <= i < |loaded| && loaded[i] == k && store[k] == made[i];
        NumberedMembers(arena0, id0, made, id0 + i);
      }
    }
    forall id | id in arena0 && id < id0
      ensures id in arena && arena[id] == arena0[id]
    {
      NumberedMembers(arena0, id0, made, id);
    }
  }

  /** One more evicted coordinate: its clean-up tasks, then its erase. */
  lemma EvictionTasksStep(keys: seq<IVec3>, k: IVec3, store: map<IVec3, Chunk>, objects: map<Tag, Renderable?>,
                          q0: seq<Task>, q: seq<Task>, q': seq<Task>)
    requires forall k' :: k' in keys ==> k' in store
    requires k in store
    requires q == q0 + EvictionTasks(keys, store, objects)
    requires q' == q + EvictionOf(k, store, objects)
    ensures q' == q0 + EvictionTasks(keys + [k], store, objects)
  {
    assert (keys + [k])[..|keys|] == keys;
  }

  /** One more evicted coordinate: the miss its clean-up may log. */
  lemma EvictionLogStep(keys: seq<IVec3>, k: IVec3, store: map<IVec3, Chunk>, objects: map<Tag, Renderable?>,
                        log0: seq<string>, log: seq<string>, log': seq<string>)
    requires forall k' :: k' in keys ==> k' in store
    requires k in store
    requires log == log0 + EvictionLog(keys, store, objects)
    requires log' == log + CleanUpLog(store[k].mesh.name, objects)
    ensures log' == log0 + EvictionLog(keys + [k], store, objects)
  {
    assert (keys + [k])[..|keys|] == keys;
  }

  /** The eviction loop after visiting chunkSet - remaining: `evicted` holds
      each visited coordinate that the rule evicts, once. */
  ghost predicate EvictProgress(pc: IVec3, chunkSet: set<IVec3>, remaining: set<IVec3>, evicted: seq<IVec3>) {
    && (forall k :: k in evicted <==> k in chunkSet - remaining && Evicts(pc, k))
    && (forall i, j :: 0 <= i < j < |evicted| ==> evicted[i] != evicted[j])
  }

  lemma EvictProgressStep(pc: IVec3, chunkSet: set<IVec3>, remaining: set<IVec3>, evicted: seq<IVec3>, key: IVec3)
    requires EvictProgress(pc, chunkSet, remaining, evicted) && key in remaining && remaining <= chunkSet
    ensures EvictProgress(pc, chunkSet, remaining - {key}, evicted + (if Evicts(pc, key) then [key] else []))
  {
    var evicted' := evicted + (if Evicts(pc, key) then [key] else []);
    forall i, j | 0 <= i < j < |evicted'|
      ensures evicted'[i] != evicted'[j]
    {
      if j == |evicted| {
        assert evicted'[i] == evicted[i];
      } else {
        assert evicted'[i] == evicted[i] && evicted'[j] == evicted[j];
      }
    }
  }

  /** Every evicted chunk's registered mesh is among `cleared`. */
  ghost predicate MeshesCleared(evicted: seq<IVec3>, chunks: map<IVec3, Chunk>, objects: map<Tag, Renderable?>,
                                cleared: set<Renderable>)
    requires forall k :: k in evicted ==> k in chunks
  {
    forall k :: k in evicted && chunks[k].mesh.name in objects ==> objects[chunks[k].mesh.name] in cleared
  }

  lemma MeshesClearedStep(evicted: seq<IVec3>, key: IVec3, chunks: map<IVec3, Chunk>, objects: map<Tag, Renderable?>,
                          cleared: set<Renderable>, cleared': set<Renderable>)
    requires forall k :: k in evicted ==> k in chunks
    requires key in chunks && MeshesCleared(evicted, chunks, objects, cleared)
    requires cleared' == cleared + (if chunks[key].mesh.name in objects && objects[chunks[key].mesh.name] != null
                                    then {objects[chunks[key].mesh.name]} else {})
    requires chunks[key].mesh.name in objects ==> objects[chunks[key].mesh.name] != null
    ensures MeshesCleared(evicted + [key], chunks, objects, cleared')
  {
  }

  lemma ToSetStep(keys: seq<IVec3>, i: int)
    requires 0 <= i < |keys|
    ensures ToSet(keys[..i + 1]) == ToSet(keys[..i]) + {keys[i]}
  {
    var a, b := keys[..i + 1], keys[..i];
    forall k | k in ToSet(a)
      ensures k in ToSet(b) + {keys[i]}
    {
      var j :| 0 <= j < |a| && a[j] == k;
      if j < i { assert b[j] == k; }
    }
    forall k | k in ToSet(b) + {keys[i]}
      ensures k in ToSet(a)
    {
      if k == keys[i] {
        assert a[i] == k;
      } else {
        var j :| 0 <= j < |b| && b[j] == k;
        assert a[j] == k;
      }
    }
  }

  /** The keys a visit of each entry once collects are the store's keys. */
  lemma VisitedKeys(visited: seq<(IVec3, Chunk)>, m: map<IVec3, Chunk>)
    requires VisitsEachOnce(visited, m)
    ensures ToSet(KeysOf(visited)) == m.Keys
  {
    var keys := KeysOf(visited);
    forall k | k in ToSet(keys)
      ensures k in m
    {
      var i :| 0 <= i < |keys| && keys[i] == k;
      assert visited[i].0 == k;
    }
  }

  /** One more invoked task: the store loses its key when it is an erase. */
  lemma ErasedKeysStep(s0: map<IVec3, Chunk>, ran: seq<Task>, t: Task, s: map<IVec3, Chunk>, s': map<IVec3, Chunk>)
    requires s == s0 - ErasedKeys(ran)
    requires s' == if t.EraseChunk? then s - {t.key} else s
    ensures s' == s0 - ErasedKeys(ran + [t])
  {
    assert (ran + [t])[..|ran|] == ran;
  }

  lemma NoSpawnAppend(a: seq<Task>, b: seq<Task>)
    requires NoSpawn(a) && NoSpawn(b)
    ensures NoSpawn(a + b)
  {
    forall i | 0 <= i < |a + b|
      ensures !(a + b)[i].Spawn?
    {
      if i < |a| {
        assert (a + b)[i] == a[i];
      } else {
        assert (a + b)[i] == b[i - |a|];
      }
    }
  }

  /** The load pass queues neither a spawning task nor an erase. */
  lemma {:induction false} LoadTasksErase(from: nat, n: nat)
    ensures NoSpawn(LoadTasks(from, n))
    ensures forall k :: EraseChunk(k) !in LoadTasks(from, n)
    decreases n
  {
    if n > 0 {
      LoadTasksErase(from, n - 1);
      NoSpawnAppend(LoadTasks(from, n - 1), [AttachAtlas(from + n - 1), UploadMesh(from + n - 1)]);
    }
  }

  /** The eviction pass queues no spawning task, and an erase exactly for
      each evicted coordinate. */
  lemma {:induction false} EvictionTasksErase(keys: seq<IVec3>, store: map<IVec3, Chunk>, objects: map<Tag, Renderable?>)
    requires forall k :: k in keys ==> k in store
    ensures NoSpawn(EvictionTasks(keys, store, objects))
    ensures forall k :: EraseChunk(k) in EvictionTasks(keys, store, objects) <==> k in keys
    decreases |keys|
  {
    if keys != [] {
      var prefix, last := keys[..|keys| - 1], keys[|keys| - 1];
      assert keys == prefix + [last];
      EvictionTasksErase(prefix, store, objects);
      NoSpawnAppend(EvictionTasks(prefix, store, objects), EvictionOf(last, store, objects));
      forall k
        ensures EraseChunk(k) in EvictionTasks(keys, store, objects) <==> k in keys
      {
        assert k in keys <==> k in prefix || k == last;
      }
    }
  }

  /** Draining the queue that one Update leaves behind, from a drained
      queue, erases from the store exactly the evicted coordinates. */
  lemma DrainErasesEvicted(from: nat, n: nat, keys: seq<IVec3>, store: map<IVec3, Chunk>, objects: map<Tag, Renderable?>)
    requires forall k :: k in keys ==> k in store
    ensures forall k :: k in ErasedKeys(Schedule(LoadTasks(from, n) + EvictionTasks(keys, store, objects))) <==> k in keys
  {
    var a, b := LoadTasks(from, n), EvictionTasks(keys, store, objects);
    LoadTasksErase(from, n);
    EvictionTasksErase(keys, store, objects);
    NoSpawnAppend(a, b);
    ScheduleWithoutSpawn(a + b);
    forall k
      ensures k in ErasedKeys(NonEmpty(a + b)) <==> k in keys
    {
      ErasedKeysMembers(NonEmpty(a + b), k);
      NonEmptyMembers(a + b, EraseChunk(k));
    }
  }

  /** An Update from a drained queue followed by a drain: the store holds
      exactly the coordinates it held or that are in view, less those the
      rule evicts. */
  lemma TickKeepsView(pc: IVec3, store0: map<IVec3, Chunk>, store: map<IVec3, Chunk>, objects: map<Tag, Renderable?>,
                      from: nat, n: nat, evicted: seq<IVec3>)
    requires forall k :: k in store <==> k in store0 || InView(pc, k)
    requires forall k :: k in evicted <==> k in store && Evicts(pc, k)
    ensures forall k :: k in evicted ==> k in store
    ensures forall k ::
      k in store && k !in ErasedKeys(Schedule(LoadTasks(from, n) + EvictionTasks(evicted, store, objects)))
      <==> (k in store0 || InView(pc, k)) && !Evicts(pc, k)
  {
    DrainErasesEvicted(from, n, evicted, store, objects);
  }

  /** `new Chunk()` and Initialize(16 * coord) as Update does them: default
      terrain at the chunk's world position. */
  method NewTerrainChunk(id: nat, coord: IVec3, q: TaskQueue, shaders: ShaderRegistry) returns (c: Chunk)
    modifies q
    ensures fresh(c) && fresh(c.blocks) && fresh(c.transform) && Loaded(coord, c) && c.id == id
    ensures q.tasks == old(q.tasks) + [AttachAtlas(id), UploadMesh(id)]
  {
    var position := IVec3(ChunkSize * coord.x, 0, ChunkSize * coord.z);
    c := new Chunk.Initialize(id, position, false, q, shaders);
    TerrainGrid(c.blocks[..], false);
  }

  class WorldState {
    const store: ThreadedChunkMap
    const queue: TaskQueue
    const renderer: ObjectRegistry
    const textures: TextureRegistry
    const shaders: ShaderRegistry
    const gpu: Gpu
    /** The chunks the queued closures refer to, by id. */
    var arena: map<nat, Chunk>
    var nextId: nat

    constructor ()
      ensures store.loadedChunks == map[] && queue.tasks == [] && renderer.registeredObjects == map[]
      ensures arena == map[] && nextId == 0 && gpu.calls == []
      ensures fresh(store) && fresh(queue) && fresh(renderer) && fresh(textures) && fresh(shaders) && fresh(gpu)
    {
      store := new ThreadedChunkMap();
      queue := new TaskQueue();
      renderer := new ObjectRegistry();
      textures := new TextureRegistry();
      shaders := new ShaderRegistry();
      gpu := new Gpu();
      arena := map[];
      nextId := 0;
    }

    /** The renderer holds no null entry (nothing here calls operator[] on it). */
    ghost predicate NoNullObjects()
      reads renderer
    {
      forall k :: k in renderer.registeredObjects ==> renderer.registeredObjects[k] != null
    }

    /** The body of the load loops: a new terrain chunk at world position
        (16x, 0, 16z) when the store lacks `coord`, nothing otherwise. */
    method LoadAt(coord: IVec3)
      modifies this, store, queue
      ensures coord in old(store.loadedChunks) ==>
        store.loadedChunks == old(store.loadedChunks) && queue.tasks == old(queue.tasks)
        && arena == old(arena) && nextId == old(nextId)
      ensures coord !in old(store.loadedChunks) ==>
        coord in store.loadedChunks &&
        var c := store.loadedChunks[coord];
        && store.loadedChunks == old(store.loadedChunks)[coord := c]
        && fresh(c) && fresh(c.blocks) && fresh(c.transform) && Loaded(coord, c) && c.id == old(nextId)
        && arena == old(arena)[old(nextId) := c] && nextId == old(nextId) + 1
        && queue.tasks == old(queue.tasks) + [AttachAtlas(old(nextId)), UploadMesh(old(nextId))]
    {
      var present := store.Contains(coord);
      if !present {
        var chunk := NewTerrainChunk(nextId, coord, queue, shaders);
        arena := arena[nextId := chunk];
        nextId := nextId + 1;
        store.AddChunk(coord, chunk);
      }
    }

    ghost predicate LoadProgress(store0: map<IVec3, Chunk>, arena0: map<nat, Chunk>, id0: nat, q0: seq<Task>,
                                 done: seq<IVec3>, loaded: seq<IVec3>, made: seq<Chunk>)
      reads this, store, queue
    {
      Progress(store.loadedChunks, arena, nextId, queue.tasks, store0, arena0, id0, q0, done, loaded, made)
    }

    /** One iteration of the load loops as a step of LoadProgress: `coord`
        has not been visited, so it is in the store exactly when it was at
        the start of the pass. */
    method LoadStep(coord: IVec3, ghost store0: map<IVec3, Chunk>, ghost arena0: map<nat, Chunk>, ghost id0: nat,
                    ghost q0: seq<Task>, ghost done: seq<IVec3>, ghost loaded: seq<IVec3>, ghost made: seq<Chunk>)
      returns (ghost loaded': seq<IVec3>, ghost made': seq<Chunk>)
      requires coord !in done
      requires LoadProgress(store0, arena0, id0, q0, done, loaded, made)
      requires forall k :: k in store.loadedChunks && k !in store0 ==> Loaded(k, store.loadedChunks[k])
      modifies this, store, queue
      ensures LoadProgress(store0, arena0, id0, q0, done + [coord], loaded', made')
      ensures loaded' == loaded + (if coord in store0 then [] else [coord])
      ensures forall k :: k in store.loadedChunks && k !in store0 ==> Loaded(k, store.loadedChunks[k])
      ensures forall k :: k in old(store.loadedChunks) ==>
        k in store.loadedChunks && store.loadedChunks[k] == old(store.loadedChunks)[k]
      ensures forall k :: k in store.loadedChunks && k !in old(store.loadedChunks) ==> fresh(store.loadedChunks[k])
    {
      ghost var s, a, n, t := store.loadedChunks, arena, nextId, queue.tasks;
      LoadAt(coord);
      loaded', made' := ProgressStep(s, a, n, t, store.loadedChunks, arena, nextId, queue.tasks,
                                     store0, arena0, id0, q0, done, loaded, made, coord);
    }

    /** The inner load loop (over z) for row dx. */
    method LoadRow(pc: IVec3, dx: int, ghost store0: map<IVec3, Chunk>, ghost arena0: map<nat, Chunk>, ghost id0: nat,
                   ghost q0: seq<Task>, ghost done: seq<IVec3>, ghost loaded: seq<IVec3>, ghost made: seq<Chunk>)
      returns (ghost loaded': seq<IVec3>, ghost made': seq<Chunk>)
      requires LoadProgress(store0, arena0, id0, q0, done, loaded, made)
      requires forall k :: k in done ==> k.x < pc.x + dx
      requires forall k :: k in store.loadedChunks && k !in store0 ==> Loaded(k, store.loadedChunks[k])
      modifies this, store, queue
      ensures LoadProgress(store0, arena0, id0, q0, done + Row(pc, dx), loaded', made')
      ensures forall k :: k in store.loadedChunks && k !in store0 ==> Loaded(k, store.loadedChunks[k])
      ensures forall k :: k in old(store.loadedChunks) ==>
        k in store.loadedChunks && store.loadedChunks[k] == old(store.loadedChunks)[k]
      ensures forall k :: k in store.loadedChunks && k !in old(store.loadedChunks) ==> fresh(store.loadedChunks[k])
    {
      ghost var row, start := Row(pc, dx), store.loadedChunks;
      var dz := -ViewDistance;
      loaded', made' := loaded, made;
      assert done + row[..0] == done;
      while dz <= ViewDistance
        invariant -ViewDistance <= dz <= ViewDistance + 1
        invariant LoadProgress(store0, arena0, id0, q0, done + row[..dz + ViewDistance], loaded', made')
        invariant forall k :: k in store.loadedChunks && k !in store0 ==> Loaded(k, store.loadedChunks[k])
        invariant forall k :: k in start ==> k in store.loadedChunks && store.loadedChunks[k] == start[k]
        invariant forall k :: k in store.loadedChunks && k !in start ==> fresh(store.loadedChunks[k])
      {
        var coord := IVec3(pc.x + dx, 0, pc.z + dz);
        ghost var visited := done + row[..dz + ViewDistance];
        NotYetVisited(done, pc, dx, dz);
        loaded', made' := LoadStep(coord, store0, arena0, id0, q0, visited, loaded', made');
        dz := dz + 1;
      }
      assert row[..dz + ViewDistance] == row;
    }

    /** The load pass of Update: rows x = pc.x - 1 .. pc.x + 1, each through LoadRow. */
    method LoadPass(pc: IVec3) returns (ghost loaded: seq<IVec3>, ghost made: seq<Chunk>)
      modifies this, store, queue
      ensures Progress(store.loadedChunks, arena, nextId, queue.tasks,
                       old(store.loadedChunks), old(arena), old(nextId), old(queue.tasks), ViewOrder(pc), loaded, made)
      ensures forall k :: k in store.loadedChunks && k !in old(store.loadedChunks) ==>
        fresh(store.loadedChunks[k]) && Loaded(k, store.loadedChunks[k])
    {
      ghost var store0, arena0, id0, q0 := store.loadedChunks, arena, nextId, queue.tasks;
      loaded, made := [], [];
      var dx := -ViewDistance;
      while dx <= ViewDistance
        invariant -ViewDistance <= dx <= ViewDistance + 1
        invariant LoadProgress(store0, arena0, id0, q0, RowsBefore(pc, dx), loaded, made)
        invariant forall k :: k in store.loadedChunks && k !in store0 ==> Loaded(k, store.loadedChunks[k])
        invariant forall k :: k in store0 ==> k in store.loadedChunks && store.loadedChunks[k] == store0[k]
        invariant forall k :: k in store.loadedChunks && k !in store0 ==> fresh(store.loadedChunks[k])
      {
        RowsBeforeLeft(pc, dx);
        loaded, made := LoadRow(pc, dx, store0, arena0, id0, q0, RowsBefore(pc, dx), loaded, made);
        dx := dx + 1;
      }
    }

    /** chunkSet, filled by inserting each key ForEach visits. */
    method CollectChunkSet() returns (chunkSet: set<IVec3>)
      ensures chunkSet == store.loadedChunks.Keys
    {
      var visited := store.ForEach();
      ghost var keys := KeysOf(visited);
      chunkSet := {};
      var i := 0;
      while i < |visited|
        invariant 0 <= i <= |visited|
        invariant chunkSet == ToSet(keys[..i])
      {
        ToSetStep(keys, i);
        chunkSet := chunkSet + {visited[i].0};
        i := i + 1;
      }
      assert keys[..i] == keys;
      VisitedKeys(visited, store.loadedChunks);
    }

    /** Where the eviction loop stands: the store and the registry are as
        they were, the queue and the log gained the clean-ups and erases of
        `evicted`, and every mesh of an evicted chunk is cleared. */
    ghost predicate EvictState(chunks: map<IVec3, Chunk>, objects: map<Tag, Renderable?>, q0: seq<Task>, log0: seq<string>,
                               evicted: seq<IVec3>, cleared: set<Renderable>)
      reads this, store, renderer, queue, cleared
    {
      && store.loadedChunks == chunks && renderer.registeredObjects == objects
      && (forall k :: k in objects ==> objects[k] != null)
      && (forall k :: k in evicted ==> k in chunks)
      && queue.tasks == q0 + EvictionTasks(evicted, chunks, objects)
      && renderer.errorLog == log0 + EvictionLog(evicted, chunks, objects)
      && (forall o :: o in cleared ==> Cleared(o))
      && MeshesCleared(evicted, chunks, objects, cleared)
    }

    /** The body of the eviction loop for a coordinate that is evicted:
        GetChunk(key)->CleanUp(), then RemoveChunk(key). The meshes among
        `cleared` stay cleared and the chunk's own mesh joins them. */
    method EvictOne(key: IVec3, ghost cleared: set<Renderable>) returns (ghost cleared': set<Renderable>)
      requires key in store.loadedChunks && NoNullObjects()
      requires forall o :: o in cleared ==> Cleared(o)
      modifies queue, renderer,
        var n := store.loadedChunks[key].mesh.name;
        if n in renderer.registeredObjects then {renderer.registeredObjects[n]} else {}
      ensures renderer.registeredObjects == old(renderer.registeredObjects)
      ensures var n := store.loadedChunks[key].mesh.name;
        && queue.tasks == old(queue.tasks) + EvictionOf(key, store.loadedChunks, renderer.registeredObjects)
        && renderer.errorLog == old(renderer.errorLog) + CleanUpLog(n, renderer.registeredObjects)
        && cleared' == cleared + (if n in renderer.registeredObjects && renderer.registeredObjects[n] != null
                                  then {renderer.registeredObjects[n]} else {})
      ensures forall o :: o in cleared' ==> Cleared(o)
    {
      var chunk := store.GetChunk(key);
      var n := chunk.mesh.name;
      cleared' := cleared + (if n in renderer.registeredObjects && renderer.registeredObjects[n] != null
                             then {renderer.registeredObjects[n]} else {});
      chunk.CleanUp(renderer, queue);
      store.RemoveChunk(key, queue);
    }

    /** EvictOne as a step of EvictState: `key` joins the evicted coordinates. */
    method EvictStep(key: IVec3, ghost chunks: map<IVec3, Chunk>, ghost objects: map<Tag, Renderable?>,
                     ghost q0: seq<Task>, ghost log0: seq<string>, ghost evicted: seq<IVec3>, ghost cleared: set<Renderable>)
      returns (ghost cleared': set<Renderable>)
      requires key in chunks
      requires EvictState(chunks, objects, q0, log0, evicted, cleared)
      modifies queue, renderer, renderer.Objects()
      ensures EvictState(chunks, objects, q0, log0, evicted + [key], cleared')
    {
      ghost var q, log := queue.tasks, renderer.errorLog;
      cleared' := EvictOne(key, cleared);
      EvictionTasksStep(evicted, key, chunks, objects, q0, q, queue.tasks);
      EvictionLogStep(evicted, key, chunks, objects, log0, log, renderer.errorLog);
      MeshesClearedStep(evicted, key, chunks, objects, cleared, cleared');
    }

    /** One visit of the eviction loop: the rule, and EvictOne when it holds. */
    method EvictVisit(pc: IVec3, key: IVec3, ghost chunkSet: set<IVec3>, ghost remaining: set<IVec3>,
                      ghost chunks: map<IVec3, Chunk>, ghost objects: map<Tag, Renderable?>,
                      ghost q0: seq<Task>, ghost log0: seq<string>, ghost evicted: seq<IVec3>, ghost cleared: set<Renderable>)
      returns (ghost evicted': seq<IVec3>, ghost cleared': set<Renderable>)
      requires key in remaining && remaining <= chunkSet && chunkSet <= chunks.Keys
      requires EvictProgress(pc, chunkSet, remaining, evicted)
      requires EvictState(chunks, objects, q0, log0, evicted, cleared)
      modifies queue, renderer, renderer.Objects()
      ensures EvictProgress(pc, chunkSet, remaining - {key}, evicted')
      ensures EvictState(chunks, objects, q0, log0, evicted', cleared')
    {
      EvictProgressStep(pc, chunkSet, remaining, evicted, key);
      if Evicts(pc, key) {
        cleared' := EvictStep(key, chunks, objects, q0, log0, evicted, cleared);
        evicted' := evicted + [key];
      } else {
        evicted', cleared' := evicted, cleared;
      }
    }

    /** The eviction pass of Update over chunkSet. An evicted chunk's mesh is
        cleaned up first and its removal from the store is only queued. */
    method EvictPass(pc: IVec3, chunkSet: set<IVec3>) returns (ghost evicted: seq<IVec3>, ghost cleared: set<Renderable>)
      requires chunkSet <= store.loadedChunks.Keys
      requires NoNullObjects()
      modifies queue, renderer, renderer.Objects()
      ensures EvictProgress(pc, chunkSet, {}, evicted)
      ensures EvictState(old(store.loadedChunks), old(renderer.registeredObjects), old(queue.tasks), old(renderer.errorLog),
                         evicted, cleared)
    {
      ghost var chunks, q0, log0, objects := store.loadedChunks, queue.tasks, renderer.errorLog, renderer.registeredObjects;
      cleared := {};
      var remaining := chunkSet;
      evicted := [];
      while remaining != {}
        invariant remaining <= chunkSet
        invariant EvictProgress(pc, chunkSet, remaining, evicted)
        invariant EvictState(chunks, objects, q0, log0, evicted, cleared)
        decreases remaining
      {
        var key := AnyKey(remaining);
        evicted, cleared := EvictVisit(pc, key, chunkSet, remaining, chunks, objects, q0, log0, evicted, cleared);
        remaining := remaining - {key};
      }
    }

    /** The load pass of Update, read off through PassLoadsView. */
    method LoadView(pc: IVec3)
      modifies this, store, queue
      ensures forall k :: k in store.loadedChunks <==> k in old(store.loadedChunks) || InView(pc, k)
      ensures forall k :: k in old(store.loadedChunks) ==> store.loadedChunks[k] == old(store.loadedChunks)[k]
      ensures forall k :: k in store.loadedChunks && k !in old(store.loadedChunks) ==>
        var c := store.loadedChunks[k];
        fresh(c) && Loaded(k, c) && old(nextId) <= c.id < nextId && c.id in arena && arena[c.id] == c
      ensures forall id :: id in old(arena) && id < old(nextId) ==> id in arena && arena[id] == old(arena)[id]
      ensures old(nextId) <= nextId
      ensures queue.tasks == old(queue.tasks) + LoadTasks(old(nextId), nextId - old(nextId))
    {
      ghost var store0, arena0, id0, q0 := store.loadedChunks, arena, nextId, queue.tasks;
      ghost var loaded, made := LoadPass(pc);
      PassLoadsView(store.loadedChunks, arena, nextId, queue.tasks, store0, arena0, id0, q0, pc, loaded, made);
    }

    /** The eviction pass of Update over the keys the store holds now, read
        off through EvictProgress and EvictState. */
    method EvictView(pc: IVec3) returns (ghost evicted: seq<IVec3>, ghost cleared: set<Renderable>)
      requires NoNullObjects()
      modifies queue, renderer, renderer.Objects()
      ensures forall k :: k in evicted <==> k in store.loadedChunks && Evicts(pc, k)
      ensures forall i, j :: 0 <= i < j < |evicted| ==> evicted[i] != evicted[j]
      ensures queue.tasks == old(queue.tasks) + EvictionTasks(evicted, store.loadedChunks, renderer.registeredObjects)
      ensures renderer.registeredObjects == old(renderer.registeredObjects)
      ensures renderer.errorLog == old(renderer.errorLog) + EvictionLog(evicted, store.loadedChunks, renderer.registeredObjects)
      ensures forall o :: o in cleared ==> Cleared(o)
      ensures MeshesCleared(evicted, store.loadedChunks, renderer.registeredObjects, cleared)
    {
      var chunkSet := CollectChunkSet();
      evicted, cleared := EvictPass(pc, chunkSet);
    }

    /** World::Update for an observer at `observer` (the integer overload of
        WorldToChunkCoordinates). The store keeps what it held and gains
        every missing in-view coordinate, each a new terrain chunk with a
        fresh id that the arena holds; the queue gains their tasks, then the
        clean-ups and erases of `evicted`: each coordinate of the store, old
        or new, that the rule evicts, once. Only old coordinates are evicted.
        The erases are only queued: the store still holds every key. */
    method Update(observer: IVec3) returns (ghost evicted: seq<IVec3>, ghost cleared: set<Renderable>)
      requires NoNullObjects()
      modifies this, store, queue, renderer, renderer.Objects()
      ensures var pc := WorldToChunkCoordinates(observer);
        && (forall k :: k in store.loadedChunks <==> k in old(store.loadedChunks) || InView(pc, k))
        && (forall k :: k in evicted <==> k in store.loadedChunks && Evicts(pc, k))
      ensures forall k :: k in old(store.loadedChunks) ==> store.loadedChunks[k] == old(store.loadedChunks)[k]
      ensures forall k :: k in store.loadedChunks && k !in old(store.loadedChunks) ==>
        var c := store.loadedChunks[k];
        fresh(c) && Loaded(k, c) && old(nextId) <= c.id < nextId && c.id in arena && arena[c.id] == c
      ensures forall id :: id in old(arena) && id < old(nextId) ==> id in arena && arena[id] == old(arena)[id]
      ensures forall k :: k in evicted ==> k in old(store.loadedChunks)
      ensures forall i, j :: 0 <= i < j < |evicted| ==> evicted[i] != evicted[j]
      ensures old(nextId) <= nextId
      ensures queue.tasks == old(queue.tasks) + LoadTasks(old(nextId), nextId - old(nextId))
                             + EvictionTasks(evicted, store.loadedChunks, renderer.registeredObjects)
      ensures renderer.registeredObjects == old(renderer.registeredObjects)
      ensures renderer.errorLog == old(renderer.errorLog) + EvictionLog(evicted, store.loadedChunks, renderer.registeredObjects)
      ensures forall o :: o in cleared ==> Cleared(o)
      ensures MeshesCleared(evicted, store.loadedChunks, renderer.registeredObjects, cleared)
    {
      var pc := WorldToChunkCoordinates(observer);
      ghost var store0 := store.loadedChunks;
      LoadView(pc);
      evicted, cleared := EvictView(pc);
      forall k | k in evicted
        ensures k in store0
      {
        if k !in store0 {
          InViewIsKept(pc, k);
        }
      }
    }

    /** Everything a queued closure may touch: the arena's chunks and their meshes. */
    ghost function ArenaObjects(): set<object>
      reads this
    {
      (set id | id in arena :: arena[id] as object) + (set id | id in arena :: arena[id].mesh as object)
    }

    /** Invoking a non-empty task. A chunk task whose chunk is not in the
        arena does nothing. */
    method Run(t: Task)
      requires t != Empty
      modifies store, queue, renderer, textures, gpu, ArenaObjects()
      ensures queue.tasks == old(queue.tasks) + (if t.Spawn? then t.tasks else [])
      ensures store.loadedChunks == if t.EraseChunk? then old(store.loadedChunks) - {t.key} else old(store.loadedChunks)
      ensures t.EraseObject? ==> renderer.registeredObjects == old(renderer.registeredObjects) - {t.name}
      ensures t.UploadMesh? && t.chunk in arena ==>
        var mesh := arena[t.chunk].mesh;
        renderer.registeredObjects == old(renderer.registeredObjects)[mesh.name := mesh]
      ensures !t.EraseObject? && !(t.UploadMesh? && t.chunk in arena) ==>
        renderer.registeredObjects == old(renderer.registeredObjects)
      ensures t.ReleaseMesh? ==> gpu.calls == old(gpu.calls) + [Released(t.mesh)]
      ensures t.UploadMesh? && t.chunk in arena ==>
        var c := arena[t.chunk];
        && c.mesh.vertices == c.vertices && c.mesh.indices == c.indices
        && c.vertices == old(c.vertices) && c.indices == old(c.indices) && !c.firstRebuild
        && gpu.calls == old(gpu.calls) + [if old(c.firstRebuild) then Generated(c.mesh.name, c.vertices, c.indices)
                                          else Regenerated(c.mesh.name, c.vertices, c.indices)]
      ensures !t.ReleaseMesh? && !(t.UploadMesh? && t.chunk in arena) ==> gpu.calls == old(gpu.calls)
      ensures t.AttachAtlas? && t.chunk in arena ==>
        var mesh := arena[t.chunk].mesh;
        var lookup := Subscript(old(textures.registeredTextures), "atlas", DefaultTexture);
        mesh.textures == Insert(old(mesh.textures), "atlas", lookup.0) && textures.registeredTextures == lookup.1
      ensures !(t.AttachAtlas? && t.chunk in arena) ==> textures.registeredTextures == old(textures.registeredTextures)
      ensures !t.AttachAtlas? && !t.UploadMesh? ==> unchanged(ArenaObjects())
      ensures t.AttachAtlas? && t.chunk in arena ==>
        var mesh := arena[t.chunk].mesh;
        && unchanged(ArenaObjects() - {mesh})
        && mesh.vertices == old(mesh.vertices) && mesh.indices == old(mesh.indices)
        && mesh.shader == old(mesh.shader) && mesh.transform == old(mesh.transform) && mesh.buffers == old(mesh.buffers)
      ensures t.UploadMesh? && t.chunk in arena ==>
        var c := arena[t.chunk];
        && unchanged(ArenaObjects() - {c, c.mesh})
        && c.faces == old(c.faces) && c.indicesIndex == old(c.indicesIndex)
        && c.mesh.textures == old(c.mesh.textures) && c.mesh.shader == old(c.mesh.shader)
        && c.mesh.transform == old(c.mesh.transform) && c.mesh.buffers == old(c.mesh.buffers)
      ensures t.AttachAtlas? && t.chunk in arena && "atlas" !in old(textures.registeredTextures) ==>
        textures.errorLog == old(textures.errorLog) + [MissingTextureMessage("atlas")]
      ensures !(t.AttachAtlas? && t.chunk in arena && "atlas" !in old(textures.registeredTextures)) ==>
        textures.errorLog == old(textures.errorLog)
      ensures renderer.errorLog == old(renderer.errorLog)
    {
      match t
      case Empty =>
        assert false;
      case AttachAtlas(id) =>
        if id in arena {
          arena[id].RunAttachAtlas(textures);
        }
      case UploadMesh(id) =>
        if id in arena {
          arena[id].RunUploadMesh(renderer, gpu);
        }
      case ReleaseMesh(mesh) =>
        gpu.Record(Released(mesh));
      case EraseObject(name) =>
        renderer.Erase(name);
      case EraseChunk(key) =>
        store.Erase(key);
      case Spawn(ts) =>
        queue.QueueAll(ts);
    }

    /** MainThreadExecutor::UpdateTasks: pops and invokes until the queue is
        empty, including what the invoked tasks queue meanwhile. `ran` is
        what was invoked: the drain's Schedule of the queue it started from.
        The store loses exactly the coordinates whose erase ran. */
    method UpdateTasks() returns (ghost ran: seq<Task>)
      modifies store, queue, renderer, textures, gpu, ArenaObjects()
      ensures queue.tasks == [] && ran == Schedule(old(queue.tasks))
      ensures store.loadedChunks == old(store.loadedChunks) - ErasedKeys(ran)
    {
      ghost var q0, s0 := queue.tasks, store.loadedChunks;
      ran := [];
      while true
        invariant ran + Schedule(queue.tasks) == Schedule(q0)
        invariant store.loadedChunks == s0 - ErasedKeys(ran)
        decreases SizeAll(queue.tasks)
      {
        ghost var before := queue.tasks;
        var next := queue.Pop();
        if next.None? {
          break;
        }
        var t := next.value;
        DrainStep(ran, before, t, queue.tasks, Schedule(q0));
        if t != Empty {
          ghost var s := store.loadedChunks;
          Run(t);
          ErasedKeysStep(s0, ran, t, s, store.loadedChunks);
          ran := ran + [t];
        }
      }
    }
  }
}
