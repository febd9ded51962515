/** The object registry of Renderer.hpp. It is keyed by the NameIDTag object
    itself (shared_ptr identity), so two tags with equal name strings are two
    entries. A value is a possibly null pointer, because operator[] inserts a
    null entry on a miss. Drawing (RenderObjects) is not modelled. */
module Renderer {
  import opened NameIDTag
  import opened StdMap
  import opened MainThreadExecutor
  import opened Renderables

  /** The message Logger_ThrowError records when RemoveObject misses. */
  function MissingObjectMessage(name: string): string {
    "No element named '" + name + "' was found in registeredObjects."
  }

  /** The release task RenderableObject::CleanUp queues for the entry under
      `k`; a missing or null entry queues nothing. */
  function Release(k: Tag, objects: map<Tag, Renderable?>): (r: seq<Task>)
    ensures k in objects && objects[k] != null ==> r == [ReleaseMesh(objects[k].name)]
    ensures k !in objects || objects[k] == null ==> r == []
  {
    if k in objects && objects[k] != null then [ReleaseMesh(objects[k].name)] else []
  }

  /** The release tasks queued for the entries under `keys`, in that order. */
  function Releases(keys: seq<Tag>, objects: map<Tag, Renderable?>): seq<Task>
  {
    if keys == [] then [] else Releases(keys[..|keys| - 1], objects) + Release(keys[|keys| - 1], objects)
  }

  /** With every entry present and non-null, one release per key. */
  lemma {:induction false} ReleasesLength(keys: seq<Tag>, objects: map<Tag, Renderable?>)
    requires forall k :: k in keys ==> k in objects && objects[k] != null
    ensures |Releases(keys, objects)| == |keys|
    decreases |keys|
  {
    if keys != [] {
      var prefix := keys[..|keys| - 1];
      assert forall k :: k in prefix ==> k in keys;
      ReleasesLength(prefix, objects);
    }
  }

  /** What RenderableObject::CleanUp leaves on the CPU side. */
  ghost predicate Cleared(r: Renderable)
    reads r
  {
    r.vertices == [] && r.indices == [] && r.buffers == map[]
  }

  /** The i-th release belongs to the object under the i-th key. */
  lemma {:induction false} ReleasesAt(keys: seq<Tag>, objects: map<Tag, Renderable?>, i: int)
    requires forall k :: k in keys ==> k in objects && objects[k] != null
    requires 0 <= i < |keys|
    ensures |Releases(keys, objects)| == |keys|
    ensures Releases(keys, objects)[i] == ReleaseMesh(objects[keys[i]].name)
    decreases |keys|
  {
    var prefix := keys[..|keys| - 1];
    assert forall k :: k in prefix ==> k in keys;
    ReleasesLength(prefix, objects);
    if i < |keys| - 1 {
      assert prefix[i] == keys[i];
      ReleasesAt(prefix, objects, i);
    }
  }

  lemma ReleasesAppend(keys: seq<Tag>, k: Tag, objects: map<Tag, Renderable?>)
    requires k in objects && objects[k] != null
    ensures Releases(keys + [k], objects) == Releases(keys, objects) + [ReleaseMesh(objects[k].name)]
  {
    assert (keys + [k])[..|keys|] == keys;
  }

  /** The loop of Renderer::CleanUp: RenderableObject::CleanUp on the object
      of every entry, visiting each key once. */
  method CleanUpEach(entries: map<Tag, Renderable?>, q: TaskQueue) returns (ghost visited: seq<Tag>)
    requires forall k :: k in entries ==> entries[k] != null
    modifies q, set k | k in entries :: entries[k]
    ensures forall k :: k in visited <==> k in entries
    ensures forall i, j :: 0 <= i < j < |visited| ==> visited[i] != visited[j]
    ensures q.tasks == old(q.tasks) + Releases(visited, entries)
    ensures forall k :: k in entries ==> Cleared(entries[k])
  {
    var remaining := entries.Keys;
    ghost var before := q.tasks;
    visited := [];
    while remaining != {}
      invariant remaining <= entries.Keys
      invariant forall k :: k in visited ==> k in entries && k !in remaining
      invariant forall i, j :: 0 <= i < j < |visited| ==> visited[i] != visited[j]
      invariant q.tasks == before + Releases(visited, entries)
      invariant forall k :: k in entries.Keys - remaining ==> k in visited && Cleared(entries[k])
      decreases remaining
    {
      var key := AnyKey(remaining);
      CleanUpEntry(entries, key, q, before, visited, remaining);
      visited := visited + [key];
      remaining := remaining - {key};
    }
  }

  /** One iteration of Renderer::CleanUp's loop: the entry under `key` is
      cleaned up, and the entries cleaned up earlier stay cleared. */
  method CleanUpEntry(entries: map<Tag, Renderable?>, key: Tag, q: TaskQueue,
                      ghost before: seq<Task>, ghost visited: seq<Tag>, ghost remaining: set<Tag>)
    requires forall k :: k in entries ==> entries[k] != null
    requires key in remaining && remaining <= entries.Keys
    requires q.tasks == before + Releases(visited, entries)
    requires forall k :: k in entries.Keys - remaining ==> Cleared(entries[k])
    modifies q, entries[key]
    ensures q.tasks == before + Releases(visited + [key], entries)
    ensures forall k :: k in entries.Keys - (remaining - {key}) ==> Cleared(entries[k])
  {
    var renderable := entries[key];
    renderable.CleanUp(q);
    ReleasesAppend(visited, key, entries);
  }

  class ObjectRegistry {
    var registeredObjects: map<Tag, Renderable?>
    /** What the logger has been asked to report, oldest first. */
    ghost var errorLog: seq<string>

    constructor ()
      ensures registeredObjects == map[] && errorLog == []
    {
      registeredObjects := map[];
      errorLog := [];
    }

    /** The objects the registry points to. */
    ghost function Objects(): set<Renderable>
      reads this
    {
      set k | k in registeredObjects && registeredObjects[k] != null :: registeredObjects[k]
    }

    /** Renderer::RegisterObject: assignment when the tag is present, insert
        otherwise; either way the tag now maps to this object. */
    method RegisterObject(renderable: Renderable)
      modifies this
      ensures registeredObjects == old(registeredObjects)[renderable.name := renderable]
      ensures errorLog == old(errorLog)
    {
      if renderable.name in registeredObjects {
        registeredObjects := registeredObjects[renderable.name := renderable];
        return;
      }
      registeredObjects := Insert(registeredObjects, renderable.name, renderable);
    }

    /** Renderer::GetRenderableObject: operator[], which inserts null on a miss. */
    method GetRenderableObject(name: Tag) returns (renderable: Renderable?)
      modifies this
      ensures (renderable, registeredObjects) == Subscript(old(registeredObjects), name, null)
      ensures name !in old(registeredObjects) ==> renderable == null
      ensures errorLog == old(errorLog)
    {
      var p := Subscript(registeredObjects, name, null);
      renderable, registeredObjects := p.0, p.1;
    }

    /** Renderer::RemoveObject: a registered object is cleaned up at once and
        erased later, through the queue; an unknown tag is logged and nothing
        else happens. The source dereferences the entry, so a present entry
        must not be null. */
    method RemoveObject(name: Tag, q: TaskQueue)
      requires name in registeredObjects ==> registeredObjects[name] != null
      modifies this, q, if name in registeredObjects then {registeredObjects[name]} else {}
      ensures registeredObjects == old(registeredObjects)
      ensures name in registeredObjects ==>
        var renderable := registeredObjects[name];
        q.tasks == old(q.tasks) + [ReleaseMesh(renderable.name), EraseObject(name)]
        && renderable.vertices == [] && renderable.indices == [] && renderable.buffers == map[]
        && renderable.textures == old(renderable.textures) && renderable.shader == old(renderable.shader)
        && errorLog == old(errorLog)
      ensures name !in registeredObjects ==>
        q.tasks == old(q.tasks) && errorLog == old(errorLog) + [MissingObjectMessage(name.name)]
    {
      if name in registeredObjects {
        var renderable := registeredObjects[name];
        renderable.CleanUp(q);
        q.QueueTask(EraseObject(name));
      } else {
        errorLog := errorLog + [MissingObjectMessage(name.name)];
      }
    }

    /** The closure RemoveObject queues: registeredObjects.erase(name). */
    method Erase(name: Tag)
      modifies this
      ensures registeredObjects == old(registeredObjects) - {name}
      ensures errorLog == old(errorLog)
    {
      registeredObjects := registeredObjects - {name};
    }

    /** Renderer::CleanUp: every object is cleaned up, in some order of the
        keys (visited), and the registry is left empty. */
    method CleanUp(q: TaskQueue) returns (ghost visited: seq<Tag>)
      requires forall k :: k in registeredObjects ==> registeredObjects[k] != null
      modifies this, q, Objects()
      ensures registeredObjects == map[] && errorLog == old(errorLog)
      ensures forall k :: k in visited <==> k in old(registeredObjects)
      ensures forall i, j :: 0 <= i < j < |visited| ==> visited[i] != visited[j]
      ensures q.tasks == old(q.tasks) + Releases(visited, old(registeredObjects))
      ensures forall o :: o in old(Objects()) ==> Cleared(o)
    {
      visited := CleanUpEach(registeredObjects, q);
      registeredObjects := map[];
    }
  }
}
