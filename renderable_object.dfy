/** RenderableObject.hpp: a mesh with its vertex and index buffers, its
    shader, its textures and its transform. The OpenGL calls are not
    modelled; what Generate, ReGenerate and the deferred buffer release hand
    to the GPU is recorded, in order, on a `Gpu` log. */
module Renderables {
  import opened Vectors
  import opened Wrappers
  import opened NameIDTag
  import opened StdMap
  import opened Textures
  import opened ShaderManager
  import opened TextureManager
  import opened Transforms
  import opened MainThreadExecutor

  datatype Vertex = Vertex(position: Vec3, color: Vec3, textureCoordinates: Vec2)

  /** Vertex::Register(position, textureCoordinates): the colour is white. */
  function RegisterVertex(position: Vec3, textureCoordinates: Vec2): (v: Vertex)
    ensures v.position == position && v.textureCoordinates == textureCoordinates
    ensures v.color == One
  {
    Vertex(position, One, textureCoordinates)
  }

  /** What the engine asks of the GPU for one mesh. */
  datatype GpuCall =
    | Generated(mesh: Tag, vertices: seq<Vertex>, indices: seq<int>)    // Generate: shader, buffers, textures
    | Regenerated(mesh: Tag, vertices: seq<Vertex>, indices: seq<int>)  // ReGenerate: buffers only
    | Released(mesh: Tag)                                               // the deferred glDelete* and shader CleanUp

  class Gpu {
    var calls: seq<GpuCall>

    constructor ()
      ensures calls == []
    {
      calls := [];
    }

    method Record(c: GpuCall)
      modifies this
      ensures calls == old(calls) + [c]
    {
      calls := calls + [c];
    }
  }

  /** The buffer table a RenderableObject starts with. */
  const InitialBuffers: map<string, nat> := map["VAO" := 0, "VBO" := 0, "EBO" := 0]

  class Renderable {
    const name: Tag
    var vertices: seq<Vertex>
    var indices: seq<int>
    var shader: Option<ShaderObject>
    var textures: map<string, Texture>
    var transform: Transform
    var buffers: map<string, nat>

    /** RenderableObject::Register: the shader is looked up by name and is
        null when no shader of that name is registered. */
    constructor Register(name: Tag, vertices: seq<Vertex>, indices: seq<int>, shaderName: string, shaders: ShaderRegistry)
      ensures this.name == name && this.vertices == vertices && this.indices == indices
      ensures shader == shaders.GetShader(shaderName)
      ensures textures == map[] && buffers == InitialBuffers
      ensures fresh(transform) && transform.position == Zero && transform.rotation == Zero
      ensures transform.scale == One && transform.pivot == Zero && transform.up == Up
    {
      this.name := name;
      this.vertices := vertices;
      this.indices := indices;
      shader := shaders.GetShader(shaderName);
      textures := map[];
      transform := new Transform.Default();
      buffers := InitialBuffers;
    }

    /** RenderableObject::RegisterTexture: the texture is always fetched from
        the registry (which may log and insert a default), and then inserted
        only if the mesh has no texture under that name yet. */
    method RegisterTexture(texture: string, registry: TextureRegistry)
      modifies this, registry
      ensures var (fetched, after) := Subscript(old(registry.registeredTextures), texture, DefaultTexture);
        registry.registeredTextures == after && textures == Insert(old(textures), texture, fetched)
      ensures texture in old(registry.registeredTextures) ==> registry.errorLog == old(registry.errorLog)
      ensures texture !in old(registry.registeredTextures) ==>
        registry.errorLog == old(registry.errorLog) + [MissingTextureMessage(texture)]
      ensures vertices == old(vertices) && indices == old(indices) && buffers == old(buffers)
      ensures shader == old(shader) && transform == old(transform)
    {
      var fetched := registry.GetTexture(texture);
      textures := Insert(textures, texture, fetched);
    }

    /** RenderableObject::RegisterData: copies the two buffers. */
    method RegisterData(vertices: seq<Vertex>, indices: seq<int>)
      modifies this
      ensures this.vertices == vertices && this.indices == indices
      ensures shader == old(shader) && textures == old(textures)
      ensures transform == old(transform) && buffers == old(buffers)
    {
      this.vertices := vertices;
      this.indices := indices;
    }

    /** RenderableObject::Generate: the first upload of the current buffers. */
    method Generate(gpu: Gpu)
      modifies gpu
      ensures gpu.calls == old(gpu.calls) + [Generated(name, vertices, indices)]
    {
      gpu.Record(Generated(name, vertices, indices));
    }

    /** RenderableObject::ReGenerate: a later upload of the current buffers. */
    method ReGenerate(gpu: Gpu)
      modifies gpu
      ensures gpu.calls == old(gpu.calls) + [Regenerated(name, vertices, indices)]
    {
      gpu.Record(Regenerated(name, vertices, indices));
    }

    /** RenderableObject::CleanUp: the GPU release is queued for the main
        thread; the CPU-side buffers are emptied at once. */
    method CleanUp(q: TaskQueue)
      modifies this, q
      ensures q.tasks == old(q.tasks) + [ReleaseMesh(name)]
      ensures vertices == [] && indices == [] && buffers == map[]
      ensures shader == old(shader) && textures == old(textures) && transform == old(transform)
    {
      q.QueueTask(ReleaseMesh(name));
      vertices := [];
      indices := [];
      buffers := map[];
    }
  }
}
