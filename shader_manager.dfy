/** The shader registry of ShaderManager.hpp. Shader objects are held by
    shared pointer there and copied out on lookup; here they are values, so a
    copy is the value itself. */
module ShaderManager {
  import opened Wrappers
  import opened StdMap

  /** The data fields of a ShaderObject; the GL program handle starts at 1. */
  datatype ShaderObject = ShaderObject(
    name: string,
    vertexPath: string, fragmentPath: string,
    vertexData: string, fragmentData: string,
    shaderProgram: nat)

  class ShaderRegistry {
    var registeredShaders: map<string, ShaderObject>

    constructor ()
      ensures registeredShaders == map[]
    {
      registeredShaders := map[];
    }

    /** ShaderManager::RegisterShader: the first shader under a name wins. */
    method RegisterShader(shader: ShaderObject)
      modifies this
      ensures registeredShaders == Insert(old(registeredShaders), shader.name, shader)
      ensures shader.name in old(registeredShaders) ==> registeredShaders == old(registeredShaders)
    {
      registeredShaders := Insert(registeredShaders, shader.name, shader);
    }

    /** ShaderManager::GetShader: a copy of the stored shader, or null. */
    function GetShader(name: string): (r: Option<ShaderObject>)
      reads this
      ensures r.Some? <==> name in registeredShaders
      ensures r.Some? ==> r.value == registeredShaders[name]
    {
      if name in registeredShaders then Some(registeredShaders[name]) else None
    }
  }

  /** Registering two shaders under one name and looking it up yields the first. */
  method RegisterTwiceKeepsFirst(first: ShaderObject, second: ShaderObject) returns (found: Option<ShaderObject>)
    requires first.name == second.name
    ensures found == Some(first)
  {
    var registry := new ShaderRegistry();
    registry.RegisterShader(first);
    registry.RegisterShader(second);
    found := registry.GetShader(first.name);
  }
}
