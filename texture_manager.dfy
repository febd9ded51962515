/** The texture registry of TextureManager.hpp: textures by name. */
module TextureManager {
  import opened Textures
  import opened StdMap

  /** The message Logger_ThrowError records when a lookup misses. */
  function MissingTextureMessage(name: string): string {
    "Failed to load texture: '" + name + "'"
  }

  class TextureRegistry {
    var registeredTextures: map<string, Texture>
    /** What the logger has been asked to report, oldest first. */
    ghost var errorLog: seq<string>

    constructor ()
      ensures registeredTextures == map[] && errorLog == []
    {
      registeredTextures := map[];
      errorLog := [];
    }

    /** TextureManager::RegisterTexture: the first texture under a name wins. */
    method RegisterTexture(texture: Texture)
      modifies this
      ensures registeredTextures == Insert(old(registeredTextures), texture.name, texture)
      ensures texture.name in registeredTextures
      ensures texture.name in old(registeredTextures) ==> registeredTextures == old(registeredTextures)
      ensures errorLog == old(errorLog)
    {
      registeredTextures := Insert(registeredTextures, texture.name, texture);
    }

    /** TextureManager::GetTexture: a miss is logged and then answered with a
        default texture, which operator[] leaves in the registry. */
    method GetTexture(name: string) returns (texture: Texture)
      modifies this
      ensures (texture, registeredTextures) == Subscript(old(registeredTextures), name, DefaultTexture)
      ensures name in registeredTextures
      ensures name in old(registeredTextures) ==>
        texture == old(registeredTextures)[name] && registeredTextures == old(registeredTextures) && errorLog == old(errorLog)
      ensures name !in old(registeredTextures) ==>
        texture == DefaultTexture && registeredTextures == old(registeredTextures)[name := DefaultTexture]
        && errorLog == old(errorLog) + [MissingTextureMessage(name)]
    {
      if name !in registeredTextures {
        errorLog := errorLog + [MissingTextureMessage(name)];
      }
      var p := Subscript(registeredTextures, name, DefaultTexture);
      texture, registeredTextures := p.0, p.1;
    }
  }
}
