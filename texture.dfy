/** Texture descriptors of Texture.hpp: the texture-type names, the properties
    record and the two ways of naming a texture file. */
module Textures {

  datatype TextureType = Diffuse | Specular | Normal

  /** The shader uniform prefix of each texture type. */
  function TextureType2String(t: TextureType): (s: string)
    ensures t == Diffuse <==> s == "texture_diffuse"
    ensures t == Specular <==> s == "texture_specular"
    ensures t == Normal <==> s == "texture_normal"
  {
    match t
    case Diffuse => "texture_diffuse"
    case Specular => "texture_specular"
    case Normal => "texture_normal"
  }

  /** Only the diffuse and specular names are recognised; every other string is Normal. */
  function String2TextureType(s: string): (t: TextureType)
    ensures t == Diffuse <==> s == "texture_diffuse"
    ensures t == Specular <==> s == "texture_specular"
  {
    if s == "texture_diffuse" then Diffuse
    else if s == "texture_specular" then Specular
    else Normal
  }

  lemma TextureTypeRoundTrip(t: TextureType)
    ensures String2TextureType(TextureType2String(t)) == t
  {
  }

  /** Mapping a string to a type and back is the identity exactly on the three names. */
  lemma StringRoundTrip(s: string)
    ensures TextureType2String(String2TextureType(s)) == s <==>
      s == "texture_diffuse" || s == "texture_specular" || s == "texture_normal"
  {
  }

  const GL_REPEAT := 0x2901
  const GL_NEAREST := 0x2600

  datatype TextureProperties = TextureProperties(wrapping: int, precision: int, flip: bool, textureType: TextureType)

  /** TextureProperties::Register: a record of the four arguments. */
  function RegisterProperties(wrapping: int, precision: int, flip: bool, textureType: TextureType): (p: TextureProperties)
    ensures p.wrapping == wrapping && p.precision == precision
    ensures p.flip == flip && p.textureType == textureType
  {
    TextureProperties(wrapping, precision, flip, textureType)
  }

  /** DEFAULT_TEXTURE_PROPERTIES. */
  function DefaultProperties(): (p: TextureProperties)
    ensures p == TextureProperties(GL_REPEAT, GL_NEAREST, true, Diffuse)
  {
    RegisterProperties(GL_REPEAT, GL_NEAREST, true, Diffuse)
  }

  /** A texture before upload: the GL handle is 0 and the size (0,0) until Generate runs. */
  datatype Texture = Texture(name: string, path: string, sizeX: int, sizeY: int, textureID: nat)

  /** A value-initialised Texture. */
  const DefaultTexture := Texture("", "", 0, 0, 0)

  /** Texture::Register: the file lives under assets/<domain>/. */
  function Register(localPath: string, name: string, domain: string): (t: Texture)
    ensures t.name == name
    ensures t.path == "assets/" + domain + "/" + localPath
    ensures t.sizeX == 0 && t.sizeY == 0 && t.textureID == 0
  {
    Texture(name, "assets/" + domain + "/" + localPath, 0, 0, 0)
  }

  /** Texture::RegisterGlobalPath: the path is kept verbatim. */
  function RegisterGlobalPath(path: string, name: string): (t: Texture)
    ensures t == DefaultTexture.(name := name, path := path)
  {
    Texture(name, path, 0, 0, 0)
  }

  /** The asset path ends with the local path and starts with the domain directory. */
  lemma RegisterPathShape(localPath: string, name: string, domain: string)
    ensures var p := Register(localPath, name, domain).path;
      |p| == 8 + |domain| + |localPath|
      && p[..7] == "assets/" && p[7..7 + |domain|] == domain
      && p[7 + |domain|] == '/' && p[8 + |domain|..] == localPath
  {
  }

  /** The two registrations agree when the global path is the assembled asset path. */
  lemma RegisterIsGlobalPathUnderAssets(localPath: string, name: string, domain: string)
    ensures Register(localPath, name, domain) == RegisterGlobalPath("assets/" + domain + "/" + localPath, name)
  {
  }
}
