// Naming of the shader uniforms that carry a texture (anigraph/defines.ts):
// for a texture called `name` the material declares the uniform that holds
// the map, a flag saying whether one was provided, and its size.

module TextureKeys {
  import opened Strings

  /** Uniform holding the texture itself: `name` followed by "Map". */
  function TextureKey(name: string): (key: string)
    ensures |key| == |name| + 3 && key[..|name|] == name && key[|name|..] == "Map"
  {
    name + "Map"
  }

  /** Uniform flagging that the texture was provided: `name` followed by "MapProvided". */
  function TextureProvidedKey(name: string): (key: string)
    ensures |key| == |name| + 11 && key[..|name| + 3] == TextureKey(name) && key[|name| + 3..] == "Provided"
  {
    name + "MapProvided"
  }

  /** Uniform holding the texture's size: `name` followed by "Size". */
  function TextureSizeKey(name: string): (key: string)
    ensures |key| == |name| + 4 && key[..|name|] == name && key[|name|..] == "Size"
  {
    name + "Size"
  }

  /**
   * The three kinds of key never collide, even across different texture
   * names: the map key ends in 'p', the flag in 'd' and the size in 'e'.
   */
  lemma KeyKindsDisjoint(a: string, b: string)
    ensures TextureKey(a) != TextureProvidedKey(b)
    ensures TextureKey(a) != TextureSizeKey(b)
    ensures TextureProvidedKey(a) != TextureSizeKey(b)
  {
    LastCharSeparates(a, b, "Map", "MapProvided");
    LastCharSeparates(a, b, "Map", "Size");
    LastCharSeparates(a, b, "MapProvided", "Size");
  }

  /** Different texture names get different keys of each kind. */
  lemma KeysInjective(a: string, b: string)
    requires a != b
    ensures TextureKey(a) != TextureKey(b)
    ensures TextureProvidedKey(a) != TextureProvidedKey(b)
    ensures TextureSizeKey(a) != TextureSizeKey(b)
  {
    if TextureKey(a) == TextureKey(b) { SuffixCancel(a, b, "Map"); }
    if TextureProvidedKey(a) == TextureProvidedKey(b) { SuffixCancel(a, b, "MapProvided"); }
    if TextureSizeKey(a) == TextureSizeKey(b) { SuffixCancel(a, b, "Size"); }
  }
}
