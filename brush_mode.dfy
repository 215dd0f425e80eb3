// The editing mode shared by the player controls and the particle emitter:
// no editing, raising, lowering or flattening the terrain.

module BrushMode {
  datatype Mode = NoMode | Add | Remove | Flatten
}
