# Terraforming-Simulation: a verified model of the terrain editor and its framework core

Terraforming-Simulation is a browser game in which a player walks over a low-poly terrain and raises, lowers or flattens it under a circular brush. This project models its core in Dafny and proves properties of the model:

- the height grid, its world-grid coordinate maps, the bilinear height query and the colour ramp (`TerrainGrid`);
- the brush falloff functions and the brush stroke that finds and updates the grid vertices under the brush (`TerrainBrush`);
- the flat-shaded mesh built from the grid and the incremental patch applied after each stroke (`TerrainMesh`);
- the `LowPolyTerrainModel` class that owns the grid and the vertex buffer (`TerrainModel`);
- the first-person editing mode: key-chosen brush, wheel-sized cursor, player movement, ground clamp and brush dispatch (`PlayerInteraction`, `BrushMode`);
- the orbit camera's pitch clamp and horizontal directions (`PlayerCameraModel`);
- the ring-shaped terrain cursor (`TerrainCursor`);
- the ground particles that stream between the player and the brush (`GroundParticles`);
- the anigraph framework pieces the game rests on:
  - the scene graph's parent, child and root links (`SceneGraph`, `ObjectNode`);
  - the scene's model map (`ModelGraphs`);
  - interaction modes (`InteractionModes`);
  - the application state and its control-panel specs (`AppStates`, `GuiSpecs`);
  - the line-colour buffer (`LineGraphic`);
  - the texture uniform names (`TextureKeys`).

Heights, coordinates, speeds and angles are exact reals. `Math.sqrt`, `Math.cos`, `Math.sin`, `Math.PI`, the noise source and `Math.random` are parameters of the operations that use them, each constrained only by the properties the proofs need. Operations that change objects in place are methods of classes whose fields are the source's fields. They are proved against functions over values, and the properties of those functions are proved as lemmas.

## Model

| member | source | states |
|---|---|---|
| TerrainGrid.WorldToGrid | src/FinalProject/Main/Nodes/LowPolyTerrain/LowPolyTerrainModel.ts:206-210 | world to continuous grid coordinates; it carries no contract of its own, and `GridEdges`, `GridWorldGrid` and `WorldGridWorld` state it: the world rectangle's edges land on the first and last grid lines, and it is the inverse of `gridToWorld` |
| TerrainGrid.GridToWorld | src/FinalProject/Main/Nodes/LowPolyTerrain/LowPolyTerrainModel.ts:212-216 | grid to world coordinates; it carries no contract of its own, and `GridEdges`, `GridToWorldX`, `GridToWorldY` and the two round trips state it |
| TerrainGrid.GridEdges | src/FinalProject/Main/Nodes/LowPolyTerrain/LowPolyTerrainModel.ts:206-216 | the world rectangle, centred on the origin, covers the grid exactly: `(-width/2, -height/2)` maps to grid `(0, 0)` and `(width/2, height/2)` to `(segmentsX, segmentsY)`, and back |
| TerrainGrid.WorldGridWorld | src/FinalProject/Main/Nodes/LowPolyTerrain/LowPolyTerrainModel.ts:206-216 | `gridToWorld` undoes `worldToGrid` for every world point, given a positive size and at least one segment per axis |
| TerrainGrid.GridWorldGrid | src/FinalProject/Main/Nodes/LowPolyTerrain/LowPolyTerrainModel.ts:206-216 | `worldToGrid` undoes `gridToWorld` for every grid position, so the two maps are mutually inverse |
| TerrainGrid.GridToWorldX | src/FinalProject/Main/Nodes/LowPolyTerrain/LowPolyTerrainModel.ts:212-216 | the world x of grid column `gx` is `gx * cellWidth - width/2`, the corner formula the mesh code uses |
| TerrainGrid.GridToWorldY | src/FinalProject/Main/Nodes/LowPolyTerrain/LowPolyTerrainModel.ts:212-216 | the same for rows: `gy * cellHeight - height/2` |
| TerrainGrid.HeightAt | src/FinalProject/Main/Nodes/LowPolyTerrain/LowPolyTerrainModel.ts:76-99 | the height query; it carries no contract of its own, and the `HeightAt…` lemmas below state it: 0 outside the half-open grid, the stored height at grid vertices, and otherwise the bilinear blend of the four surrounding samples, lying between their least and greatest |
| TerrainGrid.HeightAtInterpolates | src/FinalProject/Main/Nodes/LowPolyTerrain/LowPolyTerrainModel.ts:76-99 | in range the `??` fallbacks never fire: the query is the bilinear blend of the four stored samples around `(floor gx, floor gy)`, with both fractions in [0,1) |
| TerrainGrid.HeightAtOutsideDomain | src/FinalProject/Main/Nodes/LowPolyTerrain/LowPolyTerrainModel.ts:76-85 | outside the half-open world square the query returns exactly 0 |
| TerrainGrid.HeightAtFarEdge | src/FinalProject/Main/Nodes/LowPolyTerrain/LowPolyTerrainModel.ts:80-85 | at a grid vertex on the last column or the last row the query returns 0, not the stored height |
| TerrainGrid.HeightAtVertex | src/FinalProject/Main/Nodes/LowPolyTerrain/LowPolyTerrainModel.ts:76-99 | at a grid vertex of the open cell range the query returns exactly the stored height |
| TerrainGrid.HeightAtWithinSamples | src/FinalProject/Main/Nodes/LowPolyTerrain/LowPolyTerrainModel.ts:87-98 | in range the query lies between the least and the greatest of the four surrounding samples |
| TerrainGrid.ColorForHeight | src/FinalProject/Main/Nodes/LowPolyTerrain/LowPolyTerrainModel.ts:175-204 | the colour ramp; it carries no contract of its own, and the `Color…` lemmas below state it: opaque, the first stop at or below 0, the last at or above `maxHeight`, stop k exactly at `k/4 * maxHeight`, and otherwise the blend of the two bracketing stops |
| TerrainGrid.ColorAlphaOne | src/FinalProject/Main/Nodes/LowPolyTerrain/LowPolyTerrainModel.ts:175-204 | every colour of the ramp is opaque |
| TerrainGrid.ColorAtOrBelowZero | src/FinalProject/Main/Nodes/LowPolyTerrain/LowPolyTerrainModel.ts:175-196 | heights at or below 0 give the first stop |
| TerrainGrid.ColorAtOrAboveMax | src/FinalProject/Main/Nodes/LowPolyTerrain/LowPolyTerrainModel.ts:187-193 | heights at or above `maxHeight` give the last stop unmodified |
| TerrainGrid.ColorAtStop | src/FinalProject/Main/Nodes/LowPolyTerrain/LowPolyTerrainModel.ts:175-204 | the height `k/4 * maxHeight` gets exactly stop k, so the ramp has no jump at a stop |
| TerrainGrid.ColorBlendsBracketingStops | src/FinalProject/Main/Nodes/LowPolyTerrain/LowPolyTerrainModel.ts:187-203 | strictly between 0 and `maxHeight` the colour is the blend of the two stops that bracket `4h/maxHeight`, at its fractional part |
| TerrainGrid.BlendBetween | src/FinalProject/Main/Nodes/LowPolyTerrain/LowPolyTerrainModel.ts:195-203 | each blended channel lies between the two stops' channels and alpha is 1 |
| TerrainBrush.BaseHeightChange | src/FinalProject/Main/Nodes/LowPolyTerrain/LowPolyTerrainModel.ts:299-308 | the add/remove falloff `strength * (1 - d/radius)^2`; it carries no contract of its own, and the `Base…` lemmas below state it: full strength at the centre, 0 on the rim, the sign of `strength` and at most its size inside the brush, monotone in the distance, and unclamped past the rim |
| TerrainBrush.BaseAtCentre | src/FinalProject/Main/Nodes/LowPolyTerrain/LowPolyTerrainModel.ts:299-308 | at the brush centre the change is the full strength |
| TerrainBrush.BaseAtRim | src/FinalProject/Main/Nodes/LowPolyTerrain/LowPolyTerrainModel.ts:299-308 | on the rim the change is 0 |
| TerrainBrush.BaseWithinStrength | src/FinalProject/Main/Nodes/LowPolyTerrain/LowPolyTerrainModel.ts:299-308 | inside the brush the change has the sign of `strength` and never exceeds it in size |
| TerrainBrush.BaseMonotone | src/FinalProject/Main/Nodes/LowPolyTerrain/LowPolyTerrainModel.ts:299-308 | a vertex nearer the centre changes at least as much as one further out |
| TerrainBrush.BaseUnclampedBeyondRim | src/FinalProject/Main/Nodes/LowPolyTerrain/LowPolyTerrainModel.ts:304-307 | the falloff is not clamped: past the rim the formula is positive again, so only the caller's distance test keeps far vertices still |
| TerrainBrush.FlattenHeightChange | src/FinalProject/Main/Nodes/LowPolyTerrain/LowPolyTerrainModel.ts:274-297 | the flatten change; it carries no contract of its own, and the lemmas below state it: 0 without a normal, otherwise a step between `0.1*abs(offset)` and `abs(offset)` with the sign of the plane offset, which moves the sample towards the plane without crossing it |
| TerrainBrush.FlattenWithoutNormal | src/FinalProject/Main/Nodes/LowPolyTerrain/LowPolyTerrainModel.ts:274-281 | without a normal the flatten change is 0 |
| TerrainBrush.ClampedStepBounded | src/FinalProject/Main/Nodes/LowPolyTerrain/LowPolyTerrainModel.ts:289-296 | the clamped step has the sign of the plane offset and `0.1*abs(dist) <= abs(step) <= abs(dist)`, whatever the push |
| TerrainBrush.FlattenStepBounded | src/FinalProject/Main/Nodes/LowPolyTerrain/LowPolyTerrainModel.ts:284-296 | the same bounds for the falloff-weighted step: flattening never overshoots and never stalls |
| TerrainBrush.FlattenStepConverges | src/FinalProject/Main/Nodes/LowPolyTerrain/LowPolyTerrainModel.ts:274-297 | with an upward normal, applying the step moves the sample's plane offset towards 0 without crossing it and by at least `0.1*nz` of itself |
| TerrainBrush.TouchedInBox | src/FinalProject/Main/Nodes/LowPolyTerrain/LowPolyTerrainModel.ts:220-236 | the clamped bounding box never cuts the brush disk: every grid vertex within `radius` lies in it |
| TerrainBrush.BrushOutsideGrid | src/FinalProject/Main/Nodes/LowPolyTerrain/LowPolyTerrainModel.ts:218-254 | a brush wholly outside the grid's rectangle changes no height and reports no cell |
| TerrainBrush.BrushedCells | src/FinalProject/Main/Nodes/LowPolyTerrain/LowPolyTerrainModel.ts:245-248 | every reported cell `(cx, cy)` has `0 <= cx < segmentsX` and `0 <= cy < segmentsY` |
| TerrainMesh.CellIndexRoundTrip | src/FinalProject/Main/Nodes/LowPolyTerrain/LowPolyTerrainModel.ts:329 | numbering cells `y*segmentsX + x` maps the cells one to one onto `[0, cellCount)` |
| TerrainMesh.CellNumberRoundTrip | src/FinalProject/Main/Nodes/LowPolyTerrain/LowPolyTerrainModel.ts:116-117 | every cell number in range comes from exactly one in-range cell, in y-outer, x-inner order |
| TerrainMesh.CellCornersOnGrid | src/FinalProject/Main/Nodes/LowPolyTerrain/LowPolyTerrainModel.ts:118-133 | a cell's four corners are its grid vertices at their stored heights, forming a cell-sized rectangle |
| TerrainMesh.CellPositionsAreCorners | src/FinalProject/Main/Nodes/LowPolyTerrain/LowPolyTerrainModel.ts:139-167 | each of the six vertices of a cell sits on one of its corners, slot 0 bottom-left and slot 1 bottom-right in both diagonal variants |
| TerrainMesh.TrianglesFaceUp | src/FinalProject/Main/Nodes/LowPolyTerrain/LowPolyTerrainModel.ts:140-161 | each of the four possible triangles of a cell has a cross product with z = width*height > 0 |
| TerrainMesh.NormalizedUpward | src/FinalProject/Main/Nodes/LowPolyTerrain/LowPolyTerrainModel.ts:140 | normalising a vector with positive z gives a unit vector with positive z |
| TerrainMesh.CellNormalsUnitUpward | src/FinalProject/Main/Nodes/LowPolyTerrain/LowPolyTerrainModel.ts:140-164 | every vertex normal of a cell is a unit vector pointing up |
| TerrainMesh.BuiltVerticesStep | src/FinalProject/Main/Nodes/LowPolyTerrain/LowPolyTerrainModel.ts:116-169 | the mesh of the first `c+1` cells is that of the first `c` cells followed by cell `c`'s six vertices |
| TerrainMesh.BuiltTrianglesStep | src/FinalProject/Main/Nodes/LowPolyTerrain/LowPolyTerrainModel.ts:144-166 | one more cell appends the triangles `(6c, 6c+1, 6c+2)` and `(6c+3, 6c+4, 6c+5)` |
| TerrainMesh.TrianglesWithinOneCell | src/FinalProject/Main/Nodes/LowPolyTerrain/LowPolyTerrainModel.ts:144-166 | triangle t is `3t, 3t+1, 3t+2`, all three vertices of one cell and inside the vertex array |
| TerrainMesh.BuiltVertexOnGrid | src/FinalProject/Main/Nodes/LowPolyTerrain/LowPolyTerrainModel.ts:106-173 | every built vertex sits on a grid vertex of its own cell at that vertex's height, has a unit upward normal, uv (0,0) and its cell's average-height colour |
| TerrainMesh.BuiltShows | src/FinalProject/Main/Nodes/LowPolyTerrain/LowPolyTerrainModel.ts:106-173 | a freshly built mesh shows the grid it was built from |
| TerrainMesh.CornerZAtCorner | src/FinalProject/Main/Nodes/LowPolyTerrain/LowPolyTerrainModel.ts:367-379 | in a cell at least 0.001 wide and high, a vertex on a corner's XY gets exactly that corner's height |
| TerrainMesh.TinyCellTakesWrongCorner | src/FinalProject/Main/Nodes/LowPolyTerrain/LowPolyTerrainModel.ts:369-376 | in a cell narrower than 0.001 both ways, the top-right vertex matches the bottom-left corner first and takes its height |
| TerrainMesh.CornerZStable | src/FinalProject/Main/Nodes/LowPolyTerrain/LowPolyTerrainModel.ts:367-379 | matching a vertex a second time leaves its height where the first match put it |
| TerrainMesh.PatchCorner | src/FinalProject/Main/Nodes/LowPolyTerrain/LowPolyTerrainModel.ts:344-361 | a patched vertex keeps its normal and uv and takes the cell's colour |
| TerrainMesh.PatchRestoresMesh | src/FinalProject/Main/Nodes/LowPolyTerrain/LowPolyTerrainModel.ts:320-379 | if the mesh shows the old heights and the new heights differ only at corners of the listed cells, patching those cells gives a mesh that shows the new heights, every normal kept (cells at least 0.001 across) |
| TerrainMesh.PatchIdempotent | src/FinalProject/Main/Nodes/LowPolyTerrain/LowPolyTerrainModel.ts:320-379 | patching the same cells again with unchanged heights changes nothing |
| TerrainMesh.PatchNothing | src/FinalProject/Main/Nodes/LowPolyTerrain/LowPolyTerrainModel.ts:320-365 | patching no cells leaves the mesh as it is |
| TerrainMesh.PatchOneMore | src/FinalProject/Main/Nodes/LowPolyTerrain/LowPolyTerrainModel.ts:326-362 | patching one more cell touches only that cell's six vertices, so the order of the cells does not matter |
| TerrainMesh.CellWrites | src/FinalProject/Main/Nodes/LowPolyTerrain/LowPolyTerrainModel.ts:344-361 | the writes the loop body makes for one cell are exactly the patch of that cell |
| TerrainMesh.BrushChangesWithinCells | src/FinalProject/Main/Nodes/LowPolyTerrain/LowPolyTerrainModel.ts:239-248 | a brush stroke changes heights only at corners of the cells it reports |
| TerrainModel.FlatTerrainIsLevel | src/FinalProject/Main/Nodes/LowPolyTerrain/LowPolyTerrainModel.ts:38-46 | a terrain fresh from `initHeights` answers 0 to every height query |
| TerrainModel.HillSampleWithinAmplitude | src/FinalProject/Main/Nodes/LowPolyTerrain/LowPolyTerrainModel.ts:63-70 | with noise in [-1,1], every generated sample lies in `[0, amplitude]` |
| TerrainModel.HillsWithinAmplitude | src/FinalProject/Main/Nodes/LowPolyTerrain/LowPolyTerrainModel.ts:60-99 | so does the height query anywhere on generated terrain |
| TerrainModel.CellGeometry | src/FinalProject/Main/Nodes/LowPolyTerrain/LowPolyTerrainModel.ts:118-167 | the loop body emits the cell's six vertices and the two triangles numbered from the running vertex index |
| TerrainModel.BuildMesh | src/FinalProject/Main/Nodes/LowPolyTerrain/LowPolyTerrainModel.ts:114-169 | the nested loops emit every cell's vertices and triangles, row by row |
| TerrainModel.ReportedCells | src/FinalProject/Main/Nodes/LowPolyTerrain/LowPolyTerrainModel.ts:245-248 | the four conditional `visited.add`s, over all touched vertices, give exactly the cells with a touched corner |
| TerrainModel.ScanComplete | src/FinalProject/Main/Nodes/LowPolyTerrain/LowPolyTerrainModel.ts:235-251 | once the scan passes the last row of the box it has met every touched vertex |
| TerrainModel.ScanVertex | src/FinalProject/Main/Nodes/LowPolyTerrain/LowPolyTerrainModel.ts:237-249 | one step of the scan changes a vertex exactly when its XY distance is within the radius, by `heightUpdate(vec)` |
| TerrainModel.DistanceToVertex | src/FinalProject/Main/Nodes/LowPolyTerrain/LowPolyTerrainModel.ts:239-240 | the distance measured is the XY distance to the grid vertex, whatever its height |
| TerrainModel.TouchedMember | src/FinalProject/Main/Nodes/LowPolyTerrain/LowPolyTerrainModel.ts:240-242 | a grid vertex is in the touched set exactly when it is within the brush |
| TerrainModel.LowPolyTerrainModel.constructor | src/FinalProject/Main/Nodes/LowPolyTerrain/LowPolyTerrainModel.ts:13-36 | missing arguments default to a 10 x 10 terrain of 16 x 16 cells with `maxHeight` 6 and a flat grid |
| TerrainModel.LowPolyTerrainModel.InitHeights | src/FinalProject/Main/Nodes/LowPolyTerrain/LowPolyTerrainModel.ts:38-46 | leaves `segmentsY+1` rows of `segmentsX+1` zeros |
| TerrainModel.LowPolyTerrainModel.GenerateHills | src/FinalProject/Main/Nodes/LowPolyTerrain/LowPolyTerrainModel.ts:60-73 | overwrites every sample with `((noise+1)/2)*amplitude` at uncentred world coordinates (defaults 0.3 and 0.5), rebuilds the mesh and leaves it in step |
| TerrainModel.LowPolyTerrainModel.GenerateGeometry | src/FinalProject/Main/Nodes/LowPolyTerrain/LowPolyTerrainModel.ts:106-173 | rebuilds vertices and triangles from the heights, signals once, and leaves the mesh in step with the grid |
| TerrainModel.LowPolyTerrainModel.GetCells | src/FinalProject/Main/Nodes/LowPolyTerrain/LowPolyTerrainModel.ts:218-254 | every grid vertex within XY distance `radius` changes once by `heightUpdate(vec)`, no other changes, and the result is the set of in-range cells with such a corner |
| TerrainModel.LowPolyTerrainModel.ScanRow | src/FinalProject/Main/Nodes/LowPolyTerrain/LowPolyTerrainModel.ts:236-250 | one row of the scan advances the heights and the cell set to the next row |
| TerrainModel.LowPolyTerrainModel.ScanOne | src/FinalProject/Main/Nodes/LowPolyTerrain/LowPolyTerrainModel.ts:237-249 | one vertex of the scan advances the heights and the cell set to the next vertex |
| TerrainModel.LowPolyTerrainModel.Terraform | src/FinalProject/Main/Nodes/LowPolyTerrain/LowPolyTerrainModel.ts:256-264 | applies `baseHeightChange`, patches exactly the reported cells, signals only when some cell was reported, and keeps a synced mesh synced |
| TerrainModel.LowPolyTerrainModel.Flatten | src/FinalProject/Main/Nodes/LowPolyTerrain/LowPolyTerrainModel.ts:266-272 | the same with `flattenHeightChange` and the optional normal |
| TerrainModel.LowPolyTerrainModel.StrokeKeepsSync | src/FinalProject/Main/Nodes/LowPolyTerrain/LowPolyTerrainModel.ts:256-272 | a stroke followed by the patch of the cells it reports keeps the mesh in step with the heights |
| TerrainModel.LowPolyTerrainModel.UpdateVerticesForCells | src/FinalProject/Main/Nodes/LowPolyTerrain/LowPolyTerrainModel.ts:320-365 | the vertices become the patch of the listed cells over the current heights, with one geometry signal |
| TerrainModel.LowPolyTerrainModel.UpdateCell | src/FinalProject/Main/Nodes/LowPolyTerrain/LowPolyTerrainModel.ts:327-361 | the loop body patches exactly one cell's six vertices |
| TerrainModel.LowPolyTerrainModel.PlaceBlock | src/FinalProject/Main/Nodes/LowPolyTerrain/LowPolyTerrainModel.ts:344-357 | slots 0 and 1 become the bottom corners outright; slots 2 to 5 keep XY and take the matched height |
| TerrainModel.LowPolyTerrainModel.ColorBlock | src/FinalProject/Main/Nodes/LowPolyTerrain/LowPolyTerrainModel.ts:359-361 | the six vertices of the block take the colour and nothing else changes |
| TerrainModel.LowPolyTerrainModel.UpdateVertexZ | src/FinalProject/Main/Nodes/LowPolyTerrain/LowPolyTerrainModel.ts:367-379 | the vertex keeps its XY and takes the height of the first corner within 0.001 in x and y, or keeps its z |
| TerrainModel.LowPolyTerrainModel.MoveZ | src/FinalProject/Main/Nodes/LowPolyTerrain/LowPolyTerrainModel.ts:310-318 | only vertex `index` changes, keeping its XY; the returned position is the stored one |
| TerrainModel.LowPolyTerrainModel.MoveZMatchesBase | src/FinalProject/Main/Nodes/LowPolyTerrain/LowPolyTerrainModel.ts:299-318 | `moveZ` lifts by exactly what `baseHeightChange` gives, with its two extra arguments in the opposite order |
| TerrainModel.LowPolyTerrainModel.Create | src/FinalProject/Main/Nodes/LowPolyTerrain/LowPolyTerrainModel.ts:48-58 | builds a flat terrain with the defaults and its mesh, in step, after one geometry signal |
| PlayerInteraction.WheelRadius | src/FinalProject/Main/InteractionModes/PlayerInteractionMode.ts:141-149 | the new radius always lies in [0.2, 5]; it is the old radius moved by `-deltaY * 0.001` when that lies in range, else the bound it crossed |
| PlayerInteraction.Walk | src/FinalProject/Main/InteractionModes/PlayerInteractionMode.ts:163-177 | opposite keys cancel: with W and S both up or both down, and A and D likewise, the walk is zero |
| PlayerInteraction.Climb | src/FinalProject/Main/InteractionModes/PlayerInteractionMode.ts:182-189 | Space alone climbs at +5, Shift alone sinks at -5, both or neither give 0 |
| PlayerInteraction.Movement | src/FinalProject/Main/InteractionModes/PlayerInteractionMode.ts:163-190 | what `updateMovement` leaves in `movementDir`; it carries no contract of its own, and `MovementSpeed` states it: horizontal speed exactly 5 for any non-zero walk, vertical speed the climb alone |
| PlayerInteraction.MovementSpeed | src/FinalProject/Main/InteractionModes/PlayerInteractionMode.ts:163-190 | with horizontal camera directions, any non-zero walk moves at horizontal speed exactly 5, whatever the diagonal, and the vertical speed is the climb alone |
| PlayerInteraction.NormalizedStaysFlat | src/FinalProject/Main/InteractionModes/PlayerInteractionMode.ts:180 | normalising a horizontal vector keeps it horizontal |
| PlayerInteraction.TerraformStrength | src/FinalProject/Main/InteractionModes/PlayerInteractionMode.ts:41-43 | the slider's value when the app state has one, 3 otherwise |
| PlayerInteraction.ClampAbove | src/FinalProject/Main/InteractionModes/PlayerInteractionMode.ts:262-265 | the ground clamp keeps x and y, never lowers z, raises z to at least `minZ`, and changes nothing when already high enough |
| PlayerInteraction.BrushedByMode | src/FinalProject/Main/InteractionModes/PlayerInteractionMode.ts:272-293 | with no hit point or no brush the heights are unchanged, and the grid keeps its shape |
| PlayerInteraction.BrushedByModeCases | src/FinalProject/Main/InteractionModes/PlayerInteractionMode.ts:276-290 | ADD terraforms with `+strength*delta`, REMOVE with `-strength*delta`, FLATTEN flattens with the hit normal at `5*strength*delta` |
| PlayerInteraction.RemoveMirrorsAdd | src/FinalProject/Main/InteractionModes/PlayerInteractionMode.ts:277-284 | at every offset the REMOVE change is the negation of the ADD change |
| PlayerInteraction.RemoveMirrorsAddOnGrid | src/FinalProject/Main/InteractionModes/PlayerInteractionMode.ts:277-284 | sample by sample, REMOVE moves the height as far below the old surface as ADD moves it above |
| PlayerInteraction.PlaneHitOnPlane | src/FinalProject/Main/InteractionModes/PlayerInteractionMode.ts:67-76 | the point the flatten lock moves to lies on the plane through the previous point with the kept normal |
| PlayerInteraction.PlaneLockKeepsPlane | src/FinalProject/Main/InteractionModes/PlayerInteractionMode.ts:67-76 | locking never moves the plane: every point has the same offset along the normal from the new point as from the previous one, so a flatten stroke keeps the plane of its first frame |
| PlayerInteraction.ResetPitchIsClamped | src/FinalProject/Main/InteractionModes/PlayerInteractionMode.ts:102-105 | `3*pi/2` exceeds the pitch bound 3.1, so a reset always ends at the clamp |
| PlayerInteraction.PlayerInteractionMode.constructor | src/FinalProject/Main/InteractionModes/PlayerInteractionMode.ts:22-45 | the field defaults: brush radius 1, no brush, no movement, `lastT` 0, no hit point, no camera or cursor yet |
| PlayerInteraction.PlayerInteractionMode.SetCursor | src/FinalProject/Main/InteractionModes/PlayerInteractionMode.ts:55-58 | attaches the cursor and scales it to the brush radius |
| PlayerInteraction.PlayerInteractionMode.UpdateCursorScale | src/FinalProject/Main/InteractionModes/PlayerInteractionMode.ts:151-155 | the cursor, when there is one, takes the brush radius as its scale |
| PlayerInteraction.PlayerInteractionMode.Reset | src/FinalProject/Main/InteractionModes/PlayerInteractionMode.ts:102-105 | the camera yaw becomes 0 and the pitch the clamped `3*pi/2`, that is `yMax` |
| PlayerInteraction.PlayerInteractionMode.BeforeActivate | src/FinalProject/Main/InteractionModes/PlayerInteractionMode.ts:122-126 | a fresh camera at distance 3, then reset |
| PlayerInteraction.PlayerInteractionMode.OnWheelMove | src/FinalProject/Main/InteractionModes/PlayerInteractionMode.ts:141-149 | the radius becomes `WheelRadius` of the old one, stays within `[minCursorRadius, maxCursorRadius]`, and the cursor follows |
| PlayerInteraction.PlayerInteractionMode.UpdateMovement | src/FinalProject/Main/InteractionModes/PlayerInteractionMode.ts:163-190 | the movement direction is the normalised walk at speed 5 plus the climb |
| PlayerInteraction.PlayerInteractionMode.UpdateMode | src/FinalProject/Main/InteractionModes/PlayerInteractionMode.ts:192-212 | ADD, REMOVE or FLATTEN exactly when E, Q or F is the only one of the three held (both directions); any other combination gives no brush |
| PlayerInteraction.PlayerInteractionMode.OnKey | src/FinalProject/Main/InteractionModes/PlayerInteractionMode.ts:214-222 | a key going down or up recomputes both the movement and the brush |
| PlayerInteraction.PlayerInteractionMode.UpdateTerrainCursor | src/FinalProject/Main/InteractionModes/PlayerInteractionMode.ts:107-116 | the cursor moves 0.05 above the point, shows unless in screenshot mode, and turns only when a direction is given |
| PlayerInteraction.PlayerInteractionMode.UpdateTerrainIntersection | src/FinalProject/Main/InteractionModes/PlayerInteractionMode.ts:60-92 | in FLATTEN mode with a previous point and normal and a ray with `abs(normal . direction) > 0.00001`, keeps the normal and moves the point to the ray's meeting with the plane through the previous point; otherwise takes the raycast's point and normal, none on a miss |
| PlayerInteraction.PlayerInteractionMode.TimeUpdate | src/FinalProject/Main/InteractionModes/PlayerInteractionMode.ts:252-294 | uses `delta = t - lastT` and sets `lastT := t`; moves and ground-clamps the player and updates the camera directions; updates the point under the mouse, keeping the FLATTEN plane when it is locked; then, at that point, the heights become the current mode's brush result, the mesh is patched over the reached cells (and stays in step with the heights), and the particle pool does exactly what `emitTerraformParticle` decides: at most one particle, for ADD or REMOVE only, at most once per 1/30, reset from the player's new position with the ground colour before the stroke, every other particle unchanged; without a point the cursor hides and terrain and particles are untouched |
| PlayerInteraction.PlayerInteractionMode.FollowMouse | src/FinalProject/Main/InteractionModes/PlayerInteractionMode.ts:270-293 | the mouse part of `timeUpdate`: the point under the mouse as `UpdateTerrainIntersection` states, then the brush, mesh, sync, emission and cursor effects at that point as `PointAt` states |
| PlayerInteraction.PlayerInteractionMode.PointAt | src/FinalProject/Main/InteractionModes/PlayerInteractionMode.ts:272-293 | without a point under the mouse hides the cursor and changes no height, vertex or particle; with one places the cursor 0.05 above it, takes the ground colour there, and brushes: heights, mesh patch, sync and emission as `ApplyBrush` states |
| PlayerInteraction.PlayerInteractionMode.MovePlayer | src/FinalProject/Main/InteractionModes/PlayerInteractionMode.ts:256-265 | the player moves by `movementDir * delta` and is then lifted to at least the terrain height plus its radius, never lowered |
| PlayerInteraction.PlayerInteractionMode.MoveAndLook | src/FinalProject/Main/InteractionModes/PlayerInteractionMode.ts:256-267 | the movement part of `timeUpdate`: the player ends where `MovePlayer` puts it (moved by `movementDir * delta`, lifted onto the ground plus its radius) and the camera looks along the forward direction flattened to the ground plane, with its orthogonal to the right |
| PlayerInteraction.PlayerInteractionMode.BrushAtMouse | src/FinalProject/Main/InteractionModes/PlayerInteractionMode.ts:274-290 | at the point under the mouse: the ground colour is read from the heights before the stroke, and the heights, mesh patch, sync and emission are as `ApplyBrush` states, the emitted particle (if any) carrying that colour |
| PlayerInteraction.PlayerInteractionMode.ApplyBrush | src/FinalProject/Main/InteractionModes/PlayerInteractionMode.ts:276-290 | the heights become the mode's brush result; any brush patches the mesh over the cells it reached and signals once if there were any, no brush leaves mesh and counter alone; a mesh in step with the heights stays in step (cells at least 0.001 across); the emission outcome is `EmissionOutcome` for the mode (so FLATTEN and no brush emit nothing), an emitted particle gets `EmittedState` and becomes the last one emitted, and every other particle keeps its state |
| PlayerInteraction.PlayerInteractionMode.FlattenAt | src/FinalProject/Main/InteractionModes/PlayerInteractionMode.ts:285-287 | FLATTEN at five times `strength * delta`: the heights become the FLATTEN brush result, the mesh is patched and stays in step, and the particle pool is not touched |
| PlayerInteraction.PlayerInteractionMode.TerraformAndEmit | src/FinalProject/Main/InteractionModes/PlayerInteractionMode.ts:277-284 | ADD raises and REMOVE lowers by `strength * delta`, the mesh is patched and stays in step, and then at most one particle is emitted, rate-limited as `emitTerraformParticle` decides, with every other particle unchanged |
| PlayerCameraModel.PlayerCamera.constructor | src/FinalProject/Main/Nodes/PlayerCamera/PlayerCamera.ts:6-14 | yaw 0, pitch `3*pi/2` written straight into the field (so not clamped), distance 3, zero directions |
| PlayerCameraModel.PlayerCamera.SetZRotation | src/FinalProject/Main/Nodes/PlayerCamera/PlayerCamera.ts:16-18 | stores its argument unchanged |
| PlayerCameraModel.PlayerCamera.SetYRotation | src/FinalProject/Main/Nodes/PlayerCamera/PlayerCamera.ts:23-31 | afterwards `yMin <= yRotation <= yMax`; an in-range value is stored unchanged, one below becomes `yMin`, one above `yMax` |
| PlayerCameraModel.PlayerCamera.SetPlayerDist | src/FinalProject/Main/Nodes/PlayerCamera/PlayerCamera.ts:36-38 | stores its argument unchanged |
| PlayerCameraModel.PlayerCamera.UpdateCamera | src/FinalProject/Main/Nodes/PlayerCamera/PlayerCamera.ts:51-52 | both directions are horizontal, perpendicular and equally long, taken from the camera's forward vector |
| TerrainCursor.CreateCircle | src/FinalProject/Main/Nodes/TerrainCursor/TerrainCursorModel.ts:37-63 | `4n` vertices and `2n` triangles for `n` segments, vertex `4s+j` being corner j of segment s and triangle `2s+j` triangle j of segment s |
| TerrainCursor.AppendSegmentVertices | src/FinalProject/Main/Nodes/TerrainCursor/TerrainCursorModel.ts:46-54 | one loop step appends segment s's four corners in the order of the source |
| TerrainCursor.AppendSegmentTriangles | src/FinalProject/Main/Nodes/TerrainCursor/TerrainCursorModel.ts:56-57 | one loop step appends `(4s, 4s+1, 4s+2)` and `(4s, 4s+2, 4s+3)` |
| TerrainCursor.SegmentAppended | src/FinalProject/Main/Nodes/TerrainCursor/TerrainCursorModel.ts:45-59 | appending the four corners of segment s extends a ring of s segments to s+1 |
| TerrainCursor.TrianglesAppended | src/FinalProject/Main/Nodes/TerrainCursor/TerrainCursorModel.ts:56-57 | appending the two triangles of segment s extends the triangle layout to s+1 segments |
| TerrainCursor.RingIndicesInRange | src/FinalProject/Main/Nodes/TerrainCursor/TerrainCursorModel.ts:56-57 | every triangle index of a ring of n segments is below `4n` |
| TerrainCursor.RingVertexAttributes | src/FinalProject/Main/Nodes/TerrainCursor/TerrainCursorModel.ts:47-54 | every vertex has z = 0, normal +Z, uv (0,0) and the ring's colour |
| TerrainCursor.RingCornerRadius | src/FinalProject/Main/Nodes/TerrainCursor/TerrainCursorModel.ts:44-54 | corners 0 and 1 lie on radius `r - w`, corners 2 and 3 on radius r |
| TerrainCursor.RingCloses | src/FinalProject/Main/Nodes/TerrainCursor/TerrainCursorModel.ts:43-59 | the first segment starts at angle 0, each segment starts where the previous one ended, and the last ends at `2*pi` |
| TerrainCursor.TerrainCursorModel.constructor | src/FinalProject/Main/Nodes/TerrainCursor/TerrainCursorModel.ts:17-25 | a red ring of radius 1 and width 0.1 in 32 segments, at the origin |
| TerrainCursor.TerrainCursorModel.SetPosition | src/FinalProject/Main/Nodes/TerrainCursor/TerrainCursorModel.ts:27-30 | stores the position and forwards it to the transform |
| TerrainCursor.TerrainCursorModel.SetDirection | src/FinalProject/Main/Nodes/TerrainCursor/TerrainCursorModel.ts:32-35 | stores the direction |
| GroundParticles.SpeedUpBounds | src/FinalProject/Main/Nodes/ParticleSystem/GroundParticle.ts:45-47 | on progress in [0,1] the speed factor `0.8 + 2.2p^2` lies in [0.8, 3] and grows with the progress |
| GroundParticles.SpeedStepBounds | src/FinalProject/Main/Nodes/ParticleSystem/GroundParticle.ts:34-48 | with no initial distance the speed is the base speed and the progress untouched; otherwise the recorded progress never decreases, stays in [0,1], and the speed lies between 0.8 and 3 times a non-negative base speed |
| GroundParticles.StepParticleFrame | src/FinalProject/Main/Nodes/ParticleSystem/GroundParticleSystemModel.ts:106-120 | a step leaves an invisible particle as it is, never makes one visible, changes only visibility, position and progress, and keeps the progress in [0,1] and non-decreasing |
| GroundParticles.StepParticleApproaches | src/FinalProject/Main/Nodes/ParticleSystem/GroundParticleSystemModel.ts:106-120 | a particle still visible after a step was visible, was at least 0.01 from its target, moved less than that distance, and ends exactly the move distance closer |
| GroundParticles.StepParticleMoves | src/FinalProject/Main/Nodes/ParticleSystem/GroundParticleSystemModel.ts:107-114 | a visible particle's step records the measured progress, then moves or hides with the measured speed times the elapsed time |
| GroundParticles.MoveTowardApproaches | src/FinalProject/Main/Nodes/ParticleSystem/GroundParticleSystemModel.ts:114-118 | the move either hides the particle, or it was at least 0.01 away and moved less than its distance, ending exactly that much closer |
| GroundParticles.StepApproachesTarget | src/FinalProject/Main/Nodes/ParticleSystem/GroundParticleSystemModel.ts:117 | moving by `m` along the normalised direction to a target further than `m` away leaves it exactly `d - m` away: no overshoot |
| GroundParticles.NextIndex | src/FinalProject/Main/Nodes/ParticleSystem/GroundParticleSystemModel.ts:37 | the next slot is always a valid pool index |
| GroundParticles.EmissionOutcome | src/FinalProject/Main/Nodes/ParticleSystem/GroundParticleSystemModel.ts:28-37 | a particle is emitted exactly for ADD or REMOVE, at least `1 / rate` after the last emission, from a non-empty pool, and then at a valid index; the empty pool is the only other non-skip outcome |
| GroundParticles.AtMostRatePerUnit | src/FinalProject/Main/Nodes/ParticleSystem/GroundParticleSystemModel.ts:33-56 | the rate limit over any run: `k + 1` accepted emissions span at least `k / rate` time units, so at most 30 particles go out per time unit |
| GroundParticles.EmittedState | src/FinalProject/Main/Nodes/ParticleSystem/GroundParticleSystemModel.ts:41-54 | the recycled particle shows, in the given colour, from time `t0` with no progress; ADD sends it from the player to the ground point towards the mouse, REMOVE from the ground point to the player |
| GroundParticles.IndexAfterIsOffset | src/FinalProject/Main/Nodes/ParticleSystem/GroundParticleSystemModel.ts:37 | the k-th emission after one that used slot `last` uses slot `(last + k) mod n` |
| GroundParticles.RoundRobin | src/FinalProject/Main/Nodes/ParticleSystem/GroundParticleSystemModel.ts:21-37 | n successive emissions use n different particles, and the next one reuses the first: each emission recycles the particle emitted least recently |
| GroundParticles.Elapsed | src/FinalProject/Main/Nodes/ParticleSystem/GroundParticleSystemModel.ts:98-103 | the first update lets no time pass; later ones the time since the last |
| GroundParticles.GroundParticle.constructor | src/FinalProject/Main/Nodes/ParticleSystem/GroundParticle.ts:13-25 | base speed 3 and colour green unless given, progress 0, initial distance 1 |
| GroundParticles.GroundParticle.GetTarget | src/FinalProject/Main/Nodes/ParticleSystem/GroundParticle.ts:27-32 | the player position for a particle heading for the player, the stored target otherwise |
| GroundParticles.GroundParticle.GetSpeed | src/FinalProject/Main/Nodes/ParticleSystem/GroundParticle.ts:34-48 | returns the speed and records the progress that `SpeedStep` gives, keeping the progress in [0,1] and non-decreasing |
| GroundParticles.GroundParticle.Reset | src/FinalProject/Main/Nodes/ParticleSystem/GroundParticle.ts:50-64 | reassigns every field, defaults included (size 0.1, mass 1, base speed 3, green), records a copy of the target and its distance, and leaves the particle visible with progress 0 |
| GroundParticles.GroundParticleSystem.constructor | src/FinalProject/Main/Nodes/ParticleSystem/GroundParticleSystemModel.ts:87-92 | the pool holds both batches of invisible particles heading for the player (the base class's and the subclass's `initParticles`), with the initial bookkeeping |
| GroundParticles.GroundParticleSystem.InitParticles | src/FinalProject/Main/Nodes/ParticleSystem/GroundParticleSystemModel.ts:63-78 | appends n new invisible particles heading for the player, keeping the existing ones |
| GroundParticles.GroundParticleSystem.EmitTerraformParticle | src/FinalProject/Main/Nodes/ParticleSystem/GroundParticleSystemModel.ts:28-57 | with no brush, FLATTEN, or less than 1/30 since the last emission nothing changes; otherwise only particle `(last + 1) mod n` is reset (ADD: player to ground, towards the mouse; REMOVE: ground to player) and the index and time are recorded |
| GroundParticles.GroundParticleSystem.TimeUpdate | src/FinalProject/Main/Nodes/ParticleSystem/GroundParticleSystemModel.ts:94-123 | records `t` and takes `StepParticle` for every particle with the elapsed time (zero on the first call) |
| GroundParticles.GroundParticleSystem.AdvanceParticle | src/FinalProject/Main/Nodes/ParticleSystem/GroundParticleSystemModel.ts:106-120 | the loop body performs exactly `StepParticle` on one particle |
| GroundParticles.GroundParticleSystem.AdvanceVisible | src/FinalProject/Main/Nodes/ParticleSystem/GroundParticleSystemModel.ts:108-119 | the same for a visible particle: target, distance, speed, then move or hide |
| GroundParticles.GroundParticleSystem.MoveParticle | src/FinalProject/Main/Nodes/ParticleSystem/GroundParticleSystemModel.ts:114-118 | hides a particle that would reach its target or is within 0.01, otherwise moves it along the normalised direction |
| SceneGraph.ChildrenNoRepeats | src/anigraph/base/aobject/AObjectNode.ts:93-97 | in a well-formed store no child list names the same node twice, the invariant the `includes` check of `_addChild` keeps |
| SceneGraph.AncestorsExact | src/anigraph/base/aobject/AObjectNode.ts:152-162 | the ancestor list holds exactly the nodes strictly above `u`, nearest first: its `k`-th entry lies `k + 1` levels up |
| SceneGraph.AncestorsNoRepeats | src/anigraph/base/aobject/AObjectNode.ts:152-162 | the ancestor list never repeats a node, so the parent-following loop ends |
| SceneGraph.AncestorsEndAtRoot | src/anigraph/base/aobject/AObjectNode.ts:29-44 | the last ancestor is the node's `root`; a node with no ancestors is its own root |
| SceneGraph.DescendantsExact | src/anigraph/base/aobject/AObjectNode.ts:164-173 | the descendant list holds exactly the nodes strictly below `n`, each once |
| SceneGraph.SiblingsDisjoint | src/anigraph/base/aobject/AObjectNode.ts:164-173 | the subtrees of two different children of a node share no node |
| SceneGraph.UnderSameRoot | src/anigraph/base/aobject/AObjectNode.ts:32-44 | every node of a subtree has the same `root` as the subtree's top |
| SceneGraph.RootsSetNoop | src/anigraph/base/aobject/AObjectNode.ts:32-34 | the root setter called with the root a subtree already has changes nothing |
| SceneGraph.InsertIndex | src/anigraph/base/aobject/AObjectNode.ts:111-115 | where `splice(position, 0, c)` puts the child: at the end without a position or past the end, at `position` in range, counted from the end and clamped at 0 when negative |
| SceneGraph.Insert | src/anigraph/base/aobject/AObjectNode.ts:111-115 | the spliced list keeps the children before and after the insertion index and holds the new child at that index |
| SceneGraph.RemoveAtFacts | src/anigraph/base/aobject/AObjectNode.ts:213-215 | `splice(c, 1)` on a list without repeats leaves one without repeats that holds every other child |
| SceneGraph.RemoveAtInsert | src/anigraph/base/aobject/AObjectNode.ts:111-115 | splicing a child out at the index it was spliced in at gives back the old list |
| SceneGraph.AttachedAt | src/anigraph/base/aobject/AObjectNode.ts:100-115 | attaching `c` under `p` changes only `c`'s parent, `p`'s child list and the roots of `c`'s subtree, which become `p`'s root |
| SceneGraph.DetachedAt | src/anigraph/base/aobject/AObjectNode.ts:213-222 | detaching `c` from `p` changes only `c`'s parent (now none), `p`'s child list and the roots of `c`'s subtree, which become `c` |
| SceneGraph.AttachWellFormed | src/anigraph/base/aobject/AObjectNode.ts:93-122 | attaching a parentless node that is not above `p` keeps child links, parent links, acyclic depths and roots consistent |
| SceneGraph.DetachWellFormed | src/anigraph/base/aobject/AObjectNode.ts:212-234 | detaching a child keeps child links, parent links, acyclic depths and roots consistent |
| SceneGraph.RemoveChildUndoesAddChild | src/anigraph/base/aobject/AObjectNode.ts:93-126 | `removeChild(c)` right after `addChild(c, position)` finds `c` at the insertion index and restores the whole store |
| SceneGraph.ReparentToSameParent | src/anigraph/base/aobject/AObjectNode.ts:322-327 | removing a child and adding it back to the same parent moves it to the end of the child list and changes nothing else |
| SceneGraph.MoveToEnd | src/anigraph/base/aobject/AObjectNode.ts:322-327 | moving a child to the end keeps the same children with the same multiplicities |
| SceneGraph.ReorderShape | src/anigraph/base/aobject/AObjectNode.ts:304-313 | with distinct uids naming children, `reorderChildren` leaves the unlisted children first, in their old order, then the listed ones in list order |
| SceneGraph.MoveAllToEndPermutes | src/anigraph/base/aobject/AObjectNode.ts:304-313 | `reorderChildren` only permutes the child list |
| ObjectNode.AddNodeWellFormed | src/anigraph/base/aobject/AObjectNode.ts:59-69 | a new node with no parent, no children and itself as root keeps the store well formed |
| ObjectNode.NodeName | src/anigraph/base/aobject/AObjectNode.ts:61 | the node is named by the name passed, or by its class label when that name is missing or empty |
| ObjectNode.UnparentedFacts | src/anigraph/base/aobject/AObjectNode.ts:322-325 | after the first half of `reparent`, `c` has no parent and is not a child of the new parent, which is still outside `c`'s subtree, so `_addChild` cannot throw |
| ObjectNode.ReparentedSameParent | src/anigraph/base/aobject/AObjectNode.ts:322-327 | reparenting a child onto its own parent only moves it to the end of that parent's child list |
| ObjectNode.ListedPrefix | src/anigraph/base/aobject/AObjectNode.ts:304-313 | how far `reorderChildren` gets: every uid before that point names a child and the uid at it, if any, does not |
| ObjectNode.MoveAllToEndMembers | src/anigraph/base/aobject/AObjectNode.ts:304-313 | reordering keeps exactly the same children |
| ObjectNode.MoveAllToEndSnoc | src/anigraph/base/aobject/AObjectNode.ts:305-308 | handling one more listed uid moves that child to the end of the list as reordered so far |
| ObjectNode.ChildrenLeftAsWritten | src/anigraph/base/aobject/AObjectNode.ts:132-138 | as written, `removeChildren` leaves `i + (n - i) / 2` of the `n` children attached when it starts at index `i`, so half of them (rounded down) from the start |
| ObjectNode.RemoveChildrenAsWrittenSkips | src/anigraph/base/aobject/AObjectNode.ts:253-256 | as written, `removeChildren` on children `a`, `b`, `c` leaves `b` attached |
| ObjectNode.NodeStore.AddNode | src/anigraph/base/aobject/AObjectNode.ts:59-69 | the new node has the given uid, the constructor's name, no parent, no children and itself as root; the store stays well formed |
| ObjectNode.NodeStore.SetRoot | src/anigraph/base/aobject/AObjectNode.ts:32-44 | the root setter gives the whole subtree of `n` root `r` and changes nothing else; it stops early where the root already is `r` |
| ObjectNode.NodeStore.AddChild | src/anigraph/base/aobject/AObjectNode.ts:93-126 | `addChild` fails, changing nothing, exactly when the node is already a child or already has a parent; otherwise the store becomes the attached store, at the splice index of `position`, and stays well formed |
| ObjectNode.NodeStore.Attach | src/anigraph/base/aobject/AObjectNode.ts:100-115 | the link writes of `_addChild`: root setter, parent, splice; the result is the attached store and is well formed |
| ObjectNode.NodeStore.Detach | src/anigraph/base/aobject/AObjectNode.ts:213-222 | the link writes of `_removeChild`: splice out, clear the parent, root setter; the result is the detached store and is well formed |
| ObjectNode.NodeStore.RemoveChild | src/anigraph/base/aobject/AObjectNode.ts:212-238 | `removeChild` fails, changing nothing, exactly when the node is not a child; otherwise the child is detached at the index where it was found and the store stays well formed |
| ObjectNode.NodeStore.RemoveChildren | src/anigraph/base/aobject/AObjectNode.ts:253-256 | corrected `removeChildren`: afterwards the node has no children, every former child has no parent, every other node keeps its parent, and the store stays well formed |
| ObjectNode.NodeStore.GetAncestorList | src/anigraph/base/aobject/AObjectNode.ts:152-162 | the loop returns exactly the ancestor list |
| ObjectNode.NodeStore.GetDescendantList | src/anigraph/base/aobject/AObjectNode.ts:164-173 | the recursion returns exactly the pre-order descendant list |
| ObjectNode.NodeStore.GetChildWithID | src/anigraph/base/aobject/AObjectNode.ts:275-281 | a child is found exactly when the uid names one, and it is that child |
| ObjectNode.NodeStore.UidsToChildrenList | src/anigraph/base/aobject/AObjectNode.ts:283-294 | succeeds exactly when every uid names a child, and then lists those children in uid order |
| ObjectNode.NodeStore.Reparent | src/anigraph/base/aobject/AObjectNode.ts:322-327 | `reparent`: the node leaves its parent, if it has one, and is appended to the new parent's children; the store stays well formed |
| ObjectNode.NodeStore.ReorderChildren | src/anigraph/base/aobject/AObjectNode.ts:304-313 | succeeds exactly when every uid names a child; in either case the children named before the first bad uid have moved to the end in list order, and nothing else changed |
| ObjectNode.NodeStore.MoveListedChild | src/anigraph/base/aobject/AObjectNode.ts:305-308 | one loop step of `reorderChildren`: the reordered list grows by the listed child |
| ModelGraphs.PointLightsIn | src/anigraph/scene/AModelGraph.ts:42-47 | the filter keeps exactly the point lights of the list and never lengthens it |
| ModelGraphs.PointLightsExact | src/anigraph/scene/AModelGraph.ts:42-47 | the point lights found are exactly the point lights strictly below the graph node |
| ModelGraphs.PointLightsConcat | src/anigraph/base/aobject/AObjectNode.ts:179-181 | filtering keeps the order of the list: it distributes over concatenation |
| ModelGraphs.FilterPointLights | src/anigraph/base/aobject/AObjectNode.ts:179-181 | the filtering loop returns exactly the point-light filter of the descendant list |
| ModelGraphs.ModelGraph.constructor | src/anigraph/scene/AModelGraph.ts:16-33 | a new graph has an empty model map and has signalled nothing |
| ModelGraphs.ModelGraph.HasModelID | src/anigraph/scene/AModelGraph.ts:49-55 | `hasModelID` is true exactly when the uid is a key, and agrees with `hasModel` on every model with that uid |
| ModelGraphs.ModelGraph.AddModel | src/anigraph/scene/AModelGraph.ts:72-77 | `_addModel` leaves the model in the map, stores it under its uid only when the uid is new, keeps the map keyed by uid, and signals `NodeAdded` |
| ModelGraphs.ModelGraph.RemoveModel | src/anigraph/scene/AModelGraph.ts:78-81 | `_removeModel` leaves the map as it is and only signals `NodeRemoved` |
| ModelGraphs.ModelGraph.ReleaseModel | src/anigraph/scene/AModelGraph.ts:83-86 | `_releaseModel` deletes exactly the model's uid, keeps the map keyed by uid, and signals `NodeReleased` |
| ModelGraphs.ModelGraph.GetPointLights | src/anigraph/scene/AModelGraph.ts:42-47 | `getPointLights` returns the point lights among the graph node's descendants, in descendant order |
| InteractionModes.Bind | src/anigraph/interaction/AInteractionMode.ts:53-55 | `bind` keeps the function and leaves it bound: to the owner when it was unbound, to its old target otherwise |
| InteractionModes.CopyCallback | src/anigraph/interaction/AInteractionMode.ts:51-56 | one block of `SetInteractionCallbacks`: the slot is overwritten, bound if asked, only when the given callback is present and truthy |
| InteractionModes.SetInteractionCallbacks | src/anigraph/interaction/AInteractionMode.ts:50-143 | every slot given a truthy callback ends up holding it, bound to the owner when `bind` is set; every other slot is untouched |
| InteractionModes.KeyboardOnly | src/anigraph/interaction/AInteractionMode.ts:226-234 | the keyboard filter returns only keyboard interactions of the list, misses none of them, and never lengthens the list |
| InteractionModes.KeyboardOnlyFirst | src/anigraph/interaction/AInteractionMode.ts:242-249 | the first keyboard interaction found is the first keyboard interaction of the list |
| InteractionModes.KeyboardOnlySnoc | src/anigraph/interaction/AInteractionMode.ts:228-232 | one more interaction adds itself to the keyboard list exactly when it is a keyboard interaction, at the end |
| InteractionModes.InteractionMode.constructor | src/anigraph/interaction/AInteractionMode.ts:216-220 | a new mode has its name and owner, no interactions, is inactive and has an empty mode state |
| InteractionModes.InteractionMode.GetModeState | src/anigraph/interaction/AInteractionMode.ts:179 | the stored value of a name, or none (`undefined`) for a name never set; it carries no contract of its own, and `SetModeState` and `ClearModeState` state what it returns afterwards |
| InteractionModes.InteractionMode.SetModeState | src/anigraph/interaction/AInteractionMode.ts:178 | `getModeState` of that name then returns the value, and every other name reads as before |
| InteractionModes.InteractionMode.ClearModeState | src/anigraph/interaction/AInteractionMode.ts:180 | every name reads as unset afterwards |
| InteractionModes.InteractionMode.GetKeyboardInteractions | src/anigraph/interaction/AInteractionMode.ts:226-234 | the loop returns the keyboard interactions in the order they were added |
| InteractionModes.InteractionMode.GetKeyDownState | src/anigraph/interaction/AInteractionMode.ts:242-253 | the key state of the first keyboard interaction, however many there are, and the empty map when there is none |
| InteractionModes.InteractionMode.AddInteraction | src/anigraph/interaction/AInteractionMode.ts:259-274 | the interaction is appended and takes the mode's active state; it fails exactly when it already had an owner, which it then keeps, and otherwise takes the mode's owner |
| InteractionModes.InteractionMode.Activate | src/anigraph/interaction/AInteractionMode.ts:292-299 | every interaction of the mode is active, then the mode is; owners, key state and mode state are untouched |
| InteractionModes.InteractionMode.Deactivate | src/anigraph/interaction/AInteractionMode.ts:279-287 | every interaction is inactive, the mode state is cleared and the mode is inactive |
| AppStates.EventKeyForName | src/anigraph/appstate/AAppState.ts:154-156 | the event key is `Parameter_`, then the name, then `_update_event` |
| AppStates.EventKeyInjective | src/anigraph/appstate/AAppState.ts:154-156 | different state names are signalled under different event keys |
| AppStates.DecimalString | src/anigraph/appstate/AAppState.ts:226-229 | the decimal digits of the counter: at least one, and exactly one for counters below 10 |
| AppStates.DecimalStringInjective | src/anigraph/appstate/AAppState.ts:226-229 | different counters are written differently |
| AppStates.NumberedInjective | src/anigraph/appstate/AAppState.ts:226-229 | different counters give different candidate folder names |
| AppStates.TakenBound | src/anigraph/appstate/AAppState.ts:227-230 | when the candidates 1 to n are all taken there are at least n taken names, so the search for a free name ends |
| AppStates.SliderSpec | src/anigraph/appstate/AAppState.ts:115-125 | an absent `min` defaults to the smaller of the initial value and 0, an absent `max` to the larger of it and 1; the caller's extra fields win |
| AppStates.SliderDefaultsBracketInitial | src/anigraph/appstate/AAppState.ts:115-125 | with the default range the initial value lies on the slider, the range covers [0, 1] and the default step is at least 0.01 |
| AppStates.AppState.constructor | src/anigraph/appstate/AAppState.ts:75-80 | a new app state holds only its control-panel key and has signalled that one change |
| AppStates.AppState.GetState | src/anigraph/appstate/AAppState.ts:62-68 | the stored value of a key, or none (`undefined`) for a key never set; it carries no contract of its own, and `SetState` and `AddSliderIfMissing` state what it returns afterwards |
| AppStates.AppState.SetState | src/anigraph/appstate/AAppState.ts:70-73 | `getState` of that name then returns the value, other names read as before, and the change is signalled under the name's event key |
| AppStates.AppState.SetGuiControlSpecKey | src/anigraph/appstate/AAppState.ts:158-161 | the control is stored under its name and a panel update is signalled |
| AppStates.AppState.AddSliderControl | src/anigraph/appstate/AAppState.ts:168-170 | the slider built from the defaults is stored under its name and a panel update is signalled |
| AppStates.AppState.AddSliderIfMissing | src/anigraph/appstate/AAppState.ts:264-268 | a slider, starting at 1 unless told otherwise, is added exactly when no state value of that name exists; otherwise nothing changes |
| AppStates.AppState.AddControlSpec | src/anigraph/appstate/AAppState.ts:216-221 | the given entries are merged in, winning on shared names; every other entry is kept |
| AppStates.AppState.GetUniqueFolderName | src/anigraph/appstate/AAppState.ts:223-235 | the name returned is free: the name itself when it is free, otherwise the name followed by the smallest counter from 1 that gives a free name |
| AppStates.AppState.AddControlSpecGroup | src/anigraph/appstate/AAppState.ts:245-248 | the folder built by `MakeFolder` is stored under its name, nothing else changes, and a panel update is signalled |
| AppStates.AppRegistry.constructor | src/anigraph/appstate/AAppState.ts:14 | no app state is registered at the start |
| AppStates.AppRegistry.SetAppState | src/anigraph/appstate/AAppState.ts:18-25 | registering a second time fails and keeps the first registration; otherwise the app state is registered and returned |
| AppStates.AppRegistry.GetAppState | src/anigraph/appstate/AAppState.ts:276-282 | fails exactly when no app state is registered, and otherwise returns the registered one |
| GuiSpecs.KeyNameInFolderInjective | src/anigraph/GUISpecs.ts:28-30 | inside one folder, different controls keep different keys |
| GuiSpecs.MakeFolder | src/anigraph/GUISpecs.ts:32-47 | with renaming, every control `k` reappears under `k_name` with the same value, nothing else appears and no two controls merge; without it the spec is passed on unchanged; the folder keeps `collapsed` |
| GuiSpecs.RenameKeys | src/anigraph/GUISpecs.ts:35-38 | the renaming loop visits every key once and yields exactly the renamed spec, of the same size |
| GuiSpecs.SliderControl | src/anigraph/GUISpecs.ts:73-83 | the caller's extra fields win; every other field is the slider's own, with `step` defaulting to one hundredth of the range |
| GuiSpecs.DefaultStepSpansRange | src/anigraph/GUISpecs.ts:79 | with the default step a hundred steps span exactly the range, and the step is positive when the range is |
| GuiSpecs.CheckboxControl | src/anigraph/GUISpecs.ts:63-71 | the value defaults to false and the caller's extra fields win |
| GuiSpecs.SelectionControl | src/anigraph/GUISpecs.ts:85-92 | value, options and callback, with the caller's extra fields winning |
| LineGraphic.SegmentColors | src/anigraph/rendering/graphicelements/ALineGraphic.ts:22-40 | the segment buffer is twice as long as the colour list less one colour |
| LineGraphic.SegmentBlock | src/anigraph/rendering/graphicelements/ALineGraphic.ts:27-37 | output slots `2i` to `2i+7` repeat input colours `i/4` and `i/4 + 1` |
| LineGraphic.SetColors | src/anigraph/rendering/graphicelements/ALineGraphic.ts:22-40 | `setColors` fills a new buffer with exactly the segment colours, every read and write in bounds |
| LineGraphic.CopyBlock | src/anigraph/rendering/graphicelements/ALineGraphic.ts:28-36 | one loop step writes slots `2i` to `2i+7` from `i` to `i+7` and nothing else |
| TextureKeys.TextureKey | src/anigraph/defines.ts:1-3 | the texture uniform is the name followed by `Map` |
| TextureKeys.TextureProvidedKey | src/anigraph/defines.ts:4-6 | the flag uniform is the texture uniform followed by `Provided` |
| TextureKeys.TextureSizeKey | src/anigraph/defines.ts:7-9 | the size uniform is the name followed by `Size` |
| TextureKeys.KeyKindsDisjoint | src/anigraph/defines.ts:1-9 | the three kinds of uniform never collide, whatever the two texture names |
| TextureKeys.KeysInjective | src/anigraph/defines.ts:1-9 | different texture names get different uniforms of each kind |
| Geometry.NormalizedUnit | src/FinalProject/Main/Nodes/LowPolyTerrain/LowPolyTerrainModel.ts:140-161 | with an exact square root, a normalized non-zero vector has length 1 |
| Geometry.NormalizeIdempotent | src/FinalProject/Main/Nodes/LowPolyTerrain/LowPolyTerrainModel.ts:282 | normalizing an already normalized vector changes nothing |

## Left out

- Events and listeners: every `signalEvent`, `addEventListener` and subscription is left out. Where a caller depends on a signal, the model records it in an event list (model map, app state) or a counter (geometry updates).
- Views, materials, shaders and rendering are left out. The vertex buffer is modelled as data; the three.js objects that draw it are not modelled.
- The three.js raycast itself (PlayerInteractionMode.ts:61-62 and 79) is not modelled: the ray, and the terrain point and face normal it hits, are inputs. The FLATTEN plane lock of lines 67-76 is modelled (`UpdateTerrainIntersection`). The early return when the terrain has no view (line 65) is left out. `onMouseMove` only records the screen position the ray is cast through.
- The camera's quaternion pose (`LookAt`, PlayerCamera.ts:43-50) is not modelled. The camera's forward vector is an input of `UpdateCamera`. `onDragMove` only forwards to the rotation setters, which are modelled.
- Floating point is not modelled. Reals replace IEEE doubles, so rounding, NaN and infinities do not arise, and the 0.001 vertex match in `updateVertexZ` is exact.
- `getNormalized` of the zero vector is not modelled. It is a parameter known only on non-zero vectors, and the source's result there is not defined.
- The noise source and `Math.random` are parameters: a noise function into [-1, 1] and a per-cell diagonal flag. `uuid` for the control-panel key is a parameter too.
- Closures are not values: callbacks are identifiers (`Handler`, `Callback`), and a bound callback records its target.
- Particle emission from an empty pool is only an outcome (`NoParticles`). The source's NaN index and the exception from `reset` on `undefined` are not modelled further.
- `GroundParticleSystemModel.Create` is left out: it only builds a material.
- `addPointLight` (AModelGraph.ts:36-40) is left out: it builds a light model and calls `addChild`, which is modelled. `addNode` only forwards to `addChild`.
- The wiring of descendant events to the model map (`_initSceneGraphSubscriptions`, AModelGraph.ts:88-102) is left out. `AddModel`, `RemoveModel` and `ReleaseModel` are called directly.
- `release` and `releaseChildren` (AObjectNode.ts:187-198, 245-247) are left out: they belong to the object lifecycle, which is not modelled. `releaseChildren` walks the live child list the same way as `removeChildren` (see Findings).
- `fromJSON`/`toJSON`, `_childrenListToUIDs`, `mapOverChildren`, `filterChildren` and `mapOverDescendants` are left out: serialization and thin wrappers over array methods. The filter over descendants is modelled for point lights.
- `_setRootSilent` (AObjectNode.ts:46-56) is covered by `ObjectNode.NodeStore.SetRoot`: it is the root setter without the event.
- ObjectNode.NodeStore.AddChild: requires, when the child has no parent, that the parent is not inside the child's subtree. In the source such a call makes a cycle of parent links, on which `getAncestorList` never returns. A child that already has a parent is admitted anywhere: the call fails, as in the source.
- ObjectNode.NodeStore.Reparent: requires that the new parent is not inside the node's subtree. In the source `reparent` first detaches the node and then adds it, so such a call makes the same cycle.
- LineGraphic.SetColors: requires a whole number of colours, at least one. With fewer than four entries the source throws on a negative buffer length, and a ragged list makes it read past the end.
- AInteraction is not part of this model. An interaction is only its active flag, its owner and its key state.
- The activation hooks (`beforeActivate`, `afterActivate` and the deactivate pair) are left out: they are empty unless a subclass sets them.
- `bindMethods` and `isGUISelectable` are left out.
- `updateControlSpecEntry` (AAppState.ts:250-253) has the same body as `setGUIControlSpecKey` and is covered by `SetGuiControlSpecKey`.
- The checkbox, button, colour and selection builders of AAppState, and `ColorControl` and `ButtonControl` of GUISpecs, are left out: they convert colours or wrap the control-panel library. The checkbox and selection specs themselves are modelled in `GuiSpecs`.
- The `Mutex` guarding initialisation and the global scale and clipping constants of AAppState are left out.
- `getColorAt` is left out: it only composes the height query with the colour ramp, which are both modelled.

## Findings

| source | as written | input that shows it | evidently intended | confidence | as-written member | corrected member |
|---|---|---|---|---|---|---|
| src/anigraph/base/aobject/AObjectNode.ts:253-256 | `removeChildren` removes each child from inside a for-of loop over the same child list, so every removal shifts the next child into the slot just visited, and that child is skipped | a node with children `a`, `b`, `c`: `a` and `c` are removed, `b` stays a child | every child is removed | high (not executed) | ObjectNode.ChildrenLeftAsWritten | ObjectNode.NodeStore.RemoveChildren |
