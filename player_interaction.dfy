// PlayerInteractionMode: the first-person editing mode. Keys pick the brush
// (add, remove or flatten ground) and move the player, the mouse wheel
// resizes the brush, and every frame moves the player, keeps it above the
// ground, places the cursor on the terrain point under the mouse and
// applies the brush there.
//
// The raycaster's ray, the terrain point it hits and that face's normal
// come from three.js, and the camera's forward vector from its quaternion;
// all are inputs here. The app-state slider for the brush strength is an
// input too. `Math.sqrt` is a parameter (see Geometry.IsSqrt), and so is the
// vector library's `getNormalized`, known only on non-zero vectors.

module PlayerInteraction {
  import opened Wrappers
  import opened Geometry
  import opened BrushMode
  import opened TerrainGrid
  import opened TerrainBrush
  import opened TerrainMesh
  import opened TerrainModel
  import opened GroundParticles
  import opened PlayerCameraModel
  import opened TerrainCursor

  /** `keysDownState`: a key counts as held when it is present with value true. */
  type KeysDown = map<string, bool>

  predicate Held(keys: KeysDown, key: string) {
    key in keys && keys[key]
  }

  /** `getNormalized` agrees with `Normalized` wherever the latter is defined. */
  ghost predicate IsNormalize(sqrt: real -> real, normalize: Vec3 -> Vec3) {
    IsSqrt(sqrt) &&
    forall v: Vec3 :: v.SquaredLength() > 0.0 ==> normalize(v) == Normalized(sqrt, v)
  }

  // ---------------------------------------------------------------------
  // Pure parts of the mode

  /** The brush size after a wheel event: moved by `-deltaY * 0.001`, kept within [0.2, 5]. */
  function WheelRadius(radius: real, deltaY: real): (r: real)
    ensures 0.2 <= r <= 5.0
    ensures 0.2 <= radius - deltaY * 0.001 <= 5.0 ==> r == radius - deltaY * 0.001
    ensures radius - deltaY * 0.001 < 0.2 ==> r == 0.2
    ensures radius - deltaY * 0.001 > 5.0 ==> r == 5.0
  {
    Max(0.2, Min(5.0, radius + -deltaY * 0.001))
  }

  /** The walking direction before normalising: W/S along the camera, D/A across it. */
  function Walk(keys: KeysDown, cameraDir: Vec3, cameraOrthDir: Vec3): (v: Vec3)
    ensures Held(keys, "w") == Held(keys, "s") && Held(keys, "a") == Held(keys, "d") ==> v == Zero3
  {
    var v0 := Zero3;
    var v1 := if Held(keys, "w") then v0.Plus(cameraDir) else v0;
    var v2 := if Held(keys, "a") then v1.Minus(cameraOrthDir) else v1;
    var v3 := if Held(keys, "s") then v2.Minus(cameraDir) else v2;
    if Held(keys, "d") then v3.Plus(cameraOrthDir) else v3
  }

  /**
   * The vertical speed `updateMovement` adds after normalising: Space
   * climbs at the fly speed 5, Shift sinks at it, both together cancel.
   */
  function Climb(keys: KeysDown): (dz: real)
    ensures Held(keys, " ") && !Held(keys, "Shift") ==> dz == 5.0
    ensures !Held(keys, " ") && Held(keys, "Shift") ==> dz == -5.0
    ensures Held(keys, " ") == Held(keys, "Shift") ==> dz == 0.0
  {
    (if Held(keys, " ") then 5.0 else 0.0) - (if Held(keys, "Shift") then 5.0 else 0.0)
  }

  /** What `updateMovement` leaves in `movementDir`: the walk, normalised to speed 5, plus the climb. */
  function Movement(normalize: Vec3 -> Vec3, keys: KeysDown, cameraDir: Vec3, cameraOrthDir: Vec3): Vec3 {
    var n := normalize(Walk(keys, cameraDir, cameraOrthDir));
    Vec3(n.x * 5.0, n.y * 5.0, n.z * 5.0 + Climb(keys))
  }

  /**
   * Diagonal walking is no faster than straight walking: with the camera's
   * horizontal directions, any non-zero walk moves at horizontal speed
   * exactly 5, and the vertical speed is the climb alone.
   */
  lemma {:induction false} MovementSpeed(sqrt: real -> real, normalize: Vec3 -> Vec3, keys: KeysDown, cameraDir: Vec3, cameraOrthDir: Vec3)
    requires IsNormalize(sqrt, normalize)
    requires cameraDir.z == 0.0 && cameraOrthDir.z == 0.0
    requires Walk(keys, cameraDir, cameraOrthDir).SquaredLength() > 0.0
    ensures var m := Movement(normalize, keys, cameraDir, cameraOrthDir);
      m.SquaredLengthXY() == 25.0 && m.z == Climb(keys)
  {
    var w := Walk(keys, cameraDir, cameraOrthDir);
    var n := normalize(w);
    assert w.z == 0.0;
    assert n == Normalized(sqrt, w);
    NormalizedStaysFlat(sqrt, w);
    var m := Movement(normalize, keys, cameraDir, cameraOrthDir);
    LengthPositive(sqrt, w);
    NormalizedUnit(sqrt, w);
    FlatUnitScaled(n, m, 5.0);
  }

  lemma FlatUnitScaled(n: Vec3, m: Vec3, k: real)
    requires n.z == 0.0 && n.SquaredLength() == 1.0 && m.x == n.x * k && m.y == n.y * k
    ensures m.SquaredLengthXY() == k * k
  {
    assert m.SquaredLengthXY() == (k * k) * (n.x * n.x + n.y * n.y);
  }

  lemma NormalizedStaysFlat(sqrt: real -> real, w: Vec3)
    requires IsSqrt(sqrt) && w.SquaredLength() > 0.0 && w.z == 0.0
    ensures Normalized(sqrt, w).z == 0.0
  {
  }

  /** `terraformStrength`: the slider's value, or 3 when the app state has none. */
  function TerraformStrength(setting: Option<real>): (s: real)
    ensures setting.None? ==> s == 3.0
    ensures setting.Some? ==> s == setting.value
  {
    setting.GetOr(3.0)
  }

  /** The ground clamp: a position below `minZ` is raised to it, any other is kept. */
  function ClampAbove(p: Vec3, minZ: real): (q: Vec3)
    ensures q.x == p.x && q.y == p.y
    ensures q.z >= minZ && q.z >= p.z
    ensures p.z >= minZ ==> q == p
    ensures p.z < minZ ==> q.z == minZ
  {
    if p.z < minZ then p.(z := minZ) else p
  }

  /**
   * The heights after `timeUpdate`'s brush dispatch. With no terrain point
   * under the mouse, or no brush, nothing changes; ADD raises by strength
   * times elapsed time, REMOVE lowers by it, FLATTEN pulls towards the
   * plane of the hit face at five times that rate.
   */
  function BrushedByMode(sqrt: real -> real, d: Dims, hs: Heights, mode: Mode, hit: Option<Vec3>,
                         normal: Option<Vec3>, radius: real, strength: real, delta: real): (r: Heights)
    requires IsSqrt(sqrt) && d.Valid() && Shaped(d, hs) && radius != 0.0
    requires normal.Some? ==> normal.value.SquaredLength() > 0.0
    ensures Shaped(d, r)
    ensures hit.None? || mode == NoMode ==> r == hs
  {
    if hit.None? then hs
    else match mode
      case NoMode => hs
      case Add => BrushedHeights(sqrt, d, hs, hit.value, radius, BaseUpdate(sqrt, radius, strength * delta))
      case Remove => BrushedHeights(sqrt, d, hs, hit.value, radius, BaseUpdate(sqrt, radius, -strength * delta))
      case Flatten => BrushedHeights(sqrt, d, hs, hit.value, radius, FlattenUpdate(sqrt, normal, radius, 5.0 * strength * delta))
  }

  /** `BrushedByMode` at a hit point, mode by mode. */
  lemma BrushedByModeCases(sqrt: real -> real, d: Dims, hs: Heights, mode: Mode, point: Vec3,
                           normal: Option<Vec3>, radius: real, strength: real, delta: real)
    requires IsSqrt(sqrt) && d.Valid() && Shaped(d, hs) && radius != 0.0
    requires normal.Some? ==> normal.value.SquaredLength() > 0.0
    ensures var r := BrushedByMode(sqrt, d, hs, mode, Some(point), normal, radius, strength, delta);
      && (mode == Add ==> r == BrushedHeights(sqrt, d, hs, point, radius, BaseUpdate(sqrt, radius, strength * delta)))
      && (mode == Remove ==> r == BrushedHeights(sqrt, d, hs, point, radius, BaseUpdate(sqrt, radius, -strength * delta)))
      && (mode == Flatten ==>
            r == BrushedHeights(sqrt, d, hs, point, radius, FlattenUpdate(sqrt, normal, radius, 5.0 * strength * delta)))
  {
  }

  /**
   * REMOVE mirrors ADD: at every point of the brush the height change of
   * one is the negation of the other's.
   */
  lemma RemoveMirrorsAdd(sqrt: real -> real, vec: Vec3, radius: real, strength: real, delta: real)
    requires radius != 0.0
    ensures BaseUpdate(sqrt, radius, -strength * delta)(vec) == -BaseUpdate(sqrt, radius, strength * delta)(vec)
  {
    var dist := LengthXY(sqrt, vec);
    var falloff := 1.0 - dist / radius;
    assert (-strength * delta) * (falloff * falloff) == -((strength * delta) * (falloff * falloff));
  }

  /** The heights REMOVE brushes stay where ADD would put them, mirrored about the old surface, sample by sample. */
  lemma {:induction false} RemoveMirrorsAddOnGrid(sqrt: real -> real, d: Dims, hs: Heights, hit: Vec3, radius: real,
                                                  strength: real, delta: real, x: int, y: int)
    requires IsSqrt(sqrt) && d.Valid() && Shaped(d, hs) && radius != 0.0
    requires 0 <= y <= d.segmentsY && 0 <= x <= d.segmentsX
    ensures var added := BrushedByMode(sqrt, d, hs, Add, Some(hit), None, radius, strength, delta);
      var removed := BrushedByMode(sqrt, d, hs, Remove, Some(hit), None, radius, strength, delta);
      added[y][x] - hs[y][x] == hs[y][x] - removed[y][x]
  {
    var up := BaseUpdate(sqrt, radius, strength * delta);
    var down := BaseUpdate(sqrt, radius, -strength * delta);
    if Touched(sqrt, d, hit, radius, x, y) {
      RemoveMirrorsAdd(sqrt, VertexOffset(d, hs, hit, x, y), radius, strength, delta);
    }
    assert BrushedSample(sqrt, d, hs, hit, radius, up, x, y) - hs[y][x]
        == hs[y][x] - BrushedSample(sqrt, d, hs, hit, radius, down, x, y);
  }

  /** The raycaster's ray: the camera position and the direction through the mouse. */
  datatype Ray = Ray(origin: Vec3, direction: Vec3)

  /** Below this `abs(normal . direction)` the ray counts as parallel to the plane. */
  const LockTolerance: real := 0.00001

  /**
   * When `updateTerrainIntersection` keeps the flatten plane: in FLATTEN
   * mode, with a previous point and normal, and a ray not parallel to the
   * plane they span.
   */
  predicate PlaneLocked(mode: Mode, pos: Option<Vec3>, normal: Option<Vec3>, ray: Ray) {
    mode == Flatten && pos.Some? && normal.Some? && Abs(normal.value.Dot(ray.direction)) > LockTolerance
  }

  /** The point where `ray` meets the plane through `p` with normal `n`. */
  function PlaneHit(p: Vec3, n: Vec3, ray: Ray): Vec3
    requires n.Dot(ray.direction) != 0.0
  {
    ray.origin.Plus(ray.direction.Times(p.Minus(ray.origin).Dot(n) / n.Dot(ray.direction)))
  }

  /** The locked point lies on the plane through the previous point: its offset along the normal is 0. */
  lemma PlaneHitOnPlane(p: Vec3, n: Vec3, ray: Ray)
    requires n.Dot(ray.direction) != 0.0
    ensures PlaneHit(p, n, ray).Minus(p).Dot(n) == 0.0
  {
    var o, dir := ray.origin, ray.direction;
    var k := p.Minus(o).Dot(n) / n.Dot(dir);
    var q := PlaneHit(p, n, ray);
    assert q == o.Plus(dir.Times(k));
    assert q.Minus(p).Dot(n) == o.Minus(p).Dot(n) + k * dir.Dot(n);
    assert k * dir.Dot(n) == p.Minus(o).Dot(n);
  }

  /**
   * Locking keeps the plane: every point `x` has the same offset along the
   * normal from the new point as from the previous one, so frame after
   * frame a flatten stroke works towards the plane of its first frame.
   */
  lemma {:induction false} PlaneLockKeepsPlane(p: Vec3, n: Vec3, ray: Ray, x: Vec3)
    requires n.Dot(ray.direction) != 0.0
    ensures x.Minus(PlaneHit(p, n, ray)).Dot(n) == x.Minus(p).Dot(n)
  {
    var q := PlaneHit(p, n, ray);
    PlaneHitOnPlane(p, n, ray);
    assert x.Minus(q).Dot(n) == x.Minus(p).Dot(n) - q.Minus(p).Dot(n);
  }

  /**
   * `reset` turns the camera to `3 * pi / 2`, but the `yRotation` setter
   * clamps to [0.1, 3.1], so after a reset the camera pitch is always 3.1.
   */
  lemma ResetPitchIsClamped(pi: real)
    requires 3.0 < pi
    ensures pi * 3.0 / 2.0 > 3.1
  {
  }

  // ---------------------------------------------------------------------
  // The mode

  class PlayerInteractionMode {
    const terrain: LowPolyTerrainModel
    const particles: GroundParticleSystem
    /** `playerCam`, created when the mode is activated. */
    var playerCam: PlayerCamera?
    /** `cursor`, attached by `setCursor`. */
    var cursor: TerrainCursorModel?

    var cursorRadius: real
    const minCursorRadius: real := 0.2
    const maxCursorRadius: real := 5.0
    const cursorRadiusScrollSpeed: real := 0.001
    /** The last terrain point under the mouse and its face normal, if any. */
    var mousePos: Option<Vec3>
    var mouseNormal: Option<Vec3>
    const keyboardMovementSpeed: real := 5.0
    const flySpeed: real := 5.0
    var curMode: Mode
    var movementDir: Vec3
    var lastT: real

    /** The player this mode drives (position and radius of its ball). */
    var playerPosition: Vec3
    const playerRadius: real
    /** The scene model's screenshot flag, which hides the cursor. */
    var screenshotMode: bool

    /**
     * What the frame update relies on: a well-formed terrain whose vertex
     * buffer has six vertices per cell, a well-formed particle pool, a
     * brush radius within its bounds, and a non-zero normal, if any, at the
     * point under the mouse.
     */
    ghost predicate Valid()
      reads this`cursorRadius, this`mouseNormal, terrain, particles, particles.particles
    {
      terrain.Valid() && |terrain.vertices| == 6 * CellCount(terrain.Grid()) &&
      particles.Valid() && minCursorRadius <= cursorRadius <= maxCursorRadius &&
      (mouseNormal.Some? ==> mouseNormal.value.SquaredLength() > 0.0)
    }

    constructor (terrain: LowPolyTerrainModel, particles: GroundParticleSystem, playerPosition: Vec3, playerRadius: real)
      requires terrain.Valid() && |terrain.vertices| == 6 * CellCount(terrain.Grid()) && particles.Valid()
      ensures Valid()
      ensures this.terrain == terrain && this.particles == particles
      ensures this.playerPosition == playerPosition && this.playerRadius == playerRadius
      ensures cursorRadius == 1.0 && curMode == NoMode && movementDir == Zero3 && lastT == 0.0
      ensures mousePos == None && mouseNormal == None && cursor == null && playerCam == null
    {
      this.terrain := terrain;
      this.particles := particles;
      this.playerPosition := playerPosition;
      this.playerRadius := playerRadius;
      cursorRadius := 1.0;
      mousePos := None;
      mouseNormal := None;
      curMode := NoMode;
      movementDir := Zero3;
      lastT := 0.0;
      screenshotMode := false;
      playerCam := null;
      cursor := null;
    }

    /** `setCursor`: attaches the cursor and gives it the brush size as its scale. */
    method SetCursor(c: TerrainCursorModel)
      modifies this`cursor, c
      ensures cursor == c && c.scale == cursorRadius
    {
      cursor := c;
      UpdateCursorScale();
    }

    /** `updateCursorScale`: the cursor, if any, is scaled to the brush radius. */
    method UpdateCursorScale()
      modifies if cursor != null then {cursor} else {}
      ensures cursor != null ==> cursor.scale == cursorRadius
    {
      if cursor != null {
        cursor.scale := cursorRadius;
      }
    }

    /** `reset`: the camera turns back to azimuth 0 and pitch `3 * pi / 2`, clamped. */
    method Reset(pi: real)
      requires playerCam != null
      modifies playerCam`zRotation, playerCam`yRotation
      ensures playerCam.zRotation == 0.0
      ensures pi > 3.0 ==> playerCam.yRotation == playerCam.yMax
    {
      playerCam.SetZRotation(0.0);
      playerCam.SetYRotation(pi * 3.0 / 2.0);
      if pi > 3.0 {
        ResetPitchIsClamped(pi);
      }
    }

    /** `beforeActivate`: a new camera, then `reset`. */
    method BeforeActivate(pi: real)
      modifies this`playerCam
      ensures playerCam != null && fresh(playerCam)
      ensures playerCam.zRotation == 0.0 && playerCam.playerDist == 3.0
      ensures pi > 3.0 ==> playerCam.yRotation == playerCam.yMax
    {
      playerCam := new PlayerCamera(pi);
      Reset(pi);
    }

    /** `onWheelMove`: the brush grows or shrinks with the wheel, within its bounds. */
    method OnWheelMove(deltaY: real)
      modifies this`cursorRadius, if cursor != null then {cursor} else {}
      ensures cursorRadius == WheelRadius(old(cursorRadius), deltaY)
      ensures minCursorRadius <= cursorRadius <= maxCursorRadius
      ensures cursor != null ==> cursor.scale == cursorRadius
    {
      var delta := -deltaY * cursorRadiusScrollSpeed;
      cursorRadius := Max(minCursorRadius, Min(maxCursorRadius, cursorRadius + delta));
      UpdateCursorScale();
    }

    /**
     * `updateMovement`: the walking direction from W/A/S/D relative to the
     * camera, normalised to speed 5, plus the climb from Space and Shift.
     */
    method UpdateMovement(normalize: Vec3 -> Vec3, keys: KeysDown)
      requires playerCam != null
      modifies this`movementDir
      ensures movementDir == Movement(normalize, keys, playerCam.cameraDir, playerCam.cameraOrthDir)
    {
      var forward, sideways := playerCam.cameraDir, playerCam.cameraOrthDir;
      var walk := Zero3;
      if "w" in keys && keys["w"] {
        walk := walk.Plus(forward);
      }
      if "a" in keys && keys["a"] {
        walk := walk.Minus(sideways);
      }
      if "s" in keys && keys["s"] {
        walk := walk.Minus(forward);
      }
      if "d" in keys && keys["d"] {
        walk := walk.Plus(sideways);
      }
      assert walk == Walk(keys, forward, sideways);
      var dir := normalize(walk).Times(keyboardMovementSpeed);
      if " " in keys && keys[" "] {
        dir := dir.(z := dir.z + flySpeed);
      }
      if "Shift" in keys && keys["Shift"] {
        dir := dir.(z := dir.z - flySpeed);
      }
      movementDir := dir;
    }

    /**
     * `updateMode`: ADD, REMOVE or FLATTEN exactly when its key (E, Q or F)
     * is the only one of the three held; any other combination, including
     * none, selects no brush.
     */
    method UpdateMode(keys: KeysDown)
      modifies this`curMode
      ensures curMode == Add <==> Held(keys, "e") && !Held(keys, "q") && !Held(keys, "f")
      ensures curMode == Remove <==> !Held(keys, "e") && Held(keys, "q") && !Held(keys, "f")
      ensures curMode == Flatten <==> !Held(keys, "e") && !Held(keys, "q") && Held(keys, "f")
    {
      curMode := NoMode;
      if "e" in keys && keys["e"] {
        curMode := Add;
      }
      if "q" in keys && keys["q"] {
        if curMode != NoMode {
          curMode := NoMode;
          return;
        }
        curMode := Remove;
      }
      if "f" in keys && keys["f"] {
        if curMode != NoMode {
          curMode := NoMode;
          return;
        }
        curMode := Flatten;
      }
    }

    /** `onKeyDown` and `onKeyUp`: both recompute the movement and the brush. */
    method OnKey(normalize: Vec3 -> Vec3, keys: KeysDown)
      requires playerCam != null
      modifies this`movementDir, this`curMode
      ensures movementDir == Movement(normalize, keys, playerCam.cameraDir, playerCam.cameraOrthDir)
      ensures curMode == Add <==> Held(keys, "e") && !Held(keys, "q") && !Held(keys, "f")
      ensures curMode == Remove <==> !Held(keys, "e") && Held(keys, "q") && !Held(keys, "f")
      ensures curMode == Flatten <==> !Held(keys, "e") && !Held(keys, "q") && Held(keys, "f")
    {
      UpdateMovement(normalize, keys);
      UpdateMode(keys);
    }

    /**
     * `updateTerrainCursor`: the cursor, if any, moves 0.05 above the point
     * and shows unless screenshot mode is on; it turns to `direction` only
     * when one is given.
     */
    method UpdateTerrainCursor(position: Vec3, direction: Option<Vec3>)
      modifies if cursor != null then {cursor} else {}
      ensures cursor != null ==>
        cursor.position == Vec3(position.x, position.y, position.z + 0.05)
        && cursor.transformPosition == cursor.position
        && cursor.visible == !screenshotMode
        && cursor.direction == (if direction.Some? then direction.value else old(cursor.direction))
        && cursor.scale == old(cursor.scale)
    {
      if cursor != null {
        cursor.SetPosition(Vec3(position.x, position.y, position.z + 0.05));
        cursor.visible := !screenshotMode;
        if direction.Some? {
          cursor.SetDirection(direction.value);
        }
      }
    }

    /**
     * `updateTerrainIntersection` with the raycaster's `ray`. While
     * flattening, once there is a point and a normal, the point moves to
     * where the ray meets the plane through the previous point, and the
     * normal is kept, unless the ray runs (nearly) parallel to that plane;
     * so a flatten stroke keeps the plane of its first frame. Otherwise the
     * point and normal are the raycast's `hit` and `hitNormal` (none when
     * the ray misses the terrain).
     */
    method UpdateTerrainIntersection(ray: Ray, hit: Option<Vec3>, hitNormal: Option<Vec3>)
      requires Valid()
      requires hitNormal.Some? ==> hitNormal.value.SquaredLength() > 0.0
      modifies this`mousePos, this`mouseNormal
      ensures Valid()
      ensures PlaneLocked(curMode, old(mousePos), old(mouseNormal), ray) ==>
        mouseNormal == old(mouseNormal) && mousePos == Some(PlaneHit(old(mousePos).value, old(mouseNormal).value, ray))
      ensures !PlaneLocked(curMode, old(mousePos), old(mouseNormal), ray) ==>
        mousePos == hit && mouseNormal == hitNormal
    {
      if curMode == Flatten && mouseNormal.Some? && mousePos.Some? {
        var start, line := ray.origin, ray.direction;
        var temp := mouseNormal.value.Dot(line);
        if Abs(temp) > LockTolerance {
          var d := mousePos.value.Minus(start).Dot(mouseNormal.value) / temp;
          mousePos := Some(start.Plus(line.Times(d)));
          return;
        }
      }
      mousePos, mouseNormal := hit, hitNormal;
    }

    /**
     * `timeUpdate`: with `delta` the time since the last frame, the player
     * moves by its movement direction times `delta` and is lifted to stand
     * on the ground (the height under it plus its radius); the camera
     * follows, and the point under the mouse is updated. Without a point
     * the cursor hides and the terrain is left alone; with one the cursor
     * moves there and the brush of the current mode is applied there, the
     * mesh patched over the cells it reached, and ADD and REMOVE ask the
     * particle pool for a particle coloured like the ground at that point.
     * `outcome` is what the pool did.
     */
    method TimeUpdate(sqrt: real -> real, t: real, forward: Vec3, ray: Ray, hit: Option<Vec3>, hitNormal: Option<Vec3>,
                      strengthSetting: Option<real>) returns (outcome: Emission)
      requires IsSqrt(sqrt) && Valid() && playerCam != null
      requires hitNormal.Some? ==> hitNormal.value.SquaredLength() > 0.0
      modifies this`lastT, this`playerPosition, this`mousePos, this`mouseNormal
      modifies playerCam`cameraDir, playerCam`cameraOrthDir
      modifies terrain`heights, terrain`vertices, terrain`geometryUpdates
      modifies particles`lastEmittedIndex, particles`lastEmitTime, particles.particles
      modifies if cursor != null then {cursor} else {}
      ensures Valid()
      ensures lastT == t
      ensures var moved := old(playerPosition).Plus(old(movementDir).Times(t - old(lastT)));
        playerPosition == ClampAbove(moved, HeightAt(terrain.Grid(), old(terrain.heights), moved.x, moved.y) + playerRadius)
      ensures playerCam.cameraDir == Vec3(forward.x, forward.y, 0.0)
      ensures playerCam.cameraOrthDir == Vec3(forward.y, -forward.x, 0.0)
      ensures PlaneLocked(curMode, old(mousePos), old(mouseNormal), ray) ==>
        mouseNormal == old(mouseNormal) && mousePos == Some(PlaneHit(old(mousePos).value, old(mouseNormal).value, ray))
      ensures !PlaneLocked(curMode, old(mousePos), old(mouseNormal), ray) ==>
        mousePos == hit && mouseNormal == hitNormal
      ensures terrain.heights == BrushedByMode(sqrt, terrain.Grid(), old(terrain.heights), curMode, mousePos, mouseNormal,
                                               cursorRadius, TerraformStrength(strengthSetting), t - old(lastT))
      ensures mousePos.None? || curMode == NoMode ==>
        terrain.vertices == old(terrain.vertices) && terrain.geometryUpdates == old(terrain.geometryUpdates)
      ensures mousePos.Some? && curMode != NoMode ==>
        var cells := BrushedCells(sqrt, terrain.Grid(), mousePos.value, cursorRadius);
        && terrain.vertices == PatchedVertices(terrain.Grid(), terrain.heights, terrain.maxHeight, old(terrain.vertices), cells)
        && terrain.geometryUpdates == old(terrain.geometryUpdates) + (if cells == {} then 0 else 1)
      ensures old(terrain.Synced()) && terrain.Grid().CellWidth() >= Eps && terrain.Grid().CellHeight() >= Eps ==> terrain.Synced()
      ensures outcome == if mousePos.None? then Skipped
                         else EmissionOutcome(curMode, t, old(particles.lastEmitTime), particles.particlesPerSecond,
                                        old(particles.lastEmittedIndex), |particles.particles|)
      ensures outcome.Emitted? ==>
        particles.particles[outcome.index].State()
          == EmittedState(sqrt, curMode, t, playerPosition, mousePos.value,
                          ColorForHeight(terrain.maxHeight, HeightAt(terrain.Grid(), old(terrain.heights), mousePos.value.x, mousePos.value.y)))
        && particles.lastEmittedIndex == outcome.index && particles.lastEmitTime == t
      ensures !outcome.Emitted? ==>
        particles.lastEmittedIndex == old(particles.lastEmittedIndex) && particles.lastEmitTime == old(particles.lastEmitTime)
      ensures forall k :: 0 <= k < |particles.particles| && !(outcome.Emitted? && k == outcome.index) ==>
        particles.particles[k].State() == old(particles.particles[k].State())
      ensures cursor != null && mousePos.None? ==> !cursor.visible
      ensures cursor != null && mousePos.Some? ==>
        cursor.position == Vec3(mousePos.value.x, mousePos.value.y, mousePos.value.z + 0.05) && cursor.visible == !screenshotMode
    {
      var delta := t - lastT;
      lastT := t;
      MoveAndLook(delta, forward);
      outcome := FollowMouse(sqrt, t, delta, ray, hit, hitNormal, strengthSetting);
    }

    /** The mouse part of `timeUpdate`: update the point under the mouse, then brush there. */
    method FollowMouse(sqrt: real -> real, t: real, delta: real, ray: Ray, hit: Option<Vec3>, hitNormal: Option<Vec3>,
                       strengthSetting: Option<real>) returns (outcome: Emission)
      requires IsSqrt(sqrt) && Valid()
      requires hitNormal.Some? ==> hitNormal.value.SquaredLength() > 0.0
      modifies this`mousePos, this`mouseNormal
      modifies terrain`heights, terrain`vertices, terrain`geometryUpdates
      modifies particles`lastEmittedIndex, particles`lastEmitTime, particles.particles
      modifies if cursor != null then {cursor} else {}
      ensures Valid()
      ensures PlaneLocked(curMode, old(mousePos), old(mouseNormal), ray) ==>
        mouseNormal == old(mouseNormal) && mousePos == Some(PlaneHit(old(mousePos).value, old(mouseNormal).value, ray))
      ensures !PlaneLocked(curMode, old(mousePos), old(mouseNormal), ray) ==>
        mousePos == hit && mouseNormal == hitNormal
      ensures terrain.heights == BrushedByMode(sqrt, terrain.Grid(), old(terrain.heights), curMode, mousePos, mouseNormal,
                                               cursorRadius, TerraformStrength(strengthSetting), delta)
      ensures mousePos.None? || curMode == NoMode ==>
        terrain.vertices == old(terrain.vertices) && terrain.geometryUpdates == old(terrain.geometryUpdates)
      ensures mousePos.Some? && curMode != NoMode ==>
        var cells := BrushedCells(sqrt, terrain.Grid(), mousePos.value, cursorRadius);
        && terrain.vertices == PatchedVertices(terrain.Grid(), terrain.heights, terrain.maxHeight, old(terrain.vertices), cells)
        && terrain.geometryUpdates == old(terrain.geometryUpdates) + (if cells == {} then 0 else 1)
      ensures old(terrain.Synced()) && terrain.Grid().CellWidth() >= Eps && terrain.Grid().CellHeight() >= Eps ==> terrain.Synced()
      ensures outcome == if mousePos.None? then Skipped
                         else EmissionOutcome(curMode, t, old(particles.lastEmitTime), particles.particlesPerSecond,
                                        old(particles.lastEmittedIndex), |particles.particles|)
      ensures outcome.Emitted? ==>
        particles.particles[outcome.index].State()
          == EmittedState(sqrt, curMode, t, playerPosition, mousePos.value,
                          ColorForHeight(terrain.maxHeight, HeightAt(terrain.Grid(), old(terrain.heights), mousePos.value.x, mousePos.value.y)))
        && particles.lastEmittedIndex == outcome.index && particles.lastEmitTime == t
      ensures !outcome.Emitted? ==>
        particles.lastEmittedIndex == old(particles.lastEmittedIndex) && particles.lastEmitTime == old(particles.lastEmitTime)
      ensures forall k :: 0 <= k < |particles.particles| && !(outcome.Emitted? && k == outcome.index) ==>
        particles.particles[k].State() == old(particles.particles[k].State())
      ensures cursor != null && mousePos.None? ==> !cursor.visible
      ensures cursor != null && mousePos.Some? ==>
        cursor.position == Vec3(mousePos.value.x, mousePos.value.y, mousePos.value.z + 0.05) && cursor.visible == !screenshotMode
    {
      UpdateTerrainIntersection(ray, hit, hitNormal);
      outcome := PointAt(sqrt, t, delta, strengthSetting);
    }

    /**
     * The second part of `timeUpdate`, at the point under the mouse:
     * without one hide the cursor; with one place the cursor there and
     * apply the brush.
     */
    method PointAt(sqrt: real -> real, t: real, delta: real, strengthSetting: Option<real>) returns (outcome: Emission)
      requires IsSqrt(sqrt) && Valid()
      modifies terrain`heights, terrain`vertices, terrain`geometryUpdates
      modifies particles`lastEmittedIndex, particles`lastEmitTime, particles.particles
      modifies if cursor != null then {cursor} else {}
      ensures Valid()
      ensures terrain.heights == BrushedByMode(sqrt, terrain.Grid(), old(terrain.heights), curMode, mousePos, mouseNormal,
                                               cursorRadius, TerraformStrength(strengthSetting), delta)
      ensures mousePos.None? || curMode == NoMode ==>
        terrain.vertices == old(terrain.vertices) && terrain.geometryUpdates == old(terrain.geometryUpdates)
      ensures mousePos.Some? && curMode != NoMode ==>
        var cells := BrushedCells(sqrt, terrain.Grid(), mousePos.value, cursorRadius);
        && terrain.vertices == PatchedVertices(terrain.Grid(), terrain.heights, terrain.maxHeight, old(terrain.vertices), cells)
        && terrain.geometryUpdates == old(terrain.geometryUpdates) + (if cells == {} then 0 else 1)
      ensures old(terrain.Synced()) && terrain.Grid().CellWidth() >= Eps && terrain.Grid().CellHeight() >= Eps ==> terrain.Synced()
      ensures outcome == if mousePos.None? then Skipped
                         else EmissionOutcome(curMode, t, old(particles.lastEmitTime), particles.particlesPerSecond,
                                        old(particles.lastEmittedIndex), |particles.particles|)
      ensures outcome.Emitted? ==>
        particles.particles[outcome.index].State()
          == EmittedState(sqrt, curMode, t, playerPosition, mousePos.value,
                          ColorForHeight(terrain.maxHeight, HeightAt(terrain.Grid(), old(terrain.heights), mousePos.value.x, mousePos.value.y)))
        && particles.lastEmittedIndex == outcome.index && particles.lastEmitTime == t
      ensures !outcome.Emitted? ==>
        particles.lastEmittedIndex == old(particles.lastEmittedIndex) && particles.lastEmitTime == old(particles.lastEmitTime)
      ensures forall k :: 0 <= k < |particles.particles| && !(outcome.Emitted? && k == outcome.index) ==>
        particles.particles[k].State() == old(particles.particles[k].State())
      ensures cursor != null && mousePos.None? ==> !cursor.visible
      ensures cursor != null && mousePos.Some? ==>
        cursor.position == Vec3(mousePos.value.x, mousePos.value.y, mousePos.value.z + 0.05) && cursor.visible == !screenshotMode
    {
      if mousePos.Some? {
        UpdateTerrainCursor(mousePos.value, mouseNormal);
        outcome := BrushAtMouse(sqrt, t, delta, strengthSetting);
      } else {
        if cursor != null {
          cursor.visible := false;
        }
        outcome := Skipped;
      }
    }

    /** At the point under the mouse: take the ground colour there, then brush. */
    method BrushAtMouse(sqrt: real -> real, t: real, delta: real, strengthSetting: Option<real>) returns (outcome: Emission)
      requires IsSqrt(sqrt) && Valid() && mousePos.Some?
      modifies terrain`heights, terrain`vertices, terrain`geometryUpdates
      modifies particles`lastEmittedIndex, particles`lastEmitTime, particles.particles
      ensures Valid()
      ensures terrain.heights == BrushedByMode(sqrt, terrain.Grid(), old(terrain.heights), curMode, mousePos, mouseNormal,
                                               cursorRadius, TerraformStrength(strengthSetting), delta)
      ensures curMode == NoMode ==>
        terrain.vertices == old(terrain.vertices) && terrain.geometryUpdates == old(terrain.geometryUpdates)
      ensures curMode != NoMode ==>
        var cells := BrushedCells(sqrt, terrain.Grid(), mousePos.value, cursorRadius);
        && terrain.vertices == PatchedVertices(terrain.Grid(), terrain.heights, terrain.maxHeight, old(terrain.vertices), cells)
        && terrain.geometryUpdates == old(terrain.geometryUpdates) + (if cells == {} then 0 else 1)
      ensures old(terrain.Synced()) && terrain.Grid().CellWidth() >= Eps && terrain.Grid().CellHeight() >= Eps ==> terrain.Synced()
      ensures outcome == EmissionOutcome(curMode, t, old(particles.lastEmitTime), particles.particlesPerSecond,
                                        old(particles.lastEmittedIndex), |particles.particles|)
      ensures outcome.Emitted? ==>
        particles.particles[outcome.index].State()
          == EmittedState(sqrt, curMode, t, playerPosition, mousePos.value,
                          ColorForHeight(terrain.maxHeight, HeightAt(terrain.Grid(), old(terrain.heights), mousePos.value.x, mousePos.value.y)))
        && particles.lastEmittedIndex == outcome.index && particles.lastEmitTime == t
      ensures !outcome.Emitted? ==>
        particles.lastEmittedIndex == old(particles.lastEmittedIndex) && particles.lastEmitTime == old(particles.lastEmitTime)
      ensures forall k :: 0 <= k < |particles.particles| && !(outcome.Emitted? && k == outcome.index) ==>
        particles.particles[k].State() == old(particles.particles[k].State())
    {
      var point := mousePos.value;
      var color := ColorForHeight(terrain.maxHeight, HeightAt(terrain.Grid(), terrain.heights, point.x, point.y));
      outcome := ApplyBrush(sqrt, t, delta, point, mouseNormal, color, strengthSetting);
    }

    /** The first part of `timeUpdate`: move and ground-clamp the player, then let the camera follow. */
    method MoveAndLook(delta: real, forward: Vec3)
      requires terrain.Valid() && playerCam != null
      modifies this`playerPosition, playerCam`cameraDir, playerCam`cameraOrthDir
      ensures var moved := old(playerPosition).Plus(movementDir.Times(delta));
        playerPosition == ClampAbove(moved, HeightAt(terrain.Grid(), terrain.heights, moved.x, moved.y) + playerRadius)
      ensures playerCam.cameraDir == Vec3(forward.x, forward.y, 0.0)
      ensures playerCam.cameraOrthDir == Vec3(forward.y, -forward.x, 0.0)
    {
      MovePlayer(delta);
      playerCam.UpdateCamera(forward);
    }

    /** Move the player, then lift it onto the ground. */
    method MovePlayer(delta: real)
      requires terrain.Valid()
      modifies this`playerPosition
      ensures var moved := old(playerPosition).Plus(movementDir.Times(delta));
        playerPosition == ClampAbove(moved, HeightAt(terrain.Grid(), terrain.heights, moved.x, moved.y) + playerRadius)
    {
      playerPosition := playerPosition.Plus(movementDir.Times(delta));
      var terrainHeight := HeightAt(terrain.Grid(), terrain.heights, playerPosition.x, playerPosition.y);
      var minZ := terrainHeight + playerRadius;
      if playerPosition.z < minZ {
        playerPosition := playerPosition.(z := minZ);
      }
    }

    /**
     * The brush dispatch of `timeUpdate` at the point under the mouse: ADD
     * and REMOVE raise or lower the terrain by the strength times `delta`
     * and ask for a particle of `color`, the terrain's colour there before
     * the stroke; FLATTEN flattens at five times that rate; no
     * brush does nothing. Any brush patches the mesh over the cells it
     * reached.
     */
    method ApplyBrush(sqrt: real -> real, t: real, delta: real, point: Vec3, normal: Option<Vec3>, color: Color,
                      strengthSetting: Option<real>)
      returns (outcome: Emission)
      requires IsSqrt(sqrt) && Valid()
      requires normal.Some? ==> normal.value.SquaredLength() > 0.0
      modifies terrain`heights, terrain`vertices, terrain`geometryUpdates
      modifies particles`lastEmittedIndex, particles`lastEmitTime, particles.particles
      ensures Valid()
      ensures terrain.heights == BrushedByMode(sqrt, terrain.Grid(), old(terrain.heights), curMode, Some(point), normal,
                                               cursorRadius, TerraformStrength(strengthSetting), delta)
      ensures curMode == NoMode ==>
        terrain.vertices == old(terrain.vertices) && terrain.geometryUpdates == old(terrain.geometryUpdates)
      ensures curMode != NoMode ==>
        var cells := BrushedCells(sqrt, terrain.Grid(), point, cursorRadius);
        && terrain.vertices == PatchedVertices(terrain.Grid(), terrain.heights, terrain.maxHeight, old(terrain.vertices), cells)
        && terrain.geometryUpdates == old(terrain.geometryUpdates) + (if cells == {} then 0 else 1)
      ensures old(terrain.Synced()) && terrain.Grid().CellWidth() >= Eps && terrain.Grid().CellHeight() >= Eps ==> terrain.Synced()
      ensures outcome == EmissionOutcome(curMode, t, old(particles.lastEmitTime), particles.particlesPerSecond,
                                        old(particles.lastEmittedIndex), |particles.particles|)
      ensures outcome.Emitted? ==>
        particles.particles[outcome.index].State()
          == EmittedState(sqrt, curMode, t, playerPosition, point, color)
        && particles.lastEmittedIndex == outcome.index && particles.lastEmitTime == t
      ensures !outcome.Emitted? ==>
        particles.lastEmittedIndex == old(particles.lastEmittedIndex) && particles.lastEmitTime == old(particles.lastEmitTime)
      ensures forall k :: 0 <= k < |particles.particles| && !(outcome.Emitted? && k == outcome.index) ==>
        particles.particles[k].State() == old(particles.particles[k].State())
    {
      var strength := TerraformStrength(strengthSetting);
      match curMode {
        case Add =>
          outcome := TerraformAndEmit(sqrt, Add, point, normal, color, t, strength, delta);
        case Remove =>
          outcome := TerraformAndEmit(sqrt, Remove, point, normal, color, t, strength, delta);
        case Flatten =>
          FlattenAt(sqrt, point, normal, strength, delta);
          outcome := Skipped;
        case NoMode =>
          outcome := Skipped;
      }
    }

    /**
     * The FLATTEN step: flatten at five times `strength * delta` and patch
     * the mesh; the particle pool is left alone.
     */
    method FlattenAt(sqrt: real -> real, point: Vec3, normal: Option<Vec3>, strength: real, delta: real)
      requires IsSqrt(sqrt) && Valid()
      requires normal.Some? ==> normal.value.SquaredLength() > 0.0
      modifies terrain`heights, terrain`vertices, terrain`geometryUpdates
      ensures Valid()
      ensures terrain.heights == BrushedByMode(sqrt, terrain.Grid(), old(terrain.heights), Flatten, Some(point), normal,
                                               cursorRadius, strength, delta)
      ensures var cells := BrushedCells(sqrt, terrain.Grid(), point, cursorRadius);
        && terrain.vertices == PatchedVertices(terrain.Grid(), terrain.heights, terrain.maxHeight, old(terrain.vertices), cells)
        && terrain.geometryUpdates == old(terrain.geometryUpdates) + (if cells == {} then 0 else 1)
      ensures old(terrain.Synced()) && terrain.Grid().CellWidth() >= Eps && terrain.Grid().CellHeight() >= Eps ==> terrain.Synced()
    {
      BrushedByModeCases(sqrt, terrain.Grid(), terrain.heights, Flatten, point, normal, cursorRadius, strength, delta);
      terrain.Flatten(sqrt, point, cursorRadius, normal, 5.0 * strength * delta);
    }

    /**
     * One ADD or REMOVE step: raise (ADD) or lower (REMOVE) the terrain by
     * `strength * delta` and patch the mesh, then ask the pool for a
     * particle of colour `color`, which it grants at most once per
     * `1 / particlesPerSecond`. The normal at the point plays no part in
     * these modes.
     */
    method TerraformAndEmit(sqrt: real -> real, mode: Mode, point: Vec3, ghost normal: Option<Vec3>, color: Color, t: real,
                            strength: real, delta: real)
      returns (outcome: Emission)
      requires IsSqrt(sqrt) && Valid() && (mode == Add || mode == Remove)
      requires normal.Some? ==> normal.value.SquaredLength() > 0.0
      modifies terrain`heights, terrain`vertices, terrain`geometryUpdates
      modifies particles`lastEmittedIndex, particles`lastEmitTime, particles.particles
      ensures Valid()
      ensures terrain.heights == BrushedByMode(sqrt, terrain.Grid(), old(terrain.heights), mode, Some(point), normal,
                                               cursorRadius, strength, delta)
      ensures var cells := BrushedCells(sqrt, terrain.Grid(), point, cursorRadius);
        && terrain.vertices == PatchedVertices(terrain.Grid(), terrain.heights, terrain.maxHeight, old(terrain.vertices), cells)
        && terrain.geometryUpdates == old(terrain.geometryUpdates) + (if cells == {} then 0 else 1)
      ensures old(terrain.Synced()) && terrain.Grid().CellWidth() >= Eps && terrain.Grid().CellHeight() >= Eps ==> terrain.Synced()
      ensures outcome == EmissionOutcome(mode, t, old(particles.lastEmitTime), particles.particlesPerSecond,
                                        old(particles.lastEmittedIndex), |particles.particles|)
      ensures outcome.Emitted? ==>
        particles.particles[outcome.index].State() == EmittedState(sqrt, mode, t, playerPosition, point, color)
        && particles.lastEmittedIndex == outcome.index && particles.lastEmitTime == t
      ensures !outcome.Emitted? ==>
        particles.lastEmittedIndex == old(particles.lastEmittedIndex) && particles.lastEmitTime == old(particles.lastEmitTime)
      ensures forall k :: 0 <= k < |particles.particles| && !(outcome.Emitted? && k == outcome.index) ==>
        particles.particles[k].State() == old(particles.particles[k].State())
    {
      BrushedByModeCases(sqrt, terrain.Grid(), terrain.heights, mode, point, normal, cursorRadius, strength, delta);
      terrain.Terraform(sqrt, point, cursorRadius, if mode == Add then strength * delta else -strength * delta);
      outcome := particles.EmitTerraformParticle(sqrt, mode, point, color, t, playerPosition);
    }
  }
}
