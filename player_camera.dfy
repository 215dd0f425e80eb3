// The orbiting third-person camera (PlayerCamera): yaw and pitch around the
// player and the horizontal walking directions derived from where the
// camera looks. The quaternion pose (`LookAt`) is not modelled; the
// camera's resulting forward vector is an input of `UpdateCamera`.

module PlayerCameraModel {
  import opened Geometry

  class PlayerCamera {
    /** Bounds of the pitch setter. */
    const yMin: real := 0.1
    const yMax: real := 3.1

    var cameraDir: Vec3
    var cameraOrthDir: Vec3
    var zRotation: real
    var yRotation: real
    var playerDist: real

    /**
     * The field initialisers: yaw 0, pitch `3 pi / 2` (written straight into
     * the field, so not clamped), distance 3. `pi` stands for `Math.PI`.
     */
    constructor (pi: real)
      ensures zRotation == 0.0 && yRotation == pi * 3.0 / 2.0 && playerDist == 3.0
      ensures cameraDir == Zero3 && cameraOrthDir == Zero3
    {
      cameraDir, cameraOrthDir := Zero3, Zero3;
      zRotation, yRotation, playerDist := 0.0, pi * 3.0 / 2.0, 3.0;
    }

    /** The `zRotation` setter stores its argument as it is. */
    method SetZRotation(z: real)
      modifies this`zRotation
      ensures zRotation == z
    {
      zRotation := z;
    }

    /**
     * The `yRotation` setter clamps the pitch into `[yMin, yMax]`: a value
     * in range is stored as it is, one below is raised to `yMin`, one above
     * is lowered to `yMax`.
     */
    method SetYRotation(y: real)
      modifies this`yRotation
      ensures yMin <= yRotation <= yMax
      ensures yMin <= y <= yMax ==> yRotation == y
      ensures y < yMin ==> yRotation == yMin
      ensures y > yMax ==> yRotation == yMax
    {
      yRotation := y;
      if yRotation < yMin {
        yRotation := yMin;
      }
      if yRotation > yMax {
        yRotation := yMax;
      }
    }

    /** The `playerDist` setter stores its argument as it is. */
    method SetPlayerDist(d: real)
      modifies this`playerDist
      ensures playerDist == d
    {
      playerDist := d;
    }

    /**
     * The end of `updateCamera`: the walking direction is the camera's
     * forward vector flattened onto the ground, the strafing direction the
     * same vector turned a quarter to the right. Both are horizontal, they
     * are perpendicular and equally long.
     */
    method UpdateCamera(forward: Vec3)
      modifies this`cameraDir, this`cameraOrthDir
      ensures cameraDir == Vec3(forward.x, forward.y, 0.0)
      ensures cameraOrthDir == Vec3(forward.y, -forward.x, 0.0)
      ensures cameraDir.z == 0.0 && cameraOrthDir.z == 0.0
      ensures cameraDir.Dot(cameraOrthDir) == 0.0
      ensures cameraDir.SquaredLength() == cameraOrthDir.SquaredLength()
    {
      cameraDir := Vec3(forward.x, forward.y, 0.0);
      cameraOrthDir := Vec3(forward.y, -forward.x, 0.0);
    }
  }
}
