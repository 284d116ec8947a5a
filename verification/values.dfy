/** Fixed-width integers and the vector value types the scene objects carry. */
module Values {

  const Int32Min: int := -0x8000_0000
  const Int32Max: int := 0x7FFF_FFFF

  /** C#'s `int`. */
  newtype Int32 = x: int | -0x8000_0000 <= x < 0x8000_0000

  /** C#'s `byte`. */
  newtype Byte = x: int | 0 <= x < 0x100

  /** Floating-point payloads are carried as reals; the model never computes on them. */
  datatype Vector2 = Vector2(x: real, y: real)
  datatype Vector3 = Vector3(x: real, y: real, z: real)
  datatype Vector4 = Vector4(x: real, y: real, z: real, w: real)
  datatype ColorRGB = ColorRGB(r: real, g: real, b: real)
}
