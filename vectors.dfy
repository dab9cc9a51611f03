/** The small vector value types of the system library (libs/np-syslib/include/Vectors.h),
    in their integer instantiations (Vector2i/2u, 3i/3u, 4i/4u). Construction and
    comparison do not depend on the integer width, so the components are `int`. */
module Vectors {

  datatype Vector2 = Vector2(x: int, y: int)
  {
    /** The default constructor. */
    static function Zero(): (v: Vector2)
      ensures v == Splat(0)
    {
      Vector2(0, 0)
    }

    /** The one-value constructor: every component is `a`. */
    static function Splat(a: int): (v: Vector2)
      ensures v.x == a && v.y == a
    {
      Vector2(a, a)
    }

    /** operator==: componentwise, which is value equality. */
    predicate Eq(other: Vector2)
      ensures Eq(other) <==> this == other
    {
      x == other.x && y == other.y
    }

    /** operator!=: some component differs, which is exactly not Eq. */
    predicate Ne(other: Vector2)
      ensures Ne(other) <==> !Eq(other)
    {
      x != other.x || y != other.y
    }
  }

  datatype Vector3 = Vector3(x: int, y: int, z: int)
  {
    static function Zero(): (v: Vector3)
      ensures v == Splat(0)
    {
      Vector3(0, 0, 0)
    }

    static function Splat(a: int): (v: Vector3)
      ensures v.x == a && v.y == a && v.z == a
    {
      Vector3(a, a, a)
    }

    predicate Eq(other: Vector3)
      ensures Eq(other) <==> this == other
    {
      x == other.x && y == other.y && z == other.z
    }

    predicate Ne(other: Vector3)
      ensures Ne(other) <==> !Eq(other)
    {
      x != other.x || y != other.y || z != other.z
    }
  }

  datatype Vector4 = Vector4(x: int, y: int, z: int, w: int)
  {
    static function Zero(): (v: Vector4)
      ensures v == Splat(0)
    {
      Vector4(0, 0, 0, 0)
    }

    static function Splat(a: int): (v: Vector4)
      ensures v.x == a && v.y == a && v.z == a && v.w == a
    {
      Vector4(a, a, a, a)
    }

    predicate Eq(other: Vector4)
      ensures Eq(other) <==> this == other
    {
      x == other.x && y == other.y && z == other.z && w == other.w
    }

    predicate Ne(other: Vector4)
      ensures Ne(other) <==> !Eq(other)
    {
      x != other.x || y != other.y || z != other.z || w != other.w
    }
  }
}
