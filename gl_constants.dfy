/** WebGL enumerants and glTF accessor element types used throughout the
    pipeline, with the size and component-count tables of Cesium's
    `ComponentDatatype.getSizeInBytes` and `numberOfComponentsForType`. */
module GlConstants {
  import opened Wrappers

  const BYTE: nat := 5120
  const UNSIGNED_BYTE: nat := 5121
  const SHORT: nat := 5122
  const UNSIGNED_SHORT: nat := 5123
  const INT: nat := 5124
  const UNSIGNED_INT: nat := 5125
  const FLOAT: nat := 5126
  const DOUBLE: nat := 5130

  const TRIANGLES: nat := 4
  const ARRAY_BUFFER: nat := 34962
  const ELEMENT_ARRAY_BUFFER: nat := 34963
  const SCISSOR_TEST: nat := 3089
  const REPEAT: nat := 10497

  /** An accessor's `type`. */
  datatype AccessorType = Scalar | Vec2 | Vec3 | Vec4 | Mat2 | Mat3 | Mat4

  /** `numberOfComponentsForType`. */
  function NumberOfComponents(t: AccessorType): (r: nat)
    ensures 1 <= r <= 16
  {
    match t
    case Scalar => 1
    case Vec2 => 2
    case Vec3 => 3
    case Vec4 => 4
    case Mat2 => 4
    case Mat3 => 9
    case Mat4 => 16
  }

  predicate IsIntegerType(componentType: nat) {
    componentType in {BYTE, UNSIGNED_BYTE, SHORT, UNSIGNED_SHORT, INT, UNSIGNED_INT}
  }

  /** `ComponentDatatype.getSizeInBytes`; `None` where it throws. */
  function SizeInBytes(componentType: nat): (r: Option<nat>)
    ensures r.Some? <==> IsIntegerType(componentType) || componentType == FLOAT || componentType == DOUBLE
    ensures r.Some? ==> r.value in {1, 2, 4, 8}
  {
    if componentType == BYTE || componentType == UNSIGNED_BYTE then Some(1)
    else if componentType == SHORT || componentType == UNSIGNED_SHORT then Some(2)
    else if componentType == INT || componentType == UNSIGNED_INT || componentType == FLOAT then Some(4)
    else if componentType == DOUBLE then Some(8)
    else None
  }
}
