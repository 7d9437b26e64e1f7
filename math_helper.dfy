/**
 * Small vector and matrix helpers shared by both revisions of the engine
 * (Assets/Physics/MathHelper.cs and Assets/Models/MathHelper.cs hold the same
 * Equal, Mul and Transpose; the Models revision adds the two Cross overloads).
 * Single-precision floats are modelled as mathematical reals.
 */
module MathHelper {

  /** A 2-vector (Unity.Mathematics float2). */
  datatype Float2 = Float2(x: real, y: real) {
    /** Component access `v[axis]` for axis 0 (x) or 1 (y). */
    function At(axis: int): real
      requires 0 <= axis <= 1
    {
      if axis == 0 then x else y
    }
  }

  /** A 2x2 matrix stored by columns (float2x2 has fields c0 and c1). */
  datatype Float2x2 = Float2x2(c0: Float2, c1: Float2)

  /** A 2x4 matrix stored by columns (float2x4), used for rectangle vertices and normals. */
  datatype Float2x4 = Float2x4(c0: Float2, c1: Float2, c2: Float2, c3: Float2) {
    function Column(i: int): Float2
      requires 0 <= i < 4
    {
      if i == 0 then c0 else if i == 1 then c1 else if i == 2 then c2 else c3
    }
  }

  const Zero: Float2 := Float2(0.0, 0.0)

  /** EPSILON = 1.1920928955078125e-7, the single-precision machine epsilon 2^-23. */
  const EPSILON: real := 0.00000011920928955078125

  function Abs(a: real): real { if a < 0.0 then -a else a }

  function Max(a: real, b: real): real { if a < b then b else a }

  function Add(a: Float2, b: Float2): Float2 { Float2(a.x + b.x, a.y + b.y) }

  function Scale(v: Float2, s: real): Float2 { Float2(v.x * s, v.y * s) }

  function Dot(a: Float2, b: Float2): real { a.x * b.x + a.y * b.y }

  /** Approximate equality: |a - b| <= EPSILON. */
  predicate Equal(a: real, b: real)
  {
    Abs(a - b) <= EPSILON
  }

  /** Matrix times column vector, written out component-wise as the source does. */
  function Mul(m: Float2x2, v: Float2): Float2
  {
    Float2(m.c0.x * v.x + m.c1.x * v.y, m.c0.y * v.x + m.c1.y * v.y)
  }

  /** float2x2(c0.x, c0.y, c1.x, c1.y) is row-major, so the result has columns (c0.x, c1.x) and (c0.y, c1.y). */
  function Transpose(m: Float2x2): Float2x2
  {
    Float2x2(Float2(m.c0.x, m.c1.x), Float2(m.c0.y, m.c1.y))
  }

  /** The scalar 2-D cross product x.x * y.y - x.y * y.x (Models revision). */
  function Cross(a: Float2, b: Float2): real
  {
    a.x * b.y - a.y * b.x
  }

  /** The cross product of a scalar (an angular velocity) with a vector: (-s * v.y, s * v.x). */
  function CrossScalar(s: real, v: Float2): Float2
  {
    Float2(v.y * -s, v.x * s)
  }

  lemma EpsilonValue()
    ensures EPSILON == 1.0 / 8388608.0 && 0.0 < EPSILON
  {
  }

  /** Equal is reflexive and symmetric (it is not transitive). */
  lemma EqualReflexiveSymmetric(a: real, b: real)
    ensures Equal(a, a)
    ensures Equal(a, b) <==> Equal(b, a)
  {
  }

  /** Equal is not transitive: 0 ~ EPSILON ~ 2*EPSILON but 0 is not equal to 2*EPSILON. */
  lemma EqualNotTransitive()
    ensures Equal(0.0, EPSILON) && Equal(EPSILON, 2.0 * EPSILON) && !Equal(0.0, 2.0 * EPSILON)
  {
  }

  /** Mul(m, v) is the linear combination v.x * c0 + v.y * c1 of the columns. */
  lemma MulIsColumnCombination(m: Float2x2, v: Float2)
    ensures Mul(m, v) == Add(Scale(m.c0, v.x), Scale(m.c1, v.y))
  {
  }

  /** Transpose swaps the off-diagonal entries and keeps the diagonal. */
  lemma TransposeSwapsOffDiagonal(m: Float2x2)
    ensures Transpose(m).c0.y == m.c1.x && Transpose(m).c1.x == m.c0.y
    ensures Transpose(m).c0.x == m.c0.x && Transpose(m).c1.y == m.c1.y
  {
  }

  /** Transpose is an involution. */
  lemma TransposeInvolution(m: Float2x2)
    ensures Transpose(Transpose(m)) == m
  {
  }

  /** Multiplying by the transpose projects onto the columns: (dot(c0, v), dot(c1, v)). */
  lemma MulTransposeIsDots(m: Float2x2, v: Float2)
    ensures Mul(Transpose(m), v) == Float2(Dot(m.c0, v), Dot(m.c1, v))
  {
  }

  /** The vector cross product is anti-symmetric and vanishes on equal arguments. */
  lemma CrossAntiSymmetric(a: Float2, b: Float2)
    ensures Cross(a, b) == -Cross(b, a)
    ensures Cross(a, a) == 0.0
  {
  }

  /** Cross(s, v) is perpendicular to v, is zero for s = 0, and equals s times v rotated by +90 degrees. */
  lemma CrossScalarPerpendicular(s: real, v: Float2)
    ensures Dot(CrossScalar(s, v), v) == 0.0
    ensures CrossScalar(0.0, v) == Zero
    ensures CrossScalar(s, v) == Scale(Float2(-v.y, v.x), s)
  {
  }

  /** Cross(a, Cross(s, b)) == s * dot(a, b): the two overloads compose as in the resolver's angular terms. */
  lemma CrossOfCrossScalar(a: Float2, s: real, b: Float2)
    ensures Cross(a, CrossScalar(s, b)) == s * Dot(a, b)
  {
  }
}
