/**
 * `tp::motor::Steps`: a 4-axis integer step count with value operators.
 * Every operator is one constructor expression, so the model is a datatype
 * and pure functions.  Division is C++ int division (toward zero).
 */
module DtoSteps {

  import opened Common

  datatype Steps = Steps(s0: int, s1: int, s2: int, s3: int)

  /** The default constructor. */
  function DefaultSteps(): Steps { Steps(0, 0, 0, 0) }

  /** Element `i` of the underlying std::array<int, 4>. */
  function At(s: Steps, i: nat): int
    requires i < 4
  {
    if i == 0 then s.s0 else if i == 1 then s.s1 else if i == 2 then s.s2 else s.s3
  }

  /** operator+: axis by axis; subtracting `b` again gives `a` back. */
  function Plus(a: Steps, b: Steps): (r: Steps)
    ensures forall i :: 0 <= i < 4 ==> At(r, i) == At(a, i) + At(b, i)
    ensures Minus(r, b) == a && Minus(r, a) == b
  {
    Steps(a.s0 + b.s0, a.s1 + b.s1, a.s2 + b.s2, a.s3 + b.s3)
  }

  /** operator-: axis by axis; the difference is zero exactly for equal vectors. */
  function Minus(a: Steps, b: Steps): (r: Steps)
    ensures forall i :: 0 <= i < 4 ==> At(r, i) == At(a, i) - At(b, i)
    ensures r == DefaultSteps() <==> a == b
  {
    Steps(a.s0 - b.s0, a.s1 - b.s1, a.s2 - b.s2, a.s3 - b.s3)
  }

  /** operator*(Steps, Steps): the axis-by-axis product; (1,1,1,1) is its unit
      and (0,0,0,0) absorbs it. */
  function Times(a: Steps, b: Steps): (r: Steps)
    ensures forall i :: 0 <= i < 4 ==> At(r, i) == At(a, i) * At(b, i)
    ensures b == Steps(1, 1, 1, 1) ==> r == a
    ensures b == DefaultSteps() ==> r == DefaultSteps()
  {
    Steps(a.s0 * b.s0, a.s1 * b.s1, a.s2 * b.s2, a.s3 * b.s3)
  }

  /** operator*(Steps, int): every axis scaled by `k`; scaling by 1 changes
      nothing and scaling by 0 gives the zero vector. */
  function Scale(a: Steps, k: int): (r: Steps)
    ensures forall i :: 0 <= i < 4 ==> At(r, i) == At(a, i) * k
    ensures k == 1 ==> r == a
    ensures k == 0 ==> r == DefaultSteps()
  {
    Steps(a.s0 * k, a.s1 * k, a.s2 * k, a.s3 * k)
  }

  /** operator/(Steps, int); the divisor must not be 0 (C++ leaves that
      undefined).  Each axis is the quotient of the magnitudes, negative only
      when the axis and `k` have opposite signs: rounding toward zero. */
  function DivInt(a: Steps, k: int): (r: Steps)
    requires k != 0
    ensures forall i :: 0 <= i < 4 ==> Abs(At(r, i)) == Abs(At(a, i)) / Abs(k)
    ensures forall i :: 0 <= i < 4 && At(r, i) < 0 ==> (At(a, i) > 0) != (k > 0)
    ensures forall i :: 0 <= i < 4 && At(r, i) > 0 ==> (At(a, i) > 0) == (k > 0)
  {
    Steps(CDiv(a.s0, k), CDiv(a.s1, k), CDiv(a.s2, k), CDiv(a.s3, k))
  }

  predicate NoZero(b: Steps) { b.s0 != 0 && b.s1 != 0 && b.s2 != 0 && b.s3 != 0 }

  /** operator/(Steps, Steps): axis-by-axis C++ division, each axis rounded
      toward zero.  No axis of `b` may be 0. */
  function DivSteps(a: Steps, b: Steps): (r: Steps)
    requires NoZero(b)
    ensures forall i :: 0 <= i < 4 ==> At(b, i) != 0 && Abs(At(r, i)) == Abs(At(a, i)) / Abs(At(b, i))
    ensures forall i :: 0 <= i < 4 && At(r, i) < 0 ==> (At(a, i) > 0) != (At(b, i) > 0)
    ensures forall i :: 0 <= i < 4 && At(r, i) > 0 ==> (At(a, i) > 0) == (At(b, i) > 0)
  {
    Steps(CDiv(a.s0, b.s0), CDiv(a.s1, b.s1), CDiv(a.s2, b.s2), CDiv(a.s3, b.s3))
  }

  /** len2(s): the squared length, the sum of the four squares.  It is never
      negative, at least the square of each axis, and zero exactly for the
      zero vector. */
  function Len2(s: Steps): (r: int)
    ensures forall i :: 0 <= i < 4 ==> At(s, i) * At(s, i) <= r
    ensures r == 0 <==> s == DefaultSteps()
  {
    Squares(s);
    s.s0 * s.s0 + s.s1 * s.s1 + s.s2 * s.s2 + s.s3 * s.s3
  }

  /** len2(s, x, y, z, t): the squares of the selected axes only.  Selecting
      every axis gives len2, selecting none gives 0, and any selection lies
      between the two. */
  function Len2Sel(s: Steps, x: bool, y: bool, z: bool, t: bool): (r: int)
    ensures 0 <= r <= Len2(s)
    ensures x && y && z && t ==> r == Len2(s)
    ensures !x && !y && !z && !t ==> r == 0
    ensures x && At(s, 0) != 0 ==> r > 0
  {
    Squares(s);
    (if x then s.s0 * s.s0 else 0) + (if y then s.s1 * s.s1 else 0)
    + (if z then s.s2 * s.s2 else 0) + (if t then s.s3 * s.s3 else 0)
  }

  /** A square is never negative, and positive for a non-zero value. */
  lemma Square(v: int)
    ensures v * v >= 0
    ensures v != 0 ==> v * v > 0
  {
    if v < 0 { assert v * v == (-v) * (-v); }
  }

  /** The squares of the four axes. */
  lemma Squares(s: Steps)
    ensures s.s0 * s.s0 >= 0 && s.s1 * s.s1 >= 0 && s.s2 * s.s2 >= 0 && s.s3 * s.s3 >= 0
    ensures (s.s0 != 0 ==> s.s0 * s.s0 > 0) && (s.s1 != 0 ==> s.s1 * s.s1 > 0)
    ensures (s.s2 != 0 ==> s.s2 * s.s2 > 0) && (s.s3 != 0 ==> s.s3 * s.s3 > 0)
  {
    Square(s.s0);
    Square(s.s1);
    Square(s.s2);
    Square(s.s3);
  }

  // ---------------------------------------------------------------------------
  // Properties.

  /** The four-argument constructor stores its arguments in order, and the
      default constructor is the zero vector, the unit of `+`. */
  lemma DefaultIsNeutral(a: Steps)
    ensures Plus(a, DefaultSteps()) == a && Plus(DefaultSteps(), a) == a
    ensures Minus(a, DefaultSteps()) == a
  {
  }

  /** `-` undoes `+` and `+` undoes `-`. */
  lemma PlusMinusInverse(a: Steps, b: Steps)
    ensures Minus(Plus(a, b), b) == a
    ensures Plus(Minus(a, b), b) == a
  {
  }

  lemma PlusCommutes(a: Steps, b: Steps)
    ensures Plus(a, b) == Plus(b, a)
  {
  }

  /** Scaling by an int is the product with the constant vector (k,k,k,k). */
  lemma ScaleIsTimesConstant(a: Steps, k: int)
    ensures Scale(a, k) == Times(a, Steps(k, k, k, k))
  {
  }

  /** Scaling distributes over `+`. */
  lemma ScaleDistributes(a: Steps, b: Steps, k: int)
    ensures Scale(Plus(a, b), k) == Plus(Scale(a, k), Scale(b, k))
  {
    assert (a.s0 + b.s0) * k == a.s0 * k + b.s0 * k;
    assert (a.s1 + b.s1) * k == a.s1 * k + b.s1 * k;
    assert (a.s2 + b.s2) * k == a.s2 * k + b.s2 * k;
    assert (a.s3 + b.s3) * k == a.s3 * k + b.s3 * k;
  }

  /** Dividing a scaled vector by the same factor gives it back. */
  lemma DivUndoesScale(a: Steps, k: int)
    requires k != 0
    ensures DivInt(Scale(a, k), k) == a
  {
    CDivExact(a.s0, k);
    CDivExact(a.s1, k);
    CDivExact(a.s2, k);
    CDivExact(a.s3, k);
  }

  /** Division truncates toward zero: it commutes with negation, so
      (-7,7,-1,1) / 2 is (-3,3,0,0), not Euclidean (-4,3,-1,0). */
  lemma DivTruncatesTowardZero(a: Steps, k: int)
    requires k != 0
    ensures DivInt(Scale(a, -1), k) == Scale(DivInt(a, k), -1)
    ensures DivInt(Steps(-7, 7, -1, 1), 2) == Steps(-3, 3, 0, 0)
  {
    CDivNeg(a.s0, k);
    CDivNeg(a.s1, k);
    CDivNeg(a.s2, k);
    CDivNeg(a.s3, k);
  }

  /** Dividing by (k,k,k,k) is dividing by k. */
  lemma DivStepsByConstant(a: Steps, k: int)
    requires k != 0
    ensures DivSteps(a, Steps(k, k, k, k)) == DivInt(a, k)
  {
  }
}
