/**
 * `generic_position_t<int,4>` (steps_t): a 4-axis integer step vector.
 * Every operator of the C++ template copies its left operand into a result
 * array and updates the components one by one in a for-loop; the methods
 * below do the same and are proved against the element-wise functions.
 */
module DistanceT {

  import opened Common

  const N: nat := 4

  /** A 4-component integer position, as std::array<int,4>. */
  type Steps4 = s: seq<int> | |s| == N witness [0, 0, 0, 0]

  // ---------------------------------------------------------------------------
  // Element-wise specifications.

  function Zero(): (z: Steps4)
    ensures forall i :: 0 <= i < N ==> z[i] == 0
  {
    [0, 0, 0, 0]
  }

  function ElemAdd(a: Steps4, b: Steps4): Steps4
  {
    seq(N, i requires 0 <= i < N => a[i] + b[i])
  }

  function ElemSub(a: Steps4, b: Steps4): Steps4
  {
    seq(N, i requires 0 <= i < N => a[i] - b[i])
  }

  function ElemMul(a: Steps4, b: Steps4): Steps4
  {
    seq(N, i requires 0 <= i < N => a[i] * b[i])
  }

  /** The sum of the first `k` components. */
  function SumPrefix(a: Steps4, k: nat): int
    requires k <= N
  {
    if k == 0 then 0 else SumPrefix(a, k - 1) + a[k - 1]
  }

  function Sum(a: Steps4): int { SumPrefix(a, N) }

  /** `v` padded with zeros (or cut) to exactly four components. */
  function Fit(v: seq<int>): (r: Steps4)
    ensures forall i :: 0 <= i < N ==> r[i] == (if i < |v| then v[i] else 0)
  {
    seq(N, i requires 0 <= i < N => if i < |v| then v[i] else 0)
  }

  // ---------------------------------------------------------------------------
  // The operations, as in the C++ source.

  /** Default constructor: the base `std::array<T, N>()` is value-initialised
      to zeros, and the loop then sets every component to 0 once more. */
  method Default() returns (r: Steps4)
    ensures r == Zero()
  {
    r := Zero();
    for i := 0 to N
      invariant forall k :: 0 <= k < i ==> r[k] == 0
    {
      r := r[i := 0];
    }
  }

  /** Initializer-list constructor: the values fill the leading components in
      order; more than four values throw std::invalid_argument (None). */
  method FromList(v: seq<int>) returns (r: Option<Steps4>)
    ensures r.None? <==> |v| > N
    ensures r.Some? ==> r.value[..|v|] == v
    ensures r.Some? ==> forall i :: |v| <= i < N ==> r.value[i] == 0
  {
    var ret := Zero();
    var i := 0;
    while i < |v|
      invariant 0 <= i <= |v| && i <= N
      invariant forall k :: 0 <= k < i ==> ret[k] == v[k]
      invariant forall k :: i <= k < N ==> ret[k] == 0
    {
      if i >= N {
        return None;
      }
      ret := ret[i := v[i]];
      i := i + 1;
    }
    return Some(ret);
  }

  /** std::vector constructor: copies the first min(|v|, 4) values. */
  method FromVector(v: seq<int>) returns (r: Steps4)
    ensures r == Fit(v)
  {
    r := Zero();
    var n := if |v| < N then |v| else N;
    for i := 0 to n
      invariant forall k :: 0 <= k < i ==> r[k] == v[k]
      invariant forall k :: i <= k < N ==> r[k] == 0
    {
      r := r[i := v[i]];
    }
  }

  /** operator+ */
  method Add(a: Steps4, b: Steps4) returns (r: Steps4)
    ensures r == ElemAdd(a, b)
  {
    r := a;
    for i := 0 to N
      invariant forall k :: 0 <= k < i ==> r[k] == a[k] + b[k]
      invariant forall k :: i <= k < N ==> r[k] == a[k]
    {
      r := r[i := r[i] + b[i]];
    }
  }

  /** operator- */
  method Sub(a: Steps4, b: Steps4) returns (r: Steps4)
    ensures r == ElemSub(a, b)
  {
    r := a;
    for i := 0 to N
      invariant forall k :: 0 <= k < i ==> r[k] == a[k] - b[k]
      invariant forall k :: i <= k < N ==> r[k] == a[k]
    {
      r := r[i := r[i] - b[i]];
    }
  }

  /** operator* of two positions: the component-wise product. */
  method Mul(a: Steps4, b: Steps4) returns (r: Steps4)
    ensures r == ElemMul(a, b)
  {
    r := a;
    for i := 0 to N
      invariant forall k :: 0 <= k < i ==> r[k] == a[k] * b[k]
      invariant forall k :: i <= k < N ==> r[k] == a[k]
    {
      r := r[i := r[i] * b[i]];
    }
  }

  /** operator==: true iff every component is equal. */
  method Equal(a: Steps4, b: Steps4) returns (r: bool)
    ensures r <==> (forall i :: 0 <= i < N ==> a[i] == b[i])
    ensures r <==> a == b
  {
    r := true;
    for i := 0 to N
      invariant r <==> (forall k :: 0 <= k < i ==> a[k] == b[k])
    {
      r := r && (a[i] == b[i]);
    }
  }

  /** sumv: std::accumulate over the components. */
  method Sumv(a: Steps4) returns (r: int)
    ensures r == Sum(a)
  {
    r := 0;
    for i := 0 to N
      invariant r == SumPrefix(a, i)
    {
      r := r + a[i];
    }
  }

  // ---------------------------------------------------------------------------
  // Algebra of the element-wise operations.

  /** Subtraction undoes addition. */
  lemma SubUndoesAdd(a: Steps4, b: Steps4)
    ensures ElemSub(ElemAdd(a, b), b) == a
  {
  }

  lemma AddCommutes(a: Steps4, b: Steps4)
    ensures ElemAdd(a, b) == ElemAdd(b, a)
  {
  }

  lemma AddAssociates(a: Steps4, b: Steps4, c: Steps4)
    ensures ElemAdd(ElemAdd(a, b), c) == ElemAdd(a, ElemAdd(b, c))
  {
  }

  lemma ZeroIsNeutral(a: Steps4)
    ensures ElemAdd(a, Zero()) == a && ElemSub(a, Zero()) == a
  {
  }

  lemma MulCommutes(a: Steps4, b: Steps4)
    ensures ElemMul(a, b) == ElemMul(b, a)
  {
    assert forall i :: 0 <= i < N ==> a[i] * b[i] == b[i] * a[i];
  }

  /** sumv is additive: the sum of a sum is the sum of the sums. */
  lemma {:induction false} SumPrefixAdd(a: Steps4, b: Steps4, k: nat)
    requires k <= N
    ensures SumPrefix(ElemAdd(a, b), k) == SumPrefix(a, k) + SumPrefix(b, k)
  {
    if k > 0 {
      SumPrefixAdd(a, b, k - 1);
    }
  }

  lemma SumAdd(a: Steps4, b: Steps4)
    ensures Sum(ElemAdd(a, b)) == Sum(a) + Sum(b)
  {
    SumPrefixAdd(a, b, N);
  }

  /** The sum written out over the four axes. */
  lemma SumIsFourTerms(a: Steps4)
    ensures Sum(a) == a[0] + a[1] + a[2] + a[3]
  {
    assert SumPrefix(a, 0) == 0;
    assert SumPrefix(a, 1) == a[0];
    assert SumPrefix(a, 2) == a[0] + a[1];
    assert SumPrefix(a, 3) == a[0] + a[1] + a[2];
  }

  /** The vector constructor on a 4-element vector is the identity. */
  lemma FitOfFour(a: Steps4)
    ensures Fit(a) == a
  {
  }
}
