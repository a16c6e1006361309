/**
 * An isosceles triangle given by its lateral side and its base. Nothing is
 * checked at construction; the setters refuse non-positive lengths; the
 * validity test, the perimeter and the guard in front of the area formula
 * work on whatever the triangle currently holds.
 */
module Isosceles {
  import opened Wrappers

  /** The `ValueError`s the class raises. */
  datatype TriangleError = NonPositiveLateralSide | NonPositiveBase | NoSuchTriangle

  /** The constructor stores both lengths as given, without validation. */
  datatype Triangle = Triangle(lateralSide: real, base: real)

  /** Reference definition: three positive lengths form a (non-degenerate)
      triangle when each is shorter than the sum of the other two. */
  ghost predicate FormsTriangle(a: real, b: real, c: real) {
    a > 0.0 && b > 0.0 && c > 0.0 && a < b + c && b < a + c && c < a + b
  }

  /** `lateral_side = value`: refuses a non-positive value and leaves the
      triangle as it was; it does not check the triangle inequality. */
  function SetLateralSide(t: Triangle, value: real): (r: Result<Triangle, TriangleError>)
    ensures r.Err? <==> value <= 0.0
    ensures r.Err? ==> r.error == NonPositiveLateralSide
    ensures r.Ok? ==> r.value.lateralSide == value && r.value.base == t.base
  {
    if value <= 0.0 then Err(NonPositiveLateralSide) else Ok(t.(lateralSide := value))
  }

  /** `base = value`, with the same rule as the lateral side. */
  function SetBase(t: Triangle, value: real): (r: Result<Triangle, TriangleError>)
    ensures r.Err? <==> value <= 0.0
    ensures r.Err? ==> r.error == NonPositiveBase
    ensures r.Ok? ==> r.value.base == value && r.value.lateralSide == t.lateralSide
  {
    if value <= 0.0 then Err(NonPositiveBase) else Ok(t.(base := value))
  }

  /** `is_valid`: the lengths describe a real isosceles triangle. */
  function IsValid(t: Triangle): (r: bool)
    ensures r <==> FormsTriangle(t.lateralSide, t.lateralSide, t.base)
  {
    if t.lateralSide <= 0.0 || t.base <= 0.0 then false
    else 2.0 * t.lateralSide > t.base
  }

  /** `perimeter`: the sum of the three sides, or an error for lengths that
      form no triangle. */
  function Perimeter(t: Triangle): (r: Result<real, TriangleError>)
    ensures r.Err? <==> !FormsTriangle(t.lateralSide, t.lateralSide, t.base)
    ensures r.Err? ==> r.error == NoSuchTriangle
    ensures r.Ok? ==> r.value == t.lateralSide + t.lateralSide + t.base
    ensures r.Ok? ==> r.value > 2.0 * t.base
  {
    if !IsValid(t) then Err(NoSuchTriangle) else Ok(2.0 * t.lateralSide + t.base)
  }

  /** The guard of `area` and the quantity it takes the square root of,
      `lateral_side^2 - (base/2)^2`: the squared height. It is an error for an
      invalid triangle and positive for a valid one, so the root is real. */
  function SquaredHeight(t: Triangle): (r: Result<real, TriangleError>)
    ensures r.Err? <==> !FormsTriangle(t.lateralSide, t.lateralSide, t.base)
    ensures r.Err? ==> r.error == NoSuchTriangle
    ensures r.Ok? ==> r.value > 0.0
    ensures r.Ok? ==> r.value + (t.base / 2.0) * (t.base / 2.0) == t.lateralSide * t.lateralSide
  {
    if !IsValid(t) then Err(NoSuchTriangle)
    else
      var half := t.base / 2.0;
      assert t.lateralSide > half > 0.0;
      assert t.lateralSide * t.lateralSide > half * half by {
        assert t.lateralSide * t.lateralSide > t.lateralSide * half;
        assert t.lateralSide * half > half * half;
      }
      Ok(t.lateralSide * t.lateralSide - half * half)
  }

  /** `__eq__`: both lengths agree. */
  function Equals(t: Triangle, u: Triangle): (r: bool)
    ensures r <==> t == u
  {
    t.lateralSide == u.lateralSide && t.base == u.base
  }

  /** Equality is reflexive, symmetric and transitive. */
  lemma EqualsIsEquivalence(t: Triangle, u: Triangle, v: Triangle)
    ensures Equals(t, t)
    ensures Equals(t, u) == Equals(u, t)
    ensures Equals(t, u) && Equals(u, v) ==> Equals(t, v)
  {
  }

  /** The setters can turn a valid triangle into an invalid one. */
  lemma SetterCanInvalidate()
    ensures IsValid(Triangle(5.0, 6.0))
    ensures SetBase(Triangle(5.0, 6.0), 20.0) == Ok(Triangle(5.0, 20.0))
    ensures !IsValid(Triangle(5.0, 20.0))
  {
  }

  /** The demonstration values: (5, 6) has perimeter 16, (3, 10) is no
      triangle, (5, 6) equals (5, 6) but not (5, 8), and setting -5 fails. */
  lemma Examples()
    ensures Perimeter(Triangle(5.0, 6.0)) == Ok(16.0)
    ensures Perimeter(Triangle(3.0, 10.0)) == Err(NoSuchTriangle)
    ensures SquaredHeight(Triangle(3.0, 10.0)) == Err(NoSuchTriangle)
    ensures Equals(Triangle(5.0, 6.0), Triangle(5.0, 6.0)) && !Equals(Triangle(5.0, 6.0), Triangle(5.0, 8.0))
    ensures SetLateralSide(Triangle(7.0, 8.0), -5.0) == Err(NonPositiveLateralSide)
  {
  }
}
