/**
 * The older cube class. Its covering, consensus, complementary-digit and
 * equality operations are the same code as the newer class and are the
 * members of module Cubes; this module adds intersection and expansion into
 * points, which only the older class has, and the printed form, which both
 * classes share.
 */
module LegacyCubes {
  import opened Common
  import opened Cubes

  // ------------------------------------------------------------ intersect

  /** `intersectComponents`: `None` stands for `undefined`. */
  function IntersectDigit(a: Digit, b: Cell): Option<Digit> {
    if (a == One && (b == Has(One) || b == Has(DC))) || (b == Has(One) && (a == One || a == DC)) then Some(One)
    else if (a == Zero && (b == Has(Zero) || b == Has(DC))) || (b == Has(Zero) && (a == Zero || a == DC)) then Some(Zero)
    else if a == DC && b == Has(DC) then Some(DC)
    else None
  }

  /** Position `k` makes the intersection undefined: it lies past the end of
      `b`, or holds 0 against 1. */
  predicate Clash(a: Cube, b: Cube, k: nat)
    requires k < |a|
  {
    k >= |b| || OppositeDigits(a[k], b[k])
  }

  /** The `map` over positions `i..` followed by `includes(undefined)`. */
  function IntersectFrom(a: Cube, b: Cube, i: nat): (r: Option<Cube>)
    requires i <= |a|
    decreases |a| - i
    ensures r.None? <==> exists k :: i <= k < |a| && Clash(a, b, k)
    ensures r.Some? ==> |r.value| == |a| - i
    ensures r.Some? ==> forall k :: i <= k < |a| ==> Some(r.value[k - i]) == IntersectDigit(a[k], CellAt(b, k))
  {
    if i == |a| then Some([])
    else
      assert IntersectDigit(a[i], CellAt(b, i)).None? <==> Clash(a, b, i);
      match (IntersectDigit(a[i], CellAt(b, i)), IntersectFrom(a, b, i + 1))
      case (Some(d), Some(rest)) => Some([d] + rest)
      case _ => None
  }

  /** `intersect`: undefined when some position holds 0 against 1 (or lies
      past the end of `b`); otherwise each position takes the defined digit,
      and two don't-cares stay don't-care. */
  function Intersect(a: Cube, b: Cube): (r: Option<Cube>)
    ensures r.None? <==> exists k :: 0 <= k < |a| && Clash(a, b, k)
    ensures r.Some? ==> |r.value| == |a| <= |b|
    ensures r.Some? ==> forall k :: 0 <= k < |a| ==>
      (a[k] == DC ==> r.value[k] == b[k]) &&
      (b[k] == DC ==> r.value[k] == a[k]) &&
      (a[k] == b[k] ==> r.value[k] == a[k])
  {
    var r := IntersectFrom(a, b, 0);
    assert |a| > |b| ==> Clash(a, b, |b|);
    assert r.Some? ==> forall k :: 0 <= k < |a| ==> Some(r.value[k]) == IntersectDigit(a[k], CellAt(b, k));
    r
  }

  lemma IntersectCommutative(a: Cube, b: Cube)
    requires |a| == |b|
    ensures Intersect(a, b) == Intersect(b, a)
  {
    var r, s := Intersect(a, b), Intersect(b, a);
    forall k | 0 <= k < |a| ensures Clash(a, b, k) == Clash(b, a, k) {
    }
    if r.Some? {
      forall k | 0 <= k < |a| ensures r.value[k] == s.value[k] {
        assert !Clash(a, b, k);
      }
      assert r.value == s.value;
    }
  }

  /** Both operands cover their intersection. */
  lemma IntersectCoveredByBoth(a: Cube, b: Cube)
    requires |a| == |b| && Intersect(a, b).Some?
    ensures Covers(a, Intersect(a, b).value) && Covers(b, Intersect(a, b).value)
  {
    var r := Intersect(a, b).value;
    forall k | 0 <= k < |a| ensures (a[k] == DC || a[k] == r[k]) && (b[k] == DC || b[k] == r[k]) {
      assert !OppositeDigits(a[k], b[k]);
    }
  }

  /** The intersection holds exactly the points both operands hold. */
  lemma IntersectPoints(a: Cube, b: Cube, m: Cube)
    requires |a| == |b| == |m| && IsPoint(m)
    ensures (Covers(a, m) && Covers(b, m)) <==> (Intersect(a, b).Some? && Covers(Intersect(a, b).value, m))
  {
    var r := Intersect(a, b);
    if Covers(a, m) && Covers(b, m) {
      forall k | 0 <= k < |a| ensures r.value[k] == DC || r.value[k] == m[k] {
        assert !OppositeDigits(a[k], b[k]);
      }
    }
    if r.Some? && Covers(r.value, m) {
      IntersectCoveredByBoth(a, b);
      CoversTransitive(a, r.value, m);
      CoversTransitive(b, r.value, m);
    }
  }

  /** Two cubes of one length without complementary digits have a
      consensus that is exactly their intersection. */
  lemma ConsensusIsIntersection(a: Cube, b: Cube)
    requires |a| == |b| && !HasComplementaryDigitWith(a, b)
    ensures Intersect(a, b) == Some(GetConsensusWith(a, b))
  {
    var c := GetConsensusWith(a, b);
    forall k | 0 <= k < |a| ensures !Clash(a, b, k) {
      assert !OppositeDigits(a[k], b[k]);
    }
    var r := Intersect(a, b).value;
    forall k | 0 <= k < |a| ensures r[k] == c[k] {
      assert !OppositeDigits(a[k], b[k]);
    }
    assert r == c;
  }

  // ------------------------------------------------------- getCoveredCubes

  function DCCountFrom(c: Cube, i: nat): nat
    requires i <= |c|
    decreases |c| - i
  {
    if i == |c| then 0 else (if c[i] == DC then 1 else 0) + DCCountFrom(c, i + 1)
  }

  predicate DistinctCubes(s: seq<Cube>) {
    forall i, j :: 0 <= i < j < |s| ==> s[i] != s[j]
  }

  /** `e` is a point that starts with `current` and agrees with `c` from
      `index` on. */
  predicate Expands(c: Cube, index: nat, current: Cube, e: Cube)
    requires index <= |c| && |current| == index
  {
    |e| == |c| &&
    (forall k :: 0 <= k < index ==> e[k] == current[k]) &&
    (forall k :: index <= k < |c| ==> e[k] != DC && (c[k] == DC || e[k] == c[k]))
  }

  lemma ExpandsStep(c: Cube, index: nat, current: Cube, d: Digit, e: Cube)
    requires index < |c| && |current| == index
    requires d != DC && (c[index] == DC || d == c[index])
    requires Expands(c, index + 1, current + [d], e)
    ensures Expands(c, index, current, e) && e[index] == d
  {
    assert (current + [d])[index] == d;
  }

  /** The recursive helper `generateCubes(index, currentCube)`: each
      don't-care from `index` on is expanded into 0 and then 1. */
  function Generate(c: Cube, index: nat, current: Cube): (r: seq<Cube>)
    requires index <= |c| && |current| == index
    decreases |c| - index
    ensures |r| == Pow2(DCCountFrom(c, index))
    ensures forall e :: e in r ==> Expands(c, index, current, e)
  {
    if index == |c| then [current]
    else if c[index] == DC then
      var zeros := Generate(c, index + 1, current + [Zero]);
      var ones := Generate(c, index + 1, current + [One]);
      assert forall e :: e in zeros ==> Expands(c, index, current, e) by {
        forall e | e in zeros ensures Expands(c, index, current, e) {
          ExpandsStep(c, index, current, Zero, e);
        }
      }
      assert forall e :: e in ones ==> Expands(c, index, current, e) by {
        forall e | e in ones ensures Expands(c, index, current, e) {
          ExpandsStep(c, index, current, One, e);
        }
      }
      zeros + ones
    else
      var rest := Generate(c, index + 1, current + [c[index]]);
      assert forall e :: e in rest ==> Expands(c, index, current, e) by {
        forall e | e in rest ensures Expands(c, index, current, e) {
          ExpandsStep(c, index, current, c[index], e);
        }
      }
      rest
  }

  /** No point is generated twice. */
  lemma {:induction false} GenerateDistinct(c: Cube, index: nat, current: Cube)
    requires index <= |c| && |current| == index
    decreases |c| - index
    ensures DistinctCubes(Generate(c, index, current))
  {
    if index < |c| {
      if c[index] == DC {
        var zeros := Generate(c, index + 1, current + [Zero]);
        var ones := Generate(c, index + 1, current + [One]);
        GenerateDistinct(c, index + 1, current + [Zero]);
        GenerateDistinct(c, index + 1, current + [One]);
        var r := zeros + ones;
        forall i, j | 0 <= i < j < |r| ensures r[i] != r[j] {
          if i < |zeros| <= j {
            assert r[i] in zeros && r[j] in ones;
            ExpandsStep(c, index, current, Zero, r[i]);
            ExpandsStep(c, index, current, One, r[j]);
          } else if j < |zeros| {
            assert r[i] == zeros[i] && r[j] == zeros[j];
          } else {
            assert r[i] == ones[i - |zeros|] && r[j] == ones[j - |zeros|];
          }
        }
      } else {
        GenerateDistinct(c, index + 1, current + [c[index]]);
      }
    }
  }

  /** Every point that extends `current` and agrees with `c` from `index` on
      is generated. */
  lemma {:induction false} GenerateComplete(c: Cube, index: nat, current: Cube, m: Cube)
    requires index <= |c| && |current| == index
    requires Expands(c, index, current, m)
    decreases |c| - index
    ensures m in Generate(c, index, current)
  {
    if index == |c| {
      assert m == current;
    } else {
      GenerateComplete(c, index + 1, current + [m[index]], m);
    }
  }

  /** `getCoveredCubes`: the 2^k points of a cube with k don't-cares, each
      covered by it, none repeated, and no covered point missing. */
  function GetCoveredCubes(c: Cube): (r: seq<Cube>)
    ensures |r| == Pow2(DCCountFrom(c, 0))
    ensures forall e :: e in r ==> |e| == |c| && IsPoint(e) && Covers(c, e)
    ensures DistinctCubes(r)
  {
    GenerateDistinct(c, 0, []);
    Generate(c, 0, [])
  }

  lemma GetCoveredCubesComplete(c: Cube, m: Cube)
    requires |m| == |c| && IsPoint(m) && Covers(c, m)
    ensures m in GetCoveredCubes(c)
  {
    GenerateComplete(c, 0, [], m);
  }

  function Flip(d: Digit): Digit {
    match d
    case Zero => One
    case One => Zero
    case DC => DC
  }

  /** Covering is containment of points: `a` covers `b` exactly when every
      point of `b` is a point of `a`. */
  lemma CoversIffPointsContained(a: Cube, b: Cube)
    requires |a| == |b|
    ensures Covers(a, b) <==> forall m :: m in GetCoveredCubes(b) ==> m in GetCoveredCubes(a)
  {
    if Covers(a, b) {
      forall m | m in GetCoveredCubes(b) ensures m in GetCoveredCubes(a) {
        CoversTransitive(a, b, m);
        GetCoveredCubesComplete(a, m);
      }
    } else {
      var k :| 0 <= k < |a| && a[k] != DC && a[k] != b[k];
      var m := seq(|b|, i requires 0 <= i < |b| =>
        if b[i] != DC then b[i] else if i == k then Flip(a[k]) else Zero);
      assert Covers(b, m);
      GetCoveredCubesComplete(b, m);
      assert m[k] != a[k];
      assert m !in GetCoveredCubes(a);
    }
  }

  // ------------------------------------------------------ toString, equals

  function DigitChar(d: Digit): char {
    match d
    case Zero => '0'
    case One => '1'
    case DC => '-'
  }

  /** `join(',')` of the digits, don't-care printed as `-`. */
  function JoinDigits(c: Cube): (s: string)
    ensures |s| == if c == [] then 0 else 2 * |c| - 1
    ensures forall i :: 0 <= i < |c| ==> s[2 * i] == DigitChar(c[i])
    ensures forall i :: 0 <= i < |c| - 1 ==> s[2 * i + 1] == ','
  {
    if |c| <= 1 then (if c == [] then "" else [DigitChar(c[0])])
    else
      var rest := JoinDigits(c[1..]);
      var s := [DigitChar(c[0]), ','] + rest;
      assert forall i :: 0 <= i < |c| - 1 ==> s[2 * i + 1] == ',' by {
        forall i | 1 <= i < |c| - 1 ensures s[2 * i + 1] == ',' {
          var j := i - 1;
          assert s[2 * i + 1] == rest[2 * j + 1];
        }
      }
      s
  }

  /** `toString`: `(d,d,...)`. */
  function ToString(c: Cube): (s: string)
    ensures |s| == if c == [] then 2 else 2 * |c| + 1
    ensures s[0] == '(' && s[|s| - 1] == ')'
    ensures forall i :: 0 <= i < |c| ==> s[2 * i + 1] == DigitChar(c[i])
    ensures forall i :: 0 <= i < |c| - 1 ==> s[2 * i + 2] == ','
  {
    "(" + JoinDigits(c) + ")"
  }

  /** The printed form identifies the cube. */
  lemma ToStringInjective(a: Cube, b: Cube)
    requires ToString(a) == ToString(b)
    ensures a == b
  {
    assert |a| == |b|;
    forall i | 0 <= i < |a| ensures a[i] == b[i] {
      assert DigitChar(a[i]) == ToString(a)[2 * i + 1] == DigitChar(b[i]);
    }
  }
}
