/**
 * Cube calculus: a cube is a fixed-length vector of ternary digits
 * (0, 1 or don't-care), one product term over an ordered list of variables.
 * Cubes are immutable values; every operation builds a new one.
 */
module Cubes {
  import opened Common

  datatype Digit = Zero | One | DC

  type Cube = seq<Digit>

  datatype ShapeError = ShapeMismatch

  /** What `otherCube.cube[i]` yields: a digit, or `undefined` past the end. */
  datatype Cell = Has(d: Digit) | Undef

  function CellAt(c: Cube, i: nat): Cell {
    if i < |c| then Has(c[i]) else Undef
  }

  /** The constructor's `switch`: strict 0 and 1 survive, anything else is null. */
  function Normalize(v: Value): Digit {
    if v == Num(0) then Zero else if v == Num(1) then One else DC
  }

  /** `new Cube(...args)`. */
  function Make(args: seq<Value>): (c: Cube)
    ensures |c| == |args|
    ensures forall i :: 0 <= i < |args| ==>
      (c[i] == Zero <==> args[i] == Num(0)) &&
      (c[i] == One <==> args[i] == Num(1)) &&
      (c[i] == DC <==> args[i] != Num(0) && args[i] != Num(1))
  {
    seq(|args|, i requires 0 <= i < |args| => Normalize(args[i]))
  }

  /** The JavaScript value a digit is stored as. */
  function DigitValue(d: Digit): Value {
    match d
    case Zero => Num(0)
    case One => Num(1)
    case DC => Null
  }

  /** Rebuilding a cube from its stored digits gives the same cube. */
  lemma MakeOfDigits(c: Cube)
    ensures Make(seq(|c|, i requires 0 <= i < |c| => DigitValue(c[i]))) == c
  {
  }

  /** `fromAssignment`: `true` becomes 1, `false` becomes 0, anything else
      don't-care; one digit per own property, in key order. */
  function FromAssignment(a: Assignment): (c: Cube)
    ensures |c| == |a|
    ensures forall i :: 0 <= i < |a| ==>
      (c[i] == One <==> a[i].1 == Bool(true)) &&
      (c[i] == Zero <==> a[i].1 == Bool(false)) &&
      (c[i] == DC <==> !a[i].1.Bool?)
  {
    Make(seq(|a|, i requires 0 <= i < |a| =>
      if a[i].1 == Bool(true) then Num(1) else if a[i].1 == Bool(false) then Num(0) else Null))
  }

  /** The reduce of `toAssignment` over the first `k` names. */
  function AssignDigits(names: seq<string>, c: Cube, k: nat): (a: Assignment)
    requires k <= |names| == |c|
    ensures forall p :: p in a ==> p.1 == Num(0) || p.1 == Num(1)
    ensures DistinctKeys(a)
  {
    if k == 0 then []
    else
      var acc := AssignDigits(names, c, k - 1);
      if c[k - 1] == DC then acc
      else
        PutShape(acc, names[k - 1], DigitValue(c[k - 1]));
        Put(acc, names[k - 1], DigitValue(c[k - 1]))
  }

  /** `toAssignment(variableNames)`: fails unless there is one name per digit;
      otherwise maps each name to the digit stored under it, skipping
      don't-care positions. */
  function ToAssignment(names: seq<string>, c: Cube): (r: Result<Assignment, ShapeError>)
    requires forall i :: 0 <= i < |names| ==> !AllDigits(names[i])
    ensures r.Ok? <==> |names| == |c|
    ensures r.Ok? ==> DistinctKeys(r.value)
  {
    if |names| != |c| then Err(ShapeMismatch) else Ok(AssignDigits(names, c, |c|))
  }

  predicate Distinct(names: seq<string>) {
    forall i, j :: 0 <= i < j < |names| ==> names[i] != names[j]
  }

  /** The names of the defined positions among the first `k`, in order. */
  function DefinedNames(names: seq<string>, c: Cube, k: nat): (r: seq<string>)
    requires k <= |names| == |c|
    ensures forall n :: n in r <==> exists p :: 0 <= p < k && c[p] != DC && names[p] == n
  {
    if k == 0 then []
    else DefinedNames(names, c, k - 1) + (if c[k - 1] == DC then [] else [names[k - 1]])
  }

  /** With distinct names, the assignment's keys are the defined positions'
      names, in order. */
  lemma {:induction false} AssignDigitsKeys(names: seq<string>, c: Cube, k: nat)
    requires k <= |names| == |c| && Distinct(names)
    ensures Keys(AssignDigits(names, c, k)) == DefinedNames(names, c, k)
  {
    if k > 0 {
      AssignDigitsKeys(names, c, k - 1);
      var acc := AssignDigits(names, c, k - 1);
      assert names[k - 1] !in Keys(acc);
      if c[k - 1] != DC {
        PutKeys(acc, names[k - 1], DigitValue(c[k - 1]));
      }
    }
  }

  /** With distinct names, each name maps to its own digit, and a don't-care
      position's name is absent. */
  lemma {:induction false} AssignDigitsLookup(names: seq<string>, c: Cube, k: nat)
    requires k <= |names| == |c| && Distinct(names)
    ensures forall i :: 0 <= i < k ==>
      Lookup(AssignDigits(names, c, k), names[i]) == if c[i] == DC then Undefined else DigitValue(c[i])
  {
    if k > 0 {
      AssignDigitsLookup(names, c, k - 1);
      AssignDigitsKeys(names, c, k - 1);
      var acc := AssignDigits(names, c, k - 1);
      assert names[k - 1] !in Keys(acc);
      if c[k - 1] != DC {
        var v := DigitValue(c[k - 1]);
        forall i | 0 <= i < k
          ensures Lookup(Put(acc, names[k - 1], v), names[i]) == if c[i] == DC then Undefined else DigitValue(c[i])
        {
          PutLookup(acc, names[k - 1], v, names[i]);
        }
      } else {
        LookupAbsent(acc, names[k - 1]);
      }
    }
  }

  /** With distinct names, the assignment holds exactly the defined positions,
      in name order, each under its own name with its own digit. */
  lemma AssignDigitsMeaning(names: seq<string>, c: Cube, k: nat)
    requires k <= |names| == |c| && Distinct(names)
    ensures Keys(AssignDigits(names, c, k)) == DefinedNames(names, c, k)
    ensures forall i :: 0 <= i < k ==>
      Lookup(AssignDigits(names, c, k), names[i]) == if c[i] == DC then Undefined else DigitValue(c[i])
  {
    AssignDigitsKeys(names, c, k);
    AssignDigitsLookup(names, c, k);
  }

  /** Converting a cube to an assignment and back is NOT a round trip: the
      assignment stores numbers, which `fromAssignment` maps to don't-care. */
  lemma ToAssignmentThenFromAssignment(names: seq<string>, c: Cube)
    requires forall i :: 0 <= i < |names| ==> !AllDigits(names[i])
    requires |names| == |c|
    ensures forall i :: 0 <= i < |FromAssignment(ToAssignment(names, c).value)| ==>
      FromAssignment(ToAssignment(names, c).value)[i] == DC
  {
  }

  // ---------------------------------------------------------------- digits

  /** Position `i` holds 1 against 0 or 0 against 1. */
  predicate Complementary(d: Digit, e: Cell) {
    (d == One && e == Has(Zero)) || (d == Zero && e == Has(One))
  }

  /** `digit !== other && digit !== null && other !== null`: a defined digit
      against a different non-null value (past the end, `undefined` counts). */
  predicate Conflict(d: Digit, e: Cell) {
    d != DC && e != Has(DC) && e != Has(d)
  }

  /** `some((digit, i) => ...)` from position `i` on. */
  function AnyComplementary(a: Cube, b: Cube, i: nat): (r: bool)
    decreases |a| - i
    ensures r <==> exists k :: i <= k < |a| && Complementary(a[k], CellAt(b, k))
  {
    if i >= |a| then false
    else Complementary(a[i], CellAt(b, i)) || AnyComplementary(a, b, i + 1)
  }

  predicate OppositeDigits(d: Digit, e: Digit) {
    (d == One && e == Zero) || (d == Zero && e == One)
  }

  /** `hasComplementaryDigitWith`. */
  function HasComplementaryDigitWith(a: Cube, b: Cube): (r: bool)
    ensures r <==> exists k :: 0 <= k < |a| && k < |b| && OppositeDigits(a[k], b[k])
  {
    AnyComplementary(a, b, 0)
  }

  /** The test does not depend on which cube asks. */
  lemma ComplementarySymmetric(a: Cube, b: Cube)
    requires |a| == |b|
    ensures HasComplementaryDigitWith(a, b) == HasComplementaryDigitWith(b, a)
  {
    if HasComplementaryDigitWith(a, b) {
      var k :| 0 <= k < |a| && k < |b| && OppositeDigits(a[k], b[k]);
      assert OppositeDigits(b[k], a[k]);
    }
  }

  /** The `reduce` that counts conflicting positions among the first `n`. */
  function ConflictCount(a: Cube, b: Cube, n: nat): (r: nat)
    requires n <= |a|
    ensures r == 0 <==> forall k :: 0 <= k < n ==> !Conflict(a[k], CellAt(b, k))
    ensures r <= 1 <==> forall k, l :: 0 <= k < l < n ==> !(Conflict(a[k], CellAt(b, k)) && Conflict(a[l], CellAt(b, l)))
  {
    if n == 0 then 0
    else ConflictCount(a, b, n - 1) + (if Conflict(a[n - 1], CellAt(b, n - 1)) then 1 else 0)
  }

  /** `hasConsensusWith`: at most one position where both digits are defined
      and differ. */
  function HasConsensusWith(a: Cube, b: Cube): (r: bool)
    ensures r <==> forall k, l :: 0 <= k < l < |a| ==>
      !(Conflict(a[k], CellAt(b, k)) && Conflict(a[l], CellAt(b, l)))
  {
    ConflictCount(a, b, |a|) <= 1
  }

  /** One position of `getConsensusWith`, normalised by the constructor. */
  function ConsensusDigit(d: Digit, e: Cell): Digit {
    if e == Has(d) then d
    else if Conflict(d, e) then DC
    else if d != DC then d
    else match e
      case Has(x) => x
      case Undef => DC
  }

  /** `getConsensusWith`: same length as `a`; equal digits are kept, two
      defined different digits become don't-care, otherwise the defined one
      is taken; positions past the end of `b` become don't-care. */
  function GetConsensusWith(a: Cube, b: Cube): (r: Cube)
    ensures |r| == |a|
    ensures forall i :: 0 <= i < |a| && i < |b| ==>
      (a[i] == b[i] ==> r[i] == a[i]) &&
      (a[i] != b[i] && a[i] != DC && b[i] != DC ==> r[i] == DC) &&
      (a[i] == DC ==> r[i] == b[i]) &&
      (b[i] == DC ==> r[i] == a[i])
    ensures forall i :: |b| <= i < |a| ==> r[i] == DC
  {
    seq(|a|, i requires 0 <= i < |a| => ConsensusDigit(a[i], CellAt(b, i)))
  }

  /** On cubes of equal length the consensus does not depend on the order. */
  lemma ConsensusCommutative(a: Cube, b: Cube)
    requires |a| == |b|
    ensures GetConsensusWith(a, b) == GetConsensusWith(b, a)
  {
  }

  /** Every cube of the list has the length of the first. */
  predicate SameLengths(cubes: seq<Cube>) {
    forall k :: 0 <= k < |cubes| ==> |cubes[k]| == |cubes[0]|
  }

  // --------------------------------------------------------------- covering

  /** `a` covers `b`: every defined digit of `a` is matched by `b`, over the
      shorter of the two lengths. */
  predicate Covers(a: Cube, b: Cube) {
    forall k :: 0 <= k < |a| && k < |b| ==> a[k] == DC || a[k] == b[k]
  }

  /** `covers(otherCube)`: the scan up to the shorter length that returns
      false at the first defined digit of `a` that `b` does not match. */
  method ScanCovers(a: Cube, b: Cube) returns (r: bool)
    ensures r <==> Covers(a, b)
  {
    var i := 0;
    while i < if |a| < |b| then |a| else |b|
      invariant 0 <= i <= |a| && i <= |b|
      invariant forall k :: 0 <= k < i ==> a[k] == DC || a[k] == b[k]
    {
      if a[i] != DC && a[i] != b[i] {
        return false;
      }
      i := i + 1;
    }
    return true;
  }

  lemma CoversReflexive(a: Cube)
    ensures Covers(a, a)
  {
  }

  lemma CoversTransitive(a: Cube, b: Cube, c: Cube)
    requires |a| == |b| == |c|
    requires Covers(a, b) && Covers(b, c)
    ensures Covers(a, c)
  {
  }

  /** `equals`: same length, same digits. */
  function Equals(a: Cube, b: Cube): (r: bool)
    ensures r <==> a == b
  {
    |a| == |b| && forall i :: 0 <= i < |a| ==> a[i] == b[i]
  }

  /** Covering is antisymmetric: on equal lengths, mutual covering is
      equality. */
  lemma EqualsIffMutualCovers(a: Cube, b: Cube)
    requires |a| == |b|
    ensures Equals(a, b) <==> Covers(a, b) && Covers(b, a)
  {
    if Covers(a, b) && Covers(b, a) {
      forall i | 0 <= i < |a| ensures a[i] == b[i] {
        assert a[i] == DC || a[i] == b[i];
        assert b[i] == DC || b[i] == a[i];
      }
    }
  }

  function GetLength(c: Cube): (n: nat)
    ensures n == |c|
  {
    |c|
  }

  // ---------------------------------------------------------------- points

  /** A fully defined cube: one point of Boolean space. */
  predicate IsPoint(m: Cube) {
    forall i :: 0 <= i < |m| ==> m[i] != DC
  }

  /** The consensus rule is sound: a point of the consensus of two cubes with
      at most one conflict lies in one of them. */
  lemma ConsensusSound(a: Cube, b: Cube, m: Cube)
    requires |a| == |b| == |m| && IsPoint(m)
    requires HasConsensusWith(a, b)
    requires Covers(GetConsensusWith(a, b), m)
    ensures Covers(a, m) || Covers(b, m)
  {
    var c := GetConsensusWith(a, b);
    if !Covers(a, m) {
      var k :| 0 <= k < |a| && a[k] != DC && a[k] != m[k];
      assert c[k] != a[k];
      assert Conflict(a[k], CellAt(b, k));
      forall i | 0 <= i < |b| ensures b[i] == DC || b[i] == m[i] {
        if i < k {
          assert !Conflict(a[i], CellAt(b, i));
        } else if k < i {
          assert !Conflict(a[i], CellAt(b, i));
        }
      }
    }
  }

  /** The consensus lies in the union of its two parents also when they do
      not conflict at all: then it is their common part. */
  lemma ConsensusCoveredByParentsWhenNoConflict(a: Cube, b: Cube)
    requires |a| == |b|
    requires !HasComplementaryDigitWith(a, b)
    ensures Covers(a, GetConsensusWith(a, b)) && Covers(b, GetConsensusWith(a, b))
  {
    var c := GetConsensusWith(a, b);
    forall i | 0 <= i < |a| ensures (a[i] == DC || a[i] == c[i]) && (b[i] == DC || b[i] == c[i]) {
      assert !OppositeDigits(a[i], b[i]);
    }
  }
}
