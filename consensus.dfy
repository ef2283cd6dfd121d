/**
 * The consensus table: rows hold a cube, the 1-based numbers of the two rows
 * it was formed from, and a cancellation mark. The table is extended in
 * place by pairing every active row with each active row before it.
 *
 * The pure part states one step of the algorithm (`Process`) on values and
 * proves what it keeps; the class `Consensus` runs the same steps in place.
 */
module ConsensusTable {
  import opened Common
  import opened Cubes

  const NOT_CANCELED: int := -1

  /** `{ formedBy, cube, cancelled }`. */
  datatype Row = Row(formedBy: seq<int>, cube: Cube, cancelled: int)

  /** The constructor's `throw` on cubes of different sizes. */
  datatype ConsensusError = SizeMismatch

  predicate Active(r: Row) {
    r.cancelled == NOT_CANCELED
  }

  // ------------------------------------------------------------ one step

  /** Row `j` is still active and covers `c`: the `findIndex` test. */
  predicate CoversAt(rows: seq<Row>, j: int, c: Cube)
    requires 0 <= j < |rows|
  {
    Active(rows[j]) && Covers(rows[j].cube, c)
  }

  function FindCoveringFrom(rows: seq<Row>, c: Cube, k: nat): (i: int)
    requires k <= |rows|
    ensures i == NOT_CANCELED <==> forall j :: k <= j < |rows| ==> !CoversAt(rows, j, c)
    ensures i != NOT_CANCELED ==>
      k <= i < |rows| && CoversAt(rows, i, c) && forall j :: k <= j < i ==> !CoversAt(rows, j, c)
    decreases |rows| - k
  {
    if k == |rows| then NOT_CANCELED
    else if CoversAt(rows, k, c) then k
    else FindCoveringFrom(rows, c, k + 1)
  }

  /** `findIndex`: the first active row covering `c`, or -1. */
  function FindCovering(rows: seq<Row>, c: Cube): (i: int)
    ensures i == NOT_CANCELED <==> forall j :: 0 <= j < |rows| ==> !CoversAt(rows, j, c)
    ensures i != NOT_CANCELED ==>
      0 <= i < |rows| && CoversAt(rows, i, c) && forall j :: 0 <= j < i ==> !CoversAt(rows, j, c)
  {
    FindCoveringFrom(rows, c, 0)
  }

  /** One row of the `forEach` sweep. */
  function CancelRow(r: Row, c: Cube, mark: int): Row {
    if Active(r) && Covers(c, r.cube) then r.(cancelled := mark) else r
  }

  function CancelCovered(rows: seq<Row>, c: Cube, mark: int): seq<Row> {
    seq(|rows|, k requires 0 <= k < |rows| => CancelRow(rows[k], c, mark))
  }

  /** The guard of `processConsensus`. */
  predicate Derivable(local: Cube, global: Cube) {
    HasComplementaryDigitWith(local, global) && HasConsensusWith(local, global)
  }

  /** `processConsensus(g, l)` on the table `rows` with counter `next`:
      the new table and the new counter. */
  function Process(rows: seq<Row>, g: nat, l: nat, next: int): (r: (seq<Row>, int))
    requires g < |rows| && l < |rows|
    ensures |rows| <= |r.0|
  {
    var local := rows[l].cube;
    var global := rows[g].cube;
    if !Derivable(local, global) then (rows, next)
    else
      var c := GetConsensusWith(local, global);
      var i := FindCovering(rows, c);
      if i == NOT_CANCELED then
        (CancelCovered(rows, c, next) + [Row([g + 1, l + 1], c, NOT_CANCELED)], next + 1)
      else
        (rows + [Row([g + 1, l + 1], c, i)], next)
  }

  /** The inner loop for row `g` from `localPointer == l - 1` down to 0:
      each row that is still active when its turn comes is paired with row
      `g`. */
  function PairDown(rows: seq<Row>, g: nat, l: nat, next: int): (seq<Row>, int)
    requires l <= g < |rows|
    decreases l
  {
    if l == 0 then (rows, next)
    else
      var step := if Active(rows[l - 1]) then Process(rows, g, l - 1, next) else (rows, next);
      PairDown(step.0, g, l - 1, step.1)
  }

  /** One turn of the inner loop, taken first. */
  lemma PairDownStep(rows: seq<Row>, g: nat, l: nat, next: int, rows': seq<Row>, next': int)
    requires l < g < |rows|
    requires (rows', next') == if Active(rows[l]) then Process(rows, g, l, next) else (rows, next)
    ensures PairDown(rows, g, l + 1, next) == PairDown(rows', g, l, next')
  {
  }

  /** Where the inner loop for row `g` stands once the rows from `l` to
      `g - 1` have had their turn, starting from table `t0` and counter
      `next`: the table has only grown, those rows are paired with `g`, and
      the turns still to come lead to the same end. */
  predicate InnerDone(t0: seq<Row>, b0: seq<bool>, g: nat, next: int, l: nat,
                      t: seq<Row>, b: seq<bool>, n: int)
  {
    l <= g < |t0| && Extends(t0, t) && GrowsFrom(t0, b0, t, b) && n >= next &&
    (forall i :: l <= i < g ==> PairDone(t, i, g)) &&
    PairDown(t, g, l, n) == PairDown(t0, g, g, next)
  }

  /** Which rows were active when they were appended: the seeds and the
      non-redundant consensus rows. */
  function BornAfter(rows: seq<Row>, born: seq<bool>, rows': seq<Row>): seq<bool>
    requires |rows| <= |rows'|
  {
    if |rows'| == |rows| then born else born + [Active(rows'[|rows|])]
  }

  // ------------------------------------------------------------ invariants

  predicate Uniform(rows: seq<Row>, w: nat) {
    forall i :: 0 <= i < |rows| ==> |rows[i].cube| == w
  }

  /** The first rows are the given cubes, formed by nothing. */
  predicate SeedRows(rows: seq<Row>, seeds: seq<Cube>) {
    |seeds| <= |rows| &&
    forall i :: 0 <= i < |seeds| ==> rows[i].cube == seeds[i] && rows[i].formedBy == []
  }

  /** Row `i` names two earlier rows (1-based, global first) whose consensus
      it is. */
  predicate DerivedAt(rows: seq<Row>, i: int)
    requires 0 <= i < |rows|
  {
    var f := rows[i].formedBy;
    |f| == 2 && 1 <= f[1] < f[0] <= i &&
    Derivable(rows[f[1] - 1].cube, rows[f[0] - 1].cube) &&
    rows[i].cube == GetConsensusWith(rows[f[1] - 1].cube, rows[f[0] - 1].cube)
  }

  predicate Derived(rows: seq<Row>, seeds: seq<Cube>) {
    forall i :: |seeds| <= i < |rows| ==> DerivedAt(rows, i)
  }

  predicate CoveredInTable(rows: seq<Row>, c: Cube) {
    exists j :: 0 <= j < |rows| && CoversAt(rows, j, c)
  }

  predicate RowCovered(rows: seq<Row>, i: int)
    requires 0 <= i < |rows|
  {
    CoveredInTable(rows, rows[i].cube)
  }

  /** Nothing is lost by cancelling: every row is covered by an active one. */
  predicate AllCovered(rows: seq<Row>) {
    forall i :: 0 <= i < |rows| ==> RowCovered(rows, i)
  }

  /** An active consensus row is covered by no other active row. */
  predicate Irredundant(rows: seq<Row>, seeds: seq<Cube>) {
    forall i, j :: 0 <= i < |rows| && |seeds| <= j < |rows| && i != j && Active(rows[j]) ==>
      !CoversAt(rows, i, rows[j].cube)
  }

  /** What the `cancelled` field means. A row appended as redundant holds the
      0-based index of an earlier row covering it; any other row holds -1 or
      a counter value, and counter values start above the seeds. */
  predicate Labels(rows: seq<Row>, seeds: seq<Cube>, born: seq<bool>) {
    |born| == |rows| &&
    (forall i :: 0 <= i < |seeds| && i < |rows| ==> born[i]) &&
    forall i :: 0 <= i < |rows| ==> LabelAt(rows, seeds, born, i)
  }

  predicate LabelAt(rows: seq<Row>, seeds: seq<Cube>, born: seq<bool>, i: int)
    requires 0 <= i < |rows| == |born|
  {
    if born[i] then Active(rows[i]) || rows[i].cancelled > |seeds|
    else 0 <= rows[i].cancelled < i && Covers(rows[rows[i].cancelled].cube, rows[i].cube)
  }

  predicate Inv(rows: seq<Row>, seeds: seq<Cube>, w: nat, born: seq<bool>) {
    Uniform(rows, w) && SeedRows(rows, seeds) && Derived(rows, seeds) &&
    AllCovered(rows) && Irredundant(rows, seeds) && Labels(rows, seeds, born)
  }

  /** Rows are only appended; an existing row keeps its cube and parents and
      can only go from active to cancelled. */
  predicate Extends(rows: seq<Row>, rows': seq<Row>) {
    |rows| <= |rows'| &&
    forall i :: 0 <= i < |rows| ==>
      rows'[i].cube == rows[i].cube && rows'[i].formedBy == rows[i].formedBy &&
      (rows'[i].cancelled == rows[i].cancelled || Active(rows[i]))
  }

  function CubesIn(rows: seq<Row>): set<Cube> {
    set i | 0 <= i < |rows| :: rows[i].cube
  }

  /** The set of cubes only grows, and while it stays the same no row is
      appended as active. */
  predicate GrowsFrom(rows: seq<Row>, born: seq<bool>, rows': seq<Row>, born': seq<bool>) {
    |born| <= |born'| &&
    (forall k :: 0 <= k < |born| ==> born'[k] == born[k]) &&
    CubesIn(rows) <= CubesIn(rows') &&
    (CubesIn(rows') == CubesIn(rows) ==> forall k :: |born| <= k < |born'| ==> !born'[k])
  }

  // ----------------------------------------------------- step preserves

  lemma CancelCoveredShape(rows: seq<Row>, c: Cube, mark: int)
    requires mark != NOT_CANCELED
    ensures |CancelCovered(rows, c, mark)| == |rows|
    ensures forall k :: 0 <= k < |rows| ==>
      var r := CancelCovered(rows, c, mark)[k];
      r.cube == rows[k].cube && r.formedBy == rows[k].formedBy &&
      (Active(r) <==> Active(rows[k]) && !Covers(c, rows[k].cube)) &&
      (r.cancelled == rows[k].cancelled || (Active(rows[k]) && r.cancelled == mark))
  {
  }

  /** A consensus row that no active row covers: the rows it covers are
      cancelled with `mark`, then it is pushed active. */
  predicate FreshStep(rows: seq<Row>, nr: Row, mark: int, rows': seq<Row>) {
    Active(nr) && mark != NOT_CANCELED &&
    (forall j :: 0 <= j < |rows| ==> !CoversAt(rows, j, nr.cube)) &&
    rows' == CancelCovered(rows, nr.cube, mark) + [nr]
  }

  /** A consensus row covered by the active row its mark names: pushed as is. */
  predicate RedundantStep(rows: seq<Row>, nr: Row, rows': seq<Row>) {
    0 <= nr.cancelled < |rows| && CoversAt(rows, nr.cancelled, nr.cube) &&
    rows' == rows + [nr]
  }

  lemma FreshStepShape(rows: seq<Row>, nr: Row, mark: int, rows': seq<Row>)
    requires FreshStep(rows, nr, mark, rows')
    ensures |rows'| == |rows| + 1 && rows'[|rows|] == nr && Extends(rows, rows')
    ensures forall k :: 0 <= k < |rows| ==>
      (Active(rows'[k]) <==> Active(rows[k]) && !Covers(nr.cube, rows[k].cube)) &&
      (rows'[k].cancelled == rows[k].cancelled || (Active(rows[k]) && rows'[k].cancelled == mark))
  {
    CancelCoveredShape(rows, nr.cube, mark);
  }

  lemma FreshStepUniform(rows: seq<Row>, w: nat, nr: Row, mark: int, rows': seq<Row>)
    requires FreshStep(rows, nr, mark, rows') && Uniform(rows, w) && |nr.cube| == w
    ensures Uniform(rows', w)
  {
    FreshStepShape(rows, nr, mark, rows');
  }

  lemma RedundantStepShape(rows: seq<Row>, w: nat, nr: Row, rows': seq<Row>)
    requires RedundantStep(rows, nr, rows') && Uniform(rows, w) && |nr.cube| == w
    ensures |rows'| == |rows| + 1 && rows'[|rows|] == nr && Extends(rows, rows') && Uniform(rows', w)
  {
  }

  /** Cancelling never loses a cube: every row stays covered by an active one. */
  lemma FreshStepCovered(rows: seq<Row>, w: nat, nr: Row, mark: int, rows': seq<Row>)
    requires FreshStep(rows, nr, mark, rows') && Uniform(rows, w) && |nr.cube| == w
    requires AllCovered(rows)
    ensures AllCovered(rows')
  {
    FreshStepShape(rows, nr, mark, rows');
    var n := |rows|;
    var c := nr.cube;
    CoversReflexive(c);
    assert CoversAt(rows', n, c);
    forall k | 0 <= k < |rows'| ensures RowCovered(rows', k) {
      if k < n {
        assert RowCovered(rows, k);
        var j :| 0 <= j < n && CoversAt(rows, j, rows[k].cube);
        if Active(rows'[j]) {
          assert CoversAt(rows', j, rows'[k].cube);
        } else {
          CoversTransitive(c, rows[j].cube, rows[k].cube);
          assert CoversAt(rows', n, rows'[k].cube);
        }
      }
    }
  }

  lemma RedundantStepCovered(rows: seq<Row>, nr: Row, rows': seq<Row>)
    requires RedundantStep(rows, nr, rows') && AllCovered(rows)
    ensures AllCovered(rows')
  {
    var n := |rows|;
    forall k | 0 <= k < |rows'| ensures RowCovered(rows', k) {
      if k < n {
        assert RowCovered(rows, k);
        var j :| 0 <= j < n && CoversAt(rows, j, rows[k].cube);
        assert CoversAt(rows', j, rows'[k].cube);
      } else {
        assert CoversAt(rows', nr.cancelled, rows'[k].cube);
      }
    }
  }

  /** The pushed row is covered by no earlier active row, and every active
      row it covers is cancelled. */
  lemma FreshStepIrredundant(rows: seq<Row>, seeds: seq<Cube>, nr: Row, mark: int, rows': seq<Row>)
    requires FreshStep(rows, nr, mark, rows') && Irredundant(rows, seeds)
    ensures Irredundant(rows', seeds)
  {
    FreshStepShape(rows, nr, mark, rows');
    var n := |rows|;
    forall a, b | 0 <= a < |rows'| && |seeds| <= b < |rows'| && a != b && Active(rows'[b])
      ensures !CoversAt(rows', a, rows'[b].cube)
    {
      if b == n {
        if a < n {
          assert !CoversAt(rows, a, nr.cube);
        }
      } else if a < n {
        assert !CoversAt(rows, a, rows[b].cube);
      }
    }
  }

  lemma RedundantStepIrredundant(rows: seq<Row>, seeds: seq<Cube>, nr: Row, rows': seq<Row>)
    requires RedundantStep(rows, nr, rows') && Irredundant(rows, seeds)
    ensures Irredundant(rows', seeds)
  {
    var n := |rows|;
    forall a, b | 0 <= a < |rows'| && |seeds| <= b < |rows'| && a != b && Active(rows'[b])
      ensures !CoversAt(rows', a, rows'[b].cube)
    {
      if a < n {
        assert !CoversAt(rows, a, rows[b].cube);
      }
    }
  }

  lemma FreshStepLabels(rows: seq<Row>, seeds: seq<Cube>, born: seq<bool>, nr: Row, mark: int, rows': seq<Row>)
    requires FreshStep(rows, nr, mark, rows') && mark > |seeds|
    requires Labels(rows, seeds, born)
    ensures Labels(rows', seeds, born + [true])
  {
    FreshStepShape(rows, nr, mark, rows');
    var b := born + [true];
    forall k | 0 <= k < |rows'|
      ensures LabelAt(rows', seeds, b, k)
    {
      if k < |rows| {
        assert LabelAt(rows, seeds, born, k);
      }
      if k < |rows| && !b[k] {
        assert rows'[k].cancelled == rows[k].cancelled;
        assert rows'[rows[k].cancelled].cube == rows[rows[k].cancelled].cube;
      }
    }
  }

  lemma RedundantStepLabels(rows: seq<Row>, seeds: seq<Cube>, born: seq<bool>, nr: Row, rows': seq<Row>)
    requires RedundantStep(rows, nr, rows') && Labels(rows, seeds, born) && |seeds| <= |rows|
    ensures Labels(rows', seeds, born + [false])
  {
    var b := born + [false];
    forall k | 0 <= k < |rows'|
      ensures LabelAt(rows', seeds, b, k)
    {
      if k < |rows| {
        assert LabelAt(rows, seeds, born, k);
      }
      if k < |rows| && !b[k] {
        assert rows'[rows[k].cancelled].cube == rows[rows[k].cancelled].cube;
      } else if k == |rows| {
        assert rows'[nr.cancelled] == rows[nr.cancelled];
      }
    }
  }

  /** The pushed active row holds a cube the table did not have. */
  lemma FreshStepGrows(rows: seq<Row>, born: seq<bool>, nr: Row, mark: int, rows': seq<Row>)
    requires FreshStep(rows, nr, mark, rows') && AllCovered(rows) && |born| == |rows|
    ensures GrowsFrom(rows, born, rows', born + [true])
  {
    FreshStepShape(rows, nr, mark, rows');
    var c := nr.cube;
    CubesAppended(rows, rows');
    forall k | 0 <= k < |rows| ensures rows[k].cube != c {
      assert RowCovered(rows, k);
    }
  }

  lemma RedundantStepGrows(rows: seq<Row>, born: seq<bool>, nr: Row, rows': seq<Row>)
    requires RedundantStep(rows, nr, rows') && |born| == |rows|
    ensures GrowsFrom(rows, born, rows', born + [false])
  {
    CubesAppended(rows, rows');
  }

  lemma CubesAppended(rows: seq<Row>, rows': seq<Row>)
    requires Extends(rows, rows') && |rows'| == |rows| + 1
    ensures CubesIn(rows') == CubesIn(rows) + {rows'[|rows|].cube}
  {
    forall x | x in CubesIn(rows') ensures x in CubesIn(rows) + {rows'[|rows|].cube} {
      var k :| 0 <= k < |rows'| && rows'[k].cube == x;
      if k < |rows| {
        assert rows[k].cube == x;
      }
    }
    forall x | x in CubesIn(rows) ensures x in CubesIn(rows') {
      var k :| 0 <= k < |rows| && rows[k].cube == x;
      assert rows'[k].cube == x;
    }
  }

  /** Rows formed earlier keep their parents when a row is appended. */
  lemma DerivedAppended(rows: seq<Row>, seeds: seq<Cube>, rows': seq<Row>)
    requires Extends(rows, rows') && |rows'| == |rows| + 1
    requires SeedRows(rows, seeds) && Derived(rows, seeds) && DerivedAt(rows', |rows|)
    ensures SeedRows(rows', seeds) && Derived(rows', seeds)
  {
    forall i | |seeds| <= i < |rows| ensures DerivedAt(rows', i) {
      assert DerivedAt(rows, i);
      var f := rows[i].formedBy;
      assert rows'[f[1] - 1].cube == rows[f[1] - 1].cube;
      assert rows'[f[0] - 1].cube == rows[f[0] - 1].cube;
    }
  }

  lemma FreshStepKeepsInv(rows: seq<Row>, seeds: seq<Cube>, w: nat, born: seq<bool>, nr: Row, mark: int, rows': seq<Row>)
    requires FreshStep(rows, nr, mark, rows') && mark > |seeds| && |nr.cube| == w
    requires Inv(rows, seeds, w, born) && DerivedAt(rows', |rows|)
    ensures Inv(rows', seeds, w, born + [true]) && Extends(rows, rows')
    ensures GrowsFrom(rows, born, rows', born + [true])
  {
    FreshStepShape(rows, nr, mark, rows');
    FreshStepUniform(rows, w, nr, mark, rows');
    FreshStepCovered(rows, w, nr, mark, rows');
    FreshStepIrredundant(rows, seeds, nr, mark, rows');
    FreshStepLabels(rows, seeds, born, nr, mark, rows');
    FreshStepGrows(rows, born, nr, mark, rows');
    DerivedAppended(rows, seeds, rows');
  }

  lemma RedundantStepKeepsInv(rows: seq<Row>, seeds: seq<Cube>, w: nat, born: seq<bool>, nr: Row, rows': seq<Row>)
    requires RedundantStep(rows, nr, rows') && |nr.cube| == w
    requires Inv(rows, seeds, w, born) && DerivedAt(rows', |rows|)
    ensures Inv(rows', seeds, w, born + [false]) && Extends(rows, rows')
    ensures GrowsFrom(rows, born, rows', born + [false])
  {
    RedundantStepShape(rows, w, nr, rows');
    RedundantStepCovered(rows, nr, rows');
    RedundantStepIrredundant(rows, seeds, nr, rows');
    RedundantStepLabels(rows, seeds, born, nr, rows');
    RedundantStepGrows(rows, born, nr, rows');
    DerivedAppended(rows, seeds, rows');
  }

  lemma DerivedAtIntro(rows: seq<Row>, n: nat, g: nat, l: nat)
    requires l < g < n < |rows| && rows[n].formedBy == [g + 1, l + 1]
    requires Derivable(rows[l].cube, rows[g].cube)
    requires rows[n].cube == GetConsensusWith(rows[l].cube, rows[g].cube)
    ensures DerivedAt(rows, n)
  {
  }

  /** One call of `processConsensus` keeps every invariant of the table. */
  lemma ProcessKeepsInv(rows: seq<Row>, seeds: seq<Cube>, w: nat, born: seq<bool>, g: nat, l: nat, next: int,
                        rows': seq<Row>, next': int)
    requires l < g < |rows| && next > |seeds|
    requires Inv(rows, seeds, w, born) && (rows', next') == Process(rows, g, l, next)
    ensures |rows| <= |rows'| && next' >= next
    ensures Inv(rows', seeds, w, BornAfter(rows, born, rows'))
    ensures Extends(rows, rows') && GrowsFrom(rows, born, rows', BornAfter(rows, born, rows'))
  {
    var local := rows[l].cube;
    var global := rows[g].cube;
    if !Derivable(local, global) {
      return;
    }
    var c := GetConsensusWith(local, global);
    var i := FindCovering(rows, c);
    var nr := Row([g + 1, l + 1], c, i);
    assert |c| == w;
    if i == NOT_CANCELED {
      assert rows' == CancelCovered(rows, c, next) + [nr];
      FreshStepShape(rows, nr, next, rows');
      DerivedAtIntro(rows', |rows|, g, l);
      FreshStepKeepsInv(rows, seeds, w, born, nr, next, rows');
      assert BornAfter(rows, born, rows') == born + [true];
    } else {
      assert rows' == rows + [nr];
      DerivedAtIntro(rows', |rows|, g, l);
      RedundantStepKeepsInv(rows, seeds, w, born, nr, rows');
      assert BornAfter(rows, born, rows') == born + [false];
    }
  }

  // ------------------------------------------------------------ meaning

  predicate CoveredBySeeds(seeds: seq<Cube>, m: Cube) {
    exists s :: 0 <= s < |seeds| && Covers(seeds[s], m)
  }

  lemma ParentCovers(c: Cube, a: Cube, b: Cube, m: Cube)
    requires |a| == |b| == |m| && IsPoint(m) && Derivable(a, b)
    requires c == GetConsensusWith(a, b) && Covers(c, m)
    ensures Covers(a, m) || Covers(b, m)
  {
    ConsensusSound(a, b, m);
  }

  /** Soundness of the table: a point in any row's cube, cancelled or not,
      is in one of the seeds. */
  lemma {:induction false} CoveredBySeed(rows: seq<Row>, seeds: seq<Cube>, w: nat, i: nat, m: Cube)
    requires Uniform(rows, w) && SeedRows(rows, seeds) && Derived(rows, seeds)
    requires i < |rows| && |m| == w && IsPoint(m) && Covers(rows[i].cube, m)
    ensures CoveredBySeeds(seeds, m)
    decreases i
  {
    if i < |seeds| {
      assert Covers(seeds[i], m);
    } else {
      assert DerivedAt(rows, i);
      var g := rows[i].formedBy[0] - 1;
      var l := rows[i].formedBy[1] - 1;
      ParentCovers(rows[i].cube, rows[l].cube, rows[g].cube, m);
      if Covers(rows[l].cube, m) {
        CoveredBySeed(rows, seeds, w, l, m);
      } else {
        CoveredBySeed(rows, seeds, w, g, m);
      }
    }
  }

  /** The active rows describe the same Boolean function as the seeds. */
  lemma SameFunction(rows: seq<Row>, seeds: seq<Cube>, w: nat, born: seq<bool>, m: Cube)
    requires Inv(rows, seeds, w, born) && |m| == w && IsPoint(m)
    ensures CoveredBySeeds(seeds, m) <==> CoveredInTable(rows, m)
  {
    if CoveredBySeeds(seeds, m) {
      var s :| 0 <= s < |seeds| && Covers(seeds[s], m);
      assert RowCovered(rows, s);
      var j :| 0 <= j < |rows| && CoversAt(rows, j, rows[s].cube);
      CoversTransitive(rows[j].cube, rows[s].cube, m);
      assert CoversAt(rows, j, m);
    }
    if CoveredInTable(rows, m) {
      var j :| 0 <= j < |rows| && CoversAt(rows, j, m);
      CoveredBySeed(rows, seeds, w, j, m);
    }
  }

  // ----------------------------------------------------------- closure

  /** Rows `i < j` have been paired: if both are active and have a
      consensus, that consensus is a cube of the table. */
  predicate PairDone(rows: seq<Row>, i: int, j: int)
    requires 0 <= i < j < |rows|
  {
    Active(rows[i]) && Active(rows[j]) && Derivable(rows[i].cube, rows[j].cube) ==>
      GetConsensusWith(rows[i].cube, rows[j].cube) in CubesIn(rows)
  }

  /** Every pair of rows below `n` has been paired. */
  predicate PairsDoneBelow(rows: seq<Row>, n: int) {
    forall i, j :: 0 <= i < j < n && j < |rows| ==> PairDone(rows, i, j)
  }

  /** Rows `i < j`, when active with a consensus, have it covered by an active
      row. */
  predicate PairCovered(rows: seq<Row>, i: int, j: int)
    requires 0 <= i < j < |rows|
  {
    Active(rows[i]) && Active(rows[j]) && Derivable(rows[i].cube, rows[j].cube) ==>
      CoveredInTable(rows, GetConsensusWith(rows[i].cube, rows[j].cube))
  }

  /** The table is closed under consensus: no two active rows have a
      consensus that the active rows miss. */
  predicate Closed(rows: seq<Row>) {
    forall i, j :: 0 <= i < j < |rows| ==> PairCovered(rows, i, j)
  }

  /** A paired pair stays paired as the table grows: cubes stay, and a row
      active later was active before. */
  lemma PairDoneGrows(rows: seq<Row>, rows': seq<Row>, i: int, j: int)
    requires Extends(rows, rows') && 0 <= i < j < |rows| && PairDone(rows, i, j)
    ensures PairDone(rows', i, j)
  {
    if Active(rows'[i]) && Active(rows'[j]) && Derivable(rows'[i].cube, rows'[j].cube) {
      assert Active(rows[i]) && Active(rows[j]);
      var k :| 0 <= k < |rows| && rows[k].cube == GetConsensusWith(rows[i].cube, rows[j].cube);
      assert rows'[k].cube == rows[k].cube;
    }
  }

  lemma PairsDoneGrow(rows: seq<Row>, rows': seq<Row>, n: int)
    requires Extends(rows, rows') && n <= |rows| && PairsDoneBelow(rows, n)
    ensures PairsDoneBelow(rows', n)
  {
    forall i, j | 0 <= i < j < n && j < |rows'| ensures PairDone(rows', i, j) {
      assert PairDone(rows, i, j);
      PairDoneGrows(rows, rows', i, j);
    }
  }

  /** `processConsensus(g, l)` pairs rows `l` and `g`: it pushes their
      consensus, redundant or not, whenever they have one. */
  lemma ProcessPairs(rows: seq<Row>, g: nat, l: nat, next: int, rows': seq<Row>, next': int)
    requires l < g < |rows| && (rows', next') == Process(rows, g, l, next) && Extends(rows, rows')
    ensures PairDone(rows', l, g)
  {
    var local, global := rows[l].cube, rows[g].cube;
    assert rows'[l].cube == local && rows'[g].cube == global;
    if Derivable(local, global) {
      var c := GetConsensusWith(local, global);
      assert rows'[|rows|].cube == c;
    }
  }

  /** After pairing `l` with `g`, every row from `l` to `g - 1` is paired
      with `g`. */
  lemma PairedDownTo(rows: seq<Row>, g: nat, l: nat, next: int, rows': seq<Row>, next': int)
    requires l < g < |rows| && (rows', next') == Process(rows, g, l, next) && Extends(rows, rows')
    requires forall i :: l < i < g ==> PairDone(rows, i, g)
    ensures forall i :: l <= i < g ==> PairDone(rows', i, g)
  {
    ProcessPairs(rows, g, l, next, rows', next');
    forall i | l < i < g ensures PairDone(rows', i, g) {
      PairDoneGrows(rows, rows', i, g);
    }
  }

  lemma DoneBelowNext(rows: seq<Row>, g: nat)
    requires g < |rows| && PairsDoneBelow(rows, g)
    requires forall i :: 0 <= i < g ==> PairDone(rows, i, g)
    ensures PairsDoneBelow(rows, g + 1)
  {
    forall i, j | 0 <= i < j < g + 1 && j < |rows| ensures PairDone(rows, i, j) {
      if j < g {
        assert PairDone(rows, i, j);
      }
    }
  }

  /** With every row covered by an active one, a table whose pairs have all
      been paired is closed under consensus. */
  lemma DoneIsClosed(rows: seq<Row>)
    requires AllCovered(rows) && PairsDoneBelow(rows, |rows|)
    ensures Closed(rows)
  {
    forall i, j | 0 <= i < j < |rows| ensures PairCovered(rows, i, j) {
      assert PairDone(rows, i, j);
      if Active(rows[i]) && Active(rows[j]) && Derivable(rows[i].cube, rows[j].cube) {
        var k :| 0 <= k < |rows| && rows[k].cube == GetConsensusWith(rows[i].cube, rows[j].cube);
        assert RowCovered(rows, k);
      }
    }
  }

  /** Two seeds with opposite digits have the consensus `(-)`, which neither
      covers: the seed table alone is not closed. */
  lemma OppositeSeedsNotClosed()
    ensures !Closed(SeedTable([[One], [Zero]]))
  {
    var t := SeedTable([[One], [Zero]]);
    var c := GetConsensusWith(t[0].cube, t[1].cube);
    assert c == [DC];
    assert HasComplementaryDigitWith(t[0].cube, t[1].cube);
    assert !CoversAt(t, 0, c) && !CoversAt(t, 1, c);
    assert !PairCovered(t, 0, 1);
  }

  // ----------------------------------------------------------- termination

  /** Every cube of length `n`. */
  ghost function AllCubes(n: nat): set<Cube> {
    if n == 0 then {[]}
    else
      var shorter := AllCubes(n - 1);
      (set c | c in shorter :: [Zero] + c) + (set c | c in shorter :: [One] + c) +
      (set c | c in shorter :: [DC] + c)
  }

  lemma {:induction false} InAllCubes(c: Cube)
    ensures c in AllCubes(|c|)
  {
    if c != [] {
      var shorter := AllCubes(|c| - 1);
      InAllCubes(c[1..]);
      assert c == [c[0]] + c[1..];
      match c[0]
      case Zero => assert c in (set x | x in shorter :: [Zero] + x);
      case One => assert c in (set x | x in shorter :: [One] + x);
      case DC => assert c in (set x | x in shorter :: [DC] + x);
    }
  }

  lemma CubesInAllCubes(rows: seq<Row>, w: nat)
    requires Uniform(rows, w)
    ensures CubesIn(rows) <= AllCubes(w)
  {
    forall x | x in CubesIn(rows) ensures x in AllCubes(w) {
      InAllCubes(x);
    }
  }

  function CountBorn(b: seq<bool>): nat {
    if b == [] then 0 else (if b[0] then 1 else 0) + CountBorn(b[1..])
  }

  lemma {:induction false} CountBornUnborn(b: seq<bool>, e: seq<bool>)
    requires forall k :: 0 <= k < |e| ==> !e[k]
    ensures CountBorn(b + e) == CountBorn(b)
    decreases |b| + |e|
  {
    if b == [] {
      assert b + e == e;
      if e != [] {
        CountBornUnborn([], e[1..]);
        assert [] + e[1..] == e[1..];
      }
    } else {
      assert (b + e)[1..] == b[1..] + e;
      CountBornUnborn(b[1..], e);
    }
  }

  ghost function BornAhead(born: seq<bool>, g: nat): nat {
    if g <= |born| then CountBorn(born[g..]) else 0
  }

  /** The table the constructor builds: one active row per cube. */
  function SeedTable(cubes: seq<Cube>): seq<Row> {
    seq(|cubes|, i requires 0 <= i < |cubes| => Row([], cubes[i], NOT_CANCELED))
  }

  lemma SeedTableInv(cubes: seq<Cube>, w: nat)
    requires forall i :: 0 <= i < |cubes| ==> |cubes[i]| == w
    ensures Inv(SeedTable(cubes), cubes, w, seq(|cubes|, i => true))
  {
    var rows := SeedTable(cubes);
    forall i | 0 <= i < |rows| ensures RowCovered(rows, i) {
      CoversReflexive(rows[i].cube);
      assert CoversAt(rows, i, rows[i].cube);
    }
  }

  /** The turn of row `l` in the inner loop for row `g`. */
  lemma InnerTurn(t0: seq<Row>, b0: seq<bool>, g: nat, next: int, l: nat,
                  t1: seq<Row>, b1: seq<bool>, n1: int, t2: seq<Row>, b2: seq<bool>, n2: int)
    requires l < g && InnerDone(t0, b0, g, next, l + 1, t1, b1, n1)
    requires (t2, n2) == if Active(t1[l]) then Process(t1, g, l, n1) else (t1, n1)
    requires Active(t1[l]) ==> Extends(t1, t2) && GrowsFrom(t1, b1, t2, b2) && n2 >= n1
    requires !Active(t1[l]) ==> b2 == b1
    ensures InnerDone(t0, b0, g, next, l, t2, b2, n2)
  {
    if Active(t1[l]) {
      ExtendsTransitive(t0, t1, t2);
      GrowsTransitive(t0, b0, t1, b1, t2, b2);
      PairedDownTo(t1, g, l, n1, t2, n2);
    } else {
      assert PairDone(t1, l, g);
    }
    PairDownStep(t1, g, l, n1, t2, n2);
  }

  lemma ExtendsTransitive(a: seq<Row>, b: seq<Row>, c: seq<Row>)
    requires Extends(a, b) && Extends(b, c)
    ensures Extends(a, c)
  {
  }

  lemma GrowsTransitive(a: seq<Row>, ba: seq<bool>, b: seq<Row>, bb: seq<bool>, c: seq<Row>, bc: seq<bool>)
    requires GrowsFrom(a, ba, b, bb) && GrowsFrom(b, bb, c, bc)
    ensures GrowsFrom(a, ba, c, bc)
  {
    if CubesIn(c) == CubesIn(a) {
      assert CubesIn(b) == CubesIn(a);
    }
  }

  lemma ActiveIsBorn(rows: seq<Row>, seeds: seq<Cube>, born: seq<bool>, i: nat)
    requires Labels(rows, seeds, born) && i < |rows| && Active(rows[i])
    ensures born[i]
  {
    assert LabelAt(rows, seeds, born, i);
  }

  ghost function Unseen(rows: seq<Row>, w: nat): set<Cube> {
    AllCubes(w) - CubesIn(rows)
  }

  lemma UnseenShrinks(rows: seq<Row>, rows': seq<Row>, w: nat)
    requires CubesIn(rows) <= CubesIn(rows') <= AllCubes(w) && CubesIn(rows') != CubesIn(rows)
    ensures Unseen(rows', w) < Unseen(rows, w)
  {
    var x :| x in CubesIn(rows') && x !in CubesIn(rows);
    assert x in Unseen(rows, w) && x !in Unseen(rows', w);
  }

  /** Passing an active row whose pairing appended no active row lowers the
      count of active-born rows ahead. */
  lemma StepCounts(b0: seq<bool>, b: seq<bool>, g: nat)
    requires g < |b0| <= |b| && b0[g]
    requires forall k :: 0 <= k < |b0| ==> b[k] == b0[k]
    requires forall k :: |b0| <= k < |b| ==> !b[k]
    ensures BornAhead(b, g + 1) < BornAhead(b0, g)
  {
    assert b[g + 1..] == b0[g + 1..] + b[|b0|..];
    CountBornUnborn(b0[g + 1..], b[|b0|..]);
    assert b0[g..][1..] == b0[g + 1..];
  }

  /** Pairing an active row `g` either adds a cube never seen before or
      appends only cancelled rows, leaving fewer active rows ahead. */
  lemma MeasureDrops(t0: seq<Row>, b0: seq<bool>, t: seq<Row>, b: seq<bool>, g: nat, w: nat)
    requires GrowsFrom(t0, b0, t, b) && g < |b0| && b0[g] && CubesIn(t) <= AllCubes(w)
    ensures Unseen(t, w) < Unseen(t0, w) ||
      (Unseen(t, w) == Unseen(t0, w) && BornAhead(b, g + 1) < BornAhead(b0, g))
  {
    if CubesIn(t) == CubesIn(t0) {
      StepCounts(b0, b, g);
    } else {
      UnseenShrinks(t0, t, w);
    }
  }

  lemma StepCountsSkip(b: seq<bool>, g: nat)
    requires g < |b|
    ensures BornAhead(b, g + 1) <= BornAhead(b, g)
  {
    assert b[g..][1..] == b[g + 1..];
  }

  /** The body of `processConsensus` on the table's rows: the guard, the
      `findIndex`, the `forEach` that cancels covered active rows, the push. */
  method ProcessRows(table: seq<Row>, g: nat, l: nat, next: int) returns (rows: seq<Row>, next': int)
    requires g < |table| && l < |table|
    ensures (rows, next') == Process(table, g, l, next)
  {
    next' := next;
    rows := table;
    var localCube := table[l].cube;
    var globalCube := table[g].cube;
    if !HasComplementaryDigitWith(localCube, globalCube) || !HasConsensusWith(localCube, globalCube) {
      return;
    }
    var consensusCube := GetConsensusWith(localCube, globalCube);
    var cancelled := FindCovering(table, consensusCube);
    cancelled := if cancelled == -1 then NOT_CANCELED else cancelled;
    var canceledBy := NOT_CANCELED;
    if cancelled == NOT_CANCELED {
      canceledBy := next';
      next' := next' + 1;
    }
    if cancelled == NOT_CANCELED {
      var k := 0;
      while k < |rows|
        invariant 0 <= k <= |rows| == |table|
        invariant forall j :: 0 <= j < k ==> rows[j] == CancelRow(table[j], consensusCube, canceledBy)
        invariant forall j :: k <= j < |rows| ==> rows[j] == table[j]
      {
        if rows[k].cancelled == NOT_CANCELED && Covers(consensusCube, rows[k].cube) {
          rows := rows[k := rows[k].(cancelled := canceledBy)];
        }
        k := k + 1;
      }
      assert rows == CancelCovered(table, consensusCube, canceledBy);
    }
    rows := rows + [Row([g + 1, l + 1], consensusCube, cancelled)];
  }

  // ----------------------------------------------------------- the class

  class Consensus {
    var table: seq<Row>
    ghost var seeds: seq<Cube>
    ghost var width: nat
    ghost var born: seq<bool>

    ghost predicate Valid()
      reads this
    {
      Inv(table, seeds, width, born)
    }

    constructor Empty(w: nat)
      ensures table == [] && seeds == [] && width == w && born == []
    {
      table := [];
      seeds := [];
      width := w;
      born := [];
    }

    /** `new Consensus(...cubes)`: one active row per cube, or the error when
        a cube's length differs from the first one's. */
    static method Create(cubes: seq<Cube>) returns (r: Result<Consensus, ConsensusError>)
      requires |cubes| > 0
      ensures r.Err? <==> !SameLengths(cubes)
      ensures r.Ok? ==> fresh(r.value) && r.value.Valid() && r.value.table == SeedTable(cubes)
      ensures r.Ok? ==> r.value.seeds == cubes && r.value.width == |cubes[0]|
    {
      var uniformLength := GetLength(cubes[0]);
      var rows: seq<Row> := [];
      var k := 0;
      while k < |cubes|
        invariant 0 <= k <= |cubes|
        invariant forall j :: 0 <= j < k ==> |cubes[j]| == uniformLength
        invariant |rows| == k && forall i :: 0 <= i < k ==> rows[i] == Row([], cubes[i], NOT_CANCELED)
      {
        var cube := cubes[k];
        if GetLength(cube) != uniformLength {
          return Err(SizeMismatch);
        }
        rows := rows + [Row([], cube, NOT_CANCELED)];
        k := k + 1;
      }
      assert rows == SeedTable(cubes);
      SeedTableInv(cubes, uniformLength);
      var t := new Consensus.Empty(uniformLength);
      t.table := rows;
      t.seeds := cubes;
      t.born := seq(|cubes|, i => true);
      return Ok(t);
    }

    /** `processConsensus(globalPointer, localPointer)` with `nextNumber`
        passed in and returned. */
    method ProcessConsensus(g: nat, l: nat, next: int) returns (next': int)
      requires Valid() && l < g < |table| && next > |seeds|
      modifies this
      ensures (table, next') == Process(old(table), g, l, next)
      ensures born == BornAfter(old(table), old(born), table)
      ensures seeds == old(seeds) && width == old(width)
      ensures Valid() && Extends(old(table), table) && next' >= next
      ensures GrowsFrom(old(table), old(born), table, born)
    {
      ghost var t0, b0, s, w := table, born, seeds, width;
      var rows;
      rows, next' := ProcessRows(table, g, l, next);
      ProcessKeepsInv(t0, s, w, b0, g, l, next, rows, next');
      table := rows;
      born := BornAfter(t0, b0, rows);
    }

    /** One turn of the inner loop: row `l`, if it is still active, is
        paired with row `g`. */
    method PairWith(g: nat, l: nat, next: int) returns (next': int)
      requires Valid() && l < g < |table| && next > |seeds|
      modifies this
      ensures seeds == old(seeds) && width == old(width) && Valid()
      ensures (table, next') == if Active(old(table)[l]) then Process(old(table), g, l, next) else (old(table), next)
      ensures Active(old(table)[l]) ==>
        Extends(old(table), table) && GrowsFrom(old(table), old(born), table, born) && next' >= next
      ensures !Active(old(table)[l]) ==> born == old(born)
    {
      next' := next;
      if table[l].cancelled == NOT_CANCELED {
        next' := ProcessConsensus(g, l, next);
      }
    }

    /** The inner `for` loop: every active row before `g`, from the nearest
        one back to the first, is paired with row `g`. */
    method PairWithEarlier(g: nat, next: int) returns (next': int)
      requires Valid() && g < |table| && next > |seeds|
      modifies this
      ensures seeds == old(seeds) && width == old(width)
      ensures Valid() && Extends(old(table), table) && next' >= next
      ensures GrowsFrom(old(table), old(born), table, born)
      ensures forall i :: 0 <= i < g ==> PairDone(table, i, g)
      ensures g == 0 ==> table == old(table) && born == old(born)
      ensures (table, next') == PairDown(old(table), g, g, next)
    {
      next' := next;
      var l: int := g - 1;
      while l >= 0
        invariant -1 <= l < g < |table|
        invariant seeds == old(seeds) && width == old(width) && Valid()
        invariant InnerDone(old(table), old(born), g, next, l + 1, table, born, next')
        invariant l == g - 1 ==> table == old(table) && born == old(born)
      {
        ghost var t1, b1, n1 := table, born, next';
        next' := PairWith(g, l, next');
        InnerTurn(old(table), old(born), g, next, l, t1, b1, n1, table, born, next');
        l := l - 1;
      }
    }

    /** `consensus()`: pairs every active row with the active rows before it,
        stopping one row short of the end of the growing table, and returns
        the table. The last row is never paired with the rows before it; a
        two-row table comes back as it was. */
    method Run() returns (result: seq<Row>)
      requires Valid()
      modifies this
      ensures result == table
      ensures seeds == old(seeds) && width == old(width)
      ensures Valid() && Extends(old(table), table)
      ensures forall m :: |m| == width && IsPoint(m) ==>
        (CoveredBySeeds(seeds, m) <==> CoveredInTable(table, m))
      ensures PairsDoneBelow(table, |table| - 1)
      ensures |old(table)| == 2 ==> table == old(table)
    {
      var globalPointer := 0;
      var nextNumber := |table| + 1;
      CubesInAllCubes(table, width);
      while globalPointer < |table| - 1
        invariant 0 <= globalPointer <= |table|
        invariant seeds == old(seeds) && width == old(width)
        invariant Valid() && Extends(old(table), table) && nextNumber > |seeds|
        invariant CubesIn(table) <= AllCubes(width)
        invariant PairsDoneBelow(table, globalPointer)
        invariant |old(table)| == 2 ==> table == old(table)
        decreases Unseen(table, width), BornAhead(born, globalPointer), |table| - globalPointer
      {
        nextNumber := SweepGlobal(globalPointer, nextNumber);
        globalPointer := globalPointer + 1;
      }
      forall m | |m| == width && IsPoint(m)
        ensures CoveredBySeeds(seeds, m) <==> CoveredInTable(table, m)
      {
        SameFunction(table, seeds, width, born, m);
      }
      result := table;
    }

    /** One turn of the outer loop at `globalPointer == g`: row `g`, if
        active, is paired with the rows before it. The table's set of cubes
        grows, or else fewer active rows lie ahead of `g + 1` than of `g`. */
    method SweepGlobal(g: nat, next: int) returns (next': int)
      requires Valid() && g < |table| && next > |seeds|
      requires CubesIn(table) <= AllCubes(width) && PairsDoneBelow(table, g)
      modifies this
      ensures seeds == old(seeds) && width == old(width)
      ensures Valid() && Extends(old(table), table) && next' > |seeds|
      ensures CubesIn(table) <= AllCubes(width) && PairsDoneBelow(table, g + 1)
      ensures g == 0 ==> table == old(table)
      ensures Active(old(table)[g]) ==> (table, next') == PairDown(old(table), g, g, next)
      ensures !Active(old(table)[g]) ==> table == old(table) && next' == next
      ensures Unseen(table, width) < Unseen(old(table), width) ||
        (Unseen(table, width) == Unseen(old(table), width) && BornAhead(born, g + 1) < BornAhead(old(born), g)) ||
        (table == old(table) && born == old(born) && BornAhead(born, g + 1) <= BornAhead(born, g))
    {
      next' := next;
      ghost var t0, b0 := table, born;
      if table[g].cancelled == NOT_CANCELED {
        ActiveIsBorn(table, seeds, born, g);
        next' := PairWithEarlier(g, next');
        CubesInAllCubes(table, width);
        PairsDoneGrow(t0, table, g);
        MeasureDrops(t0, b0, table, born, g, width);
      } else {
        StepCountsSkip(born, g);
        forall i | 0 <= i < g ensures PairDone(table, i, g) {
        }
      }
      DoneBelowNext(table, g);
    }

    /** The outer loop run to the very end of the table: every row, the last
        one included, is paired with the active rows before it. The result
        is closed under consensus and describes the seeds' function. */
    method RunToEnd() returns (result: seq<Row>)
      requires Valid()
      modifies this
      ensures result == table
      ensures seeds == old(seeds) && width == old(width)
      ensures Valid() && Extends(old(table), table)
      ensures forall m :: |m| == width && IsPoint(m) ==>
        (CoveredBySeeds(seeds, m) <==> CoveredInTable(table, m))
      ensures Closed(table)
    {
      var globalPointer := 0;
      var nextNumber := |table| + 1;
      CubesInAllCubes(table, width);
      while globalPointer < |table|
        invariant 0 <= globalPointer <= |table|
        invariant seeds == old(seeds) && width == old(width)
        invariant Valid() && Extends(old(table), table) && nextNumber > |seeds|
        invariant CubesIn(table) <= AllCubes(width)
        invariant PairsDoneBelow(table, globalPointer)
        decreases Unseen(table, width), BornAhead(born, globalPointer), |table| - globalPointer
      {
        nextNumber := SweepGlobal(globalPointer, nextNumber);
        globalPointer := globalPointer + 1;
      }
      forall m | |m| == width && IsPoint(m)
        ensures CoveredBySeeds(seeds, m) <==> CoveredInTable(table, m)
      {
        SameFunction(table, seeds, width, born, m);
      }
      DoneIsClosed(table);
      result := table;
    }
  }

  /** `new Consensus(new Cube(1), new Cube(0)).consensus()`: the table comes
      back with its two seeds only, although their consensus `(-)` is
      covered by neither. */
  method TwoOppositeSeeds() returns (result: seq<Row>)
    ensures result == SeedTable([[One], [Zero]]) && !Closed(result)
  {
    var cubes: seq<Cube> := [[One], [Zero]];
    assert SameLengths(cubes);
    var r := Consensus.Create(cubes);
    var t := r.value;
    result := t.Run();
    OppositeSeedsNotClosed();
  }
}
