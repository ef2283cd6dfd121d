/**
 * Propositional formulas: the Atom/Not/And/Or tree, its evaluation, atom
 * collection, truth-table enumeration, the DNF built from the true rows,
 * and the sum of products rebuilt from cubes.
 */
module Formulas {
  import opened Common
  import opened Cubes

  /** The name an atom carries: a token, or the parser's `null` when it ran
      out of input. */
  datatype AtomName = Named(s: string) | Missing

  datatype Formula =
    | Atom(name: AtomName)
    | Not(operand: Formula)
    | And(left: Formula, right: Formula)
    | Or(left: Formula, right: Formula)

  /** The property key an atom looks itself up under: `null` is coerced to
      the string "null". */
  function Key(n: AtomName): string {
    match n
    case Named(s) => s
    case Missing => "null"
  }

  /** The unary node's stand-in left operand, `new Atom('')`. */
  const Placeholder: Formula := Atom(Named(""))

  function Size(f: Formula): nat {
    match f
    case Atom(_) => 1
    case Not(g) => Size(g) + 2
    case And(l, r) => Size(l) + Size(r) + 1
    case Or(l, r) => Size(l) + Size(r) + 1
  }

  /** `getLeft()`: none for an atom, the placeholder for Not. */
  function GetLeft(f: Formula): (r: Option<Formula>)
    ensures r.Some? ==> Size(r.value) < Size(f)
  {
    match f
    case Atom(_) => None
    case Not(_) => Some(Placeholder)
    case And(l, _) => Some(l)
    case Or(l, _) => Some(l)
  }

  /** `getRight()`: none for an atom, the operand for Not. */
  function GetRight(f: Formula): (r: Option<Formula>)
    ensures r.Some? ==> Size(r.value) < Size(f)
  {
    match f
    case Atom(_) => None
    case Not(g) => Some(g)
    case And(_, r) => Some(r)
    case Or(_, r) => Some(r)
  }

  /** `isAtomic()`: neither operand is present. Only atoms qualify; Not has
      the placeholder as its left operand. */
  function IsAtomic(f: Formula): (r: bool)
    ensures r <==> f.Atom?
  {
    GetLeft(f).None? && GetRight(f).None?
  }

  /** `evaluate(assignment)`, read through JavaScript truthiness (the only way
      its result is consumed): a missing key reads as `undefined`. */
  predicate Evaluate(f: Formula, a: Assignment)
    ensures f.Atom? && Key(f.name) !in Keys(a) ==> !Evaluate(f, a)
    ensures f.Not? ==> (Evaluate(f, a) <==> !Evaluate(f.operand, a))
    ensures f.And? ==> (Evaluate(f, a) <==> Evaluate(f.left, a) && Evaluate(f.right, a))
    ensures f.Or? ==> (Evaluate(f, a) <==> Evaluate(f.left, a) || Evaluate(f.right, a))
  {
    match f
    case Atom(n) =>
      assert Key(n) !in Keys(a) ==> Lookup(a, Key(n)) == Undefined by {
        if Key(n) !in Keys(a) { LookupAbsent(a, Key(n)); }
      }
      Truthy(Lookup(a, Key(n)))
    case Not(g) => !Evaluate(g, a)
    case And(l, r) => Evaluate(l, a) && Evaluate(r, a)
    case Or(l, r) => Evaluate(l, a) || Evaluate(r, a)
  }

  /** In an object, an atom is true exactly when its key is present with a
      truthy value. */
  lemma EvaluateAtom(n: AtomName, a: Assignment)
    requires DistinctKeys(a)
    ensures Evaluate(Atom(n), a) <==> exists i :: 0 <= i < |a| && a[i].0 == Key(n) && Truthy(a[i].1)
  {
    if Key(n) in Keys(a) {
      var i :| 0 <= i < |a| && Keys(a)[i] == Key(n);
      LookupAt(a, i);
      forall j | 0 <= j < |a| && a[j].0 == Key(n) ensures j == i {
      }
    } else {
      forall i | 0 <= i < |a| ensures a[i].0 != Key(n) {
        assert Keys(a)[i] == a[i].0;
      }
    }
  }

  // ------------------------------------------------------------ atoms

  /** `s` after `x`, as `Set.add` would keep it: appended only when new. */
  function AddNew(s: seq<AtomName>, x: AtomName): seq<AtomName> {
    if x in s then s else s + [x]
  }

  /** `Array.from(new Set(s))`: first occurrences in order. */
  function Dedup(s: seq<AtomName>): (r: seq<AtomName>)
    ensures forall x :: x in r <==> x in s
    ensures NoDuplicates(r)
  {
    if s == [] then [] else AddNew(Dedup(s[..|s| - 1]), s[|s| - 1])
  }

  predicate NoDuplicates(s: seq<AtomName>) {
    forall i, j :: 0 <= i < j < |s| ==> s[i] != s[j]
  }

  /** The atom names of `f` in a left-to-right depth-first walk, without the
      placeholder's empty name, repetitions included. */
  function Occurrences(f: Formula): seq<AtomName> {
    match f
    case Atom(n) => if n == Named("") then [] else [n]
    case Not(g) => Occurrences(g)
    case And(l, r) => Occurrences(l) + Occurrences(r)
    case Or(l, r) => Occurrences(l) + Occurrences(r)
  }

  lemma {:induction false} DedupOfNoDuplicates(s: seq<AtomName>)
    requires NoDuplicates(s)
    ensures Dedup(s) == s
  {
    if s != [] {
      DedupOfNoDuplicates(s[..|s| - 1]);
    }
  }

  /** Deduplicating the two halves first changes nothing. */
  lemma {:induction false} DedupOfDedups(a: seq<AtomName>, b: seq<AtomName>)
    ensures Dedup(Dedup(a) + Dedup(b)) == Dedup(a + b)
  {
    if b == [] {
      assert Dedup(a) + Dedup(b) == Dedup(a) && a + b == a;
      DedupOfNoDuplicates(Dedup(a));
    } else {
      var b', x := b[..|b| - 1], b[|b| - 1];
      DedupOfDedups(a, b');
      assert b == b' + [x];
      assert (a + b)[..|a + b| - 1] == a + b';
      if x in Dedup(b') {
        assert Dedup(b) == Dedup(b');
        assert x in Dedup(a + b');
      } else {
        assert Dedup(b) == Dedup(b') + [x];
        assert Dedup(a) + Dedup(b) == (Dedup(a) + Dedup(b')) + [x];
        assert (Dedup(a) + Dedup(b))[..|Dedup(a) + Dedup(b)| - 1] == Dedup(a) + Dedup(b');
      }
    }
  }

  /** `collectAtoms()`: each atom name once, in the order of its first
      occurrence in a left-to-right depth-first walk; never the
      placeholder's empty name. */
  function CollectAtoms(f: Formula): (r: seq<AtomName>)
    decreases Size(f)
    ensures r == Dedup(Occurrences(f))
    ensures NoDuplicates(r) && Named("") !in r
  {
    if IsAtomic(f) && f.name != Named("") then [f.name]
    else
      var l := if GetLeft(f).Some? then CollectAtoms(GetLeft(f).value) else [];
      var r := if GetRight(f).Some? then CollectAtoms(GetRight(f).value) else [];
      var ol := if GetLeft(f).Some? then Occurrences(GetLeft(f).value) else [];
      var or := if GetRight(f).Some? then Occurrences(GetRight(f).value) else [];
      DedupOfDedups(ol, or);
      assert ol + or == Occurrences(f);
      Dedup(l + r)
  }

  // ----------------------------------------------------- truth table

  /** Property keys of the atoms as an object collects them: a repeated key
      keeps its first place. */
  function KeyList(atoms: seq<AtomName>, k: nat): (ks: seq<string>)
    requires k <= |atoms|
    ensures forall x :: x in ks <==> exists j :: 0 <= j < k && Key(atoms[j]) == x
  {
    if k == 0 then []
    else
      var ks := KeyList(atoms, k - 1);
      if Key(atoms[k - 1]) in ks then ks else ks + [Key(atoms[k - 1])]
  }

  /** The inner loop of `generateAssignments` after `k` atoms:
      `assignment[atoms[j]] = !!(i & (1 << j))` for `j < k`. */
  function BitAssignmentUpTo(atoms: seq<AtomName>, i: nat, k: nat): Assignment
    requires k <= |atoms|
  {
    if k == 0 then []
    else Put(BitAssignmentUpTo(atoms, i, k - 1), Key(atoms[k - 1]), Bool(Bit(i, k - 1)))
  }

  /** Every generated assignment has the same keys, each once, and only
      boolean values. */
  lemma BitAssignmentShape(atoms: seq<AtomName>, i: nat, k: nat)
    requires k <= |atoms|
    ensures Keys(BitAssignmentUpTo(atoms, i, k)) == KeyList(atoms, k)
    ensures DistinctKeys(BitAssignmentUpTo(atoms, i, k))
    ensures forall p :: p in BitAssignmentUpTo(atoms, i, k) ==> p.1.Bool?
  {
    BitAssignmentKeys(atoms, i, k);
    BitAssignmentDistinct(atoms, i, k);
    BitAssignmentBools(atoms, i, k);
  }

  lemma {:induction false} BitAssignmentKeys(atoms: seq<AtomName>, i: nat, k: nat)
    requires k <= |atoms|
    ensures Keys(BitAssignmentUpTo(atoms, i, k)) == KeyList(atoms, k)
  {
    if k > 0 {
      BitAssignmentKeys(atoms, i, k - 1);
      PutKeys(BitAssignmentUpTo(atoms, i, k - 1), Key(atoms[k - 1]), Bool(Bit(i, k - 1)));
    }
  }

  lemma {:induction false} BitAssignmentDistinct(atoms: seq<AtomName>, i: nat, k: nat)
    requires k <= |atoms|
    ensures DistinctKeys(BitAssignmentUpTo(atoms, i, k))
  {
    if k > 0 {
      BitAssignmentDistinct(atoms, i, k - 1);
      PutDistinct(BitAssignmentUpTo(atoms, i, k - 1), Key(atoms[k - 1]), Bool(Bit(i, k - 1)));
    }
  }

  lemma {:induction false} BitAssignmentBools(atoms: seq<AtomName>, i: nat, k: nat)
    requires k <= |atoms|
    ensures forall p :: p in BitAssignmentUpTo(atoms, i, k) ==> p.1.Bool?
  {
    if k > 0 {
      BitAssignmentBools(atoms, i, k - 1);
      PutEntries(BitAssignmentUpTo(atoms, i, k - 1), Key(atoms[k - 1]), Bool(Bit(i, k - 1)));
    }
  }

  /** Assignment number `i`: atom `j` is true iff bit `j` of `i` is set. */
  function BitAssignment(atoms: seq<AtomName>, i: nat): Assignment {
    BitAssignmentUpTo(atoms, i, |atoms|)
  }

  /** All 2^n assignments over `atoms`, in the order they are generated. */
  function Assignments(atoms: seq<AtomName>): (r: seq<Assignment>)
    ensures |r| == Pow2(|atoms|)
  {
    seq(Pow2(|atoms|), i requires 0 <= i < Pow2(|atoms|) => BitAssignment(atoms, i))
  }

  predicate DistinctAtomKeys(atoms: seq<AtomName>) {
    forall i, j :: 0 <= i < j < |atoms| ==> Key(atoms[i]) != Key(atoms[j])
  }

  /** No atom's key is one JavaScript would order ahead of the others, and
      none is `__proto__`, whose assignment `obj['__proto__'] = b` sets the
      object's prototype instead of adding a property. */
  predicate NoIndexKeys(atoms: seq<AtomName>) {
    forall i :: 0 <= i < |atoms| ==> !AllDigits(Key(atoms[i])) && Key(atoms[i]) != "__proto__"
  }

  /** With distinct keys, assignment `i` lists the atoms in order and gives
      atom `j` the value of bit `j` of `i`. */
  lemma {:induction false} BitAssignmentMeaning(atoms: seq<AtomName>, i: nat, k: nat)
    requires k <= |atoms| && DistinctAtomKeys(atoms)
    ensures |BitAssignmentUpTo(atoms, i, k)| == k
    ensures forall j :: 0 <= j < k ==> BitAssignmentUpTo(atoms, i, k)[j] == (Key(atoms[j]), Bool(Bit(i, j)))
  {
    if k > 0 {
      BitAssignmentMeaning(atoms, i, k - 1);
      BitAssignmentAppends(atoms, i, k);
    }
  }

  /** With distinct keys, each step of the reduce appends a new entry. */
  lemma BitAssignmentAppends(atoms: seq<AtomName>, i: nat, k: nat)
    requires 0 < k <= |atoms| && DistinctAtomKeys(atoms)
    ensures BitAssignmentUpTo(atoms, i, k) == BitAssignmentUpTo(atoms, i, k - 1) + [(Key(atoms[k - 1]), Bool(Bit(i, k - 1)))]
  {
    var acc := BitAssignmentUpTo(atoms, i, k - 1);
    var key := Key(atoms[k - 1]);
    BitAssignmentKeys(atoms, i, k - 1);
    assert key !in KeyList(atoms, k - 1);
    PutNewKey(acc, key, Bool(Bit(i, k - 1)));
  }

  /** `generateAssignments(atoms)`. */
  method GenerateAssignments(atoms: seq<AtomName>) returns (assignments: seq<Assignment>)
    requires NoIndexKeys(atoms)
    ensures assignments == Assignments(atoms)
  {
    assignments := [];
    var numAssignments := Pow2(|atoms|);
    var i := 0;
    while i < numAssignments
      invariant 0 <= i <= numAssignments
      invariant |assignments| == i
      invariant forall k :: 0 <= k < i ==> assignments[k] == BitAssignment(atoms, k)
    {
      var assignment: Assignment := [];
      var j := 0;
      while j < |atoms|
        invariant 0 <= j <= |atoms|
        invariant assignment == BitAssignmentUpTo(atoms, i, j)
      {
        assignment := Put(assignment, Key(atoms[j]), Bool(Bit(i, j)));
        j := j + 1;
      }
      assignments := assignments + [assignment];
      i := i + 1;
    }
  }

  /** `filter(a => this.evaluate(a))`. */
  function Filter(f: Formula, s: seq<Assignment>): (r: seq<Assignment>)
    ensures forall a :: a in r <==> a in s && Evaluate(f, a)
  {
    if s == [] then []
    else (if Evaluate(f, s[0]) then [s[0]] else []) + Filter(f, s[1..])
  }

  /** `getAllTrueAssignments()`: the generated assignments over the
      formula's atoms on which it is true, in generation order. */
  function GetAllTrueAssignments(f: Formula): (r: seq<Assignment>)
    requires NoIndexKeys(CollectAtoms(f))
    ensures forall a :: a in r <==> a in Assignments(CollectAtoms(f)) && Evaluate(f, a)
  {
    Filter(f, Assignments(CollectAtoms(f)))
  }

  // ----------------------------------------------------- product terms

  /** The literal of one entry: the atom when the value is truthy, its
      negation otherwise. */
  function Literal(k: string, v: Value): Formula {
    if Truthy(v) then Atom(Named(k)) else Not(Atom(Named(k)))
  }

  /** `productTermFromAssignment`: the `reduce` that joins the literals of the
      entries, in key order, into a left-nested And; null when empty. */
  function ProductTermFromAssignment(a: Assignment): (r: Option<Formula>)
    ensures r.None? <==> a == []
  {
    if a == [] then None
    else
      var t := Literal(a[|a| - 1].0, a[|a| - 1].1);
      match ProductTermFromAssignment(a[..|a| - 1])
      case None => Some(t)
      case Some(p) => Some(And(p, t))
  }

  /** `b` gives every key of `a` a value of the same truthiness. */
  predicate Agrees(b: Assignment, a: Assignment) {
    forall i :: 0 <= i < |a| ==> Truthy(Lookup(b, a[i].0)) == Truthy(a[i].1)
  }

  /** A product term is true exactly on the assignments that agree with the
      assignment it was built from. */
  lemma {:induction false} ProductTermMeaning(a: Assignment, b: Assignment)
    requires a != []
    ensures Evaluate(ProductTermFromAssignment(a).value, b) <==> Agrees(b, a)
  {
    var a' := a[..|a| - 1];
    var t := Literal(a[|a| - 1].0, a[|a| - 1].1);
    assert Evaluate(t, b) <==> Truthy(Lookup(b, a[|a| - 1].0)) == Truthy(a[|a| - 1].1);
    if a' != [] {
      ProductTermMeaning(a', b);
      assert ProductTermFromAssignment(a).value == And(ProductTermFromAssignment(a').value, t);
    } else {
      assert ProductTermFromAssignment(a).value == t;
    }
    assert Agrees(b, a) <==> Agrees(b, a') && Truthy(Lookup(b, a[|a| - 1].0)) == Truthy(a[|a| - 1].1) by {
      if Agrees(b, a') && Truthy(Lookup(b, a[|a| - 1].0)) == Truthy(a[|a| - 1].1) {
        forall i | 0 <= i < |a| ensures Truthy(Lookup(b, a[i].0)) == Truthy(a[i].1) {
          if i < |a| - 1 { assert a[i] == a'[i]; }
        }
      }
      if Agrees(b, a) {
        forall i | 0 <= i < |a'| ensures Truthy(Lookup(b, a'[i].0)) == Truthy(a'[i].1) {
          assert a[i] == a'[i];
        }
      }
    }
  }

  /** The left-nested Or of `terms`, first term innermost. */
  function OrChain(terms: seq<Formula>): Formula
    requires |terms| > 0
  {
    if |terms| == 1 then terms[0] else Or(OrChain(terms[..|terms| - 1]), terms[|terms| - 1])
  }

  /** A chain of disjunctions is true iff one of its terms is. */
  lemma {:induction false} OrChainMeaning(terms: seq<Formula>, a: Assignment)
    requires |terms| > 0
    ensures Evaluate(OrChain(terms), a) <==> exists t :: t in terms && Evaluate(t, a)
  {
    var last := terms[|terms| - 1];
    if |terms| > 1 {
      var init := terms[..|terms| - 1];
      OrChainMeaning(init, a);
      assert terms == init + [last];
      assert OrChain(terms) == Or(OrChain(init), last);
      if Evaluate(OrChain(terms), a) {
        if !Evaluate(last, a) {
          var t :| t in init && Evaluate(t, a);
          assert t in terms;
        } else {
          assert last in terms;
        }
      } else {
        forall t | t in terms ensures !Evaluate(t, a) {
          if t != last { assert t in init; }
        }
      }
    } else {
      assert terms == [last];
    }
  }

  // ------------------------------------------------------------ locality

  /** Evaluation reads nothing but the truthiness of the formula's own atoms
      (the placeholder's empty name included). */
  lemma {:induction false} EvaluateLocal(f: Formula, a: Assignment, b: Assignment)
    requires forall x :: x in Occurrences(f) ==> Truthy(Lookup(a, Key(x))) == Truthy(Lookup(b, Key(x)))
    requires Truthy(Lookup(a, "")) == Truthy(Lookup(b, ""))
    ensures Evaluate(f, a) == Evaluate(f, b)
  {
    match f
    case Atom(n) =>
    case Not(g) => EvaluateLocal(g, a, b);
    case And(l, r) => EvaluateLocal(l, a, b); EvaluateLocal(r, a, b);
    case Or(l, r) => EvaluateLocal(l, a, b); EvaluateLocal(r, a, b);
  }

  /** A generated assignment has exactly the atoms' keys, each once, with
      boolean values; the empty key is never among them. */
  lemma GeneratedShape(atoms: seq<AtomName>, a: Assignment)
    requires a in Assignments(atoms) && Named("") !in atoms
    ensures Keys(a) == KeyList(atoms, |atoms|) && DistinctKeys(a)
    ensures forall p :: p in a ==> p.1.Bool?
    ensures Lookup(a, "") == Undefined
  {
    var i :| 0 <= i < Pow2(|atoms|) && a == BitAssignment(atoms, i);
    BitAssignmentShape(atoms, i, |atoms|);
    LookupAbsent(a, "");
  }

  /** Every entry of an assignment with distinct keys reads back as itself. */
  lemma AgreesWithItself(a: Assignment)
    requires DistinctKeys(a)
    ensures Agrees(a, a)
  {
    forall i | 0 <= i < |a| ensures Truthy(Lookup(a, a[i].0)) == Truthy(a[i].1) {
      LookupAt(a, i);
    }
  }

  lemma AgreesOnKey(a: Assignment, b: Assignment, key: string)
    requires DistinctKeys(a) && Agrees(b, a) && key in Keys(a)
    ensures Truthy(Lookup(a, key)) == Truthy(Lookup(b, key))
  {
    var i :| 0 <= i < |a| && Keys(a)[i] == key;
    assert a[i].0 == key;
    LookupAt(a, i);
  }

  /** A generated row leaves the empty key falsy and agrees with itself. */
  lemma GeneratedRow(atoms: seq<AtomName>, a: Assignment)
    requires a in Assignments(atoms) && Named("") !in atoms
    ensures !Truthy(Lookup(a, "")) && Agrees(a, a)
  {
    GeneratedShape(atoms, a);
    AgreesWithItself(a);
  }

  lemma OccurrenceAgrees(f: Formula, a: Assignment, b: Assignment, x: AtomName)
    requires a in Assignments(CollectAtoms(f)) && Agrees(b, a) && x in Occurrences(f)
    ensures Truthy(Lookup(a, Key(x))) == Truthy(Lookup(b, Key(x)))
  {
    var atoms := CollectAtoms(f);
    GeneratedShape(atoms, a);
    assert x in atoms;
    var j :| 0 <= j < |atoms| && atoms[j] == x;
    assert Key(x) in KeyList(atoms, |atoms|);
    AgreesOnKey(a, b, Key(x));
  }

  /** An assignment that agrees with a generated row on every key, and
      leaves the empty key falsy, gives the formula the row's value. */
  lemma SameRowSameValue(f: Formula, a: Assignment, b: Assignment)
    requires a in Assignments(CollectAtoms(f))
    requires Agrees(b, a) && !Truthy(Lookup(b, ""))
    ensures Evaluate(f, a) == Evaluate(f, b)
  {
    GeneratedRow(CollectAtoms(f), a);
    forall x | x in Occurrences(f) ensures Truthy(Lookup(a, Key(x))) == Truthy(Lookup(b, Key(x))) {
      OccurrenceAgrees(f, a, b, x);
    }
    EvaluateLocal(f, a, b);
  }

  // ------------------------------------------------------------ DNF

  /** `getDNF` reaches `productTerm.toString()` only for a non-empty
      assignment: either the formula has atoms or it is false on `{}`. */
  predicate HasDNF(f: Formula) {
    CollectAtoms(f) != [] || !Evaluate(f, [])
  }

  /** The rows on which the formula is true all have at least one entry. */
  lemma TrueRowsNonEmpty(f: Formula)
    requires HasDNF(f)
    ensures TrueRowsNonEmptyIn(f, Assignments(CollectAtoms(f)))
  {
    var atoms := CollectAtoms(f);
    forall a | a in Assignments(atoms) && Evaluate(f, a) ensures a != [] {
      GeneratedShape(atoms, a);
      if atoms != [] {
        assert Key(atoms[0]) in KeyList(atoms, |atoms|);
      }
    }
  }

  /** Every row of `s` on which `f` holds has an entry. */
  predicate TrueRowsNonEmptyIn(f: Formula, s: seq<Assignment>) {
    forall a :: a in s && Evaluate(f, a) ==> a != []
  }

  /** The distinct product terms of the rows of `s` on which `f` holds, each
      at the place of its first row (as `Map.set` keeps a key's place). */
  function TrueTerms(f: Formula, s: seq<Assignment>): seq<Formula>
    requires TrueRowsNonEmptyIn(f, s)
  {
    if s == [] then []
    else
      var ts := TrueTerms(f, s[..|s| - 1]);
      var a := s[|s| - 1];
      if Evaluate(f, a) && ProductTermFromAssignment(a).value !in ts
      then ts + [ProductTermFromAssignment(a).value]
      else ts
  }

  /** One more row: its term is appended when the row is true and the term
      is new. */
  lemma TrueTermsStep(f: Formula, s: seq<Assignment>, a: Assignment)
    requires TrueRowsNonEmptyIn(f, s) && TrueRowsNonEmptyIn(f, s + [a])
    ensures TrueTerms(f, s + [a]) ==
      if Evaluate(f, a) && ProductTermFromAssignment(a).value !in TrueTerms(f, s)
      then TrueTerms(f, s) + [ProductTermFromAssignment(a).value]
      else TrueTerms(f, s)
  {
    assert (s + [a])[..|s|] == s;
  }

  /** The terms are those of the true rows, each once. */
  lemma {:induction false} TrueTermsMembers(f: Formula, s: seq<Assignment>)
    requires TrueRowsNonEmptyIn(f, s)
    ensures forall t :: t in TrueTerms(f, s) <==> exists a :: a in s && Evaluate(f, a) && t == ProductTermFromAssignment(a).value
    ensures forall i, j :: 0 <= i < j < |TrueTerms(f, s)| ==> TrueTerms(f, s)[i] != TrueTerms(f, s)[j]
  {
    if s != [] {
      var s', a := s[..|s| - 1], s[|s| - 1];
      assert s == s' + [a];
      TrueTermsMembers(f, s');
      assert a in s;
      forall t | t in TrueTerms(f, s)
        ensures exists a :: a in s && Evaluate(f, a) && t == ProductTermFromAssignment(a).value
      {
        if t !in TrueTerms(f, s') {
          assert Evaluate(f, a) && t == ProductTermFromAssignment(a).value;
        } else {
          var b :| b in s' && Evaluate(f, b) && t == ProductTermFromAssignment(b).value;
          assert b in s;
        }
      }
      forall t | exists a :: a in s && Evaluate(f, a) && t == ProductTermFromAssignment(a).value
        ensures t in TrueTerms(f, s)
      {
        var b :| b in s && Evaluate(f, b) && t == ProductTermFromAssignment(b).value;
        if b != a {
          assert b in s';
        }
      }
    }
  }

  /** The DNF `getDNF` returns: the disjunction of the product terms of the
      true rows, or nothing when no row is true. */
  function DNF(f: Formula): Option<Formula>
    requires HasDNF(f)
  {
    TrueRowsNonEmpty(f);
    var ts := TrueTerms(f, Assignments(CollectAtoms(f)));
    if ts == [] then None else Some(OrChain(ts))
  }

  /** A literal, an atom or its negation. */
  predicate IsLiteral(f: Formula) {
    f.Atom? || (f.Not? && f.operand.Atom?)
  }

  /** A left-nested conjunction of literals. */
  predicate IsProduct(f: Formula) {
    IsLiteral(f) || (f.And? && IsProduct(f.left) && IsLiteral(f.right))
  }

  /** A left-nested disjunction of products. */
  predicate IsSumOfProducts(f: Formula) {
    IsProduct(f) || (f.Or? && IsSumOfProducts(f.left) && IsProduct(f.right))
  }

  lemma {:induction false} ProductTermIsProduct(a: Assignment)
    requires a != []
    ensures IsProduct(ProductTermFromAssignment(a).value)
  {
    if |a| > 1 {
      ProductTermIsProduct(a[..|a| - 1]);
    }
  }

  /** The operands of a left-nested conjunction, from left to right. */
  function Factors(f: Formula): seq<Formula> {
    if f.And? then Factors(f.left) + [f.right] else [f]
  }

  /** The literals of the term are the entries' literals, one per entry, in
      key order. */
  lemma {:induction false} ProductTermFactors(a: Assignment)
    requires a != []
    ensures Factors(ProductTermFromAssignment(a).value) ==
      seq(|a|, i requires 0 <= i < |a| => Literal(a[i].0, a[i].1))
  {
    if |a| > 1 {
      ProductTermFactors(a[..|a| - 1]);
    }
  }

  lemma {:induction false} OrChainIsSumOfProducts(terms: seq<Formula>)
    requires |terms| > 0 && forall t :: t in terms ==> IsProduct(t)
    ensures IsSumOfProducts(OrChain(terms))
  {
    if |terms| > 1 {
      assert terms[|terms| - 1] in terms;
      OrChainIsSumOfProducts(terms[..|terms| - 1]);
    } else {
      assert terms[0] in terms;
    }
  }

  /** No terms exactly when no row is true; every term is a product. */
  lemma TrueTermsShape(f: Formula, s: seq<Assignment>)
    requires TrueRowsNonEmptyIn(f, s)
    ensures TrueTerms(f, s) == [] <==> forall a :: a in s ==> !Evaluate(f, a)
    ensures forall t :: t in TrueTerms(f, s) ==> IsProduct(t)
  {
    var ts := TrueTerms(f, s);
    TrueTermsMembers(f, s);
    forall a | a in s && Evaluate(f, a) ensures ts != [] {
      assert ProductTermFromAssignment(a).value in ts;
    }
    if ts != [] {
      assert ts[0] in ts;
    }
    forall t | t in ts ensures IsProduct(t) {
      var a :| a in s && Evaluate(f, a) && t == ProductTermFromAssignment(a).value;
      ProductTermIsProduct(a);
    }
  }

  /** `getDNF()` returns null exactly when no generated row makes the
      formula true; otherwise a sum of products. */
  lemma DNFShape(f: Formula)
    requires HasDNF(f)
    ensures DNF(f).None? <==> forall a :: a in Assignments(CollectAtoms(f)) ==> !Evaluate(f, a)
    ensures DNF(f).Some? ==> IsSumOfProducts(DNF(f).value)
  {
    TrueRowsNonEmpty(f);
    var rows := Assignments(CollectAtoms(f));
    var ts := TrueTerms(f, rows);
    TrueTermsShape(f, rows);
    assert DNF(f) == if ts == [] then None else Some(OrChain(ts));
    if ts != [] {
      OrChainIsSumOfProducts(ts);
    }
  }

  /** Whatever makes the DNF true makes the formula true, as long as it
      leaves the empty key falsy. */
  lemma DNFSound(f: Formula, b: Assignment)
    requires HasDNF(f) && DNF(f).Some? && !Truthy(Lookup(b, ""))
    requires Evaluate(DNF(f).value, b)
    ensures Evaluate(f, b)
  {
    TrueRowsNonEmpty(f);
    var rows := Assignments(CollectAtoms(f));
    var ts := TrueTerms(f, rows);
    TrueTermsMembers(f, rows);
    assert DNF(f) == Some(OrChain(ts));
    OrChainMeaning(ts, b);
    var t :| t in ts && Evaluate(t, b);
    var a :| a in rows && Evaluate(f, a) && t == ProductTermFromAssignment(a).value;
    ProductTermMeaning(a, b);
    SameRowSameValue(f, a, b);
  }

  /** The DNF is true wherever an assignment agrees with a true row. */
  lemma DNFCoversTrueRow(f: Formula, g: Assignment, b: Assignment)
    requires HasDNF(f) && g in Assignments(CollectAtoms(f)) && Evaluate(f, g) && Agrees(b, g)
    ensures DNF(f).Some? && Evaluate(DNF(f).value, b)
  {
    TrueRowsNonEmpty(f);
    var rows := Assignments(CollectAtoms(f));
    var ts := TrueTerms(f, rows);
    TrueTermsMembers(f, rows);
    assert ProductTermFromAssignment(g).value in ts;
    assert DNF(f) == Some(OrChain(ts));
    OrChainMeaning(ts, b);
    ProductTermMeaning(g, b);
  }

  /** The DNF is equivalent to the formula on every row of its truth table. */
  lemma DNFEquivalent(f: Formula, b: Assignment)
    requires HasDNF(f) && DNF(f).Some?
    requires b in Assignments(CollectAtoms(f))
    ensures Evaluate(DNF(f).value, b) <==> Evaluate(f, b)
  {
    GeneratedRow(CollectAtoms(f), b);
    if Evaluate(DNF(f).value, b) {
      DNFSound(f, b);
    }
    if Evaluate(f, b) {
      DNFCoversTrueRow(f, b, b);
    }
  }

  /** Every assignment agrees with some row of the truth table: the row whose
      number has bit `j` set exactly when atom `j` is truthy. */
  lemma RowFor(atoms: seq<AtomName>, b: Assignment) returns (g: Assignment)
    requires DistinctAtomKeys(atoms)
    ensures g in Assignments(atoms) && Agrees(b, g)
  {
    var n := |atoms|;
    var v := seq(n, j requires 0 <= j < n => Truthy(Lookup(b, Key(atoms[j]))));
    var i := Encode(v);
    EncodeBits(v);
    g := BitAssignment(atoms, i);
    assert Assignments(atoms)[i] == g;
    BitAssignmentMeaning(atoms, i, n);
    forall k | 0 <= k < |g| ensures Truthy(Lookup(b, g[k].0)) == Truthy(g[k].1) {
      assert g[k] == (Key(atoms[k]), Bool(Bit(i, k)));
      assert Bit(i, k) == v[k];
    }
  }

  /** For any assignment that leaves the empty key falsy, the generated row
      holding its truth values at the atoms' keys, which agrees with it and
      gives the formula the same value. */
  lemma MatchingRow(f: Formula, b: Assignment) returns (g: Assignment)
    requires DistinctAtomKeys(CollectAtoms(f)) && !Truthy(Lookup(b, ""))
    ensures g in Assignments(CollectAtoms(f)) && Agrees(b, g)
    ensures Evaluate(f, g) == Evaluate(f, b)
  {
    g := RowFor(CollectAtoms(f), b);
    SameRowSameValue(f, g, b);
  }

  /** The DNF is equivalent to the formula on every assignment, provided the
      empty key is falsy and the atoms' keys are distinct (an atom named
      "null" beside the parser's missing atom shares its key); with no DNF,
      the formula is false on every such assignment. */
  lemma DNFEquivalentEverywhere(f: Formula, b: Assignment)
    requires HasDNF(f) && DistinctAtomKeys(CollectAtoms(f)) && !Truthy(Lookup(b, ""))
    ensures DNF(f).None? ==> !Evaluate(f, b)
    ensures DNF(f).Some? ==> (Evaluate(DNF(f).value, b) <==> Evaluate(f, b))
  {
    if Evaluate(f, b) {
      var g := MatchingRow(f, b);
      DNFCoversTrueRow(f, g, b);
    } else if DNF(f).Some? && Evaluate(DNF(f).value, b) {
      DNFSound(f, b);
    }
  }

  /** `getDNF()`. */
  method GetDNF(f: Formula) returns (r: Option<Formula>)
    requires NoIndexKeys(CollectAtoms(f)) && HasDNF(f)
    ensures r == DNF(f)
  {
    var atoms := CollectAtoms(f);
    var assignments := GenerateAssignments(atoms);
    TrueRowsNonEmpty(f);
    var terms := CollectTrueTerms(f, assignments);
    if |terms| == 0 {
      return None;
    }
    var result := JoinWithOr(terms);
    return Some(result);
  }

  /** The loop of `getDNF` over the assignments: the product term of each
      true row goes into the map unless an equal term is already there. */
  method CollectTrueTerms(f: Formula, assignments: seq<Assignment>) returns (terms: seq<Formula>)
    requires TrueRowsNonEmptyIn(f, assignments)
    ensures terms == TrueTerms(f, assignments)
  {
    terms := [];
    var i := 0;
    while i < |assignments|
      invariant 0 <= i <= |assignments|
      invariant terms == TrueTerms(f, assignments[..i])
    {
      var assignment := assignments[i];
      assert assignments[..i + 1] == assignments[..i] + [assignment];
      assert TrueRowsNonEmptyIn(f, assignments[..i + 1]);
      TrueTermsStep(f, assignments[..i], assignment);
      if Evaluate(f, assignment) {
        var term := ProductTermFromAssignment(assignment).value;
        if term !in terms {
          terms := terms + [term];
        }
      }
      i := i + 1;
    }
    assert assignments[..i] == assignments;
  }

  /** `result = terms[0]; for (i = 1 ...) result = new Or(result, terms[i])`,
      the loop `getDNF` and `formulaFromCubes` share. */
  method JoinWithOr(terms: seq<Formula>) returns (result: Formula)
    requires |terms| > 0
    ensures result == OrChain(terms)
  {
    result := terms[0];
    var k := 1;
    while k < |terms|
      invariant 1 <= k <= |terms|
      invariant result == OrChain(terms[..k])
    {
      assert terms[..k + 1][..k] == terms[..k];
      result := Or(result, terms[k]);
      k := k + 1;
    }
    assert terms[..k] == terms;
  }

  // ------------------------------------------------------- cubes to formula

  datatype CubesError =
    | UnequalLengths     // 'All cubes must have same number of components.'
    | NameCountMismatch  // 'Not enough/ too many variable names.'

  /** At least one digit of the cube is not a don't-care. */
  predicate HasDefinedDigit(c: Cube) {
    exists i :: 0 <= i < |c| && c[i] != DC
  }

  /** `b` lies in cube `c` with position `i` named `names[i]`: every defined
      digit's variable has a value of that digit's truthiness. */
  predicate InCube(b: Assignment, names: seq<string>, c: Cube) {
    forall i :: 0 <= i < |c| && i < |names| && c[i] != DC ==> Truthy(Lookup(b, names[i])) == (c[i] == One)
  }

  predicate NoDigitNames(names: seq<string>) {
    forall i :: 0 <= i < |names| ==> !AllDigits(names[i])
  }

  lemma {:induction false} AssignDigitsNonEmpty(names: seq<string>, c: Cube, k: nat, p: nat)
    requires k <= |names| == |c| && p < k && c[p] != DC
    ensures AssignDigits(names, c, k) != []
  {
    if p < k - 1 {
      AssignDigitsNonEmpty(names, c, k - 1, p);
    }
  }

  /** The product term of one cube: `productTermFromAssignment` of its
      `toAssignment`. */
  function CubeTerm(names: seq<string>, c: Cube): Formula
    requires NoDigitNames(names) && |names| == |c| && HasDefinedDigit(c)
  {
    var p :| 0 <= p < |c| && c[p] != DC;
    AssignDigitsNonEmpty(names, c, |c|, p);
    ProductTermFromAssignment(ToAssignment(names, c).value).value
  }

  /** The product terms of the cubes, in cube order. */
  function CubeTerms(names: seq<string>, cubes: seq<Cube>): (r: seq<Formula>)
    requires NoDigitNames(names)
    requires forall k :: 0 <= k < |cubes| ==> |cubes[k]| == |names| && HasDefinedDigit(cubes[k])
  {
    seq(|cubes|, k requires 0 <= k < |cubes| => CubeTerm(names, cubes[k]))
  }

  /** With distinct names, an assignment agrees with a cube's assignment
      exactly when it lies in the cube. */
  lemma AgreesWithCube(b: Assignment, names: seq<string>, c: Cube)
    requires NoDigitNames(names) && |names| == |c| && Distinct(names)
    ensures Agrees(b, ToAssignment(names, c).value) <==> InCube(b, names, c)
  {
    var a := ToAssignment(names, c).value;
    AssignDigitsMeaning(names, c, |c|);
    assert Keys(a) == DefinedNames(names, c, |c|);
    if Agrees(b, a) {
      forall i | 0 <= i < |c| && c[i] != DC ensures Truthy(Lookup(b, names[i])) == (c[i] == One) {
        assert names[i] in Keys(a);
        var k :| 0 <= k < |a| && Keys(a)[k] == names[i];
        assert a[k].0 == names[i];
        LookupAt(a, k);
        assert Truthy(Lookup(b, a[k].0)) == Truthy(a[k].1);
      }
    }
    if InCube(b, names, c) {
      forall k | 0 <= k < |a| ensures Truthy(Lookup(b, a[k].0)) == Truthy(a[k].1) {
        assert Keys(a)[k] in DefinedNames(names, c, |c|);
        var p :| 0 <= p < |c| && c[p] != DC && names[p] == a[k].0;
        LookupAt(a, k);
      }
    }
  }

  /** The product term of a cube is true exactly on the assignments in the
      cube. */
  lemma CubeTermMeaning(b: Assignment, names: seq<string>, c: Cube)
    requires NoDigitNames(names) && |names| == |c| && HasDefinedDigit(c) && Distinct(names)
    ensures Evaluate(CubeTerm(names, c), b) <==> InCube(b, names, c)
  {
    var p :| 0 <= p < |c| && c[p] != DC;
    AssignDigitsNonEmpty(names, c, |c|, p);
    ProductTermMeaning(ToAssignment(names, c).value, b);
    AgreesWithCube(b, names, c);
  }

  /** `Formula.formulaFromCubes(variableNames, ...cubes)`: the disjunction
      of the cubes' product terms, `undefined` for no cubes. */
  method FormulaFromCubes(names: seq<string>, cubes: seq<Cube>) returns (r: Result<Option<Formula>, CubesError>)
    requires NoDigitNames(names)
    requires forall k :: 0 <= k < |cubes| ==> HasDefinedDigit(cubes[k])
    ensures r == Err(UnequalLengths) <==> !SameLengths(cubes)
    ensures r == Err(NameCountMismatch) <==> SameLengths(cubes) && cubes != [] && |names| != |cubes[0]|
    ensures r == Ok(None) <==> cubes == []
    ensures r.Ok? && r.value.Some? ==> IsSumOfProducts(r.value.value)
    ensures r.Ok? && r.value.Some? ==>
      SameLengths(cubes) && |names| == |cubes[0]| && r.value.value == OrChain(CubeTerms(names, cubes))
    ensures r.Ok? && r.value.Some? && Distinct(names) ==>
      forall b :: Evaluate(r.value.value, b) <==> exists k :: 0 <= k < |cubes| && InCube(b, names, cubes[k])
  {
    if !SameLengths(cubes) {
      return Err(UnequalLengths);
    }
    if cubes == [] {
      return Ok(None);
    }
    if |names| != |cubes[0]| {
      return Err(NameCountMismatch);
    }
    var productTerms := CubeTerms(names, cubes);
    forall t | t in productTerms ensures IsProduct(t) {
      var k :| 0 <= k < |cubes| && t == productTerms[k];
      var p :| 0 <= p < |cubes[k]| && cubes[k][p] != DC;
      AssignDigitsNonEmpty(names, cubes[k], |cubes[k]|, p);
      ProductTermIsProduct(ToAssignment(names, cubes[k]).value);
    }
    var result := JoinWithOr(productTerms);
    OrChainIsSumOfProducts(productTerms);
    if Distinct(names) {
      forall b ensures Evaluate(result, b) <==> exists k :: 0 <= k < |cubes| && InCube(b, names, cubes[k]) {
        OrChainMeaning(productTerms, b);
        if Evaluate(result, b) {
          var t :| t in productTerms && Evaluate(t, b);
          var k :| 0 <= k < |cubes| && t == productTerms[k];
          CubeTermMeaning(b, names, cubes[k]);
        }
        if exists k :: 0 <= k < |cubes| && InCube(b, names, cubes[k]) {
          var k :| 0 <= k < |cubes| && InCube(b, names, cubes[k]);
          CubeTermMeaning(b, names, cubes[k]);
          assert productTerms[k] in productTerms;
        }
      }
    }
    return Ok(Some(result));
  }
}
