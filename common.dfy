/**
 * Shared vocabulary of the engine model: failure-compatible wrappers, the
 * handful of JavaScript values the engine passes around, and assignments,
 * which the engine keeps in plain JavaScript objects (ordered by insertion).
 */
module Common {

  datatype Option<T> = None | Some(value: T)

  datatype Result<T, E> = Ok(value: T) | Err(error: E)

  /** The JavaScript values that reach the engine: booleans of generated
      assignments, the numbers 0/1 that cubes store, `null` and `undefined`. */
  datatype Value = Bool(b: bool) | Num(n: int) | Null | Undefined

  /** JavaScript truthiness, restricted to the values above. */
  predicate Truthy(v: Value) {
    match v
    case Bool(b) => b
    case Num(n) => n != 0
    case Null => false
    case Undefined => false
  }

  /** A plain JavaScript object used as an assignment: its own properties in
      insertion order. Keys are property keys, i.e. strings. */
  type Assignment = seq<(string, Value)>

  function Keys(a: Assignment): seq<string> {
    seq(|a|, i requires 0 <= i < |a| => a[i].0)
  }

  predicate DistinctKeys(a: Assignment) {
    forall i, j :: 0 <= i < j < |a| ==> a[i].0 != a[j].0
  }

  /** `a[k]`: the value stored under key `k`, `undefined` when there is none. */
  function Lookup(a: Assignment, k: string): Value {
    if a == [] then Undefined
    else if a[0].0 == k then a[0].1
    else Lookup(a[1..], k)
  }

  /** In an object each key occurs once, and `a[k]` is the value next to it. */
  lemma {:induction false} LookupAt(a: Assignment, i: nat)
    requires DistinctKeys(a) && i < |a|
    ensures Lookup(a, a[i].0) == a[i].1
  {
    if i > 0 {
      assert a[0].0 != a[i].0;
      LookupAt(a[1..], i - 1);
    }
  }

  lemma {:induction false} LookupAbsent(a: Assignment, k: string)
    requires k !in Keys(a)
    ensures Lookup(a, k) == Undefined
  {
    if a != [] {
      assert a[0].0 == Keys(a)[0];
      assert Keys(a[1..]) == Keys(a)[1..];
      LookupAbsent(a[1..], k);
    }
  }

  /** `a[k] = v` on an object: an existing key keeps its place and takes the
      new value; a new key is appended. */
  function Put(a: Assignment, k: string, v: Value): Assignment {
    if a == [] then [(k, v)]
    else if a[0].0 == k then [(k, v)] + a[1..]
    else [a[0]] + Put(a[1..], k, v)
  }

  /** After `a[k] = v`, reading `k` gives `v` and every other key reads as
      before. */
  lemma {:induction false} PutLookup(a: Assignment, k: string, v: Value, k': string)
    ensures Lookup(Put(a, k, v), k') == if k' == k then v else Lookup(a, k')
  {
    if a != [] && a[0].0 != k {
      PutLookup(a[1..], k, v, k');
    }
  }

  /** The keys after `a[k] = v`: unchanged when `k` was present, `k`
      appended otherwise. */
  lemma {:induction false} PutKeys(a: Assignment, k: string, v: Value)
    ensures Keys(Put(a, k, v)) == if k in Keys(a) then Keys(a) else Keys(a) + [k]
  {
    if a != [] {
      assert Keys(a) == [a[0].0] + Keys(a[1..]);
      if a[0].0 != k {
        PutKeys(a[1..], k, v);
        assert Keys(Put(a, k, v)) == [a[0].0] + Keys(Put(a[1..], k, v));
      } else {
        assert Keys(Put(a, k, v)) == Keys(a);
      }
    }
  }

  /** No entry other than `(k, v)` is new after `a[k] = v`. */
  lemma {:induction false} PutEntries(a: Assignment, k: string, v: Value)
    ensures forall p :: p in Put(a, k, v) ==> p in a || p == (k, v)
  {
    if a != [] && a[0].0 != k {
      PutEntries(a[1..], k, v);
      assert Put(a, k, v) == [a[0]] + Put(a[1..], k, v);
    }
  }

  /** Distinct keys stay distinct after `a[k] = v`. */
  lemma PutDistinct(a: Assignment, k: string, v: Value)
    requires DistinctKeys(a)
    ensures DistinctKeys(Put(a, k, v))
  {
    PutKeys(a, k, v);
    var r := Put(a, k, v);
    forall i, j | 0 <= i < j < |r| ensures r[i].0 != r[j].0 {
      assert r[i].0 == Keys(r)[i] && r[j].0 == Keys(r)[j];
      if j < |a| {
        assert Keys(r)[i] == a[i].0 && Keys(r)[j] == a[j].0;
      } else {
        assert Keys(r)[i] == a[i].0 && Keys(r)[j] == k && k !in Keys(a);
        assert Keys(a)[i] == a[i].0;
      }
    }
  }

  /** The keys after `a[k] = v`, as in `PutKeys`; distinct keys stay
      distinct, and no entry other than `(k, v)` is new. */
  lemma PutShape(a: Assignment, k: string, v: Value)
    ensures Keys(Put(a, k, v)) == if k in Keys(a) then Keys(a) else Keys(a) + [k]
    ensures DistinctKeys(a) ==> DistinctKeys(Put(a, k, v))
    ensures forall p :: p in Put(a, k, v) ==> p in a || p == (k, v)
  {
    PutKeys(a, k, v);
    PutEntries(a, k, v);
    if DistinctKeys(a) {
      PutDistinct(a, k, v);
    }
  }

  /** Writing a key that is not there appends it. */
  lemma {:induction false} PutNewKey(a: Assignment, k: string, v: Value)
    requires k !in Keys(a)
    ensures Put(a, k, v) == a + [(k, v)]
  {
    if a != [] {
      assert a[0].0 == Keys(a)[0];
      assert Keys(a[1..]) == Keys(a)[1..];
      PutNewKey(a[1..], k, v);
    }
  }

  function Pow2(n: nat): (p: nat)
    ensures p >= 1
  {
    if n == 0 then 1 else 2 * Pow2(n - 1)
  }

  /** Bit `j` of `i`, the test `i & (1 << j)` of the source for `j < 31`:
      the lowest bit left after `j` halvings. */
  predicate Bit(i: nat, j: nat) {
    if j == 0 then i % 2 == 1 else Bit(i / 2, j - 1)
  }

  /** The number whose bit `j` is `v[j]`. */
  function Encode(v: seq<bool>): (i: nat)
    ensures i < Pow2(|v|)
  {
    if v == [] then 0 else (if v[0] then 1 else 0) + 2 * Encode(v[1..])
  }

  /** Every pattern of bits is the bit pattern of some number below 2^n:
      counting up to 2^n visits every combination. */
  lemma {:induction false} EncodeBits(v: seq<bool>)
    ensures forall j :: 0 <= j < |v| ==> Bit(Encode(v), j) == v[j]
  {
    if v != [] {
      EncodeBits(v[1..]);
      var i := Encode(v);
      assert i / 2 == Encode(v[1..]);
      forall j | 0 < j < |v| ensures Bit(i, j) == v[j] {
        assert Bit(Encode(v[1..]), j - 1) == v[1..][j - 1];
      }
    }
  }

  /** A name made only of decimal digits. JavaScript lists an object's
      array-index keys (canonical numerals below 2^32 - 1, such as "7" but
      not "007") numerically ahead of all other keys. The model keeps
      insertion order, so it excludes every all-digit name, which covers the
      index keys and some names JavaScript would leave in place. */
  predicate AllDigits(s: string) {
    |s| > 0 && forall i :: 0 <= i < |s| ==> '0' <= s[i] <= '9'
  }
}
