/**
 * Numeric and tabular vocabulary shared by the model: the pandas table a
 * record is read into, Python's int() on a float, NumPy's element-wise
 * absolute value, and ordering predicates over index sequences.
 */
module Common {

  /** A data frame: column name to column values. */
  type Table = map<string, seq<real>>

  /** Python's `int(x)` on a float: truncation toward zero. */
  function Trunc(x: real): (n: int)
    ensures 0.0 <= x ==> n as real <= x < n as real + 1.0
    ensures x < 0.0 ==> n as real - 1.0 < x <= n as real
  {
    if x >= 0.0 then x.Floor else -((-x).Floor)
  }

  /** `np.abs` on a series. */
  function AbsAll(s: seq<real>): (r: seq<real>)
    ensures |r| == |s|
    ensures forall i :: 0 <= i < |s| ==> 0.0 <= r[i] && (r[i] == s[i] || r[i] == -s[i])
  {
    seq(|s|, i requires 0 <= i < |s| => if s[i] < 0.0 then -s[i] else s[i])
  }

  /** Any two entries of `s`, in order, are at least `g` apart (for g >= 1: strictly ascending). */
  predicate Spaced(s: seq<int>, g: int) {
    forall i, j :: 0 <= i < j < |s| ==> s[i] + g <= s[j]
  }

  /** Strictly ascending. */
  predicate Ascending(s: seq<int>) {
    Spaced(s, 1)
  }

  /** Ascending, duplicates allowed. */
  predicate NonDecreasing(s: seq<int>) {
    Spaced(s, 0)
  }

  /** Every entry of `s` lies in the closed range [lo, hi]. */
  predicate Within(s: seq<int>, lo: int, hi: int) {
    forall i :: 0 <= i < |s| ==> lo <= s[i] <= hi
  }

  /** Prepending an entry at least `g` below every entry keeps a sequence spaced. */
  lemma SpacedCons(h: int, rest: seq<int>, g: int)
    requires Spaced(rest, g)
    requires forall p :: p in rest ==> h + g <= p
    ensures Spaced([h] + rest, g)
  {
    var s := [h] + rest;
    forall i, j | 0 <= i < j < |s| ensures s[i] + g <= s[j] {
      if i == 0 { assert s[j] == rest[j - 1] && rest[j - 1] in rest; }
    }
  }

  /** In a spaced sequence, every later entry is at least `g` above the first. */
  lemma SpacedHead(c: seq<int>, g: int)
    requires |c| > 0 && Spaced(c, g)
    ensures forall p :: p in c[1..] ==> c[0] + g <= p
    ensures Spaced(c[1..], g)
  {
    forall p | p in c[1..] ensures c[0] + g <= p {
      var k :| 0 <= k < |c[1..]| && c[1..][k] == p;
      assert c[k + 1] == p;
    }
  }
}
