/** Facts about sequences that several of the subsystems rely on. */
module Common {

  datatype Option<+T> = None | Some(value: T)

  /** No element occurs twice. */
  ghost predicate Distinct<T>(s: seq<T>) {
    forall i, j :: 0 <= i < j < |s| ==> s[i] != s[j]
  }

  /** Every element is a number in 0..n. */
  ghost predicate Below(s: seq<int>, n: nat) {
    forall i :: 0 <= i < |s| ==> 0 <= s[i] < n
  }

  /** A sequence without repetitions is no longer than a set holding all its elements. */
  lemma {:induction false} PigeonholeSet<T>(s: seq<T>, t: set<T>)
    requires Distinct(s)
    requires forall i :: 0 <= i < |s| ==> s[i] in t
    ensures |s| <= |t|
    decreases |s|
  {
    if s != [] {
      var last := s[|s| - 1];
      PigeonholeSet(s[..|s| - 1], t - {last});
    }
  }

  /** The numbers 0..n. */
  ghost function Interval(n: nat): (t: set<int>)
    ensures |t| == n
    ensures forall x :: x in t <==> 0 <= x < n
  {
    if n == 0 then {} else Interval(n - 1) + {n - 1}
  }

  /** The pigeonhole principle: at most n different numbers lie in 0..n. */
  lemma Pigeonhole(s: seq<int>, n: nat)
    requires Distinct(s) && Below(s, n)
    ensures |s| <= n
  {
    PigeonholeSet(s, Interval(n));
  }

  /** ... and if one of the n numbers is missing from it, the sequence is shorter than n. */
  lemma PigeonholeMissing(s: seq<int>, n: nat, x: int)
    requires Distinct(s) && Below(s, n)
    requires 0 <= x < n && x !in s
    ensures |s| < n
  {
    Pigeonhole(s + [x], n);
  }

  /** The only multiple of b that is closer to zero than b. */
  lemma SmallMultiple(k: int, b: int)
    requires -b < k * b < b
    ensures k == 0
  {
  }

  /** The ring arithmetic of the source: a % n. */
  method Modulo(a: int, n: int) returns (r: int)
    requires 0 <= a < 2 * n
    ensures r == if a < n then a else a - n
  {
    r := a % n;
    assert a >= n ==> a == n * 1 + (a - n);
  }

  ghost function Elements(c: seq<int>): set<int> {
    set b | b in c
  }

  lemma {:induction false} DistinctCount(c: seq<int>)
    requires Distinct(c)
    ensures |Elements(c)| == |c|
  {
    if c == [] {
      assert Elements(c) == {};
    } else {
      var d := c[..|c| - 1];
      DistinctCount(d);
      assert Elements(c) == Elements(d) + {c[|c| - 1]};
    }
  }

  /** The entries of a queue row that are not crossed out with a negative number. */
  function Packed(row: seq<int>): (r: seq<int>)
    ensures |r| <= |row|
  {
    if row == [] then []
    else Packed(row[..|row| - 1]) + (if row[|row| - 1] >= 0 then [row[|row| - 1]] else [])
  }

  lemma PackedSnoc(row: seq<int>, x: int)
    ensures Packed(row + [x]) == Packed(row) + (if x >= 0 then [x] else [])
  {
  }
}
