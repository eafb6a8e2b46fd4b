/**
 Rows of equal length laid end to end, and the index arithmetic that finds them again.
 */
module Rows {
  import opened Bytes

  /** `n * len`, as a sum: proofs about rows then need no nonlinear arithmetic. */
  function Times(n: nat, len: nat): nat {
    if n == 0 then 0 else Times(n - 1, len) + len
  }

  lemma {:induction false} TimesIsProduct(n: nat, len: nat)
    ensures Times(n, len) == n * len
  {
    if n > 0 {
      TimesIsProduct(n - 1, len);
    }
  }

  lemma {:induction false} TimesLess(i: nat, n: nat, len: nat)
    requires i < n
    ensures Times(i, len) + len <= Times(n, len)
    decreases n
  {
    if i + 1 < n {
      TimesLess(i, n - 1, len);
    }
  }

  lemma {:induction false} TimesFour(n: nat, len: nat)
    ensures Times(n, 4 * len) == 4 * Times(n, len)
  {
    if n > 0 {
      TimesFour(n - 1, len);
    }
  }

  lemma {:induction false} TimesSum(m: nat, n: nat, len: nat)
    ensures Times(m + n, len) == Times(m, len) + Times(n, len)
    decreases n
  {
    if n > 0 {
      TimesSum(m, n - 1, len);
    }
  }

  function Concat(rows: seq<seq<byte>>): seq<byte> {
    if rows == [] then [] else Concat(rows[..|rows| - 1]) + rows[|rows| - 1]
  }

  predicate Uniform(rows: seq<seq<byte>>, len: nat) {
    forall i :: 0 <= i < |rows| ==> |rows[i]| == len
  }

  lemma {:induction false} ConcatLength(rows: seq<seq<byte>>, len: nat)
    requires Uniform(rows, len)
    ensures |Concat(rows)| == Times(|rows|, len)
    decreases rows
  {
    if rows != [] {
      ConcatLength(rows[..|rows| - 1], len);
    }
  }

  lemma {:induction false} ConcatFirst(rows: seq<seq<byte>>)
    requires rows != []
    ensures Concat(rows) == rows[0] + Concat(rows[1..])
    decreases rows
  {
    if |rows| > 1 {
      ConcatFirst(rows[..|rows| - 1]);
      assert rows[..|rows| - 1][1..] == rows[1..][..|rows| - 2];
    }
  }

  /** `s` holds `row` from index `at` on. */
  predicate IsCut(s: seq<byte>, at: nat, row: seq<byte>) {
    at + |row| <= |s| && forall k {:trigger row[k]} :: 0 <= k < |row| ==> s[at + k] == row[k]
  }

  /** Row `i` is found at index `i * len`. */
  lemma {:induction false} RowAt(rows: seq<seq<byte>>, len: nat, i: nat)
    requires Uniform(rows, len) && i < |rows|
    ensures IsCut(Concat(rows), Times(i, len), rows[i])
    decreases rows
  {
    var n := |rows| - 1;
    ConcatLength(rows[..n], len);
    if i < n {
      RowAt(rows[..n], len, i);
    }
  }

  lemma CutInside(before: seq<byte>, area: seq<byte>, trail: seq<byte>, at: nat, row: seq<byte>, d: nat)
    requires IsCut(area, at, row) && d == |before| + at
    ensures IsCut(before + area + trail, d, row)
  {
  }

  lemma CutOfCut(whole: seq<byte>, at: nat, row: seq<byte>, i: nat, p: seq<byte>, d: nat)
    requires IsCut(whole, at, row) && IsCut(row, i, p) && d == at + i
    ensures IsCut(whole, d, p)
  {
    forall k | 0 <= k < |p| ensures whole[d + k] == p[k] {
      assert row[i + k] == p[k];
    }
  }

  lemma CutOfConcat(s: seq<byte>, at: nat, whole: seq<byte>, a: seq<byte>, b: seq<byte>, mid: nat)
    requires IsCut(s, at, whole) && whole == a + b && mid == at + |a|
    ensures IsCut(s, at, a) && IsCut(s, mid, b)
  {
    forall k | 0 <= k < |a| ensures s[at + k] == a[k] {
      assert whole[k] == a[k];
    }
    forall k | 0 <= k < |b| ensures s[mid + k] == b[k] {
      assert whole[|a| + k] == b[k];
    }
  }

  lemma CutsJoin(s: seq<byte>, at: nat, a: seq<byte>, b: seq<byte>, mid: nat)
    requires IsCut(s, at, a) && IsCut(s, mid, b) && mid == at + |a|
    ensures IsCut(s, at, a + b)
  {
    forall k | 0 <= k < |a + b| ensures s[at + k] == (a + b)[k] {
      if k >= |a| {
        assert b[k - |a|] == s[mid + (k - |a|)];
      }
    }
  }

  lemma CutLast(s: seq<byte>, at: nat, row: seq<byte>)
    requires IsCut(s, at, row) && at + |row| == |s|
    ensures s[..at] + row == s
  {
  }

  ghost predicate AreCuts(s: seq<byte>, rows: seq<seq<byte>>, len: nat) {
    forall i {:trigger rows[i]} :: 0 <= i < |rows| ==> IsCut(s, Times(i, len), rows[i])
  }

  lemma PrefixCuts(s: seq<byte>, rows: seq<seq<byte>>, len: nat, n: nat)
    requires Uniform(rows, len) && AreCuts(s, rows, len) && n <= |rows| && Times(n, len) <= |s|
    ensures AreCuts(s[..Times(n, len)], rows[..n], len)
  {
    forall i | 0 <= i < n ensures IsCut(s[..Times(n, len)], Times(i, len), rows[..n][i]) {
      TimesLess(i, n, len);
      assert IsCut(s, Times(i, len), rows[i]);
    }
  }

  /** A sequence cut into rows and laid end to end is the sequence again. */
  lemma {:induction false} CutAndConcat(s: seq<byte>, rows: seq<seq<byte>>, len: nat)
    requires Uniform(rows, len) && AreCuts(s, rows, len) && |s| == Times(|rows|, len)
    ensures Concat(rows) == s
    decreases rows
  {
    if rows != [] {
      var n := |rows| - 1;
      PrefixCuts(s, rows, len, n);
      CutAndConcat(s[..Times(n, len)], rows[..n], len);
      CutLast(s, Times(n, len), rows[n]);
    }
  }

  /** `part` written over `whole` at index `at`. */
  function Splice(whole: seq<byte>, at: nat, part: seq<byte>): seq<byte>
    requires at + |part| <= |whole|
  {
    whole[..at] + part + whole[at + |part|..]
  }

  lemma SpliceTwice(whole: seq<byte>, at: nat, part: seq<byte>, more: seq<byte>, mid: nat)
    requires at + |part| + |more| <= |whole| && mid == at + |part|
    ensures Splice(Splice(whole, at, part), mid, more) == Splice(whole, at, part + more)
  {
  }

  lemma SpliceInFront(front: seq<byte>, back: seq<byte>, at: nat, part: seq<byte>)
    requires at + |part| <= |front|
    ensures Splice(front + back, at, part) == Splice(front, at, part) + back
  {
  }

  /** Writing a row at its index replaces that row. */
  lemma {:induction false} SpliceRow(rows: seq<seq<byte>>, len: nat, i: nat, row: seq<byte>)
    requires Uniform(rows, len) && i < |rows| && |row| == len
    ensures Times(i, len) + len <= |Concat(rows)|
    ensures Splice(Concat(rows), Times(i, len), row) == Concat(rows[i := row])
    decreases rows
  {
    var n := |rows| - 1;
    ConcatLength(rows, len);
    ConcatLength(rows[..n], len);
    TimesLess(i, |rows|, len);
    var updated := rows[i := row];
    if i < n {
      TimesLess(i, n, len);
      SpliceRow(rows[..n], len, i, row);
      SpliceInFront(Concat(rows[..n]), rows[n], Times(i, len), row);
      assert updated[..n] == rows[..n][i := row];
    } else {
      assert updated[..n] == rows[..n];
    }
  }
}
