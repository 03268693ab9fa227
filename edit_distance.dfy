/** `levenshteinDistance` of src/data/locationCodes.ts: the unit-cost edit
    distance, filled into a (|b|+1) x (|a|+1) matrix row by row, where
    row i / column j holds the distance between the first j characters of
    `a` and the first i characters of `b`. */
module EditDistance {

  function Min3(x: nat, y: nat, z: nat): (m: nat)
    ensures m <= x && m <= y && m <= z
    ensures m == x || m == y || m == z
  {
    if x <= y && x <= z then x else if y <= z then y else z
  }

  /** The Levenshtein distance, by its recursive definition on the last
      characters: an empty side costs the other side's length; equal last
      characters cost nothing; otherwise one substitution, deletion or
      insertion, whichever leads to the cheapest rest. */
  function Distance(a: string, b: string): nat
    decreases |a| + |b|
  {
    if |a| == 0 then |b|
    else if |b| == 0 then |a|
    else if a[|a| - 1] == b[|b| - 1] then Distance(a[..|a| - 1], b[..|b| - 1])
    else 1 + Min3(Distance(a[..|a| - 1], b[..|b| - 1]),
                  Distance(a[..|a| - 1], b),
                  Distance(a, b[..|b| - 1]))
  }

  /** The dynamic-programming computation, as the source writes it:
      column 0 and row 0 first, then every inner row from the one above. */
  method LevenshteinDistance(a: string, b: string) returns (d: nat)
    ensures d == Distance(a, b)
  {
    var matrix := new nat[|b| + 1, |a| + 1];
    for i := 0 to |b| + 1
      invariant forall r :: 0 <= r < i ==> matrix[r, 0] == r
    {
      matrix[i, 0] := i;
    }
    for j := 0 to |a| + 1
      invariant forall c :: 0 <= c < j ==> matrix[0, c] == c
      invariant forall r :: 1 <= r <= |b| ==> matrix[r, 0] == r
    {
      matrix[0, j] := j;
    }
    forall c | 0 <= c <= |a|
      ensures matrix[0, c] == Distance(a[..c], b[..0])
    {
    }
    for i := 1 to |b| + 1
      invariant forall c :: 0 <= c <= |a| ==> matrix[i - 1, c] == Distance(a[..c], b[..i - 1])
      invariant forall r :: i <= r <= |b| ==> matrix[r, 0] == r
    {
      FillRow(matrix, a, b, i);
    }
    d := matrix[|b|, |a|];
    assert a[..|a|] == a && b[..|b|] == b;
  }

  /** The inner loop: row i, column by column, from row i - 1 and the
      cell to the left. Only row i changes. */
  method FillRow(matrix: array2<nat>, a: string, b: string, i: nat)
    requires matrix.Length0 == |b| + 1 && matrix.Length1 == |a| + 1
    requires 1 <= i <= |b|
    requires forall c :: 0 <= c <= |a| ==> matrix[i - 1, c] == Distance(a[..c], b[..i - 1])
    requires matrix[i, 0] == i
    modifies matrix
    ensures forall c :: 0 <= c <= |a| ==> matrix[i, c] == Distance(a[..c], b[..i])
    ensures forall r, c :: 0 <= r <= |b| && r != i && 0 <= c <= |a| ==> matrix[r, c] == old(matrix[r, c])
  {
    assert matrix[i, 0] == Distance(a[..0], b[..i]);
    for j := 1 to |a| + 1
      invariant forall c :: 0 <= c < j ==> matrix[i, c] == Distance(a[..c], b[..i])
      invariant forall r, c :: 0 <= r <= |b| && r != i && 0 <= c <= |a| ==> matrix[r, c] == old(matrix[r, c])
    {
      CellRecurrence(a, b, i, j);
      if b[i - 1] == a[j - 1] {
        matrix[i, j] := matrix[i - 1, j - 1];
      } else {
        matrix[i, j] := Min3(matrix[i - 1, j - 1] + 1, matrix[i, j - 1] + 1, matrix[i - 1, j] + 1);
      }
    }
  }

  /** The recurrence the inner loop applies at cell (i, j). */
  lemma CellRecurrence(a: string, b: string, i: nat, j: nat)
    requires 1 <= i <= |b| && 1 <= j <= |a|
    ensures Distance(a[..j], b[..i]) ==
      if b[i - 1] == a[j - 1] then Distance(a[..j - 1], b[..i - 1])
      else Min3(Distance(a[..j - 1], b[..i - 1]) + 1, Distance(a[..j - 1], b[..i]) + 1, Distance(a[..j], b[..i - 1]) + 1)
  {
    assert a[..j][..j - 1] == a[..j - 1] && b[..i][..i - 1] == b[..i - 1];
  }

  /** A string is at distance 0 from itself. */
  lemma {:induction false} DistanceToSelf(s: string)
    ensures Distance(s, s) == 0
    decreases |s|
  {
    if |s| > 0 {
      DistanceToSelf(s[..|s| - 1]);
    }
  }

  /** Against the empty string the distance is the other string's length,
      on either side. */
  lemma DistanceToEmpty(s: string)
    ensures Distance(s, "") == |s| && Distance("", s) == |s|
  {
  }

  /** The distance does not depend on the order of its arguments. */
  lemma {:induction false} DistanceSymmetric(a: string, b: string)
    ensures Distance(a, b) == Distance(b, a)
    decreases |a| + |b|
  {
    if |a| > 0 && |b| > 0 {
      var a', b' := a[..|a| - 1], b[..|b| - 1];
      DistanceSymmetric(a', b');
      if a[|a| - 1] != b[|b| - 1] {
        DistanceSymmetric(a', b);
        DistanceSymmetric(a, b');
      }
    }
  }

  /** The distance never exceeds the longer string's length. */
  lemma {:induction false} DistanceAtMostLonger(a: string, b: string)
    ensures Distance(a, b) <= if |a| >= |b| then |a| else |b|
    decreases |a| + |b|
  {
    if |a| > 0 && |b| > 0 {
      DistanceAtMostLonger(a[..|a| - 1], b[..|b| - 1]);
    }
  }

  /** The distance is at least the difference of the lengths. */
  lemma {:induction false} DistanceAtLeastLengthGap(a: string, b: string)
    ensures Distance(a, b) >= if |a| >= |b| then |a| - |b| else |b| - |a|
    decreases |a| + |b|
  {
    if |a| > 0 && |b| > 0 {
      var a', b' := a[..|a| - 1], b[..|b| - 1];
      DistanceAtLeastLengthGap(a', b');
      if a[|a| - 1] != b[|b| - 1] {
        DistanceAtLeastLengthGap(a', b);
        DistanceAtLeastLengthGap(a, b');
      }
    }
  }

  /** Distance 0 means the strings are equal, and only then. */
  lemma {:induction false} DistanceZeroIffEqual(a: string, b: string)
    ensures Distance(a, b) == 0 <==> a == b
    decreases |a| + |b|
  {
    if a == b {
      DistanceToSelf(a);
    } else if |a| > 0 && |b| > 0 {
      var a', b' := a[..|a| - 1], b[..|b| - 1];
      if a[|a| - 1] == b[|b| - 1] {
        DistanceZeroIffEqual(a', b');
        assert a == a' + [a[|a| - 1]] && b == b' + [b[|b| - 1]];
      }
    }
  }
}
