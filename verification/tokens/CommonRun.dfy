/** The longest run of tokens that two texts share. */
module CommonRun {
  type Token = int

  /** The table: how long a run ends at the first i and the first j tokens. */
  function Ending(a: seq<Token>, b: seq<Token>, i: nat, j: nat): (k: nat)
    requires i <= |a| && j <= |b|
    ensures k <= i && k <= j
  {
    if i == 0 || j == 0 || a[i - 1] != b[j - 1] then 0 else Ending(a, b, i - 1, j - 1) + 1
  }

  /** A run of length k in front of positions i and j. */
  predicate RunAt(a: seq<Token>, b: seq<Token>, i: nat, j: nat, k: nat) {
    k <= i <= |a| && k <= j <= |b| && a[i - k..i] == b[j - k..j]
  }

  /** The table says exactly which runs there are. */
  lemma {:induction false} EndingIsLongest(a: seq<Token>, b: seq<Token>, i: nat, j: nat, k: nat)
    requires i <= |a| && j <= |b|
    ensures RunAt(a, b, i, j, k) <==> k <= Ending(a, b, i, j)
  {
    if i == 0 || j == 0 {
    } else if k == 0 {
      assert a[i..i] == b[j..j];
    } else {
      EndingIsLongest(a, b, i - 1, j - 1, k - 1);
      if k <= i && k <= j {
        assert a[i - k..i] == a[i - k..i - 1] + [a[i - 1]];
        assert b[j - k..j] == b[j - k..j - 1] + [b[j - 1]];
        SameEnds(a[i - k..i - 1], a[i - 1], b[j - k..j - 1], b[j - 1]);
      }
    }
  }

  lemma SameEnds(u: seq<Token>, x: Token, v: seq<Token>, y: Token)
    requires |u| == |v|
    ensures u + [x] == v + [y] <==> u == v && x == y
  {
    if u + [x] == v + [y] {
      assert (u + [x])[..|u|] == u && (v + [y])[..|v|] == v;
      assert (u + [x])[|u|] == x && (v + [y])[|v|] == y;
    }
  }

  ghost predicate Shares(a: seq<Token>, b: seq<Token>, k: nat) {
    exists i: nat, j: nat :: RunAt(a, b, i, j, k)
  }

  /** No run that ends before position i of a, or at i and before j of b, is longer than n, and one is that long. */
  ghost predicate LongestSoFar(a: seq<Token>, b: seq<Token>, i: nat, j: nat, n: nat) {
    && i <= |a| + 1 && j <= |b| + 1
    && Shares(a, b, n)
    && (forall i': nat, j': nat :: i' < i && j' <= |b| && i' <= |a| ==> Ending(a, b, i', j') <= n)
    && forall j': nat :: j' < j && i <= |a| ==> Ending(a, b, i, j') <= n
  }

  lemma LongestStep(a: seq<Token>, b: seq<Token>, i: nat, j: nat, n: nat)
    requires i <= |a| && j <= |b| && LongestSoFar(a, b, i, j, n)
    ensures LongestSoFar(a, b, i, j + 1, if Ending(a, b, i, j) > n then Ending(a, b, i, j) else n)
  {
    EndingIsLongest(a, b, i, j, Ending(a, b, i, j));
  }

  lemma RowDone(a: seq<Token>, b: seq<Token>, i: nat, n: nat)
    requires i <= |a| && LongestSoFar(a, b, i, |b| + 1, n)
    ensures LongestSoFar(a, b, i + 1, 0, n)
  {
  }

  lemma LongestIs(a: seq<Token>, b: seq<Token>, n: nat)
    requires LongestSoFar(a, b, |a| + 1, 0, n)
    ensures forall k: nat :: Shares(a, b, k) <==> k <= n
  {
    forall k: nat | Shares(a, b, k) ensures k <= n {
      var i: nat, j: nat :| RunAt(a, b, i, j, k);
      EndingIsLongest(a, b, i, j, k);
    }
    forall k: nat | k <= n ensures Shares(a, b, k) {
      var i: nat, j: nat :| RunAt(a, b, i, j, n);
      EndingIsLongest(a, b, i, j, n);
      EndingIsLongest(a, b, i, j, k);
      assert RunAt(a, b, i, j, k);
    }
  }

  predicate IsRow(row: seq<nat>, a: seq<Token>, b: seq<Token>, i: nat, upTo: nat) {
    i <= |a| && |row| == |b| + 1 && upTo <= |b| + 1 && forall j :: 0 <= j < upTo ==> row[j] == Ending(a, b, i, j)
  }

  /** `common_lcs`: the greatest k such that the texts share a run of k tokens, with two rows of the table. */
  method CommonLcs(a: seq<Token>, b: seq<Token>) returns (maxLength: nat)
    ensures forall k: nat :: Shares(a, b, k) <==> k <= maxLength
  {
    assert RunAt(a, b, 0, 0, 0);
    if a == [] || b == [] {
      return 0;
    }
    maxLength := 0;
    var prevRow := new nat[|b| + 1](_ => 0);
    var currRow := new nat[|b| + 1](_ => 0);
    for i := 1 to |a| + 1
      invariant prevRow != currRow && IsRow(prevRow[..], a, b, i - 1, |b| + 1)
      invariant currRow.Length == |b| + 1 && currRow[0] == 0
      invariant LongestSoFar(a, b, i, 0, maxLength)
    {
      maxLength := FillRow(a, b, i, prevRow, currRow, maxLength);
      forall j | 0 <= j < prevRow.Length {
        prevRow[j] := currRow[j];
      }
      assert prevRow[..] == currRow[..];
    }
    LongestIs(a, b, maxLength);
  }

  lemma RowGrows(row: seq<nat>, a: seq<Token>, b: seq<Token>, i: nat, j: nat, e: nat)
    requires IsRow(row, a, b, i, j) && j <= |b| && e == Ending(a, b, i, j)
    ensures IsRow(row[j := e], a, b, i, j + 1)
  {
  }

  /** The inner loop: one row of the table. */
  method FillRow(a: seq<Token>, b: seq<Token>, i: nat, prevRow: array<nat>, currRow: array<nat>, longest: nat)
    returns (maxLength: nat)
    requires 1 <= i <= |a| && prevRow != currRow && IsRow(prevRow[..], a, b, i - 1, |b| + 1)
    requires currRow.Length == |b| + 1 && currRow[0] == 0 && LongestSoFar(a, b, i, 0, longest)
    modifies currRow
    ensures IsRow(currRow[..], a, b, i, |b| + 1) && LongestSoFar(a, b, i + 1, 0, maxLength)
  {
    maxLength := longest;
    for j := 1 to |b| + 1
      invariant IsRow(currRow[..], a, b, i, j) && IsRow(prevRow[..], a, b, i - 1, |b| + 1)
      invariant LongestSoFar(a, b, i, j, maxLength)
    {
      RowGrows(currRow[..], a, b, i, j, Ending(a, b, i, j));
      if a[i - 1] == b[j - 1] {
        if i == 1 || j == 1 {
          currRow[j] := 1;
        } else {
          assert prevRow[..][j - 1] == Ending(a, b, i - 1, j - 1);
          currRow[j] := prevRow[j - 1] + 1;
        }
        LongestStep(a, b, i, j, maxLength);
        if currRow[j] > maxLength {
          maxLength := currRow[j];
        }
      } else {
        LongestStep(a, b, i, j, maxLength);
        currRow[j] := 0;
      }
    }
    RowDone(a, b, i, maxLength);
  }
}
