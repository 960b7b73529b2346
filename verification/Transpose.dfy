/** The blocked matrix transpose: A has N rows and M columns, B has M rows and N columns.

    Every kernel works on one block of B whose upper left corner is row mm, column nn, and is
    proved on its own: what the block holds afterwards, and that nothing else changed.
 */
module Transpose {
  import opened Numbers

  /** B holds the transpose of A in rows r0..r1, columns c0..c1 of B. */
  ghost predicate Done(A: array2<int>, B: array2<int>, r0: int, r1: int, c0: int, c1: int)
    requires A.Length0 == B.Length1 && A.Length1 == B.Length0
    requires 0 <= r0 && r1 <= B.Length0 && 0 <= c0 && c1 <= B.Length1
    reads A, B
  {
    forall i, j :: r0 <= i < r1 && c0 <= j < c1 ==> B[i, j] == A[j, i]
  }

  ghost predicate IsTransposed(A: array2<int>, B: array2<int>)
    requires A.Length0 == B.Length1 && A.Length1 == B.Length0
    reads A, B
  {
    Done(A, B, 0, B.Length0, 0, B.Length1)
  }

  /** Outside rows r0..r1, columns c0..c1, B is as before. */
  twostate predicate OnlyIn(B: array2<int>, r0: int, r1: int, c0: int, c1: int)
    reads B
  {
    forall i, j :: 0 <= i < B.Length0 && 0 <= j < B.Length1 && !(r0 <= i < r1 && c0 <= j < c1) ==>
      B[i, j] == old(B[i, j])
  }

  /** The block at (mm, nn) of B, and its mirror image in A, exist. */
  ghost predicate Fits(A: array2<int>, B: array2<int>, mm: int, nn: int) {
    && A != B && A.Length0 == B.Length1 && A.Length1 == B.Length0
    && 0 <= mm && mm + 8 <= B.Length0 && 0 <= nn && nn + 8 <= B.Length1
  }

  /** One row of A's block, the diagonal element held back until the row is read. */
  method CopyRow32(A: array2<int>, B: array2<int>, mm: int, nn: int, n: int)
    requires Fits(A, B, mm, nn) && 0 <= n < 8 && (nn == mm || nn + 8 <= mm || mm + 8 <= nn)
    modifies B
    ensures Done(A, B, mm, mm + 8, nn + n, nn + n + 1)
    ensures OnlyIn(B, mm, mm + 8, nn + n, nn + n + 1)
  {
    var t0, t1 := 0, 0;
    var m := 0;
    while m < 8
      invariant 0 <= m <= 8
      invariant forall i, j :: mm <= i < mm + m && nn + n <= j < nn + n + 1 && i != j ==> B[i, j] == A[j, i]
      invariant nn == mm && m > n ==> t0 == nn + n && t1 == A[t0, t0]
      invariant OnlyIn(B, mm, mm + 8, nn + n, nn + n + 1)
    {
      if nn + n != mm + m {
        B[mm + m, nn + n] := A[nn + n, mm + m];
      } else {
        t0 := nn + n;
        t1 := A[t0, t0];
      }
      m := m + 1;
    }
    if nn == mm {
      B[t0, t0] := t1;
    }
  }

  /** An 8x8 block when A has 32 rows. */
  method Block32(A: array2<int>, B: array2<int>, mm: int, nn: int)
    requires Fits(A, B, mm, nn) && (nn == mm || nn + 8 <= mm || mm + 8 <= nn)
    modifies B
    ensures Done(A, B, mm, mm + 8, nn, nn + 8)
    ensures OnlyIn(B, mm, mm + 8, nn, nn + 8)
  {
    var n := 0;
    while n < 8
      invariant 0 <= n <= 8
      invariant Done(A, B, mm, mm + 8, nn, nn + n)
      invariant OnlyIn(B, mm, mm + 8, nn, nn + 8)
    {
      CopyRow32(A, B, mm, nn, n);
      n := n + 1;
    }
  }

  // ---------------------------------------------------------------- A has 64 rows

  /** Rows r0..r1 of B's block hold A's block shifted by (dr, dc), not transposed. */
  ghost predicate Copied(A: array2<int>, B: array2<int>, r0: int, r1: int, c0: int, c1: int, dr: int, dc: int)
    requires 0 <= r0 && r1 <= B.Length0 && 0 <= c0 && c1 <= B.Length1
    requires 0 <= r0 + dr && r1 + dr <= A.Length0 && 0 <= c0 + dc && c1 + dc <= A.Length1
    reads A, B
  {
    forall i, j :: r0 <= i < r1 && c0 <= j < c1 ==> B[i, j] == A[i + dr, j + dc]
  }

  /** Copies `rows` rows of A's block unchanged into B, `shift` columns right of the block. */
  method CopyRows(A: array2<int>, B: array2<int>, mm: int, nn: int, rows: int, shift: int)
    requires Fits(A, B, mm, nn) && 0 <= rows <= 8 && 0 <= shift && nn + shift + 8 <= B.Length1
    modifies B
    ensures Copied(A, B, mm, mm + rows, nn + shift, nn + shift + 8, nn - mm, mm - nn - shift)
    ensures OnlyIn(B, mm, mm + rows, nn + shift, nn + shift + 8)
  {
    var n := 0;
    while n < rows
      invariant 0 <= n <= rows
      invariant Copied(A, B, mm, mm + n, nn + shift, nn + shift + 8, nn - mm, mm - nn - shift)
      invariant OnlyIn(B, mm, mm + rows, nn + shift, nn + shift + 8)
    {
      var m := 0;
      while m < 8
        invariant 0 <= m <= 8
        invariant Copied(A, B, mm, mm + n, nn + shift, nn + shift + 8, nn - mm, mm - nn - shift)
        invariant Copied(A, B, mm + n, mm + n + 1, nn + shift, nn + shift + m, nn - mm, mm - nn - shift)
        invariant OnlyIn(B, mm, mm + rows, nn + shift, nn + shift + 8)
      {
        B[mm + n, nn + shift + m] := A[nn + n, mm + m];
        m := m + 1;
      }
      n := n + 1;
    }
  }

  /** Left edge of the 4x4 quadrant, of the two that start at column nn, that holds column j. */
  function Edge(nn: int, j: int): int {
    if j < nn + 4 then nn else nn + 4
  }

  /** Whether row n and column n of a quadrant have been exchanged at (k, l), from the diagonal up to m. */
  predicate Exchanged(k: int, l: int, n: int, m: int) {
    (k == n && n < l < m) || (l == n && n < k < m)
  }

  /** In the two upper quadrants exactly the cells of row and column n before m are exchanged. */
  twostate predicate RowTurned(B: array2<int>, mm: int, nn: int, n: int, m: int)
    requires 0 <= mm && mm + 8 <= B.Length0 && 0 <= nn && nn + 8 <= B.Length1
    reads B
  {
    forall i, j {:trigger B[i, j]} :: mm <= i < mm + 4 && nn <= j < nn + 8 ==>
      var c := Edge(nn, j);
      B[i, j] == if Exchanged(i - mm, j - c, n, m) then old(B[mm + (j - c), c + (i - mm)]) else old(B[i, j])
  }

  /** In the 4x4 quadrant with corner (r, c) exactly row n and column n are exchanged from the diagonal on. */
  twostate predicate RowExchanged(B: array2<int>, r: int, c: int, n: int)
    requires 0 <= r && r + 4 <= B.Length0 && 0 <= c && c + 4 <= B.Length1
    reads B
  {
    forall i, j {:trigger B[i, j]} :: r <= i < r + 4 && c <= j < c + 4 ==>
      B[i, j] == if Exchanged(i - r, j - c, n, 4) then old(B[r + (j - c), c + (i - r)]) else old(B[i, j])
  }

  /** The quadrant is transposed where the row or the column is below n. */
  twostate predicate Turned(B: array2<int>, r: int, c: int, n: int)
    requires 0 <= r && r + 4 <= B.Length0 && 0 <= c && c + 4 <= B.Length1
    reads B
  {
    forall i, j {:trigger B[i, j]} :: r <= i < r + 4 && c <= j < c + 4 ==>
      B[i, j] == if i < r + n || j < c + n then old(B[r + (j - c), c + (i - r)]) else old(B[i, j])
  }

  /** One pass of the inner loop: in both quadrants two cells that mirror each other are exchanged. */
  method SwapPair(B: array2<int>, mm: int, nn: int, n: int, m: int)
    requires 0 <= mm && mm + 8 <= B.Length0 && 0 <= nn && nn + 8 <= B.Length1 && 0 <= n < m < 4
    modifies B
    ensures forall i, j {:trigger B[i, j]} :: mm <= i < mm + 4 && nn <= j < nn + 8 ==>
              var c := Edge(nn, j);
              B[i, j] == if (i == mm + n && j == c + m) || (i == mm + m && j == c + n)
                         then old(B[mm + (j - c), c + (i - mm)]) else old(B[i, j])
    ensures OnlyIn(B, mm, mm + 4, nn, nn + 8)
  {
    var t0 := B[mm + n, nn + m];
    B[mm + n, nn + m] := B[mm + m, nn + n];
    B[mm + m, nn + n] := t0;

    t0 := B[mm + n, nn + 4 + m];
    B[mm + n, nn + 4 + m] := B[mm + m, nn + 4 + n];
    B[mm + m, nn + 4 + n] := t0;
  }

  /** The inner loop: row n of quadrants b1 and b2 is exchanged with column n. */
  method TurnRow(B: array2<int>, mm: int, nn: int, n: int)
    requires 0 <= mm && mm + 8 <= B.Length0 && 0 <= nn && nn + 8 <= B.Length1 && 0 <= n < 4
    modifies B
    ensures RowTurned(B, mm, nn, n, 4)
    ensures OnlyIn(B, mm, mm + 4, nn, nn + 8)
  {
    var m := n + 1;
    while m < 4
      invariant n < m <= 4
      invariant RowTurned(B, mm, nn, n, m)
      invariant OnlyIn(B, mm, mm + 4, nn, nn + 8)
    {
      SwapPair(B, mm, nn, n, m);
      m := m + 1;
    }
  }

  /** The same, said of each quadrant by itself. */
  method TransposeRow(B: array2<int>, mm: int, nn: int, n: int)
    requires 0 <= mm && mm + 8 <= B.Length0 && 0 <= nn && nn + 8 <= B.Length1 && 0 <= n < 4
    modifies B
    ensures RowExchanged(B, mm, nn, n) && RowExchanged(B, mm, nn + 4, n)
    ensures OnlyIn(B, mm, mm + 4, nn, nn + 8)
  {
    TurnRow(B, mm, nn, n);
  }

  /** Quadrants b1 and b2 are transposed within B. */
  method TransposeUpper(B: array2<int>, mm: int, nn: int)
    requires 0 <= mm && mm + 8 <= B.Length0 && 0 <= nn && nn + 8 <= B.Length1
    modifies B
    ensures Turned(B, mm, nn, 4) && Turned(B, mm, nn + 4, 4)
    ensures OnlyIn(B, mm, mm + 4, nn, nn + 8)
  {
    var n := 0;
    while n < 4
      invariant 0 <= n <= 4
      invariant Turned(B, mm, nn, n) && Turned(B, mm, nn + 4, n)
      invariant OnlyIn(B, mm, mm + 4, nn, nn + 8)
    {
      TransposeRow(B, mm, nn, n);
      n := n + 1;
    }
  }

  /** Outside the first m rows of quadrants b2 and b3, B is as before. */
  twostate predicate OnlyInB2B3(B: array2<int>, mm: int, nn: int, m: int)
    reads B
  {
    forall i, j | 0 <= i < B.Length0 && 0 <= j < B.Length1 ::
      || (mm <= i < mm + m && nn + 4 <= j < nn + 8)
      || (mm + 4 <= i < mm + 4 + m && nn <= j < nn + 4)
      || B[i, j] == old(B[i, j])
  }

  /** Row m of b2 moves to b3 while column m of a3 takes its place. */
  method SwapRow(A: array2<int>, B: array2<int>, mm: int, nn: int, m: int)
    requires Fits(A, B, mm, nn) && 0 <= m < 4
    modifies B
    ensures Done(A, B, mm + m, mm + m + 1, nn + 4, nn + 8)
    ensures forall i, j :: mm + 4 + m <= i < mm + 5 + m && nn <= j < nn + 4 ==> B[i, j] == old(B[i - 4, j + 4])
    ensures forall i, j | 0 <= i < B.Length0 && 0 <= j < B.Length1 ::
              (i == mm + m && nn + 4 <= j < nn + 8) || (i == mm + 4 + m && nn <= j < nn + 4) || B[i, j] == old(B[i, j])
  {
    var t0 := A[nn + 4, mm + m];
    var t1 := A[nn + 5, mm + m];
    var t2 := A[nn + 6, mm + m];
    var t3 := A[nn + 7, mm + m];

    var t4 := B[mm + m, nn + 4];
    var t5 := B[mm + m, nn + 5];
    var t6 := B[mm + m, nn + 6];
    var t7 := B[mm + m, nn + 7];

    B[mm + m, nn + 4] := t0;
    B[mm + m, nn + 5] := t1;
    B[mm + m, nn + 6] := t2;
    B[mm + m, nn + 7] := t3;

    B[mm + 4 + m, nn + 0] := t4;
    B[mm + 4 + m, nn + 1] := t5;
    B[mm + 4 + m, nn + 2] := t6;
    B[mm + 4 + m, nn + 3] := t7;
  }

  /** Row by row, a3 goes to b2 transposed while b2 moves down to b3. */
  method SwapIn(A: array2<int>, B: array2<int>, mm: int, nn: int)
    requires Fits(A, B, mm, nn)
    modifies B
    ensures Done(A, B, mm, mm + 4, nn + 4, nn + 8)
    ensures forall i, j :: mm + 4 <= i < mm + 8 && nn <= j < nn + 4 ==> B[i, j] == old(B[i - 4, j + 4])
    ensures OnlyInB2B3(B, mm, nn, 4)
  {
    var m := 0;
    while m < 4
      invariant 0 <= m <= 4
      invariant Done(A, B, mm, mm + m, nn + 4, nn + 8)
      invariant forall i, j :: mm + 4 <= i < mm + 4 + m && nn <= j < nn + 4 ==> B[i, j] == old(B[i - 4, j + 4])
      invariant OnlyInB2B3(B, mm, nn, m)
    {
      SwapRow(A, B, mm, nn, m);
      m := m + 1;
    }
  }

  /** a4 to b4, transposed. */
  method CopyLast(A: array2<int>, B: array2<int>, mm: int, nn: int)
    requires Fits(A, B, mm, nn)
    modifies B
    ensures Done(A, B, mm + 4, mm + 8, nn + 4, nn + 8)
    ensures OnlyIn(B, mm + 4, mm + 8, nn + 4, nn + 8)
  {
    var n := 4;
    while n < 8
      invariant 4 <= n <= 8
      invariant Done(A, B, mm + 4, mm + 8, nn + 4, nn + n)
      invariant OnlyIn(B, mm + 4, mm + 8, nn + 4, nn + 8)
    {
      var m := 4;
      while m < 8
        invariant 4 <= m <= 8
        invariant Done(A, B, mm + 4, mm + 8, nn + 4, nn + n) && Done(A, B, mm + 4, mm + m, nn + n, nn + n + 1)
        invariant OnlyIn(B, mm + 4, mm + 8, nn + 4, nn + 8)
      {
        B[mm + m, nn + n] := A[nn + n, mm + m];
        m := m + 1;
      }
      n := n + 1;
    }
  }

  /** A block off the diagonal when A has 64 rows. */
  method Block64(A: array2<int>, B: array2<int>, mm: int, nn: int)
    requires Fits(A, B, mm, nn)
    modifies B
    ensures Done(A, B, mm, mm + 8, nn, nn + 8)
    ensures OnlyIn(B, mm, mm + 8, nn, nn + 8)
  {
    CopyRows(A, B, mm, nn, 4, 0);
    TransposeUpper(B, mm, nn);
    assert Done(A, B, mm, mm + 4, nn, nn + 4);
    assert forall i, j :: mm <= i < mm + 4 && nn + 4 <= j < nn + 8 ==> B[i, j] == A[j - 4, i + 4];
    SwapIn(A, B, mm, nn);
    assert Done(A, B, mm + 4, mm + 8, nn, nn + 4);
    CopyLast(A, B, mm, nn);
  }

  /** Transposes rows lo..hi of a block that was copied 8 columns to the right; the first loop of
      the source counts m down, the second counts it up. */
  method FromScratch(A: array2<int>, B: array2<int>, nn: int, lo: int, hi: int, down: bool)
    requires Fits(A, B, nn, nn) && nn + 16 <= B.Length1 && 0 <= lo <= hi <= 8
    requires Copied(A, B, nn, nn + 8, nn + 8, nn + 16, 0, -8)
    modifies B
    ensures Done(A, B, nn, nn + 8, nn + lo, nn + hi)
    ensures OnlyIn(B, nn, nn + 8, nn + lo, nn + hi)
  {
    var k := 0;
    while k < 8
      invariant 0 <= k <= 8
      invariant Done(A, B, if down then nn + 8 - k else nn, if down then nn + 8 else nn + k, nn + lo, nn + hi)
      invariant OnlyIn(B, nn, nn + 8, nn + lo, nn + hi)
    {
      var m := if down then 7 - k else k;
      var n := lo;
      while n < hi
        invariant lo <= n <= hi
        invariant Done(A, B, if down then nn + 8 - k else nn, if down then nn + 8 else nn + k, nn + lo, nn + hi)
        invariant Done(A, B, nn + m, nn + m + 1, nn + lo, nn + n)
        invariant OnlyIn(B, nn, nn + 8, nn + lo, nn + hi)
      {
        B[nn + m, nn + n] := B[nn + n, nn + m + 8];
        n := n + 1;
      }
      k := k + 1;
    }
  }

  /** A block on the diagonal, except the last: the block to the right in B serves as scratch space,
      and is left overwritten. */
  method Diagonal64(A: array2<int>, B: array2<int>, nn: int)
    requires Fits(A, B, nn, nn) && nn + 16 <= B.Length1
    modifies B
    ensures Done(A, B, nn, nn + 8, nn, nn + 8)
    ensures OnlyIn(B, nn, nn + 8, nn, nn + 16)
  {
    CopyRows(A, B, nn, nn, 8, 8);
    FromScratch(A, B, nn, 4, 8, true);
    FromScratch(A, B, nn, 0, 4, false);
  }

  /** The last block on the diagonal. */
  method LastDiagonal64(A: array2<int>, B: array2<int>, mm: int, nn: int)
    requires Fits(A, B, mm, nn)
    modifies B
    ensures Done(A, B, mm, mm + 8, nn, nn + 8)
    ensures OnlyIn(B, mm, mm + 8, nn, nn + 8)
  {
    var n := 0;
    while n < 8
      invariant 0 <= n <= 8
      invariant Done(A, B, mm, mm + 8, nn, nn + n)
      invariant OnlyIn(B, mm, mm + 8, nn, nn + 8)
    {
      var t0 := A[nn + n, mm + 0];
      var t1 := A[nn + n, mm + 1];
      var t2 := A[nn + n, mm + 2];
      var t3 := A[nn + n, mm + 3];
      var t4 := A[nn + n, mm + 4];
      var t5 := A[nn + n, mm + 5];
      var t6 := A[nn + n, mm + 6];
      var t7 := A[nn + n, mm + 7];
      B[mm + 0, nn + n] := t0;
      B[mm + 1, nn + n] := t1;
      B[mm + 2, nn + n] := t2;
      B[mm + 3, nn + n] := t3;
      B[mm + 4, nn + n] := t4;
      B[mm + 5, nn + n] := t5;
      B[mm + 6, nn + n] := t6;
      B[mm + 7, nn + n] := t7;
      n := n + 1;
    }
  }

  // ---------------------------------------------------------------- the whole matrix

  method Transpose32(A: array2<int>, B: array2<int>)
    requires A != B && A.Length0 == B.Length1 == 32 && A.Length1 == B.Length0 && A.Length1 % 8 == 0
    modifies B
    ensures IsTransposed(A, B)
  {
    var N, M := A.Length0, A.Length1;
    var nn := 0;
    while nn < N
      invariant 0 <= nn <= N && nn % 8 == 0
      invariant Done(A, B, 0, M, 0, nn)
    {
      var mm := 0;
      while mm < M
        invariant 0 <= mm <= M && mm % 8 == 0
        invariant Done(A, B, 0, M, 0, nn) && Done(A, B, 0, mm, nn, nn + 8)
      {
        Block32(A, B, mm, nn);
        mm := mm + 8;
      }
      nn := nn + 8;
    }
  }

  method Transpose64(A: array2<int>, B: array2<int>)
    requires A != B && A.Length0 == B.Length1 == 64 && A.Length1 == B.Length0 && A.Length1 % 8 == 0
    modifies B
    ensures IsTransposed(A, B)
  {
    var N, M := A.Length0, A.Length1;
    var nn := 0;
    while nn < N
      invariant 0 <= nn <= N && nn % 8 == 0
      invariant Done(A, B, 0, M, 0, nn)
    {
      var mm := 0;
      while mm < M
        invariant 0 <= mm <= M && mm % 8 == 0
        invariant Done(A, B, 0, M, 0, nn) && Done(A, B, 0, mm, nn, nn + 8)
      {
        if nn != mm {
          Block64(A, B, mm, nn);
        } else if nn + 8 < N {
          Diagonal64(A, B, nn);
        } else {
          LastDiagonal64(A, B, mm, nn);
        }
        mm := mm + 8;
      }
      nn := nn + 8;
    }
  }

  /** A block of up to 16x16, clipped at the edges. */
  method Block16(A: array2<int>, B: array2<int>, mm: int, nn: int)
    requires A != B && A.Length0 == B.Length1 && A.Length1 == B.Length0
    requires 0 <= mm < B.Length0 && 0 <= nn < B.Length1
    modifies B
    ensures Done(A, B, mm, Min(mm + 16, B.Length0), nn, Min(nn + 16, B.Length1))
    ensures OnlyIn(B, mm, mm + 16, nn, nn + 16)
  {
    var N, M := A.Length0, A.Length1;
    var n := 0;
    while n < 16 && nn + n < N
      invariant 0 <= n <= 16 && nn + n <= N
      invariant Done(A, B, mm, Min(mm + 16, M), nn, nn + n)
      invariant OnlyIn(B, mm, mm + 16, nn, nn + 16)
    {
      var m := 0;
      while m < 16 && mm + m < M
        invariant 0 <= m <= 16 && mm + m <= M
        invariant Done(A, B, mm, Min(mm + 16, M), nn, nn + n) && Done(A, B, mm, mm + m, nn + n, nn + n + 1)
        invariant OnlyIn(B, mm, mm + 16, nn, nn + 16)
      {
        B[mm + m, nn + n] := A[nn + n, mm + m];
        m := m + 1;
      }
      n := n + 1;
    }
  }

  method TransposeTiled(A: array2<int>, B: array2<int>)
    requires A != B && A.Length0 == B.Length1 && A.Length1 == B.Length0
    modifies B
    ensures IsTransposed(A, B)
  {
    var N, M := A.Length0, A.Length1;
    var mm := 0;
    while mm < M
      invariant 0 <= mm
      invariant Done(A, B, 0, Min(mm, M), 0, N)
    {
      var nn := 0;
      while nn < N
        invariant 0 <= nn
        invariant Done(A, B, 0, mm, 0, N) && Done(A, B, mm, Min(mm + 16, M), 0, Min(nn, N))
      {
        Block16(A, B, mm, nn);
        nn := nn + 16;
      }
      mm := mm + 16;
    }
  }

  /** With 32 or 64 rows the blocks the loops visit all lie within the matrices exactly if the number of
      columns is a multiple of 8; a block that does not makes its kernel write to row mm + 7, which B lacks. */
  lemma BlocksFit(A: array2<int>, B: array2<int>)
    requires A != B && A.Length0 == B.Length1 && A.Length1 == B.Length0
    requires A.Length0 == 32 || A.Length0 == 64
    ensures (forall mm, nn {:trigger Fits(A, B, mm, nn)} ::
              0 <= mm < A.Length1 && 0 <= nn < A.Length0 && Mult8(mm) && Mult8(nn) ==> Fits(A, B, mm, nn)) <==>
            A.Length1 % 8 == 0
    ensures forall mm, nn {:trigger Fits(A, B, mm, nn)} ::
              0 <= mm < A.Length1 && 0 <= nn < A.Length0 && Mult8(mm) && Mult8(nn) && !Fits(A, B, mm, nn) ==>
              mm + 7 >= B.Length0
  {
    var M := A.Length1;
    if M % 8 != 0 {
      var mm := M - M % 8;
      assert Mult8(mm) && mm + 8 > M;
      assert !Fits(A, B, mm, 0) && Mult8(0);
    }
  }

  /** transpose_submit.  With 32 or 64 rows the kernels need whole 8x8 blocks. */
  method TransposeSubmit(A: array2<int>, B: array2<int>)
    requires A != B && A.Length0 == B.Length1 && A.Length1 == B.Length0
    requires A.Length0 == 32 || A.Length0 == 64 ==> A.Length1 % 8 == 0
    modifies B
    ensures IsTransposed(A, B)
  {
    if A.Length0 == 32 {
      Transpose32(A, B);
    } else if A.Length0 == 64 {
      Transpose64(A, B);
    } else {
      TransposeTiled(A, B);
    }
  }

  /** is_transpose decides exactly whether B is the transpose. */
  method IsTranspose(A: array2<int>, B: array2<int>) returns (r: bool)
    requires A.Length0 == B.Length1 && A.Length1 == B.Length0
    ensures r <==> IsTransposed(A, B)
  {
    var i := 0;
    while i < A.Length0
      invariant 0 <= i <= A.Length0
      invariant Done(A, B, 0, B.Length0, 0, i)
    {
      var j := 0;
      while j < A.Length1
        invariant 0 <= j <= A.Length1
        invariant Done(A, B, 0, j, i, i + 1)
      {
        if A[i, j] != B[j, i] {
          return false;
        }
        j := j + 1;
      }
      i := i + 1;
    }
    return true;
  }

  /** correctTrans, the reference the simulator's driver compares with. */
  method CorrectTrans(A: array2<int>, B: array2<int>)
    requires A != B && A.Length0 == B.Length1 && A.Length1 == B.Length0
    modifies B
    ensures IsTransposed(A, B)
  {
    var i := 0;
    while i < A.Length0
      invariant 0 <= i <= A.Length0
      invariant Done(A, B, 0, B.Length0, 0, i)
    {
      var j := 0;
      while j < A.Length1
        invariant 0 <= j <= A.Length1
        invariant Done(A, B, 0, B.Length0, 0, i) && Done(A, B, 0, j, i, i + 1)
      {
        var tmp := A[i, j];
        B[j, i] := tmp;
        j := j + 1;
      }
      i := i + 1;
    }
  }

  /** The two agree on every element, and leave A alone. */
  method Agree(A: array2<int>, B: array2<int>, C: array2<int>)
    requires A != B && A != C && B != C
    requires A.Length0 == B.Length1 == C.Length1 && A.Length1 == B.Length0 == C.Length0
    requires A.Length0 == 32 || A.Length0 == 64 ==> A.Length1 % 8 == 0
    modifies B, C
    ensures forall i, j :: 0 <= i < B.Length0 && 0 <= j < B.Length1 ==> B[i, j] == C[i, j] == old(A[j, i])
  {
    TransposeSubmit(A, B);
    CorrectTrans(A, C);
  }
}
