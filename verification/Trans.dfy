/** The tiled matrix transposes of `trans.c`. A matrix with N rows and M columns is an `array2`. */
module Trans {

  predicate Sizes(m: nat, n: nat, a: array2<int>, b: array2<int>) {
    a.Length0 == n && a.Length1 == m && b.Length0 == m && b.Length1 == n
  }

  ghost predicate CellDone(a: array2<int>, b: array2<int>, i: int, j: int)
    reads a, b
  {
    0 <= i < a.Length0 && 0 <= j < a.Length1 && j < b.Length0 && i < b.Length1 && b[j, i] == a[i, j]
  }

  /** Rows `i0` to `i1` of `a`, columns `j0` to `j1`, have reached their places in `b`. */
  ghost predicate Done(a: array2<int>, b: array2<int>, i0: int, i1: int, j0: int, j1: int)
    reads a, b
  {
    forall i, j {:trigger CellDone(a, b, i, j)} :: i0 <= i < i1 && j0 <= j < j1 ==> CellDone(a, b, i, j)
  }

  ghost predicate IsTransposed(m: nat, n: nat, a: array2<int>, b: array2<int>)
    reads a, b
  {
    Done(a, b, 0, n, 0, m)
  }

  function Min(x: int, y: int): int { if x < y then x else y }

  /** One assignment `B[j][i] = v` with the right value: the cell is done, and every cell done stays done. */
  method Store(a: array2<int>, b: array2<int>, i: nat, j: nat, v: int)
    requires a != b && i < a.Length0 && j < a.Length1 && j < b.Length0 && i < b.Length1 && v == a[i, j]
    modifies b
    ensures CellDone(a, b, i, j)
    ensures forall i', j' {:trigger CellDone(a, b, i', j')} :: old(CellDone(a, b, i', j')) ==> CellDone(a, b, i', j')
  {
    b[j, i] := v;
  }

  /** Four cells of a row, all read before the first is written. */
  method MoveFour(a: array2<int>, b: array2<int>, i: nat, j: nat)
    requires a != b && i < a.Length0 && j + 4 <= a.Length1 && j + 4 <= b.Length0 && i < b.Length1
    modifies b
    ensures Done(a, b, i, i + 1, j, j + 4)
    ensures forall i', j' {:trigger CellDone(a, b, i', j')} :: old(CellDone(a, b, i', j')) ==> CellDone(a, b, i', j')
  {
    var a0 := a[i, j];
    var a1 := a[i, j + 1];
    var a2 := a[i, j + 2];
    var a3 := a[i, j + 3];
    Store(a, b, i, j, a0);
    Store(a, b, i, j + 1, a1);
    Store(a, b, i, j + 2, a2);
    Store(a, b, i, j + 3, a3);
  }

  /** Eight cells of a row, all read before the first is written. */
  method MoveEight(a: array2<int>, b: array2<int>, i: nat, j: nat)
    requires a != b && i < a.Length0 && j + 8 <= a.Length1 && j + 8 <= b.Length0 && i < b.Length1
    modifies b
    ensures Done(a, b, i, i + 1, j, j + 8)
    ensures forall i', j' {:trigger CellDone(a, b, i', j')} :: old(CellDone(a, b, i', j')) ==> CellDone(a, b, i', j')
  {
    var a0 := a[i, j];
    var a1 := a[i, j + 1];
    var a2 := a[i, j + 2];
    var a3 := a[i, j + 3];
    var a4 := a[i, j + 4];
    var a5 := a[i, j + 5];
    var a6 := a[i, j + 6];
    var a7 := a[i, j + 7];
    Store(a, b, i, j, a0);
    Store(a, b, i, j + 1, a1);
    Store(a, b, i, j + 2, a2);
    Store(a, b, i, j + 3, a3);
    Store(a, b, i, j + 4, a4);
    Store(a, b, i, j + 5, a5);
    Store(a, b, i, j + 6, a6);
    Store(a, b, i, j + 7, a7);
  }

  /** Eight-by-eight tiles, each in two halves, cut off at the edges of the matrix. */
  method TransX(m: nat, n: nat, a: array2<int>, b: array2<int>)
    requires Sizes(m, n, a, b) && a != b
    modifies b
    ensures IsTransposed(m, n, a, b)
  {
    var fourthI := 0;
    while fourthI < n
      invariant 0 <= fourthI && Done(a, b, 0, Min(fourthI, n), 0, m)
    {
      var iEnd := if fourthI + 8 > n then n else fourthI + 8;
      var fourthJ := 0;
      while fourthJ < m
        invariant 0 <= fourthJ && Done(a, b, 0, fourthI, 0, m) && Done(a, b, fourthI, iEnd, 0, Min(fourthJ, m))
      {
        var sub := 0;
        while sub < 8
          invariant sub in {0, 4, 8} && Done(a, b, 0, fourthI, 0, m)
          invariant Done(a, b, fourthI, iEnd, 0, Min(fourthJ + sub, m))
        {
          var kStart := fourthJ + sub;
          var kEnd := if kStart + 4 > m then m else kStart + 4;
          var i := fourthI;
          while i < iEnd
            invariant fourthI <= i <= iEnd && Done(a, b, 0, fourthI, 0, m)
            invariant Done(a, b, fourthI, i, 0, kEnd) && Done(a, b, i, iEnd, 0, Min(kStart, m))
          {
            var k := kStart;
            while k < kEnd
              invariant kStart <= k && (k <= kEnd || k == kStart) && Done(a, b, 0, fourthI, 0, m)
              invariant Done(a, b, fourthI, i, 0, kEnd) && Done(a, b, i + 1, iEnd, 0, Min(kStart, m))
              invariant Done(a, b, i, i + 1, 0, Min(k, m))
            {
              Store(a, b, i, k, a[i, k]);
              k := k + 1;
            }
            i := i + 1;
          }
          sub := sub + 4;
        }
        fourthJ := fourthJ + 8;
      }
      fourthI := fourthI + 8;
    }
  }

  /** The 64-by-64 case: half rows of a tile, read before they are written. */
  method Trans64(a: array2<int>, b: array2<int>)
    requires Sizes(64, 64, a, b) && a != b
    modifies b
    ensures IsTransposed(64, 64, a, b)
  {
    var fourthI := 0;
    while fourthI < 64
      invariant fourthI % 8 == 0 && 0 <= fourthI <= 64 && Done(a, b, 0, fourthI, 0, 64)
    {
      var fourthJ := 0;
      while fourthJ < 64
        invariant fourthJ % 8 == 0 && 0 <= fourthJ <= 64
        invariant Done(a, b, 0, fourthI, 0, 64) && Done(a, b, fourthI, fourthI + 8, 0, fourthJ)
      {
        var sub := 0;
        while sub < 8
          invariant sub in {0, 4, 8} && Done(a, b, 0, fourthI, 0, 64)
          invariant Done(a, b, fourthI, fourthI + 8, 0, fourthJ + sub)
        {
          for i := 0 to 8
            invariant Done(a, b, 0, fourthI, 0, 64) && Done(a, b, fourthI, fourthI + 8, 0, fourthJ + sub)
            invariant Done(a, b, fourthI, fourthI + i, 0, fourthJ + sub + 4)
          {
            MoveFour(a, b, i + fourthI, fourthJ + sub);
          }
          sub := sub + 4;
        }
        fourthJ := fourthJ + 8;
      }
      fourthI := fourthI + 8;
    }
  }

  /** The 32-by-32 case: whole rows of a tile. */
  method Trans32(a: array2<int>, b: array2<int>)
    requires Sizes(32, 32, a, b) && a != b
    modifies b
    ensures IsTransposed(32, 32, a, b)
  {
    var fourthI := 0;
    while fourthI < 32
      invariant fourthI % 8 == 0 && 0 <= fourthI <= 32 && Done(a, b, 0, fourthI, 0, 32)
    {
      var fourthJ := 0;
      while fourthJ < 32
        invariant fourthJ % 8 == 0 && 0 <= fourthJ <= 32
        invariant Done(a, b, 0, fourthI, 0, 32) && Done(a, b, fourthI, fourthI + 8, 0, fourthJ)
      {
        for i := 0 to 8
          invariant Done(a, b, 0, fourthI, 0, 32) && Done(a, b, fourthI, fourthI + 8, 0, fourthJ)
          invariant Done(a, b, fourthI, fourthI + i, 0, fourthJ + 8)
        {
          MoveEight(a, b, i + fourthI, fourthJ);
        }
        fourthJ := fourthJ + 8;
      }
      fourthI := fourthI + 8;
    }
  }

  /** For matrices of every size, all of `b` is the transpose of `a`, which is left alone. */
  method TransposeSubmit(m: nat, n: nat, a: array2<int>, b: array2<int>)
    requires Sizes(m, n, a, b) && a != b
    modifies b
    ensures IsTransposed(m, n, a, b)
  {
    if n == 32 && m == 32 {
      Trans32(a, b);
    } else if n == 64 && m == 64 {
      Trans64(a, b);
    } else {
      TransX(m, n, a, b);
    }
  }

  /** is_transpose answers 1 exactly for a transpose. */
  method IsTranspose(m: nat, n: nat, a: array2<int>, b: array2<int>) returns (r: int)
    requires Sizes(m, n, a, b)
    ensures r == if IsTransposed(m, n, a, b) then 1 else 0
  {
    for i := 0 to n
      invariant Done(a, b, 0, i, 0, m)
    {
      for j := 0 to m
        invariant Done(a, b, 0, i, 0, m) && Done(a, b, i, i + 1, 0, j)
      {
        if a[i, j] != b[j, i] {
          assert !CellDone(a, b, i, j);
          return 0;
        }
      }
    }
    return 1;
  }

  /** So the check after a transposition always succeeds. */
  method TransposeAndCheck(m: nat, n: nat, a: array2<int>, b: array2<int>) returns (r: int)
    requires Sizes(m, n, a, b) && a != b
    modifies b
    ensures r == 1
  {
    TransposeSubmit(m, n, a, b);
    r := IsTranspose(m, n, a, b);
  }
}
