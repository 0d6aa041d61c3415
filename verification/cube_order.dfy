/** The row-major order in which the aggregator walks its N x N x N
    sub-cubes: `i` outermost, `k` innermost. */
module CubeOrder {
  import opened Arithmetic

  /** The position of cube `(i, j, k)` in the walk. */
  function Position(i: nat, j: nat, k: nat, N: nat): (p: nat)
    requires i < N && j < N && k < N
    ensures p == i * N * N + j * N + k
    ensures p < N * N * N
  {
    var m := i * N + j;
    MulNonnegative(m, N);
    PositionBound(i, j, k, N);
    m * N + k
  }

  lemma PositionBound(i: nat, j: nat, k: nat, N: nat)
    requires i < N && j < N && k < N
    ensures (i * N + j) * N + k == i * N * N + j * N + k
    ensures (i * N + j) * N + k < N * N * N
  {
    var m := i * N + j;
    MulAddDistrib(i, j, N);
    assert m + 1 <= N * N by {
      MulMonotone(i, N - 1, N);
      MulSucc(N - 1, N);
    }
    MulMonotone(m + 1, N * N, N);
    MulSucc(m, N);
  }

  /** The cube visited at position `p` of the walk. */
  function Cube(p: nat, N: nat): (c: (nat, nat, nat))
    requires N >= 1 && p < N * N * N
    ensures c.0 < N && c.1 < N && c.2 < N
    ensures Position(c.0, c.1, c.2, N) == p
  {
    var t, k := p / N, p % N;
    var i, j := t / N, t % N;
    CubeBounds(p, N, t, k, i, j);
    (i, j, k)
  }

  lemma CubeBounds(p: nat, N: nat, t: nat, k: nat, i: nat, j: nat)
    requires N >= 1 && p < N * N * N
    requires p == t * N + k && k < N && t == i * N + j && j < N
    ensures i < N && p == i * N * N + j * N + k
  {
    if t >= N * N {
      MulMonotone(N * N, t, N);
    }
    if i >= N {
      MulMonotone(N, i, N);
    }
    MulAddDistrib(i, j, N);
  }

  /** Walking positions `0 .. N*N*N` visits every cube exactly once. */
  lemma CubeOfPosition(i: nat, j: nat, k: nat, N: nat)
    requires i < N && j < N && k < N
    ensures Cube(Position(i, j, k, N), N) == (i, j, k)
  {
    var p := Position(i, j, k, N);
    DivModUnique(p, N, i * N + j, k);
    DivModUnique(i * N + j, N, i, j);
  }

  /** The positions `0 .. N*N*N` are exactly the cubes' positions. */
  lemma PositionOfCube(p: nat, N: nat)
    requires p < N * N * N
    ensures var c := Cube(p, N); Position(c.0, c.1, c.2, N) == p
  {
  }

  /** Comparing `m * N + k` with `m' * N + k'` compares `m` first, then `k`. */
  lemma LexicographicStep(m: int, k: nat, m': int, k': nat, N: nat)
    requires k < N && k' < N
    ensures m * N + k < m' * N + k' <==> (m < m' || (m == m' && k < k'))
  {
    if m < m' {
      MulMonotone(m + 1, m', N);
      MulSucc(m, N);
    } else if m' < m {
      MulMonotone(m' + 1, m, N);
      MulSucc(m', N);
    }
  }

  /** Cube `(i, j, k)` comes before `(i', j', k')` in the walk exactly when it
      is lexicographically smaller: `i` varies slowest and `k` fastest. */
  lemma PositionIsLexicographic(i: nat, j: nat, k: nat, i': nat, j': nat, k': nat, N: nat)
    requires i < N && j < N && k < N && i' < N && j' < N && k' < N
    ensures Position(i, j, k, N) < Position(i', j', k', N) <==>
      (i < i' || (i == i' && (j < j' || (j == j' && k < k'))))
  {
    var m, m' := i * N + j, i' * N + j';
    assert Position(i, j, k, N) == m * N + k by { MulAddDistrib(i, j, N); }
    assert Position(i', j', k', N) == m' * N + k' by { MulAddDistrib(i', j', N); }
    LexicographicStep(m, k, m', k', N);
    LexicographicStep(i, j, i', j', N);
    LexicographicStep(i', j', i, j, N);
  }
}
