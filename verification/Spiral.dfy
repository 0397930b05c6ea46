/** The spiral that inf10-2.c fills into an n by n matrix, ring after ring, clockwise. */
module Spiral {

  /** The value with which ring k starts. */
  function Start(n: nat, k: nat): (s: int)
    requires 2 * k <= n + 1
  {
    if k == 0 then 1 else Start(n, k-1) + 4 * (n - 2 * k + 1)
  }

  function Min(a: int, b: int): int {
    if a < b then a else b
  }

  /** The ring of a cell: its distance from the nearest side. */
  function RingOf(n: nat, r: int, c: int): int {
    Min(Min(r, c), Min(n - 1 - r, n - 1 - c))
  }

  predicate Cell(n: nat, r: int, c: int) {
    0 <= r < n && 0 <= c < n
  }

  /** The value of a cell: the start of its ring and the way along the ring. */
  function Value(n: nat, r: int, c: int): int
    requires Cell(n, r, c)
  {
    var k := RingOf(n, r, c);
    var side := n - 1 - 2 * k;
    var start := Start(n, k);
    if r == k then start + (c - k)
    else if c == n - 1 - k then start + side + (r - k)
    else if r == n - 1 - k then start + 2 * side + (n - 1 - k - c)
    else start + 3 * side + (n - 1 - k - r)
  }

  /** The cell that holds v: skip whole rings, then turn at the corners. */
  function PlaceFrom(n: nat, k: nat, v: int): (int, int)
    requires 2 * k <= n + 1
    decreases n + 2 - 2 * k
  {
    var side := n - 1 - 2 * k;
    var d := v - Start(n, k);
    if side <= 0 then (k, k)
    else if d < side then (k, k + d)
    else if d < 2 * side then (k + d - side, n - 1 - k)
    else if d < 3 * side then (n - 1 - k, n - 1 - k - (d - 2 * side))
    else if d < 4 * side then (n - 1 - k - (d - 3 * side), k)
    else PlaceFrom(n, k + 1, v)
  }

  function Place(n: nat, v: int): (int, int) {
    PlaceFrom(n, 0, v)
  }

  lemma {:induction false} StartClosed(n: nat, k: nat)
    requires 2 * k <= n + 1
    ensures Start(n, k) == n * n - (n - 2 * k) * (n - 2 * k) + 1
  {
    if k > 0 {
      StartClosed(n, k-1);
      var m := n - 2 * k;
      assert (m + 2) * (m + 2) == m * m + 4 * m + 4;
    }
  }

  lemma {:induction false} StartsClimb(n: nat, j: nat, k: nat)
    requires j <= k && 2 * k <= n + 1
    ensures Start(n, j) <= Start(n, k)
    ensures j < k ==> Start(n, j) + 4 * (n - 1 - 2 * j) <= Start(n, k)
    decreases k - j
  {
    if j < k {
      assert Start(n, j + 1) == Start(n, j) + 4 * (n - 1 - 2 * j);
      StartsClimb(n, j + 1, k);
    }
  }

  /** The first cell of ring k holds n^2 - (n-2k)^2 + 1. */
  lemma RingStarts(n: nat, k: nat)
    requires 2 * k < n
    ensures Value(n, k, k) == n * n - (n - 2 * k) * (n - 2 * k) + 1
  {
    StartClosed(n, k);
  }

  /** Outer rings are skipped on the way to the ring of v. */
  lemma {:induction false} PlaceSkips(n: nat, j: nat, k: nat, v: int)
    requires j <= k && 2 * k <= n + 1 && Start(n, k) <= v
    requires 2 * k < n
    ensures PlaceFrom(n, j, v) == PlaceFrom(n, k, v)
    decreases k - j
  {
    if j < k {
      StartsClimb(n, j, k);
      PlaceSkips(n, j + 1, k, v);
    }
  }

  lemma ValueInRing(n: nat, r: int, c: int)
    requires Cell(n, r, c)
    ensures var k := RingOf(n, r, c);
      && 0 <= k && 2 * k < n
      && Start(n, k) <= Value(n, r, c)
      && Value(n, r, c) <= Start(n, k) + (if n == 2 * k + 1 then 0 else 4 * (n - 1 - 2 * k) - 1)
      && PlaceFrom(n, k, Value(n, r, c)) == (r, c)
  {
  }

  /** Place inverts Value ... */
  lemma PlaceOfValue(n: nat, r: int, c: int)
    requires Cell(n, r, c)
    ensures 1 <= Value(n, r, c) <= n * n
    ensures Place(n, Value(n, r, c)) == (r, c)
  {
    ValueInRing(n, r, c);
    var k := RingOf(n, r, c);
    PlaceSkips(n, 0, k, Value(n, r, c));
    StartsClimb(n, 0, k);
    RingEnds(n, k);
  }

  /** The values of ring k do not exceed n^2. */
  lemma RingEnds(n: nat, k: nat)
    requires 2 * k < n
    ensures Start(n, k) + (if n == 2 * k + 1 then 0 else 4 * (n - 1 - 2 * k) - 1) <= n * n
  {
    if n == 2 * k + 1 {
      StartClosed(n, k);
    } else {
      StartClosed(n, k + 1);
      var m := n - 2 * (k + 1);
      assert m * m >= 0;
    }
  }

  lemma {:induction false} PlaceFromIsCell(n: nat, k: nat, v: int)
    requires 2 * k < n && Start(n, k) <= v <= n * n
    ensures var (r, c) := PlaceFrom(n, k, v); Cell(n, r, c) && Value(n, r, c) == v
    decreases n - 2 * k
  {
    var side := n - 1 - 2 * k;
    StartClosed(n, k);
    if side > 0 && v - Start(n, k) >= 4 * side {
      StartClosed(n, k + 1);
      PlaceFromIsCell(n, k + 1, v);
    }
  }

  /** ... and Value inverts Place: the values are a bijection onto 1 .. n^2. */
  lemma ValueOfPlace(n: nat, v: int)
    requires 1 <= v <= n * n
    ensures var (r, c) := Place(n, v); Cell(n, r, c) && Value(n, r, c) == v
  {
    PlaceFromIsCell(n, 0, v);
  }

  predicate Adjacent(p: (int, int), q: (int, int)) {
    || (p.0 == q.0 && (p.1 == q.1 + 1 || q.1 == p.1 + 1))
    || (p.1 == q.1 && (p.0 == q.0 + 1 || q.0 == p.0 + 1))
  }

  lemma {:induction false} NextIsAdjacentFrom(n: nat, k: nat, v: int)
    requires 2 * k < n && Start(n, k) <= v < n * n
    ensures Adjacent(PlaceFrom(n, k, v), PlaceFrom(n, k, v + 1))
    decreases n - 2 * k
  {
    var side := n - 1 - 2 * k;
    StartClosed(n, k);
    if side > 0 && v + 1 - Start(n, k) >= 4 * side {
      StartClosed(n, k + 1);
      if v - Start(n, k) >= 4 * side {
        NextIsAdjacentFrom(n, k + 1, v);
      }
    }
  }

  /** Consecutive values lie in cells that share a side. */
  lemma NextIsAdjacent(n: nat, v: int)
    requires 1 <= v < n * n
    ensures Adjacent(Place(n, v), Place(n, v + 1))
  {
    NextIsAdjacentFrom(n, 0, v);
  }

  // ----- the loops -----

  /** Exactly the cells with a value below curr have been written. */
  ghost predicate Filled(a: array2<int>, n: nat, curr: int)
    reads a
  {
    && a.Length0 == a.Length1 == n
    && forall r, c | Cell(n, r, c) :: a[r, c] == if Value(n, r, c) < curr then Value(n, r, c) else 0
  }

  ghost predicate Visited(path: seq<(int, int)>, n: nat, curr: int) {
    && |path| == curr - 1
    && forall v | 1 <= v < curr :: path[v-1] == Place(n, v)
  }

  /** One assignment array[r][c] = curr, recorded in `path`. */
  method Write(a: array2<int>, n: nat, r: int, c: int, curr: int, ghost path: seq<(int, int)>)
    returns (ghost path': seq<(int, int)>)
    requires Filled(a, n, curr) && Visited(path, n, curr)
    requires Cell(n, r, c) && Value(n, r, c) == curr
    modifies a
    ensures Filled(a, n, curr + 1) && Visited(path', n, curr + 1)
  {
    PlaceOfValue(n, r, c);
    forall r', c' | Cell(n, r', c') && (r', c') != (r, c) ensures Value(n, r', c') != curr {
      PlaceOfValue(n, r', c');
    }
    a[r, c] := curr;
    path' := path + [(r, c)];
  }

  /** The four sides of ring k, in the order in which they are walked. */
  lemma Sides(n: nat, k: nat, i: int)
    requires 2 * k < n - 1
    ensures k <= i < n - k ==> Value(n, k, i) == Start(n, k) + (i - k)
    ensures k < i < n - k ==> Value(n, i, n - k - 1) == Start(n, k) + (n - 1 - 2 * k) + (i - k)
    ensures k <= i < n - 1 - k ==>
      Value(n, n - k - 1, i) == Start(n, k) + 2 * (n - 1 - 2 * k) + (n - 1 - k - i)
    ensures k < i < n - 1 - k ==> Value(n, i, k) == Start(n, k) + 3 * (n - 1 - 2 * k) + (n - 1 - k - i)
  {
  }

  /** The first inner loop: the top row of ring k. */
  method FillTop(a: array2<int>, n: nat, k: nat, curr: int, ghost path: seq<(int, int)>)
    returns (curr': int, ghost path': seq<(int, int)>)
    requires 2 * k < n - 1 && curr == Start(n, k)
    requires Filled(a, n, curr) && Visited(path, n, curr)
    modifies a
    ensures curr' == Start(n, k) + (n - 2 * k)
    ensures Filled(a, n, curr') && Visited(path', n, curr')
  {
    curr', path' := curr, path;
    for i := k to n - k
      invariant curr' == Start(n, k) + (i - k)
      invariant Filled(a, n, curr') && Visited(path', n, curr')
    {
      Sides(n, k, i);
      path' := Write(a, n, k, i, curr', path');
      curr' := curr' + 1;
    }
  }

  /** The second inner loop: the rest of the right column. */
  method FillRight(a: array2<int>, n: nat, k: nat, curr: int, ghost path: seq<(int, int)>)
    returns (curr': int, ghost path': seq<(int, int)>)
    requires 2 * k < n - 1 && curr == Start(n, k) + (n - 2 * k)
    requires Filled(a, n, curr) && Visited(path, n, curr)
    modifies a
    ensures curr' == Start(n, k) + 2 * (n - 1 - 2 * k) + 1
    ensures Filled(a, n, curr') && Visited(path', n, curr')
  {
    curr', path' := curr, path;
    for i := 1 to n - 2 * k
      invariant curr' == Start(n, k) + (n - 1 - 2 * k) + i
      invariant Filled(a, n, curr') && Visited(path', n, curr')
    {
      var r, c := k + i, n - k - 1;
      assert Cell(n, r, c) && Value(n, r, c) == curr' by {
        Sides(n, k, r);
      }
      path' := Write(a, n, r, c, curr', path');
      curr' := curr' + 1;
    }
  }

  /** The third inner loop: the rest of the bottom row, leftwards. */
  method FillBottom(a: array2<int>, n: nat, k: nat, curr: int, ghost path: seq<(int, int)>)
    returns (curr': int, ghost path': seq<(int, int)>)
    requires 2 * k < n - 1 && curr == Start(n, k) + 2 * (n - 1 - 2 * k) + 1
    requires Filled(a, n, curr) && Visited(path, n, curr)
    modifies a
    ensures curr' == Start(n, k) + 3 * (n - 1 - 2 * k) + 1
    ensures Filled(a, n, curr') && Visited(path', n, curr')
  {
    curr', path' := curr, path;
    for i := n - 1 - k downto k
      invariant curr' == Start(n, k) + 2 * (n - 1 - 2 * k) + (n - k - i)
      invariant Filled(a, n, curr') && Visited(path', n, curr')
    {
      Sides(n, k, i);
      path' := Write(a, n, n - k - 1, i, curr', path');
      curr' := curr' + 1;
    }
  }

  /** The fourth inner loop: the rest of the left column, upwards. */
  method FillLeft(a: array2<int>, n: nat, k: nat, curr: int, ghost path: seq<(int, int)>)
    returns (curr': int, ghost path': seq<(int, int)>)
    requires 2 * k < n - 1 && curr == Start(n, k) + 3 * (n - 1 - 2 * k) + 1
    requires Filled(a, n, curr) && Visited(path, n, curr)
    modifies a
    ensures curr' == Start(n, k) + 4 * (n - 1 - 2 * k)
    ensures Filled(a, n, curr') && Visited(path', n, curr')
  {
    curr', path' := curr, path;
    for i := n - k - 1 downto k + 1
      invariant curr' == Start(n, k) + 3 * (n - 1 - 2 * k) + (n - k - i)
      invariant Filled(a, n, curr') && Visited(path', n, curr')
    {
      Sides(n, k, i);
      path' := Write(a, n, i, k, curr', path');
      curr' := curr' + 1;
    }
  }

  /** After the rings: n^2 is the centre of an odd matrix, and an even one is already full. */
  lemma AfterRings(n: nat)
    ensures n % 2 == 0 ==> Start(n, n / 2) == n * n + 1
    ensures n % 2 == 1 ==> Start(n, n / 2) == n * n && Value(n, n / 2, n / 2) == n * n
  {
    StartClosed(n, n / 2);
  }

  /** The filling of the matrix in main; `path` is the order of the assignments. */
  method Fill(height: nat) returns (a: array2<int>, ghost path: seq<(int, int)>)
    ensures fresh(a) && a.Length0 == a.Length1 == height
    ensures forall r, c | Cell(height, r, c) :: a[r, c] == Value(height, r, c)
    ensures |path| == height * height
    ensures forall v | 1 <= v <= height * height :: path[v-1] == Place(height, v)
  {
    var width := height;
    a := new int[height, width]((r, c) => 0);
    path := [];
    var curr := 1;
    var ch, cw := 0, 0;
    forall r, c | Cell(height, r, c) ensures 1 <= Value(height, r, c) <= height * height {
      PlaceOfValue(height, r, c);
    }
    while ch < height / 2 && cw < width / 2
      invariant 0 <= ch == cw <= height / 2
      invariant curr == Start(height, ch)
      invariant Filled(a, height, curr) && Visited(path, height, curr)
    {
      curr, path := FillTop(a, height, ch, curr, path);
      curr, path := FillRight(a, height, ch, curr, path);
      curr, path := FillBottom(a, height, ch, curr, path);
      curr, path := FillLeft(a, height, ch, curr, path);
      ch := ch + 1;
      cw := cw + 1;
    }
    AfterRings(height);
    curr := width * height;
    if height % 2 == 1 || width % 2 == 1 {
      for i := width - height / 2 downto height / 2
        invariant Filled(a, height, if i > height / 2 then curr else curr + 2)
        invariant Visited(path, height, if i > height / 2 then curr else curr + 2)
        invariant curr == width * height + i - height / 2 - 1
      {
        path := Write(a, height, height / 2, i, curr, path);
        curr := curr - 1;
      }
    }
  }
}
