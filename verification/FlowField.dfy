/** The engine's grid path finding: a breadth-first flow field. */
module FlowField {

  /** blocked[i] != 0 is a wall; cell (c, r) has index r * cols + c. */
  datatype Grid = Grid(cols: nat, rows: nat, blocked: seq<int>)

  predicate ValidGrid(g: Grid) {
    g.cols > 0 && g.rows > 0 && |g.blocked| == g.cols * g.rows
  }

  function Col(g: Grid, i: nat): nat requires g.cols > 0 { i % g.cols }
  function Row(g: Grid, i: nat): nat requires g.cols > 0 { i / g.cols }

  predicate IsOpen(g: Grid, i: int) { 0 <= i < |g.blocked| && g.blocked[i] == 0 }

  /** 4-connected neighbours */
  predicate Near(g: Grid, i: nat, j: nat)
    requires g.cols > 0
  {
    var c, r := Col(g, i) - Col(g, j), Row(g, i) - Row(g, j);
    (c == 0 && (r == 1 || r == -1)) || (r == 0 && (c == 1 || c == -1))
  }

  /** A walk over open cells, each next to the one before. */
  predicate IsPath(g: Grid, p: seq<int>)
    requires g.cols > 0
    decreases |p|
  {
    && p != [] && IsOpen(g, p[0])
    && (|p| == 1 || (IsPath(g, p[1..]) && Near(g, p[0], p[1])))
  }

  predicate PathTo(g: Grid, p: seq<int>, from: int, goal: int)
    requires g.cols > 0
  {
    IsPath(g, p) && p[0] == from && p[|p| - 1] == goal
  }

  ghost predicate Reaches(g: Grid, from: int, goal: int)
    requires g.cols > 0
  {
    exists p :: PathTo(g, p, from, goal)
  }

  /** The cells visited by following next from i, m steps. */
  function Trail(next: seq<int>, i: int, m: nat): (p: seq<int>)
    ensures |p| == m + 1 && p[0] == i
    decreases m
  {
    if m == 0 then [i]
    else [i] + Trail(next, if 0 <= i < |next| then next[i] else i, m - 1)
  }

  /** Following next from i is a shortest path to the goal. */
  ghost predicate Optimal(g: Grid, next: seq<int>, i: int, goal: int)
    requires g.cols > 0
  {
    exists m: nat ::
      && PathTo(g, Trail(next, i, m), i, goal)
      && forall p :: PathTo(g, p, i, goal) ==> |p| >= m + 1
  }

  /** What a flow field promises. */
  ghost predicate IsFlowField(g: Grid, goal: int, next: seq<int>)
    requires g.cols > 0
  {
    && |next| == |g.blocked| && (0 <= goal < |next| && IsOpen(g, goal) ==> next[goal] == goal)
    && (forall i :: 0 <= i < |next| ==> (next[i] == -1 <==> !Reaches(g, i, goal)))
    && (forall i :: 0 <= i < |next| && Reaches(g, i, goal) ==> Optimal(g, next, i, goal))
  }

  // ---- coordinates ------------------------------------------------------------------------------

  lemma DivMod(a: nat, r: nat, c: nat)
    requires c < a
    ensures (r * a + c) / a == r && (r * a + c) % a == c
  {
    var x := r * a + c;
    var q, m := x / a, x % a;
    assert x == q * a + m;
    MulLe(q + 1, r, a);
    MulLe(r + 1, q, a);
  }

  lemma MulLe(x: nat, y: nat, a: nat)
    ensures x <= y ==> x * a <= y * a
  {
  }

  lemma CellIs(g: Grid, c: nat, r: nat)
    requires g.cols > 0 && c < g.cols && r < g.rows
    ensures r * g.cols + c < g.cols * g.rows
    ensures Col(g, r * g.cols + c) == c && Row(g, r * g.cols + c) == r
  {
    DivMod(g.cols, r, c);
    MulLe(r + 1, g.rows, g.cols);
  }

  lemma ColRow(g: Grid, i: nat)
    requires g.cols > 0 && i < g.cols * g.rows
    ensures Col(g, i) < g.cols && Row(g, i) < g.rows && i == Row(g, i) * g.cols + Col(g, i)
  {
    var r := Row(g, i);
    assert i == r * g.cols + Col(g, i);
    MulLe(g.rows, r, g.cols);
  }

  function Distance(x: int, y: int): int { if x < y then y - x else x - y }

  /** Two cells are neighbours exactly when they are one step apart, across or up and down, never both. */
  lemma NearIsStep(g: Grid, c: nat, r: nat, c': nat, r': nat)
    requires g.cols > 0 && c < g.cols && r < g.rows && c' < g.cols && r' < g.rows
    ensures Near(g, r * g.cols + c, r' * g.cols + c') <==> Distance(c, c') + Distance(r, r') == 1
  {
    hide Col, Row;
    CellIs(g, c, r);
    CellIs(g, c', r');
  }

  function Dc(k: nat): int { if k == 2 then -1 else if k == 3 then 1 else 0 }
  function Dr(k: nat): int { if k == 0 then -1 else if k == 1 then 1 else 0 }

  /** The neighbour of i in direction k, or -1 outside the grid. */
  function Toward(g: Grid, i: nat, k: nat): (j: int)
    requires ValidGrid(g)
    ensures j >= -1
  {
    var c, r := Col(g, i) + Dc(k), Row(g, i) + Dr(k);
    if c < 0 || c >= g.cols || r < 0 || r >= g.rows then -1 else r * g.cols + c
  }

  /** The four directions give exactly the neighbours. */
  lemma TowardIsNear(g: Grid, i: nat, k: nat)
    requires ValidGrid(g) && i < |g.blocked| && k < 4 && Toward(g, i, k) >= 0
    ensures Toward(g, i, k) < |g.blocked| && Near(g, Toward(g, i, k), i) && Near(g, i, Toward(g, i, k))
  {
    hide Col, Row;
    CellIs(g, Col(g, i) + Dc(k), Row(g, i) + Dr(k));
  }

  lemma NearIsToward(g: Grid, i: nat, j: nat) returns (k: nat)
    requires ValidGrid(g) && i < |g.blocked| && j < |g.blocked| && Near(g, i, j)
    ensures k < 4 && Toward(g, j, k) == i
  {
    hide Col, Row;
    ColRow(g, i);
    var c, r := Col(g, i) - Col(g, j), Row(g, i) - Row(g, j);
    k := if r == -1 then 0 else if r == 1 then 1 else if c == -1 then 2 else 3;
  }

  // ---- distances make a flow field ------------------------------------------------------------

  /** The certificate the search builds: dist[i] is the number of steps from i, -1 when unseen. */
  ghost predicate Marks(g: Grid, next: seq<int>, dist: seq<int>) {
    && |next| == |dist| == |g.blocked|
    && forall i :: 0 <= i < |dist| ==> dist[i] >= -1 && (next[i] == -1 <==> dist[i] == -1)
  }

  /** One step along next is one step closer. */
  ghost predicate Closer(g: Grid, goal: int, next: seq<int>, dist: seq<int>, i: int)
    requires g.cols > 0 && Marks(g, next, dist) && 0 <= i < |dist| && dist[i] >= 0
  {
    && IsOpen(g, i)
    && (dist[i] == 0 ==> i == goal)
    && (dist[i] > 0 ==> 0 <= next[i] < |dist| && Near(g, i, next[i]) && dist[next[i]] == dist[i] - 1)
  }

  ghost predicate Tree(g: Grid, goal: int, next: seq<int>, dist: seq<int>)
    requires g.cols > 0 && Marks(g, next, dist)
  {
    && 0 <= goal < |dist| && dist[goal] == 0 && next[goal] == goal
    && forall i :: 0 <= i < |dist| && dist[i] >= 0 ==> Closer(g, goal, next, dist, i)
  }

  /** No neighbour of j is left out or much further. */
  ghost predicate Spread(g: Grid, dist: seq<int>, j: int)
    requires g.cols > 0 && |dist| == |g.blocked| && 0 <= j < |dist|
  {
    forall i :: IsOpen(g, i) && Near(g, i, j) ==> 0 <= dist[i] <= dist[j] + 1
  }

  ghost predicate AllSpread(g: Grid, dist: seq<int>)
    requires g.cols > 0 && |dist| == |g.blocked|
  {
    forall j :: 0 <= j < |dist| && dist[j] >= 0 ==> Spread(g, dist, j)
  }

  /** Every path to the goal is at least dist long. */
  lemma {:induction false} PathIsLong(g: Grid, goal: int, dist: seq<int>, p: seq<int>)
    requires g.cols > 0 && |dist| == |g.blocked| && 0 <= goal < |dist| && dist[goal] == 0 && AllSpread(g, dist)
    requires IsPath(g, p) && p[|p| - 1] == goal
    ensures 0 <= dist[p[0]] < |p|
    decreases |p|
  {
    if |p| > 1 {
      PathIsLong(g, goal, dist, p[1..]);
      assert Spread(g, dist, p[1]);
    }
  }

  /** Following next takes exactly dist steps. */
  lemma {:induction false} TrailArrives(g: Grid, goal: int, next: seq<int>, dist: seq<int>, i: int)
    requires g.cols > 0 && Marks(g, next, dist) && Tree(g, goal, next, dist) && 0 <= i < |dist| && dist[i] >= 0
    ensures PathTo(g, Trail(next, i, dist[i]), i, goal)
    decreases dist[i]
  {
    assert Closer(g, goal, next, dist, i);
    if dist[i] > 0 {
      TrailArrives(g, goal, next, dist, next[i]);
      assert Trail(next, i, dist[i])[1..] == Trail(next, next[i], dist[i] - 1);
    }
  }

  lemma CertificateIsField(g: Grid, goal: int, next: seq<int>, dist: seq<int>)
    requires g.cols > 0 && Marks(g, next, dist) && Tree(g, goal, next, dist) && AllSpread(g, dist)
    ensures IsFlowField(g, goal, next)
  {
    forall i | 0 <= i < |next|
      ensures next[i] == -1 <==> !Reaches(g, i, goal)
      ensures Reaches(g, i, goal) ==> Optimal(g, next, i, goal)
    {
      CellIsField(g, goal, next, dist, i);
    }
  }

  lemma CellIsField(g: Grid, goal: int, next: seq<int>, dist: seq<int>, i: int)
    requires g.cols > 0 && Marks(g, next, dist) && Tree(g, goal, next, dist) && AllSpread(g, dist) && 0 <= i < |next|
    ensures next[i] == -1 <==> !Reaches(g, i, goal)
    ensures Reaches(g, i, goal) ==> Optimal(g, next, i, goal)
  {
    hide IsPath, Trail, Tree, AllSpread;
    forall p | PathTo(g, p, i, goal)
      ensures dist[i] >= 0 && |p| >= dist[i] + 1
    {
      DistOfGoal(g, goal, next, dist);
      PathIsLong(g, goal, dist, p);
    }
    if dist[i] >= 0 {
      TrailArrives(g, goal, next, dist, i);
    }
  }

  lemma DistOfGoal(g: Grid, goal: int, next: seq<int>, dist: seq<int>)
    requires g.cols > 0 && Marks(g, next, dist) && Tree(g, goal, next, dist)
    ensures 0 <= goal < |dist| && dist[goal] == 0
  {
  }
}
