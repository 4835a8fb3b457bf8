/** eng_flow_field: the breadth-first search over its queue. */
module FlowSearch {
  import opened FlowField

  /** The queue holds the seen cells, each once, by distance. */
  ghost predicate Queue(dist: seq<int>, q: seq<int>) {
    && (forall a :: 0 <= a < |q| ==> 0 <= q[a] < |dist| && dist[q[a]] >= 0)
    && (forall i :: 0 <= i < |dist| && dist[i] >= 0 ==> i in q)
    && (forall a, b :: 0 <= a < b < |q| ==> q[a] != q[b] && dist[q[a]] <= dist[q[b]])
  }

  /** Nothing queued is more than one step beyond the cell at h. */
  ghost predicate Window(dist: seq<int>, q: seq<int>, h: nat)
    requires Queue(dist, q)
  {
    h < |q| ==> forall b :: 0 <= b < |q| ==> dist[q[b]] <= dist[q[h]] + 1
  }

  ghost predicate DoneDir(g: Grid, dist: seq<int>, j: int, k: nat)
    requires ValidGrid(g) && |dist| == |g.blocked| && 0 <= j < |dist|
  {
    var i := Toward(g, j, k);
    IsOpen(g, i) ==> 0 <= dist[i] <= dist[j] + 1
  }

  /** Cells before h have been expanded, and the first k directions at h. */
  ghost predicate Expanded(g: Grid, dist: seq<int>, q: seq<int>, h: nat, k: nat)
    requires ValidGrid(g) && |dist| == |g.blocked| && Queue(dist, q)
  {
    forall a, x :: 0 <= a < |q| && 0 <= x < 4 && (a < h || (a == h && x < k)) ==> DoneDir(g, dist, q[a], x)
  }

  ghost predicate Inv(g: Grid, goal: int, next: seq<int>, dist: seq<int>, q: seq<int>, h: nat, k: nat) {
    && ValidGrid(g) && Marks(g, next, dist) && Tree(g, goal, next, dist)
    && Queue(dist, q) && Window(dist, q, h) && Expanded(g, dist, q, h, k)
  }

  // ---- steps ------------------------------------------------------------------------------------

  lemma Started(g: Grid, goal: int, next: seq<int>, dist: seq<int>)
    requires ValidGrid(g) && |next| == |dist| == |g.blocked| && 0 <= goal < |dist| && IsOpen(g, goal)
    requires forall i :: 0 <= i < |dist| ==> next[i] == (if i == goal then goal else -1)
    requires forall i :: 0 <= i < |dist| ==> dist[i] == (if i == goal then 0 else -1)
    ensures Inv(g, goal, next, dist, [goal], 0, 0)
  {
  }

  /** The neighbour in direction k is outside, seen or a wall. */
  lemma Passed(g: Grid, goal: int, next: seq<int>, dist: seq<int>, q: seq<int>, h: nat, k: nat)
    requires Inv(g, goal, next, dist, q, h, k) && h < |q| && k < 4
    requires var i := Toward(g, q[h], k); IsOpen(g, i) ==> next[i] != -1
    ensures Inv(g, goal, next, dist, q, h, k + 1)
  {
    hide Tree, Toward;
    var i := Toward(g, q[h], k);
    if IsOpen(g, i) {
      assert i in q;
      var b :| 0 <= b < |q| && q[b] == i;
    }
    assert DoneDir(g, dist, q[h], k);
  }

  /** The cell at h is done. */
  lemma Advanced(g: Grid, goal: int, next: seq<int>, dist: seq<int>, q: seq<int>, h: nat)
    requires Inv(g, goal, next, dist, q, h, 4) && h < |q|
    ensures Inv(g, goal, next, dist, q, h + 1, 0)
  {
    hide Tree, DoneDir;
  }

  /** A new cell is marked and queued. */
  lemma Added(g: Grid, goal: int, next: seq<int>, dist: seq<int>, q: seq<int>, h: nat, k: nat, i: int)
    requires Inv(g, goal, next, dist, q, h, k) && h < |q| && k < 4
    requires i == Toward(g, q[h], k) && IsOpen(g, i) && next[i] == -1
    ensures Inv(g, goal, next[i := q[h]], dist[i := dist[q[h]] + 1], q + [i], h, k + 1)
  {
    hide Tree, Window, Expanded, Toward;
    AddedTree(g, goal, next, dist, q[h], k, i);
    AddedQueue(dist, q, h, i);
    AddedExpanded(g, dist, q, h, k, i);
  }

  lemma AddedTree(g: Grid, goal: int, next: seq<int>, dist: seq<int>, c: int, k: nat, i: int)
    requires ValidGrid(g) && Marks(g, next, dist) && Tree(g, goal, next, dist) && 0 <= c < |dist| && dist[c] >= 0 && k < 4
    requires i == Toward(g, c, k) && IsOpen(g, i) && next[i] == -1
    ensures Marks(g, next[i := c], dist[i := dist[c] + 1]) && Tree(g, goal, next[i := c], dist[i := dist[c] + 1])
  {
    hide Toward, Near;
    TowardIsNear(g, c, k);
    var n, d := next[i := c], dist[i := dist[c] + 1];
    forall x | 0 <= x < |d| && d[x] >= 0
      ensures Closer(g, goal, n, d, x)
    {
      if x != i {
        assert Closer(g, goal, next, dist, x);
      }
    }
  }

  lemma AddedQueue(dist: seq<int>, q: seq<int>, h: nat, i: int)
    requires Queue(dist, q) && Window(dist, q, h) && h < |q| && 0 <= i < |dist| && dist[i] == -1
    ensures var d := dist[i := dist[q[h]] + 1]; Queue(d, q + [i]) && Window(d, q + [i], h)
  {
    var d, r := dist[i := dist[q[h]] + 1], q + [i];
    assert forall a :: 0 <= a < |q| ==> r[a] == q[a] && q[a] != i;
    forall x | 0 <= x < |d| && d[x] >= 0
      ensures x in r
    {
      if x == i {
        assert r[|q|] == i;
      } else {
        assert x in q;
      }
    }
    forall a, b | 0 <= a < b < |r|
      ensures r[a] != r[b] && d[r[a]] <= d[r[b]]
    {
      assert r[a] == q[a];
      if b < |q| {
        assert r[b] == q[b];
      }
    }
  }

  lemma AddedExpanded(g: Grid, dist: seq<int>, q: seq<int>, h: nat, k: nat, i: int)
    requires ValidGrid(g) && |dist| == |g.blocked| && Queue(dist, q) && Window(dist, q, h) && Expanded(g, dist, q, h, k)
    requires h < |q| && k < 4 && i == Toward(g, q[h], k) && IsOpen(g, i) && dist[i] == -1
    ensures var d := dist[i := dist[q[h]] + 1]; Queue(d, q + [i]) && Expanded(g, d, q + [i], h, k + 1)
  {
    hide Toward, Queue;
    AddedQueue(dist, q, h, i);
    QueueIs(dist, q);
    var d, r := dist[i := dist[q[h]] + 1], q + [i];
    forall a, x | 0 <= a < |r| && 0 <= x < 4 && (a < h || (a == h && x < k + 1))
      ensures 0 <= r[a] < |d| && DoneDir(g, d, r[a], x)
    {
      assert r[a] == q[a];
      if a < h || x < k {
        assert DoneDir(g, dist, q[a], x);
      }
    }
  }

  lemma QueueIs(dist: seq<int>, q: seq<int>)
    requires Queue(dist, q)
    ensures forall a :: 0 <= a < |q| ==> 0 <= q[a] < |dist| && dist[q[a]] >= 0
  {
  }

  // ---- the end, and the room in the queue -------------------------------------------------------

  /** When the queue is used up, every seen cell has been expanded. */
  lemma Finished(g: Grid, goal: int, next: seq<int>, dist: seq<int>, q: seq<int>)
    requires Inv(g, goal, next, dist, q, |q|, 0)
    ensures IsFlowField(g, goal, next)
  {
    hide Tree, Near, Toward;
    forall j | 0 <= j < |dist| && dist[j] >= 0
      ensures Spread(g, dist, j)
    {
      assert j in q;
      var a :| 0 <= a < |q| && q[a] == j;
      forall i | IsOpen(g, i) && Near(g, i, j)
        ensures 0 <= dist[i] <= dist[j] + 1
      {
        var k := NearIsToward(g, i, j);
        assert DoneDir(g, dist, q[a], k);
      }
    }
    CertificateIsField(g, goal, next, dist);
  }

  /** Distinct numbers below n are at most n. */
  lemma {:induction false} Pigeonhole(q: seq<int>, n: nat)
    requires forall a :: 0 <= a < |q| ==> 0 <= q[a] < n
    requires forall a, b :: 0 <= a < b < |q| ==> q[a] != q[b]
    ensures |q| <= n
    decreases n
  {
    if q != [] {
      assert 0 <= q[0] < n;
      if n - 1 in q {
        var p :| 0 <= p < |q| && q[p] == n - 1;
        Pigeonhole(q[..p] + q[p + 1..], n - 1);
      } else {
        Pigeonhole(q, n - 1);
      }
    }
  }

  /** The queue array has room for one more unseen cell. */
  lemma QueueFits(dist: seq<int>, q: seq<int>, i: int)
    requires Queue(dist, q) && 0 <= i < |dist| && dist[i] == -1
    ensures |q| < |dist|
  {
    var r := q + [i];
    assert forall a :: 0 <= a < |q| ==> r[a] == q[a] && q[a] != i;
    Pigeonhole(r, |dist|);
  }

  // ---- the code ---------------------------------------------------------------------------------

  /** eng_flow_field; mallocOk says whether the queue could be allocated. */
  method EngFlowField(cols: int, rows: int, blocked: seq<int>, goalc: int, goalr: int, next: array<int>, mallocOk: bool)
    requires cols * rows <= next.Length && (cols > 0 && rows > 0 ==> |blocked| == cols * rows)
    modifies next
    ensures next[if cols * rows > 0 then cols * rows else 0..] == old(next[if cols * rows > 0 then cols * rows else 0..])
    ensures 0 <= goalc < cols && 0 <= goalr < rows && mallocOk ==>
      IsFlowField(Grid(cols, rows, blocked), goalr * cols + goalc, next[..cols * rows])
    ensures !(0 <= goalc < cols && 0 <= goalr < rows && mallocOk) ==> forall i :: 0 <= i < cols * rows ==> next[i] == -1
  {
    var n := cols * rows;
    var i := 0;
    while i < n
      invariant 0 <= i && (i <= n || i == 0)
      invariant forall x :: 0 <= x < i ==> next[x] == -1
      invariant forall x :: i <= x < next.Length ==> next[x] == old(next[x])
    {
      next[i] := -1;
      i := i + 1;
    }
    if cols <= 0 || rows <= 0 || goalc < 0 || goalc >= cols || goalr < 0 || goalr >= rows {
      return;
    }
    ghost var g := Grid(cols, rows, blocked);
    CellIs(g, goalc, goalr);
    var gi := goalr * cols + goalc;
    if blocked[gi] != 0 {
      WalledGoal(g, gi, next[..n]);
      return;
    }
    if !mallocOk {
      return;
    }
    Search(cols, rows, blocked, gi, next, g, n);
  }

  /** With a wall on the goal nothing reaches it. */
  lemma WalledGoal(g: Grid, goal: int, next: seq<int>)
    requires ValidGrid(g) && !IsOpen(g, goal) && |next| == |g.blocked| && forall i :: 0 <= i < |next| ==> next[i] == -1
    ensures IsFlowField(g, goal, next)
  {
    forall i, p | 0 <= i < |next| && PathTo(g, p, i, goal)
      ensures false
    {
      LastOpen(g, p);
    }
  }

  lemma {:induction false} LastOpen(g: Grid, p: seq<int>)
    requires g.cols > 0 && IsPath(g, p)
    ensures IsOpen(g, p[|p| - 1])
    decreases |p|
  {
    if |p| > 1 {
      LastOpen(g, p[1..]);
    }
  }

  /** The search itself, from an open goal. */
  method Search(cols: int, rows: int, blocked: seq<int>, gi: int, next: array<int>, ghost g: Grid, n: nat)
    requires cols > 0 && rows > 0 && g == Grid(cols, rows, blocked) && ValidGrid(g) && n == cols * rows <= next.Length
    requires IsOpen(g, gi) && forall i :: 0 <= i < n ==> next[i] == -1
    modifies next
    ensures IsFlowField(g, gi, next[..n]) && next[n..] == old(next[n..])
  {
    hide Tree, Queue, Window, Expanded, Marks, Near, Toward, Reaches, Optimal, IsFlowField, Col, Row;
    var q := new int[n];
    var head, tail := 0, 0;
    next[gi] := gi;
    q[tail] := gi;
    tail := tail + 1;
    ghost var dist := seq(n, i => if i == gi then 0 else -1);
    Started(g, gi, next[..n], dist);
    assert q[..tail] == [gi];
    while head < tail
      invariant head <= tail <= n && next[n..] == old(next[n..])
      invariant Inv(g, gi, next[..n], dist, q[..tail], head, 0)
      decreases n - head
    {
      InvBounds(g, gi, next[..n], dist, q[..tail], head, 0);
      var ci := q[head];
      dist, tail := Expand(cols, rows, blocked, gi, next, q, head, tail, ci, g, dist, n);
      Advanced(g, gi, next[..n], dist, q[..tail], head);
      head := head + 1;
    }
    Finished(g, gi, next[..n], dist, q[..tail]);
  }

  lemma InvBounds(g: Grid, goal: int, next: seq<int>, dist: seq<int>, q: seq<int>, h: nat, k: nat)
    requires Inv(g, goal, next, dist, q, h, k)
    ensures |dist| == |next| == |g.blocked|
    ensures forall a :: 0 <= a < |q| ==> 0 <= q[a] < |dist|
    ensures forall i :: 0 <= i < |dist| ==> (next[i] == -1 <==> dist[i] == -1)
  {
  }

  /** The inner loop: the four neighbours of the cell at the front. */
  method Expand(cols: int, rows: int, blocked: seq<int>, ghost gi: int, next: array<int>, q: array<int>, h: nat, tail0: nat,
                ci: int, ghost g: Grid, ghost dist0: seq<int>, ghost n: nat)
    returns (ghost dist: seq<int>, tail: nat)
    requires cols > 0 && rows > 0 && g == Grid(cols, rows, blocked) && ValidGrid(g) && n == cols * rows <= next.Length
    requires q != next && q.Length == n && h < tail0 <= n && Inv(g, gi, next[..n], dist0, q[..tail0], h, 0)
    requires ci == q[h] && 0 <= ci < n
    modifies next, q
    ensures tail0 <= tail <= n && Inv(g, gi, next[..n], dist, q[..tail], h, 4) && next[n..] == old(next[n..])
  {
    hide Inv, Near, Reaches, Optimal, IsFlowField, Col, Row;
    tail, dist := tail0, dist0;
    var cc, cr := ci % cols, ci / cols;
    var k := 0;
    while k < 4
      invariant k <= 4 && tail0 <= tail <= n && h < tail && q[h] == ci && next[n..] == old(next[n..])
      invariant Inv(g, gi, next[..n], dist, q[..tail], h, k)
    {
      InvBounds(g, gi, next[..n], dist, q[..tail], h, k);
      var nc, nr := cc + Dc(k), cr + Dr(k);
      var ni := -1;
      if !(nc < 0 || nc >= cols || nr < 0 || nr >= rows) {
        ni := nr * cols + nc;
      }
      TowardIs(g, ci, k, nc, nr, ni);
      if ni < 0 || next[ni] != -1 || blocked[ni] != 0 {
        Passed(g, gi, next[..n], dist, q[..tail], h, k);
      } else {
        Added(g, gi, next[..n], dist, q[..tail], h, k, ni);
        InvFits(g, gi, next[..n], dist, q[..tail], h, k, ni);
        ghost var nx, qs := next[..n], q[..tail];
        next[ni] := ci;
        q[tail] := ni;
        tail := tail + 1;
        dist := dist[ni := dist[ci] + 1];
        assert next[..n] == nx[ni := ci];
        assert q[..tail] == qs + [ni];
      }
      k := k + 1;
    }
  }

  lemma TowardIs(g: Grid, ci: nat, k: nat, nc: int, nr: int, ni: int)
    requires ValidGrid(g) && ci < |g.blocked| && k < 4 && nc == ci % g.cols + Dc(k) && nr == ci / g.cols + Dr(k)
    requires ni == if nc < 0 || nc >= g.cols || nr < 0 || nr >= g.rows then -1 else nr * g.cols + nc
    ensures ni == Toward(g, ci, k) < |g.blocked|
  {
    if ni >= 0 {
      TowardIsNear(g, ci, k);
    }
  }

  lemma InvFits(g: Grid, goal: int, next: seq<int>, dist: seq<int>, q: seq<int>, h: nat, k: nat, i: int)
    requires Inv(g, goal, next, dist, q, h, k) && 0 <= i < |next| && next[i] == -1
    ensures |q| < |dist|
  {
    hide Tree, Queue, Window, Expanded;
    QueueFits(dist, q, i);
  }
}
