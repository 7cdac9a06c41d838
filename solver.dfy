/** The breadth-first maze solver (Lab3/solver.py). */
module Solver {
  import opened Wrappers

  type Cell = (int, int)

  /** `directions`: the moves in the order the search tries them, with the letter printed for each. */
  const Directions: seq<(int, int, char)> := [(0, -1, 'U'), (1, 0, 'R'), (0, 1, 'D'), (-1, 0, 'L')]

  function Neighbor(c: Cell, k: nat): Cell
    requires k < 4
  {
    (c.0 + Directions[k].0, c.1 + Directions[k].1)
  }

  /** The move a letter of the answer stands for. */
  function DirIndex(ch: char): (r: Option<nat>)
    ensures r.Some? ==> r.value < 4 && Directions[r.value].2 == ch
  {
    if ch == 'U' then Some(0) else if ch == 'R' then Some(1) else if ch == 'D' then Some(2)
    else if ch == 'L' then Some(3) else None
  }

  lemma DirIndexOf(k: nat)
    requires k < 4
    ensures DirIndex(Directions[k].2) == Some(k)
  {
  }

  /** The maze as `solve_maze` receives it: `grid[y][x]` is `'1'` for a wall and `'0'` for a free cell. */
  datatype Maze = Maze(width: nat, height: nat, grid: seq<seq<char>>)
  {
    predicate WellFormed() {
      |grid| == height && forall r | 0 <= r < |grid| :: |grid[r]| == width
    }

    predicate InBounds(c: Cell) {
      0 <= c.0 < width && 0 <= c.1 < height
    }

    /** A cell the robot may enter: inside and `'0'`. */
    predicate Open(c: Cell)
      requires WellFormed()
    {
      InBounds(c) && grid[c.1][c.0] == '0'
    }
  }

  /** Replaying a `U`/`R`/`D`/`L` answer from `start`: the cell reached, or `None` when a letter is
      not a move or a move leaves the free cells. */
  function Replay(m: Maze, start: Cell, path: seq<char>): Option<Cell>
    requires m.WellFormed()
  {
    if path == [] then Some(start)
    else
      match Replay(m, start, path[..|path| - 1])
      case None => None
      case Some(c) =>
        match DirIndex(path[|path| - 1])
        case None => None
        case Some(k) => if m.Open(Neighbor(c, k)) then Some(Neighbor(c, k)) else None
  }

  function Reverse(s: seq<char>): (r: seq<char>)
    ensures |r| == |s| && forall i | 0 <= i < |s| :: r[i] == s[|s| - 1 - i]
  {
    if s == [] then [] else Reverse(s[1..]) + [s[0]]
  }

  // ----- The search, step by step

  type Link = Option<(int, int, char)>

  /** The search's state: `visited`, `prev` and the queue `q` with `q[..head]` already taken off it,
      together with what the proof keeps beside them: the path `paths[i]` that reached `q[i]` and the
      position `idx[c]` of each queued cell. */
  datatype Search = Search(visited: seq<seq<bool>>, prev: seq<seq<Link>>, q: seq<Cell>, head: nat,
                           paths: seq<seq<char>>, idx: map<Cell, nat>)

  /** A `height` by `width` list of rows, as `visited` and `prev` are built. */
  ghost predicate Shaped<T>(m: Maze, g: seq<seq<T>>) {
    |g| == m.height && forall y | 0 <= y < |g| :: |g[y]| == m.width
  }

  ghost predicate Sane(m: Maze, s: Search) {
    Shaped(m, s.visited) && Shaped(m, s.prev) && s.head <= |s.q| && |s.paths| == |s.q|
  }

  /** Before the loop: only the start is visited and queued. */
  ghost function Begin(m: Maze, start: Cell): (s: Search)
    requires m.InBounds(start)
    ensures Sane(m, s)
  {
    var visited := seq(m.height, y => seq(m.width, x => false));
    Search(visited[start.1 := visited[start.1][start.0 := true]], seq(m.height, y => seq(m.width, x => None)),
           [start], 0, [[]], map[start := 0])
  }

  /** One turn of the `directions` loop for the cell last taken from the queue: its neighbour `k` is
      marked, linked back and queued when it is inside, not yet visited and free. */
  ghost function TryMove(m: Maze, s: Search, k: nat): (r: Search)
    requires m.WellFormed() && Sane(m, s) && 0 < s.head && k < 4
    ensures Sane(m, r) && r.head == s.head && s.q <= r.q
  {
    var cur := s.q[s.head - 1];
    var n := Neighbor(cur, k);
    var ch := Directions[k].2;
    if m.InBounds(n) && !s.visited[n.1][n.0] && m.grid[n.1][n.0] == '0' then
      s.(visited := s.visited[n.1 := s.visited[n.1][n.0 := true]],
         prev := s.prev[n.1 := s.prev[n.1][n.0 := Some((cur.0, cur.1, ch))]],
         q := s.q + [n], paths := s.paths + [s.paths[s.head - 1] + [ch]], idx := s.idx[n := |s.q|])
    else s
  }

  /** The first `k` turns of the `directions` loop. */
  ghost function ExpandUpTo(m: Maze, s: Search, k: nat): (r: Search)
    requires m.WellFormed() && Sane(m, s) && 0 < s.head && k <= 4
    ensures Sane(m, r) && r.head == s.head && s.q <= r.q
  {
    if k == 0 then s else TryMove(m, ExpandUpTo(m, s, k - 1), k - 1)
  }

  /** The search after `n` turns of the `while dq` loop that did not stop it: each takes the next cell
      off the queue and expands it. The state stays put once the queue is empty or its next cell is
      the exit. */
  ghost function Steps(m: Maze, start: Cell, exitPos: Cell, n: nat): (s: Search)
    requires m.WellFormed() && m.InBounds(start)
    ensures Sane(m, s)
  {
    if n == 0 then Begin(m, start)
    else
      var s := Steps(m, start, exitPos, n - 1);
      if s.head < |s.q| && s.q[s.head] != exitPos then ExpandUpTo(m, s.(head := s.head + 1), 4) else s
  }

  // ----- The solver

  /** `solve_maze(width, height, start, exit_pos, grid)`: breadth-first search from `start`, then the
      path read back along `prev`. The answer replays from `start` to the exit through free cells and
      no answer is shorter; there is none exactly when no path reaches the exit. */
  method SolveMaze(width: nat, height: nat, start: Cell, exitPos: Cell, grid: seq<seq<char>>)
    returns (path: Option<seq<char>>)
    requires Maze(width, height, grid).WellFormed()
    requires Maze(width, height, grid).InBounds(start) && Maze(width, height, grid).InBounds(exitPos)
    ensures var m := Maze(width, height, grid);
            path.Some? ==> Replay(m, start, path.value) == Some(exitPos)
                           && forall p | Replay(m, start, p) == Some(exitPos) :: |path.value| <= |p|
    ensures path.None? <==> forall p :: Replay(Maze(width, height, grid), start, p) != Some(exitPos)
    ensures start == exitPos ==> path == Some([])
  {
    var m := Maze(width, height, grid);
    var visited := seq(height, y => seq(width, x => false));
    var prev: seq<seq<Link>> := seq(height, y => seq(width, x => None));
    var (sx, sy) := start;
    var (ex, ey) := exitPos;
    visited := visited[sy := visited[sy][sx := true]];
    var q := [(sx, sy)];
    var head := 0;
    ghost var n := 0;
    ghost var found := false;
    while head < |q|
      invariant Mirrors(m, start, exitPos, n, visited, prev, q, head) && !found
      decreases width * height - head
    {
      QueueBounded(m, start, exitPos, n);
      ghost var s := Steps(m, start, exitPos, n);
      var (x, y) := q[head];
      head := head + 1;
      if (x, y) == (ex, ey) {
        found := true;
        break;
      }
      visited, prev, q := Expand(m, visited, prev, q, head, s.(head := head));
      n := n + 1;
    }
    ghost var s := Steps(m, start, exitPos, n);
    if found {
      WhenFound(m, start, exitPos, n);
    } else {
      WhenExhausted(m, start, exitPos, n);
    }
    if !visited[ey][ex] {
      return None;
    }
    var back := ReadBack(m, start, exitPos, prev, q, s.paths, s.idx);
    path := Some(Reverse(back));
  }

  /** The method's variables are those of `Steps(n)`, with the exit possibly taken off the queue. */
  ghost predicate Mirrors(m: Maze, start: Cell, exitPos: Cell, n: nat,
                          visited: seq<seq<bool>>, prev: seq<seq<Link>>, q: seq<Cell>, head: nat)
    requires m.WellFormed() && m.InBounds(start)
  {
    var s := Steps(m, start, exitPos, n);
    (visited, prev, q, head) == (s.visited, s.prev, s.q, s.head)
  }

  /** The `for dx, dy, dirc in directions` loop for the cell at `head - 1`, just taken from the queue. */
  method Expand(m: Maze, visited0: seq<seq<bool>>, prev0: seq<seq<Link>>, q0: seq<Cell>, head: nat, ghost s0: Search)
    returns (visited: seq<seq<bool>>, prev: seq<seq<Link>>, q: seq<Cell>)
    requires m.WellFormed() && Sane(m, s0) && 0 < head
    requires s0.visited == visited0 && s0.prev == prev0 && s0.q == q0 && s0.head == head
    ensures var s := ExpandUpTo(m, s0, 4); visited == s.visited && prev == s.prev && q == s.q
  {
    visited, prev, q := visited0, prev0, q0;
    var (x, y) := q[head - 1];
    var k := 0;
    while k < 4
      invariant k <= 4
      invariant var s := ExpandUpTo(m, s0, k); visited == s.visited && prev == s.prev && q == s.q
    {
      visited, prev, q := Move(m, x, y, k, visited, prev, q, ExpandUpTo(m, s0, k));
      k := k + 1;
    }
  }

  /** One turn of the `directions` loop, from the cell `(x, y)`. */
  method Move(m: Maze, x: int, y: int, k: nat, visited0: seq<seq<bool>>, prev0: seq<seq<Link>>, q0: seq<Cell>, ghost s0: Search)
    returns (visited: seq<seq<bool>>, prev: seq<seq<Link>>, q: seq<Cell>)
    requires m.WellFormed() && Sane(m, s0) && 0 < s0.head && k < 4 && s0.q[s0.head - 1] == (x, y)
    requires s0.visited == visited0 && s0.prev == prev0 && s0.q == q0
    ensures var s := TryMove(m, s0, k); visited == s.visited && prev == s.prev && q == s.q
  {
    visited, prev, q := visited0, prev0, q0;
    var (dx, dy, dirc) := Directions[k];
    var (nx, ny) := (x + dx, y + dy);
    if 0 <= nx < m.width && 0 <= ny < m.height && !visited[ny][nx] && m.grid[ny][nx] == '0' {
      visited := visited[ny := visited[ny][nx := true]];
      prev := prev[ny := prev[ny][nx := Some((x, y, dirc))]];
      q := q + [(nx, ny)];
    }
  }

  /** `while (cx, cy) != (sx, sy)`: the letters along `prev` from the exit back to the start, last
      move first. */
  method ReadBack(m: Maze, start: Cell, exitPos: Cell, prev: seq<seq<Link>>,
                  q: seq<Cell>, ghost paths: seq<seq<char>>, ghost idx: map<Cell, nat>)
    returns (back: seq<char>)
    requires m.WellFormed() && 0 < |q| && |paths| == |q| && q[0] == start && paths[0] == [] && Indexed(q, idx)
    requires Linked(m, q, paths, idx, prev) && exitPos in idx
    ensures Reverse(back) == paths[idx[exitPos]]
  {
    var cur := exitPos;
    back := [];
    while cur != start
      invariant cur in idx
      invariant paths[idx[cur]] + Reverse(back) == paths[idx[exitPos]]
      decreases idx[cur]
    {
      ghost var i := idx[cur];
      assert q[i] == cur && LinkOK(m, q, paths, idx, prev, i);
      var (px, py, dirc) := prev[cur.1][cur.0].value;
      assert paths[i] == paths[idx[(px, py)]] + [dirc];
      assert Reverse(back + [dirc]) == [dirc] + Reverse(back);
      back := back + [dirc];
      cur := (px, py);
    }
  }

  // ----- What the search keeps true

  /** `idx` gives every queued cell its position, so no cell is queued twice. */
  ghost predicate Indexed(q: seq<Cell>, idx: map<Cell, nat>) {
    (forall i | 0 <= i < |q| :: q[i] in idx && idx[q[i]] == i)
    && (forall c | c in idx :: idx[c] < |q| && q[idx[c]] == c)
  }

  /** `visited` marks exactly the queued cells. */
  ghost predicate VisitedIs(m: Maze, visited: seq<seq<bool>>, idx: map<Cell, nat>) {
    Shaped(m, visited)
    && forall y, x | 0 <= y < m.height && 0 <= x < m.width :: visited[y][x] <==> (x, y) in idx
  }

  /** Every queued cell is reached from the start by the path `paths[i]`. */
  ghost predicate Reached(m: Maze, start: Cell, q: seq<Cell>, paths: seq<seq<char>>)
    requires m.WellFormed()
  {
    |paths| == |q| && forall i | 0 <= i < |q| :: PathTo(m, start, q, paths, i)
  }

  ghost predicate PathTo(m: Maze, start: Cell, q: seq<Cell>, paths: seq<seq<char>>, i: nat)
    requires m.WellFormed() && i < |q| && |paths| == |q|
  {
    Replay(m, start, paths[i]) == Some(q[i])
  }

  /** Path lengths never decrease along the queue, and from the cell at `e` on they span at most two
      layers. */
  ghost predicate Layered(paths: seq<seq<char>>, e: nat) {
    (forall i, j | 0 <= i <= j < |paths| :: |paths[i]| <= |paths[j]|)
    && (e < |paths| ==> |paths[|paths| - 1]| <= |paths[e]| + 1)
  }

  /** `prev` leads from every queued cell but the start to an earlier one, along its path. */
  ghost predicate Linked(m: Maze, q: seq<Cell>, paths: seq<seq<char>>, idx: map<Cell, nat>, prev: seq<seq<Link>>) {
    Shaped(m, prev) && |paths| == |q|
    && (forall i | 0 <= i < |q| :: m.InBounds(q[i]))
    && forall i | 0 < i < |q| :: LinkOK(m, q, paths, idx, prev, i)
  }

  ghost predicate LinkOK(m: Maze, q: seq<Cell>, paths: seq<seq<char>>, idx: map<Cell, nat>, prev: seq<seq<Link>>, i: nat)
    requires Shaped(m, prev) && i < |q| && |paths| == |q| && m.InBounds(q[i])
  {
    prev[q[i].1][q[i].0].Some?
    && var (px, py, ch) := prev[q[i].1][q[i].0].value;
       (px, py) in idx && idx[(px, py)] < i && paths[i] == paths[idx[(px, py)]] + [ch]
  }

  /** The neighbour `k` of the cell at `i`, when free, is queued at most one layer further. */
  ghost predicate Settled(m: Maze, q: seq<Cell>, paths: seq<seq<char>>, idx: map<Cell, nat>, i: nat, k: nat)
    requires m.WellFormed() && i < |q| && |paths| == |q| && Indexed(q, idx) && k < 4
  {
    m.Open(Neighbor(q[i], k)) ==> Neighbor(q[i], k) in idx && |paths[idx[Neighbor(q[i], k)]]| <= |paths[i]| + 1
  }

  /** The cells before `e` have been expanded. */
  ghost predicate Expanded(m: Maze, q: seq<Cell>, paths: seq<seq<char>>, idx: map<Cell, nat>, e: nat)
    requires m.WellFormed()
    requires e <= |q| && |paths| == |q| && Indexed(q, idx)
  {
    forall i, k | 0 <= i < e && 0 <= k < 4 :: Settled(m, q, paths, idx, i, k)
  }

  /** The breadth-first invariant, with the cells before `e` expanded. */
  ghost predicate Bfs(m: Maze, start: Cell, s: Search, e: nat)
    requires m.WellFormed()
  {
    Sane(m, s) && 0 < |s.q| && s.q[0] == start && e <= s.head && s.paths[0] == []
    && Indexed(s.q, s.idx) && VisitedIs(m, s.visited, s.idx) && Reached(m, start, s.q, s.paths)
    && Layered(s.paths, e) && Linked(m, s.q, s.paths, s.idx, s.prev) && Expanded(m, s.q, s.paths, s.idx, e)
  }

  /** Within the `directions` loop: the cell at `head - 1` is being expanded and its first `k`
      neighbours are settled. */
  ghost predicate Partly(m: Maze, start: Cell, s: Search, i: nat, k: nat)
    requires m.WellFormed()
  {
    s.head == i + 1 && k <= 4 && Bfs(m, start, s, i)
    && forall j | 0 <= j < k :: Settled(m, s.q, s.paths, s.idx, i, j)
  }

  lemma BeginBfs(m: Maze, start: Cell)
    requires m.WellFormed() && m.InBounds(start)
    ensures Bfs(m, start, Begin(m, start), 0)
  {
    var s := Begin(m, start);
    assert Replay(m, start, s.paths[0]) == Some(start);
  }

  lemma TryMoveKeeps(m: Maze, start: Cell, s: Search, i: nat, k: nat)
    requires m.WellFormed() && k < 4 && Partly(m, start, s, i, k)
    ensures Partly(m, start, TryMove(m, s, k), i, k + 1)
  {
    var n := Neighbor(s.q[i], k);
    if m.InBounds(n) && !s.visited[n.1][n.0] && m.grid[n.1][n.0] == '0' {
      Enqueued(m, start, s, i, k, TryMove(m, s, k));
    } else {
      Skipped(m, s.visited, s.q, s.paths, s.idx, i, k);
    }
  }

  /** The neighbour `k` is free and new: queuing it keeps the invariant. */
  lemma Enqueued(m: Maze, start: Cell, s: Search, i: nat, k: nat, r: Search)
    requires m.WellFormed() && k < 4 && Partly(m, start, s, i, k)
    requires var n := Neighbor(s.q[i], k); m.InBounds(n) && !s.visited[n.1][n.0] && m.grid[n.1][n.0] == '0'
    requires r == TryMove(m, s, k)
    ensures Partly(m, start, r, i, k + 1)
  {
    var n := Neighbor(s.q[i], k);
    IndexedGrow(s.q, s.idx, n);
    VisitedGrow(m, s.visited, s.idx, n, |s.q|);
    ReachedGrow(m, start, s.q, s.paths, i, k);
    LayeredGrow(s.paths, i, Directions[k].2);
    LinkedGrow(m, s.q, s.paths, s.idx, s.prev, i, k);
    ExpandedGrow(m, s.q, s.paths, s.idx, i, n, r.q, r.paths, r.idx);
    SettledGrow(m, s.q, s.paths, s.idx, i, k, r.q, r.paths, r.idx);
  }

  lemma {:induction false} ExpandKeeps(m: Maze, start: Cell, s: Search, i: nat, k: nat)
    requires m.WellFormed() && k <= 4 && Partly(m, start, s, i, 0)
    ensures Partly(m, start, ExpandUpTo(m, s, k), i, k)
  {
    if k > 0 {
      ExpandKeeps(m, start, s, i, k - 1);
      TryMoveKeeps(m, start, ExpandUpTo(m, s, k - 1), i, k - 1);
    }
  }

  /** Taking the next cell off the queue and expanding it keeps the invariant, one more cell expanded. */
  lemma StepKeeps(m: Maze, start: Cell, s: Search)
    requires m.WellFormed() && Bfs(m, start, s, s.head) && s.head < |s.q|
    ensures Bfs(m, start, ExpandUpTo(m, s.(head := s.head + 1), 4), s.head + 1)
  {
    var s' := s.(head := s.head + 1);
    assert Partly(m, start, s', s.head, 0);
    ExpandKeeps(m, start, s', s.head, 4);
    var r := ExpandUpTo(m, s', 4);
    ExpandedStep(m, r.q, r.paths, r.idx, s.head);
    LayeredNext(r.paths, s.head);
  }

  /** After any number of turns the invariant holds with everything taken off the queue expanded. */
  lemma {:induction false} StepsKeepBfs(m: Maze, start: Cell, exitPos: Cell, n: nat)
    requires m.WellFormed() && m.InBounds(start)
    ensures Bfs(m, start, Steps(m, start, exitPos, n), Steps(m, start, exitPos, n).head)
  {
    if n == 0 {
      BeginBfs(m, start);
    } else {
      StepsKeepBfs(m, start, exitPos, n - 1);
      var s := Steps(m, start, exitPos, n - 1);
      StepOrStay(m, start, exitPos, s, Steps(m, start, exitPos, n));
    }
  }

  lemma StepOrStay(m: Maze, start: Cell, exitPos: Cell, s: Search, r: Search)
    requires m.WellFormed() && Bfs(m, start, s, s.head)
    requires r == if s.head < |s.q| && s.q[s.head] != exitPos then ExpandUpTo(m, s.(head := s.head + 1), 4) else s
    ensures Bfs(m, start, r, r.head)
  {
    if s.head < |s.q| && s.q[s.head] != exitPos {
      StepKeeps(m, start, s);
    }
  }

  ghost predicate NotTaken(s: Search, c: Cell)
    requires s.head <= |s.q|
  {
    forall i | 0 <= i < s.head :: s.q[i] != c
  }

  lemma QueueBounded(m: Maze, start: Cell, exitPos: Cell, n: nat)
    requires m.WellFormed() && m.InBounds(start)
    ensures |Steps(m, start, exitPos, n).q| <= m.width * m.height
  {
    StepsKeepBfs(m, start, exitPos, n);
    var s := Steps(m, start, exitPos, n);
    CountQueued(m, s.q, s.idx);
  }

  /** The search stopped at the exit: it is visited, and its path, the one `prev` leads back along, is
      a shortest one. */
  lemma WhenFound(m: Maze, start: Cell, exitPos: Cell, n: nat)
    requires m.WellFormed() && m.InBounds(start) && m.InBounds(exitPos)
    requires var s := Steps(m, start, exitPos, n); s.head < |s.q| && s.q[s.head] == exitPos
    ensures var s := Steps(m, start, exitPos, n);
            s.visited[exitPos.1][exitPos.0] && exitPos in s.idx && s.idx[exitPos] == s.head
            && 0 < |s.q| && s.q[0] == start && s.paths[0] == [] && Indexed(s.q, s.idx)
            && Linked(m, s.q, s.paths, s.idx, s.prev)
            && Replay(m, start, s.paths[s.head]) == Some(exitPos)
            && (forall p | Replay(m, start, p) == Some(exitPos) :: |s.paths[s.head]| <= |p|)
            && (start == exitPos ==> s.paths[s.head] == [])
  {
    StepsKeepBfs(m, start, exitPos, n);
    ExitNotExpanded(m, start, exitPos, n);
    var s := Steps(m, start, exitPos, n);
    ShortestPath(m, start, exitPos, s.q, s.head, s.paths, s.idx);
    assert PathTo(m, start, s.q, s.paths, s.head);
  }

  /** The queue ran out: the exit was never visited, and no path reaches it. */
  lemma WhenExhausted(m: Maze, start: Cell, exitPos: Cell, n: nat)
    requires m.WellFormed() && m.InBounds(start) && m.InBounds(exitPos)
    requires var s := Steps(m, start, exitPos, n); s.head == |s.q|
    ensures !Steps(m, start, exitPos, n).visited[exitPos.1][exitPos.0] && start != exitPos
    ensures forall p :: Replay(m, start, p) != Some(exitPos)
  {
    StepsKeepBfs(m, start, exitPos, n);
    ExitNotExpanded(m, start, exitPos, n);
    var s := Steps(m, start, exitPos, n);
    NoneMeansUnreachable(m, start, exitPos, s.q, s.paths, s.idx);
  }

  /** The exit is never expanded: the search stops when it comes off the queue. */
  lemma {:induction false} ExitNotExpanded(m: Maze, start: Cell, exitPos: Cell, n: nat)
    requires m.WellFormed() && m.InBounds(start)
    ensures NotTaken(Steps(m, start, exitPos, n), exitPos)
  {
    if n > 0 {
      ExitNotExpanded(m, start, exitPos, n - 1);
      var s := Steps(m, start, exitPos, n - 1);
      if s.head < |s.q| && s.q[s.head] != exitPos {
        var r := ExpandUpTo(m, s.(head := s.head + 1), 4);
        assert Steps(m, start, exitPos, n) == r;
        assert s.q == r.q[..|s.q|];
        forall i | 0 <= i < r.head ensures r.q[i] != exitPos {
          assert r.q[i] == s.q[i];
          if i < s.head {
            assert s.q[i] != exitPos;
          } else {
            assert i == s.head;
          }
        }
      }
    }
  }

  lemma IndexedGrow(q: seq<Cell>, idx: map<Cell, nat>, n: Cell)
    requires Indexed(q, idx) && n !in idx
    ensures Indexed(q + [n], idx[n := |q|])
  {
  }

  lemma VisitedGrow(m: Maze, visited: seq<seq<bool>>, idx: map<Cell, nat>, n: Cell, v: nat)
    requires VisitedIs(m, visited, idx) && m.InBounds(n)
    ensures VisitedIs(m, visited[n.1 := visited[n.1][n.0 := true]], idx[n := v])
  {
  }

  lemma ReachedGrow(m: Maze, start: Cell, q: seq<Cell>, paths: seq<seq<char>>, i: nat, k: nat)
    requires m.WellFormed() && Reached(m, start, q, paths) && i < |q| && k < 4
    requires m.Open(Neighbor(q[i], k))
    ensures Reached(m, start, q + [Neighbor(q[i], k)], paths + [paths[i] + [Directions[k].2]])
  {
    var p := paths[i] + [Directions[k].2];
    assert p[..|p| - 1] == paths[i];
    DirIndexOf(k);
    assert PathTo(m, start, q, paths, i);
    assert Replay(m, start, p) == Some(Neighbor(q[i], k));
    var q', paths' := q + [Neighbor(q[i], k)], paths + [p];
    forall j | 0 <= j < |q'| ensures PathTo(m, start, q', paths', j) {
      if j < |q| {
        assert PathTo(m, start, q, paths, j);
      }
    }
  }

  lemma LayeredGrow(paths: seq<seq<char>>, i: nat, ch: char)
    requires Layered(paths, i) && i < |paths|
    ensures Layered(paths + [paths[i] + [ch]], i)
  {
  }

  lemma LayeredNext(paths: seq<seq<char>>, e: nat)
    requires Layered(paths, e)
    ensures Layered(paths, e + 1)
  {
    if e + 1 < |paths| {
      assert |paths[e]| <= |paths[e + 1]|;
    }
  }

  lemma LinkedGrow(m: Maze, q: seq<Cell>, paths: seq<seq<char>>, idx: map<Cell, nat>, prev: seq<seq<Link>>, i: nat, k: nat)
    requires m.WellFormed() && Indexed(q, idx) && Linked(m, q, paths, idx, prev) && i < |q| && k < 4
    requires m.InBounds(Neighbor(q[i], k)) && Neighbor(q[i], k) !in idx
    ensures var n := Neighbor(q[i], k);
            Linked(m, q + [n], paths + [paths[i] + [Directions[k].2]], idx[n := |q|],
                   prev[n.1 := prev[n.1][n.0 := Some((q[i].0, q[i].1, Directions[k].2))]])
  {
    var n := Neighbor(q[i], k);
    var prev' := prev[n.1 := prev[n.1][n.0 := Some((q[i].0, q[i].1, Directions[k].2))]];
    var q', paths', idx' := q + [n], paths + [paths[i] + [Directions[k].2]], idx[n := |q|];
    forall j | 0 < j < |q'| ensures LinkOK(m, q', paths', idx', prev', j) {
      if j < |q| {
        assert q[j] in idx;
        assert LinkOK(m, q, paths, idx, prev, j);
      }
    }
  }

  lemma ExpandedGrow(m: Maze, q: seq<Cell>, paths: seq<seq<char>>, idx: map<Cell, nat>, e: nat, n: Cell,
                     q': seq<Cell>, paths': seq<seq<char>>, idx': map<Cell, nat>)
    requires m.WellFormed() && e <= |q| && |paths| == |q| && Indexed(q, idx) && n !in idx
    requires q' == q + [n] && |paths'| == |q'| && paths'[..|q|] == paths && idx' == idx[n := |q|]
    requires Expanded(m, q, paths, idx, e) && Indexed(q', idx')
    ensures Expanded(m, q', paths', idx', e)
  {
    forall i, k | 0 <= i < e && 0 <= k < 4 ensures Settled(m, q', paths', idx', i, k) {
      assert Settled(m, q, paths, idx, i, k);
    }
  }

  lemma SettledGrow(m: Maze, q: seq<Cell>, paths: seq<seq<char>>, idx: map<Cell, nat>, i: nat, k: nat,
                    q': seq<Cell>, paths': seq<seq<char>>, idx': map<Cell, nat>)
    requires m.WellFormed() && i < |q| && |paths| == |q| && Indexed(q, idx) && k < 4
    requires Neighbor(q[i], k) !in idx && q' == q + [Neighbor(q[i], k)] && paths' == paths + [paths[i] + [Directions[k].2]]
    requires idx' == idx[Neighbor(q[i], k) := |q|] && Indexed(q', idx')
    requires forall j | 0 <= j < k :: Settled(m, q, paths, idx, i, j)
    ensures forall j | 0 <= j < k + 1 :: Settled(m, q', paths', idx', i, j)
  {
    forall j | 0 <= j < k + 1
      ensures Settled(m, q', paths', idx', i, j)
    {
      if j < k {
        assert Settled(m, q, paths, idx, i, j);
      }
    }
  }

  /** A neighbour the search passes over is a wall, outside, or already queued no further away. */
  lemma Skipped(m: Maze, visited: seq<seq<bool>>, q: seq<Cell>, paths: seq<seq<char>>, idx: map<Cell, nat>, i: nat, k: nat)
    requires m.WellFormed() && i < |q| && k < 4
    requires Indexed(q, idx) && |paths| == |q| && Layered(paths, i) && VisitedIs(m, visited, idx)
    requires var n := Neighbor(q[i], k); !(m.InBounds(n) && !visited[n.1][n.0] && m.grid[n.1][n.0] == '0')
    ensures Settled(m, q, paths, idx, i, k)
  {
    var n := Neighbor(q[i], k);
    if m.Open(n) {
      assert |paths[idx[n]]| <= |paths[|paths| - 1]|;
    }
  }

  lemma ExpandedStep(m: Maze, q: seq<Cell>, paths: seq<seq<char>>, idx: map<Cell, nat>, i: nat)
    requires m.WellFormed() && i < |q| && |paths| == |q| && Indexed(q, idx)
    requires Expanded(m, q, paths, idx, i) && forall k | 0 <= k < 4 :: Settled(m, q, paths, idx, i, k)
    ensures Expanded(m, q, paths, idx, i + 1)
  {
  }

  /** No cell is queued twice, so the queue never outgrows the maze. */
  lemma CountQueued(m: Maze, q: seq<Cell>, idx: map<Cell, nat>)
    requires Indexed(q, idx) && forall i | 0 <= i < |q| :: m.InBounds(q[i])
    ensures |q| <= m.width * m.height
  {
    var cells := set i | 0 <= i < |q| :: q[i];
    CardOfIndexed(q, idx, |q|);
    forall c | c in cells ensures c in GridCells(m.width, m.height) {
      InGrid(m.width, m.height, c);
    }
    GridSize(m.width, m.height);
    SubsetCard(cells, GridCells(m.width, m.height));
  }

  lemma {:induction false} CardOfIndexed(q: seq<Cell>, idx: map<Cell, nat>, n: nat)
    requires Indexed(q, idx) && n <= |q|
    ensures |set i | 0 <= i < n :: q[i]| == n
  {
    if n > 0 {
      CardOfIndexed(q, idx, n - 1);
      var s := set i | 0 <= i < n - 1 :: q[i];
      assert (set i | 0 <= i < n :: q[i]) == s + {q[n - 1]};
      forall i | 0 <= i < n - 1 ensures q[i] != q[n - 1] {
        assert idx[q[i]] == i;
      }
    }
  }

  lemma SubsetCard<T>(a: set<T>, b: set<T>)
    requires a <= b
    ensures |a| <= |b|
  {
    assert b == a + (b - a);
  }

  /** The cells of the rows `0 .. h - 1` of a maze `w` wide. */
  ghost function GridCells(w: nat, h: nat): set<Cell> {
    if h == 0 then {} else GridCells(w, h - 1) + RowCells(w, h - 1)
  }

  /** The cells `(0, y) .. (w - 1, y)`. */
  ghost function RowCells(w: nat, y: int): set<Cell> {
    if w == 0 then {} else RowCells(w - 1, y) + {(w - 1, y)}
  }

  lemma {:induction false} InGrid(w: nat, h: nat, c: Cell)
    requires 0 <= c.0 < w && 0 <= c.1 < h
    ensures c in GridCells(w, h)
  {
    if c.1 < h - 1 {
      InGrid(w, h - 1, c);
    } else {
      InRow(w, c.1, c.0);
    }
  }

  lemma {:induction false} InRow(w: nat, y: int, x: int)
    requires 0 <= x < w
    ensures (x, y) in RowCells(w, y)
  {
    if x < w - 1 {
      InRow(w - 1, y, x);
    }
  }

  lemma {:induction false} RowsBelow(w: nat, h: nat, c: Cell)
    requires c in GridCells(w, h)
    ensures c.1 < h
  {
    if c in RowCells(w, h - 1) {
      RowAt(w, h - 1, c);
    } else {
      RowsBelow(w, h - 1, c);
    }
  }

  lemma {:induction false} RowAt(w: nat, y: int, c: Cell)
    requires c in RowCells(w, y)
    ensures c.1 == y && c.0 < w
  {
    if c != (w - 1, y) {
      RowAt(w - 1, y, c);
    }
  }

  lemma {:induction false} RowSize(w: nat, y: int)
    ensures |RowCells(w, y)| == w
  {
    if w > 0 {
      RowSize(w - 1, y);
      if (w - 1, y) in RowCells(w - 1, y) {
        RowAt(w - 1, y, (w - 1, y));
      }
    }
  }

  /** A maze `w` wide and `h` high has `w * h` cells. */
  lemma {:induction false} GridSize(w: nat, h: nat)
    ensures |GridCells(w, h)| == w * h
  {
    if h > 0 {
      GridSize(w, h - 1);
      RowSize(w, h - 1);
      GridCard(w, h);
      Distribute(w, h);
    }
  }

  /** The top row shares no cell with the rows below it. */
  lemma GridCard(w: nat, h: nat)
    requires h > 0
    ensures |GridCells(w, h)| == |GridCells(w, h - 1)| + |RowCells(w, h - 1)|
  {
    Disjoint(w, h - 1);
    DisjointCard(GridCells(w, h - 1), RowCells(w, h - 1));
  }

  lemma Disjoint(w: nat, y: nat)
    ensures forall c | c in GridCells(w, y) :: c !in RowCells(w, y)
  {
    forall c | c in GridCells(w, y) ensures c !in RowCells(w, y) {
      RowsBelow(w, y, c);
      if c in RowCells(w, y) {
        RowAt(w, y, c);
      }
    }
  }

  lemma DisjointCard(a: set<Cell>, b: set<Cell>)
    requires forall c | c in a :: c !in b
    ensures |a + b| == |a| + |b|
  {
    assert a * b == {};
  }

  lemma Distribute(w: nat, h: nat)
    requires h > 0
    ensures w * h == w * (h - 1) + w
  {
  }

  // ----- Why the answer is right

  /** Once the exit is at `e` with everything before it expanded, any path no longer than the exit's
      own ends at a queued cell whose path is no longer. */
  lemma {:induction false} ReachWithin(m: Maze, start: Cell, q: seq<Cell>, e: nat, paths: seq<seq<char>>, idx: map<Cell, nat>, p: seq<char>)
    requires m.WellFormed() && e < |q| && q[0] == start && |paths| == |q| && paths[0] == []
    requires Indexed(q, idx) && Layered(paths, e) && Expanded(m, q, paths, idx, e)
    requires |p| <= |paths[e]| && Replay(m, start, p).Some?
    ensures Replay(m, start, p).value in idx && |paths[idx[Replay(m, start, p).value]]| <= |p|
  {
    if p != [] {
      var p' := p[..|p| - 1];
      ReachWithin(m, start, q, e, paths, idx, p');
      var c := Replay(m, start, p').value;
      var k := DirIndex(p[|p| - 1]).value;
      assert |paths[idx[c]]| < |paths[e]|;
      assert q[idx[c]] == c;
      assert Settled(m, q, paths, idx, idx[c], k);
    }
  }

  /** When the queue runs out, every cell a path reaches has been queued. */
  lemma {:induction false} ReachAll(m: Maze, start: Cell, q: seq<Cell>, paths: seq<seq<char>>, idx: map<Cell, nat>, p: seq<char>)
    requires m.WellFormed() && 0 < |q| && q[0] == start && |paths| == |q|
    requires Indexed(q, idx) && Expanded(m, q, paths, idx, |q|)
    requires Replay(m, start, p).Some?
    ensures Replay(m, start, p).value in idx
  {
    if p != [] {
      var p' := p[..|p| - 1];
      ReachAll(m, start, q, paths, idx, p');
      var c := Replay(m, start, p').value;
      assert q[idx[c]] == c;
      assert Settled(m, q, paths, idx, idx[c], DirIndex(p[|p| - 1]).value);
    }
  }

  lemma NoneMeansUnreachable(m: Maze, start: Cell, exitPos: Cell, q: seq<Cell>, paths: seq<seq<char>>, idx: map<Cell, nat>)
    requires m.WellFormed() && 0 < |q| && q[0] == start && |paths| == |q|
    requires Indexed(q, idx) && Expanded(m, q, paths, idx, |q|) && exitPos !in idx
    ensures forall p :: Replay(m, start, p) != Some(exitPos)
  {
    forall p ensures Replay(m, start, p) != Some(exitPos) {
      if Replay(m, start, p) == Some(exitPos) {
        ReachAll(m, start, q, paths, idx, p);
      }
    }
  }

  lemma ShortestPath(m: Maze, start: Cell, exitPos: Cell, q: seq<Cell>, e: nat, paths: seq<seq<char>>, idx: map<Cell, nat>)
    requires m.WellFormed() && e < |q| && q[0] == start && q[e] == exitPos && |paths| == |q| && paths[0] == []
    requires Indexed(q, idx) && Layered(paths, e) && Expanded(m, q, paths, idx, e)
    ensures forall p | Replay(m, start, p) == Some(exitPos) :: |paths[e]| <= |p|
  {
    forall p | Replay(m, start, p) == Some(exitPos) ensures |paths[e]| <= |p| {
      if |p| < |paths[e]| {
        ReachWithin(m, start, q, e, paths, idx, p);
      }
    }
  }
}
