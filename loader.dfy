/** The maze world of the robot language (Lab3/src/loader.py): the map, the robot, and the checks
    `load_labyrinth` makes on the lines of a maze file. */
module Loader {
  import opened Wrappers
  import opened Text

  // ----- The map

  class WorldMap {
    const width: int
    const height: int
    /** `grid[y][x]` holds exactly when the cell is an obstacle */
    var grid: seq<seq<bool>>
    const exit: (int, int)

    ghost predicate Valid()
      reads this
    {
      |grid| == height && forall r | 0 <= r < |grid| :: |grid[r]| == width
    }

    constructor (width: int, height: int, grid: seq<seq<bool>>, exit: (int, int))
      ensures this.width == width && this.height == height && this.grid == grid && this.exit == exit
    {
      this.width := width;
      this.height := height;
      this.grid := grid;
      this.exit := exit;
    }

    predicate InBounds(x: int, y: int) {
      0 <= x < width && 0 <= y < height
    }

    /** `bar(x, y)`: an obstacle, or outside the map. */
    function Bar(x: int, y: int): bool
      requires Valid()
      reads this
    {
      if !InBounds(x, y) then true else grid[y][x]
    }

    /** `emp(x, y)` */
    function Emp(x: int, y: int): bool
      requires Valid()
      reads this
    {
      !Bar(x, y)
    }

    /** `set_cell(x, y, val)`: writes an in-bounds cell; outside the map nothing changes. Afterwards
        the cell reads `val` (outside, still barred) and every other cell reads as before. */
    method SetCell(x: int, y: int, val: bool)
      requires Valid()
      modifies this
      ensures Valid()
      ensures grid == if InBounds(x, y) then old(grid)[y := old(grid)[y][x := val]] else old(grid)
      ensures Bar(x, y) == (!InBounds(x, y) || val)
      ensures forall x', y' | x' != x || y' != y :: Bar(x', y') == old(Bar(x', y'))
    {
      if InBounds(x, y) {
        grid := grid[y := grid[y][x := val]];
      }
    }

    /** `clr(x, y)`: `set_cell(x, y, False)`, so an in-bounds cell becomes empty. */
    method Clr(x: int, y: int)
      requires Valid()
      modifies this
      ensures Valid()
      ensures grid == if InBounds(x, y) then old(grid)[y := old(grid)[y][x := false]] else old(grid)
      ensures Emp(x, y) <==> InBounds(x, y)
      ensures forall x', y' | x' != x || y' != y :: Bar(x', y') == old(Bar(x', y'))
    {
      SetCell(x, y, false);
    }
  }

  // ----- Directions

  datatype Direction = NORTH | SOUTH | EAST | WEST

  /** The keys of `DIR_DELTAS`. */
  function ParseDirection(s: string): (r: Option<Direction>)
    ensures r.Some? ==> DirectionName(r.value) == s
  {
    if s == "NORTH" then Some(NORTH)
    else if s == "SOUTH" then Some(SOUTH)
    else if s == "EAST" then Some(EAST)
    else if s == "WEST" then Some(WEST)
    else None
  }

  function DirectionName(d: Direction): string {
    match d
    case NORTH => "NORTH"
    case SOUTH => "SOUTH"
    case EAST => "EAST"
    case WEST => "WEST"
  }

  /** Every direction is spelled by its name, so the names are exactly the accepted keys. */
  lemma ParseDirectionName(d: Direction)
    ensures ParseDirection(DirectionName(d)) == Some(d)
  {
  }

  /** `DIR_DELTAS`: `y` grows downwards. */
  function Delta(d: Direction): (int, int) {
    match d
    case NORTH => (0, -1)
    case SOUTH => (0, 1)
    case EAST => (1, 0)
    case WEST => (-1, 0)
  }

  function RightTurn(d: Direction): Direction {
    match d
    case NORTH => EAST
    case EAST => SOUTH
    case SOUTH => WEST
    case WEST => NORTH
  }

  function LeftTurn(d: Direction): Direction {
    match d
    case NORTH => WEST
    case WEST => SOUTH
    case SOUTH => EAST
    case EAST => NORTH
  }

  function BackTurn(d: Direction): Direction {
    match d
    case NORTH => SOUTH
    case SOUTH => NORTH
    case EAST => WEST
    case WEST => EAST
  }

  /** The turn tables agree with each other and with the deltas: a left turn undoes a right turn, a
      back turn is two right turns, and a right turn rotates the delta clockwise on the screen. */
  lemma TurnTables(d: Direction)
    ensures LeftTurn(RightTurn(d)) == d && RightTurn(LeftTurn(d)) == d
    ensures BackTurn(d) == RightTurn(RightTurn(d))
    ensures RightTurn(RightTurn(RightTurn(RightTurn(d)))) == d
    ensures Delta(RightTurn(d)) == (-Delta(d).1, Delta(d).0)
    ensures Delta(BackTurn(d)) == (-Delta(d).0, -Delta(d).1)
  {
  }

  // ----- The robot

  class Robot {
    const world: WorldMap
    var x: int
    var y: int
    var orientation: Direction

    ghost predicate Valid()
      reads this, world
    {
      world.Valid()
    }

    /** A new robot stands at the start and faces north. */
    constructor (world: WorldMap, startX: int, startY: int)
      ensures this.world == world && x == startX && y == startY && orientation == NORTH
    {
      this.world := world;
      x := startX;
      y := startY;
      orientation := NORTH;
    }

    /** `step(direction)`: an unknown direction (after upper-casing) is a `ValueError`; a barred
        target cell gives `False` and no move; otherwise the robot moves one cell, faces that
        direction and the answer is `True`. */
    method Step(direction: string) returns (r: Result<bool>)
      requires Valid()
      modifies this
      ensures ParseDirection(Upper(direction)).None? ==>
                r.Err? && r.error.kind == ValueError && x == old(x) && y == old(y) && orientation == old(orientation)
      ensures ParseDirection(Upper(direction)).Some? ==>
                var d := ParseDirection(Upper(direction)).value;
                var (nx, ny) := (old(x) + Delta(d).0, old(y) + Delta(d).1);
                r == Ok(!world.Bar(nx, ny))
                && if r.value then x == nx && y == ny && orientation == d
                   else x == old(x) && y == old(y) && orientation == old(orientation)
    {
      var dirU := Upper(direction);
      var parsed := ParseDirection(dirU);
      if parsed.None? {
        return Err(Error(ValueError, "Unknown direction '" + direction + "'"));
      }
      var (dx, dy) := Delta(parsed.value);
      var nx, ny := x + dx, y + dy;
      if world.Bar(nx, ny) {
        return Ok(false);
      }
      x, y := nx, ny;
      orientation := parsed.value;
      r := Ok(true);
    }

    /** `back()`: turns around; always `True`. */
    method Back() returns (b: bool)
      modifies this
      ensures b && orientation == BackTurn(old(orientation)) && x == old(x) && y == old(y)
    {
      orientation := BackTurn(orientation);
      b := true;
    }

    /** `right()`: turns a quarter clockwise; always `True`. */
    method Right() returns (b: bool)
      modifies this
      ensures b && orientation == RightTurn(old(orientation)) && x == old(x) && y == old(y)
    {
      orientation := RightTurn(orientation);
      b := true;
    }

    /** `left()`: turns a quarter anticlockwise; always `True`. */
    method Left() returns (b: bool)
      modifies this
      ensures b && orientation == LeftTurn(old(orientation)) && x == old(x) && y == old(y)
    {
      orientation := LeftTurn(orientation);
      b := true;
    }

    /** A free cell: inside the map and no obstacle. */
    predicate Free(cx: int, cy: int)
      requires Valid()
      reads this, world
    {
      world.InBounds(cx, cy) && !world.Bar(cx, cy)
    }

    /** `look()`: the number of free cells straight ahead before the first obstacle or the edge of
        the map. Nothing changes. */
    method Look() returns (count: nat)
      requires Valid()
      ensures forall k | 1 <= k <= count :: var (cx, cy) := Ahead(x, y, orientation, k); Free(cx, cy)
      ensures var (cx, cy) := Ahead(x, y, orientation, count + 1); !Free(cx, cy)
    {
      var (dx, dy) := Delta(orientation);
      var cx, cy := x + dx, y + dy;
      count := 0;
      while world.InBounds(cx, cy) && !world.Bar(cx, cy)
        invariant (cx, cy) == Ahead(x, y, orientation, count + 1)
        invariant forall k | 1 <= k <= count :: var (ax, ay) := Ahead(x, y, orientation, k); Free(ax, ay)
        decreases if dx == 1 then world.width - cx else if dx == -1 then cx + 1 else if dy == 1 then world.height - cy else cy + 1
      {
        count := count + 1;
        cx, cy := cx + dx, cy + dy;
      }
    }
  }

  /** The cell `k` steps from `(x, y)` in direction `d`. */
  function Ahead(x: int, y: int, d: Direction, k: nat): (int, int) {
    if k == 0 then (x, y)
    else
      var (px, py) := Ahead(x, y, d, k - 1);
      (px + Delta(d).0, py + Delta(d).1)
  }

  // ----- Loading

  /** A stripped line the loader keeps: neither blank nor a `#` comment. */
  predicate Keep(s: string) {
    s != [] && s[0] != '#'
  }

  /** `[ln.strip() for ln in f]` */
  function Stripped(raw: seq<string>): (s: seq<string>)
    ensures |s| == |raw|
  {
    seq(|raw|, j requires 0 <= j < |raw| => Strip(raw[j]))
  }

  /** The lines of `lines` that `Keep` accepts, in order. */
  function KeepOnly(lines: seq<string>): (kept: seq<string>)
    ensures |kept| <= |lines|
    ensures forall i | 0 <= i < |kept| :: Keep(kept[i])
  {
    if lines == [] then []
    else if Keep(lines[0]) then [lines[0]] + KeepOnly(lines[1..])
    else KeepOnly(lines[1..])
  }

  /** `[ln.strip() for ln in f if ln.strip() and not ln.strip().startswith('#')]` */
  function KeptLines(raw: seq<string>): seq<string> {
    KeepOnly(Stripped(raw))
  }

  /** The positions from `i` on of the lines `Keep` accepts, in increasing order. */
  function KeptFrom(lines: seq<string>, i: nat): (idx: seq<nat>)
    requires i <= |lines|
    ensures forall k | 0 <= k < |idx| :: i <= idx[k] < |lines|
    decreases |lines| - i
  {
    if i == |lines| then []
    else
      var rest := KeptFrom(lines, i + 1);
      if Keep(lines[i]) then [i] + rest else rest
  }

  /** Each kept position holds a line `Keep` accepts. */
  lemma {:induction false} KeptFromKeeps(lines: seq<string>, i: nat)
    requires i <= |lines|
    ensures forall k | 0 <= k < |KeptFrom(lines, i)| :: Keep(lines[KeptFrom(lines, i)[k]])
    decreases |lines| - i
  {
    if i < |lines| {
      KeptFromKeeps(lines, i + 1);
      var rest := KeptFrom(lines, i + 1);
      if Keep(lines[i]) {
        var idx := [i] + rest;
        assert KeptFrom(lines, i) == idx;
        assert forall k | 0 < k < |idx| :: idx[k] == rest[k - 1];
      } else {
        assert KeptFrom(lines, i) == rest;
      }
    }
  }

  /** The kept positions are strictly increasing. */
  lemma {:induction false} KeptFromIncreasing(lines: seq<string>, i: nat)
    requires i <= |lines|
    ensures forall k, l | 0 <= k < l < |KeptFrom(lines, i)| :: KeptFrom(lines, i)[k] < KeptFrom(lines, i)[l]
    decreases |lines| - i
  {
    if i < |lines| {
      KeptFromIncreasing(lines, i + 1);
      var rest := KeptFrom(lines, i + 1);
      if Keep(lines[i]) {
        var idx := [i] + rest;
        assert KeptFrom(lines, i) == idx;
        assert idx[0] == i;
        assert forall k | 0 < k < |idx| :: idx[k] == rest[k - 1] && i < idx[k];
      } else {
        assert KeptFrom(lines, i) == rest;
      }
    }
  }

  /** Every line from `i` on that `Keep` accepts has its position among the kept ones. */
  lemma {:induction false} KeptFromComplete(lines: seq<string>, i: nat)
    requires i <= |lines|
    ensures forall j | i <= j < |lines| && Keep(lines[j]) :: j in KeptFrom(lines, i)
    decreases |lines| - i
  {
    if i < |lines| {
      KeptFromComplete(lines, i + 1);
      var rest := KeptFrom(lines, i + 1);
      var idx := KeptFrom(lines, i);
      assert idx == if Keep(lines[i]) then [i] + rest else rest;
      forall j | i <= j < |lines| && Keep(lines[j]) ensures j in idx {
        if j == i {
          assert idx[0] == i;
        } else {
          assert j in rest;
        }
      }
    }
  }

  /** The kept lines are the stripped raw lines at the kept positions, in order: every raw line
      whose stripped text is neither blank nor a comment is kept, and no other. */
  lemma KeptLinesSelect(raw: seq<string>)
    ensures var lines, idx := KeptLines(raw), KeptFrom(Stripped(raw), 0);
            |lines| == |idx| && forall k | 0 <= k < |idx| :: lines[k] == Strip(raw[idx[k]])
    ensures forall j | 0 <= j < |raw| && Keep(Strip(raw[j])) :: Strip(raw[j]) in KeptLines(raw)
  {
    var s := Stripped(raw);
    KeepOnlyAt(s, 0);
    assert s[0..] == s;
    var lines, idx := KeptLines(raw), KeptFrom(s, 0);
    KeptFromComplete(s, 0);
    forall j | 0 <= j < |raw| && Keep(Strip(raw[j])) ensures Strip(raw[j]) in lines {
      assert Keep(s[j]);
      var k :| 0 <= k < |idx| && idx[k] == j;
      assert lines[k] == s[j];
    }
  }

  lemma {:induction false} KeepOnlyAt(lines: seq<string>, i: nat)
    requires i <= |lines|
    ensures var kept, idx := KeepOnly(lines[i..]), KeptFrom(lines, i);
            |kept| == |idx| && forall k | 0 <= k < |idx| :: kept[k] == lines[idx[k]]
    decreases |lines| - i
  {
    if i < |lines| {
      KeepOnlyAt(lines, i + 1);
      var kept, idx := KeepOnly(lines[i + 1..]), KeptFrom(lines, i + 1);
      assert lines[i..][1..] == lines[i + 1..];
      if Keep(lines[i]) {
        assert KeepOnly(lines[i..]) == [lines[i]] + kept;
        assert KeptFrom(lines, i) == [i] + idx;
      } else {
        assert KeepOnly(lines[i..]) == kept;
        assert KeptFrom(lines, i) == idx;
      }
    }
  }

  /** Every character of `g` is a blank. */
  predicate Blank(g: string) {
    forall j | 0 <= j < |g| :: IsSpace(g[j])
  }

  /** `gaps[0] + pieces[0] + gaps[1] + … + pieces[n - 1] + gaps[n]` */
  function Weave(gaps: seq<string>, pieces: seq<string>): string
    requires |gaps| == |pieces| + 1
  {
    if pieces == [] then gaps[0] else gaps[0] + pieces[0] + Weave(gaps[1..], pieces[1..])
  }

  /** `text` is the pieces, in order, separated by runs of blanks, with blanks allowed at either
      end. With non-empty, blank-free pieces this says they are the maximal non-blank runs. */
  predicate Separates(text: string, pieces: seq<string>, gaps: seq<string>) {
    |gaps| == |pieces| + 1 && text == Weave(gaps, pieces)
    && (forall k | 0 <= k < |gaps| :: Blank(gaps[k]))
    && (forall k | 0 < k < |pieces| :: gaps[k] != [])
  }

  /** `s.split()`: the maximal runs of non-blank characters, `word` holding the run in progress. */
  function SplitFrom(s: string, word: string): (r: seq<string>)
    requires forall j | 0 <= j < |word| :: !IsSpace(word[j])
    ensures forall i | 0 <= i < |r| :: r[i] != [] && forall j | 0 <= j < |r[i]| :: !IsSpace(r[i][j])
    decreases |s|
  {
    if s == [] then (if word == [] then [] else [word])
    else if IsSpace(s[0]) then (if word == [] then SplitFrom(s[1..], []) else [word] + SplitFrom(s[1..], []))
    else SplitFrom(s[1..], word + [s[0]])
  }

  function Split(s: string): seq<string> {
    SplitFrom(s, [])
  }

  /** The pieces of `s.split()` are the maximal non-blank runs of `s`, in order. */
  lemma SplitRuns(s: string)
    ensures exists gaps :: Separates(s, Split(s), gaps)
  {
    var gaps := SplitGaps(s, []);
    assert [] + s == s;
    assert Separates(s, Split(s), gaps);
  }

  /** The blanks around and between the pieces `SplitFrom` finds in `word + s`. */
  lemma {:induction false} SplitGaps(s: string, word: string) returns (gaps: seq<string>)
    requires forall j | 0 <= j < |word| :: !IsSpace(word[j])
    ensures Separates(word + s, SplitFrom(s, word), gaps)
    decreases |s|
  {
    if s == [] {
      gaps := if word == [] then [[]] else [[], []];
      assert word + s == word;
    } else if !IsSpace(s[0]) {
      gaps := SplitGaps(s[1..], word + [s[0]]);
      assert (word + [s[0]]) + s[1..] == word + s;
    } else {
      var g := SplitGaps(s[1..], []);
      var r := SplitFrom(s[1..], []);
      assert [] + s[1..] == s[1..];
      gaps := BlankStep(s[0], s[1..], word, r, g);
      assert [s[0]] + s[1..] == s;
    }
  }

  /** A blank after the run in progress ends that run, and joins the blanks in front of the rest. */
  lemma BlankStep(c: char, rest: string, word: string, r: seq<string>, g: seq<string>) returns (gaps: seq<string>)
    requires IsSpace(c) && Separates(rest, r, g)
    ensures Separates(word + ([c] + rest), if word == [] then r else [word] + r, gaps)
  {
    WeaveBlankFront(c, g, r);
    var g1 := [[c] + g[0]] + g[1..];
    assert forall k | 0 < k < |g1| :: g1[k] == g[k];
    assert Blank(g1[0]);
    if word == [] {
      gaps := g1;
      assert word + ([c] + rest) == [c] + rest;
    } else {
      gaps := [[]] + g1;
      assert gaps[1..] == g1;
      assert Weave(gaps, [word] + r) == [] + word + Weave(g1, r);
    }
  }

  /** A blank in front of the text joins the first gap. */
  lemma WeaveBlankFront(c: char, gaps: seq<string>, pieces: seq<string>)
    requires |gaps| == |pieces| + 1
    ensures Weave([[c] + gaps[0]] + gaps[1..], pieces) == [c] + Weave(gaps, pieces)
  {
    var g1 := [[c] + gaps[0]] + gaps[1..];
    assert g1[1..] == gaps[1..];
  }

  /** `int(s)` on a word: an optional sign and decimal digits. */
  function ParseInt(s: string): Option<int> {
    if s != [] && (s[0] == '-' || s[0] == '+') then
      if |s| > 1 && AllDigits(s[1..]) then
        var v: int := DigitsValue(s[1..]);
        Some(if s[0] == '-' then -v else v)
      else None
    else if s != [] && AllDigits(s) then Some(DigitsValue(s))
    else None
  }

  /** `a_str, b_str = line.split()` then `int(a_str), int(b_str)`. */
  function ParsePair(line: string): Option<(int, int)> {
    var words := Split(line);
    if |words| != 2 then None
    else
      match (ParseInt(words[0]), ParseInt(words[1]))
      case (Some(a), Some(b)) => Some((a, b))
      case _ => None
  }

  /** The obstacle row of a map line: a cell is an obstacle exactly when its character is `'1'`. */
  function RowCells(row: string): (cells: seq<bool>)
    ensures |cells| == |row|
    ensures forall i | 0 <= i < |row| :: cells[i] <==> row[i] == '1'
  {
    if row == [] then [] else [row[0] == '1'] + RowCells(row[1..])
  }

  /** The file is well formed: three header pairs (size, start, exit), then exactly `height` rows of
      exactly `width` characters. */
  predicate Loadable(raw: seq<string>) {
    var lines := KeptLines(raw);
    |lines| >= 3
    && ParsePair(lines[0]).Some? && ParsePair(lines[1]).Some? && ParsePair(lines[2]).Some?
    && var (width, height) := ParsePair(lines[0]).value;
       |lines| - 3 == height
       && forall r | 3 <= r < |lines| :: |lines[r]| == width
  }

  /** The validating part of `load_labyrinth`, on the lines already read from the file. It fails
      with a `ValueError` exactly when the file is not `Loadable`; otherwise the map has the declared
      size, its obstacles are the `'1'` characters of the rows, and the robot stands at the start
      facing north. */
  method LoadLabyrinth(raw: seq<string>) returns (r: Result<(WorldMap, Robot)>)
    ensures r.Err? <==> !Loadable(raw)
    ensures r.Err? ==> r.error.kind == ValueError
    ensures r.Ok? ==>
              var (wm, robot) := r.value;
              var lines := KeptLines(raw);
              fresh(wm) && fresh(robot) && wm.Valid() && robot.Valid() && robot.world == wm
              && (wm.width, wm.height) == ParsePair(lines[0]).value
              && (robot.x, robot.y) == ParsePair(lines[1]).value && robot.orientation == NORTH
              && wm.exit == ParsePair(lines[2]).value
              && forall cy, cx | 0 <= cy < wm.height && 0 <= cx < wm.width :: wm.Bar(cx, cy) <==> lines[3 + cy][cx] == '1'
  {
    var lines := KeptLines(raw);
    if |lines| < 3 {
      return Err(Error(ValueError, "bad labyrinth file: at least 3 non-empty lines are needed"));
    }
    var size := ParsePair(lines[0]);
    if size.None? {
      return Err(Error(ValueError, "bad size line"));
    }
    var start := ParsePair(lines[1]);
    if start.None? {
      return Err(Error(ValueError, "bad start line"));
    }
    var exitPos := ParsePair(lines[2]);
    if exitPos.None? {
      return Err(Error(ValueError, "bad exit line"));
    }
    var (width, height) := size.value;
    var gridLines := lines[3..];
    if |gridLines| != height {
      return Err(Error(ValueError, "Expected " + IntToString(height) + " rows of map data, got " + NatToString(|gridLines|)));
    }
    var grid := BuildGrid(gridLines, width);
    if grid.None? {
      return Err(Error(ValueError, "Each map row must have width " + IntToString(width)));
    }
    var wm := new WorldMap(width, height, grid.value, exitPos.value);
    var robot := new Robot(wm, start.value.0, start.value.1);
    r := Ok((wm, robot));
    assert forall cy, cx | 0 <= cy < height && 0 <= cx < width :: wm.Bar(cx, cy) <==> gridLines[cy][cx] == '1';
  }

  /** The `for row in grid_lines` loop: every row must have the declared width, and becomes its
      obstacle row. */
  method BuildGrid(gridLines: seq<string>, width: int) returns (grid: Option<seq<seq<bool>>>)
    ensures grid.None? <==> exists r | 0 <= r < |gridLines| :: |gridLines[r]| != width
    ensures grid.Some? ==> |grid.value| == |gridLines|
                           && forall r | 0 <= r < |gridLines| :: |grid.value[r]| == width && grid.value[r] == RowCells(gridLines[r])
  {
    var rows: seq<seq<bool>> := [];
    var i := 0;
    while i < |gridLines|
      invariant i <= |gridLines| && |rows| == i
      invariant forall r | 0 <= r < i :: |gridLines[r]| == width && rows[r] == RowCells(gridLines[r])
    {
      var row := gridLines[i];
      if |row| != width {
        return None;
      }
      rows := rows + [RowCells(row)];
      i := i + 1;
    }
    grid := Some(rows);
  }

  /** `str(n)` for any integer. */
  function IntToString(n: int): string {
    if n < 0 then "-" + NatToString(-n) else NatToString(n)
  }
}
