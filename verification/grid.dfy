/**
 * The map generator's grid: a matrix of cell codes (0 grass, 1 road) plus the
 * list of path cells, both filled in from the path coordinates.
 */
module Grid {
  import opened Geometry

  /** Cell code of a road cell; every other cell holds 0. */
  const Road: int := 1

  /** `map` is indexed row first, `map[y][x]`; `path` is `path_coordinates`. */
  datatype MapData = MapData(cells: seq<seq<int>>, path: seq<Point>)

  predicate InGrid(m: MapData, x: int, y: int) {
    0 <= y < |m.cells| && 0 <= x < |m.cells[y]|
  }

  /** The placement test's first half: the cell is road or on the path list. */
  predicate IsPathCell(m: MapData, x: int, y: int)
    requires InGrid(m, x, y)
  {
    m.cells[y][x] == Road || Point(x, y) in m.path
  }

  /** A fresh map: `height` rows of `width` grass cells and no path yet. */
  function NewMap(width: nat, height: nat): (m: MapData)
    ensures |m.cells| == height && m.path == []
    ensures forall y | 0 <= y < height :: |m.cells[y]| == width
    ensures forall y, x | 0 <= y < height && 0 <= x < width :: m.cells[y][x] != Road
  {
    MapData(seq(height, _ => seq(width, _ => 0)), [])
  }

  predicate SameShape(a: seq<seq<int>>, b: seq<seq<int>>) {
    |a| == |b| && forall y | 0 <= y < |a| :: |a[y]| == |b[y]|
  }

  /** Marks one cell as road; every other cell keeps its value. */
  function MarkCell(cells: seq<seq<int>>, c: Point): (r: seq<seq<int>>)
    requires 0 <= c.y < |cells| && 0 <= c.x < |cells[c.y]|
    ensures SameShape(cells, r)
    ensures r[c.y][c.x] == Road
    ensures forall y, x | 0 <= y < |cells| && 0 <= x < |cells[y]| && (y != c.y || x != c.x) ::
              r[y][x] == cells[y][x]
  {
    cells[c.y := cells[c.y][c.x := Road]]
  }

  /**
   * Marks every coordinate as road and appends it to the path list, in order.
   * Afterwards a cell is road exactly when it is one of the coordinates or was
   * road before, and no other cell changes.
   */
  function MarkPath(m: MapData, coords: seq<Point>): (r: MapData)
    requires forall c | c in coords :: InGrid(m, c.x, c.y)
    ensures r.path == m.path + coords
    ensures SameShape(m.cells, r.cells)
    ensures forall y, x | 0 <= y < |m.cells| && 0 <= x < |m.cells[y]| ::
              r.cells[y][x] == (if Point(x, y) in coords then Road else m.cells[y][x])
    decreases |coords|
  {
    if |coords| == 0 then m
    else
      var c := coords[0];
      assert c in coords;
      assert InGrid(m, c.x, c.y);
      var next := MapData(MarkCell(m.cells, c), m.path + [c]);
      assert forall d | d in coords[1..] :: InGrid(next, d.x, d.y) by {
        forall d | d in coords[1..] ensures InGrid(next, d.x, d.y) {
          assert d in coords;
          assert InGrid(m, d.x, d.y);
          assert |next.cells[d.y]| == |m.cells[d.y]|;
        }
      }
      var r := MarkPath(next, coords[1..]);
      assert forall p :: p in coords <==> p == c || p in coords[1..];
      assert m.path + coords == m.path + [c] + coords[1..];
      r
  }

  /**
   * On a freshly created map, after the path is loaded the placement
   * validator rejects a cell exactly when it lies on the path.
   */
  lemma LoadedPathIsExactlyBlocked(width: nat, height: nat, coords: seq<Point>, x: int, y: int)
    requires forall c | c in coords :: 0 <= c.x < width && 0 <= c.y < height
    requires 0 <= x < width && 0 <= y < height
    ensures var m := MarkPath(NewMap(width, height), coords);
            InGrid(m, x, y) && (IsPathCell(m, x, y) <==> Point(x, y) in coords)
  {
    var m0 := NewMap(width, height);
    var m := MarkPath(m0, coords);
    assert m0.cells[y][x] != Road;
    assert m.cells[y][x] == (if Point(x, y) in coords then Road else m0.cells[y][x]);
  }
}
