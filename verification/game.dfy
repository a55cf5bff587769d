/**
  The grid layer of the game: positions, tile kinds, the row-major map with its
  bounded four-neighbour lookup, and the classification of walkable tiles into
  intersections and corners.
*/
module Game {
  import opened Common

  /** 2^32: the range of the source's `u32` and `usize` on the 32-bit values it casts. */
  const U32Limit: nat := 0x1_0000_0000
  /** 2^31: the first value a cast to `i32` no longer preserves. */
  const I32Limit: nat := 0x8000_0000

  datatype Position = Position(x: nat, y: nat)

  function Abs(v: int): nat
  {
    if v < 0 then -v else v
  }

  /**
    Manhattan distance between two positions. The source casts every coordinate to
    `i32` before subtracting; on coordinates below 2^31 those casts are exact, which
    is the domain this function covers.
  */
  function ManhattanDistance(p: Position, q: Position): (r: nat)
    requires p.x < I32Limit && p.y < I32Limit
    requires q.x < I32Limit && q.y < I32Limit
    ensures r < U32Limit
  {
    Abs(p.x - q.x) + Abs(p.y - q.y)
  }

  lemma ManhattanDistanceIsSymmetric(p: Position, q: Position)
    requires p.x < I32Limit && p.y < I32Limit
    requires q.x < I32Limit && q.y < I32Limit
    ensures ManhattanDistance(p, q) == ManhattanDistance(q, p)
  {
  }

  lemma ManhattanDistanceZeroIffEqual(p: Position, q: Position)
    requires p.x < I32Limit && p.y < I32Limit
    requires q.x < I32Limit && q.y < I32Limit
    ensures ManhattanDistance(p, q) == 0 <==> p == q
  {
  }

  /** The literal distances the repository's tests check. */
  lemma ManhattanDistanceExamples()
    ensures ManhattanDistance(Position(25, 25), Position(0, 0)) == 50
    ensures ManhattanDistance(Position(10, 12), Position(14, 18)) == 10
    ensures ManhattanDistance(Position(14, 18), Position(10, 12)) == 10
    ensures ManhattanDistance(Position(18, 14), Position(12, 10)) == 10
  {
  }

  datatype TileType = Floor | Wall | Door | Pellet | SuperPellet

  /** Every tile but a wall can be walked on. */
  predicate IsWalkable(t: TileType)
    ensures IsWalkable(t) <==> t != Wall
  {
    match t
    case Floor | Door | Pellet | SuperPellet => true
    case Wall => false
  }

  /**
    A tile holding something to eat. `is_pellet` is not part of this model's source
    files; it is taken here as the two tile kinds that hold pellets.
  */
  predicate IsPellet(t: TileType)
  {
    t == Pellet || t == SuperPellet
  }

  /** The map: tiles in row-major order and the row width; the height is derived. */
  datatype Map = Map(tiles: seq<TileType>, width: nat)

  /** A map whose width is positive and whose tile count fits the source's `u32` casts. */
  predicate WellFormed(m: Map)
  {
    0 < m.width < U32Limit && |m.tiles| < U32Limit
  }

  /** Number of rows: the tile count, truncated to `u32`, divided by the width. */
  function Height(m: Map): (r: nat)
    requires m.width > 0
    ensures r * m.width <= |m.tiles| % U32Limit < (r + 1) * m.width
  {
    (|m.tiles| % U32Limit) / m.width
  }

  /** Index of cell (x, y) in the row-major tile sequence. */
  function Index(m: Map, x: nat, y: nat): nat
  {
    m.width * y + x
  }

  /**
    The tile at (x, y); the source indexes the tile vector directly and panics past
    its end. On a well-formed map the `u32` index `width * y + x` cannot wrap,
    since it lies below the tile count.
  */
  function TileAt(m: Map, x: nat, y: nat): (r: TileType)
    requires WellFormed(m)
    requires Index(m, x, y) < |m.tiles|
    ensures r in m.tiles
  {
    m.tiles[Index(m, x, y)]
  }

  predicate InBounds(m: Map, x: int, y: int)
    requires m.width > 0
  {
    0 <= x < m.width && 0 <= y < Height(m)
  }

  /** Every cell inside the width and the derived height has its tile in the sequence. */
  lemma InBoundsIndex(m: Map, x: nat, y: nat)
    requires WellFormed(m)
    requires InBounds(m, x, y)
    ensures Index(m, x, y) < |m.tiles|
  {
    var w, n := m.width, |m.tiles|;
    assert n % U32Limit == n;
    assert y + 1 <= n / w;
    calc {
      w * y + x;
    <
      w * y + w;
    ==
      w * (y + 1);
    <=  { MulMonotone(w, y + 1, n / w); }
      w * (n / w);
    <=
      n;
    }
  }

  lemma MulMonotone(w: nat, a: nat, b: nat)
    requires a <= b
    ensures w * a <= w * b
  {
  }

  /** The cell one step from (x, y) in direction `d`, without any wrap-around. */
  function Shift(x: int, y: int, d: Direction): (int, int)
  {
    match d
    case Left => (x - 1, y)
    case Right => (x + 1, y)
    case Up => (x, y - 1)
    case Down => (x, y + 1)
  }

  /** One entry of a neighbour list: the direction taken and the tile found there. */
  datatype Neighbour = Neighbour(dir: Direction, tile: TileType)

  /** The order in which `Neighbours` lists directions: Left, Right, Up, Down. */
  function Rank(d: Direction): nat
  {
    match d
    case Left => 0
    case Right => 1
    case Up => 2
    case Down => 3
  }

  function Directions(ns: seq<Neighbour>): (ds: seq<Direction>)
    ensures |ds| == |ns|
    ensures forall i :: 0 <= i < |ns| ==> ds[i] == ns[i].dir
  {
    seq(|ns|, i requires 0 <= i < |ns| => ns[i].dir)
  }

  /** `n` is the neighbour of (x, y) in direction `n.dir`, inside the map, with its tile. */
  predicate Reports(m: Map, x: nat, y: nat, n: Neighbour)
    requires WellFormed(m)
  {
    var (nx, ny) := Shift(x, y, n.dir);
    InBounds(m, nx, ny) && (InBoundsIndex(m, nx, ny); n.tile == TileAt(m, nx, ny))
  }

  /**
    The source's probe of one direction: Left unless x = 0, Right unless
    x = width - 1, Up unless y = 0, Down unless y = height - 1.
  */
  function Probe(m: Map, x: nat, y: nat, d: Direction): seq<Neighbour>
    requires WellFormed(m)
    requires InBounds(m, x, y)
  {
    match d
    case Left =>
      if x > 0 then InBoundsIndex(m, x - 1, y); [Neighbour(Left, TileAt(m, x - 1, y))] else []
    case Right =>
      if x < m.width - 1 then InBoundsIndex(m, x + 1, y); [Neighbour(Right, TileAt(m, x + 1, y))] else []
    case Up =>
      if y > 0 then InBoundsIndex(m, x, y - 1); [Neighbour(Up, TileAt(m, x, y - 1))] else []
    case Down =>
      if y < Height(m) - 1 then InBoundsIndex(m, x, y + 1); [Neighbour(Down, TileAt(m, x, y + 1))] else []
  }

  /** A probe finds the cell one step away exactly when that cell lies inside the map. */
  lemma ProbeSpec(m: Map, x: nat, y: nat, d: Direction)
    requires WellFormed(m)
    requires InBounds(m, x, y)
    ensures var r := Probe(m, x, y, d);
      && |r| <= 1
      && (r != [] <==> InBounds(m, Shift(x, y, d).0, Shift(x, y, d).1))
      && (r != [] ==> r[0].dir == d && Reports(m, x, y, r[0]))
  {
  }

  /** The neighbours of (x, y) with their tiles, probed in the order Left, Right, Up, Down. */
  function Neighbours(m: Map, x: nat, y: nat): (r: seq<Neighbour>)
    requires WellFormed(m)
    requires InBounds(m, x, y)
    ensures |r| <= 4
  {
    Probe(m, x, y, Left) + Probe(m, x, y, Right) + Probe(m, x, y, Up) + Probe(m, x, y, Down)
  }

  /**
    The neighbour list holds at most four entries, one for each direction whose
    cell lies inside the map (the grid does not wrap), listed Left, Right, Up, Down,
    each with the tile found in that cell.
  */
  lemma NeighboursSpec(m: Map, x: nat, y: nat)
    requires WellFormed(m)
    requires InBounds(m, x, y)
    ensures var r := Neighbours(m, x, y);
      && |r| <= 4
      && (forall d :: d in Directions(r) <==> InBounds(m, Shift(x, y, d).0, Shift(x, y, d).1))
      && (forall i, j :: 0 <= i < j < |r| ==> Rank(r[i].dir) < Rank(r[j].dir))
      && (forall i :: 0 <= i < |r| ==> Reports(m, x, y, r[i]))
  {
    ProbeSpec(m, x, y, Left);
    ProbeSpec(m, x, y, Right);
    ProbeSpec(m, x, y, Up);
    ProbeSpec(m, x, y, Down);
    var pl, pr, pu, pd := Probe(m, x, y, Left), Probe(m, x, y, Right), Probe(m, x, y, Up), Probe(m, x, y, Down);
    PartsSpec(pl, pr, pu, pd);
    var r := Neighbours(m, x, y);
    forall i | 0 <= i < |r| ensures Reports(m, x, y, r[i]) {
      assert r[i] in pl || r[i] in pr || r[i] in pu || r[i] in pd;
    }
  }

  /** Four optional entries, one per direction, joined in the order Left, Right, Up, Down. */
  lemma PartsSpec(l: seq<Neighbour>, r: seq<Neighbour>, u: seq<Neighbour>, d: seq<Neighbour>)
    requires AtMostOne(l, Left) && AtMostOne(r, Right) && AtMostOne(u, Up) && AtMostOne(d, Down)
    ensures var all := l + r + u + d;
      && |all| <= 4
      && (forall dir :: dir in Directions(all) <==>
            || (dir == Left && l != []) || (dir == Right && r != [])
            || (dir == Up && u != []) || (dir == Down && d != []))
      && (forall i, j :: 0 <= i < j < |all| ==> Rank(all[i].dir) < Rank(all[j].dir))
  {
    var all := l + r + u + d;
    var ds := Directions(all);
    forall dir
      ensures dir in ds <==>
        || (dir == Left && l != []) || (dir == Right && r != [])
        || (dir == Up && u != []) || (dir == Down && d != [])
    {
      if dir in ds {
        var i :| 0 <= i < |ds| && ds[i] == dir;
        assert all[i] in l || all[i] in r || all[i] in u || all[i] in d;
      }
      if dir == Left && l != [] { assert ds[0] == dir; }
      if dir == Right && r != [] { assert ds[|l|] == dir; }
      if dir == Up && u != [] { assert ds[|l| + |r|] == dir; }
      if dir == Down && d != [] { assert ds[|l| + |r| + |u|] == dir; }
    }
  }

  /** The neighbours of (x, y) that can be walked on, in `Neighbours` order. */
  function WalkableNeighbours(m: Map, x: nat, y: nat): (r: seq<Neighbour>)
    requires WellFormed(m)
    requires InBounds(m, x, y)
  {
    KeepWalkable(Neighbours(m, x, y))
  }

  function KeepWalkable(ns: seq<Neighbour>): seq<Neighbour>
  {
    if ns == [] then []
    else if IsWalkable(ns[0].tile) then [ns[0]] + KeepWalkable(ns[1..])
    else KeepWalkable(ns[1..])
  }

  /** What `from_map` makes of one tile. */
  datatype TileClass = Intersection | Corner | Plain

  /**
    A walkable tile with more than two walkable neighbours is an intersection; one
    with exactly two, not opposite each other, is a corner; anything else is plain.
  */
  function Classify(m: Map, x: nat, y: nat): (r: TileClass)
    requires WellFormed(m)
    requires InBounds(m, x, y)
    ensures r != Plain ==> WalkableAt(m, x, y) && |WalkableNeighbours(m, x, y)| >= 2
  {
    InBoundsIndex(m, x, y);
    ClassOf(IsWalkable(TileAt(m, x, y)), WalkableNeighbours(m, x, y))
  }

  /** The decision `from_map` takes for a tile, given whether it is walkable and its walkable neighbours. */
  function ClassOf(walkable: bool, wn: seq<Neighbour>): (r: TileClass)
    ensures r != Plain ==> walkable && |wn| >= 2
    ensures r == Corner ==> |wn| == 2
  {
    if !walkable then Plain
    else if |wn| > 2 then Intersection
    else if |wn| == 2 && !IsOppositeTo(wn[0].dir, wn[1].dir) then Corner
    else Plain
  }

  /** Cell (x, y) lies inside the map and can be walked on. */
  predicate WalkableAt(m: Map, x: int, y: int)
    requires WellFormed(m)
  {
    InBounds(m, x, y) && (InBoundsIndex(m, x, y); IsWalkable(TileAt(m, x, y)))
  }

  function Count(b: bool): nat
  {
    if b then 1 else 0
  }

  /**
    The class of a cell from which of five cells can be walked on: the cell itself
    and its left, right, upper and lower neighbours.
  */
  function ClassFromWalkable(here: bool, left: bool, right: bool, up: bool, down: bool): TileClass
  {
    var n := Count(left) + Count(right) + Count(up) + Count(down);
    if !here then Plain
    else if n > 2 then Intersection
    else if n == 2 && !(left && right) && !(up && down) then Corner
    else Plain
  }

  lemma {:induction false} KeepWalkableAppend(a: seq<Neighbour>, b: seq<Neighbour>)
    ensures KeepWalkable(a + b) == KeepWalkable(a) + KeepWalkable(b)
  {
    if a != [] {
      assert (a + b)[0] == a[0];
      assert (a + b)[1..] == a[1..] + b;
      KeepWalkableAppend(a[1..], b);
      if IsWalkable(a[0].tile) {
        assert [a[0]] + (KeepWalkable(a[1..]) + KeepWalkable(b))
            == ([a[0]] + KeepWalkable(a[1..])) + KeepWalkable(b);
      }
    } else {
      assert a + b == b;
    }
  }

  /** Filtering one probe keeps its entry exactly when the probed cell can be walked on. */
  lemma KeepProbe(m: Map, x: nat, y: nat, d: Direction)
    requires WellFormed(m)
    requires InBounds(m, x, y)
    ensures var p := Probe(m, x, y, d);
      && KeepWalkable(p) == (if WalkableAt(m, Shift(x, y, d).0, Shift(x, y, d).1) then p else [])
      && (p != [] ==> p[0].dir == d)
  {
    ProbeSpec(m, x, y, d);
    var p := Probe(m, x, y, d);
    if p != [] {
      assert p == [p[0]];
      assert p[1..] == [];
    }
  }

  /** An optional single neighbour entry, in direction `d`. */
  predicate AtMostOne(ns: seq<Neighbour>, d: Direction)
  {
    ns == [] || (|ns| == 1 && ns[0].dir == d)
  }

  /** The decision on a list made of at most one entry per direction, in the order Left, Right, Up, Down. */
  lemma ClassOfParts(here: bool, l: seq<Neighbour>, r: seq<Neighbour>, u: seq<Neighbour>, d: seq<Neighbour>)
    requires AtMostOne(l, Left) && AtMostOne(r, Right) && AtMostOne(u, Up) && AtMostOne(d, Down)
    ensures ClassOf(here, l + r + u + d) == ClassFromWalkable(here, l != [], r != [], u != [], d != [])
  {
    var wn := l + r + u + d;
    if |wn| == 2 {
      if l != [] {
        assert wn[0] == l[0];
        assert wn[1] == (if r != [] then r[0] else if u != [] then u[0] else d[0]);
      } else if r != [] {
        assert wn[0] == r[0];
        assert wn[1] == (if u != [] then u[0] else d[0]);
      } else {
        assert wn[0] == u[0] && wn[1] == d[0];
      }
    }
  }

  /**
    A walkable cell is an intersection when more than two of its in-map neighbours
    can be walked on, and a corner when exactly two can, one horizontal and one
    vertical; every other cell is plain.
  */
  lemma ClassifyByWalkable(m: Map, x: nat, y: nat)
    requires WellFormed(m)
    requires InBounds(m, x, y)
    ensures Classify(m, x, y) == ClassFromWalkable(
      WalkableAt(m, x, y),
      WalkableAt(m, x - 1, y), WalkableAt(m, x + 1, y),
      WalkableAt(m, x, y - 1), WalkableAt(m, x, y + 1))
  {
    var kl, kr := KeepWalkable(Probe(m, x, y, Left)), KeepWalkable(Probe(m, x, y, Right));
    var ku, kd := KeepWalkable(Probe(m, x, y, Up)), KeepWalkable(Probe(m, x, y, Down));
    ClassifyIsClassOf(m, x, y);
    WalkableNeighboursByProbe(m, x, y);
    KeptProbe(m, x, y, Left);
    KeptProbe(m, x, y, Right);
    KeptProbe(m, x, y, Up);
    KeptProbe(m, x, y, Down);
    ClassOfParts(WalkableAt(m, x, y), kl, kr, ku, kd);
  }

  /** `Classify` is the decision on the cell's own walkability and its walkable neighbours. */
  lemma ClassifyIsClassOf(m: Map, x: nat, y: nat)
    requires WellFormed(m)
    requires InBounds(m, x, y)
    ensures Classify(m, x, y) == ClassOf(WalkableAt(m, x, y), WalkableNeighbours(m, x, y))
  {
  }

  /** The walkable part of one probe holds at most its direction's entry, present exactly when that cell is walkable. */
  lemma KeptProbe(m: Map, x: nat, y: nat, d: Direction)
    requires WellFormed(m)
    requires InBounds(m, x, y)
    ensures AtMostOne(KeepWalkable(Probe(m, x, y, d)), d)
    ensures KeepWalkable(Probe(m, x, y, d)) != [] <==> WalkableAt(m, Shift(x, y, d).0, Shift(x, y, d).1)
  {
    KeepProbe(m, x, y, d);
    ProbeSpec(m, x, y, d);
  }

  /** The walkable neighbours are the walkable entries of the four probes, joined in order. */
  lemma WalkableNeighboursByProbe(m: Map, x: nat, y: nat)
    requires WellFormed(m)
    requires InBounds(m, x, y)
    ensures WalkableNeighbours(m, x, y) ==
      KeepWalkable(Probe(m, x, y, Left)) + KeepWalkable(Probe(m, x, y, Right))
      + KeepWalkable(Probe(m, x, y, Up)) + KeepWalkable(Probe(m, x, y, Down))
  {
    var pl, pr, pu, pd := Probe(m, x, y, Left), Probe(m, x, y, Right), Probe(m, x, y, Up), Probe(m, x, y, Down);
    KeepWalkableAppend(pl + pr + pu, pd);
    KeepWalkableAppend(pl + pr, pu);
    KeepWalkableAppend(pl, pr);
  }

  /** The tiles `from_map` found: intersections and corners, each in scan order. */
  datatype MapInformation = MapInformation(intersections: seq<Position>, corners: seq<Position>)

  /** `p` is visited before cell (x, y) by a row-major scan. */
  predicate ScanBefore(p: Position, x: nat, y: nat)
  {
    p.y < y || (p.y == y && p.x < x)
  }

  /** Strictly increasing in row-major scan order (so no position twice). */
  predicate ScanOrdered(ps: seq<Position>)
  {
    forall i, j :: 0 <= i < j < |ps| ==> ScanBefore(ps[i], ps[j].x, ps[j].y)
  }

  /** The class of every cell as one total function of the coordinates; cells outside the map are plain. */
  function ClassGrid(m: Map): (nat, nat) -> TileClass
    requires WellFormed(m)
  {
    (cx: nat, cy: nat) => if InBounds(m, cx, cy) then Classify(m, cx, cy) else Plain
  }

  /**
    `ps` lists, in scan order, exactly the cells of class `k` in a `w` by `h` grid of
    classes that a row-major scan visits before cell (x, y).
  */
  ghost predicate ListsBefore(w: nat, h: nat, grid: (nat, nat) -> TileClass, ps: seq<Position>, k: TileClass, x: nat, y: nat)
  {
    && ScanOrdered(ps)
    && (forall i :: 0 <= i < |ps| ==>
          && ps[i].x < w && ps[i].y < h
          && grid(ps[i].x, ps[i].y) == k
          && ScanBefore(ps[i], x, y))
    && (forall cx: nat, cy: nat ::
          cx < w && cy < h && ScanBefore(Position(cx, cy), x, y) && grid(cx, cy) == k
          ==> Position(cx, cy) in ps)
  }

  /** `ps` lists, in scan order, exactly the cells of class `k` of the whole map. */
  ghost predicate Lists(m: Map, ps: seq<Position>, k: TileClass)
    requires WellFormed(m)
  {
    ListsBefore(m.width, Height(m), ClassGrid(m), ps, k, 0, Height(m))
  }

  /** `info` is what `from_map` reports for `m`. */
  ghost predicate Describes(m: Map, info: MapInformation)
    requires WellFormed(m)
  {
    Lists(m, info.intersections, Intersection) && Lists(m, info.corners, Corner)
  }

  /** Visiting cell (x, y) extends the listing by that cell when it has class `k`. */
  lemma ListsBeforeStep(w: nat, h: nat, grid: (nat, nat) -> TileClass, ps: seq<Position>, k: TileClass, x: nat, y: nat)
    requires x < w && y < h
    requires ListsBefore(w, h, grid, ps, k, x, y)
    ensures ListsBefore(w, h, grid, if grid(x, y) == k then ps + [Position(x, y)] else ps, k, x + 1, y)
  {
    var here := grid(x, y) == k;
    var qs := if here then ps + [Position(x, y)] else ps;
    if here {
      assert ScanOrdered(qs) by {
        forall i, j | 0 <= i < j < |qs| ensures ScanBefore(qs[i], qs[j].x, qs[j].y) {
          if j == |ps| {
            assert ScanBefore(ps[i], x, y);
          } else {
            assert ScanBefore(ps[i], ps[j].x, ps[j].y);
          }
        }
      }
    }
    forall cx: nat, cy: nat |
      cx < w && cy < h && ScanBefore(Position(cx, cy), x + 1, y) && grid(cx, cy) == k
      ensures Position(cx, cy) in qs
    {
      if !ScanBefore(Position(cx, cy), x, y) {
        assert qs[|qs| - 1] == Position(x, y);
      } else {
        assert Position(cx, cy) in ps;
      }
    }
  }

  /** Finishing a row moves the listing to the start of the next one. */
  lemma ListsBeforeNextRow(w: nat, h: nat, grid: (nat, nat) -> TileClass, ps: seq<Position>, k: TileClass, y: nat)
    requires ListsBefore(w, h, grid, ps, k, w, y)
    ensures ListsBefore(w, h, grid, ps, k, 0, y + 1)
  {
  }

  /**
    What a complete listing means: a position is listed exactly when it lies in the
    map and has the class `k`; listings are in scan order, so none is listed twice.
  */
  lemma ListsMeans(m: Map, ps: seq<Position>, k: TileClass)
    requires WellFormed(m)
    requires k != Plain
    requires Lists(m, ps, k)
    ensures forall p: Position :: p in ps <==> InBounds(m, p.x, p.y) && Classify(m, p.x, p.y) == k
    ensures forall i, j :: 0 <= i < j < |ps| ==> ps[i] != ps[j]
  {
    var grid := ClassGrid(m);
    forall p: Position | InBounds(m, p.x, p.y) && Classify(m, p.x, p.y) == k
      ensures p in ps
    {
      assert grid(p.x, p.y) == k;
      assert ScanBefore(Position(p.x, p.y), 0, Height(m));
    }
    forall p | p in ps
      ensures InBounds(m, p.x, p.y) && Classify(m, p.x, p.y) == k
    {
      var i :| 0 <= i < |ps| && ps[i] == p;
      assert grid(p.x, p.y) == k;
    }
  }

  /**
    Every position `from_map` reports is a walkable tile inside the map: an
    intersection has more than two walkable neighbours, a corner exactly two that
    are not opposite each other, and no position is reported as both.
  */
  lemma ReportedTiles(m: Map, info: MapInformation)
    requires WellFormed(m)
    requires Describes(m, info)
    ensures forall p :: p in info.intersections ==>
      && InBounds(m, p.x, p.y) && WalkableAt(m, p.x, p.y)
      && |WalkableNeighbours(m, p.x, p.y)| > 2
    ensures forall p :: p in info.corners ==>
      && InBounds(m, p.x, p.y) && WalkableAt(m, p.x, p.y)
      && |WalkableNeighbours(m, p.x, p.y)| == 2
      && !IsOppositeTo(WalkableNeighbours(m, p.x, p.y)[0].dir, WalkableNeighbours(m, p.x, p.y)[1].dir)
    ensures forall p :: p in info.intersections ==> p !in info.corners
  {
    ListsMeans(m, info.intersections, Intersection);
    ListsMeans(m, info.corners, Corner);
  }

  /** Builds `from_map`'s report by one row-major scan of the map's classes. */
  method FromMap(m: Map) returns (info: MapInformation)
    requires WellFormed(m)
    ensures Describes(m, info)
  {
    var intersections, corners := Scan(m.width, Height(m), ClassGrid(m));
    info := MapInformation(intersections, corners);
  }

  /**
    Visits every cell of a `w` by `h` grid of classes row by row, left to right,
    appending intersections and corners as they are met.
  */
  method Scan(w: nat, h: nat, grid: (nat, nat) -> TileClass) returns (intersections: seq<Position>, corners: seq<Position>)
    ensures ListsBefore(w, h, grid, intersections, Intersection, 0, h)
    ensures ListsBefore(w, h, grid, corners, Corner, 0, h)
  {
    intersections, corners := [], [];
    var y := 0;
    while y < h
      invariant y <= h
      invariant ListsBefore(w, h, grid, intersections, Intersection, 0, y)
      invariant ListsBefore(w, h, grid, corners, Corner, 0, y)
    {
      intersections, corners := ScanRow(w, h, grid, intersections, corners, y);
      ListsBeforeNextRow(w, h, grid, intersections, Intersection, y);
      ListsBeforeNextRow(w, h, grid, corners, Corner, y);
      y := y + 1;
    }
  }

  /** Visits row `y` left to right, extending both listings by the cells of that row. */
  method ScanRow(w: nat, h: nat, grid: (nat, nat) -> TileClass, before: seq<Position>, beforeCorners: seq<Position>, y: nat)
    returns (intersections: seq<Position>, corners: seq<Position>)
    requires y < h
    requires ListsBefore(w, h, grid, before, Intersection, 0, y)
    requires ListsBefore(w, h, grid, beforeCorners, Corner, 0, y)
    ensures ListsBefore(w, h, grid, intersections, Intersection, w, y)
    ensures ListsBefore(w, h, grid, corners, Corner, w, y)
  {
    intersections, corners := before, beforeCorners;
    var x := 0;
    while x < w
      invariant x <= w
      invariant ListsBefore(w, h, grid, intersections, Intersection, x, y)
      invariant ListsBefore(w, h, grid, corners, Corner, x, y)
    {
      ListsBeforeStep(w, h, grid, intersections, Intersection, x, y);
      ListsBeforeStep(w, h, grid, corners, Corner, x, y);
      var c := grid(x, y);
      if c == Intersection {
        intersections := intersections + [Position(x, y)];
      } else if c == Corner {
        corners := corners + [Position(x, y)];
      }
      x := x + 1;
    }
  }
}
