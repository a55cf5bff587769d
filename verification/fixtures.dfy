/**
  The four small maps the repository uses to check `from_map`: a cross, a
  three-way junction, a turn and a straight corridor, each with what the scan
  reports for it.
*/
module GameFixtures {
  import opened Game
  import opened Json

  /** The cell at column x of row y exists and its character decodes to a walkable tile. */
  predicate Open(rows: seq<string>, x: int, y: int)
  {
    0 <= y < |rows| && 0 <= x < |rows[y]| && TileOf(rows[y][x]) != Wall
  }

  /** The class of a cell of a map decoded from equal rows, read off the characters around it. */
  lemma ClassifyRows(rows: seq<string>, width: nat, x: nat, y: nat)
    requires 0 < width < U32Limit && |rows| * width < U32Limit
    requires Rectangular(rows, width)
    requires x < width && y < |rows|
    ensures WellFormed(MapOf(rows, width)) && InBounds(MapOf(rows, width), x, y)
    ensures Classify(MapOf(rows, width), x, y) == ClassFromWalkable(
      Open(rows, x, y), Open(rows, x - 1, y), Open(rows, x + 1, y), Open(rows, x, y - 1), Open(rows, x, y + 1))
  {
    MapOfRows(rows, width, x, y);
    var m := MapOf(rows, width);
    ClassifyByWalkable(m, x, y);
    WalkableAtRows(rows, width, x, y);
    WalkableAtRows(rows, width, x - 1, y);
    WalkableAtRows(rows, width, x + 1, y);
    WalkableAtRows(rows, width, x, y - 1);
    WalkableAtRows(rows, width, x, y + 1);
  }

  /** Every entry of a sequence is one of its members. */
  lemma EntryIsMember(ps: seq<Position>, i: nat)
    requires i < |ps|
    ensures ps[i] in ps
  {
  }

  /** A listing without repeats that holds exactly `q` is `[q]`. */
  lemma ListingOfOne(ps: seq<Position>, q: Position)
    requires forall i, j :: 0 <= i < j < |ps| ==> ps[i] != ps[j]
    requires forall p :: p in ps <==> p == q
    ensures ps == [q]
  {
    assert q in ps;
    EntryIsMember(ps, 0);
    if |ps| > 1 {
      EntryIsMember(ps, 1);
      assert false;
    }
  }

  /** A listing that holds no position is empty. */
  lemma ListingOfNone(ps: seq<Position>)
    requires forall p :: p !in ps
    ensures ps == []
  {
    if ps != [] {
      EntryIsMember(ps, 0);
      assert false;
    }
  }

  /**
    A complete listing of class `k` in a map decoded from equal rows is `e` when the
    characters around each cell give it class `k` exactly at the positions in `e`.
  */
  lemma ListingOfRows(rows: seq<string>, width: nat, ps: seq<Position>, k: TileClass, e: seq<Position>)
    requires 0 < width < U32Limit && |rows| * width < U32Limit
    requires Rectangular(rows, width)
    requires k != Plain && |e| <= 1
    requires forall x: nat, y: nat :: x < width && y < |rows| ==>
      (ClassFromWalkable(Open(rows, x, y), Open(rows, x - 1, y), Open(rows, x + 1, y), Open(rows, x, y - 1), Open(rows, x, y + 1)) == k
       <==> Position(x, y) in e)
    requires forall p :: p in e ==> p.x < width && p.y < |rows|
    requires WellFormed(MapOf(rows, width)) && Lists(MapOf(rows, width), ps, k)
    ensures ps == e
  {
    ListsMeans(MapOf(rows, width), ps, k);
    ClassesOfRows(rows, width, k, e);
    if e == [] { ListingOfNone(ps); } else { ListingOfOne(ps, e[0]); }
  }

  /** The cells of class `k` in a map decoded from equal rows, read off the characters around each cell. */
  lemma ClassesOfRows(rows: seq<string>, width: nat, k: TileClass, e: seq<Position>)
    requires 0 < width < U32Limit && |rows| * width < U32Limit
    requires Rectangular(rows, width)
    requires forall x: nat, y: nat :: x < width && y < |rows| ==>
      (ClassFromWalkable(Open(rows, x, y), Open(rows, x - 1, y), Open(rows, x + 1, y), Open(rows, x, y - 1), Open(rows, x, y + 1)) == k
       <==> Position(x, y) in e)
    requires forall p :: p in e ==> p.x < width && p.y < |rows|
    ensures WellFormed(MapOf(rows, width))
    ensures forall p: Position ::
      (InBounds(MapOf(rows, width), p.x, p.y) && Classify(MapOf(rows, width), p.x, p.y) == k) <==> p in e
  {
    MapOfShape(rows, width);
    forall p: Position
      ensures (InBounds(MapOf(rows, width), p.x, p.y) && Classify(MapOf(rows, width), p.x, p.y) == k) <==> p in e
    {
      if p.x < width && p.y < |rows| {
        ClassifyRows(rows, width, p.x, p.y);
      }
    }
  }

  const CrossRows: seq<string> := [
    "|||||||",
    "|||_|||",
    "|||_|||",
    "|_____|",
    "|||_|||",
    "|||_|||",
    "|||||||"
  ]

  /** The open cells of the cross: a vertical and a horizontal corridor through (3, 3). */
  lemma CrossOpen(x: int, y: int)
    ensures Open(CrossRows, x, y) <==> (x == 3 && 1 <= y <= 5) || (y == 3 && 1 <= x <= 5)
  {
  }

  /** Where two corridors cross, the crossing is the only intersection and there are no corners. */
  lemma CrossFixture(info: MapInformation)
    requires WellFormed(MapOf(CrossRows, 7)) && Describes(MapOf(CrossRows, 7), info)
    ensures info.intersections == [Position(3, 3)]
    ensures info.corners == []
  {
    forall x: nat, y: nat | x < 7 && y < 7
      ensures var k := ClassFromWalkable(
        Open(CrossRows, x, y), Open(CrossRows, x - 1, y), Open(CrossRows, x + 1, y),
        Open(CrossRows, x, y - 1), Open(CrossRows, x, y + 1));
        (k == Intersection <==> Position(x, y) in [Position(3, 3)]) && (k == Corner <==> Position(x, y) in [])
    {
      CrossOpen(x, y);
      CrossOpen(x - 1, y);
      CrossOpen(x + 1, y);
      CrossOpen(x, y - 1);
      CrossOpen(x, y + 1);
    }
    ListingOfRows(CrossRows, 7, info.intersections, Intersection, [Position(3, 3)]);
    ListingOfRows(CrossRows, 7, info.corners, Corner, []);
  }

  const ThreeWayRows: seq<string> := [
    "|||||",
    "|||_|",
    "|___|",
    "|||_|",
    "|||_|",
    "|||||"
  ]

  /** The open cells of the junction: a vertical corridor at x = 3 joined at (3, 2) from the left. */
  lemma ThreeWayOpen(x: int, y: int)
    ensures Open(ThreeWayRows, x, y) <==> (x == 3 && 1 <= y <= 4) || (y == 2 && 1 <= x <= 3)
  {
  }

  /** Where a corridor joins another from the side, the junction is the only intersection and there are no corners. */
  lemma ThreeWayFixture(info: MapInformation)
    requires WellFormed(MapOf(ThreeWayRows, 5)) && Describes(MapOf(ThreeWayRows, 5), info)
    ensures info.intersections == [Position(3, 2)]
    ensures info.corners == []
  {
    forall x: nat, y: nat | x < 5 && y < 6
      ensures var k := ClassFromWalkable(
        Open(ThreeWayRows, x, y), Open(ThreeWayRows, x - 1, y), Open(ThreeWayRows, x + 1, y),
        Open(ThreeWayRows, x, y - 1), Open(ThreeWayRows, x, y + 1));
        (k == Intersection <==> Position(x, y) in [Position(3, 2)]) && (k == Corner <==> Position(x, y) in [])
    {
      ThreeWayOpen(x, y);
      ThreeWayOpen(x - 1, y);
      ThreeWayOpen(x + 1, y);
      ThreeWayOpen(x, y - 1);
      ThreeWayOpen(x, y + 1);
    }
    ListingOfRows(ThreeWayRows, 5, info.intersections, Intersection, [Position(3, 2)]);
    ListingOfRows(ThreeWayRows, 5, info.corners, Corner, []);
  }

  const TurnRows: seq<string> := [
    "||||",
    "||_|",
    "|__|",
    "||||"
  ]

  /** The open cells of the turn: down from (2, 1) to (2, 2), then left to (1, 2). */
  lemma TurnOpen(x: int, y: int)
    ensures Open(TurnRows, x, y) <==> (x == 2 && 1 <= y <= 2) || (x == 1 && y == 2)
  {
  }

  /** Where a corridor turns, the bend is the only corner and there are no intersections. */
  lemma TurnFixture(info: MapInformation)
    requires WellFormed(MapOf(TurnRows, 4)) && Describes(MapOf(TurnRows, 4), info)
    ensures info.intersections == []
    ensures info.corners == [Position(2, 2)]
  {
    forall x: nat, y: nat | x < 4 && y < 4
      ensures var k := ClassFromWalkable(
        Open(TurnRows, x, y), Open(TurnRows, x - 1, y), Open(TurnRows, x + 1, y),
        Open(TurnRows, x, y - 1), Open(TurnRows, x, y + 1));
        (k == Intersection <==> Position(x, y) in []) && (k == Corner <==> Position(x, y) in [Position(2, 2)])
    {
      TurnOpen(x, y);
      TurnOpen(x - 1, y);
      TurnOpen(x + 1, y);
      TurnOpen(x, y - 1);
      TurnOpen(x, y + 1);
    }
    ListingOfRows(TurnRows, 4, info.intersections, Intersection, []);
    ListingOfRows(TurnRows, 4, info.corners, Corner, [Position(2, 2)]);
  }

  const StraightRows: seq<string> := [
    "||||",
    "||_|",
    "||_|",
    "||_|",
    "||_|",
    "||||"
  ]

  /** The open cells of the corridor: x = 2, rows 1 to 4. */
  lemma StraightOpen(x: int, y: int)
    ensures Open(StraightRows, x, y) <==> x == 2 && 1 <= y <= 4
  {
  }

  /** A straight corridor has neither intersections nor corners. */
  lemma StraightFixture(info: MapInformation)
    requires WellFormed(MapOf(StraightRows, 4)) && Describes(MapOf(StraightRows, 4), info)
    ensures info.intersections == []
    ensures info.corners == []
  {
    forall x: nat, y: nat | x < 4 && y < 6
      ensures var k := ClassFromWalkable(
        Open(StraightRows, x, y), Open(StraightRows, x - 1, y), Open(StraightRows, x + 1, y),
        Open(StraightRows, x, y - 1), Open(StraightRows, x, y + 1));
        (k == Intersection <==> Position(x, y) in []) && (k == Corner <==> Position(x, y) in [])
    {
      StraightOpen(x, y);
      StraightOpen(x - 1, y);
      StraightOpen(x + 1, y);
      StraightOpen(x, y - 1);
      StraightOpen(x, y + 1);
    }
    ListingOfRows(StraightRows, 4, info.intersections, Intersection, []);
    ListingOfRows(StraightRows, 4, info.corners, Corner, []);
  }
}
