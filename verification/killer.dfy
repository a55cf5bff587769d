/**
  The killer: hunt an enemy that can be caught before the bot stops being
  dangerous; otherwise race for a super pellet that the bot reaches strictly
  before every enemy.
*/
module Killer {
  import opened Wrappers
  import opened Common
  import opened Game
  import opened Strategies
  import opened Select

  /** Enemy `e` has a pathfinder path to tile `to`. */
  predicate Reaches(st: State, to: Position, e: Player)
  {
    st.shortest(e.position, to).Some?
  }

  function ReachesFn(st: State, to: Position): Player -> bool
  {
    (e: Player) => Reaches(st, to, e)
  }

  function LengthTo(st: State, to: Position): Player -> int
  {
    (e: Player) =>
      match st.shortest(e.position, to)
      case Some(p) => |p|
      case None => 0
  }

  /**
    `shortest_enemy_path_cost`: the length of the shortest path any enemy has to
    `to`, or the largest `usize` when no enemy has one.
  */
  function EnemyPathCost(st: State, to: Position): (r: nat)
    ensures (forall i :: 0 <= i < |st.enemies| ==> !Reaches(st, to, st.enemies[i])) ==> r == UsizeMax
    ensures forall i :: 0 <= i < |st.enemies| && Reaches(st, to, st.enemies[i]) ==>
      r <= |st.shortest(st.enemies[i].position, to).value|
    ensures (exists i :: 0 <= i < |st.enemies| && Reaches(st, to, st.enemies[i])) ==>
      exists i :: 0 <= i < |st.enemies| && Reaches(st, to, st.enemies[i]) &&
        r == |st.shortest(st.enemies[i].position, to).value|
  {
    var rs := Filter(st.enemies, ReachesFn(st, to));
    if rs == [] then UsizeMax
    else
      var e := MinBy(rs, LengthTo(st, to));
      assert e in rs && Reaches(st, to, e);
      assert forall i :: 0 <= i < |st.enemies| && Reaches(st, to, st.enemies[i]) ==> st.enemies[i] in rs;
      |st.shortest(e.position, to).value|
  }

  /** A hunt candidate: not dangerous, with a path shorter than the ticks the bot stays dangerous. */
  predicate Catchable(bot: Bot, e: Player)
  {
    && !e.isDangerous
    && bot.pathTo(e.position).Some?
    && |bot.pathTo(e.position).value| < bot.remainingTicksDangerous
  }

  function CatchableFn(bot: Bot): Player -> bool
  {
    (e: Player) => Catchable(bot, e)
  }

  function PathLength(bot: Bot): Player -> int
  {
    (e: Player) =>
      match bot.pathTo(e.position)
      case Some(p) => |p|
      case None => 0
  }

  /** The hunt target: `min_by` path length over the catchable enemies. */
  function Mark(bot: Bot, st: State): (r: Option<Player>)
    ensures r.None? <==> forall i :: 0 <= i < |st.enemies| ==> !Catchable(bot, st.enemies[i])
    ensures r.Some? ==> Catchable(bot, r.value)
  {
    var cs := Filter(st.enemies, CatchableFn(bot));
    if cs == [] then None
    else
      var e := MinBy(cs, PathLength(bot));
      assert e in cs;
      Some(e)
  }

  /** The distance to the hunt target as a `u32`, or the largest `u32` without one. */
  function Distance(bot: Bot, st: State): nat
  {
    match Mark(bot, st)
    case Some(e) => |bot.pathTo(e.position).value| % U32Limit
    case None => U32Max
  }

  /**
    The source's test for going after a super pellet instead of hunting: always
    when the bot cannot eat; otherwise exactly when there is no hunt target and the
    ticks left are below the largest `u32`. A hunt target is closer than the ticks
    left, so its distance never triggers the race.
  */
  predicate Races(bot: Bot, st: State)
    ensures Races(bot, st) <==>
      !bot.canEatOthers || (Mark(bot, st).None? && bot.remainingTicksDangerous < U32Max)
  {
    DistanceToMark(bot, st);
    !bot.canEatOthers || bot.remainingTicksDangerous < Distance(bot, st)
  }

  /** A super pellet the path graph can reach, with its cost. */
  datatype Entry = Entry(cost: nat, pellet: Position)

  /** The sort key of the race: the cost of the entry. */
  const Cost: Entry -> int := (c: Entry) => c.cost

  /** The super pellets the path graph can reach, in the map's order, each with its cost. */
  function Costed(bot: Bot, ps: seq<Position>): (r: seq<Entry>)
    ensures forall i :: 0 <= i < |r| ==> bot.costTo(r[i].pellet) == Some(r[i].cost) && r[i].pellet in ps
    ensures forall i :: 0 <= i < |ps| && bot.costTo(ps[i]).Some? ==> Entry(bot.costTo(ps[i]).value, ps[i]) in r
  {
    if ps == [] then []
    else
      var rest := Costed(bot, ps[..|ps| - 1]);
      assert forall i :: 0 <= i < |ps| - 1 ==> ps[i] == ps[..|ps| - 1][i];
      match bot.costTo(ps[|ps| - 1])
      case Some(c) => rest + [Entry(c, ps[|ps| - 1])]
      case None => rest
  }

  /** A pellet gets an entry exactly when the path graph gives it a cost. */
  lemma CostedSingle(bot: Bot, p: Position)
    ensures Costed(bot, [p]) == if bot.costTo(p).Some? then [Entry(bot.costTo(p).value, p)] else []
  {
    assert [p][..0] == [];
  }

  /** Entries keep the order and the repeats of the pellets they come from. */
  lemma {:induction false} CostedAppend(bot: Bot, a: seq<Position>, b: seq<Position>)
    ensures Costed(bot, a + b) == Costed(bot, a) + Costed(bot, b)
  {
    if b == [] {
      assert a + b == a;
    } else {
      var u, b', last := a + b, b[..|b| - 1], b[|b| - 1];
      var tail := if bot.costTo(last).Some? then [Entry(bot.costTo(last).value, last)] else [];
      assert u[..|u| - 1] == a + b' && u[|u| - 1] == last;
      assert Costed(bot, u) == Costed(bot, a + b') + tail;
      assert Costed(bot, b) == Costed(bot, b') + tail;
      CostedAppend(bot, a, b');
    }
  }

  /** The bot's cost to the pellet is strictly below every enemy's. */
  function Beats(st: State): Entry -> bool
  {
    (c: Entry) => c.cost < EnemyPathCost(st, c.pellet)
  }

  /**
    The race winner: the stable sort by cost, searched for the first entry the bot
    wins. There is one exactly when the bot beats the enemies to some reachable
    super pellet, and it is one of those of least cost.
  */
  function Winner(bot: Bot, st: State): (r: Option<Entry>)
    ensures var cs := Costed(bot, st.superPellets);
      && (r.None? <==> forall i :: 0 <= i < |cs| ==> !Beats(st)(cs[i]))
      && (r.Some? ==> r.value in cs && Beats(st)(r.value))
      && (r.Some? ==> forall i :: 0 <= i < |cs| && Beats(st)(cs[i]) ==> r.value.cost <= cs[i].cost)
  {
    var cs := Costed(bot, st.superPellets);
    FoundAfterSort(cs, Cost, Beats(st));
    FindFirst(SortBy(cs, Cost), Beats(st))
  }

  /** The path to the winning super pellet, when there is one. */
  function RacePath(bot: Bot, st: State): Option<seq<Position>>
  {
    match Winner(bot, st)
    case None => None
    case Some(c) => bot.pathTo(c.pellet)
  }

  /**
    The source takes the last entry of the path it follows without checking that
    there is one: the race path in the racing branch, the hunt path otherwise.
  */
  predicate StepExists(bot: Bot, st: State)
  {
    (bot.canEatOthers || st.superPellets != []) ==>
      if Races(bot, st) then RacePath(bot, st).Some? ==> RacePath(bot, st).value != []
      else Mark(bot, st).Some? ==> bot.pathTo(Mark(bot, st).value.position).value != []
  }

  /**
    The killer's move. Nothing when it can neither eat nor race. When racing, the
    first step toward the winning super pellet, or nothing when no pellet is won:
    the killer does not fall back to hunting. Otherwise the first step toward the
    hunt target.
  */
  function Action(bot: Bot, st: State): (r: Option<Direction>)
    requires StepExists(bot, st)
    ensures !bot.canEatOthers && st.superPellets == [] ==> r == None
    ensures (bot.canEatOthers || st.superPellets != []) && Races(bot, st) && RacePath(bot, st).None? ==> r == None
    ensures (bot.canEatOthers || st.superPellets != []) && Races(bot, st) && RacePath(bot, st).Some? ==>
      r == st.directionTo(NextStep(RacePath(bot, st).value))
    ensures !Races(bot, st) ==>
      if Mark(bot, st).Some? then r == st.directionTo(NextStep(bot.pathTo(Mark(bot, st).value.position).value))
      else r == None
  {
    if !bot.canEatOthers && |st.superPellets| == 0 then None
    else if Races(bot, st) then
      match RacePath(bot, st)
      case None => None
      case Some(path) => st.directionTo(NextStep(path))
    else
      match Mark(bot, st)
      case None => None
      case Some(e) => st.directionTo(NextStep(bot.pathTo(e.position).value))
  }

  /**
    The distance to a hunt target is the length of the path to it: the path is
    shorter than the ticks left, which fit a `u32`, so the cast loses nothing.
    Without a target the distance is the largest `u32`.
  */
  lemma DistanceToMark(bot: Bot, st: State)
    ensures Mark(bot, st).Some? ==> Distance(bot, st) == |bot.pathTo(Mark(bot, st).value.position).value|
    ensures Mark(bot, st).None? ==> Distance(bot, st) == U32Max
  {
    match Mark(bot, st)
    case None =>
      assert Distance(bot, st) == U32Max;
    case Some(e) =>
      var n := |bot.pathTo(e.position).value|;
      assert n < bot.remainingTicksDangerous < U32Limit;
      assert Distance(bot, st) == n;
  }

  /**
    With the ticks left at the largest `u32` and nobody to hunt, a bot that can eat
    neither hunts nor races.
  */
  lemma IdleAtLargestTicks(bot: Bot, st: State)
    requires bot.canEatOthers && bot.remainingTicksDangerous == U32Max
    requires forall i :: 0 <= i < |st.enemies| ==> !Catchable(bot, st.enemies[i])
    ensures StepExists(bot, st)
    ensures !Races(bot, st) && Action(bot, st) == None
  {
  }

  /**
    Who is hunted: a catchable enemy whose path is no longer than any other
    catchable enemy's, and strictly shorter than those listed before it.
  */
  lemma MarkIsFirstNearest(bot: Bot, st: State)
    requires Mark(bot, st).Some?
    ensures exists k :: FirstMinWhere(st.enemies, CatchableFn(bot), PathLength(bot), k) && st.enemies[k] == Mark(bot, st).value
  {
    var k := MinOfFilter(st.enemies, CatchableFn(bot), PathLength(bot));
  }

  /**
    The bot wins the race to a pellet exactly when its cost is below the length of
    every enemy's path there (and below the largest `usize` when no enemy has one).
  */
  lemma BeatsIff(st: State, c: Entry)
    ensures Beats(st)(c) <==>
      && (forall i :: 0 <= i < |st.enemies| && Reaches(st, c.pellet, st.enemies[i]) ==>
            c.cost < |st.shortest(st.enemies[i].position, c.pellet).value|)
      && ((forall i :: 0 <= i < |st.enemies| ==> !Reaches(st, c.pellet, st.enemies[i])) ==> c.cost < UsizeMax)
  {
    var r := EnemyPathCost(st, c.pellet);
    if exists i :: 0 <= i < |st.enemies| && Reaches(st, c.pellet, st.enemies[i]) {
      var i :| 0 <= i < |st.enemies| && Reaches(st, c.pellet, st.enemies[i]) &&
        r == |st.shortest(st.enemies[i].position, c.pellet).value|;
    }
  }

  /**
    Which super pellet wins: among the reachable pellets the bot beats every enemy
    to, the first one of least cost, as the stable sort followed by `find` selects it.
  */
  lemma WinnerIsFirstCheapest(bot: Bot, st: State)
    ensures var won := Filter(Costed(bot, st.superPellets), Beats(st));
      Winner(bot, st) == if won == [] then None else Some(MinBy(won, Cost))
    ensures Winner(bot, st).Some? ==> exists k :: (
      && FirstMinWhere(Costed(bot, st.superPellets), Beats(st), Cost, k)
      && Costed(bot, st.superPellets)[k] == Winner(bot, st).value)
  {
    var cs := Costed(bot, st.superPellets);
    FindAfterSort(cs, Cost, Beats(st));
    if Filter(cs, Beats(st)) != [] {
      var k := MinOfFilter(cs, Beats(st), Cost);
    }
  }
}
