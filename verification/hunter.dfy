/**
  The hunter: while the bot can eat others, it walks toward the nearest enemy
  that cannot eat it, nearest meaning the shortest path the pathfinder finds.
*/
module Hunter {
  import opened Wrappers
  import opened Common
  import opened Game
  import opened Strategies
  import opened Select

  /** An enemy the hunter considers: not dangerous, and reachable by the pathfinder. */
  predicate Huntable(st: State, e: Player)
  {
    !e.isDangerous && st.shortest(st.me, e.position).Some?
  }

  function Hunts(st: State): Player -> bool
  {
    (e: Player) => Huntable(st, e)
  }

  /** The length of the pathfinder's path to an enemy (read only for huntable enemies). */
  function PathLength(st: State): Player -> int
  {
    (e: Player) =>
      match st.shortest(st.me, e.position)
      case Some(p) => |p|
      case None => 0
  }

  /**
    The enemy whose path is followed: the huntable enemies' paths, compared by
    length with `min_by`. It is the first huntable enemy with the shortest path,
    and there is none exactly when no enemy is huntable.
  */
  function Prey(st: State): (r: Option<Player>)
    ensures r.None? <==> forall i :: 0 <= i < |st.enemies| ==> !Huntable(st, st.enemies[i])
    ensures r.Some? ==> Huntable(st, r.value)
  {
    var ts := Filter(st.enemies, Hunts(st));
    if ts == [] then None
    else
      var e := MinBy(ts, PathLength(st));
      assert e in ts;
      Some(e)
  }

  /** The path to the prey, when there is prey. */
  function PreyPath(st: State): Option<seq<Position>>
  {
    match Prey(st)
    case None => None
    case Some(e) => st.shortest(st.me, e.position)
  }

  /** The source takes the last entry of the chosen path without checking that there is one. */
  predicate PreyPathHasStep(st: State)
  {
    PreyPath(st).Some? ==> PreyPath(st).value != []
  }

  /**
    The hunter's move: nothing while the bot cannot eat others or nothing is
    huntable; otherwise the direction of the first step along the path to the prey.
  */
  function Action(bot: Bot, st: State): (r: Option<Direction>)
    requires bot.canEatOthers ==> PreyPathHasStep(st)
    ensures !bot.canEatOthers ==> r == None
    ensures Prey(st).None? ==> r == None
    ensures r.Some? ==> exists e :: e in st.enemies && !e.isDangerous && st.shortest(st.me, e.position).Some?
    ensures bot.canEatOthers && Prey(st).Some? ==>
      r == st.directionTo(NextStep(st.shortest(st.me, Prey(st).value.position).value))
  {
    if !bot.canEatOthers then None
    else
      match Prey(st)
      case None => None
      case Some(e) =>
        assert e in Filter(st.enemies, Hunts(st));
        st.directionTo(NextStep(st.shortest(st.me, e.position).value))
  }

  /**
    Who is hunted: the prey is an enemy that is not dangerous and has a path, its
    path is no longer than any other such enemy's, and every such enemy listed
    before it has a strictly longer path.
  */
  lemma PreyIsFirstNearest(st: State)
    requires Prey(st).Some?
    ensures exists k :: (
      && 0 <= k < |st.enemies| && st.enemies[k] == Prey(st).value
      && !st.enemies[k].isDangerous && st.shortest(st.me, st.enemies[k].position).Some?
      && (forall j :: 0 <= j < |st.enemies| && Huntable(st, st.enemies[j]) ==>
            |st.shortest(st.me, st.enemies[k].position).value| <= |st.shortest(st.me, st.enemies[j].position).value|)
      && (forall j :: 0 <= j < k && Huntable(st, st.enemies[j]) ==>
            |st.shortest(st.me, st.enemies[k].position).value| < |st.shortest(st.me, st.enemies[j].position).value|))
  {
    var k := MinOfFilter(st.enemies, Hunts(st), PathLength(st));
    assert FirstMinWhere(st.enemies, Hunts(st), PathLength(st), k);
  }
}
