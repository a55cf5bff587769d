/**
  Pellet picking: follow the cached path while it lasts; otherwise keep going
  straight onto a pellet, or step onto a neighbouring pellet, or as a last resort
  set out for the turning point whose path holds the most pellets per step.
*/
module PickPellets {
  import opened Wrappers
  import opened Common
  import opened Game
  import opened Strategies
  import opened Select

  /** The cached path: destination first, next step last. */
  type Cache = seq<Position>

  /** What one decision leaves behind: the cache for the next turn, and the move. */
  datatype Outcome = Outcome(cache: Cache, move: Option<Direction>)

  /** `reset`: forget the cached path. */
  function Reset(cache: Cache): (r: Cache)
    ensures |r| == 0
  {
    []
  }

  /** The cache as the decision sees it: dropped when another strategy chose the previous move. */
  function Current(bot: Bot, cache: Cache): Cache
  {
    if bot.previousStrategy != Some(StrategyType.PickPellets) then Reset(cache) else cache
  }

  function HasPellet(st: State): Position -> bool
  {
    (p: Position) => IsPellet(st.tileAt(p))
  }

  /** A turning point the path graph has a non-empty path to. */
  predicate Reachable(bot: Bot, tp: Position)
  {
    bot.pathTo(tp).Some? && |bot.pathTo(tp).value| > 0
  }

  function ReachableFn(bot: Bot): Position -> bool
  {
    (tp: Position) => Reachable(bot, tp)
  }

  /** Pellets per step along the path to a turning point, as an exact ratio. */
  function Ratio(bot: Bot, st: State): Position -> real
  {
    (tp: Position) =>
      if Reachable(bot, tp) then (st.pointsInPath(bot.pathTo(tp).value) as real) / (|bot.pathTo(tp).value| as real)
      else 0.0
  }

  /** The turning points with a non-empty path, in the order the bot lists them. */
  function Destinations(bot: Bot): seq<Position>
  {
    Filter(bot.turningPoints, ReachableFn(bot))
  }

  /**
    The last-resort destination: `max_by` pellets per step over the reachable
    turning points, so the last of those with the best ratio.
  */
  function Destination(bot: Bot, st: State): (r: Option<Position>)
    ensures r.None? <==> forall i :: 0 <= i < |bot.turningPoints| ==> !Reachable(bot, bot.turningPoints[i])
    ensures r.Some? ==> Reachable(bot, r.value) && exists i :: (
      && 0 <= i < |Destinations(bot)| && Destinations(bot)[i] == r.value
      && (forall j :: 0 <= j < |Destinations(bot)| ==> Ratio(bot, st)(Destinations(bot)[j]) <= Ratio(bot, st)(r.value))
      && (forall j :: i < j < |Destinations(bot)| ==> Ratio(bot, st)(Destinations(bot)[j]) < Ratio(bot, st)(r.value)))
  {
    var ts := Destinations(bot);
    if ts == [] then None
    else
      var i := LastMaxIndex(ts, Ratio(bot, st));
      assert ts[i] in ts;
      Some(ts[i])
  }

  /**
    One decision. The cache is dropped first unless this strategy chose the
    previous move. A non-empty cache gives up its last entry, which the bot steps
    toward. Otherwise the bot keeps its previous direction when a pellet lies
    that way, or steps toward the first neighbouring tile with a pellet, or caches
    the path to the last-resort destination and steps along it; with none of
    these, it does not move.
  */
  function Action(bot: Bot, st: State, cache: Cache): (r: Outcome)
    ensures Current(bot, cache) != [] ==> r.cache + [NextStep(Current(bot, cache))] == Current(bot, cache)
    ensures Current(bot, cache) == [] && r.cache != [] ==>
      && Destination(bot, st).Some?
      && r.cache < bot.pathTo(Destination(bot, st).value).value
      && |r.cache| + 1 == |bot.pathTo(Destination(bot, st).value).value|
  {
    var c := Current(bot, cache);
    if c != [] then
      Outcome(c[..|c| - 1], st.directionTo(NextStep(c)))
    else if IsPellet(st.tileAt(st.adjacent(bot.previousDirection))) then
      Outcome(c, Some(bot.previousDirection))
    else
      match FindFirst(st.neighbours, HasPellet(st))
      case Some(pos) => Outcome(c, st.directionTo(pos))
      case None =>
        match Destination(bot, st)
        case None => Outcome(c, None)
        case Some(tp) =>
          var p := bot.pathTo(tp).value;
          Outcome(p[..|p| - 1], st.directionTo(NextStep(p)))
  }

  /** A cache left behind by another strategy is never followed. */
  lemma OtherStrategyForgetsCache(bot: Bot, st: State, cache: Cache)
    requires bot.previousStrategy != Some(StrategyType.PickPellets)
    ensures Action(bot, st, cache) == Action(bot, st, [])
  {
  }

  /** With a cache to follow, the bot steps toward its last entry and drops it. */
  lemma FollowsCache(bot: Bot, st: State, cache: Cache)
    requires bot.previousStrategy == Some(StrategyType.PickPellets) && cache != []
    ensures Action(bot, st, cache).move == st.directionTo(cache[|cache| - 1])
    ensures Action(bot, st, cache).cache + [cache[|cache| - 1]] == cache
  {
  }

  /** Without a cache, a pellet straight ahead keeps the bot going the way it went. */
  lemma KeepsStraight(bot: Bot, st: State, cache: Cache)
    requires Current(bot, cache) == []
    requires IsPellet(st.tileAt(st.adjacent(bot.previousDirection)))
    ensures Action(bot, st, cache) == Outcome([], Some(bot.previousDirection))
  {
  }

  /**
    Without a cache and with no pellet straight ahead, the bot steps toward the
    first neighbouring tile, in the map's order, that holds a pellet.
  */
  lemma StepsToNeighbouringPellet(bot: Bot, st: State, cache: Cache, i: nat)
    requires Current(bot, cache) == []
    requires !IsPellet(st.tileAt(st.adjacent(bot.previousDirection)))
    requires i < |st.neighbours| && IsPellet(st.tileAt(st.neighbours[i]))
    ensures Action(bot, st, cache).cache == []
    ensures exists k :: (
      && 0 <= k <= i && IsPellet(st.tileAt(st.neighbours[k]))
      && (forall j :: 0 <= j < k ==> !IsPellet(st.tileAt(st.neighbours[j])))
      && Action(bot, st, cache).move == st.directionTo(st.neighbours[k]))
  {
    var q := HasPellet(st);
    assert q(st.neighbours[i]);
    FindFirstIsFirst(st.neighbours, q);
    var pos := FindFirst(st.neighbours, q).value;
    var k :| 0 <= k < |st.neighbours| && st.neighbours[k] == pos && forall j :: 0 <= j < k ==> !q(st.neighbours[j]);
    assert k <= i;
  }

  /**
    The last resort, taken when no pellet is straight ahead or next to the bot:
    with a reachable turning point, the bot caches the path to the destination
    without its first step and takes that step; without one, it stays put.
  */
  lemma LastResort(bot: Bot, st: State, cache: Cache)
    requires Current(bot, cache) == []
    requires !IsPellet(st.tileAt(st.adjacent(bot.previousDirection)))
    requires forall i :: 0 <= i < |st.neighbours| ==> !IsPellet(st.tileAt(st.neighbours[i]))
    ensures Destination(bot, st).None? ==> Action(bot, st, cache) == Outcome([], None)
    ensures Destination(bot, st).Some? ==>
      var p := bot.pathTo(Destination(bot, st).value).value;
      && Action(bot, st, cache).move == st.directionTo(p[|p| - 1])
      && Action(bot, st, cache).cache + [p[|p| - 1]] == p
  {
    var q := HasPellet(st);
    assert forall j :: 0 <= j < |st.neighbours| ==> !q(st.neighbours[j]);
    assert FindFirst(st.neighbours, q) == None;
    var c := Current(bot, cache);
    assert Action(bot, st, cache) == match Destination(bot, st)
      case None => Outcome(c, None)
      case Some(tp) => Outcome(bot.pathTo(tp).value[..|bot.pathTo(tp).value| - 1], st.directionTo(NextStep(bot.pathTo(tp).value)));
  }

  /**
    Comparing pellets per step is comparing cross products, so the choice does not
    depend on division.
  */
  lemma RatioOrder(pa: nat, la: nat, pb: nat, lb: nat)
    requires la > 0 && lb > 0
    ensures (pa as real) / (la as real) <= (pb as real) / (lb as real) <==> pa * lb <= pb * la
  {
    var a := (pa as real) / (la as real);
    var b := (pb as real) / (lb as real);
    assert a * (la as real) == pa as real;
    assert b * (lb as real) == pb as real;
    var m := (la as real) * (lb as real);
    assert m > 0.0;
    assert a * m == (pa * lb) as real;
    assert b * m == (pb * la) as real;
  }

  /**
    Following a cache over successive turns: the moves the bot makes while it keeps
    picking pellets and the cache is not empty, the turn `k` decision seeing the
    game state `sts[k]`. Each decision pops one entry from the end of the cache.
  */
  function Follow(bot: Bot, sts: seq<State>, cache: Cache): (r: seq<Option<Direction>>)
    requires bot.previousStrategy == Some(StrategyType.PickPellets)
    requires |cache| <= |sts|
    ensures |r| == |cache|
    decreases |cache|
  {
    if cache == [] then []
    else
      var o := Action(bot, sts[0], cache);
      [o.move] + Follow(bot, sts[1..], o.cache)
  }

  /**
    A cached path is walked in full, from the next step to the destination, whatever
    the game state does meanwhile: the `k`-th move heads for the `k`-th entry from
    the end.
  */
  lemma {:induction false} FollowWalksPath(bot: Bot, sts: seq<State>, cache: Cache)
    requires bot.previousStrategy == Some(StrategyType.PickPellets)
    requires |cache| <= |sts|
    ensures forall k :: 0 <= k < |cache| ==> Follow(bot, sts, cache)[k] == sts[k].directionTo(cache[|cache| - 1 - k])
    decreases |cache|
  {
    if cache != [] {
      var o := Action(bot, sts[0], cache);
      FollowsCache(bot, sts[0], cache);
      FollowWalksPath(bot, sts[1..], o.cache);
      forall k | 0 <= k < |cache| ensures Follow(bot, sts, cache)[k] == sts[k].directionTo(cache[|cache| - 1 - k]) {
        if k > 0 {
          assert Follow(bot, sts, cache)[k] == Follow(bot, sts[1..], o.cache)[k - 1];
          assert o.cache[|o.cache| - 1 - (k - 1)] == cache[|cache| - 1 - k];
          assert sts[1..][k - 1] == sts[k];
        }
      }
    }
  }
}
