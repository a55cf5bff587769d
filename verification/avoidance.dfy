/**
  Avoidance: when an enemy that can hurt the bot is at most two steps away,
  step in any direction other than toward it, onto a walkable tile.
*/
module Avoidance {
  import opened Wrappers
  import opened Common
  import opened Game
  import opened Strategies
  import opened Select

  /** Every enemy is a threat except one the bot can currently eat. */
  predicate Threat(bot: Bot, e: Player)
  {
    !(bot.canEatOthers && !e.isDangerous)
  }

  function ThreatFn(bot: Bot): Player -> bool
  {
    (e: Player) => Threat(bot, e)
  }

  /** The path graph's cost to an enemy (read only for threats, whose cost the source unwraps). */
  function CostFn(bot: Bot): Player -> int
  {
    (e: Player) =>
      match bot.costTo(e.position)
      case Some(c) => c
      case None => 0
  }

  /** Close enough to flee from: a cost of at most two. */
  function CloseFn(bot: Bot): Player -> bool
  {
    (e: Player) => CostFn(bot)(e) <= 2
  }

  /** The threats, in the order the enemies are listed. */
  function Threats(bot: Bot, st: State): seq<Player>
  {
    Filter(st.enemies, ThreatFn(bot))
  }

  /** The source unwraps the path graph's cost to every threat. */
  predicate ThreatsCosted(bot: Bot, st: State)
  {
    forall i :: 0 <= i < |st.enemies| && Threat(bot, st.enemies[i]) ==> bot.costTo(st.enemies[i].position).Some?
  }

  /** The threat fled from: `min_by` cost over the threats at cost at most two. */
  function Nearest(bot: Bot, st: State): (r: Option<Player>)
    ensures r.Some? ==> Threat(bot, r.value) && CostFn(bot)(r.value) <= 2
    ensures r.None? <==> forall i :: 0 <= i < |Threats(bot, st)| ==> CostFn(bot)(Threats(bot, st)[i]) > 2
  {
    var near := Filter(Threats(bot, st), CloseFn(bot));
    if near == [] then None
    else
      var e := MinBy(near, CostFn(bot));
      assert e in near && e in Threats(bot, st);
      Some(e)
  }

  /**
    The source then unwraps the path to that threat, its last entry and the
    direction of that entry.
  */
  predicate TowardKnown(bot: Bot, st: State)
  {
    Nearest(bot, st).Some? ==>
      var p := bot.pathTo(Nearest(bot, st).value.position);
      p.Some? && p.value != [] && st.directionTo(NextStep(p.value)).Some?
  }

  /** The direction of the first step toward the nearest threat. */
  function Toward(bot: Bot, st: State): Direction
    requires Nearest(bot, st).Some? && TowardKnown(bot, st)
  {
    st.directionTo(NextStep(bot.pathTo(Nearest(bot, st).value.position).value)).value
  }

  /** A direction to escape by: not `toward`, and onto a walkable tile. */
  function EscapeFn(st: State, toward: Direction): Direction -> bool
  {
    (d: Direction) => d != toward && IsWalkable(st.tileAt(st.adjacent(d)))
  }

  /**
    The avoidance move. `order` is the order in which the set of all four
    directions is iterated; the source leaves it to its hash set. Nothing when no
    threat is close; otherwise the first direction in that order that does not
    lead toward the nearest threat and leads onto a walkable tile.
  */
  function Action(bot: Bot, st: State, order: seq<Direction>): (r: Option<Direction>)
    requires ThreatsCosted(bot, st) && TowardKnown(bot, st)
    ensures Nearest(bot, st).None? ==> r == None
    ensures r.Some? ==> && Nearest(bot, st).Some?
                        && r.value in order
                        && r.value != Toward(bot, st)
                        && IsWalkable(st.tileAt(st.adjacent(r.value)))
  {
    match Nearest(bot, st)
    case None => None
    case Some(e) => FindFirst(order, EscapeFn(st, Toward(bot, st)))
  }

  /**
    The threat fled from is, among the threats at cost at most two, the first of
    least cost.
  */
  lemma NearestIsFirstCheapest(bot: Bot, st: State)
    requires Nearest(bot, st).Some?
    ensures exists k :: FirstMinWhere(Threats(bot, st), CloseFn(bot), CostFn(bot), k) && Threats(bot, st)[k] == Nearest(bot, st).value
  {
    var k := MinOfFilter(Threats(bot, st), CloseFn(bot), CostFn(bot));
  }

  /**
    When every direction is in the iteration order, the bot stays put only when
    every direction other than toward the threat leads onto a wall.
  */
  lemma NoEscapeIff(bot: Bot, st: State, order: seq<Direction>)
    requires ThreatsCosted(bot, st) && TowardKnown(bot, st)
    requires Nearest(bot, st).Some?
    requires forall d :: d in order
    ensures Action(bot, st, order).None? <==>
      forall d :: d != Toward(bot, st) ==> !IsWalkable(st.tileAt(st.adjacent(d)))
  {
    var toward := Toward(bot, st);
    var esc := EscapeFn(st, toward);
    assert Action(bot, st, order) == FindFirst(order, esc);
    EscapeAmong(order, esc);
    assert forall d :: esc(d) <==> d != toward && IsWalkable(st.tileAt(st.adjacent(d)));
  }

  /** `find` over a sequence holding every direction fails only when no direction qualifies. */
  lemma EscapeAmong(order: seq<Direction>, q: Direction -> bool)
    requires forall d :: d in order
    ensures FindFirst(order, q).None? <==> forall d :: !q(d)
  {
    forall d | q(d) ensures FindFirst(order, q).Some? {
      assert d in order;
      var i :| 0 <= i < |order| && order[i] == d;
    }
  }

  /**
    Enemies the bot can eat are never threats: dropping them from the state
    changes nothing.
  */
  lemma PreyIsNoThreat(bot: Bot, st: State, order: seq<Direction>)
    requires ThreatsCosted(bot, st) && TowardKnown(bot, st)
    ensures var st' := st.(enemies := Threats(bot, st));
      && Threats(bot, st') == Threats(bot, st)
      && ThreatsCosted(bot, st') && TowardKnown(bot, st')
      && Action(bot, st', order) == Action(bot, st, order)
  {
    FilterTwice(st.enemies, ThreatFn(bot));
    var st' := st.(enemies := Threats(bot, st));
    assert Threats(bot, st') == Threats(bot, st);
    assert Nearest(bot, st') == Nearest(bot, st);
    forall i | 0 <= i < |st'.enemies| ensures bot.costTo(st'.enemies[i].position).Some? {
      assert st'.enemies[i] in st.enemies;
    }
  }
}
