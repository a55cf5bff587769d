# Allie (2017 Pac-Man bot) — a Dafny model of its decision core

Allie is a bot for a multiplayer Pac-Man game. It connects to a game server, is
told the maze and the other players' positions every tick, and answers with a
direction. This project models the deterministic part of that loop and proves
properties about it:

- **Grid and topology** (module `Common`, module `Game`):
  - the four directions and when two are opposite;
  - tile kinds and walkability;
  - the row-major map with its derived height;
  - the bounded four-neighbour lookup, which does not wrap at the edges;
  - Manhattan distance;
  - `MapInformation::from_map`, which scans the map row by row and lists every
    intersection (a walkable tile with more than two walkable neighbours) and every
    corner (exactly two walkable neighbours, not opposite each other).
- **Protocol** (modules `Json` and `MessageTypes`):
  - decoding the map content, where each character of the concatenated rows
    becomes a tile and unknown characters become walls;
  - dispatching a message on its `messagetype` name;
  - `MessageType::from_str`.
- **The four strategies** (modules `Hunter`, `Killer`, `Avoidance`, `PickPellets`).
  - Each one is a chain of filter, `min_by`, `max_by`, `find` and stable-sort
    selections over candidates. Module `Select` models these selections with the
    Rust standard library's tie-breaks:
    - `min_by` keeps the first minimum;
    - `max_by` keeps the last maximum;
    - `sorted_by` is stable.
  - Everything the strategies ask of code outside this model (the path graph's
    `path_to`/`cost_to`, the pathfinder's shortest paths, `direction_to`,
    `adjacent`, `neighbours`, `points_in_path`, `can_eat_others`, the list of
    super pellets, the bot's `turning_points()`) arrives as a field of the `Bot` and `State` records in module
    `Strategies`. Its value is taken as given, and no body is invented for it.
- **Four fixture maps** (module `GameFixtures`): the cross, three-way junction,
  turn and straight corridor the repository checks `from_map` against. Each is
  proved to yield the listed intersections and corners, for every report that
  satisfies `from_map`'s contract.

Conventions:

- A path lists its destination first and its next step last. The strategies take
  the step toward `last()` of a path.
- Where the source calls `unwrap()` on a value it does not check, the model has a
  `requires` that says exactly that the value is present.

## Model

| member | source | states |
|---|---|---|
| Common.Opposite | src/common/mod.rs:10-15 | each direction has an opposite that stays on the same axis |
| Common.IsOppositeTo | src/common/mod.rs:10-15 | two directions are opposite exactly when they differ and lie on the same axis |
| Common.OppositeIsSymmetric | src/common/mod.rs:10-15 | a is opposite b exactly when b is opposite a |
| Common.OppositeIsIrreflexive | src/common/mod.rs:10-15 | no direction is opposite to itself |
| Common.OppositeIsUnique | src/common/mod.rs:11-14 | b is opposite a exactly when b is the one opposite of a (Up/Down, Left/Right) |
| Common.OppositeKeepsAxis | src/common/mod.rs:10-15 | a vertical direction is never opposite a horizontal one |
| Game.ManhattanDistance | src/game/mod.rs:21-24 | on coordinates that fit `i32`, the distance fits the `u32` result without truncation |
| Game.ManhattanDistanceIsSymmetric | src/game/mod.rs:21-24 | distance from p to q equals distance from q to p |
| Game.ManhattanDistanceZeroIffEqual | src/game/mod.rs:21-24 | the distance is zero exactly when the positions are equal |
| Game.ManhattanDistanceExamples | src/game/mod.rs:239-245 | the test values: (25,25)-(0,0) is 50, and the three pairs listed are 10 apart |
| Game.IsWalkable | src/game/mod.rs:37-42 | every tile kind but the wall can be walked on |
| Game.Height | src/game/mod.rs:84-86 | the height is the number of whole rows of `width` tiles in the tile count cast to `u32` |
| Game.TileAt | src/game/mod.rs:58-60 | on a well-formed map, where the `u32` index cannot wrap, the tile at (x, y) is one of the map's tiles; which one is pinned down by Json.MapOfRows |
| Game.InBoundsIndex | src/game/mod.rs:58-60 | for x below the width and y below the height (tile count / width), index width*y+x lies inside the tiles |
| Game.ProbeSpec | src/game/mod.rs:64-75 | each direction's probe yields at most one entry, present exactly when the cell one step away lies inside the map, carrying that cell's tile |
| Game.Neighbours | src/game/mod.rs:62-77 | a cell has at most four neighbours; the full description is Game.NeighboursSpec |
| Game.NeighboursSpec | src/game/mod.rs:62-77 | at most four neighbours; a direction is listed exactly when its cell is inside the map (no wrap-around); directions are distinct, ordered Left, Right, Up, Down; each carries its cell's tile |
| Game.ClassifyByWalkable | src/game/mod.rs:102-116 | the class of a cell depends only on which of it and its four neighbours are walkable: intersection with more than two walkable neighbours, corner with one horizontal and one vertical |
| Game.Classify | src/game/mod.rs:102-116 | only a walkable cell with at least two walkable neighbours is an intersection or a corner; the full rule is Game.ClassifyByWalkable |
| Game.ClassOf | src/game/mod.rs:102-116 | a turning point is walkable with at least two walkable neighbours; a corner has exactly two; the full rule is Game.ClassifyByWalkable |
| Game.ReportedTiles | src/game/mod.rs:102-116 | every reported position is walkable and inside the map; intersections have more than two walkable neighbours, corners exactly two not opposite; no position is both |
| Game.ListsMeans | src/game/mod.rs:100-117 | a complete listing holds a position exactly when it is inside the map with that class, and holds none twice |
| Game.FromMap | src/game/mod.rs:96-121 | the report lists, in row-major order, exactly the intersections and exactly the corners of the map |
| Game.Scan | src/game/mod.rs:100-118 | scanning all rows lists exactly the cells of each class, in scan order |
| Game.ScanRow | src/game/mod.rs:101-117 | scanning one row extends both listings by exactly that row's cells of each class |
| Json.TileOf | src/protocol/json.rs:24-35 | a character decodes to a wall or to the tile it is the glyph of; which characters give walls is stated by Json.TileOfCharacter and Json.TileOfGlyph |
| Json.TileOfGlyph | src/protocol/json.rs:25-30 | each tile's character is one of the five known ones and decodes back to that tile |
| Json.TileOfCharacter | src/protocol/json.rs:24-35 | a known character is the glyph of its tile; any other character decodes to a wall |
| Json.DecodeContent | src/protocol/json.rs:20-37 | one tile per character of the concatenated rows, tile i decoded from character i |
| Json.DecodeGlyphs | src/protocol/json.rs:21-37 | rows whose concatenation is the characters of a tile sequence decode to that sequence, however the characters are split into rows |
| Json.DecodeOneRow | src/protocol/json.rs:21-37 | a tile sequence written out as a single row decodes back to itself |
| Json.ConcatLength | src/protocol/json.rs:21-23 | rows of equal width join to a string of rows*width characters |
| Json.ConcatRowMajor | src/protocol/json.rs:21-23 | in the joined rows, row r column c sits at index r*width+c |
| Json.MapOfShape | src/protocol/json.rs:20-37 | h equal rows of w characters decode to a map of w*h tiles whose height is h |
| Json.MapOfRows | src/protocol/json.rs:21-37 | the tile at (c, r) of the decoded map is the decoding of row r's character c |
| Json.WalkableAtRows | src/protocol/json.rs:24-35 | a cell of the decoded map is walkable exactly when it lies within the rows and its character does not decode to a wall |
| Json.StandardMapSize | src/protocol/json.rs:109-111 | the server's 31 rows of 28 characters decode to 868 tiles |
| Json.MessageFromStr | src/protocol/json.rs:43-70 | a decoded message's `messagetype` is present and is the name of the message's kind; which outcome each input gives is stated by Json.DispatchFollowsMessageType |
| Json.DispatchFollowsMessageType | src/protocol/json.rs:43-69 | failed base parse gives MissingGamestate; unknown name gives UnknownMessageType; welcome/stateupdate give their body or DeserializationError; dead/endofround/startofround ignore the body |
| Json.DecodedKindMatchesName | src/protocol/json.rs:50-68 | a decoded message is of the kind its `messagetype` names |
| Json.ErrorsHaveOneCause | src/protocol/json.rs:44-68 | MissingGamestate exactly when the base parse fails; UnknownMessageType exactly when the name is not a known one |
| MessageTypes.FromStr | src/protocol/message_type.rs:20-29 | a string is accepted exactly when it is the name of a kind, yielding that kind; otherwise UnknownType |
| MessageTypes.FromStrName | src/protocol/message_type.rs:21-26 | each of the five names is read as its kind |
| MessageTypes.FromStrInjective | src/protocol/message_type.rs:21-26 | distinct accepted names give distinct kinds |
| MessageTypes.FromStrIsCaseSensitive | src/protocol/message_type.rs:27 | capitalised names and the empty string are unknown |
| GameFixtures.ClassifyRows | src/game/mod.rs:102-116 | on a map decoded from equal rows, a cell's class is read off its own and its four neighbours' characters |
| GameFixtures.CrossFixture | src/game/mod.rs:146-168 | the cross yields exactly one intersection, at (3,3), and no corners |
| GameFixtures.ThreeWayFixture | src/game/mod.rs:170-192 | the three-way map yields exactly one intersection, at (3,2), and no corners |
| GameFixtures.TurnFixture | src/game/mod.rs:194-214 | the turn yields no intersection and exactly one corner, at (2,2) |
| GameFixtures.StraightFixture | src/game/mod.rs:216-236 | the straight corridor yields neither intersections nor corners |
| Select.FirstMinIndex | src/ai/strategies/hunter.rs:45-47 | `min_by` picks an element of least key, strictly below every earlier element's key |
| Select.FirstMinIsUnique | src/ai/strategies/hunter.rs:45-47 | the first element of least key is the only index with that property |
| Select.LastMaxIndex | src/ai/strategies/pick_pellets.rs:64-66 | `max_by` picks an element of greatest key, strictly above every later element's key |
| Select.Filter | src/ai/strategies/hunter.rs:36 | `filter` keeps exactly the elements satisfying the condition |
| Select.FilterSingle | src/ai/strategies/hunter.rs:36 | a single element is kept exactly when it satisfies the condition |
| Select.FilterAppend | src/ai/strategies/hunter.rs:36 | filtering a concatenation concatenates the filtered parts, so order and repeats are kept |
| Select.FindFirst | src/ai/strategies/avoidance.rs:33-37 | `find` fails exactly when no element qualifies, and otherwise returns a qualifying element |
| Select.FindFirstIsFirst | src/ai/strategies/avoidance.rs:33-37 | the element `find` returns has no qualifying element before it |
| Select.SortBySorted | src/ai/strategies/killer.rs:67 | the sort orders by key and is a permutation |
| Select.FindAfterSort | src/ai/strategies/killer.rs:67-69 | `find` after the stable sort returns the first least-key qualifying element, what `min_by` returns from the filtered sequence |
| Select.FoundAfterSort | src/ai/strategies/killer.rs:67-69 | `find` after the stable sort fails exactly when nothing qualifies, and otherwise returns a qualifying element of least key |
| Select.MinOfFilter | src/ai/strategies/killer.rs:43-52 | `min_by` after `filter` is the first element of least key among those passing the filter |
| Select.FilterTwice | src/ai/strategies/avoidance.rs:23 | filtering twice with one condition keeps what the first filter kept |
| Hunter.Prey | src/ai/strategies/hunter.rs:34-47 | there is a target exactly when some enemy is not dangerous and has a path; the target is such an enemy |
| Hunter.Action | src/ai/strategies/hunter.rs:22-53 | nothing when the bot cannot eat or nobody is huntable; otherwise the direction toward the last entry of the target's path |
| Hunter.PreyIsFirstNearest | src/ai/strategies/hunter.rs:34-47 | the target's path is no longer than any candidate's, and strictly shorter than every earlier candidate's |
| Killer.EnemyPathCost | src/ai/strategies/killer.rs:17-29 | the least enemy path length to the tile, or `usize::MAX` when no enemy has a path |
| Killer.Mark | src/ai/strategies/killer.rs:43-52 | a hunt target exists exactly when some enemy is not dangerous with a path shorter than the ticks left, and is such an enemy |
| Killer.Costed | src/ai/strategies/killer.rs:61-66 | exactly the super pellets the path graph prices, each with its cost |
| Killer.CostedSingle | src/ai/strategies/killer.rs:61-66 | a pellet gets an entry, with its cost, exactly when the path graph prices it |
| Killer.CostedAppend | src/ai/strategies/killer.rs:61-66 | the entries of a concatenation are the concatenated entries, so order and repeats are kept |
| Killer.Winner | src/ai/strategies/killer.rs:61-70 | a pellet is won exactly when the bot beats every enemy to some priced pellet; the won pellet is priced, beaten to, and of least cost among those |
| Killer.Action | src/ai/strategies/killer.rs:37-85 | idle when it can neither eat nor race; in the race branch the step toward the won pellet, or nothing (with no fallback to hunting) when no pellet is won or the won pellet has no path; otherwise the step toward the hunt target |
| Killer.DistanceToMark | src/ai/strategies/killer.rs:54-57 | the distance to a hunt target is its path length, the `u32` cast losing nothing; without a target it is `u32::MAX` |
| Killer.Races | src/ai/strategies/killer.rs:54-59 | the race branch runs exactly when the bot cannot eat, or there is no hunt target and the ticks left are below `u32::MAX` |
| Killer.IdleAtLargestTicks | src/ai/strategies/killer.rs:54-59 | with `u32::MAX` ticks left and nobody catchable, a bot that can eat neither races nor hunts |
| Killer.MarkIsFirstNearest | src/ai/strategies/killer.rs:43-52 | the hunt target is the first catchable enemy with the shortest path |
| Killer.BeatsIff | src/ai/strategies/killer.rs:69 | a pellet is won exactly when the bot's cost is below every enemy's path length there (below `usize::MAX` when none has one) |
| Killer.WinnerIsFirstCheapest | src/ai/strategies/killer.rs:61-70 | the won pellet is the first least-cost pellet among those won |
| Avoidance.Nearest | src/ai/strategies/avoidance.rs:23-26 | a threat is fled from exactly when some threat costs at most two, and it is such a threat |
| Avoidance.Action | src/ai/strategies/avoidance.rs:20-38 | nothing without a close threat; a returned direction is in the iteration order, is not toward the threat, and leads onto a walkable tile |
| Avoidance.NearestIsFirstCheapest | src/ai/strategies/avoidance.rs:23-26 | the threat fled from is the first of least cost among close threats |
| Avoidance.NoEscapeIff | src/ai/strategies/avoidance.rs:27-37 | with all directions iterated, the bot stays put exactly when every direction but the one toward the threat leads onto a wall |
| Avoidance.PreyIsNoThreat | src/ai/strategies/avoidance.rs:23 | enemies the bot can eat never matter: removing them leaves the action unchanged |
| PickPellets.Reset | src/ai/strategies/pick_pellets.rs:20-22 | the cache is empty afterwards |
| PickPellets.OtherStrategyForgetsCache | src/ai/strategies/pick_pellets.rs:31-33 | after another strategy's move, the action acts as with an empty cache |
| PickPellets.FollowsCache | src/ai/strategies/pick_pellets.rs:36-38 | with a cache, the move is toward its last entry and the cache loses exactly that entry |
| PickPellets.KeepsStraight | src/ai/strategies/pick_pellets.rs:41-44 | with no cache and a pellet straight ahead, the previous direction is kept |
| PickPellets.StepsToNeighbouringPellet | src/ai/strategies/pick_pellets.rs:47-52 | otherwise, the move is toward the first neighbour holding a pellet |
| PickPellets.Destination | src/ai/strategies/pick_pellets.rs:56-66 | a destination exists exactly when some turning point has a non-empty path; it has the best pellets-per-step ratio and is the last with it |
| PickPellets.LastResort | src/ai/strategies/pick_pellets.rs:68-73 | with no pellet nearby, the cache becomes the destination's path minus its last entry and the move is toward that entry; with no destination, no move |
| PickPellets.Action | src/ai/strategies/pick_pellets.rs:30-74 | a followed cache loses exactly its last entry; a fresh cache is a proper prefix of the destination's path, one entry shorter |
| PickPellets.RatioOrder | src/ai/strategies/pick_pellets.rs:63-65 | comparing pellets per step equals comparing cross products |
| PickPellets.Follow | src/ai/strategies/pick_pellets.rs:36-38 | over successive turns, each with its own game state, the cache is popped from the end one entry per turn, one move per entry |
| PickPellets.FollowWalksPath | src/ai/strategies/pick_pellets.rs:36-38 | a cached path is walked in full whatever the game states of those turns: the k-th move heads for the k-th entry from the end, as turn k's state directs |

## Left out

- `src/ai/pathfinder.rs` is not part of this model: path search comes from an external A* crate, and the strategies receive its answers as given functions (`Bot.pathTo`, `Bot.costTo`, `State.shortest`).
- `src/ai/mod.rs` (the random direction choice), `src/main.rs` (command line, server loop, timing), `src/client/` (socket I/O) and `benchmarker/bench.py` (a benchmarking script): I/O and randomness.
- `src/ai/strategies.rs` is an older copy of the pellet strategy, replaced by `pick_pellets.rs`, which is modelled.
- JSON parsing itself: map rows arrive as decoded strings, and a message arrives as the outcome of its three parses (`Json.Parsed`).
- The `debug_assert!` on an unknown map character: only debug builds panic there, and the model follows the release behaviour (a wall).
- `Hunter`, `Killer`, `Avoidance`, `PickPellets`: the map queries `direction_to`, `adjacent`, `neighbours`, `tile_at` on a position, `super_pellets` and `points_in_path`, and the bot's `turning_points()` (called by the pellet strategy), are not part of the modelled files. They are fields of `State` and `Bot` (`Bot.turningPoints`) and are taken as given.
- Hunter.Action: the direction is tied to the target's path, and the ordering among candidates is stated separately in Hunter.PreyIsFirstNearest.
- Avoidance.Action: the source iterates a hash set of directions, whose order is unspecified. The model takes that order as a parameter, and its contract holds for every order.
- PickPellets.Destination: the ratio is an exact rational, not an `f32`. Rounding, and the `partial_cmp` fallback that only a NaN would reach, are not modelled.
- Game.ManhattanDistance: coordinates of 2^31 or more, where the source's `as i32` casts wrap, are not modelled. Nor is the `i32` sum of the two differences reaching 2^31, which coordinates below 2^31 allow: a debug build panics there, and a release build wraps and the `as u32` cast gives the right distance back. The model returns the exact distance.
- Game.WellFormed: the model requires the tile count and width to fit a `u32`, and `Game.TileAt` requires a well-formed map, which rules out wrap-around in `width * y + x`. `Height` still writes out the `as u32` truncation of the tile count.
- Game.Height: requires a width above zero. The source's division in `height()` panics on a zero width.
- `Map::tile_at` on a position beyond the map panics in the source; `Game.TileAt` requires the index to lie inside the tiles.
- Game.TileAt: its own contract only says the tile is one of the map's; the row-major meaning of the index is stated by Json.MapOfRows for maps decoded from rows.
- Game.Neighbours: its own contract only bounds the length; the directions, their order and their tiles are stated by Game.NeighboursSpec.
- Game.Classify, Game.ClassOf: their own contracts only say what a turning point needs; the full classification is stated by Game.ClassifyByWalkable.
- Json.TileOf: its own contract does not say which characters become walls; Json.TileOfCharacter and Json.TileOfGlyph do.
- Json.MessageFromStr: its own contract only covers decoded messages; the error cases are stated by Json.DispatchFollowsMessageType and Json.ErrorsHaveOneCause.
- The `println!` diagnostics in `killer.rs` (lines 25 and 75): console output, which does not affect the move.
- `is_pellet` is not part of the modelled files. `Game.IsPellet` takes it to hold for pellets and super pellets.
- `usize` is taken to be 64 bits wide (`Strategies.UsizeMax`).
- The repository's files disagree with each other in a few places. The model follows the file that uses the definition:
  - `src/protocol/mod.rs` declares only `DeserializationError`, while `json.rs` also returns `MissingGamestate` and `UnknownMessageType`. The model follows `json.rs`.
  - The strategies call `get_shortest` with different signatures, and `Bot` has different fields in different files. The model uses a single path oracle per purpose.
- `Map::neighbours` does not wrap at the map's edge, though the game's maze has tunnels that do. The model follows the code.
