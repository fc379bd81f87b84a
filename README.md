# c2sim behaviour trees in Dafny

This project models the core of c2sim's behaviour-tree machinery for SMAX-style
multi-agent simulations and proves properties of that model. The core covers:

- **BT (`bt.dfy`).** The composition engine. Sequence and fallback nodes tick
  every child in order, and the first triggering child with a real action
  decides the result. Leaf responses are normalised. Nested tuple trees are
  compiled into node trees and evaluated.
- **Bank (`bank.dfy`).** `dict_fn`, which lowers a rule-tagged parse tree into
  that nested tuple/list form.
- **Batch (`batch.dfy`).** `bts_fn`, which ticks every candidate tree and keeps
  the action of the tree at a batch member's index. It also covers the slot
  index formula `k % n_envs`.
- **Legacy (`legacy.dfy`).** The first atomics: the team mask of `see_fn`,
  `enemy_found`, `find_enemy` and `attack_enemy`.
- **Observation and C2Atomics (`observation.dfy`, `c2atomics.dfy`).** The c2sim
  observation layout: rows of 13 features for the other agents, then 10 self
  features. On top of it sit the foe/friend mask and lowest-index target
  selection. Every c2sim atomic is modelled: attack, move toward/away, to the
  centre or along a heading, stand, in_region, in_sight, in_reach, is_armed,
  is_dying, is_type, is_flock, raster_crossing and has_obstacle. Each
  constructor that asserts its parameters is a `Make*` function; is_armed's
  constructor is the plain mapping `SubjectOf` and stand takes none. A separate
  evaluator works on (observation, context).
- **Shared modules.** `utils.dfy` holds the status codes, `STAND` and the
  direction tables. `arrays.dfy` holds the Python/NumPy/JAX slicing, reshaping
  and indexing rules. `wrappers.dfy` holds Option and Result.

All values are modelled as follows:

- Statuses and actions are plain integers: SUCCESS 1, FAILURE 0, RUNNING -1,
  STAND 4.
- Features are `real`; distances are compared through their squares.
- Randomness is a parameter. For `attack_enemy` that parameter is a draw
  restricted to the candidates with positive probability.

## Model

| member | source | states |
|---|---|---|
| Utils.StatusDistinct | src/utils.py:21-23 | SUCCESS, FAILURE and RUNNING are pairwise distinct |
| Utils.DirMapsInverse | src/utils.py:34-35 | dir_to_idx and idx_to_dir are pointwise mutual inverses |
| Utils.DirMapsSameSets | src/utils.py:34-35 | the keys of each table are exactly the values of the other |
| Utils.IndicesAreMoveCodes | src/utils.py:35 | idx_to_dir's keys are exactly the move codes 0..3 |
| Utils.DirectionsClockwise | src/utils.py:34 | north 0, east 1, south 2, west 3 |
| Utils.StandIsNotAMove | src/utils.py:27 | STAND = 4 is outside the move codes |
| Bank.LowerChar | src/bank.py:25 | ASCII lower-casing maps A-Z to a-z and leaves every other character alone |
| Bank.Lower | src/bank.py:25 | lower-casing keeps the length and lowers each character |
| Bank.DictAll | src/bank.py:28-29 | a child list lowers iff every child does; the result has the same length and order; a failure is the first failing child's error |
| Bank.DictFn | src/bank.py:23-37 | dict_fn: a token is not a rule and fails; every text and key of a lowered value is lower-case |
| Bank.LowerIsLowerCase | src/bank.py:25 | `lower()` yields a string with no upper-case letter |
| Bank.TextRuleLowering | src/bank.py:24-25 | String/Direction/Foe/Friend become their first child's text, lowercased; with no child the lowering fails |
| Bank.UnwrapLowering | src/bank.py:26-31 | Node and Atomic become their first child's lowering; further children are dropped |
| Bank.NodesLowering | src/bank.py:28-29 | Nodes becomes a list of its children's lowerings, same length and order |
| Bank.LeafLowering | src/bank.py:32-33 | Action/Condition become (lowercased rule name, first child's lowering) |
| Bank.OtherRuleLowering | src/bank.py:34-37 | other rules become (lowercased name, children list), collapsed to the element for one child; no child fails |
| BT.CombineIsReference | src/bt.py:29-41 | the tick loop gives the first decisive child's pair, else the last triggering status (or the initial one) with action -1 |
| BT.Combine | src/bt.py:29-41 | tree_fn's loop: the result is the initial pair or the pair of a child that triggers |
| BT.CompiledKinds | src/bt.py:29-35 | for "sequence" and "fallback": start at (SUCCESS, -1) / (FAILURE, -1); a child triggers iff its status is not SUCCESS / not FAILURE |
| BT.EmptyComposite | src/bt.py:29 | no children: (SUCCESS, -1) for a "seq" kind, (FAILURE, -1) otherwise |
| BT.NonTriggeringIgnored | src/bt.py:34-40 | a child that does not trigger changes nothing, wherever it stands |
| BT.DecidedIsFrozen | src/bt.py:36-40 | once the action is not -1, later children change neither status nor action |
| BT.FirstTriggerDecides | src/bt.py:29-41 | when the first triggering child has a real action, its pair is the result |
| BT.ConditionDoesNotStopSequence | src/bt.py:34-40 | a triggering child with action -1 does not stop the node: a later child still decides |
| BT.TreeTick | src/bt.py:27-43 | every child is called exactly once, in order, and the (state, action) returned is the reference result of those ticks |
| BT.NormalizeCases | src/bt.py:50 | a bare result r becomes (r, -1) and a pair passes through |
| BT.Normalize | src/bt.py:50 | a tuple response passes through unchanged; a bare status r becomes (r, -1) |
| BT.Eval | src/bt.py:55-69 | the tick of a compiled tree; a composite's tick is its initial pair or the tick of one of its children |
| BT.LeafAndDecoratorTicks | src/bt.py:46-52 | a leaf ticks as its normalised response; a decorated node as the decorator applied to its child's unpacked pair |
| BT.Lookup | src/bt.py:61 | a registry lookup succeeds exactly for a registered name |
| BT.MakeNode | src/bt.py:56-67 | a compiled tree names only registered atomics and has only sequence/fallback composites |
| BT.MakeAll | src/bt.py:58 | children compile iff each does, in order, one node per child |
| BT.CompositeChildrenInOrder | src/bt.py:57-59 | a sequence/fallback compiles to that kind with its children compiled in declared order |
| BT.CompileErrors | src/bt.py:60-67 | an unregistered condition/action name fails the lookup, a registered one gives a leaf, any other tag raises the invalid-node error |
| BT.CompileRoundTrip | src/bt.py:56-67 | compiling a tree's lowered form gives the tree back |
| BT.CompileAllRoundTrip | src/bt.py:58 | the same for a child list |
| BT.LoweringOfSyntax | src/bank.py:23-37 | lowering a tree's parse tree gives the lowered form the tree compiles from |
| BT.ParseTreeCompiles | src/bt.py:55-69 | parse tree to lowered form to compiled tree returns the original tree |
| Batch.BtsTick | main.py:49-58 | every tree is ticked; the action of tree idx when idx is a position, else STAND; STAND is fed to trees up to idx, the selected status after it |
| Batch.BatchOfCompiled | main.py:53-58 | with compiled trees the kept action is that of Eval on tree idx, else STAND |
| Batch.SlotIndices | main.py:31 | n_envs * n_trees slots, each in [0, n_envs) |
| Batch.SlotOfPosition | main.py:31 | position t * n_envs + j gets slot j |
| Arrays.DropLast | src/atomics.py:21 | `s[:-k]` is empty for k = 0 and for k at least the length, the prefix otherwise |
| Arrays.TakeLast | c2sim/atomics.py:184 | `s[-k:]` is all of s for k = 0 and for k at least the length, the suffix otherwise |
| Arrays.ReshapeAt | c2sim/atomics.py:50 | entry j of row k of a reshape is entry k * w + j |
| Arrays.FlattenReshape | c2sim/atomics.py:50 | flattening a reshape gives the sequence back |
| Arrays.JaxIndex | c2sim/atomics.py:368 | JAX indexing: in-range indices stay, negative ones count from the end, the rest clamp into the axis |
| Legacy.See | src/atomics.py:20-26 | num_agents - 1 rows of equal width; mask[k] iff k < num_allies - (1 for an "ally" agent) |
| Legacy.SeeRowsAreConsecutive | src/atomics.py:21 | row k holds the consecutive prefix entries from k * width |
| Legacy.SeeMaskCount | src/atomics.py:22-23 | the mask marks the split index of rows, clamped to [0, rows] |
| Legacy.PrefixCount | src/atomics.py:23 | a prefix mask `arange(n) < s` has min(max(s, 0), n) true entries |
| Legacy.AllyMaskIsOwnTeam | src/atomics.py:22-23 | for an ally the mask marks exactly its own team's rows |
| Legacy.FoeMask | src/atomics.py:43 | the attack mask marks exactly the last (other team's size) rows |
| Legacy.MaskedAny | src/atomics.py:32 | some entry of some marked row is nonzero |
| Legacy.EnemyFound | src/atomics.py:30-33 | SUCCESS iff a masked row has a nonzero entry, else FAILURE; a bare status |
| Legacy.EnemyFoundSeesTeammate | src/atomics.py:31-32 | an ally reports SUCCESS from its teammate's row while every foe row is zero |
| Legacy.FoeFound | src/atomics.py:30-33 | enemy_found over the foe rows; a bare SUCCESS or FAILURE |
| Legacy.FoeFoundIff | src/atomics.py:30-33 | the corrected test succeeds iff some foe row has a nonzero entry |
| Legacy.FindEnemy | src/atomics.py:36-38 | always RUNNING, with a move code or STAND |
| Legacy.Select | src/atomics.py:44 | boolean-mask selection keeps as many rows as the mask marks |
| Legacy.SelectNonzero | src/atomics.py:44 | the selected rows hold a nonzero row iff some marked row is nonzero |
| Legacy.SelectedIsMarked | src/atomics.py:44 | every selected row is a marked row |
| Legacy.MarkedIsSelected | src/atomics.py:44 | every marked row is selected |
| Legacy.SelectSuffix | src/atomics.py:43-44 | a mask marking the rows from s on selects exactly those rows, in their order |
| Legacy.FoeStart | src/atomics.py:43 | the first foe row, rows minus the other team's size, clamped to the rows |
| Legacy.FoeRowsSelected | src/atomics.py:43-44 | `other_obs[mask]` with the foe mask is the block of rows from the first foe row on, in order |
| Legacy.RowsAny | src/atomics.py:44 | `any(axis=1)`: row k is marked iff it has a nonzero entry |
| Legacy.InSight | src/atomics.py:43-44 | entry j says whether the j-th foe row (row rows - count + j) has a nonzero entry; some foe is in sight iff the corrected enemy test (Legacy.FoeFound) succeeds |
| Legacy.SupportAsWritten | src/atomics.py:45-48 | one candidate per foe row plus the no-target slot |
| Legacy.Support | src/atomics.py:45-48 | the intended candidates, one per foe row plus the no-target slot |
| Legacy.Actions | src/atomics.py:49 | actions 0..n-1 followed by -1 |
| Legacy.AttackEnemyAsWritten | src/atomics.py:41-51 | always SUCCESS; the action is -1 or the index of a foe row |
| Legacy.AttackWithoutTarget | src/atomics.py:45-47 | with a foe row but nothing in sight, foe index 0 is the only candidate and is attacked |
| Legacy.AttackEnemy | src/atomics.py:41-51 | always SUCCESS; -1 iff no foe is in sight, otherwise the index of a foe in sight |
| Legacy.AttackEnemyTargetsFoeRow | src/atomics.py:43-51 | the intended attack's action j names the j-th foe row, and that row has a nonzero entry |
| Legacy.SupportIsSound | src/atomics.py:47-49 | some candidate always has positive probability; no-target is a candidate iff nothing is in sight |
| Observation.SelfObs | c2sim/atomics.py:46-47 | the self features are the last ten entries |
| Observation.OtherObs | c2sim/atomics.py:49-50 | the other agents form (length - 10) / 13 rows |
| Observation.LayoutRoundTrip | c2sim/atomics.py:53-54 | the rows followed by the self features are the observation |
| Observation.RowEntry | c2sim/atomics.py:50 | feature j of row k is entry 13k + j |
| Observation.TeamsPartitionRows | c2sim/atomics.py:121-125 | row k is a foe iff k >= rows - n, a friend otherwise, never both |
| Observation.LiveMask | c2sim/atomics.py:118-127 | a row is marked iff its health is positive and it is on the target team |
| Observation.Column | c2sim/atomics.py:128-129 | `others_obs.T[j]` holds feature j of every row |
| Observation.WithinReach | c2sim/atomics.py:86 | `attack_range / sight_range > dist` through the squared distance; a zero sight range gives inf (in reach) for a positive attack range, NaN (never) otherwise |
| Observation.ReachIsRatio | c2sim/atomics.py:86 | with a nonzero sight range, the test on the squared distance equals the source's comparison of the ratio with the distance |
| Observation.ReachShrinksWithDistance | c2sim/atomics.py:236 | a row closer than one in reach is in reach |
| Observation.Best | c2sim/atomics.py:89-90 | argmin/argmax with the fill: the lowest-index eligible key no eligible key beats; 0 with nothing eligible |
| Observation.BestIsUnique | c2sim/atomics.py:90 | only one index meets that description, so it pins down the target |
| Observation.MinWhere | c2sim/atomics.py:283-284 | none iff nothing is marked; otherwise a marked value no marked value undercuts |
| Observation.MaxWhere | c2sim/atomics.py:258-259 | none iff nothing is marked; otherwise a marked value no marked value exceeds |
| Observation.SumWhereIgnoresUnmarked | c2sim/atomics.py:350-351 | masked sums depend only on the marked entries |
| C2Atomics.Code | src/utils.py:34 | each heading's movement code is in 0..3 |
| C2Atomics.CodeIsDirToIdx | src/utils.py:34 | each heading's code is its dir_to_idx entry and its name parses back |
| C2Atomics.Quadrant | c2sim/atomics.py:134-136 | the quadrant test always yields a movement code |
| C2Atomics.QuadrantFacesPoint | c2sim/atomics.py:134-136 | the chosen heading points at (x, y) at least as well as any other |
| C2Atomics.OppositeFacesAway | c2sim/atomics.py:137 | the away heading points away at least as well as any other |
| C2Atomics.MakeAttack | c2sim/atomics.py:66-72 | accepted iff the qualifier and the unit are among the listed ones; binds only the qualifier |
| C2Atomics.AttackIgnoresUnit | c2sim/atomics.py:82-84 | the unit argument never changes the attack |
| C2Atomics.Keys | c2sim/atomics.py:85-89 | one ranking key per row |
| C2Atomics.ReachMask | c2sim/atomics.py:83-86 | marks the live rows of the team within attack_range / sight_range |
| C2Atomics.Attack | c2sim/atomics.py:75-94 | (SUCCESS, targ + 5 - m) iff a live foe is in reach and self cooldown <= 0, targ the best such foe; else (FAILURE, STAND) |
| C2Atomics.AttackActionIsFoeIndex | c2sim/atomics.py:78-93 | with rows for all other agents, a successful attack's action is 5 + the target's index among the foes |
| C2Atomics.MakeMove | c2sim/atomics.py:100-169 | toward/away_from give the pursuit, binding the listed qualifier and team, and otherwise fail the assertion; "center" and only "center" goes to the centre; each of north/east/south/west gives its fixed heading; any other direction is a key error |
| C2Atomics.Pursuit | c2sim/atomics.py:114-140 | SUCCESS iff the team has a live row; the action is the best row's quadrant code, turned by 2 mod 4 when moving away; else (FAILURE, STAND) |
| C2Atomics.MoveToCenter | c2sim/atomics.py:147-157 | always SUCCESS with a movement code |
| C2Atomics.CenterStepHeadsHome | c2sim/atomics.py:149-152 | the step's dot product with the centre offset is minus the larger offset coordinate, so it moves toward the centre |
| C2Atomics.Trunc | c2sim/atomics.py:363 | `astype(int32)` truncates toward zero |
| C2Atomics.Segment | c2sim/atomics.py:368 | the scanned line is row pos[1] for the x axis and column pos[0] otherwise |
| C2Atomics.RasterCrossing | c2sim/atomics.py:362-371 | true iff a nonzero cell lies between the min and max of the dominant coordinate (ties go to x), bounds included |
| C2Atomics.NonzeroBetween | c2sim/atomics.py:368-370 | true iff some nonzero entry of the segment has its index in [lo, hi] |
| C2Atomics.StayingCrossesOwnCell | c2sim/atomics.py:362-371 | a zero step crosses iff the agent's own cell is nonzero |
| C2Atomics.Crossing | c2sim/atomics.py:362-383 | raster_crossing between the truncated position and the step's destination; it holds only when some terrain cell is nonzero |
| C2Atomics.MoveHeading | c2sim/atomics.py:162-168 | always the heading's code; FAILURE iff the step crosses terrain, else SUCCESS |
| C2Atomics.Stand | c2sim/atomics.py:173-174 | stand returns (SUCCESS, STAND), an action that is no movement code |
| C2Atomics.MakeHasObstacle | c2sim/atomics.py:374-377 | listed directions pass the assertion; "center" then fails the lookup |
| C2Atomics.HasObstacle | c2sim/atomics.py:378-383 | a bare status; its relation to terrain is stated by HasObstacleOpposesMove |
| C2Atomics.HasObstacleOpposesMove | c2sim/atomics.py:378-383 | has_obstacle succeeds exactly when the fixed move fails |
| C2Atomics.Third | c2sim/atomics.py:185-186 | 1 above 2/3, -1 below 1/3, 0 otherwise |
| C2Atomics.ThirdIsMonotone | c2sim/atomics.py:185-186 | the bucketing is monotone |
| C2Atomics.MakeInRegion | c2sim/atomics.py:179-181 | accepted iff the names (y defaulting to x) form a key of the region table; binds that key's (row, column) |
| C2Atomics.RegionDefaultsToDiagonal | c2sim/atomics.py:180 | in_region x is in_region x x |
| C2Atomics.InRegion | c2sim/atomics.py:183-188 | SUCCESS iff (row, column) of the own position's thirds is the target; action STAND |
| C2Atomics.RegionsTileMap | c2sim/atomics.py:25-35 | every position is in exactly one region of the table |
| C2Atomics.MakeTeamCheck | c2sim/atomics.py:194-197 | the team name is asserted first (also in_reach, lines 219-222), then the unit is looked up |
| C2Atomics.InSight | c2sim/atomics.py:200-212 | SUCCESS iff some row of the team is alive; action STAND |
| C2Atomics.InReach | c2sim/atomics.py:224-238 | SUCCESS iff some live row of the team is within reach |
| C2Atomics.ReachImpliesSight | c2sim/atomics.py:224-238 | in reach implies in sight |
| C2Atomics.IsArmed | c2sim/atomics.py:248-261 | self: SUCCESS iff own cooldown <= 0; team: iff every live row's cooldown <= 0 (so no live row gives SUCCESS) |
| C2Atomics.MakeIsDying | c2sim/atomics.py:267-271 | levels low/middle/high give 0.25/0.5/0.75; others fail the assertion |
| C2Atomics.IsDying | c2sim/atomics.py:273-286 | self: SUCCESS iff own health < threshold; team: iff some live row's health < threshold (so no live row gives FAILURE) |
| C2Atomics.DyingIsMonotone | c2sim/atomics.py:284 | raising the threshold keeps SUCCESS |
| C2Atomics.AttackNeedsReachAndArms | c2sim/atomics.py:91 | a successful attack implies in_reach foe and is_armed self |
| C2Atomics.MakeIsType | c2sim/atomics.py:292-297 | accepted iff the unit is one of the six and the negation is a/not_a; binds the column -6..-1 |
| C2Atomics.IsType | c2sim/atomics.py:299-300 | SUCCESS iff (the column reads 1) matches the polarity |
| C2Atomics.IsTypeNegates | c2sim/atomics.py:296-300 | "a" and "not_a" always give opposite answers |
| C2Atomics.MakeIsFlock | c2sim/atomics.py:306-334 | "center" tests surrounding; an accepted heading gives the drift test for that heading and team; other directions fail the assertion |
| C2Atomics.SectorIsQuadrant | c2sim/atomics.py:322-329 | a point in a heading's sector is in that heading's quadrant |
| C2Atomics.Occupied | c2sim/atomics.py:326-329 | a sector is occupied iff some point lies in it |
| C2Atomics.Masked | c2sim/atomics.py:320-321 | `where(mask, v, 0)` pointwise |
| C2Atomics.OccupiedIsHeld | c2sim/atomics.py:320-329 | rows masked to the origin never occupy a sector |
| C2Atomics.FlockAround | c2sim/atomics.py:310-331 | SUCCESS iff each of the four sectors holds a live row of the team |
| C2Atomics.FlockToward | c2sim/atomics.py:340-357 | SUCCESS iff the team has a live row and the summed offsets of its live rows lie in the heading's quadrant |
| C2Atomics.DriftHasOneHeading | c2sim/atomics.py:352-356 | at most one heading's drift test succeeds |
| C2Atomics.AttackElseStand | c2sim/atomics.py:91-93 | the fallback of attack and stand always succeeds, attacking when the attack succeeds and standing otherwise |

## Left out

- File and console I/O: `grammar_fn`/`parse_fn` and the parser, `config.yaml`, `parse_args`, all printing and `main`.
- The parser itself. Modelling starts from a parse-tree datatype. The rule names `Syntax` uses (`node`, `nodes`, `atomic`, `string`, `action`, `decorator`) are a reading of the lowering code, because grammar.lark is not part of this model.
- src/plot.py, c2sim/agent.py, the environment's reset and step, `step_fn` and `traj_fn` beyond the `idxs` formula, and `self_type_fn`.
- `inter_fn`, which is never called.
- JAX mechanics (`jit`, `vmap`, `lax.cond`, `partial`). They are modelled as sequential evaluation of one agent.
- Floating point: NaN, overflow, float32 rounding and the int32 range of `astype`. `Trunc` is exact truncation on unbounded integers. Positions are computed in exact reals.
- C2Atomics.Keys: uses squared distances, which rank rows as `jnp.linalg.norm` does. Square roots are not modelled.
- Python's Unicode `title()`/`lower()`: Bank.Lower is ASCII lower-casing.
- Legacy.FindEnemy: takes the drawn action as a parameter instead of drawing it.
- Legacy.AttackEnemyAsWritten: takes the drawn index as a parameter restricted to positive-probability candidates; the probability values themselves are not modelled.
- Legacy.AttackEnemy: the same restriction to the intended candidates, without probabilities.
- Observation.Best: returns 0 over zero rows. There, JAX's `argmin`/`argmax` (and `min`/`max` in is_armed/is_dying) raise instead.
- Observation.WellLaid: excludes observations shorter than the ten self features. For those, JAX clamps the self-feature indices instead of failing.
- Observation.WellLaid: excludes observations whose length less ten is not a multiple of 13, because `reshape(-1, 13)` raises on those.
- Legacy.Splittable: excludes `num_agents < 2` and observations whose part before the own features does not split into `num_agents - 1` equal rows, because `reshape(num_agents - 1, -1)` raises on those.
- C2Atomics.InRegion: requires the own-feature tail to hold a position. A shorter tail would have JAX clamp `self_pos[1]`.
- C2Atomics.RasterCrossing: requires a square, non-empty raster. `jnp.where` needs a row and a column of equal length.
- Unused computations are not modelled: `is_unit_types`, `bool_`, the unused `n`/`m` and the `unit` arguments of in_sight and in_reach beyond their key lookup.
- The strict short-circuit that sequence and fallback are documented to have. The code ticks every child and lets a later child decide after a triggering child with action -1. The model follows the code; BT.ConditionDoesNotStopSequence exhibits the difference.

## Findings

| source | as written | input that shows it | evidently intended | confidence | as-written member | corrected member |
|---|---|---|---|---|---|---|
| src/atomics.py:31-32 | enemy_found tests the rows `see_fn` masks, which for an ally are its own teammates | 3 agents, 2 allies, 1 own feature, obs [1.0, 0.0, 0.0], agent "ally_0": SUCCESS from the teammate's row, though the only foe row is zero | test the foe rows, as attack_enemy does with `~mask` / `mask[::-1]`; proved in Legacy.FoeFoundIff | medium, not executed | Legacy.EnemyFoundSeesTeammate | Legacy.FoeFound |
| src/atomics.py:45 | `where(in_sight, size=mask.size)` pads the index list with 0, so foe 0 always gets positive probability and "no target" (-1) never does | same layout, obs [0.0, 0.0, 0.0], agent "ally_0": no foe in sight, yet the only candidate is foe 0 and the action is 0 | only foes in sight are candidates, and -1 is chosen when none is; proved in Legacy.SupportIsSound | medium, not executed | Legacy.AttackWithoutTarget | Legacy.AttackEnemy |
