/** The observation an agent receives in the c2sim environment, and the
    reductions the atomics apply to it. An observation is a block of rows
    of 13 features, one row per other agent (column 0 health, columns 1-2
    relative position, column 6 cooldown), followed by 10 features of the
    agent itself (entry 0 health, 1-2 position, 3 cooldown). */
module Observation {
  import opened Wrappers
  import opened Arrays

  const SelfFeatures: nat := 10
  const RowFeatures: nat := 13

  type Row = r: seq<real> | |r| == 13 witness seq(13, _ => 0.0)

  /** The agent's own attributes. */
  datatype AgentInfo = AgentInfo(isAlly: bool, attackRange: real, sightRange: real, velocity: real)

  /** The environment's parameters. */
  datatype EnvInfo = EnvInfo(numAllies: int, numEnemies: int, numOwnFeatures: nat,
                             mapWidth: real, mapHeight: real, timePerStep: real,
                             worldStepsPerEnvStep: real, terrain: seq<seq<int>>)

  datatype Info = Info(agent: AgentInfo, env: EnvInfo)

  /** What `obs[:-10].reshape(-1, 13)` and the self-feature indexing need:
      the ten self features and whole rows before them. */
  predicate WellLaid(obs: seq<real>) {
    |obs| >= SelfFeatures && (|obs| - SelfFeatures) % RowFeatures == 0
  }

  /** self_obs_fn: the last ten entries. */
  function SelfObs(obs: seq<real>): (s: seq<real>)
    requires |obs| >= SelfFeatures
    ensures |s| == SelfFeatures
    ensures forall j :: 0 <= j < SelfFeatures ==> s[j] == obs[|obs| - SelfFeatures + j]
  {
    TakeLast(obs, SelfFeatures)
  }

  function NumRows(obs: seq<real>): nat
    requires WellLaid(obs)
  {
    (|obs| - SelfFeatures) / RowFeatures
  }

  /** other_obs_fn: everything before the self features, in rows of 13. */
  function OtherObs(obs: seq<real>): (rows: seq<Row>)
    requires WellLaid(obs)
    ensures |rows| == NumRows(obs)
  {
    var p := DropLast(obs, SelfFeatures);
    assert |p| == RowFeatures * NumRows(obs);
    Reshape(p, RowFeatures, NumRows(obs))
  }

  /** The layout round trip: the rows followed by the self features are the
      observation. */
  lemma LayoutRoundTrip(obs: seq<real>)
    requires WellLaid(obs)
    ensures Flatten(OtherObs(obs)) + SelfObs(obs) == obs
  {
    var p := DropLast(obs, SelfFeatures);
    assert |p| == RowFeatures * NumRows(obs);
    FlattenReshape(p, RowFeatures, NumRows(obs));
    assert p + SelfObs(obs) == obs;
  }

  /** Feature j of row k is entry 13 * k + j of the observation. */
  lemma RowEntry(obs: seq<real>, k: nat, j: nat)
    requires WellLaid(obs) && k < NumRows(obs) && j < RowFeatures
    ensures k * RowFeatures + j < |obs| - SelfFeatures
    ensures OtherObs(obs)[k][j] == obs[k * RowFeatures + j]
  {
    var p := DropLast(obs, SelfFeatures);
    assert |p| == RowFeatures * NumRows(obs);
    ReshapeAt(p, RowFeatures, NumRows(obs), k, j);
  }

  /** The size of the other team, `n` in the atomics. */
  function NumFoes(info: Info): int {
    if info.agent.isAlly then info.env.numEnemies else info.env.numAllies
  }

  /** The number of the agent's teammates, `m` in attack. */
  function NumFriends(info: Info): int {
    (if info.agent.isAlly then info.env.numAllies else info.env.numEnemies) - 1
  }

  datatype Team = Foe | Friend

  /** The team mask: the last n rows are foes, every other row a friend. */
  predicate InTeam(team: Team, k: int, rows: int, info: Info) {
    if team == Foe then k >= rows - NumFoes(info) else k < rows - NumFoes(info)
  }

  /** Every row belongs to exactly one team. */
  lemma TeamsPartitionRows(k: int, rows: int, info: Info)
    ensures InTeam(Foe, k, rows, info) != InTeam(Friend, k, rows, info)
  {
  }

  /** A row is alive when its health is positive (health reads 0 for an
      agent out of sight). */
  predicate Alive(row: Row) {
    row[0] > 0.0
  }

  /** Live rows of the team: `alive & target_team`. */
  function LiveMask(rows: seq<Row>, team: Team, info: Info): (m: seq<bool>)
    ensures |m| == |rows|
    ensures forall k :: 0 <= k < |rows| ==> (m[k] <==> Alive(rows[k]) && InTeam(team, k, |rows|, info))
  {
    seq(|rows|, k requires 0 <= k < |rows| => Alive(rows[k]) && InTeam(team, k, |rows|, info))
  }

  /** Column j of the rows, `others_obs.T[j]`. */
  function Column(rows: seq<Row>, j: nat): (c: seq<real>)
    requires j < RowFeatures
    ensures |c| == |rows| && forall k :: 0 <= k < |rows| ==> c[k] == rows[k][j]
  {
    seq(|rows|, k requires 0 <= k < |rows| => rows[k][j])
  }

  /** The squared distance of the row's relative position. */
  function SqDist(row: Row): real {
    row[1] * row[1] + row[2] * row[2]
  }

  /** `attack_range / sight_range > dist` for dist the norm of the
      position, decided through the square of the distance; a zero sight
      range gives an infinite ratio for a positive attack range and NaN,
      which compares false, otherwise. */
  predicate WithinReach(info: Info, sqDist: real) {
    if info.agent.sightRange == 0.0 then info.agent.attackRange > 0.0
    else
      var q := info.agent.attackRange / info.agent.sightRange;
      q > 0.0 && sqDist < q * q
  }

  /** With a nonzero sight range, the test on the squared distance is the
      source's `attack_range / sight_range > dist` on the distance itself. */
  lemma ReachIsRatio(info: Info, dist: real)
    requires dist >= 0.0 && info.agent.sightRange != 0.0
    ensures WithinReach(info, dist * dist) <==> info.agent.attackRange / info.agent.sightRange > dist
  {
    var q := info.agent.attackRange / info.agent.sightRange;
    assert q * q - dist * dist == (q - dist) * (q + dist);
    if q > dist {
      PositiveProduct(q - dist, q + dist);
    } else if q > 0.0 {
      NonPositiveProduct(q - dist, q + dist);
    }
  }

  lemma PositiveProduct(a: real, b: real)
    requires a > 0.0 && b > 0.0
    ensures a * b > 0.0
  {
  }

  lemma NonPositiveProduct(a: real, b: real)
    requires a <= 0.0 && b >= 0.0
    ensures a * b <= 0.0
  {
  }

  /** A point closer than one in reach is in reach. */
  lemma ReachShrinksWithDistance(info: Info, d: real, e: real)
    requires 0.0 <= e <= d && WithinReach(info, d)
    ensures WithinReach(info, e)
  {
  }

  /** The comparison of a minimising or maximising reduction. */
  predicate Prefers(useMin: bool, a: real, b: real) {
    if useMin then a < b else a > b
  }

  /** Index r is where `argmin`/`argmax` of `where(eligible, keys, fill)`
      lands when some entry is eligible: an eligible entry no other eligible
      entry beats, and strictly better than every eligible entry before it. */
  predicate IsBest(keys: seq<real>, eligible: seq<bool>, useMin: bool, r: int)
    requires |keys| == |eligible|
  {
    0 <= r < |keys| && eligible[r] &&
    (forall j :: 0 <= j < |keys| && eligible[j] ==> !Prefers(useMin, keys[j], keys[r])) &&
    (forall j :: 0 <= j < r && eligible[j] ==> Prefers(useMin, keys[r], keys[j]))
  }

  /** Target selection: the lowest-index best eligible key; with nothing
      eligible every entry holds the fill value and the answer is 0. */
  function Best(keys: seq<real>, eligible: seq<bool>, useMin: bool): (r: nat)
    requires |keys| == |eligible|
    ensures |keys| > 0 ==> r < |keys|
    ensures AnyTrue(eligible) ==> IsBest(keys, eligible, useMin, r)
    ensures !AnyTrue(eligible) ==> r == 0
    decreases |keys|
  {
    if |keys| == 0 then 0
    else
      var n := |keys| - 1;
      var b := Best(keys[..n], eligible[..n], useMin);
      assert forall j :: 0 <= j < n ==> keys[..n][j] == keys[j] && eligible[..n][j] == eligible[j];
      if eligible[n] && (!AnyTrue(eligible[..n]) || Prefers(useMin, keys[n], keys[b])) then n else b
  }

  /** Only one index fits IsBest, so Best is pinned down by it. */
  lemma BestIsUnique(keys: seq<real>, eligible: seq<bool>, useMin: bool, r: int)
    requires |keys| == |eligible| && IsBest(keys, eligible, useMin, r)
    ensures Best(keys, eligible, useMin) == r
  {
    assert AnyTrue(eligible);
  }

  /** `min(where(mask, vals, inf))`, None standing for +inf. */
  function MinWhere(vals: seq<real>, mask: seq<bool>): (r: Option<real>)
    requires |vals| == |mask|
    ensures r.None? <==> !AnyTrue(mask)
    ensures r.Some? ==> (exists k :: 0 <= k < |vals| && mask[k] && vals[k] == r.value)
    ensures r.Some? ==> forall k :: 0 <= k < |vals| && mask[k] ==> r.value <= vals[k]
  {
    if vals == [] then None
    else
      var rest := MinWhere(vals[1..], mask[1..]);
      assert forall k :: 1 <= k < |vals| ==> vals[1..][k - 1] == vals[k] && mask[1..][k - 1] == mask[k];
      if !mask[0] then rest
      else if rest.None? || vals[0] <= rest.value then Some(vals[0])
      else rest
  }

  /** `max(where(mask, vals, -inf))`, None standing for -inf. */
  function MaxWhere(vals: seq<real>, mask: seq<bool>): (r: Option<real>)
    requires |vals| == |mask|
    ensures r.None? <==> !AnyTrue(mask)
    ensures r.Some? ==> (exists k :: 0 <= k < |vals| && mask[k] && vals[k] == r.value)
    ensures r.Some? ==> forall k :: 0 <= k < |vals| && mask[k] ==> vals[k] <= r.value
  {
    if vals == [] then None
    else
      var rest := MaxWhere(vals[1..], mask[1..]);
      assert forall k :: 1 <= k < |vals| ==> vals[1..][k - 1] == vals[k] && mask[1..][k - 1] == mask[k];
      if !mask[0] then rest
      else if rest.None? || vals[0] >= rest.value then Some(vals[0])
      else rest
  }

  /** `sum(where(mask, vals, 0))`. */
  function SumWhere(vals: seq<real>, mask: seq<bool>): real
    requires |vals| == |mask|
  {
    if vals == [] then 0.0 else (if mask[0] then vals[0] else 0.0) + SumWhere(vals[1..], mask[1..])
  }

  /** Rows with identical masked values sum the same: only the marked
      entries count. */
  lemma {:induction false} SumWhereIgnoresUnmarked(a: seq<real>, b: seq<real>, mask: seq<bool>)
    requires |a| == |mask| && |b| == |mask|
    requires forall k :: 0 <= k < |mask| && mask[k] ==> a[k] == b[k]
    ensures SumWhere(a, mask) == SumWhere(b, mask)
  {
    if mask != [] {
      assert forall k :: 1 <= k < |mask| && mask[k] ==> a[1..][k - 1] == b[1..][k - 1];
      assert forall k :: 0 <= k < |mask| - 1 && mask[1..][k] ==> mask[k + 1];
      SumWhereIgnoresUnmarked(a[1..], b[1..], mask[1..]);
    }
  }
}
