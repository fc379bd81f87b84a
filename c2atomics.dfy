/** The atomic actions and conditions of the c2sim behaviour trees. Each
    source constructor checks its enumerated parameters (an assertion or a
    dictionary lookup that can fail) and returns an evaluator over an
    observation and the agent's context; here a Make* function does the
    checking and yields the bound parameters, and a function of
    (parameters, observation, context) does the evaluating. */
module C2Atomics {
  import opened Wrappers
  import opened Utils
  import opened Arrays
  import opened BT
  import opened Observation

  /** How a constructor rejects its parameters: a failed `assert` or a
      missing dictionary key. */
  datatype ParamError = AssertionError | KeyError

  datatype Qualifier = Closest | Furthest | Strongest | Weakest

  function QualifierOf(s: string): Option<Qualifier> {
    if s == "closest" then Some(Closest)
    else if s == "furthest" then Some(Furthest)
    else if s == "strongest" then Some(Strongest)
    else if s == "weakest" then Some(Weakest)
    else None
  }

  predicate UseHealth(q: Qualifier) {
    q == Strongest || q == Weakest
  }

  predicate UseMin(q: Qualifier) {
    q == Closest || q == Weakest
  }

  const UnitTypes: seq<string> := ["any", "marine", "marauder", "stalker", "zealot", "zergling", "hydralisk"]

  /** The unit-type column of each unit, counted from the end of the
      observation. */
  const TargetTypes: map<string, Option<int>> := map[
    "marine" := Some(-6), "marauder" := Some(-5), "stalker" := Some(-4), "zealot" := Some(-3),
    "zergling" := Some(-2), "hydralisk" := Some(-1), "any" := None]

  /** The names `target in ["foe", "friend"]` accepts. */
  function TeamOf(s: string): Option<Team> {
    if s == "foe" then Some(Foe) else if s == "friend" then Some(Friend) else None
  }

  datatype Direction = North | West | Center | East | South

  function DirectionOf(s: string): Option<Direction> {
    if s == "north" then Some(North)
    else if s == "west" then Some(West)
    else if s == "center" then Some(Center)
    else if s == "east" then Some(East)
    else if s == "south" then Some(South)
    else None
  }

  function Name(d: Direction): string {
    match d
    case North => "north"
    case West => "west"
    case Center => "center"
    case East => "east"
    case South => "south"
  }

  /** The movement code of a heading. */
  function Code(d: Direction): (c: int)
    requires d != Center
    ensures IsMoveCode(c)
  {
    match d
    case North => 0
    case East => 1
    case South => 2
    case West => 3
  }

  /** The heading codes are those of the shared direction table, and names
      parse back to their direction. */
  lemma CodeIsDirToIdx(d: Direction)
    requires d != Center
    ensures Name(d) in DirToIdx && DirToIdx[Name(d)] == Code(d)
    ensures DirectionOf(Name(d)) == Some(d)
  {
    match d
    case North =>
    case East =>
      assert "east" != "north";
    case South =>
      assert "south" != "north" && "south" != "west" && "south" != "center" && "south" != "east";
    case West =>
      assert "west" != "north";
  }

  /** The unit vector of a movement code: north is +y, east +x. */
  function StepOf(c: int): (int, int)
    requires IsMoveCode(c)
  {
    if c == 0 then (0, 1) else if c == 1 then (1, 0) else if c == 2 then (0, -1) else (-1, 0)
  }

  function Dot(c: int, x: real, y: real): real
    requires IsMoveCode(c)
  {
    StepOf(c).0 as real * x + StepOf(c).1 as real * y
  }

  /** The quadrant test of the movement atomics: `x > y` and `x > -y`
      select east, south, north or west. */
  function Quadrant(x: real, y: real): (c: int)
    ensures IsMoveCode(c)
  {
    if x > y then (if x > -y then 1 else 2) else (if x > -y then 0 else 3)
  }

  /** The quadrant's heading points at (x, y) at least as well as any
      other heading. */
  lemma QuadrantFacesPoint(x: real, y: real, d: int)
    requires IsMoveCode(d)
    ensures Dot(d, x, y) <= Dot(Quadrant(x, y), x, y)
  {
  }

  /** The reversed heading points away from (x, y) at least as well as
      any other heading. */
  lemma OppositeFacesAway(x: real, y: real, d: int)
    requires IsMoveCode(d)
    ensures Dot((Quadrant(x, y) + 2) % 4, x, y) <= Dot(d, x, y)
  {
  }

  function Abs(x: real): real {
    if x < 0.0 then -x else x
  }

  // ---------------------------------------------------------------------
  // attack

  /** attack(qualifier, unit): both parameters are asserted; the unit is
      looked up but never used, so only the qualifier is bound. */
  function MakeAttack(qualifier: string, unit: string): (r: Result<Qualifier, ParamError>)
    ensures r.Ok? <==> QualifierOf(qualifier).Some? && unit in UnitTypes
    ensures r.Ok? ==> r.value == QualifierOf(qualifier).value
    ensures r.Err? ==> r.error == AssertionError
  {
    if QualifierOf(qualifier).None? then Err(AssertionError)
    else if unit !in UnitTypes then Err(AssertionError)
    else Ok(QualifierOf(qualifier).value)
  }

  /** The unit parameter never changes which target attack picks. */
  lemma AttackIgnoresUnit(qualifier: string, u1: string, u2: string)
    requires MakeAttack(qualifier, u1).Ok? && MakeAttack(qualifier, u2).Ok?
    ensures MakeAttack(qualifier, u1) == MakeAttack(qualifier, u2)
  {
  }

  /** The ranking key of each row: health, or the squared distance (which
      orders rows as the distance does). */
  function Keys(q: Qualifier, rows: seq<Row>): (keys: seq<real>)
    ensures |keys| == |rows|
  {
    if UseHealth(q) then Column(rows, 0) else seq(|rows|, k requires 0 <= k < |rows| => SqDist(rows[k]))
  }

  /** A live row of the team within attack reach. */
  predicate CanReach(rows: seq<Row>, team: Team, k: int, info: Info)
    requires 0 <= k < |rows|
  {
    Alive(rows[k]) && InTeam(team, k, |rows|, info) && WithinReach(info, SqDist(rows[k]))
  }

  function ReachMask(rows: seq<Row>, team: Team, info: Info): (m: seq<bool>)
    ensures |m| == |rows| && forall k :: 0 <= k < |rows| ==> (m[k] <==> CanReach(rows, team, k, info))
  {
    seq(|rows|, k requires 0 <= k < |rows| => CanReach(rows, team, k, info))
  }

  /** attack_fn: with a live foe in reach and no cooldown, attack the best
      such foe, encoded as its row index + 5 - (number of teammates);
      otherwise fail and stand. */
  function Attack(q: Qualifier, obs: seq<real>, info: Info): (r: Response)
    requires WellLaid(obs)
    ensures r.Both?
    ensures r.status == SUCCESS <==>
      (exists k :: 0 <= k < NumRows(obs) && CanReach(OtherObs(obs), Foe, k, info)) && SelfObs(obs)[3] <= 0.0
    ensures r.status != SUCCESS ==> r == Both(FAILURE, STAND)
    ensures r.status == SUCCESS ==>
      exists t :: IsBest(Keys(q, OtherObs(obs)), ReachMask(OtherObs(obs), Foe, info), UseMin(q), t) &&
        r.action == t + 5 - NumFriends(info)
  {
    var rows := OtherObs(obs);
    var reach := ReachMask(rows, Foe, info);
    var targ := Best(Keys(q, rows), reach, UseMin(q));
    if AnyTrue(reach) && SelfObs(obs)[3] <= 0.0 then Both(SUCCESS, targ + 5 - NumFriends(info))
    else Both(FAILURE, STAND)
  }

  /** When the rows are the other agents of both teams, a successful
      attack's action is 5 plus the index of the target among the foes. */
  lemma AttackActionIsFoeIndex(q: Qualifier, obs: seq<real>, info: Info)
    requires WellLaid(obs) && NumRows(obs) == info.env.numAllies + info.env.numEnemies - 1
    requires Attack(q, obs, info).status == SUCCESS
    ensures 5 <= Attack(q, obs, info).action < 5 + NumFoes(info)
  {
    var rows := OtherObs(obs);
    var t :| IsBest(Keys(q, rows), ReachMask(rows, Foe, info), UseMin(q), t) &&
      Attack(q, obs, info).action == t + 5 - NumFriends(info);
    assert CanReach(rows, Foe, t, info);
  }

  // ---------------------------------------------------------------------
  // move

  datatype Move = Pursue(q: Qualifier, team: Team, toward: bool) | ToCenter | Heading(d: Direction)

  /** move(direction, qualifier, target, unit): toward/away_from assert
      the target, the qualifier and the unit; "center" heads for the map
      centre; any other direction must be one of the four headings. */
  function MakeMove(direction: string, qualifier: Option<string>, target: Option<string>, unit: string): (r: Result<Move, ParamError>)
    ensures (direction == "toward" || direction == "away_from") ==>
      (r.Ok? <==> target.Some? && TeamOf(target.value).Some? && qualifier.Some? &&
                  QualifierOf(qualifier.value).Some? && unit in UnitTypes)
    ensures r.Ok? && r.value.Pursue? ==> r.value.toward == (direction == "toward")
    ensures r.Ok? && r.value.Pursue? ==>
      qualifier.Some? && QualifierOf(qualifier.value) == Some(r.value.q) &&
      target.Some? && TeamOf(target.value) == Some(r.value.team)
    ensures r.Ok? && r.value.Heading? ==> DirectionOf(direction) == Some(r.value.d) && r.value.d != Center
    ensures DirectionOf(direction).Some? && DirectionOf(direction).value != Center ==>
      r == Ok(Heading(DirectionOf(direction).value))
    ensures (direction == "toward" || direction == "away_from") && r.Ok? ==> r.value.Pursue?
    ensures direction == "center" ==> r == Ok(ToCenter)
    ensures r.Err? && direction != "toward" && direction != "away_from" ==> r.error == KeyError
    ensures (direction == "toward" || direction == "away_from") && r.Err? ==> r.error == AssertionError
    ensures r.Ok? && r.value.ToCenter? ==> direction == "center"
    ensures (direction != "toward" && direction != "away_from" && direction != "center" &&
             (DirectionOf(direction).None? || DirectionOf(direction).value == Center)) ==>
      r == Err(KeyError)
  {
    if direction == "toward" || direction == "away_from" then
      if target.None? || TeamOf(target.value).None? then Err(AssertionError)
      else if qualifier.None? || QualifierOf(qualifier.value).None? then Err(AssertionError)
      else if unit !in UnitTypes then Err(AssertionError)
      else Ok(Pursue(QualifierOf(qualifier.value).value, TeamOf(target.value).value, direction == "toward"))
    else if direction == "center" then Ok(ToCenter)
    else if DirectionOf(direction).Some? && DirectionOf(direction).value != Center then Ok(Heading(DirectionOf(direction).value))
    else Err(KeyError)
  }

  /** move_fn: step toward (or away from) the best live row of the team;
      fail and stand when the team has no live row. */
  function Pursuit(q: Qualifier, team: Team, toward: bool, obs: seq<real>, info: Info): (r: Response)
    requires WellLaid(obs)
    ensures r.Both?
    ensures r.status == SUCCESS <==>
      exists k :: 0 <= k < NumRows(obs) && Alive(OtherObs(obs)[k]) && InTeam(team, k, NumRows(obs), info)
    ensures r.status != SUCCESS ==> r == Both(FAILURE, STAND)
    ensures r.status == SUCCESS ==> IsMoveCode(r.action)
    ensures r.status == SUCCESS ==>
      exists t :: IsBest(Keys(q, OtherObs(obs)), LiveMask(OtherObs(obs), team, info), UseMin(q), t) &&
        var c := Quadrant(OtherObs(obs)[t][1], OtherObs(obs)[t][2]);
        r.action == if toward then c else (c + 2) % 4
  {
    var rows := OtherObs(obs);
    var live := LiveMask(rows, team, info);
    if !AnyTrue(live) then Both(FAILURE, STAND)
    else
      var t := Best(Keys(q, rows), live, UseMin(q));
      var c := Quadrant(rows[t][1], rows[t][2]);
      Both(SUCCESS, if toward then c else (c + 2) % 4)
  }

  /** The movement table of center_fn, indexed by axis and sign. */
  const CenterTable: seq<seq<int>> := [[1, 3], [0, 2]]

  /** The agent's position relative to the map centre, `self_obs[1:3] * 32 - 16`. */
  function FromCenter(obs: seq<real>): (real, real)
    requires |obs| >= SelfFeatures
  {
    (SelfObs(obs)[1] * 32.0 - 16.0, SelfObs(obs)[2] * 32.0 - 16.0)
  }

  /** center_fn: move along the axis of the larger offset (ties go to x),
      against its sign. */
  function MoveToCenter(obs: seq<real>): (r: Response)
    requires |obs| >= SelfFeatures
    ensures r.Both? && r.status == SUCCESS && IsMoveCode(r.action)
  {
    var (px, py) := FromCenter(obs);
    var dim := if Abs(py) > Abs(px) then 1 else 0;
    var along := if dim == 0 then px else py;
    Both(SUCCESS, CenterTable[dim][if along > 0.0 then 1 else 0])
  }

  /** center_fn's step closes the larger coordinate of the offset: its dot
      product with the offset is minus the larger absolute coordinate. */
  lemma CenterStepHeadsHome(obs: seq<real>)
    requires |obs| >= SelfFeatures
    ensures var (px, py) := FromCenter(obs);
      Dot(MoveToCenter(obs).action, px, py) == -(if Abs(py) > Abs(px) then Abs(py) else Abs(px))
  {
  }

  /** `astype(int32)` on a float: truncation toward zero. */
  function Trunc(x: real): (n: int)
    ensures x >= 0.0 ==> n as real <= x < n as real + 1.0
    ensures x < 0.0 ==> n as real - 1.0 < x <= n as real
  {
    if x >= 0.0 then x.Floor else -((-x).Floor)
  }

  /** The agent's position on the map before the move. */
  function Position(obs: seq<real>, info: Info): (real, real)
    requires |obs| >= SelfFeatures
  {
    (SelfObs(obs)[1] * info.env.mapWidth, SelfObs(obs)[2] * info.env.mapHeight)
  }

  /** The position after one step along a heading. */
  function Destination(d: Direction, obs: seq<real>, info: Info): (real, real)
    requires |obs| >= SelfFeatures && d != Center
  {
    var step := info.agent.velocity * info.env.timePerStep * info.env.worldStepsPerEnvStep;
    var v := StepOf(Code(d));
    (Position(obs, info).0 + v.0 as real * step, Position(obs, info).1 + v.1 as real * step)
  }

  predicate Square(t: seq<seq<int>>) {
    |t| > 0 && forall i :: 0 <= i < |t| ==> |t[i]| == |t|
  }

  function IntAbs(n: int): int {
    if n < 0 then -n else n
  }

  function Min(a: int, b: int): int {
    if a <= b then a else b
  }

  function Max(a: int, b: int): int {
    if a >= b then a else b
  }

  /** The coordinate raster_crossing scans: x unless y changes more. */
  function Axis(p: (int, int), q: (int, int)): int {
    if IntAbs(q.1 - p.1) > IntAbs(q.0 - p.0) then 1 else 0
  }

  /** The raster line along the axis through p: row p.1 for x, column p.0
      for y, each index taken as JAX takes it. */
  function Segment(p: (int, int), axis: int, raster: seq<seq<int>>): (s: seq<int>)
    requires Square(raster)
    ensures |s| == |raster|
    ensures axis == 0 ==> s == raster[JaxIndex(p.1, |raster|)]
    ensures axis != 0 ==> forall k :: 0 <= k < |raster| ==> s[k] == raster[k][JaxIndex(p.0, |raster|)]
  {
    var n := |raster|;
    if axis == 0 then raster[JaxIndex(p.1, n)]
    else seq(n, k requires 0 <= k < n => raster[k][JaxIndex(p.0, n)])
  }

  /** raster_crossing: some nonzero cell of the segment lies between the
      two positions, bounds included. */
  function RasterCrossing(p: (int, int), q: (int, int), raster: seq<seq<int>>): (b: bool)
    requires Square(raster)
    ensures Axis(p, q) == 0 ==>
      (b <==> exists k :: 0 <= k < |raster| && Min(p.0, q.0) <= k <= Max(p.0, q.0) && raster[JaxIndex(p.1, |raster|)][k] != 0)
    ensures Axis(p, q) == 1 ==>
      (b <==> exists k :: 0 <= k < |raster| && Min(p.1, q.1) <= k <= Max(p.1, q.1) && raster[k][JaxIndex(p.0, |raster|)] != 0)
  {
    var axis := Axis(p, q);
    var lo := if axis == 0 then Min(p.0, q.0) else Min(p.1, q.1);
    var hi := if axis == 0 then Max(p.0, q.0) else Max(p.1, q.1);
    NonzeroBetween(Segment(p, axis, raster), lo, hi)
  }

  /** Some nonzero entry of s has its index in [lo, hi]. */
  function NonzeroBetween(s: seq<int>, lo: int, hi: int): (b: bool)
    ensures b <==> exists k :: 0 <= k < |s| && lo <= k <= hi && s[k] != 0
  {
    var m := seq(|s|, k requires 0 <= k < |s| => lo <= k <= hi && s[k] != 0);
    assert AnyTrue(m) <==> exists k :: 0 <= k < |s| && lo <= k <= hi && s[k] != 0 by {
      if exists k :: 0 <= k < |s| && lo <= k <= hi && s[k] != 0 {
        var k :| 0 <= k < |s| && lo <= k <= hi && s[k] != 0;
        assert m[k];
      }
    }
    AnyTrue(m)
  }

  /** Standing still crosses exactly when the agent's own cell is blocked. */
  lemma StayingCrossesOwnCell(p: (int, int), raster: seq<seq<int>>)
    requires Square(raster) && 0 <= p.0 < |raster| && 0 <= p.1 < |raster|
    ensures RasterCrossing(p, p, raster) <==> raster[p.1][p.0] != 0
  {
  }

  /** raster_crossing between the truncated positions before and after a
      step; only a nonzero terrain cell can block it. */
  function Crossing(d: Direction, obs: seq<real>, info: Info): (b: bool)
    requires |obs| >= SelfFeatures && d != Center && Square(info.env.terrain)
    ensures b ==> exists i, j :: 0 <= i < |info.env.terrain| && 0 <= j < |info.env.terrain[i]| && info.env.terrain[i][j] != 0
  {
    var t := info.env.terrain;
    var a := Position(obs, info);
    var c := Destination(d, obs, info);
    var p, q := (Trunc(a.0), Trunc(a.1)), (Trunc(c.0), Trunc(c.1));
    var r := RasterCrossing(p, q, t);
    assert r ==> exists i, j :: 0 <= i < |t| && 0 <= j < |t[i]| && t[i][j] != 0 by {
      if r && Axis(p, q) == 0 {
        var k :| 0 <= k < |t| && Min(p.0, q.0) <= k <= Max(p.0, q.0) && t[JaxIndex(p.1, |t|)][k] != 0;
        assert t[JaxIndex(p.1, |t|)][k] != 0;
      } else if r {
        var k :| 0 <= k < |t| && Min(p.1, q.1) <= k <= Max(p.1, q.1) && t[k][JaxIndex(p.0, |t|)] != 0;
        assert t[k][JaxIndex(p.0, |t|)] != 0;
      }
    }
    r
  }

  /** move_fn_alt: always the heading's code; FAILURE iff the step crosses
      terrain. */
  function MoveHeading(d: Direction, obs: seq<real>, info: Info): (r: Response)
    requires |obs| >= SelfFeatures && d != Center && Square(info.env.terrain)
    ensures r.Both? && r.action == Code(d)
    ensures r.status == FAILURE <==> Crossing(d, obs, info)
    ensures r.status != FAILURE ==> r.status == SUCCESS
  {
    Both(if Crossing(d, obs, info) then FAILURE else SUCCESS, Code(d))
  }

  /** stand: always succeed and stand. */
  function Stand(): (r: Response)
    ensures r == Both(SUCCESS, STAND)
    ensures !IsMoveCode(r.action)
  {
    Both(SUCCESS, STAND)
  }

  // ---------------------------------------------------------------------
  // has_obstacle

  /** has_obstacle(direction): "center" passes the assertion but is not a
      key of the heading table. */
  function MakeHasObstacle(direction: string): (r: Result<Direction, ParamError>)
    ensures r.Ok? <==> DirectionOf(direction).Some? && DirectionOf(direction).value != Center
    ensures r.Ok? ==> r.value == DirectionOf(direction).value
    ensures r.Err? ==> (r.error == KeyError <==> direction == "center")
  {
    match DirectionOf(direction)
    case None => Err(AssertionError)
    case Some(d) => if d == Center then Err(KeyError) else Ok(d)
  }

  function HasObstacle(d: Direction, obs: seq<real>, info: Info): (r: Response)
    requires |obs| >= SelfFeatures && d != Center && Square(info.env.terrain)
    ensures r.Bare?
  {
    Bare(if Crossing(d, obs, info) then SUCCESS else FAILURE)
  }

  /** has_obstacle answers the opposite of the fixed-direction move. */
  lemma HasObstacleOpposesMove(d: Direction, obs: seq<real>, info: Info)
    requires |obs| >= SelfFeatures && d != Center && Square(info.env.terrain)
    ensures HasObstacle(d, obs, info).value == SUCCESS <==> MoveHeading(d, obs, info).status == FAILURE
    ensures HasObstacle(d, obs, info).value == FAILURE <==> MoveHeading(d, obs, info).status == SUCCESS
  {
  }

  // ---------------------------------------------------------------------
  // in_region

  /** The third of the map a coordinate falls in. */
  function Third(v: real): (b: int)
    ensures -1 <= b <= 1
    ensures b == 1 <==> v > 2.0 / 3.0
    ensures b == -1 <==> v < 1.0 / 3.0
  {
    if v > 2.0 / 3.0 then 1 else if v < 1.0 / 3.0 then -1 else 0
  }

  /** Thirds are ordered as the coordinates are. */
  lemma ThirdIsMonotone(v: real, w: real)
    requires v <= w
    ensures Third(v) <= Third(w)
  {
  }

  /** The table of regions: (row, column) of each (vertical, horizontal) name. */
  const D2I: map<(Direction, Direction), (int, int)> := map[
    (North, West) := (1, -1), (North, North) := (1, 0), (North, East) := (1, 1),
    (West, West) := (0, -1), (Center, Center) := (0, 0), (East, East) := (0, 1),
    (South, West) := (-1, -1), (South, South) := (-1, 0), (South, East) := (-1, 1)]

  /** in_region(x, y): y defaults to x; the pair must be a key of the table. */
  function MakeInRegion(x: string, y: Option<string>): (r: Result<(int, int), ParamError>)
    ensures r.Ok? <==> exists a, b :: DirectionOf(x) == Some(a) && DirectionOf(if y.None? then x else y.value) == Some(b) && (a, b) in D2I
    ensures r.Err? ==> r.error == KeyError
    ensures r.Ok? ==> r.value == D2I[(DirectionOf(x).value, DirectionOf(if y.None? then x else y.value).value)]
  {
    var y' := if y.None? then x else y.value;
    match (DirectionOf(x), DirectionOf(y'))
    case (Some(a), Some(b)) => if (a, b) in D2I then Ok(D2I[(a, b)]) else Err(KeyError)
    case _ => Err(KeyError)
  }

  /** A bare name is the same region as the name given twice. */
  lemma RegionDefaultsToDiagonal(x: string)
    ensures MakeInRegion(x, None) == MakeInRegion(x, Some(x))
  {
  }

  /** What in_region reads: positions 1 and 2 of the last numOwnFeatures entries. */
  predicate HasOwnPosition(obs: seq<real>, info: Info) {
    |TakeLast(obs, info.env.numOwnFeatures)| >= 3
  }

  /** in_region_fn: SUCCESS iff the agent's (row, column) of thirds is the
      target's; the action is STAND. */
  function InRegion(target: (int, int), obs: seq<real>, info: Info): (r: Response)
    requires HasOwnPosition(obs, info)
    ensures r.Both? && r.action == STAND
    ensures var own := TakeLast(obs, info.env.numOwnFeatures);
      r.status == SUCCESS <==> target == (Third(own[2]), Third(own[1]))
    ensures r.status != SUCCESS ==> r.status == FAILURE
  {
    var own := TakeLast(obs, info.env.numOwnFeatures);
    var pos := own[1..3];
    Both(if Third(pos[1]) == target.0 && Third(pos[0]) == target.1 then SUCCESS else FAILURE, STAND)
  }

  /** The nine regions of the table tile the map: every position is in
      exactly one of them. */
  lemma RegionsTileMap(obs: seq<real>, info: Info)
    requires HasOwnPosition(obs, info)
    ensures exists key :: key in D2I && InRegion(D2I[key], obs, info).status == SUCCESS
    ensures forall k1, k2 :: (k1 in D2I && k2 in D2I && InRegion(D2I[k1], obs, info).status == SUCCESS &&
      InRegion(D2I[k2], obs, info).status == SUCCESS) ==> k1 == k2
  {
    var own := TakeLast(obs, info.env.numOwnFeatures);
    var cell := (Third(own[2]), Third(own[1]));
    var key :=
      if cell.0 == 1 then (if cell.1 == -1 then (North, West) else if cell.1 == 0 then (North, North) else (North, East))
      else if cell.0 == 0 then (if cell.1 == -1 then (West, West) else if cell.1 == 0 then (Center, Center) else (East, East))
      else (if cell.1 == -1 then (South, West) else if cell.1 == 0 then (South, South) else (South, East));
    assert key in D2I && D2I[key] == cell;
  }

  // ---------------------------------------------------------------------
  // in_sight and in_reach

  /** in_sight(target, unit) and in_reach(other_agent, unit): the team
      name is asserted, the unit looked up. */
  function MakeTeamCheck(target: string, unit: string): (r: Result<Team, ParamError>)
    ensures r.Ok? <==> TeamOf(target).Some? && unit in TargetTypes
    ensures r.Ok? ==> r.value == TeamOf(target).value
    ensures r.Err? ==> (r.error == AssertionError <==> TeamOf(target).None?)
  {
    if TeamOf(target).None? then Err(AssertionError)
    else if unit !in TargetTypes then Err(KeyError)
    else Ok(TeamOf(target).value)
  }

  /** in_sight_fn: SUCCESS iff some row of the team is alive; STAND. */
  function InSight(team: Team, obs: seq<real>, info: Info): (r: Response)
    requires WellLaid(obs)
    ensures r.Both? && r.action == STAND
    ensures r.status == SUCCESS <==>
      exists k :: 0 <= k < NumRows(obs) && Alive(OtherObs(obs)[k]) && InTeam(team, k, NumRows(obs), info)
    ensures r.status != SUCCESS ==> r.status == FAILURE
  {
    Both(if AnyTrue(LiveMask(OtherObs(obs), team, info)) then SUCCESS else FAILURE, STAND)
  }

  /** in_reach_fn: SUCCESS iff some live row of the team is within reach. */
  function InReach(team: Team, obs: seq<real>, info: Info): (r: Response)
    requires WellLaid(obs)
    ensures r.Bare?
    ensures r.value == SUCCESS <==> exists k :: 0 <= k < NumRows(obs) && CanReach(OtherObs(obs), team, k, info)
    ensures r.value != SUCCESS ==> r.value == FAILURE
  {
    Bare(if AnyTrue(ReachMask(OtherObs(obs), team, info)) then SUCCESS else FAILURE)
  }

  /** A unit in reach is in sight. */
  lemma ReachImpliesSight(team: Team, obs: seq<real>, info: Info)
    requires WellLaid(obs) && InReach(team, obs, info).value == SUCCESS
    ensures InSight(team, obs, info).status == SUCCESS
  {
    var k :| 0 <= k < NumRows(obs) && CanReach(OtherObs(obs), team, k, info);
    assert Alive(OtherObs(obs)[k]) && InTeam(team, k, NumRows(obs), info);
  }

  // ---------------------------------------------------------------------
  // is_armed and is_dying

  /** Whom a condition is about: the agent itself or one of the teams. */
  datatype Subject = Myself | Others(team: Team)

  /** "self" is the agent, "foe" the foes, any other name the friends. */
  function SubjectOf(agent: string): Subject {
    if agent == "self" then Myself else Others(if agent == "foe" then Foe else Friend)
  }

  /** is_armed_fn: the agent (cooldown in self entry 3), or every live row
      of the team (cooldown in column 6), is ready to fire; a team with no
      live row counts as armed. */
  function IsArmed(s: Subject, obs: seq<real>, info: Info): (r: Response)
    requires WellLaid(obs)
    ensures r.Bare?
    ensures s.Myself? ==> (r.value == SUCCESS <==> SelfObs(obs)[3] <= 0.0)
    ensures s.Others? ==> (r.value == SUCCESS <==>
      forall k :: 0 <= k < NumRows(obs) && Alive(OtherObs(obs)[k]) && InTeam(s.team, k, NumRows(obs), info) ==> OtherObs(obs)[k][6] <= 0.0)
    ensures r.value != SUCCESS ==> r.value == FAILURE
  {
    match s
    case Myself => Bare(if SelfObs(obs)[3] <= 0.0 then SUCCESS else FAILURE)
    case Others(team) =>
      var most := MaxWhere(Column(OtherObs(obs), 6), LiveMask(OtherObs(obs), team, info));
      Bare(if most.None? || most.value <= 0.0 then SUCCESS else FAILURE)
  }

  /** is_dying(agent, hp_level): the level is asserted and names a threshold. */
  function MakeIsDying(agent: string, level: string): (r: Result<(Subject, real), ParamError>)
    ensures r.Ok? <==> level in {"low", "middle", "high"}
    ensures level == "low" ==> r == Ok((SubjectOf(agent), 0.25))
    ensures level == "middle" ==> r == Ok((SubjectOf(agent), 0.5))
    ensures level == "high" ==> r == Ok((SubjectOf(agent), 0.75))
    ensures r.Err? ==> r.error == AssertionError
  {
    if level == "low" then Ok((SubjectOf(agent), 0.25))
    else if level == "middle" then Ok((SubjectOf(agent), 0.5))
    else if level == "high" then Ok((SubjectOf(agent), 0.75))
    else Err(AssertionError)
  }

  /** The dying test: own health (self entry 0) below the threshold, or
      some live row of the team below it. */
  function IsDying(s: Subject, threshold: real, obs: seq<real>, info: Info): (r: Response)
    requires WellLaid(obs)
    ensures r.Bare?
    ensures s.Myself? ==> (r.value == SUCCESS <==> SelfObs(obs)[0] < threshold)
    ensures s.Others? ==> (r.value == SUCCESS <==>
      exists k :: 0 <= k < NumRows(obs) && Alive(OtherObs(obs)[k]) && InTeam(s.team, k, NumRows(obs), info) && OtherObs(obs)[k][0] < threshold)
    ensures r.value != SUCCESS ==> r.value == FAILURE
  {
    match s
    case Myself => Bare(if SelfObs(obs)[0] < threshold then SUCCESS else FAILURE)
    case Others(team) =>
      var least := MinWhere(Column(OtherObs(obs), 0), LiveMask(OtherObs(obs), team, info));
      Bare(if least.Some? && least.value < threshold then SUCCESS else FAILURE)
  }

  /** A higher threshold keeps every dying verdict. */
  lemma DyingIsMonotone(s: Subject, t1: real, t2: real, obs: seq<real>, info: Info)
    requires WellLaid(obs) && t1 <= t2 && IsDying(s, t1, obs, info).value == SUCCESS
    ensures IsDying(s, t2, obs, info).value == SUCCESS
  {
    if s.Others? {
      var k :| 0 <= k < NumRows(obs) && Alive(OtherObs(obs)[k]) && InTeam(s.team, k, NumRows(obs), info) && OtherObs(obs)[k][0] < t1;
      assert OtherObs(obs)[k][0] < t2;
    }
  }

  /** attack succeeds only with a foe in reach and the agent armed. */
  lemma AttackNeedsReachAndArms(q: Qualifier, obs: seq<real>, info: Info)
    requires WellLaid(obs) && Attack(q, obs, info).status == SUCCESS
    ensures InReach(Foe, obs, info).value == SUCCESS
    ensures IsArmed(Myself, obs, info).value == SUCCESS
  {
  }

  // ---------------------------------------------------------------------
  // is_type

  /** is_type(negation, unit): both asserted; binds the unit's column and
      whether the test is positive. */
  function MakeIsType(negation: string, unit: string): (r: Result<(int, bool), ParamError>)
    ensures r.Ok? <==> unit in UnitTypes[1..] && negation in ["a", "not_a"]
    ensures r.Ok? ==> -6 <= r.value.0 <= -1 && Some(r.value.0) == TargetTypes[unit] && (r.value.1 <==> negation == "a")
    ensures r.Err? ==> r.error == AssertionError
  {
    if unit !in UnitTypes[1..] || negation !in ["a", "not_a"] then Err(AssertionError)
    else Ok((TargetTypes[unit].value, negation == "a"))
  }

  /** The unit-type check: the column (counted from the end) is 1. */
  function IsType(spec: (int, bool), obs: seq<real>): (r: Response)
    requires -6 <= spec.0 <= -1 && |obs| >= 6
    ensures r.Bare?
    ensures r.value == SUCCESS <==> (obs[|obs| + spec.0] == 1.0) == spec.1
    ensures r.value != SUCCESS ==> r.value == FAILURE
  {
    var hit := obs[|obs| + spec.0] == 1.0;
    Bare(if hit == spec.1 then SUCCESS else FAILURE)
  }

  /** "a" and "not_a" always disagree. */
  lemma IsTypeNegates(unit: string, obs: seq<real>)
    requires MakeIsType("a", unit).Ok? && |obs| >= 6
    ensures MakeIsType("not_a", unit).Ok?
    ensures IsType(MakeIsType("a", unit).value, obs).value != IsType(MakeIsType("not_a", unit).value, obs).value
  {
    assert "not_a" in ["a", "not_a"];
    assert "not_a" != "a";
  }

  // ---------------------------------------------------------------------
  // is_flock

  datatype Flock = Surround(team: Team) | Drift(team: Team, d: Direction)

  /** is_flock(team, direction): "foe" selects the foes, any other name the
      friends; a direction other than "center" is asserted to be a heading. */
  function MakeIsFlock(team: string, direction: string): (r: Result<Flock, ParamError>)
    ensures direction == "center" ==> r.Ok? && r.value.Surround?
    ensures r.Ok? ==> r.value.team == (if team == "foe" then Foe else Friend)
    ensures direction != "center" ==> (r.Ok? <==> DirectionOf(direction).Some? && DirectionOf(direction).value != Center)
    ensures r.Ok? && r.value.Drift? ==> r.value.d != Center && DirectionOf(direction) == Some(r.value.d)
    ensures direction != "center" && r.Ok? ==>
      r == Ok(Drift(if team == "foe" then Foe else Friend, DirectionOf(direction).value))
    ensures r.Err? ==> r.error == AssertionError
  {
    var t := if team == "foe" then Foe else Friend;
    if direction == "center" then Ok(Surround(t))
    else if DirectionOf(direction).Some? && DirectionOf(direction).value != Center then Ok(Drift(t, DirectionOf(direction).value))
    else Err(AssertionError)
  }

  /** The open sector of a heading: north is -y < x < y and so on around. */
  predicate InSector(c: int, x: real, y: real) {
    if c == 0 then x > -y && x < y
    else if c == 1 then x > -y && x > y
    else if c == 2 then x > y && x < -y
    else x < -y && x < y
  }

  /** A point inside a sector is in that quadrant. */
  lemma SectorIsQuadrant(c: int, x: real, y: real)
    requires IsMoveCode(c) && InSector(c, x, y)
    ensures Quadrant(x, y) == c
  {
  }

  /** Some entry of the masked coordinates lies in the sector. */
  function Occupied(c: int, xs: seq<real>, ys: seq<real>): (b: bool)
    requires |xs| == |ys|
    ensures b <==> exists k :: 0 <= k < |xs| && InSector(c, xs[k], ys[k])
  {
    var m := seq(|xs|, k requires 0 <= k < |xs| => InSector(c, xs[k], ys[k]));
    assert AnyTrue(m) <==> exists k :: 0 <= k < |xs| && InSector(c, xs[k], ys[k]) by {
      if exists k :: 0 <= k < |xs| && InSector(c, xs[k], ys[k]) {
        var k :| 0 <= k < |xs| && InSector(c, xs[k], ys[k]);
        assert m[k];
      }
    }
    AnyTrue(m)
  }

  /** `where(mask, vals, 0)`. */
  function Masked(vals: seq<real>, mask: seq<bool>): (r: seq<real>)
    requires |vals| == |mask|
    ensures |r| == |vals|
    ensures forall k :: 0 <= k < |vals| ==> r[k] == if mask[k] then vals[k] else 0.0
  {
    seq(|vals|, k requires 0 <= k < |vals| => if mask[k] then vals[k] else 0.0)
  }

  /** A live row of the team lies in the open sector of heading c. */
  predicate SectorHeld(c: int, team: Team, obs: seq<real>, info: Info)
    requires WellLaid(obs)
  {
    exists k :: 0 <= k < NumRows(obs) && Alive(OtherObs(obs)[k]) && InTeam(team, k, NumRows(obs), info) &&
      InSector(c, OtherObs(obs)[k][1], OtherObs(obs)[k][2])
  }

  /** Masking dead and other-team rows to the origin keeps them out of
      every sector. */
  lemma OccupiedIsHeld(c: int, team: Team, obs: seq<real>, info: Info)
    requires WellLaid(obs)
    ensures var rows := OtherObs(obs);
      var live := LiveMask(rows, team, info);
      Occupied(c, Masked(Column(rows, 1), live), Masked(Column(rows, 2), live)) <==> SectorHeld(c, team, obs, info)
  {
    var rows := OtherObs(obs);
    var live := LiveMask(rows, team, info);
    var xs := Masked(Column(rows, 1), live);
    var ys := Masked(Column(rows, 2), live);
    if Occupied(c, xs, ys) {
      var k :| 0 <= k < |xs| && InSector(c, xs[k], ys[k]);
      assert live[k];
    }
    if SectorHeld(c, team, obs, info) {
      var k :| 0 <= k < NumRows(obs) && Alive(rows[k]) && InTeam(team, k, NumRows(obs), info) &&
        InSector(c, rows[k][1], rows[k][2]);
      assert InSector(c, xs[k], ys[k]);
    }
  }

  /** The centre test of is_flock: every one of the four sectors holds a
      live row of the team. */
  function FlockAround(team: Team, obs: seq<real>, info: Info): (r: Response)
    requires WellLaid(obs)
    ensures r.Bare?
    ensures r.value == SUCCESS <==>
      SectorHeld(0, team, obs, info) && SectorHeld(1, team, obs, info) &&
      SectorHeld(2, team, obs, info) && SectorHeld(3, team, obs, info)
    ensures r.value != SUCCESS ==> r.value == FAILURE
  {
    var rows := OtherObs(obs);
    var live := LiveMask(rows, team, info);
    var xs := Masked(Column(rows, 1), live);
    var ys := Masked(Column(rows, 2), live);
    OccupiedIsHeld(0, team, obs, info);
    OccupiedIsHeld(1, team, obs, info);
    OccupiedIsHeld(2, team, obs, info);
    OccupiedIsHeld(3, team, obs, info);
    var all := Occupied(0, xs, ys) && Occupied(1, xs, ys) && Occupied(2, xs, ys) && Occupied(3, xs, ys);
    Bare(if AnyTrue(live) && all then SUCCESS else FAILURE)
  }

  lemma DivOrder(a: real, b: real, n: real)
    requires n > 0.0
    ensures a / n > b / n <==> a > b
    ensures a / n > -(b / n) <==> a > -b
  {
    assert a / n - b / n == (a - b) / n;
    assert a / n + b / n == (a + b) / n;
  }

  /** The direction test of is_flock: the mean masked offset over all rows
      is in the heading's quadrant, the mean taken over every row. */
  function FlockToward(team: Team, d: Direction, obs: seq<real>, info: Info): (r: Response)
    requires WellLaid(obs) && d != Center
    ensures r.Bare?
    ensures r.value == SUCCESS <==>
      AnyTrue(LiveMask(OtherObs(obs), team, info)) &&
      Quadrant(SumWhere(Column(OtherObs(obs), 1), LiveMask(OtherObs(obs), team, info)),
               SumWhere(Column(OtherObs(obs), 2), LiveMask(OtherObs(obs), team, info))) == Code(d)
    ensures r.value != SUCCESS ==> r.value == FAILURE
  {
    var rows := OtherObs(obs);
    var live := LiveMask(rows, team, info);
    if !AnyTrue(live) then Bare(FAILURE)
    else
      var n := |rows| as real;
      var sx := SumWhere(Column(rows, 1), live);
      var sy := SumWhere(Column(rows, 2), live);
      DivOrder(sx, sy, n);
      Bare(if Quadrant(sx / n, sy / n) == Code(d) then SUCCESS else FAILURE)
  }

  /** At most one heading's drift test succeeds. */
  lemma DriftHasOneHeading(team: Team, d1: Direction, d2: Direction, obs: seq<real>, info: Info)
    requires WellLaid(obs) && d1 != Center && d2 != Center
    requires FlockToward(team, d1, obs, info).value == SUCCESS && FlockToward(team, d2, obs, info).value == SUCCESS
    ensures d1 == d2
  {
  }

  // ---------------------------------------------------------------------
  // A tree built from the atomics

  /** The fallback "attack, else stand" always succeeds: it fires at the
      attack's target when the attack succeeds and stands otherwise. The
      layout premise keeps the attack's action off the -1 sentinel. */
  lemma AttackElseStand(q: Qualifier, obs: seq<real>, info: Info)
    requires WellLaid(obs) && NumRows(obs) == info.env.numAllies + info.env.numEnemies - 1
    ensures var a := Attack(q, obs, info);
      Combine("fallback", [Normalize(a), Normalize(Stand())]) ==
        if a.status == SUCCESS then Tick(SUCCESS, a.action) else Tick(SUCCESS, STAND)
  {
    CompiledKinds();
    if Attack(q, obs, info).status == SUCCESS {
      AttackActionIsFoeIndex(q, obs, info);
    }
    var a, b := Normalize(Attack(q, obs, info)), Normalize(Stand());
    assert [a, b][..1] == [a] && [a][..0] == [];
    assert Combine("fallback", [a]) == Step("fallback", Initial("fallback"), a);
  }
}
