/** The first generation of atomic actions and conditions, written for the
    SMAX environment: an agent's observation is split into one row per other
    agent, a team mask selects rows, and the atomics test or pick among the
    selected rows. */
module Legacy {
  import opened Utils
  import opened Arrays
  import opened BT

  /** The environment facts the atomics read. */
  datatype Env = Env(numAgents: int, numAllies: int, ownFeatures: nat)

  /** What `reshape(num_agents - 1, -1)` demands of the observation. */
  predicate Splittable(obs: seq<real>, env: Env) {
    env.numAgents >= 2 && |DropLast(obs, env.ownFeatures)| % (env.numAgents - 1) == 0
  }

  function Rows(env: Env): nat
    requires env.numAgents >= 2
  {
    env.numAgents - 1
  }

  predicate IsAlly(agent: string) {
    "ally" <= agent
  }

  /** The number of leading rows the visibility mask marks. */
  function SplitIndex(agent: string, env: Env): int {
    env.numAllies - (if IsAlly(agent) then 1 else 0)
  }

  /** The number of foes of the agent: the other team's size. */
  function NumFoes(agent: string, env: Env): int {
    if IsAlly(agent) then env.numAgents - env.numAllies else env.numAllies
  }

  /** see_fn: the rows of the other agents and the mask of the leading
      SplitIndex rows. */
  function See(obs: seq<real>, agent: string, env: Env): (r: (seq<seq<real>>, seq<bool>))
    requires Splittable(obs, env)
    ensures |r.0| == Rows(env) && |r.1| == Rows(env)
    ensures forall k :: 0 <= k < Rows(env) ==> |r.0[k]| == |DropLast(obs, env.ownFeatures)| / Rows(env)
    ensures forall k :: 0 <= k < Rows(env) ==> (r.1[k] <==> k < SplitIndex(agent, env))
  {
    var p := DropLast(obs, env.ownFeatures);
    var n := Rows(env);
    var w := |p| / n;
    assert |p| == w * n;
    (Reshape(p, w, n), seq(n, k requires 0 <= k < n => k < SplitIndex(agent, env)))
  }

  /** Row k of See holds the observation entries k * w .. k * w + w - 1. */
  lemma SeeRowsAreConsecutive(obs: seq<real>, agent: string, env: Env, k: nat, j: nat)
    requires Splittable(obs, env)
    requires k < Rows(env) && j < |DropLast(obs, env.ownFeatures)| / Rows(env)
    ensures k * (|DropLast(obs, env.ownFeatures)| / Rows(env)) + j < |DropLast(obs, env.ownFeatures)|
    ensures See(obs, agent, env).0[k][j] == DropLast(obs, env.ownFeatures)[k * (|DropLast(obs, env.ownFeatures)| / Rows(env)) + j]
  {
    var p := DropLast(obs, env.ownFeatures);
    var w := |p| / Rows(env);
    assert |p| == w * Rows(env);
    ReshapeAt(p, w, Rows(env), k, j);
  }

  /** The mask marks min(max(SplitIndex, 0), Rows) rows. */
  lemma SeeMaskCount(obs: seq<real>, agent: string, env: Env)
    requires Splittable(obs, env)
    ensures CountTrue(See(obs, agent, env).1) ==
      if SplitIndex(agent, env) <= 0 then 0
      else if SplitIndex(agent, env) >= Rows(env) then Rows(env)
      else SplitIndex(agent, env)
  {
    PrefixCount(See(obs, agent, env).1, SplitIndex(agent, env));
  }

  lemma {:induction false} PrefixCount(m: seq<bool>, s: int)
    requires forall k :: 0 <= k < |m| ==> (m[k] <==> k < s)
    ensures CountTrue(m) == if s <= 0 then 0 else if s >= |m| then |m| else s
  {
    if m != [] {
      var t := m[1..];
      assert forall k :: 0 <= k < |t| ==> (t[k] <==> k < s - 1) by {
        forall k | 0 <= k < |t| ensures t[k] <==> k < s - 1 {
          assert t[k] == m[k + 1];
        }
      }
      PrefixCount(t, s - 1);
    }
  }

  /** For an ally the mask marks exactly the rows of its own team: the
      first numAllies - 1 rows, those before the foes' rows. */
  lemma AllyMaskIsOwnTeam(obs: seq<real>, agent: string, env: Env, k: int)
    requires Splittable(obs, env) && IsAlly(agent) && 0 <= k < Rows(env)
    ensures See(obs, agent, env).1[k] <==> k < Rows(env) - NumFoes(agent, env)
  {
  }

  /** The mask of the foes' rows that attack_enemy builds: the complement
      of the visibility mask for an ally, its reversal for an enemy. */
  function FoeMask(obs: seq<real>, agent: string, env: Env): (m: seq<bool>)
    requires Splittable(obs, env)
    ensures |m| == Rows(env)
    ensures forall k :: 0 <= k < Rows(env) ==> (m[k] <==> k >= Rows(env) - NumFoes(agent, env))
  {
    var mask := See(obs, agent, env).1;
    if IsAlly(agent) then seq(|mask|, k requires 0 <= k < |mask| => !mask[k]) else Reverse(mask)
  }

  /** Some entry of a marked row is nonzero. */
  function MaskedAny(rows: seq<seq<real>>, mask: seq<bool>): (b: bool)
    requires |rows| == |mask|
    ensures b <==> exists k, j :: 0 <= k < |rows| && mask[k] && 0 <= j < |rows[k]| && rows[k][j] != 0.0
  {
    if rows == [] then false
    else
      var rest := MaskedAny(rows[1..], mask[1..]);
      assert rest <==> exists k, j :: 1 <= k < |rows| && mask[k] && 0 <= j < |rows[k]| && rows[k][j] != 0.0 by {
        if rest {
          var k, j :| 0 <= k < |rows[1..]| && mask[1..][k] && 0 <= j < |rows[1..][k]| && rows[1..][k][j] != 0.0;
          assert rows[k + 1][j] != 0.0 && mask[k + 1];
        }
        if exists k, j :: 1 <= k < |rows| && mask[k] && 0 <= j < |rows[k]| && rows[k][j] != 0.0 {
          var k, j :| 1 <= k < |rows| && mask[k] && 0 <= j < |rows[k]| && rows[k][j] != 0.0;
          assert rows[1..][k - 1][j] != 0.0 && mask[1..][k - 1];
        }
      }
      (mask[0] && exists j :: 0 <= j < |rows[0]| && rows[0][j] != 0.0) || rest
  }

  /** enemy_found, as written: it tests the rows See marks, which for an
      ally are its own team's rows. */
  function EnemyFound(obs: seq<real>, agent: string, env: Env): (r: Response)
    requires Splittable(obs, env)
    ensures r.Bare? && (r.value == SUCCESS || r.value == FAILURE)
    ensures r.value == SUCCESS <==> MaskedAny(See(obs, agent, env).0, See(obs, agent, env).1)
  {
    var (rows, mask) := See(obs, agent, env);
    Bare(if MaskedAny(rows, mask) then SUCCESS else FAILURE)
  }

  /** A concrete input on which enemy_found reports a foe although the
      only nonzero row is the ally's own teammate: three agents, two allies,
      one own feature. */
  lemma EnemyFoundSeesTeammate()
    ensures var env := Env(3, 2, 1);
      var obs := [1.0, 0.0, 0.0];
      Splittable(obs, env) &&
      EnemyFound(obs, "ally_0", env) == Bare(SUCCESS) &&
      !MaskedAny(See(obs, "ally_0", env).0, FoeMask(obs, "ally_0", env))
  {
    var env := Env(3, 2, 1);
    var obs := [1.0, 0.0, 0.0];
    assert "ally" <= "ally_0";
    var (rows, mask) := See(obs, "ally_0", env);
    assert DropLast(obs, 1) == [1.0, 0.0];
    ReshapeAt([1.0, 0.0], 1, 2, 0, 0);
    ReshapeAt([1.0, 0.0], 1, 2, 1, 0);
    assert rows[0][0] == 1.0 && rows[1][0] == 0.0;
    assert mask[0];
    var foes := FoeMask(obs, "ally_0", env);
    assert !foes[0];
  }

  /** enemy_found as intended: it tests the foes' rows. */
  function FoeFound(obs: seq<real>, agent: string, env: Env): (r: Response)
    requires Splittable(obs, env)
    ensures r.Bare? && (r.value == SUCCESS || r.value == FAILURE)
  {
    Bare(if MaskedAny(See(obs, agent, env).0, FoeMask(obs, agent, env)) then SUCCESS else FAILURE)
  }

  /** FoeFound succeeds exactly when a foe's row has a nonzero entry. */
  lemma FoeFoundIff(obs: seq<real>, agent: string, env: Env)
    requires Splittable(obs, env)
    ensures var rows := See(obs, agent, env).0;
      FoeFound(obs, agent, env) == Bare(SUCCESS) <==>
      exists k, j :: 0 <= k < Rows(env) && k >= Rows(env) - NumFoes(agent, env) && 0 <= j < |rows[k]| && rows[k][j] != 0.0
  {
    var rows := See(obs, agent, env).0;
    var foes := FoeMask(obs, agent, env);
    assert MaskedAny(rows, foes) <==> exists k, j :: 0 <= k < |rows| && foes[k] && 0 <= j < |rows[k]| && rows[k][j] != 0.0;
  }

  /** find_enemy: keep running, moving in the drawn direction (or standing). */
  function FindEnemy(draw: int): (r: Response)
    requires 0 <= draw < 5
    ensures r.Both? && r.status == RUNNING
    ensures IsMoveCode(r.action) || r.action == STAND
  {
    Both(RUNNING, draw)
  }

  /** The rows the mask marks, in order. */
  function Select(rows: seq<seq<real>>, mask: seq<bool>): (r: seq<seq<real>>)
    requires |rows| == |mask|
    ensures |r| == CountTrue(mask)
  {
    if rows == [] then [] else (if mask[0] then [rows[0]] else []) + Select(rows[1..], mask[1..])
  }

  /** The selected rows hold a nonzero row exactly when some marked row
      is nonzero. */
  lemma SelectNonzero(rows: seq<seq<real>>, mask: seq<bool>)
    requires |rows| == |mask|
    ensures (exists i :: 0 <= i < |Select(rows, mask)| && Nonzero(Select(rows, mask)[i])) <==>
            (exists k :: 0 <= k < |rows| && mask[k] && Nonzero(rows[k]))
  {
    if exists i :: 0 <= i < |Select(rows, mask)| && Nonzero(Select(rows, mask)[i]) {
      var i :| 0 <= i < |Select(rows, mask)| && Nonzero(Select(rows, mask)[i]);
      SelectedIsMarked(rows, mask, i);
    }
    if exists k :: 0 <= k < |rows| && mask[k] && Nonzero(rows[k]) {
      var k :| 0 <= k < |rows| && mask[k] && Nonzero(rows[k]);
      MarkedIsSelected(rows, mask, k);
    }
  }

  /** A mask that marks the rows from s on selects exactly those rows, in
      order. */
  lemma {:induction false} SelectSuffix(rows: seq<seq<real>>, mask: seq<bool>, s: nat)
    requires |rows| == |mask| && s <= |rows|
    requires forall k :: 0 <= k < |mask| ==> (mask[k] <==> k >= s)
    ensures Select(rows, mask) == rows[s..]
  {
    if rows != [] {
      var s' := if s == 0 then 0 else s - 1;
      assert forall k :: 0 <= k < |mask[1..]| ==> (mask[1..][k] <==> k >= s');
      SelectSuffix(rows[1..], mask[1..], s');
      if s == 0 {
        assert rows == [rows[0]] + rows[1..];
      } else {
        assert rows[s..] == rows[1..][s'..];
      }
    }
  }

  /** Every selected row is a marked row. */
  lemma {:induction false} SelectedIsMarked(rows: seq<seq<real>>, mask: seq<bool>, i: nat)
    requires |rows| == |mask| && i < |Select(rows, mask)|
    ensures exists k :: 0 <= k < |rows| && mask[k] && rows[k] == Select(rows, mask)[i]
  {
    var head := if mask[0] then [rows[0]] else [];
    var rest := Select(rows[1..], mask[1..]);
    assert Select(rows, mask) == head + rest;
    if i < |head| {
      assert mask[0] && rows[0] == Select(rows, mask)[i];
    } else {
      SelectedIsMarked(rows[1..], mask[1..], i - |head|);
      var k :| 0 <= k < |rows[1..]| && mask[1..][k] && rows[1..][k] == rest[i - |head|];
      assert mask[k + 1] && rows[k + 1] == Select(rows, mask)[i];
    }
  }

  /** Every marked row is selected. */
  lemma {:induction false} MarkedIsSelected(rows: seq<seq<real>>, mask: seq<bool>, k: nat)
    requires |rows| == |mask| && k < |rows| && mask[k]
    ensures exists i :: 0 <= i < |Select(rows, mask)| && Select(rows, mask)[i] == rows[k]
  {
    var head := if mask[0] then [rows[0]] else [];
    var rest := Select(rows[1..], mask[1..]);
    assert Select(rows, mask) == head + rest;
    if k == 0 {
      assert Select(rows, mask)[0] == rows[0];
    } else {
      MarkedIsSelected(rows[1..], mask[1..], k - 1);
      var i :| 0 <= i < |rest| && rest[i] == rows[1..][k - 1];
      assert Select(rows, mask)[|head| + i] == rows[k];
    }
  }

  /** A row with a nonzero entry. */
  predicate Nonzero(row: seq<real>) {
    exists j :: 0 <= j < |row| && row[j] != 0.0
  }

  /** `any(axis=1)`: which rows have a nonzero entry. */
  function RowsAny(rows: seq<seq<real>>): (r: seq<bool>)
    ensures |r| == |rows|
    ensures forall k :: 0 <= k < |rows| ==> (r[k] <==> exists j :: 0 <= j < |rows[k]| && rows[k][j] != 0.0)
  {
    seq(|rows|, k requires 0 <= k < |rows| => exists j :: 0 <= j < |rows[k]| && rows[k][j] != 0.0)
  }

  /** The first foe row: Rows - NumFoes, clamped to the rows. */
  function FoeStart(agent: string, env: Env): (s: nat)
    requires env.numAgents >= 2
    ensures s <= Rows(env)
  {
    var n := Rows(env) - NumFoes(agent, env);
    if n < 0 then 0 else if n > Rows(env) then Rows(env) else n
  }

  /** The foe mask selects the rows from FoeStart on, in order. */
  lemma FoeRowsSelected(obs: seq<real>, agent: string, env: Env)
    requires Splittable(obs, env)
    ensures Select(See(obs, agent, env).0, FoeMask(obs, agent, env)) == See(obs, agent, env).0[FoeStart(agent, env)..]
  {
    SelectSuffix(See(obs, agent, env).0, FoeMask(obs, agent, env), FoeStart(agent, env));
  }

  /** The foes' rows that have a nonzero entry. */
  function InSight(obs: seq<real>, agent: string, env: Env): (r: seq<bool>)
    requires Splittable(obs, env)
    ensures |r| == CountTrue(FoeMask(obs, agent, env))
    ensures AnyTrue(r) <==> MaskedAny(See(obs, agent, env).0, FoeMask(obs, agent, env))
    ensures |r| <= Rows(env)
    ensures forall j :: 0 <= j < |r| ==> (r[j] <==> Nonzero(See(obs, agent, env).0[Rows(env) - |r| + j]))
  {
    var rows, mask := See(obs, agent, env).0, FoeMask(obs, agent, env);
    FoeRowsSelected(obs, agent, env);
    var r := RowsAny(Select(rows, mask));
    SelectNonzero(rows, mask);
    assert AnyTrue(r) <==> exists k :: 0 <= k < |rows| && mask[k] && Nonzero(rows[k]);
    r
  }

  /** The candidate indices that get positive probability in attack_enemy,
      followed by the "no target" slot: the index list
      `where(in_sight, size=rows)` is padded with index 0 whenever fewer than
      `rows` indices are in sight, so index 0 is always a candidate then. */
  function SupportAsWritten(inSight: seq<bool>, rows: nat): (s: seq<bool>)
    ensures |s| == |inSight| + 1
  {
    var padded := CountTrue(inSight) < rows;
    var hit := seq(|inSight|, j requires 0 <= j < |inSight| => inSight[j] || (padded && j == 0));
    hit + [CountTrue(hit) == 0]
  }

  /** The candidates as intended: the rows in sight, or "no target" when none is. */
  function Support(inSight: seq<bool>): (s: seq<bool>)
    ensures |s| == |inSight| + 1
  {
    inSight + [CountTrue(inSight) == 0]
  }

  /** `actions = arange(n + 1)` with the last entry set to -1. */
  function Actions(n: nat): (a: seq<int>)
    ensures |a| == n + 1 && a[n] == -1
    ensures forall j :: 0 <= j < n ==> a[j] == j
  {
    seq(n + 1, j requires 0 <= j <= n => if j == n then -1 else j)
  }

  /** attack_enemy: succeed, with the action at a drawn candidate index
      (the draw is a parameter, restricted to indices with positive
      probability). */
  function AttackEnemyAsWritten(obs: seq<real>, agent: string, env: Env, pick: nat): (r: Response)
    requires Splittable(obs, env)
    requires pick < |InSight(obs, agent, env)| + 1 && SupportAsWritten(InSight(obs, agent, env), Rows(env))[pick]
    ensures r.Both? && r.status == SUCCESS
    ensures r.action == -1 || 0 <= r.action < |InSight(obs, agent, env)|
  {
    Both(SUCCESS, Actions(|InSight(obs, agent, env)|)[pick])
  }

  /** As written, when a foe's row exists but none is in sight, the agent
      still attacks foe index 0: two allies and one enemy, all zero rows. */
  lemma AttackWithoutTarget()
    ensures var env := Env(3, 2, 1);
      var obs := [0.0, 0.0, 0.0];
      Splittable(obs, env) &&
      InSight(obs, "ally_0", env) == [false] &&
      SupportAsWritten([false], Rows(env)) == [true, false] &&
      AttackEnemyAsWritten(obs, "ally_0", env, 0) == Both(SUCCESS, 0)
  {
    var env := Env(3, 2, 1);
    var obs := [0.0, 0.0, 0.0];
    assert "ally" <= "ally_0";
    assert DropLast(obs, 1) == [0.0, 0.0];
    var rows := See(obs, "ally_0", env).0;
    ReshapeAt([0.0, 0.0], 1, 2, 1, 0);
    var foes := FoeMask(obs, "ally_0", env);
    assert foes == [false, true];
    assert Select(rows, foes) == [rows[1]] by {
      assert rows[1..][1..] == [];
      assert Select(rows[1..], foes[1..]) == [rows[1]] + Select(rows[1..][1..], foes[1..][1..]);
    }
    assert rows[1] == [0.0];
    assert InSight(obs, "ally_0", env) == [false];
    var hit := seq(1, j requires 0 <= j < 1 => false || (true && j == 0));
    assert hit == [true];
    assert CountTrue(hit) == 1;
    assert Actions(1)[0] == 0;
  }

  /** attack_enemy as intended. */
  function AttackEnemy(obs: seq<real>, agent: string, env: Env, pick: nat): (r: Response)
    requires Splittable(obs, env)
    requires pick < |InSight(obs, agent, env)| + 1 && Support(InSight(obs, agent, env))[pick]
    ensures r.Both? && r.status == SUCCESS
    ensures r.action == -1 <==> forall j :: 0 <= j < |InSight(obs, agent, env)| ==> !InSight(obs, agent, env)[j]
    ensures r.action != -1 ==> 0 <= r.action < |InSight(obs, agent, env)| && InSight(obs, agent, env)[r.action]
  {
    CountBounds(InSight(obs, agent, env));
    Both(SUCCESS, Actions(|InSight(obs, agent, env)|)[pick])
  }

  /** The intended attack's action j names foe row j: the row j places
      after the first foe row, and that row has a nonzero entry. */
  lemma AttackEnemyTargetsFoeRow(obs: seq<real>, agent: string, env: Env, pick: nat)
    requires Splittable(obs, env)
    requires pick < |InSight(obs, agent, env)| + 1 && Support(InSight(obs, agent, env))[pick]
    ensures var a := AttackEnemy(obs, agent, env, pick).action;
      a != -1 ==> 0 <= a < |InSight(obs, agent, env)| &&
                  Nonzero(See(obs, agent, env).0[Rows(env) - |InSight(obs, agent, env)| + a])
  {
    var ins := InSight(obs, agent, env);
    var a := AttackEnemy(obs, agent, env, pick).action;
    if a != -1 {
      assert ins[a];
    }
  }

  /** Under the intended candidates, every draw that is possible at all is
      a foe in sight, or "no target" exactly when no foe is in sight. */
  lemma {:induction false} SupportIsSound(inSight: seq<bool>)
    ensures Support(inSight)[|inSight|] <==> forall j :: 0 <= j < |inSight| ==> !inSight[j]
    ensures exists j :: 0 <= j <= |inSight| && Support(inSight)[j]
  {
    CountBounds(inSight);
    if !Support(inSight)[|inSight|] {
      var j :| 0 <= j < |inSight| && inSight[j];
      assert Support(inSight)[j];
    }
  }
}
