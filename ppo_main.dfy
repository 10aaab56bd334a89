/**
 The PPO training driver for BipedalWalker: the two pure helpers it applies to
 every environment step (action rescaling and reward clipping) and the
 learn-trigger cadence of its main loop. The environment and the agent are
 abstracted as traces indexed by the global step number.
 */
module PpoMain {

  import opened DivMod

  /** Rescales one action component from [0, 1] to [-maxA, maxA]. */
  function ActionAdapter(a: real, maxA: real): (r: real)
    ensures a == 0.0 ==> r == -maxA
    ensures a == 1.0 ==> r == maxA
    ensures a == 0.5 ==> r == 0.0
  {
    2.0 * (a - 0.5) * maxA
  }

  /** The inverse rescaling, from [-maxA, maxA] back to [0, 1]. */
  function ActionUnadapter(r: real, maxA: real): real
    requires maxA != 0.0
  {
    r / (2.0 * maxA) + 0.5
  }

  /** For a non-negative bound, [0, 1] lands inside [-maxA, maxA]. */
  lemma ActionAdapterInRange(a: real, maxA: real)
    requires 0.0 <= a <= 1.0 && 0.0 <= maxA
    ensures -maxA <= ActionAdapter(a, maxA) <= maxA
  {
    var c := 2.0 * a - 1.0;
    assert ActionAdapter(a, maxA) == c * maxA;
    NonNegativeProduct(1.0 - c, maxA);
    NonNegativeProduct(1.0 + c, maxA);
  }

  lemma NonNegativeProduct(x: real, y: real)
    requires 0.0 <= x && 0.0 <= y
    ensures 0.0 <= x * y
  {
  }

  /** With a non-zero bound the rescaling is a bijection: each map undoes the other. */
  lemma ActionAdapterRoundTrip(a: real, r: real, maxA: real)
    requires maxA != 0.0
    ensures ActionUnadapter(ActionAdapter(a, maxA), maxA) == a
    ensures ActionAdapter(ActionUnadapter(r, maxA), maxA) == r
  {
    var d := 2.0 * maxA;
    assert ActionAdapter(a, maxA) == (a - 0.5) * d;
    CancelFactor(a - 0.5, d);
    assert ActionAdapter(ActionUnadapter(r, maxA), maxA) == (r / d) * d;
  }

  lemma CancelFactor(x: real, d: real)
    requires d != 0.0
    ensures x * d / d == x
  {
    var q := x * d / d;
    assert q * d == x * d;
    assert (q - x) * d == 0.0;
  }

  /** A larger raw action never yields a smaller rescaled action. */
  lemma ActionAdapterMonotone(a: real, b: real, maxA: real)
    requires a <= b && 0.0 <= maxA
    ensures ActionAdapter(a, maxA) <= ActionAdapter(b, maxA)
  {
    var ca, cb := 2.0 * (a - 0.5), 2.0 * (b - 0.5);
    assert ActionAdapter(a, maxA) == ca * maxA && ActionAdapter(b, maxA) == cb * maxA;
    NonNegativeProduct(cb - ca, maxA);
    assert cb * maxA - ca * maxA == (cb - ca) * maxA;
  }

  /** The distance between two reals. */
  function Dist(x: real, y: real): real
  {
    if x < y then y - x else x - y
  }

  /** Clamps a reward to [-1, 1]: the point of that interval nearest to `x`. */
  function ClipReward(x: real): (r: real)
    ensures -1.0 <= r <= 1.0
    ensures -1.0 <= x <= 1.0 ==> r == x
    ensures forall y :: -1.0 <= y <= 1.0 ==> Dist(x, r) <= Dist(x, y)
  {
    if x < -1.0 then -1.0
    else if x > 1.0 then 1.0
    else x
  }

  /** Clipping twice is clipping once. */
  lemma ClipRewardIdempotent(x: real)
    ensures ClipReward(ClipReward(x)) == ClipReward(x)
  {
  }

  /** Clipping preserves the order of rewards. */
  lemma ClipRewardMonotone(x: real, y: real)
    requires x <= y
    ensures ClipReward(x) <= ClipReward(y)
  {
  }

  /** Total number of steps in a sequence of episodes. */
  function Sum(lengths: seq<nat>): nat
  {
    if lengths == [] then 0 else Sum(lengths[..|lengths| - 1]) + lengths[|lengths| - 1]
  }

  lemma {:induction false} SumPrefixMonotone(lengths: seq<nat>, i: nat, j: nat)
    requires i <= j <= |lengths|
    ensures Sum(lengths[..i]) <= Sum(lengths[..j])
    decreases j - i
  {
    if i < j {
      SumPrefixMonotone(lengths, i, j - 1);
      assert lengths[..j][..j - 1] == lengths[..j - 1];
    }
  }

  /** The step counter at the most recent learning pass, or 0 before the first. */
  function LastLearn(learnSteps: seq<nat>): nat
  {
    if learnSteps == [] then 0 else learnSteps[|learnSteps| - 1]
  }

  /** The step counts of the first `n` learning passes: each `horizon` steps after the previous one. */
  function LearnSchedule(n: nat, horizon: nat): (s: seq<nat>)
    ensures |s| == n
  {
    if n == 0 then [] else LearnSchedule(n - 1, horizon) + [LastLearn(LearnSchedule(n - 1, horizon)) + horizon]
  }

  /** Learning pass `i` happens at step (i + 1) * horizon; the last of `n` passes at n * horizon. */
  lemma {:induction false} LearnScheduleAt(n: nat, horizon: nat)
    ensures LastLearn(LearnSchedule(n, horizon)) == n * horizon
    ensures forall i :: 0 <= i < n ==> LearnSchedule(n, horizon)[i] == (i + 1) * horizon
    decreases n
  {
    if n > 0 {
      LearnScheduleAt(n - 1, horizon);
      assert n * horizon == (n - 1) * horizon + horizon;
    }
  }

  /** A trajectory counter between 1 and the horizon is a multiple of it only when full. */
  lemma TrajectoryFull(len: nat, horizon: nat)
    requires 0 < len <= horizon
    ensures len % horizon == 0 <==> len == horizon
  {
    if len < horizon {
      LemmaDivModUnique(len, horizon, 0, len);
    } else {
      LemmaDivModUnique(len, horizon, 1, 0);
    }
  }

  /**
   The main loop: episodes run to completion one after another while fewer
   than `maxSteps` steps have been taken. Each step rescales the agent's action
   `actions[t]` before it is sent to the environment, clips the reward
   `rewards[t]` before it is stored, and counts the step; whenever `horizon`
   steps have been stored since the last learning pass the agent learns and the
   trajectory counter restarts. `episodeLengths[e]` is the number of steps after
   which episode `e` reports terminated or truncated. `learnSteps` records the
   value of the step counter at each learning pass.
   */
  method RunTraining(maxSteps: nat, horizon: nat, maxAction: real,
                     episodeLengths: seq<nat>, actions: seq<real>, rewards: seq<real>)
    returns (totalSteps: nat, trajectoryLen: nat, episodes: nat, learnSteps: seq<nat>,
             sentActions: seq<real>, storedRewards: seq<real>)
    requires horizon > 0
    requires forall e :: 0 <= e < |episodeLengths| ==> episodeLengths[e] >= 1
    requires maxSteps <= Sum(episodeLengths)
    requires Sum(episodeLengths) <= |actions| && Sum(episodeLengths) <= |rewards|
    ensures maxSteps <= totalSteps <= Sum(episodeLengths)
    ensures episodes <= |episodeLengths| && totalSteps == Sum(episodeLengths[..episodes])
    ensures episodes == 0 || Sum(episodeLengths[..episodes - 1]) < maxSteps
    ensures trajectoryLen < horizon && trajectoryLen == totalSteps % horizon
    ensures |learnSteps| == totalSteps / horizon
    ensures forall i :: 0 <= i < |learnSteps| ==> learnSteps[i] == (i + 1) * horizon
    ensures |sentActions| == totalSteps
    ensures forall t :: 0 <= t < totalSteps ==> sentActions[t] == ActionAdapter(actions[t], maxAction)
    ensures |storedRewards| == totalSteps
    ensures forall t :: 0 <= t < totalSteps ==> storedRewards[t] == ClipReward(rewards[t])
  {
    totalSteps, trajectoryLen, episodes := 0, 0, 0;
    learnSteps, sentActions, storedRewards := [], [], [];
    while totalSteps < maxSteps
      invariant episodes <= |episodeLengths|
      invariant totalSteps == Sum(episodeLengths[..episodes]) <= Sum(episodeLengths)
      invariant episodes == 0 || Sum(episodeLengths[..episodes - 1]) < maxSteps
      invariant trajectoryLen < horizon
      invariant totalSteps == LastLearn(learnSteps) + trajectoryLen
      invariant learnSteps == LearnSchedule(|learnSteps|, horizon)
      invariant |sentActions| == totalSteps
      invariant forall t :: 0 <= t < totalSteps ==> sentActions[t] == ActionAdapter(actions[t], maxAction)
      invariant |storedRewards| == totalSteps
      invariant forall t :: 0 <= t < totalSteps ==> storedRewards[t] == ClipReward(rewards[t])
      decreases |episodeLengths| - episodes
    {
      assert episodeLengths[..|episodeLengths|] == episodeLengths;
      var episodeLen := episodeLengths[episodes];
      assert episodeLengths[..episodes + 1][..episodes] == episodeLengths[..episodes];
      SumPrefixMonotone(episodeLengths, episodes + 1, |episodeLengths|);
      ghost var episodeStart := totalSteps;
      var step := 0;
      var done := false;
      while !done
        invariant step <= episodeLen
        invariant done <==> step == episodeLen
        invariant totalSteps == episodeStart + step
        invariant episodeStart + episodeLen <= Sum(episodeLengths)
        invariant trajectoryLen < horizon
        invariant totalSteps == LastLearn(learnSteps) + trajectoryLen
        invariant learnSteps == LearnSchedule(|learnSteps|, horizon)
        invariant |sentActions| == totalSteps
        invariant forall t :: 0 <= t < totalSteps ==> sentActions[t] == ActionAdapter(actions[t], maxAction)
        invariant |storedRewards| == totalSteps
        invariant forall t :: 0 <= t < totalSteps ==> storedRewards[t] == ClipReward(rewards[t])
        decreases episodeLen - step
      {
        sentActions := sentActions + [ActionAdapter(actions[totalSteps], maxAction)];
        step := step + 1;
        done := step == episodeLen;
        storedRewards := storedRewards + [ClipReward(rewards[totalSteps])];
        totalSteps := totalSteps + 1;
        trajectoryLen := trajectoryLen + 1;
        TrajectoryFull(trajectoryLen, horizon);
        if trajectoryLen % horizon == 0 {
          learnSteps := learnSteps + [totalSteps];
          trajectoryLen := 0;
        }
      }
      episodes := episodes + 1;
    }
    LearnScheduleAt(|learnSteps|, horizon);
    LemmaDivModUnique(totalSteps, horizon, |learnSteps|, trajectoryLen);
  }
}
