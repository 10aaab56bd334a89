# MADDPG replay buffer and PPO training cadence, in Dafny

This project models two pieces of a reinforcement-learning repository:

- **The MADDPG multi-agent experience-replay buffer** (`maddpg/memory.py`). This is a
  fixed-capacity circular store with one shared write counter. Each stored transition
  goes to slot `mem_counter % mem_size`. It is written to the joint state, next-state,
  reward and terminal arrays, and to every agent's observation, next-observation and
  action arrays. Sampling draws `batch_size` distinct slots among the written ones and
  gathers every array at those slots.
  - The model is the class `MultiAgentMemory.MultiAgentReplayBuffer`. It has array
    fields and a ghost `history` of every stored transition.
  - Its invariant `Valid` ties every slot to `CircularSlots.SlotAfter`, a value-level
    specification of circular overwrite.
  - The overwrite discipline is proved about that specification in `CircularSlots`.
    Each of the last `mem_size` stores is retained, at slot `j % mem_size`. Unwritten
    slots keep their zeros. Read in slot order, the written slots are a rotation of the
    most recent stores.
  - The no-replacement draw and its failure condition are in `Draws`.
- **The PPO training driver** (`algorithms/ppo/main.py`). It has two pure per-step
  helpers:
  - action rescaling from [0, 1] to [-max_action, max_action];
  - reward clipping to [-1, 1].

  Its main loop runs whole episodes until `max_steps` steps have been taken, and calls
  the agent's learning pass every `T` stored steps. In the model, `PpoMain.RunTraining`
  replaces the environment and the agent with traces: episode lengths, and the raw
  action and reward at each global step. It returns the step counters, the actions
  sent, the rewards stored, and the step count at each learning pass.

`DivMod` holds two arithmetic helper lemmas that the other modules use.

## Model

| member | source | states |
|---|---|---|
| MultiAgentMemory.MultiAgentReplayBuffer.constructor | maddpg/memory.py:6-27 | The buffer starts with counter 0 and the given sizes. Every joint row is zero (terminal rows false) and every agent row is zero with that agent's width. The buffer invariant holds with an empty history. |
| MultiAgentMemory.MultiAgentReplayBuffer.InitActorMemory | maddpg/memory.py:29-43 | Allocates three fresh, distinct per-agent arrays of `n_agents` × `mem_size` rows. Agent k's observation rows have width `actor_dims[k]` and its action rows width `n_actions[k]`, all zero. |
| MultiAgentMemory.MultiAgentReplayBuffer.StoreTransition | maddpg/memory.py:45-65 | The transition lands at slot `old counter % mem_size` in every array, for every agent. All other slots are unchanged. The counter advances by one and the history grows by exactly this transition. The invariant (every slot holds the last store made there) is preserved. A ready buffer stays ready, and one that can be sampled stays so. |
| MultiAgentMemory.MultiAgentReplayBuffer.WriteAgentRows | maddpg/memory.py:56-59 | After the per-agent loop, slot `index` of agent p's three rows holds that agent's observation, next observation and action. Every other agent row is as before. |
| MultiAgentMemory.MultiAgentReplayBuffer.SampleBuffer | maddpg/memory.py:67-104 | Fails exactly when `batch_size > min(mem_counter, mem_size)`, that is, when the buffer is not `SampleReady`. Otherwise every returned array has `batch_size` rows (per agent for the lists). Position j of the batch is, across all seven arrays, the transition of the most recent store at slot `batch[j]`. The j-th and l-th picks are different stores. |
| MultiAgentMemory.MultiAgentReplayBuffer.Ready | maddpg/memory.py:106-107 | True exactly when at least `batch_size` transitions have been stored. |
| MultiAgentMemory.AgentRows | maddpg/memory.py:92-94 | Agent k's rows of a per-agent family, in slot order: element i is the row at `[k, i]`. |
| Draws.Gather | maddpg/memory.py:82-94 | Indexing rows by a batch gives one row per pick: element j is the row at slot `batch[j]`. This covers the four joint gathers and each agent's three. |
| MultiAgentMemory.MultiAgentReplayBuffer.SampleReady | maddpg/memory.py:78-80 | True exactly when at least `batch_size` transitions have been stored and `batch_size` fits in the capacity. |
| MultiAgentMemory.MultiAgentReplayBuffer.SampleReadyIsReady | maddpg/memory.py:106-107 | A buffer that can be sampled is ready. |
| MultiAgentMemory.MultiAgentReplayBuffer.ReadyFitsSample | maddpg/memory.py:78-80 | When `batch_size <= mem_size`, a ready buffer can be sampled. |
| MultiAgentMemory.ReadyButCannotSample | maddpg/memory.py:106-107 | With capacity 1 and batch size 2, after two stores the buffer is ready but sampling fails. |
| MultiAgentMemory.Pack | maddpg/memory.py:45-64 | The stored transition keeps exactly the first `n_agents` entries of each per-agent list, unchanged, and the joint state, next state, reward and done values as given. |
| CircularSlots.SlotAfter | maddpg/memory.py:55-64 | A slot only ever holds its initial value or something that was stored. |
| CircularSlots.SlotAfterAppend | maddpg/memory.py:55-64 | A store changes only slot `counter % mem_size`, which then holds the new transition. |
| CircularSlots.RecentStoreRetained | maddpg/memory.py:55-64 | Each of the last `mem_size` stores is still present, at slot `j % mem_size`. |
| CircularSlots.UnwrittenSlotEmpty | maddpg/memory.py:15-27 | A slot at or beyond the number of stores still holds its initial value. |
| CircularSlots.NearStoresDistinctSlots | maddpg/memory.py:55 | Two stores fewer than `mem_size` apart are written to different slots. |
| CircularSlots.LastWriteIndex | maddpg/memory.py:55 | For a written slot i, the most recent store written there: it maps to slot i and is one of the last `mem_size` stores. |
| CircularSlots.SlotHoldsLastWrite | maddpg/memory.py:55-64 | A written slot holds the most recent store made at that slot. |
| CircularSlots.ValidCount | maddpg/memory.py:78 | The number of written slots equals the counter before wrap-around and the capacity after it. |
| CircularSlots.UnwrappedSlots | maddpg/memory.py:55-64 | Before wrap-around, slot i holds store i. |
| CircularSlots.WrappedSlots | maddpg/memory.py:55-64 | After wrap-around, the slots in order are the last `mem_size` stores rotated by `counter % mem_size`. |
| CircularSlots.ValidSlotsAreRecentStores | maddpg/memory.py:78-85 | The written slots hold exactly the last `min(counter, size)` stores, each once. |
| CircularSlots.SevenStoresIntoFiveSlots | maddpg/memory.py:55-65 | Seven stores into five slots leave stores 6, 7, 3, 4, 5 in slot order. Stores 1 and 2 are overwritten. |
| Draws.FirstSlots | maddpg/memory.py:80 | The witness that a draw exists: the first `size` slots are a valid no-replacement draw from any population of at least `size`. It is not a model of the random choice. |
| Draws.DrawNeedsPopulation | maddpg/memory.py:80 | A draw of distinct slots below `population` has at most `population` elements. |
| Draws.DrawPossibleIff | maddpg/memory.py:78-80 | A no-replacement draw of `batch_size` slots among `max_mem` exists if and only if `batch_size <= max_mem`. This is the condition under which sampling fails. |
| PpoMain.ActionAdapter | algorithms/ppo/main.py:10-12 | 0 maps to -max_a, 1 to max_a, and 0.5 to 0. |
| PpoMain.ActionAdapterInRange | algorithms/ppo/main.py:10-12 | For max_a >= 0, an action in [0, 1] lands in [-max_a, max_a]. |
| PpoMain.ActionAdapterRoundTrip | algorithms/ppo/main.py:10-12 | For non-zero max_a the rescaling is a bijection with an explicit inverse. |
| PpoMain.ActionAdapterMonotone | algorithms/ppo/main.py:10-12 | For max_a >= 0 the rescaling is non-decreasing. |
| PpoMain.ClipReward | algorithms/ppo/main.py:15-22 | The result is in [-1, 1]. It equals the input when the input is already there. It is the point of [-1, 1] nearest the input. |
| PpoMain.ClipRewardIdempotent | algorithms/ppo/main.py:15-22 | Clipping twice equals clipping once. |
| PpoMain.ClipRewardMonotone | algorithms/ppo/main.py:15-22 | Clipping preserves the order of rewards. |
| PpoMain.LearnScheduleAt | algorithms/ppo/main.py:113-119 | Learning pass i happens at step (i + 1) · T. |
| PpoMain.TrajectoryFull | algorithms/ppo/main.py:114-117 | A trajectory counter in 1..T is divisible by T exactly when it equals T. |
| PpoMain.RunTraining | algorithms/ppo/main.py:79-132 | Whole episodes are run until the step count reaches `max_steps`. Every episode started was begun below `max_steps`. The trajectory counter ends as `total_steps % T`. Exactly `total_steps / T` learning passes happen, the i-th at step (i + 1) · T. Every sent action is the rescaled raw action and every stored reward the clipped raw reward, step by step. |

## Left out

- np.random.choice is not modelled as randomness. `SampleBuffer` takes the drawn slots
  as an argument and requires them to be a valid no-replacement draw whenever the draw
  can succeed.
- MultiAgentMemory.MultiAgentReplayBuffer.StoreTransition requires each agent's
  observation, next observation and action to have that agent's configured width. In
  the source the row assignment at maddpg/memory.py:57-59 broadcasts. A scalar or
  one-element row is copied into every column and nothing is raised; the model does not
  store such broadcast rows. A row whose width does not broadcast makes the source raise
  at that assignment. The assignments of maddpg/memory.py:57-59 run agent by agent, and
  every row assigned before the failing one stays written. That partial write is not
  modelled.
- MultiAgentMemory.MultiAgentReplayBuffer.constructor requires `actor_dims` and
  `n_actions` to have at least `n_agents` entries. With shorter lists the source raises
  IndexError in `init_actor_memory` (maddpg/memory.py:34-43).
- MultiAgentMemory.MultiAgentReplayBuffer.StoreTransition requires `raw_obs`, `action`
  and `next_raw_obs` to have at least `n_agents` entries. With a shorter list the
  source raises IndexError at the first assignment of maddpg/memory.py:57-59, taken
  agent by agent, that indexes past its end. Every row assigned before it stays
  written, including that agent's own earlier rows. That partial write is not modelled.
- MultiAgentMemory.MultiAgentReplayBuffer.StoreTransition requires `state` and
  `next_state` to have the joint width. In the source the assignment at
  maddpg/memory.py:61-62 broadcasts. A scalar or one-element state is copied into every
  column and nothing is raised; the model does not store such broadcast states. A state
  whose width does not broadcast makes the source raise at its assignment. Every agent's
  rows are then already written, and for `next_state` so is `state`. That partial write
  is not modelled.
- MultiAgentMemory.MultiAgentReplayBuffer.StoreTransition requires `reward` and `done`
  to have exactly `n_agents` entries. In the source a scalar or one-element `reward` or
  `done` is not an error: numpy broadcasts it into every agent's column
  (maddpg/memory.py:63-64). The model does not store broadcast values. A `reward` or
  `done` whose length does not broadcast makes the source raise at its assignment. Every
  agent's rows and the joint state and next state are then already written, and for
  `done` so is the reward. That partial write is not modelled.
- Per-agent lists longer than `n_agents` are accepted, as in the source. Only their
  first `n_agents` entries are stored.
- `StoreTransition` requires `mem_size > 0`. With a zero capacity the source's `%`
  raises ZeroDivisionError; the constructor still accepts a zero capacity.
- MultiAgentMemory.MultiAgentReplayBuffer.InitActorMemory: each per-agent family is one
  two-dimensional array indexed by agent and slot, not a Python list of separate numpy
  arrays. The agent-by-agent append loop is therefore a single allocation, and aliasing
  between one agent's arrays is not modelled.
- MultiAgentMemory.MultiAgentReplayBuffer.constructor takes `max_size`, `critic_dims`,
  `n_agents` and `batch_size` as natural numbers. In the source a negative size makes
  `np.zeros` raise (maddpg/memory.py:22-25). A negative `batch_size` makes `ready()`
  always true and every `sample_buffer()` raise (maddpg/memory.py:80, 107). The model
  does not capture these negative configurations.
- `critic_dims` is used only to size the joint arrays. The model keeps it as a ghost
  constant.
- PpoMain.ClipReward: rewards are reals, so there is no NaN. A NaN reward fails both
  comparisons in `clip_reward` and passes through unchanged, so "the result is in
  [-1, 1]" holds only for non-NaN floats.
- Array elements are mathematical reals, not 64-bit floats. Rounding in
  `2 * (a - 0.5) * max_a` is not modelled.
- PpoMain.RunTraining: the agent's action is one real per step rather than a vector,
  and `action_adapter` is applied to it. The environment is replaced by episode
  lengths of at least one step each, and raw action and reward traces long enough for
  all episodes.
- PpoMain.RunTraining: `agent.choose_action`, `agent.learn`, `memory.store_memory`
  (PPOMemory), score bookkeeping, checkpoint saving, printing, plotting, seeding, model
  loading and directory creation are not modelled. Only the step count at each learning
  pass is recorded.
- The PPO agent, PPOMemory and the network modules are not part of this model.

## Findings

| source | as written | input that shows it | evidently intended | confidence | as-written member | corrected member |
|---|---|---|---|---|---|---|
| maddpg/memory.py:106-107 | `ready()` tests `mem_counter >= batch_size` and ignores the capacity. Sampling draws from `min(mem_counter, mem_size)` slots (maddpg/memory.py:78-80), so with `mem_size < batch_size` the buffer reports ready forever while every sample raises. | `max_size=1`, `batch_size=2`, two stores: `ready()` is true and `sample_buffer()` raises ValueError | ready exactly when a sample can succeed: `min(mem_counter, mem_size) >= batch_size` | medium, not executed | MultiAgentMemory.ReadyButCannotSample | MultiAgentMemory.MultiAgentReplayBuffer.SampleReady |
