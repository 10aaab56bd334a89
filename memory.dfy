/**
 The MADDPG experience-replay buffer. A fixed-capacity circular store with one
 shared write counter: each stored transition is written, at slot
 `counter % capacity`, into the centralized (joint) state, next-state, reward
 and terminal arrays and into every agent's observation, next-observation and
 action arrays. Sampling gathers all of them at the same drawn slots.
 */
module MultiAgentMemory {

  import opened CircularSlots
  import opened Draws

  /** One row of a numpy array: the buffer only copies values, never computes with them. */
  type Row = seq<real>

  function Zeros(width: nat): (r: Row)
    ensures |r| == width && forall i :: 0 <= i < width ==> r[i] == 0.0
  {
    seq(width, _ => 0.0)
  }

  function Falses(width: nat): (r: seq<bool>)
    ensures |r| == width && forall i :: 0 <= i < width ==> !r[i]
  {
    seq(width, _ => false)
  }

  /** What one call of StoreTransition records, one entry per agent in the per-agent lists. */
  datatype Transition = Transition(
    rawObs: seq<Row>,
    state: Row,
    action: seq<Row>,
    reward: Row,
    nextRawObs: seq<Row>,
    nextState: Row,
    done: seq<bool>)

  /**
   What SampleBuffer returns, in the order the source returns it: per-agent
   observations, joint states, per-agent actions, rewards, per-agent next
   observations, joint next states, terminal flags.
   */
  datatype Batch = Batch(
    actorStates: seq<seq<Row>>,
    states: seq<Row>,
    actions: seq<seq<Row>>,
    rewards: seq<Row>,
    actorNextStates: seq<seq<Row>>,
    nextStates: seq<Row>,
    terminal: seq<seq<bool>>)

  /** The no-replacement draw asked for more slots than have been written. */
  datatype SampleError = LargerThanPopulation

  datatype Result<T> = Success(value: T) | Failure(error: SampleError)

  /** The transition a store records: the first `n` entries of each per-agent list. */
  function Pack(n: nat, rawObs: seq<Row>, state: Row, action: seq<Row>, reward: Row,
                nextRawObs: seq<Row>, nextState: Row, done: seq<bool>): (t: Transition)
    requires n <= |rawObs| && n <= |action| && n <= |nextRawObs|
    ensures |t.rawObs| == |t.action| == |t.nextRawObs| == n
    ensures forall k :: 0 <= k < n ==>
      t.rawObs[k] == rawObs[k] && t.action[k] == action[k] && t.nextRawObs[k] == nextRawObs[k]
    ensures t.state == state && t.nextState == nextState && t.reward == reward && t.done == done
  {
    Transition(rawObs[..n], state, action[..n], reward, nextRawObs[..n], nextState, done)
  }

  /** Every array of a batch has the expected number of agents and of rows. */
  ghost predicate BatchShaped(b: Batch, nAgents: nat, size: nat)
  {
    && |b.states| == size && |b.nextStates| == size && |b.rewards| == size && |b.terminal| == size
    && |b.actorStates| == nAgents && |b.actorNextStates| == nAgents && |b.actions| == nAgents
    && (forall k :: 0 <= k < nAgents ==>
          |b.actorStates[k]| == size && |b.actorNextStates[k]| == size && |b.actions[k]| == size)
  }

  /** Position `j` of every array of a batch, read back as one transition. */
  ghost function BatchRow(b: Batch, j: nat, nAgents: nat): Transition
    requires BatchShaped(b, nAgents, |b.states|) && j < |b.states|
  {
    Transition(
      seq(nAgents, k requires 0 <= k < nAgents => b.actorStates[k][j]),
      b.states[j],
      seq(nAgents, k requires 0 <= k < nAgents => b.actions[k][j]),
      b.rewards[j],
      seq(nAgents, k requires 0 <= k < nAgents => b.actorNextStates[k][j]),
      b.nextStates[j],
      b.terminal[j])
  }

  /**
   The buffer. Each per-agent family (observations, next observations,
   actions) is one two-dimensional array indexed by agent and slot; row
   `[k, i]` has agent k's width.
   */
  class MultiAgentReplayBuffer {
    const memSize: nat
    const nAgents: nat
    const actorDims: seq<nat>
    const nActions: seq<nat>
    const batchSize: nat
    /** Width of the joint state; the source passes it to the constructor only. */
    ghost const criticDims: nat

    var memCounter: nat

    const stateMemory: array<Row>
    const nextStateMemory: array<Row>
    const rewardMemory: array<Row>
    const terminalMemory: array<seq<bool>>

    var actorStateMemory: array2<Row>
    var actorNextStateMemory: array2<Row>
    var actorActionMemory: array2<Row>

    /** Every transition stored so far, oldest first. */
    ghost var history: seq<Transition>

    /** The arrays the buffer owns. */
    ghost function Arrays(): set<object>
      reads this
    {
      {stateMemory as object, nextStateMemory, rewardMemory, terminalMemory,
       actorStateMemory, actorNextStateMemory, actorActionMemory}
    }

    /** A transition has the widths this buffer was built for. */
    ghost predicate Shaped(t: Transition)
    {
      && |actorDims| >= nAgents && |nActions| >= nAgents
      && |t.rawObs| == nAgents && |t.nextRawObs| == nAgents && |t.action| == nAgents
      && (forall k :: 0 <= k < nAgents ==>
            |t.rawObs[k]| == actorDims[k] && |t.nextRawObs[k]| == actorDims[k]
            && |t.action[k]| == nActions[k])
      && |t.state| == criticDims && |t.nextState| == criticDims
      && |t.reward| == nAgents && |t.done| == nAgents
    }

    /** What every slot holds when the buffer is built: zero rows and false flags. */
    ghost function Empty(): (t: Transition)
      requires |actorDims| >= nAgents && |nActions| >= nAgents
      ensures Shaped(t)
    {
      Transition(
        seq(nAgents, k requires 0 <= k < nAgents => Zeros(actorDims[k])),
        Zeros(criticDims),
        seq(nAgents, k requires 0 <= k < nAgents => Zeros(nActions[k])),
        Zeros(nAgents),
        seq(nAgents, k requires 0 <= k < nAgents => Zeros(actorDims[k])),
        Zeros(criticDims),
        Falses(nAgents))
    }

    /** Each per-agent family has `nAgents` rows of `memSize` slots. */
    ghost predicate AgentsSized()
      reads this
    {
      && actorStateMemory.Length0 == nAgents && actorStateMemory.Length1 == memSize
      && actorNextStateMemory.Length0 == nAgents && actorNextStateMemory.Length1 == memSize
      && actorActionMemory.Length0 == nAgents && actorActionMemory.Length1 == memSize
    }

    /** Every array has `memSize` slots, and no two of them are the same array. */
    ghost predicate Sized()
      reads this
    {
      && stateMemory.Length == memSize && nextStateMemory.Length == memSize
      && rewardMemory.Length == memSize && terminalMemory.Length == memSize
      && AgentsSized()
      && stateMemory != nextStateMemory && stateMemory != rewardMemory
      && nextStateMemory != rewardMemory
      && actorStateMemory != actorNextStateMemory && actorStateMemory != actorActionMemory
      && actorNextStateMemory != actorActionMemory
    }

    /** Slot `i` of every array holds the corresponding part of `t`. */
    ghost predicate SlotHolds(i: nat, t: Transition)
      reads this, Arrays()
      requires Sized() && i < memSize
    {
      && stateMemory[i] == t.state && nextStateMemory[i] == t.nextState
      && rewardMemory[i] == t.reward && terminalMemory[i] == t.done
      && |t.rawObs| == nAgents && |t.nextRawObs| == nAgents && |t.action| == nAgents
      && (forall k :: 0 <= k < nAgents ==>
            actorStateMemory[k, i] == t.rawObs[k] && actorNextStateMemory[k, i] == t.nextRawObs[k]
            && actorActionMemory[k, i] == t.action[k])
    }

    /**
     The buffer invariant: the counter is the number of stores, every stored
     transition has the configured widths, and every slot holds the last
     transition stored there (or its initial zeros).
     */
    ghost predicate Valid()
      reads this, Arrays()
    {
      && |actorDims| >= nAgents && |nActions| >= nAgents
      && Sized()
      && memCounter == |history|
      && (forall t :: t in history ==> Shaped(t))
      && (forall i :: 0 <= i < memSize ==> SlotHolds(i, SlotAfter(history, memSize, i, Empty())))
    }

    constructor (maxSize: nat, criticDims: nat, actorDims: seq<nat>, nActions: seq<nat>,
                 nAgents: nat, batchSize: nat)
      requires nAgents <= |actorDims| && nAgents <= |nActions|
      ensures Valid() && fresh(Arrays())
      ensures memSize == maxSize && this.criticDims == criticDims && this.actorDims == actorDims
      ensures this.nActions == nActions && this.nAgents == nAgents && this.batchSize == batchSize
      ensures memCounter == 0 && history == []
      ensures forall i :: 0 <= i < memSize ==>
        stateMemory[i] == Zeros(criticDims) && nextStateMemory[i] == Zeros(criticDims)
        && rewardMemory[i] == Zeros(nAgents) && terminalMemory[i] == Falses(nAgents)
      ensures forall k, i :: 0 <= k < nAgents && 0 <= i < memSize ==>
        actorStateMemory[k, i] == Zeros(actorDims[k]) && actorNextStateMemory[k, i] == Zeros(actorDims[k])
        && actorActionMemory[k, i] == Zeros(nActions[k])
    {
      memSize := maxSize;
      memCounter := 0;
      this.nAgents := nAgents;
      this.actorDims := actorDims;
      this.batchSize := batchSize;
      this.nActions := nActions;
      this.criticDims := criticDims;
      stateMemory := new Row[maxSize](_ => Zeros(criticDims));
      nextStateMemory := new Row[maxSize](_ => Zeros(criticDims));
      rewardMemory := new Row[maxSize](_ => Zeros(nAgents));
      terminalMemory := new seq<bool>[maxSize](_ => Falses(nAgents));
      history := [];
      new;
      InitActorMemory();
      forall i | 0 <= i < memSize ensures SlotHolds(i, SlotAfter(history, memSize, i, Empty())) {
        assert SlotAfter(history, memSize, i, Empty()) == Empty();
      }
    }

    /** Allocates every agent's zero-filled observation, next-observation and action rows. */
    method InitActorMemory()
      requires nAgents <= |actorDims| && nAgents <= |nActions|
      modifies this
      ensures memCounter == old(memCounter) && history == old(history)
      ensures fresh(actorStateMemory) && fresh(actorNextStateMemory) && fresh(actorActionMemory)
      ensures actorStateMemory != actorNextStateMemory && actorStateMemory != actorActionMemory
      ensures actorNextStateMemory != actorActionMemory
      ensures AgentsSized()
      ensures forall k, i :: 0 <= k < nAgents && 0 <= i < memSize ==>
        actorStateMemory[k, i] == Zeros(actorDims[k]) && actorNextStateMemory[k, i] == Zeros(actorDims[k])
        && actorActionMemory[k, i] == Zeros(nActions[k])
    {
      var obsWidths, actionWidths := actorDims, nActions;
      actorStateMemory := new Row[nAgents, memSize]((k, _) requires 0 <= k < nAgents => Zeros(obsWidths[k]));
      actorNextStateMemory := new Row[nAgents, memSize]((k, _) requires 0 <= k < nAgents => Zeros(obsWidths[k]));
      actorActionMemory := new Row[nAgents, memSize]((k, _) requires 0 <= k < nAgents => Zeros(actionWidths[k]));
    }

    /** True once at least a batch worth of transitions has been stored. */
    function Ready(): (r: bool)
      reads this, Arrays()
      requires Valid()
      ensures r <==> batchSize <= |history|
    {
      memCounter >= batchSize
    }

    /**
     True when a sample can succeed: at least `batchSize` slots have been
     written. Unlike Ready, this accounts for the capacity.
     */
    function SampleReady(): (r: bool)
      reads this, Arrays()
      requires Valid()
      ensures r <==> batchSize <= |history| && batchSize <= memSize
    {
      ValidCount(memCounter, memSize) >= batchSize
    }

    /** A buffer that can be sampled is ready. */
    lemma SampleReadyIsReady()
      requires Valid() && SampleReady()
      ensures Ready()
    {
    }

    /** When the batch fits in the capacity, ready means a sample can succeed. */
    lemma ReadyFitsSample()
      requires Valid() && Ready() && batchSize <= memSize
      ensures SampleReady()
    {
    }

    /**
     Records one transition at slot `memCounter % memSize`, in the rows of every
     agent and in the joint arrays, then advances the counter.
     */
    method StoreTransition(rawObs: seq<Row>, state: Row, action: seq<Row>, reward: Row,
                           nextRawObs: seq<Row>, nextState: Row, done: seq<bool>)
      requires Valid() && memSize > 0
      requires nAgents <= |rawObs| && nAgents <= |action| && nAgents <= |nextRawObs|
      requires Shaped(Pack(nAgents, rawObs, state, action, reward, nextRawObs, nextState, done))
      modifies this, Arrays()
      ensures Valid() && Arrays() == old(Arrays())
      ensures memCounter == old(memCounter) + 1
      ensures history == old(history) + [Pack(nAgents, rawObs, state, action, reward, nextRawObs, nextState, done)]
      ensures SlotHolds(old(memCounter) % memSize,
                        Pack(nAgents, rawObs, state, action, reward, nextRawObs, nextState, done))
      ensures forall i :: 0 <= i < memSize && i != old(memCounter) % memSize ==>
        stateMemory[i] == old(stateMemory[i]) && nextStateMemory[i] == old(nextStateMemory[i])
        && rewardMemory[i] == old(rewardMemory[i]) && terminalMemory[i] == old(terminalMemory[i])
      ensures forall k, i :: 0 <= k < nAgents && 0 <= i < memSize && i != old(memCounter) % memSize ==>
        actorStateMemory[k, i] == old(actorStateMemory[k, i])
        && actorNextStateMemory[k, i] == old(actorNextStateMemory[k, i])
        && actorActionMemory[k, i] == old(actorActionMemory[k, i])
      ensures old(Ready()) ==> Ready()
      ensures old(SampleReady()) ==> SampleReady()
    {
      ghost var t := Pack(nAgents, rawObs, state, action, reward, nextRawObs, nextState, done);
      var index := memCounter % memSize;
      WriteAgentRows(index, rawObs, nextRawObs, action);
      stateMemory[index] := state;
      nextStateMemory[index] := nextState;
      rewardMemory[index] := reward;
      terminalMemory[index] := done;
      memCounter := memCounter + 1;
      history := history + [t];
      forall i | 0 <= i < memSize ensures SlotHolds(i, SlotAfter(history, memSize, i, Empty())) {
        SlotAfterAppend(old(history), t, memSize, i, Empty());
        if i != index {
          assert old(SlotHolds(i, SlotAfter(history, memSize, i, Empty())));
        }
      }
    }

    /** Writes each agent's observation, next observation and action at slot `index`. */
    method WriteAgentRows(index: nat, rawObs: seq<Row>, nextRawObs: seq<Row>, action: seq<Row>)
      requires AgentsSized() && index < memSize
      requires actorStateMemory != actorNextStateMemory && actorStateMemory != actorActionMemory
      requires actorNextStateMemory != actorActionMemory
      requires nAgents <= |rawObs| && nAgents <= |action| && nAgents <= |nextRawObs|
      modifies actorStateMemory, actorNextStateMemory, actorActionMemory
      ensures forall p, i :: 0 <= p < nAgents && 0 <= i < memSize ==>
        actorStateMemory[p, i] == if i == index then rawObs[p] else old(actorStateMemory[p, i])
      ensures forall p, i :: 0 <= p < nAgents && 0 <= i < memSize ==>
        actorNextStateMemory[p, i] == if i == index then nextRawObs[p] else old(actorNextStateMemory[p, i])
      ensures forall p, i :: 0 <= p < nAgents && 0 <= i < memSize ==>
        actorActionMemory[p, i] == if i == index then action[p] else old(actorActionMemory[p, i])
    {
      var k := 0;
      while k < nAgents
        invariant k <= nAgents
        invariant forall p, i :: 0 <= p < nAgents && 0 <= i < memSize ==>
          actorStateMemory[p, i] == if p < k && i == index then rawObs[p] else old(actorStateMemory[p, i])
        invariant forall p, i :: 0 <= p < nAgents && 0 <= i < memSize ==>
          actorNextStateMemory[p, i] == if p < k && i == index then nextRawObs[p] else old(actorNextStateMemory[p, i])
        invariant forall p, i :: 0 <= p < nAgents && 0 <= i < memSize ==>
          actorActionMemory[p, i] == if p < k && i == index then action[p] else old(actorActionMemory[p, i])
      {
        actorStateMemory[k, index] := rawObs[k];
        actorNextStateMemory[k, index] := nextRawObs[k];
        actorActionMemory[k, index] := action[k];
        k := k + 1;
      }
    }

    /**
     Gathers every array at the slots of `batch`, the caller's stand-in for a
     draw of `batchSize` distinct slots among the written ones. Fails, as the
     no-replacement draw does, when fewer than `batchSize` slots are written.
     */
    method SampleBuffer(batch: seq<nat>) returns (r: Result<Batch>)
      requires Valid()
      requires batchSize <= ValidCount(memCounter, memSize) ==>
                 IsDraw(batch, ValidCount(memCounter, memSize), batchSize)
      ensures r.Failure? <==> ValidCount(memCounter, memSize) < batchSize
      ensures r.Failure? <==> !SampleReady()
      ensures r.Success? ==> BatchShaped(r.value, nAgents, batchSize)
      ensures r.Success? ==> forall j :: 0 <= j < batchSize ==>
        BatchRow(r.value, j, nAgents) == history[LastWriteIndex(memCounter, memSize, batch[j])]
      ensures r.Success? ==> forall j, l :: 0 <= j < l < batchSize ==>
        LastWriteIndex(memCounter, memSize, batch[j]) != LastWriteIndex(memCounter, memSize, batch[l])
    {
      var maxMem := if memCounter < memSize then memCounter else memSize;
      if maxMem < batchSize {
        return Failure(LargerThanPopulation);
      }
      var states := Gather(stateMemory[..], batch);
      var nextStates := Gather(nextStateMemory[..], batch);
      var rewards := Gather(rewardMemory[..], batch);
      var terminal := Gather(terminalMemory[..], batch);
      var actorStates, actorNextStates, actions := [], [], [];
      var k := 0;
      while k < nAgents
        invariant k <= nAgents
        invariant |actorStates| == k && |actorNextStates| == k && |actions| == k
        invariant forall p :: 0 <= p < k ==>
          |actorStates[p]| == batchSize && |actorNextStates[p]| == batchSize && |actions[p]| == batchSize
        invariant forall p, j :: 0 <= p < k && 0 <= j < batchSize ==>
          actorStates[p][j] == actorStateMemory[p, batch[j]]
          && actorNextStates[p][j] == actorNextStateMemory[p, batch[j]]
          && actions[p][j] == actorActionMemory[p, batch[j]]
      {
        actorStates := actorStates + [Gather(AgentRows(actorStateMemory, k), batch)];
        actorNextStates := actorNextStates + [Gather(AgentRows(actorNextStateMemory, k), batch)];
        actions := actions + [Gather(AgentRows(actorActionMemory, k), batch)];
        k := k + 1;
      }
      var b := Batch(actorStates, states, actions, rewards, actorNextStates, nextStates, terminal);
      r := Success(b);
      forall j | 0 <= j < batchSize
        ensures BatchRow(b, j, nAgents) == history[LastWriteIndex(memCounter, memSize, batch[j])]
      {
        var i := batch[j];
        SlotHoldsLastWrite(history, memSize, i, Empty());
        var t := SlotAfter(history, memSize, i, Empty());
        assert SlotHolds(i, t);
        assert BatchRow(b, j, nAgents).rawObs == t.rawObs;
        assert BatchRow(b, j, nAgents).nextRawObs == t.nextRawObs;
        assert BatchRow(b, j, nAgents).action == t.action;
      }
    }
  }

  /** Agent `k`'s rows of a per-agent family, in slot order. */
  function AgentRows(a: array2<Row>, k: nat): (rows: seq<Row>)
    reads a
    requires k < a.Length0
    ensures |rows| == a.Length1 && forall i :: 0 <= i < a.Length1 ==> rows[i] == a[k, i]
  {
    seq(a.Length1, i requires 0 <= i < a.Length1 reads a => a[k, i])
  }

  /**
   A capacity-1 buffer with a batch size of 2 reports ready after two stores,
   yet sampling from it fails: only one slot has ever been written.
   */
  method ReadyButCannotSample() returns (ready: bool, r: Result<Batch>)
    ensures ready && r.Failure?
  {
    var buffer := new MultiAgentReplayBuffer(1, 0, [], [], 0, 2);
    buffer.StoreTransition([], [], [], [], [], [], []);
    buffer.StoreTransition([], [], [], [], [], [], []);
    ready := buffer.Ready();
    r := buffer.SampleBuffer([]);
  }
}
