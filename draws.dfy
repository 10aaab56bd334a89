/**
 Drawing a minibatch without replacement from the written prefix of a buffer,
 and gathering rows at the drawn slots.
 */
module Draws {

  /** `batch` is a draw of `size` distinct slots, each below `population`. */
  ghost predicate IsDraw(batch: seq<nat>, population: nat, size: nat)
  {
    && |batch| == size
    && (forall j :: 0 <= j < |batch| ==> batch[j] < population)
    && (forall j, k :: 0 <= j < k < |batch| ==> batch[j] != batch[k])
  }

  /** The rows of `rows` at the slots of `batch`, in batch order. */
  function Gather<T>(rows: seq<T>, batch: seq<nat>): (g: seq<T>)
    requires forall j :: 0 <= j < |batch| ==> batch[j] < |rows|
    ensures |g| == |batch|
    ensures forall j :: 0 <= j < |batch| ==> g[j] == rows[batch[j]]
  {
    seq(|batch|, j requires 0 <= j < |batch| => rows[batch[j]])
  }

  /** The first `size` slots, the simplest draw there is. */
  function FirstSlots(size: nat): (batch: seq<nat>)
    ensures forall population :: size <= population ==> IsDraw(batch, population, size)
  {
    seq(size, j requires 0 <= j < size => j)
  }

  /** The set of slots a batch picks. */
  function Values(batch: seq<nat>): set<nat>
  {
    set j | 0 <= j < |batch| :: batch[j]
  }

  /** The slots 0, 1, ..., population - 1. */
  function Below(population: nat): set<nat>
  {
    if population == 0 then {} else Below(population - 1) + {population - 1}
  }

  lemma {:induction false} BelowMembers(population: nat, x: nat)
    ensures x in Below(population) <==> x < population
    decreases population
  {
    if population > 0 {
      BelowMembers(population - 1, x);
    }
  }

  lemma {:induction false} BelowCount(population: nat)
    ensures |Below(population)| == population
    decreases population
  {
    if population > 0 {
      BelowCount(population - 1);
      BelowMembers(population - 1, population - 1);
    }
  }

  lemma {:induction false} SubsetCount(a: set<nat>, b: set<nat>)
    requires a <= b
    ensures |a| <= |b|
    decreases a
  {
    if a != {} {
      var x :| x in a;
      SubsetCount(a - {x}, b - {x});
    }
  }

  lemma {:induction false} DistinctValuesCount(batch: seq<nat>)
    requires forall j, k :: 0 <= j < k < |batch| ==> batch[j] != batch[k]
    ensures |Values(batch)| == |batch|
    decreases |batch|
  {
    if |batch| > 0 {
      var n := |batch|;
      var prefix := batch[..n - 1];
      DistinctValuesCount(prefix);
      assert Values(batch) == Values(prefix) + {batch[n - 1]};
      assert batch[n - 1] !in Values(prefix);
    }
  }

  /** A draw without replacement can only be as large as the population. */
  lemma DrawNeedsPopulation(batch: seq<nat>, population: nat, size: nat)
    requires IsDraw(batch, population, size)
    ensures size <= population
  {
    DistinctValuesCount(batch);
    forall v | v in Values(batch) ensures v in Below(population) {
      BelowMembers(population, v);
    }
    BelowCount(population);
    SubsetCount(Values(batch), Below(population));
  }

  /** A draw of `size` slots below `population` exists exactly when size <= population. */
  lemma DrawPossibleIff(population: nat, size: nat)
    ensures (exists batch :: IsDraw(batch, population, size)) <==> size <= population
  {
    if size <= population {
      assert IsDraw(FirstSlots(size), population, size);
    }
    forall batch | IsDraw(batch, population, size) ensures size <= population {
      DrawNeedsPopulation(batch, population, size);
    }
  }
}
